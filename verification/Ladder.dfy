/** The ladder of a call (packages/core/src/calls.ts): where it rings next, and how long it can take. */
module Ladder {
  import opened Basics
  import opened CallLog

  /** One rung: who is rung, for how long, after which delay (seconds). */
  datatype Step = Step(targets: seq<DeviceId>, ringSeconds: nat, delaySeconds: nat)

  /** Every target of the ladder, rung after rung. */
  function AllTargets(steps: seq<Step>): seq<DeviceId> {
    if steps == [] then [] else steps[0].targets + AllTargets(steps[1..])
  }

  lemma {:induction false} RungIsInLadder(steps: seq<Step>, c: nat, d: DeviceId)
    requires c < |steps| && d in steps[c].targets
    ensures d in AllTargets(steps)
  {
    if c > 0 { RungIsInLadder(steps[1..], c - 1, d); }
  }

  /** Where a ladder standing at (pass, cursor) rings next, if it rings again at all. */
  ghost function NextRung(steps: seq<Step>, repeat: nat, pass: nat, cursor: nat): (r: Option<(nat, nat)>)
    requires pass <= repeat && cursor <= |steps|
    ensures r.Some? ==> r.value.1 < |steps|
    decreases repeat - pass, |steps| - cursor
  {
    if cursor == |steps| then
      if pass < repeat then NextRung(steps, repeat, pass + 1, 0) else None
    else if steps[cursor].targets == [] then NextRung(steps, repeat, pass, cursor + 1)
    else Some((pass, cursor))
  }

  ghost predicate AtOrAfter(p: nat, c: nat, pass: nat, cursor: nat) {
    pass < p || (pass == p && cursor <= c)
  }

  /** NextRung is the lexicographically first rung from here on that has somebody on it. */
  lemma {:induction false} NextRungIsFirst(steps: seq<Step>, repeat: nat, pass: nat, cursor: nat)
    requires pass <= repeat && cursor <= |steps|
    ensures NextRung(steps, repeat, pass, cursor).Some? ==>
      var (p, c) := NextRung(steps, repeat, pass, cursor).value;
      && p <= repeat && c < |steps| && steps[c].targets != [] && AtOrAfter(p, c, pass, cursor)
      && forall q: nat, k: nat :: k < |steps| && AtOrAfter(q, k, pass, cursor) && !AtOrAfter(q, k, p, c)
           ==> steps[k].targets == []
    ensures NextRung(steps, repeat, pass, cursor).None? ==>
      forall q: nat, k: nat :: q <= repeat && k < |steps| && AtOrAfter(q, k, pass, cursor)
        ==> steps[k].targets == []
    decreases repeat - pass, |steps| - cursor
  {
    if cursor == |steps| {
      if pass < repeat {
        NextRungIsFirst(steps, repeat, pass + 1, 0);
        assert forall q: nat, k: nat | k < |steps| && AtOrAfter(q, k, pass, cursor) :: AtOrAfter(q, k, pass + 1, 0);
      }
    } else if steps[cursor].targets == [] {
      NextRungIsFirst(steps, repeat, pass, cursor + 1);
      assert forall q: nat, k: nat | AtOrAfter(q, k, pass, cursor) ::
          (q == pass && k == cursor) || AtOrAfter(q, k, pass, cursor + 1);
    }
  }

  lemma SomebodyIsFirst(steps: seq<Step>, repeat: nat)
    requires exists k :: 0 <= k < |steps| && steps[k].targets != []
    ensures NextRung(steps, repeat, 0, 0).Some?
  {
    var k :| 0 <= k < |steps| && steps[k].targets != [];
    NextRungIsFirst(steps, repeat, 0, 0);
    assert AtOrAfter(0, k, 0, 0);
  }

  /** Milliseconds one walk down the ladder takes from `cursor` on, if nobody reacts. */
  ghost function WalkMs(steps: seq<Step>, cursor: nat): nat
    requires cursor <= |steps|
    decreases |steps| - cursor
  {
    if cursor == |steps| then 0
    else (if steps[cursor].targets == [] then 0
          else 1000 * (steps[cursor].delaySeconds + steps[cursor].ringSeconds))
         + WalkMs(steps, cursor + 1)
  }

  /** The same, including the passes still to come. */
  ghost function RemainingMs(steps: seq<Step>, repeat: nat, pass: nat, cursor: nat): nat
    requires pass <= repeat && cursor <= |steps|
    decreases repeat - pass
  {
    WalkMs(steps, cursor) + if pass < repeat then RemainingMs(steps, repeat, pass + 1, 0) else 0
  }

  /** Restarting the ladder costs no time, nor does an empty rung. */
  lemma BackToTop(steps: seq<Step>, repeat: nat, pass: nat)
    requires pass < repeat
    ensures NextRung(steps, repeat, pass, |steps|) == NextRung(steps, repeat, pass + 1, 0)
    ensures RemainingMs(steps, repeat, pass, |steps|) == RemainingMs(steps, repeat, pass + 1, 0)
  {
  }

  lemma PastEmpty(steps: seq<Step>, repeat: nat, pass: nat, cursor: nat)
    requires pass <= repeat && cursor < |steps| && steps[cursor].targets == []
    ensures NextRung(steps, repeat, pass, cursor) == NextRung(steps, repeat, pass, cursor + 1)
    ensures RemainingMs(steps, repeat, pass, cursor) == RemainingMs(steps, repeat, pass, cursor + 1)
  {
  }

  /** The whole budget of a call: one full walk for every pass. */
  lemma {:induction false} WholeBudget(steps: seq<Step>, repeat: nat, pass: nat)
    requires pass <= repeat
    ensures RemainingMs(steps, repeat, pass, 0) == (repeat - pass + 1) * WalkMs(steps, 0)
    decreases repeat - pass
  {
    if pass < repeat { WholeBudget(steps, repeat, pass + 1); }
  }
}
