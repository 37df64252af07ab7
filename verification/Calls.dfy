/**
 * The class `CallOrchestrator` of packages/core/src/calls.ts: placing a call, walking its
 * ladder, and what answers, declines, disappearances, cancellations and timers do to it.
 */
module Calls {
  import opened Basics
  import opened CallLog
  import opened Ladder

  type CallId = string

  const ANSWERED_CALL_TTL_MS: nat := 15 * 60_000

  datatype Timer = Unarmed | StartAt(due: nat) | AdvanceAt(due: nat)

  datatype CallResult =
    | AnsweredBy(device: DeviceId, attempted: seq<DeviceId>)
    | AllDeclined(attempted: seq<DeviceId>)
    | Missed(attempted: seq<DeviceId>)
    | CallCancelled(attempted: seq<DeviceId>)

  ghost function Elements(s: seq<DeviceId>): set<DeviceId> {
    set d | d in s
  }

  /** The log once each target in turn has been sent its `call` frame. */
  ghost function RungOnto(log: seq<Event>, targets: seq<DeviceId>): seq<Event>
    decreases |targets|
  {
    if targets == [] then log else RungOnto(log + [Ring(targets[0])], targets[1..])
  }

  /** The log after `n` restarts of the ladder with nobody rung in between. */
  ghost function RestartedOnto(log: seq<Event>, n: nat): seq<Event>
    decreases n
  {
    if n == 0 then log else RestartedOnto(log + [NewPass], n - 1)
  }

  /** One `call` frame for each target, in their order. */
  lemma {:induction false} RungOntoMeans(log: seq<Event>, targets: seq<DeviceId>)
    ensures RungOnto(log, targets) == log + seq(|targets|, i requires 0 <= i < |targets| => Ring(targets[i]))
    decreases |targets|
  {
    if targets == [] {
      assert log + [] == log;
    } else {
      RungOntoMeans(log + [Ring(targets[0])], targets[1..]);
    }
  }

  lemma {:induction false} RestartedOntoMeans(log: seq<Event>, n: nat)
    ensures RestartedOnto(log, n) == log + seq(n, i => NewPass)
    decreases n
  {
    if n == 0 {
      assert log + [] == log;
    } else {
      RestartedOntoMeans(log + [NewPass], n - 1);
    }
  }

  /** All that can change about a call, at one moment. */
  datatype Snapshot = Snapshot(
    cursor: nat, pass: nat, attempted: seq<DeviceId>, declined: set<DeviceId>, vanished: set<DeviceId>,
    ringing: set<DeviceId>, timer: Timer, reaper: Option<nat>, answeredBy: Option<DeviceId>, settled: bool,
    log: seq<Event>, results: seq<CallResult>)

  class ActiveCall {
    const id: CallId
    const steps: seq<Step>
    const repeat: nat
    ghost const placedAt: nat
    /** The latest moment an outcome can be due: every pass waited out in full. */
    ghost const deadline: nat := placedAt + RemainingMs(steps, repeat, 0, 0)

    var cursor: nat
    var pass: nat
    var attempted: seq<DeviceId>
    var declined: set<DeviceId>
    var vanished: set<DeviceId>
    var ringing: set<DeviceId>
    var timer: Timer
    /** When an answered call that never reports its end is dropped. */
    var reaper: Option<nat>
    var answeredBy: Option<DeviceId>
    var settled: bool

    /** Everything sent to and heard from devices about this call, in order. */
    ghost var log: seq<Event>
    /** The values the caller's promise was resolved with. */
    ghost var results: seq<CallResult>

    constructor (id: CallId, steps: seq<Step>, repeat: nat, ghost now: nat)
      ensures this.id == id && this.steps == steps && this.repeat == repeat && placedAt == now
      ensures cursor == 0 && pass == 0 && timer == Unarmed && log == [] && Walking()
      ensures ringing == {}
    {
      this.id, this.steps, this.repeat, placedAt := id, steps, repeat, now;
      cursor, pass, attempted := 0, 0, [];
      declined, vanished, ringing := {}, {}, {};
      timer, reaper, answeredBy, settled := Unarmed, None, None, false;
      log, results := [], [];
    }

    ghost function View(): Snapshot
      reads this
    {
      Snapshot(cursor, pass, attempted, declined, vanished, ringing, timer, reaper, answeredBy, settled, log, results)
    }

    /** The fields are what the log says they are. */
    ghost predicate Faithful()
      reads this
    {
      && ringing == Read(log).sounding
      && declined == Read(log).declined
      && vanished == Read(log).vanished
      && attempted == Read(log).rung
      && pass <= repeat && cursor <= |steps|
    }

    /** Faithful, and no outcome yet. */
    ghost predicate Walking()
      reads this
    {
      && Faithful()
      && !settled && results == [] && answeredBy.None? && reaper.None?
      && Read(log).answers == []
    }

    /** On a rung: its timer is armed and leaves the rest of the ladder enough time. */
    ghost predicate OnRung(now: nat)
      reads this
    {
      && cursor < |steps| && pass <= repeat && steps[cursor].targets != []
      && match timer
         case Unarmed => false
         case StartAt(due) =>
           && ringing == {} && steps[cursor].delaySeconds > 0 && now <= due
           && due + 1000 * steps[cursor].ringSeconds + RemainingMs(steps, repeat, pass, cursor + 1) <= deadline
         case AdvanceAt(due) =>
           && ringing != {} && ringing <= Elements(steps[cursor].targets) && now <= due && attempted != []
           && due + RemainingMs(steps, repeat, pass, cursor + 1) <= deadline
    }

    /** The one result is the truth about the log. */
    ghost predicate Truthful(r: CallResult)
      reads this
    {
      && r.attempted == attempted
      && match r
         case AnsweredBy(d, _) =>
           answeredBy == Some(d) && Read(log).answers == [(d, true)]
         case AllDeclined(_) =>
           pass == repeat && attempted != [] && Refused(log)
         case Missed(_) =>
           pass == repeat && !(Refused(log))
         case CallCancelled(_) => true
    }

    /** Over: nothing rings, nothing is pending, and the promise was resolved once, with the truth. */
    ghost predicate Over()
      reads this
    {
      && Faithful() && settled
      && ringing == {} && timer == Unarmed
      && |results| == 1 && Truthful(results[0])
      && (answeredBy.Some? <==> results[0].AnsweredBy?)
    }

    ghost predicate Inv(now: nat)
      reads this
    {
      if settled then Over() && (reaper.Some? ==> answeredBy.Some? && now <= reaper.value)
      else Walking() && OnRung(now)
    }
  }

  /** Every device rung in any pass has declined in this one. */
  ghost predicate Refused(log: seq<Event>) {
    forall d :: d in Read(log).rung ==> d in Read(log).declined
  }

  /** Exactly the devices of `told` were sent a cancel for this reason, and nobody else. */
  ghost predicate Notices(events: seq<Event>, told: set<DeviceId>, reason: Reason) {
    && (forall e :: e in events ==> e.Cancel? && e.reason == reason && e.device in told)
    && (forall d :: d in told ==> Cancel(d, reason) in events)
  }

  /** The cancels an answer sends: one for each place of the ladder held by a phone still to be told. */
  ghost function TakenNotices(all: seq<DeviceId>, told: set<DeviceId>): seq<Event> {
    if all == [] then [] else
      var last := all[|all| - 1];
      TakenNotices(all[..|all| - 1], told) + if last in told then [Cancel(last, Taken)] else []
  }

  /** Every phone told was told once for each of its places in `all`. */
  ghost predicate OncePerPlace(sent: seq<Event>, told: set<DeviceId>, all: seq<DeviceId>) {
    forall d :: d in told ==> multiset(sent)[Cancel(d, Taken)] == multiset(all)[d]
  }

  lemma {:induction false} TakenNoticesMean(all: seq<DeviceId>, told: set<DeviceId>, d: DeviceId)
    ensures multiset(TakenNotices(all, told))[Cancel(d, Taken)] == if d in told then multiset(all)[d] else 0
    ensures forall e :: e in TakenNotices(all, told) ==> e.Cancel? && e.reason == Taken && e.device in told
  {
    if all != [] {
      TakenNoticesMean(all[..|all| - 1], told, d);
      assert all == all[..|all| - 1] + [all[|all| - 1]];
    }
  }

  /** One more place: its phone falls silent, if it is to be told. */
  lemma TakenNoticesGrow(log: seq<Event>, rest: seq<DeviceId>, last: DeviceId, told: set<DeviceId>)
    ensures Read(log + TakenNotices(rest + [last], told)) == (
      var before := Read(log + TakenNotices(rest, told));
      if last in told then before.(sounding := before.sounding - {last}) else before)
  {
    var all, longer := rest + [last], log + TakenNotices(rest, told);
    assert all[..|all| - 1] == rest;
    if last in told {
      ReadGrows(longer, Cancel(last, Taken));
      assert log + TakenNotices(all, told) == longer + [Cancel(last, Taken)];
    } else {
      assert log + TakenNotices(all, told) == longer;
    }
  }

  lemma {:induction false} TakenNoticesSilence(log: seq<Event>, all: seq<DeviceId>, told: set<DeviceId>)
    ensures var after := Read(log + TakenNotices(all, told));
      && after == Read(log).(sounding := after.sounding)
      && forall d :: d in after.sounding <==> d in Read(log).sounding && !(d in told && d in all)
  {
    if all == [] {
      assert log + [] == log;
    } else {
      var last, rest := all[|all| - 1], all[..|all| - 1];
      TakenNoticesSilence(log, rest, told);
      TakenNoticesGrow(log, rest, last, told);
      assert all == rest + [last];
    }
  }

  /** Whoever was ringing has a place on the ladder, so everybody is told, and nobody else. */
  lemma TakenNoticesAreNotices(all: seq<DeviceId>, told: set<DeviceId>)
    requires told <= Elements(all)
    ensures Notices(TakenNotices(all, told), told, Taken) && OncePerPlace(TakenNotices(all, told), told, all)
  {
    TakenNoticesMean(all, told, "");
    forall d | d in told
      ensures Cancel(d, Taken) in TakenNotices(all, told)
      ensures multiset(TakenNotices(all, told))[Cancel(d, Taken)] == multiset(all)[d]
    {
      TakenNoticesMean(all, told, d);
      assert d in all && d in multiset(all);
      assert Cancel(d, Taken) in multiset(TakenNotices(all, told));
    }
  }

  /**
   * Where a call stands that has gone on to `next` from `pass` at the time `clock`, with `log`
   * written before: on that rung, rung at once or after its delay, or over because there is none left.
   */
  ghost predicate Landed(steps: seq<Step>, repeat: nat, next: Option<(nat, nat)>, pass: nat, log: seq<Event>,
                         call: Snapshot, clock: nat)
    requires pass <= repeat && (next.Some? ==> next.value.1 < |steps|)
  {
    match next
    case Some((p, c)) =>
      && pass <= p && call.pass == p && call.cursor == c && !call.settled
      && (if steps[c].delaySeconds > 0
          then call.timer == StartAt(clock + 1000 * steps[c].delaySeconds)
               && call.log == RestartedOnto(log, p - pass)
          else call.timer == AdvanceAt(clock + 1000 * steps[c].ringSeconds)
               && call.log == RungOnto(RestartedOnto(log, p - pass), steps[c].targets))
    case None =>
      && call.settled && call.pass == repeat && call.timer == Unarmed && call.reaper.None?
      && call.log == RestartedOnto(log, repeat - pass)
      && call.results == [if Refused(call.log) then AllDeclined(call.attempted) else Missed(call.attempted)]
  }

  /** A call as it is once a phone that rang is heard to decline or known to be gone. */
  function Heard(was: Snapshot, e: Event): Snapshot
    requires e.Declined? || e.Vanished?
  {
    was.(ringing := was.ringing - {e.device}, log := was.log + [e],
         declined := was.declined + if e.Declined? then {e.device} else {},
         vanished := was.vanished + if e.Vanished? then {e.device} else {})
  }

  /**
   * A phone of the rung at hand is heard to decline or known to be gone: if it was the last one
   * ringing, the call goes on to the next rung there is, and otherwise it stays on this one.
   */
  ghost predicate Left(steps: seq<Step>, repeat: nat, e: Event, was: Snapshot, now: Snapshot, clock: nat)
    requires e.Declined? || e.Vanished?
  {
    && was.pass <= repeat && was.cursor < |steps|
    && if was.ringing == {e.device} then
         Landed(steps, repeat, NextRung(steps, repeat, was.pass, was.cursor + 1), was.pass, was.log + [e], now, clock)
       else
         now == Heard(was, e)
  }

  /** What the loss of `device` does to a call in the map: from `was` to `now`, kept there or not. */
  ghost predicate DropEffect(steps: seq<Step>, repeat: nat, was: Snapshot, now: Snapshot, device: DeviceId, kept: bool,
                             clock: nat)
  {
    if was.answeredBy == Some(device) then
      !kept && now == was.(timer := Unarmed, reaper := None)
    else if device in was.ringing then
      (kept <==> !now.settled) && Left(steps, repeat, Vanished(device), was, now, clock)
    else
      kept && now == was
  }

  /** From `was` to `now`: the calls outside `todo` have seen the device go, the others stand still. */
  ghost predicate Swept(was: map<ActiveCall, Snapshot>, present: set<ActiveCall>,
                        now: map<ActiveCall, Snapshot>, kept: set<ActiveCall>,
                        todo: set<ActiveCall>, device: DeviceId, clock: nat)
  {
    && todo <= kept <= present <= was.Keys == now.Keys
    && forall c :: c in was ==>
         if c in present - todo then DropEffect(c.steps, c.repeat, was[c], now[c], device, c in kept, clock)
         else now[c] == was[c]
  }

  lemma SweptOn(was: map<ActiveCall, Snapshot>, present: set<ActiveCall>,
                now: map<ActiveCall, Snapshot>, kept: set<ActiveCall>, todo: set<ActiveCall>, device: DeviceId,
                clock: nat, call: ActiveCall, now': map<ActiveCall, Snapshot>, kept': set<ActiveCall>)
    requires Swept(was, present, now, kept, todo, device, clock) && call in todo
    requires call in now' && now' == now[call := now'[call]] && (kept' == kept || kept' == kept - {call})
    requires DropEffect(call.steps, call.repeat, now[call], now'[call], device, call in kept', clock)
    ensures Swept(was, present, now', kept', todo - {call}, device, clock)
  {
  }

  class CallOrchestrator {
    var active: map<CallId, ActiveCall>
    var now: nat
    /** Every call ever placed, so that calls which left the map stay accounted for. */
    ghost var placed: set<ActiveCall>

    constructor ()
      ensures Valid() && active == map[] && placed == {}
    {
      active, now, placed := map[], 0, {};
    }

    ghost predicate Registered()
      reads this, placed
    {
      && (forall id :: id in active ==> active[id] in placed && active[id].id == id)
      && (forall c, d :: c in placed && d in placed && c.id == d.id ==> c == d)
    }

    /** A call outside the map is over and has nothing pending. */
    ghost predicate Settled(c: ActiveCall)
      reads this, c
    {
      if c.id in active && active[c.id] == c then c.settled ==> c.reaper.Some?
      else c.settled && c.reaper.None?
    }

    ghost predicate Valid()
      reads this, placed
    {
      Registered() && forall c {:trigger c.Inv(now)} :: c in placed ==> c.Inv(now) && Settled(c)
    }

    /** Every method but `Dropped` and `CancelAll` touches one call; the others stay as they are. */
    twostate lemma KeepsValid(call: ActiveCall)
      requires old(Valid()) && placed == old(placed) && now == old(now) && call in placed
      requires active == old(active) || active == old(active) - {call.id}
      requires forall c :: c in placed && c != call ==> unchanged(c)
      requires call.Inv(now) && Settled(call)
      ensures Valid()
    {
      forall c | c in placed && c != call ensures c.Inv(now) && Settled(c) {
        assert old(c.Inv(now)) && unchanged(c);
      }
    }

    /** A call placed and set going joins the others, which stay as they are. */
    twostate lemma GrowsValid(new call: ActiveCall)
      requires old(Valid()) && now == old(now) && call !in old(placed) && placed == old(placed) + {call}
      requires active == old(active)[call.id := call] && forall c :: c in old(placed) ==> c.id != call.id
      requires forall c :: c in old(placed) ==> unchanged(c)
      requires call.Inv(now) && Settled(call)
      ensures Valid()
    {
      forall c | c in old(placed) ensures c.Inv(now) && Settled(c) {
        assert old(c.Inv(now)) && unchanged(c);
      }
    }

    // ---- walking the ladder -------------------------------------------------

    method ClearTimer(call: ActiveCall)
      modifies call`timer, call`reaper
      ensures call.timer == Unarmed && call.reaper.None?
    {
      call.timer, call.reaper := Unarmed, None;
    }

    method Settle(call: ActiveCall, result: CallResult)
      modifies call`settled, call`results
      ensures call.settled
      ensures call.results == old(call.results) + if old(call.settled) then [] else [result]
    {
      if call.settled { return; }
      call.settled := true;
      call.results := call.results + [result];
    }

    /** One pass of the loop in `start`: the device is rung and remembered. */
    method RingOne(call: ActiveCall, target: DeviceId)
      requires call.Walking()
      modifies call`attempted, call`ringing, call`log
      ensures call.Walking()
      ensures call.log == old(call.log) + [Ring(target)]
      ensures call.ringing == old(call.ringing) + {target}
      ensures old(call.attempted) <= call.attempted && call.attempted != []
    {
      ghost var longer := call.log + [Ring(target)];
      ReadGrows(call.log, Ring(target));
      if target !in call.attempted { call.attempted := call.attempted + [target]; }
      call.ringing := call.ringing + {target};
      call.log := longer;
    }

    /** Rings every target of the current rung. */
    method Start(call: ActiveCall)
      requires call.Walking() && call.ringing == {}
      requires call.cursor < |call.steps| && call.steps[call.cursor].targets != []
      requires now + 1000 * call.steps[call.cursor].ringSeconds
        + RemainingMs(call.steps, call.repeat, call.pass, call.cursor + 1) <= call.deadline
      modifies call`attempted, call`ringing, call`timer, call`log
      ensures call.Walking() && call.OnRung(now)
      ensures call.log == RungOnto(old(call.log), call.steps[call.cursor].targets)
      ensures call.timer == AdvanceAt(now + 1000 * call.steps[call.cursor].ringSeconds)
      ensures call.ringing == Elements(call.steps[call.cursor].targets)
      ensures old(call.attempted) <= call.attempted
    {
      var targets := call.steps[call.cursor].targets;
      for i := 0 to |targets|
        invariant call.Walking()
        invariant RungOnto(call.log, targets[i..]) == RungOnto(old(call.log), targets)
        invariant call.ringing + Elements(targets[i..]) == Elements(targets)
        invariant call.ringing <= Elements(targets) && (i > 0 ==> call.ringing != {} && call.attempted != [])
        invariant old(call.attempted) <= call.attempted
      {
        TakeOne(targets, i);
        RingOne(call, targets[i]);
      }
      call.timer := AdvanceAt(now + 1000 * call.steps[call.cursor].ringSeconds);
    }

    /** The rest of the ladder still fits into the time the call was given. */
    ghost predicate OnSchedule(call: ActiveCall)
      reads this, call
    {
      && call.pass <= call.repeat && call.cursor <= |call.steps|
      && now + RemainingMs(call.steps, call.repeat, call.pass, call.cursor) <= call.deadline
    }

    /** Between rungs: nobody rings, and the ladder has rung or will ring somebody. */
    ghost predicate Between(call: ActiveCall)
      reads this, call
    {
      && call.Walking() && call.ringing == {} && OnSchedule(call)
      && (call.attempted != [] || NextRung(call.steps, call.repeat, call.pass, call.cursor).Some?)
    }

    /** The call has gone on to `next` from `pass`, with `log` written before, and every invariant holds there. */
    ghost predicate MovedOn(call: ActiveCall, next: Option<(nat, nat)>, pass: nat, log: seq<Event>)
      requires pass <= call.repeat && (next.Some? ==> next.value.1 < |call.steps|)
      reads this`now, call
    {
      && Landed(call.steps, call.repeat, next, pass, log, call.View(), now)
      && if next.Some? then call.Walking() && call.OnRung(now) else call.Over()
    }

    /** The rung the call was on was silenced, each phone of `ringing` once, and the call moved on. */
    ghost predicate Advanced(call: ActiveCall, pass: nat, cursor: nat, ringing: set<DeviceId>, log: seq<Event>)
      reads this`now, call
    {
      && pass <= call.repeat && cursor < |call.steps|
      && exists sent :: SilencedAndMoved(call, pass, cursor, ringing, log, sent)
    }

    ghost predicate SilencedAndMoved(call: ActiveCall, pass: nat, cursor: nat, ringing: set<DeviceId>, log: seq<Event>,
                                     sent: seq<Event>)
      requires pass <= call.repeat && cursor < |call.steps|
      reads this`now, call
    {
      && Notices(sent, ringing, MissedRing) && |sent| == |ringing|
      && MovedOn(call, NextRung(call.steps, call.repeat, pass, cursor + 1), pass, log + sent)
    }

    /** Back to the top of the ladder; declines and disappearances belong to the pass they happened in. */
    method Restart(call: ActiveCall)
      requires call.Walking() && call.ringing == {} && call.pass < call.repeat
      modifies call`pass, call`cursor, call`ringing, call`declined, call`vanished, call`log
      ensures call.Walking() && call.ringing == {}
      ensures call.pass == old(call.pass) + 1 && call.cursor == 0
      ensures call.log == old(call.log) + [NewPass]
    {
      ReadGrows(call.log, NewPass);
      ghost var longer := call.log + [NewPass];
      assert Read(longer) == Read(call.log).(declined := {}, vanished := {});
      call.pass := call.pass + 1;
      call.cursor := 0;
      call.ringing := {};
      call.declined := {};
      call.vanished := {};
      call.log := longer;
    }

    /** Waits out the rung's delay, or rings at once. */
    method EnterRung(call: ActiveCall)
      requires Between(call) && call.cursor < |call.steps| && call.steps[call.cursor].targets != []
      modifies call`attempted, call`ringing, call`timer, call`log
      ensures MovedOn(call, Some((call.pass, call.cursor)), call.pass, old(call.log))
      ensures old(call.attempted) <= call.attempted
    {
      if call.steps[call.cursor].delaySeconds > 0 {
        call.timer := StartAt(now + 1000 * call.steps[call.cursor].delaySeconds);
      } else {
        Start(call);
      }
    }

    method RunStep(call: ActiveCall)
      requires Between(call)
      modifies call, this`active
      ensures MovedOn(call, NextRung(call.steps, call.repeat, old(call.pass), old(call.cursor)),
                      old(call.pass), old(call.log))
      ensures active == if call.settled then old(active) - {call.id} else old(active)
      ensures old(call.attempted) <= call.attempted
      decreases call.repeat - call.pass, |call.steps| - call.cursor, 1
    {
      if call.cursor == |call.steps| {
        if call.pass < call.repeat {
          OnceMore(call);
          return;
        }
        Exhausted(call);
        return;
      }
      if call.steps[call.cursor].targets == [] {
        PastEmpty(call.steps, call.repeat, call.pass, call.cursor);
        call.cursor := call.cursor + 1;
        RunStep(call);
        return;
      }
      EnterRung(call);
    }

    /** The next pass, from the top. */
    method OnceMore(call: ActiveCall)
      requires Between(call) && call.cursor == |call.steps| && call.pass < call.repeat
      modifies call, this`active
      ensures MovedOn(call, NextRung(call.steps, call.repeat, old(call.pass), old(call.cursor)),
                      old(call.pass), old(call.log))
      ensures active == if call.settled then old(active) - {call.id} else old(active)
      ensures old(call.attempted) <= call.attempted
      decreases call.repeat - call.pass, |call.steps| - call.cursor, 0
    {
      BackToTop(call.steps, call.repeat, call.pass);
      Restart(call);
      RunStep(call);
      RestartFolds(old(call.log), call.pass - old(call.pass) - 1);
    }

    method Exhausted(call: ActiveCall)
      requires call.Walking() && call.ringing == {} && call.attempted != []
      requires call.pass == call.repeat
      modifies call, this`active
      ensures MovedOn(call, None, call.repeat, old(call.log))
      ensures call.attempted == old(call.attempted)
      ensures active == old(active) - {call.id}
    {
      var allDeclined := |call.attempted| > 0 && forall d :: d in call.attempted ==> d in call.declined;
      if !allDeclined {
        Miss(call);
        return;
      }
      ClearTimer(call);
      Settle(call, AllDeclined(call.attempted));
      active := active - {call.id};
    }

    method SilenceOne(call: ActiveCall, d: DeviceId, reason: Reason)
      requires call.Faithful() && d in call.ringing
      modifies call`log, call`ringing
      ensures call.Faithful() && call.ringing == old(call.ringing) - {d}
      ensures call.log == old(call.log) + [Cancel(d, reason)]
      ensures Read(call.log) == Read(old(call.log)).(sounding := call.ringing)
    {
      ghost var longer := call.log + [Cancel(d, reason)];
      ReadGrows(call.log, Cancel(d, reason));
      call.ringing := call.ringing - {d};
      call.log := longer;
    }

    /** Sends one cancel to every device still ringing. */
    method Silence(call: ActiveCall, reason: Reason)
      requires call.Faithful()
      modifies call`log, call`ringing
      ensures call.Faithful() && call.ringing == {}
      ensures Read(call.log) == Read(old(call.log)).(sounding := {})
      ensures old(call.log) <= call.log
      ensures Notices(call.log[|old(call.log)|..], old(call.ringing), reason)
      ensures |call.log| == |old(call.log)| + |old(call.ringing)|
    {
      ghost var sent: seq<Event> := [];
      while call.ringing != {}
        invariant call.Faithful() && call.ringing <= old(call.ringing)
        invariant Read(call.log) == Read(old(call.log)).(sounding := call.ringing)
        invariant call.log == old(call.log) + sent
        invariant |sent| + |call.ringing| == |old(call.ringing)|
        invariant Notices(sent, old(call.ringing) - call.ringing, reason)
        decreases call.ringing
      {
        var d :| d in call.ringing;
        SilenceOne(call, d, reason);
        sent := sent + [Cancel(d, reason)];
      }
    }

    /** By now nobody can still be ringing: the loop over `ringing` sends nothing. */
    method Miss(call: ActiveCall)
      requires call.Walking() && call.pass == call.repeat && call.ringing == {}
      requires !Refused(call.log)
      modifies call, this`active
      ensures call.Over() && call.pass == call.repeat && call.reaper.None?
      ensures call.attempted == old(call.attempted) && call.log == old(call.log)
      ensures call.results == [Missed(call.attempted)]
      ensures active == old(active) - {call.id}
    {
      ClearTimer(call);
      Silence(call, MissedRing);
      assert call.log == old(call.log);
      Settle(call, Missed(call.attempted));
      active := active - {call.id};
    }

    /** Sends one cancel to each target that is still ringing. */
    method SilenceTargets(call: ActiveCall, targets: seq<DeviceId>, reason: Reason) returns (ghost sent: seq<Event>)
      requires call.Faithful() && call.ringing <= Elements(targets)
      modifies call`log, call`ringing
      ensures call.Faithful() && call.ringing == {}
      ensures Read(call.log) == Read(old(call.log)).(sounding := {})
      ensures call.log == old(call.log) + sent
      ensures Notices(sent, old(call.ringing), reason) && |sent| == |old(call.ringing)|
    {
      sent := [];
      for i := 0 to |targets|
        invariant call.Faithful() && call.ringing <= old(call.ringing) * Elements(targets[i..])
        invariant Read(call.log) == Read(old(call.log)).(sounding := call.ringing)
        invariant call.log == old(call.log) + sent && |sent| + |call.ringing| == |old(call.ringing)|
        invariant Notices(sent, old(call.ringing) - call.ringing, reason)
      {
        TakeOne(targets, i);
        if targets[i] in call.ringing {
          SilenceOne(call, targets[i], reason);
          sent := sent + [Cancel(targets[i], reason)];
        }
      }
    }

    /** The rung is done with: the ladder moves on. */
    method NextStep(call: ActiveCall)
      requires call.Walking() && call.cursor < |call.steps| && call.attempted != [] && call.ringing == {}
      requires now + RemainingMs(call.steps, call.repeat, call.pass, call.cursor + 1) <= call.deadline
      modifies call, this`active
      ensures MovedOn(call, NextRung(call.steps, call.repeat, old(call.pass), old(call.cursor) + 1),
                      old(call.pass), old(call.log))
      ensures active == if call.settled then old(active) - {call.id} else old(active)
    {
      call.cursor := call.cursor + 1;
      RunStep(call);
    }

    /** This rung ran out of time: silence it and move on. */
    method Advance(call: ActiveCall)
      requires call.Walking() && call.cursor < |call.steps| && call.attempted != []
      requires call.ringing <= Elements(call.steps[call.cursor].targets)
      requires now + RemainingMs(call.steps, call.repeat, call.pass, call.cursor + 1) <= call.deadline
      modifies call, this`active
      ensures Advanced(call, old(call.pass), old(call.cursor), old(call.ringing), old(call.log))
      ensures call.Inv(now) && (call.settled ==> call.reaper.None?)
      ensures active == if call.settled then old(active) - {call.id} else old(active)
    {
      ghost var pass, cursor, ringing, log := call.pass, call.cursor, call.ringing, call.log;
      ghost var sent := SilenceTargets(call, call.steps[call.cursor].targets, MissedRing);
      NextStep(call);
      assert SilencedAndMoved(call, pass, cursor, ringing, log, sent);
    }

    // ---- what callers, devices and timers do --------------------------------

    /** `failed` at once if no rung has anybody on it; otherwise the call is under way. */
    method Place(id: CallId, steps: seq<Step>, repeat: nat) returns (failed: bool, call: ActiveCall?)
      requires Valid() && forall c :: c in placed ==> c.id != id
      modifies this
      ensures Valid() && now == old(now)
      ensures failed <==> forall k :: 0 <= k < |steps| ==> steps[k].targets == []
      ensures failed ==> call == null && active == old(active) && placed == old(placed)
      ensures !failed ==> call != null && fresh(call) && placed == old(placed) + {call}
      ensures !failed ==> active == old(active)[id := call] && call.id == id && call.steps == steps
      ensures !failed ==> call.repeat == repeat && call.placedAt == now && !call.settled
      ensures !failed ==> MovedOn(call, NextRung(steps, repeat, 0, 0), 0, [])
    {
      failed := forall k :: 0 <= k < |steps| ==> steps[k].targets == [];
      call := null;
      if failed { return; }
      var placing := new ActiveCall(id, steps, repeat, now);
      active := active[id := placing];
      placed := placed + {placing};
      SomebodyIsFirst(steps, repeat);
      RunStep(placing);
      GrowsValid(placing);
      call := placing;
    }

    /** The call's timer runs out. */
    method Fire(call: ActiveCall)
      requires Valid() && call in placed
      requires call.timer != Unarmed && call.timer.due <= now
      modifies call, this`active
      ensures Valid()
      ensures old(call.timer).StartAt? ==>
        && call.pass == old(call.pass) && call.cursor == old(call.cursor) < |call.steps|
        && call.log == RungOnto(old(call.log), call.steps[call.cursor].targets)
        && call.timer == AdvanceAt(now + 1000 * call.steps[call.cursor].ringSeconds)
      ensures old(call.timer).AdvanceAt? ==>
        Advanced(call, old(call.pass), old(call.cursor), old(call.ringing), old(call.log))
      ensures active == if call.settled then old(active) - {call.id} else old(active)
    {
      assert call.Inv(now);
      if call.timer.StartAt? {
        call.timer := Unarmed;
        Start(call);
      } else {
        RunOut(call);
      }
      KeepsValid(call);
    }

    /** The ring timer of a rung fires. */
    method RunOut(call: ActiveCall)
      requires call.Walking() && call.OnRung(now) && call.timer.AdvanceAt? && call.timer.due <= now
      modifies call, this`active
      ensures Advanced(call, old(call.pass), old(call.cursor), old(call.ringing), old(call.log)) && call.Inv(now)
      ensures call.settled ==> call.reaper.None?
      ensures active == if call.settled then old(active) - {call.id} else old(active)
    {
      call.timer := Unarmed;
      Advance(call);
    }

    /** `e.device` stopped ringing; the call moved on exactly if it was the last one. */
    ghost predicate LeftRung(call: ActiveCall, e: Event, was: Snapshot)
      requires e.Declined? || e.Vanished?
      reads this`now, call
    {
      Left(call.steps, call.repeat, e, was, call.View(), now) && call.Inv(now)
    }

    /** Tells every other phone still ringing that the call was taken. */
    method TellOthers(call: ActiveCall, device: DeviceId) returns (ghost sent: seq<Event>)
      requires call.Faithful() && device !in call.ringing
      requires call.ringing <= Elements(AllTargets(call.steps))
      modifies call`log, call`ringing
      ensures call.Faithful() && call.ringing == {}
      ensures Read(call.log) == Read(old(call.log)).(sounding := {})
      ensures call.log == old(call.log) + sent
      ensures Notices(sent, old(call.ringing), Taken) && OncePerPlace(sent, old(call.ringing), AllTargets(call.steps))
    {
      sent := TellEachPlace(call, device);
      TakenNoticesAreNotices(AllTargets(call.steps), call.ringing);
      TakenNoticesSilence(old(call.log), AllTargets(call.steps), call.ringing);
      call.ringing := {};
    }

    /** The loop over all targets: those still ringing are told, place by place. */
    method TellEachPlace(call: ActiveCall, device: DeviceId) returns (ghost sent: seq<Event>)
      requires device !in call.ringing
      modifies call`log
      ensures call.log == old(call.log) + sent && sent == TakenNotices(AllTargets(call.steps), call.ringing)
    {
      var all := AllTargets(call.steps);
      sent := [];
      for i := 0 to |all|
        invariant call.log == old(call.log) + sent && sent == TakenNotices(all[..i], call.ringing)
      {
        assert all[..i + 1] == all[..i] + [all[i]];
        if all[i] != device && all[i] in call.ringing {
          call.log := call.log + [Cancel(all[i], Taken)];
          sent := sent + [Cancel(all[i], Taken)];
        }
      }
      assert all[..|all|] == all;
    }

    /** A ringing device answers, declines or goes away: it stops ringing. */
    method HearFrom(call: ActiveCall, e: Event)
      requires e.Answered? || e.Declined? || e.Vanished?
      requires call.Faithful() && e.device in call.ringing
      modifies call`ringing, call`declined, call`vanished, call`log
      ensures call.Faithful() && call.ringing == old(call.ringing) - {e.device}
      ensures call.log == old(call.log) + [e]
      ensures Read(call.log) == Hear(Read(old(call.log)), e)
      ensures !e.Answered? ==> call.View() == Heard(old(call.View()), e)
    {
      ReadGrows(call.log, e);
      ghost var longer := call.log + [e];
      if e.Declined? { call.declined := call.declined + {e.device}; }
      if e.Vanished? { call.vanished := call.vanished + {e.device}; }
      call.ringing := call.ringing - {e.device};
      call.log := longer;
    }

    /** `device` answered, and each other phone that rang was told once for each of its places on the ladder. */
    ghost predicate Told(call: ActiveCall, device: DeviceId, was: Snapshot, sent: seq<Event>)
      reads call
    {
      && call.log == was.log + [Answered(device)] + sent
      && Notices(sent, was.ringing - {device}, Taken)
      && OncePerPlace(sent, was.ringing - {device}, AllTargets(call.steps))
    }

    /** The answer is heard, and whoever else rings is told. */
    method HandOver(call: ActiveCall, device: DeviceId) returns (ghost sent: seq<Event>)
      requires call.Faithful() && device in call.ringing && Read(call.log).answers == []
      requires call.ringing <= Elements(AllTargets(call.steps))
      modifies call`answeredBy, call`ringing, call`declined, call`vanished, call`log
      ensures call.Faithful() && call.ringing == {} && call.answeredBy == Some(device)
      ensures Read(call.log).answers == [(device, true)]
      ensures Told(call, device, old(call.View()), sent)
    {
      call.answeredBy := Some(device);
      HearFrom(call, Answered(device));
      sent := TellOthers(call, device);
    }

    method TakeCall(call: ActiveCall, device: DeviceId) returns (ghost sent: seq<Event>)
      requires call.Walking() && device in call.ringing
      requires call.ringing <= Elements(AllTargets(call.steps))
      modifies call
      ensures call.Over() && call.reaper == Some(now + ANSWERED_CALL_TTL_MS)
      ensures call.results == [AnsweredBy(device, old(call.attempted))]
      ensures Told(call, device, old(call.View()), sent)
    {
      ClearTimer(call);
      sent := HandOver(call, device);
      Settle(call, AnsweredBy(device, call.attempted));
      call.reaper := Some(now + ANSWERED_CALL_TTL_MS);
    }

    method Answer(callId: CallId, device: DeviceId)
      requires Valid()
      modifies placed
      ensures Valid()
      ensures callId in active && device in old(active[callId].ringing) ==>
        var call := active[callId];
        && call.results == [AnsweredBy(device, old(call.attempted))]
        && call.reaper == Some(now + 15 * 60_000)
        && (exists sent :: Told(call, device, old(call.View()), sent))
        && forall c :: c in placed && c != call ==> unchanged(c)
      ensures !(callId in active && device in old(active[callId].ringing)) ==> unchanged(placed)
    {
      if callId !in active { return; }
      var call := active[callId];
      assert call.Inv(now);
      if call.answeredBy.Some? { return; }
      if device !in AllTargets(call.steps) || device !in call.ringing {
        if device in call.ringing { RungIsInLadder(call.steps, call.cursor, device); }
        return;
      }
      RungIsInLadderAll(call.steps, call.cursor);
      ghost var sent := TakeCall(call, device);
      KeepsValid(call);
    }

    /** What `decline` and `vanish` share once the device is known to be ringing. */
    method LeaveRung(call: ActiveCall, e: Event)
      requires e.Declined? || e.Vanished?
      requires call.Walking() && call.OnRung(now) && e.device in call.ringing
      modifies call, this`active
      ensures LeftRung(call, e, old(call.View()))
      ensures active == if call.settled then old(active) - {call.id} else old(active)
    {
      HearFrom(call, e);
      if call.ringing != {} { return; }
      LastLeft(call);
    }

    /** Nobody rings any more: the ladder does not wait for the timer. */
    method LastLeft(call: ActiveCall)
      requires call.Walking() && call.cursor < |call.steps| && call.attempted != [] && call.ringing == {}
      requires now + RemainingMs(call.steps, call.repeat, call.pass, call.cursor + 1) <= call.deadline
      modifies call, this`active
      ensures MovedOn(call, NextRung(call.steps, call.repeat, old(call.pass), old(call.cursor) + 1),
                      old(call.pass), old(call.log))
      ensures active == if call.settled then old(active) - {call.id} else old(active)
    {
      ClearTimer(call);
      NextStep(call);
    }

    method Decline(callId: CallId, device: DeviceId)
      requires Valid()
      modifies placed, this`active
      ensures Valid() && now == old(now)
      ensures callId in old(active) && device in old(active[callId].ringing) ==>
        var call := old(active[callId]);
        && LeftRung(call, Declined(device), old(call.View()))
        && active == (if call.settled then old(active) - {callId} else old(active))
        && forall c :: c in placed && c != call ==> unchanged(c)
      ensures !(callId in old(active) && device in old(active[callId].ringing)) ==>
        unchanged(placed) && active == old(active)
    {
      if callId !in active { return; }
      var call := active[callId];
      assert call.Inv(now);
      if call.answeredBy.Some? { return; }
      if device !in call.ringing { return; }
      LeaveRung(call, Declined(device));
      KeepsValid(call);
    }

    /** Only the device that answered may end a call. */
    method Ended(callId: CallId, device: DeviceId)
      requires Valid()
      modifies placed, this`active
      ensures Valid() && now == old(now)
      ensures forall c :: c in placed ==>
        c.log == old(c.log) && c.results == old(c.results) && c.ringing == old(c.ringing)
      ensures active == if callId in old(active) && old(active[callId].answeredBy) == Some(device)
                        then old(active) - {callId} else old(active)
    {
      if callId !in active { return; }
      var call := active[callId];
      assert call.Inv(now);
      if call.answeredBy != Some(device) { return; }
      ClearTimer(call);
      Settle(call, AnsweredBy(device, call.attempted));
      active := active - {callId};
      KeepsValid(call);
    }

    /** An answered call whose `call.ended` never arrives is forgotten in the end. */
    method Reap(call: ActiveCall)
      requires Valid() && call in placed && call.reaper.Some? && call.reaper.value <= now
      modifies call`reaper, this`active
      ensures Valid()
      ensures active == old(active) - {call.id}
    {
      assert call.Inv(now);
      call.reaper := None;
      active := active - {call.id};
      KeepsValid(call);
    }

    /** Silences whoever rings and settles the call, unless it was answered long ago. */
    method CancelOne(call: ActiveCall)
      requires call.Inv(now)
      modifies call
      ensures call.Over() && call.reaper.None?
      ensures old(call.log) <= call.log && Notices(call.log[|old(call.log)|..], old(call.ringing), Cancelled)
      ensures |call.log| == |old(call.log)| + |old(call.ringing)|
      ensures call.results == if old(call.settled) then old(call.results) else [CallCancelled(call.attempted)]
    {
      ClearTimer(call);
      Silence(call, Cancelled);
      Settle(call, CallCancelled(call.attempted));
    }

    method CancelCall(callId: CallId) returns (known: bool)
      requires Valid()
      modifies placed, this`active
      ensures Valid() && now == old(now)
      ensures known == (callId in old(active)) && active == old(active) - {callId}
      ensures known ==>
        var call := old(active[callId]);
        && old(call.log) <= call.log && Notices(call.log[|old(call.log)|..], old(call.ringing), Cancelled)
        && |call.log| == |old(call.log)| + |old(call.ringing)|
        && call.results == (if old(call.settled) then old(call.results) else [CallCancelled(call.attempted)])
        && forall c :: c in placed && c != call ==> unchanged(c)
      ensures !known ==> unchanged(placed)
    {
      if callId !in active { return false; }
      var call := active[callId];
      assert call.Inv(now);
      CancelOne(call);
      active := active - {callId};
      KeepsValid(call);
      return true;
    }

    method CancelAll()
      requires Valid()
      modifies placed, this`active
      ensures Valid() && now == old(now) && active == map[]
      ensures forall c :: c in placed ==> c.settled && c.ringing == {}
    {
      while active != map[]
        invariant Valid() && placed == old(placed) && now == old(now)
        decreases active.Keys
      {
        var callId :| callId in active;
        var _ := CancelCall(callId);
      }
      assert forall c :: c in placed ==> c.Inv(now) && Settled(c);
    }

    ghost predicate InMap(c: ActiveCall)
      reads this`active
    {
      c.id in active && active[c.id] == c
    }

    /** Every call as it stands. */
    ghost function Views(): map<ActiveCall, Snapshot>
      reads this, placed
    {
      map c | c in placed :: c.View()
    }

    /** The calls in the map. */
    ghost function Present(): set<ActiveCall>
      reads this
    {
      set c | c in placed && InMap(c)
    }

    /** Before the first turn of the sweep every call in the map is still to do. */
    lemma NothingSwept(device: DeviceId)
      requires Valid()
      ensures Swept(Views(), Present(), Views(), Present(), active.Values, device, now)
    {
      assert active.Values == Present() by {
        forall c | c in active.Values ensures c in Present() {
          var id :| id in active && active[id] == c;
          assert c.id == id && InMap(c);
        }
      }
    }

    /** A device dropped off the network. */
    method Dropped(device: DeviceId)
      requires Valid()
      modifies placed, this`active
      ensures Valid() && now == old(now) && placed == old(placed)
      ensures Swept(old(Views()), old(Present()), Views(), Present(), {}, device, now)
    {
      ghost var was, present := Views(), Present();
      var todo := active.Values;
      NothingSwept(device);
      while todo != {}
        invariant Valid() && now == old(now) && placed == old(placed)
        invariant Swept(was, present, Views(), Present(), todo, device, now)
        decreases todo
      {
        var call :| call in todo;
        SweepOne(call, device, was, present, todo);
        todo := todo - {call};
      }
    }

    method SweepOne(call: ActiveCall, device: DeviceId, ghost was: map<ActiveCall, Snapshot>,
                    ghost present: set<ActiveCall>, ghost todo: set<ActiveCall>)
      requires Valid() && call in todo && Swept(was, present, Views(), Present(), todo, device, now)
      modifies call, this`active
      ensures Valid() && now == old(now) && placed == old(placed)
      ensures Swept(was, present, Views(), Present(), todo - {call}, device, now)
    {
      ghost var views, kept := Views(), Present();
      DropFrom(call, device);
      SweptOn(was, present, views, kept, todo, device, now, call, Views(), Present());
    }

    method DropFrom(call: ActiveCall, device: DeviceId)
      requires Valid() && call in Present()
      modifies call, this`active
      ensures Valid()
      ensures Views() == old(Views())[call := call.View()]
      ensures Present() == old(Present()) || Present() == old(Present()) - {call}
      ensures DropEffect(call.steps, call.repeat, old(call.View()), call.View(), device, call in Present(), now)
    {
      LoseAnswererOrLeg(call, device);
      assert forall c :: c in placed && c != call ==> unchanged(c);
    }

    method LoseAnswererOrLeg(call: ActiveCall, device: DeviceId)
      requires Valid() && call in Present()
      modifies call, this`active
      ensures Valid()
      ensures active == old(active) || active == old(active) - {call.id}
      ensures DropEffect(call.steps, call.repeat, old(call.View()), call.View(), device, call.id in active, now)
    {
      assert call.Inv(now);
      if call.answeredBy == Some(device) {
        ClearTimer(call);
        active := active - {call.id};
      } else if device in call.ringing {
        Vanish(call, device);
      }
      KeepsValid(call);
    }

    method Vanish(call: ActiveCall, device: DeviceId)
      requires call.Walking() && call.OnRung(now) && device in call.ringing
      modifies call, this`active
      ensures LeftRung(call, Vanished(device), old(call.View()))
      ensures active == if call.settled then old(active) - {call.id} else old(active)
    {
      LeaveRung(call, Vanished(device));
    }

    /** Time passes; timers that are due have fired by then. */
    method Tick(later: nat)
      requires Valid() && now <= later
      requires forall c :: c in placed ==>
        (c.timer != Unarmed ==> later <= c.timer.due) && (c.reaper.Some? ==> later <= c.reaper.value)
      modifies this`now
      ensures Valid() && now == later
    {
      assert forall c :: c in placed ==> c.Inv(now) && Settled(c);
      now := later;
      assert forall c :: c in placed ==> c.Inv(now);
    }
  }

  // ---- what every reachable state guarantees --------------------------------

  /** No phone is left ringing: the log and the call agree on who rings, and an ended call rings nobody. */
  lemma NoPhoneIsLeftRinging(hub: CallOrchestrator, c: ActiveCall, d: DeviceId)
    requires hub.Valid() && c in hub.placed
    ensures d in c.ringing <==> exists i :: StillRinging(c.log, i, d)
    ensures (exists i :: StillRinging(c.log, i, d)) ==>
      !c.settled && c.id in hub.active && c.cursor < |c.steps| && d in c.steps[c.cursor].targets
  {
    SoundingMeans(c.log, d);
    assert c.Inv(hub.now) && hub.Settled(c);
  }

  /** An undecided call always has its timer armed, and is decided once every pass has had its time. */
  lemma EveryCallEnds(hub: CallOrchestrator, c: ActiveCall)
    requires hub.Valid() && c in hub.placed
    ensures !c.settled ==> c.timer != Unarmed && hub.now <= c.timer.due && c.id in hub.active
    ensures hub.now > c.placedAt + (c.repeat + 1) * WalkMs(c.steps, 0) ==> c.settled && |c.results| == 1
  {
    assert c.Inv(hub.now) && hub.Settled(c);
    WholeBudget(c.steps, c.repeat, 0);
  }

  /** The resolved outcome, in terms of what was sent and heard. */
  lemma OutcomesAreTrue(hub: CallOrchestrator, c: ActiveCall)
    requires hub.Valid() && c in hub.placed && c.settled
    ensures |c.results| == 1 && c.results[0].attempted == c.attempted
    ensures Distinct(c.attempted) && forall d :: d in c.attempted <==> Ring(d) in c.log
    ensures c.results[0].AnsweredBy? ==> exists i :: RightfulAnswer(c.log, i, c.results[0].device)
    ensures c.results[0].AllDeclined? || c.results[0].Missed? ==>
      && c.pass == c.repeat
      && (c.results[0].AllDeclined? <==>
            forall d :: Ring(d) in c.log ==> exists i :: DeclinedSince(c.log, i, d))
  {
    assert c.Inv(hub.now) && c.Over();
    RungMeans(c.log);
    var r := c.results[0];
    if r.AnsweredBy? { AnswerMeans(c.log, r.device); }
    forall d ensures d in Read(c.log).declined <==> exists i :: DeclinedSince(c.log, i, d) {
      DeclinedMeans(c.log, d);
    }
  }

  lemma TwoPlaces(steps: seq<Step>)
    requires steps == [Step(["a", "b"], 10, 0), Step(["b"], 10, 0)]
    ensures AllTargets(steps) == ["a", "b", "b"] && multiset(AllTargets(steps))["b"] == 2
    ensures NextRung(steps, 0, 0, 0) == Some((0, 0))
    ensures RungOnto([], steps[0].targets) == [Ring("a"), Ring("b")]
  {
    assert steps[1..] == [Step(["b"], 10, 0)] && steps[1..][1..] == [];
    assert AllTargets(steps[1..]) == ["b"];
    var targets := steps[0].targets;
    assert targets[1..] == ["b"] && targets[1..][1..] == [];
  }

  /** A ladder with `b` on both rungs; both phones of the first one ring. */
  method RingTwoPlaces() returns (hub: CallOrchestrator, call: ActiveCall)
    ensures fresh(hub) && fresh(call) && hub.Valid() && hub.active == map["c" := call] && hub.placed == {call}
    ensures call.ringing == {"a", "b"} && call.log == [Ring("a"), Ring("b")]
    ensures AllTargets(call.steps) == ["a", "b", "b"]
  {
    hub := new CallOrchestrator();
    var steps := [Step(["a", "b"], 10, 0), Step(["b"], 10, 0)];
    TwoPlaces(steps);
    assert steps[0].targets == ["a", "b"];
    var failed, placing := hub.Place("c", steps, 0);
    call := placing;
    assert call.ringing == Read(call.log).sounding by { assert call.Inv(hub.now); }
    TwoRing();
  }

  lemma TwoRing()
    ensures Read([Ring("a"), Ring("b")]).sounding == {"a", "b"}
  {
    ReadGrows([], Ring("a"));
    ReadGrows([Ring("a")], Ring("b"));
    assert [] + [Ring("a")] == [Ring("a")] && [Ring("a")] + [Ring("b")] == [Ring("a"), Ring("b")];
  }

  /** When `a` answers, `b` is told twice that the call was taken. */
  method TakenTwice() returns (hub: CallOrchestrator, call: ActiveCall)
    ensures hub.Valid() && call in hub.placed && multiset(AllTargets(call.steps))["b"] == 2
    ensures multiset(call.log)[Cancel("b", Taken)] == 2
  {
    hub, call := RingTwoPlaces();
    hub.Answer("c", "a");
    ghost var sent :| call.log == [Ring("a"), Ring("b")] + [Answered("a")] + sent
      && OncePerPlace(sent, {"b"}, AllTargets(call.steps));
    assert multiset(["a", "b", "b"])["b"] == 2;
  }

  lemma RungIsInLadderAll(steps: seq<Step>, c: nat)
    requires c < |steps|
    ensures Elements(steps[c].targets) <= Elements(AllTargets(steps))
  {
    forall d | d in steps[c].targets ensures d in AllTargets(steps) {
      RungIsInLadder(steps, c, d);
    }
  }

  lemma RestartFolds(log: seq<Event>, n: nat)
    ensures RestartedOnto(log, n + 1) == RestartedOnto(log + [NewPass], n)
  {
  }

  lemma TakeOne(targets: seq<DeviceId>, i: nat)
    requires i < |targets|
    ensures targets[i..][0] == targets[i] && targets[i..][1..] == targets[i + 1..]
    ensures Elements(targets[i..]) == Elements(targets[i + 1..]) + {targets[i]}
    ensures targets[i] in Elements(targets)
  {
    assert targets[i..] == [targets[i]] + targets[i + 1..];
  }
}
