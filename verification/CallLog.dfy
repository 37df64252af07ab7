/**
 * What happens to one call of packages/core/src/calls.ts, as a log, and what the log means.
 *
 * Time is an explicit clock in milliseconds, a timer is a field holding when it is due, and a
 * ghost log records every frame sent to a device and every answer, decline and disappearance
 * that came back. Devices are named by id, call ids are fresh, and sending a frame never
 * calls back into the orchestrator.
 */
module CallLog {
  type DeviceId = string

  datatype Reason = MissedRing | Taken | Cancelled

  datatype Event =
    | Ring(device: DeviceId)
    | Cancel(device: DeviceId, reason: Reason)
    | Answered(device: DeviceId)
    | Declined(device: DeviceId)
    | Vanished(device: DeviceId)
    | NewPass

  /** What a reader who follows the log knows. */
  datatype Reading = Reading(
    sounding: set<DeviceId>,              // phones still ringing
    rung: seq<DeviceId>,                  // devices ever rung, in the order they were first rung
    declined: set<DeviceId>,              // declined since the ladder last restarted
    vanished: set<DeviceId>,              // went away since then
    answers: seq<(DeviceId, bool)>)       // who answered, and whether it was ringing at the time

  ghost function Hear(r: Reading, e: Event): Reading {
    match e
    case Ring(d) => r.(sounding := r.sounding + {d}, rung := if d in r.rung then r.rung else r.rung + [d])
    case Cancel(d, _) => r.(sounding := r.sounding - {d})
    case Answered(d) => r.(sounding := r.sounding - {d}, answers := r.answers + [(d, d in r.sounding)])
    case Declined(d) => r.(sounding := r.sounding - {d}, declined := r.declined + {d})
    case Vanished(d) => r.(sounding := r.sounding - {d}, vanished := r.vanished + {d})
    case NewPass => r.(declined := {}, vanished := {})
  }

  ghost function Read(log: seq<Event>): Reading {
    if log == [] then Reading({}, [], {}, {}, [])
    else Hear(Read(log[..|log| - 1]), log[|log| - 1])
  }

  lemma ReadGrows(log: seq<Event>, e: Event)
    ensures Read(log + [e]) == Hear(Read(log), e)
  {
    assert (log + [e])[..|log|] == log;
  }

  ghost predicate Silences(e: Event, d: DeviceId) {
    e == Answered(d) || e == Declined(d) || e == Vanished(d) || (e.Cancel? && e.device == d)
  }

  /** `d` was rung at `i` and nothing after that stopped it. */
  ghost predicate StillRinging(log: seq<Event>, i: int, d: DeviceId) {
    0 <= i < |log| && log[i] == Ring(d) && forall j :: i < j < |log| ==> !Silences(log[j], d)
  }

  lemma StillRingingGrows(log: seq<Event>, e: Event, i: int, d: DeviceId)
    requires i < |log|
    ensures StillRinging(log + [e], i, d) <==> StillRinging(log, i, d) && !Silences(e, d)
  {
    var longer := log + [e];
    assert longer[|log|] == e;
    assert forall j :: 0 <= j < |log| ==> longer[j] == log[j];
  }

  /** A phone sounds exactly when it was rung and nothing after that stopped it. */
  lemma {:induction false} SoundingMeans(log: seq<Event>, d: DeviceId)
    ensures d in Read(log).sounding <==> exists i :: StillRinging(log, i, d)
  {
    if log != [] {
      var n := |log| - 1;
      var before := log[..n];
      assert log == before + [log[n]];
      SoundingMeans(before, d);
      if i :| StillRinging(log, i, d) {
        if i < n { StillRingingGrows(before, log[n], i, d); }
      }
      if i :| StillRinging(before, i, d) {
        StillRingingGrows(before, log[n], i, d);
      }
      if log[n] == Ring(d) {
        assert StillRinging(log, n, d);
      }
    }
  }

  /** `d` declined at `i` and the ladder has not restarted since. */
  ghost predicate DeclinedSince(log: seq<Event>, i: int, d: DeviceId) {
    0 <= i < |log| && log[i] == Declined(d) && forall j :: i < j < |log| ==> log[j] != NewPass
  }

  lemma DeclinedSinceGrows(log: seq<Event>, e: Event, i: int, d: DeviceId)
    requires i < |log|
    ensures DeclinedSince(log + [e], i, d) <==> DeclinedSince(log, i, d) && e != NewPass
  {
    var longer := log + [e];
    assert longer[|log|] == e;
    assert forall j :: 0 <= j < |log| ==> longer[j] == log[j];
  }

  /** A decline counts exactly until the ladder restarts. */
  lemma {:induction false} DeclinedMeans(log: seq<Event>, d: DeviceId)
    ensures d in Read(log).declined <==> exists i :: DeclinedSince(log, i, d)
  {
    if log != [] {
      var n := |log| - 1;
      var before := log[..n];
      assert log == before + [log[n]];
      DeclinedMeans(before, d);
      if i :| DeclinedSince(log, i, d) {
        if i < n { DeclinedSinceGrows(before, log[n], i, d); }
      }
      if i :| DeclinedSince(before, i, d) {
        DeclinedSinceGrows(before, log[n], i, d);
      }
      if log[n] == Declined(d) {
        assert DeclinedSince(log, n, d);
      }
    }
  }

  ghost predicate Distinct(s: seq<DeviceId>) {
    forall i, j :: 0 <= i < j < |s| ==> s[i] != s[j]
  }

  /** Exactly the devices that were sent a `call` frame, each once. */
  lemma {:induction false} RungMeans(log: seq<Event>)
    ensures Distinct(Read(log).rung)
    ensures forall d :: d in Read(log).rung <==> Ring(d) in log
  {
    if log != [] {
      var n := |log| - 1;
      RungMeans(log[..n]);
      assert log == log[..n] + [log[n]];
    }
  }

  ghost predicate RightfulAnswer(log: seq<Event>, i: nat, d: DeviceId) {
    && i < |log| && log[i] == Answered(d) && d in Read(log[..i]).sounding
    && forall j :: 0 <= j < |log| && log[j].Answered? ==> j == i
  }

  /** A single rightful answer: the device was ringing at that point, and nobody else answered. */
  lemma {:induction false} AnswerMeans(log: seq<Event>, d: DeviceId)
    requires Read(log).answers == [(d, true)]
    ensures exists i :: 0 <= i < |log| && RightfulAnswer(log, i, d)
  {
    var n := |log| - 1;
    var before := log[..n];
    if log[n].Answered? {
      assert Read(log).answers[0] == (log[n].device, log[n].device in Read(before).sounding) by {
        assert |Read(before).answers| == 0;
      }
      NoAnswerMeans(before);
      assert log[n] == Answered(d) && d in Read(log[..n]).sounding;
      assert forall j :: 0 <= j < n ==> before[j] == log[j];
      assert RightfulAnswer(log, n, d);
    } else {
      AnswerMeans(before, d);
      var i :| 0 <= i < n && RightfulAnswer(before, i, d);
      assert before[..i] == log[..i] && log[i] == before[i];
      assert forall j :: 0 <= j < n ==> before[j] == log[j];
      assert RightfulAnswer(log, i, d);
    }
  }

  lemma {:induction false} NoAnswerMeans(log: seq<Event>)
    requires Read(log).answers == []
    ensures forall j :: 0 <= j < |log| ==> !log[j].Answered?
  {
    if log != [] {
      var n := |log| - 1;
      NoAnswerMeans(log[..n]);
      assert forall j :: 0 <= j < n ==> log[..n][j] == log[j];
    }
  }
}
