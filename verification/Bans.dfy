/**
 * Ban records: `putBan` and `clearBan` of packages/core/src/store.ts, and the records
 * `fail` and `succeed` of packages/core/src/guard.ts make. Times are milliseconds.
 */
module Bans {
  import opened Basics

  datatype Ban = Ban(until: int, level: nat, lastFailureAt: int, failures: nat)

  /** `maxFailuresBeforeBan`, `failureWindowMs`, `banBaseMs` and `banMaxMs`. */
  datatype Policy = Policy(maxFailures: nat, windowMs: int, baseMs: nat, maxMs: nat)

  const MAX_BANS: nat := 10000

  predicate UnsafeKey(ip: string) {
    ip == "__proto__" || ip == "constructor" || ip == "prototype"
  }

  // ---- how long --------------------------------------------------------------

  function Doubled(base: nat, times: nat): nat {
    if times == 0 then base else 2 * Doubled(base, times - 1)
  }

  /** The length of the ban that raises an address to `level`. */
  function Duration(p: Policy, level: nat): nat {
    if level == 0 then 0
    else if Doubled(p.baseMs, level - 1) < p.maxMs then Doubled(p.baseMs, level - 1)
    else p.maxMs
  }

  function Shorter(a: nat, b: nat): nat { if a <= b then a else b }

  lemma {:induction false} DoubledIsPower(base: nat, times: nat)
    ensures Doubled(base, times) == base * Pow2(times)
  {
    if times > 0 {
      DoubledIsPower(base, times - 1);
      assert base * Pow2(times) == base * (2 * Pow2(times - 1));
    }
  }

  /** After n earlier bans the next one lasts 2^n times the base, or the maximum if that is shorter. */
  lemma DurationIsPower(p: Policy, n: nat)
    ensures Duration(p, n + 1) == Shorter(p.baseMs * Pow2(n), p.maxMs)
  {
    DoubledIsPower(p.baseMs, n);
  }

  lemma DurationGrows(p: Policy, level: nat)
    ensures Duration(p, level) <= Duration(p, level + 1)
  {
  }

  // ---- the record after a failure -------------------------------

  function Failures(p: Policy, prior: Option<Ban>, now: int): nat {
    (if prior.Some? && now - prior.value.lastFailureAt < p.windowMs then prior.value.failures else 0) + 1
  }

  predicate OneTooMany(p: Policy, prior: Option<Ban>, now: int) {
    Failures(p, prior, now) >= p.maxFailures
  }

  function Level(prior: Option<Ban>): nat {
    if prior.Some? then prior.value.level else 0
  }

  function AfterFailure(p: Policy, prior: Option<Ban>, now: int): Ban {
    if OneTooMany(p, prior, now) then
      Ban(now + Duration(p, Level(prior) + 1), Level(prior) + 1, now, 0)
    else
      Ban(if prior.Some? then prior.value.until else 0, Level(prior), now, Failures(p, prior, now))
  }

  /** No ban reaches further than the one its level earns from now. */
  predicate Reasonable(p: Policy, b: Ban, now: int) {
    b.until <= now + Duration(p, b.level) || b.until <= 0
  }

  /** The ban this failure earns ends before the one that is running. */
  predicate CutsShort(p: Policy, prior: Option<Ban>, now: int) {
    prior.Some? && OneTooMany(p, prior, now) && now + Duration(p, prior.value.level + 1) < prior.value.until
  }

  /**
   * A failure shortens a ban exactly if it earns a new one that ends earlier, and it never does to
   * a ban that reaches no further than its own level earns.
   */
  lemma FailureExtends(p: Policy, prior: Option<Ban>, now: int)
    requires now >= 0
    ensures prior.Some? ==> (AfterFailure(p, prior, now).until < prior.value.until <==> CutsShort(p, prior, now))
    ensures (prior.Some? ==> Reasonable(p, prior.value, now)) ==>
      Reasonable(p, AfterFailure(p, prior, now), now) && !CutsShort(p, prior, now)
  {
    DurationGrows(p, Level(prior));
  }

  /** A ban restored from a time of longer bans is cut short by the next one. */
  lemma RestoredUnderALongerMaximum()
    ensures var p, prior := Policy(1, 1000, 5, 10), Ban(1000, 1, 0, 0);
      CutsShort(p, Some(prior), 0) && AfterFailure(p, Some(prior), 0).until == 10
  {
    var p := Policy(1, 1000, 5, 10);
    assert Doubled(p.baseMs, 1) == 2 * Doubled(p.baseMs, 0) == 10;
    assert Duration(p, 2) == 10;
  }

  // ---- what a record counts ---------------------------------------------------

  /**
   * What an address on record has done: the bans it was given, and when it failed since the last
   * ban or success, if none of these failures came a window after the one before.
   */
  datatype Tally = Tally(bans: nat, run: seq<int>)

  /** One more failure, which starts a new run if it comes too long after the last one. */
  function Continued(run: seq<int>, now: int, windowMs: int): seq<int> {
    if run != [] && now - run[|run| - 1] < windowMs then run + [now] else [now]
  }

  ghost predicate Tallied(b: Ban, t: Tally) {
    b.level == t.bans && b.failures == |t.run| && (t.run != [] ==> t.run[|t.run| - 1] == b.lastFailureAt)
  }

  ghost predicate AllTallied(bans: map<string, Ban>, tallies: map<string, Tally>) {
    forall ip :: ip in bans ==> ip in tallies && Tallied(bans[ip], tallies[ip])
  }

  /** A record that is stored counts as given with it, and the others stand for what they did. */
  lemma PutKeepsTallies(old': map<string, Ban>, bans: map<string, Ban>, ip: string, b: Ban, now: int,
                        tallies: map<string, Tally>, t: Tally)
    requires Put(old', bans, ip, b, now) && AllTallied(old', tallies) && Tallied(b, t)
    ensures AllTallied(bans, if ip in bans && bans[ip] == b then tallies[ip := t] else tallies)
  {
  }

  /** An address that is not on record has done nothing. */
  function TallyOf(bans: map<string, Ban>, tallies: map<string, Tally>, ip: string): Tally {
    if ip in bans && ip in tallies then tallies[ip] else Tally(0, [])
  }

  /** A restored record stands for as many bans as its level, and its failures for as many at the last of them. */
  function RestoredTallies(bans: map<string, Ban>): map<string, Tally> {
    map ip | ip in bans :: Tally(bans[ip].level, seq(bans[ip].failures, _ => bans[ip].lastFailureAt))
  }

  /** What a failure adds: one more of the run, or one more ban and no run. */
  function AfterOneMore(p: Policy, t: Tally, now: int): Tally {
    if |Continued(t.run, now, p.windowMs)| >= p.maxFailures then Tally(t.bans + 1, [])
    else t.(run := Continued(t.run, now, p.windowMs))
  }

  /** The record after a failure counts what the address has done by then. */
  lemma FailureIsTallied(p: Policy, prior: Option<Ban>, t: Tally, now: int)
    requires if prior.Some? then Tallied(prior.value, t) else t == Tally(0, [])
    ensures OneTooMany(p, prior, now) <==> |Continued(t.run, now, p.windowMs)| >= p.maxFailures
    ensures Tallied(AfterFailure(p, prior, now), AfterOneMore(p, t, now))
  {
  }

  // ---- the invariant over a run ----------------------------------------------

  function Highest(highest: map<string, int>, ip: string): int {
    if ip in highest then highest[ip] else 0
  }

  /** Whatever was once stored as an address's `until` still stands, until the clock reaches it. */
  ghost predicate StillStands(bans: map<string, Ban>, highest: map<string, int>, ip: string, now: int) {
    Highest(highest, ip) > now ==> ip in bans && bans[ip].until >= Highest(highest, ip)
  }

  ghost predicate NoneShortened(bans: map<string, Ban>, highest: map<string, int>, now: int) {
    forall ip :: StillStands(bans, highest, ip, now)
  }

  ghost predicate AllReasonable(p: Policy, bans: map<string, Ban>, now: int) {
    forall ip :: ip in bans ==> Reasonable(p, bans[ip], now)
  }

  /** Every ban on record is one that `highest` knows of. */
  ghost predicate AllKnown(bans: map<string, Ban>, highest: map<string, int>) {
    forall ip :: ip in bans ==> bans[ip].until <= Highest(highest, ip) || bans[ip].until <= 0
  }

  /** What a store already holds counts as given. */
  function Restored(bans: map<string, Ban>): map<string, int> {
    map ip | ip in bans && bans[ip].until > 0 :: bans[ip].until
  }

  lemma RestoredStand(bans: map<string, Ban>, now: int)
    requires now >= 0
    ensures NoneShortened(bans, Restored(bans), now) && AllKnown(bans, Restored(bans))
  {
    forall ip: string
      ensures StillStands(bans, Restored(bans), ip, now)
    {
    }
  }

  /** The longest ban given once `until` is stored: longer than before, or that one if it cut the last one short. */
  function Regiven(highest: map<string, int>, ip: string, until: int, cut: bool): map<string, int> {
    if cut then highest[ip := until] else Raised(highest, ip, until)
  }

  function Raised(highest: map<string, int>, ip: string, until: int): map<string, int> {
    if until > Highest(highest, ip) then highest[ip := until] else highest
  }

  // ---- the store -------------------------------------------------------------

  predicate Expired(bans: map<string, Ban>, ip: string, now: int) {
    ip in bans && bans[ip].until < now
  }

  /** The record evicted to make room: an expired one, and of those the one that failed longest ago. */
  ghost predicate Stalest(bans: map<string, Ban>, ip: string, now: int) {
    && Expired(bans, ip, now)
    && forall other :: Expired(bans, other, now) ==> bans[ip].lastFailureAt <= bans[other].lastFailureAt
  }

  /** What `putBan` may leave behind. */
  ghost predicate Put(old': map<string, Ban>, bans: map<string, Ban>, ip: string, b: Ban, now: int) {
    if UnsafeKey(ip) then bans == old'
    else if ip in old' || |old'| < MAX_BANS then bans == old'[ip := b]
    else if exists other :: Expired(old', other, now) then
      exists other :: Stalest(old', other, now) && bans == (old' - {other})[ip := b]
    else bans == old'
  }

  /** Storing a record, with whatever that evicts, shortens nobody else's ban. */
  lemma PutShortensNothing(old': map<string, Ban>, bans: map<string, Ban>, ip: string, b: Ban, now: int,
                           highest: map<string, int>)
    requires Put(old', bans, ip, b, now) && NoneShortened(old', highest, now) && AllKnown(old', highest)
    requires ip in old' && Highest(highest, ip) > now ==> b.until >= old'[ip].until
    requires b.until <= Highest(highest, ip) || b.until <= 0
    ensures NoneShortened(bans, highest, now) && AllKnown(bans, highest)
  {
    forall other: string
      ensures StillStands(bans, highest, other, now)
    {
      assert StillStands(old', highest, other, now);
    }
  }

  /** Nor does storing a new ban, which the books then know of, as the one that counts. */
  lemma NewBanStands(old': map<string, Ban>, bans: map<string, Ban>, ip: string, b: Ban, now: int,
                     highest: map<string, int>, cut: bool)
    requires Put(old', bans, ip, b, now) && NoneShortened(old', highest, now) && AllKnown(old', highest)
    requires !cut && ip in old' ==> b.until >= old'[ip].until
    ensures ip in bans && bans[ip] == b ==>
      NoneShortened(bans, Regiven(highest, ip, b.until, cut), now) && AllKnown(bans, Regiven(highest, ip, b.until, cut))
    ensures !(ip in bans && bans[ip] == b) ==> NoneShortened(bans, highest, now) && AllKnown(bans, highest)
  {
    var given := if ip in bans && bans[ip] == b then Regiven(highest, ip, b.until, cut) else highest;
    forall other: string
      ensures StillStands(bans, given, other, now)
    {
      assert StillStands(old', highest, other, now);
    }
  }

  /** A record is kept unless the store is full of running bans and the address is not among them. */
  lemma KeptUnlessFull(old': map<string, Ban>, bans: map<string, Ban>, ip: string, b: Ban, now: int)
    requires Put(old', bans, ip, b, now) && ip !in {"__proto__", "constructor", "prototype"}
    ensures ip in bans && bans[ip] == b <==>
      ip in old' || |old'| < 10000 || exists other :: other in old' && old'[other].until < now
  {
    if other :| other in old' && old'[other].until < now { assert Expired(old', other, now); }
  }

  /** As many running bans as asked for, none of them of an address named `x`. */
  method FullOfRunningBans(n: nat) returns (bans: map<string, Ban>)
    ensures |bans| == n && "x" !in bans && forall ip :: ip in bans ==> bans[ip].until > 0
  {
    bans := map[];
    for i := 0 to n
      invariant |bans| == i && "x" !in bans
      invariant forall ip :: ip in bans ==> bans[ip].until > 0 && |ip| <= i
    {
      var ip := seq(i + 1, _ => 'a');
      assert ip[0] != "x"[0];
      bans := bans[ip := Ban(1000, 1, 0, 0)];
    }
  }

  class BanStore {
    var bans: map<string, Ban>

    constructor (restored: map<string, Ban>)
      ensures bans == restored
    {
      bans := restored;
    }

    function Lookup(ip: string): Option<Ban>
      reads this
    {
      if ip in bans then Some(bans[ip]) else None
    }

    method PutBan(ip: string, b: Ban, now: int)
      modifies this
      ensures Put(old(bans), bans, ip, b, now)
    {
      if UnsafeKey(ip) { return; }
      if ip !in bans && |bans| >= MAX_BANS {
        var oldest := Oldest(now);
        if oldest.None? { return; }
        bans := bans - {oldest.value};
      }
      bans := bans[ip := b];
    }

    /** One pass for the minimum over the expired records, in whatever order they come. */
    method Oldest(now: int) returns (oldest: Option<string>)
      ensures oldest.None? ==> forall ip :: ip in bans ==> bans[ip].until >= now
      ensures oldest.Some? ==> Stalest(bans, oldest.value, now)
      ensures oldest.Some? ==> oldest.value in bans && bans[oldest.value].until < now
      ensures oldest.Some? ==> forall ip :: ip in bans && bans[ip].until < now ==>
        bans[oldest.value].lastFailureAt <= bans[ip].lastFailureAt
    {
      oldest := None;
      var left := bans.Keys;
      while left != {}
        invariant left <= bans.Keys
        invariant oldest.None? ==> forall ip :: Expired(bans, ip, now) ==> ip in left
        invariant oldest.Some? ==> Expired(bans, oldest.value, now)
        invariant oldest.Some? ==> forall ip :: Expired(bans, ip, now) && ip !in left ==>
          bans[oldest.value].lastFailureAt <= bans[ip].lastFailureAt
      {
        var candidate :| candidate in left;
        left := left - {candidate};
        if bans[candidate].until >= now { continue; }
        if oldest.None? || bans[candidate].lastFailureAt < bans[oldest.value].lastFailureAt {
          oldest := Some(candidate);
        }
      }
      assert forall ip :: ip in bans && bans[ip].until < now ==> Expired(bans, ip, now);
    }

    method ClearBan(ip: string)
      modifies this
      ensures bans == old(bans) - {ip}
    {
      if ip in bans {
        bans := bans - {ip};
      }
    }
  }
}
