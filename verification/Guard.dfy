/**
 * Admission control: the class `Guard` of packages/core/src/guard.ts.
 *
 * Ghost fields record what the class itself does not remember: when each address was let in,
 * which session holds which slot, and the longest ban each address was ever given. `Valid`
 * ties the counters to them. The clock is a parameter that never runs backwards.
 */
module Guard {
  import opened Basics
  import opened TokenBucket
  import opened Bans

  datatype Security = Security(lim: Limits, policy: Policy, maxUnauthenticated: nat, maxConnectionsPerIp: nat) {
    ghost predicate Valid() {
      lim.Valid() && maxUnauthenticated >= 1 && maxConnectionsPerIp >= 1 && policy.maxFailures >= 1
    }
  }

  datatype Verdict = Allowed | Denied | Banned | Busy | TooManyConnections | RateLimited

  const IDLE_MS: int := 600000

  // ---- the state of every address --------------------------------------------

  /** An address without an entry is as good as one whose bucket is full. */
  function StateOf(lim: Limits, ips: map<string, IpState>, ip: string, now: int): IpState {
    if ip in ips then ips[ip] else Fresh(lim, now)
  }

  function TimesOf(log: map<string, seq<int>>, ip: string): seq<int> {
    if ip in log then log[ip] else []
  }

  ghost predicate IpMetered(lim: Limits, ips: map<string, IpState>, log: map<string, seq<int>>, ip: string, now: int) {
    && StateOf(lim, ips, ip, now).lastRefill <= now
    && Metered(lim, StateOf(lim, ips, ip, now), TimesOf(log, ip))
  }

  ghost predicate AllMetered(lim: Limits, ips: map<string, IpState>, log: map<string, seq<int>>, now: int) {
    forall ip :: IpMetered(lim, ips, log, ip, now)
  }

  lemma TimePasses(lim: Limits, ips: map<string, IpState>, log: map<string, seq<int>>, before: int, now: int)
    requires lim.Valid() && AllMetered(lim, ips, log, before) && before <= now
    ensures AllMetered(lim, ips, log, now)
  {
    forall ip: string
      ensures IpMetered(lim, ips, log, ip, now)
    {
      assert IpMetered(lim, ips, log, ip, before);
      if ip !in ips { ForgettingIsSafe(lim, Fresh(lim, before), TimesOf(log, ip), now); }
    }
  }

  lemma TouchKeepsMetered(lim: Limits, ips: map<string, IpState>, log: map<string, seq<int>>, ip: string, now: int)
    requires lim.Valid() && AllMetered(lim, ips, log, now)
    ensures AllMetered(lim, ips[ip := Refilled(lim, StateOf(lim, ips, ip, now), now)], log, now)
  {
    var after := ips[ip := Refilled(lim, StateOf(lim, ips, ip, now), now)];
    forall other: string
      ensures IpMetered(lim, after, log, other, now)
    {
      assert IpMetered(lim, ips, log, other, now);
      if other == ip { RefillKeepsMetered(lim, StateOf(lim, ips, ip, now), TimesOf(log, ip), now); }
    }
  }

  lemma SpendKeepsMetered(lim: Limits, ips: map<string, IpState>, log: map<string, seq<int>>, ip: string, now: int,
                          s: IpState)
    requires lim.Valid() && AllMetered(lim, ips, log, now)
    requires ip in ips && ips[ip].lastRefill == now && ips[ip].tokens >= 1.0
    requires s.tokens == ips[ip].tokens - 1.0 && s.lastRefill == now
    ensures AllMetered(lim, ips[ip := s], log[ip := TimesOf(log, ip) + [now]], now)
  {
    var after, longer := ips[ip := s], log[ip := TimesOf(log, ip) + [now]];
    forall other: string
      ensures IpMetered(lim, after, longer, other, now)
    {
      assert IpMetered(lim, ips, log, other, now);
      if other == ip {
        AdmitKeepsMetered(lim, ips[ip], TimesOf(log, ip));
        assert Metered(lim, ips[ip].(tokens := s.tokens), TimesOf(log, ip) + [now]);
      }
    }
  }

  lemma ForgetKeepsMetered(lim: Limits, ips: map<string, IpState>, log: map<string, seq<int>>, ip: string, now: int)
    requires lim.Valid() && AllMetered(lim, ips, log, now)
    requires ip in ips && ips[ip].tokens >= lim.burst as real
    ensures AllMetered(lim, ips - {ip}, log, now)
  {
    forall other: string
      ensures IpMetered(lim, ips - {ip}, log, other, now)
    {
      assert IpMetered(lim, ips, log, other, now);
      if other == ip { ForgettingIsSafe(lim, ips[ip], TimesOf(log, ip), now); }
    }
  }

  // ---- the slots -------------------------------------------------------------

  /** The live sessions of an address; `holders` gives the address of every live session. */
  function HeldBy(holders: map<nat, string>, ip: string): set<nat> {
    set id | id in holders && holders[id] == ip
  }

  function Concurrent(ips: map<string, IpState>, ip: string): int {
    if ip in ips then ips[ip].concurrent else 0
  }

  ghost predicate SlotsExact(sec: Security, ips: map<string, IpState>, unauthenticated: int, holders: map<nat, string>,
                             waiting: set<nat>)
  {
    && waiting <= holders.Keys
    && unauthenticated == |waiting| <= sec.maxUnauthenticated
    && forall ip {:trigger HeldBy(holders, ip)} ::
         Concurrent(ips, ip) == |HeldBy(holders, ip)| <= sec.maxConnectionsPerIp
  }

  lemma Taken(holders: map<nat, string>, id: nat, ip: string, other: string)
    requires id !in holders
    ensures |HeldBy(holders[id := ip], other)| == |HeldBy(holders, other)| + if other == ip then 1 else 0
  {
    if other == ip {
      assert HeldBy(holders[id := ip], other) == HeldBy(holders, other) + {id};
    } else {
      assert HeldBy(holders[id := ip], other) == HeldBy(holders, other);
    }
  }

  lemma Freed(holders: map<nat, string>, id: nat, other: string)
    requires id in holders
    ensures |HeldBy(holders - {id}, other)| == |HeldBy(holders, other)| - if other == holders[id] then 1 else 0
  {
    if other == holders[id] {
      assert HeldBy(holders, other) == HeldBy(holders - {id}, other) + {id};
    } else {
      assert HeldBy(holders - {id}, other) == HeldBy(holders, other);
    }
  }

  /** An address a record can be stored under. */
  ghost predicate Storable(ip: string) {
    ip !in {"__proto__", "constructor", "prototype"}
  }

  function Max(a: int, b: int): int { if a >= b then a else b }

  // ---- the class -------------------------------------------------------------

  class Guard {
    const sec: Security
    /** The operator's allow and deny rules. */
    const refused: string -> bool
    const store: BanStore
    var ips: map<string, IpState>
    var unauthenticated: int

    ghost var clock: int
    ghost var log: map<string, seq<int>>
    ghost var holders: map<nat, string>
    ghost var waiting: set<nat>
    /** The longest ban each address was given, those of the restored store included. */
    ghost var highest: map<string, int>
    /** What each address on record has done. */
    ghost var tallies: map<string, Tally>
    /** Whether the restored store held no ban longer than this policy gives. */
    ghost const reasonable: bool

    ghost predicate Valid()
      reads this, store
    {
      && sec.Valid() && clock >= 0
      && AllMetered(sec.lim, ips, log, clock)
      && SlotsExact(sec, ips, unauthenticated, holders, waiting)
      && BansValid()
    }

    ghost predicate BansValid()
      reads this, store
    {
      && (reasonable ==> AllReasonable(sec.policy, store.bans, clock))
      && NoneShortened(store.bans, highest, clock) && AllKnown(store.bans, highest)
      && AllTallied(store.bans, tallies)
    }

    /** What this address has done, as far as the store still knows it. */
    ghost function TallyNow(ip: string): Tally
      reads this, store
    {
      TallyOf(store.bans, tallies, ip)
    }

    constructor (sec: Security, refused: string -> bool, store: BanStore, now: int)
      requires sec.Valid() && now >= 0
      ensures Valid() && this.sec == sec && this.store == store && this.refused == refused && ips == map[]
      ensures reasonable == AllReasonable(sec.policy, store.bans, now)
      ensures forall ip :: ip in store.bans && store.bans[ip].until > 0 ==> Highest(highest, ip) == store.bans[ip].until
      ensures holders == map[] && waiting == {} && log == map[] && clock == now
      ensures tallies == RestoredTallies(store.bans)
    {
      this.sec := sec;
      this.refused := refused;
      this.store := store;
      ips := map[];
      unauthenticated := 0;
      clock := now;
      log := map[];
      holders := map[];
      waiting := {};
      highest := Restored(store.bans);
      tallies := RestoredTallies(store.bans);
      reasonable := AllReasonable(sec.policy, store.bans, now);
      new;
      RestoredStand(store.bans, now);
      forall ip: string
        ensures IpMetered(sec.lim, ips, log, ip, clock)
      {
      }
    }

    /** `state()`: the address's bucket, made if missing and topped up. */
    method State(ip: string, now: int)
      requires Valid() && now == clock
      modifies `ips
      ensures Valid()
      ensures ips == old(ips)[ip := Refilled(sec.lim, StateOf(sec.lim, old(ips), ip, now), now)]
    {
      var state := if ip in ips then ips[ip] else Fresh(sec.lim, now);
      ips := ips[ip := Refilled(sec.lim, state, now)];
      TouchKeepsMetered(sec.lim, old(ips), log, ip, now);
      forall other: string
        ensures Concurrent(ips, other) == |HeldBy(holders, other)| <= sec.maxConnectionsPerIp
      {
        assert Concurrent(old(ips), other) == |HeldBy(holders, other)|;
      }
    }

    ghost method Advance(now: int)
      requires Valid() && now >= clock
      modifies `clock
      ensures Valid() && clock == now
    {
      TimePasses(sec.lim, ips, log, clock, now);
      forall ip: string
        ensures StillStands(store.bans, highest, ip, now)
      {
        assert StillStands(store.bans, highest, ip, clock);
      }
      clock := now;
    }

    /**
     * Let in exactly when nothing speaks against it; a slot and a token are then taken. By when it
     * was let in before, the address is too fast, or it is not.
     */
    method Admit(ip: string, now: int, ghost id: nat) returns (verdict: Verdict)
      requires Valid() && now >= clock && id !in holders
      modifies `ips, `unauthenticated, `clock, `log, `holders, `waiting
      ensures Valid() && clock == now
      ensures verdict ==
        if refused(ip) then Denied
        else if ip in store.bans && store.bans[ip].until > now then Banned
        else if |old(waiting)| >= sec.maxUnauthenticated then Busy
        else if |HeldBy(old(holders), ip)| >= sec.maxConnectionsPerIp then TooManyConnections
        else if TooFast(sec.lim, TimesOf(old(log), ip), now) then RateLimited
        else Allowed
      ensures verdict == Allowed ==> Highest(highest, ip) <= now
      ensures verdict == Allowed ==> holders == old(holders)[id := ip] && waiting == old(waiting) + {id}
      ensures verdict == Allowed ==> log == old(log)[ip := TimesOf(old(log), ip) + [now]]
      ensures verdict != Allowed ==> holders == old(holders) && waiting == old(waiting) && log == old(log)
    {
      Advance(now);
      if refused(ip) { return Denied; }
      var ban := store.Lookup(ip);
      if ban.Some? && ban.value.until > now { return Banned; }
      assert StillStands(store.bans, highest, ip, now);
      verdict := AdmitByCaps(ip, now, id);
    }

    /** The second half of `admit`: the two caps, then the bucket. */
    method AdmitByCaps(ip: string, now: int, ghost id: nat) returns (verdict: Verdict)
      requires Valid() && now == clock && id !in holders
      modifies `ips, `unauthenticated, `log, `holders, `waiting
      ensures Valid()
      ensures verdict ==
        if |old(waiting)| >= sec.maxUnauthenticated then Busy
        else if |HeldBy(old(holders), ip)| >= sec.maxConnectionsPerIp then TooManyConnections
        else if TooFast(sec.lim, TimesOf(old(log), ip), now) then RateLimited
        else Allowed
      ensures verdict == Allowed ==> holders == old(holders)[id := ip] && waiting == old(waiting) + {id}
      ensures verdict == Allowed ==> log == old(log)[ip := TimesOf(old(log), ip) + [now]]
      ensures verdict != Allowed ==> holders == old(holders) && waiting == old(waiting) && log == old(log)
    {
      if unauthenticated >= sec.maxUnauthenticated { return Busy; }
      assert IpMetered(sec.lim, ips, log, ip, clock);
      assert Concurrent(ips, ip) == |HeldBy(holders, ip)|;
      ShortOfATokenMeans(sec.lim, StateOf(sec.lim, ips, ip, now), TimesOf(log, ip), now);
      State(ip, now);
      if ips[ip].concurrent >= sec.maxConnectionsPerIp { return TooManyConnections; }
      if ips[ip].tokens < 1.0 { return RateLimited; }
      TakeSlot(ip, id);
      verdict := Allowed;
    }

    method TakeSlot(ip: string, ghost id: nat)
      requires Valid() && id !in holders && ip in ips && ips[ip].lastRefill == clock && ips[ip].tokens >= 1.0
      requires ips[ip].concurrent < sec.maxConnectionsPerIp && unauthenticated < sec.maxUnauthenticated
      modifies `ips, `unauthenticated, `log, `holders, `waiting
      ensures Valid()
      ensures holders == old(holders)[id := ip] && waiting == old(waiting) + {id}
      ensures log == old(log)[ip := TimesOf(old(log), ip) + [clock]]
    {
      var s := ips[ip];
      var spent := s.(tokens := s.tokens - 1.0, concurrent := s.concurrent + 1);
      SpendKeepsMetered(sec.lim, ips, log, ip, clock, spent);
      ghost var taken := holders[id := ip];
      ghost var after := ips[ip := spent];
      forall other: string
        ensures Concurrent(after, other) == |HeldBy(taken, other)| <= sec.maxConnectionsPerIp
      {
        assert Concurrent(ips, other) == |HeldBy(holders, other)|;
        Taken(holders, id, ip, other);
      }
      ips := ips[ip := spent];
      unauthenticated := unauthenticated + 1;
      log := log[ip := TimesOf(log, ip) + [clock]];
      holders := holders[id := ip];
      waiting := waiting + {id};
    }

    /** The session is no longer counted among the unauthenticated. */
    method Promote(ghost id: nat)
      requires Valid() && id in waiting
      modifies `unauthenticated, `waiting
      ensures Valid() && waiting == old(waiting) - {id}
      ensures unauthenticated == old(unauthenticated) - 1
    {
      unauthenticated := Max(0, unauthenticated - 1);
      waiting := waiting - {id};
    }

    /** Gives back the slot of a live session; neither counter was at zero. */
    method Release(ip: string, wasAuthenticated: bool, ghost id: nat)
      requires Valid() && id in holders && holders[id] == ip && (wasAuthenticated <==> id !in waiting)
      modifies `ips, `unauthenticated, `holders, `waiting
      ensures Valid() && holders == old(holders) - {id} && waiting == old(waiting) - {id}
      ensures ip in old(ips) && ips == old(ips)[ip := old(ips)[ip].(concurrent := old(ips)[ip].concurrent - 1)]
      ensures unauthenticated == old(unauthenticated) - if wasAuthenticated then 0 else 1
    {
      assert id in HeldBy(holders, ip);
      assert Concurrent(ips, ip) == |HeldBy(holders, ip)|;
      ghost var before := ips;
      if ip in ips {
        ips := ips[ip := ips[ip].(concurrent := Max(0, ips[ip].concurrent - 1))];
      }
      if !wasAuthenticated {
        unauthenticated := Max(0, unauthenticated - 1);
      }
      ReleaseKeepsMetered(before, ip);
      forall other: string
        ensures Concurrent(ips, other) == |HeldBy(holders - {id}, other)| <= sec.maxConnectionsPerIp
      {
        assert Concurrent(before, other) == |HeldBy(holders, other)|;
        Freed(holders, id, other);
      }
      holders := holders - {id};
      waiting := waiting - {id};
    }

    lemma ReleaseKeepsMetered(before: map<string, IpState>, ip: string)
      requires AllMetered(sec.lim, before, log, clock) && ip in before && ip in ips
      requires ips == before[ip := before[ip].(concurrent := ips[ip].concurrent)]
      ensures AllMetered(sec.lim, ips, log, clock)
    {
      forall other: string
        ensures IpMetered(sec.lim, ips, log, other, clock)
      {
        assert IpMetered(sec.lim, before, log, other, clock);
      }
    }

    /** A failure may ban. It shortens nobody's running ban, except its own address's by a new one that ends earlier. */
    method Fail(ip: string, now: int) returns (banned: bool, until: int)
      requires Valid() && now >= clock
      modifies `clock, `highest, `tallies, store
      ensures Valid() && clock == now
      ensures banned <==> |Continued(old(TallyNow(ip)).run, now, sec.policy.windowMs)| >= sec.policy.maxFailures
      ensures until == if banned
        then now + Shorter(sec.policy.baseMs * Pow2(old(TallyNow(ip)).bans), sec.policy.maxMs) else 0
      ensures ip in store.bans && Storable(ip) ==> TallyNow(ip) == AfterOneMore(sec.policy, old(TallyNow(ip)), now)
      ensures Put(old(store.bans), store.bans, ip, AfterFailure(sec.policy, old(store.Lookup(ip)), now), now)
      ensures banned && ip in store.bans && Storable(ip) ==> store.bans[ip].until == until <= Highest(highest, ip)
      ensures ip in store.bans && Storable(ip) ==> var b := store.bans[ip];
        b == Ban(if banned then until else if ip in old(store.bans) then old(store.bans)[ip].until else 0,
                 TallyNow(ip).bans, now, |TallyNow(ip).run|)
      ensures banned && sec.policy.maxFailures >= 2 && Storable(ip) ==> ip in store.bans
      ensures forall other :: other != ip ==> Highest(highest, other) == Highest(old(highest), other)
      ensures Highest(highest, ip) < Highest(old(highest), ip) <==>
        CutsShort(sec.policy, old(store.Lookup(ip)), now) && Storable(ip)
      ensures reasonable ==> Highest(highest, ip) >= Highest(old(highest), ip)
    {
      Advance(now);
      banned, until := FailNow(ip, now);
    }

    method FailNow(ip: string, now: int) returns (banned: bool, until: int)
      requires Valid() && now == clock
      modifies `highest, `tallies, store
      ensures Valid()
      ensures banned <==> |Continued(old(TallyNow(ip)).run, now, sec.policy.windowMs)| >= sec.policy.maxFailures
      ensures until == if banned
        then now + Shorter(sec.policy.baseMs * Pow2(old(TallyNow(ip)).bans), sec.policy.maxMs) else 0
      ensures ip in store.bans && Storable(ip) ==> TallyNow(ip) == AfterOneMore(sec.policy, old(TallyNow(ip)), now)
      ensures Put(old(store.bans), store.bans, ip, AfterFailure(sec.policy, old(store.Lookup(ip)), now), now)
      ensures banned && ip in store.bans && Storable(ip) ==> store.bans[ip].until == until <= Highest(highest, ip)
      ensures ip in store.bans && Storable(ip) ==> var b := store.bans[ip];
        b == Ban(if banned then until else if ip in old(store.bans) then old(store.bans)[ip].until else 0,
                 TallyNow(ip).bans, now, |TallyNow(ip).run|)
      ensures banned && sec.policy.maxFailures >= 2 && Storable(ip) ==> ip in store.bans
      ensures forall other :: other != ip ==> Highest(highest, other) == Highest(old(highest), other)
      ensures Highest(highest, ip) < Highest(old(highest), ip) <==>
        CutsShort(sec.policy, old(store.Lookup(ip)), now) && Storable(ip)
      ensures reasonable ==> Highest(highest, ip) >= Highest(old(highest), ip)
    {
      var prior := store.Lookup(ip);
      var next := AfterFailure(sec.policy, prior, now);
      FailureExtends(sec.policy, prior, now);
      ghost var tally := TallyNow(ip);
      FailureIsTallied(sec.policy, prior, tally, now);
      DurationIsPower(sec.policy, tally.bans);
      assert StillStands(store.bans, highest, ip, now);
      Record(ip, next, now, AfterOneMore(sec.policy, tally, now));
      banned := OneTooMany(sec.policy, prior, now);
      until := if banned then next.until else 0;
    }

    method Record(ip: string, b: Ban, now: int, ghost tally: Tally)
      requires Valid() && now == clock && (reasonable ==> Reasonable(sec.policy, b, now)) && Tallied(b, tally)
      modifies `highest, `tallies, store
      ensures Valid() && Put(old(store.bans), store.bans, ip, b, now)
      ensures ip in store.bans && !UnsafeKey(ip) ==> store.bans[ip] == b
      ensures highest == if ip in store.bans && store.bans[ip] == b
        then Regiven(old(highest), ip, b.until, ip in old(store.bans) && b.until < old(store.bans)[ip].until)
        else old(highest)
      ensures tallies == if ip in store.bans && store.bans[ip] == b then old(tallies)[ip := tally] else old(tallies)
    {
      ghost var before := store.bans;
      ghost var cut := ip in store.bans && b.until < store.bans[ip].until;
      store.PutBan(ip, b, now);
      NewBanStands(before, store.bans, ip, b, now, highest, cut);
      PutKeepsTallies(before, store.bans, ip, b, now, tallies, tally);
      if ip in store.bans && store.bans[ip] == b {
        highest := Regiven(highest, ip, b.until, cut);
        tallies := tallies[ip := tally];
      }
    }

    /** A success resets the failures, keeps the level, and leaves a running ban running. */
    method Succeed(ip: string, now: int)
      requires Valid() && now >= clock
      modifies `clock, `tallies, store
      ensures Valid() && clock == now
      ensures ip in store.bans && Storable(ip) ==> TallyNow(ip) == old(TallyNow(ip)).(run := [])
      ensures store.bans ==
        if ip !in old(store.bans) then old(store.bans)
        else
          var b := old(store.bans)[ip];
          if b.until <= now && b.level == 0 then old(store.bans) - {ip}
          else if !Storable(ip) then old(store.bans)
          else old(store.bans)[ip := b.(failures := 0, until := if b.until > now then b.until else 0)]
    {
      Advance(now);
      var prior := store.Lookup(ip);
      if prior.None? { return; }
      assert StillStands(store.bans, highest, ip, now);
      if prior.value.until > now {
        Rewrite(ip, prior.value.(failures := 0), now);
        return;
      }
      if prior.value.level == 0 {
        Forget(ip);
        return;
      }
      Rewrite(ip, prior.value.(failures := 0, until := 0), now);
    }

    method Rewrite(ip: string, b: Ban, now: int)
      requires Valid() && now == clock && ip in store.bans && b.level == store.bans[ip].level && b.failures == 0
      requires reasonable ==> Reasonable(sec.policy, b, now)
      requires Highest(highest, ip) > now ==> b.until >= store.bans[ip].until
      requires b.until <= store.bans[ip].until || b.until <= 0
      modifies `tallies, store
      ensures Valid() && store.bans == if UnsafeKey(ip) then old(store.bans) else old(store.bans)[ip := b]
      ensures !UnsafeKey(ip) ==> tallies == old(tallies)[ip := old(tallies[ip]).(run := [])]
    {
      ghost var before := store.bans;
      if !UnsafeKey(ip) { tallies := tallies[ip := tallies[ip].(run := [])]; }
      store.PutBan(ip, b, now);
      PutShortensNothing(before, store.bans, ip, b, now, highest);
    }

    method Forget(ip: string)
      requires Valid() && ip in store.bans && store.bans[ip].until <= clock
      modifies store
      ensures Valid() && store.bans == old(store.bans) - {ip}
    {
      ghost var before := store.bans;
      store.ClearBan(ip);
      forall other: string
        ensures StillStands(store.bans, highest, other, clock)
      {
        assert StillStands(before, highest, other, clock);
      }
    }

    // ---- the sweeper -----------------------------------------------------------

    predicate Idle(s: IpState, now: int) {
      now - s.lastRefill > IDLE_MS && s.concurrent == 0 && s.tokens >= sec.lim.burst as real
    }

    predicate Stale(b: Ban, now: int) {
      b.until < now && now - b.lastFailureAt > sec.policy.windowMs * 8
    }

    method Sweep(now: int)
      requires Valid() && now >= clock
      modifies `ips, `clock, store
      ensures Valid() && clock == now
      ensures ips == map ip | ip in old(ips) && !Idle(old(ips)[ip], now) :: old(ips)[ip]
      ensures store.bans == map ip | ip in old(store.bans) && !Stale(old(store.bans)[ip], now) :: old(store.bans)[ip]
      ensures forall ip :: ip in old(ips) ==> var s := old(ips)[ip];
        ip in ips <==> now - s.lastRefill <= 10 * 60_000 || s.concurrent != 0 || s.tokens < sec.lim.burst as real
      ensures forall ip :: ip in old(store.bans) ==> var b := old(store.bans)[ip];
        ip in store.bans <==> b.until >= now || now - b.lastFailureAt <= 8 * sec.policy.windowMs
    {
      Advance(now);
      SweepBuckets(now);
      SweepBans(now);
    }

    method SweepBuckets(now: int)
      requires Valid() && now == clock
      modifies `ips
      ensures Valid()
      ensures ips == map ip | ip in old(ips) && !Idle(old(ips)[ip], now) :: old(ips)[ip]
    {
      ghost var before := ips;
      var left := ips.Keys;
      while left != {}
        invariant Valid() && left <= before.Keys
        invariant ips == map ip | ip in before && (ip in left || !Idle(before[ip], now)) :: before[ip]
      {
        var ip :| ip in left;
        left := left - {ip};
        if Idle(ips[ip], now) {
          DropBucket(ip);
        }
      }
    }

    method DropBucket(ip: string)
      requires Valid() && ip in ips && Idle(ips[ip], clock)
      modifies `ips
      ensures Valid() && ips == old(ips) - {ip}
    {
      ForgetKeepsMetered(sec.lim, ips, log, ip, clock);
      ghost var before := ips;
      ips := ips - {ip};
      forall other: string
        ensures Concurrent(ips, other) == |HeldBy(holders, other)| <= sec.maxConnectionsPerIp
      {
        assert Concurrent(before, other) == |HeldBy(holders, other)|;
      }
    }

    method SweepBans(now: int)
      requires Valid() && now == clock
      modifies store
      ensures Valid()
      ensures store.bans == map ip | ip in old(store.bans) && !Stale(old(store.bans)[ip], now) :: old(store.bans)[ip]
    {
      ghost var before := store.bans;
      var left := store.bans.Keys;
      while left != {}
        invariant Valid() && left <= before.Keys
        invariant store.bans == map ip | ip in before && (ip in left || !Stale(before[ip], now)) :: before[ip]
      {
        var ip :| ip in left;
        left := left - {ip};
        if Stale(store.bans[ip], now) {
          Forget(ip);
        }
      }
    }

    // ---- what a run keeps --------------------------------------------------------

    /**
     * Whatever the run was, the longest ban an address was given, before this guard or by it, stands
     * until the clock reaches its end; only `Fail` can replace it by a shorter one, where it says so.
     */
    lemma RunningBansStand(ip: string)
      requires Valid() && Highest(highest, ip) > clock
      ensures ip in store.bans && store.bans[ip].until == Highest(highest, ip)
    {
      assert StillStands(store.bans, highest, ip, clock);
    }

    /** Whatever the run was, no address came faster than its bucket, sweeps or no sweeps. */
    lemma RateBound(ip: string, t1: int, t2: int)
      requires Valid() && t1 <= t2
      ensures Admissions(TimesOf(log, ip), t1, t2) as real
        <= sec.lim.burst as real + sec.lim.perSecond * (t2 - t1) as real / 1000.0
    {
      assert IpMetered(sec.lim, ips, log, ip, clock);
      WindowBound(sec.lim, TimesOf(log, ip), t1, t2);
    }
  }

  // ---- a reported ban that is not kept --------------------------------------------------

  /** With every place in the store taken by a running ban, an address it does not know is banned in word only. */
  method BannedInWordOnly() returns (guard: Guard, banned: bool)
    ensures guard.Valid() && banned && "x" !in guard.store.bans && |guard.store.bans| == MAX_BANS
  {
    var full := FullOfRunningBans(MAX_BANS);
    var store := new BanStore(full);
    var sec := Security(Limits(1, 1.0), Policy(1, 1000, 1000, 1000), 1, 1);
    guard := new Guard(sec, _ => false, store, 0);
    var until;
    banned, until := guard.Fail("x", 0);
  }
}
