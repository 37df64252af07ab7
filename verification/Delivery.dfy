/**
 * Delivery to one device under cumulative acknowledgements: `deliver`, `replay`, `promote`,
 * `handleSync`, `handleSnooze` and `handleAck` of packages/core/src/server.ts, the cache of
 * packages/core/src/store.ts, and a device that reads its sockets in order
 * (packages/protocol/src/client.ts).
 *
 * Any number of sockets of the device, in any interleaving: each is a `Wire`. Whether a
 * socket takes a frame is the environment's choice. Whether the device's role permits a
 * notification is fixed with the notification.
 */
module Delivery {
  import opened Basics
  import opened NoteLog
  import opened Wire

  const MAX_SNOOZE_MS: int := 24 * 60 * 60_000

  /** A notification: `ttl` is 0 for one that has none; `critical` ones no snooze holds back. */
  datatype Alert = Alert(ts: int, ttl: int, permitted: bool, critical: bool)

  predicate Expired(n: Alert, now: int) {
    n.ttl != 0 && now - n.ts > n.ttl
  }

  predicate Eligible(issued: map<nat, Alert>, j: nat, now: int) {
    j in issued && issued[j].permitted && !Expired(issued[j], now)
  }

  /** What a replay shows: under a snooze only what is critical. */
  predicate Shows(issued: map<nat, Alert>, j: nat, now: int, snoozed: bool) {
    Eligible(issued, j, now) && (snoozed ==> issued[j].critical)
  }

  // ---- the frames of a replay -------------------------------------------------

  function Range(s: seq<nat>): set<nat> {
    set x | x in s
  }

  /** What `since` and the filter leave of the cache. */
  function Backlog(cache: seq<nat>, issued: map<nat, Alert>, now: int, since: int, snoozed: bool): seq<nat> {
    if cache == [] then []
    else
      var j := cache[|cache| - 1];
      Backlog(cache[..|cache| - 1], issued, now, since, snoozed)
        + if j > since && Shows(issued, j, now, snoozed) then [j] else []
  }

  lemma {:induction false} BacklogHas(cache: seq<nat>, issued: map<nat, Alert>, now: int, since: int, snoozed: bool,
                                      j: nat)
    ensures j in Backlog(cache, issued, now, since, snoozed) <==>
      j in cache && j > since && Shows(issued, j, now, snoozed)
  {
    if cache != [] {
      BacklogHas(cache[..|cache| - 1], issued, now, since, snoozed, j);
      assert cache == cache[..|cache| - 1] + [cache[|cache| - 1]];
    }
  }

  lemma AscendingMore(s: seq<nat>, bound: nat, more: nat)
    requires Ascending(s, bound) && bound <= more
    ensures Ascending(s, more)
  {
  }

  lemma {:induction false} AscendingBounds(s: seq<nat>, bound: nat, j: nat)
    requires Ascending(s, bound) && j in s
    ensures j < bound
  {
    if j != s[|s| - 1] {
      AscendingBounds(s[..|s| - 1], s[|s| - 1], j);
    }
  }

  lemma AscendingPush(s: seq<nat>, n: nat)
    requires Ascending(s, n)
    ensures Ascending(s + [n], n + 1)
  {
    assert (s + [n])[..|s|] == s;
  }

  lemma {:induction false} BacklogAscends(cache: seq<nat>, issued: map<nat, Alert>, now: int, since: int,
                                          snoozed: bool, bound: nat)
    requires Ascending(cache, bound)
    ensures Ascending(Backlog(cache, issued, now, since, snoozed), bound)
  {
    if cache != [] {
      var front, j := cache[..|cache| - 1], cache[|cache| - 1];
      BacklogAscends(front, issued, now, since, snoozed, j);
      var b := Backlog(front, issued, now, since, snoozed);
      AscendingPush(b, j);
      AscendingMore(b, j, bound);
      AscendingMore(b + [j], j + 1, bound);
      assert b + [] == b;
    }
  }

  lemma {:induction false} AscendingDrop(s: seq<nat>, bound: nat, k: nat)
    requires Ascending(s, bound) && k <= |s|
    ensures Ascending(s[k..], bound)
  {
    if k < |s| {
      AscendingDrop(s[..|s| - 1], s[|s| - 1], k);
      assert s[k..][..|s[k..]| - 1] == s[..|s| - 1][k..];
    }
  }

  /** One notice for the first `cut`, then the notifications up to the m-th. */
  function Shown(backlog: seq<nat>, cut: nat, m: nat): seq<Frame>
    requires cut <= m <= |backlog|
  {
    if m == cut then (if cut > 0 then [NotShown(Range(backlog[..cut]))] else [])
    else Shown(backlog, cut, m - 1) + [One(backlog[m - 1])]
  }

  lemma {:induction false} ShownCarries(backlog: seq<nat>, cut: nat, m: nat)
    requires cut <= m <= |backlog|
    ensures Carried(Shown(backlog, cut, m)) == Range(backlog[..m])
    decreases m
  {
    if m > cut {
      ShownCarries(backlog, cut, m - 1);
      var front := Shown(backlog, cut, m - 1);
      CarriedAppend(front, [One(backlog[m - 1])]);
      assert backlog[..m] == backlog[..m - 1] + [backlog[m - 1]];
    }
  }

  lemma {:induction false} ShownUpTo(backlog: seq<nat>, cut: nat, m: nat, newest: nat)
    requires cut <= m <= |backlog| && Ascending(backlog, newest + 1)
    ensures UpTo(Shown(backlog, cut, m), newest)
    decreases m
  {
    if m > cut {
      ShownUpTo(backlog, cut, m - 1, newest);
      AscendingBounds(backlog, newest + 1, backlog[m - 1]);
      var front := Shown(backlog, cut, m - 1);
      assert (front + [One(backlog[m - 1])])[..|front|] == front;
    }
  }

  lemma {:induction false} LowerComeBefore(s: seq<nat>, bound: nat, m: nat, j: nat)
    requires Ascending(s, bound) && 0 < m <= |s| && j in s && j <= s[m - 1]
    ensures j in s[..m]
  {
    if m < |s| {
      var last := s[|s| - 1];
      AscendingBounds(s[..|s| - 1], last, s[m - 1]);
      LowerComeBefore(s[..|s| - 1], last, m, j);
      assert s[..|s| - 1][..m] == s[..m];
    } else {
      assert s[..m] == s;
    }
  }

  lemma {:induction false} ShownInOrder(backlog: seq<nat>, cut: nat, m: nat, bound: nat, owed: set<nat>)
    requires cut <= m <= |backlog| && Ascending(backlog, bound) && owed <= Range(backlog)
    ensures InOrder(Shown(backlog, cut, m), owed)
    decreases m
  {
    if m > cut {
      ShownInOrder(backlog, cut, m - 1, bound, owed);
      ShownCarries(backlog, cut, m);
      var front, fs := Shown(backlog, cut, m - 1), Shown(backlog, cut, m);
      assert fs[..|fs| - 1] == front && fs[|fs| - 1] == One(backlog[m - 1]);
      forall j | j in owed && j <= backlog[m - 1]
        ensures j in Carried(fs)
      {
        LowerComeBefore(backlog, bound, m, j);
      }
      assert LastInOrder(fs, owed);
    } else if cut > 0 {
      assert Shown(backlog, cut, m)[..0] == [];
      assert InOrder([], owed);
    }
  }

  /** The numbers shown as notifications of their own. */
  function Singles(fs: seq<Frame>): set<nat> {
    set f | f in fs && f.One? :: f.number
  }

  /**
   * The frames show the `limit` highest of the numbers wanted, in rising order; a notice that
   * stands for exactly the others comes before them, if there are others.
   */
  ghost predicate MostRecent(fs: seq<Frame>, wanted: set<nat>, limit: int) {
    var shown := Singles(fs);
    && shown <= wanted
    && |shown| == (if limit <= 0 then 0 else if limit < |wanted| then limit else |wanted|)
    && (forall j, k :: j in wanted - shown && k in shown ==> j < k)
    && (forall skipped: set<nat> :: NotShown(skipped) in fs <==> skipped == wanted - shown && skipped != {})
    && (forall i, j :: 0 <= i < j < |fs| ==> fs[j].One? && (fs[i].One? ==> fs[i].number < fs[j].number))
  }

  lemma {:induction false} AscendingMeans(s: seq<nat>, bound: nat)
    requires Ascending(s, bound)
    ensures forall i, j :: 0 <= i < j < |s| ==> s[i] < s[j]
  {
    if s != [] {
      var front, top := s[..|s| - 1], s[|s| - 1];
      AscendingMeans(front, top);
      forall i, j | 0 <= i < j < |s|
        ensures s[i] < s[j]
      {
        assert s[i] == front[i];
        AscendingBounds(front, top, s[i]);
        if j < |front| { assert s[j] == front[j]; }
      }
    }
  }

  /** A list in order has as many members as places. */
  lemma {:induction false} RangeSize(s: seq<nat>, bound: nat)
    requires Ascending(s, bound)
    ensures |Range(s)| == |s|
  {
    if s != [] {
      var front, top := s[..|s| - 1], s[|s| - 1];
      RangeSize(front, top);
      assert Range(s) == Range(front) + {top};
      if top in Range(front) { AscendingBounds(front, top, top); }
    }
  }

  /** The frames, place by place. */
  lemma {:induction false} ShownAt(backlog: seq<nat>, cut: nat, m: nat)
    requires cut <= m <= |backlog|
    ensures var head := if cut > 0 then [NotShown(Range(backlog[..cut]))] else [];
      Shown(backlog, cut, m) == head + seq(m - cut, i requires 0 <= i < m - cut => One(backlog[cut + i]))
    decreases m
  {
    if m > cut {
      ShownAt(backlog, cut, m - 1);
    }
  }

  /** Cut anywhere, a list in order falls into lower and higher numbers. */
  lemma LowerThenHigher(s: seq<nat>, bound: nat, cut: nat, j: nat, k: nat)
    requires Ascending(s, bound) && cut <= |s| && j in s[..cut] && k in s[cut..]
    ensures j < k
  {
    AscendingMeans(s, bound);
    var a :| 0 <= a < cut && s[..cut][a] == j;
    var b :| 0 <= b < |s| - cut && s[cut..][b] == k;
    assert s[a] == j && s[cut + b] == k;
  }

  lemma CutApart(s: seq<nat>, bound: nat, cut: nat)
    requires Ascending(s, bound) && cut <= |s|
    ensures Range(s) - Range(s[cut..]) == Range(s[..cut]) && |Range(s[cut..])| == |s| - cut
    ensures forall j, k :: j in Range(s[..cut]) && k in Range(s[cut..]) ==> j < k
  {
    AscendingDrop(s, bound, cut);
    RangeSize(s[cut..], bound);
    forall j, k | j in s[..cut] && k in s[cut..]
      ensures j < k
    {
      LowerThenHigher(s, bound, cut, j, k);
    }
    RangeOfJoin(s[..cut], s[cut..]);
    assert s == s[..cut] + s[cut..];
  }

  lemma RangeOfJoin(s: seq<nat>, t: seq<nat>)
    ensures Range(s + t) == Range(s) + Range(t)
  {
  }

  lemma SinglesOfTail(head: seq<Frame>, tail: seq<nat>, fs: seq<Frame>)
    requires forall f :: f in head ==> f.NotShown?
    requires fs == head + seq(|tail|, i requires 0 <= i < |tail| => One(tail[i]))
    ensures Singles(fs) == Range(tail)
  {
    forall j | j in Range(tail)
      ensures j in Singles(fs)
    {
      var i :| 0 <= i < |tail| && tail[i] == j;
      assert fs[|head| + i] == One(j);
    }
  }

  lemma NoticeFirst(skipped: set<nat>, tail: seq<nat>, bound: nat, fs: seq<Frame>)
    requires Ascending(tail, bound)
    requires fs == (if skipped != {} then [NotShown(skipped)] else [])
                   + seq(|tail|, i requires 0 <= i < |tail| => One(tail[i]))
    ensures Singles(fs) == Range(tail)
    ensures forall s: set<nat> :: NotShown(s) in fs <==> s == skipped && s != {}
    ensures forall i, j :: 0 <= i < j < |fs| ==> fs[j].One? && (fs[i].One? ==> fs[i].number < fs[j].number)
  {
    var head := if skipped != {} then [NotShown(skipped)] else [];
    SinglesOfTail(head, tail, fs);
    AscendingMeans(tail, bound);
    assert forall i :: 0 <= i < |tail| ==> fs[|head| + i] == One(tail[i]);
    assert skipped != {} ==> fs[0] == NotShown(skipped);
  }

  lemma ShownMostRecent(backlog: seq<nat>, bound: nat, cut: nat, limit: int)
    requires Ascending(backlog, bound) && cut <= |backlog|
    requires |backlog| - cut == if limit <= 0 then 0 else if limit < |backlog| then limit else |backlog|
    ensures MostRecent(Shown(backlog, cut, |backlog|), Range(backlog), limit)
  {
    var skipped, tail := Range(backlog[..cut]), backlog[cut..];
    CutApart(backlog, bound, cut);
    RangeSize(backlog, bound);
    AscendingDrop(backlog, bound, cut);
    assert (cut > 0) == (skipped != {}) by {
      if cut > 0 { assert backlog[0] in backlog[..cut]; }
    }
    ShownAt(backlog, cut, |backlog|);
    NoticeFirst(skipped, tail, bound, Shown(backlog, cut, |backlog|));
  }

  // ---- what the hub still owes the device ------------------------------------

  /** Why a number the device never received may be excused from being owed to it. */
  datatype Excuses = Excuses(
    gone: set<nat>,       // it left the cache: evicted, or lost with what a crash had not written
    waived: set<nat>,     // the device acknowledged a number at or above it without having received it
    held: set<nat>,       // a snooze holds it back, and `heldFrom` leads back to it
    recalled: set<nat>,   // a snooze held it back until a sync asked for it
    slipped: set<nat>)    // a replay under a snooze passed over it; only a replay from below it can show it now
  {
    predicate Has(j: nat) { j in gone || j in waived || j in held || j in recalled || j in slipped }
  }

  /** Still in the cache, meant for the device, not expired, and nothing has settled it. */
  function Owed(cache: seq<nat>, issued: map<nat, Alert>, now: int, enrolledAt: nat, settled: set<nat>,
                excuses: Excuses): set<nat>
  {
    set j | j in cache && Eligible(issued, j, now) && j > enrolledAt && j !in settled && !excuses.Has(j)
  }

  ghost predicate AllSound(wires: map<nat, Wire>, owed: set<nat>, settled: set<nat>, newest: nat) {
    forall id :: id in wires ==> Sound(wires[id], owed, settled, newest)
  }

  lemma AllSoundForFewer(wires: map<nat, Wire>, owed: set<nat>, settled: set<nat>, newest: nat,
                         fewer: set<nat>, more: set<nat>)
    requires AllSound(wires, owed, settled, newest) && fewer <= owed && settled <= more
    ensures AllSound(wires, fewer, more, newest)
  {
    forall id | id in wires
      ensures Sound(wires[id], fewer, more, newest)
    {
      SoundForFewer(wires[id], owed, settled, newest, fewer, more);
    }
  }

  lemma AllSoundLater(wires: map<nat, Wire>, owed: set<nat>, settled: set<nat>, newest: nat, more: nat)
    requires AllSound(wires, owed, settled, newest) && newest <= more
    ensures AllSound(wires, owed, settled, more)
  {
    forall id | id in wires
      ensures Sound(wires[id], owed, settled, more)
    {
      SoundLater(wires[id], owed, settled, newest, more);
    }
  }

  ghost predicate NoneAbove(s: set<nat>, n: nat) {
    forall k :: k in s ==> k <= n
  }

  ghost predicate AllAbove(owed: set<nat>, n: nat) {
    forall j :: j in owed ==> j > n
  }

  /** The hub's table holds every socket that still takes frames. */
  ghost predicate OpenAreReady(wires: map<nat, Wire>, ready: set<nat>) {
    && ready <= wires.Keys
    && forall id :: id in wires && wires[id].open ==> id in ready
  }

  /** What `deliver` leaves of the wires. */
  function Delivered(wires: map<nat, Wire>, takers: set<nat>, f: Frame, accepts: nat -> bool): map<nat, Wire> {
    map id | id in wires :: if id in takers then Sent(wires[id], f, accepts(id)) else wires[id]
  }

  /** A new number offered to every session: from then on it is owed. */
  lemma AllSoundAfterNew(wires: map<nat, Wire>, ready: set<nat>, owed: set<nat>, settled: set<nat>, newest: nat,
                         accepts: nat -> bool)
    requires AllSound(wires, owed, settled, newest)
    requires OpenAreReady(wires, ready)
    ensures AllSound(Delivered(wires, ready, One(newest + 1), accepts), owed + {newest + 1}, settled, newest + 1)
  {
    var after := Delivered(wires, ready, One(newest + 1), accepts);
    forall id | id in after
      ensures Sound(after[id], owed + {newest + 1}, settled, newest + 1)
    {
      SoundAfterNew(wires[id], owed, settled, newest, accepts(id));
    }
  }

  /** A number nothing is owed about, offered to some sessions. */
  lemma AllSoundAfterAny(wires: map<nat, Wire>, takers: set<nat>, owed: set<nat>, settled: set<nat>, newest: nat,
                         n: nat, accepts: nat -> bool)
    requires AllSound(wires, owed, settled, newest) && n <= newest
    ensures AllSound(Delivered(wires, takers, One(n), accepts), owed, settled, newest)
  {
    var after := Delivered(wires, takers, One(n), accepts);
    forall id | id in after
      ensures Sound(after[id], owed, settled, newest)
    {
      SoundAfterRetry(wires[id], n, accepts(id), owed, settled, newest);
    }
  }

  lemma PushAscends(cache: seq<nat>, n: nat, limit: nat)
    requires Ascending(cache, n)
    ensures Ascending(Last(cache + [n], limit), n + 1)
  {
    AscendingPush(cache, n);
    if |cache + [n]| > limit { AscendingDrop(cache + [n], n + 1, |cache + [n]| - limit); }
  }

  lemma ExcusingMore(cache: seq<nat>, counter: nat, issued: map<nat, Alert>, excuses: Excuses, more: Excuses)
    requires Numbered(cache, counter, issued, excuses) && excuses.gone <= more.gone
    requires forall j: nat :: more.Has(j) ==> excuses.Has(j) || j <= counter
    ensures Numbered(cache, counter, issued, more)
  {
  }

  /** A snooze holds `n` back, if it does. */
  function Holding(e: Excuses, n: nat, holds: bool): Excuses {
    if holds then e.(held := e.held + {n}) else e
  }

  function Evicting(excuses: Excuses, before: seq<nat>, cache: seq<nat>): Excuses {
    excuses.(gone := excuses.gone + (Range(before) - Range(cache)))
  }

  /** After a push the newest is in the cache, and what else is there was there before. */
  lemma PushedOut(before: seq<nat>, n: nat, limit: nat)
    requires limit >= 1 && Ascending(before, n)
    ensures n in Last(before + [n], limit)
    ensures forall j :: j in Last(before + [n], limit) ==> j == n || j in before
    ensures forall j :: j in before ==> j < n
  {
    EndOf(before + [n], limit);
    assert (before + [n])[|before|] == n;
    forall j | j in Last(before + [n], limit)
      ensures j == n || j in before
    {
      assert j in before + [n];
    }
    forall j | j in before
      ensures j < n
    {
      AscendingBounds(before, n, j);
    }
  }

  lemma EndOf(s: seq<nat>, limit: nat)
    requires limit >= 1 && s != []
    ensures s[|s| - 1] in Last(s, limit) && forall j :: j in Last(s, limit) ==> j in s
  {
    var end := Last(s, limit);
    assert end[|end| - 1] == s[|s| - 1];
    forall j | j in end
      ensures j in s
    {
      var i :| 0 <= i < |end| && end[i] == j;
      assert s[|s| - |end| + i] == j;
    }
  }

  lemma NumberedAfterPush(cache: seq<nat>, counter: nat, issued: map<nat, Alert>, excuses: Excuses, a: Alert,
                          limit: nat)
    requires limit >= 1 && Numbered(cache, counter, issued, excuses)
    ensures var n := counter + 1;
      var kept := Last(cache + [n], limit);
      Numbered(kept, n, issued[n := a], Evicting(excuses, cache, kept))
  {
    var n := counter + 1;
    var kept := Last(cache + [n], limit);
    PushAscends(cache, n, limit);
    PushedOut(cache, n, limit);
    var more := Evicting(excuses, cache, kept);
    forall j: nat | more.Has(j)
      ensures j <= n
    {
      assert j in Range(cache) || excuses.Has(j);
    }
  }

  lemma OwedAfterPush(cache: seq<nat>, counter: nat, issued: map<nat, Alert>, excuses: Excuses, a: Alert, limit: nat,
                      now: int, enrolledAt: nat, settled: set<nat>)
    requires limit >= 1 && Numbered(cache, counter, issued, excuses)
    ensures var n := counter + 1;
      var kept := Last(cache + [n], limit);
      Owed(kept, issued[n := a], now, enrolledAt, settled, Evicting(excuses, cache, kept))
        <= Owed(cache, issued, now, enrolledAt, settled, excuses) + if a.permitted then {n} else {}
  {
    PushedOut(cache, counter + 1, limit);
  }

  /** No session's copy of the snooze holds this one back. */
  ghost predicate NobodyHolds(a: Alert, ready: set<nat>, copies: map<nat, int>, now: int)
    requires ready <= copies.Keys
  {
    a.critical || forall id :: id in ready ==> copies[id] <= now
  }

  /** What a push leaves: the books in order, nothing owed but what was and the new number, and that above `high`. */
  lemma AfterPush(cache: seq<nat>, counter: nat, issued: map<nat, Alert>, excuses: Excuses, a: Alert, limit: nat,
                  now: int, enrolledAt: nat, settled: set<nat>, high: nat,
                  kept: seq<nat>, more: map<nat, Alert>, after: Excuses)
    requires limit >= 1 && Numbered(cache, counter, issued, excuses) && high <= counter
    requires AllAbove(Owed(cache, issued, now, enrolledAt, settled, excuses), high)
    requires kept == Last(cache + [counter + 1], limit) && more == issued[counter + 1 := a]
    requires after == Evicting(excuses, cache, kept)
    ensures Numbered(kept, counter + 1, more, after)
    ensures AllAbove(Owed(kept, more, now, enrolledAt, settled, after), high)
    ensures Owed(kept, more, now, enrolledAt, settled, after)
      <= Owed(cache, issued, now, enrolledAt, settled, excuses) + if a.permitted then {counter + 1} else {}
  {
    NumberedAfterPush(cache, counter, issued, excuses, a, limit);
    OwedAfterPush(cache, counter, issued, excuses, a, limit, now, enrolledAt, settled);
  }

  /** No session of these was snoozed, by its own copy or by the record. */
  ghost predicate NoneSnoozed(takers: set<nat>, copies: map<nat, int>, snoozedUntil: int, now: int)
    requires takers <= copies.Keys
  {
    snoozedUntil <= now || forall id :: id in takers ==> copies[id] <= now
  }

  /** Sessions' copies of the record, some of them replaced by the record as it is. */
  ghost predicate RefreshedTo(copies: map<nat, int>, now: map<nat, int>, record: int) {
    now.Keys == copies.Keys && forall id :: id in now ==> now[id] == copies[id] || now[id] == record
  }

  /** Some session's snooze held back what its role permits. */
  predicate Holds(a: Alert, takers: set<nat>, sessions: set<nat>) {
    a.permitted && takers != sessions
  }

  /**
   * `takers` of the sessions were offered number `n`: none without permission, none that is snoozed
   * unless it is critical, and all if nobody holds it back.
   */
  ghost predicate WentOut(a: Alert, n: nat, takers: set<nat>, accepts: nat -> bool, before: map<nat, Wire>,
                          wires: map<nat, Wire>, ready: set<nat>, copies: map<nat, int>, snoozedUntil: int, now: int)
    requires ready <= copies.Keys
  {
    && takers <= ready && wires == Delivered(before, takers, One(n), accepts)
    && (!a.permitted ==> takers == {})
    && (a.critical || NoneSnoozed(takers, copies, snoozedUntil, now))
    && (a.permitted && NobodyHolds(a, ready, copies, now) ==> takers == ready)
  }

  lemma OneMoreOffered(a: Alert, n: nat, takers: set<nat>, accepts: nat -> bool, before: map<nat, Wire>, done: set<nat>,
                       copies: map<nat, int>, snoozedUntil: int, now: int, id: nat, taken: bool)
    requires done <= copies.Keys && id in copies && id !in done && id in before
    requires WentOut(a, n, takers, accepts, before, Delivered(before, takers, One(n), accepts), done, copies,
                     snoozedUntil, now)
    requires taken ==> a.permitted && (a.critical || copies[id] <= now || snoozedUntil <= now)
    requires a.permitted && NobodyHolds(a, done + {id}, copies, now) ==> taken
    ensures var more := if taken then takers + {id} else takers;
      var wires := Delivered(before, takers, One(n), accepts);
      WentOut(a, n, more, accepts, before, if taken then wires[id := Sent(wires[id], One(n), accepts(id))] else wires,
              done + {id}, copies, snoozedUntil, now)
  {
  }

  /** Where a snooze's mark stands once `n` is held back too. */
  function Earlier(heldFrom: Option<nat>, n: nat): (r: Option<nat>)
    ensures r.Some? && r.value <= n && (heldFrom.Some? ==> r.value <= heldFrom.value)
  {
    if heldFrom.Some? && n >= heldFrom.value then heldFrom else Some(n)
  }

  /** The mark leads back to everything held. */
  ghost predicate LeadsBack(held: set<nat>, heldFrom: Option<nat>) {
    && (heldFrom.Some? ==> heldFrom.value > 0)
    && forall h :: h in held ==> heldFrom.Some? && heldFrom.value <= h
  }

  /** The cache is in order, and what was issued is still in it or is known to have left it. */
  ghost predicate Numbered(cache: seq<nat>, counter: nat, issued: map<nat, Alert>, excuses: Excuses) {
    && Ascending(cache, counter + 1)
    && (forall j :: j in issued ==> 0 < j <= counter && (j in cache || j in excuses.gone))
    && (forall j: nat :: excuses.Has(j) ==> j <= counter)
  }

  /** What the document on the disk says: the counter, and the device's record. */
  datatype Document = Document(counter: nat, ackedSeq: nat, snoozedUntil: int, heldFrom: Option<nat>)

  /** It was true of the hub at some earlier moment. */
  ghost predicate Documented(d: Document, counter: nat, ackedSeq: nat) {
    && d.ackedSeq <= d.counter <= counter && d.ackedSeq <= ackedSeq
    && (d.heldFrom.Some? ==> d.heldFrom.value > 0)
  }

  /** What no snooze was ever there to leave behind. */
  ghost predicate NeverSnoozed(e: Excuses, snoozedUntil: int, heldFrom: Option<nat>, copies: map<nat, int>,
                               d: Document)
  {
    && e.held == {} && e.recalled == {} && e.slipped == {}
    && snoozedUntil == 0 && heldFrom == None && d.snoozedUntil == 0 && d.heldFrom == None
    && forall id :: id in copies ==> copies[id] == 0
  }

  // ---- a restart: numbers above the counter read back name other notifications from then on ----

  function UpToNumber(s: set<nat>, n: nat): set<nat> {
    set j | j in s && j <= n
  }

  function IssuedUpTo(issued: map<nat, Alert>, n: nat): map<nat, Alert> {
    map j | j in issued && j <= n :: issued[j]
  }

  /** What a snooze held is still led back to, as far as this mark goes. */
  function LedBackTo(held: set<nat>, heldFrom: Option<nat>): set<nat> {
    set j | j in held && heldFrom.Some? && heldFrom.value <= j
  }

  /** With a mark that goes less far back, the rest has slipped. */
  function Remarked(e: Excuses, heldFrom: Option<nat>): Excuses {
    var held := LedBackTo(e.held, heldFrom);
    e.(held := held, slipped := e.slipped + (e.held - held))
  }

  /** Up to the counter read back, with what the file no longer holds. */
  function CutOff(e: Excuses, cache: seq<nat>, kept: seq<nat>, n: nat): Excuses {
    Excuses(UpToNumber(e.gone + (Range(cache) - Range(kept)), n), UpToNumber(e.waived, n), UpToNumber(e.held, n),
            UpToNumber(e.recalled, n), UpToNumber(e.slipped, n))
  }

  lemma NumberedAfterCut(cache: seq<nat>, counter: nat, issued: map<nat, Alert>, e: Excuses, kept: seq<nat>, n: nat)
    requires Numbered(cache, counter, issued, e) && Ascending(kept, n + 1)
    ensures Numbered(kept, n, IssuedUpTo(issued, n), CutOff(e, cache, kept, n))
  {
    var after := CutOff(e, cache, kept, n);
    forall j: nat | after.Has(j)
      ensures j <= n
    {
    }
  }

  /** What is owed after a restart was owed before it, whatever the file still had. */
  lemma OwedAfterCut(cache: seq<nat>, counter: nat, issued: map<nat, Alert>, e: Excuses, kept: seq<nat>, n: nat,
                     now: int, enrolledAt: nat, settled: set<nat>)
    requires Numbered(cache, counter, issued, e) && Ascending(kept, n + 1)
    ensures Owed(kept, IssuedUpTo(issued, n), now, enrolledAt, settled, CutOff(e, cache, kept, n))
      <= Owed(cache, issued, now, enrolledAt, settled, e)
  {
    var after := CutOff(e, cache, kept, n);
    forall j | j in Owed(kept, IssuedUpTo(issued, n), now, enrolledAt, settled, after)
      ensures j in Owed(cache, issued, now, enrolledAt, settled, e)
    {
      assert !after.Has(j) && j in issued && j <= n;
    }
  }

  class Hub {
    const historyLimit: nat
    const replayLimit: int
    /** `store.seq` */
    var counter: nat
    /** The numbers in the history cache, oldest first. */
    var cache: seq<nat>
    var issued: map<nat, Alert>
    var now: nat
    // The device's record: its cursor, its snooze, and the earliest alert the snooze holds.
    var ackedSeq: nat
    var snoozedUntil: int
    var heldFrom: Option<nat>
    const enrolledAt: nat
    var document: Document
    /** The device's sessions in the hub's table, each one's copy of `snoozedUntil`, and every socket so far. */
    var ready: set<nat>
    var copies: map<nat, int>
    var wires: map<nat, Wire>

    // The device's side: what it was given, and what notices told it of.
    var received: set<nat>
    ghost var told: set<nat>
    ghost var excuses: Excuses
    /** Nothing owed has a number up to this one. */
    ghost var high: nat
    /** The device was snoozed at some time. */
    ghost var napped: bool
    /** It acknowledged a number above its cursor that it had not received. */
    ghost var overacked: bool

    ghost function OwedNow(): set<nat>
      reads this
    {
      Owed(cache, issued, now, enrolledAt, received + told, excuses)
    }

    /** The record's mark leads back to what the snooze holds; every session has its copy. */
    ghost predicate Marks()
      reads this
    {
      LeadsBack(excuses.held, heldFrom) && ready <= copies.Keys
    }

    ghost predicate Valid()
      reads this
    {
      && historyLimit >= 1 && Numbered(cache, counter, issued, excuses)
      && Marks()
      && Documented(document, counter, ackedSeq)
      && AllSound(wires, OwedNow(), received + told, counter)
      && OpenAreReady(wires, ready)
      && AllAbove(OwedNow(), high) && ackedSeq <= high <= counter
      && NoneAbove(received, high)
      && Undisturbed()
    }

    /** Who was never snoozed has nothing held back; who acknowledges only what it received waives nothing. */
    ghost predicate Undisturbed()
      reads this
    {
      && (!napped ==> NeverSnoozed(excuses, snoozedUntil, heldFrom, copies, document))
      && (!overacked ==> excuses.waived == {})
    }

    /** The device enrols at the current head of a hub that already has a history. */
    constructor (historyLimit: nat, replayLimit: int, counter: nat, cache: seq<nat>, issued: map<nat, Alert>, now: nat)
      requires historyLimit >= 1 && Ascending(cache, counter + 1)
      requires forall j :: j in issued ==> 0 < j <= counter
      ensures Valid() && ackedSeq == enrolledAt == counter && received == {} && told == {} && OwedNow() == {}
      ensures this.historyLimit == historyLimit && this.replayLimit == replayLimit && this.counter == counter
      ensures this.cache == cache && this.issued == issued && this.now == now
      ensures snoozedUntil == 0 && heldFrom == None && ready == {} && wires == map[] && !napped && !overacked
      ensures document == Document(counter, counter, 0, None)
    {
      this.historyLimit := historyLimit;
      this.replayLimit := replayLimit;
      this.counter := counter;
      this.cache := cache;
      this.issued := issued;
      this.now := now;
      ackedSeq := counter;
      snoozedUntil := 0;
      heldFrom := None;
      enrolledAt := counter;
      document := Document(counter, counter, 0, None);
      ready := {};
      copies := map[];
      wires := map[];
      received := {};
      told := {};
      excuses := Excuses(issued.Keys - Range(cache), {}, {}, {}, {});
      high := counter;
      napped, overacked := false, false;
      new;
      forall j | j in cache
        ensures j <= counter
      {
        AscendingBounds(cache, counter + 1, j);
      }
    }

    // ---- the environment: time, what the device reads -------------------------------

    method Tick(later: nat)
      requires Valid() && later >= now
      modifies `now
      ensures Valid() && now == later
    {
      ghost var before := OwedNow();
      now := later;
      AllSoundForFewer(wires, before, received + told, counter, OwedNow(), received + told);
    }

    /** A frame reaches the device, which was owed nothing before it. */
    method Take(f: Frame)
      requires AllAbove(OwedNow(), high) && NoneAbove(received, high) && high <= counter
      requires Undisturbed()
      requires f.One? ==> f.number <= counter && forall j :: j in OwedNow() && j <= f.number ==> j == f.number
      modifies `received, `told, `high
      ensures received == if f.One? then old(received) + {f.number} else old(received)
      ensures told == if f.One? then old(told) else old(told) + f.numbers
      ensures OwedNow() <= old(OwedNow()) && received + told == old(received + told) + f.Numbers()
      ensures Undisturbed()
      ensures AllAbove(OwedNow(), high) && NoneAbove(received, high) && old(high) <= high <= counter
    {
      if f.One? {
        received := received + {f.number};
        if f.number > high { high := f.number; }
      } else {
        told := told + f.numbers;
      }
    }

    /** The device reads the next frame of one of its sockets, which may be closed by now. */
    method Read(id: nat)
      requires Valid() && id in wires && wires[id].read < |wires[id].frames|
      modifies `wires, `received, `told, `high
      ensures Valid()
      ensures var f := old(wires[id].frames[wires[id].read]);
        && received == (if f.One? then old(received) + {f.number} else old(received))
        && told == (if f.One? then old(told) else old(told) + f.numbers)
      ensures wires == old(wires)[id := old(wires)[id].(read := old(wires)[id].read + 1)]
    {
      var w := wires[id];
      var f := w.frames[w.read];
      ghost var owed, settled := OwedNow(), received + told;
      ReadingSettles(w, owed, settled, counter);
      Take(f);
      wires := wires[id := w.(read := w.read + 1)];
      AfterReading(w, id, owed, settled, f);
    }

    lemma AfterReading(w: Wire, id: nat, owed: set<nat>, settled: set<nat>, f: Frame)
      requires Sound(w, owed, settled, counter) && w.read < |w.frames| && f == w.frames[w.read]
      requires Carried(w.frames[..w.read + 1]) <= settled + f.Numbers()
      requires id in wires && wires[id] == w.(read := w.read + 1)
      requires forall other :: other in wires && other != id ==> Sound(wires[other], owed, settled, counter)
      requires OwedNow() <= owed && received + told == settled + f.Numbers()
      ensures AllSound(wires, OwedNow(), received + told, counter)
    {
      forall other | other in wires
        ensures Sound(wires[other], OwedNow(), received + told, counter)
      {
        if other == id {
          OrderOfFewer(w.frames, owed, OwedNow());
        } else {
          SoundForFewer(wires[other], owed, settled, counter, OwedNow(), received + told);
        }
      }
    }

    /** A socket's end, seen by the hub: it leaves the table, and takes no more frames. */
    method CloseSession(id: nat)
      requires Valid() && id in ready
      modifies `ready, `wires
      ensures Valid() && ready == old(ready) - {id} && wires == old(wires)[id := old(wires)[id].(open := false)]
    {
      ready := ready - {id};
      wires := wires[id := wires[id].(open := false)];
    }

    // ---- acknowledgements ------------------------------------------------------------

    /** A cursor never goes back, and never passes what the hub has issued, whatever number arrives. */
    lemma CursorStaysInRange(k: int)
      requires ackedSeq <= counter
      ensures ackedSeq <= Moved(k) <= counter
      ensures ackedSeq < k ==> Moved(k) == if k <= counter then k else counter
    {
    }

    function Moved(k: int): int
      reads this
    {
      var s := if k <= counter then k else counter;
      if k > ackedSeq && s > ackedSeq then s else ackedSeq
    }

    /** What is still owed and has a number up to `k`. */
    ghost function OwedUpTo(k: int): set<nat>
      reads this
    {
      set j | j in OwedNow() && j <= k
    }

    /**
     * The cursor only rises. What it passes over without the device having received it, the device
     * has waived; acknowledging a number it did receive waives nothing.
     */
    method HandleAck(id: nat, k: int)
      requires Valid() && id in ready
      modifies `ackedSeq, `copies, `excuses, `high, `overacked
      ensures Valid() && ackedSeq == old(Moved(k))
      ensures overacked == (old(overacked) || (k > old(ackedSeq) && k !in received))
      ensures excuses == old(excuses).(waived := old(excuses.waived) + old(OwedUpTo(Moved(k))))
      ensures k in received ==> excuses == old(excuses)
      ensures copies == if ackedSeq > old(ackedSeq) then old(copies)[id := snoozedUntil] else old(copies)
    {
      Waive(k);
      if k > ackedSeq {
        MoveCursor(id, if k <= counter then k else counter);
      }
    }

    /** The part of `handleAck` behind its first check. */
    method MoveCursor(id: nat, s: nat)
      requires Valid() && id in ready && s <= high
      modifies `ackedSeq, `copies
      ensures Valid() && ackedSeq == if s > old(ackedSeq) then s else old(ackedSeq)
      ensures copies == if ackedSeq > old(ackedSeq) then old(copies)[id := snoozedUntil] else old(copies)
    {
      if s > ackedSeq {
        ackedSeq := s;
        copies := copies[id := snoozedUntil];
      }
    }

    /** An acknowledgement of `k` gives up what is still owed up to where the cursor will be. */
    ghost method Waive(k: int)
      requires Valid()
      modifies `excuses, `high, `overacked
      ensures Valid() && high >= Moved(k)
      ensures excuses == old(excuses).(waived := old(excuses.waived) + old(OwedUpTo(Moved(k))))
      ensures k in received ==> excuses == old(excuses)
      ensures overacked == (old(overacked) || (k > ackedSeq && k !in received))
    {
      ghost var cursor := Moved(k);
      ghost var more := excuses.(waived := excuses.waived + OwedUpTo(cursor));
      AfterWaiving(cursor, more);
      overacked := overacked || (k > ackedSeq && k !in received);
      excuses := more;
      if cursor > high { high := cursor; }
    }

    lemma AfterWaiving(cursor: nat, more: Excuses)
      requires Valid() && cursor <= counter && more == excuses.(waived := excuses.waived + OwedUpTo(cursor))
      ensures Numbered(cache, counter, issued, more) && (cursor <= high ==> more == excuses)
      ensures var owed := Owed(cache, issued, now, enrolledAt, received + told, more);
        && AllSound(wires, owed, received + told, counter)
        && AllAbove(owed, cursor) && AllAbove(owed, high)
    {
      assert cursor <= high ==> OwedUpTo(cursor) == {};
      assert forall j: nat :: more.Has(j) ==> excuses.Has(j) || j <= cursor;
      ExcusingMore(cache, counter, issued, excuses, more);
      AllSoundForFewer(wires, OwedNow(), received + told, counter,
                       Owed(cache, issued, now, enrolledAt, received + told, more), received + told);
    }

    // ---- snoozing ----------------------------------------------------------------------

    /** `handleSnooze`: the record and this session's copy of it; at most a day, and 0 lifts it. */
    method Snooze(id: nat, requested: int)
      requires Valid() && id in ready
      modifies `snoozedUntil, `copies, `napped
      ensures Valid() && snoozedUntil <= now + 24 * 60 * 60_000
      ensures snoozedUntil == if requested <= now then 0
        else if requested < now + 24 * 60 * 60_000 then requested else now + 24 * 60 * 60_000
      ensures copies == old(copies)[id := snoozedUntil] && napped == (old(napped) || requested > now)
    {
      napped := napped || requested > now;
      var max := now + MAX_SNOOZE_MS;
      snoozedUntil := if requested > now then (if requested < max then requested else max) else 0;
      copies := copies[id := snoozedUntil];
    }

    /** Every session in the table gets the record as it is now. */
    method Refresh()
      requires ready <= copies.Keys
      modifies `copies
      ensures copies == map id | id in old(copies) :: if id in ready then snoozedUntil else old(copies)[id]
    {
      copies := map id | id in copies :: if id in ready then snoozedUntil else copies[id];
    }

    /** `touchDevice`: a frame that comes long enough after the last one refreshes every copy. */
    method Touch()
      requires Valid()
      modifies `copies
      ensures Valid() && forall id :: id in ready ==> copies[id] == snoozedUntil
    {
      Refresh();
    }

    /** `markSnoozeHeld` */
    method MarkHeld(n: nat)
      requires Marks() && n > 0
      modifies `heldFrom, `copies
      ensures Marks() && heldFrom == Earlier(old(heldFrom), n)
      ensures RefreshedTo(old(copies), copies, snoozedUntil)
      ensures heldFrom != old(heldFrom) ==> forall id :: id in ready ==> copies[id] == snoozedUntil
    {
      if heldFrom.Some? && n >= heldFrom.value { return; }
      heldFrom := Some(n);
      Refresh();
    }

    // ---- publishing --------------------------------------------------------------------

    /** One turn of the loop in `deliver`. */
    method OfferTo(id: nat, n: nat, accepted: bool) returns (taken: bool)
      requires n in issued && n > 0 && id in ready && id in wires && Marks()
      modifies `wires, `heldFrom, `copies
      ensures Marks() && RefreshedTo(old(copies), copies, snoozedUntil)
      ensures taken <==> issued[n].permitted && (issued[n].critical || old(copies)[id] <= now)
      ensures wires == if taken then old(wires)[id := Sent(old(wires)[id], One(n), accepted)] else old(wires)
      ensures if issued[n].permitted && !taken then heldFrom == Earlier(old(heldFrom), n)
        else heldFrom == old(heldFrom) && copies == old(copies)
    {
      taken := false;
      if copies[id] > now && !issued[n].critical {
        if issued[n].permitted { MarkHeld(n); }
      } else if issued[n].permitted {
        wires := wires[id := Sent(wires[id], One(n), accepted)];
        taken := true;
      }
    }

    /**
     * `deliver`: each session in the table is offered the frame, or its snooze marks what it holds
     * back, in any order. `takers` are the sessions that were offered it.
     */
    method Deliver(n: nat, accepts: nat -> bool) returns (ghost takers: set<nat>)
      requires n in issued && n > 0 && OpenAreReady(wires, ready) && Marks()
      modifies `wires, `heldFrom, `copies
      ensures Marks() && OpenAreReady(wires, ready)
      ensures WentOut(issued[n], n, takers, accepts, old(wires), wires, ready, old(copies), snoozedUntil, now)
      ensures heldFrom == if Holds(issued[n], takers, ready) then Earlier(old(heldFrom), n) else old(heldFrom)
      ensures RefreshedTo(old(copies), copies, snoozedUntil)
    {
      ghost var before, copies0 := wires, copies;
      var left := ready;
      takers := {};
      while left != {}
        invariant left <= ready && Marks() && RefreshedTo(copies0, copies, snoozedUntil)
        invariant WentOut(issued[n], n, takers, accepts, before, wires, ready - left, copies0, snoozedUntil, now)
        invariant heldFrom == if Holds(issued[n], takers, ready - left)
          then Earlier(old(heldFrom), n) else old(heldFrom)
        invariant !Holds(issued[n], takers, ready - left) ==> copies == copies0
      {
        var id :| id in left;
        var taken := OfferTo(id, n, accepts(id));
        OneMoreOffered(issued[n], n, takers, accepts, before, ready - left, copies0, snoozedUntil, now, id, taken);
        assert ready - (left - {id}) == (ready - left) + {id};
        left := left - {id};
        if taken { takers := takers + {id}; }
      }
      assert ready - left == ready;
    }

    /** `notify`, held back by flood control: a number is used up and nothing is issued. */
    method Coalesce()
      requires Valid()
      modifies `counter
      ensures Valid() && counter == old(counter) + 1
    {
      AllSoundLater(wires, OwedNow(), received + told, counter, counter + 1);
      AscendingMore(cache, counter + 1, counter + 2);
      counter := counter + 1;
    }

    /** `nextSeq` and `pushHistory` */
    method PushHistory(n: Alert)
      requires historyLimit >= 1 && Numbered(cache, counter, issued, excuses)
      requires AllAbove(OwedNow(), high) && high <= counter
      modifies `counter, `cache, `issued, `excuses
      ensures AllAbove(OwedNow(), high)
      ensures Numbered(cache, counter, issued, excuses)
      ensures counter == old(counter) + 1 && issued == old(issued)[counter := n]
      ensures cache == Last(old(cache) + [counter], historyLimit)
      ensures excuses == Evicting(old(excuses), old(cache), cache)
      ensures OwedNow() <= old(OwedNow()) + if n.permitted then {counter} else {}
    {
      ghost var cache0, counter0, issued0, excuses0 := cache, counter, issued, excuses;
      counter := counter + 1;
      issued := issued[counter := n];
      cache := Last(cache + [counter], historyLimit);
      excuses := Evicting(excuses, cache0, cache);
      AfterPush(cache0, counter0, issued0, excuses0, n, historyLimit, now, enrolledAt, received + told, high,
                cache, issued, excuses);
    }

    /** `notify`: numbered, remembered, and offered to every session of a device it is meant for. */
    method Publish(ttl: int, permitted: bool, critical: bool, accepts: nat -> bool) returns (ghost takers: set<nat>)
      requires Valid()
      modifies `counter, `cache, `issued, `wires, `heldFrom, `copies, `excuses
      ensures Valid() && counter == old(counter) + 1
      ensures issued == old(issued)[counter := Alert(now, ttl, permitted, critical)]
      ensures cache == Last(old(cache) + [counter], historyLimit)
      ensures WentOut(issued[counter], counter, takers, accepts, old(wires), wires, ready, old(copies),
                      snoozedUntil, now)
      ensures excuses
        == Holding(Evicting(old(excuses), old(cache), cache), counter, Holds(issued[counter], takers, ready))
      ensures heldFrom == if Holds(issued[counter], takers, ready)
        then Earlier(old(heldFrom), counter) else old(heldFrom)
      ensures RefreshedTo(old(copies), copies, snoozedUntil)
    {
      takers := PushAndOffer(Alert(now, ttl, permitted, critical), accepts);
    }

    method PushAndOffer(a: Alert, accepts: nat -> bool) returns (ghost takers: set<nat>)
      requires Valid()
      modifies `counter, `cache, `issued, `wires, `heldFrom, `copies, `excuses
      ensures Numbered(cache, counter, issued, excuses) && Marks() && AllAbove(OwedNow(), high)
      ensures AllSound(wires, OwedNow(), received + told, counter) && OpenAreReady(wires, ready)
      ensures counter == old(counter) + 1 && issued == old(issued)[counter := a]
      ensures cache == Last(old(cache) + [counter], historyLimit)
      ensures WentOut(a, counter, takers, accepts, old(wires), wires, ready, old(copies), snoozedUntil, now)
      ensures excuses == Holding(Evicting(old(excuses), old(cache), cache), counter, Holds(a, takers, ready))
      ensures heldFrom == if Holds(a, takers, ready) then Earlier(old(heldFrom), counter) else old(heldFrom)
      ensures RefreshedTo(old(copies), copies, snoozedUntil)
    {
      ghost var owed := OwedNow();
      PushHistory(a);
      takers := Offer(owed, accepts);
    }

    /** The newest number goes out; nothing but that number can be owed on top of `owed`. */
    method Offer(ghost owed: set<nat>, accepts: nat -> bool) returns (ghost takers: set<nat>)
      requires Numbered(cache, counter, issued, excuses) && counter in issued && Marks()
      requires AllSound(wires, owed, received + told, counter - 1) && OpenAreReady(wires, ready)
      requires OwedNow() <= owed + if issued[counter].permitted then {counter} else {}
      requires AllAbove(OwedNow(), high)
      modifies `wires, `heldFrom, `copies, `excuses
      ensures Numbered(cache, counter, issued, excuses) && Marks()
      ensures AllSound(wires, OwedNow(), received + told, counter) && OpenAreReady(wires, ready)
      ensures AllAbove(OwedNow(), high)
      ensures WentOut(issued[counter], counter, takers, accepts, old(wires), wires, ready, old(copies),
                      snoozedUntil, now)
      ensures excuses == Holding(old(excuses), counter, Holds(issued[counter], takers, ready))
      ensures heldFrom == if Holds(issued[counter], takers, ready)
        then Earlier(old(heldFrom), counter) else old(heldFrom)
      ensures RefreshedTo(old(copies), copies, snoozedUntil)
    {
      ghost var before := wires;
      takers := SendOut(counter, accepts);
      AfterOffer(before, owed, takers, accepts);
    }

    /** `deliver`, and what some session did not take is held back from then on. */
    method SendOut(n: nat, accepts: nat -> bool) returns (ghost takers: set<nat>)
      requires n in issued && Numbered(cache, counter, issued, excuses) && Marks() && OpenAreReady(wires, ready)
      modifies `wires, `heldFrom, `copies, `excuses
      ensures Numbered(cache, counter, issued, excuses) && Marks() && OpenAreReady(wires, ready)
      ensures WentOut(issued[n], n, takers, accepts, old(wires), wires, ready, old(copies), snoozedUntil, now)
      ensures excuses == Holding(old(excuses), n, Holds(issued[n], takers, ready))
      ensures heldFrom == if Holds(issued[n], takers, ready) then Earlier(old(heldFrom), n) else old(heldFrom)
      ensures OwedNow() <= old(OwedNow()) && (Holds(issued[n], takers, ready) ==> n !in OwedNow())
      ensures RefreshedTo(old(copies), copies, snoozedUntil)
    {
      takers := Deliver(n, accepts);
      HeldBack(n, takers);
    }

    /** What some session did not take is held back from now on. */
    ghost method HeldBack(n: nat, takers: set<nat>)
      requires n in issued && Numbered(cache, counter, issued, excuses) && Marks()
      requires Holds(issued[n], takers, ready) ==> heldFrom.Some? && heldFrom.value <= n
      modifies `excuses
      ensures Numbered(cache, counter, issued, excuses) && Marks()
      ensures excuses == Holding(old(excuses), n, Holds(issued[n], takers, ready))
      ensures OwedNow() <= old(OwedNow()) && (Holds(issued[n], takers, ready) ==> n !in OwedNow())
    {
      if Holds(issued[n], takers, ready) {
        ghost var more := Holding(excuses, n, true);
        assert forall j: nat :: more.Has(j) ==> excuses.Has(j) || j == n;
        ExcusingMore(cache, counter, issued, excuses, more);
        assert forall j: nat :: excuses.Has(j) ==> more.Has(j);
        excuses := more;
      }
    }

    lemma AfterOffer(before: map<nat, Wire>, owed: set<nat>, takers: set<nat>, accepts: nat -> bool)
      requires counter > 0 && AllSound(before, owed, received + told, counter - 1) && OpenAreReady(before, ready)
      requires wires == Delivered(before, takers, One(counter), accepts)
      requires OwedNow() <= owed + (if takers == ready then {counter} else {})
      ensures AllSound(wires, OwedNow(), received + told, counter)
    {
      if takers == ready {
        AllSoundAfterNew(before, ready, owed, received + told, counter - 1, accepts);
        AllSoundForFewer(wires, owed + {counter}, received + told, counter, OwedNow(), received + told);
      } else {
        AllSoundLater(before, owed, received + told, counter - 1, counter);
        AllSoundAfterAny(before, takers, owed, received + told, counter, counter, accepts);
        AllSoundForFewer(wires, owed, received + told, counter, OwedNow(), received + told);
      }
    }

    /** A retry of an unacknowledged notification. */
    method Retry(n: nat, accepts: nat -> bool) returns (ghost takers: set<nat>)
      requires Valid() && n in issued
      modifies `wires, `heldFrom, `copies, `excuses
      ensures Valid()
      ensures WentOut(issued[n], n, takers, accepts, old(wires), wires, ready, old(copies), snoozedUntil, now)
      ensures excuses == Holding(old(excuses), n, Holds(issued[n], takers, ready))
      ensures RefreshedTo(old(copies), copies, snoozedUntil)
    {
      ghost var owed := OwedNow();
      ghost var before := wires;
      takers := SendOut(n, accepts);
      AfterRetry(before, owed, takers, n, accepts);
    }

    lemma AfterRetry(before: map<nat, Wire>, owed: set<nat>, takers: set<nat>, n: nat, accepts: nat -> bool)
      requires AllSound(before, owed, received + told, counter) && n <= counter
      requires wires == Delivered(before, takers, One(n), accepts) && OwedNow() <= owed
      ensures AllSound(wires, OwedNow(), received + told, counter)
    {
      AllSoundAfterAny(before, takers, owed, received + told, counter, n, accepts);
      AllSoundForFewer(wires, owed, received + told, counter, OwedNow(), received + told);
    }

    // ---- replay ------------------------------------------------------------------------

    function Cut(backlog: nat): nat {
      if replayLimit <= 0 then backlog else if backlog > replayLimit then backlog - replayLimit else 0
    }

    ghost function ReplayFrames(since: int, snoozed: bool): seq<Frame>
      reads this
    {
      var backlog := Backlog(cache, issued, now, since, snoozed);
      Shown(backlog, Cut(|backlog|), |backlog|)
    }

    /** `replay`: a notice for what is skipped, then the most recent ones; the socket takes the first `budget`. */
    method Replay(socket: Wire, since: int, snoozed: bool, budget: nat) returns (w: Wire)
      ensures w == Fed(socket, ReplayFrames(since, snoozed), budget)
      ensures Ascending(cache, counter + 1) ==>
        MostRecent(ReplayFrames(since, snoozed), Missed(since, snoozed), replayLimit)
    {
      if Ascending(cache, counter + 1) { ReplayShowsTheMostRecent(since, snoozed); }
      var backlog := Backlog(cache, issued, now, since, snoozed);
      var cut := Cut(|backlog|);
      var sent := 0;
      w := socket;
      if cut > 0 {
        w, sent := Sent(w, NotShown(Range(backlog[..cut])), 1 <= budget), 1;
        assert [NotShown(Range(backlog[..cut]))][..0] == [];
      }
      assert w == Fed(socket, Shown(backlog, cut, cut), budget);
      for m := cut to |backlog|
        invariant sent == |Shown(backlog, cut, m)|
        invariant w == Fed(socket, Shown(backlog, cut, m), budget)
      {
        w := Sent(w, One(backlog[m]), sent + 1 <= budget);
        ghost var fs := Shown(backlog, cut, m + 1);
        assert fs[..|fs| - 1] == Shown(backlog, cut, m);
        sent := sent + 1;
      }
    }

    /** What a client that has everything up to `since` has missed, and is permitted, in time and not snoozed. */
    ghost function Missed(since: int, snoozed: bool): set<nat>
      reads this
    {
      set j | j in cache && j > since && j in issued && issued[j].permitted
        && (issued[j].ttl == 0 || now <= issued[j].ts + issued[j].ttl) && (issued[j].critical || !snoozed)
    }

    /** A replay shows the most recent of what was missed, as many as the limit allows, and counts exactly the rest. */
    lemma ReplayShowsTheMostRecent(since: int, snoozed: bool)
      requires Ascending(cache, counter + 1)
      ensures MostRecent(ReplayFrames(since, snoozed), Missed(since, snoozed), replayLimit)
    {
      var backlog := Backlog(cache, issued, now, since, snoozed);
      BacklogAscends(cache, issued, now, since, snoozed, counter + 1);
      forall j: nat
        ensures j in Missed(since, snoozed) <==> j in Range(backlog)
      {
        BacklogHas(cache, issued, now, since, snoozed, j);
      }
      assert Missed(since, snoozed) == Range(backlog);
      RangeSize(backlog, counter + 1);
      ShownMostRecent(backlog, counter + 1, Cut(|backlog|), replayLimit);
    }

    lemma ReplayFramesUpTo(since: int, snoozed: bool)
      requires Ascending(cache, counter + 1)
      ensures UpTo(ReplayFrames(since, snoozed), counter)
    {
      var backlog := Backlog(cache, issued, now, since, snoozed);
      BacklogAscends(cache, issued, now, since, snoozed, counter + 1);
      ShownUpTo(backlog, Cut(|backlog|), |backlog|, counter);
    }

    /** Everything eligible above `since` that the snooze does not filter out is shown or counted. */
    lemma ReplayCarries(since: int, snoozed: bool, j: nat)
      ensures j in Carried(ReplayFrames(since, snoozed)) <==> j in cache && j > since && Shows(issued, j, now, snoozed)
    {
      var backlog := Backlog(cache, issued, now, since, snoozed);
      ShownCarries(backlog, Cut(|backlog|), |backlog|);
      assert backlog[..|backlog|] == backlog;
      BacklogHas(cache, issued, now, since, snoozed, j);
    }

    /** A replay from the cursor is in order, and carries all that is owed and not filtered out. */
    lemma ReplayIsSound(snoozed: bool)
      requires Ascending(cache, counter + 1) && AllAbove(OwedNow(), ackedSeq)
      requires snoozed ==> forall j :: j in OwedNow() ==> issued[j].critical
      ensures UpTo(ReplayFrames(ackedSeq, snoozed), counter)
      ensures InOrder(ReplayFrames(ackedSeq, snoozed), OwedNow())
      ensures OwedNow() <= Carried(ReplayFrames(ackedSeq, snoozed))
    {
      var backlog := Backlog(cache, issued, now, ackedSeq, snoozed);
      ReplayFramesUpTo(ackedSeq, snoozed);
      BacklogAscends(cache, issued, now, ackedSeq, snoozed, counter + 1);
      forall j | j in OwedNow()
        ensures j in Range(backlog) && j in Carried(ReplayFrames(ackedSeq, snoozed))
      {
        BacklogHas(cache, issued, now, ackedSeq, snoozed, j);
        ReplayCarries(ackedSeq, snoozed, j);
      }
      ShownInOrder(backlog, Cut(|backlog|), |backlog|, counter + 1, OwedNow());
    }

    /** What a replay leaves out because of the snooze on record, and no mark leads back to. */
    ghost function PassedOver(): set<nat>
      reads this
    {
      set j | j in OwedNow() && snoozedUntil > now && !issued[j].critical
    }

    ghost method Slip()
      requires Valid()
      modifies `excuses
      ensures Valid() && excuses == old(excuses).(slipped := old(excuses.slipped) + old(PassedOver()))
      ensures OwedNow() == old(OwedNow()) - old(PassedOver())
    {
      ghost var owed, passed := OwedNow(), PassedOver();
      ghost var more := excuses.(slipped := excuses.slipped + passed);
      assert forall j: nat :: more.Has(j) ==> excuses.Has(j) || j in owed;
      ExcusingMore(cache, counter, issued, excuses, more);
      excuses := more;
      AllSoundForFewer(wires, owed, received + told, counter, OwedNow(), received + told);
    }

    /**
     * `promote`: a socket of the device is authenticated, and gets what its cursor says it missed;
     * of what was owed exactly what the snooze passes over is not among the frames.
     */
    method Promote(id: nat, budget: nat)
      requires Valid() && id !in wires
      modifies `ready, `copies, `wires, `excuses
      ensures Valid() && ready == old(ready) + {id} && copies == old(copies)[id := snoozedUntil]
      ensures wires == old(wires)[id := Fed(Wire([], 0, true), ReplayFrames(ackedSeq, snoozedUntil > now), budget)]
      ensures excuses == old(excuses).(slipped := old(excuses.slipped) + old(PassedOver()))
      ensures old(OwedNow()) - Carried(ReplayFrames(ackedSeq, snoozedUntil > now)) == old(PassedOver())
    {
      ghost var owed, passed := OwedNow(), PassedOver();
      Slip();
      Attach(id, budget);
      forall j | j in owed
        ensures j in Carried(ReplayFrames(ackedSeq, snoozedUntil > now)) <==> j !in passed
      {
        ReplayCarries(ackedSeq, snoozedUntil > now, j);
      }
    }

    method Attach(id: nat, budget: nat)
      requires Valid() && id !in wires
      requires snoozedUntil > now ==> forall j :: j in OwedNow() ==> issued[j].critical
      modifies `ready, `copies, `wires
      ensures Valid() && ready == old(ready) + {id} && copies == old(copies)[id := snoozedUntil]
      ensures wires == old(wires)[id := Fed(Wire([], 0, true), ReplayFrames(ackedSeq, snoozedUntil > now), budget)]
    {
      NewWireIsSound(budget);
      var w := Replay(Wire([], 0, true), ackedSeq, snoozedUntil > now, budget);
      Enter(id, w);
    }

    /** The session joins the table. */
    method Enter(id: nat, w: Wire)
      requires Valid() && Sound(w, OwedNow(), received + told, counter)
      modifies `ready, `copies, `wires
      ensures Valid() && ready == old(ready) + {id} && copies == old(copies)[id := snoozedUntil]
      ensures wires == old(wires)[id := w]
    {
      ready := ready + {id};
      copies := copies[id := snoozedUntil];
      wires := wires[id := w];
    }

    lemma NewWireIsSound(budget: nat)
      requires Valid() && (snoozedUntil > now ==> forall j :: j in OwedNow() ==> issued[j].critical)
      ensures Sound(Fed(Wire([], 0, true), ReplayFrames(ackedSeq, snoozedUntil > now), budget),
                    OwedNow(), received + told, counter)
    {
      ReplayIsSound(snoozedUntil > now);
      SoundFromStart(ReplayFrames(ackedSeq, snoozedUntil > now), budget, OwedNow(), received + told, counter);
    }

    /** What a sync shows: what is above the number it names, and all from the mark on if it lifts one. */
    lemma SyncCarries(id: nat, since: int, snoozed: bool, j: nat)
      requires Valid() && id in copies
      ensures j in Carried(ReplayFrames(SyncFrom(id, since), snoozed)) <==>
        && j in cache && Shows(issued, j, now, snoozed)
        && (j > since || (heldFrom.Some? && copies[id] <= now && j >= heldFrom.value))
    {
      ReplayCarries(SyncFrom(id, since), snoozed, j);
    }

    /** Where a sync replays from: earlier than it asks for, if a snooze that is over held something back. */
    function SyncFrom(id: nat, since: int): int
      requires id in copies
      reads this
    {
      var from := if since > 0 then since else 0;
      if LiftsHold(id) && heldFrom.value - 1 < from then heldFrom.value - 1 else from
    }

    predicate LiftsHold(id: nat)
      requires id in copies
      reads this
    {
      heldFrom.Some? && copies[id] <= now
    }

    /** What a snooze held back is no longer marked: the replay that follows has to hand it over. */
    method Lift(id: nat)
      requires Valid() && id in ready && LiftsHold(id)
      modifies `heldFrom, `copies, `excuses
      ensures Valid() && heldFrom == None && copies[id] == snoozedUntil
      ensures excuses == old(excuses).(recalled := old(excuses.recalled + excuses.held), held := {})
    {
      ghost var more := excuses.(recalled := excuses.recalled + excuses.held, held := {});
      assert forall j: nat :: more.Has(j) <==> excuses.Has(j);
      assert OwedNow() == Owed(cache, issued, now, enrolledAt, received + told, more);
      excuses := more;
      heldFrom := None;
      Refresh();
    }

    /**
     * `handleSync`: the client names the point to replay from; any will do. The first sync of a
     * session whose snooze is over also asks for what was held back. What of that can still be
     * shown is among the frames exactly if the snooze on record is over too.
     */
    method Sync(id: nat, since: int, budget: nat)
      requires Valid() && id in ready
      modifies `wires, `heldFrom, `copies, `excuses
      ensures Valid() && id in copies
      ensures var frames := ReplayFrames(old(SyncFrom(id, since)), copies[id] > now);
        && wires == old(wires)[id := Fed(old(wires)[id], frames, budget)]
        && (old(heldFrom.Some? && copies[id] <= now) ==>
              forall h :: h in old(excuses.held) && h in cache && Eligible(issued, h, now) ==>
                (h in Carried(frames) <==> snoozedUntil <= now || issued[h].critical))
      ensures if old(heldFrom.Some? && copies[id] <= now)
        then heldFrom == None && excuses == old(excuses).(recalled := old(excuses.recalled + excuses.held), held := {})
        else heldFrom == old(heldFrom) && excuses == old(excuses)
      ensures copies[id] == if old(heldFrom.Some? && copies[id] <= now) then snoozedUntil else old(copies)[id]
    {
      var from := SyncFrom(id, since);
      ghost var held, lifts := excuses.held, LiftsHold(id);
      if LiftsHold(id) {
        Lift(id);
      }
      ReplayMore(id, from, budget);
      if lifts {
        forall h | h in held && h in cache && Eligible(issued, h, now)
          ensures h in Carried(ReplayFrames(from, copies[id] > now)) <==> snoozedUntil <= now || issued[h].critical
        {
          ReplayCarries(from, copies[id] > now, h);
        }
      }
    }

    /** A replay on a socket that had one before. */
    method ReplayMore(id: nat, from: int, budget: nat)
      requires Valid() && id in ready
      modifies `wires
      ensures Valid()
      ensures wires == old(wires)[id := Fed(old(wires)[id], ReplayFrames(from, copies[id] > now), budget)]
    {
      var socket, snoozed := wires[id], copies[id] > now;
      MoreIsSound(socket, from, snoozed, budget);
      var w := Replay(socket, from, snoozed, budget);
      GoOn(id, w);
    }

    /** More frames on the socket of a session. */
    method GoOn(id: nat, w: Wire)
      requires Valid() && id in ready && Sound(w, OwedNow(), received + told, counter)
      modifies `wires
      ensures Valid() && wires == old(wires)[id := w]
    {
      wires := wires[id := w];
    }

    lemma MoreIsSound(socket: Wire, from: int, snoozed: bool, budget: nat)
      requires Ascending(cache, counter + 1) && Sound(socket, OwedNow(), received + told, counter)
      ensures Sound(Fed(socket, ReplayFrames(from, snoozed), budget), OwedNow(), received + told, counter)
      ensures Fed(socket, ReplayFrames(from, snoozed), budget).open ==> socket.open
    {
      if socket.open {
        ReplayFramesUpTo(from, snoozed);
        SoundAfterMore(socket, ReplayFrames(from, snoozed), budget, OwedNow(), received + told, counter);
      } else {
        FedClosed(socket, ReplayFrames(from, snoozed), budget);
      }
    }

    // ---- the document, and a restart -----------------------------------------------------

    /** The counter and the device's record reach the disk together. */
    method WriteDocument()
      requires Valid()
      modifies `document
      ensures Valid() && document == Document(counter, ackedSeq, snoozedUntil, heldFrom)
    {
      document := Document(counter, ackedSeq, snoozedUntil, heldFrom);
    }

    /** Every socket is gone; the device has read what it will of them. */
    method DropSockets()
      requires Valid()
      modifies `ready, `copies, `wires
      ensures Valid() && ready == {} && wires == map[]
    {
      ready, copies, wires := {}, map[], map[];
    }

    /** The device's record, from the document. */
    method ReadRecord()
      requires Valid() && ready == {}
      modifies `ackedSeq, `snoozedUntil, `heldFrom, `excuses
      ensures Valid() && ackedSeq == document.ackedSeq
      ensures snoozedUntil == document.snoozedUntil && heldFrom == document.heldFrom
      ensures excuses == Remarked(old(excuses), heldFrom)
    {
      ghost var more := Remarked(excuses, document.heldFrom);
      assert forall j: nat :: more.Has(j) <==> excuses.Has(j);
      ExcusingMore(cache, counter, issued, excuses, more);
      assert OwedNow() == Owed(cache, issued, now, enrolledAt, received + told, more);
      excuses := more;
      ackedSeq, snoozedUntil, heldFrom := document.ackedSeq, document.snoozedUntil, document.heldFrom;
    }

    /** What the device has of numbers above `n` is not about what they will name. */
    method ForgetAbove(n: nat)
      requires Valid() && wires == map[] && ackedSeq <= n
      modifies `received, `told, `high
      ensures Valid() && received == UpToNumber(old(received), n) && told == UpToNumber(old(told), n)
      ensures high <= n
    {
      ghost var owed := OwedNow();
      received, told := UpToNumber(received, n), UpToNumber(told, n);
      assert forall j :: j in OwedNow() ==> j in owed || j > n;
      if high > n { high := n; }
    }

    /** Counter and cache, from the log and the document. */
    method ReadNumbers(counter': nat, cache': seq<nat>)
      requires Valid() && wires == map[] && high <= counter' && document.counter <= counter' <= counter
      requires Ascending(cache', counter' + 1)
      modifies `counter, `cache, `issued, `excuses
      ensures Valid() && counter == counter' && cache == cache' && issued == IssuedUpTo(old(issued), counter')
      ensures excuses == CutOff(old(excuses), old(cache), cache', counter')
    {
      NumberedAfterCut(cache, counter, issued, excuses, cache', counter');
      OwedAfterCut(cache, counter, issued, excuses, cache', counter', now, enrolledAt, received + told);
      ghost var owed := OwedNow();
      excuses := CutOff(excuses, cache, cache', counter');
      counter, cache, issued := counter', cache', IssuedUpTo(issued, counter');
      assert OwedNow() <= owed;
    }

    /**
     * The hub stops anywhere and starts again from one document and whatever the log still holds:
     * the invariants hold again, for the notifications whose numbers were read back.
     */
    method Restart(counter': nat, cache': seq<nat>)
      requires Valid() && document.counter <= counter' <= counter && Ascending(cache', counter' + 1)
      modifies this
      ensures Valid() && counter == counter' && cache == cache' && now == old(now) && document == old(document)
      ensures ackedSeq == document.ackedSeq && snoozedUntil == document.snoozedUntil && heldFrom == document.heldFrom
      ensures issued == IssuedUpTo(old(issued), counter') && ready == {} && wires == map[]
      ensures received == UpToNumber(old(received), counter') && told == UpToNumber(old(told), counter')
      ensures excuses == CutOff(Remarked(old(excuses), heldFrom), old(cache), cache', counter')
    {
      DropSockets();
      ReadRecord();
      ForgetAbove(counter');
      ReadNumbers(counter', cache');
    }

    /**
     * Whether an acknowledgement of `k` loses what a snooze kept from the device: a replay from the
     * cursor it leaves shows a notification exactly if the cursor was below it, `k` is below it,
     * and no snooze filters it out.
     */
    lemma LostByAcknowledgingPast(k: int, j: nat, snoozed: bool)
      requires Valid() && j in cache && Eligible(issued, j, now)
      ensures j in Carried(ReplayFrames(Moved(k), snoozed)) <==>
        ackedSeq < j && k < j && (snoozed ==> issued[j].critical)
    {
      AscendingBounds(cache, counter + 1, j);
      ReplayCarries(Moved(k), snoozed, j);
    }

    // ---- what a run keeps ----------------------------------------------------------------

    /**
     * Nothing the cursor has passed was lost without a word, whatever the interleaving was: it was
     * received or told of, or it expired, or it left the cache, or the device acknowledged past it,
     * or a snooze is to answer for it.
     */
    lemma NothingLostSilently(n: nat)
      requires Valid() && n in issued && issued[n].permitted && enrolledAt < n <= ackedSeq
      ensures n in received || n in told || Expired(issued[n], now) || excuses.Has(n)
      ensures n !in cache ==> n in excuses.gone
    {
      assert n !in OwedNow();
    }

    /** A device that was never snoozed, and acknowledged only what it had received, lost only what expired or left. */
    lemma NothingLostWithoutASnooze(n: nat)
      requires Valid() && !napped && !overacked && n in issued && issued[n].permitted && enrolledAt < n <= ackedSeq
      ensures n in received || n in told || Expired(issued[n], now) || n in excuses.gone
    {
      NothingLostSilently(n);
      assert Undisturbed();
    }

    /** And a device that has read all of one socket that is still open is owed nothing. */
    lemma OneOpenSocketSettlesAll(id: nat)
      requires Valid() && id in wires && wires[id].open && wires[id].read == |wires[id].frames|
      ensures OwedNow() == {}
    {
      assert wires[id].frames[..wires[id].read] == wires[id].frames;
      assert Sound(wires[id], OwedNow(), received + told, counter);
    }

    /** Without a snooze, and with honest acknowledgements: it has or was told of all that the hub still has for it. */
    lemma OneOpenSocketTellsAll(id: nat, n: nat)
      requires Valid() && !napped && !overacked
      requires id in wires && wires[id].open && wires[id].read == |wires[id].frames|
      requires n in cache && Eligible(issued, n, now) && n > enrolledAt
      ensures n in received || n in told || n in excuses.gone
    {
      OneOpenSocketSettlesAll(id);
      assert Undisturbed() && n !in OwedNow();
    }
  }

  // ---- runs in which a snooze loses what it was to hold ---------------------------------

  /** A device that has read nothing yet, of a hub whose history is `cache`. */
  ghost predicate Untouched(hub: Hub, cache: seq<nat>)
    reads hub
  {
    && hub.Valid() && hub.cache == cache
    && (hub.historyLimit, hub.replayLimit, hub.now, hub.enrolledAt) == (10, 10, 0, 0)
    && (hub.counter, hub.ackedSeq) == (|cache|, 0)
    && (hub.received, hub.told, hub.heldFrom) == ({}, {}, None)
  }

  /** A hub that has issued nothing yet; the device connects, */
  method Connected() returns (hub: Hub)
    ensures fresh(hub) && Untouched(hub, []) && hub.ready == {0} && hub.wires == map[0 := Wire([], 0, true)]
  {
    hub := new Hub(10, 10, 0, [], map[], 0);
    hub.Promote(0, 9);
    assert hub.ReplayFrames(0, false) == [];
  }

  /** is snoozed, and leaves. */
  method SnoozedAndAway() returns (hub: Hub)
    ensures fresh(hub) && Untouched(hub, []) && hub.ready == {} && hub.snoozedUntil == 1000 && hub.wires.Keys == {0}
  {
    hub := Connected();
    hub.Snooze(0, 1000);
    hub.CloseSession(0);
  }

  /** Meanwhile a notification is published, */
  method QuietOne() returns (hub: Hub)
    ensures fresh(hub) && Untouched(hub, [1]) && hub.ready == {} && hub.snoozedUntil == 1000 && hub.wires.Keys == {0}
    ensures 1 in hub.issued && hub.issued[1] == Alert(0, 0, true, false) && !hub.excuses.Has(1)
  {
    hub := SnoozedAndAway();
    assert !hub.excuses.Has(1);
    PublishedToNobody(hub);
  }

  method PublishedToNobody(hub: Hub)
    requires Untouched(hub, []) && hub.ready == {} && !hub.excuses.Has(1)
    modifies hub
    ensures Untouched(hub, [1]) && hub.ready == {} && hub.wires == old(hub.wires)
    ensures hub.snoozedUntil == old(hub.snoozedUntil)
    ensures 1 in hub.issued && hub.issued[1] == Alert(0, 0, true, false) && !hub.excuses.Has(1)
  {
    ghost var takers := hub.Publish(0, true, false, _ => true);
    assert [] + [1] == [1];
  }

  /** and a critical one after it. */
  method UrgentOne() returns (hub: Hub)
    ensures fresh(hub) && Untouched(hub, [1, 2]) && hub.ready == {} && hub.snoozedUntil == 1000 && 1 !in hub.wires
    ensures 1 in hub.issued && hub.issued[1] == Alert(0, 0, true, false)
    ensures 2 in hub.issued && hub.issued[2] == Alert(0, 0, true, true)
  {
    hub := QuietOne();
    ghost var takers := hub.Publish(0, true, true, _ => true);
    assert [1] + [2] == [1, 2];
  }

  /** Back while still snoozed, the device is shown the critical one only, */
  method ShownOne() returns (hub: Hub)
    ensures fresh(hub) && Untouched(hub, [1, 2]) && hub.ready == {1}
    ensures 1 in hub.issued && hub.issued[1] == Alert(0, 0, true, false)
    ensures 1 in hub.wires && hub.wires[1] == Wire([One(2)], 0, true)
  {
    hub := UrgentOne();
    hub.Promote(1, 9);
    OnlyUrgent(hub);
  }

  lemma OnlyUrgent(hub: Hub)
    requires hub.cache == [1, 2] && hub.now == 0 && hub.replayLimit == 10
    requires 1 in hub.issued && hub.issued[1] == Alert(0, 0, true, false)
    requires 2 in hub.issued && hub.issued[2] == Alert(0, 0, true, true)
    ensures Fed(Wire([], 0, true), hub.ReplayFrames(0, true), 9) == Wire([One(2)], 0, true)
  {
    assert [1, 2][..1] == [1] && [1][..0] == [];
    assert Backlog([1], hub.issued, 0, 0, true) == [];
    assert Backlog([1, 2], hub.issued, 0, 0, true) == [2];
    assert Shown([2], 0, 0) == [] && Shown([2], 0, 1) == [One(2)];
    FedIsAPrefix(Wire([], 0, true), [One(2)], 9);
    assert [] + [One(2)] == [One(2)];
  }

  /** which it reads, */
  method UrgentReadFirst() returns (hub: Hub)
    ensures fresh(hub) && hub.Valid() && hub.ready == {1} && hub.cache == [1, 2]
    ensures (hub.now, hub.enrolledAt, hub.counter, hub.ackedSeq) == (0, 0, 2, 0)
    ensures hub.received == {2} && hub.told == {} && hub.heldFrom == None
    ensures 1 in hub.issued && hub.issued[1] == Alert(0, 0, true, false)
  {
    hub := ShownOne();
    hub.Read(1);
  }

  /** and acknowledging it takes the cursor past the other for good: no mark leads back to it. */
  method SlippedAway() returns (hub: Hub)
    ensures hub.Valid() && hub.enrolledAt < 1 <= hub.ackedSeq && 1 in hub.cache && 1 in hub.issued
    ensures hub.issued[1].permitted && !Expired(hub.issued[1], hub.now)
    ensures 1 !in hub.received && hub.told == {} && hub.heldFrom == None
    ensures forall snoozed :: 1 !in Carried(hub.ReplayFrames(hub.ackedSeq, snoozed))
  {
    hub := UrgentReadFirst();
    hub.HandleAck(1, 2);
    forall snoozed
      ensures 1 !in Carried(hub.ReplayFrames(hub.ackedSeq, snoozed))
    {
      hub.ReplayCarries(hub.ackedSeq, snoozed, 1);
    }
  }

  /** Had the device acknowledged nothing: back after the snooze it is shown what the replay under it had left out. */
  method SlippedAndShown() returns (hub: Hub)
    ensures hub.Valid() && hub.heldFrom == None && 1 in hub.excuses.slipped
    ensures 2 in hub.wires && hub.wires[2] == Wire([One(1)], 0, true)
  {
    hub := SlippedAndLeft();
    hub.Tick(1000);
    hub.Promote(2, 9);
    OnlyQuiet(hub);
  }

  method SlippedAndLeft() returns (hub: Hub)
    ensures fresh(hub) && Untouched(hub, [1]) && hub.ready == {} && hub.snoozedUntil == 1000 && 2 !in hub.wires
    ensures 1 in hub.issued && hub.issued[1] == Alert(0, 0, true, false) && 1 in hub.excuses.slipped
  {
    hub := Slipped();
    hub.CloseSession(1);
  }

  method Slipped() returns (hub: Hub)
    ensures fresh(hub) && Untouched(hub, [1]) && hub.ready == {1} && hub.snoozedUntil == 1000 && 2 !in hub.wires
    ensures 1 in hub.issued && hub.issued[1] == Alert(0, 0, true, false) && 1 in hub.excuses.slipped
  {
    hub := QuietOne();
    hub.Promote(1, 9);
  }

  lemma OnlyQuiet(hub: Hub)
    requires hub.cache == [1] && hub.replayLimit == 10
    requires 1 in hub.issued && hub.issued[1] == Alert(0, 0, true, false)
    ensures Fed(Wire([], 0, true), hub.ReplayFrames(0, false), 9) == Wire([One(1)], 0, true)
  {
    assert [1][..0] == [];
    assert Backlog([], hub.issued, hub.now, 0, false) == [];
    assert Backlog([1], hub.issued, hub.now, 0, false) == [1];
    assert Shown([1], 0, 0) == [] && Shown([1], 0, 1) == [One(1)];
    FedIsAPrefix(Wire([], 0, true), [One(1)], 9);
    assert [] + [One(1)] == [One(1)];
  }

  /** The same device, with a notification that its snooze holds back. */
  ghost predicate HoldsOne(hub: Hub, cache: seq<nat>)
    reads hub
  {
    && hub.Valid() && 1 in hub.issued && hub.issued[1] == Alert(0, 0, true, false) && 1 in hub.excuses.held
    && hub.cache == cache && hub.told == {}
    && (hub.historyLimit, hub.replayLimit, hub.enrolledAt, hub.counter, hub.heldFrom) == (10, 10, 0, |cache|, Some(1))
  }

  method SnoozedOnly() returns (hub: Hub)
    ensures fresh(hub) && Untouched(hub, []) && hub.ready == {0} && hub.wires == map[0 := Wire([], 0, true)]
    ensures hub.snoozedUntil == 1000 && 0 in hub.copies && hub.copies[0] == 1000
  {
    hub := Connected();
    hub.Snooze(0, 1000);
  }

  method SnoozedAndConnected() returns (hub: Hub)
    ensures fresh(hub) && HoldsOne(hub, [1]) && hub.ready == {0} && hub.wires.Keys == {0}
    ensures (hub.snoozedUntil, hub.now, hub.ackedSeq) == (1000, 0, 0) && hub.received == {}
  {
    hub := SnoozedOnly();
    HeldByItsSnooze(hub);
  }

  method HeldByItsSnooze(hub: Hub)
    requires Untouched(hub, []) && hub.ready == {0} && hub.wires.Keys == {0}
    requires hub.snoozedUntil == 1000 && 0 in hub.copies && hub.copies[0] == 1000
    modifies hub
    ensures HoldsOne(hub, [1]) && hub.ready == {0} && hub.wires.Keys == {0}
    ensures (hub.snoozedUntil, hub.now, hub.ackedSeq) == (1000, 0, 0) && hub.received == {}
  {
    var accepts: nat -> bool := _ => true;
    ghost var takers := TakenByNobody(hub, accepts);
    assert Holds(hub.issued[1], takers, {0});
    assert [] + [1] == [1];
  }

  method TakenByNobody(hub: Hub, accepts: nat -> bool) returns (ghost takers: set<nat>)
    requires Untouched(hub, []) && hub.ready == {0}
    requires hub.snoozedUntil == 1000 && 0 in hub.copies && hub.copies[0] == 1000
    modifies hub`counter, hub`cache, hub`issued, hub`wires, hub`heldFrom, hub`copies, hub`excuses
    ensures hub.Valid() && hub.counter == 1 && hub.cache == Last([] + [1], 10) && takers == {}
    ensures hub.issued == old(hub.issued)[1 := Alert(0, 0, true, false)] && hub.wires.Keys == old(hub.wires.Keys)
    ensures hub.excuses
      == Holding(Evicting(old(hub.excuses), [], hub.cache), 1, Holds(Alert(0, 0, true, false), takers, {0}))
    ensures hub.heldFrom == if Holds(Alert(0, 0, true, false), takers, {0}) then Earlier(None, 1) else None
  {
    ghost var wires, copies := hub.wires, hub.copies;
    takers := hub.Publish(0, true, false, accepts);
    SnoozedTakesNothing(hub.issued[hub.counter], hub.counter, takers, accepts, wires, hub.wires, hub.ready, copies,
                        hub.snoozedUntil, hub.now);
  }

  lemma SnoozedTakesNothing(a: Alert, n: nat, takers: set<nat>, accepts: nat -> bool, before: map<nat, Wire>,
                            wires: map<nat, Wire>, ready: set<nat>, copies: map<nat, int>, snoozedUntil: int, now: nat)
    requires ready == {0} && 0 in copies && copies[0] > now && snoozedUntil > now && !a.critical
    requires WentOut(a, n, takers, accepts, before, wires, ready, copies, snoozedUntil, now)
    ensures takers == {} && wires.Keys == before.Keys
  {
    assert 0 !in takers;
  }

  /** It leaves, */
  method LeavesHolding() returns (hub: Hub)
    ensures fresh(hub) && HoldsOne(hub, [1]) && hub.ready == {} && hub.wires.Keys == {0}
    ensures (hub.snoozedUntil, hub.now, hub.ackedSeq) == (1000, 0, 0) && hub.received == {}
  {
    hub := SnoozedAndConnected();
    hub.CloseSession(0);
  }

  /** a critical one is published, */
  method UrgentMeanwhile() returns (hub: Hub)
    ensures fresh(hub) && HoldsOne(hub, [1, 2]) && hub.ready == {} && hub.wires.Keys == {0}
    ensures (hub.snoozedUntil, hub.now, hub.ackedSeq) == (1000, 0, 0) && hub.received == {}
    ensures 2 in hub.issued && hub.issued[2] == Alert(0, 0, true, true)
  {
    hub := LeavesHolding();
    ghost var takers := hub.Publish(0, true, true, _ => true);
    assert [1] + [2] == [1, 2];
  }

  /** which it is shown when it comes back, */
  method ShownUrgent() returns (hub: Hub)
    ensures fresh(hub) && HoldsOne(hub, [1, 2]) && hub.ready == {1} && hub.wires.Keys == {0, 1}
    ensures (hub.snoozedUntil, hub.now, hub.ackedSeq) == (1000, 0, 0) && hub.received == {}
    ensures hub.wires[1] == Wire([One(2)], 0, true) && 1 in hub.copies && hub.copies[1] == 1000
  {
    hub := UrgentMeanwhile();
    hub.Promote(1, 9);
    OnlyUrgent(hub);
  }

  /** reads */
  method UrgentRead(hub: Hub)
    requires HoldsOne(hub, [1, 2]) && hub.ready == {1} && hub.wires.Keys == {0, 1}
    requires hub.wires[1] == Wire([One(2)], 0, true) && hub.received == {}
    modifies hub
    ensures HoldsOne(hub, [1, 2]) && hub.ready == {1} && hub.wires.Keys == {0, 1} && hub.received == {2}
    ensures (hub.snoozedUntil, hub.now, hub.ackedSeq) == old((hub.snoozedUntil, hub.now, hub.ackedSeq))
    ensures hub.copies == old(hub.copies) && hub.wires[1] == Wire([One(2)], 1, true)
  {
    hub.Read(1);
  }

  /** and acknowledges. */
  method UrgentAcknowledged(hub: Hub)
    requires HoldsOne(hub, [1, 2]) && hub.ready == {1} && hub.wires.Keys == {0, 1}
    requires hub.ackedSeq == 0 && hub.received == {2}
    modifies hub
    ensures HoldsOne(hub, [1, 2]) && hub.ready == {1} && hub.wires.Keys == {0, 1} && hub.received == {2}
    ensures (hub.snoozedUntil, hub.now, hub.ackedSeq) == (old(hub.snoozedUntil), old(hub.now), 2)
    ensures hub.copies == old(hub.copies)[1 := hub.snoozedUntil] && hub.wires == old(hub.wires)
  {
    hub.HandleAck(1, 2);
  }

  /** Both sockets are open, and the mark is still there. */
  ghost predicate Between(hub: Hub)
    reads hub
  {
    && HoldsOne(hub, [1, 2]) && hub.now == 1000 && hub.ackedSeq == 2
    && hub.ready == {1, 2} && 2 in hub.copies && hub.received == {2}
  }

  /** The snooze runs out, and the device opens a second socket; */
  method SecondSocket(hub: Hub)
    requires HoldsOne(hub, [1, 2]) && hub.ready == {1} && hub.wires.Keys == {0, 1}
    requires (hub.snoozedUntil, hub.now, hub.ackedSeq) == (1000, 0, 2) && hub.received == {2}
    modifies hub
    ensures Between(hub) && hub.copies[2] == 1000
  {
    hub.Tick(1000);
    hub.Promote(2, 9);
  }

  /** the first one is snoozed again, */
  method SnoozedAgain(hub: Hub)
    requires Between(hub) && hub.copies[2] == 1000
    modifies hub
    ensures Between(hub) && hub.copies[2] == 1000 && hub.snoozedUntil == 3000
  {
    hub.Snooze(1, 3000);
  }

  /** and the second, which was not told, syncs: what the mark led back to is not among the frames, */
  method SyncUnderASnooze(hub: Hub)
    requires Between(hub) && hub.copies[2] == 1000 && hub.snoozedUntil == 3000
    modifies hub
    ensures hub.Valid() && hub.now == 1000 && hub.ackedSeq == 2 && hub.cache == [1, 2]
    ensures hub.received == {2} && hub.told == {} && hub.heldFrom == None && hub.issued == old(hub.issued)
    ensures 1 !in Carried(hub.ReplayFrames(0, true))
    ensures 2 in hub.wires && hub.wires[2] == Fed(old(hub.wires[2]), hub.ReplayFrames(0, true), 9)
  {
    hub.Sync(2, 2, 9);
    hub.ReplayCarries(0, true, 1);
  }

  /** and the mark is gone. */
  method LiftedTooEarly() returns (hub: Hub)
    ensures hub.Valid() && hub.enrolledAt < 1 <= hub.ackedSeq && 1 in hub.cache && 1 in hub.issued
    ensures hub.issued[1].permitted && !Expired(hub.issued[1], hub.now)
    ensures 1 !in hub.received && hub.told == {} && hub.heldFrom == None
  {
    hub := ShownUrgent();
    UrgentRead(hub);
    UrgentAcknowledged(hub);
    SecondSocket(hub);
    SnoozedAgain(hub);
    SyncUnderASnooze(hub);
  }

  /** Without the second snooze: the session that held the mark syncs, and its socket takes no frame of the replay. */
  method LiftedInVain() returns (hub: Hub)
    ensures hub.Valid() && hub.enrolledAt < 1 <= hub.ackedSeq && 1 in hub.cache && 1 in hub.issued
    ensures hub.issued[1].permitted && !Expired(hub.issued[1], hub.now) && hub.snoozedUntil <= hub.now
    ensures 1 !in hub.received && hub.told == {} && hub.heldFrom == None
    ensures 1 in hub.wires && hub.wires[1] == Wire([One(2)], 1, false)
  {
    hub := ShownUrgent();
    UrgentRead(hub);
    UrgentAcknowledged(hub);
    SyncInVain(hub);
  }

  method SyncInVain(hub: Hub)
    requires HoldsOne(hub, [1, 2]) && hub.ready == {1} && 1 in hub.wires && hub.wires[1] == Wire([One(2)], 1, true)
    requires (hub.snoozedUntil, hub.now, hub.ackedSeq) == (1000, 0, 2) && hub.received == {2}
    requires 1 in hub.copies && hub.copies[1] == 1000
    modifies hub
    ensures hub.Valid() && (hub.snoozedUntil, hub.now, hub.ackedSeq) == (1000, 1000, 2) && hub.cache == [1, 2]
    ensures hub.received == {2} && hub.told == {} && hub.heldFrom == None && hub.issued == old(hub.issued)
    ensures 1 in hub.wires && hub.wires[1] == Wire([One(2)], 1, false)
  {
    hub.Tick(1000);
    hub.Sync(1, 2, 0);
    TakesNone(Wire([One(2)], 1, true), hub.ReplayFrames(0, false), 1);
  }

  /** A socket that takes none of some frames is closed. */
  lemma TakesNone(w: Wire, fs: seq<Frame>, j: nat)
    requires w.open && j in Carried(fs)
    ensures Fed(w, fs, 0) == w.(open := false)
  {
    FedIsAPrefix(w, fs, 0);
    assert w.frames + fs[..0] == w.frames;
  }
}
