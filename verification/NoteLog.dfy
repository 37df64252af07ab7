/** Sequences of notifications as the history log and its cache hold them. */
module NoteLog {
  datatype Note = Note(number: nat, text: string, resolved: bool)

  /** The numbers rise strictly and stay below `bound`. */
  ghost predicate Below(s: seq<Note>, bound: nat) {
    s == [] || (s[|s| - 1].number < bound && Below(s[..|s| - 1], s[|s| - 1].number))
  }

  lemma {:induction false} BelowMeans(s: seq<Note>, bound: nat)
    ensures Below(s, bound) <==>
      && (forall i, j :: 0 <= i < j < |s| ==> s[i].number < s[j].number)
      && (forall i :: 0 <= i < |s| ==> s[i].number < bound)
  {
    if s != [] {
      var front, top := s[..|s| - 1], s[|s| - 1].number;
      BelowMeans(front, top);
      assert forall i :: 0 <= i < |front| ==> front[i] == s[i];
      if Below(front, top) {
        assert forall i :: 0 <= i < |front| ==> s[i].number == front[i].number < top;
      }
    }
  }

  /** The same order on bare numbers. */
  ghost predicate Ascending(s: seq<nat>, bound: nat) {
    s == [] || (s[|s| - 1] < bound && Ascending(s[..|s| - 1], s[|s| - 1]))
  }

  lemma {:induction false} BelowAscends(s: seq<Note>, bound: nat)
    ensures Below(s, bound) <==> Ascending(Numbers(s), bound)
  {
    if s != [] {
      BelowAscends(s[..|s| - 1], s[|s| - 1].number);
      assert Numbers(s)[..|s| - 1] == Numbers(s[..|s| - 1]);
    }
  }

  lemma PrefixBelow(s: seq<Note>, t: seq<Note>, bound: nat)
    requires Below(s + t, bound)
    ensures Below(s, bound)
  {
    BelowMeans(s + t, bound);
    assert forall i :: 0 <= i < |s| ==> (s + t)[i] == s[i];
    BelowMeans(s, bound);
  }

  lemma RaiseBound(s: seq<Note>, bound: nat, higher: nat)
    requires Below(s, bound) && bound <= higher
    ensures Below(s, higher)
  {
  }

  function Numbers(s: seq<Note>): (r: seq<nat>)
    ensures |r| == |s|
  {
    seq(|s|, i requires 0 <= i < |s| => s[i].number)
  }

  /** `slice(-n)`, for n >= 1. */
  function Last<T>(s: seq<T>, n: nat): (r: seq<T>)
    ensures |r| <= n
  {
    if |s| <= n then s else s[|s| - n..]
  }

  function SeqSet(s: seq<Note>): set<nat> {
    set n | n in s :: n.number
  }

  /** Without the notifications whose numbers were lost. */
  function Kept(s: seq<Note>, lost: set<nat>): seq<Note> {
    if s == [] then []
    else Kept(s[..|s| - 1], lost) + if s[|s| - 1].number in lost then [] else [s[|s| - 1]]
  }

  lemma {:induction false} KeptSubset(s: seq<Note>, lost: set<nat>)
    ensures forall n :: n in Kept(s, lost) <==> n in s && n.number !in lost
  {
    if s != [] {
      KeptSubset(s[..|s| - 1], lost);
      assert s == s[..|s| - 1] + [s[|s| - 1]];
    }
  }

  lemma {:induction false} KeptBelow(s: seq<Note>, lost: set<nat>, bound: nat)
    requires Below(s, bound)
    ensures Below(Kept(s, lost), bound)
  {
    if s != [] {
      var front, n := s[..|s| - 1], s[|s| - 1];
      KeptBelow(front, lost, n.number);
      if n.number in lost {
        BelowMeans(Kept(front, lost), n.number);
        BelowMeans(Kept(front, lost), bound);
        assert Kept(s, lost) == Kept(front, lost);
      } else {
        assert Kept(s, lost)[..|Kept(s, lost)| - 1] == Kept(front, lost);
      }
    }
  }

  lemma {:induction false} KeptTwice(s: seq<Note>, lost: set<nat>, more: set<nat>)
    ensures Kept(Kept(s, lost), more) == Kept(s, lost + more)
  {
    if s != [] {
      KeptTwice(s[..|s| - 1], lost, more);
      var front, n := Kept(s[..|s| - 1], lost), s[|s| - 1];
      if n.number !in lost {
        assert (front + [n])[..|front + [n]| - 1] == front;
      } else {
        assert Kept(s, lost) == front;
      }
    }
  }

  lemma {:induction false} KeptAll(s: seq<Note>, lost: set<nat>)
    requires forall n :: n in s ==> n.number !in lost
    ensures Kept(s, lost) == s
  {
    if s != [] {
      KeptAll(s[..|s| - 1], lost);
      assert s == s[..|s| - 1] + [s[|s| - 1]];
    }
  }

  lemma {:induction false} KeptAppend(s: seq<Note>, t: seq<Note>, lost: set<nat>)
    ensures Kept(s + t, lost) == Kept(s, lost) + Kept(t, lost)
  {
    if t == [] {
      assert s + t == s;
    } else {
      KeptAppend(s, t[..|t| - 1], lost);
      assert (s + t)[..|s + t| - 1] == s + t[..|t| - 1];
    }
  }

  lemma {:induction false} KeptNone(s: seq<Note>, lost: set<nat>)
    requires forall n :: n in s ==> n.number in lost
    ensures Kept(s, lost) == []
  {
    if s != [] {
      KeptNone(s[..|s| - 1], lost);
    }
  }

  lemma TailIsApart(file: seq<Note>, tail: seq<Note>, bound: nat, n: Note)
    requires Below(file + tail, bound) && n in file
    ensures n.number !in SeqSet(tail)
  {
    BelowMeans(file + tail, bound);
    var i :| 0 <= i < |file| && file[i] == n;
    assert (file + tail)[i] == n;
    forall m | m in tail
      ensures m.number != n.number
    {
      var j :| 0 <= j < |tail| && tail[j] == m;
      assert (file + tail)[|file| + j] == m;
    }
  }

  /** Losing a tail of what was kept leaves the rest. */
  lemma LosingTheTail(s: seq<Note>, lost: set<nat>, file: seq<Note>, tail: seq<Note>, bound: nat)
    requires Below(s, bound) && Kept(s, lost) == file + tail
    ensures Kept(s, lost + SeqSet(tail)) == file
  {
    KeptBelow(s, lost, bound);
    KeptTwice(s, lost, SeqSet(tail));
    KeptAppend(file, tail, SeqSet(tail));
    forall n | n in file
      ensures n.number !in SeqSet(tail)
    {
      TailIsApart(file, tail, bound, n);
    }
    KeptAll(file, SeqSet(tail));
    KeptNone(tail, SeqSet(tail));
  }

  lemma LastOfAppend<T>(s: seq<T>, n: T, limit: nat)
    requires limit >= 1
    ensures Last(Last(s, limit) + [n], limit) == Last(s + [n], limit)
  {
  }

  lemma LastSplits(s: seq<Note>, limit: nat)
    ensures s == s[..|s| - |Last(s, limit)|] + Last(s, limit)
  {
  }

  lemma LastOfJoin(front: seq<Note>, tail: seq<Note>, limit: nat)
    requires |tail| == limit || (front == [] && |tail| <= limit)
    ensures Last(front + tail, limit) == tail
  {
  }

  lemma NothingLost(s: seq<Note>, lost: set<nat>, limit: nat)
    requires forall n :: n in Last(s, limit) ==> n.number !in lost
    ensures Last(Kept(s, lost), limit) == Last(s, limit)
  {
    var tail := Last(s, limit);
    var front := s[..|s| - |tail|];
    LastSplits(s, limit);
    KeptAppend(front, tail, lost);
    KeptAll(tail, lost);
    if |s| <= limit { assert front == [] && Kept(front, lost) == []; }
    LastOfJoin(Kept(front, lost), tail, limit);
  }

  lemma SomethingLost(s: seq<Note>, lost: set<nat>, limit: nat, n: Note)
    requires n in Last(s, limit) && n.number in lost
    ensures n !in Last(Kept(s, lost), limit)
  {
    KeptSubset(s, lost);
    LastSplits(Kept(s, lost), limit);
    assert forall m :: m in Last(Kept(s, lost), limit) ==> m in Kept(s, lost);
  }

  /** The end of the log is the end of everything written exactly when none of that was lost. */
  lemma LastOfKept(s: seq<Note>, lost: set<nat>, limit: nat)
    ensures Last(Kept(s, lost), limit) == Last(s, limit) <==> forall n :: n in Last(s, limit) ==> n.number !in lost
  {
    if n :| n in Last(s, limit) && n.number in lost {
      SomethingLost(s, lost, limit, n);
    } else {
      NothingLost(s, lost, limit);
    }
  }

  /** The largest number in the list, and 0 for none. */
  function Highest(s: seq<Note>): nat {
    if s == [] then 0
    else if s[|s| - 1].number > Highest(s[..|s| - 1]) then s[|s| - 1].number
    else Highest(s[..|s| - 1])
  }

  lemma {:induction false} HighestIsLast(s: seq<Note>, bound: nat)
    requires Below(s, bound) && s != []
    ensures Highest(s) == s[|s| - 1].number
  {
    if |s| > 1 {
      HighestIsLast(s[..|s| - 1], s[|s| - 1].number);
    }
  }

  lemma HighestBelow(s: seq<Note>, bound: nat)
    requires Below(s, bound) && bound > 0
    ensures Highest(s) < bound
  {
    if s != [] { HighestIsLast(s, bound); }
  }

  lemma TailBelow(s: seq<Note>, limit: nat, bound: nat)
    requires Below(s, bound)
    ensures Below(Last(s, limit), bound)
  {
    BelowMeans(s, bound);
    BelowMeans(Last(s, limit), bound);
  }

  /** The end of an ordered log shows the largest number in all of it. */
  lemma TailHoldsTheHighest(s: seq<Note>, limit: nat, bound: nat)
    requires limit >= 1 && Below(s, bound)
    ensures Below(s, Highest(Last(s, limit)) + 1)
  {
    if s != [] {
      TailBelow(s, limit, bound);
      HighestIsLast(Last(s, limit), bound);
    }
  }

  /** Marks made in place on the entries a test picks. */
  function Marked(s: seq<Note>, which: Note -> bool): (m: seq<Note>)
    ensures |m| == |s|
  {
    if s == [] then []
    else Marked(s[..|s| - 1], which) + [s[|s| - 1].(resolved := s[|s| - 1].resolved || which(s[|s| - 1]))]
  }

  lemma {:induction false} MarkedAt(s: seq<Note>, which: Note -> bool, i: nat)
    requires i < |s|
    ensures Marked(s, which)[i] == s[i].(resolved := s[i].resolved || which(s[i]))
  {
    if i < |s| - 1 {
      MarkedAt(s[..|s| - 1], which, i);
    }
  }

  /** The numbers of the entries such a marking changes. */
  function NewlyMarked(s: seq<Note>, which: Note -> bool): set<nat> {
    set n | n in s && !n.resolved && which(n) :: n.number
  }

  /** The entries with these numbers marked, and the others as they are. */
  function WithMarks(s: seq<Note>, stale: set<nat>): (m: seq<Note>)
    ensures |m| == |s|
  {
    seq(|s|, i requires 0 <= i < |s| => if s[i].number in stale then s[i].(resolved := true) else s[i])
  }

  ghost predicate NoneResolved(s: seq<Note>, stale: set<nat>) {
    forall i :: 0 <= i < |s| && s[i].number in stale ==> !s[i].resolved
  }

  lemma MarksKeepNumbers(s: seq<Note>, stale: set<nat>)
    ensures Numbers(WithMarks(s, stale)) == Numbers(s)
  {
  }

  lemma HasMember(s: seq<Note>, k: nat)
    ensures k in Numbers(s) <==> exists n :: n in s && n.number == k
  {
    if k in Numbers(s) {
      var i :| 0 <= i < |s| && Numbers(s)[i] == k;
      assert s[i] in s;
    }
    if n :| n in s && n.number == k {
      var i :| 0 <= i < |s| && s[i] == n;
      assert Numbers(s)[i] == k;
    }
  }

  lemma EqualIffNoneMarked(tail: seq<Note>, stale: set<nat>)
    requires NoneResolved(tail, stale)
    ensures WithMarks(tail, stale) == tail <==> forall k :: k in Numbers(tail) ==> k !in stale
  {
    if k :| k in Numbers(tail) && k in stale {
      var i :| 0 <= i < |tail| && Numbers(tail)[i] == k;
      assert WithMarks(tail, stale)[i] != tail[i];
    } else {
      forall i | 0 <= i < |tail|
        ensures WithMarks(tail, stale)[i] == tail[i]
      {
        assert Numbers(tail)[i] in Numbers(tail);
      }
    }
  }

  /** No number of the end of the log is one that was lost. */
  lemma EndHasNoneLost(s: seq<Note>, lost: set<nat>, limit: nat, k: nat)
    requires k in Numbers(Last(Kept(s, lost), limit))
    ensures k !in lost
  {
    var end := Last(Kept(s, lost), limit);
    HasMember(end, k);
    var n :| n in end && n.number == k;
    KeptSubset(s, lost);
    LastSplits(Kept(s, lost), limit);
    assert n in Kept(s, lost);
  }

  /**
   * The end of what was written, with marks, against the end of what was kept: by number they
   * agree iff nothing of it was lost, and they are equal iff nothing of it was lost or marked.
   */
  lemma EndOfTheLog(s: seq<Note>, lost: set<nat>, stale: set<nat>, limit: nat)
    requires NoneResolved(Last(s, limit), stale)
    ensures var cache, end := WithMarks(Last(s, limit), stale), Last(Kept(s, lost), limit);
      && (Numbers(end) == Numbers(cache) <==> forall k :: k in Numbers(cache) ==> k !in lost)
      && (end == cache <==> forall k :: k in Numbers(cache) ==> k !in lost + stale)
  {
    var tail, end := Last(s, limit), Last(Kept(s, lost), limit);
    MarksKeepNumbers(tail, stale);
    EqualIffNoneMarked(tail, stale);
    if k :| k in Numbers(tail) && k in lost {
      if k in Numbers(end) { EndHasNoneLost(s, lost, limit, k); }
    } else {
      forall n | n in tail
        ensures n.number !in lost
      {
        HasMember(tail, n.number);
      }
      LastOfKept(s, lost, limit);
    }
  }

  lemma NoMarks(s: seq<Note>)
    ensures WithMarks(s, {}) == s
  {
  }

  lemma SameNumbersBelow(a: seq<Note>, b: seq<Note>, bound: nat)
    requires Numbers(a) == Numbers(b) && Below(b, bound)
    ensures Below(a, bound)
  {
    BelowMeans(b, bound);
    assert forall i :: 0 <= i < |a| ==> Numbers(a)[i] == a[i].number && Numbers(b)[i] == b[i].number;
    BelowMeans(a, bound);
  }

  /** Marking again: the entries newly marked join those whose mark was missing before. */
  lemma MarkingUp(tail: seq<Note>, stale: set<nat>, which: Note -> bool, bound: nat)
    requires NoneResolved(tail, stale) && Below(tail, bound)
    ensures var cache := WithMarks(tail, stale);
      var more := stale + NewlyMarked(cache, which);
      Marked(cache, which) == WithMarks(tail, more) && NoneResolved(tail, more)
  {
    var cache := WithMarks(tail, stale);
    var more := stale + NewlyMarked(cache, which);
    BelowMeans(tail, bound);
    forall i | 0 <= i < |tail|
      ensures Marked(cache, which)[i] == WithMarks(tail, more)[i]
      ensures tail[i].number in more ==> !tail[i].resolved
    {
      MarkedAt(cache, which, i);
      if tail[i].number in NewlyMarked(cache, which) {
        var n :| n in cache && !n.resolved && which(n) && n.number == tail[i].number;
        var j :| 0 <= j < |cache| && cache[j] == n;
        assert i == j by { assert tail[i].number == tail[j].number; }
      } else {
        assert cache[i] in cache;
      }
    }
  }

  /** `since`: the entries above a number. */
  function Above(s: seq<Note>, n: nat): seq<Note> {
    if s == [] then []
    else Above(s[..|s| - 1], n) + if s[|s| - 1].number > n then [s[|s| - 1]] else []
  }

  lemma {:induction false} AboveHas(s: seq<Note>, n: nat, m: Note)
    ensures m in Above(s, n) <==> m in s && m.number > n
  {
    if s != [] {
      AboveHas(s[..|s| - 1], n, m);
      assert s == s[..|s| - 1] + [s[|s| - 1]];
    }
  }

  lemma AboveNumbers(s: seq<Note>, cursor: nat, k: nat)
    requires k > cursor
    ensures k in Numbers(Above(s, cursor)) <==> k in Numbers(s)
  {
    HasMember(s, k);
    HasMember(Above(s, cursor), k);
    if n :| n in s && n.number == k { AboveHas(s, cursor, n); }
    if n :| n in Above(s, cursor) && n.number == k { AboveHas(s, cursor, n); }
  }
}
