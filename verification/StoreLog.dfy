/**
 * The history log of packages/core/src/store.ts: the cache the hub replays from, the queue
 * of lines not yet written, the append-only file, and the sequence counter kept in another
 * file. A write either happens or fails as a whole; the environment decides which.
 *
 * Ghost fields say what the log would hold had no append failed since its last rewrite (`all`),
 * which numbers failed appends lost (`lost`), which entries carry a mark that is not on the disk
 * (`stale`), and everything pushed since the store was opened (`pushed`).
 */
module StoreLog {
  import opened NoteLog

  datatype Snapshot = Snapshot(history: seq<Note>, docSeq: nat)

  /** A disk a hub can start from: the log in order, and nothing on it beyond what was issued. */
  ghost predicate Recoverable(d: Snapshot, issued: nat) {
    Below(d.history, issued + 1) && d.docSeq <= issued
  }

  ghost predicate AllRecoverable(past: seq<Snapshot>, issued: nat) {
    past == [] || (Recoverable(past[|past| - 1], issued) && AllRecoverable(past[..|past| - 1], issued))
  }

  lemma {:induction false} IssuingMore(past: seq<Snapshot>, issued: nat, more: nat)
    requires AllRecoverable(past, issued) && issued <= more
    ensures AllRecoverable(past, more)
  {
    if past != [] {
      IssuingMore(past[..|past| - 1], issued, more);
    }
  }

  lemma {:induction false} AnyIsRecoverable(past: seq<Snapshot>, issued: nat, d: Snapshot)
    requires AllRecoverable(past, issued) && d in past
    ensures Recoverable(d, issued)
  {
    if d != past[|past| - 1] {
      AnyIsRecoverable(past[..|past| - 1], issued, d);
    }
  }

  function Max(a: nat, b: nat): nat {
    if b > a then b else a
  }

  class Disk {
    var history: seq<Note>
    /** The counter in `store.json`. */
    var docSeq: nat

    function Now(): Snapshot
      reads this
    {
      Snapshot(history, docSeq)
    }

    constructor (history: seq<Note>, docSeq: nat)
      ensures Now() == Snapshot(history, docSeq)
    {
      this.history := history;
      this.docSeq := docSeq;
    }
  }

  // ---- what ties the cache to the log ----------------------------------------

  /**
   * The log (file, then queue) is everything written since the last rewrite less what was lost;
   * the cache is the end of everything written, with the marks that are not on the disk, and by
   * number the end of everything ever pushed.
   */
  datatype Books = Books(all: seq<Note>, lost: set<nat>, stale: set<nat>, newest: nat, pushed: seq<nat>)

  ghost predicate NoneAbove(s: set<nat>, n: nat) {
    forall x :: x in s ==> x <= n
  }

  /** Strictly, and not beyond `newest`. */
  ghost predicate Rises(s: seq<nat>, newest: nat) {
    && (forall i, j :: 0 <= i < j < |s| ==> s[i] < s[j])
    && (forall i :: 0 <= i < |s| ==> s[i] <= newest)
  }

  ghost predicate Agree(b: Books, log: seq<Note>, cache: seq<Note>, limit: nat) {
    var tail := Last(b.all, limit);
    && Below(b.all, b.newest + 1) && NoneAbove(b.lost, b.newest) && NoneAbove(b.stale, b.newest)
    && Kept(b.all, b.lost) == log
    && cache == WithMarks(tail, b.stale) && NoneResolved(tail, b.stale)
    && Numbers(cache) == Last(b.pushed, limit) && Rises(b.pushed, b.newest)
  }

  function Pushed(b: Books, n: Note): Books {
    b.(all := b.all + [n], newest := n.number, pushed := b.pushed + [n.number])
  }

  lemma PushKeepsMarks(tail: seq<Note>, stale: set<nat>, limit: nat, n: Note)
    requires NoneResolved(tail, stale) && n.number !in stale && limit >= 1
    ensures Last(WithMarks(tail, stale) + [n], limit) == WithMarks(Last(tail + [n], limit), stale)
    ensures NoneResolved(Last(tail + [n], limit), stale)
  {
    var longer := Last(tail + [n], limit);
    assert forall i :: 0 <= i < |longer| ==>
        Last(WithMarks(tail, stale) + [n], limit)[i] == WithMarks(longer, stale)[i];
  }

  lemma PushKeepsNumbers(cache: seq<Note>, limit: nat, n: Note)
    requires limit >= 1
    ensures Numbers(Last(cache + [n], limit)) == Last(Numbers(cache) + [n.number], limit)
  {
  }

  lemma PushAgrees(b: Books, log: seq<Note>, cache: seq<Note>, limit: nat, n: Note)
    requires Agree(b, log, cache, limit) && b.newest < n.number && limit >= 1
    ensures Agree(Pushed(b, n), log + [n], Last(cache + [n], limit), limit)
  {
    assert (b.all + [n])[..|b.all|] == b.all;
    LastOfAppend(b.all, n, limit);
    LastOfAppend(b.pushed, n.number, limit);
    PushKeepsMarks(Last(b.all, limit), b.stale, limit, n);
    PushKeepsNumbers(cache, limit, n);
  }

  /** The file is the cache: nothing is missing on it any more. */
  function Compacted(b: Books, cache: seq<Note>): Books {
    b.(all := cache, lost := {}, stale := {})
  }

  lemma CompactAgrees(b: Books, log: seq<Note>, cache: seq<Note>, limit: nat)
    requires Agree(b, log, cache, limit)
    ensures |cache| <= limit && Agree(Compacted(b, cache), cache, cache, limit)
  {
    var tail := Last(b.all, limit);
    TailBelow(b.all, limit, b.newest + 1);
    MarksKeepNumbers(tail, b.stale);
    SameNumbersBelow(cache, tail, b.newest + 1);
    KeptAll(cache, {});
    NoMarks(cache);
  }

  function Lost(b: Books, pending: seq<Note>): Books {
    b.(lost := b.lost + SeqSet(pending))
  }

  lemma LossAgrees(b: Books, file: seq<Note>, pending: seq<Note>, cache: seq<Note>, limit: nat)
    requires Agree(b, file + pending, cache, limit)
    ensures Agree(Lost(b, pending), file, cache, limit)
  {
    LosingTheTail(b.all, b.lost, file, pending, b.newest + 1);
    KeptBelow(b.all, b.lost, b.newest + 1);
    BelowMeans(file + pending, b.newest + 1);
    forall n | n in pending
      ensures n.number <= b.newest
    {
      assert n in file + pending;
    }
  }

  /** Marks made on the cache that no rewrite has carried to the disk. */
  function Unwritten(b: Books, cache: seq<Note>, which: Note -> bool): Books {
    b.(stale := b.stale + NewlyMarked(cache, which))
  }

  lemma MarkAgrees(b: Books, log: seq<Note>, cache: seq<Note>, which: Note -> bool, limit: nat)
    requires Agree(b, log, cache, limit)
    ensures Agree(Unwritten(b, cache, which), log, Marked(cache, which), limit)
  {
    var tail := Last(b.all, limit);
    TailBelow(b.all, limit, b.newest + 1);
    MarkingUp(tail, b.stale, which, b.newest + 1);
    MarksKeepNumbers(tail, b.stale);
    MarksKeepNumbers(tail, b.stale + NewlyMarked(cache, which));
    forall n | n in cache
      ensures n.number <= b.newest
    {
      var i :| 0 <= i < |cache| && cache[i] == n;
      assert Numbers(cache)[i] == n.number;
    }
  }

  lemma StartAgrees(history: seq<Note>, limit: nat, issued: nat)
    requires limit >= 1 && Below(history, issued + 1)
    ensures Agree(Opened(history, limit), history, Last(history, limit), limit)
  {
    var tail := Last(history, limit);
    KeptAll(history, {});
    TailHoldsTheHighest(history, limit, issued + 1);
    NoMarks(tail);
    BelowMeans(history, Highest(tail) + 1);
  }

  lemma StartIsRecoverable(d: Snapshot, limit: nat, issued: nat, counter: nat)
    requires limit >= 1 && Recoverable(d, issued)
    requires Highest(Last(d.history, limit)) <= counter && d.docSeq <= counter
    ensures Below(d.history, counter + 1) && AllRecoverable([d], counter)
  {
    TailHoldsTheHighest(d.history, limit, issued + 1);
    RaiseBound(d.history, Highest(Last(d.history, limit)) + 1, counter + 1);
    assert [d][..0] == [];
  }

  /** The books of a store just opened: all it knows was pushed is what is on the disk. */
  function Opened(history: seq<Note>, limit: nat): Books {
    Books(history, {}, {}, Highest(Last(history, limit)), Numbers(history))
  }

  lemma LogIsOrdered(b: Books, file: seq<Note>, pending: seq<Note>, cache: seq<Note>, limit: nat)
    requires Agree(b, file + pending, cache, limit)
    ensures Below(file + pending, b.newest + 1) && Below(file, b.newest + 1)
  {
    KeptBelow(b.all, b.lost, b.newest + 1);
    PrefixBelow(file, pending, b.newest + 1);
  }

  // ---- the store -------------------------------------------------------------

  class Store {
    const limit: nat
    const disk: Disk
    var cache: seq<Note>
    var pending: seq<Note>
    /** `historyLines` */
    var lines: nat
    /** `data.seq` */
    var counter: nat
    var dirty: bool

    ghost var books: Books
    /** Every state the disk has been in since this store opened it: what a crash may leave. */
    ghost var past: seq<Snapshot>

    ghost function Log(): seq<Note>
      reads this, disk
    {
      disk.history + pending
    }

    ghost predicate Valid()
      reads this, disk
    {
      && limit >= 1
      && Agree(books, Log(), cache, limit)
      && books.newest <= counter
      && lines == |disk.history|
      && disk.docSeq <= counter && (!dirty ==> disk.docSeq == counter)
      && AllRecoverable(past, counter)
    }

    /** Start from whatever a crash left: no number on the disk is above the restored counter. */
    constructor (disk: Disk, limit: nat, ghost issued: nat)
      requires limit >= 1 && Recoverable(disk.Now(), issued)
      ensures Valid() && this.disk == disk && this.limit == limit
      ensures counter == Max(disk.docSeq, Highest(Last(disk.history, limit))) && Below(disk.history, counter + 1)
      ensures cache == Last(disk.history, limit) && pending == [] && past == [disk.Now()]
      ensures books == Opened(disk.history, limit)
    {
      this.disk := disk;
      this.limit := limit;
      var tail := Last(disk.history, limit);
      cache := tail;
      lines := |disk.history|;
      pending := [];
      var highest := Highest(tail);
      counter := Max(disk.docSeq, highest);
      dirty := highest > disk.docSeq;
      books := Opened(disk.history, limit);
      past := [disk.Now()];
      new;
      assert Log() == disk.history;
      StartAgrees(disk.history, limit, issued);
      StartIsRecoverable(disk.Now(), limit, issued, counter);
    }

    /** `nextSeq` */
    method NextSeq() returns (n: nat)
      requires Valid()
      modifies `counter, `dirty
      ensures Valid() && n == counter == old(counter) + 1 && dirty
    {
      IssuingMore(past, counter, counter + 1);
      counter := counter + 1;
      dirty := true;
      n := counter;
    }

    /** `pushHistory`: the notification carries a number issued after every one pushed before. */
    method PushHistory(n: Note)
      requires Valid() && books.newest < n.number <= counter
      modifies `cache, `pending, `books
      ensures Valid() && books == Pushed(old(books), n)
      ensures cache == Last(old(cache) + [n], limit) && Log() == old(Log()) + [n]
    {
      PushAgrees(books, Log(), cache, limit, n);
      cache := cache + [n];
      Trim();
      assert disk.history + (pending + [n]) == Log() + [n];
      pending := pending + [n];
      books := Pushed(books, n);
    }

    method Trim()
      modifies `cache
      ensures cache == Last(old(cache), limit)
    {
      if |cache| > limit {
        cache := cache[|cache| - limit..];
      }
    }

    /** Publishing: the number is issued and the notification pushed in one go, or held back by flood control. */
    method Publish(text: string, coalesced: bool)
      requires Valid()
      modifies `counter, `dirty, `cache, `pending, `books
      ensures Valid() && counter == old(counter) + 1
      ensures var published := if coalesced then [] else [Note(counter, text, false)];
        cache == Last(old(cache) + published, limit) && Log() == old(Log()) + published
      ensures books == if coalesced then old(books) else Pushed(old(books), Note(counter, text, false))
    {
      var n := NextSeq();
      if coalesced {
        assert cache + [] == cache && Log() + [] == Log();
        return;
      }
      PushHistory(Note(n, text, false));
    }

    /** What a crash right now would leave is recoverable too. */
    lemma NowIsRecoverable()
      requires Valid()
      ensures Recoverable(disk.Now(), counter)
    {
      LogIsOrdered(books, disk.history, pending, cache, limit);
      RaiseBound(disk.history, books.newest + 1, counter + 1);
    }

    ghost method Remember()
      requires Valid()
      modifies `past
      ensures Valid() && past == old(past) + [disk.Now()]
    {
      NowIsRecoverable();
      ghost var longer := past + [disk.Now()];
      assert longer[..|longer| - 1] == past;
      past := longer;
    }

    /** `drain`: one append for the whole queue; when it fails the queue is gone. */
    method Drain(ok: bool)
      requires Valid()
      modifies `pending, `lines, `books, `past, disk
      ensures Valid() && pending == [] && disk.docSeq == old(disk.docSeq)
      ensures disk.history == if ok then old(Log()) else old(disk.history)
      ensures books == if ok then old(books) else Lost(old(books), old(pending))
      ensures past == if old(pending) == [] then old(past) else old(past) + [disk.Now()]
    {
      if pending == [] {
        assert Log() == disk.history;
        assert books.lost + SeqSet([]) == books.lost;
        return;
      }
      PendingCanBeLost();
      var taken := pending;
      pending := [];
      if ok {
        disk.history := disk.history + taken;
        lines := lines + |taken|;
      } else {
        books := Lost(books, taken);
      }
      assert Log() == disk.history;
      Remember();
    }

    lemma PendingCanBeLost()
      requires Valid()
      ensures Agree(Lost(books, pending), disk.history, cache, limit)
    {
      LossAgrees(books, disk.history, pending, cache, limit);
    }

    /** `compact`: the file becomes the cache, or stays as it was; the queue must be part of the cache. */
    method Compact(ok: bool)
      requires Valid() && pending == []
      modifies `lines, `books, `past, disk
      ensures Valid() && disk.docSeq == old(disk.docSeq)
      ensures disk.history == if ok then cache else old(disk.history)
      ensures books == if ok then Compacted(old(books), cache) else old(books)
      ensures past == old(past) + [disk.Now()]
    {
      CompactAgrees(books, Log(), cache, limit);
      if ok {
        disk.history := cache;
        lines := |cache|;
        books := Compacted(books, cache);
        assert Log() == cache;
      }
      Remember();
    }

    method WriteDocument(ok: bool)
      requires Valid()
      modifies `dirty, `past, disk
      ensures Valid() && disk.history == old(disk.history)
      ensures ok ==> disk.docSeq == counter && !dirty
      ensures !ok ==> disk.docSeq == old(disk.docSeq) && dirty == old(dirty)
      ensures past == old(past) + [disk.Now()]
    {
      if ok {
        disk.docSeq := counter;
        dirty := false;
      }
      Remember();
    }

    /** File and books once the queue has been appended, or has not. */
    ghost function Appended(ok: bool): (seq<Note>, Books)
      reads this, disk
    {
      if ok then (Log(), books) else (disk.history, Lost(books, pending))
    }

    /** The first half of `flush`: the queue, and the file once it has grown to twice the window. */
    method AppendAndCompact(appends: bool, compacts: bool)
      requires Valid()
      modifies `pending, `lines, `books, `past, disk
      ensures Valid() && pending == [] && disk.docSeq == old(disk.docSeq)
      ensures var (grown, kept) := old(Appended(appends));
        if |grown| > limit * 2 && compacts then disk.history == cache && books == Compacted(kept, cache)
        else disk.history == grown && books == kept
      ensures |disk.history| <= 2 * limit || !compacts
    {
      Drain(appends);
      if lines > limit * 2 {
        CompactAgrees(books, Log(), cache, limit);
        Compact(compacts);
      }
    }

    /** `flush`: append, compact when the file has grown to twice the window, then the document. */
    method Flush(appends: bool, compacts: bool, writes: bool)
      requires Valid()
      modifies `pending, `lines, `dirty, `books, `past, disk
      ensures Valid() && pending == []
      ensures var (grown, kept) := old(Appended(appends));
        if |grown| > limit * 2 && compacts then disk.history == cache && books == Compacted(kept, cache)
        else disk.history == grown && books == kept
      ensures |disk.history| <= 2 * limit || !compacts
      ensures writes ==> disk.docSeq == counter && !dirty
      ensures !writes ==> disk.docSeq == old(disk.docSeq) && dirty == old(dirty)
    {
      AppendAndCompact(appends, compacts);
      if !dirty { return; }
      WriteDocument(writes);
    }

    /** `touchHistory`: rewrite the file from the cache, which already holds whatever is still queued. */
    method TouchHistory(ok: bool)
      requires Valid()
      modifies `pending, `lines, `books, `past, disk
      ensures Valid()
      ensures ok ==> disk.history == cache && pending == [] && books == Compacted(old(books), cache)
      ensures !ok ==> disk.history == old(disk.history) && pending == old(pending) && books == old(books)
    {
      CompactAgrees(books, Log(), cache, limit);
      var waiting := pending;
      pending := [];
      if ok {
        disk.history := cache;
        lines := |cache|;
        books := Compacted(books, cache);
        assert Log() == cache;
      } else {
        pending := waiting;
      }
      Remember();
    }

    /** Marks cached notifications in place (as `resolve` and an action do), then rewrites the file. */
    method Resolve(which: Note -> bool, ok: bool)
      requires Valid()
      modifies `cache, `pending, `lines, `books, `past, disk
      ensures Valid() && cache == Marked(old(cache), which)
      ensures cache != old(cache) && ok ==> Log() == cache && books == Compacted(old(books), cache)
      ensures cache != old(cache) && !ok ==> Log() == old(Log()) && books == Unwritten(old(books), old(cache), which)
      ensures cache == old(cache) ==> Log() == old(Log()) && books == old(books)
    {
      var marked := Marked(cache, which);
      if marked == cache { return; }
      MarkAgrees(books, Log(), cache, which, limit);
      books := Unwritten(books, cache, which);
      cache := marked;
      TouchHistory(ok);
      assert disk.history + [] == disk.history;
    }

    // ---- what a run keeps --------------------------------------------------------

    /** Whichever writes failed, the log rises strictly: no number twice, none out of order. */
    lemma LogRises()
      requires Valid()
      ensures Below(Log(), counter + 1)
    {
      LogIsOrdered(books, disk.history, pending, cache, limit);
      RaiseBound(Log(), books.newest + 1, counter + 1);
    }

    /**
     * By number, the cache is the end of the log exactly when no failed append lost a line the
     * cache still has; and the two are equal exactly when, besides, every mark is on the disk.
     */
    lemma CacheIsTheEndOfTheLog()
      requires Valid()
      ensures Numbers(Last(Log(), limit)) == Numbers(cache) <==> forall n :: n in Numbers(cache) ==> n !in books.lost
      ensures Last(Log(), limit) == cache <==> forall n :: n in Numbers(cache) ==> n !in books.lost + books.stale
    {
      EndOfTheLog(books.all, books.lost, books.stale, limit);
    }

    /**
     * A device that asks again gets the number of any notification pushed, until as many have
     * been pushed after it as the cache holds.
     */
    lemma SinceOrEvicted(cursor: nat, i: nat)
      requires Valid() && i < |books.pushed| && books.pushed[i] > cursor
      ensures i + limit < |books.pushed| <==> books.pushed[i] !in Numbers(Above(cache, cursor))
    {
      AboveNumbers(cache, cursor, books.pushed[i]);
      LastHas(books.pushed, limit, books.newest, i);
    }
  }

  /** Of numbers that rise, the end holds exactly the last `limit`. */
  lemma LastHas(pushed: seq<nat>, limit: nat, newest: nat, i: nat)
    requires Rises(pushed, newest) && i < |pushed|
    ensures i + limit < |pushed| <==> pushed[i] !in Last(pushed, limit)
  {
    var end := Last(pushed, limit);
    var gone := |pushed| - |end|;
    if i >= gone {
      assert end[i - gone] == pushed[i];
    } else {
      forall j | 0 <= j < |end|
        ensures end[j] != pushed[i]
      {
        assert end[j] == pushed[gone + j];
      }
    }
  }

  /** A store opened on what a crash left of a run that had issued numbers up to `issued`. */
  method StartAgain(crashed: Snapshot, limit: nat, ghost issued: nat) returns (next: Store)
    requires limit >= 1 && Recoverable(crashed, issued)
    ensures fresh(next) && fresh(next.disk) && next.Valid() && next.limit == limit && next.disk.Now() == crashed
    ensures Below(crashed.history, next.counter + 1) && crashed.docSeq <= next.counter <= issued
    ensures next.cache == Last(crashed.history, limit)
  {
    TailBelow(crashed.history, limit, issued + 1);
    HighestBelow(Last(crashed.history, limit), issued + 1);
    var disk := new Disk(crashed.history, crashed.docSeq);
    next := new Store(disk, limit, issued);
  }

  /** Stop anywhere, even between two writes of one flush: the next start takes up the numbering after the disk. */
  method CrashAndRestart(store: Store, crashed: Snapshot) returns (next: Store)
    requires store.Valid() && crashed in store.past
    ensures next.Valid() && next.cache == Last(crashed.history, store.limit)
    ensures Below(crashed.history, next.counter + 1) && crashed.docSeq <= next.counter <= store.counter
  {
    AnyIsRecoverable(store.past, store.counter, crashed);
    next := StartAgain(crashed, store.limit, store.counter);
  }

  /** One notification published, and not written yet. */
  method OneQueued() returns (store: Store)
    ensures fresh(store) && fresh(store.disk) && store.Valid() && store.limit == 10
    ensures store.cache == [Note(1, "x", false)] && store.pending == [Note(1, "x", false)] && store.disk.history == []
    ensures store.books == Books([Note(1, "x", false)], {}, {}, 1, [1])
  {
    var disk := new Disk([], 0);
    store := new Store(disk, 10, 0);
    assert store.Log() == [] && store.cache == [] && store.books == Books([], {}, {}, 0, []);
    store.Publish("x", false);
    assert store.cache == Last([] + [Note(1, "x", false)], 10) == [Note(1, "x", false)];
    assert store.Log() == store.pending;
  }

  /** An append that failed: the cache holds a line the log has lost. */
  method LineNotWritten() returns (store: Store)
    ensures store.Valid() && store.books.lost == {1} && store.books.stale == {}
    ensures store.cache == [Note(1, "x", false)] && store.Log() == []
  {
    store := OneQueued();
    assert SeqSet(store.pending) == {1} by { assert store.pending[0] in store.pending; }
    assert store.books.lost + SeqSet(store.pending) == {1};
    store.Flush(false, false, true);
  }

  /** A rewrite that failed: no line is lost, and the cache still differs from the log. */
  method MarkNotWritten() returns (store: Store)
    ensures store.Valid() && store.books.lost == {} && store.books.stale == {1}
    ensures store.cache == [Note(1, "x", true)] && store.Log() == [Note(1, "x", false)]
  {
    var disk := new Disk([Note(1, "x", false)], 1);
    store := new Store(disk, 10, 1);
    MarkedAt(store.cache, n => true, 0);
    assert NewlyMarked(store.cache, n => true) == {1} by { assert store.cache[0] in store.cache; }
    store.Resolve(n => true, false);
  }
}
