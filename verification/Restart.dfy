/**
 * The hub of `Delivery` on top of the store of `StoreLog`: one numbering, one history and one
 * document, and what a restart of both leaves of the delivery claims (packages/core/src/store.ts
 * and server.ts).
 */
module Restart {
  import opened NoteLog
  import S = StoreLog
  import D = Delivery

  /** The hub numbers and remembers what the store does; counter and device record are in one document. */
  ghost predicate Joined(store: S.Store, hub: D.Hub)
    reads store, store.disk, hub
  {
    && store.Valid() && hub.Valid()
    && store.limit == hub.historyLimit && store.counter == hub.counter && Numbers(store.cache) == hub.cache
    && store.disk.docSeq == hub.document.counter
  }

  /** The cache of a store is in order, by number. */
  lemma CacheAscends(store: S.Store)
    requires store.Valid()
    ensures Ascending(Numbers(store.cache), store.counter + 1)
  {
    var tail := Last(store.books.all, store.limit);
    TailBelow(store.books.all, store.limit, store.books.newest + 1);
    MarksKeepNumbers(tail, store.books.stale);
    BelowAscends(tail, store.books.newest + 1);
    D.AscendingMore(Numbers(store.cache), store.books.newest + 1, store.counter + 1);
  }

  /** A device enrols at a store in any state, with the counter written; from then on the two are joined. */
  method Enrol(store: S.Store, replayLimit: int, issued: map<nat, D.Alert>, now: nat) returns (hub: D.Hub)
    requires store.Valid() && forall j :: j in issued ==> 0 < j <= store.counter
    modifies store, store.disk
    ensures fresh(hub) && Joined(store, hub) && store.cache == old(store.cache) && store.counter == old(store.counter)
    ensures hub.enrolledAt == hub.ackedSeq == hub.counter && hub.OwedNow() == {} && hub.issued == issued
    ensures hub.replayLimit == replayLimit && hub.now == now && !hub.napped && !hub.overacked
  {
    store.WriteDocument(true);
    CacheAscends(store);
    hub := new D.Hub(store.limit, replayLimit, store.counter, Numbers(store.cache), issued, now);
  }

  /** A first start, on an empty directory. */
  method FirstStart(limit: nat, replayLimit: int, now: nat) returns (store: S.Store, hub: D.Hub)
    requires limit >= 1
    ensures fresh(store) && fresh(store.disk) && fresh(hub) && Joined(store, hub)
    ensures store.limit == limit && store.disk.history == [] && hub.counter == 0 && hub.cache == []
  {
    store := S.StartAgain(S.Snapshot([], 0), limit, 0);
    hub := Enrol(store, replayLimit, map[], now);
  }

  /** Publishing goes to both; who is offered the frame, and what becomes excused, is the hub's alone to say. */
  method Publish(store: S.Store, hub: D.Hub, text: string, ttl: int, permitted: bool, critical: bool,
                 accepts: nat -> bool) returns (ghost takers: set<nat>)
    requires Joined(store, hub)
    modifies store, hub`counter, hub`cache, hub`issued, hub`wires, hub`heldFrom, hub`copies, hub`excuses
    ensures Joined(store, hub) && hub.counter == old(hub.counter) + 1
    ensures store.Log() == old(store.Log()) + [Note(hub.counter, text, false)]
    ensures hub.issued == old(hub.issued)[hub.counter := D.Alert(hub.now, ttl, permitted, critical)]
    ensures D.WentOut(hub.issued[hub.counter], hub.counter, takers, accepts, old(hub.wires), hub.wires, hub.ready,
                      old(hub.copies), hub.snoozedUntil, hub.now)
    ensures hub.excuses == D.Holding(D.Evicting(old(hub.excuses), old(hub.cache), hub.cache), hub.counter,
                                     D.Holds(hub.issued[hub.counter], takers, hub.ready))
  {
    ghost var before := store.cache;
    store.Publish(text, false);
    takers := hub.Publish(ttl, permitted, critical, accepts);
    S.PushKeepsNumbers(before, store.limit, Note(store.counter, text, false));
  }

  /** A number used up by flood control is used up in both. */
  method Coalesce(store: S.Store, hub: D.Hub, text: string)
    requires Joined(store, hub)
    modifies store, hub
    ensures Joined(store, hub) && hub.counter == old(hub.counter) + 1 && hub.cache == old(hub.cache)
  {
    assert store.cache + [] == store.cache;
    store.Publish(text, true);
    hub.Coalesce();
  }

  /** The first half of a flush: the log only. */
  method Append(store: S.Store, hub: D.Hub, appends: bool, compacts: bool)
    requires Joined(store, hub)
    modifies store, store.disk
    ensures Joined(store, hub) && store.pending == []
    ensures var (grown, kept) := old(store.Appended(appends));
      store.disk.history == if |grown| > store.limit * 2 && compacts then store.cache else grown
  {
    store.AppendAndCompact(appends, compacts);
  }

  /** The second half: counter and device record reach the disk together, or neither does. */
  method WriteDocument(store: S.Store, hub: D.Hub, ok: bool)
    requires Joined(store, hub)
    modifies store, store.disk, hub
    ensures Joined(store, hub)
    ensures hub.document == if ok
      then D.Document(hub.counter, hub.ackedSeq, hub.snoozedUntil, hub.heldFrom) else old(hub.document)
  {
    store.WriteDocument(ok);
    if ok { hub.WriteDocument(); }
  }

  /** The store's side of a restart. */
  method RestartStore(store: S.Store) returns (next: S.Store)
    requires store.Valid()
    ensures fresh(next) && fresh(next.disk) && next.Valid() && next.limit == store.limit
    ensures next.disk.Now() == store.disk.Now() && store.disk.docSeq <= next.counter <= store.counter
    ensures next.cache == Last(store.disk.history, store.limit) && Ascending(Numbers(next.cache), next.counter + 1)
  {
    store.NowIsRecoverable();
    next := S.StartAgain(store.disk.Now(), store.limit, store.counter);
    LastAscends(store.disk.history, store.limit, next.counter + 1);
  }

  /** The hub's side. */
  method RestartHub(hub: D.Hub, counter: nat, cache: seq<nat>)
    requires hub.Valid() && hub.document.counter <= counter <= hub.counter && Ascending(cache, counter + 1)
    modifies hub
    ensures hub.Valid() && hub.counter == counter && hub.cache == cache && hub.document == old(hub.document)
    ensures hub.ackedSeq == hub.document.ackedSeq <= counter
    ensures hub.issued == D.IssuedUpTo(old(hub.issued), counter)
    ensures hub.received == D.UpToNumber(old(hub.received), counter) && hub.told == D.UpToNumber(old(hub.told), counter)
    ensures hub.excuses == D.CutOff(D.Remarked(old(hub.excuses), hub.document.heldFrom), old(hub.cache), cache, counter)
  {
    hub.Restart(counter, cache);
  }

  /**
   * Both stop, between any two writes, and start again from the disk as it is. Numbering goes on
   * after it, the cursor is the one in the document, and every claim about delivery holds again.
   */
  method Again(store: S.Store, hub: D.Hub) returns (next: S.Store)
    requires Joined(store, hub)
    modifies hub
    ensures Joined(next, hub) && hub.cache == Numbers(Last(store.disk.history, store.limit))
    ensures hub.document == old(hub.document) && hub.ackedSeq == hub.document.ackedSeq
    ensures hub.document.counter <= hub.counter <= old(hub.counter)
    ensures hub.issued == D.IssuedUpTo(old(hub.issued), hub.counter)
    ensures hub.received == D.UpToNumber(old(hub.received), hub.counter)
      && hub.told == D.UpToNumber(old(hub.told), hub.counter)
    ensures hub.excuses
      == D.CutOff(D.Remarked(old(hub.excuses), hub.document.heldFrom), old(hub.cache), hub.cache, hub.counter)
  {
    next := RestartStore(store);
    assert next.disk.docSeq == hub.document.counter;
    RestartHub(hub, next.counter, Numbers(next.cache));
  }

  lemma LastAscends(history: seq<Note>, limit: nat, bound: nat)
    requires Below(history, bound)
    ensures Ascending(Numbers(Last(history, limit)), bound)
  {
    TailBelow(history, limit, bound);
    BelowAscends(Last(history, limit), bound);
  }
}
