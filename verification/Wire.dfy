/**
 * What the hub writes to one socket of a device, and how much of it the device has read.
 *
 * A socket takes frames in order. Once it has refused one (it stalled, or it is gone) it
 * takes no more: packages/core/src/session.ts, `send`. The device reads a prefix.
 */
module Wire {
  /** A notification by its number, or the notice that stands for several "not shown". */
  datatype Frame = One(number: nat) | NotShown(numbers: set<nat>) {
    function Numbers(): set<nat> {
      if One? then {number} else numbers
    }
  }

  datatype Wire = Wire(frames: seq<Frame>, read: nat, open: bool)

  function Sent(w: Wire, f: Frame, accepted: bool): Wire {
    if !w.open then w
    else if accepted then w.(frames := w.frames + [f])
    else w.(open := false)
  }

  /** Several frames in a row, of which the socket takes the first `budget`. */
  function Fed(w: Wire, fs: seq<Frame>, budget: nat): Wire {
    if fs == [] then w else Sent(Fed(w, fs[..|fs| - 1], budget), fs[|fs| - 1], |fs| <= budget)
  }

  lemma {:induction false} FedIsAPrefix(w: Wire, fs: seq<Frame>, budget: nat)
    requires w.open
    ensures Fed(w, fs, budget) ==
      if |fs| <= budget then w.(frames := w.frames + fs) else w.(frames := w.frames + fs[..budget], open := false)
  {
    if fs == [] {
      assert w.frames + fs == w.frames;
    } else {
      var front := fs[..|fs| - 1];
      FedIsAPrefix(w, front, budget);
      assert fs == front + [fs[|fs| - 1]];
      if |fs| <= budget {
        assert w.frames + front + [fs[|fs| - 1]] == w.frames + fs;
      } else {
        assert front[..budget] == fs[..budget];
      }
    }
  }

  /** Every number a list of frames carries, itself or in a notice. */
  function Carried(fs: seq<Frame>): set<nat> {
    if fs == [] then {} else Carried(fs[..|fs| - 1]) + fs[|fs| - 1].Numbers()
  }

  lemma {:induction false} CarriedAppend(a: seq<Frame>, b: seq<Frame>)
    ensures Carried(a + b) == Carried(a) + Carried(b)
  {
    if b == [] {
      assert a + b == a;
    } else {
      CarriedAppend(a, b[..|b| - 1]);
      assert (a + b)[..|a + b| - 1] == a + b[..|b| - 1];
    }
  }

  // ---- the invariant ---------------------------------------------------------

  /** A notification comes only after everything still owed with a lower number. */
  ghost predicate InOrder(fs: seq<Frame>, owed: set<nat>) {
    fs == [] || (InOrder(fs[..|fs| - 1], owed) && LastInOrder(fs, owed))
  }

  ghost predicate LastInOrder(fs: seq<Frame>, owed: set<nat>)
    requires fs != []
  {
    fs[|fs| - 1].One? ==> forall j :: j in owed && j <= fs[|fs| - 1].number ==> j in Carried(fs)
  }

  ghost predicate UpTo(fs: seq<Frame>, newest: nat) {
    fs == [] || (UpTo(fs[..|fs| - 1], newest) && (fs[|fs| - 1].One? ==> fs[|fs| - 1].number <= newest))
  }

  lemma {:induction false} OrderOfFewer(fs: seq<Frame>, owed: set<nat>, fewer: set<nat>)
    requires InOrder(fs, owed) && fewer <= owed
    ensures InOrder(fs, fewer)
  {
    if fs != [] {
      OrderOfFewer(fs[..|fs| - 1], owed, fewer);
    }
  }

  lemma {:induction false} OrderWithNewer(fs: seq<Frame>, owed: set<nat>, n: nat)
    requires n > 0 && InOrder(fs, owed) && UpTo(fs, n - 1)
    ensures InOrder(fs, owed + {n})
  {
    if fs != [] {
      OrderWithNewer(fs[..|fs| - 1], owed, n);
    }
  }

  lemma {:induction false} UpToMore(fs: seq<Frame>, newest: nat, more: nat)
    requires UpTo(fs, newest) && newest <= more
    ensures UpTo(fs, more)
  {
    if fs != [] {
      UpToMore(fs[..|fs| - 1], newest, more);
    }
  }

  /** Once a wire carries all that is owed, any frame may follow. */
  lemma {:induction false} OrderAfterAll(fs: seq<Frame>, more: seq<Frame>, owed: set<nat>)
    requires InOrder(fs, owed) && owed <= Carried(fs)
    ensures InOrder(fs + more, owed)
  {
    if more == [] {
      assert fs + more == fs;
    } else {
      OrderAfterAll(fs, more[..|more| - 1], owed);
      assert (fs + more)[..|fs + more| - 1] == fs + more[..|more| - 1];
      CarriedAppend(fs, more);
    }
  }

  /** What a prefix shows of the order: at a notification, all lower ones owed came before or with it. */
  lemma {:induction false} OrderAt(fs: seq<Frame>, owed: set<nat>, i: nat)
    requires InOrder(fs, owed) && i < |fs|
    ensures LastInOrder(fs[..i + 1], owed)
  {
    if i < |fs| - 1 {
      OrderAt(fs[..|fs| - 1], owed, i);
      assert fs[..|fs| - 1][..i + 1] == fs[..i + 1];
    } else {
      assert fs[..i + 1] == fs;
    }
  }

  lemma {:induction false} UpToAt(fs: seq<Frame>, newest: nat, i: nat)
    requires UpTo(fs, newest) && i < |fs| && fs[i].One?
    ensures fs[i].number <= newest
  {
    if i < |fs| - 1 {
      UpToAt(fs[..|fs| - 1], newest, i);
    }
  }

  lemma {:induction false} UpToAppend(a: seq<Frame>, b: seq<Frame>, newest: nat)
    requires UpTo(a, newest) && UpTo(b, newest)
    ensures UpTo(a + b, newest)
  {
    if b == [] {
      assert a + b == a;
    } else {
      UpToAppend(a, b[..|b| - 1], newest);
      assert (a + b)[..|a + b| - 1] == a + b[..|b| - 1];
    }
  }

  lemma {:induction false} UpToPrefix(fs: seq<Frame>, newest: nat, i: nat)
    requires UpTo(fs, newest) && i <= |fs|
    ensures UpTo(fs[..i], newest)
  {
    if i < |fs| {
      UpToPrefix(fs[..|fs| - 1], newest, i);
      assert fs[..|fs| - 1][..i] == fs[..i];
    } else {
      assert fs[..i] == fs;
    }
  }

  lemma {:induction false} OrderOfPrefix(fs: seq<Frame>, owed: set<nat>, i: nat)
    requires InOrder(fs, owed) && i <= |fs|
    ensures InOrder(fs[..i], owed)
  {
    if i < |fs| {
      OrderOfPrefix(fs[..|fs| - 1], owed, i);
      assert fs[..|fs| - 1][..i] == fs[..i];
    } else {
      assert fs[..i] == fs;
    }
  }

  /**
   * One wire against what is still owed to the device (`owed`) and what the device has been
   * given or told of (`settled`).
   */
  ghost predicate Sound(w: Wire, owed: set<nat>, settled: set<nat>, newest: nat) {
    && w.read <= |w.frames|
    && InOrder(w.frames, owed)
    && UpTo(w.frames, newest)
    && (w.open ==> owed <= Carried(w.frames))
    && Carried(w.frames[..w.read]) <= settled
  }

  lemma SoundForFewer(w: Wire, owed: set<nat>, settled: set<nat>, newest: nat, fewer: set<nat>, more: set<nat>)
    requires Sound(w, owed, settled, newest) && fewer <= owed && settled <= more
    ensures Sound(w, fewer, more, newest)
  {
    OrderOfFewer(w.frames, owed, fewer);
  }

  /** The newest number comes after everything owed with a lower one. */
  lemma NewestInOrder(fs: seq<Frame>, owed: set<nat>, n: nat, read: nat)
    requires InOrder(fs, owed + {n}) && UpTo(fs, n) && owed <= Carried(fs) && read <= |fs|
    ensures InOrder(fs + [One(n)], owed + {n}) && UpTo(fs + [One(n)], n)
    ensures Carried(fs + [One(n)]) == Carried(fs) + {n} && (fs + [One(n)])[..read] == fs[..read]
  {
    var longer := fs + [One(n)];
    assert longer[..|longer| - 1] == fs;
    assert Carried(longer) == Carried(fs) + {n};
    assert LastInOrder(longer, owed + {n});
  }

  /** A newly issued number, sent or refused on an open wire; a wire already closed is not concerned. */
  lemma SoundAfterNew(w: Wire, owed: set<nat>, settled: set<nat>, newest: nat, accepted: bool)
    requires Sound(w, owed, settled, newest)
    ensures Sound(Sent(w, One(newest + 1), accepted), owed + {newest + 1}, settled, newest + 1)
  {
    var n := newest + 1;
    OrderWithNewer(w.frames, owed, n);
    UpToMore(w.frames, newest, n);
    if w.open && accepted { NewestInOrder(w.frames, owed, n, w.read); }
  }

  /** More frames on a wire that is open: whatever they are, they come after all that is owed. */
  lemma SoundAfterMore(w: Wire, fs: seq<Frame>, budget: nat, owed: set<nat>, settled: set<nat>, newest: nat)
    requires Sound(w, owed, settled, newest) && w.open && UpTo(fs, newest)
    ensures Sound(Fed(w, fs, budget), owed, settled, newest)
  {
    FedIsAPrefix(w, fs, budget);
    var taken := if |fs| <= budget then fs else fs[..budget];
    if |fs| > budget { UpToPrefix(fs, newest, budget); }
    OrderAfterAll(w.frames, taken, owed);
    UpToAppend(w.frames, taken, newest);
    CarriedAppend(w.frames, taken);
    assert (w.frames + taken)[..w.read] == w.frames[..w.read];
  }

  /** A new socket whose first frames are in order and carry all that is owed. */
  lemma SoundFromStart(fs: seq<Frame>, budget: nat, owed: set<nat>, settled: set<nat>, newest: nat)
    requires InOrder(fs, owed) && UpTo(fs, newest) && owed <= Carried(fs)
    ensures Sound(Fed(Wire([], 0, true), fs, budget), owed, settled, newest)
  {
    FedIsAPrefix(Wire([], 0, true), fs, budget);
    if |fs| <= budget {
      assert [] + fs == fs;
    } else {
      assert [] + fs[..budget] == fs[..budget];
      OrderOfPrefix(fs, owed, budget);
      UpToPrefix(fs, newest, budget);
    }
  }

  /** After the device reads a notification, nothing with a number up to it is still owed. */
  lemma ReadingSettles(w: Wire, owed: set<nat>, settled: set<nat>, newest: nat)
    requires Sound(w, owed, settled, newest) && w.read < |w.frames|
    ensures var f := w.frames[w.read];
      && Carried(w.frames[..w.read + 1]) <= settled + f.Numbers()
      && (f.One? ==> f.number <= newest && forall j :: j in owed && j <= f.number ==> j in settled + f.Numbers())
  {
    var i := w.read;
    OrderAt(w.frames, owed, i);
    assert w.frames[..i + 1][..i] == w.frames[..i];
    if w.frames[i].One? { UpToAt(w.frames, newest, i); }
  }

  lemma {:induction false} FedClosed(w: Wire, fs: seq<Frame>, budget: nat)
    requires !w.open
    ensures Fed(w, fs, budget) == w
  {
    if fs != [] {
      FedClosed(w, fs[..|fs| - 1], budget);
    }
  }

  lemma SoundLater(w: Wire, owed: set<nat>, settled: set<nat>, newest: nat, more: nat)
    requires Sound(w, owed, settled, newest) && newest <= more
    ensures Sound(w, owed, settled, more)
  {
    UpToMore(w.frames, newest, more);
  }

  /** A notification sent once more. */
  lemma SoundAfterRetry(w: Wire, n: nat, accepted: bool, owed: set<nat>, settled: set<nat>, newest: nat)
    requires Sound(w, owed, settled, newest) && n <= newest
    ensures Sound(Sent(w, One(n), accepted), owed, settled, newest)
  {
    if w.open {
      var budget := if accepted then 1 else 0;
      assert [One(n)][..0] == [];
      assert Fed(w, [], budget) == w;
      assert Fed(w, [One(n)], budget) == Sent(w, One(n), accepted);
      SoundAfterMore(w, [One(n)], budget, owed, settled, newest);
    }
  }
}
