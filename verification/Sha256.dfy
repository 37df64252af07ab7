/**
 * `sha256Sync` of packages/protocol/src/hash.ts, over typed arrays.
 *
 * A typed array's element is a word. `^` and `&` give signed numbers, sums are exact and
 * only `>>> 0` reduces them, where the standard reduces after every addition. The padded
 * length is computed the way JavaScript does it, in 32-bit signed arithmetic.
 */
module Sha256 {
  import opened Basics
  import opened Sha256Spec
  import opened Words

  // ---- the padded length, in 32-bit signed arithmetic ------------------------

  function ToInt32(x: int): int {
    var m := x % 0x1_0000_0000;
    if m < 0x8000_0000 then m else m - 0x1_0000_0000
  }

  /** `(((len + 8) >> 6) + 1) << 6` */
  function PaddedLength(len: nat): int {
    ToInt32((ToInt32(len + 8) / 64 + 1) * 64)
  }

  const LONGEST: nat := 0x8000_0000 - 73

  lemma RoundsUp(len: nat)
    ensures (55 - len) % 64 == 63 - (len + 8) % 64
  {
    var q := (len + 8) / 64;
    assert 55 - len == 64 * -q + (63 - (len + 8) % 64);
  }

  /** It is the least multiple of 64 with room for the data, one byte and the length. */
  lemma PaddedLengthIsLeast(len: nat)
    requires len <= LONGEST
    ensures PaddedLength(len) % 64 == 0 && PaddedLength(len) - 64 < len + 9 <= PaddedLength(len)
    ensures PaddedLength(len) == |Pad(seq(len, _ => 0))| == len + 1 + ZeroBytes(len) + 8
  {
    var q := (len + 8) / 64;
    assert len + 8 == 64 * q + (len + 8) % 64;
    assert PaddedLength(len) == 64 * (q + 1);
    RoundsUp(len);
  }

  /** Past that length 32-bit arithmetic yields an array the data does not fit into, so the call throws. */
  lemma PaddedLengthOverflows(len: nat)
    requires len > LONGEST
    ensures PaddedLength(len) < len
  {
    var low := ToInt32(len + 8);
    assert low <= len + 8;
    var q := low / 64;
    assert 64 * q <= low && ToInt32((q + 1) * 64) <= (q + 1) * 64;
    if len < 0x8000_0000 - 8 {
      assert low == len + 8 && q == 0x8000_0000 / 64 - 1;
    } else if len < 0x1_0000_0000 - 8 {
      assert low < 0;
    } else {
      assert low <= len + 8 - 0x1_0000_0000;
    }
  }

  // ---- writing the padded message --------------------------------------------

  /** `DataView.setUint32`, big-endian. */
  method SetUint32(bytes: array<Byte>, at: nat, v: nat)
    requires at + 4 <= bytes.Length
    modifies bytes
    ensures bytes[..] == old(bytes[..at]) + Be32(v) + old(bytes[at + 4..])
  {
    var b := Be32(v);
    bytes[at], bytes[at + 1], bytes[at + 2], bytes[at + 3] := b[0], b[1], b[2], b[3];
  }

  lemma LengthBytes(v: nat)
    ensures Be64(v) == Be32(v / 0x1_0000_0000) + Be32(v)
  {
    assert v / 0x1_0000_0000 / 0x100_0000 == v / 0x100_0000_0000_0000;
    assert v / 0x1_0000_0000 / 0x1_0000 == v / 0x1_0000_0000_0000;
    assert v / 0x1_0000_0000 / 0x100 == v / 0x100_0000_0000;
  }

  /** Some(bytes) is the padded message; None is the RangeError of an impossible array. */
  method Padded(data: seq<Byte>) returns (r: Option<array<Byte>>)
    ensures r.Some? <==> |data| <= LONGEST
    ensures r.Some? ==> fresh(r.value) && r.value[..] == Pad(data)
  {
    if PaddedLength(|data|) < |data| {
      if |data| <= LONGEST { PaddedLengthIsLeast(|data|); }
      return None;
    }
    if |data| > LONGEST { PaddedLengthOverflows(|data|); }
    PaddedLengthIsLeast(|data|);
    var padded := new Byte[PaddedLength(|data|)](_ => 0);
    forall i | 0 <= i < |data| {
      padded[i] := data[i];
    }
    padded[|data|] := 0x80;
    assert padded[..] == data + [0x80] + Zeros(ZeroBytes(|data|)) + Zeros(8);
    WriteLength(padded, data + [0x80] + Zeros(ZeroBytes(|data|)), 8 * |data|);
    r := Some(padded);
  }

  /** The length in bits, in two halves of 32 bits. */
  method WriteLength(padded: array<Byte>, ghost front: seq<Byte>, bitLen: nat)
    requires padded[..] == front + Zeros(8)
    modifies padded
    ensures padded[..] == front + Be64(bitLen)
  {
    var n := padded.Length;
    SetUint32(padded, n - 4, bitLen);
    assert padded[..] == front + Zeros(4) + Be32(bitLen);
    SetUint32(padded, n - 8, bitLen / 0x1_0000_0000);
    LengthBytes(bitLen);
    assert padded[..] == front + Be32(bitLen / 0x1_0000_0000) + Be32(bitLen);
  }

  // ---- sums: exact in JavaScript, modulo 2^32 at every step in the standard ----

  lemma ModUnique(n: int, q: int, r: int)
    requires n == q * MODULUS + r && 0 <= r < MODULUS
    ensures n % MODULUS == r
  {
  }

  /** A summand may be reduced late, and read with or without its sign. */
  lemma PlusReduces(n: int, x: Word)
    ensures Plus(Uint32(n), x) == Uint32(n + x) == Uint32(n + Signed(x))
  {
    var low := n % MODULUS + x;
    ModUnique(n + x, n / MODULUS + low / MODULUS, low % MODULUS);
    ModUnique(n + x - MODULUS, n / MODULUS + low / MODULUS - 1, low % MODULUS);
  }

  lemma RoundSum(hh: Word, s: Word, ch: Word, k: Word, w: Word)
    ensures Uint32(hh + Signed(s) + Signed(ch) + k + w) == Plus(Plus(Plus(Plus(hh, s), ch), k), w)
  {
    var n := hh + Signed(s);
    PlusReduces(hh, s);
    PlusReduces(n, ch);
    PlusReduces(n + Signed(ch), k);
    PlusReduces(n + Signed(ch) + k, w);
  }

  lemma ScheduleSum(w16: Word, s0: Word, w7: Word, s1: Word)
    ensures Uint32(w16 + Signed(s0) + w7 + Signed(s1)) == Plus(Plus(Plus(s1, w7), s0), w16)
  {
    var n := Signed(s1) + w7;
    PlusReduces(w7, s1);
    PlusReduces(n, s0);
    PlusReduces(n + Signed(s0), w16);
  }

  lemma PairSum(s: Word, maj: Word)
    ensures Uint32(Signed(s) + Signed(maj)) == Plus(s, maj)
  {
    PlusReduces(maj, s);
    PlusReduces(Signed(s), maj);
  }

  // ---- one block -------------------------------------------------------------

  /** Fills `w` with the message schedule of the block at `off`. */
  method FillSchedule(w: array<Word>, view: seq<Byte>, off: nat, ghost n: nat)
    requires w.Length == 64 && off == 64 * n && off + 64 <= |view|
    modifies w
    ensures w[..] == Schedule(Block(view, n), 64)
  {
    ghost var m := Block(view, n);
    for i := 0 to 16
      invariant w[..i] == m[..i]
    {
      w[i] := WordAt(view, off + 4 * i);
      assert m[..i + 1] == m[..i] + [m[i]];
    }
    for i := 16 to 64
      invariant w[..i] == Schedule(m, i)
    {
      ghost var before := w[..i];
      var word := NextWord(w[i - 16], w[i - 15], w[i - 7], w[i - 2]);
      w[i] := word;
      assert w[..i + 1] == before + [word];
    }
    assert w[..64] == w[..];
  }

  /** The body of the second schedule loop. */
  method NextWord(w16: Word, w15: Word, w7: Word, w2: Word) returns (word: Word)
    ensures word == Plus(Plus(Plus(SmallSigma1(w2), w7), SmallSigma0(w15)), w16)
  {
    var s0 := Xor(Xor(RotR(w15, 7), RotR(w15, 18)), Shr(w15, 3));
    var s1 := Xor(Xor(RotR(w2, 17), RotR(w2, 19)), Shr(w2, 10));
    word := Uint32(w16 + Signed(s0) + w7 + Signed(s1));
    ScheduleSum(w16, s0, w7, s1);
  }

  /** The body of the round loop: each variable takes over its neighbour's value. */
  method OneRound(v: Working, k: Word, w: Word) returns (r: Working)
    ensures r == Round(v, k, w)
  {
    var (a, b, c, d) := (v.a, v.b, v.c, v.d);
    var (e, f, g, hh) := (v.e, v.f, v.g, v.h);
    var S1 := Xor(Xor(RotR(e, 6), RotR(e, 11)), RotR(e, 25));
    var ch := Xor(And(e, f), And(Not(e), g));
    var t1 := Uint32(hh + Signed(S1) + Signed(ch) + k + w);
    RoundSum(hh, S1, ch, k, w);
    var S0 := Xor(Xor(RotR(a, 2), RotR(a, 13)), RotR(a, 22));
    var maj := Xor(Xor(And(a, b), And(a, c)), And(b, c));
    var t2 := Uint32(Signed(S0) + Signed(maj));
    PairSum(S0, maj);
    hh := g;
    g := f;
    f := e;
    e := Plus(d, t1);
    d := c;
    c := b;
    b := a;
    a := Plus(t1, t2);
    r := Working(a, b, c, d, e, f, g, hh);
    assert t1 == Plus(Plus(Plus(Plus(v.h, BigSigma1(v.e)), Ch(v.e, v.f, v.g)), k), w);
    assert t2 == Plus(BigSigma0(v.a), Maj(v.a, v.b, v.c));
  }

  /** Works one block into `h`, with rolling working variables. */
  method AddBlock(h: array<Word>, w: array<Word>, ghost m: seq<Word>)
    requires h.Length == 8 && w.Length == 64 && h != w
    requires |m| == 16 && w[..] == Schedule(m, 64)
    modifies h
    ensures Loaded(h[..]) == Compress(old(Loaded(h[..])), m)
  {
    var start := Load(h);
    var v := start;
    ghost var schedule := w[..];
    for i := 0 to 64
      invariant v == Rounds(start, schedule, i)
    {
      v := OneRound(v, K[i], w[i]);
    }
    var sum := Sum(start, v);
    Store(h, sum);
  }

  method Load(h: array<Word>) returns (v: Working)
    requires h.Length == 8
    ensures v == Loaded(h[..])
  {
    v := Working(h[0], h[1], h[2], h[3], h[4], h[5], h[6], h[7]);
  }

  method Store(h: array<Word>, v: Working)
    requires h.Length == 8
    modifies h
    ensures Loaded(h[..]) == v
  {
    h[0], h[1], h[2], h[3] := v.a, v.b, v.c, v.d;
    h[4], h[5], h[6], h[7] := v.e, v.f, v.g, v.h;
  }

  // ---- the whole digest ------------------------------------------------------

  /** Hash values of section 6.2.2, one block after the other. */
  ghost predicate IsChain(values: seq<Working>, view: seq<Byte>) {
    && 64 * |values| <= |view| + 64
    && forall n {:trigger Block(view, n)} ::
         0 <= n < |values| - 1 ==> values[n + 1] == Compress(values[n], Block(view, n))
  }

  lemma {:induction false} ChainOf(view: seq<Byte>, n: nat) returns (values: seq<Working>)
    requires 64 * n <= |view|
    ensures IsChain(values, view) && |values| == n + 1
    ensures values[0] == HashValue(view, 0) && values[n] == HashValue(view, n)
    decreases n
  {
    if n == 0 {
      values := [HashValue(view, 0)];
    } else {
      var before := ChainOf(view, n - 1);
      values := Extended(before, view, HashValue(view, n));
    }
  }

  lemma Extended(before: seq<Working>, view: seq<Byte>, next: Working) returns (values: seq<Working>)
    requires before != [] && IsChain(before, view) && 64 * |before| <= |view|
    requires next == Compress(before[|before| - 1], Block(view, |before| - 1))
    ensures IsChain(values, view) && values == before + [next]
  {
    values := before + [next];
  }

  method InitialValue() returns (h: array<Word>)
    ensures fresh(h) && h.Length == 8 && h[..] == INITIAL_HASH
  {
    h := new Word[8](i requires 0 <= i < 8 => INITIAL_HASH[i]);
  }

  method HashBlocks(view: seq<Byte>, ghost blocks: nat) returns (h: array<Word>)
    requires |view| == 64 * blocks
    ensures fresh(h) && h.Length == 8 && Loaded(h[..]) == HashValue(view, blocks)
  {
    h := InitialValue();
    var w := new Word[64](_ => 0);
    ghost var values := ChainOf(view, blocks);
    AddBlocks(h, w, view, values);
  }

  method AddBlocks(h: array<Word>, w: array<Word>, view: seq<Byte>, ghost values: seq<Working>)
    requires h.Length == 8 && w.Length == 64 && h != w
    requires IsChain(values, view) && 64 * |values| == |view| + 64 && Loaded(h[..]) == values[0]
    modifies h, w
    ensures Loaded(h[..]) == values[|values| - 1]
  {
    var off := 0;
    ghost var n := 0;
    while off < |view|
      invariant off == 64 * n && n < |values|
      invariant Loaded(h[..]) == values[n]
    {
      NextBlock(h, w, view, off, n, values);
      off := off + 64;
      n := n + 1;
    }
  }

  method NextBlock(h: array<Word>, w: array<Word>, view: seq<Byte>, off: nat, ghost n: nat, ghost values: seq<Working>)
    requires h.Length == 8 && w.Length == 64 && h != w
    requires off == 64 * n && n + 1 < |values| && IsChain(values, view) && Loaded(h[..]) == values[n]
    modifies h, w
    ensures Loaded(h[..]) == values[n + 1]
  {
    FillSchedule(w, view, off, n);
    AddBlock(h, w, Block(view, n));
  }

  method Output(h: array<Word>) returns (out: seq<Byte>)
    requires h.Length == 8
    ensures out == WordBytes(h[..])
  {
    out := [];
    for i := 0 to 8
      invariant out == WordBytes(h[..i])
    {
      assert h[..i + 1] == h[..i] + [h[i]];
      out := out + Be32(h[i]);
    }
    assert h[..8] == h[..];
  }

  lemma WholeBlocks(n: nat)
    requires n % 64 == 56
    ensures n + 8 == 64 * ((n + 8) / 64)
  {
    assert n == 64 * (n / 64) + 56;
  }

  lemma PaddedIsBlocks(data: seq<Byte>)
    ensures |Pad(data)| == 64 * (|Pad(data)| / 64)
  {
    WholeBlocks(|data| + 1 + ZeroBytes(|data|));
  }

  method DigestPadded(view: seq<Byte>, ghost data: seq<Byte>) returns (out: seq<Byte>)
    requires view == Pad(data)
    ensures out == Digest(data)
  {
    ghost var blocks := |view| / 64;
    PaddedIsBlocks(data);
    var h := HashBlocks(view, blocks);
    out := Output(h);
    StoredAsLoaded(h[..]);
    DigestIs(data, blocks);
  }

  lemma StoredAsLoaded(h: seq<Word>)
    requires |h| == 8
    ensures h == Stored(Loaded(h))
  {
  }

  lemma DigestIs(data: seq<Byte>, blocks: nat)
    requires blocks == |Pad(data)| / 64
    ensures Digest(data) == WordBytes(Stored(HashValue(Pad(data), blocks)))
  {
  }

  /** The digest of FIPS 180-4, or None where the original throws a RangeError. */
  method Sha256Sync(data: seq<Byte>) returns (digest: Option<seq<Byte>>)
    ensures digest == if |data| <= LONGEST then Some(Digest(data)) else None
  {
    var buffer := Padded(data);
    if buffer.None? { return None; }
    var out := DigestPadded(buffer.value[..], data);
    digest := Some(out);
  }
}
