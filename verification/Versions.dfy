/** `compareVersions` and `isNewer` of packages/protocol/src/updates.ts. */
module Versions {
  import opened Texts

  const DOT: Unit := 46
  const DASH: Unit := 45
  const PLUS: Unit := 43
  const V: Unit := 118

  // ---- taking a version apart --------------------------------------------------

  /** The position of the first u, or the length. */
  function Find(s: Text, u: Unit): (i: nat)
    ensures i <= |s| && u !in s[..i] && (i < |s| ==> s[i] == u)
  {
    if s == [] || s[0] == u then 0
    else
      var i := 1 + Find(s[1..], u);
      assert s[..i] == [s[0]] + s[1..][..i - 1];
      i
  }

  function Split(s: Text, u: Unit): (parts: seq<Text>)
    ensures |parts| > 0
    decreases |s|
  {
    var i := Find(s, u);
    if i == |s| then [s] else [s[..i]] + Split(s[i + 1..], u)
  }

  /** `Number.parseInt(part, 10) || 0`; the part has no dash in it. */
  function ParseInt(part: Text): nat {
    var s := TrimStart(part);
    Value(LeadingDigits(if s != [] && s[0] == PLUS then s[1..] else s))
  }

  datatype Version = Version(numbers: seq<nat>, pre: Text)

  /** Without the leading `v`, if there is one. */
  function Unprefixed(s: Text): Text { if s != [] && s[0] == V then s[1..] else s }

  function CoreNumbers(core: Text): seq<nat> {
    var parts := Split(core, DOT);
    seq(|parts|, i requires 0 <= i < |parts| => ParseInt(parts[i]))
  }

  function Parse(v: Text): Version {
    var clean := Unprefixed(Trim(v));
    var dash := Find(clean, DASH);
    Version(CoreNumbers(clean[..dash]), if dash == |clean| then [] else clean[dash + 1..])
  }

  // ---- the order on numbers ------------------------------------------------------

  function NumberAt(numbers: seq<nat>, i: nat): nat { if i < |numbers| then numbers[i] else 0 }

  function Longer(a: nat, b: nat): nat { if a >= b then a else b }

  /** The numbers from position i up to n; missing ones are 0. */
  function CompareNumbers(l: seq<nat>, r: seq<nat>, i: nat, n: nat): (c: int)
    requires i <= n
    ensures -1 <= c <= 1
    decreases n - i
  {
    if i == n then 0
    else if NumberAt(l, i) != NumberAt(r, i) then Sign(NumberAt(l, i) - NumberAt(r, i))
    else CompareNumbers(l, r, i + 1, n)
  }

  lemma {:induction false} NumbersBeyond(l: seq<nat>, r: seq<nat>, i: nat, n: nat, m: nat)
    requires i <= n <= m && |l| <= n && |r| <= n
    ensures CompareNumbers(l, r, i, m) == CompareNumbers(l, r, i, n)
    decreases m - i
  {
    if i < m {
      if i < n {
        NumbersBeyond(l, r, i + 1, n, m);
      } else {
        NumbersBeyond(l, r, i + 1, n + 1, m);
      }
    }
  }

  lemma {:induction false} NumbersAntisymmetric(l: seq<nat>, r: seq<nat>, i: nat, n: nat)
    requires i <= n
    ensures CompareNumbers(r, l, i, n) == -CompareNumbers(l, r, i, n)
    decreases n - i
  {
    if i < n {
      NumbersAntisymmetric(l, r, i + 1, n);
    }
  }

  lemma {:induction false} NumbersTransitive(a: seq<nat>, b: seq<nat>, c: seq<nat>, i: nat, n: nat)
    requires i <= n && CompareNumbers(a, b, i, n) <= 0 && CompareNumbers(b, c, i, n) <= 0
    ensures CompareNumbers(a, c, i, n) <= 0
    ensures CompareNumbers(a, c, i, n) == 0 <==> CompareNumbers(a, b, i, n) == 0 && CompareNumbers(b, c, i, n) == 0
    decreases n - i
  {
    if i < n && NumberAt(a, i) == NumberAt(b, i) == NumberAt(c, i) {
      NumbersTransitive(a, b, c, i + 1, n);
    }
  }

  // ---- the order on suffixes -----------------------------------------------------

  /** Runs of digits and runs of anything else, in turn. */
  function RunLength(s: Text): (k: nat)
    requires s != []
    ensures 1 <= k <= |s|
    ensures forall i :: 0 <= i < k ==> IsDigit(s[i]) == IsDigit(s[0])
    ensures k < |s| ==> IsDigit(s[k]) != IsDigit(s[0])
  {
    if |s| == 1 || IsDigit(s[1]) != IsDigit(s[0]) then 1 else 1 + RunLength(s[1..])
  }

  function Chunks(s: Text): seq<Text>
    decreases |s|
  {
    if s == [] then [] else [s[..RunLength(s)]] + Chunks(s[RunLength(s)..])
  }

  predicate IsRun(c: Text) { c != [] && (AllDigits(c) || NoDigits(c)) }

  function Join(chunks: seq<Text>): Text {
    if chunks == [] then [] else chunks[0] + Join(chunks[1..])
  }

  ghost predicate AllRuns(chunks: seq<Text>) {
    forall i :: 0 <= i < |chunks| ==> IsRun(chunks[i])
  }

  /** Together the chunks are the text. */
  lemma {:induction false} ChunksJoin(s: Text)
    ensures Join(Chunks(s)) == s
    decreases |s|
  {
    if s != [] {
      ChunksJoin(s[RunLength(s)..]);
    }
  }

  lemma {:induction false} ChunksAreRuns(s: Text)
    ensures AllRuns(Chunks(s))
    decreases |s|
  {
    if s != [] {
      var run := s[..RunLength(s)];
      ChunksAreRuns(s[RunLength(s)..]);
      assert IsRun(run) by { assert run[0] == s[0]; }
    }
  }

  /** Two chunks in a row are of different kinds, so none could be longer. */
  lemma {:induction false} ChunksAlternate(s: Text, i: nat)
    requires i + 1 < |Chunks(s)|
    ensures Chunks(s)[i] != [] && Chunks(s)[i + 1] != [] && IsDigit(Chunks(s)[i][0]) != IsDigit(Chunks(s)[i + 1][0])
    decreases |s|
  {
    var rest := s[RunLength(s)..];
    if i > 0 {
      ChunksAlternate(rest, i - 1);
    } else {
      assert Chunks(s)[0] == s[..RunLength(s)] && Chunks(s)[1] == Chunks(rest)[0] == rest[..RunLength(rest)];
    }
  }

  function CompareChunk(a: Text, b: Text): (c: int)
    ensures -1 <= c <= 1
  {
    if AllDigits(a) && AllDigits(b) then Sign(Value(a) - Value(b)) else CompareText(a, b)
  }

  lemma ChunkAntisymmetric(a: Text, b: Text)
    ensures CompareChunk(b, a) == -CompareChunk(a, b) && CompareChunk(a, a) == 0
  {
    TextAntisymmetric(a, b);
    TextSame(a, a);
  }

  /** Against a run of the other kind, all runs of digits compare alike: the first character decides. */
  lemma FirstDecides(d: Text, s: Text)
    requires d != [] && s != [] && AllDigits(d) && NoDigits(s)
    ensures CompareChunk(d, s) == (if s[0] < 48 then 1 else -1) && CompareChunk(s, d) == (if s[0] < 48 then -1 else 1)
  {
    TextAntisymmetric(d, s);
    assert IsDigit(d[0]) && !IsDigit(s[0]);
  }

  lemma ChunkTransitive(a: Text, b: Text, c: Text)
    requires IsRun(a) && IsRun(b) && IsRun(c) && CompareChunk(a, b) <= 0 && CompareChunk(b, c) <= 0
    ensures CompareChunk(a, c) <= 0
    ensures CompareChunk(a, c) == 0 <==> CompareChunk(a, b) == 0 && CompareChunk(b, c) == 0
  {
    if AllDigits(a) {
      if AllDigits(b) {
        if !AllDigits(c) { FirstDecides(a, c); FirstDecides(b, c); }
      } else {
        FirstDecides(a, b);
        if AllDigits(c) { FirstDecides(c, b); } else { NoDigitsTransitive(a, b, c); }
      }
    } else if AllDigits(b) {
      FirstDecides(b, a);
      if AllDigits(c) { FirstDecides(c, a); } else { FirstDecides(b, c); }
    } else {
      NoDigitsTransitive(a, b, c);
    }
  }

  lemma NoDigitsTransitive(a: Text, b: Text, c: Text)
    requires IsRun(a) && IsRun(b) && IsRun(c) && !AllDigits(b) && CompareChunk(a, b) <= 0 && CompareChunk(b, c) <= 0
    requires !AllDigits(a) || !AllDigits(c)
    ensures CompareChunk(a, c) <= 0
    ensures CompareChunk(a, c) == 0 <==> CompareChunk(a, b) == 0 && CompareChunk(b, c) == 0
  {
    TextSame(a, b);
    TextSame(b, c);
    TextSame(a, c);
    if CompareText(a, b) < 0 && CompareText(b, c) < 0 { TextTransitive(a, b, c); }
  }

  function CompareChunks(l: seq<Text>, r: seq<Text>): (c: int)
    ensures -1 <= c <= 1
  {
    if l == [] && r == [] then 0
    else if l == [] then -1
    else if r == [] then 1
    else if CompareChunk(l[0], r[0]) != 0 then CompareChunk(l[0], r[0])
    else CompareChunks(l[1..], r[1..])
  }

  lemma {:induction false} ChunksAntisymmetric(l: seq<Text>, r: seq<Text>)
    ensures CompareChunks(r, l) == -CompareChunks(l, r)
  {
    if l != [] && r != [] {
      ChunkAntisymmetric(l[0], r[0]);
      ChunksAntisymmetric(l[1..], r[1..]);
    }
  }

  lemma {:induction false} ChunksTransitive(a: seq<Text>, b: seq<Text>, c: seq<Text>)
    requires AllRuns(a) && AllRuns(b) && AllRuns(c) && CompareChunks(a, b) <= 0 && CompareChunks(b, c) <= 0
    ensures CompareChunks(a, c) <= 0
    ensures CompareChunks(a, c) == 0 <==> CompareChunks(a, b) == 0 && CompareChunks(b, c) == 0
  {
    if a != [] && b != [] && c != [] {
      ChunkTransitive(a[0], b[0], c[0]);
      if CompareChunk(a[0], b[0]) == 0 && CompareChunk(b[0], c[0]) == 0 {
        ChunksTransitive(a[1..], b[1..], c[1..]);
      }
    }
  }

  // ---- the order on versions -----------------------------------------------------

  function ComparePre(l: Text, r: Text): (c: int)
    ensures -1 <= c <= 1
  {
    if l == r then 0 else if l == [] then 1 else if r == [] then -1 else CompareChunks(Chunks(l), Chunks(r))
  }

  function Compare(a: Text, b: Text): (c: int)
    ensures -1 <= c <= 1
  {
    CompareParsed(Parse(a), Parse(b))
  }

  function CompareParsed(l: Version, r: Version): (c: int)
    ensures -1 <= c <= 1
  {
    var c := CompareNumbers(l.numbers, r.numbers, 0, Longer(|l.numbers|, |r.numbers|));
    if c != 0 then c else ComparePre(l.pre, r.pre)
  }

  /** The function as written, loop by loop. */
  method CompareVersions(a: Text, b: Text) returns (c: int)
    ensures c == Compare(a, b)
  {
    var left, right := Parse(a), Parse(b);
    var length := Longer(|left.numbers|, |right.numbers|);
    for i := 0 to length
      invariant CompareNumbers(left.numbers, right.numbers, 0, length)
             == CompareNumbers(left.numbers, right.numbers, i, length)
    {
      var diff: int := NumberAt(left.numbers, i) - NumberAt(right.numbers, i);
      if diff != 0 { return if diff > 0 then 1 else -1; }
    }
    if left.pre == right.pre { return 0; }
    if left.pre == [] { return 1; }
    if right.pre == [] { return -1; }
    c := CompareParts(Chunks(left.pre), Chunks(right.pre));
  }

  method CompareParts(left: seq<Text>, right: seq<Text>) returns (c: int)
    ensures c == CompareChunks(left, right)
  {
    for i := 0 to Longer(|left|, |right|)
      invariant i <= |left| && i <= |right| && CompareChunks(left, right) == CompareChunks(left[i..], right[i..])
    {
      if i >= |left| { return -1; }
      if i >= |right| { return 1; }
      var a, b := left[i], right[i];
      assert left[i..][1..] == left[i + 1..] && right[i..][1..] == right[i + 1..];
      if AllDigits(a) && AllDigits(b) {
        var diff: int := Value(a) - Value(b);
        if diff != 0 { return if diff > 0 then 1 else -1; }
        continue;
      }
      TextSame(a, b);
      if a != b { return if CompareText(a, b) > 0 then 1 else -1; }
    }
    c := 0;
  }

  lemma ParsedReflexive(v: Version)
    ensures CompareParsed(v, v) == 0
  {
    NumbersAntisymmetric(v.numbers, v.numbers, 0, |v.numbers|);
  }

  lemma ParsedAntisymmetric(l: Version, r: Version)
    ensures CompareParsed(r, l) == -CompareParsed(l, r)
  {
    NumbersAntisymmetric(l.numbers, r.numbers, 0, Longer(|l.numbers|, |r.numbers|));
    ChunksAntisymmetric(Chunks(l.pre), Chunks(r.pre));
  }

  lemma {:induction false} ChunksReflexive(s: seq<Text>)
    ensures CompareChunks(s, s) == 0
  {
    ChunksAntisymmetric(s, s);
  }

  lemma PreTransitive(a: Text, b: Text, c: Text)
    requires ComparePre(a, b) <= 0 && ComparePre(b, c) <= 0
    ensures ComparePre(a, c) <= 0
    ensures ComparePre(a, c) == 0 <==> ComparePre(a, b) == 0 && ComparePre(b, c) == 0
  {
    if a != [] && b != [] && c != [] {
      ChunksAreRuns(a);
      ChunksAreRuns(b);
      ChunksAreRuns(c);
      ChunksReflexive(Chunks(a));
      ChunksReflexive(Chunks(b));
      ChunksTransitive(Chunks(a), Chunks(b), Chunks(c));
    }
  }

  lemma ParsedTransitive(a: Version, b: Version, c: Version)
    requires CompareParsed(a, b) <= 0 && CompareParsed(b, c) <= 0
    ensures CompareParsed(a, c) <= 0
    ensures CompareParsed(a, c) == 0 <==> CompareParsed(a, b) == 0 && CompareParsed(b, c) == 0
  {
    var (x, y, z) := (a.numbers, b.numbers, c.numbers);
    var n := Longer(Longer(|x|, |y|), |z|);
    NumbersBeyond(x, y, 0, Longer(|x|, |y|), n);
    NumbersBeyond(y, z, 0, Longer(|y|, |z|), n);
    NumbersBeyond(x, z, 0, Longer(|x|, |z|), n);
    NumbersTransitive(x, y, z, 0, n);
    if CompareNumbers(x, y, 0, n) == 0 && CompareNumbers(y, z, 0, n) == 0 {
      PreTransitive(a.pre, b.pre, c.pre);
    }
  }

  lemma Reflexive(a: Text)
    ensures Compare(a, a) == 0
  {
    ParsedReflexive(Parse(a));
  }

  lemma Antisymmetric(a: Text, b: Text)
    ensures Compare(b, a) == -Compare(a, b)
  {
    ParsedAntisymmetric(Parse(a), Parse(b));
  }

  /** Transitive, and strictly so unless both steps are ties: a total preorder. */
  lemma Transitive(a: Text, b: Text, c: Text)
    ensures Compare(a, b) <= 0 && Compare(b, c) <= 0 ==> Compare(a, c) <= 0
    ensures Compare(a, b) <= 0 && Compare(b, c) <= 0 && Compare(a, c) == 0 ==> Compare(a, b) == 0 && Compare(b, c) == 0
  {
    if Compare(a, b) <= 0 && Compare(b, c) <= 0 { ParsedTransitive(Parse(a), Parse(b), Parse(c)); }
  }

  predicate IsNewer(candidate: Text, current: Text) { Compare(candidate, current) > 0 }

  /** No version is newer than itself, and "newer" has no cycles. */
  lemma NewerIsAnOrder(a: Text, b: Text, c: Text)
    ensures !IsNewer(a, a)
    ensures IsNewer(a, b) ==> !IsNewer(b, a)
    ensures IsNewer(a, b) && IsNewer(b, c) ==> IsNewer(a, c)
  {
    Reflexive(a);
    Antisymmetric(a, b);
    if IsNewer(a, b) && IsNewer(b, c) {
      Antisymmetric(b, c);
      Antisymmetric(a, c);
      Transitive(c, b, a);
    }
  }

  // ---- what the order says ---------------------------------------------------------

  lemma {:induction false} FindAfter(s: Text, rest: Text, u: Unit)
    requires u !in s
    ensures Find(s + [u] + rest, u) == |s| && Find(s, u) == |s|
  {
    if s != [] {
      assert (s + [u] + rest)[1..] == s[1..] + [u] + rest;
      FindAfter(s[1..], rest, u);
    }
  }

  lemma ParseCleaned(v: Text, clean: Text, core: Text, pre: Text)
    requires clean == Unprefixed(Trim(v))
    requires DASH !in core && ((clean == core && pre == []) || clean == core + [DASH] + pre)
    ensures Parse(v) == Version(CoreNumbers(core), pre)
  {
    FindAfter(core, pre, DASH);
    assert core[..|core|] == core;
    if clean != core {
      assert clean[..|core|] == core && clean[|core| + 1..] == pre;
    }
  }

  /** A release ranks above each of its previews, whatever white space is around the two. */
  lemma ReleaseAbovePreview(release: Text, preview: Text, pre: Text)
    requires DASH !in Trim(release) && pre != [] && Trim(preview) == Trim(release) + [DASH] + pre
    ensures Compare(release, preview) == 1 && Compare(preview, release) == -1
  {
    var core := Trim(release);
    var full := core + [DASH] + pre;
    var clean := Unprefixed(core);
    assert Unprefixed(full) == clean + [DASH] + pre;
    ParseCleaned(release, clean, clean, []);
    ParseCleaned(preview, clean + [DASH] + pre, clean, pre);
    ParsedReflexive(Parse(release));
    ParsedAntisymmetric(Parse(release), Parse(preview));
  }

  // ---- versions as people write them ---------------------------------------------------

  /** Numbers in decimal, with dots between them. */
  function Dotted(numbers: seq<nat>): (s: Text)
    requires numbers != []
    ensures s != [] && IsDigit(s[0]) && IsDigit(s[|s| - 1]) && DASH !in s
  {
    var d := Decimal(numbers[0]);
    if |numbers| == 1 then d else d + [DOT] + Dotted(numbers[1..])
  }

  lemma SplitFirst(part: Text, rest: Text)
    requires DOT !in part
    ensures Split(part, DOT) == [part] && Split(part + [DOT] + rest, DOT) == [part] + Split(rest, DOT)
  {
    FindAfter(part, rest, DOT);
    var s := part + [DOT] + rest;
    assert s[..|part|] == part && s[|part| + 1..] == rest;
  }

  function Decimals(numbers: seq<nat>): (parts: seq<Text>)
    ensures |parts| == |numbers| && forall i :: 0 <= i < |numbers| ==> parts[i] == Decimal(numbers[i])
  {
    if numbers == [] then [] else [Decimal(numbers[0])] + Decimals(numbers[1..])
  }

  lemma {:induction false} SplitDotted(numbers: seq<nat>)
    requires numbers != []
    ensures Split(Dotted(numbers), DOT) == Decimals(numbers)
    decreases |numbers|
  {
    var d := Decimal(numbers[0]);
    assert Decimals(numbers) == [d] + Decimals(numbers[1..]);
    if |numbers| == 1 {
      SplitFirst(d, []);
    } else {
      SplitFirst(d, Dotted(numbers[1..]));
      SplitDotted(numbers[1..]);
    }
  }

  /** `parseInt` skips white space and a plus sign, and reads up to what is no digit. */
  lemma ParseReads(space: Text, sign: Text, n: nat, rest: Text)
    requires AllSpace(space) && (sign == [] || sign == [PLUS]) && !StartsWithDigit(rest)
    ensures ParseInt(space + (sign + (Decimal(n) + rest))) == n
  {
    var number := Decimal(n) + rest;
    assert number[0] == Decimal(n)[0];
    assert sign == [] ==> sign + number == number;
    assert sign == [PLUS] ==> (sign + number)[1..] == number;
    TrimStartAfter(space, sign + number);
    LeadingDigitsOf(Decimal(n), rest);
    ValueOfDecimal(n);
  }

  lemma ParseDecimal(n: nat)
    ensures ParseInt(Decimal(n)) == n
  {
    ParseReads([], [], n, []);
    assert [] + ([] + (Decimal(n) + [])) == Decimal(n);
  }

  lemma NumbersOfDotted(numbers: seq<nat>)
    requires numbers != []
    ensures CoreNumbers(Dotted(numbers)) == numbers
  {
    SplitDotted(numbers);
    forall i | 0 <= i < |numbers|
      ensures CoreNumbers(Dotted(numbers))[i] == numbers[i]
    {
      ParseDecimal(numbers[i]);
    }
  }

  predicate AllSpace(s: Text) {
    forall i :: 0 <= i < |s| ==> IsSpace(s[i])
  }

  lemma {:induction false} TrimStartAfter(space: Text, s: Text)
    requires AllSpace(space) && s != [] && !IsSpace(s[0])
    ensures TrimStart(space + s) == s
  {
    if space == [] {
      assert space + s == s;
    } else {
      assert (space + s)[1..] == space[1..] + s;
      TrimStartAfter(space[1..], s);
    }
  }

  lemma {:induction false} TrimEndKeeps(s: Text, rest: Text)
    requires s != [] && !IsSpace(s[|s| - 1])
    ensures TrimEnd(s + rest) == s + TrimEnd(rest)
  {
    if rest == [] {
      assert s + rest == s;
    } else {
      assert (s + rest)[..|s + rest| - 1] == s + rest[..|rest| - 1];
      TrimEndKeeps(s, rest[..|rest| - 1]);
    }
  }

  lemma {:induction false} TrimEndOfSpace(space: Text)
    requires AllSpace(space)
    ensures TrimEnd(space) == []
  {
    if space != [] { TrimEndOfSpace(space[..|space| - 1]); }
  }

  predicate MayPrefix(vee: Text) { vee == [] || vee == [V] }

  /** What may stand around the numbers of a version: white space, a `v` before them, a suffix after them. */
  datatype Setting = Setting(before: Text, vee: Text, suffix: Text, after: Text) {
    predicate Valid() {
      AllSpace(before) && AllSpace(after) && MayPrefix(vee) && (suffix == [] || suffix[0] == DASH)
    }
  }

  predicate Writes(v: Text, numbers: seq<nat>, around: Setting) {
    && numbers != [] && around.Valid()
    && v == around.before + (around.vee + Dotted(numbers) + (around.suffix + around.after))
  }

  lemma TrimAround(before: Text, text: Text, tail: Text)
    requires AllSpace(before) && text != [] && !IsSpace(text[0]) && !IsSpace(text[|text| - 1])
    ensures Trim(before + (text + tail)) == text + TrimEnd(tail)
  {
    assert (text + tail)[0] == text[0];
    TrimStartAfter(before, text + tail);
    TrimEndKeeps(text, tail);
  }

  lemma Ends(vee: Text, core: Text)
    requires MayPrefix(vee) && core != [] && IsDigit(core[0]) && IsDigit(core[|core| - 1])
    ensures var text := vee + core; text != [] && !IsSpace(text[0]) && !IsSpace(text[|text| - 1])
  {
    assert (vee + core)[|vee| + |core| - 1] == core[|core| - 1];
  }

  lemma WithoutPrefix(text: Text, vee: Text, core: Text, rest: Text)
    requires MayPrefix(vee) && core != [] && IsDigit(core[0]) && text == vee + core
    ensures Unprefixed(text + rest) == core + rest
  {
    if vee == [] {
      assert text == core;
      assert (core + rest)[0] == core[0];
    } else {
      assert text + rest == [V] + (core + rest);
      assert ([V] + (core + rest))[1..] == core + rest;
    }
  }

  lemma Stripped(core: Text, before: Text, vee: Text, tail: Text)
    requires core != [] && IsDigit(core[0]) && IsDigit(core[|core| - 1])
    requires AllSpace(before) && MayPrefix(vee)
    ensures Unprefixed(Trim(before + (vee + core + tail))) == core + TrimEnd(tail)
  {
    var text := vee + core;
    Ends(vee, core);
    WithoutPrefix(text, vee, core, TrimEnd(tail));
    TrimAround(before, text, tail);
  }

  /** What is left of the suffix is none, or starts with its dash. */
  lemma TailTrimmed(suffix: Text, after: Text) returns (pre: Text)
    requires AllSpace(after) && (suffix == [] || suffix[0] == DASH)
    ensures TrimEnd(suffix + after) == if suffix == [] then [] else [DASH] + pre
  {
    pre := [];
    if suffix == [] {
      assert suffix + after == after;
      TrimEndOfSpace(after);
    } else {
      assert suffix + after == [DASH] + (suffix[1..] + after);
      TrimEndKeeps([DASH], suffix[1..] + after);
      pre := TrimEnd(suffix[1..] + after);
    }
  }

  /** However a version is written, its numbers are read back. */
  lemma NumbersAreRead(v: Text, numbers: seq<nat>, around: Setting)
    requires Writes(v, numbers, around)
    ensures Parse(v).numbers == numbers
  {
    var core := Dotted(numbers);
    Stripped(core, around.before, around.vee, around.suffix + around.after);
    var pre := TailTrimmed(around.suffix, around.after);
    NumbersOfDotted(numbers);
    if around.suffix == [] {
      assert core + [] == core;
      ParseCleaned(v, core, core, []);
    } else {
      Associative(core, [DASH], pre);
      ParseCleaned(v, core + [DASH] + pre, core, pre);
    }
  }

  lemma {:induction false} FirstDifferenceDecides(l: seq<nat>, r: seq<nat>, i: nat, k: nat, n: nat)
    requires i <= k < n && NumberAt(l, k) > NumberAt(r, k)
    requires forall m: nat :: m < k ==> NumberAt(l, m) == NumberAt(r, m)
    ensures CompareNumbers(l, r, i, n) == 1
    decreases k - i
  {
    if i < k {
      assert NumberAt(l, i) == NumberAt(r, i);
      FirstDifferenceDecides(l, r, i + 1, k, n);
    }
  }

  /**
   * Of two versions that agree on their numbers before position k, missing ones counting as 0, the
   * one with the larger number there is the newer one, whatever their suffixes: `0.10.0` over `0.9.0`.
   */
  lemma LargerNumberIsNewer(a: Text, b: Text, l: seq<nat>, r: seq<nat>, k: nat, aroundA: Setting, aroundB: Setting)
    requires Writes(a, l, aroundA) && Writes(b, r, aroundB)
    requires forall i :: 0 <= i < k ==> (if i < |l| then l[i] else 0) == if i < |r| then r[i] else 0
    requires k < |l| && l[k] > if k < |r| then r[k] else 0
    ensures Compare(a, b) == 1 && Compare(b, a) == -1 && IsNewer(a, b)
  {
    NumbersAreRead(a, l, aroundA);
    NumbersAreRead(b, r, aroundB);
    assert forall m: nat :: m < k ==> NumberAt(l, m) == NumberAt(r, m);
    FirstDifferenceDecides(l, r, 0, k, Longer(|l|, |r|));
    Antisymmetric(a, b);
  }

  // ---- what suffixes say -------------------------------------------------------------

  predicate EndsInDigit(s: Text) { s != [] && IsDigit(s[|s| - 1]) }
  predicate StartsWithDigit(s: Text) { s != [] && IsDigit(s[0]) }

  /** Where the kind of character changes, the chunks fall apart. */
  lemma {:induction false} ChunksOfJoin(a: Text, b: Text)
    requires a != [] && b != [] ==> IsDigit(a[|a| - 1]) != IsDigit(b[0])
    ensures Chunks(a + b) == Chunks(a) + Chunks(b)
    decreases |a|
  {
    if a == [] {
      assert a + b == b;
    } else if b == [] {
      assert a + b == a;
    } else {
      SameRun(a, b);
      var (run, rest) := (a[..RunLength(a)], a[RunLength(a)..]);
      assert a == run + rest;
      ChunksOfJoin(rest, b);
      FirstRun(a, run, rest);
      Associative(run, rest, b);
      FirstRun(a + b, run, rest + b);
      Associative([run], Chunks(rest), Chunks(b));
    }
  }

  lemma FirstRun(s: Text, run: Text, rest: Text)
    requires s != [] && s == run + rest && RunLength(s) == |run|
    ensures Chunks(s) == [run] + Chunks(rest)
  {
    assert s[..|run|] == run && s[|run|..] == rest;
  }

  lemma {:induction false} SameRun(a: Text, b: Text)
    requires a != [] && b != [] && IsDigit(a[|a| - 1]) != IsDigit(b[0])
    ensures RunLength(a + b) == RunLength(a)
    decreases |a|
  {
    if |a| > 1 {
      assert (a + b)[1..] == a[1..] + b;
      SameRun(a[1..], b);
    }
  }

  lemma {:induction false} SamePrefix(p: seq<Text>, l: seq<Text>, r: seq<Text>)
    ensures CompareChunks(p + l, p + r) == CompareChunks(l, r)
  {
    if p == [] {
      assert p + l == l && p + r == r;
    } else {
      ChunkAntisymmetric(p[0], p[0]);
      assert (p + l)[1..] == p[1..] + l && (p + r)[1..] == p[1..] + r;
      SamePrefix(p[1..], l, r);
    }
  }

  /** In a suffix runs of digits count by value: `main.9` and `main.09` come before `main.10`. */
  lemma NumbersInSuffixesByValue(p: Text, x: Text, y: Text, s: Text, t: Text)
    requires x != [] && y != [] && AllDigits(x) && AllDigits(y) && Value(x) < Value(y)
    requires !EndsInDigit(p) && !StartsWithDigit(s) && !StartsWithDigit(t)
    ensures ComparePre(p + x + s, p + y + t) == -1
  {
    ChunkOfDigits(p, x, s);
    ChunkOfDigits(p, y, t);
    SamePrefix(Chunks(p), [x] + Chunks(s), [y] + Chunks(t));
    assert CompareChunk(x, y) == -1;
    ChunksReflexive(Chunks(p + x + s));
  }

  /**
   * And so do whole versions whose numbers tie, whatever white space is around them: `v1.2-rc.9`
   * comes before `1.2.0-rc.10`.
   */
  lemma NumbersInPreviewsByValue(a: Text, b: Text, core: Text, same: Text, p: Text, x: Text, y: Text, s: Text, t: Text)
    requires x != [] && y != [] && AllDigits(x) && AllDigits(y) && Value(x) < Value(y)
    requires !EndsInDigit(p) && !StartsWithDigit(s) && !StartsWithDigit(t)
    requires DASH !in core && Unprefixed(Trim(a)) == core + [DASH] + (p + x + s)
    requires DASH !in same && Unprefixed(Trim(b)) == same + [DASH] + (p + y + t)
    requires var (l, r) := (CoreNumbers(core), CoreNumbers(same)); CompareNumbers(l, r, 0, Longer(|l|, |r|)) == 0
    ensures Compare(a, b) == -1 && Compare(b, a) == 1
  {
    ParseCleaned(a, Unprefixed(Trim(a)), core, p + x + s);
    ParseCleaned(b, Unprefixed(Trim(b)), same, p + y + t);
    NumbersInSuffixesByValue(p, x, y, s, t);
    Antisymmetric(a, b);
  }

  /** A suffix comes before every longer one that goes on after it with a chunk of its own: `main` before `main.1`. */
  lemma LongerSuffixIsNewer(p: Text, s: Text)
    requires p != [] && s != [] && EndsInDigit(p) != StartsWithDigit(s)
    ensures ComparePre(p, p + s) == -1
  {
    ChunksOfJoin(p, s);
    SamePrefix(Chunks(p), [], Chunks(s));
    assert Chunks(p) + [] == Chunks(p);
    assert Chunks(s) == [s[..RunLength(s)]] + Chunks(s[RunLength(s)..]);
  }

  /** And where two suffixes first differ in a chunk of text, the code units decide: `alpha` before `beta`. */
  lemma TextInSuffixesByUnit(p: Text, x: Text, y: Text)
    requires x != [] && y != [] && NoDigits(x) && NoDigits(y) && (p == [] || EndsInDigit(p))
    requires CompareText(x, y) == -1
    ensures ComparePre(p + x, p + y) == -1
  {
    ChunksOfJoin(p, x);
    ChunksOfJoin(p, y);
    OneTextRun(x);
    OneTextRun(y);
    SamePrefix(Chunks(p), [x], [y]);
    TextSame(x, y);
    StillDiffer(p, x, y);
    ChunkPair(x, y);
  }

  lemma StillDiffer(p: Text, x: Text, y: Text)
    ensures p + x == p + y ==> x == y
  {
    assert (p + x)[|p|..] == x && (p + y)[|p|..] == y;
  }

  lemma ChunkPair(x: Text, y: Text)
    requires CompareChunk(x, y) != 0
    ensures CompareChunks([x], [y]) == CompareChunk(x, y)
  {
  }

  lemma OneTextRun(d: Text)
    requires d != [] && NoDigits(d)
    ensures Chunks(d) == [d]
  {
    assert RunLength(d) == |d|;
    assert d == d + [];
    FirstRun(d, d, []);
    assert Chunks([]) == [] && [d] + [] == [d];
  }

  lemma DigitsFirst(d: Text, s: Text)
    requires d != [] && AllDigits(d) && !StartsWithDigit(s)
    ensures Chunks(d + s) == [d] + Chunks(s)
  {
    OneRun(d);
    ChunksOfJoin(d, s);
  }

  lemma OneRun(d: Text)
    requires d != [] && AllDigits(d)
    ensures Chunks(d) == [d] && IsDigit(d[|d| - 1])
  {
    assert RunLength(d) == |d|;
    assert d == d + [];
    FirstRun(d, d, []);
    assert Chunks([]) == [] && [d] + [] == [d];
  }

  lemma ChunkOfDigits(p: Text, d: Text, s: Text)
    requires d != [] && AllDigits(d) && !EndsInDigit(p) && !StartsWithDigit(s)
    ensures Chunks(p + d + s) == Chunks(p) + ([d] + Chunks(s))
  {
    DigitsFirst(d, s);
    assert (d + s)[0] == d[0];
    Associative(p, d, s);
    ChunksOfJoin(p, d + s);
  }
}
