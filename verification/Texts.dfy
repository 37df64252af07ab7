/** JavaScript strings: sequences of 16-bit code units, ordered by code unit. */
module Texts {
  type Unit = x: int | 0 <= x < 0x10000
  type Text = seq<Unit>

  function Sign(x: int): int { if x > 0 then 1 else if x < 0 then -1 else 0 }

  /** The order of `<` and `>` on strings. */
  function CompareText(a: Text, b: Text): (r: int)
    ensures -1 <= r <= 1
  {
    if a == [] && b == [] then 0
    else if a == [] then -1
    else if b == [] then 1
    else if a[0] != b[0] then (if a[0] > b[0] then 1 else -1)
    else CompareText(a[1..], b[1..])
  }

  lemma {:induction false} TextSame(a: Text, b: Text)
    ensures CompareText(a, b) == 0 <==> a == b
  {
    if a != [] && b != [] && a[0] == b[0] {
      TextSame(a[1..], b[1..]);
      assert a == [a[0]] + a[1..] && b == [b[0]] + b[1..];
    }
  }

  lemma {:induction false} TextAntisymmetric(a: Text, b: Text)
    ensures CompareText(b, a) == -CompareText(a, b)
  {
    if a != [] && b != [] && a[0] == b[0] {
      TextAntisymmetric(a[1..], b[1..]);
    }
  }

  lemma {:induction false} TextTransitive(a: Text, b: Text, c: Text)
    requires CompareText(a, b) < 0 && CompareText(b, c) < 0
    ensures CompareText(a, c) < 0
  {
    if a != [] && a[0] == b[0] == c[0] {
      TextTransitive(a[1..], b[1..], c[1..]);
    }
  }

  /** The first difference decides, and a text comes before every longer one that starts with it. */
  lemma {:induction false} TextOrder(p: Text, s: Text, t: Text)
    requires t != [] && (s == [] || s[0] < t[0])
    ensures CompareText(p + s, p + t) == -1
  {
    if p == [] {
      assert p + s == s && p + t == t;
    } else {
      assert (p + s)[1..] == p[1..] + s && (p + t)[1..] == p[1..] + t;
      TextOrder(p[1..], s, t);
    }
  }

  lemma Associative<T>(a: seq<T>, b: seq<T>, c: seq<T>)
    ensures a + b + c == a + (b + c)
  {
  }

  // ---- white space ---------------------------------------------------------

  /** What `trim` and `parseInt` skip. */
  predicate IsSpace(u: Unit) {
    9 <= u <= 13 || u == 32 || u == 0xA0 || u == 0x1680 || 0x2000 <= u <= 0x200A || u == 0x2028 || u == 0x2029
    || u == 0x202F || u == 0x205F || u == 0x3000 || u == 0xFEFF
  }

  function TrimStart(s: Text): Text {
    if s != [] && IsSpace(s[0]) then TrimStart(s[1..]) else s
  }

  function TrimEnd(s: Text): Text {
    if s != [] && IsSpace(s[|s| - 1]) then TrimEnd(s[..|s| - 1]) else s
  }

  function Trim(s: Text): Text { TrimEnd(TrimStart(s)) }

  predicate EndsInSpace(s: Text) { s != [] && IsSpace(s[|s| - 1]) }

  lemma {:induction false} TrimEndIsPrefix(s: Text)
    ensures TrimEnd(s) <= s && !EndsInSpace(TrimEnd(s)) && (TrimEnd(s) == s <==> !EndsInSpace(s))
    ensures s != [] && !IsSpace(s[0]) ==> TrimEnd(s) != []
  {
    if EndsInSpace(s) { TrimEndIsPrefix(s[..|s| - 1]); }
  }

  lemma {:induction false} TrimStartStarts(s: Text)
    ensures TrimStart(s) != [] ==> !IsSpace(TrimStart(s)[0])
  {
    if s != [] && IsSpace(s[0]) { TrimStartStarts(s[1..]); }
  }

  /** A text in ASCII. */
  function OfAscii(s: string): Text
    requires forall i :: 0 <= i < |s| ==> s[i] as int < 0x80
  {
    seq(|s|, i requires 0 <= i < |s| => s[i] as int)
  }

  // ---- digits ----------------------------------------------------------------

  predicate IsDigit(u: Unit) { 48 <= u <= 57 }

  predicate AllDigits(s: Text) {
    forall i :: 0 <= i < |s| ==> IsDigit(s[i])
  }

  predicate NoDigits(s: Text) {
    forall i :: 0 <= i < |s| ==> !IsDigit(s[i])
  }

  /** The number a run of digits writes. */
  function Value(s: Text): nat
    requires AllDigits(s)
  {
    if s == [] then 0 else 10 * Value(s[..|s| - 1]) + (s[|s| - 1] - 48)
  }

  /** A number written in decimal. */
  function Decimal(n: nat): (s: Text)
    ensures s != [] && AllDigits(s)
  {
    if n < 10 then [48 + n] else Decimal(n / 10) + [48 + n % 10]
  }

  lemma {:induction false} ValueOfDecimal(n: nat)
    ensures Value(Decimal(n)) == n
  {
    if n >= 10 {
      ValueOfDecimal(n / 10);
      assert Decimal(n)[..|Decimal(n)| - 1] == Decimal(n / 10);
    }
  }

  function LeadingDigits(s: Text): (d: Text)
    ensures AllDigits(d)
  {
    if s != [] && IsDigit(s[0]) then [s[0]] + LeadingDigits(s[1..]) else []
  }

  lemma {:induction false} LeadingDigitsOf(d: Text, rest: Text)
    requires AllDigits(d) && (rest == [] || !IsDigit(rest[0]))
    ensures LeadingDigits(d + rest) == d
  {
    if d == [] {
      assert d + rest == rest;
    } else {
      assert (d + rest)[1..] == d[1..] + rest;
      LeadingDigitsOf(d[1..], rest);
    }
  }
}
