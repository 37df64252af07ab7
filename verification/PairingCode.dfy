/**
 * Pairing codes: packages/protocol/src/code.ts. `toUpperCase` is a parameter, what it makes of
 * each character; all that matters here is what it does to ASCII.
 */
module PairingCode {
  import opened Basics
  import opened Texts
  import Words
  import Sha256Spec
  import Sha256

  const PAYLOAD_CHARS: nat := 10
  const CODE_LENGTH: nat := 12
  const DASH: Unit := 45

  type Byte = Sha256Spec.Byte

  // ---- the alphabet: no I, L, O or U --------------------------------------------

  predicate IsCodeChar(u: int) {
    48 <= u <= 57 || (65 <= u <= 90 && u != 73 && u != 76 && u != 79 && u != 85)
  }

  type CodeChar = u: int | IsCodeChar(u) witness 48

  function Char(d: nat): CodeChar
    requires d < 32
  {
    if d < 10 then 48 + d else if d < 18 then 55 + d else if d < 20 then 56 + d else if d < 22 then 57 + d
    else if d < 27 then 58 + d else 59 + d
  }

  function Digit(u: CodeChar): (d: nat)
    ensures d < 32 && Char(d) == u
  {
    assert IsCodeChar(u);
    if u <= 57 then u - 48 else if u <= 72 then u - 55 else if u <= 75 then u - 56 else if u <= 78 then u - 57
    else if u <= 84 then u - 58 else u - 59
  }

  /** The 32 code characters in their order. */
  lemma AlphabetInOrder(d: nat, e: nat)
    requires d < e < 32
    ensures Char(d) < Char(e) && (e == d + 1 ==> forall u :: Char(d) < u < Char(e) ==> !IsCodeChar(u))
    ensures Char(0) == '0' as int && Char(31) == 'Z' as int
  {
  }

  // ---- the payload: the top 50 bits in base 32 -------------------------------------

  /** Seven bytes as one big-endian number, shorter prefixes alike. */
  function Number(bytes: seq<Byte>): nat {
    if bytes == [] then 0 else 256 * Number(bytes[..|bytes| - 1]) + bytes[|bytes| - 1]
  }

  function Top50(random: seq<Byte>): nat
    requires |random| >= 7
  {
    Number(random[..7]) / 64
  }

  function Base32(n: nat, k: nat): (s: seq<CodeChar>)
    ensures |s| == k
    decreases k, n
  {
    if k == 0 then [] else Base32(n / 32, k - 1) + [Char(n % 32)]
  }

  function FromBase32(s: seq<CodeChar>): nat {
    if s == [] then 0 else 32 * FromBase32(s[..|s| - 1]) + Digit(s[|s| - 1])
  }

  function Pow32(k: nat): (p: nat)
    ensures p > 0
  {
    if k == 0 then 1 else 32 * Pow32(k - 1)
  }

  lemma {:induction false} Base32Reads(n: nat, k: nat)
    requires n < Pow32(k)
    ensures FromBase32(Base32(n, k)) == n
    decreases k
  {
    if k > 0 {
      Base32Reads(n / 32, k - 1);
      var s := Base32(n, k);
      assert s[..|s| - 1] == Base32(n / 32, k - 1);
    }
  }

  lemma {:induction false} NumberBound(bytes: seq<Byte>)
    ensures Number(bytes) < Pow256(|bytes|)
  {
    if bytes != [] {
      NumberBound(bytes[..|bytes| - 1]);
    }
  }

  function Pow256(k: nat): nat {
    if k == 0 then 1 else 256 * Pow256(k - 1)
  }

  lemma Top50Fits(random: seq<Byte>)
    requires |random| >= 7
    ensures Top50(random) < Pow32(10)
  {
    NumberBound(random[..7]);
    assert Pow256(7) == 0x100_0000_0000_0000;
    assert Pow32(5) == 0x200_0000;
    assert Pow32(10) == 0x4_0000_0000_0000;
  }

  // ---- the loop that makes it, one five-bit group at a time --------------------------

  lemma {:induction false} DownTwice(x: nat, n: nat, m: nat)
    ensures Words.Down(x, n + m) == Words.Down(Words.Down(x, n), m)
    decreases n
  {
    if n > 0 {
      DownTwice(x / 2, n - 1, m);
    }
  }

  lemma DownFive(x: nat)
    ensures Words.Down(x, 5) == x / 32
  {
    var (a, b) := (x / 2, x / 4);
    var (c, d) := (x / 8, x / 16);
    assert Words.Down(d, 1) == Words.Down(x / 32, 0);
    assert Words.Down(b, 3) == Words.Down(c, 2) == Words.Down(d, 1);
    assert Words.Down(x, 5) == Words.Down(a, 4) == Words.Down(b, 3);
  }

  lemma {:induction false} GroupAt(n: nat, k: nat, i: nat)
    requires i < k
    ensures Base32(n, k)[i] == Char(Words.Down(n, 5 * (k - 1 - i)) % 32)
    decreases k
  {
    if i < k - 1 {
      GroupAt(n / 32, k - 1, i);
      DownFive(n);
      DownTwice(n, 5, 5 * (k - 2 - i));
    }
  }

  lemma NextGroup(acc: nat, i: nat)
    requires i < PAYLOAD_CHARS
    ensures Base32(acc / 64, PAYLOAD_CHARS)[i] == Char(Words.Down(acc, 56 - 5 * (i + 1)) % 32)
  {
    SixBits(acc);
    DownTwice(acc, 6, 5 * (9 - i));
    GroupAt(acc / 64, PAYLOAD_CHARS, i);
  }

  method Payload(random: seq<Byte>) returns (payload: seq<CodeChar>)
    requires |random| >= 7
    ensures payload == Base32(Top50(random), PAYLOAD_CHARS)
  {
    var acc: nat := 0;
    for i := 0 to 7
      invariant acc == Number(random[..i])
    {
      assert random[..i + 1][..i] == random[..i];
      acc := 256 * acc + random[i];
    }
    payload := [];
    ghost var top := acc / 64;
    for i := 0 to PAYLOAD_CHARS
      invariant payload == Base32(top, PAYLOAD_CHARS)[..i]
    {
      var shift := 56 - 5 * (i + 1);
      NextGroup(acc, i);
      payload := payload + [Char(Words.Down(acc, shift) % 32)];
    }
  }

  lemma SixBits(x: nat)
    ensures Words.Down(x, 6) == x / 64
  {
    DownTwice(x, 5, 1);
    DownFive(x);
    assert Words.Down(x / 32, 1) == Words.Down(x / 32 / 2, 0);
  }

  // ---- check characters --------------------------------------------------------------

  /** The bytes of `notifyjs/code/v1|`. */
  const PREFIX: seq<Byte> := [110, 111, 116, 105, 102, 121, 106, 115, 47, 99, 111, 100, 101, 47, 118, 49, 124]

  function Bytes(s: seq<CodeChar>): seq<Byte> {
    seq(|s|, i requires 0 <= i < |s| => s[i])
  }

  lemma PrefixReads(i: nat)
    requires i < 17
    ensures |PREFIX| == 17 && PREFIX[i] == "notifyjs/code/v1|"[i] as int
  {
  }

  /** What the check characters are; the lemmas below hold for any such function. */
  function ShaCheck(payload: seq<CodeChar>): seq<CodeChar> {
    var h := Sha256Spec.Digest(PREFIX + Bytes(payload));
    [Char(h[0] % 32), Char(h[1] % 32)]
  }

  method CheckChars(payload: seq<CodeChar>) returns (check: seq<CodeChar>)
    requires |payload| == PAYLOAD_CHARS
    ensures check == ShaCheck(payload)
    ensures var h := Sha256Spec.Digest(PREFIX + Bytes(payload));
      |check| == 2 && Digit(check[0]) == h[0] % 32 && Digit(check[1]) == h[1] % 32
  {
    var h := Sha256.Sha256Sync(PREFIX + Bytes(payload));
    check := [Char(h.value[0] % 32), Char(h.value[1] % 32)];
  }

  // ---- grouping ------------------------------------------------------------------------

  /** A dash after every four characters that are followed by another. */
  function Group(s: Text): Text {
    if |s| <= 4 then s else s[..4] + [DASH] + Group(s[4..])
  }

  /** Every fifth character is a dash, none at the end, and the others are the text. */
  lemma {:induction false} GroupedAt(s: Text, i: nat)
    ensures |Group(s)| == if s == [] then 0 else |s| + (|s| - 1) / 4
    ensures i < |Group(s)| ==>
      (i % 5 == 4 || i - i / 5 < |s|) && Group(s)[i] == if i % 5 == 4 then DASH else s[i - i / 5]
    decreases |s|
  {
    if |s| > 4 { GroupedAt(s[4..], if i >= 5 then i - 5 else 0); }
  }

  method EncodePairingCode(random: seq<Byte>) returns (code: Option<Text>)
    ensures code == Encoded(random, ShaCheck)
  {
    if |random| < 7 { return None; }
    var payload := Payload(random);
    var check := CheckChars(payload);
    code := Some(Group(payload + check));
  }

  /** None is the error thrown for fewer than seven bytes. */
  function Encoded(random: seq<Byte>, check: seq<CodeChar> -> seq<CodeChar>): Option<Text> {
    if |random| < 7 then None
    else
      var payload := Base32(Top50(random), PAYLOAD_CHARS);
      Some(Group(payload + check(payload)))
  }

  // ---- what a person types ---------------------------------------------------------------

  predicate IsAlnum(u: Unit) { 48 <= u <= 57 || 65 <= u <= 90 }

  /** `toUpperCase`, character by character: on ASCII it raises the letters and leaves the rest. */
  ghost predicate Uppercases(upper: Unit -> Text) {
    forall u: Unit :: u < 128 ==> upper(u) == [if 97 <= u <= 122 then u - 32 else u]
  }

  function Upper(s: Text, upper: Unit -> Text): Text {
    if s == [] then [] else Upper(s[..|s| - 1], upper) + upper(s[|s| - 1])
  }

  function Alnum(s: Text): Text {
    if s == [] then [] else Alnum(s[..|s| - 1]) + if IsAlnum(s[|s| - 1]) then [s[|s| - 1]] else []
  }

  /** O is read as 0, I and L as 1, U as V. */
  function Canon(u: Unit): Unit {
    if u == 79 then 48 else if u == 73 || u == 76 then 49 else if u == 85 then 86 else u
  }

  function Mapped(s: Text): Text {
    seq(|s|, i requires 0 <= i < |s| => Canon(s[i]))
  }

  function NormalizePairingCode(input: Text, upper: Unit -> Text): Text {
    Mapped(Alnum(Upper(input, upper)))
  }

  function FormatPairingCode(raw: Text, upper: Unit -> Text): Text {
    var kept := Alnum(Upper(raw, upper));
    Group(if |kept| > CODE_LENGTH then kept[..CODE_LENGTH] else kept)
  }

  predicate AllAlnum(s: Text) { forall i :: 0 <= i < |s| ==> IsAlnum(s[i]) }
  predicate AllCode(s: Text) { forall i :: 0 <= i < |s| ==> IsCodeChar(s[i]) }

  function AsCode(s: Text): seq<CodeChar>
    requires AllCode(s)
  {
    s
  }

  /** Twelve code characters, the last two the check of the first ten. */
  predicate WellFormed(norm: Text, check: seq<CodeChar> -> seq<CodeChar>) {
    |norm| == CODE_LENGTH && AllCode(norm) && check(AsCode(norm[..PAYLOAD_CHARS])) == norm[PAYLOAD_CHARS..]
  }

  method IsPairingCodeValid(input: Text, upper: Unit -> Text) returns (valid: bool)
    ensures valid <==> WellFormed(NormalizePairingCode(input, upper), ShaCheck)
  {
    var norm := NormalizePairingCode(input, upper);
    if |norm| != CODE_LENGTH { return false; }
    for i := 0 to |norm|
      invariant AllCode(norm[..i])
    {
      if !IsCodeChar(norm[i]) { return false; }
    }
    assert norm[..|norm|] == norm;
    var check := CheckChars(AsCode(norm[..PAYLOAD_CHARS]));
    valid := check == norm[PAYLOAD_CHARS..];
  }

  // ---- lemmas about the filters --------------------------------------------------------------

  lemma {:induction false} UpperAppend(s: Text, t: Text, upper: Unit -> Text)
    ensures Upper(s + t, upper) == Upper(s, upper) + Upper(t, upper)
  {
    if t == [] {
      assert s + t == s;
    } else {
      UpperAppend(s, t[..|t| - 1], upper);
      assert (s + t)[..|s + t| - 1] == s + t[..|t| - 1];
      Associative(Upper(s, upper), Upper(t[..|t| - 1], upper), upper(t[|t| - 1]));
    }
  }

  lemma {:induction false} AlnumAppend(s: Text, t: Text)
    ensures Alnum(s + t) == Alnum(s) + Alnum(t)
  {
    if t == [] {
      assert s + t == s;
    } else {
      AlnumAppend(s, t[..|t| - 1]);
      assert (s + t)[..|s + t| - 1] == s + t[..|t| - 1];
    }
  }

  lemma {:induction false} AlnumIsAlnum(s: Text)
    ensures AllAlnum(Alnum(s))
  {
    if s != [] {
      AlnumIsAlnum(s[..|s| - 1]);
    }
  }

  /** What is already upper-case and alphanumeric passes both filters unchanged. */
  lemma {:induction false} AlnumStays(s: Text, upper: Unit -> Text)
    requires AllAlnum(s) && Uppercases(upper)
    ensures Upper(s, upper) == s && Alnum(s) == s
  {
    if s != [] {
      AlnumStays(s[..|s| - 1], upper);
      assert s == s[..|s| - 1] + [s[|s| - 1]];
    }
  }

  /** Grouping is exactly what the filters take away again. */
  lemma {:induction false} GroupingVanishes(s: Text, upper: Unit -> Text)
    requires AllAlnum(s) && Uppercases(upper)
    ensures Alnum(Upper(Group(s), upper)) == s
    decreases |s|
  {
    if |s| <= 4 {
      AlnumStays(s, upper);
    } else {
      GroupingVanishes(s[4..], upper);
      AlnumStays(s[..4], upper);
      DashVanishes(s[..4], Group(s[4..]), upper);
      assert s == s[..4] + s[4..];
    }
  }

  lemma DashVanishes(s: Text, t: Text, upper: Unit -> Text)
    requires Uppercases(upper)
    ensures Alnum(Upper(s + [DASH] + t, upper)) == Alnum(Upper(s, upper)) + Alnum(Upper(t, upper))
  {
    Upper1(DASH, upper);
    Alnum1(DASH);
    UpperAppend(s + [DASH], t, upper);
    UpperAppend(s, [DASH], upper);
    AlnumAppend(Upper(s, upper) + [DASH], Upper(t, upper));
    AlnumAppend(Upper(s, upper), [DASH]);
  }

  lemma Upper1(u: Unit, upper: Unit -> Text)
    ensures Upper([u], upper) == upper(u)
  {
    assert [u][..0] == [] && Upper([], upper) == [];
  }

  lemma Alnum1(u: Unit)
    ensures Alnum([u]) == if IsAlnum(u) then [u] else []
  {
    assert [u][..0] == [] && Alnum([]) == [];
  }

  /** How one typed character is read; everything that is no letter and no digit is skipped. */
  function ReadAs(c: char): Text
    requires c < 128 as char
  {
    if c == 'o' || c == 'O' then ['0' as int]
    else if c == 'i' || c == 'I' || c == 'l' || c == 'L' then ['1' as int]
    else if c == 'u' || c == 'U' then ['V' as int]
    else if 'a' <= c <= 'z' then [c as int - 32]
    else if 'A' <= c <= 'Z' || '0' <= c <= '9' then [c as int]
    else []
  }

  /** What is typed is read character by character: no case, no grouping, and look-alikes as what they look like. */
  lemma ReadsCharacters(a: Text, c: char, b: Text, upper: Unit -> Text)
    requires Uppercases(upper) && c < 128 as char
    ensures NormalizePairingCode(a + [c as int] + b, upper)
      == NormalizePairingCode(a, upper) + ReadAs(c) + NormalizePairingCode(b, upper)
  {
    NormalizeAppend(a + [c as int], b, upper);
    NormalizeAppend(a, [c as int], upper);
    NormalizeOne(c, upper);
  }

  function Raised(u: Unit): Unit { if 97 <= u <= 122 then u - 32 else u }

  lemma NormalizeOne(c: char, upper: Unit -> Text)
    requires Uppercases(upper) && c < 128 as char
    ensures NormalizePairingCode([c as int], upper) == ReadAs(c)
  {
    NormalizeUnit(c as int, upper);
    ReadAsMeans(c);
  }

  lemma NormalizeUnit(u: Unit, upper: Unit -> Text)
    requires Uppercases(upper) && u < 128
    ensures NormalizePairingCode([u], upper) == if IsAlnum(Raised(u)) then [Canon(Raised(u))] else []
  {
    Upper1(u, upper);
    Alnum1(Raised(u));
    MappedOne(Raised(u));
  }

  lemma MappedOne(u: Unit)
    ensures Mapped([u]) == [Canon(u)] && Mapped([]) == []
  {
  }

  lemma ReadAsMeans(c: char)
    requires c < 128 as char
    ensures ReadAs(c) == if IsAlnum(Raised(c as int)) then [Canon(Raised(c as int))] else []
  {
  }

  lemma NormalizeAppend(a: Text, b: Text, upper: Unit -> Text)
    ensures NormalizePairingCode(a + b, upper) == NormalizePairingCode(a, upper) + NormalizePairingCode(b, upper)
  {
    UpperAppend(a, b, upper);
    AlnumAppend(Upper(a, upper), Upper(b, upper));
    MappedAppend(Alnum(Upper(a, upper)), Alnum(Upper(b, upper)));
  }

  lemma MappedAppend(s: Text, t: Text)
    ensures Mapped(s + t) == Mapped(s) + Mapped(t)
  {
  }

  // ---- the round trip ------------------------------------------------------------------------

  ghost predicate TwoChars(check: seq<CodeChar> -> seq<CodeChar>) {
    forall p :: |check(p)| == 2
  }

  lemma ShaCheckIsTwoChars()
    ensures TwoChars(ShaCheck)
  {
  }

  lemma CodeIsCanon(s: seq<CodeChar>)
    ensures Mapped(s) == s && AllAlnum(s) && AllCode(s)
  {
  }

  /** Normalising a code strips its grouping and nothing else. */
  lemma NormalizeStripsGrouping(raw: seq<CodeChar>, upper: Unit -> Text)
    requires Uppercases(upper)
    ensures NormalizePairingCode(Group(raw), upper) == raw
  {
    CodeIsCanon(raw);
    GroupingVanishes(raw, upper);
  }

  /** Normalising twice is normalising once, whatever was typed. */
  lemma NormalizeIsIdempotent(input: Text, upper: Unit -> Text)
    requires Uppercases(upper)
    ensures NormalizePairingCode(NormalizePairingCode(input, upper), upper) == NormalizePairingCode(input, upper)
  {
    AlnumIsAlnum(Upper(input, upper));
    MappedTwice(Alnum(Upper(input, upper)));
    AlnumStays(NormalizePairingCode(input, upper), upper);
  }

  lemma MappedTwice(s: Text)
    requires AllAlnum(s)
    ensures AllAlnum(Mapped(s)) && Mapped(Mapped(s)) == Mapped(s)
  {
  }

  lemma FormatIsIdempotent(raw: Text, upper: Unit -> Text)
    requires Uppercases(upper)
    ensures FormatPairingCode(FormatPairingCode(raw, upper), upper) == FormatPairingCode(raw, upper)
  {
    var kept := Alnum(Upper(raw, upper));
    AlnumIsAlnum(Upper(raw, upper));
    GroupingVanishes(if |kept| > CODE_LENGTH then kept[..CODE_LENGTH] else kept, upper);
  }

  /** Formatting keeps the first twelve letters and digits, as they are. */
  lemma FormatKeepsTwelve(raw: Text, upper: Unit -> Text)
    requires Uppercases(upper)
    ensures var kept := Alnum(Upper(raw, upper));
      Alnum(Upper(FormatPairingCode(raw, upper), upper)) == if |kept| > 12 then kept[..12] else kept
  {
    var kept := Alnum(Upper(raw, upper));
    AlnumIsAlnum(Upper(raw, upper));
    GroupingVanishes(if |kept| > CODE_LENGTH then kept[..CODE_LENGTH] else kept, upper);
  }

  /** A code made from any seven bytes is valid, formatted, and holds the top 50 bits. */
  lemma RoundTrip(random: seq<Byte>, check: seq<CodeChar> -> seq<CodeChar>, upper: Unit -> Text)
    requires |random| >= 7 && TwoChars(check) && Uppercases(upper)
    ensures var code := Encoded(random, check).value;
      && WellFormed(NormalizePairingCode(code, upper), check)
      && FormatPairingCode(code, upper) == code
      && FromBase32(AsCode(NormalizePairingCode(code, upper)[..PAYLOAD_CHARS])) == Top50(random)
  {
    var payload := Base32(Top50(random), PAYLOAD_CHARS);
    var raw := payload + check(payload);
    CodeIsCanon(raw);
    NormalizeStripsGrouping(raw, upper);
    GroupingVanishes(raw, upper);
    assert raw[..PAYLOAD_CHARS] == payload && raw[PAYLOAD_CHARS..] == check(payload);
    Top50Fits(random);
    Base32Reads(Top50(random), PAYLOAD_CHARS);
  }

  /** Two inputs share a code exactly when they agree on the top 50 bits. */
  lemma SameCodeSameBits(a: seq<Byte>, b: seq<Byte>, check: seq<CodeChar> -> seq<CodeChar>, upper: Unit -> Text)
    requires |a| >= 7 && |b| >= 7 && TwoChars(check) && Uppercases(upper)
    ensures Encoded(a, check) == Encoded(b, check) <==> Top50(a) == Top50(b)
  {
    RoundTrip(a, check, upper);
    RoundTrip(b, check, upper);
  }

  /** With the check characters SHA-256 gives: what one device shows is what another reads back. */
  lemma CodesMadeAreValid(a: seq<Byte>, b: seq<Byte>, upper: Unit -> Text)
    requires |a| >= 7 && |b| >= 7 && Uppercases(upper)
    ensures WellFormed(NormalizePairingCode(Encoded(a, ShaCheck).value, upper), ShaCheck)
    ensures FormatPairingCode(Encoded(a, ShaCheck).value, upper) == Encoded(a, ShaCheck).value
    ensures Encoded(a, ShaCheck) == Encoded(b, ShaCheck) <==> Top50(a) == Top50(b)
  {
    ShaCheckIsTwoChars();
    RoundTrip(a, ShaCheck, upper);
    SameCodeSameBits(a, b, ShaCheck, upper);
  }
}
