/**
 * Fitting a push payload: `jsonBytes`, `truncateJson` and `encodePayload` of
 * packages/core/src/webpush.ts. Texts are sequences of code points, as `for..of` walks them; a
 * payload is its two texts and the bytes everything else in its JSON takes.
 */
module WebPush {
  import opened Basics

  type CodePoint = c: int | 0 <= c < 0x11_0000
  type Text = seq<CodePoint>

  const ELLIPSIS: CodePoint := 0x2026
  /** A body of 4096 bytes (section 4 of RFC 8291) less header, key, delimiter and tag. */
  const MAX_PAYLOAD_BYTES: nat := 4096 - 21 - 65 - 1 - 16

  /** The bytes of one character in JSON, in UTF-8; a surrogate without its partner is escaped. */
  function Cost(c: CodePoint): (n: nat)
    ensures 1 <= n <= 6
  {
    if c == 0x22 || c == 0x5C || 8 <= c <= 10 || c == 12 || c == 13 then 2
    else if c < 0x20 then 6
    else if c < 0x80 then 1
    else if c < 0x800 then 2
    else if 0xD800 <= c < 0xE000 then 6
    else if c < 0x1_0000 then 3
    else 4
  }

  function JsonBytes(s: Text): nat {
    if s == [] then 0 else JsonBytes(s[..|s| - 1]) + Cost(s[|s| - 1])
  }

  // ---- the bytes themselves ------------------------------------------------------

  type Byte = x: int | 0 <= x < 256

  function HexDigit(d: nat): CodePoint
    requires d < 16
  {
    if d < 10 then '0' as int + d else 'a' as int + (d - 10)
  }

  /** `\u` and four digits. */
  function UnicodeEscape(c: CodePoint): (s: Text)
    requires c < 0x1_0000
    ensures |s| == 6 && forall i :: 0 <= i < 6 ==> s[i] < 0x80
  {
    ['\\' as int, 'u' as int, HexDigit(c / 0x1000), HexDigit(c / 0x100 % 16), HexDigit(c / 0x10 % 16), HexDigit(c % 16)]
  }

  /** A character as `JSON.stringify` writes it inside a string. */
  function Escaped(c: CodePoint): Text {
    if c == '"' as int || c == '\\' as int then ['\\' as int, c]
    else if c == 8 then ['\\' as int, 'b' as int]
    else if c == 9 then ['\\' as int, 't' as int]
    else if c == 10 then ['\\' as int, 'n' as int]
    else if c == 12 then ['\\' as int, 'f' as int]
    else if c == 13 then ['\\' as int, 'r' as int]
    else if c < 0x20 || 0xD800 <= c < 0xE000 then UnicodeEscape(c)
    else [c]
  }

  /** A character in UTF-8 (section 3 of RFC 3629). */
  function Utf8(c: CodePoint): seq<Byte> {
    if c < 0x80 then [c]
    else if c < 0x800 then [0xC0 + c / 0x40, 0x80 + c % 0x40]
    else if c < 0x1_0000 then [0xE0 + c / 0x1000, 0x80 + c / 0x40 % 0x40, 0x80 + c % 0x40]
    else [0xF0 + c / 0x4_0000, 0x80 + c / 0x1000 % 0x40, 0x80 + c / 0x40 % 0x40, 0x80 + c % 0x40]
  }

  /** What `f` makes of each character, one after the other. */
  function Each<T>(s: Text, f: CodePoint -> seq<T>): seq<T> {
    if s == [] then [] else Each(s[..|s| - 1], f) + f(s[|s| - 1])
  }

  function Utf8Text(s: Text): seq<Byte> { Each(s, Utf8) }

  function Json(s: Text): Text { Each(s, Escaped) }

  lemma {:induction false} EachAppend<T>(s: Text, t: Text, f: CodePoint -> seq<T>)
    ensures Each(s + t, f) == Each(s, f) + Each(t, f)
  {
    if t == [] {
      assert s + t == s;
    } else {
      EachAppend(s, t[..|t| - 1], f);
      assert (s + t)[..|s + t| - 1] == s + t[..|t| - 1];
    }
  }

  lemma {:induction false} AsciiIsBytes(s: Text)
    requires forall i :: 0 <= i < |s| ==> s[i] < 0x80
    ensures |Utf8Text(s)| == |s|
  {
    if s != [] { AsciiIsBytes(s[..|s| - 1]); }
  }

  lemma CostIsItsBytes(c: CodePoint)
    ensures Cost(c) == |Utf8Text(Escaped(c))|
  {
    var e := Escaped(c);
    if |e| == 1 {
      assert e[..0] == [] && Utf8Text([]) == [];
    } else {
      AsciiIsBytes(e);
    }
  }

  /** What is counted is the length, in bytes, of the text in JSON. */
  lemma {:induction false} JsonBytesCounts(s: Text)
    ensures JsonBytes(s) == |Utf8Text(Json(s))|
  {
    if s != [] {
      JsonBytesCounts(s[..|s| - 1]);
      CostIsItsBytes(s[|s| - 1]);
      EachAppend(Json(s[..|s| - 1]), Escaped(s[|s| - 1]), Utf8);
    }
  }

  lemma {:induction false} LongerCostsMore(s: Text, i: nat, j: nat)
    requires i <= j <= |s|
    ensures JsonBytes(s[..i]) <= JsonBytes(s[..j])
    decreases j
  {
    if i < j {
      LongerCostsMore(s, i, j - 1);
      assert s[..j][..j - 1] == s[..j - 1];
    }
  }

  lemma EllipsisCosts(s: Text)
    ensures JsonBytes(s + [ELLIPSIS]) == JsonBytes(s) + 3
  {
    assert (s + [ELLIPSIS])[..|s|] == s;
  }

  /** A prefix and an ellipsis. */
  ghost predicate IsCut(value: Text, cut: Text, k: nat) {
    k <= |value| && cut == value[..k] + [ELLIPSIS]
  }

  /** The longest that fits the budget, or the ellipsis alone where not even that does. */
  ghost predicate IsLongestCut(value: Text, cut: Text, budget: nat, k: nat) {
    && IsCut(value, cut, k)
    && (k > 0 ==> JsonBytes(cut) <= budget)
    && forall j :: k < j <= |value| ==> JsonBytes(value[..j]) + 3 > budget
  }

  ghost predicate IsFittedTo(value: Text, cut: Text, budget: nat) {
    exists k: nat :: IsLongestCut(value, cut, budget, k)
  }

  method TruncateJson(value: Text, budget: nat) returns (cut: Text)
    ensures IsFittedTo(value, cut, budget) && JsonBytes(cut) >= 3
    ensures JsonBytes(cut) <= if budget >= 3 then budget else 3
    ensures budget < 3 ==> cut == [ELLIPSIS]
  {
    var out: Text := [];
    var used := 0;
    var i := 0;
    while i < |value|
      invariant i <= |value| && out == value[..i] && used == JsonBytes(out)
      invariant i > 0 ==> used + 3 <= budget
    {
      var cost := Cost(value[i]);
      assert value[..i + 1][..i] == value[..i];
      if used + cost + 3 > budget {
        forall j | i < j <= |value|
          ensures JsonBytes(value[..j]) + 3 > budget
        {
          LongerCostsMore(value, i + 1, j);
        }
        break;
      }
      out := out + [value[i]];
      used := used + cost;
      i := i + 1;
    }
    cut := out + [ELLIPSIS];
    EllipsisCosts(out);
    assert IsLongestCut(value, cut, budget, i);
  }

  // ---- payloads ----------------------------------------------------------------

  datatype Payload = Payload(title: Text, body: Option<Text>, rest: nat) {
    function Body(): Text { if body.Some? then body.value else [] }

    /** The bytes of the whole JSON. */
    function Size(): nat { rest + JsonBytes(title) + JsonBytes(Body()) }

    predicate Fits() { Size() <= MAX_PAYLOAD_BYTES }
  }

  function Minimal(s: Text): nat { if s == [] then 0 else 3 }

  /** Small enough as it is, with its body down to an ellipsis, or with both texts down to one. */
  predicate CanFit(p: Payload) {
    || p.Fits()
    || (p.Body() != [] && p.rest + JsonBytes(p.title) + 3 <= MAX_PAYLOAD_BYTES)
    || p.rest + Minimal(p.title) + Minimal(p.Body()) <= MAX_PAYLOAD_BYTES
  }

  function Budget(value: Text, size: nat): nat {
    var left := JsonBytes(value) - (size - MAX_PAYLOAD_BYTES);
    if left > 0 then left else 0
  }

  /** The body cut after k characters, and no longer cut of it would fit; if k is not 0, this one does. */
  ghost predicate BodyCutAt(p: Payload, q: Payload, k: nat) {
    && IsCut(p.Body(), q.Body(), k) && q == p.(body := Some(q.Body())) && (k > 0 ==> q.Fits())
    && forall j {:trigger p.Body()[..j]} :: k < j <= |p.Body()| ==> !p.(body := Some(p.Body()[..j] + [ELLIPSIS])).Fits()
  }

  ghost predicate BodyCut(p: Payload, q: Payload) {
    exists k :: BodyCutAt(p, q, k)
  }

  ghost predicate TitleCutAt(p: Payload, q: Payload, k: nat) {
    && IsCut(p.title, q.title, k) && q == p.(title := q.title) && (k > 0 ==> q.Fits())
    && forall j {:trigger p.title[..j]} :: k < j <= |p.title| ==> !p.(title := p.title[..j] + [ELLIPSIS]).Fits()
  }

  ghost predicate TitleCut(p: Payload, q: Payload) {
    exists k :: TitleCutAt(p, q, k)
  }

  lemma FittedBody(p: Payload, cut: Text)
    requires !p.Fits() && IsFittedTo(p.Body(), cut, Budget(p.Body(), p.Size()))
    ensures BodyCut(p, p.(body := Some(cut)))
  {
    var q := p.(body := Some(cut));
    var k: nat :| IsLongestCut(p.Body(), cut, Budget(p.Body(), p.Size()), k);
    forall j | k < j <= |p.Body()|
      ensures !p.(body := Some(p.Body()[..j] + [ELLIPSIS])).Fits()
    {
      EllipsisCosts(p.Body()[..j]);
    }
    assert BodyCutAt(p, q, k);
  }

  lemma FittedTitle(p: Payload, cut: Text)
    requires !p.Fits() && IsFittedTo(p.title, cut, Budget(p.title, p.Size()))
    ensures TitleCut(p, p.(title := cut))
  {
    var q := p.(title := cut);
    var k: nat :| IsLongestCut(p.title, cut, Budget(p.title, p.Size()), k);
    forall j | k < j <= |p.title|
      ensures !p.(title := p.title[..j] + [ELLIPSIS]).Fits()
    {
      EllipsisCosts(p.title[..j]);
    }
    assert TitleCutAt(p, q, k);
  }

  /** What is left of a text when only its ellipsis is. */
  lemma EllipsisAlone()
    ensures JsonBytes([ELLIPSIS]) == 3 && JsonBytes([]) == 0
  {
    EllipsisCosts([]);
    assert [] + [ELLIPSIS] == [ELLIPSIS];
  }

  method FitBody(p: Payload) returns (q: Payload)
    ensures q.title == p.title && q.rest == p.rest
    ensures p.Fits() || p.Body() == [] ==> q == p
    ensures !p.Fits() && p.Body() != [] ==> BodyCut(p, q) && q.Body() != []
    ensures !p.Fits() && p.Body() != [] ==> (q.Fits() <==> p.rest + JsonBytes(p.title) + 3 <= MAX_PAYLOAD_BYTES)
    ensures !p.Fits() && p.Body() != [] && !q.Fits() ==> q.Body() == [ELLIPSIS]
    ensures JsonBytes(q.Body()) > JsonBytes(p.Body()) <==> !p.Fits() && p.Body() != [] && JsonBytes(p.Body()) < 3
  {
    if p.Fits() || p.Body() == [] { return p; }
    var cut := TruncateJson(p.Body(), Budget(p.Body(), p.Size()));
    q := p.(body := Some(cut));
    FittedBody(p, cut);
    EllipsisAlone();
  }

  method FitTitle(p: Payload) returns (q: Payload)
    ensures q.body == p.body && q.rest == p.rest
    ensures p.Fits() || p.title == [] ==> q == p
    ensures !p.Fits() && p.title != [] ==> TitleCut(p, q)
    ensures !p.Fits() && p.title != [] ==> (q.Fits() <==> p.rest + 3 + JsonBytes(p.Body()) <= MAX_PAYLOAD_BYTES)
    ensures JsonBytes(q.title) > JsonBytes(p.title) <==> !p.Fits() && p.title != [] && JsonBytes(p.title) < 3
  {
    if p.Fits() || p.title == [] { return p; }
    var cut := TruncateJson(p.title, Budget(p.title, p.Size()));
    q := p.(title := cut);
    FittedTitle(p, cut);
    EllipsisAlone();
  }

  /** The body gives way first, then the title. */
  method EncodePayload(p: Payload) returns (q: Payload)
    ensures q.Fits() <==> CanFit(p)
    ensures p.Fits() ==> q == p
    ensures q.title != p.title ==> !p.Fits() && (p.Body() != [] ==> p.rest + JsonBytes(p.title) + 3 > MAX_PAYLOAD_BYTES)
    ensures if p.Fits() || p.Body() == [] then q.body == p.body
      else BodyCut(p, p.(body := q.body))
    ensures var fitted := p.(body := q.body);
      && q.rest == p.rest
      && if fitted.Fits() || p.title == [] then q.title == p.title
         else TitleCut(fitted, q)
  {
    var fitted := FitBody(p);
    q := FitTitle(fitted);
    EllipsisAlone();
    assert fitted.body == q.body && fitted == p.(body := q.body);
  }

  /** A payload that cannot be made to fit, although its one short text is cut; cutting that lengthens it. */
  method LengthenedInVain() returns (p: Payload, q: Payload)
    ensures !p.Fits() && !CanFit(p) && !q.Fits() && q.title == [ELLIPSIS] && q.Size() > p.Size()
  {
    var title: Text := [0x41];
    p := Payload(title, None, MAX_PAYLOAD_BYTES);
    assert title[..0] == [];
    assert JsonBytes(title) == 1;
    EllipsisAlone();
    q := EncodePayload(p);
    assert p.(body := q.body) == p && TitleCut(p, q);
    ghost var k: nat :| TitleCutAt(p, q, k);
    assert q.title == p.title[..0] + [ELLIPSIS];
  }
}
