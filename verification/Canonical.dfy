/**
 * Signature transcripts: `canonical` of packages/protocol/src/canonical.ts, which writes each
 * part as a netstring and joins them with bars. A reader that undoes it shows that no two
 * lists of parts share a transcript, whatever characters the parts contain.
 */
module Canonical {
  import opened Basics
  import opened Texts

  const COLON: Unit := 58
  const BAR: Unit := 124

  function Netstring(part: Text): Text {
    Decimal(|part|) + [COLON] + part
  }

  function Canonical(parts: seq<Text>): Text {
    if parts == [] then []
    else if |parts| == 1 then Netstring(parts[0])
    else Netstring(parts[0]) + [BAR] + Canonical(parts[1..])
  }

  /** As it is written: the parts `ab` and `c`. */
  lemma WrittenOut()
    ensures Canonical([OfAscii("ab"), OfAscii("c")]) == OfAscii("2:ab|1:c")
  {
    assert Netstring(OfAscii("ab")) == OfAscii("2:ab");
    assert Netstring(OfAscii("c")) == OfAscii("1:c");
    assert [OfAscii("ab"), OfAscii("c")][1..] == [OfAscii("c")];
  }

  /** One part from the front of a transcript, and what follows it. */
  function ReadPart(s: Text): (r: Option<(Text, Text)>)
    ensures r.Some? ==> |r.value.1| < |s|
  {
    var digits := LeadingDigits(s);
    LeadingIsPrefix(s);
    if |digits| == |s| || s[|digits|] != COLON then None
    else
      var rest := s[|digits| + 1..];
      if |rest| < Value(digits) then None else Some((rest[..Value(digits)], rest[Value(digits)..]))
  }

  lemma {:induction false} LeadingIsPrefix(s: Text)
    ensures |LeadingDigits(s)| <= |s|
  {
    if s != [] && IsDigit(s[0]) {
      LeadingIsPrefix(s[1..]);
    }
  }

  function ReadParts(s: Text): Option<seq<Text>>
    decreases |s|
  {
    match ReadPart(s)
    case None => None
    case Some((part, rest)) =>
      if rest == [] then Some([part])
      else if rest[0] != BAR then None
      else
        match ReadParts(rest[1..])
        case None => None
        case Some(more) => Some([part] + more)
  }

  function Read(s: Text): Option<seq<Text>> {
    if s == [] then Some([]) else ReadParts(s)
  }

  lemma ReadPartUndoes(part: Text, rest: Text)
    ensures ReadPart(Netstring(part) + rest) == Some((part, rest))
  {
    var d := Decimal(|part|);
    var s := Netstring(part) + rest;
    var tail := [COLON] + part + rest;
    assert s == d + tail;
    LeadingDigitsOf(d, tail);
    ValueOfDecimal(|part|);
    assert s[|d| + 1..] == part + rest;
  }

  lemma ReadLast(s: Text, part: Text)
    requires ReadPart(s) == Some((part, []))
    ensures ReadParts(s) == Some([part])
  {
  }

  lemma ReadStep(s: Text, part: Text, more: Text, parts: seq<Text>)
    requires ReadPart(s) == Some((part, [BAR] + more)) && ReadParts(more) == Some(parts)
    ensures ReadParts(s) == Some([part] + parts)
  {
    var rest := [BAR] + more;
    assert rest != [] && rest[0] == BAR && rest[1..] == more;
  }

  lemma ReadHead(parts: seq<Text>)
    requires |parts| > 1
    ensures ReadPart(Canonical(parts)) == Some((parts[0], [BAR] + Canonical(parts[1..])))
  {
    var more := Canonical(parts[1..]);
    Associative(Netstring(parts[0]), [BAR], more);
    ReadPartUndoes(parts[0], [BAR] + more);
  }

  lemma ReadOnlyPart(parts: seq<Text>)
    requires |parts| == 1
    ensures ReadParts(Canonical(parts)) == Some(parts)
  {
    ReadPartUndoes(parts[0], []);
    assert Netstring(parts[0]) + [] == Netstring(parts[0]);
    ReadLast(Canonical(parts), parts[0]);
    assert parts == [parts[0]];
  }

  lemma ReadOneMore(parts: seq<Text>)
    requires |parts| > 1 && ReadParts(Canonical(parts[1..])) == Some(parts[1..])
    ensures ReadParts(Canonical(parts)) == Some(parts)
  {
    ReadHead(parts);
    ReadStep(Canonical(parts), parts[0], Canonical(parts[1..]), parts[1..]);
    assert parts == [parts[0]] + parts[1..];
  }

  lemma {:induction false} ReadPartsUndoes(parts: seq<Text>)
    requires parts != []
    ensures ReadParts(Canonical(parts)) == Some(parts)
  {
    if |parts| == 1 {
      ReadOnlyPart(parts);
    } else {
      ReadPartsUndoes(parts[1..]);
      ReadOneMore(parts);
    }
  }

  lemma ReadUndoes(parts: seq<Text>)
    ensures Read(Canonical(parts)) == Some(parts)
  {
    if parts != [] {
      ReadPartsUndoes(parts);
      assert Canonical(parts) != [];
    }
  }

  /** Equal transcripts have the same number of parts, and the same parts. */
  lemma Injective(p: seq<Text>, q: seq<Text>)
    requires Canonical(p) == Canonical(q)
    ensures p == q
  {
    ReadUndoes(p);
    ReadUndoes(q);
  }
}
