/**
 * Channel lists (packages/protocol/src/rbac.ts): positive patterns admit, negated ones win.
 * `lower` is what `toLowerCase` makes of a text, whatever that is.
 */
module Channels {
  import opened Basics
  import opened Glob

  /** A list that may have come over the wire: not an array at all, or with entries that are no strings. */
  datatype Entry = Text(text: string) | NotText

  predicate Negated(e: Entry) {
    e.Text? && e.text != "" && e.text[0] == '!'
  }

  function Body(e: Entry): string
    requires e.Text?
  {
    if Negated(e) then e.text[1..] else e.text
  }

  /** The entry is readable and its pattern's language holds the channel, whatever the case. */
  ghost predicate Hits(e: Entry, channel: string, lower: string -> string) {
    e.Text? && Matches(lower(Body(e)), lower(channel))
  }

  /** "Everything these patterns name, except what the negated ones name." */
  ghost predicate Admits(patterns: seq<Entry>, channel: string, lower: string -> string) {
    && (exists e :: e in patterns && !Negated(e) && Hits(e, channel, lower))
    && !(exists e :: e in patterns && Negated(e) && Hits(e, channel, lower))
  }

  method GlobMatch(pattern: string, value: string, lower: string -> string) returns (matched: bool)
    ensures matched <==> Matches(lower(pattern), lower(value))
  {
    ghost var steps;
    matched, steps := Match(lower(pattern), lower(value));
  }

  method ChannelMatches(patterns: Option<seq<Entry>>, channel: string, lower: string -> string)
    returns (allowed: bool)
    ensures allowed <==> patterns.Some? && Admits(patterns.value, channel, lower)
  {
    if patterns.None? { return false; }
    allowed := false;
    var list := patterns.value;
    for i := 0 to |list|
      invariant allowed <==> exists e :: e in list[..i] && !Negated(e) && Hits(e, channel, lower)
      invariant forall e :: e in list[..i] && Negated(e) ==> !Hits(e, channel, lower)
    {
      assert list[..i + 1] == list[..i] + [list[i]];
      if list[i].Text? {
        var negated := Negated(list[i]);
        var matched := GlobMatch(Body(list[i]), channel, lower);
        if matched && negated { return false; }
        if matched { allowed := true; }
      }
    }
    assert list[..|list|] == list;
  }

  /** The order of the patterns does not matter, nor does repeating one. */
  lemma OrderIsIrrelevant(a: seq<Entry>, b: seq<Entry>, channel: string, lower: string -> string)
    requires forall e :: e in a <==> e in b
    ensures Admits(a, channel, lower) <==> Admits(b, channel, lower)
  {
    if e :| e in a && !Negated(e) && Hits(e, channel, lower) { assert e in b; }
    if e :| e in b && !Negated(e) && Hits(e, channel, lower) { assert e in a; }
  }

  /** A text that starts with `!` excludes what the rest of it matches, any other admits its own matches. */
  lemma EntriesRead(p: string, channel: string, lower: string -> string)
    ensures Negated(Text("!" + p)) && (Hits(Text("!" + p), channel, lower) <==> Matches(lower(p), lower(channel)))
    ensures p == "" || p[0] != '!' ==>
      !Negated(Text(p)) && (Hits(Text(p), channel, lower) <==> Matches(lower(p), lower(channel)))
    ensures !Hits(NotText, channel, lower)
  {
    assert ("!" + p)[1..] == p;
  }

  /** Adding an exclusion only ever takes channels away: exactly those it names. */
  lemma ExclusionTakesAway(patterns: seq<Entry>, not: Entry, channel: string, lower: string -> string)
    requires Negated(not)
    ensures Admits(patterns + [not], channel, lower) <==> Admits(patterns, channel, lower) && !Hits(not, channel, lower)
  {
    var longer := patterns + [not];
    assert forall e :: e in longer <==> e in patterns || e == not;
    if e :| e in patterns && !Negated(e) && Hits(e, channel, lower) { assert e in longer; }
    if e :| e in longer && !Negated(e) && Hits(e, channel, lower) { assert e in patterns; }
  }
}
