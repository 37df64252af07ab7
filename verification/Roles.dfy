/** Capabilities and who may hand them out: packages/protocol/src/rbac.ts. */
module Roles {
  import opened Basics
  import opened Texts

  type Name = Text

  datatype Capability = NotifyReceive | NotifyAck | NotifyAct | NotifySend | CallReceive | CallPlace
    | DevicesManage | RolesManage | AuditRead | Admin

  datatype Severity = Debug | Info | Success | Warning | Error | Critical

  datatype Role = Role(name: Name, channels: seq<Text>, minSeverity: Severity, capabilities: seq<Capability>,
                       description: Option<Text>, maxDevices: Option<nat>, quietHours: Option<(real, real)>)

  /** `PRIVILEGED_CAPABILITIES`: authority over the hub, not a place in its fan-out. */
  predicate IsPrivileged(cap: Capability) {
    cap != NotifyReceive && cap != NotifyAck && cap != CallReceive
  }

  predicate HasCapability(caps: seq<Capability>, cap: Capability) {
    Admin in caps || cap in caps
  }

  /** An admin has every capability, anybody else what the role lists. */
  lemma AdminHasAll(caps: seq<Capability>, cap: Capability)
    ensures Admin in caps ==> HasCapability(caps, cap)
    ensures Admin !in caps ==> (HasCapability(caps, cap) <==> cap in caps)
  {
  }

  function Filter(caps: seq<Capability>, keep: Capability -> bool): seq<Capability> {
    if caps == [] then []
    else Filter(caps[..|caps| - 1], keep) + if keep(caps[|caps| - 1]) then [caps[|caps| - 1]] else []
  }

  lemma {:induction false} FilterHas(caps: seq<Capability>, keep: Capability -> bool, cap: Capability)
    ensures cap in Filter(caps, keep) <==> cap in caps && keep(cap)
  {
    if caps != [] {
      FilterHas(caps[..|caps| - 1], keep, cap);
      assert caps == caps[..|caps| - 1] + [caps[|caps| - 1]];
    }
  }

  function Escalating(actor: seq<Capability>, wanted: seq<Capability>): seq<Capability> {
    if HasCapability(actor, Admin) then []
    else Filter(wanted, cap => IsPrivileged(cap) && !HasCapability(actor, cap))
  }

  /** Granting is safe exactly when every privileged capability wanted is one the granter can use. */
  lemma NothingEscalates(actor: seq<Capability>, wanted: seq<Capability>)
    ensures Escalating(actor, wanted) == [] <==>
      Admin in actor || forall cap :: cap in wanted ==> cap in {NotifyReceive, NotifyAck, CallReceive} || cap in actor
  {
    if !HasCapability(actor, Admin) {
      forall cap: Capability
        ensures cap in Escalating(actor, wanted) <==> cap in wanted && IsPrivileged(cap) && !HasCapability(actor, cap)
      {
        FilterHas(wanted, c => IsPrivileged(c) && !HasCapability(actor, c), cap);
      }
      if Escalating(actor, wanted) != [] {
        assert Escalating(actor, wanted)[0] in Escalating(actor, wanted);
      }
    }
  }

  // ---- roles over the wire ---------------------------------------------------

  /** A number as it arrives; NaN and the infinities are not finite. */
  datatype Number = Finite(value: real) | NotFinite

  /**
   * A role as it arrives. None stands for a field that is missing or of another type, for an entry
   * of a list that is no text, and for a capability or severity this hub does not know.
   */
  datatype RawRole = RawRole(name: Option<Text>, channels: Option<seq<Option<Text>>>, minSeverity: Option<Severity>,
                             capabilities: seq<Option<Capability>>, description: Option<Text>,
                             maxDevices: Option<Number>, quietHours: Option<(Number, Number)>)

  /** What a caller may grant: anything at all, or what its own list allows. */
  datatype Granting = Anything | Own(capabilities: seq<Capability>)

  predicate MayGrant(granting: Granting, cap: Capability) {
    match granting
    case Anything => true
    case Own(caps) => Admin in caps || !IsPrivileged(cap) || cap in caps
  }

  function Granted(wanted: seq<Option<Capability>>, granting: Granting): seq<Capability> {
    if wanted == [] then []
    else
      var before := Granted(wanted[..|wanted| - 1], granting);
      var last := wanted[|wanted| - 1];
      if last.Some? && MayGrant(granting, last.value) && last.value !in before then before + [last.value] else before
  }

  lemma {:induction false} GrantedHas(wanted: seq<Option<Capability>>, granting: Granting, cap: Capability)
    ensures cap in Granted(wanted, granting) <==> Some(cap) in wanted && MayGrant(granting, cap)
  {
    if wanted != [] {
      GrantedHas(wanted[..|wanted| - 1], granting, cap);
      assert wanted == wanted[..|wanted| - 1] + [wanted[|wanted| - 1]];
    }
  }

  function Take(s: Text, n: nat): (r: Text) { if |s| <= n then s else s[..n] }

  function Cut(name: Option<Text>): Name {
    if name.Some? then Take(Trim(name.value), 64) else []
  }

  predicate UnusableName(name: Name) {
    name == OfAscii("__proto__") || name == OfAscii("constructor") || name == OfAscii("prototype")
  }

  /** The entries that are texts. */
  function TextsOf(list: seq<Option<Text>>): seq<Text> {
    if list == [] then []
    else TextsOf(list[..|list| - 1]) + if list[|list| - 1].Some? then [list[|list| - 1].value] else []
  }

  function ChannelsOf(raw: Option<seq<Option<Text>>>): seq<Text> {
    var list := if raw.Some? then TextsOf(raw.value) else [];
    if |list| <= 100 then list else list[..100]
  }

  /** `Math.max(0, Math.floor(n))`, for a number that is one. */
  function Places(n: Option<Number>): Option<nat> {
    if n.None? || n.value.NotFinite? then None
    else Some(if n.value.value.Floor >= 0 then n.value.value.Floor else 0)
  }

  function Hour(n: Number): real {
    if n.NotFinite? || n.value < 0.0 then 0.0 else if n.value > 24.0 then 24.0 else n.value
  }

  /** None is the error thrown. */
  function SanitizeRole(raw: RawRole, granting: Granting): Option<Role> {
    var name, channels := Cut(raw.name), ChannelsOf(raw.channels);
    if name == [] || UnusableName(name) || channels == [] then None
    else Some(Role(
      name, channels, if raw.minSeverity.Some? then raw.minSeverity.value else Info,
      Granted(raw.capabilities, granting),
      if raw.description.Some? then Some(Take(raw.description.value, 200)) else None,
      Places(raw.maxDevices),
      if raw.quietHours.Some? then Some((Hour(raw.quietHours.value.0), Hour(raw.quietHours.value.1))) else None))
  }

  /** An hour of the day: what was given, if that is one. */
  predicate InDay(given: Number, hour: real) {
    0.0 <= hour <= 24.0 && (given.Finite? && 0.0 <= given.value <= 24.0 ==> hour == given.value)
  }

  /** `texts` is every text of the list up to some place, and all of them unless it is `limit` long. */
  ghost predicate FirstTexts(list: seq<Option<Text>>, texts: seq<Text>, limit: nat) {
    exists k: nat :: FirstTextsUpTo(list, texts, limit, k)
  }

  ghost predicate FirstTextsUpTo(list: seq<Option<Text>>, texts: seq<Text>, limit: nat, k: nat) {
    k <= |list| && texts == TextsOf(list[..k]) && |texts| <= limit && (k == |list| || |texts| == limit)
  }

  lemma {:induction false} TakingTexts(list: seq<Option<Text>>, limit: nat)
    ensures FirstTexts(list, if |TextsOf(list)| <= limit then TextsOf(list) else TextsOf(list)[..limit], limit)
  {
    var texts := TextsOf(list);
    if |texts| <= limit {
      assert list[..|list|] == list;
      assert FirstTextsUpTo(list, texts, limit, |list|);
    } else {
      var front := list[..|list| - 1];
      TakingTexts(front, limit);
      var taken := if |TextsOf(front)| <= limit then TextsOf(front) else TextsOf(front)[..limit];
      var k: nat :| FirstTextsUpTo(front, taken, limit, k);
      assert front[..k] == list[..k] && taken == texts[..limit];
      assert FirstTextsUpTo(list, taken, limit, k);
    }
  }

  /** The sanitiser refuses exactly what has no name, or one that objects already have, and what has no channel. */
  lemma SanitizerRefuses(raw: RawRole, granting: Granting)
    ensures SanitizeRole(raw, granting).None? <==>
      || raw.name.None? || Trim(raw.name.value) == []
      || Take(Trim(raw.name.value), 64) in {OfAscii("__proto__"), OfAscii("constructor"), OfAscii("prototype")}
      || raw.channels.None? || forall c :: c in raw.channels.value ==> c.None?
  {
    if raw.channels.Some? { TextsOfHas(raw.channels.value); }
  }

  /** Of the texts: 1 to 64 code units of the name, 1 to 100 of the channels, up to 200 of the description. */
  lemma SanitizedTexts(raw: RawRole, granting: Granting)
    requires SanitizeRole(raw, granting).Some?
    ensures var r := SanitizeRole(raw, granting).value;
      && 1 <= |r.name| <= 64 && r.name <= Trim(raw.name.value)
      && |r.channels| >= 1 && FirstTexts(raw.channels.value, r.channels, 100)
      && (r.description.Some? <==> raw.description.Some?)
      && (r.description.Some? ==> |r.description.value| <= 200 && r.description.value <= raw.description.value)
  {
    TakingTexts(raw.channels.value, 100);
  }

  /** Numbers are rounded down and kept in range; the severity is `info` if there is none. */
  lemma SanitizedNumbers(raw: RawRole, granting: Granting)
    requires SanitizeRole(raw, granting).Some?
    ensures var r := SanitizeRole(raw, granting).value;
      && r.minSeverity == (if raw.minSeverity.Some? then raw.minSeverity.value else Info)
      && (r.maxDevices.Some? <==> raw.maxDevices.Some? && raw.maxDevices.value.Finite?)
      && (r.maxDevices.Some? ==> var wanted, places := raw.maxDevices.value.value, r.maxDevices.value as real;
            if wanted < 0.0 then places == 0.0 else places <= wanted < places + 1.0)
      && (r.quietHours.Some? <==> raw.quietHours.Some?)
      && (r.quietHours.Some? ==>
            InDay(raw.quietHours.value.0, r.quietHours.value.0) && InDay(raw.quietHours.value.1, r.quietHours.value.1))
  {
  }

  /** It keeps exactly the capabilities the caller may grant: the ordinary ones, and its own. */
  lemma SanitizedGrants(raw: RawRole, granting: Granting, cap: Capability)
    requires SanitizeRole(raw, granting).Some?
    ensures cap in SanitizeRole(raw, granting).value.capabilities <==> (
      && Some(cap) in raw.capabilities
      && (granting.Own? ==>
            || Admin in granting.capabilities || cap in granting.capabilities
            || cap in {NotifyReceive, NotifyAck, CallReceive}))
  {
    GrantedHas(raw.capabilities, granting, cap);
  }

  lemma {:induction false} TextsOfHas(list: seq<Option<Text>>)
    ensures forall c :: c in TextsOf(list) <==> Some(c) in list
    ensures TextsOf(list) == [] <==> forall c :: c in list ==> c.None?
  {
    if list != [] {
      var front, last := list[..|list| - 1], list[|list| - 1];
      TextsOfHas(front);
      assert list == front + [last];
      assert last in list;
    }
  }

  function Given<T>(s: seq<T>): (list: seq<Option<T>>)
    ensures |list| == |s|
  {
    seq(|s|, i requires 0 <= i < |s| => Some(s[i]))
  }

  /** A sanitised role handed in once more. */
  function Raw(r: Role): RawRole {
    RawRole(
      Some(r.name), Some(Given(r.channels)), Some(r.minSeverity), Given(r.capabilities), r.description,
      if r.maxDevices.Some? then Some(Finite(r.maxDevices.value as real)) else None,
      if r.quietHours.Some? then Some((Finite(r.quietHours.value.0), Finite(r.quietHours.value.1))) else None)
  }

  lemma {:induction false} DistinctGrantedAgain(caps: seq<Capability>, wanted: seq<Option<Capability>>)
    requires |wanted| == |caps| && forall i :: 0 <= i < |caps| ==> wanted[i] == Some(caps[i])
    requires Distinct(caps)
    ensures Granted(wanted, Anything) == caps
  {
    if caps != [] {
      DistinctGrantedAgain(caps[..|caps| - 1], wanted[..|caps| - 1]);
      assert caps == caps[..|caps| - 1] + [caps[|caps| - 1]];
    }
  }

  lemma {:induction false} GrantedDistinct(wanted: seq<Option<Capability>>, granting: Granting)
    ensures Distinct(Granted(wanted, granting))
  {
    if wanted != [] {
      var before := Granted(wanted[..|wanted| - 1], granting);
      GrantedDistinct(wanted[..|wanted| - 1], granting);
      assert forall i :: 0 <= i < |before| ==> before[i] in before;
    }
  }

  ghost predicate Distinct(caps: seq<Capability>) {
    forall i, j :: 0 <= i < j < |caps| ==> caps[i] != caps[j]
  }

  lemma {:induction false} TextsOfGiven(s: seq<Text>)
    ensures TextsOf(Given(s)) == s
  {
    if s != [] {
      TextsOfGiven(s[..|s| - 1]);
      assert Given(s)[..|s| - 1] == Given(s[..|s| - 1]);
      assert s == s[..|s| - 1] + [s[|s| - 1]];
    }
  }

  /** A name cut once starts with no white space; cutting it again takes away what it ends in. */
  lemma CutAgain(name: Text)
    requires Cut(Some(name)) != []
    ensures Cut(Some(Cut(Some(name)))) == TrimEnd(Cut(Some(name))) != []
  {
    var once := Cut(Some(name));
    TrimStartStarts(name);
    TrimEndIsPrefix(TrimStart(name));
    assert once[0] == TrimStart(name)[0];
    assert TrimStart(once) == once;
    TrimEndIsPrefix(once);
  }

  /** What is left of a sanitised role after the sanitiser that grants anything. */
  function Again(r: Role): Option<Role> {
    var name := TrimEnd(r.name);
    if UnusableName(name) then None else Some(r.(name := name))
  }

  /**
   * Sanitising twice, the second time granting anything, changes nothing but white space at the end
   * of the name: so it is sanitising once exactly if the name, once cut, ends in none.
   */
  lemma SanitizedStays(raw: RawRole, granting: Granting)
    requires SanitizeRole(raw, granting).Some?
    ensures var once := SanitizeRole(raw, granting).value;
      && SanitizeRole(Raw(once), Anything) == Again(once)
      && (Again(once) == Some(once) <==> !EndsInSpace(once.name))
  {
    var once := SanitizeRole(raw, granting).value;
    CutAgain(raw.name.value);
    TrimEndIsPrefix(once.name);
    TextsOfGiven(once.channels);
    GrantedDistinct(raw.capabilities, granting);
    DistinctGrantedAgain(once.capabilities, Raw(once).capabilities);
    if once.maxDevices.Some? { assert (once.maxDevices.value as real).Floor == once.maxDevices.value; }
  }

  function Spaces(n: nat): (s: Text)
    ensures |s| == n && forall i :: 0 <= i < n ==> s[i] == 32
  {
    seq(n, _ => 32)
  }

  lemma {:induction false} SpacesTrimmed(n: nat)
    ensures TrimEnd([97] + Spaces(n)) == [97]
  {
    if n > 0 {
      SpacesTrimmed(n - 1);
      assert ([97] + Spaces(n))[..n] == [97] + Spaces(n - 1);
    } else {
      assert [97] + Spaces(0) == [97];
    }
  }

  /** A name cut in the middle of white space: the second pass writes another name than the first. */
  lemma NameCutInSpace()
    ensures Cut(Some([97] + Spaces(63) + [98])) == [97] + Spaces(63)
    ensures EndsInSpace([97] + Spaces(63)) && TrimEnd([97] + Spaces(63)) == [97]
  {
    var name := [97] + Spaces(63) + [98];
    assert Trim(name) == name;
    assert name[..64] == [97] + Spaces(63);
    SpacesTrimmed(63);
  }

  // ---- privileges ------------------------------------------------------------

  /** The role carries no privileged capability outside the ceiling. */
  ghost predicate Within(caps: seq<Capability>, ceiling: set<Capability>) {
    forall cap :: cap in caps && IsPrivileged(cap) ==> cap in ceiling
  }

  lemma GrantStaysWithin(actor: seq<Capability>, wanted: seq<Capability>, ceiling: set<Capability>)
    requires Within(actor, ceiling) && Admin !in ceiling && Escalating(actor, wanted) == []
    ensures Within(wanted, ceiling)
  {
    NothingEscalates(actor, wanted);
  }

  lemma SanitizedStaysWithin(actor: seq<Capability>, raw: RawRole, ceiling: set<Capability>)
    requires Within(actor, ceiling) && Admin !in ceiling && SanitizeRole(raw, Own(actor)).Some?
    ensures Within(SanitizeRole(raw, Own(actor)).value.capabilities, ceiling)
  {
    forall cap | cap in Granted(raw.capabilities, Own(actor)) && IsPrivileged(cap)
      ensures cap in ceiling
    {
      GrantedHas(raw.capabilities, Own(actor), cap);
    }
  }
}
