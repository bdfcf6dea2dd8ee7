/** Slugs and the slug options of an entity, `model/naming.py`. */
module Naming {
  import opened Wrappers
  import opened Claims
  import opened Text

  const MAX_SLUG_LENGTH := 64
  const FALLBACK_SLUG := "unnamed"

  /** The two Unicode steps of `slugify` that come from libraries. */
  datatype Unicode = Unicode(lower: string -> string, decompose: string -> string)

  predicate IsAlnum(c: char) {
    'a' <= c <= 'z' || '0' <= c <= '9'
  }

  predicate SlugChars(s: string) {
    forall i :: 0 <= i < |s| ==> IsAlnum(s[i]) || s[i] == '_'
  }

  /** Lower-casing and decomposing leave text over `[a-z0-9_]` alone. */
  ghost predicate KeepsAscii(u: Unicode) {
    forall s :: SlugChars(s) ==> u.lower(s) == s && u.decompose(s) == s
  }

  // ---------------------------------------------------------------- slugify

  function ReplaceChar(text: string, from: char, to: string): string {
    if text == "" then ""
    else (if text[0] == from then to else [text[0]]) + ReplaceChar(text[1..], from, to)
  }

  const UMLAUT_TABLE: seq<(char, string)> :=
    [('\U{00e4}', "ae"), ('\U{00f6}', "oe"), ('\U{00fc}', "ue"), ('\U{00df}', "ss")]

  function Transliterate(text: string, table: seq<(char, string)>): string
    decreases |table|
  {
    if table == [] then text else Transliterate(ReplaceChar(text, table[0].0, table[0].1), table[1..])
  }

  /** Every run of characters outside `[a-z0-9]` becomes one underscore. */
  function Collapse(text: string, inRun: bool): string {
    if text == "" then ""
    else if IsAlnum(text[0]) then [text[0]] + Collapse(text[1..], false)
    else if inRun then Collapse(text[1..], true)
    else "_" + Collapse(text[1..], true)
  }

  function StripLeft(text: string): string {
    if text != "" && text[0] == '_' then StripLeft(text[1..]) else text
  }

  function StripRight(text: string): string {
    if text != "" && text[|text| - 1] == '_' then StripRight(text[..|text| - 1]) else text
  }

  function Strip(text: string): string {
    StripRight(StripLeft(text))
  }

  function Truncate(text: string): string {
    if |text| <= MAX_SLUG_LENGTH then text else text[..MAX_SLUG_LENGTH]
  }

  function SlugTail(text: string): string {
    var slug := Strip(Truncate(Strip(Collapse(text, false))));
    if slug == "" then FALLBACK_SLUG else slug
  }

  function Slug(u: Unicode, name: string): string {
    SlugTail(u.decompose(Transliterate(u.lower(name), UMLAUT_TABLE)))
  }

  method Slugify(u: Unicode, name: string) returns (slug: string)
    ensures slug == Slug(u, name)
    ensures Canonical(slug)
  {
    var text := u.lower(name);
    for i := 0 to |UMLAUT_TABLE|
      invariant Transliterate(text, UMLAUT_TABLE[i..]) == Transliterate(u.lower(name), UMLAUT_TABLE)
    {
      assert UMLAUT_TABLE[i..][1..] == UMLAUT_TABLE[i + 1..];
      text := ReplaceChar(text, UMLAUT_TABLE[i].0, UMLAUT_TABLE[i].1);
    }
    text := u.decompose(text);
    text := Collapse(text, false);
    text := Strip(text);
    text := Strip(Truncate(text));
    slug := if text != "" then text else FALLBACK_SLUG;
    SlugIsCanonical(u, name);
  }

  predicate SingleUnderscores(s: string) {
    forall i :: 0 <= i < |s| - 1 ==> s[i] != '_' || s[i + 1] != '_'
  }

  predicate NoEdgeUnderscore(s: string) {
    s != "" ==> s[0] != '_' && s[|s| - 1] != '_'
  }

  /** What a slug promises to a topic: 1 to 64 characters of `[a-z0-9_]`, underscores only between. */
  predicate Canonical(s: string) {
    1 <= |s| <= MAX_SLUG_LENGTH && SlugChars(s) && SingleUnderscores(s) && NoEdgeUnderscore(s)
  }

  lemma {:induction false} CollapseShape(text: string, inRun: bool)
    ensures var s := Collapse(text, inRun);
            SlugChars(s) && SingleUnderscores(s) && (inRun && s != "" ==> s[0] != '_')
  {
    if text != "" {
      if IsAlnum(text[0]) {
        CollapseShape(text[1..], false);
      } else {
        CollapseShape(text[1..], true);
      }
    }
  }

  lemma {:induction false} StripLeftShape(s: string)
    requires SlugChars(s) && SingleUnderscores(s)
    ensures var t := StripLeft(s);
            SlugChars(t) && SingleUnderscores(t) && |t| <= |s| && (t != "" ==> t[0] != '_')
  {
    if s != "" && s[0] == '_' {
      StripLeftShape(s[1..]);
    }
  }

  lemma {:induction false} StripRightShape(s: string)
    requires SlugChars(s) && SingleUnderscores(s) && (s != "" ==> s[0] != '_')
    ensures var t := StripRight(s);
            SlugChars(t) && SingleUnderscores(t) && |t| <= |s| && NoEdgeUnderscore(t)
  {
    if s != "" && s[|s| - 1] == '_' {
      StripRightShape(s[..|s| - 1]);
    }
  }

  lemma StripShape(s: string)
    requires SlugChars(s) && SingleUnderscores(s)
    ensures var t := Strip(s);
            SlugChars(t) && SingleUnderscores(t) && |t| <= |s| && NoEdgeUnderscore(t)
  {
    StripLeftShape(s);
    StripRightShape(StripLeft(s));
  }

  lemma SlugTailIsCanonical(text: string)
    ensures Canonical(SlugTail(text))
  {
    CollapseShape(text, false);
    StripShape(Collapse(text, false));
    StripShape(Truncate(Strip(Collapse(text, false))));
  }

  /** Every name, even an empty or purely symbolic one, gets a topic-safe slug. */
  lemma SlugIsCanonical(u: Unicode, name: string)
    ensures Canonical(Slug(u, name))
  {
    SlugTailIsCanonical(u.decompose(Transliterate(u.lower(name), UMLAUT_TABLE)));
  }

  lemma {:induction false} CollapseKeeps(s: string, inRun: bool)
    requires SlugChars(s) && SingleUnderscores(s) && (inRun && s != "" ==> s[0] != '_')
    ensures Collapse(s, inRun) == s
  {
    if s != "" {
      CollapseKeeps(s[1..], !IsAlnum(s[0]));
      assert [s[0]] + s[1..] == s;
    }
  }

  lemma {:induction false} ReplaceKeeps(s: string, c: char, r: string)
    requires SlugChars(s) && c as int >= 128
    ensures ReplaceChar(s, c, r) == s
  {
    if s != "" {
      ReplaceKeeps(s[1..], c, r);
      assert [s[0]] + s[1..] == s;
    }
  }

  lemma {:induction false} TransliterateKeeps(s: string, table: seq<(char, string)>)
    requires SlugChars(s) && forall i :: 0 <= i < |table| ==> table[i].0 as int >= 128
    ensures Transliterate(s, table) == s
    decreases |table|
  {
    if table != [] {
      ReplaceKeeps(s, table[0].0, table[0].1);
      TransliterateKeeps(s, table[1..]);
    }
  }

  lemma CanonicalStays(s: string)
    requires Canonical(s)
    ensures SlugTail(s) == s
  {
    hide SingleUnderscores, SlugChars;
    CollapseKeeps(s, false);
  }

  /** `slugify` leaves a string alone exactly when it is already canonical. */
  lemma SlugFixedPoints(u: Unicode, s: string)
    requires KeepsAscii(u)
    ensures Slug(u, s) == s <==> Canonical(s)
  {
    hide SlugTail, Transliterate, SlugChars, SingleUnderscores, NoEdgeUnderscore;
    if Canonical(s) {
      TransliterateKeeps(s, UMLAUT_TABLE);
      CanonicalStays(s);
    }
    SlugIsCanonical(u, s);
  }

  lemma SlugIsIdempotent(u: Unicode, name: string)
    requires KeepsAscii(u)
    ensures Slug(u, Slug(u, name)) == Slug(u, name)
  {
    SlugIsCanonical(u, name);
    SlugFixedPoints(u, Slug(u, name));
  }

  // ---------------------------------------------------------------- slug options

  datatype SlugCandidate = SlugCandidate(entityId: string, name: string, area: Option<string>, channelId: string)

  function AreaTier(u: Unicode, c: SlugCandidate): seq<string> {
    if c.area.Some? && c.area.value != "" then [Slug(u, c.area.value + "_" + c.name)] else []
  }

  /** The channel suffix is put on after slugifying, so that option can be longer than a slug. */
  function ClaimOf(u: Unicode, c: SlugCandidate): Claim {
    var named := [Slug(u, c.name)] + AreaTier(u, c);
    Claim(c.entityId, named + [named[|named| - 1] + "_" + Slug(u, c.channelId), Slug(u, c.entityId)])
  }

  function ClaimsOf(u: Unicode, cs: seq<SlugCandidate>): (claims: seq<Claim>)
    ensures |claims| == |cs|
    ensures forall i :: 0 <= i < |cs| ==> claims[i] == ClaimOf(u, cs[i])
  {
    if cs == [] then [] else [ClaimOf(u, cs[0])] + ClaimsOf(u, cs[1..])
  }

  method SlugOptions(u: Unicode, c: SlugCandidate) returns (options: seq<string>)
    ensures options == ClaimOf(u, c).options
  {
    var primary := Slugify(u, c.name);
    options := [primary];
    if c.area.Some? && c.area.value != "" {
      var withArea := Slugify(u, c.area.value + "_" + c.name);
      options := options + [withArea];
    }
    var channel := Slugify(u, c.channelId);
    options := options + [options[|options| - 1] + "_" + channel];
    var id := Slugify(u, c.entityId);
    options := options + [id];
  }

  /** What any topic segment keeps: `[a-z0-9_]`, never empty, but up to 129 characters. */
  predicate TopicSafe(s: string) {
    1 <= |s| <= 2 * MAX_SLUG_LENGTH + 1 && SlugChars(s)
  }

  lemma OptionsAreTopicSafe(u: Unicode, c: SlugCandidate)
    ensures forall o :: o in ClaimOf(u, c).options ==> TopicSafe(o)
  {
    hide Slug;
    SlugIsCanonical(u, c.name);
    SlugIsCanonical(u, c.channelId);
    SlugIsCanonical(u, c.entityId);
    if c.area.Some? && c.area.value != "" {
      OptionsWithArea(u, c);
      SlugIsCanonical(u, c.area.value + "_" + c.name);
    }
  }

  lemma {:induction false} ClaimsAreTopicSafe(u: Unicode, cs: seq<SlugCandidate>)
    ensures forall claim, o :: claim in ClaimsOf(u, cs) && o in claim.options ==> TopicSafe(o)
  {
    if cs != [] {
      OptionsAreTopicSafe(u, cs[0]);
      ClaimsAreTopicSafe(u, cs[1..]);
      hide ClaimOf, TopicSafe;
    }
  }

  /** Every assigned slug is safe as one topic segment, in particular free of slashes and wildcards. */
  lemma AssignedSlugsAreTopicSafe(u: Unicode, cs: seq<SlugCandidate>, id: string)
    requires DistinctIds(ClaimsOf(u, cs)) && Resolve(ClaimsOf(u, cs)).Resolved?
    requires id in Resolve(ClaimsOf(u, cs)).slugs
    ensures TopicSafe(Resolve(ClaimsOf(u, cs)).slugs[id])
  {
    var claims := ClaimsOf(u, cs);
    SlugsAreDistinct(claims);
    IdsAreOfMembers(claims);
    ClaimsAreTopicSafe(u, cs);
    hide ClaimOf, TopicSafe, Resolve;
  }

  lemma OptionsWithArea(u: Unicode, c: SlugCandidate)
    requires c.area.Some? && c.area.value != ""
    ensures var inArea := Slug(u, c.area.value + "_" + c.name);
            ClaimOf(u, c) == Claim(c.entityId,
                [Slug(u, c.name), inArea, inArea + "_" + Slug(u, c.channelId), Slug(u, c.entityId)])
  {
  }

  lemma ClaimsOfPair(u: Unicode, c: SlugCandidate, d: SlugCandidate)
    ensures ClaimsOf(u, [c, d]) == [ClaimOf(u, c), ClaimOf(u, d)]
  {
    hide ClaimOf;
    assert [c, d][1..] == [d] && [d][1..] == [];
  }

  lemma TiedPairOfCandidates(u: Unicode, c: SlugCandidate, d: SlugCandidate)
    requires Before(c.entityId, d.entityId) && c.name == d.name && c.area == d.area && c.area.Some? &&
             c.area.value != ""
    ensures var cs, inArea := [c, d], Slug(u, c.area.value + "_" + c.name);
            && DistinctIds(ClaimsOf(u, cs))
            && Resolve(ClaimsOf(u, cs)) ==
               Resolved(map[c.entityId := inArea, d.entityId := inArea + "_" + Slug(u, d.channelId)])
  {
    hide ClaimOf, Slug, ClaimsOf, AtMost, Resolve;
    OptionsWithArea(u, c);
    OptionsWithArea(u, d);
    ClaimsOfPair(u, c, d);
    var x, y := ClaimOf(u, c), ClaimOf(u, d);
    assert x.options[..2] == [x.options[0], x.options[1]] == y.options[..2];
    assert |y.options[2]| > |x.options[1]|;
    assert [x, y][1..] == [y] && [y][1..] == [];
    assert Ids([y]) == {y.id} && DistinctIds([y]);
    ResolveTiedPair(x, y);
  }

  /** An entity of that name, alone in having it, gets the slug `bridge` like any other name. */
  lemma BridgeIsASlug(u: Unicode, c: SlugCandidate)
    requires KeepsAscii(u) && c.name == "bridge"
    ensures Resolve(ClaimsOf(u, [c])) == Resolved(map[c.entityId := "bridge"])
  {
    hide Slug, Canonical, KeepsAscii, Resolve;
    SlugFixedPoints(u, "bridge");
    BridgeIsCanonical();
    var claim := ClaimOf(u, c);
    assert claim.options != [] && claim.options[0] == "bridge" && claim.id == c.entityId;
    assert ClaimsOf(u, [c]) == [claim];
    AloneGetsBareName(claim);
  }

  lemma BridgeIsCanonical()
    ensures Canonical("bridge")
  {
  }

  // ---------------------------------------------------------------- slugs that are too long

  /** The slug the channel suffix is put on. */
  function Stem(u: Unicode, c: SlugCandidate): string {
    if c.area.Some? && c.area.value != "" then Slug(u, c.area.value + "_" + c.name) else Slug(u, c.name)
  }

  function ChannelOption(u: Unicode, c: SlugCandidate): string {
    Stem(u, c) + "_" + Slug(u, c.channelId)
  }

  /** Stem and channel suffix together leave no room for the underscore. */
  predicate Overlong(u: Unicode, c: SlugCandidate) {
    |Stem(u, c)| + |Slug(u, c.channelId)| >= MAX_SLUG_LENGTH
  }

  lemma OptionsOfCandidate(u: Unicode, c: SlugCandidate)
    ensures ClaimOf(u, c).options ==
            [Slug(u, c.name)] + AreaTier(u, c) + [ChannelOption(u, c), Slug(u, c.entityId)]
  {
    hide Slug;
  }

  /** An option is longer than a slug exactly when it is the channel option and that is overlong. */
  lemma OptionIsTooLongIff(u: Unicode, c: SlugCandidate, option: string)
    requires option in ClaimOf(u, c).options
    ensures |option| > MAX_SLUG_LENGTH <==> option == ChannelOption(u, c) && Overlong(u, c)
  {
    OptionsOfCandidate(u, c);
    SlugIsCanonical(u, c.name);
    SlugIsCanonical(u, c.entityId);
    if c.area.Some? && c.area.value != "" {
      SlugIsCanonical(u, c.area.value + "_" + c.name);
    }
    hide Slug, ClaimOf;
  }

  /** An assigned slug keeps within 64 characters unless it is an overlong channel option. */
  lemma AssignedSlugIsTooLongIff(u: Unicode, cs: seq<SlugCandidate>, c: SlugCandidate)
    requires c in cs && DistinctIds(ClaimsOf(u, cs)) && Resolve(ClaimsOf(u, cs)).Resolved?
    ensures c.entityId in Resolve(ClaimsOf(u, cs)).slugs
    ensures var slug := Resolve(ClaimsOf(u, cs)).slugs[c.entityId];
            |slug| > MAX_SLUG_LENGTH <==> slug == ChannelOption(u, c) && Overlong(u, c)
  {
    var claims := ClaimsOf(u, cs);
    SlugsAreDistinct(claims);
    assert ClaimOf(u, c).id == c.entityId;
    hide ClaimOf, Resolve, ChannelOption, Overlong;
    var i :| 0 <= i < |cs| && cs[i] == c;
    assert claims[i] in claims;
    OptionIsTooLongIff(u, c, Resolve(claims).slugs[c.entityId]);
  }

  lemma TiedPairWithoutArea(u: Unicode, c: SlugCandidate, d: SlugCandidate)
    requires Before(c.entityId, d.entityId) && c.name == d.name && c.channelId == d.channelId
    requires AreaTier(u, c) == AreaTier(u, d) == [] && Overlong(u, c)
    ensures DistinctIds(ClaimsOf(u, [c, d])) && ClaimsOf(u, [c, d]) == [ClaimOf(u, c), ClaimOf(u, d)]
    ensures Resolve(ClaimsOf(u, [c, d])) ==
            Resolved(map[c.entityId := ChannelOption(u, c), d.entityId := Slug(u, d.entityId)])
  {
    OptionsOfCandidate(u, c);
    OptionsOfCandidate(u, d);
    ClaimsOfPair(u, c, d);
    SlugIsCanonical(u, d.entityId);
    var x, y := ClaimOf(u, c), ClaimOf(u, d);
    assert x.id == c.entityId && y.id == d.entityId;
    hide ClaimOf, Slug, ClaimsOf, AtMost, Resolve;
    assert x.options[..2] == [x.options[0], x.options[1]] == y.options[..2];
    assert [x, y][1..] == [y] && [y][1..] == [];
    assert Ids([y]) == {y.id} && DistinctIds([y]);
    ResolveTiedPair(x, y);
  }

  /**
   The documented slug pattern allows 64 characters. For every name, area and channel whose channel option
   is overlong there are two entities of which one gets that slug.
   */
  lemma EscalatedSlugCanBeTooLong(u: Unicode, name: string, area: Option<string>, channelId: string)
    returns (cs: seq<SlugCandidate>, c: SlugCandidate)
    requires Overlong(u, SlugCandidate("x", name, area, channelId))
    ensures c in cs && c.name == name && c.area == area && c.channelId == channelId
    ensures DistinctIds(ClaimsOf(u, cs)) && Resolve(ClaimsOf(u, cs)).Resolved?
    ensures c.entityId in Resolve(ClaimsOf(u, cs)).slugs
    ensures |Resolve(ClaimsOf(u, cs)).slugs[c.entityId]| > MAX_SLUG_LENGTH
  {
    assert Before("x", "y");
    hide AtMost, Resolve, ClaimsOf, Slug, DistinctIds;
    var first, second := SlugCandidate("x", name, area, channelId), SlugCandidate("y", name, area, channelId);
    cs := [first, second];
    if area.Some? && area.value != "" {
      TiedPairOfCandidates(u, first, second);
      c := second;
    } else {
      TiedPairWithoutArea(u, first, second);
      c := first;
    }
  }

  /** The claims of three candidates of one name in one area are tied. */
  lemma CandidatesTie(u: Unicode, a: SlugCandidate, b: SlugCandidate, c: SlugCandidate)
    requires Before(a.entityId, b.entityId) && Before(b.entityId, c.entityId)
    requires a.name == b.name == c.name && a.area == b.area == c.area && b.area.Some? && b.area.value != ""
    requires Slug(u, b.area.value + "_" + b.name) != Slug(u, b.name)
    requires Slug(u, b.channelId) != Slug(u, c.channelId)
    ensures Tied(ClaimOf(u, a), ClaimOf(u, b), ClaimOf(u, c))
    ensures ClaimOf(u, b).options[1] == Slug(u, b.area.value + "_" + b.name)
  {
    BeforeIsTransitive(a.entityId, b.entityId, c.entityId);
    OptionsWithArea(u, a);
    OptionsWithArea(u, b);
    OptionsWithArea(u, c);
    var x, y, z := ClaimOf(u, a), ClaimOf(u, b), ClaimOf(u, c);
    hide ClaimOf, Slug, Before;
    assert x.options[..2] == [x.options[0], x.options[1]] == y.options[..2] == z.options[..2];
    SuffixesDiffer(y.options[1], Slug(u, b.channelId), Slug(u, c.channelId));
    assert |x.options[2]| > |x.options[1]| && |y.options[2]| > |x.options[1]| && |z.options[2]| > |x.options[1]|;
  }

  /**
   Of entities with one name in one area, the smallest id holds the area slug. Adding such an entity
   with a still smaller id moves that slug, and so the topic, from the old holder to the newcomer.
   */
  lemma NewcomerCanTakeATopic(u: Unicode, newcomer: SlugCandidate, holder: SlugCandidate, third: SlugCandidate)
    requires Before(newcomer.entityId, holder.entityId) && Before(holder.entityId, third.entityId)
    requires newcomer.name == holder.name == third.name
    requires newcomer.area == holder.area == third.area && holder.area.Some? && holder.area.value != ""
    requires Slug(u, holder.area.value + "_" + holder.name) != Slug(u, holder.name)
    requires Slug(u, holder.channelId) != Slug(u, third.channelId)
    ensures var inArea := Slug(u, holder.area.value + "_" + holder.name);
            var before, after := Resolve([ClaimOf(u, holder), ClaimOf(u, third)]),
                                 Resolve([ClaimOf(u, newcomer), ClaimOf(u, holder), ClaimOf(u, third)]);
            && before.Resolved? && holder.entityId in before.slugs && before.slugs[holder.entityId] == inArea
            && after.Resolved? && newcomer.entityId in after.slugs && after.slugs[newcomer.entityId] == inArea
            && holder.entityId in after.slugs && after.slugs[holder.entityId] != inArea
  {
    CandidatesTie(u, newcomer, holder, third);
    IdOfClaim(u, newcomer);
    IdOfClaim(u, holder);
    IdOfClaim(u, third);
    var n, h, t := ClaimOf(u, newcomer), ClaimOf(u, holder), ClaimOf(u, third);
    assert h.id != n.id && h.id != t.id;
    hide ClaimOf, Slug, Before, Resolve;
    NewcomerCanTakeASlug(n, h, t);
    hide Tied;
  }

  lemma IdOfClaim(u: Unicode, c: SlugCandidate)
    ensures ClaimOf(u, c).id == c.entityId
  {
    hide Slug;
  }

  lemma SuffixesDiffer(stem: string, a: string, b: string)
    requires a != b
    ensures stem + "_" + a != stem + "_" + b
  {
    assert (stem + "_" + a)[|stem| + 1..] == a;
    assert (stem + "_" + b)[|stem| + 1..] == b;
  }
}
