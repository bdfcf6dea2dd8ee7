/** `compile` itself: the tables it builds over all collected channels, and what they promise each other. */
module Compiler {
  import opened Lists
  import opened Wrappers
  import opened Text
  import opened Values
  import opened Bits
  import opened State
  import opened Publishing
  import opened Interleaving
  import opened Ingress
  import opened Claims
  import opened Naming
  import opened Topics
  import opened Profiles
  import opened Collect
  import opened Tables
  import Resync

  datatype CompileOptions = CompileOptions(
    collect: Options,
    topicPrefix: string,
    idStyle: bool,
    aliases: map<string, string>,
    unicode: Unicode)

  datatype Model = Model(
    entities: seq<Entity>,
    ingress: Table,
    egress: Egress,
    byId: map<string, nat>,
    byTopic: map<string, nat>,
    initial: seq<seq<Json>>)

  const EMPTY := Model([], map[], map[], map[], map[], [])

  datatype Compilation = Compilation(model: Model, tally: Tally, entitiesCreated: nat)

  // ---------------------------------------------------------------- names

  function CandidateOf(o: CompileOptions, c: CompiledChannel): SlugCandidate {
    SlugCandidate(c.entityId, if c.entityId in o.aliases then o.aliases[c.entityId] else c.name, c.area, c.channelId)
  }

  function ClaimsFor(o: CompileOptions, cs: seq<CompiledChannel>): (claims: seq<Claim>)
    ensures |claims| == |cs| && forall i :: 0 <= i < |cs| ==> claims[i] == ClaimOf(o.unicode, CandidateOf(o, cs[i]))
  {
    ClaimsOf(o.unicode, seq(|cs|, i requires 0 <= i < |cs| => CandidateOf(o, cs[i])))
  }

  function SlugsFor(o: CompileOptions, cs: seq<CompiledChannel>): Resolution {
    Resolve(ClaimsFor(o, cs))
  }

  predicate Named(slugs: map<string, string>, cs: seq<CompiledChannel>) {
    forall i :: 0 <= i < |cs| ==> cs[i].entityId in slugs
  }

  lemma {:induction false} ResolvedIsNamed(o: CompileOptions, cs: seq<CompiledChannel>)
    requires SlugsFor(o, cs).Resolved?
    ensures Named(SlugsFor(o, cs).slugs, cs)
  {
    var claims := ClaimsFor(o, cs);
    ResolutionNamesEveryone(claims);
    hide Resolve, ClaimOf, ClaimsFor;
    forall i | 0 <= i < |cs| ensures cs[i].entityId in SlugsFor(o, cs).slugs {
      ClaimOfId(o.unicode, CandidateOf(o, cs[i]));
      assert claims[i] in claims;
    }
  }

  lemma ClaimOfId(u: Unicode, c: SlugCandidate)
    ensures ClaimOf(u, c).id == c.entityId
  {
    hide Slug;
  }

  // ---------------------------------------------------------------- one entity

  function TopicSlug(o: CompileOptions, c: CompiledChannel, slug: string): string {
    if o.idStyle then Slug(o.unicode, c.entityId) else slug
  }

  function EntityOf(o: CompileOptions, c: CompiledChannel, names: seq<string>, kinds: seq<Kind>, slug: string): Entity {
    var stateTopic := StateTopic(o.topicPrefix, TopicSlug(o, c, slug));
    Entity(c.entityId, names, kinds, stateTopic,
      if c.profile.perDevice then Some(AvailabilityTopic(stateTopic)) else None, c.profile.transform)
  }

  ghost function AttributesAt(c: CompiledChannel, i: nat): Attributes {
    AttributesFrom(c, i, KeptAttributes(c, c.profile.attributes))
  }

  /** What makes the compiler give up on a channel: its attributes are looked at before its commands. */
  ghost function ChannelFault(c: CompiledChannel): Option<CompileError> {
    if FirstFault(c, c.profile.attributes).Some? then FirstFault(c, c.profile.attributes)
    else FirstCommandFault(c, c.profile.commands)
  }

  ghost function Extended(o: CompileOptions, m: Model, c: CompiledChannel, slug: string): Model {
    var idx := |m.entities|;
    var a := AttributesAt(c, idx);
    Model(
      m.entities + [EntityOf(o, c, a.names, a.kinds, slug)],
      m.ingress + a.bindings,
      m.egress + EgressFrom(c, idx, a.names, c.profile.commands),
      m.byId[c.entityId := idx],
      m.byTopic[slug := idx],
      m.initial + [a.initial])
  }

  ghost function ModelOf(o: CompileOptions, slugs: map<string, string>, cs: seq<CompiledChannel>): Model
    requires Named(slugs, cs)
  {
    if cs == [] then EMPTY
    else
      var last := |cs| - 1;
      Extended(o, ModelOf(o, slugs, cs[..last]), cs[last], slugs[cs[last].entityId])
  }

  ghost function FirstChannelFault(cs: seq<CompiledChannel>): Option<CompileError> {
    if cs == [] then None
    else
      var last := |cs| - 1;
      if FirstChannelFault(cs[..last]).Some? then FirstChannelFault(cs[..last]) else ChannelFault(cs[last])
  }

  ghost function CompiledFrom(o: CompileOptions, cs: seq<CompiledChannel>): Result<Model> {
    var r := SlugsFor(o, cs);
    if r.Collided? then Error(SlugCollision(r.id))
    else if FirstChannelFault(cs).Some? then Error(FirstChannelFault(cs).value)
    else
      ResolvedIsNamed(o, cs);
      Ok(ModelOf(o, r.slugs, cs))
  }

  ghost function CompileOf(config: Configuration, registry: seq<Profile>, o: CompileOptions): Result<Compilation> {
    var w := Collected(config, registry, o.collect);
    var m := CompiledFrom(o, w.channels);
    if m.Error? then Error(m.error) else Ok(Compilation(m.value, w.tally, |w.channels|))
  }

  // ---------------------------------------------------------------- the loop

  lemma NextChannel(o: CompileOptions, slugs: map<string, string>, cs: seq<CompiledChannel>, i: nat)
    requires Named(slugs, cs) && i < |cs|
    ensures ModelOf(o, slugs, cs[..i + 1]) == Extended(o, ModelOf(o, slugs, cs[..i]), cs[i], slugs[cs[i].entityId])
    ensures FirstChannelFault(cs[..i + 1]) ==
            if FirstChannelFault(cs[..i]).Some? then FirstChannelFault(cs[..i]) else ChannelFault(cs[i])
  {
    assert cs[..i + 1][..i] == cs[..i];
  }

  lemma {:induction false} ChannelFaultStays(cs: seq<CompiledChannel>, i: nat)
    requires i <= |cs| && FirstChannelFault(cs[..i]).Some?
    ensures FirstChannelFault(cs) == FirstChannelFault(cs[..i])
    decreases |cs| - i
  {
    hide ChannelFault;
    if i == |cs| {
      assert cs[..i] == cs;
    } else {
      assert cs[..i + 1][..i] == cs[..i];
      ChannelFaultStays(cs, i + 1);
    }
  }

  method BuildEntity(o: CompileOptions, m: Model, c: CompiledChannel, slug: string) returns (r: Result<Model>)
    ensures r == if ChannelFault(c).Some? then Error(ChannelFault(c).value) else Ok(Extended(o, m, c, slug))
  {
    hide FirstFault, FirstCommandFault, KeptAttributes, EgressFrom, EntityOf;
    var idx := |m.entities|;
    var attrs := BuildAttributes(c, idx);
    if attrs.Error? {
      return Error(attrs.error);
    }
    var a := attrs.value;
    var egress := BuildCommands(c, idx, a.names);
    if egress.Error? {
      return Error(egress.error);
    }
    r := Ok(Model(
      m.entities + [EntityOf(o, c, a.names, a.kinds, slug)],
      m.ingress + a.bindings,
      m.egress + egress.value,
      m.byId[c.entityId := idx],
      m.byTopic[slug := idx],
      m.initial + [a.initial]));
  }

  method BuildModel(o: CompileOptions, slugs: map<string, string>, cs: seq<CompiledChannel>)
    returns (r: Result<Model>, created: nat)
    requires Named(slugs, cs)
    ensures r == if FirstChannelFault(cs).Some? then Error(FirstChannelFault(cs).value) else Ok(ModelOf(o, slugs, cs))
    ensures r.Ok? ==> created == |cs|
  {
    hide Extended, ChannelFault, ModelOf, FirstChannelFault;
    var m := EMPTY;
    created := 0;
    NoChannels(o, slugs);
    for i := 0 to |cs|
      invariant created == i && FirstChannelFault(cs[..i]).None?
      invariant m == ModelOf(o, slugs, cs[..i])
    {
      NextChannel(o, slugs, cs, i);
      var next := BuildEntity(o, m, cs[i], slugs[cs[i].entityId]);
      if next.Error? {
        ChannelFaultStays(cs, i + 1);
        return Error(next.error), created;
      }
      m, created := next.value, created + 1;
    }
    assert cs[..|cs|] == cs;
    r := Ok(m);
  }

  method Compile(config: Configuration, registry: seq<Profile>, o: CompileOptions) returns (r: Result<Compilation>)
    ensures r == CompileOf(config, registry, o)
  {
    hide ModelOf, FirstChannelFault, Collected, ClaimsFor, Resolve;
    var w := CollectChannels(config, registry, o.collect);
    var cs := w.channels;
    var resolution := ResolveSlugs(ClaimsFor(o, cs));
    if resolution.Collided? {
      return Error(SlugCollision(resolution.id));
    }
    ResolvedIsNamed(o, cs);
    var m, created := BuildModel(o, resolution.slugs, cs);
    r := if m.Error? then Error(m.error) else Ok(Compilation(m.value, w.tally, created));
  }

  lemma NoChannels(o: CompileOptions, slugs: map<string, string>)
    ensures ModelOf(o, slugs, []) == EMPTY && FirstChannelFault([]).None?
  {
  }

  /** Every channel of every included device is an entity, or counted under exactly one reason. */
  lemma {:induction false} StatsAddUp(config: Configuration, registry: seq<Profile>, o: CompileOptions)
    requires CompileOf(config, registry, o).Ok?
    ensures var r := CompileOf(config, registry, o).value;
            && r.entitiesCreated == |r.model.entities|
            && r.tally.channelsTotal == |AllVisits(config, o.collect)|
            && r.tally.channelsTotal == r.entitiesCreated + r.tally.orphaned + r.tally.unknownFunction +
                                        r.tally.unsupported + r.tally.excludedByOption
  {
    hide Collected, AllVisits, SlugsFor, ModelOf, FirstChannelFault;
    ChannelsAreConserved(config, registry, o.collect);
    var cs := Collected(config, registry, o.collect).channels;
    CompiledIsFold(o, cs);
    ModelIds(o, SlugsFor(o, cs).slugs, cs);
  }

  // ---------------------------------------------------------------- the shape of the tables

  lemma {:induction false} ModelShape(o: CompileOptions, slugs: map<string, string>, cs: seq<CompiledChannel>)
    requires Named(slugs, cs)
    ensures var m := ModelOf(o, slugs, cs);
            && |m.entities| == |m.initial| == |cs|
            && (forall i :: 0 <= i < |cs| ==>
                  var a := AttributesAt(cs[i], i);
                  m.entities[i] == EntityOf(o, cs[i], a.names, a.kinds, slugs[cs[i].entityId]) &&
                    m.initial[i] == a.initial)
  {
    hide AttributesAt, EntityOf;
    if cs != [] {
      ModelShape(o, slugs, cs[..|cs| - 1]);
    }
  }

  lemma MapsGrow(o: CompileOptions, m: Model, c: CompiledChannel, slug: string)
    ensures Extended(o, m, c, slug).byId == m.byId[c.entityId := |m.entities|]
    ensures Extended(o, m, c, slug).byTopic == m.byTopic[slug := |m.entities|]
    ensures Extended(o, m, c, slug).ingress == m.ingress + AttributesAt(c, |m.entities|).bindings
  {
    hide AttributesAt, EntityOf, EgressFrom;
  }

  /** What the last channel adds to the lookup tables. */
  lemma {:induction false} LastChannel(o: CompileOptions, slugs: map<string, string>, cs: seq<CompiledChannel>)
    requires Named(slugs, cs) && cs != []
    ensures var last := |cs| - 1;
            var m, n := ModelOf(o, slugs, cs[..last]), ModelOf(o, slugs, cs);
            && n.byId == m.byId[cs[last].entityId := last] && n.byTopic == m.byTopic[slugs[cs[last].entityId] := last]
            && n.ingress == m.ingress + AttributesAt(cs[last], last).bindings
  {
    hide Extended, AttributesAt, EntityOf;
    var last := |cs| - 1;
    ModelShape(o, slugs, cs[..last]);
    MapsGrow(o, ModelOf(o, slugs, cs[..last]), cs[last], slugs[cs[last].entityId]);
  }

  lemma {:induction false} IdsShape(o: CompileOptions, slugs: map<string, string>, cs: seq<CompiledChannel>)
    requires Named(slugs, cs)
    ensures var byId := ModelOf(o, slugs, cs).byId;
            && (forall i :: 0 <= i < |cs| ==> cs[i].entityId in byId && i <= byId[cs[i].entityId] < |cs|)
            && (forall id :: id in byId ==> byId[id] < |cs| && cs[byId[id]].entityId == id)
  {
    hide ModelOf, AttributesAt;
    if cs == [] {
      NoChannels(o, slugs);
    } else {
      LastChannel(o, slugs, cs);
      IdsShape(o, slugs, cs[..|cs| - 1]);
    }
  }

  lemma {:induction false} TopicsShape(o: CompileOptions, slugs: map<string, string>, cs: seq<CompiledChannel>)
    requires Named(slugs, cs)
    ensures var byTopic := ModelOf(o, slugs, cs).byTopic;
            && (forall i :: 0 <= i < |cs| ==>
                  slugs[cs[i].entityId] in byTopic && i <= byTopic[slugs[cs[i].entityId]] < |cs|)
            && (forall s :: s in byTopic ==> byTopic[s] < |cs| && slugs[cs[byTopic[s]].entityId] == s)
  {
    hide ModelOf, AttributesAt;
    if cs == [] {
      NoChannels(o, slugs);
    } else {
      LastChannel(o, slugs, cs);
      TopicsShape(o, slugs, cs[..|cs| - 1]);
    }
  }

  predicate DistinctEntityIds(cs: seq<CompiledChannel>) {
    forall i, j :: 0 <= i < j < |cs| ==> cs[i].entityId != cs[j].entityId
  }

  /** `by_id` inverts the entity indices exactly when no two channels have the same entity id. */
  lemma {:induction false} IdsInvertIndicesIff(o: CompileOptions, slugs: map<string, string>, cs: seq<CompiledChannel>)
    requires Named(slugs, cs)
    ensures var m := ModelOf(o, slugs, cs);
            (forall i :: 0 <= i < |m.entities| ==> m.entities[i].id in m.byId && m.byId[m.entities[i].id] == i) <==>
            DistinctEntityIds(cs)
  {
    hide ModelOf;
    ModelIds(o, slugs, cs);
    IdsShape(o, slugs, cs);
  }

  /** With the channel ids of a SysAP the entity ids of a compilation are distinct. */
  lemma EntityIdsAreDistinct(config: Configuration, registry: seq<Profile>, o: CompileOptions)
    requires forall v :: InConfig(config, v) ==> UnderscoreFree(v.channelId)
    ensures DistinctEntityIds(Collected(config, registry, o.collect).channels)
  {
    CollectedAreSorted(config, registry, o.collect);
    var cs := Collected(config, registry, o.collect).channels;
    hide Collected, Matches, EntityId, UnderscoreFree, AtMost;
    forall i, j | 0 <= i < j < |cs| ensures cs[i].entityId != cs[j].entityId {
      assert ComesFrom(config, cs[i], VisitOf(cs[i])) && ComesFrom(config, cs[j], VisitOf(cs[j]));
      assert Earlier(VisitOf(cs[i]), VisitOf(cs[j]));
      EntityIdsDiffer(cs[i].serial, cs[i].channelId, cs[j].serial, cs[j].channelId);
    }
  }

  // ---------------------------------------------------------------- when it gives up

  lemma {:induction false} RequiredIsPresent(c: CompiledChannel)
    requires Matches(c.channel, c.profile)
    ensures ChannelFault(c).Some? ==> !ChannelFault(c).value.RequiredAbsent?
  {
    hide FirstFault, FirstCommandFault, Matches;
    FaultIff(c, c.profile.attributes);
    CommandFaultIff(c, c.profile.commands);
  }

  lemma {:induction false} ChannelFaultIff(cs: seq<CompiledChannel>)
    ensures FirstChannelFault(cs).Some? <==> exists i :: 0 <= i < |cs| && ChannelFault(cs[i]).Some?
    ensures (forall i :: 0 <= i < |cs| ==> Matches(cs[i].channel, cs[i].profile)) && FirstChannelFault(cs).Some? ==>
              !FirstChannelFault(cs).value.RequiredAbsent?
  {
    hide ChannelFault, Matches;
    if cs != [] {
      var last := |cs| - 1;
      ChannelFaultIff(cs[..last]);
      if Matches(cs[last].channel, cs[last].profile) {
        RequiredIsPresent(cs[last]);
      }
      forall i | 0 <= i < |cs[..last]| && ChannelFault(cs[..last][i]).Some? ensures ChannelFault(cs[i]).Some? {
      }
      forall i | 0 <= i < last && ChannelFault(cs[i]).Some? ensures ChannelFault(cs[..last][i]).Some? {
      }
    }
  }

  /** A miswired attribute or command, or a wrong codec: what a profile can do wrong on this channel. */
  ghost predicate Miswired(c: CompiledChannel) {
    (exists i :: 0 <= i < |c.profile.attributes| && AttributeFault(c, c.profile.attributes[i]).Some?) ||
    (exists i :: 0 <= i < |c.profile.commands| && CommandFault(c, c.profile.commands[i]).Some?)
  }

  lemma MiswiredIff(c: CompiledChannel)
    ensures ChannelFault(c).Some? <==> Miswired(c)
  {
    FaultIff(c, c.profile.attributes);
    CommandFaultIff(c, c.profile.commands);
    hide FirstFault, FirstCommandFault, AttributeFault, CommandFault;
  }

  /** Attribute `i` of the channel is the first at fault, or command `i` is and no attribute. */
  ghost predicate FirstWrong(c: CompiledChannel, i: nat, error: CompileError) {
    || (&& i < |c.profile.attributes| && AttributeFault(c, c.profile.attributes[i]) == Some(error)
        && forall j :: 0 <= j < i ==> AttributeFault(c, c.profile.attributes[j]).None?)
    || (&& (forall j :: 0 <= j < |c.profile.attributes| ==> AttributeFault(c, c.profile.attributes[j]).None?)
        && i < |c.profile.commands| && CommandFault(c, c.profile.commands[i]) == Some(error)
        && forall j :: 0 <= j < i ==> CommandFault(c, c.profile.commands[j]).None?)
  }

  lemma ChannelFaultIsFirst(c: CompiledChannel) returns (i: nat)
    requires ChannelFault(c).Some?
    ensures FirstWrong(c, i, ChannelFault(c).value)
  {
    hide AttributeFault, CommandFault, FirstFault, FirstCommandFault;
    FaultIff(c, c.profile.attributes);
    if FirstFault(c, c.profile.attributes).Some? {
      i := FirstFaultIsFirst(c, c.profile.attributes);
    } else {
      i := FirstCommandFaultIsFirst(c, c.profile.commands);
    }
  }

  lemma {:induction false} FirstChannelFaultIsFirst(cs: seq<CompiledChannel>) returns (k: nat)
    requires FirstChannelFault(cs).Some?
    ensures k < |cs| && ChannelFault(cs[k]) == FirstChannelFault(cs)
    ensures forall j :: 0 <= j < k ==> ChannelFault(cs[j]).None?
  {
    hide ChannelFault;
    var last := |cs| - 1;
    if FirstChannelFault(cs[..last]).Some? {
      k := FirstChannelFaultIsFirst(cs[..last]);
      assert forall j :: 0 <= j <= k ==> cs[..last][j] == cs[j];
    } else {
      k := last;
      ChannelFaultIff(cs[..last]);
      forall j | 0 <= j < last ensures ChannelFault(cs[j]).None? {
        assert cs[..last][j] == cs[j];
      }
    }
  }

  /** The error of a failed compilation: a slug collision, or else the first fault of the first channel at fault. */
  lemma CompileErrorIsFirst(config: Configuration, registry: seq<Profile>, o: CompileOptions)
    returns (k: nat, i: nat)
    requires CompileOf(config, registry, o).Error?
    ensures var cs, error := Collected(config, registry, o.collect).channels, CompileOf(config, registry, o).error;
            if SlugsFor(o, cs).Collided? then error == SlugCollision(SlugsFor(o, cs).id)
            else
              && k < |cs| && FirstWrong(cs[k], i, error)
              && forall j :: 0 <= j < k ==> ChannelFault(cs[j]).None?
  {
    hide Collected, SlugsFor, ModelOf, FirstChannelFault, ChannelFault, FirstWrong;
    var cs := Collected(config, registry, o.collect).channels;
    k, i := 0, 0;
    if SlugsFor(o, cs).Resolved? {
      k := FirstChannelFaultIsFirst(cs);
      i := ChannelFaultIsFirst(cs[k]);
    }
  }

  /**
   A compilation fails exactly when two entities cannot both be named or a collected channel is miswired;
   the compiler's own invariant, a required datapoint that is absent, is never violated.
   */
  lemma {:induction false} CompileFailsIff(config: Configuration, registry: seq<Profile>, o: CompileOptions)
    ensures var cs := Collected(config, registry, o.collect).channels;
            CompileOf(config, registry, o).Error? <==>
            SlugsFor(o, cs).Collided? || exists i :: 0 <= i < |cs| && Miswired(cs[i])
    ensures CompileOf(config, registry, o).Error? ==> !CompileOf(config, registry, o).error.RequiredAbsent?
  {
    hide Collected, SlugsFor, ModelOf, FirstChannelFault, ChannelFault, Miswired, Matches;
    var cs := Collected(config, registry, o.collect).channels;
    CollectedAreSorted(config, registry, o.collect);
    ChannelFaultIff(cs);
    forall i | 0 <= i < |cs| ensures ChannelFault(cs[i]).Some? <==> Miswired(cs[i]) {
      MiswiredIff(cs[i]);
    }
    forall i | 0 <= i < |cs| ensures Matches(cs[i].channel, cs[i].profile) {
      assert ComesFrom(config, cs[i], VisitOf(cs[i]));
    }
  }

  // ---------------------------------------------------------------- entities from channels

  /** The slug options of a channel, from its alias or name, its area, its channel id and its entity id. */
  lemma OptionsOfChannel(o: CompileOptions, c: CompiledChannel)
    ensures var name := if c.entityId in o.aliases then o.aliases[c.entityId] else c.name;
            var bare, own := Slug(o.unicode, name), Slug(o.unicode, c.entityId);
            var claim := ClaimsFor(o, [c])[0];
            && claim.id == c.entityId
            && claim.options ==
               match c.area
               case None => [bare, bare + "_" + Slug(o.unicode, c.channelId), own]
               case Some(area) =>
                 if area == "" then [bare, bare + "_" + Slug(o.unicode, c.channelId), own]
                 else
                   var inArea := Slug(o.unicode, area + "_" + name);
                   [bare, inArea, inArea + "_" + Slug(o.unicode, c.channelId), own]
  {
    hide Slug;
    if c.area.Some? && c.area.value != "" {
      OptionsWithArea(o.unicode, CandidateOf(o, c));
    }
  }

  /** An entity of the model: its id, its attributes, its topics and its transform. */
  lemma EntityMeans(o: CompileOptions, slugs: map<string, string>, cs: seq<CompiledChannel>, i: nat)
    requires Named(slugs, cs) && i < |cs|
    ensures |ModelOf(o, slugs, cs).entities| == |cs|
    ensures var e, c := ModelOf(o, slugs, cs).entities[i], cs[i];
            && e.id == c.entityId && e.transform == c.profile.transform
            && e.stateTopic ==
               o.topicPrefix + "/" + (if o.idStyle then Slug(o.unicode, c.entityId) else slugs[c.entityId])
            && e.availabilityTopic == (if c.profile.perDevice then Some(e.stateTopic + "/availability") else None)
            && |e.attrNames| == |e.attrKinds| == |Kept(c)|
            && (forall a :: 0 <= a < |Kept(c)| ==>
                  e.attrNames[a] == Kept(c)[a].name && e.attrKinds[a] == Kept(c)[a].kind)
  {
    hide ModelOf, AttributesAt, EntityOf, Kept;
    ModelShape(o, slugs, cs);
    var a := AttributesAt(cs[i], i);
    RowsOfKept(cs[i], i);
    EntityOfMeans(o, cs[i], a.names, a.kinds, slugs[cs[i].entityId]);
  }

  lemma RowsOfKept(c: CompiledChannel, i: nat)
    ensures var a := AttributesAt(c, i);
            && |a.names| == |a.kinds| == |Kept(c)|
            && (forall k :: 0 <= k < |Kept(c)| ==> a.names[k] == Kept(c)[k].name && a.kinds[k] == Kept(c)[k].kind)
  {
    hide KeptAttributes, AttributeKept, BindingsOf, InitialOf;
  }

  lemma EntityOfMeans(o: CompileOptions, c: CompiledChannel, names: seq<string>, kinds: seq<Kind>, slug: string)
    ensures var e := EntityOf(o, c, names, kinds, slug);
            && e.id == c.entityId && e.transform == c.profile.transform && e.attrNames == names && e.attrKinds == kinds
            && e.stateTopic == o.topicPrefix + "/" + (if o.idStyle then Slug(o.unicode, c.entityId) else slug)
            && e.availabilityTopic == (if c.profile.perDevice then Some(e.stateTopic + "/availability") else None)
  {
    hide Slug;
    var topic := EntityOf(o, c, names, kinds, slug).stateTopic;
    assert topic + "/" + "availability" == topic + "/availability";
  }

  // ---------------------------------------------------------------- the ingress table

  /** Channel `i` is the last one with an entry at this key. */
  ghost predicate Holder(cs: seq<CompiledChannel>, key: string, i: nat) {
    && i < |cs| && key in AttributesAt(cs[i], i).bindings
    && forall j :: i < j < |cs| ==> key !in AttributesAt(cs[j], j).bindings
  }

  lemma {:induction false} IngressAt(o: CompileOptions, slugs: map<string, string>, cs: seq<CompiledChannel>,
      key: string)
    requires Named(slugs, cs)
    ensures key in ModelOf(o, slugs, cs).ingress <==> exists i: nat :: Holder(cs, key, i)
    ensures forall i: nat :: Holder(cs, key, i) ==>
              ModelOf(o, slugs, cs).ingress[key] == AttributesAt(cs[i], i).bindings[key]
  {
    hide ModelOf, AttributesAt;
    if cs == [] {
      NoChannels(o, slugs);
    } else {
      var last := |cs| - 1;
      LastChannel(o, slugs, cs);
      IngressAt(o, slugs, cs[..last], key);
      if key in AttributesAt(cs[last], last).bindings {
        assert Holder(cs, key, last);
      } else {
        forall i: nat ensures Holder(cs, key, i) <==> Holder(cs[..last], key, i) {
          if Holder(cs[..last], key, i) {
            forall j | i < j < |cs| ensures key !in AttributesAt(cs[j], j).bindings {
              assert j < last ==> cs[..last][j] == cs[j];
            }
          }
        }
      }
    }
  }

  ghost function Kept(c: CompiledChannel): (kept: seq<AttributeSpec>)
    ensures AllKept(c, kept)
  {
    KeptAttributes(c, c.profile.attributes)
  }

  /** What an ingress entry promises: an attribute in range, its own bit, and the value it was seeded with. */
  ghost predicate EntryFits(m: Model, cs: seq<CompiledChannel>, key: string) {
    key in m.ingress &&
    var b := m.ingress[key];
    && b.entity < |m.entities| && b.entity < |m.initial| && b.entity < |cs|
    && b.attr < |m.entities[b.entity].attrNames| == |m.entities[b.entity].attrKinds| == |m.initial[b.entity]|
    && b.bits == Pow2(b.attr) && b.kind == m.entities[b.entity].attrKinds[b.attr]
    && exists dp :: dp in cs[b.entity].channel.outputs && key == IngressKey(cs[b.entity], dp) &&
         m.initial[b.entity][b.attr] == b.decode(cs[b.entity].channel.outputs[dp].value)
  }

  lemma EntryOfHolder(c: CompiledChannel, i: nat, key: string)
    requires key in AttributesAt(c, i).bindings
    ensures var b := AttributesAt(c, i).bindings[key];
            && GoodEntry(c, i, AttributesAt(c, i), key, b) && b.attr < |Kept(c)| &&
               key == AttributeKey(c, Kept(c)[b.attr])
  {
    EntriesAreGood(c, i, Kept(c), key);
    hide BindingsOf, KeptAttributes, AttributeKept, AttributeKey, InitialOf;
  }

  lemma EntryFitsModel(o: CompileOptions, slugs: map<string, string>, cs: seq<CompiledChannel>, key: string)
    requires Named(slugs, cs) && key in ModelOf(o, slugs, cs).ingress
    ensures EntryFits(ModelOf(o, slugs, cs), cs, key)
    ensures var b := ModelOf(o, slugs, cs).ingress[key];
            b.entity < |cs| && b.attr < |Kept(cs[b.entity])| &&
              key == AttributeKey(cs[b.entity], Kept(cs[b.entity])[b.attr])
  {
    hide ModelOf, AttributesAt, Kept, AttributeKey, TopicSlug, Pow2;
    ModelShape(o, slugs, cs);
    IngressAt(o, slugs, cs, key);
    var i: nat :| Holder(cs, key, i);
    EntryOfHolder(cs[i], i, key);
    AttributesAlign(cs[i], i);
    hide IngressKey;
  }

  lemma AttributesAlign(c: CompiledChannel, i: nat)
    ensures var a := AttributesAt(c, i); |a.names| == |a.kinds| == |a.initial| == |Kept(c)|
  {
    hide BindingsOf, KeptAttributes, AttributeKept, InitialOf;
  }

  /** No attribute has two ingress entries. */
  lemma EntriesAreOwn(o: CompileOptions, slugs: map<string, string>, cs: seq<CompiledChannel>)
    requires Named(slugs, cs)
    ensures OwnAttributes(ModelOf(o, slugs, cs).ingress)
  {
    var table := ModelOf(o, slugs, cs).ingress;
    forall j, k | j in table && k in table && (table[j].entity, table[j].attr) == (table[k].entity, table[k].attr)
      ensures j == k
    {
      EntryFitsModel(o, slugs, cs, j);
      EntryFitsModel(o, slugs, cs, k);
    }
    hide ModelOf;
  }

  predicate SlashFreeChannel(c: CompiledChannel) {
    '/' !in c.serial && '/' !in c.channelId && forall k :: k in c.channel.outputs ==> '/' !in k
  }

  /** What the SysAP's ids grant: no slash anywhere, and no channel twice. */
  predicate PlainChannels(cs: seq<CompiledChannel>) {
    && (forall i :: 0 <= i < |cs| ==> SlashFreeChannel(cs[i]))
    && (forall i, j :: 0 <= i < j < |cs| ==> VisitOf(cs[i]) != VisitOf(cs[j]))
  }

  lemma KeysOfChannelsDiffer(c: CompiledChannel, d: CompiledChannel, k: string, l: string)
    requires SlashFreeChannel(c) && SlashFreeChannel(d) && k in c.channel.outputs && l in d.channel.outputs
    requires IngressKey(c, k) == IngressKey(d, l)
    ensures VisitOf(c) == VisitOf(d)
  {
    var a, b := [c.serial, c.channelId, k], [d.serial, d.channelId, l];
    assert a[1..] == [c.channelId, k] && a[1..][1..] == [k] && b[1..] == [d.channelId, l] && b[1..][1..] == [l];
    assert Join(a[1..]) == c.channelId + "/" + Join(a[1..][1..]);
    assert Join(b[1..]) == d.channelId + "/" + Join(b[1..][1..]);
    assert c.serial + "/" + (c.channelId + "/" + k) == Join(a) && d.serial + "/" + (d.channelId + "/" + l) == Join(b);
    JoinIsInjective(a, b);
    assert a[0] == b[0] && a[1] == b[1];
  }

  /** Some datapoint key of the table leads to the attribute. */
  ghost predicate Reaches(table: Table, i: nat, attr: nat) {
    exists key :: key in table && table[key].entity == i && table[key].attr == attr
  }

  lemma {:induction false} ReachedThroughOwnEntry(o: CompileOptions, slugs: map<string, string>,
      cs: seq<CompiledChannel>, i: nat, attr: nat)
    requires Named(slugs, cs) && PlainChannels(cs) && i < |cs|
    ensures Reaches(ModelOf(o, slugs, cs).ingress, i, attr) <==>
            exists key :: key in AttributesAt(cs[i], i).bindings && AttributesAt(cs[i], i).bindings[key].attr == attr
  {
    hide ModelOf, AttributesAt, PlainChannels;
    var own, table := AttributesAt(cs[i], i).bindings, ModelOf(o, slugs, cs).ingress;
    forall key | key in own && own[key].attr == attr
      ensures key in table && table[key].entity == i && table[key].attr == attr
    {
      OwnEntryStays(cs, i, key);
      IngressAt(o, slugs, cs, key);
      EntryOfHolder(cs[i], i, key);
    }
    forall key | key in table && table[key].entity == i && table[key].attr == attr
      ensures key in own && own[key].attr == attr
    {
      IngressAt(o, slugs, cs, key);
      var h: nat :| Holder(cs, key, h);
      EntryOfHolder(cs[h], h, key);
    }
  }

  /**
   Each attribute can be read back, that is, some datapoint key leads to it, exactly when no later
   attribute of its entity has the same pairing. `Reconciler._reads` has an entry for just these.
   */
  lemma AttributeIsReadableIff(o: CompileOptions, slugs: map<string, string>, cs: seq<CompiledChannel>, i: nat,
      attr: nat)
    requires Named(slugs, cs) && PlainChannels(cs) && i < |cs| && attr < |Kept(cs[i])|
    ensures Reaches(ModelOf(o, slugs, cs).ingress, i, attr) <==>
            forall b :: attr < b < |Kept(cs[i])| ==> Kept(cs[i])[b].pairing != Kept(cs[i])[attr].pairing
  {
    ReachedThroughOwnEntry(o, slugs, cs, i, attr);
    AttributeHasEntryIff(cs[i], i, Kept(cs[i]), attr);
    assert AttributesAt(cs[i], i).bindings == BindingsOf(cs[i], i, Kept(cs[i]));
    hide BindingsOf, KeptAttributes, ModelOf, Kept, Reaches, PlainChannels;
  }

  lemma OwnEntryStays(cs: seq<CompiledChannel>, i: nat, key: string)
    requires PlainChannels(cs) && i < |cs| && key in AttributesAt(cs[i], i).bindings
    ensures Holder(cs, key, i)
  {
    hide AttributesAt, SlashFreeChannel, IngressKey;
    EntryOfHolder(cs[i], i, key);
    var dp :| dp in cs[i].channel.outputs && key == IngressKey(cs[i], dp);
    forall j | i < j < |cs| ensures key !in AttributesAt(cs[j], j).bindings {
      if key in AttributesAt(cs[j], j).bindings {
        EntryOfHolder(cs[j], j, key);
        var l :| l in cs[j].channel.outputs && key == IngressKey(cs[j], l);
        KeysOfChannelsDiffer(cs[i], cs[j], dp, l);
      }
    }
  }

  // ---------------------------------------------------------------- the model as a resync uses it

  function ForResync(m: Model): Resync.Compiled {
    Resync.Compiled(m.entities, m.byId, m.ingress, m.initial)
  }

  ghost predicate TopicSlugsDiffer(o: CompileOptions, cs: seq<CompiledChannel>) {
    o.idStyle ==>
      forall i, j :: 0 <= i < j < |cs| ==> Slug(o.unicode, cs[i].entityId) != Slug(o.unicode, cs[j].entityId)
  }

  lemma {:induction false} ClaimsHaveDistinctIds(claims: seq<Claim>)
    requires forall i, j :: 0 <= i < j < |claims| ==> claims[i].id != claims[j].id
    ensures DistinctIds(claims)
  {
    if claims != [] {
      ClaimsHaveDistinctIds(claims[1..]);
      IdsAreOfMembers(claims[1..]);
    }
  }

  /** Slugs as the resolution assigns them: every channel has one, no two share one, each is one topic level. */
  predicate GoodSlugs(slugs: map<string, string>, cs: seq<CompiledChannel>) {
    Named(slugs, cs) && Injective(slugs) && forall i :: 0 <= i < |cs| ==> TopicSafe(slugs[cs[i].entityId])
  }

  /** Channels with distinct ids get good slugs whenever they get slugs at all. */
  lemma {:induction false} ResolvedSlugsAreGood(o: CompileOptions, cs: seq<CompiledChannel>)
    requires DistinctEntityIds(cs) && SlugsFor(o, cs).Resolved?
    ensures GoodSlugs(SlugsFor(o, cs).slugs, cs)
  {
    ResolvedIsNamed(o, cs);
    var candidates := seq(|cs|, i requires 0 <= i < |cs| => CandidateOf(o, cs[i]));
    var claims := ClaimsOf(o.unicode, candidates);
    hide ClaimOf, Resolve, TopicSafe;
    forall i | 0 <= i < |cs| ensures claims[i].id == cs[i].entityId {
      ClaimOfId(o.unicode, candidates[i]);
    }
    ClaimsHaveDistinctIds(claims);
    SlugsAreDistinct(claims);
    forall i | 0 <= i < |cs| ensures TopicSafe(SlugsFor(o, cs).slugs[cs[i].entityId]) {
      AssignedSlugsAreTopicSafe(o.unicode, candidates, cs[i].entityId);
    }
  }

  /** The topic segment of entity `i`. */
  function Segment(o: CompileOptions, slugs: map<string, string>, cs: seq<CompiledChannel>, i: nat): string
    requires Named(slugs, cs) && i < |cs|
  {
    TopicSlug(o, cs[i], slugs[cs[i].entityId])
  }

  lemma {:induction false} SegmentsDiffer(o: CompileOptions, slugs: map<string, string>, cs: seq<CompiledChannel>)
    requires DistinctEntityIds(cs) && GoodSlugs(slugs, cs)
    ensures forall i :: 0 <= i < |cs| ==> '/' !in Segment(o, slugs, cs, i)
    ensures TopicSlugsDiffer(o, cs) ==>
              forall i, j :: 0 <= i < j < |cs| ==> Segment(o, slugs, cs, i) != Segment(o, slugs, cs, j)
  {
    hide Slug, TopicSafe, Canonical;
    forall i | 0 <= i < |cs| ensures '/' !in Segment(o, slugs, cs, i) {
      SlugIsCanonical(o.unicode, cs[i].entityId);
      SafeHasNoSlash(Slug(o.unicode, cs[i].entityId));
      SafeHasNoSlash(slugs[cs[i].entityId]);
    }
  }

  lemma SafeHasNoSlash(s: string)
    ensures Canonical(s) || TopicSafe(s) ==> '/' !in s
  {
  }

  lemma ModelIsReady(o: CompileOptions, slugs: map<string, string>, cs: seq<CompiledChannel>)
    requires Named(slugs, cs)
    ensures Ready(ModelOf(o, slugs, cs).entities, ModelOf(o, slugs, cs).initial)
  {
    hide ModelOf, AttributesAt, TopicSlug;
    ModelShape(o, slugs, cs);
    forall i | 0 <= i < |cs|
      ensures ModelOf(o, slugs, cs).entities[i].Valid() &&
              |ModelOf(o, slugs, cs).initial[i]| == |ModelOf(o, slugs, cs).entities[i].attrNames|
    {
      AttributesAlign(cs[i], i);
    }
  }

  lemma {:induction false} ModelIsBound(o: CompileOptions, slugs: map<string, string>, cs: seq<CompiledChannel>)
    requires Named(slugs, cs)
    ensures Bound(ModelOf(o, slugs, cs).ingress, Resync.Seeded(ForResync(ModelOf(o, slugs, cs))))
  {
    hide ModelOf;
    var m := ModelOf(o, slugs, cs);
    forall key | key in m.ingress ensures EntryFits(m, cs, key) {
      EntryFitsModel(o, slugs, cs, key);
    }
  }

  /** A compilation that succeeds is the fold over its channels under their slugs. */
  lemma {:induction false} CompiledIsFold(o: CompileOptions, cs: seq<CompiledChannel>)
    requires CompiledFrom(o, cs).Ok?
    ensures SlugsFor(o, cs).Resolved? && Named(SlugsFor(o, cs).slugs, cs)
    ensures CompiledFrom(o, cs).value == ModelOf(o, SlugsFor(o, cs).slugs, cs)
  {
    hide ModelOf, SlugsFor, FirstChannelFault;
    ResolvedIsNamed(o, cs);
  }

  lemma TopicInModel(o: CompileOptions, slugs: map<string, string>, cs: seq<CompiledChannel>, i: nat)
    requires Named(slugs, cs) && i < |cs|
    ensures |ModelOf(o, slugs, cs).entities| == |cs|
    ensures var e := ModelOf(o, slugs, cs).entities[i];
            && e.stateTopic == StateTopic(o.topicPrefix, Segment(o, slugs, cs, i)) && e.id == cs[i].entityId
            && (e.availabilityTopic.Some? ==> e.availabilityTopic.value == AvailabilityTopic(e.stateTopic))
  {
    ModelShape(o, slugs, cs);
    hide ModelOf, AttributesAt, TopicSlug;
  }

  lemma {:induction false} ModelTopicsDiffer(o: CompileOptions, slugs: map<string, string>, cs: seq<CompiledChannel>)
    requires DistinctEntityIds(cs) && GoodSlugs(slugs, cs) && TopicSlugsDiffer(o, cs)
    ensures DistinctTopics(ModelOf(o, slugs, cs).entities)
  {
    hide Segment, ModelOf;
    SegmentsDiffer(o, slugs, cs);
    ModelIds(o, slugs, cs);
    var m := ModelOf(o, slugs, cs);
    forall i, j | 0 <= i < j < |m.entities| ensures m.entities[i].stateTopic != m.entities[j].stateTopic {
      TopicInModel(o, slugs, cs, i);
      TopicInModel(o, slugs, cs, j);
      StateTopicsDiffer(o.topicPrefix, Segment(o, slugs, cs, i), Segment(o, slugs, cs, j));
    }
  }

  /**
   A compiled model is consistent as the resync needs it: indices and ids invert each other, values align
   with attributes, every ingress entry is in range, and no two entities share a state topic.
   */
  lemma {:induction false} CompiledIsConsistent(o: CompileOptions, slugs: map<string, string>, cs: seq<CompiledChannel>)
    requires DistinctEntityIds(cs) && GoodSlugs(slugs, cs) && TopicSlugsDiffer(o, cs)
    ensures ForResync(ModelOf(o, slugs, cs)).Consistent()
  {
    hide ModelOf, AttributesAt, DistinctTopics, Ready, Bound, Slug, TopicSafe;
    ModelTopicsDiffer(o, slugs, cs);
    ModelIsReady(o, slugs, cs);
    ModelIsBound(o, slugs, cs);
    IdsShape(o, slugs, cs);
    IdsInvertIndicesIff(o, slugs, cs);
    ModelIds(o, slugs, cs);
  }

  lemma ModelIds(o: CompileOptions, slugs: map<string, string>, cs: seq<CompiledChannel>)
    requires Named(slugs, cs)
    ensures |ModelOf(o, slugs, cs).entities| == |cs|
    ensures forall i :: 0 <= i < |cs| ==> ModelOf(o, slugs, cs).entities[i].id == cs[i].entityId
  {
    ModelShape(o, slugs, cs);
    hide ModelOf, AttributesAt, TopicSlug;
  }

  // ---------------------------------------------------------------- topics

  /** `by_topic` finds each entity by its slug, and nothing else. */
  lemma {:induction false} TopicTableInvertsSlugs(
    o: CompileOptions, slugs: map<string, string>, cs: seq<CompiledChannel>, slug: string, i: nat)
    requires DistinctEntityIds(cs) && GoodSlugs(slugs, cs) && i < |cs|
    ensures var byTopic := ModelOf(o, slugs, cs).byTopic;
            (slug in byTopic && byTopic[slug] == i) <==> slugs[cs[i].entityId] == slug
  {
    hide ModelOf, TopicSafe;
    TopicsShape(o, slugs, cs);
    var byTopic := ModelOf(o, slugs, cs).byTopic;
    if slugs[cs[i].entityId] == slug {
      var j := byTopic[slug];
      assert slugs[cs[j].entityId] == slugs[cs[i].entityId];
    }
  }

  lemma SameCommandTopic(base: string, a: string, b: string, c: Command)
    requires Addressable(c)
    ensures CommandTopic(base, a, c) == CommandTopic(base, b, c) <==> a == b
  {
    var rest := if c.attribute.Some? then "set" + "/" + c.attribute.value else if c.form == Set then "set" else "get";
    assert CommandTopic(base, a, c) == StateTopic(base, a + ("/" + rest));
    assert CommandTopic(base, b, c) == StateTopic(base, b + ("/" + rest));
    StateTopicsDiffer(base, a + ("/" + rest), b + ("/" + rest));
    assert (a + ("/" + rest))[..|a + ("/" + rest)| - |"/" + rest|] == a;
    assert (b + ("/" + rest))[..|b + ("/" + rest)| - |"/" + rest|] == b;
  }

  /**
   The topics an entity announces for its commands lead back to it exactly when its topic segment is its
   slug: always with slug topics, but with id topics only for an entity whose slug is its slugified id.
   */
  lemma {:induction false} CommandsReachTheirEntityIff(
    o: CompileOptions, slugs: map<string, string>, cs: seq<CompiledChannel>, i: nat, c: Command)
    requires DistinctEntityIds(cs) && GoodSlugs(slugs, cs) && i < |cs| && Addressable(c) && c.entity == i
    ensures var m := ModelOf(o, slugs, cs);
            var topic := CommandTopic(o.topicPrefix, Segment(o, slugs, cs, i), c);
            ParseTopic(o.topicPrefix, m.byTopic, topic) == Some(c) <==>
            !o.idStyle || Slug(o.unicode, cs[i].entityId) == slugs[cs[i].entityId]
  {
    hide ModelOf, CommandTopic, ParseTopic, Slug, TopicSafe;
    SegmentsDiffer(o, slugs, cs);
    var byTopic, segment := ModelOf(o, slugs, cs).byTopic, Segment(o, slugs, cs, i);
    ParserInvertsPrinter(o.topicPrefix, byTopic, CommandTopic(o.topicPrefix, segment, c), c);
    forall s ensures CommandTopic(o.topicPrefix, segment, c) == CommandTopic(o.topicPrefix, s, c) <==> segment == s {
      SameCommandTopic(o.topicPrefix, segment, s, c);
    }
    TopicTableInvertsSlugs(o, slugs, cs, segment, i);
    assert segment == slugs[cs[i].entityId] <==> !o.idStyle || Slug(o.unicode, cs[i].entityId) == slugs[cs[i].entityId];
  }

  /** With id topics an entity that is alone is reached exactly if its name and its id have one slug. */
  lemma {:induction false} AloneIsReachedIff(o: CompileOptions, c: CompiledChannel, command: Command)
    requires o.idStyle && Addressable(command) && command.entity == 0
    ensures SlugsFor(o, [c]) == Resolved(map[c.entityId := Slug(o.unicode, CandidateOf(o, c).name)])
    ensures var slugs, id := SlugsFor(o, [c]).slugs, Slug(o.unicode, c.entityId);
            && Named(slugs, [c]) && Segment(o, slugs, [c], 0) == id
            && var parsed := ParseTopic(o.topicPrefix, ModelOf(o, slugs, [c]).byTopic,
                               CommandTopic(o.topicPrefix, id, command));
               parsed == Some(command) <==> id == Slug(o.unicode, CandidateOf(o, c).name)
  {
    hide ModelOf, ParseTopic, CommandTopic, Slug, TopicSafe, Resolve;
    AloneGetsBareName(ClaimOf(o.unicode, CandidateOf(o, c)));
    assert ClaimsFor(o, [c]) == [ClaimOf(o.unicode, CandidateOf(o, c))];
    ResolvedSlugsAreGood(o, [c]);
    CommandsReachTheirEntityIff(o, SlugsFor(o, [c]).slugs, [c], 0, command);
  }

  /** So an entity whose name and id are two slugs, as `lamp` and `abb7f_ch0000` are, hears no command. */
  lemma {:induction false} IdTopicMissesItsEntity(o: CompileOptions, c: CompiledChannel, command: Command)
    requires o.idStyle && Addressable(command) && command.entity == 0
    requires KeepsAscii(o.unicode) && c.entityId !in o.aliases
    requires Canonical(c.name) && Canonical(c.entityId) && c.name != c.entityId
    ensures SlugsFor(o, [c]) == Resolved(map[c.entityId := c.name])
    ensures ParseTopic(o.topicPrefix, ModelOf(o, map[c.entityId := c.name], [c]).byTopic,
                CommandTopic(o.topicPrefix, c.entityId, command)) != Some(command)
  {
    hide *;
    SlugFixedPoints(o.unicode, c.name);
    SlugFixedPoints(o.unicode, c.entityId);
    AloneIsReachedIff(o, c, command);
    AliasFree(o, c);
  }

  lemma AliasFree(o: CompileOptions, c: CompiledChannel)
    requires c.entityId !in o.aliases
    ensures CandidateOf(o, c).name == c.name
  {
  }

  lemma {:induction false} AvailabilityMeetsNoState(
    o: CompileOptions, s: map<string, string>, a: seq<CompiledChannel>, t: map<string, string>,
      b: seq<CompiledChannel>, k: nat, i: nat)
    requires Named(s, a) && k < |a| && DistinctEntityIds(b) && GoodSlugs(t, b) && i < |b|
    ensures |ModelOf(o, s, a).entities| == |a| && |ModelOf(o, t, b).entities| == |b|
    ensures ModelOf(o, s, a).entities[k].availabilityTopic != Some(ModelOf(o, t, b).entities[i].stateTopic)
  {
    hide ModelOf, Segment, TopicSafe;
    TopicInModel(o, s, a, k);
    TopicInModel(o, t, b, i);
    SegmentsDiffer(o, t, b);
    AvailabilityIsNoState(o.topicPrefix, Segment(o, s, a, k), Segment(o, t, b, i));
  }

  /** State topics of one installation are never availability topics, in one model or across two. */
  lemma {:induction false} CompiledTopicsAreApart(
    o: CompileOptions, s: map<string, string>, prior: seq<CompiledChannel>, t: map<string, string>,
      next: seq<CompiledChannel>)
    requires DistinctEntityIds(prior) && GoodSlugs(s, prior) && DistinctEntityIds(next) && GoodSlugs(t, next)
    ensures Resync.TopicsApart(ForResync(ModelOf(o, s, prior)), ForResync(ModelOf(o, t, next)))
  {
    hide ModelOf, TopicSafe;
    ModelIds(o, s, prior);
    ModelIds(o, t, next);
    forall i, k | 0 <= i < |next| && 0 <= k < |prior|
      ensures ModelOf(o, s, prior).entities[k].availabilityTopic != Some(ModelOf(o, t, next).entities[i].stateTopic)
    {
      AvailabilityMeetsNoState(o, s, prior, t, next, k, i);
    }
    forall i, k | 0 <= i < |prior| && 0 <= k < |prior|
      ensures ModelOf(o, s, prior).entities[k].availabilityTopic != Some(ModelOf(o, s, prior).entities[i].stateTopic)
    {
      AvailabilityMeetsNoState(o, s, prior, s, prior, k, i);
    }
  }

  // ---------------------------------------------------------------- the egress table

  lemma LastEgress(o: CompileOptions, slugs: map<string, string>, cs: seq<CompiledChannel>)
    requires Named(slugs, cs) && cs != []
    ensures var last := |cs| - 1;
            ModelOf(o, slugs, cs).egress == ModelOf(o, slugs, cs[..last]).egress +
              EgressFrom(cs[last], last, AttributesAt(cs[last], last).names, cs[last].profile.commands)
  {
    hide AttributesAt, EntityOf, EgressFrom;
    ModelShape(o, slugs, cs[..|cs| - 1]);
  }

  /** Each entity's commands stand in the table under its own index, and only those. */
  lemma {:induction false} EgressAt(o: CompileOptions, slugs: map<string, string>, cs: seq<CompiledChannel>,
      key: (nat, string))
    requires Named(slugs, cs)
    ensures var egress := ModelOf(o, slugs, cs).egress;
            key in egress <==>
            key.0 < |cs| && key in EgressFrom(cs[key.0], key.0, AttributesAt(cs[key.0], key.0).names,
                cs[key.0].profile.commands)
    ensures key in ModelOf(o, slugs, cs).egress ==>
              ModelOf(o, slugs, cs).egress[key] ==
              EgressFrom(cs[key.0], key.0, AttributesAt(cs[key.0], key.0).names, cs[key.0].profile.commands)[key]
  {
    hide AttributesAt, EntityOf, EgressFrom, Extended;
    if cs != [] {
      var last := |cs| - 1;
      LastEgress(o, slugs, cs);
      EgressAt(o, slugs, cs[..last], key);
      var names := AttributesAt(cs[last], last).names;
      forall k | k in EgressFrom(cs[last], last, names, cs[last].profile.commands) ensures k.0 == last {
        EgressIsGood(cs[last], last, names, cs[last].profile.commands, k);
      }
    }
  }

  /** Every command is of an entity of the model, and its guess goes to an attribute of that entity. */
  lemma EgressFits(o: CompileOptions, slugs: map<string, string>, cs: seq<CompiledChannel>, key: (nat, string))
    requires Named(slugs, cs) && key in ModelOf(o, slugs, cs).egress
    ensures var m := ModelOf(o, slugs, cs);
            && key.0 < |m.entities| == |cs|
            && GoodEgress(cs[key.0], key.0, m.entities[key.0].attrNames, cs[key.0].profile.commands, key, m.egress[key])
  {
    EgressAt(o, slugs, cs, key);
    ModelShape(o, slugs, cs);
    EgressIsGood(cs[key.0], key.0, AttributesAt(cs[key.0], key.0).names, cs[key.0].profile.commands, key);
    hide ModelOf, AttributesAt, EgressFrom, GoodEgress, TopicSlug;
  }

  predicate DotFreeChannel(c: CompiledChannel) {
    '.' !in c.serial && '.' !in c.channelId && forall k :: k in c.channel.inputs ==> '.' !in k
  }

  /** Where a write goes: to the first input with the pairing of the command that the entry was made from. */
  lemma WriteGoesTo(o: CompileOptions, slugs: map<string, string>, cs: seq<CompiledChannel>, key: (nat, string))
    requires Named(slugs, cs) && key in ModelOf(o, slugs, cs).egress
    ensures key.0 < |cs|
    ensures var c, b := cs[key.0], ModelOf(o, slugs, cs).egress[key];
            exists i: nat, dp ::
              && LastNamed(c, c.profile.commands, key.1, i)
              && FirstPaired(c.channel.inputs, c.profile.commands[i].pairing, dp)
              && CutAt(b.restPath, '.', c.serial, c.channelId, dp)
  {
    hide ModelOf, AttributesAt, EgressFrom, CommandKept, ToldTo, CutAt, AtMost;
    EgressAt(o, slugs, cs, key);
    var c := cs[key.0];
    var names := AttributesAt(c, key.0).names;
    EgressEntryIff(c, key.0, names, c.profile.commands, key);
    var i: nat :| LastNamed(c, c.profile.commands, key.1, i);
    EgressBindingMeans(c, key.0, names, c.profile.commands[i]);
    hide LastNamed, EgressBindingOf;
  }

  /** Two entries write to one path only if they are the same datapoint of the same channel. */
  lemma PathsTellDatapoints(o: CompileOptions, slugs: map<string, string>, cs: seq<CompiledChannel>,
      j: (nat, string), k: (nat, string))
    requires Named(slugs, cs) && j in ModelOf(o, slugs, cs).egress && k in ModelOf(o, slugs, cs).egress
    requires forall i :: 0 <= i < |cs| ==> DotFreeChannel(cs[i])
    requires forall a, b :: 0 <= a < b < |cs| ==> VisitOf(cs[a]) != VisitOf(cs[b])
    requires ModelOf(o, slugs, cs).egress[j].restPath == ModelOf(o, slugs, cs).egress[k].restPath
    ensures j.0 == k.0 < |cs|
    ensures exists dp ::
              && dp in cs[j.0].channel.inputs
              && CutAt(ModelOf(o, slugs, cs).egress[j].restPath, '.', cs[j.0].serial, cs[j.0].channelId, dp)
  {
    hide ModelOf, CommandKept, CutAt, AtMost;
    WriteGoesTo(o, slugs, cs, j);
    WriteGoesTo(o, slugs, cs, k);
    var c, d := cs[j.0], cs[k.0];
    var path := ModelOf(o, slugs, cs).egress[j].restPath;
    var i: nat, dp :| LastNamed(c, c.profile.commands, j.1, i) &&
                      FirstPaired(c.channel.inputs, c.profile.commands[i].pairing, dp) &&
                      CutAt(path, '.', c.serial, c.channelId, dp);
    var l: nat, dq :| LastNamed(d, d.profile.commands, k.1, l) &&
                      FirstPaired(d.channel.inputs, d.profile.commands[l].pairing, dq) &&
                      CutAt(path, '.', d.serial, d.channelId, dq);
    CutIsUnique(path, '.', c.serial, c.channelId, dp, d.serial, d.channelId, dq);
    assert VisitOf(c) == VisitOf(d);
  }

  // ---------------------------------------------------------------- from the configuration to the broker

  /** The configuration was fetched when the SysAP had seen `history`: its outputs hold the raw values of then. */
  ghost predicate FetchedAfter(config: Configuration, first: map<string, string>, history: seq<Datapoint>) {
    forall v, dp :: InConfig(config, v) && dp in config.devices[v.serial].channels[v.channelId].outputs ==>
      config.devices[v.serial].channels[v.channelId].outputs[dp].value ==
      RawAt(first, history, v.serial + "/" + (v.channelId + "/" + dp))
  }

  predicate AllFrom(config: Configuration, cs: seq<CompiledChannel>) {
    forall i :: 0 <= i < |cs| ==> ComesFrom(config, cs[i], VisitOf(cs[i]))
  }

  /** A store seeded from a compiled configuration shows what the SysAP held when it was fetched. */
  lemma {:induction false} SeedShowsSnapshot(
    config: Configuration, o: CompileOptions, slugs: map<string, string>, cs: seq<CompiledChannel>,
    first: map<string, string>, history: seq<Datapoint>)
    requires AllFrom(config, cs) && Named(slugs, cs) && FetchedAfter(config, first, history)
    ensures var m := ForResync(ModelOf(o, slugs, cs)); Reflects(m.table, Resync.Seeded(m), first, history)
  {
    hide ModelOf, RawAt, Matches;
    var m := ModelOf(o, slugs, cs);
    ModelIsBound(o, slugs, cs);
    forall key | key in m.ingress
      ensures Ingress.Shows(m.ingress, Resync.Seeded(ForResync(m)), key, RawAt(first, history, key))
    {
      EntryFitsModel(o, slugs, cs, key);
      var b := m.ingress[key];
      var c := cs[b.entity];
      assert ComesFrom(config, c, VisitOf(c));
      var dp :| dp in c.channel.outputs && key == IngressKey(c, dp) &&
                m.initial[b.entity][b.attr] == b.decode(c.channel.outputs[dp].value);
      assert InConfig(config, Visit(c.serial, c.channelId));
    }
  }

  /**
   The resync as a whole: whatever the world was, buffer from write `b`, fetch at write `s`, compile, seed,
   replay the frames up to now, and every STATE attribute shows what the SysAP holds now.
   */
  lemma {:induction false} ResyncEndsAtTheTruth(
    w: Resync.World, config: Configuration, o: CompileOptions, slugs: map<string, string>, cs: seq<CompiledChannel>,
    first: map<string, string>, history: seq<Datapoint>, b: nat, s: nat, frames: seq<Frame>)
    requires AllFrom(config, cs) && Named(slugs, cs) && b <= s <= |history|
    requires FetchedAfter(config, first, history[..s]) && Flatten(frames) == history[b..]
    requires Resync.Comparable(w, ForResync(ModelOf(o, slugs, cs)))
    ensures var m := ForResync(ModelOf(o, slugs, cs));
            Bound(m.table, Resync.Seeded(m)) && Reflects(m.table, Resync.Replayed(w, m, frames).store, first, history)
  {
    hide ModelOf, RawAt, Matches;
    SeedShowsSnapshot(config, o, slugs, cs, first, history[..s]);
    EntriesAreOwn(o, slugs, cs);
    hide OwnAttributes;
    var m := ForResync(ModelOf(o, slugs, cs));
    var d := Resync.Diffed(w, m).store;
    assert Reflects(m.table, d, first, history[..s]);
    FramesAreOneStream(m.table, d, frames);
    ReplayIsExact(m.table, d, first, history, b, s);
  }

  /** What the SysAP's own ids promise: no slash in any of them, and no underscore in a channel id. */
  ghost predicate PlainIds(config: Configuration) {
    forall v :: InConfig(config, v) ==>
      '/' !in v.serial && '/' !in v.channelId && UnderscoreFree(v.channelId) &&
      forall dp :: dp in config.devices[v.serial].channels[v.channelId].outputs ==> '/' !in dp
  }

  /** With plain ids everything above that asks for distinct ids or plain channels applies. */
  lemma PlainIdsSuffice(config: Configuration, registry: seq<Profile>, o: CompileOptions)
    requires PlainIds(config)
    ensures var cs := Collected(config, registry, o.collect).channels;
            DistinctEntityIds(cs) && PlainChannels(cs) && AllFrom(config, cs)
  {
    EntityIdsAreDistinct(config, registry, o);
    CollectedAreSorted(config, registry, o.collect);
    var cs := Collected(config, registry, o.collect).channels;
    hide Collected, Matches, EntityId, UnderscoreFree, AtMost;
    forall i | 0 <= i < |cs| ensures SlashFreeChannel(cs[i]) {
      assert ComesFrom(config, cs[i], VisitOf(cs[i]));
    }
    forall i, j | 0 <= i < j < |cs| ensures VisitOf(cs[i]) != VisitOf(cs[j]) {
      assert Earlier(VisitOf(cs[i]), VisitOf(cs[j]));
    }
  }

  lemma EndKeepsValues(
    w: Resync.World, m: Resync.Compiled, frames: seq<Frame>, credit: nat,
    first: map<string, string>, history: seq<Datapoint>)
    requires Resync.Succeeds(w, m, frames, credit) &&
             Reflects(m.table, Resync.Replayed(w, m, frames).store, first, history)
    ensures Reflects(m.table, Resync.End(w, m, frames, credit).store, first, history)
  {
    hide RawAt, PayloadOf, Flushed, ProcessedAll;
  }

  /**
   The resync up to the broker: if the bridge was clean and its entities keep their layout and topics, then
   after a flush that succeeds it is clean again, and what the broker holds is built from values that show
   what the SysAP holds now.
   */
  lemma BrokerEndsAtTheTruth(
    w: Resync.World, oldSlugs: map<string, string>, prior: seq<CompiledChannel>,
    config: Configuration, registry: seq<Profile>, o: CompileOptions,
    first: map<string, string>, history: seq<Datapoint>, b: nat, s: nat, frames: seq<Frame>, credit: nat)
    requires DistinctEntityIds(prior) && GoodSlugs(oldSlugs, prior) && w.model == ForResync(ModelOf(o, oldSlugs, prior))
    requires Resync.Clean(w) && PlainIds(config) && CompileOf(config, registry, o).Ok?
    requires TopicSlugsDiffer(o, Collected(config, registry, o.collect).channels)
    requires b <= s <= |history| && FetchedAfter(config, first, history[..s]) && Flatten(frames) == history[b..]
    requires var m := ForResync(CompileOf(config, registry, o).value.model);
             Resync.LayoutKept(w, m) && Resync.TopicsKept(w, m) && Resync.FlushGoesThrough(w, m, frames, credit)
    ensures var m := ForResync(CompileOf(config, registry, o).value.model);
            && Resync.Succeeds(w, m, frames, credit)
            && Resync.Clean(Resync.End(w, m, frames, credit))
            && Reflects(m.table, Resync.End(w, m, frames, credit).store, first, history)
  {
    hide *;
    var cs := Collected(config, registry, o.collect).channels;
    var m := ForResync(CompileOf(config, registry, o).value.model);
    PlainIdsSuffice(config, registry, o);
    CompileIsOfCollected(config, registry, o);
    CompiledIsFold(o, cs);
    var slugs := SlugsFor(o, cs).slugs;
    ResolvedSlugsAreGood(o, cs);
    CompiledIsConsistent(o, slugs, cs);
    CompiledTopicsAreApart(o, oldSlugs, prior, slugs, cs);
    CleanIsConsistent(w);
    ConsistentIsComparable(w, m);
    ResyncEndsAtTheTruth(w, config, o, slugs, cs, first, history, b, s, frames);
    SucceedsWhen(w, m, frames, credit);
    Resync.KeptTopicsStayClean(w, m, frames, credit);
    EndKeepsValues(w, m, frames, credit, first, history);
  }

  lemma CompileIsOfCollected(config: Configuration, registry: seq<Profile>, o: CompileOptions)
    requires CompileOf(config, registry, o).Ok?
    ensures var cs := Collected(config, registry, o.collect).channels;
            CompiledFrom(o, cs).Ok? && CompiledFrom(o, cs).value == CompileOf(config, registry, o).value.model
  {
    hide Collected, CompiledFrom;
  }

  lemma ConsistentIsComparable(w: Resync.World, m: Resync.Compiled)
    requires w.model.Consistent() && Ready(w.model.entities, w.store.values) && m.Consistent()
    ensures Resync.Comparable(w, m) && Bound(m.table, Resync.Seeded(m))
  {
  }

  lemma SucceedsWhen(w: Resync.World, m: Resync.Compiled, frames: seq<Frame>, credit: nat)
    requires Resync.Clean(w) && m.Consistent() && Resync.TopicsApart(w.model, m) && Resync.LayoutKept(w, m)
    requires Resync.FlushGoesThrough(w, m, frames, credit)
    ensures Resync.Succeeds(w, m, frames, credit)
  {
    ConsistentIsComparable(w, m);
    Resync.ReplayMarksChanges(w, m, frames);
    hide PayloadOf, Flushed, ProcessedAll;
  }

  lemma CleanIsConsistent(w: Resync.World)
    requires Resync.Clean(w)
    ensures w.model.Consistent() && Ready(w.model.entities, w.store.values)
  {
  }
}
