/** Configuration data, profiles, and which profile a channel gets: the first part of `model/compiler.py`. */
module Profiles {
  import opened Lists
  import opened Wrappers
  import opened Text
  import opened Keys
  import opened Values
  import opened State

  datatype InOut = InOut(pairing: Option<int>, value: string)

  type Points = map<string, InOut>

  datatype Channel = Channel(
    inputs: Points,
    outputs: Points,
    parameters: map<string, string>,
    floor: Option<string>,
    room: Option<string>,
    displayName: Option<string>,
    functionId: Option<string>)

  datatype Device = Device(
    interface: Option<string>,
    floor: Option<string>,
    room: Option<string>,
    displayName: Option<string>,
    channels: map<string, Channel>)

  datatype Configuration = Configuration(floorplan: map<string, map<string, string>>, devices: map<string, Device>)

  /** Building a codec for a channel: its physical bounds may be missing, or the profile may be wrong. */
  datatype Build<T> = Built(codec: T) | Unavailable | Misconfigured

  datatype AttributeSpec = AttributeSpec(
    name: string,
    pairing: int,
    kind: Kind,
    codec: Channel -> Build<string -> Json>)

  datatype CommandSpec = CommandSpec(
    name: string,
    pairing: int,
    codec: Channel -> Build<Json -> Option<string>>,
    continuous: bool,
    optimistic: Option<string>,
    confirm: bool)

  datatype Profile = Profile(
    id: string,
    functions: seq<int>,
    requiresOutputs: seq<int>,
    requiresInputs: seq<int>,
    attributes: seq<AttributeSpec>,
    commands: seq<CommandSpec>,
    transform: Option<Transform>,
    perDevice: bool)

  // ---------------------------------------------------------------- datapoints

  predicate Pairs(points: Points, key: string, pairing: int) {
    key in points && points[key].pairing == Some(pairing)
  }

  /** The first of `keys` with the pairing. */
  function FirstKey(points: Points, keys: seq<string>, pairing: int): Option<string> {
    if keys == [] then None
    else if Pairs(points, keys[0], pairing) then Some(keys[0])
    else FirstKey(points, keys[1..], pairing)
  }

  ghost function KeyOf(points: Points, pairing: int): Option<string> {
    FirstKey(points, Sorted(points.Keys), pairing)
  }

  method FindDatapointKey(points: Points, pairing: int) returns (key: Option<string>)
    ensures key == KeyOf(points, pairing)
  {
    var sorted := Sort(points.Keys);
    for i := 0 to |sorted|
      invariant FirstKey(points, sorted, pairing) == FirstKey(points, sorted[i..], pairing)
    {
      if Pairs(points, sorted[i], pairing) {
        return Some(sorted[i]);
      }
    }
    key := None;
  }

  lemma {:induction false} FirstKeyIsFirst(points: Points, keys: seq<string>, pairing: int)
    ensures var r := FirstKey(points, keys, pairing);
            if r.None? then forall k :: k in keys ==> !Pairs(points, k, pairing)
            else
              exists i :: 0 <= i < |keys| && keys[i] == r.value && Pairs(points, keys[i], pairing) &&
                          forall j :: 0 <= j < i ==> !Pairs(points, keys[j], pairing)
  {
    if keys != [] {
      FirstKeyIsFirst(points, keys[1..], pairing);
      if !Pairs(points, keys[0], pairing) && FirstKey(points, keys[1..], pairing).Some? {
        var i :| 0 <= i < |keys[1..]| && keys[1..][i] == FirstKey(points, keys[1..], pairing).value &&
                 Pairs(points, keys[1..][i], pairing) &&
                 forall j :: 0 <= j < i ==> !Pairs(points, keys[1..][j], pairing);
        assert keys[i + 1] == keys[1..][i];
        forall j | 0 <= j < i + 1 ensures !Pairs(points, keys[j], pairing) {
          assert j > 0 ==> keys[j] == keys[1..][j - 1];
        }
      }
    }
  }

  /** The key found is the least of those that carry the pairing, and one is found if there is any. */
  lemma KeyOfIsLeast(points: Points, pairing: int)
    ensures KeyOf(points, pairing).Some? <==> exists k :: Pairs(points, k, pairing)
    ensures KeyOf(points, pairing).Some? ==>
              var key := KeyOf(points, pairing).value;
              Pairs(points, key, pairing) && forall k :: Pairs(points, k, pairing) ==> AtMost(key, k)
  {
    var keys := Sorted(points.Keys);
    SortedIsSorted(points.Keys);
    FirstKeyIsFirst(points, keys, pairing);
    hide FirstKey, Sorted, AtMost;
    if KeyOf(points, pairing).Some? {
      var key := KeyOf(points, pairing).value;
      var i :| 0 <= i < |keys| && keys[i] == key && Pairs(points, keys[i], pairing) &&
               forall j :: 0 <= j < i ==> !Pairs(points, keys[j], pairing);
      forall k | Pairs(points, k, pairing) ensures AtMost(key, k) {
        assert k in keys;
        var j :| 0 <= j < |keys| && keys[j] == k;
        AtMostIsTotal(key, key);
        assert i <= j;
      }
    } else {
      forall k ensures !Pairs(points, k, pairing) {
        assert k in points ==> k in keys;
      }
    }
  }

  /** A datapoint has one pairing, so different pairings are found at different keys. */
  lemma KeysTellPairings(points: Points, p: int, q: int)
    requires KeyOf(points, p).Some?
    ensures KeyOf(points, p) == KeyOf(points, q) <==> p == q
  {
    KeyOfIsLeast(points, p);
    KeyOfIsLeast(points, q);
    hide KeyOf;
  }

  // ---------------------------------------------------------------- matching

  predicate HasPairing(points: Points, pairing: int) {
    exists k :: k in points && points[k].pairing == Some(pairing)
  }

  predicate HasAllPairings(points: Points, pairings: seq<int>) {
    forall p :: p in pairings ==> HasPairing(points, p)
  }

  predicate Matches(channel: Channel, p: Profile) {
    HasAllPairings(channel.outputs, p.requiresOutputs) && HasAllPairings(channel.inputs, p.requiresInputs)
  }

  function Specificity(p: Profile): nat {
    |p.requiresOutputs| + |p.requiresInputs|
  }

  function Candidates(registry: seq<Profile>, fn: int, channel: Channel): seq<Profile> {
    if registry == [] then []
    else
      (if fn in registry[0].functions && Matches(channel, registry[0]) then [registry[0]] else []) +
      Candidates(registry[1..], fn, channel)
  }

  /** The sort key: more specific first, then by id. */
  predicate Ahead(p: Profile, q: Profile) {
    Specificity(p) > Specificity(q) || (Specificity(p) == Specificity(q) && AtMost(p.id, q.id))
  }

  function Ranked(ps: seq<Profile>): seq<Profile> {
    if ps == [] then [] else Place(ps[0], Ranked(ps[1..]))
  }

  function Place(p: Profile, ranked: seq<Profile>): seq<Profile> {
    if ranked == [] || Ahead(p, ranked[0]) then [p] + ranked else [ranked[0]] + Place(p, ranked[1..])
  }

  datatype Match = Match(profile: Option<Profile>, ambiguous: bool)

  function MatchOf(registry: seq<Profile>, fn: int, channel: Channel): Match {
    var ranked := Ranked(Candidates(registry, fn, channel));
    if ranked == [] then Match(None, false)
    else Match(Some(ranked[0]), |ranked| > 1 && Specificity(ranked[0]) == Specificity(ranked[1]))
  }

  /** One turn of the filter. */
  lemma OneMoreCandidate(registry: seq<Profile>, fn: int, channel: Channel, i: nat)
    requires i < |registry|
    ensures Candidates(registry[i..], fn, channel) ==
            (if fn in registry[i].functions && Matches(channel, registry[i]) then [registry[i]] else []) +
            Candidates(registry[i + 1..], fn, channel)
  {
    hide Matches;
    assert registry[i..][0] == registry[i] && registry[i..][1..] == registry[i + 1..];
  }

  lemma NoCandidates(fn: int, channel: Channel)
    ensures Candidates([], fn, channel) == []
  {
  }

  method MatchProfile(registry: seq<Profile>, fn: int, channel: Channel) returns (m: Match)
    ensures m == MatchOf(registry, fn, channel)
  {
    hide Matches, Candidates;
    var candidates: seq<Profile> := [];
    assert registry[0..] == registry;
    for i := 0 to |registry|
      invariant Candidates(registry, fn, channel) == candidates + Candidates(registry[i..], fn, channel)
    {
      OneMoreCandidate(registry, fn, channel, i);
      if fn in registry[i].functions && Matches(channel, registry[i]) {
        candidates := candidates + [registry[i]];
      }
    }
    assert registry[|registry|..] == [];
    NoCandidates(fn, channel);
    assert candidates + [] == candidates;
    if |candidates| == 0 {
      return Match(None, false);
    }
    if |candidates| == 1 {
      assert Ranked(candidates) == [candidates[0]];
      return Match(Some(candidates[0]), false);
    }
    var ranked := Ranked(candidates);
    RankedIsRanked(candidates);
    m := Match(Some(ranked[0]), Specificity(ranked[0]) == Specificity(ranked[1]));
  }

  /** How many profiles of the list have this specificity. */
  function CountAt(ps: seq<Profile>, n: nat): nat {
    if ps == [] then 0 else (if Specificity(ps[0]) == n then 1 else 0) + CountAt(ps[1..], n)
  }

  predicate InRank(ps: seq<Profile>) {
    forall i, j :: 0 <= i < j < |ps| ==> Ahead(ps[i], ps[j])
  }

  lemma AheadIsTotal(p: Profile, q: Profile)
    ensures Ahead(p, q) || Ahead(q, p)
  {
    AtMostIsTotal(p.id, q.id);
  }

  lemma AheadIsTransitive(p: Profile, q: Profile, r: Profile)
    requires Ahead(p, q) && Ahead(q, r)
    ensures Ahead(p, r)
  {
    if Specificity(p) == Specificity(r) {
      AtMostIsTransitive(p.id, q.id, r.id);
    }
  }

  lemma {:induction false} PlaceKeepsRank(p: Profile, ranked: seq<Profile>)
    requires InRank(ranked)
    ensures var r := Place(p, ranked);
            InRank(r) && |r| == |ranked| + 1 && (forall q :: q in r <==> q == p || q in ranked) &&
            forall n: nat :: CountAt(r, n) == CountAt([p] + ranked, n)
  {
    var r := Place(p, ranked);
    assert ([p] + ranked)[1..] == ranked;
    if ranked == [] {
    } else if Ahead(p, ranked[0]) {
      hide Ahead, CountAt;
      forall j | 0 <= j < |ranked| ensures Ahead(p, ranked[j]) {
        if j > 0 {
          AheadIsTransitive(p, ranked[0], ranked[j]);
        }
      }
    } else {
      AheadIsTotal(p, ranked[0]);
      PlaceKeepsRank(p, ranked[1..]);
      hide Ahead;
      var rest := Place(p, ranked[1..]);
      assert ranked == [ranked[0]] + ranked[1..];
      assert r[1..] == rest && ([p] + ranked[1..])[1..] == ranked[1..];
      forall j | 0 <= j < |rest| ensures Ahead(ranked[0], rest[j]) {
        assert rest[j] in rest;
        if rest[j] != p {
          var k :| 0 <= k < |ranked[1..]| && ranked[1..][k] == rest[j];
          assert ranked[k + 1] == rest[j];
        }
      }
    }
  }

  lemma {:induction false} RankedIsRanked(ps: seq<Profile>)
    ensures InRank(Ranked(ps)) && |Ranked(ps)| == |ps| && forall q :: q in Ranked(ps) <==> q in ps
    ensures forall n: nat :: CountAt(Ranked(ps), n) == CountAt(ps, n)
  {
    if ps != [] {
      RankedIsRanked(ps[1..]);
      PlaceKeepsRank(ps[0], Ranked(ps[1..]));
      hide Place, InRank;
      assert ps == [ps[0]] + ps[1..] && ([ps[0]] + Ranked(ps[1..]))[1..] == Ranked(ps[1..]);
    }
  }

  lemma {:induction false} CandidatesFit(registry: seq<Profile>, fn: int, channel: Channel)
    ensures forall p :: p in Candidates(registry, fn, channel) <==>
                        p in registry && fn in p.functions && Matches(channel, p)
  {
    hide Matches;
    if registry != [] {
      CandidatesFit(registry[1..], fn, channel);
      assert registry == [registry[0]] + registry[1..];
    }
  }

  lemma {:induction false} TiedLeaders(ranked: seq<Profile>)
    requires InRank(ranked) && ranked != []
    ensures |ranked| > 1 && Specificity(ranked[0]) == Specificity(ranked[1]) <==>
              CountAt(ranked, Specificity(ranked[0])) > 1
  {
    var n := Specificity(ranked[0]);
    if |ranked| > 1 && Specificity(ranked[1]) < n {
      forall i | 0 <= i < |ranked[1..]| ensures Specificity(ranked[1..][i]) < n {
        assert i > 0 ==> Ahead(ranked[1], ranked[i + 1]);
      }
      NoneAt(ranked[1..], n);
    } else if |ranked| > 1 {
      assert Ahead(ranked[0], ranked[1]);
    }
  }

  lemma {:induction false} NoneAt(ps: seq<Profile>, n: nat)
    requires forall i :: 0 <= i < |ps| ==> Specificity(ps[i]) < n
    ensures CountAt(ps, n) == 0
  {
    if ps != [] {
      NoneAt(ps[1..], n);
    }
  }

  /** A matching profile that no other matching profile is ahead of. */
  ghost predicate IsBest(registry: seq<Profile>, fn: int, channel: Channel, p: Profile) {
    && p in registry && fn in p.functions && Matches(channel, p)
    && forall q :: q in registry && fn in q.functions && Matches(channel, q) ==> Ahead(p, q)
  }

  /** The match is the most specific one, the least id among equals, and ambiguity means equals. */
  lemma MatchIsBest(registry: seq<Profile>, fn: int, channel: Channel)
    ensures var m := MatchOf(registry, fn, channel);
            && (m.profile.None? <==> forall p :: p in registry && fn in p.functions ==> !Matches(channel, p))
            && (m.profile.Some? ==> IsBest(registry, fn, channel, m.profile.value))
            && (m.ambiguous <==>
                m.profile.Some? && CountAt(Candidates(registry, fn, channel), Specificity(m.profile.value)) > 1)
  {
    var cs := Candidates(registry, fn, channel);
    CandidatesFit(registry, fn, channel);
    RankedIsRanked(cs);
    hide Candidates, Ranked, Matches;
    var ranked := Ranked(cs);
    if ranked == [] {
      forall p | p in registry && fn in p.functions ensures !Matches(channel, p) {
        assert p !in cs;
      }
    } else {
      TiedLeaders(ranked);
      assert ranked[0] in ranked;
      forall q | q in cs ensures Ahead(ranked[0], q) {
        AheadIsTotal(q, q);
        assert q in ranked;
      }
    }
  }

  // ---------------------------------------------------------------- the choice in terms of what is required

  /** The places in the registry of the profiles that fit the channel and require `n` datapoints together. */
  function PlacesOf(registry: seq<Profile>, fn: int, channel: Channel, n: nat): set<nat> {
    set i: nat |
      && i < |registry| && fn in registry[i].functions && Matches(channel, registry[i])
      && |registry[i].requiresOutputs| + |registry[i].requiresInputs| == n
  }

  lemma {:induction false} CandidatesConcat(a: seq<Profile>, b: seq<Profile>, fn: int, channel: Channel)
    ensures Candidates(a + b, fn, channel) == Candidates(a, fn, channel) + Candidates(b, fn, channel)
  {
    hide Matches;
    if a == [] {
      assert a + b == b;
    } else {
      assert (a + b)[1..] == a[1..] + b;
      CandidatesConcat(a[1..], b, fn, channel);
    }
  }

  lemma {:induction false} CountConcat(a: seq<Profile>, b: seq<Profile>, n: nat)
    ensures CountAt(a + b, n) == CountAt(a, n) + CountAt(b, n)
  {
    if a == [] {
      assert a + b == b;
    } else {
      assert (a + b)[1..] == a[1..] + b;
      CountConcat(a[1..], b, n);
    }
  }

  lemma CountOfOne(p: Profile, fn: int, channel: Channel, n: nat)
    ensures CountAt(Candidates([p], fn, channel), n) ==
            if fn in p.functions && Matches(channel, p) && |p.requiresOutputs| + |p.requiresInputs| == n then 1 else 0
  {
    hide Matches;
    assert [p][1..] == [];
    assert Candidates([], fn, channel) == [];
  }

  lemma PlacesGrow(head: seq<Profile>, p: Profile, fn: int, channel: Channel, n: nat)
    ensures PlacesOf(head + [p], fn, channel, n) == PlacesOf(head, fn, channel, n) +
              if fn in p.functions && Matches(channel, p) && |p.requiresOutputs| + |p.requiresInputs| == n then {|head|}
              else {}
    ensures |head| !in PlacesOf(head, fn, channel, n)
  {
    hide Matches;
  }

  /** Candidates are counted by what they require. */
  lemma {:induction false} CandidatesAreCounted(registry: seq<Profile>, fn: int, channel: Channel, n: nat)
    ensures CountAt(Candidates(registry, fn, channel), n) == |PlacesOf(registry, fn, channel, n)|
  {
    if registry == [] {
      assert Candidates(registry, fn, channel) == [] && PlacesOf(registry, fn, channel, n) == {};
    } else {
      var head, p := registry[..|registry| - 1], registry[|registry| - 1];
      assert registry == head + [p];
      CandidatesAreCounted(head, fn, channel, n);
      MoreIsCounted(head, p, fn, channel, n);
    }
  }

  lemma MoreIsCounted(head: seq<Profile>, p: Profile, fn: int, channel: Channel, n: nat)
    requires CountAt(Candidates(head, fn, channel), n) == |PlacesOf(head, fn, channel, n)|
    ensures CountAt(Candidates(head + [p], fn, channel), n) == |PlacesOf(head + [p], fn, channel, n)|
  {
    hide *;
    CandidatesConcat(head, [p], fn, channel);
    CountConcat(Candidates(head, fn, channel), Candidates([p], fn, channel), n);
    CountOfOne(p, fn, channel, n);
    PlacesGrow(head, p, fn, channel, n);
  }

  /**
   No profile that fits the channel requires more datapoints than the chosen one, and of those that require
   as many it has the least id. The choice is ambiguous exactly if there is another that requires as many.
   */
  lemma MatchRequiresMost(registry: seq<Profile>, fn: int, channel: Channel)
    requires MatchOf(registry, fn, channel).profile.Some?
    ensures var m := MatchOf(registry, fn, channel);
            var p := m.profile.value;
            var n := |p.requiresOutputs| + |p.requiresInputs|;
            && p in registry && fn in p.functions && Matches(channel, p)
            && (forall q :: q in registry && fn in q.functions && Matches(channel, q) ==>
                  && |q.requiresOutputs| + |q.requiresInputs| <= n
                  && (|q.requiresOutputs| + |q.requiresInputs| == n ==> AtMost(p.id, q.id)))
            && (m.ambiguous <==> |PlacesOf(registry, fn, channel, n)| > 1)
  {
    MatchIsBest(registry, fn, channel);
    var p := MatchOf(registry, fn, channel).profile.value;
    CandidatesAreCounted(registry, fn, channel, |p.requiresOutputs| + |p.requiresInputs|);
    hide MatchOf, Matches, AtMost, CountAt, Candidates, PlacesOf;
  }

  predicate Distinct(pairings: seq<int>) {
    forall i, j :: 0 <= i < j < |pairings| ==> pairings[i] != pairings[j]
  }

  lemma FewerPairings(some: seq<int>, more: seq<int>)
    requires Distinct(some) && forall pairing :: pairing in some ==> pairing in more
    ensures |some| <= |more| && ((exists pairing :: pairing in more && pairing !in some) ==> |some| < |more|)
  {
    forall i | 0 <= i < |some| ensures some[i] in more {
      assert some[i] in some;
    }
    FewerElements(some, more);
  }

  /** A profile that requires all that another does, and more, wins over it. */
  lemma MoreRequiredWins(registry: seq<Profile>, fn: int, channel: Channel, p: Profile, q: Profile)
    requires p in registry && fn in p.functions && Matches(channel, p)
    requires Distinct(q.requiresOutputs) && Distinct(q.requiresInputs)
    requires forall pairing :: pairing in q.requiresOutputs ==> pairing in p.requiresOutputs
    requires forall pairing :: pairing in q.requiresInputs ==> pairing in p.requiresInputs
    requires (exists pairing :: pairing in p.requiresOutputs && pairing !in q.requiresOutputs) ||
             (exists pairing :: pairing in p.requiresInputs && pairing !in q.requiresInputs)
    ensures MatchOf(registry, fn, channel).profile.Some? && MatchOf(registry, fn, channel).profile.value != q
  {
    hide MatchOf, Matches, AtMost;
    FewerPairings(q.requiresOutputs, p.requiresOutputs);
    FewerPairings(q.requiresInputs, p.requiresInputs);
    MatchIsBest(registry, fn, channel);
    assert MatchOf(registry, fn, channel).profile.Some?;
    MatchRequiresMost(registry, fn, channel);
  }


  /** A profile fits exactly if an output is found for every pairing it requires of outputs, and so for inputs. */
  lemma FitsIff(channel: Channel, p: Profile)
    ensures Matches(channel, p) <==>
            && (forall pairing :: pairing in p.requiresOutputs ==>
                  exists k :: k in channel.outputs && channel.outputs[k].pairing == Some(pairing))
            && (forall pairing :: pairing in p.requiresInputs ==>
                  exists k :: k in channel.inputs && channel.inputs[k].pairing == Some(pairing))
  {
    assert forall pairing :: HasPairing(channel.outputs, pairing) <==>
             exists k :: k in channel.outputs && channel.outputs[k].pairing == Some(pairing);
    assert forall pairing :: HasPairing(channel.inputs, pairing) <==>
             exists k :: k in channel.inputs && channel.inputs[k].pairing == Some(pairing);
  }

  ghost predicate DistinctProfiles(registry: seq<Profile>) {
    forall p, q :: p in registry && q in registry && p.id == q.id ==> p == q
  }

  /** The order in which profiles were loaded decides nothing. */
  lemma MatchIgnoresOrder(a: seq<Profile>, b: seq<Profile>, fn: int, channel: Channel)
    requires DistinctProfiles(a) && forall p :: p in a <==> p in b
    ensures MatchOf(a, fn, channel).profile == MatchOf(b, fn, channel).profile
  {
    MatchIsBest(a, fn, channel);
    MatchIsBest(b, fn, channel);
    var m, n := MatchOf(a, fn, channel).profile, MatchOf(b, fn, channel).profile;
    hide MatchOf, Matches;
    if m.Some? && n.Some? {
      AtMostIsTotal(m.value.id, n.value.id);
    }
  }

  /** The compiler's internal check never fires: a matching channel has every required datapoint. */
  lemma RequiredKeysExist(channel: Channel, p: Profile, pairing: int)
    requires Matches(channel, p)
    ensures pairing in p.requiresOutputs ==> KeyOf(channel.outputs, pairing).Some?
    ensures pairing in p.requiresInputs ==> KeyOf(channel.inputs, pairing).Some?
  {
    KeyOfIsLeast(channel.outputs, pairing);
    KeyOfIsLeast(channel.inputs, pairing);
    hide KeyOf;
    if pairing in p.requiresOutputs {
      assert HasPairing(channel.outputs, pairing);
      var k :| k in channel.outputs && channel.outputs[k].pairing == Some(pairing);
      assert Pairs(channel.outputs, k, pairing);
    }
    if pairing in p.requiresInputs {
      assert HasPairing(channel.inputs, pairing);
      var k :| k in channel.inputs && channel.inputs[k].pairing == Some(pairing);
      assert Pairs(channel.inputs, k, pairing);
    }
  }
}
