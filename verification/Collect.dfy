/** The first pass of `compile`: which channels become entities, and the tally of those that do not. */
module Collect {
  import opened Wrappers
  import opened Text
  import opened Keys
  import opened Profiles

  const VIRTUAL_DEVICE_SERIAL_PREFIX := "6000"

  /** `functionOf` reads a function id, `nameOf` picks a channel's display name. */
  datatype Options = Options(
    includeOrphans: bool,
    includeVirtual: bool,
    excludedInterfaces: set<string>,
    excludedIds: set<string>,
    functionOf: Option<string> -> Option<int>,
    nameOf: (Channel, string, Device) -> string)

  datatype CompiledChannel = CompiledChannel(
    entityId: string,
    serial: string,
    channelId: string,
    channel: Channel,
    profile: Profile,
    name: string,
    area: Option<string>)

  datatype Verdict =
    | Accepted(compiled: CompiledChannel, ambiguous: bool)
    | ExcludedByOption
    | Orphaned
    | UnknownFunction
    | Unsupported

  datatype Tally = Tally(
    devicesTotal: nat,
    devicesExcluded: nat,
    channelsTotal: nat,
    orphaned: nat,
    unknownFunction: nat,
    unsupported: nat,
    ambiguousProfile: nat,
    excludedByOption: nat)

  const NOTHING := Tally(0, 0, 0, 0, 0, 0, 0, 0)

  /** `a or b` on optional strings: an empty string counts as missing. */
  function OrElse(a: Option<string>, b: Option<string>): Option<string> {
    if a.Some? && a.value != "" then a else b
  }

  predicate IsVirtual(serial: string, device: Device) {
    VIRTUAL_DEVICE_SERIAL_PREFIX <= serial || device.interface == Some("VD")
  }

  predicate Included(serial: string, device: Device, o: Options) {
    (IsVirtual(serial, device) ==> o.includeVirtual) &&
    (device.interface.Some? ==> device.interface.value !in o.excludedInterfaces)
  }

  function EntityId(serial: string, channelId: string): string {
    serial + "_" + channelId
  }

  function Area(floorplan: map<string, map<string, string>>, floor: string, room: string): Option<string> {
    if floor in floorplan && room in floorplan[floor] then Some(floorplan[floor][room]) else None
  }

  /** What becomes of one channel, in the order in which the reasons to leave it out are looked at. */
  function Judge(config: Configuration, registry: seq<Profile>, o: Options, serial: string, channelId: string,
                 channel: Channel, device: Device): Verdict
  {
    var floor, room := OrElse(channel.floor, device.floor), OrElse(channel.room, device.room);
    if EntityId(serial, channelId) in o.excludedIds then ExcludedByOption
    else if (floor.None? || room.None?) && !o.includeOrphans then Orphaned
    else if o.functionOf(channel.functionId).None? then UnknownFunction
    else
      var m := MatchOf(registry, o.functionOf(channel.functionId).value, channel);
      if m.profile.None? then Unsupported
      else
        Accepted(
          CompiledChannel(EntityId(serial, channelId), serial, channelId, channel, m.profile.value,
            o.nameOf(channel, channelId, device),
            if floor.None? || room.None? then None else Area(config.floorplan, floor.value, room.value)),
          m.ambiguous)
  }

  function Counted(t: Tally, v: Verdict): Tally {
    var n := t.(channelsTotal := t.channelsTotal + 1);
    match v
    case Accepted(_, ambiguous) => if ambiguous then n.(ambiguousProfile := t.ambiguousProfile + 1) else n
    case ExcludedByOption => n.(excludedByOption := t.excludedByOption + 1)
    case Orphaned => n.(orphaned := t.orphaned + 1)
    case UnknownFunction => n.(unknownFunction := t.unknownFunction + 1)
    case Unsupported => n.(unsupported := t.unsupported + 1)
  }

  // ---------------------------------------------------------------- the walk

  datatype Visit = Visit(serial: string, channelId: string)

  datatype Walk = Walk(tally: Tally, channels: seq<CompiledChannel>)

  predicate InConfig(config: Configuration, v: Visit) {
    v.serial in config.devices && v.channelId in config.devices[v.serial].channels
  }

  predicate Plausible(config: Configuration, visits: seq<Visit>) {
    forall v :: v in visits ==> InConfig(config, v)
  }

  function VerdictOf(config: Configuration, registry: seq<Profile>, o: Options, v: Visit): Verdict
    requires InConfig(config, v)
  {
    var device := config.devices[v.serial];
    Judge(config, registry, o, v.serial, v.channelId, device.channels[v.channelId], device)
  }

  function Visited(config: Configuration, registry: seq<Profile>, o: Options, w: Walk, v: Visit): Walk
    requires InConfig(config, v)
  {
    var verdict := VerdictOf(config, registry, o, v);
    Walk(Counted(w.tally, verdict), w.channels + if verdict.Accepted? then [verdict.compiled] else [])
  }

  function VisitsOfDevice(serial: string, ids: seq<string>): seq<Visit> {
    seq(|ids|, i requires 0 <= i < |ids| => Visit(serial, ids[i]))
  }

  ghost function DeviceVisits(config: Configuration, o: Options, serial: string): seq<Visit>
    requires serial in config.devices
  {
    var device := config.devices[serial];
    if Included(serial, device, o) then VisitsOfDevice(serial, Sorted(device.channels.Keys)) else []
  }

  /** The channels the compiler looks at, in the order of sorted serials and then sorted channel ids. */
  ghost function Visits(config: Configuration, o: Options, serials: seq<string>): seq<Visit>
    requires forall s :: s in serials ==> s in config.devices
  {
    if serials == [] then [] else DeviceVisits(config, o, serials[0]) + Visits(config, o, serials[1..])
  }

  function VisitedAll(config: Configuration, registry: seq<Profile>, o: Options, w: Walk, visits: seq<Visit>): Walk
    requires Plausible(config, visits)
    decreases |visits|
  {
    if visits == [] then w else VisitedAll(config, registry, o, Visited(config, registry, o, w, visits[0]), visits[1..])
  }

  function DevicesExcluded(config: Configuration, o: Options, serials: seq<string>): nat
    requires forall s :: s in serials ==> s in config.devices
  {
    if serials == [] then 0
    else
      (if Included(serials[0], config.devices[serials[0]], o) then 0 else 1) + DevicesExcluded(config, o, serials[1..])
  }

  lemma DeviceVisitsAreItsChannels(config: Configuration, o: Options, serial: string, v: Visit)
    requires serial in config.devices
    ensures v in DeviceVisits(config, o, serial) <==>
            v.serial == serial && Included(serial, config.devices[serial], o) &&
              v.channelId in config.devices[serial].channels
  {
    SortedIsSorted(config.devices[serial].channels.Keys);
    var ids := Sorted(config.devices[serial].channels.Keys);
    hide Sorted, Included;
    if v.serial == serial && v.channelId in ids {
      var i :| 0 <= i < |ids| && ids[i] == v.channelId;
      assert VisitsOfDevice(serial, ids)[i] == v;
    }
  }

  lemma {:induction false} VisitsAreInConfig(config: Configuration, o: Options, serials: seq<string>)
    requires forall s :: s in serials ==> s in config.devices
    ensures Plausible(config, Visits(config, o, serials))
    ensures forall v :: v in Visits(config, o, serials) <==>
              v.serial in serials && Included(v.serial, config.devices[v.serial], o) &&
              v.channelId in config.devices[v.serial].channels
  {
    hide DeviceVisits, Included;
    if serials != [] {
      VisitsAreInConfig(config, o, serials[1..]);
      forall v ensures v in DeviceVisits(config, o, serials[0]) <==>
                       v.serial == serials[0] && Included(serials[0], config.devices[serials[0]], o) &&
                       v.channelId in config.devices[serials[0]].channels
      {
        DeviceVisitsAreItsChannels(config, o, serials[0], v);
      }
      assert serials == [serials[0]] + serials[1..];
    }
  }

  ghost function SortedSerials(config: Configuration): (serials: seq<string>)
    ensures Ascending(serials) && forall s :: s in serials <==> s in config.devices
  {
    SortedIsSorted(config.devices.Keys);
    Sorted(config.devices.Keys)
  }

  ghost function AllVisits(config: Configuration, o: Options): (visits: seq<Visit>)
    ensures Plausible(config, visits)
  {
    VisitsAreInConfig(config, o, SortedSerials(config));
    Visits(config, o, SortedSerials(config))
  }

  /** The channels collected and the counts of those that were not. */
  ghost function Collected(config: Configuration, registry: seq<Profile>, o: Options): Walk {
    var w := VisitedAll(config, registry, o, Walk(NOTHING, []), AllVisits(config, o));
    w.(tally := w.tally.(
    devicesTotal := |config.devices|,
    devicesExcluded := DevicesExcluded(config, o, SortedSerials(config))))
  }

  lemma {:induction false} AscendingIsDistinct(keys: seq<string>)
    requires Ascending(keys)
    ensures |keys| == |set k | k in keys|
  {
    if keys == [] {
      assert (set k | k in keys) == {};
    } else {
      assert forall i :: 0 <= i < |keys[1..]| ==> keys[1..][i] == keys[i + 1];
      AscendingIsDistinct(keys[1..]);
      TailOfAscending(keys, keys[0]);
      assert keys == [keys[0]] + keys[1..];
      assert (set k | k in keys) == {keys[0]} + (set k | k in keys[1..]);
    }
  }

  // ---------------------------------------------------------------- conservation

  /** What every visit keeps: a channel seen is a channel accounted for. */
  predicate Balanced(w: Walk) {
    w.tally.channelsTotal ==
    |w.channels| + w.tally.orphaned + w.tally.unknownFunction + w.tally.unsupported + w.tally.excludedByOption
  }

  lemma {:induction false} VisitsKeepBalance(config: Configuration, registry: seq<Profile>, o: Options, w: Walk,
      visits: seq<Visit>)
    requires Plausible(config, visits) && Balanced(w)
    ensures var end := VisitedAll(config, registry, o, w, visits);
            Balanced(end) && end.tally.channelsTotal == w.tally.channelsTotal + |visits|
    decreases |visits|
  {
    hide Judge;
    if visits != [] {
      VisitsKeepBalance(config, registry, o, Visited(config, registry, o, w, visits[0]), visits[1..]);
    }
  }

  /** Every channel of every included device is created, or counted under exactly one reason. */
  lemma ChannelsAreConserved(config: Configuration, registry: seq<Profile>, o: Options)
    ensures var w := Collected(config, registry, o);
            && w.tally.channelsTotal == |AllVisits(config, o)|
            && w.tally.channelsTotal ==
               |w.channels| + w.tally.orphaned + w.tally.unknownFunction + w.tally.unsupported +
                 w.tally.excludedByOption
  {
    VisitsKeepBalance(config, registry, o, Walk(NOTHING, []), AllVisits(config, o));
    hide VisitedAll, Visits;
  }

  // ---------------------------------------------------------------- what is collected

  predicate Earlier(a: Visit, b: Visit) {
    Before(a.serial, b.serial) || (a.serial == b.serial && Before(a.channelId, b.channelId))
  }

  ghost predicate InOrder(visits: seq<Visit>) {
    forall i, j :: 0 <= i < j < |visits| ==> Earlier(visits[i], visits[j])
  }

  lemma DeviceVisitsAreInOrder(config: Configuration, o: Options, serial: string)
    requires serial in config.devices
    ensures InOrder(DeviceVisits(config, o, serial))
    ensures forall i :: 0 <= i < |DeviceVisits(config, o, serial)| ==>
              DeviceVisits(config, o, serial)[i].serial == serial
  {
    SortedIsSorted(config.devices[serial].channels.Keys);
    hide Sorted, Included, AtMost;
  }

  lemma {:induction false} VisitsAreInOrder(config: Configuration, o: Options, serials: seq<string>)
    requires Ascending(serials) && forall s :: s in serials ==> s in config.devices
    ensures InOrder(Visits(config, o, serials))
  {
    if serials != [] {
      DeviceVisitsAreInOrder(config, o, serials[0]);
      assert forall i :: 0 <= i < |serials[1..]| ==> serials[1..][i] == serials[i + 1];
      VisitsAreInOrder(config, o, serials[1..]);
      VisitsAreInConfig(config, o, serials[1..]);
      hide DeviceVisits, Included, AtMost;
      var later := Visits(config, o, serials[1..]);
      forall j | 0 <= j < |later| ensures Before(serials[0], later[j].serial) {
        assert later[j] in later;
      }
    }
  }

  /** The origin of a compiled channel. */
  predicate ComesFrom(config: Configuration, c: CompiledChannel, v: Visit) {
    && InConfig(config, v) && c.serial == v.serial && c.channelId == v.channelId
    && c.entityId == EntityId(c.serial, c.channelId)
    && c.channel == config.devices[v.serial].channels[v.channelId]
    && Matches(c.channel, c.profile)
  }

  lemma AcceptedComesFrom(config: Configuration, registry: seq<Profile>, o: Options, v: Visit)
    requires InConfig(config, v) && VerdictOf(config, registry, o, v).Accepted?
    ensures ComesFrom(config, VerdictOf(config, registry, o, v).compiled, v)
    ensures VerdictOf(config, registry, o, v).compiled.profile in registry
  {
    MatchIsBest(registry, o.functionOf(config.devices[v.serial].channels[v.channelId].functionId).value,
      config.devices[v.serial].channels[v.channelId]);
    hide MatchOf, Matches;
  }

  function VisitOf(c: CompiledChannel): Visit {
    Visit(c.serial, c.channelId)
  }

  /** The accepted channels among the visits, in the order of the visits. */
  lemma {:induction false} CollectedInOrder(config: Configuration, registry: seq<Profile>, o: Options, w: Walk,
      visits: seq<Visit>)
    requires Plausible(config, visits) && InOrder(visits)
    ensures var cs := VisitedAll(config, registry, o, w, visits).channels;
            && w.channels <= cs
            && (forall i, j :: |w.channels| <= i < j < |cs| ==> Earlier(VisitOf(cs[i]), VisitOf(cs[j])))
            && (forall i :: |w.channels| <= i < |cs| ==>
                  VisitOf(cs[i]) in visits && ComesFrom(config, cs[i], VisitOf(cs[i])) && cs[i].profile in registry)
            && (forall v :: v in visits && VerdictOf(config, registry, o, v).Accepted? ==>
                  VerdictOf(config, registry, o, v).compiled in cs)
    decreases |visits|
  {
    hide Judge, Before, Matches;
    if visits != [] {
      var v := visits[0];
      var next := Visited(config, registry, o, w, v);
      assert forall i :: 0 <= i < |visits[1..]| ==> visits[1..][i] == visits[i + 1];
      CollectedInOrder(config, registry, o, next, visits[1..]);
      var cs := VisitedAll(config, registry, o, w, visits).channels;
      assert visits == [v] + visits[1..];
      if VerdictOf(config, registry, o, v).Accepted? {
        AcceptedComesFrom(config, registry, o, v);
        assert next.channels[|w.channels|] == VerdictOf(config, registry, o, v).compiled;
        assert cs[|w.channels|] == VerdictOf(config, registry, o, v).compiled;
        forall j | |w.channels| < j < |cs| ensures Earlier(v, VisitOf(cs[j])) {
          var k :| 0 <= k < |visits[1..]| && visits[1..][k] == VisitOf(cs[j]);
          assert visits[k + 1] == VisitOf(cs[j]);
        }
      }
    }
  }

  predicate Qualifies(config: Configuration, registry: seq<Profile>, o: Options, v: Visit) {
    InConfig(config, v) && Included(v.serial, config.devices[v.serial], o) &&
      VerdictOf(config, registry, o, v).Accepted?
  }

  /**
   The collected channels come sorted by serial and channel id, each from its own place in the
   configuration, with a profile it matches, and none that qualifies is missing.
   */
  lemma CollectedAreSorted(config: Configuration, registry: seq<Profile>, o: Options)
    ensures var cs := Collected(config, registry, o).channels;
            && (forall i, j :: 0 <= i < j < |cs| ==> Earlier(VisitOf(cs[i]), VisitOf(cs[j])))
            && (forall i :: 0 <= i < |cs| ==> ComesFrom(config, cs[i], VisitOf(cs[i])) && cs[i].profile in registry)
            && (forall v :: Qualifies(config, registry, o, v) ==> VerdictOf(config, registry, o, v).compiled in cs)
  {
    VisitsAreInOrder(config, o, SortedSerials(config));
    VisitsAreInConfig(config, o, SortedSerials(config));
    CollectedInOrder(config, registry, o, Walk(NOTHING, []), AllVisits(config, o));
    hide VisitedAll, Visits, Judge, Before, Included, Matches;
  }

  /** Excluding one more entity takes out that entity and changes the verdict on no other channel. */
  lemma ExclusionIsExact(config: Configuration, registry: seq<Profile>, o: Options, id: string, v: Visit)
    requires InConfig(config, v)
    ensures VerdictOf(config, registry, o.(excludedIds := o.excludedIds + {id}), v) ==
            if EntityId(v.serial, v.channelId) == id then ExcludedByOption else VerdictOf(config, registry, o, v)
  {
    hide MatchOf, Area, EntityId;
  }

  /** Letting orphans in only re-judges channels that were left out as orphans. */
  lemma OrphansOnlyAdd(config: Configuration, registry: seq<Profile>, o: Options, v: Visit)
    requires InConfig(config, v)
    ensures var with := o.(includeOrphans := true);
            && !VerdictOf(config, registry, with, v).Orphaned?
            && (!VerdictOf(config, registry, o, v).Orphaned? ==>
                  VerdictOf(config, registry, with, v) == VerdictOf(config, registry, o, v))
            && (VerdictOf(config, registry, with, v).Accepted? && VerdictOf(config, registry, o, v).Orphaned? ==>
                  VerdictOf(config, registry, with, v).compiled.area == None)
  {
    hide MatchOf, Area, EntityId;
  }

  // ---------------------------------------------------------------- verdicts and counts from the configuration

  /** A device is left out if it is virtual and those are not wanted, or if its interface is excluded. */
  lemma IncludedMeans(serial: string, device: Device, o: Options)
    ensures Included(serial, device, o) <==>
            && ((|serial| >= 4 && serial[..4] == "6000") || device.interface == Some("VD") ==> o.includeVirtual)
            && (forall i :: i in o.excludedInterfaces ==> device.interface != Some(i))
  {
    assert VIRTUAL_DEVICE_SERIAL_PREFIX <= serial <==> |serial| >= 4 && serial[..4] == "6000";
  }

  /** The floor or room of a channel: its own unless that is missing or empty, else its device's. */
  function PlaceOf(own: Option<string>, devices: Option<string>): Option<string> {
    match own
    case None => devices
    case Some(place) => if place == "" then devices else own
  }

  /** The reasons to leave a channel out, each looked at only if those before do not apply, and what is kept. */
  lemma VerdictMeans(config: Configuration, registry: seq<Profile>, o: Options, v: Visit)
    requires InConfig(config, v)
    ensures var device := config.devices[v.serial];
            var channel := device.channels[v.channelId];
            var floor, room := PlaceOf(channel.floor, device.floor), PlaceOf(channel.room, device.room);
            var fn := o.functionOf(channel.functionId);
            var verdict := VerdictOf(config, registry, o, v);
            if v.serial + "_" + v.channelId in o.excludedIds then verdict == ExcludedByOption
            else if (floor.None? || room.None?) && !o.includeOrphans then verdict == Orphaned
            else if fn.None? then verdict == UnknownFunction
            else if forall p :: p in registry && fn.value in p.functions ==> !Matches(channel, p) then
              verdict == Unsupported
            else
              && verdict.Accepted? && verdict.ambiguous == MatchOf(registry, fn.value, channel).ambiguous
              && var c := verdict.compiled;
                 && c.entityId == v.serial + "_" + v.channelId && c.serial == v.serial && c.channelId == v.channelId
                 && c.channel == channel && Some(c.profile) == MatchOf(registry, fn.value, channel).profile
                 && c.name == o.nameOf(channel, v.channelId, device)
                 && c.area == if floor.None? || room.None? || floor.value !in config.floorplan ||
                                 room.value !in config.floorplan[floor.value] then None
                              else Some(config.floorplan[floor.value][room.value])
  {
    hide MatchOf, Matches, IsBest, CountAt, Candidates;
    var channel := config.devices[v.serial].channels[v.channelId];
    if o.functionOf(channel.functionId).Some? {
      MatchIsBest(registry, o.functionOf(channel.functionId).value, channel);
    }
  }

  datatype Reason = ByOption | AsOrphan | ByFunction | ByProfile | AsAmbiguous

  predicate Gives(v: Verdict, reason: Reason) {
    match reason
    case ByOption => v.ExcludedByOption?
    case AsOrphan => v.Orphaned?
    case ByFunction => v.UnknownFunction?
    case ByProfile => v.Unsupported?
    case AsAmbiguous => v.Accepted? && v.ambiguous
  }

  function CountOf(t: Tally, reason: Reason): nat {
    match reason
    case ByOption => t.excludedByOption
    case AsOrphan => t.orphaned
    case ByFunction => t.unknownFunction
    case ByProfile => t.unsupported
    case AsAmbiguous => t.ambiguousProfile
  }

  /** The visits whose channel gets this verdict. */
  function VisitsGiving(config: Configuration, registry: seq<Profile>, o: Options, visits: seq<Visit>,
                        reason: Reason): set<Visit>
    requires Plausible(config, visits)
  {
    set v | v in visits && Gives(VerdictOf(config, registry, o, v), reason)
  }

  predicate NoRepeats(visits: seq<Visit>) {
    forall i, j :: 0 <= i < j < |visits| ==> visits[i] != visits[j]
  }

  lemma VisitIsTallied(config: Configuration, registry: seq<Profile>, o: Options, w: Walk, v: Visit, reason: Reason)
    requires InConfig(config, v)
    ensures CountOf(Visited(config, registry, o, w, v).tally, reason) ==
            CountOf(w.tally, reason) + if Gives(VerdictOf(config, registry, o, v), reason) then 1 else 0
  {
    hide VerdictOf;
  }

  lemma {:induction false} VisitsAreTallied(config: Configuration, registry: seq<Profile>, o: Options, w: Walk,
      visits: seq<Visit>, reason: Reason)
    requires Plausible(config, visits) && NoRepeats(visits)
    ensures CountOf(VisitedAll(config, registry, o, w, visits).tally, reason) ==
            CountOf(w.tally, reason) + |VisitsGiving(config, registry, o, visits, reason)|
    decreases |visits|
  {
    hide VerdictOf, Gives, CountOf, Visited, NoRepeats;
    if visits == [] {
      assert VisitsGiving(config, registry, o, visits, reason) == {};
    } else {
      FirstOfVisits(visits);
      FirstVisitGives(config, registry, o, visits, reason);
      VisitIsTallied(config, registry, o, w, visits[0], reason);
      VisitsAreTallied(config, registry, o, Visited(config, registry, o, w, visits[0]), visits[1..], reason);
    }
  }

  lemma GivingIff(config: Configuration, registry: seq<Profile>, o: Options, visits: seq<Visit>, reason: Reason,
      x: Visit)
    requires Plausible(config, visits)
    ensures x in VisitsGiving(config, registry, o, visits, reason) <==>
            x in visits && Gives(VerdictOf(config, registry, o, x), reason)
  {
    hide Judge, Gives, VerdictOf;
  }

  lemma FirstOfVisits(visits: seq<Visit>)
    requires NoRepeats(visits) && visits != []
    ensures forall x :: x in visits <==> x == visits[0] || x in visits[1..]
    ensures visits[0] !in visits[1..] && NoRepeats(visits[1..])
  {
    assert visits == [visits[0]] + visits[1..];
  }

  lemma FirstVisitGives(config: Configuration, registry: seq<Profile>, o: Options, visits: seq<Visit>, reason: Reason)
    requires Plausible(config, visits) && NoRepeats(visits) && visits != []
    ensures Plausible(config, visits[1..])
    ensures |VisitsGiving(config, registry, o, visits, reason)| ==
            |VisitsGiving(config, registry, o, visits[1..], reason)| +
            if Gives(VerdictOf(config, registry, o, visits[0]), reason) then 1 else 0
  {
    hide VisitsGiving, Gives, VerdictOf, NoRepeats, InConfig;
    FirstOfVisits(visits);
    var rest := VisitsGiving(config, registry, o, visits[1..], reason);
    var mine := if Gives(VerdictOf(config, registry, o, visits[0]), reason) then {visits[0]} else {};
    forall x ensures x in VisitsGiving(config, registry, o, visits, reason) <==> x in rest + mine {
      GivingIff(config, registry, o, visits, reason, x);
      GivingIff(config, registry, o, visits[1..], reason, x);
    }
    assert VisitsGiving(config, registry, o, visits, reason) == rest + mine;
    GivingIff(config, registry, o, visits[1..], reason, visits[0]);
  }

  /** The channels of the included devices, without repeats. */
  lemma AllVisitsAre(config: Configuration, o: Options)
    ensures NoRepeats(AllVisits(config, o))
    ensures forall v :: v in AllVisits(config, o) <==>
                        InConfig(config, v) && Included(v.serial, config.devices[v.serial], o)
  {
    VisitsAreInConfig(config, o, SortedSerials(config));
    VisitsAreInOrder(config, o, SortedSerials(config));
    hide Visits, Included, AtMost;
  }

  /** Each counter is the number of channels, of those looked at, that were left out for that reason. */
  lemma TallyIsExact(config: Configuration, registry: seq<Profile>, o: Options)
    ensures var t, visits := Collected(config, registry, o).tally, AllVisits(config, o);
            && t.excludedByOption == |VisitsGiving(config, registry, o, visits, ByOption)|
            && t.orphaned == |VisitsGiving(config, registry, o, visits, AsOrphan)|
            && t.unknownFunction == |VisitsGiving(config, registry, o, visits, ByFunction)|
            && t.unsupported == |VisitsGiving(config, registry, o, visits, ByProfile)|
            && t.ambiguousProfile == |VisitsGiving(config, registry, o, visits, AsAmbiguous)|
  {
    hide VisitedAll, AllVisits, VisitsGiving, NoRepeats;
    var visits, start := AllVisits(config, o), Walk(NOTHING, []);
    AllVisitsAre(config, o);
    VisitsAreTallied(config, registry, o, start, visits, ByOption);
    VisitsAreTallied(config, registry, o, start, visits, AsOrphan);
    VisitsAreTallied(config, registry, o, start, visits, ByFunction);
    VisitsAreTallied(config, registry, o, start, visits, ByProfile);
    VisitsAreTallied(config, registry, o, start, visits, AsAmbiguous);
  }

  function ExcludedOf(config: Configuration, o: Options, serials: seq<string>): set<string>
    requires forall s :: s in serials ==> s in config.devices
  {
    set s | s in serials && !Included(s, config.devices[s], o)
  }

  lemma {:induction false} ExcludedAreCounted(config: Configuration, o: Options, serials: seq<string>)
    requires Ascending(serials) && forall s :: s in serials ==> s in config.devices
    ensures DevicesExcluded(config, o, serials) == |ExcludedOf(config, o, serials)|
  {
    hide Included, AtMost;
    if serials == [] {
      assert ExcludedOf(config, o, serials) == {};
    } else {
      var rest := serials[1..];
      assert forall i :: 0 <= i < |rest| ==> rest[i] == serials[i + 1];
      ExcludedAreCounted(config, o, rest);
      TailOfAscending(serials, serials[0]);
      assert serials == [serials[0]] + rest;
      assert ExcludedOf(config, o, serials) ==
             ExcludedOf(config, o, rest) +
             if Included(serials[0], config.devices[serials[0]], o) then {} else {serials[0]};
    }
  }

  /** So are the devices. */
  lemma DevicesAreCounted(config: Configuration, registry: seq<Profile>, o: Options)
    ensures var t := Collected(config, registry, o).tally;
            && t.devicesTotal == |config.devices|
            && t.devicesExcluded == |set s | s in config.devices && !Included(s, config.devices[s], o)|
  {
    hide Included, VisitedAll, AllVisits, DevicesExcluded;
    var serials := SortedSerials(config);
    ExcludedAreCounted(config, o, serials);
    assert ExcludedOf(config, o, serials) == set s | s in config.devices && !Included(s, config.devices[s], o);
  }

  // ---------------------------------------------------------------- entity ids

  predicate UnderscoreFree(s: string) {
    '_' !in s
  }

  predicate LastUnderscore(s: string, n: nat) {
    n < |s| && s[n] == '_' && forall i :: n < i < |s| ==> s[i] != '_'
  }

  lemma EntityIdCut(serial: string, channelId: string)
    requires UnderscoreFree(channelId)
    ensures LastUnderscore(EntityId(serial, channelId), |serial|)
    ensures EntityId(serial, channelId)[..|serial|] == serial
    ensures EntityId(serial, channelId)[|serial| + 1..] == channelId
  {
  }

  /** Ids of different channels differ when channel ids have no underscore, as the SysAP's never do. */
  lemma EntityIdsDiffer(s: string, c: string, t: string, d: string)
    requires UnderscoreFree(c) && UnderscoreFree(d)
    ensures EntityId(s, c) == EntityId(t, d) <==> s == t && c == d
  {
    EntityIdCut(s, c);
    EntityIdCut(t, d);
    hide EntityId;
  }

  // ---------------------------------------------------------------- the loops themselves

  method CollectOneChannel(config: Configuration, registry: seq<Profile>, o: Options, serial: string, channelId: string,
                           channel: Channel, device: Device, tally: Tally)
    returns (compiled: Option<CompiledChannel>, after: Tally)
    ensures var v := Judge(config, registry, o, serial, channelId, channel, device);
            after == Counted(tally, v) && compiled == if v.Accepted? then Some(v.compiled) else None
  {
    hide Ranked, Candidates;
    after := tally.(channelsTotal := tally.channelsTotal + 1);
    var entityId := EntityId(serial, channelId);
    if entityId in o.excludedIds {
      return None, after.(excludedByOption := after.excludedByOption + 1);
    }
    var floor, room := OrElse(channel.floor, device.floor), OrElse(channel.room, device.room);
    var area := None;
    if floor.None? || room.None? {
      if !o.includeOrphans {
        return None, after.(orphaned := after.orphaned + 1);
      }
    } else {
      area := Area(config.floorplan, floor.value, room.value);
    }
    var fn := o.functionOf(channel.functionId);
    if fn.None? {
      return None, after.(unknownFunction := after.unknownFunction + 1);
    }
    var m := MatchProfile(registry, fn.value, channel);
    if m.ambiguous {
      after := after.(ambiguousProfile := after.ambiguousProfile + 1);
    }
    if m.profile.None? {
      return None, after.(unsupported := after.unsupported + 1);
    }
    compiled := Some(CompiledChannel(entityId, serial, channelId, channel, m.profile.value,
      o.nameOf(channel, channelId, device), area));
  }

  lemma {:induction false} VisitsConcat(config: Configuration, registry: seq<Profile>, o: Options, w: Walk,
      a: seq<Visit>, b: seq<Visit>)
    requires Plausible(config, a) && Plausible(config, b)
    ensures Plausible(config, a + b)
    ensures VisitedAll(config, registry, o, w, a + b) ==
            VisitedAll(config, registry, o, VisitedAll(config, registry, o, w, a), b)
    decreases |a|
  {
    hide Visited;
    if a == [] {
      assert a + b == b;
    } else {
      assert a + b == [a[0]] + (a[1..] + b);
      VisitsConcat(config, registry, o, Visited(config, registry, o, w, a[0]), a[1..], b);
    }
  }

  method CollectDeviceChannels(config: Configuration, registry: seq<Profile>, o: Options, serial: string, w: Walk)
    returns (after: Walk)
    requires serial in config.devices && Included(serial, config.devices[serial], o)
    ensures Plausible(config, DeviceVisits(config, o, serial))
    ensures after == VisitedAll(config, registry, o, w, DeviceVisits(config, o, serial))
  {
    hide Judge, Counted, Included;
    var device := config.devices[serial];
    var ids := Sort(device.channels.Keys);
    SortedIsSorted(device.channels.Keys);
    ghost var visits := VisitsOfDevice(serial, ids);
    assert Plausible(config, visits);
    after := w;
    for i := 0 to |ids|
      invariant VisitedAll(config, registry, o, w, visits) == VisitedAll(config, registry, o, after, visits[i..])
    {
      assert visits[i..][0] == visits[i] && visits[i..][1..] == visits[i + 1..];
      assert ids[i] in ids;
      var compiled, tally := CollectOneChannel(config, registry, o, serial, ids[i], device.channels[ids[i]], device,
          after.tally);
      after := Walk(tally, after.channels + if compiled.Some? then [compiled.value] else []);
    }
  }

  /** What is left of the walk from serial `i` on. */
  ghost function Rest(config: Configuration, o: Options, serials: seq<string>, i: nat): (visits: seq<Visit>)
    requires i <= |serials| && forall s :: s in serials ==> s in config.devices
    ensures Plausible(config, visits)
  {
    VisitsAreInConfig(config, o, serials[i..]);
    Visits(config, o, serials[i..])
  }

  lemma NextSerial(config: Configuration, registry: seq<Profile>, o: Options, serials: seq<string>, i: nat, w: Walk)
    requires i < |serials| && forall s :: s in serials ==> s in config.devices
    ensures DevicesExcluded(config, o, serials[i..]) ==
            (if Included(serials[i], config.devices[serials[i]], o) then 0 else 1) +
              DevicesExcluded(config, o, serials[i + 1..])
    ensures Plausible(config, DeviceVisits(config, o, serials[i]))
    ensures VisitedAll(config, registry, o, w, Rest(config, o, serials, i)) ==
            VisitedAll(config, registry, o, VisitedAll(config, registry, o, w, DeviceVisits(config, o, serials[i])),
              Rest(config, o, serials, i + 1))
  {
    assert serials[i..][0] == serials[i] && serials[i..][1..] == serials[i + 1..];
    var mine := DeviceVisits(config, o, serials[i]);
    assert Rest(config, o, serials, i) == mine + Rest(config, o, serials, i + 1);
    assert forall v :: v in mine ==> v in Rest(config, o, serials, i);
    VisitsConcat(config, registry, o, w, mine, Rest(config, o, serials, i + 1));
  }

  lemma NoSerialsLeft(config: Configuration, o: Options, serials: seq<string>)
    requires forall s :: s in serials ==> s in config.devices
    ensures Rest(config, o, serials, |serials|) == [] && DevicesExcluded(config, o, serials[|serials|..]) == 0
    ensures serials[0..] == serials
  {
  }

  method CollectChannels(config: Configuration, registry: seq<Profile>, o: Options) returns (w: Walk)
    ensures w == Collected(config, registry, o)
  {
    hide Counted, Included, DevicesExcluded, Visits, VisitedAll, Plausible, DeviceVisits;
    var serials := Sort(config.devices.Keys);
    SortedIsSorted(config.devices.Keys);
    var excluded := 0;
    w := Walk(NOTHING, []);
    for i := 0 to |serials|
      invariant excluded + DevicesExcluded(config, o, serials[i..]) == DevicesExcluded(config, o, serials[0..])
      invariant VisitedAll(config, registry, o, Walk(NOTHING, []), Rest(config, o, serials, 0)) ==
                VisitedAll(config, registry, o, w, Rest(config, o, serials, i))
    {
      NextSerial(config, registry, o, serials, i, w);
      if Included(serials[i], config.devices[serials[i]], o) {
        w := CollectDeviceChannels(config, registry, o, serials[i], w);
      } else {
        NothingToVisit(config, registry, o, serials[i], w);
        excluded := excluded + 1;
      }
    }
    NoSerialsLeft(config, o, serials);
    NothingVisited(config, registry, o, w);
    SerialsCount(config, serials);
    w := w.(tally := w.tally.(devicesTotal := |serials|, devicesExcluded := excluded));
  }

  lemma NothingVisited(config: Configuration, registry: seq<Profile>, o: Options, w: Walk)
    ensures VisitedAll(config, registry, o, w, []) == w
  {
  }

  lemma NothingToVisit(config: Configuration, registry: seq<Profile>, o: Options, serial: string, w: Walk)
    requires serial in config.devices && !Included(serial, config.devices[serial], o)
    ensures Plausible(config, DeviceVisits(config, o, serial))
    ensures VisitedAll(config, registry, o, w, DeviceVisits(config, o, serial)) == w
  {
  }

  lemma SerialsCount(config: Configuration, serials: seq<string>)
    requires Ascending(serials) && forall s :: s in serials <==> s in config.devices
    ensures |serials| == |config.devices|
  {
    AscendingIsDistinct(serials);
    assert (set k | k in serials) == config.devices.Keys;
    assert |config.devices| == |config.devices.Keys|;
  }
}
