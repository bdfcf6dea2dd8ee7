/** The second pass of `compile`: the attributes and commands of one channel, and its table entries. */
module Tables {
  import opened Wrappers
  import opened Text
  import opened Values
  import opened Bits
  import opened State
  import opened Ingress
  import opened Profiles
  import opened Collect

  datatype EgressBinding = EgressBinding(
    entity: nat,
    restPath: string,
    encode: Json -> Option<string>,
    continuous: bool,
    optimisticAttr: Option<nat>,
    confirm: bool)

  datatype CompileError =
    | AttributeOnInput(pairing: int)
    | CommandOnOutput(pairing: int)
    | RequiredAbsent(pairing: int)
    | CodecMisconfigured(name: string)
    | SlugCollision(id: string)

  datatype Result<+T> = Ok(value: T) | Error(error: CompileError)

  datatype Attributes = Attributes(names: seq<string>, kinds: seq<Kind>, bindings: Table, initial: seq<Json>)

  // ---------------------------------------------------------------- attributes

  /** What makes the compiler give up on an attribute: it is wired to an input, or its codec is wrong. */
  ghost function AttributeFault(c: CompiledChannel, spec: AttributeSpec): Option<CompileError> {
    if KeyOf(c.channel.outputs, spec.pairing).None? then
      if KeyOf(c.channel.inputs, spec.pairing).Some? then Some(AttributeOnInput(spec.pairing))
      else if spec.pairing in c.profile.requiresOutputs then Some(RequiredAbsent(spec.pairing))
      else None
    else if spec.codec(c.channel).Misconfigured? then Some(CodecMisconfigured(spec.name))
    else None
  }

  /** The attribute has an output to read and a codec to read it with. */
  ghost predicate AttributeKept(c: CompiledChannel, spec: AttributeSpec) {
    KeyOf(c.channel.outputs, spec.pairing).Some? && spec.codec(c.channel).Built?
  }

  ghost function FirstFault(c: CompiledChannel, specs: seq<AttributeSpec>): Option<CompileError> {
    if specs == [] then None
    else
      var last := |specs| - 1;
      if FirstFault(c, specs[..last]).Some? then FirstFault(c, specs[..last]) else AttributeFault(c, specs[last])
  }

  ghost function KeptAttributes(c: CompiledChannel, specs: seq<AttributeSpec>): (kept: seq<AttributeSpec>)
    ensures forall i :: 0 <= i < |kept| ==> AttributeKept(c, kept[i])
  {
    if specs == [] then []
    else
      var last := |specs| - 1;
      KeptAttributes(c, specs[..last]) + if AttributeKept(c, specs[last]) then [specs[last]] else []
  }

  /** The ingress key of a datapoint. */
  function IngressKey(c: CompiledChannel, key: string): string {
    c.serial + "/" + (c.channelId + "/" + key)
  }

  ghost function AttributeKey(c: CompiledChannel, spec: AttributeSpec): string
    requires AttributeKept(c, spec)
  {
    IngressKey(c, KeyOf(c.channel.outputs, spec.pairing).value)
  }

  ghost function BindingOf(c: CompiledChannel, idx: nat, spec: AttributeSpec, attr: nat): Binding
    requires AttributeKept(c, spec)
  {
    Binding(idx, attr, spec.kind, Pow2(attr), spec.codec(c.channel).codec)
  }

  /** A later attribute read from the same datapoint takes the entry over. */
  ghost function BindingsOf(c: CompiledChannel, idx: nat, kept: seq<AttributeSpec>): Table
    requires forall i :: 0 <= i < |kept| ==> AttributeKept(c, kept[i])
  {
    if kept == [] then map[]
    else
      var last := |kept| - 1;
      BindingsOf(c, idx, kept[..last])[AttributeKey(c, kept[last]) := BindingOf(c, idx, kept[last], last)]
  }

  /** The value the configuration itself carries for the attribute. */
  ghost function InitialOf(c: CompiledChannel, spec: AttributeSpec): Json
    requires AttributeKept(c, spec)
  {
    KeyOfIsLeast(c.channel.outputs, spec.pairing);
    spec.codec(c.channel).codec(c.channel.outputs[KeyOf(c.channel.outputs, spec.pairing).value].value)
  }

  ghost function AttributesFrom(c: CompiledChannel, idx: nat, kept: seq<AttributeSpec>): Attributes
    requires forall i :: 0 <= i < |kept| ==> AttributeKept(c, kept[i])
  {
    Attributes(
      seq(|kept|, i requires 0 <= i < |kept| => kept[i].name),
      seq(|kept|, i requires 0 <= i < |kept| => kept[i].kind),
      BindingsOf(c, idx, kept),
      seq(|kept|, i requires 0 <= i < |kept| => InitialOf(c, kept[i])))
  }

  ghost function AttributesOf(c: CompiledChannel, idx: nat, specs: seq<AttributeSpec>): Result<Attributes> {
    if FirstFault(c, specs).Some? then Error(FirstFault(c, specs).value)
    else Ok(AttributesFrom(c, idx, KeptAttributes(c, specs)))
  }

  lemma AttributesGrow(c: CompiledChannel, idx: nat, kept: seq<AttributeSpec>, spec: AttributeSpec)
    requires AttributeKept(c, spec) && forall i :: 0 <= i < |kept| ==> AttributeKept(c, kept[i])
    ensures forall i :: 0 <= i < |kept + [spec]| ==> AttributeKept(c, (kept + [spec])[i])
    ensures var a := AttributesFrom(c, idx, kept);
            AttributesFrom(c, idx, kept + [spec]) ==
            Attributes(a.names + [spec.name], a.kinds + [spec.kind],
              a.bindings[AttributeKey(c, spec) := BindingOf(c, idx, spec, |kept|)], a.initial + [InitialOf(c, spec)])
  {
    assert (kept + [spec])[..|kept|] == kept;
    hide AttributeKept, InitialOf;
  }

  method ResolveAttributeDatapoint(c: CompiledChannel, spec: AttributeSpec) returns (key: Result<Option<string>>)
    ensures key == if KeyOf(c.channel.outputs, spec.pairing).None? && KeyOf(c.channel.inputs, spec.pairing).Some?
                   then Error(AttributeOnInput(spec.pairing)) else Ok(KeyOf(c.channel.outputs, spec.pairing))
  {
    hide KeyOf;
    var output := FindDatapointKey(c.channel.outputs, spec.pairing);
    if output.Some? {
      return Ok(output);
    }
    var input := FindDatapointKey(c.channel.inputs, spec.pairing);
    key := if input.Some? then Error(AttributeOnInput(spec.pairing)) else Ok(None);
  }

  lemma NoAttributes(c: CompiledChannel, idx: nat)
    ensures AttributesFrom(c, idx, []) == Attributes([], [], map[], [])
  {
  }

  /** The fold over the profile's attributes, one attribute further. */
  lemma NextAttribute(c: CompiledChannel, idx: nat, specs: seq<AttributeSpec>, i: nat)
    requires i < |specs|
    ensures FirstFault(c, specs[..i + 1]) ==
            if FirstFault(c, specs[..i]).Some? then FirstFault(c, specs[..i]) else AttributeFault(c, specs[i])
    ensures KeptAttributes(c, specs[..i + 1]) ==
            if AttributeKept(c, specs[i]) then KeptAttributes(c, specs[..i]) + [specs[i]]
            else KeptAttributes(c, specs[..i])
  {
    assert specs[..i + 1][..i] == specs[..i];
  }

  lemma {:induction false} FaultStays(c: CompiledChannel, specs: seq<AttributeSpec>, i: nat)
    requires i <= |specs| && FirstFault(c, specs[..i]).Some?
    ensures FirstFault(c, specs) == FirstFault(c, specs[..i])
    decreases |specs| - i
  {
    hide AttributeFault;
    if i == |specs| {
      assert specs[..i] == specs;
    } else {
      NextAttribute(c, 0, specs, i);
      FaultStays(c, specs, i + 1);
    }
  }

  method BuildAttributes(c: CompiledChannel, idx: nat) returns (r: Result<Attributes>)
    ensures r == AttributesOf(c, idx, c.profile.attributes)
  {
    hide AttributesFrom, KeyOf, KeptAttributes, FirstFault;
    var specs := c.profile.attributes;
    var a := Attributes([], [], map[], []);
    NoAttributes(c, idx);
    NothingKept(c);
    for i := 0 to |specs|
      invariant FirstFault(c, specs[..i]).None?
      invariant |a.names| == |KeptAttributes(c, specs[..i])|
      invariant a == AttributesFrom(c, idx, KeptAttributes(c, specs[..i]))
    {
      var spec := specs[i];
      NextAttribute(c, idx, specs, i);
      var key := ResolveAttributeDatapoint(c, spec);
      if key.Error? {
        FaultStays(c, specs, i + 1);
        return Error(key.error);
      }
      if key.value.None? {
        if spec.pairing in c.profile.requiresOutputs {
          FaultStays(c, specs, i + 1);
          return Error(RequiredAbsent(spec.pairing));
        }
        continue;
      }
      match spec.codec(c.channel) {
        case Misconfigured =>
          FaultStays(c, specs, i + 1);
          return Error(CodecMisconfigured(spec.name));
        case Unavailable =>
        case Built(decode) =>
          AttributesGrow(c, idx, KeptAttributes(c, specs[..i]), spec);
          KeyOfIsLeast(c.channel.outputs, spec.pairing);
          var attr := |a.names|;
          a := Attributes(
            a.names + [spec.name],
            a.kinds + [spec.kind],
            a.bindings[IngressKey(c, key.value.value) := Binding(idx, attr, spec.kind, Pow2(attr), decode)],
            a.initial + [decode(c.channel.outputs[key.value.value].value)]);
      }
    }
    assert specs[..|specs|] == specs;
    r := Ok(a);
  }

  lemma NothingKept(c: CompiledChannel)
    ensures FirstFault(c, []).None? && KeptAttributes(c, []) == []
  {
  }

  // ---------------------------------------------------------------- what the attribute tables say

  ghost predicate AllKept(c: CompiledChannel, kept: seq<AttributeSpec>) {
    forall i :: 0 <= i < |kept| ==> AttributeKept(c, kept[i])
  }

  /** `attr` is the last attribute read from this key. */
  ghost predicate LastAt(c: CompiledChannel, kept: seq<AttributeSpec>, key: string, attr: nat)
    requires AllKept(c, kept)
  {
    && attr < |kept| && AttributeKey(c, kept[attr]) == key
    && forall b :: attr < b < |kept| ==> AttributeKey(c, kept[b]) != key
  }

  lemma {:induction false} BindingAt(c: CompiledChannel, idx: nat, kept: seq<AttributeSpec>, key: string)
    requires AllKept(c, kept)
    ensures key in BindingsOf(c, idx, kept) <==> exists a: nat :: LastAt(c, kept, key, a)
    ensures forall a: nat :: LastAt(c, kept, key, a) ==> BindingsOf(c, idx, kept)[key] == BindingOf(c, idx, kept[a], a)
  {
    if kept != [] {
      var last := |kept| - 1;
      hide AttributeKept, AttributeKey, BindingOf;
      BindingAt(c, idx, kept[..last], key);
      if AttributeKey(c, kept[last]) == key {
        assert LastAt(c, kept, key, last);
      } else {
        forall a: nat ensures LastAt(c, kept, key, a) <==> LastAt(c, kept[..last], key, a) {
          if LastAt(c, kept[..last], key, a) {
            forall b | a < b < |kept| ensures AttributeKey(c, kept[b]) != key {
              assert b < last ==> kept[..last][b] == kept[b];
            }
          }
        }
      }
    }
  }

  lemma SameKeySamePairing(c: CompiledChannel, s: AttributeSpec, t: AttributeSpec)
    requires AttributeKept(c, s) && AttributeKept(c, t)
    ensures AttributeKey(c, s) == AttributeKey(c, t) <==> s.pairing == t.pairing
  {
    KeysTellPairings(c.channel.outputs, s.pairing, t.pairing);
    var k, l := KeyOf(c.channel.outputs, s.pairing).value, KeyOf(c.channel.outputs, t.pairing).value;
    hide KeyOf;
    assert IngressKey(c, k)[|c.serial| + 1 + |c.channelId| + 1..] == k;
    assert IngressKey(c, l)[|c.serial| + 1 + |c.channelId| + 1..] == l;
  }

  /** An attribute has an ingress entry exactly when no later one reads the same pairing. */
  lemma AttributeHasEntryIff(c: CompiledChannel, idx: nat, kept: seq<AttributeSpec>, attr: nat)
    requires AllKept(c, kept) && attr < |kept|
    ensures (exists key :: key in BindingsOf(c, idx, kept) && BindingsOf(c, idx, kept)[key].attr == attr) <==>
            forall b :: attr < b < |kept| ==> kept[b].pairing != kept[attr].pairing
  {
    hide AttributeKept, BindingsOf;
    forall b | attr < b < |kept|
      ensures AttributeKey(c, kept[b]) == AttributeKey(c, kept[attr]) <==> kept[b].pairing == kept[attr].pairing
    {
      SameKeySamePairing(c, kept[b], kept[attr]);
    }
    hide AttributeKey;
    var own := AttributeKey(c, kept[attr]);
    BindingAt(c, idx, kept, own);
    if LastAt(c, kept, own, attr) {
      assert BindingsOf(c, idx, kept)[own].attr == attr;
    }
    forall key | key in BindingsOf(c, idx, kept) && BindingsOf(c, idx, kept)[key].attr == attr
      ensures LastAt(c, kept, own, attr)
    {
      BindingAt(c, idx, kept, key);
      var a: nat :| LastAt(c, kept, key, a);
    }
  }

  /** An entry of the table belongs to an attribute, in range, with its own bit and its initial value. */
  ghost predicate GoodEntry(c: CompiledChannel, idx: nat, a: Attributes, key: string, b: Binding) {
    && b.entity == idx && b.attr < |a.names| && b.attr < |a.kinds| && b.attr < |a.initial|
    && b.bits == Pow2(b.attr) && b.kind == a.kinds[b.attr]
    && exists dp ::
         && dp in c.channel.outputs && key == IngressKey(c, dp)
         && a.initial[b.attr] == b.decode(c.channel.outputs[dp].value)
  }

  lemma EntriesAreGood(c: CompiledChannel, idx: nat, kept: seq<AttributeSpec>, key: string)
    requires AllKept(c, kept) && key in BindingsOf(c, idx, kept)
    ensures GoodEntry(c, idx, AttributesFrom(c, idx, kept), key, BindingsOf(c, idx, kept)[key])
    ensures AttributeKey(c, kept[BindingsOf(c, idx, kept)[key].attr]) == key
  {
    BindingAt(c, idx, kept, key);
    hide BindingsOf;
    var a: nat :| LastAt(c, kept, key, a);
    KeyOfIsLeast(c.channel.outputs, kept[a].pairing);
    hide KeyOf;
    var dp := KeyOf(c.channel.outputs, kept[a].pairing).value;
    assert dp in c.channel.outputs && key == IngressKey(c, dp);
  }

  /** The compiler gives up on a channel exactly when one of its attributes is at fault. */
  lemma {:induction false} FaultIff(c: CompiledChannel, specs: seq<AttributeSpec>)
    ensures FirstFault(c, specs).Some? <==> exists i :: 0 <= i < |specs| && AttributeFault(c, specs[i]).Some?
    ensures Matches(c.channel, c.profile) && FirstFault(c, specs).Some? ==> !FirstFault(c, specs).value.RequiredAbsent?
  {
    if specs != [] {
      var last := |specs| - 1;
      FaultIff(c, specs[..last]);
      if Matches(c.channel, c.profile) {
        RequiredKeysExist(c.channel, c.profile, specs[last].pairing);
      }
      hide KeyOf, Matches;
      forall i | 0 <= i < |specs[..last]| && AttributeFault(c, specs[..last][i]).Some?
        ensures AttributeFault(c, specs[i]).Some?
      {
      }
      forall i | 0 <= i < last && AttributeFault(c, specs[i]).Some? ensures AttributeFault(c, specs[..last][i]).Some? {
      }
    }
  }

  // ---------------------------------------------------------------- commands

  ghost function CommandFault(c: CompiledChannel, spec: CommandSpec): Option<CompileError> {
    if KeyOf(c.channel.inputs, spec.pairing).None? then
      if KeyOf(c.channel.outputs, spec.pairing).Some? then Some(CommandOnOutput(spec.pairing))
      else if spec.pairing in c.profile.requiresInputs then Some(RequiredAbsent(spec.pairing))
      else None
    else if spec.codec(c.channel).Misconfigured? then Some(CodecMisconfigured(spec.name))
    else None
  }

  ghost predicate CommandKept(c: CompiledChannel, spec: CommandSpec) {
    KeyOf(c.channel.inputs, spec.pairing).Some? && spec.codec(c.channel).Built?
  }

  ghost function FirstCommandFault(c: CompiledChannel, specs: seq<CommandSpec>): Option<CompileError> {
    if specs == [] then None
    else
      var last := |specs| - 1;
      if FirstCommandFault(c, specs[..last]).Some? then FirstCommandFault(c, specs[..last])
      else CommandFault(c, specs[last])
  }

  /** `{name: i for i, name in enumerate(names)}.get(name)`. */
  function IndexOf(names: seq<string>, name: string): Option<nat> {
    if names == [] then None
    else
      var last := |names| - 1;
      if names[last] == name then Some(last) else IndexOf(names[..last], name)
  }

  lemma {:induction false} IndexOfIsIndex(names: seq<string>, name: string)
    ensures var i := IndexOf(names, name);
            if i.Some? then i.value < |names| && names[i.value] == name else name !in names
  {
    if names != [] {
      IndexOfIsIndex(names[..|names| - 1], name);
    }
  }

  /** An unknown name only costs the immediate feedback. */
  function OptimisticAttr(spec: CommandSpec, names: seq<string>): Option<nat> {
    if spec.optimistic.None? || spec.optimistic.value == "" then None else IndexOf(names, spec.optimistic.value)
  }

  function RestPath(c: CompiledChannel, key: string): string {
    c.serial + "." + c.channelId + "." + key
  }

  ghost function EgressBindingOf(c: CompiledChannel, idx: nat, names: seq<string>, spec: CommandSpec): EgressBinding
    requires CommandKept(c, spec)
  {
    EgressBinding(idx, RestPath(c, KeyOf(c.channel.inputs, spec.pairing).value), spec.codec(c.channel).codec,
      spec.continuous, OptimisticAttr(spec, names), spec.confirm)
  }

  lemma {:induction false} CommandFaultIff(c: CompiledChannel, specs: seq<CommandSpec>)
    ensures FirstCommandFault(c, specs).Some? <==> exists i :: 0 <= i < |specs| && CommandFault(c, specs[i]).Some?
    ensures Matches(c.channel, c.profile) && FirstCommandFault(c, specs).Some? ==>
              !FirstCommandFault(c, specs).value.RequiredAbsent?
  {
    if specs != [] {
      var last := |specs| - 1;
      CommandFaultIff(c, specs[..last]);
      if Matches(c.channel, c.profile) {
        RequiredKeysExist(c.channel, c.profile, specs[last].pairing);
      }
      hide KeyOf, Matches;
      forall i | 0 <= i < |specs[..last]| && CommandFault(c, specs[..last][i]).Some?
        ensures CommandFault(c, specs[i]).Some?
      {
      }
      forall i | 0 <= i < last && CommandFault(c, specs[i]).Some? ensures CommandFault(c, specs[..last][i]).Some? {
      }
    }
  }

  type Egress = map<(nat, string), EgressBinding>

  ghost function EgressFrom(c: CompiledChannel, idx: nat, names: seq<string>, specs: seq<CommandSpec>): Egress {
    if specs == [] then map[]
    else
      var last := |specs| - 1;
      var before := EgressFrom(c, idx, names, specs[..last]);
      if !CommandKept(c, specs[last]) then before
      else before[(idx, specs[last].name) := EgressBindingOf(c, idx, names, specs[last])]
  }

  ghost function EgressOf(c: CompiledChannel, idx: nat, names: seq<string>, specs: seq<CommandSpec>): Result<Egress> {
    if FirstCommandFault(c, specs).Some? then Error(FirstCommandFault(c, specs).value)
    else Ok(EgressFrom(c, idx, names, specs))
  }

  lemma NextCommand(c: CompiledChannel, idx: nat, names: seq<string>, specs: seq<CommandSpec>, i: nat)
    requires i < |specs|
    ensures FirstCommandFault(c, specs[..i + 1]) ==
            if FirstCommandFault(c, specs[..i]).Some? then FirstCommandFault(c, specs[..i])
            else CommandFault(c, specs[i])
    ensures EgressFrom(c, idx, names, specs[..i + 1]) ==
            var before := EgressFrom(c, idx, names, specs[..i]);
            if !CommandKept(c, specs[i]) then before
            else before[(idx, specs[i].name) := EgressBindingOf(c, idx, names, specs[i])]
  {
    assert specs[..i + 1][..i] == specs[..i];
  }

  lemma {:induction false} CommandFaultStays(c: CompiledChannel, specs: seq<CommandSpec>, i: nat)
    requires i <= |specs| && FirstCommandFault(c, specs[..i]).Some?
    ensures FirstCommandFault(c, specs) == FirstCommandFault(c, specs[..i])
    decreases |specs| - i
  {
    hide CommandFault;
    if i == |specs| {
      assert specs[..i] == specs;
    } else {
      NextCommand(c, 0, [], specs, i);
      CommandFaultStays(c, specs, i + 1);
    }
  }

  method ResolveCommandDatapoint(c: CompiledChannel, spec: CommandSpec) returns (key: Result<Option<string>>)
    ensures key == if KeyOf(c.channel.inputs, spec.pairing).None? && KeyOf(c.channel.outputs, spec.pairing).Some?
                   then Error(CommandOnOutput(spec.pairing)) else Ok(KeyOf(c.channel.inputs, spec.pairing))
  {
    hide KeyOf;
    var input := FindDatapointKey(c.channel.inputs, spec.pairing);
    if input.Some? {
      return Ok(input);
    }
    var output := FindDatapointKey(c.channel.outputs, spec.pairing);
    key := if output.Some? then Error(CommandOnOutput(spec.pairing)) else Ok(None);
  }

  method BuildCommands(c: CompiledChannel, idx: nat, names: seq<string>) returns (r: Result<Egress>)
    ensures r == EgressOf(c, idx, names, c.profile.commands)
  {
    hide KeyOf, FirstCommandFault, EgressFrom, OptimisticAttr;
    var specs := c.profile.commands;
    var egress: Egress := map[];
    NoCommands(c, idx, names);
    for i := 0 to |specs|
      invariant FirstCommandFault(c, specs[..i]).None?
      invariant egress == EgressFrom(c, idx, names, specs[..i])
    {
      var spec := specs[i];
      NextCommand(c, idx, names, specs, i);
      var key := ResolveCommandDatapoint(c, spec);
      if key.Error? {
        CommandFaultStays(c, specs, i + 1);
        return Error(key.error);
      }
      if key.value.None? {
        if spec.pairing in c.profile.requiresInputs {
          CommandFaultStays(c, specs, i + 1);
          return Error(RequiredAbsent(spec.pairing));
        }
        continue;
      }
      match spec.codec(c.channel) {
        case Misconfigured =>
          CommandFaultStays(c, specs, i + 1);
          return Error(CodecMisconfigured(spec.name));
        case Unavailable =>
        case Built(encode) =>
          egress := egress[(idx, spec.name) := EgressBinding(idx, RestPath(c, key.value.value), encode, spec.continuous,
            OptimisticAttr(spec, names), spec.confirm)];
      }
    }
    assert specs[..|specs|] == specs;
    r := Ok(egress);
  }

  lemma NoCommands(c: CompiledChannel, idx: nat, names: seq<string>)
    ensures FirstCommandFault(c, []).None? && EgressFrom(c, idx, names, []) == map[]
  {
  }

  /** Every egress entry is of a kept command of this entity, and its guess goes to the attribute it names. */
  ghost predicate GoodEgress(c: CompiledChannel, idx: nat, names: seq<string>, specs: seq<CommandSpec>,
      key: (nat, string), b: EgressBinding) {
    && key.0 == idx && b.entity == idx
    && (b.optimisticAttr.Some? ==> b.optimisticAttr.value < |names|)
    && exists i ::
         && 0 <= i < |specs| && specs[i].name == key.1 && CommandKept(c, specs[i])
         && b.continuous == specs[i].continuous && b.confirm == specs[i].confirm
         && b.encode == specs[i].codec(c.channel).codec && ToldTo(names, specs[i], b.optimisticAttr)
         && exists dp :: Pairs(c.channel.inputs, dp, specs[i].pairing) && b.restPath == RestPath(c, dp)
  }

  /** The attribute is the one the command names, and it is missing only if there is none of that name. */
  predicate ToldTo(names: seq<string>, spec: CommandSpec, attr: Option<nat>) {
    if attr.Some? then attr.value < |names| && spec.optimistic == Some(names[attr.value])
    else spec.optimistic.None? || spec.optimistic.value == "" || spec.optimistic.value !in names
  }

  lemma OptimisticIsTold(spec: CommandSpec, names: seq<string>)
    ensures ToldTo(names, spec, OptimisticAttr(spec, names))
  {
    if spec.optimistic.Some? {
      IndexOfIsIndex(names, spec.optimistic.value);
    }
    hide IndexOf;
  }

  lemma {:induction false} EgressIsGood(c: CompiledChannel, idx: nat, names: seq<string>, specs: seq<CommandSpec>,
      key: (nat, string))
    requires key in EgressFrom(c, idx, names, specs)
    ensures GoodEgress(c, idx, names, specs, key, EgressFrom(c, idx, names, specs)[key])
  {
    var last := |specs| - 1;
    var spec := specs[last];
    if CommandKept(c, spec) && key == (idx, spec.name) {
      OptimisticIsTold(spec, names);
      KeyOfIsLeast(c.channel.inputs, spec.pairing);
      hide KeyOf, OptimisticAttr, RestPath;
      var dp := KeyOf(c.channel.inputs, spec.pairing).value;
      assert Pairs(c.channel.inputs, dp, spec.pairing);
    } else {
      hide KeyOf, ToldTo, RestPath;
      EgressIsGood(c, idx, names, specs[..last], key);
      var b := EgressFrom(c, idx, names, specs)[key];
      var i :| 0 <= i < |specs[..last]| && specs[..last][i].name == key.1 && CommandKept(c, specs[..last][i]) &&
               b.continuous == specs[..last][i].continuous && b.confirm == specs[..last][i].confirm &&
               b.encode == specs[..last][i].codec(c.channel).codec &&
               ToldTo(names, specs[..last][i], b.optimisticAttr) &&
               exists dp :: Pairs(c.channel.inputs, dp, specs[..last][i].pairing) && b.restPath == RestPath(c, dp);
      assert specs[..last][i] == specs[i];
    }
  }

  // ---------------------------------------------------------------- addresses

  /** The text is these three parts with a separator between them. */
  predicate CutAt(text: string, sep: char, a: string, b: string, c: string) {
    && |text| == |a| + 1 + |b| + 1 + |c|
    && text[..|a|] == a && text[|a|] == sep
    && text[|a| + 1..|a| + 1 + |b|] == b && text[|a| + 1 + |b|] == sep
    && text[|a| + 1 + |b| + 1..] == c
  }

  /** A datapoint is written to at serial, channel and key with dots between, and read at the same with slashes. */
  lemma AddressesAreCut(c: CompiledChannel, dp: string)
    ensures CutAt(RestPath(c, dp), '.', c.serial, c.channelId, dp)
    ensures CutAt(IngressKey(c, dp), '/', c.serial, c.channelId, dp)
  {
  }

  lemma FirstSeparator(text: string, sep: char, a: string, x: string)
    requires |a| < |text| && text[..|a|] == a && text[|a|] == sep && sep !in a
    requires |x| < |text| && text[..|x|] == x && text[|x|] == sep && sep !in x
    ensures a == x
  {
    assert forall i :: 0 <= i < |a| ==> text[i] == a[i] != sep;
    assert forall i :: 0 <= i < |x| ==> text[i] == x[i] != sep;
  }

  /** Parts without the separator can be told from the text: it is cut at its only two separators. */
  lemma CutIsUnique(text: string, sep: char, a: string, b: string, c: string, x: string, y: string, z: string)
    requires CutAt(text, sep, a, b, c) && CutAt(text, sep, x, y, z)
    requires sep !in a && sep !in b && sep !in x && sep !in y
    ensures a == x && b == y && c == z
    ensures sep !in c ==> forall i :: 0 <= i < |text| ==> (text[i] == sep <==> i == |a| || i == |a| + 1 + |b|)
  {
    FirstSeparator(text, sep, a, x);
    var rest := text[|a| + 1..];
    assert rest[..|b|] == b && rest[|b|] == sep && rest[..|y|] == y && rest[|y|] == sep;
    FirstSeparator(rest, sep, b, y);
    assert forall i :: 0 <= i < |a| ==> text[i] == a[i] != sep;
    assert forall i :: |a| < i < |a| + 1 + |b| ==> text[i] == b[i - |a| - 1] != sep;
    assert forall i :: |a| + 1 + |b| < i < |text| ==> text[i] == c[i - |a| - |b| - 2];
  }

  /** The first of the datapoints with the pairing, in the order of their keys. */
  ghost predicate FirstPaired(points: Points, pairing: int, dp: string) {
    Pairs(points, dp, pairing) && forall k :: Pairs(points, k, pairing) ==> AtMost(dp, k)
  }

  ghost predicate AnyPaired(points: Points, pairing: int) {
    exists k :: Pairs(points, k, pairing)
  }

  // ---------------------------------------------------------------- tables in terms of the channel

  /** An attribute is kept if an output has its pairing and its codec can be built; what is wrong otherwise. */
  lemma AttributeKeptIff(c: CompiledChannel, spec: AttributeSpec)
    ensures AttributeKept(c, spec) <==> AnyPaired(c.channel.outputs, spec.pairing) && spec.codec(c.channel).Built?
    ensures AttributeFault(c, spec) ==
            if AnyPaired(c.channel.outputs, spec.pairing) then
              if spec.codec(c.channel).Misconfigured? then Some(CodecMisconfigured(spec.name)) else None
            else if AnyPaired(c.channel.inputs, spec.pairing) then Some(AttributeOnInput(spec.pairing))
            else if spec.pairing in c.profile.requiresOutputs then Some(RequiredAbsent(spec.pairing))
            else None
  {
    hide KeyOf;
    KeyOfIsLeast(c.channel.outputs, spec.pairing);
    KeyOfIsLeast(c.channel.inputs, spec.pairing);
  }

  /** The same for commands, with inputs and outputs exchanged. */
  lemma CommandKeptIff(c: CompiledChannel, spec: CommandSpec)
    ensures CommandKept(c, spec) <==> AnyPaired(c.channel.inputs, spec.pairing) && spec.codec(c.channel).Built?
    ensures CommandFault(c, spec) ==
            if AnyPaired(c.channel.inputs, spec.pairing) then
              if spec.codec(c.channel).Misconfigured? then Some(CodecMisconfigured(spec.name)) else None
            else if AnyPaired(c.channel.outputs, spec.pairing) then Some(CommandOnOutput(spec.pairing))
            else if spec.pairing in c.profile.requiresInputs then Some(RequiredAbsent(spec.pairing))
            else None
  {
    hide KeyOf;
    KeyOfIsLeast(c.channel.inputs, spec.pairing);
    KeyOfIsLeast(c.channel.outputs, spec.pairing);
  }

  /** The attributes before `n` that are kept. */
  ghost function KeptBefore(c: CompiledChannel, specs: seq<AttributeSpec>, n: nat): set<nat>
    requires n <= |specs|
  {
    set i: nat | i < n && AttributeKept(c, specs[i])
  }

  lemma {:induction false} KeptAreCounted(c: CompiledChannel, specs: seq<AttributeSpec>)
    ensures |KeptAttributes(c, specs)| == |KeptBefore(c, specs, |specs|)|
  {
    hide AttributeKept;
    if specs != [] {
      var last := |specs| - 1;
      KeptAreCounted(c, specs[..last]);
      var before := KeptBefore(c, specs[..last], last);
      assert last !in before;
      assert KeptBefore(c, specs, |specs|) == before + if AttributeKept(c, specs[last]) then {last} else {};
    }
  }

  /** Kept attributes keep their order: each comes after as many as were kept before it. */
  lemma {:induction false} KeptInOrder(c: CompiledChannel, specs: seq<AttributeSpec>, i: nat)
    requires i < |specs| && AttributeKept(c, specs[i])
    ensures var k := |KeptBefore(c, specs, i)|;
            k < |KeptAttributes(c, specs)| && KeptAttributes(c, specs)[k] == specs[i]
  {
    hide AttributeKept;
    var last := |specs| - 1;
    assert KeptBefore(c, specs, i) == KeptBefore(c, specs[..last], i);
    if i == last {
      KeptAreCounted(c, specs[..last]);
    } else {
      KeptInOrder(c, specs[..last], i);
    }
  }

  /** The row of an attribute: its name and kind, and the decoded value of the first output with its pairing. */
  lemma AttributeRow(c: CompiledChannel, idx: nat, kept: seq<AttributeSpec>, attr: nat)
    requires AllKept(c, kept) && attr < |kept|
    ensures var a, spec := AttributesFrom(c, idx, kept), kept[attr];
            && |a.names| == |a.kinds| == |a.initial| == |kept| && spec.codec(c.channel).Built?
            && a.names[attr] == spec.name && a.kinds[attr] == spec.kind
            && exists dp :: FirstPaired(c.channel.outputs, spec.pairing, dp) &&
                 a.initial[attr] == spec.codec(c.channel).codec(c.channel.outputs[dp].value)
  {
    hide KeyOf, BindingsOf;
    KeyOfIsLeast(c.channel.outputs, kept[attr].pairing);
    assert FirstPaired(c.channel.outputs, kept[attr].pairing, KeyOf(c.channel.outputs, kept[attr].pairing).value);
  }

  /** The entry of an attribute: at the first output with its pairing, with its own decoder. */
  lemma EntryOfAttribute(c: CompiledChannel, idx: nat, kept: seq<AttributeSpec>, key: string)
    requires AllKept(c, kept) && key in BindingsOf(c, idx, kept)
    ensures var b := BindingsOf(c, idx, kept)[key];
            && b.entity == idx && b.attr < |kept| && b.bits == Pow2(b.attr) && b.kind == kept[b.attr].kind
            && kept[b.attr].codec(c.channel).Built? && b.decode == kept[b.attr].codec(c.channel).codec
            && exists dp :: FirstPaired(c.channel.outputs, kept[b.attr].pairing, dp) &&
                 CutAt(key, '/', c.serial, c.channelId, dp)
  {
    hide BindingsOf, KeyOf;
    BindingAt(c, idx, kept, key);
    var a: nat :| LastAt(c, kept, key, a);
    KeyOfIsLeast(c.channel.outputs, kept[a].pairing);
    var dp := KeyOf(c.channel.outputs, kept[a].pairing).value;
    AddressesAreCut(c, dp);
    assert FirstPaired(c.channel.outputs, kept[a].pairing, dp);
    hide CutAt, IngressKey;
  }

  /** Command `i` is the last kept one of this name. */
  ghost predicate LastNamed(c: CompiledChannel, specs: seq<CommandSpec>, name: string, i: nat) {
    && i < |specs| && specs[i].name == name && CommandKept(c, specs[i])
    && forall j :: i < j < |specs| && CommandKept(c, specs[j]) ==> specs[j].name != name
  }

  /** A channel has an egress entry exactly for the names of its kept commands, made from the last of that name. */
  lemma {:induction false} EgressEntryIff(c: CompiledChannel, idx: nat, names: seq<string>, specs: seq<CommandSpec>,
      key: (nat, string))
    ensures key in EgressFrom(c, idx, names, specs) <==>
            key.0 == idx && exists i: nat :: LastNamed(c, specs, key.1, i)
    ensures forall i: nat :: key.0 == idx && LastNamed(c, specs, key.1, i) ==>
              EgressFrom(c, idx, names, specs)[key] == EgressBindingOf(c, idx, names, specs[i])
  {
    hide CommandKept, EgressBindingOf;
    if specs != [] {
      var last := |specs| - 1;
      var head := specs[..last];
      EgressEntryIff(c, idx, names, head, key);
      if CommandKept(c, specs[last]) && specs[last].name == key.1 {
        assert LastNamed(c, specs, key.1, last);
      } else {
        forall i: nat ensures LastNamed(c, specs, key.1, i) <==> LastNamed(c, head, key.1, i) {
          if LastNamed(c, head, key.1, i) {
            forall j | i < j < |specs| && CommandKept(c, specs[j]) ensures specs[j].name != key.1 {
              assert j < last ==> head[j] == specs[j];
            }
          }
        }
      }
    }
  }

  /** What an entry holds: the first input with the command's pairing, and the command's own codec and flags. */
  lemma EgressBindingMeans(c: CompiledChannel, idx: nat, names: seq<string>, spec: CommandSpec)
    requires CommandKept(c, spec)
    ensures var b := EgressBindingOf(c, idx, names, spec);
            && b.entity == idx && b.encode == spec.codec(c.channel).codec && b.continuous == spec.continuous
            && b.confirm == spec.confirm && ToldTo(names, spec, b.optimisticAttr)
            && exists dp :: FirstPaired(c.channel.inputs, spec.pairing, dp) &&
                 CutAt(b.restPath, '.', c.serial, c.channelId, dp)
  {
    hide KeyOf, OptimisticAttr, ToldTo;
    OptimisticIsTold(spec, names);
    KeyOfIsLeast(c.channel.inputs, spec.pairing);
    var dp := KeyOf(c.channel.inputs, spec.pairing).value;
    AddressesAreCut(c, dp);
    assert FirstPaired(c.channel.inputs, spec.pairing, dp);
    hide CutAt, RestPath;
  }

  /** The fault reported is that of the first attribute at fault. */
  lemma {:induction false} FirstFaultIsFirst(c: CompiledChannel, specs: seq<AttributeSpec>) returns (i: nat)
    requires FirstFault(c, specs).Some?
    ensures i < |specs| && AttributeFault(c, specs[i]) == FirstFault(c, specs)
    ensures forall j :: 0 <= j < i ==> AttributeFault(c, specs[j]).None?
  {
    hide AttributeFault;
    var last := |specs| - 1;
    if FirstFault(c, specs[..last]).Some? {
      i := FirstFaultIsFirst(c, specs[..last]);
      assert forall j :: 0 <= j <= i ==> specs[..last][j] == specs[j];
    } else {
      i := last;
      FaultIff(c, specs[..last]);
      forall j | 0 <= j < last ensures AttributeFault(c, specs[j]).None? {
        assert specs[..last][j] == specs[j];
      }
    }
  }

  lemma {:induction false} FirstCommandFaultIsFirst(c: CompiledChannel, specs: seq<CommandSpec>) returns (i: nat)
    requires FirstCommandFault(c, specs).Some?
    ensures i < |specs| && CommandFault(c, specs[i]) == FirstCommandFault(c, specs)
    ensures forall j :: 0 <= j < i ==> CommandFault(c, specs[j]).None?
  {
    hide CommandFault;
    var last := |specs| - 1;
    if FirstCommandFault(c, specs[..last]).Some? {
      i := FirstCommandFaultIsFirst(c, specs[..last]);
      assert forall j :: 0 <= j <= i ==> specs[..last][j] == specs[j];
    } else {
      i := last;
      CommandFaultIff(c, specs[..last]);
      forall j | 0 <= j < last ensures CommandFault(c, specs[j]).None? {
        assert specs[..last][j] == specs[j];
      }
    }
  }
}
