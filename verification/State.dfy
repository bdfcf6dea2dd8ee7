/** Entities as the runtime sees them, and the state store of `bus/state.py`. */
module State {
  import opened Wrappers
  import opened Values
  import opened Bits

  datatype Kind = StateAttr | EventAttr

  datatype Transform = RoomTemperatureController | CoverWithSlats

  datatype Entity = Entity(
    id: string,
    attrNames: seq<string>,
    attrKinds: seq<Kind>,
    stateTopic: string,
    availabilityTopic: Option<string>,
    transform: Option<Transform>)
  {
    predicate Valid() {
      |attrNames| == |attrKinds|
    }
  }

  /** `values`, `unconfirmed` and `dirty` by entity index. */
  datatype Store = Store(values: seq<seq<Json>>, unconfirmed: seq<nat>, dirty: set<nat>, wake: bool)
  {
    predicate Fits(entities: seq<Entity>) {
      && |values| == |unconfirmed| == |entities|
      && (forall i :: 0 <= i < |entities| ==> |values[i]| == |entities[i].attrNames|)
      && (forall i :: i in dirty ==> i < |entities|)
    }

    predicate Has(entity: nat, attr: nat) {
      |values| == |unconfirmed| && entity < |values| && attr < |values[entity]|
    }

    predicate Unconfirmed(entity: nat, attr: nat)
      requires entity < |unconfirmed|
    {
      Bit(unconfirmed[entity], attr)
    }

    function Put(entity: nat, attr: nat, value: Json): Store
      requires Has(entity, attr)
    {
      this.(values := values[entity := values[entity][attr := value]])
    }
  }

  /** A report from the SysAP: clears `bits` in any case, stores and marks dirty only what changed. */
  function Applied(s: Store, entity: nat, attr: nat, value: Json, bits: nat): Store
    requires s.Has(entity, attr)
  {
    var cleared := s.(unconfirmed := s.unconfirmed[entity := Clear(s.unconfirmed[entity], bits)]);
    if Same(s.values[entity][attr], value) then cleared
    else cleared.Put(entity, attr, value).(dirty := s.dirty + {entity}, wake := true)
  }

  /** A command's guess: stored, marked unconfirmed and dirty in any case. */
  function Marked(s: Store, entity: nat, attr: nat, value: Json, bits: nat): Store
    requires s.Has(entity, attr)
  {
    s.Put(entity, attr, value).(
    unconfirmed := s.unconfirmed[entity := Or(s.unconfirmed[entity], bits)],
    dirty := s.dirty + {entity},
    wake := true)
  }

  /** What every write of one attribute leaves alone, and what it does to that attribute's own mark. */
  ghost predicate OnlyTouches(s: Store, t: Store, entity: nat, attr: nat) {
    && s.Has(entity, attr) && |t.values| == |s.values| && |t.unconfirmed| == |s.unconfirmed|
    && (forall e :: 0 <= e < |s.values| && e != entity ==> t.values[e] == s.values[e])
    && |t.values[entity]| == |s.values[entity]|
    && (forall a :: 0 <= a < |s.values[entity]| && a != attr ==> t.values[entity][a] == s.values[entity][a])
    && (forall e: nat, a: nat :: e < |s.unconfirmed| && (e, a) != (entity, attr) ==>
          t.Unconfirmed(e, a) == s.Unconfirmed(e, a))
  }

  /** A report changes one attribute, resolves its uncertainty, and is dirty exactly if news. */
  lemma ReportTouchesOneAttribute(s: Store, entity: nat, attr: nat, value: Json)
    requires s.Has(entity, attr)
    ensures var t := Applied(s, entity, attr, value, Pow2(attr));
            && OnlyTouches(s, t, entity, attr)
            && !t.Unconfirmed(entity, attr)
            && Same(t.values[entity][attr], value)
            && (t.values != s.values ==> entity in t.dirty)
            && t.dirty == s.dirty + (if Same(s.values[entity][attr], value) then {} else {entity})
            && t.wake == (s.wake || !Same(s.values[entity][attr], value))
  {
    forall a: nat
      ensures Bit(Clear(s.unconfirmed[entity], Pow2(attr)), a) <==> Bit(s.unconfirmed[entity], a) && a != attr
    {
      ClearOne(s.unconfirmed[entity], attr, a);
    }
  }

  lemma GuessTouchesOneAttribute(s: Store, entity: nat, attr: nat, value: Json)
    requires s.Has(entity, attr)
    ensures var t := Marked(s, entity, attr, value, Pow2(attr));
            && OnlyTouches(s, t, entity, attr)
            && t.Unconfirmed(entity, attr)
            && t.values[entity][attr] == value
            && t.dirty == s.dirty + {entity} && t.wake
  {
    forall a: nat
      ensures Bit(Or(s.unconfirmed[entity], Pow2(attr)), a) <==> Bit(s.unconfirmed[entity], a) || a == attr
    {
      SetOne(s.unconfirmed[entity], attr, a);
    }
  }

  /** A store with every value unknown, nothing unconfirmed and nothing dirty. */
  function Blank(entities: seq<Entity>): Store {
    Store(
      seq(|entities|, i requires 0 <= i < |entities| => seq(|entities[i].attrNames|, _ => Null)),
      seq(|entities|, _ => 0), {}, false)
  }

  lemma BlankIsUnknown(entities: seq<Entity>)
    ensures var s := Blank(entities);
            && s.Fits(entities) && s.dirty == {} && !s.wake
            && (forall e, a :: 0 <= e < |s.values| && 0 <= a < |s.values[e]| ==> s.values[e][a] == Null)
            && (forall e: nat, a: nat :: e < |s.unconfirmed| ==> !s.Unconfirmed(e, a))
  {
    forall a: nat ensures !Bit(0, a) {
      ZeroHasNoBit(a);
    }
  }

  class StateStore {
    var values: seq<seq<Json>>
    var unconfirmed: seq<nat>
    var dirty: set<nat>
    var wake: bool

    function Model(): Store
      reads this
    {
      Store(values, unconfirmed, dirty, wake)
    }

    constructor (entities: seq<Entity>)
      ensures Model() == Blank(entities)
    {
      values := seq(|entities|, i requires 0 <= i < |entities| => seq(|entities[i].attrNames|, _ => Null));
      unconfirmed := seq(|entities|, _ => 0);
      dirty, wake := {}, false;
    }

    method Seed(entity: nat, attr: nat, value: Json)
      requires Model().Has(entity, attr)
      modifies this`values
      ensures Model() == old(Model()).Put(entity, attr, value)
    {
      values := values[entity := values[entity][attr := value]];
    }

    method Apply(entity: nat, attr: nat, value: Json, bits: nat) returns (changed: bool)
      requires Model().Has(entity, attr)
      modifies this
      ensures Model() == Applied(old(Model()), entity, attr, value, bits)
      ensures changed <==> !Same(old(values[entity][attr]), value)
    {
      unconfirmed := unconfirmed[entity := Clear(unconfirmed[entity], bits)];
      if Same(values[entity][attr], value) {
        return false;
      }
      values := values[entity := values[entity][attr := value]];
      dirty := dirty + {entity};
      wake := true;
      changed := true;
    }

    method MarkOptimistic(entity: nat, attr: nat, value: Json, bits: nat)
      requires Model().Has(entity, attr)
      modifies this
      ensures Model() == Marked(old(Model()), entity, attr, value, bits)
    {
      values := values[entity := values[entity][attr := value]];
      unconfirmed := unconfirmed[entity := Or(unconfirmed[entity], bits)];
      dirty := dirty + {entity};
      wake := true;
    }

    method TakeDirty() returns (batch: set<nat>)
      modifies this`dirty
      ensures batch == old(dirty) && Model() == old(Model()).(dirty := {})
    {
      batch, dirty := dirty, {};
    }
  }
}
