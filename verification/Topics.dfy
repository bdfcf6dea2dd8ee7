/** The topic builders of `mqtt/topics.py` and the parser of `bus/commands.py` that undoes them. */
module Topics {
  import opened Wrappers
  import opened Text
  import opened Naming

  function StateTopic(base: string, slug: string): string {
    base + "/" + slug
  }

  function SetTopic(stateTopic: string): string {
    stateTopic + "/" + "set"
  }

  function SetAttributeTopic(stateTopic: string, attribute: string): string {
    stateTopic + "/" + ("set" + "/" + attribute)
  }

  function GetTopic(stateTopic: string): string {
    stateTopic + "/" + "get"
  }

  function AvailabilityTopic(stateTopic: string): string {
    stateTopic + "/" + "availability"
  }

  function EventTopic(stateTopic: string): string {
    stateTopic + "/" + "event"
  }

  /** `bridge/state`, `bridge/info`, `bridge/devices`, `bridge/event` and `bridge/logging`. */
  function BridgeTopic(base: string, name: string): string {
    base + "/" + "bridge" + "/" + name
  }

  function BridgeRequestTopic(base: string, command: string): string {
    base + "/" + "bridge" + "/" + ("request" + "/" + command)
  }

  predicate Publishable(topic: string) {
    '+' !in topic && '#' !in topic
  }

  // ---------------------------------------------------------------- the parser

  datatype Form = Set | Get

  datatype Command = Command(entity: nat, form: Form, attribute: Option<string>)

  function Meaning(byTopic: map<string, nat>, parts: seq<string>): Option<Command>
    requires parts != []
  {
    if parts[0] !in byTopic then None
    else if |parts| == 2 && parts[1] == "set" then Some(Command(byTopic[parts[0]], Set, None))
    else if |parts| == 2 && parts[1] == "get" then Some(Command(byTopic[parts[0]], Get, None))
    else if |parts| == 3 && parts[1] == "set" then Some(Command(byTopic[parts[0]], Set, Some(parts[2])))
    else None
  }

  function ParseTopic(base: string, byTopic: map<string, nat>, topic: string): Option<Command> {
    var prefix := base + "/";
    if !(prefix <= topic) then None else Meaning(byTopic, Split(topic[|prefix|..]))
  }

  /** The forms a client can address: an attribute is only set, and its name is one topic level. */
  predicate Addressable(c: Command) {
    c.attribute.Some? ==> c.form == Set && '/' !in c.attribute.value
  }

  function CommandTopic(base: string, slug: string, c: Command): string
    requires Addressable(c)
  {
    var state := StateTopic(base, slug);
    if c.attribute.Some? then SetAttributeTopic(state, c.attribute.value)
    else if c.form == Set then SetTopic(state)
    else GetTopic(state)
  }

  lemma PartsOf(base: string, slug: string, rest: string)
    requires '/' !in slug
    ensures base + "/" <= base + "/" + slug + "/" + rest
    ensures Split((base + "/" + slug + "/" + rest)[|base| + 1..]) == [slug] + Split(rest)
  {
    SplitHead(slug, rest);
    assert (base + "/" + slug + "/" + rest)[|base| + 1..] == slug + "/" + rest;
  }

  lemma {:induction false} SplitPlain(word: string)
    requires '/' !in word
    ensures Split(word) == [word] && Split("set" + "/" + word) == ["set", word]
  {
    SplitHead(word, "");
    SplitHead("set", word);
  }

  lemma PrintedIsParsed(base: string, byTopic: map<string, nat>, slug: string, c: Command)
    requires slug in byTopic && '/' !in slug && byTopic[slug] == c.entity && Addressable(c)
    ensures ParseTopic(base, byTopic, CommandTopic(base, slug, c)) == Some(c)
  {
    hide Split, Meaning;
    var rest := if c.attribute.Some? then "set" + "/" + c.attribute.value else if c.form == Set then "set" else "get";
    assert CommandTopic(base, slug, c) == base + "/" + slug + "/" + rest;
    hide CommandTopic;
    PartsOf(base, slug, rest);
    if c.attribute.Some? {
      SplitPlain(c.attribute.value);
      assert [slug] + Split(rest) == [slug, "set", c.attribute.value];
    } else {
      SplitPlain(rest);
      assert [slug] + Split(rest) == [slug, rest];
    }
    MeaningOfParts(byTopic, slug, c);
  }

  lemma MeaningOfParts(byTopic: map<string, nat>, slug: string, c: Command)
    requires slug in byTopic && byTopic[slug] == c.entity && Addressable(c)
    ensures c.attribute.Some? ==> Meaning(byTopic, [slug, "set", c.attribute.value]) == Some(c)
    ensures c.attribute.None? ==> Meaning(byTopic, [slug, if c.form == Set then "set" else "get"]) == Some(c)
  {
  }

  lemma PartsOfMeaning(byTopic: map<string, nat>, parts: seq<string>)
    requires parts != [] && Meaning(byTopic, parts).Some?
    ensures var c := Meaning(byTopic, parts).value;
            && parts[0] in byTopic && byTopic[parts[0]] == c.entity
            && if c.attribute.Some? then c.form == Set && parts == [parts[0], "set", c.attribute.value]
               else parts == [parts[0], if c.form == Set then "set" else "get"]
  {
    assert |parts| == 2 ==> parts == [parts[0], parts[1]];
    assert |parts| == 3 ==> parts == [parts[0], parts[1], parts[2]];
  }

  lemma ParsedIsPrinted(base: string, byTopic: map<string, nat>, topic: string) returns (slug: string)
    requires ParseTopic(base, byTopic, topic).Some?
    ensures var c := ParseTopic(base, byTopic, topic).value;
            && slug in byTopic && '/' !in slug && byTopic[slug] == c.entity && Addressable(c)
            && topic == CommandTopic(base, slug, c)
  {
    hide Split, Meaning;
    var prefix := base + "/";
    var tail := topic[|prefix|..];
    assert topic == prefix + tail;
    PartsOfMeaning(byTopic, Split(tail));
    slug := Split(tail)[0];
    var c := ParseTopic(base, byTopic, topic).value;
    hide ParseTopic;
    if c.attribute.Some? {
      SplitInThree(tail, slug, "set", c.attribute.value);
    } else {
      SplitInTwo(tail, slug, if c.form == Set then "set" else "get");
    }
  }

  /**
   Parsing undoes printing and nothing else parses: a topic means command `c` exactly when it is the
   topic printed for `c` under a slug of its entity.
   */
  lemma ParserInvertsPrinter(base: string, byTopic: map<string, nat>, topic: string, c: Command)
    ensures ParseTopic(base, byTopic, topic) == Some(c) <==>
            Addressable(c) &&
            exists slug :: slug in byTopic && '/' !in slug && byTopic[slug] == c.entity &&
              topic == CommandTopic(base, slug, c)
  {
    if ParseTopic(base, byTopic, topic) == Some(c) {
      var slug := ParsedIsPrinted(base, byTopic, topic);
    }
    if Addressable(c) {
      forall slug | slug in byTopic && '/' !in slug && byTopic[slug] == c.entity && topic == CommandTopic(base, slug, c)
        ensures ParseTopic(base, byTopic, topic) == Some(c)
      {
        PrintedIsParsed(base, byTopic, slug, c);
      }
    }
  }

  lemma NotACommand(base: string, byTopic: map<string, nat>, slug: string, word: string, rest: string)
    requires '/' !in slug && '/' !in word && word != "set"
    ensures word != "get" ==> ParseTopic(base, byTopic, base + "/" + slug + "/" + word) == None
    ensures ParseTopic(base, byTopic, base + "/" + slug + "/" + (word + "/" + rest)) == None
  {
    SplitHead(word, rest);
    PartsOf(base, slug, word);
    PartsOf(base, slug, word + "/" + rest);
  }

  /** What the bridge publishes for an entity is never mistaken for a command. */
  lemma EntityTopicsAreNotCommands(base: string, byTopic: map<string, nat>, slug: string)
    requires '/' !in slug
    ensures ParseTopic(base, byTopic, StateTopic(base, slug)) == None
    ensures ParseTopic(base, byTopic, AvailabilityTopic(StateTopic(base, slug))) == None
    ensures ParseTopic(base, byTopic, EventTopic(StateTopic(base, slug))) == None
  {
    SplitPlain(slug);
    assert StateTopic(base, slug)[|base + "/"|..] == slug;
    NotACommand(base, byTopic, slug, "availability", "");
    NotACommand(base, byTopic, slug, "event", "");
  }

  /** Neither are the bridge's own topics and its requests, even if an entity is called `bridge`. */
  lemma BridgeTopicsAreNotCommands(base: string, byTopic: map<string, nat>, name: string)
    requires '/' !in name && name !in {"set", "get"}
    ensures ParseTopic(base, byTopic, BridgeTopic(base, name)) == None
    ensures ParseTopic(base, byTopic, BridgeRequestTopic(base, name)) == None
  {
    NotACommand(base, byTopic, "bridge", name, "");
    NotACommand(base, byTopic, "bridge", "request", name);
  }

  // ---------------------------------------------------------------- the levels of the topics

  /** An entity's topics: state below the prefix, and one level deeper what is set, read, told and announced. */
  lemma EntityTopicLevels(base: string, slug: string, attribute: string)
    requires '/' !in base && '/' !in slug && '/' !in attribute
    ensures var state := StateTopic(base, slug);
            && Split(state) == [base, slug]
            && Split(SetTopic(state)) == [base, slug, "set"]
            && Split(SetAttributeTopic(state, attribute)) == [base, slug, "set", attribute]
            && Split(GetTopic(state)) == [base, slug, "get"]
            && Split(AvailabilityTopic(state)) == [base, slug, "availability"]
            && Split(EventTopic(state)) == [base, slug, "event"]
  {
    hide Split;
    TwoLevels(base, slug);
    ThreeLevels(base, slug, "set");
    ThreeLevels(base, slug, "get");
    ThreeLevels(base, slug, "availability");
    ThreeLevels(base, slug, "event");
    FourLevels(base, slug, "set", attribute);
  }

  /** The bridge's own topics and requests are below the prefix and `bridge`. */
  lemma BridgeTopicLevels(base: string, name: string)
    requires '/' !in base && '/' !in name
    ensures Split(BridgeTopic(base, name)) == [base, "bridge", name]
    ensures Split(BridgeRequestTopic(base, name)) == [base, "bridge", "request", name]
  {
    hide Split;
    ThreeLevels(base, "bridge", name);
    FourLevels(base, "bridge", "request", name);
  }

  lemma TwoLevels(a: string, b: string)
    requires '/' !in a && '/' !in b
    ensures Split(a + "/" + b) == [a, b]
  {
    hide Split;
    SplitHead(b, "");
    SplitHead(a, b);
  }

  lemma ThreeLevels(a: string, b: string, c: string)
    requires '/' !in a && '/' !in b && '/' !in c
    ensures Split(a + "/" + b + "/" + c) == [a, b, c]
  {
    hide Split;
    TwoLevels(b, c);
    SplitHead(a, b + "/" + c);
    assert a + "/" + (b + "/" + c) == a + "/" + b + "/" + c;
  }

  lemma FourLevels(a: string, b: string, c: string, d: string)
    requires '/' !in a && '/' !in b && '/' !in c && '/' !in d
    ensures Split(a + "/" + b + "/" + (c + "/" + d)) == [a, b, c, d]
  {
    hide Split;
    ThreeLevels(b, c, d);
    SplitHead(a, b + "/" + c + "/" + d);
    assert a + "/" + (b + "/" + c + "/" + d) == a + "/" + b + "/" + (c + "/" + d);
  }

  // ---------------------------------------------------------------- topics do not meet

  lemma StateTopicsDiffer(base: string, a: string, b: string)
    ensures StateTopic(base, a) == StateTopic(base, b) <==> a == b
  {
    assert StateTopic(base, a)[|base| + 1..] == a;
    assert StateTopic(base, b)[|base| + 1..] == b;
  }

  /** No availability topic is the state topic of any entity. */
  lemma AvailabilityIsNoState(base: string, a: string, b: string)
    requires '/' !in b
    ensures AvailabilityTopic(StateTopic(base, a)) != StateTopic(base, b)
  {
    var deeper := a + "/" + "availability";
    assert AvailabilityTopic(StateTopic(base, a)) == StateTopic(base, deeper);
    assert deeper[|a|] == '/';
    StateTopicsDiffer(base, deeper, b);
  }

  /**
   An entity's event topic is the bridge's own event topic exactly when its slug is `bridge`, which
   nothing in the naming keeps a device of that name from getting.
   */
  lemma BridgeSlugClashes(base: string, slug: string)
    requires '/' !in slug
    ensures EventTopic(StateTopic(base, slug)) == BridgeTopic(base, "event") <==> slug == "bridge"
  {
    var mine, own := slug + "/" + "event", "bridge" + "/" + "event";
    assert EventTopic(StateTopic(base, slug)) == StateTopic(base, mine);
    assert BridgeTopic(base, "event") == StateTopic(base, own);
    StateTopicsDiffer(base, mine, own);
    assert mine[..|slug|] == slug && own[..|"bridge"|] == "bridge";
  }

  /** With an assigned slug every entity topic passes the wildcard check and stays one level deep. */
  lemma SafeSlugsMakeSafeTopics(base: string, slug: string)
    requires TopicSafe(slug) && Publishable(base)
    ensures '/' !in slug && Publishable(StateTopic(base, slug))
    ensures Publishable(AvailabilityTopic(StateTopic(base, slug))) && Publishable(EventTopic(StateTopic(base, slug)))
  {
  }
}
