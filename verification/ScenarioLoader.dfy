/** The scenario loader: the default expectation, and the check that every action names a defined obstacle. */
module ScenarioLoaders {
  import opened Options
  import opened Yamls
  import opened ScenarioSpecs

  // ----- objects as trees -----

  function ObjSize(o: Obj): nat {
    match o
    case Plain(_) => 0
    case ObjList(items) => 1 + ItemsSize(items)
    case ObjDict(entries) => 1 + EntriesSize(entries)
    case Record(_, fields) => 1 + FieldsSize(fields)
    case Call(_, _, spec) => 1 + ObjSize(spec)
  }

  function ItemsSize(os: seq<Obj>): (n: nat)
    ensures forall i :: 0 <= i < |os| ==> ObjSize(os[i]) <= n
  {
    if os == [] then 0 else ObjSize(os[0]) + ItemsSize(os[1..])
  }

  function EntrySize(e: (Obj, Obj)): nat {
    ObjSize(e.1)
  }

  function EntriesSize(es: seq<(Obj, Obj)>): (n: nat)
    ensures forall i :: 0 <= i < |es| ==> EntrySize(es[i]) <= n
  {
    if es == [] then 0 else EntrySize(es[0]) + EntriesSize(es[1..])
  }

  function FieldSize(f: (string, Obj)): nat {
    ObjSize(f.1)
  }

  function FieldsSize(fs: seq<(string, Obj)>): (n: nat)
    ensures forall i :: 0 <= i < |fs| ==> FieldSize(fs[i]) <= n
  {
    if fs == [] then 0 else FieldSize(fs[0]) + FieldsSize(fs[1..])
  }

  /** What the object holds directly: the spec of a call, the fields of a record, the items of a list,
      the values (not the keys) of a dict. */
  function Children(o: Obj): (cs: seq<Obj>)
    ensures forall i :: 0 <= i < |cs| ==> ObjSize(cs[i]) < ObjSize(o)
  {
    match o
    case Plain(_) => []
    case ObjList(items) => items
    case ObjDict(entries) =>
      assert forall i :: 0 <= i < |entries| ==> EntrySize(entries[i]) <= EntriesSize(entries);
      seq(|entries|, i requires 0 <= i < |entries| => entries[i].1)
    case Record(_, fields) =>
      assert forall i :: 0 <= i < |fields| ==> FieldSize(fields[i]) <= FieldsSize(fields);
      seq(|fields|, i requires 0 <= i < |fields| => fields[i].1)
    case Call(_, _, spec) => [spec]
  }

  /** A step into an object: to an item of a list, the value of an entry, a field of a record, or the spec of a call */
  datatype Step = Item(i: nat) | ValueOf(i: nat) | FieldNo(i: nat) | SpecOf

  function Into(o: Obj, step: Step): Option<Obj> {
    match (o, step)
    case (ObjList(items), Item(i)) => if i < |items| then Some(items[i]) else None
    case (ObjDict(entries), ValueOf(i)) => if i < |entries| then Some(entries[i].1) else None
    case (Record(_, fields), FieldNo(i)) => if i < |fields| then Some(fields[i].1) else None
    case (Call(_, _, spec), SpecOf) => Some(spec)
    case _ => None
  }

  /** What a path of steps leads to */
  function At(o: Obj, path: seq<Step>): Option<Obj> {
    if path == [] then Some(o)
    else
      match Into(o, path[0])
      case Some(c) => At(c, path[1..])
      case None => None
  }

  /** The step to a child */
  function StepNo(o: Obj, i: nat): Step {
    match o
    case ObjList(_) => Item(i)
    case ObjDict(_) => ValueOf(i)
    case Record(_, _) => FieldNo(i)
    case _ => SpecOf
  }

  lemma IntoChild(o: Obj, i: nat)
    requires i < |Children(o)|
    ensures Into(o, StepNo(o, i)) == Some(Children(o)[i])
  {
  }

  lemma ChildInto(o: Obj, step: Step)
    requires Into(o, step).Some?
    ensures exists i :: 0 <= i < |Children(o)| && Children(o)[i] == Into(o, step).value
  {
    var i := if step.SpecOf? then 0 else step.i;
    assert Children(o)[i] == Into(o, step).value;
  }

  /** The calls in the object, in the order in which they are visited */
  function IterCalls(o: Obj): seq<Obj>
    decreases ObjSize(o), 1, 0
  {
    (if o.Call? then [o] else []) + IterChildren(o, |Children(o)|)
  }

  function IterChildren(o: Obj, n: nat): seq<Obj>
    requires n <= |Children(o)|
    decreases ObjSize(o), 0, n
  {
    if n == 0 then [] else IterChildren(o, n - 1) + IterCalls(Children(o)[n - 1])
  }

  ghost predicate Within(o: Obj, c: Obj) {
    exists path :: At(o, path) == Some(c)
  }

  lemma WithinStep(o: Obj, c: Obj)
    ensures Within(o, c) <==> c == o || exists i :: 0 <= i < |Children(o)| && Within(Children(o)[i], c)
  {
    if c == o {
      assert At(o, []) == Some(c);
    }
    if Within(o, c) && c != o {
      var path :| At(o, path) == Some(c);
      ChildInto(o, path[0]);
      assert At(Into(o, path[0]).value, path[1..]) == Some(c);
      assert Within(Into(o, path[0]).value, c);
    }
    forall i | 0 <= i < |Children(o)| && Within(Children(o)[i], c)
      ensures Within(o, c)
    {
      var path :| At(Children(o)[i], path) == Some(c);
      IntoChild(o, i);
      assert ([StepNo(o, i)] + path)[1..] == path;
      assert At(o, [StepNo(o, i)] + path) == Some(c);
    }
  }

  /** The iteration yields every call at any depth, and nothing else. */
  lemma {:induction false} IterCallsExact(o: Obj, c: Obj)
    ensures c in IterCalls(o) <==> c.Call? && Within(o, c)
    decreases ObjSize(o), 1, 0
  {
    hide Within, Children;
    WithinStep(o, c);
    IterChildrenExact(o, |Children(o)|, c);
  }

  lemma IterChildrenStep(o: Obj, n: nat, c: Obj)
    requires n <= |Children(o)|
    ensures n == 0 ==> c !in IterChildren(o, n)
    ensures n > 0 ==> (c in IterChildren(o, n) <==> c in IterChildren(o, n - 1) || c in IterCalls(Children(o)[n - 1]))
  {
    hide IterCalls, Children;
  }

  lemma {:induction false} IterChildrenExact(o: Obj, n: nat, c: Obj)
    requires n <= |Children(o)|
    ensures c in IterChildren(o, n) <==> c.Call? && exists i :: 0 <= i < n && Within(Children(o)[i], c)
    decreases ObjSize(o), 0, n
  {
    hide Within, Children, IterChildren, IterCalls;
    IterChildrenStep(o, n, c);
    if n > 0 {
      IterChildrenExact(o, n - 1, c);
      IterCallsExact(Children(o)[n - 1], c);
    }
  }

  // ----- the scenario -----

  const NO_ITEMS := Some(ObjList([]))
  const NO_ENTRIES := Some(ObjDict([]))
  const NO_TEXT := Some(Plain(Str("")))

  const SCENARIO_FIELDS := [
    Field("version", Literal([Str("2.0")]), None),
    Field("name", StrType, None),
    Field("world", StrType, None),
    Field("run", CallOf(Driver), None),
    Field("profile", StrType, NO_TEXT),
    Field("description", StrType, NO_TEXT),
    Field("tags", ListOf(StrType), NO_ITEMS),
    Field("timeout", Union([FloatType, NoneType]), Some(Plain(Null))),
    Field("seed", IntType, Some(Plain(Int(0)))),
    Field("stack_args", DictOf(StrType, StrType), NO_ENTRIES),
    Field("obstacles", DictOf(StrType, ClassOf("ObstacleSpec")), NO_ENTRIES),
    Field("setup", ListOf(CallOf(Action)), NO_ITEMS),
    Field("timeline", ListOf(ClassOf("TimelineEntry")), NO_ITEMS),
    Field("monitors", ListOf(CallOf(Monitor)), NO_ITEMS),
    Field("expect", ListOf(CallOf(Expectation)), NO_ITEMS),
    Field("teardown", ListOf(CallOf(Action)), NO_ITEMS)]

  const TIMELINE_FIELDS := [
    Field("when", CallOf(Trigger), None),
    Field("do", ListOf(CallOf(Action)), NO_ITEMS),
    Field("until", Union([CallOf(Trigger), NoneType]), Some(Plain(Null))),
    Field("name", StrType, NO_TEXT),
    Field("required", BoolType, Some(Plain(Bool(true))))]

  const OBSTACLE_FIELDS := [Field("model", ClassOf("ModelSpec"), None)]

  const OBSTACLES := 10
  const EXPECT := 14

  /** The scenario classes are as the data model has them; the registry and all other classes are arbitrary. */
  ghost predicate HasScenario(env: Env) {
    && "Scenario" in env.classes && env.classes["Scenario"].fields == SCENARIO_FIELDS
    && "TimelineEntry" in env.classes && env.classes["TimelineEntry"].fields == TIMELINE_FIELDS
    && "ObstacleSpec" in env.classes && env.classes["ObstacleSpec"].fields == OBSTACLE_FIELDS
  }

  function FieldOf(o: Obj, name: string): Option<Obj> {
    if o.Record? then FieldIn(o.fields, name) else None
  }

  function FieldIn(fields: seq<(string, Obj)>, name: string): Option<Obj> {
    if fields == [] then None
    else if fields[0].0 == name then Some(fields[0].1)
    else FieldIn(fields[1..], name)
  }

  /** getattr(scenario, ...) for the fields at the two positions above; None for what is no scenario */
  function FieldAt(s: Obj, i: nat): Obj {
    if s.Record? && i < |s.fields| then s.fields[i].1 else Plain(Null)
  }

  function WithExpect(s: Obj, calls: seq<Obj>): Obj {
    if s.Record? && EXPECT < |s.fields| then s.(fields := s.fields[EXPECT := (s.fields[EXPECT].0, ObjList(calls))]) else s
  }

  predicate Defines(s: Obj, obstacle: string) {
    var obstacles := FieldAt(s, OBSTACLES);
    obstacles.ObjDict? && exists i :: 0 <= i < |obstacles.entries| && obstacles.entries[i].0 == Plain(Str(obstacle))
  }

  /** The obstacle that the call is about, if it is an action with one */
  function ObstacleOf(c: Obj): Option<string> {
    if c.Call? && c.kind.Action? then
      match FieldOf(c.spec, "obstacle")
      case Some(Plain(Str(x))) => Some(x)
      case _ => None
    else None
  }

  /** No action at any depth is about an obstacle that the scenario does not define. */
  ghost predicate ObstaclesDefined(s: Obj) {
    forall c :: Within(s, c) && ObstacleOf(c).Some? ==> Defines(s, ObstacleOf(c).value)
  }

  /** With no expectation of its own the scenario gets the one named reached_all. */
  ghost predicate Completes(env: Env, given: Obj, s: Obj) {
    if FieldAt(given, EXPECT) == ObjList([]) then
      exists c :: ReadsNamed(env, Expectation, "reached_all", Null, c) && s == WithExpect(given, [c])
    else s == given
  }

  /** What a document has to be for the loader to return the scenario */
  ghost predicate Accepts(env: Env, raw: Yaml, s: Obj) {
    && ObstaclesDefined(s)
    && exists given :: Reads(env, ClassOf("Scenario"), raw, given) && Completes(env, given, s)
  }

  lemma CompletesIsCall(env: Env, given: Obj, s: Obj)
    ensures Completes(env, given, s) <==>
      if FieldAt(given, EXPECT) == ObjList([]) then
        var c := ParseCall(env, Expectation, Str("reached_all"));
        c.Some? && s == WithExpect(given, [c.value])
      else s == given
  {
    hide ParseNamed, ReadsNamed, WithExpect, FieldAt;
    if FieldAt(given, EXPECT) == ObjList([]) {
      var r := ParseCall(env, Expectation, Str("reached_all"));
      assert r == ParseNamed(env, Expectation, "reached_all", Null);
      forall c
        ensures r == Some(c) <==> ReadsNamed(env, Expectation, "reached_all", Null, c)
      {
        NamedExact(env, Expectation, "reached_all", Null, c);
      }
      if r.Some? {
        assert ReadsNamed(env, Expectation, "reached_all", Null, r.value);
      }
    }
  }

  /** Returns a scenario exactly for the documents that are accepted. */
  method ParseScenario(env: Env, raw: Yaml) returns (r: Option<Obj>)
    ensures forall s :: r == Some(s) <==> Accepts(env, raw, s)
  {
    hide ParseSpec, ParseCall, Reads, Completes, WithExpect, FieldAt, ObstaclesDefined, Within, IterCalls, ObstacleOf, Defines;
    var given := ParseSpec(env, "Scenario", raw);
    assert Convert(env, ClassOf("Scenario"), raw) == given;
    forall s
      ensures given == Some(s) <==> Reads(env, ClassOf("Scenario"), raw, s)
    {
      ConvertExact(env, ClassOf("Scenario"), raw, s);
    }
    if given.None? {
      return None;
    }
    forall s
      ensures Completes(env, given.value, s) <==>
        if FieldAt(given.value, EXPECT) == ObjList([]) then
          var c := ParseCall(env, Expectation, Str("reached_all"));
          c.Some? && s == WithExpect(given.value, [c.value])
        else s == given.value
    {
      CompletesIsCall(env, given.value, s);
    }
    var scenario := given.value;
    if FieldAt(scenario, EXPECT) == ObjList([]) {
      var c := ParseCall(env, Expectation, Str("reached_all"));
      if c.None? {
        return None;
      }
      scenario := WithExpect(scenario, [c.value]);
    }
    var ok := CheckObstacles(scenario);
    return if ok then Some(scenario) else None;
  }

  /** Looks at every call that the iteration yields. */
  method CheckObstacles(s: Obj) returns (ok: bool)
    ensures ok <==> ObstaclesDefined(s)
  {
    hide Within, IterCalls, Defines;
    var calls := IterCalls(s);
    forall c
      ensures c in calls <==> c.Call? && Within(s, c)
    {
      IterCallsExact(s, c);
    }
    for i := 0 to |calls|
      invariant forall j :: 0 <= j < i && ObstacleOf(calls[j]).Some? ==> Defines(s, ObstacleOf(calls[j]).value)
    {
      var obstacle := ObstacleOf(calls[i]);
      if obstacle.Some? && !Defines(s, obstacle.value) {
        return false;
      }
    }
    return true;
  }

  // ----- what an accepted scenario is like -----

  lemma ScenarioField(env: Env, raw: Yaml, given: Obj, i: nat)
    requires HasScenario(env) && Reads(env, ClassOf("Scenario"), raw, given) && i < |SCENARIO_FIELDS|
    ensures raw.Null? || raw.Dict?
    ensures given.Record? && |given.fields| == |SCENARIO_FIELDS|
    ensures ReadsField(env, SCENARIO_FIELDS[i], if raw.Null? then [] else raw.entries, given.fields[i])
  {
    hide ReadsField, Declared;
  }

  lemma CompletedField(env: Env, given: Obj, s: Obj, i: nat)
    requires Completes(env, given, s) && i != EXPECT
    ensures FieldAt(s, i) == FieldAt(given, i)
  {
    hide ReadsNamed;
  }

  lemma KeysComeFromFile(env: Env, tp: Type, v: Yaml, o: Obj, x: string)
    requires Reads(env, DictOf(StrType, tp), v, o) && o.ObjDict?
    requires exists i :: 0 <= i < |o.entries| && o.entries[i].0 == Plain(Str(x))
    ensures v.Dict? && exists i :: 0 <= i < |v.entries| && v.entries[i].0 == Str(x)
  {
    var i :| 0 <= i < |o.entries| && o.entries[i].0 == Plain(Str(x));
    assert Reads(env, StrType, v.entries[i].0, o.entries[i].0);
    assert v.entries[i].0 == Str(x);
  }

  /** In an accepted scenario the obstacle of every action, however deep, is a key of the file's obstacles. */
  lemma ActionsNameObstacles(env: Env, raw: Yaml, s: Obj, path: seq<Step>)
    requires HasScenario(env) && Accepts(env, raw, s)
    requires At(s, path).Some? && ObstacleOf(At(s, path).value).Some?
    ensures raw.Dict?
    ensures var x, d := ObstacleOf(At(s, path).value).value, Get(raw.entries, "obstacles", Null);
            d.Dict? && exists i :: 0 <= i < |d.entries| && d.entries[i].0 == Str(x)
  {
    hide Reads, Completes, ObstacleOf, FieldAt, At, Find;
    var x := ObstacleOf(At(s, path).value).value;
    assert Within(s, At(s, path).value);
    assert Defines(s, x);
    var given :| Reads(env, ClassOf("Scenario"), raw, given) && Completes(env, given, s);
    ScenarioField(env, raw, given, OBSTACLES);
    CompletedField(env, given, s, OBSTACLES);
    FieldAtIs(given, OBSTACLES);
    ObstaclesField(env, if raw.Null? then [] else raw.entries, given.fields[OBSTACLES], x);
  }

  lemma FieldAtIs(s: Obj, i: nat)
    requires s.Record? && i < |s.fields|
    ensures FieldAt(s, i) == s.fields[i].1
  {
  }

  lemma ObstaclesField(env: Env, es: seq<(Yaml, Yaml)>, o: (string, Obj), x: string)
    requires ReadsField(env, SCENARIO_FIELDS[OBSTACLES], es, o)
    requires o.1.ObjDict? && exists i :: 0 <= i < |o.1.entries| && o.1.entries[i].0 == Plain(Str(x))
    ensures es != [] && var d := Get(es, "obstacles", Null);
            d.Dict? && exists i :: 0 <= i < |d.entries| && d.entries[i].0 == Str(x)
  {
    hide Reads, Find;
    var i :| 0 <= i < |es| && IsFirst(es, "obstacles", i) && Reads(env, DictOf(StrType, ClassOf("ObstacleSpec")), es[i].1, o.1);
    KeysComeFromFile(env, ClassOf("ObstacleSpec"), es[i].1, o.1, x);
    FindAt(es, "obstacles", i);
  }

  /** An accepted scenario expects something: each of its expectations is a registered one, and there is one at least. */
  lemma SomethingIsExpected(env: Env, raw: Yaml, s: Obj)
    requires HasScenario(env) && Accepts(env, raw, s)
    ensures var e := FieldAt(s, EXPECT);
            && e.ObjList? && e.items != []
            && forall i :: 0 <= i < |e.items| ==>
                 e.items[i].Call? && e.items[i].kind.Expectation? && (e.items[i].kind, e.items[i].name) in env.registry
  {
    hide Reads, ReadsNamed, ObstaclesDefined;
    var given :| Reads(env, ClassOf("Scenario"), raw, given) && Completes(env, given, s);
    ScenarioField(env, raw, given, EXPECT);
    ExpectField(env, if raw.Null? then [] else raw.entries, given.fields[EXPECT]);
    if FieldAt(given, EXPECT) == ObjList([]) {
      var c :| ReadsNamed(env, Expectation, "reached_all", Null, c) && s == WithExpect(given, [c]);
      CallIsRegistered(env, Expectation, "reached_all", Null, c);
    }
  }

  lemma CallIsRegistered(env: Env, kind: Kind, name: string, params: Yaml, c: Obj)
    requires ReadsNamed(env, kind, name, params, c)
    ensures c.Call? && c.kind == kind && (c.kind, c.name) in env.registry
  {
  }

  lemma CallsAreRegistered(env: Env, kind: Kind, v: Yaml, c: Obj)
    requires Reads(env, CallOf(kind), v, c)
    ensures c.Call? && c.kind == kind && (c.kind, c.name) in env.registry
  {
  }

  lemma ExpectField(env: Env, es: seq<(Yaml, Yaml)>, o: (string, Obj))
    requires ReadsField(env, SCENARIO_FIELDS[EXPECT], es, o)
    ensures o.1.ObjList?
    ensures forall i :: 0 <= i < |o.1.items| ==>
      o.1.items[i].Call? && o.1.items[i].kind.Expectation? && (o.1.items[i].kind, o.1.items[i].name) in env.registry
  {
    if exists i :: 0 <= i < |es| && es[i].0 == Str("expect") {
      var j :| 0 <= j < |es| && IsFirst(es, "expect", j) && Reads(env, ListOf(CallOf(Expectation)), es[j].1, o.1);
      forall i | 0 <= i < |o.1.items|
        ensures o.1.items[i].Call? && o.1.items[i].kind.Expectation? && (o.1.items[i].kind, o.1.items[i].name) in env.registry
      {
        CallsAreRegistered(env, Expectation, es[j].1.items[i], o.1.items[i]);
      }
    }
  }

  lemma {:induction false} FieldInExact(fields: seq<(string, Obj)>, name: string, o: Obj)
    ensures FieldIn(fields, name) == Some(o) <==>
      exists i :: 0 <= i < |fields| && fields[i] == (name, o) && forall j :: 0 <= j < i ==> fields[j].0 != name
  {
    if fields != [] {
      FieldInExact(fields[1..], name, o);
      if i :| 0 <= i < |fields| && fields[i] == (name, o) && forall j :: 0 <= j < i ==> fields[j].0 != name {
        if i > 0 {
          assert fields[1..][i - 1] == (name, o) && forall j :: 0 <= j < i - 1 ==> fields[1..][j].0 == fields[j + 1].0;
        }
      }
      if i :| 0 <= i < |fields[1..]| && fields[1..][i] == (name, o) && forall j :: 0 <= j < i ==> fields[1..][j].0 != name {
        if fields[0].0 != name {
          assert fields[i + 1] == (name, o) && forall j :: 1 <= j < i + 1 ==> fields[j].0 == fields[1..][j - 1].0;
        }
      }
    }
  }

  /** Only an action is checked, and only if its spec has a field of that name that holds a text. */
  lemma ObstacleOfExact(c: Obj, x: string)
    ensures ObstacleOf(c) == Some(x) <==>
      && c.Call? && c.kind == Action && c.spec.Record?
      && exists i :: 0 <= i < |c.spec.fields| && c.spec.fields[i] == ("obstacle", Plain(Str(x))) &&
           forall j :: 0 <= j < i ==> c.spec.fields[j].0 != "obstacle"
  {
    hide FieldIn;
    if c.Call? && c.spec.Record? {
      FieldInExact(c.spec.fields, "obstacle", Plain(Str(x)));
    }
  }
}
