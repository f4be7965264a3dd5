/** The type-directed parser of scenario files, and the relation between values and objects that it decides. */
module ScenarioSpecs {
  import opened Options
  import opened Yamls

  datatype Kind = Action | Trigger | Expectation | Monitor | Driver

  /** Field types; NoneType stands only inside unions, and Unsupported for everything the parser refuses. */
  datatype Type =
    | AnyType | NoneType | BoolType | IntType | FloatType | StrType | Unsupported
    | Union(args: seq<Type>)
    | Literal(values: seq<Yaml>)
    | ListOf(item: Type)
    | DictOf(key: Type, val: Type)
    | CallOf(kind: Kind)
    | ClassOf(name: string)

  /** Parsed objects.  The spec of a call without one is None. */
  datatype Obj =
    | Plain(yaml: Yaml)
    | ObjList(items: seq<Obj>)
    | ObjDict(entries: seq<(Obj, Obj)>)
    | Record(cls: string, fields: seq<(string, Obj)>)
    | Call(kind: Kind, name: string, spec: Obj)

  datatype Field = Field(name: string, tp: Type, default: Option<Obj>)

  datatype Class = Class(fields: seq<Field>, validate: Obj -> bool)

  /** The dataclasses, the registry (which may have no spec class for an entry), and str() of a key that is no string */
  datatype Env = Env(classes: map<string, Class>, registry: map<(Kind, string), Option<string>>, text: Yaml -> string)

  function NameOf(env: Env, key: Yaml): string {
    if key.Str? then key.s else env.text(key)
  }

  /** Keys of a dict must be hashable: what is not a plain scalar is not. */
  predicate Hashable(o: Obj) {
    o.Plain? && !o.yaml.List? && !o.yaml.Dict?
  }

  function NonNone(args: seq<Type>): (r: seq<Type>)
    ensures forall t :: t in r ==> t in args
  {
    if args == [] then []
    else if args[0] == NoneType then NonNone(args[1..])
    else [args[0]] + NonNone(args[1..])
  }

  function FindIndex(entries: seq<(Yaml, Yaml)>, key: string): (r: Option<nat>)
    ensures r.Some? ==> r.value < |entries| && entries[r.value].0 == Str(key)
    ensures r.Some? ==> forall i :: 0 <= i < r.value ==> entries[i].0 != Str(key)
    ensures r.None? ==> forall i :: 0 <= i < |entries| ==> entries[i].0 != Str(key)
  {
    if entries == [] then None
    else if entries[0].0 == Str(key) then Some(0)
    else
      match FindIndex(entries[1..], key)
      case Some(i) => Some(i + 1)
      case None => None
  }

  predicate Declared(fields: seq<Field>, key: Yaml) {
    exists i :: 0 <= i < |fields| && key == Str(fields[i].name)
  }

  predicate AmongLiterals(v: Yaml, values: seq<Yaml>) {
    exists i :: 0 <= i < |values| && SameScalar(v, values[i])
  }

  // ----- the parser; None where it raises -----

  function Convert(env: Env, tp: Type, v: Yaml): Option<Obj>
    decreases Size(v), 5, tp
  {
    match tp
    case AnyType => Some(Plain(v))
    case Union(args) =>
      var others := NonNone(args);
      if v.Null? && |others| < |args| then Some(Plain(Null))
      else if |others| == 1 then
        assert others[0] in args;
        Convert(env, others[0], v)
      else None
    case Literal(values) => if AmongLiterals(v, values) then Some(Plain(v)) else None
    case ListOf(item) =>
      if v.Null? then Some(ObjList([]))
      else if !v.List? then None
      else
        var os := ConvertItems(env, item, v.items);
        if os.Some? then Some(ObjList(os.value)) else None
    case DictOf(key, val) =>
      if v.Null? then Some(ObjDict([]))
      else if !v.Dict? then None
      else
        var es := ConvertEntries(env, key, val, v.entries);
        if es.Some? then Some(ObjDict(es.value)) else None
    case CallOf(kind) => ParseCall(env, kind, v)
    case ClassOf(c) => ParseSpec(env, c, v)
    case BoolType => if v.Bool? then Some(Plain(v)) else None
    case IntType => if v.Int? then Some(Plain(v)) else None
    case FloatType =>
      if v.Int? then Some(Plain(Float(v.i as real))) else if v.Float? then Some(Plain(v)) else None
    case StrType => if v.Str? then Some(Plain(v)) else None
    case NoneType => None
    case Unsupported => None
  }

  function ConvertItems(env: Env, tp: Type, vs: seq<Yaml>): Option<seq<Obj>>
    decreases SizeAll(vs), 0
  {
    if vs == [] then Some([])
    else
      var o, rest := Convert(env, tp, vs[0]), ConvertItems(env, tp, vs[1..]);
      if o.Some? && rest.Some? then Some([o.value] + rest.value) else None
  }

  function ConvertEntries(env: Env, key: Type, val: Type, es: seq<(Yaml, Yaml)>): Option<seq<(Obj, Obj)>>
    decreases SizeEntries(es), 0
  {
    if es == [] then Some([])
    else
      var k, o, rest := Convert(env, key, es[0].0), Convert(env, val, es[0].1), ConvertEntries(env, key, val, es[1..]);
      if k.Some? && Hashable(k.value) && o.Some? && rest.Some? then Some([(k.value, o.value)] + rest.value) else None
  }

  function ParseCall(env: Env, kind: Kind, v: Yaml): Option<Obj>
    decreases Size(v), 4
  {
    if v.Str? then ParseNamed(env, kind, v.s, Null)
    else if v.Dict? && |v.entries| == 1 then
      assert SizeEntry(v.entries[0]) < SizeEntries(v.entries);
      ParseNamed(env, kind, NameOf(env, v.entries[0].0), v.entries[0].1)
    else None
  }

  function ParseNamed(env: Env, kind: Kind, name: string, params: Yaml): Option<Obj>
    decreases Size(params), 3
  {
    if (kind, name) !in env.registry then None
    else
      match env.registry[(kind, name)]
      case Some(c) =>
        var spec := ParseSpec(env, c, params);
        if spec.Some? then Some(Call(kind, name, spec.value)) else None
      case None => if params == Null || params == Dict([]) then Some(Call(kind, name, Plain(Null))) else None
  }

  function ParseSpec(env: Env, c: string, raw: Yaml): Option<Obj>
    decreases Size(raw), 2
  {
    if c !in env.classes then None
    else if raw.Null? then Build(env, c, [])
    else if raw.Dict? then Build(env, c, raw.entries)
    else None
  }

  function Build(env: Env, c: string, es: seq<(Yaml, Yaml)>): Option<Obj>
    requires c in env.classes
    decreases SizeEntries(es), 1
  {
    var fields := env.classes[c].fields;
    if exists i :: 0 <= i < |es| && !Declared(fields, es[i].0) then None
    else
      var args := ParseFields(env, fields, es);
      if args.Some? && env.classes[c].validate(Record(c, args.value)) then Some(Record(c, args.value)) else None
  }

  function ParseFields(env: Env, fields: seq<Field>, es: seq<(Yaml, Yaml)>): Option<seq<(string, Obj)>>
    decreases SizeEntries(es), 0, |fields|
  {
    if fields == [] then Some([])
    else
      var f := fields[0];
      var o := match FindIndex(es, f.name)
        case Some(i) => (assert SizeEntry(es[i]) < SizeEntries(es); Convert(env, f.tp, es[i].1))
        case None => f.default;
      var rest := ParseFields(env, fields[1..], es);
      if o.Some? && rest.Some? then Some([(f.name, o.value)] + rest.value) else None
  }

  // ----- which object a value denotes, if any -----

  /** The value conforms to the type and denotes the object. */
  ghost predicate Reads(env: Env, tp: Type, v: Yaml, o: Obj)
    decreases Size(v), 5, tp
  {
    match tp
    case AnyType => o == Plain(v)
    case Union(args) =>
      if v.Null? && NoneType in args then o == Plain(Null)
      else exists i :: 0 <= i < |args| && OnlyMember(args, i) && Reads(env, args[i], v, o)
    case Literal(values) => o == Plain(v) && AmongLiterals(v, values)
    case ListOf(item) =>
      || (v.Null? && o == ObjList([]))
      || (v.List? && o.ObjList? && |o.items| == |v.items|
          && forall i :: 0 <= i < |v.items| ==> Reads(env, item, v.items[i], o.items[i]))
    case DictOf(key, val) =>
      || (v.Null? && o == ObjDict([]))
      || (v.Dict? && o.ObjDict? && |o.entries| == |v.entries|
          && forall i :: 0 <= i < |v.entries| ==>
               assert SizeEntry(v.entries[i]) < SizeEntries(v.entries);
               && Reads(env, key, v.entries[i].0, o.entries[i].0) && Hashable(o.entries[i].0)
               && Reads(env, val, v.entries[i].1, o.entries[i].1))
    case CallOf(kind) =>
      || (v.Str? && ReadsNamed(env, kind, v.s, Null, o))
      || (v.Dict? && |v.entries| == 1
          && (assert SizeEntry(v.entries[0]) < SizeEntries(v.entries);
              ReadsNamed(env, kind, NameOf(env, v.entries[0].0), v.entries[0].1, o)))
    case ClassOf(c) =>
      || (v.Null? && ReadsRecord(env, c, [], o))
      || (v.Dict? && ReadsRecord(env, c, v.entries, o))
    case BoolType => v.Bool? && o == Plain(v)
    case IntType => v.Int? && o == Plain(v)
    case FloatType => (v.Int? && o == Plain(Float(v.i as real))) || (v.Float? && o == Plain(v))
    case StrType => v.Str? && o == Plain(v)
    case NoneType => false
    case Unsupported => false
  }

  ghost predicate OnlyMember(args: seq<Type>, i: nat) {
    i < |args| && args[i] != NoneType && forall j :: 0 <= j < |args| && j != i ==> args[j] == NoneType
  }

  /** A call of a registered type, whose parameters denote its spec, or of one that takes none */
  ghost predicate ReadsNamed(env: Env, kind: Kind, name: string, params: Yaml, o: Obj)
    decreases Size(params), 3
  {
    && (kind, name) in env.registry && o.Call? && o.kind == kind && o.name == name
    && match env.registry[(kind, name)]
       case None => o.spec == Plain(Null) && (params == Null || params == Dict([]))
       case Some(c) =>
         || (params.Null? && ReadsRecord(env, c, [], o.spec))
         || (params.Dict? && ReadsRecord(env, c, params.entries, o.spec))
  }

  /** Only declared keys; every field from its key, or else from its default; and the object validates. */
  ghost predicate ReadsRecord(env: Env, c: string, es: seq<(Yaml, Yaml)>, o: Obj)
    decreases SizeEntries(es), 1
  {
    && c in env.classes && o.Record? && o.cls == c && |o.fields| == |env.classes[c].fields|
    && (forall i :: 0 <= i < |es| ==> Declared(env.classes[c].fields, es[i].0))
    && (forall i :: 0 <= i < |o.fields| ==> ReadsField(env, env.classes[c].fields[i], es, o.fields[i]))
    && env.classes[c].validate(o)
  }

  ghost predicate ReadsField(env: Env, f: Field, es: seq<(Yaml, Yaml)>, o: (string, Obj))
    decreases SizeEntries(es), 0
  {
    && o.0 == f.name
    && if forall i :: 0 <= i < |es| ==> es[i].0 != Str(f.name) then f.default == Some(o.1)
       else exists i :: 0 <= i < |es| && IsFirst(es, f.name, i) && (assert SizeEntry(es[i]) < SizeEntries(es); Reads(env, f.tp, es[i].1, o.1))
  }

  predicate IsFirst(es: seq<(Yaml, Yaml)>, key: string, i: nat) {
    i < |es| && es[i].0 == Str(key) && forall j :: 0 <= j < i ==> es[j].0 != Str(key)
  }

  // ----- the parser accepts exactly the values that denote something, and returns what they denote -----

  lemma {:induction false} NonNoneOne(args: seq<Type>, i: nat)
    requires OnlyMember(args, i)
    ensures NonNone(args) == [args[i]]
  {
    if i == 0 {
      NonNoneNone(args[1..]);
    } else {
      NonNoneOne(args[1..], i - 1);
    }
  }

  lemma {:induction false} NonNoneNone(args: seq<Type>)
    ensures NonNone(args) == [] <==> forall j :: 0 <= j < |args| ==> args[j] == NoneType
    ensures |NonNone(args)| <= |args| && (|NonNone(args)| < |args| <==> NoneType in args)
  {
    if args != [] {
      NonNoneNone(args[1..]);
      assert args == [args[0]] + args[1..];
    }
  }

  lemma {:induction false} OneNonNone(args: seq<Type>) returns (i: nat)
    requires |NonNone(args)| == 1
    ensures OnlyMember(args, i)
  {
    if args[0] == NoneType {
      var k := OneNonNone(args[1..]);
      i := k + 1;
      assert forall j :: 1 <= j < |args| ==> args[j] == args[1..][j - 1];
    } else {
      i := 0;
      NonNoneNone(args[1..]);
      assert forall j :: 1 <= j < |args| ==> args[j] == args[1..][j - 1];
    }
  }

  lemma ItemsCons(env: Env, tp: Type, vs: seq<Yaml>, os: seq<Obj>)
    requires vs != []
    ensures ConvertItems(env, tp, vs) == Some(os) <==>
      os != [] && Convert(env, tp, vs[0]) == Some(os[0]) && ConvertItems(env, tp, vs[1..]) == Some(os[1..])
  {
    if os != [] {
      assert os == [os[0]] + os[1..];
    }
  }

  lemma {:induction false} ItemsExact(env: Env, tp: Type, vs: seq<Yaml>, os: seq<Obj>)
    ensures ConvertItems(env, tp, vs) == Some(os) <==>
      |os| == |vs| && forall i :: 0 <= i < |vs| ==> Reads(env, tp, vs[i], os[i])
    decreases SizeAll(vs), 0
  {
    hide Convert, Reads;
    if vs != [] {
      ItemsCons(env, tp, vs, os);
      if os != [] {
        ConvertExact(env, tp, vs[0], os[0]);
        ItemsExact(env, tp, vs[1..], os[1..]);
        assert vs == [vs[0]] + vs[1..] && os == [os[0]] + os[1..];
      }
    }
  }

  ghost predicate ReadsEntry(env: Env, key: Type, val: Type, e: (Yaml, Yaml), o: (Obj, Obj)) {
    Reads(env, key, e.0, o.0) && Hashable(o.0) && Reads(env, val, e.1, o.1)
  }

  lemma EntriesCons(env: Env, key: Type, val: Type, es: seq<(Yaml, Yaml)>, os: seq<(Obj, Obj)>)
    requires es != []
    ensures ConvertEntries(env, key, val, es) == Some(os) <==>
      && os != [] && Convert(env, key, es[0].0) == Some(os[0].0) && Hashable(os[0].0) && Convert(env, val, es[0].1) == Some(os[0].1)
      && ConvertEntries(env, key, val, es[1..]) == Some(os[1..])
  {
    if os != [] {
      assert os == [os[0]] + os[1..];
    }
  }

  lemma {:induction false} EntryExact(env: Env, key: Type, val: Type, e: (Yaml, Yaml), o: (Obj, Obj))
    ensures ReadsEntry(env, key, val, e, o) <==>
      Convert(env, key, e.0) == Some(o.0) && Hashable(o.0) && Convert(env, val, e.1) == Some(o.1)
    decreases SizeEntry(e), 0
  {
    hide Convert, Reads;
    ConvertExact(env, key, e.0, o.0);
    ConvertExact(env, val, e.1, o.1);
  }

  lemma {:induction false} EntriesExact(env: Env, key: Type, val: Type, es: seq<(Yaml, Yaml)>, os: seq<(Obj, Obj)>)
    ensures ConvertEntries(env, key, val, es) == Some(os) <==>
      |os| == |es| && forall i :: 0 <= i < |es| ==> ReadsEntry(env, key, val, es[i], os[i])
    decreases SizeEntries(es), 0
  {
    hide Convert, ReadsEntry, Hashable;
    if es != [] {
      EntriesCons(env, key, val, es, os);
      if os != [] {
        EntryExact(env, key, val, es[0], os[0]);
        EntriesExact(env, key, val, es[1..], os[1..]);
        assert es == [es[0]] + es[1..] && os == [os[0]] + os[1..];
      }
    }
  }

  /** The source of one field */
  function ParseField(env: Env, f: Field, es: seq<(Yaml, Yaml)>): Option<Obj> {
    match FindIndex(es, f.name)
    case Some(i) => Convert(env, f.tp, es[i].1)
    case None => f.default
  }

  lemma FieldsCons(env: Env, fields: seq<Field>, es: seq<(Yaml, Yaml)>, os: seq<(string, Obj)>)
    requires fields != []
    ensures ParseFields(env, fields, es) == Some(os) <==>
      && os != [] && os[0].0 == fields[0].name && ParseField(env, fields[0], es) == Some(os[0].1)
      && ParseFields(env, fields[1..], es) == Some(os[1..])
  {
    if os != [] {
      assert os == [os[0]] + os[1..];
    }
  }

  lemma {:induction false} FieldExact(env: Env, f: Field, es: seq<(Yaml, Yaml)>, o: (string, Obj))
    ensures ReadsField(env, f, es, o) <==> o.0 == f.name && ParseField(env, f, es) == Some(o.1)
    decreases SizeEntries(es), 0, 0
  {
    hide Convert, Reads;
    match FindIndex(es, f.name)
    case Some(i) =>
      assert SizeEntry(es[i]) < SizeEntries(es);
      ConvertExact(env, f.tp, es[i].1, o.1);
      assert IsFirst(es, f.name, i);
      assert forall j: nat :: IsFirst(es, f.name, j) ==> j == i;
    case None =>
  }

  lemma {:induction false} FieldsExact(env: Env, fields: seq<Field>, es: seq<(Yaml, Yaml)>, os: seq<(string, Obj)>)
    ensures ParseFields(env, fields, es) == Some(os) <==>
      |os| == |fields| && forall i :: 0 <= i < |fields| ==> ReadsField(env, fields[i], es, os[i])
    decreases SizeEntries(es), 0, |fields| + 1
  {
    hide ParseField, ReadsField;
    if fields != [] {
      FieldsCons(env, fields, es, os);
      if os != [] {
        FieldExact(env, fields[0], es, os[0]);
        FieldsExact(env, fields[1..], es, os[1..]);
        assert fields == [fields[0]] + fields[1..] && os == [os[0]] + os[1..];
      }
    }
  }

  lemma {:induction false} BuildExact(env: Env, c: string, es: seq<(Yaml, Yaml)>, o: Obj)
    requires c in env.classes
    ensures Build(env, c, es) == Some(o) <==> ReadsRecord(env, c, es, o)
    decreases SizeEntries(es), 1
  {
    hide ParseFields, ReadsField, Declared;
    if o.Record? {
      FieldsExact(env, env.classes[c].fields, es, o.fields);
    }
  }

  lemma {:induction false} SpecExact(env: Env, c: string, raw: Yaml, o: Obj)
    ensures ParseSpec(env, c, raw) == Some(o) <==>
      (raw.Null? && ReadsRecord(env, c, [], o)) || (raw.Dict? && ReadsRecord(env, c, raw.entries, o))
    decreases Size(raw), 2
  {
    hide Build, ReadsRecord;
    NoSuchClass(env, c, o);
    if c in env.classes && raw.Null? {
      BuildExact(env, c, [], o);
    } else if c in env.classes && raw.Dict? {
      BuildExact(env, c, raw.entries, o);
    }
  }

  lemma NoSuchClass(env: Env, c: string, o: Obj)
    ensures c !in env.classes ==> forall es :: !ReadsRecord(env, c, es, o)
  {
  }

  lemma {:induction false} NamedExact(env: Env, kind: Kind, name: string, params: Yaml, o: Obj)
    ensures ParseNamed(env, kind, name, params) == Some(o) <==> ReadsNamed(env, kind, name, params, o)
    decreases Size(params), 3
  {
    hide ParseSpec, ReadsRecord;
    if (kind, name) in env.registry && o.Call? && env.registry[(kind, name)].Some? {
      SpecExact(env, env.registry[(kind, name)].value, params, o.spec);
    }
  }

  lemma {:induction false} UnionExact(env: Env, args: seq<Type>, v: Yaml, o: Obj)
    ensures Convert(env, Union(args), v) == Some(o) <==> Reads(env, Union(args), v, o)
    decreases Size(v), 5, Union(args), 0
  {
    NonNoneNone(args);
    if v.Null? && NoneType in args {
    } else if |NonNone(args)| == 1 {
      var i := OneNonNone(args);
      NonNoneOne(args, i);
      ConvertExact(env, args[i], v, o);
      assert forall j: nat :: OnlyMember(args, j) ==> j == i;
    } else {
      forall i: nat
        ensures !OnlyMember(args, i)
      {
        if OnlyMember(args, i) {
          NonNoneOne(args, i);
        }
      }
    }
  }

  /** For every registry, type, value and object: the parser returns the object exactly when the value denotes it. */
  lemma {:induction false} ConvertExact(env: Env, tp: Type, v: Yaml, o: Obj)
    ensures Convert(env, tp, v) == Some(o) <==> Reads(env, tp, v, o)
    decreases Size(v), 5, tp, 1
  {
    match tp
    case Union(args) => UnionExact(env, args, v, o);
    case ListOf(item) =>
      if v.List? && o.ObjList? {
        ItemsExact(env, item, v.items, o.items);
      }
    case DictOf(key, val) =>
      if v.Dict? && o.ObjDict? {
        EntriesExact(env, key, val, v.entries, o.entries);
      }
    case CallOf(kind) =>
      if v.Str? {
        NamedExact(env, kind, v.s, Null, o);
      } else if v.Dict? && |v.entries| == 1 {
        assert SizeEntry(v.entries[0]) < SizeEntries(v.entries);
        NamedExact(env, kind, NameOf(env, v.entries[0].0), v.entries[0].1, o);
      }
    case ClassOf(c) => SpecExact(env, c, v, o);
    case _ =>
  }

  /** A value denotes at most one object. */
  lemma DenotesOne(env: Env, tp: Type, v: Yaml, o: Obj, o': Obj)
    requires Reads(env, tp, v, o) && Reads(env, tp, v, o')
    ensures o == o'
  {
    hide Reads, Convert;
    ConvertExact(env, tp, v, o);
    ConvertExact(env, tp, v, o');
  }
}
