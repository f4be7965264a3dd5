/** Values as a YAML reader returns them: Python's None, bool, int, float, str, list and dict. */
module Yamls {
  import opened Options

  /** A dict keeps its entries in insertion order. */
  datatype Yaml =
    | Null
    | Bool(b: bool)
    | Int(i: int)
    | Float(r: real)
    | Str(s: string)
    | List(items: seq<Yaml>)
    | Dict(entries: seq<(Yaml, Yaml)>)

  /** Python's bool(v) */
  predicate Truthy(v: Yaml) {
    match v
    case Null => false
    case Bool(b) => b
    case Int(i) => i != 0
    case Float(r) => r != 0.0
    case Str(s) => s != []
    case List(items) => items != []
    case Dict(entries) => entries != []
  }

  /** The values that count as false */
  lemma FalsyExactly(v: Yaml)
    ensures !Truthy(v) <==> v in {Null, Bool(false), Int(0), Float(0.0), Str(""), List([]), Dict([])}
  {
  }

  /** The entry of a string key */
  function Find(entries: seq<(Yaml, Yaml)>, key: string): Option<Yaml> {
    if entries == [] then None
    else if entries[0].0 == Str(key) then Some(entries[0].1)
    else Find(entries[1..], key)
  }

  /** d.get(key, otherwise) */
  function Get(entries: seq<(Yaml, Yaml)>, key: string, otherwise: Yaml): Yaml {
    match Find(entries, key)
    case Some(v) => v
    case None => otherwise
  }

  lemma {:induction false} FindAt(d: seq<(Yaml, Yaml)>, key: string, i: nat)
    requires i < |d| && d[i].0 == Str(key) && forall j :: 0 <= j < i ==> d[j].0 != Str(key)
    ensures Find(d, key) == Some(d[i].1)
  {
    if i > 0 {
      FindAt(d[1..], key, i - 1);
    }
  }

  lemma {:induction false} FindNone(d: seq<(Yaml, Yaml)>, key: string)
    requires forall j :: 0 <= j < |d| ==> d[j].0 != Str(key)
    ensures Find(d, key) == None
  {
    if d != [] {
      FindNone(d[1..], key);
    }
  }

  /** What a for loop over the value visits, if it can be iterated */
  function Iterate(v: Yaml): Option<seq<Yaml>> {
    match v
    case List(items) => Some(items)
    case Dict(entries) => Some(seq(|entries|, i requires 0 <= i < |entries| => entries[i].0))
    case Str(s) => Some(seq(|s|, i requires 0 <= i < |s| => Str([s[i]])))
    case _ => None
  }

  /** The number that Python compares the value as */
  function Number(v: Yaml): Option<real> {
    match v
    case Bool(b) => Some(if b then 1.0 else 0.0)
    case Int(i) => Some(i as real)
    case Float(r) => Some(r)
    case _ => None
  }

  /** Python's v == w for a w that is not a container: numbers are compared by value across their types. */
  predicate SameScalar(v: Yaml, w: Yaml) {
    if Number(v).Some? && Number(w).Some? then Number(v) == Number(w) else v == w
  }

  /** A bool counts as zero or one, and equal numbers are the same whatever their type. */
  lemma SameNumbers(b: bool, i: int, r: real, w: Yaml)
    ensures SameScalar(Bool(b), w) <==> SameScalar(Int(if b then 1 else 0), w)
    ensures SameScalar(Int(i), Float(r)) <==> i as real == r
    ensures SameScalar(Int(i), Int(i)) && (SameScalar(Int(i), Bool(true)) <==> i == 1)
    ensures w.Str? || w.Null? ==> !SameScalar(Int(i), w) && !SameScalar(Float(r), w) && SameScalar(w, w)
  {
  }

  // ----- size: None is the smallest value, and a container is larger than anything in it -----

  function Size(v: Yaml): nat {
    match v
    case Null => 0
    case List(items) => 1 + SizeAll(items)
    case Dict(entries) => 1 + SizeEntries(entries)
    case _ => 1
  }

  function SizeAll(vs: seq<Yaml>): (n: nat)
    ensures forall i :: 0 <= i < |vs| ==> Size(vs[i]) < n
  {
    if vs == [] then 0 else 1 + Size(vs[0]) + SizeAll(vs[1..])
  }

  function SizeEntry(e: (Yaml, Yaml)): (n: nat)
    ensures Size(e.0) < n && Size(e.1) < n
  {
    1 + Size(e.0) + Size(e.1)
  }

  function SizeEntries(es: seq<(Yaml, Yaml)>): (n: nat)
    ensures forall i :: 0 <= i < |es| ==> SizeEntry(es[i]) < n
  {
    if es == [] then 0 else 1 + SizeEntry(es[0]) + SizeEntries(es[1..])
  }
}
