/** Merging event records from several logs into one timeline. */
module EventTimelines {
  import opened StableSorts

  datatype EventRecord = EventRecord(
    time: int, level: string, node: string, name: string, fields: map<string, string>, source: string)

  /** Records with the same key are the same event seen through different logs. */
  datatype Key = Key(time: int, node: string, name: string, fields: map<string, string>)

  function KeyOf(r: EventRecord): Key {
    Key(r.time, r.node, r.name, r.fields)
  }

  function TimeOf(r: EventRecord): int {
    r.time
  }

  /** The first record of each key that is not in seen */
  function Dedup(s: seq<EventRecord>, seen: set<Key>): seq<EventRecord> {
    if s == [] then []
    else if KeyOf(s[0]) in seen then Dedup(s[1..], seen)
    else [s[0]] + Dedup(s[1..], seen + {KeyOf(s[0])})
  }

  function Merged(records: seq<EventRecord>): seq<EventRecord> {
    Dedup(Sort(TimeOf, records), {})
  }

  method Merge(records: seq<EventRecord>) returns (out: seq<EventRecord>)
    ensures out == Merged(records)
  {
    out := [];
    var seen: set<Key> := {};
    var sorted := Sort(TimeOf, records);
    assert sorted[0..] == sorted;
    for i := 0 to |sorted|
      invariant out + Dedup(sorted[i..], seen) == Merged(records)
    {
      var rest := sorted[i..];
      assert rest[1..] == sorted[i + 1..];
      var key := KeyOf(sorted[i]);
      if key !in seen {
        seen := seen + {key};
        out := out + [sorted[i]];
      }
    }
    assert out + [] == out;
  }

  function Keys(s: seq<EventRecord>): set<Key> {
    set i | 0 <= i < |s| :: KeyOf(s[i])
  }

  // ----- removing duplicates -----

  lemma KeysCons(x: EventRecord, s: seq<EventRecord>)
    ensures Keys([x] + s) == {KeyOf(x)} + Keys(s)
  {
    forall k
      ensures k in Keys([x] + s) <==> k == KeyOf(x) || k in Keys(s)
    {
      assert ([x] + s)[0] == x;
      if k in Keys(s) {
        var i :| 0 <= i < |s| && KeyOf(s[i]) == k;
        assert KeyOf(([x] + s)[i + 1]) == k;
      }
    }
  }

  lemma {:induction false} DedupKeys(s: seq<EventRecord>, seen: set<Key>)
    ensures Keys(Dedup(s, seen)) == Keys(s) - seen
  {
    if s != [] {
      var x, rest := s[0], s[1..];
      KeysCons(x, rest);
      assert [x] + rest == s;
      if KeyOf(x) in seen {
        DedupKeys(rest, seen);
      } else {
        DedupKeys(rest, seen + {KeyOf(x)});
        KeysCons(x, Dedup(rest, seen + {KeyOf(x)}));
      }
    }
  }

  lemma {:induction false} DedupConcat(s: seq<EventRecord>, t: seq<EventRecord>, seen: set<Key>)
    ensures Dedup(s + t, seen) == Dedup(s, seen) + Dedup(t, seen + Keys(s))
  {
    if s == [] {
      assert s + t == t;
      assert seen + Keys(s) == seen;
    } else {
      var x, rest := s[0], s[1..];
      assert (s + t)[1..] == rest + t;
      KeysCons(x, rest);
      assert [x] + rest == s;
      if KeyOf(x) in seen {
        DedupConcat(rest, t, seen);
        assert seen + Keys(s) == seen + Keys(rest);
      } else {
        DedupConcat(rest, t, seen + {KeyOf(x)});
        assert seen + {KeyOf(x)} + Keys(rest) == seen + Keys(s);
      }
    }
  }

  /** Removing duplicates twice removes what either pass removes. */
  lemma {:induction false} DedupTwice(s: seq<EventRecord>, seen: set<Key>, seen': set<Key>)
    ensures Dedup(Dedup(s, seen), seen') == Dedup(s, seen + seen')
  {
    if s != [] {
      var x, rest := s[0], s[1..];
      var k := KeyOf(x);
      if k in seen {
        DedupTwice(rest, seen, seen');
      } else {
        var d := Dedup(rest, seen + {k});
        assert ([x] + d)[1..] == d;
        if k in seen' {
          DedupTwice(rest, seen + {k}, seen');
          assert seen + {k} + seen' == seen + seen';
        } else {
          DedupTwice(rest, seen + {k}, seen' + {k});
          assert seen + {k} + (seen' + {k}) == seen + seen' + {k};
        }
      }
    }
  }

  lemma DedupPieces(s: seq<EventRecord>, t: seq<EventRecord>)
    ensures Dedup(Dedup(s, {}) + Dedup(t, {}), {}) == Dedup(s + t, {})
  {
    var d, e := Dedup(s, {}), Dedup(t, {});
    DedupConcat(d, e, {});
    DedupTwice(s, {}, {});
    DedupKeys(s, {});
    assert Keys(d) == Keys(s);
    DedupTwice(t, {}, Keys(s));
    DedupConcat(s, t, {});
    var none: set<Key> := {};
    assert none + Keys(s) == Keys(s) && none + none == none;
  }

  // ----- one moment at a time -----

  /** A key that does not occur does not matter. */
  lemma {:induction false} DedupIgnores(s: seq<EventRecord>, seen: set<Key>, k: Key)
    requires k !in Keys(s)
    ensures Dedup(s, seen + {k}) == Dedup(s, seen)
  {
    if s != [] {
      var x, rest := s[0], s[1..];
      KeysCons(x, rest);
      assert [x] + rest == s;
      DedupIgnores(rest, seen, k);
      DedupIgnores(rest, seen + {KeyOf(x)}, k);
      assert seen + {k} + {KeyOf(x)} == seen + {KeyOf(x)} + {k};
    }
  }

  lemma {:induction false} AtHasTime(t: int, s: seq<EventRecord>)
    ensures forall r :: r in At(TimeOf, t, s) ==> r in s && r.time == t
  {
    if s != [] {
      AtHasTime(t, s[1..]);
    }
  }

  /** Duplicates are equal in time, so they are removed moment by moment. */
  lemma {:induction false} DedupAt(t: int, s: seq<EventRecord>, seen: set<Key>)
    ensures At(TimeOf, t, Dedup(s, seen)) == Dedup(At(TimeOf, t, s), seen)
  {
    if s != [] {
      var x, rest := s[0], s[1..];
      var k, a := KeyOf(x), At(TimeOf, t, rest);
      if k in seen {
        DedupAt(t, rest, seen);
        assert ([x] + a)[1..] == a;
        assert [] + a == a;
      } else {
        DedupAt(t, rest, seen + {k});
        var d := Dedup(rest, seen + {k});
        assert ([x] + d)[1..] == d;
        if x.time == t {
          assert ([x] + a)[1..] == a;
        } else {
          AtHasTime(t, rest);
          assert forall i :: 0 <= i < |a| ==> a[i] in a;
          DedupIgnores(a, seen, k);
          assert [] + a == a;
        }
      }
    }
  }

  lemma {:induction false} DedupSubset(s: seq<EventRecord>, seen: set<Key>)
    ensures forall r :: r in Dedup(s, seen) ==> r in s
  {
    if s != [] {
      DedupSubset(s[1..], seen);
      DedupSubset(s[1..], seen + {KeyOf(s[0])});
    }
  }

  lemma {:induction false} DedupSorted(s: seq<EventRecord>, seen: set<Key>)
    requires Sorted(TimeOf, s)
    ensures Sorted(TimeOf, Dedup(s, seen))
  {
    if s != [] {
      var k := KeyOf(s[0]);
      if k in seen {
        DedupSorted(s[1..], seen);
      } else {
        var d := Dedup(s[1..], seen + {k});
        DedupSorted(s[1..], seen + {k});
        DedupSubset(s[1..], seen + {k});
        forall i | 0 <= i < |d|
          ensures s[0].time <= d[i].time
        {
          assert d[i] in d;
        }
      }
    }
  }

  lemma MergedAt(t: int, records: seq<EventRecord>)
    ensures At(TimeOf, t, Merged(records)) == Dedup(At(TimeOf, t, records), {})
  {
    SortIsStable(TimeOf, records);
    DedupAt(t, Sort(TimeOf, records), {});
  }

  // ----- what merge promises -----

  /** The first record of the input with the given key */
  function FirstWith(k: Key, s: seq<EventRecord>): EventRecord
    requires k in Keys(s)
  {
    if KeyOf(s[0]) == k then s[0]
    else
      assert s == [s[0]] + s[1..];
      KeysCons(s[0], s[1..]);
      FirstWith(k, s[1..])
  }

  lemma {:induction false} DedupDistinct(s: seq<EventRecord>, seen: set<Key>)
    ensures forall i, j :: 0 <= i < j < |Dedup(s, seen)| ==> KeyOf(Dedup(s, seen)[i]) != KeyOf(Dedup(s, seen)[j])
  {
    if s != [] {
      var k := KeyOf(s[0]);
      if k in seen {
        DedupDistinct(s[1..], seen);
      } else {
        var d := Dedup(s[1..], seen + {k});
        DedupDistinct(s[1..], seen + {k});
        DedupKeys(s[1..], seen + {k});
        forall i | 0 <= i < |d|
          ensures KeyOf(d[i]) != k
        {
          assert KeyOf(d[i]) in Keys(d);
        }
      }
    }
  }

  lemma {:induction false} DedupFirst(s: seq<EventRecord>, seen: set<Key>, k: Key)
    requires k in Keys(s) && k !in seen
    ensures FirstWith(k, s) in Dedup(s, seen)
  {
    var x, rest := s[0], s[1..];
    assert s == [x] + rest;
    KeysCons(x, rest);
    if KeyOf(x) != k {
      if KeyOf(x) in seen {
        DedupFirst(rest, seen, k);
      } else {
        DedupFirst(rest, seen + {KeyOf(x)}, k);
      }
    }
  }

  lemma {:induction false} FirstWithAt(k: Key, s: seq<EventRecord>)
    requires k in Keys(s)
    ensures k in Keys(At(TimeOf, k.time, s)) && FirstWith(k, At(TimeOf, k.time, s)) == FirstWith(k, s)
  {
    var x, rest := s[0], s[1..];
    var a := At(TimeOf, k.time, rest);
    assert s == [x] + rest;
    KeysCons(x, rest);
    KeysCons(x, a);
    if KeyOf(x) == k {
      assert ([x] + a)[0] == x;
    } else {
      FirstWithAt(k, rest);
      assert ([x] + a)[1..] == a;
      assert [] + a == a;
    }
  }

  /** The merged timeline is ordered in time, has every key once, and shows each event of the input by its
      first record. */
  lemma MergeIsTimeline(records: seq<EventRecord>, r: EventRecord)
    ensures Sorted(TimeOf, Merged(records))
    ensures forall i, j :: 0 <= i < j < |Merged(records)| ==> KeyOf(Merged(records)[i]) != KeyOf(Merged(records)[j])
    ensures Keys(Merged(records)) == Keys(records)
    ensures r in records ==> KeyOf(r) in Keys(records) && FirstWith(KeyOf(r), records) in Merged(records)
  {
    var s := Sort(TimeOf, records);
    SortIsStable(TimeOf, records);
    DedupSorted(s, {});
    DedupDistinct(s, {});
    DedupKeys(s, {});
    assert Keys(s) == Keys(records) by {
      SameKeys(s, records);
    }
    if r in records {
      var k := KeyOf(r);
      assert k in Keys(records);
      FirstWithAt(k, records);
      DedupFirst(At(TimeOf, k.time, records), {}, k);
      MergedAt(k.time, records);
      AtHasTime(k.time, Merged(records));
    }
  }

  lemma SameKeys(s: seq<EventRecord>, t: seq<EventRecord>)
    requires multiset(s) == multiset(t)
    ensures Keys(s) == Keys(t)
  {
    forall i | 0 <= i < |s|
      ensures KeyOf(s[i]) in Keys(t)
    {
      assert s[i] in multiset(t);
      var j :| 0 <= j < |t| && t[j] == s[i];
    }
    forall i | 0 <= i < |t|
      ensures KeyOf(t[i]) in Keys(s)
    {
      assert t[i] in multiset(s);
      var j :| 0 <= j < |s| && s[j] == t[i];
    }
  }

  /** Merging in pieces gives, record for record, what merging at once gives - ties in time included. */
  lemma MergeIncremental(a: seq<EventRecord>, b: seq<EventRecord>)
    ensures Merged(Merged(a) + Merged(b)) == Merged(a + b)
  {
    forall t
      ensures At(TimeOf, t, Merged(Merged(a) + Merged(b))) == At(TimeOf, t, Merged(a + b))
    {
      MergedAt(t, Merged(a) + Merged(b));
      AtConcat(TimeOf, t, Merged(a), Merged(b));
      MergedAt(t, a);
      MergedAt(t, b);
      DedupPieces(At(TimeOf, t, a), At(TimeOf, t, b));
      AtConcat(TimeOf, t, a, b);
      MergedAt(t, a + b);
    }
    SortIsStable(TimeOf, Merged(a) + Merged(b));
    DedupSorted(Sort(TimeOf, Merged(a) + Merged(b)), {});
    SortIsStable(TimeOf, a + b);
    DedupSorted(Sort(TimeOf, a + b), {});
    SortedUnique(TimeOf, Merged(Merged(a) + Merged(b)), Merged(a + b));
  }

  /** The same event: at the same time, from the same node, with the same name and fields; seen at any level and through any log */
  predicate SameEvent(r: EventRecord, q: EventRecord) {
    r.time == q.time && r.node == q.node && r.name == q.name && r.fields == q.fields
  }

  /** Position i has the first record of the event. */
  ghost predicate FirstOf(records: seq<EventRecord>, i: nat, r: EventRecord) {
    i < |records| && SameEvent(records[i], r) && forall j :: 0 <= j < i ==> !SameEvent(records[j], r)
  }

  lemma {:induction false} FirstWithExact(r: EventRecord, records: seq<EventRecord>) returns (i: nat)
    requires r in records
    ensures KeyOf(r) in Keys(records) && FirstOf(records, i, r) && records[i] == FirstWith(KeyOf(r), records)
  {
    if SameEvent(records[0], r) {
      i := 0;
    } else {
      assert r in records[1..];
      i := FirstWithExact(r, records[1..]);
      i := i + 1;
      assert forall j :: 1 <= j < i ==> records[j] == records[1..][j - 1];
    }
  }

  /** Merging orders the records by time and keeps, of every event, its first record and no other: what is dropped is the
      same event as something that is kept. */
  lemma MergeKeepsFirst(records: seq<EventRecord>, q: EventRecord)
    ensures forall i, j :: 0 <= i < j < |Merged(records)| ==>
      Merged(records)[i].time <= Merged(records)[j].time && !SameEvent(Merged(records)[i], Merged(records)[j])
    ensures q in Merged(records) <==> exists i: nat :: i < |records| && records[i] == q && FirstOf(records, i, q)
  {
    hide Merged, FirstOf;
    MergeIsTimeline(records, q);
    if q in Merged(records) {
      FromInput(records, q);
      var i := FirstWithExact(q, records);
      MergeIsTimeline(records, records[i]);
      FirstIsIn(records, i, q);
      OneOfEach(records, q, records[i]);
    } else if i: nat :| i < |records| && records[i] == q && FirstOf(records, i, q) {
      var j := FirstWithExact(q, records);
      FirstIsUnique(records, i, j, q);
    }
  }

  lemma FirstIsIn(records: seq<EventRecord>, i: nat, q: EventRecord)
    requires FirstOf(records, i, q)
    ensures i < |records| && SameEvent(records[i], q) && KeyOf(records[i]) == KeyOf(q) && FirstOf(records, i, records[i])
  {
  }

  lemma FirstIsUnique(records: seq<EventRecord>, i: nat, j: nat, q: EventRecord)
    requires FirstOf(records, i, q) && FirstOf(records, j, q)
    ensures i == j
  {
  }

  lemma OneOfEach(records: seq<EventRecord>, q: EventRecord, r: EventRecord)
    requires q in Merged(records) && r in Merged(records) && SameEvent(q, r)
    ensures q == r
  {
    MergeIsTimeline(records, q);
    var i :| 0 <= i < |Merged(records)| && Merged(records)[i] == q;
    var j :| 0 <= j < |Merged(records)| && Merged(records)[j] == r;
    hide Merged;
    assert KeyOf(q) == KeyOf(r);
  }

  lemma FromInput(records: seq<EventRecord>, q: EventRecord)
    requires q in Merged(records)
    ensures q in records
  {
    SortIsStable(TimeOf, records);
    DedupSubset(Sort(TimeOf, records), {});
    assert q in multiset(Sort(TimeOf, records));
    assert q in multiset(records);
  }
}
