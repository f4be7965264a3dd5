/** Python's sort: stable, by an integer key. */
module StableSorts {

  /** Puts x behind everything whose key is not greater. */
  function Insert<T>(key: T -> int, x: T, s: seq<T>): seq<T> {
    if s == [] then [x]
    else if key(s[0]) <= key(x) then [s[0]] + Insert(key, x, s[1..])
    else [x] + s
  }

  function Sort<T>(key: T -> int, s: seq<T>): seq<T> {
    if s == [] then [] else Insert(key, s[|s| - 1], Sort(key, s[..|s| - 1]))
  }

  ghost predicate Sorted<T>(key: T -> int, s: seq<T>) {
    forall i, j :: 0 <= i < j < |s| ==> key(s[i]) <= key(s[j])
  }

  /** The elements with key k, in order */
  function At<T>(key: T -> int, k: int, s: seq<T>): seq<T> {
    if s == [] then []
    else (if key(s[0]) == k then [s[0]] else []) + At(key, k, s[1..])
  }

  lemma AtCons<T>(key: T -> int, k: int, x: T, s: seq<T>)
    ensures At(key, k, [x] + s) == if key(x) == k then [x] + At(key, k, s) else At(key, k, s)
    ensures At<T>(key, k, []) == []
  {
    assert ([x] + s)[1..] == s;
    assert [] + At(key, k, s) == At(key, k, s);
  }

  lemma ConsConcat<T>(x: T, s: seq<T>, t: seq<T>)
    ensures [x] + (s + t) == [x] + s + t
  {
  }

  lemma HeadTail<T>(s: seq<T>)
    requires s != []
    ensures s == [s[0]] + s[1..]
  {
  }

  lemma {:induction false} AtConcat<T>(key: T -> int, k: int, s: seq<T>, t: seq<T>)
    ensures At(key, k, s + t) == At(key, k, s) + At(key, k, t)
  {
    if s == [] {
      assert s + t == t;
    } else {
      hide At;
      var x, rest := s[0], s[1..];
      HeadTail(s);
      ConsConcat(x, rest, t);
      AtConcat(key, k, rest, t);
      AtCons(key, k, x, rest);
      AtCons(key, k, x, rest + t);
      ConsConcat(x, At(key, k, rest), At(key, k, t));
    }
  }

  lemma AtOne<T>(key: T -> int, k: int, x: T)
    ensures At(key, k, [x]) == if key(x) == k then [x] else []
  {
    assert At(key, k, [x][1..]) == [];
  }

  lemma {:induction false} InsertAt<T>(key: T -> int, x: T, s: seq<T>, k: int)
    requires Sorted(key, s)
    ensures At(key, k, Insert(key, x, s)) == At(key, k, s) + At(key, k, [x])
  {
    hide At;
    AtOne(key, k, x);
    AtCons(key, k, x, []);
    if s == [] {
      assert Insert(key, x, s) == [x];
    } else if key(s[0]) <= key(x) {
      InsertAt(key, x, s[1..], k);
      AtCons(key, k, s[0], s[1..]);
      AtCons(key, k, s[0], Insert(key, x, s[1..]));
      assert s == [s[0]] + s[1..];
    } else {
      AtCons(key, k, x, s);
      AtAbove(key, k, s, key(x));
    }
  }

  /** Nothing with a key up to the bound is in a list of greater keys. */
  lemma {:induction false} AtAbove<T>(key: T -> int, k: int, s: seq<T>, bound: int)
    requires forall i :: 0 <= i < |s| ==> key(s[i]) > bound
    ensures k <= bound ==> At(key, k, s) == []
  {
    if s != [] {
      AtAbove(key, k, s[1..], bound);
    }
  }

  lemma {:induction false} InsertKeeps<T>(key: T -> int, x: T, s: seq<T>)
    ensures multiset(Insert(key, x, s)) == multiset(s) + multiset{x}
  {
    if s != [] {
      InsertKeeps(key, x, s[1..]);
      assert s == [s[0]] + s[1..];
    }
  }

  lemma {:induction false} InsertSorted<T>(key: T -> int, x: T, s: seq<T>)
    requires Sorted(key, s)
    ensures Sorted(key, Insert(key, x, s))
  {
    if s != [] && key(s[0]) <= key(x) {
      InsertSorted(key, x, s[1..]);
      var r := Insert(key, x, s[1..]);
      InsertKeeps(key, x, s[1..]);
      forall i | 0 <= i < |r|
        ensures key(s[0]) <= key(r[i])
      {
        assert r[i] in multiset(r);
        assert r[i] == x || r[i] in s[1..];
      }
    }
  }

  /** Sorting orders the list and keeps, for every key, the elements with that key in their order. */
  lemma {:induction false} SortIsStable<T>(key: T -> int, s: seq<T>)
    ensures Sorted(key, Sort(key, s)) && multiset(Sort(key, s)) == multiset(s)
    ensures forall k :: At(key, k, Sort(key, s)) == At(key, k, s)
  {
    if s != [] {
      var init, x := s[..|s| - 1], s[|s| - 1];
      SortIsStable(key, init);
      InsertSorted(key, x, Sort(key, init));
      InsertKeeps(key, x, Sort(key, init));
      assert s == init + [x];
      forall k
        ensures At(key, k, Sort(key, s)) == At(key, k, s)
      {
        InsertAt(key, x, Sort(key, init), k);
        AtConcat(key, k, init, [x]);
      }
    }
  }

  /** A sorted list is determined by its parts of equal key. */
  lemma {:induction false} SortedUnique<T>(key: T -> int, s: seq<T>, r: seq<T>)
    requires Sorted(key, s) && Sorted(key, r)
    requires forall k :: At(key, k, s) == At(key, k, r)
    ensures s == r
    decreases |s| + |r|
  {
    if s == [] && r == [] {
    } else if s == [] || (r != [] && key(r[0]) < key(s[0])) {
      assert At(key, key(r[0]), r)[0] == r[0];
      NothingBelow(key, key(r[0]), s);
    } else if r == [] || key(s[0]) < key(r[0]) {
      assert At(key, key(s[0]), s)[0] == s[0];
      NothingBelow(key, key(s[0]), r);
    } else {
      var k0 := key(s[0]);
      assert At(key, k0, s)[0] == s[0] && At(key, k0, r)[0] == r[0];
      forall k
        ensures At(key, k, s[1..]) == At(key, k, r[1..])
      {
        assert At(key, k, s) == At(key, k, r);
        assert s == [s[0]] + s[1..] && r == [r[0]] + r[1..];
        AtCons(key, k, s[0], s[1..]);
        AtCons(key, k, r[0], r[1..]);
        if k == k0 {
          assert ([s[0]] + At(key, k, s[1..]))[1..] == At(key, k, s[1..]);
          assert ([r[0]] + At(key, k, r[1..]))[1..] == At(key, k, r[1..]);
        }
      }
      SortedUnique(key, s[1..], r[1..]);
      assert s == [s[0]] + s[1..] && r == [r[0]] + r[1..];
    }
  }

  lemma NothingBelow<T>(key: T -> int, k: int, s: seq<T>)
    requires Sorted(key, s) && (s == [] || k < key(s[0]))
    ensures At(key, k, s) == []
  {
    AtAbove(key, k, s, k);
  }

  /** A list in order is left alone. */
  lemma SortOfSorted<T>(key: T -> int, s: seq<T>)
    requires Sorted(key, s)
    ensures Sort(key, s) == s
  {
    SortIsStable(key, s);
    SortedUnique(key, Sort(key, s), s);
  }
}
