/** Level transitions of diagnostics and the time spent in each level, counted online; and the same
    figures defined over the whole history of updates. */
module StatusTimelines {
  import opened Decimals

  /** One call of update */
  datatype Sample = Sample(stampNs: int, name: string, level: int, message: string)

  datatype Transition = Transition(stampNs: int, name: string, before: string, after: string, message: string)

  datatype Row = Row(final: string, worst: string, transitions: nat, warn: real, error: real, stale: real)

  function LevelName(level: int): string {
    if level == 0 then "OK"
    else if level == 1 then "WARN"
    else if level == 2 then "ERROR"
    else if level == 3 then "STALE"
    else if level < 0 then "-" + Digits(-level)
    else Digits(level)
  }

  /** The text of a transition shows which levels it was between. */
  lemma LevelNamesDiffer(a: int, b: int)
    requires LevelName(a) == LevelName(b)
    ensures a == b
  {
    hide Digits, FromDigits;
    DigitsRoundTrip(if a < 0 then -a else a);
    DigitsRoundTrip(if b < 0 then -b else b);
    assert a < 0 <==> LevelName(a)[0] == '-';
    if a < 0 {
      assert LevelName(a)[1..] == Digits(-a) && LevelName(b)[1..] == Digits(-b);
    }
  }

  // ----- the definition over a whole history: everything below position i -----

  /** The last update of the name before position i, or -1 */
  function Previous(h: seq<Sample>, name: string, i: nat): (p: int)
    requires i <= |h|
    ensures -1 <= p < i
    ensures p >= 0 ==> h[p].name == name
    ensures forall q :: p < q < i ==> h[q].name != name
  {
    if i == 0 then -1 else if h[i - 1].name == name then i - 1 else Previous(h, name, i - 1)
  }

  /** The first update of the name before position i, or i */
  function First(h: seq<Sample>, name: string, i: nat): (p: nat)
    requires i <= |h|
    ensures p <= i
    ensures p < i ==> h[p].name == name
    ensures forall q :: 0 <= q < p ==> h[q].name != name
  {
    if i == 0 then 0
    else
      var p := First(h, name, i - 1);
      if p < i - 1 || h[i - 1].name == name then p else i
  }

  /** The update at p has another level than the one before it of the same name. */
  predicate IsChange(h: seq<Sample>, p: nat)
    requires p < |h|
  {
    var q := Previous(h, h[p].name, p);
    q >= 0 && h[q].level != h[p].level
  }

  function Changes(h: seq<Sample>, i: nat): (n: nat)
    requires i <= |h|
  {
    if i == 0 then 0 else Changes(h, i - 1) + if IsChange(h, i - 1) then 1 else 0
  }

  function ChangesOf(h: seq<Sample>, name: string, i: nat): (n: nat)
    requires i <= |h|
  {
    if i == 0 then 0
    else ChangesOf(h, name, i - 1) + if h[i - 1].name == name && IsChange(h, i - 1) then 1 else 0
  }

  /** A change among the first maxPerName of its name */
  predicate Eligible(h: seq<Sample>, maxPerName: int, p: nat)
    requires p < |h|
  {
    IsChange(h, p) && ChangesOf(h, h[p].name, p + 1) <= maxPerName
  }

  function Listed(h: seq<Sample>, maxPerName: int, i: nat): (ps: seq<nat>)
    requires i <= |h|
    ensures forall k :: 0 <= k < |ps| ==> ps[k] < i
  {
    if i == 0 then []
    else Listed(h, maxPerName, i - 1) + if Eligible(h, maxPerName, i - 1) then [i - 1] else []
  }

  function Take<T>(k: int, s: seq<T>): seq<T> {
    if k <= 0 then [] else if k <= |s| then s[..k] else s
  }

  function Shown(h: seq<Sample>, p: nat): Transition
    requires p < |h|
  {
    var q := Previous(h, h[p].name, p);
    Transition(h[p].stampNs, h[p].name, LevelName(if q >= 0 then h[q].level else 0), LevelName(h[p].level), h[p].message)
  }

  function ShownAll(h: seq<Sample>, ps: seq<nat>): (ts: seq<Transition>)
    requires forall k :: 0 <= k < |ps| ==> ps[k] < |h|
  {
    seq(|ps|, k requires 0 <= k < |ps| => Shown(h, ps[k]))
  }

  /** The list of transitions: the first maxTransitions of the eligible changes */
  function Recorded(h: seq<Sample>, maxTransitions: int, maxPerName: int): seq<Transition> {
    ShownAll(h, Take(maxTransitions, Listed(h, maxPerName, |h|)))
  }

  function Seconds(a: int, b: int): real {
    (b - a) as real / 1000000000.0
  }

  /** The gaps that follow an update of the name with the level */
  function TimeIn(h: seq<Sample>, name: string, level: int, i: nat): real
    requires i <= |h|
  {
    if i == 0 then 0.0
    else
      var p := Previous(h, name, i - 1);
      TimeIn(h, name, level, i - 1) +
      if h[i - 1].name == name && p >= 0 && h[p].level == level then Seconds(h[p].stampNs, h[i - 1].stampNs) else 0.0
  }

  function Worst(h: seq<Sample>, name: string, i: nat): int
    requires i <= |h|
  {
    if i == 0 then 0
    else if h[i - 1].name == name && h[i - 1].level > Worst(h, name, i - 1) then h[i - 1].level
    else Worst(h, name, i - 1)
  }

  // ----- a later update changes nothing that was defined before -----

  lemma {:induction false} PreviousKept(h: seq<Sample>, x: Sample, name: string, i: nat)
    requires i <= |h|
    ensures Previous(h + [x], name, i) == Previous(h, name, i)
  {
    if i > 0 {
      PreviousKept(h, x, name, i - 1);
    }
  }

  lemma PreviousSnoc(h: seq<Sample>, x: Sample, name: string)
    ensures var p := Previous(h + [x], name, |h| + 1);
            if name == x.name then p == |h| && (h + [x])[p] == x
            else p == Previous(h, name, |h|) && (p >= 0 ==> (h + [x])[p] == h[p])
  {
    PreviousKept(h, x, name, |h|);
  }

  lemma IsChangeKept(h: seq<Sample>, x: Sample, p: nat)
    requires p < |h|
    ensures IsChange(h + [x], p) == IsChange(h, p)
    ensures Shown(h + [x], p) == Shown(h, p)
  {
    PreviousKept(h, x, h[p].name, p);
  }

  lemma {:induction false} ChangesKept(h: seq<Sample>, x: Sample, name: string, i: nat)
    requires i <= |h|
    ensures Changes(h + [x], i) == Changes(h, i)
    ensures ChangesOf(h + [x], name, i) == ChangesOf(h, name, i)
  {
    if i > 0 {
      ChangesKept(h, x, name, i - 1);
      IsChangeKept(h, x, i - 1);
    }
  }

  lemma {:induction false} ListedKept(h: seq<Sample>, x: Sample, maxPerName: int, i: nat)
    requires i <= |h|
    ensures Listed(h + [x], maxPerName, i) == Listed(h, maxPerName, i)
  {
    if i > 0 {
      ListedKept(h, x, maxPerName, i - 1);
      IsChangeKept(h, x, i - 1);
      ChangesKept(h, x, h[i - 1].name, i);
    }
  }

  lemma {:induction false} TimeKept(h: seq<Sample>, x: Sample, name: string, level: int, i: nat)
    requires i <= |h|
    ensures TimeIn(h + [x], name, level, i) == TimeIn(h, name, level, i)
  {
    if i > 0 {
      TimeKept(h, x, name, level, i - 1);
      PreviousKept(h, x, name, i - 1);
    }
  }

  lemma {:induction false} WorstKept(h: seq<Sample>, x: Sample, name: string, i: nat)
    requires i <= |h|
    ensures Worst(h + [x], name, i) == Worst(h, name, i)
  {
    if i > 0 {
      WorstKept(h, x, name, i - 1);
    }
  }

  // ----- what the definition promises -----

  /** The positions listed are exactly the eligible ones, in order. */
  lemma {:induction false} ListedExact(h: seq<Sample>, maxPerName: int, i: nat)
    requires i <= |h|
    ensures forall j, k :: 0 <= j < k < |Listed(h, maxPerName, i)| ==> Listed(h, maxPerName, i)[j] < Listed(h, maxPerName, i)[k]
    ensures forall p: nat :: p < i ==> (p in Listed(h, maxPerName, i) <==> Eligible(h, maxPerName, p))
  {
    hide Eligible;
    if i > 0 {
      ListedExact(h, maxPerName, i - 1);
      ListedSnoc(h, maxPerName, i - 1);
      hide Listed;
    }
  }

  function CountOf(h: seq<Sample>, ps: seq<nat>, name: string): nat
    requires forall k :: 0 <= k < |ps| ==> ps[k] < |h|
  {
    if ps == [] then 0
    else CountOf(h, ps[..|ps| - 1], name) + if h[ps[|ps| - 1]].name == name then 1 else 0
  }

  lemma CountOfSnoc(h: seq<Sample>, ps: seq<nat>, p: nat, name: string)
    requires p < |h| && forall k :: 0 <= k < |ps| ==> ps[k] < |h|
    ensures CountOf(h, ps + [p], name) == CountOf(h, ps, name) + if h[p].name == name then 1 else 0
  {
    assert (ps + [p])[..|ps|] == ps;
  }

  /** Positions of other names are not counted; a change of this name is listed unless it is one too many. */
  lemma ChangesOfSnoc(h: seq<Sample>, maxPerName: int, name: string, p: nat)
    requires p < |h|
    ensures h[p].name != name ==> ChangesOf(h, name, p + 1) == ChangesOf(h, name, p)
    ensures h[p].name == name ==>
      if Eligible(h, maxPerName, p) then ChangesOf(h, name, p + 1) == ChangesOf(h, name, p) + 1 <= maxPerName
      else ChangesOf(h, name, p + 1) == ChangesOf(h, name, p) || ChangesOf(h, name, p + 1) == ChangesOf(h, name, p) + 1 > maxPerName
  {
    hide IsChange;
  }

  lemma NothingListed(h: seq<Sample>, maxPerName: int, name: string)
    ensures CountOf(h, Listed(h, maxPerName, 0), name) == ChangesOf(h, name, 0) == 0
  {
  }

  /** Of each name the first maxPerName changes are listed, and all of them when there are fewer. */
  lemma {:induction false} ListedPerName(h: seq<Sample>, maxPerName: nat, name: string, i: nat)
    requires i <= |h|
    ensures CountOf(h, Listed(h, maxPerName, i), name) ==
      if ChangesOf(h, name, i) <= maxPerName then ChangesOf(h, name, i) else maxPerName
  {
    hide *;
    if i == 0 {
      NothingListed(h, maxPerName, name);
    } else {
      ListedPerName(h, maxPerName, name, i - 1);
      ListedSnoc(h, maxPerName, i - 1);
      ChangesOfSnoc(h, maxPerName, name, i - 1);
      CountOfSnoc(h, Listed(h, maxPerName, i - 1), i - 1, name);
    }
  }

  ghost function Sum<T(!new)>(levels: set<T>, f: T -> real): real {
    if levels == {} then 0.0
    else
      var l :| l in levels;
      f(l) + Sum(levels - {l}, f)
  }

  lemma {:induction false} SumSplit<T(!new)>(levels: set<T>, f: T -> real, l: T)
    requires l in levels
    ensures Sum(levels, f) == f(l) + Sum(levels - {l}, f)
  {
    var m :| m in levels && Sum(levels, f) == f(m) + Sum(levels - {m}, f);
    if m != l {
      SumSplit(levels - {m}, f, l);
      SumSplit(levels - {l}, f, m);
      assert levels - {m} - {l} == levels - {l} - {m};
    }
  }

  lemma {:induction false} SumSame<T(!new)>(levels: set<T>, f: T -> real, g: T -> real)
    requires forall l :: l in levels ==> f(l) == g(l)
    ensures Sum(levels, f) == Sum(levels, g)
  {
    if levels != {} {
      var l :| l in levels;
      SumSplit(levels, f, l);
      SumSplit(levels, g, l);
      SumSame(levels - {l}, f, g);
    }
  }

  lemma SumBump<T(!new)>(levels: set<T>, f: T -> real, g: T -> real, l: T)
    requires l in levels && forall m :: m in levels && m != l ==> f(m) == g(m)
    ensures Sum(levels, g) == Sum(levels, f) + g(l) - f(l)
  {
    SumSplit(levels, f, l);
    SumSplit(levels, g, l);
    SumSame(levels - {l}, f, g);
  }

  lemma {:induction false} SumZero<T(!new)>(levels: set<T>, f: T -> real)
    requires forall l :: l in levels ==> f(l) == 0.0
    ensures Sum(levels, f) == 0.0
  {
    if levels != {} {
      var l :| l in levels;
      SumSplit(levels, f, l);
      SumZero(levels - {l}, f);
    }
  }

  ghost function Spent(h: seq<Sample>, name: string, i: nat): int -> real
    requires i <= |h|
  {
    l => TimeIn(h, name, l, i)
  }

  /** Until position i the name was first updated, and last updated, at these stamps. */
  ghost function Span(h: seq<Sample>, name: string, i: nat): real
    requires i <= |h|
  {
    var p := Previous(h, name, i);
    if p < 0 then 0.0 else Seconds(h[First(h, name, i)].stampNs, h[p].stampNs)
  }

  /** Over any levels that include those the name has left, the time per level adds up to the last
      stamp of the name minus its first. */
  lemma {:induction false} TimeConserved(h: seq<Sample>, name: string, i: nat, levels: set<int>)
    requires i <= |h|
    requires forall p :: 0 <= p < Previous(h, name, i) && h[p].name == name ==> h[p].level in levels
    ensures Sum(levels, Spent(h, name, i)) == Span(h, name, i)
  {
    if i == 0 {
      SumZero(levels, Spent(h, name, i));
    } else {
      TimeConserved(h, name, i - 1, levels);
      hide Sum, Seconds;
      var p := Previous(h, name, i - 1);
      var f, g := Spent(h, name, i - 1), Spent(h, name, i);
      if h[i - 1].name != name || p < 0 {
        SumSame(levels, f, g);
      } else {
        SumBump(levels, f, g, h[p].level);
        assert Seconds(h[First(h, name, i)].stampNs, h[p].stampNs) + Seconds(h[p].stampNs, h[i - 1].stampNs)
            == Seconds(h[First(h, name, i)].stampNs, h[i - 1].stampNs) by {
          SecondsAdd(h[First(h, name, i)].stampNs, h[p].stampNs, h[i - 1].stampNs);
        }
      }
    }
  }

  lemma SecondsAdd(a: int, b: int, c: int)
    ensures Seconds(a, b) + Seconds(b, c) == Seconds(a, c)
  {
  }

  // ----- the online class -----

  function Count(counts: map<string, nat>, name: string): nat {
    if name in counts then counts[name] else 0
  }

  function WorstOf(worst: map<string, int>, name: string): int {
    if name in worst then worst[name] else 0
  }

  function Counter(seconds: map<string, map<int, real>>, name: string): map<int, real> {
    if name in seconds then seconds[name] else map[]
  }

  function SecondsIn(seconds: map<string, map<int, real>>, name: string, level: int): real {
    var counter := Counter(seconds, name); if level in counter then counter[level] else 0.0
  }

  // Each field against the definition

  ghost predicate LastFits(h: seq<Sample>, last: map<string, (int, int)>) {
    && (forall n :: n in last <==> Previous(h, n, |h|) >= 0)
    && (forall n :: n in last ==> var p := Previous(h, n, |h|); last[n] == (h[p].stampNs, h[p].level))
  }

  ghost predicate CountsFit(h: seq<Sample>, counts: map<string, nat>) {
    forall n :: Count(counts, n) == ChangesOf(h, n, |h|)
  }

  /** The counters hold the time in each level, and have an entry for every level that was left. */
  ghost predicate SecondsFit(h: seq<Sample>, seconds: map<string, map<int, real>>) {
    && (forall n, l :: SecondsIn(seconds, n, l) == TimeIn(h, n, l, |h|))
    && (forall n, p :: 0 <= p < Previous(h, n, |h|) && h[p].name == n ==> n in seconds && h[p].level in seconds[n])
  }

  ghost predicate WorstFits(h: seq<Sample>, worst: map<string, int>) {
    && (forall n :: n in worst <==> Previous(h, n, |h|) >= 0)
    && (forall n :: WorstOf(worst, n) == Worst(h, n, |h|))
  }

  ghost predicate ListFits(h: seq<Sample>, maxTransitions: int, maxPerName: int, transitions: seq<Transition>, dropped: nat) {
    && transitions == Recorded(h, maxTransitions, maxPerName)
    && |transitions| + dropped == Changes(h, |h|)
  }

  /** The counter of a name after it stayed in its last level until the stamp */
  function Accrued(seconds: map<string, map<int, real>>, name: string, last: (int, int), stampNs: int): map<int, real> {
    Counter(seconds, name)[last.1 := SecondsIn(seconds, name, last.1) + Seconds(last.0, stampNs)]
  }

  function LastAfter(last: map<string, (int, int)>, x: Sample): map<string, (int, int)> {
    last[x.name := (x.stampNs, x.level)]
  }

  function WorstAfter(worst: map<string, int>, x: Sample): map<string, int> {
    worst[x.name := if WorstOf(worst, x.name) < x.level then x.level else WorstOf(worst, x.name)]
  }

  function SecondsAfter(seconds: map<string, map<int, real>>, last: map<string, (int, int)>, x: Sample): map<string, map<int, real>> {
    if x.name !in last then seconds else seconds[x.name := Accrued(seconds, x.name, last[x.name], x.stampNs)]
  }

  function TransitionOf(last: map<string, (int, int)>, x: Sample): Transition {
    Transition(x.stampNs, x.name, LevelName(if x.name in last then last[x.name].1 else 0), LevelName(x.level), x.message)
  }

  lemma LastStep(h: seq<Sample>, x: Sample, last: map<string, (int, int)>)
    requires LastFits(h, last)
    ensures LastFits(h + [x], LastAfter(last, x))
  {
    hide Previous;
    var h', last' := h + [x], LastAfter(last, x);
    assert |h'| == |h| + 1;
    forall n
      ensures var p := Previous(h', n, |h'|); (n in last' <==> p >= 0) && (n in last' ==> last'[n] == (h'[p].stampNs, h'[p].level))
    {
      PreviousSnoc(h, x, n);
    }
  }

  lemma LatestChange(h: seq<Sample>, x: Sample, last: map<string, (int, int)>)
    requires LastFits(h, last)
    ensures IsChange(h + [x], |h|) <==> x.name in last && last[x.name].1 != x.level
    ensures Shown(h + [x], |h|) == TransitionOf(last, x)
  {
    PreviousKept(h, x, x.name, |h|);
  }

  lemma CountsStep(h: seq<Sample>, x: Sample, counts: map<string, nat>)
    requires CountsFit(h, counts)
    ensures CountsFit(h + [x], if IsChange(h + [x], |h|) then counts[x.name := Count(counts, x.name) + 1] else counts)
    ensures ChangesOf(h + [x], x.name, |h| + 1) == Count(counts, x.name) + if IsChange(h + [x], |h|) then 1 else 0
  {
    var h' := h + [x];
    hide IsChange;
    forall n
      ensures ChangesOf(h', n, |h'|) == Count(counts, n) + if n == x.name && IsChange(h', |h|) then 1 else 0
    {
      ChangesKept(h, x, n, |h|);
      assert Count(counts, n) == ChangesOf(h, n, |h|);
    }
  }

  lemma TimeStep(h: seq<Sample>, x: Sample, n: string, l: int)
    ensures TimeIn(h + [x], n, l, |h| + 1) == TimeIn(h, n, l, |h|) +
      var p := Previous(h, n, |h|);
      if x.name == n && p >= 0 && h[p].level == l then Seconds(h[p].stampNs, x.stampNs) else 0.0
  {
    TimeKept(h, x, n, l, |h|);
    PreviousKept(h, x, n, |h|);
  }

  lemma AccruedIn(seconds: map<string, map<int, real>>, name: string, last: (int, int), stampNs: int, n: string, l: int)
    ensures var seconds' := seconds[name := Accrued(seconds, name, last, stampNs)];
            SecondsIn(seconds', n, l) == SecondsIn(seconds, n, l) + if n == name && l == last.1 then Seconds(last.0, stampNs) else 0.0
  {
    hide Seconds;
  }

  lemma AccruedHas(seconds: map<string, map<int, real>>, name: string, last: (int, int), stampNs: int)
    ensures Accrued(seconds, name, last, stampNs).Keys == Counter(seconds, name).Keys + {last.1}
  {
  }

  lemma SecondsStep(h: seq<Sample>, x: Sample, last: map<string, (int, int)>, seconds: map<string, map<int, real>>)
    requires LastFits(h, last) && SecondsFit(h, seconds)
    ensures SecondsFit(h + [x], SecondsAfter(seconds, last, x))
  {
    hide Seconds, TimeIn, SecondsIn, Accrued, Previous;
    var h', seconds' := h + [x], SecondsAfter(seconds, last, x);
    assert |h'| == |h| + 1;
    forall n, l
      ensures SecondsIn(seconds', n, l) == TimeIn(h', n, l, |h'|)
    {
      TimeStep(h, x, n, l);
      assert SecondsIn(seconds, n, l) == TimeIn(h, n, l, |h|);
      if x.name in last {
        AccruedIn(seconds, x.name, last[x.name], x.stampNs, n, l);
      }
    }
    forall n, p | 0 <= p < Previous(h', n, |h'|) && h'[p].name == n
      ensures n in seconds' && h'[p].level in seconds'[n]
    {
      LevelsStep(h, x, last, seconds, n, p);
    }
  }

  lemma LeftLevel(h: seq<Sample>, last: map<string, (int, int)>, seconds: map<string, map<int, real>>, n: string, p: nat)
    requires LastFits(h, last) && SecondsFit(h, seconds) && p < |h| && h[p].name == n
    ensures n in last
    ensures p != Previous(h, n, |h|) ==> n in seconds && h[p].level in seconds[n]
    ensures p == Previous(h, n, |h|) ==> h[p].level == last[n].1
  {
    hide TimeIn, SecondsIn;
    assert p <= Previous(h, n, |h|);
  }

  lemma LevelsStep(h: seq<Sample>, x: Sample, last: map<string, (int, int)>, seconds: map<string, map<int, real>>, n: string, p: nat)
    requires LastFits(h, last) && SecondsFit(h, seconds)
    requires p < Previous(h + [x], n, |h| + 1) && (h + [x])[p].name == n
    ensures var seconds' := SecondsAfter(seconds, last, x); n in seconds' && (h + [x])[p].level in seconds'[n]
  {
    hide Accrued, LastFits, SecondsFit, Previous;
    PreviousSnoc(h, x, n);
    LeftLevel(h, last, seconds, n, p);
    if x.name in last {
      AccruedHas(seconds, x.name, last[x.name], x.stampNs);
    }
  }

  lemma WorstSnoc(h: seq<Sample>, x: Sample, name: string)
    ensures Worst(h + [x], name, |h| + 1) ==
      var w := Worst(h, name, |h|); if name == x.name && x.level > w then x.level else w
  {
    WorstKept(h, x, name, |h|);
  }

  lemma WorstStep(h: seq<Sample>, x: Sample, worst: map<string, int>)
    requires WorstFits(h, worst)
    ensures WorstFits(h + [x], WorstAfter(worst, x))
  {
    hide Worst, Previous;
    var h', worst' := h + [x], WorstAfter(worst, x);
    assert |h'| == |h| + 1;
    forall n
      ensures (n in worst' <==> Previous(h', n, |h'|) >= 0) && WorstOf(worst', n) == Worst(h', n, |h'|)
    {
      WorstSnoc(h, x, n);
      PreviousSnoc(h, x, n);
      assert WorstOf(worst, n) == Worst(h, n, |h|);
    }
  }

  lemma ShownAllKept(h: seq<Sample>, x: Sample, ps: seq<nat>)
    requires forall k :: 0 <= k < |ps| ==> ps[k] < |h|
    ensures ShownAll(h + [x], ps) == ShownAll(h, ps)
  {
    forall k | 0 <= k < |ps|
      ensures Shown(h + [x], ps[k]) == Shown(h, ps[k])
    {
      IsChangeKept(h, x, ps[k]);
    }
  }

  lemma TakeSnoc<T>(k: int, s: seq<T>, x: T)
    ensures Take(k, s + [x]) == if |Take(k, s)| >= k then Take(k, s) else Take(k, s) + [x]
  {
  }

  /** An eligible change is appended while there is room; nothing else is. */
  lemma RecordedStep(h: seq<Sample>, x: Sample, maxTransitions: int, maxPerName: int)
    ensures var before, h' := Recorded(h, maxTransitions, maxPerName), h + [x];
            Recorded(h', maxTransitions, maxPerName) ==
              if Eligible(h', maxPerName, |h|) && |before| < maxTransitions then before + [Shown(h', |h|)] else before
  {
    var h', ps := h + [x], Listed(h, maxPerName, |h|);
    ListedKept(h, x, maxPerName, |h|);
    hide Listed, Eligible;
    ListedSnoc(h', maxPerName, |h|);
    TakeSnoc(maxTransitions, ps, |h|);
    ShownAllKept(h, x, Take(maxTransitions, ps));
  }

  lemma ListStep(h: seq<Sample>, x: Sample, counts: map<string, nat>, maxTransitions: int, maxPerName: int,
                 transitions: seq<Transition>, dropped: nat)
    requires CountsFit(h, counts) && ListFits(h, maxTransitions, maxPerName, transitions, dropped)
    ensures var h', count := h + [x], Count(counts, x.name) + 1;
            if !IsChange(h', |h|) then ListFits(h', maxTransitions, maxPerName, transitions, dropped)
            else if count > maxPerName || |transitions| >= maxTransitions then ListFits(h', maxTransitions, maxPerName, transitions, dropped + 1)
            else ListFits(h', maxTransitions, maxPerName, transitions + [Shown(h', |h|)], dropped)
  {
    RecordedStep(h, x, maxTransitions, maxPerName);
    ChangesKept(h, x, x.name, |h|);
    CountsStep(h, x, counts);
    hide Recorded, IsChange, CountsFit, Shown;
  }

  lemma ListedSnoc(h: seq<Sample>, maxPerName: int, i: nat)
    requires i < |h|
    ensures Listed(h, maxPerName, i + 1) == if Eligible(h, maxPerName, i) then Listed(h, maxPerName, i) + [i] else Listed(h, maxPerName, i)
  {
  }

  /** The fields of a timeline */
  datatype Fields = Fields(
    counts: map<string, nat>, last: map<string, (int, int)>, seconds: map<string, map<int, real>>, worst: map<string, int>,
    transitions: seq<Transition>, dropped: nat)

  /** Every field has the value that the definition gives for the history. */
  ghost predicate Fits(h: seq<Sample>, maxTransitions: int, maxPerName: int, t: Fields) {
    && LastFits(h, t.last) && CountsFit(h, t.counts) && SecondsFit(h, t.seconds) && WorstFits(h, t.worst)
    && ListFits(h, maxTransitions, maxPerName, t.transitions, t.dropped)
  }

  function Changed(t: Fields, x: Sample): bool {
    x.name in t.last && t.last[x.name].1 != x.level
  }

  function CountsAfter(counts: map<string, nat>, name: string): map<string, nat> {
    counts[name := Count(counts, name) + 1]
  }

  /** One more change of the name is not listed. */
  predicate Full(counts: map<string, nat>, transitions: seq<Transition>, name: string, maxTransitions: int, maxPerName: int) {
    Count(counts, name) + 1 > maxPerName || |transitions| >= maxTransitions
  }

  function Updated(t: Fields, x: Sample, maxTransitions: int, maxPerName: int): Fields {
    var full := Full(t.counts, t.transitions, x.name, maxTransitions, maxPerName);
    Fields(
      if Changed(t, x) then CountsAfter(t.counts, x.name) else t.counts,
      LastAfter(t.last, x), SecondsAfter(t.seconds, t.last, x), WorstAfter(t.worst, x),
      if Changed(t, x) && !full then t.transitions + [TransitionOf(t.last, x)] else t.transitions,
      if Changed(t, x) && full then t.dropped + 1 else t.dropped)
  }

  lemma FitsStep(h: seq<Sample>, x: Sample, maxTransitions: int, maxPerName: int, t: Fields)
    requires Fits(h, maxTransitions, maxPerName, t)
    ensures Fits(h + [x], maxTransitions, maxPerName, Updated(t, x, maxTransitions, maxPerName))
  {
    hide LastFits, CountsFit, SecondsFit, WorstFits, ListFits, IsChange, TransitionOf, Shown, LastAfter, WorstAfter, SecondsAfter;
    LastStep(h, x, t.last);
    LatestChange(h, x, t.last);
    CountsStep(h, x, t.counts);
    SecondsStep(h, x, t.last, t.seconds);
    WorstStep(h, x, t.worst);
    ListStep(h, x, t.counts, maxTransitions, maxPerName, t.transitions, t.dropped);
  }

  class LevelTimeline {
    const maxTransitions: int
    const maxPerName: int
    var counts: map<string, nat>
    var last: map<string, (int, int)>
    var seconds: map<string, map<int, real>>
    var worst: map<string, int>
    var transitions: seq<Transition>
    var dropped: nat
    ghost var history: seq<Sample>

    ghost function Now(): Fields
      reads this
    {
      Fields(counts, last, seconds, worst, transitions, dropped)
    }

    ghost predicate Valid()
      reads this
    {
      Fits(history, maxTransitions, maxPerName, Now())
    }

    constructor (maxTransitions: int, maxPerName: int)
      ensures Valid() && history == []
      ensures this.maxTransitions == maxTransitions && this.maxPerName == maxPerName
    {
      this.maxTransitions, this.maxPerName := maxTransitions, maxPerName;
      counts, last, seconds, worst, transitions, dropped, history := map[], map[], map[], map[], [], 0, [];
    }

    /** Whatever the stamps, names and levels, the online figures stay those of the definition. */
    method Update(stampNs: int, name: string, level: int, message: string)
      requires Valid()
      modifies this
      ensures Valid() && history == old(history) + [Sample(stampNs, name, level, message)]
    {
      hide Fits, LevelName, Accrued, Count, WorstOf, Full, CountsAfter;
      ghost var h, x, before := history, Sample(stampNs, name, level, message), Now();
      worst := worst[name := if WorstOf(worst, name) < level then level else WorstOf(worst, name)];
      if name in last {
        var (stamp0, level0) := last[name];
        seconds := seconds[name := Accrued(seconds, name, last[name], stampNs)];
        if level0 != level {
          AddTransition(stampNs, name, level0, level, message);
        }
      }
      last := last[name := (stampNs, level)];
      history := h + [x];
      FitsStep(h, x, maxTransitions, maxPerName, before);
    }

    method AddTransition(stampNs: int, name: string, before: int, after: int, message: string)
      modifies this`counts, this`dropped, this`transitions
      ensures counts == CountsAfter(old(counts), name)
      ensures if Full(old(counts), old(transitions), name, maxTransitions, maxPerName)
              then dropped == old(dropped) + 1 && transitions == old(transitions)
              else dropped == old(dropped)
                   && transitions == old(transitions) + [Transition(stampNs, name, LevelName(before), LevelName(after), message)]
    {
      var count := Count(counts, name) + 1;
      counts := counts[name := count];
      if count > maxPerName || |transitions| >= maxTransitions {
        dropped := dropped + 1;
        return;
      }
      transitions := transitions + [Transition(stampNs, name, LevelName(before), LevelName(after), message)];
    }

    /** Each name that was updated, with the level and the worst level it had, the number of its changes
        and the time it spent in the levels 1 to 3 */
    method Summary() returns (byName: map<string, Row>)
      requires Valid()
      ensures forall n :: n in byName <==> exists p :: 0 <= p < |history| && history[p].name == n
      ensures forall n :: n in byName ==>
        var h, i := history, |history|;
        byName[n] == Row(LevelName(h[Previous(h, n, i)].level), LevelName(Worst(h, n, i)), ChangesOf(h, n, i),
                         TimeIn(h, n, 1, i), TimeIn(h, n, 2, i), TimeIn(h, n, 3, i))
    {
      hide LevelName;
      byName := map n | n in last ::
        Row(LevelName(last[n].1), LevelName(WorstOf(worst, n)), Count(counts, n),
            SecondsIn(seconds, n, 1), SecondsIn(seconds, n, 2), SecondsIn(seconds, n, 3));
    }
  }

  // ----- whole histories -----

  ghost function Tallied(seconds: map<string, map<int, real>>, name: string): int -> real {
    l => SecondsIn(seconds, name, l)
  }

  lemma LeftLevelsCounted(h: seq<Sample>, seconds: map<string, map<int, real>>, name: string)
    requires SecondsFit(h, seconds)
    ensures forall p :: 0 <= p < Previous(h, name, |h|) && h[p].name == name ==> h[p].level in Counter(seconds, name).Keys
  {
    hide TimeIn, SecondsIn;
  }

  ghost function FirstStamp(h: seq<Sample>, name: string): int {
    var p := First(h, name, |h|);
    if p < |h| then h[p].stampNs else 0
  }

  lemma LastSpan(h: seq<Sample>, last: map<string, (int, int)>, name: string)
    requires LastFits(h, last) && name in last
    ensures Span(h, name, |h|) == Seconds(FirstStamp(h, name), last[name].0)
  {
    hide Seconds;
  }

  lemma SumTallied(h: seq<Sample>, seconds: map<string, map<int, real>>, name: string, levels: set<int>)
    requires SecondsFit(h, seconds)
    ensures Sum(levels, Tallied(seconds, name)) == Sum(levels, Spent(h, name, |h|))
  {
    hide SecondsIn, TimeIn;
    SumSame(levels, Tallied(seconds, name), Spent(h, name, |h|));
  }

  /** The counters of a name add up to its last stamp minus its first. */
  lemma CountersConserveTime(h: seq<Sample>, last: map<string, (int, int)>, seconds: map<string, map<int, real>>, name: string)
    requires LastFits(h, last) && SecondsFit(h, seconds) && name in last
    ensures Sum(Counter(seconds, name).Keys, Tallied(seconds, name)) == Seconds(FirstStamp(h, name), last[name].0)
  {
    hide *;
    LeftLevelsCounted(h, seconds, name);
    TimeConserved(h, name, |h|, Counter(seconds, name).Keys);
    SumTallied(h, seconds, name, Counter(seconds, name).Keys);
    LastSpan(h, last, name);
  }
}
