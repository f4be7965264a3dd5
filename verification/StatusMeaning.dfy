/** What the figures of a timeline mean, said of the updates themselves. */
module StatusMeanings {
  import opened StatusTimelines

  /** q is the update of the name before p. */
  ghost predicate JustBefore(h: seq<Sample>, q: int, p: nat) {
    0 <= q < p < |h| && h[q].name == h[p].name && forall r :: q < r < p ==> h[r].name != h[p].name
  }

  /** A change is an update whose level is not that of the update of the same name before it. */
  lemma ChangeExact(h: seq<Sample>, p: nat)
    requires p < |h|
    ensures IsChange(h, p) <==> exists q :: JustBefore(h, q, p) && h[q].level != h[p].level
  {
    var r := Previous(h, h[p].name, p);
    assert r >= 0 ==> JustBefore(h, r, p);
    forall q | JustBefore(h, q, p)
      ensures q == r
    {
    }
  }

  /** The list has room for so many transitions. */
  lemma RecordedLength(h: seq<Sample>, maxTransitions: int, maxPerName: int)
    ensures var n := |Listed(h, maxPerName, |h|)|;
            |Recorded(h, maxTransitions, maxPerName)| == if maxTransitions < 0 then 0 else if n < maxTransitions then n else maxTransitions
  {
    hide Listed, Shown;
  }

  /** The k-th transition tells of the k-th listed change: from the level before to the level now. */
  lemma RecordedExact(h: seq<Sample>, maxTransitions: int, maxPerName: int, k: nat)
    requires k < |Recorded(h, maxTransitions, maxPerName)|
    ensures k < |Listed(h, maxPerName, |h|)|
    ensures var t, p := Recorded(h, maxTransitions, maxPerName)[k], Listed(h, maxPerName, |h|)[k];
            && p < |h| && t.stampNs == h[p].stampNs && t.name == h[p].name && t.message == h[p].message
            && t.after == LevelName(h[p].level)
            && exists q :: JustBefore(h, q, p) && t.before == LevelName(h[q].level) && h[q].level != h[p].level
  {
    RecordedLength(h, maxTransitions, maxPerName);
    ListedExact(h, maxPerName, |h|);
    var p := Listed(h, maxPerName, |h|)[k];
    assert Recorded(h, maxTransitions, maxPerName)[k] == Shown(h, p);
    assert p in Listed(h, maxPerName, |h|) && Eligible(h, maxPerName, p);
    hide Recorded, Listed, LevelName;
    ChangeExact(h, p);
    var q :| JustBefore(h, q, p) && h[q].level != h[p].level;
    assert q == Previous(h, h[p].name, p);
  }

  /** The levels that have a name of their own, and two that have not */
  lemma LevelNamesAre()
    ensures LevelName(0) == "OK" && LevelName(1) == "WARN" && LevelName(2) == "ERROR" && LevelName(3) == "STALE"
    ensures LevelName(4) == "4" && LevelName(17) == "17"
  {
  }

  /** The worst level is the highest that the name had, and never below zero. */
  lemma {:induction false} WorstIsHighest(h: seq<Sample>, name: string, i: nat)
    requires i <= |h|
    ensures Worst(h, name, i) >= 0 && forall p :: 0 <= p < i && h[p].name == name ==> h[p].level <= Worst(h, name, i)
    ensures Worst(h, name, i) == 0 || exists p :: 0 <= p < i && h[p].name == name && h[p].level == Worst(h, name, i)
  {
    if i > 0 {
      WorstIsHighest(h, name, i - 1);
    }
  }

  /** Time goes to the level that was left, not to the one that is entered: none to a level that the name had only last. */
  lemma {:induction false} NoTimeInLast(h: seq<Sample>, name: string, level: int, i: nat)
    requires i <= |h|
    requires forall p :: 0 <= p < Previous(h, name, i) && h[p].name == name ==> h[p].level != level
    ensures TimeIn(h, name, level, i) == 0.0
  {
    if i > 0 {
      hide Seconds;
      NoTimeInLast(h, name, level, i - 1);
    }
  }

  /** And all the time of the name, to a level that it had at all updates but the last. */
  lemma AllTimeInOne(h: seq<Sample>, name: string, level: int, i: nat)
    requires i <= |h| && Previous(h, name, i) >= 0
    requires forall p :: 0 <= p < Previous(h, name, i) && h[p].name == name ==> h[p].level == level
    ensures TimeIn(h, name, level, i) * 1000000000.0 ==
              (h[Previous(h, name, i)].stampNs - h[First(h, name, i)].stampNs) as real
  {
    TimeConserved(h, name, i, {level});
    SumSplit({level}, Spent(h, name, i), level);
    assert {level} - {level} == {};
  }
}
