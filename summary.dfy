/** The values the tracker derives from its state: per-entry progress, the
    confidence clamp, and the four summary cards (total hours, goal
    achievement rate, average confidence, topics covered). */
module Summary {
  import opened Js
  import opened Records
  import opened FieldRegistry
  import opened EntryLog

  /** `calculateProgress(achieved, set)`: 0 when the target is 0, otherwise the
      percentage achieved capped at 100. Nothing bounds it from below. */
  function Progress(achieved: real, target: real): (p: real)
    ensures p <= 100.0
    ensures target == 0.0 ==> p == 0.0
    ensures target != 0.0 && achieved / target <= 1.0 ==> p == 100.0 * achieved / target
    ensures target != 0.0 && achieved / target > 1.0 ==> p == 100.0
    ensures achieved * target >= 0.0 ==> p >= 0.0
  {
    if target == 0.0 then 0.0 else Min(100.0, achieved / target * 100.0)
  }

  /** Progress goes below any bound: a negative goal count gives a negative
      percentage. */
  lemma ProgressHasNoLowerBound(bound: real)
    ensures exists achieved, target :: Progress(achieved, target) < bound
  {
    var achieved := Min(bound, 0.0) - 1.0;
    assert Progress(achieved, 1.0) < bound;
  }

  /** The progress bar of one entry, from its `goalsAchieved` and `goalsSet`. */
  function EntryProgress(e: Record): (p: real)
    ensures p <= 100.0
    ensures NumberAt(e, "goalsSet") == 0.0 ==> p == 0.0
  {
    Progress(NumberAt(e, "goalsAchieved"), NumberAt(e, "goalsSet"))
  }

  /** Half of a positive target is 50 percent. */
  lemma ProgressOfHalf(achieved: real)
    requires achieved > 0.0
    ensures Progress(achieved, 2.0 * achieved) == 50.0
  {
    var q := achieved / (2.0 * achieved);
    assert q == 0.5 by {
      DivThenMultiply(achieved, 2.0 * achieved);
      assert (q * 2.0 - 1.0) * achieved == 0.0;
    }
    assert achieved / (2.0 * achieved) <= 1.0;
  }

  /** Achieving half of the goals set is 50 percent: `n` of `2n` for every
      positive `n` (five of ten, say). */
  lemma HalfOfGoalsIsFifty(n: nat)
    requires n > 0
    ensures EntryProgress(map["goalsSet" := Str(NatToDigits(2 * n)), "goalsAchieved" := Str(NatToDigits(n))])
      == 50.0
  {
    var e: Record := map["goalsSet" := Str(NatToDigits(2 * n)), "goalsAchieved" := Str(NatToDigits(n))];
    NumberAtOfNat(e, "goalsSet", 2 * n);
    NumberAtOfNat(e, "goalsAchieved", n);
    var achieved := NumberAt(e, "goalsAchieved");
    var target := NumberAt(e, "goalsSet");
    assert target == 2.0 * achieved;
    ProgressOfHalf(achieved);
    assert EntryProgress(e) == Progress(achieved, target);
  }

  /** Any goals against a target of "0" give 0 percent. */
  lemma ZeroTargetIsZero(achieved: string)
    ensures EntryProgress(map["goalsSet" := Str("0"), "goalsAchieved" := Str(achieved)]) == 0.0
  {
    assert NatToDigits(0) == "0";
    ParseNumOfNat(0);
    var e: Record := map["goalsSet" := Str("0"), "goalsAchieved" := Str(achieved)];
    assert NumberAt(e, "goalsSet") == 0.0;
  }

  /** `Math.min(10, Math.max(1, x))` for a numeric input. */
  function ClampConfidence(x: real): (c: real)
    ensures 1.0 <= c <= 10.0
    ensures 1.0 <= x <= 10.0 ==> c == x
    ensures x < 1.0 ==> c == 1.0
    ensures x > 10.0 ==> c == 10.0
  {
    Min(10.0, Max(1.0, x))
  }

  /** `entries.reduce((sum, entry) => sum + (parseFloat(entry[key]) || 0), 0)`,
      folded from the left as `reduce` does. */
  function Total(es: seq<Record>, key: string): (t: real)
    ensures es == [] ==> t == 0.0
    ensures (forall i :: 0 <= i < |es| ==> NumberAt(es[i], key) >= 0.0) ==> t >= 0.0
  {
    if es == [] then 0.0
    else Total(es[..|es| - 1], key) + NumberAt(es[|es| - 1], key)
  }

  /** The total over two lists joined is the sum of their totals. */
  lemma {:induction false} TotalAppend(a: seq<Record>, b: seq<Record>, key: string)
    ensures Total(a + b, key) == Total(a, key) + Total(b, key)
  {
    if b == [] {
      assert a + b == a;
    } else {
      assert (a + b)[..|a + b| - 1] == a + b[..|b| - 1];
      TotalAppend(a, b[..|b| - 1], key);
    }
  }

  /** A total over entries that all read 0 is 0. */
  lemma {:induction false} TotalOfZeros(es: seq<Record>, key: string)
    requires forall i :: 0 <= i < |es| ==> NumberAt(es[i], key) == 0.0
    ensures Total(es, key) == 0.0
  {
    if es != [] {
      var init := es[..|es| - 1];
      assert forall i :: 0 <= i < |init| ==> init[i] == es[i];
      TotalOfZeros(init, key);
    }
  }

  /** When every value is on the 1 to 10 scale, the total lies between the
      number of entries and ten times that number. */
  lemma {:induction false} TotalOnScale(es: seq<Record>, key: string)
    requires forall i :: 0 <= i < |es| ==> 1.0 <= NumberAt(es[i], key) <= 10.0
    ensures |es| as real <= Total(es, key) <= 10.0 * |es| as real
  {
    if es != [] {
      var init := es[..|es| - 1];
      assert forall i :: 0 <= i < |init| ==> init[i] == es[i];
      TotalOnScale(init, key);
    }
  }

  /** Totals compare as the entries' values do. */
  lemma {:induction false} TotalMonotone(es: seq<Record>, small: string, large: string)
    requires forall i :: 0 <= i < |es| ==> NumberAt(es[i], small) <= NumberAt(es[i], large)
    ensures Total(es, small) <= Total(es, large)
  {
    if es != [] {
      TotalMonotone(es[..|es| - 1], small, large);
    }
  }

  /** Two lists whose entries agree on a key, position by position, have the
      same total for it. */
  lemma {:induction false} TotalPointwise(a: seq<Record>, b: seq<Record>, key: string)
    requires |a| == |b|
    requires forall i :: 0 <= i < |a| ==> NumberAt(a[i], key) == NumberAt(b[i], key)
    ensures Total(a, key) == Total(b, key)
  {
    if a != [] {
      TotalPointwise(a[..|a| - 1], b[..|b| - 1], key);
    }
  }

  /** Back-filling a field makes its total 0 (every entry holds `''` there) and
      leaves the total of every other key alone. */
  lemma TotalAfterBackfill(es: seq<Record>, name: string, key: string)
    ensures Total(Backfill(es, name), key) == if name == key then 0.0 else Total(es, key)
  {
    var r := Backfill(es, name);
    if name == key {
      TotalOfZeros(r, key);
    } else {
      TotalPointwise(r, es, key);
    }
  }

  /** Stripping a key makes its total 0 and leaves every other total alone. */
  lemma TotalAfterStrip(es: seq<Record>, name: string, key: string)
    ensures Total(StripKey(es, name), key) == if name == key then 0.0 else Total(es, key)
  {
    var r := StripKey(es, name);
    if name == key {
      TotalOfZeros(r, key);
    } else {
      TotalPointwise(r, es, key);
    }
  }

  /** The "Total Hours Focused" card. */
  function TotalHours(es: seq<Record>): (t: real)
    ensures es == [] ==> t == 0.0
    ensures (forall i :: 0 <= i < |es| ==> NumberAt(es[i], "hoursFocused") >= 0.0) ==> t >= 0.0
  {
    Total(es, "hoursFocused")
  }

  /** The "Goals Achievement Rate" card: 0 for an empty log, otherwise the
      integer nearest to 100 times the goals achieved over the goals set, the
      latter taken as at least 1. */
  function GoalRate(es: seq<Record>): (r: int)
    ensures es == [] ==> r == 0
    ensures es != [] ==>
      var q := Total(es, "goalsAchieved") / Max(1.0, Total(es, "goalsSet")) * 100.0;
      q - 0.5 < r as real <= q + 0.5
  {
    if es == [] then 0
    else Round(Total(es, "goalsAchieved") / Max(1.0, Total(es, "goalsSet")) * 100.0)
  }

  /** When no entry claims more goals than it set, and none is negative, the
      rate is a percentage between 0 and 100. */
  lemma RateWithinPercent(es: seq<Record>)
    requires forall i :: 0 <= i < |es| ==>
      0.0 <= NumberAt(es[i], "goalsAchieved") <= NumberAt(es[i], "goalsSet")
    ensures 0 <= GoalRate(es) <= 100
  {
    if es != [] {
      TotalMonotone(es, "goalsAchieved", "goalsSet");
      var achieved := Total(es, "goalsAchieved");
      var target := Total(es, "goalsSet");
      var d := Max(1.0, target);
      FractionOfWhole(achieved, d);
    }
  }

  /** The "Average Confidence" card before its one-decimal formatting: 0 for an
      empty log, otherwise the mean of the entries' confidence. */
  function AverageConfidence(es: seq<Record>): (a: real)
    ensures es == [] ==> a == 0.0
    ensures es != [] ==> a == Total(es, "confidence") / |es| as real
  {
    Mean(Total(es, "confidence"), |es|)
  }

  /** A sum divided by a count, 0 when there is nothing to count. */
  function Mean(sum: real, count: nat): (m: real)
    ensures count == 0 ==> m == 0.0
    ensures count > 0 ==> m * count as real == sum
  {
    if count == 0 then 0.0
    else
      DivThenMultiply(sum, count as real);
      sum / count as real
  }

  lemma DivThenMultiply(x: real, n: real)
    requires n > 0.0
    ensures x / n * n == x
  {
  }

  /** A part no larger than a whole of at least 1 is a fraction in [0, 1]. */
  lemma FractionOfWhole(part: real, whole: real)
    requires whole >= 1.0 && 0.0 <= part <= whole
    ensures 0.0 <= part / whole <= 1.0
  {
    DivThenMultiply(part, whole);
  }

  /** A mean of values on the 1 to 10 scale is on that scale. */
  lemma MeanOnScale(sum: real, count: nat)
    requires count > 0 && count as real <= sum <= 10.0 * count as real
    ensures 1.0 <= Mean(sum, count) <= 10.0
  {
    var n := count as real;
    var m := Mean(sum, count);
    assert m == sum / n;
    DivThenMultiply(sum, n);
    assert m * n == sum;
    calc {
      1.0 * n;
    <= sum;
    == m * n;
    }
    calc {
      m * n;
    == sum;
    <= 10.0 * n;
    }
  }

  /** With every confidence on the 1 to 10 scale the average is on it too. */
  lemma AverageConfidenceInRange(es: seq<Record>)
    requires es != []
    requires forall i :: 0 <= i < |es| ==> 1.0 <= NumberAt(es[i], "confidence") <= 10.0
    ensures 1.0 <= AverageConfidence(es) <= 10.0
  {
    TotalOnScale(es, "confidence");
    MeanOnScale(Total(es, "confidence"), |es|);
  }

  /** `entry.topics`: the topic names an entry lists; an entry without a
      `topics` list contributes none. */
  function TopicsOf(e: Record): (ts: seq<string>)
    ensures "topics" in e && e["topics"].List? ==> ts == e["topics"].items
    ensures !("topics" in e && e["topics"].List?) ==> ts == []
  {
    if "topics" in e && e["topics"].List? then e["topics"].items else []
  }

  /** A fresh draft lists no topics, even when a custom field named `topics`
      has replaced the list by `''`. */
  lemma DraftHasNoTopics(today: string, fields: seq<CustomField>)
    ensures TopicsOf(DefaultDraft(today, fields)) == []
  {
    var d := DefaultDraft(today, fields);
    if "topics" in Names(fields) {
      assert d["topics"] == Str("");
    } else {
      assert d["topics"] == BuiltinDefaults(today)["topics"];
    }
  }

  /** `entries.flatMap(entry => entry.topics)`. */
  function AllTopics(es: seq<Record>): (ts: seq<string>)
    ensures forall t :: t in ts <==> exists i :: 0 <= i < |es| && t in TopicsOf(es[i])
  {
    if es == [] then []
    else
      var init := es[..|es| - 1];
      var rest := AllTopics(init);
      assert forall i :: 0 <= i < |init| ==> init[i] == es[i];
      rest + TopicsOf(es[|es| - 1])
  }

  /** A set built from a sequence has no more elements than the sequence. */
  lemma {:induction false} DistinctBound<T>(s: seq<T>)
    ensures |set x | x in s| <= |s|
  {
    if s != [] {
      DistinctBound(s[1..]);
      assert (set x | x in s) == {s[0]} + (set x | x in s[1..]);
    }
  }

  /** No topic is picked at all exactly when every entry's list is empty. */
  lemma AllTopicsEmpty(es: seq<Record>)
    ensures AllTopics(es) == [] <==> forall i :: 0 <= i < |es| ==> TopicsOf(es[i]) == []
  {
    if exists i :: 0 <= i < |es| && TopicsOf(es[i]) != [] {
      var i :| 0 <= i < |es| && TopicsOf(es[i]) != [];
      assert TopicsOf(es[i])[0] in AllTopics(es);
    }
    if AllTopics(es) != [] {
      assert AllTopics(es)[0] in AllTopics(es);
    }
  }

  /** The size of the set of a sequence's elements: `new Set(s).size`. */
  function DistinctCount(s: seq<string>): (n: nat)
    ensures n == |set x | x in s|
    ensures n <= |s|
    ensures n == 0 <==> s == []
  {
    DistinctBound(s);
    var elements := set x | x in s;
    assert s != [] ==> s[0] in elements;
    assert s == [] ==> elements == {};
    |elements|
  }

  /** The "Topics Covered" card. It counts each name once, so it never exceeds
      the number of topic picks, and it is 0 exactly when no entry lists a
      topic. */
  function TopicCount(es: seq<Record>): (n: nat)
    ensures n == |set i, t | 0 <= i < |es| && t in TopicsOf(es[i]) :: t|
    ensures n <= |AllTopics(es)|
    ensures n == 0 <==> forall i :: 0 <= i < |es| ==> TopicsOf(es[i]) == []
  {
    AllTopicsEmpty(es);
    assert (set x | x in AllTopics(es)) == set i, t | 0 <= i < |es| && t in TopicsOf(es[i]) :: t;
    DistinctCount(AllTopics(es))
  }
}
