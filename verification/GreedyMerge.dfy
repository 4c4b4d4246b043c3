// The 200 ms merge of one sorted time list, and why its cluster count is optimal.

module GreedyMerge {
  const TIME_DIFF_THRESHOLD_MS: int := 200

  datatype TimeEntry = TimeEntry(time: int, count: int)

  predicate SortedByTime(list: seq<TimeEntry>) {
    forall i, j :: 0 <= i < j < |list| ==> list[i].time <= list[j].time
  }

  function Times(list: seq<TimeEntry>): set<int> {
    if list == [] then {} else Times(list[..|list| - 1]) + {list[|list| - 1].time}
  }

  function TotalCount(list: seq<TimeEntry>): int {
    if list == [] then 0 else TotalCount(list[..|list| - 1]) + list[|list| - 1].count
  }

  // The counts of the entries whose time lies in [lo, lo + 200].
  function CountWithin(list: seq<TimeEntry>, lo: int): int {
    if list == [] then 0
    else
      var e := list[|list| - 1];
      CountWithin(list[..|list| - 1], lo) + if lo <= e.time <= lo + TIME_DIFF_THRESHOLD_MS then e.count else 0
  }

  ghost predicate AnchorsApart(merged: seq<TimeEntry>) {
    forall i, j :: 0 <= i < j < |merged| ==> merged[j].time - merged[i].time > TIME_DIFF_THRESHOLD_MS
  }

  ghost predicate WindowsCounted(list: seq<TimeEntry>, merged: seq<TimeEntry>) {
    forall i :: 0 <= i < |merged| ==> merged[i].count == CountWithin(list, merged[i].time)
  }

  // Windows [w, w + 200], given by their starts, that together contain all times.
  ghost predicate Covers(windows: set<int>, times: set<int>) {
    forall t :: t in times ==> exists w :: w in windows && w <= t <= w + TIME_DIFF_THRESHOLD_MS
  }

  // What the merge of a sorted list is: its anchors are times of the list more than
  // 200 ms apart, every time lies within 200 ms after an anchor, and each anchor
  // carries the counts of exactly the entries in its own window.
  ghost predicate IsMergeOf(list: seq<TimeEntry>, merged: seq<TimeEntry>) {
    && AnchorsApart(merged)
    && Times(merged) <= Times(list)
    && Covers(Times(merged), Times(list))
    && WindowsCounted(list, merged)
  }

  // The effect of one turn of the loop.
  function MergeInto(merged: seq<TimeEntry>, e: TimeEntry): seq<TimeEntry>
    requires merged != []
  {
    var last := merged[|merged| - 1];
    if e.time - last.time <= TIME_DIFF_THRESHOLD_MS
    then merged[|merged| - 1 := TimeEntry(last.time, last.count + e.count)]
    else merged + [e]
  }

  lemma Snoc(list: seq<TimeEntry>, e: TimeEntry)
    ensures Times(list + [e]) == Times(list) + {e.time}
    ensures TotalCount(list + [e]) == TotalCount(list) + e.count
  {
    assert (list + [e])[..|list|] == list;
  }

  lemma CountWithinSnoc(list: seq<TimeEntry>, e: TimeEntry, lo: int)
    ensures CountWithin(list + [e], lo)
         == CountWithin(list, lo) + if lo <= e.time <= lo + TIME_DIFF_THRESHOLD_MS then e.count else 0
  {
    assert (list + [e])[..|list|] == list;
  }

  lemma MergeOfNone()
    ensures IsMergeOf([], [])
  {
  }

  lemma MergeOfOne(e: TimeEntry)
    ensures IsMergeOf([e], [e])
  {
    assert [e] == [] + [e];
    Snoc([], e);
    CountWithinSnoc([], e, e.time);
  }

  lemma TotalCountStep(list: seq<TimeEntry>, merged: seq<TimeEntry>, e: TimeEntry)
    requires merged != [] && TotalCount(merged) == TotalCount(list)
    ensures TotalCount(MergeInto(merged, e)) == TotalCount(list + [e])
  {
    var n := |merged| - 1;
    Snoc(list, e);
    Snoc(merged, e);
    assert MergeInto(merged, e)[..n] == merged[..n] || MergeInto(merged, e) == merged + [e];
  }

  lemma {:induction false} TimesMember(list: seq<TimeEntry>, i: nat)
    requires i < |list|
    ensures list[i].time in Times(list)
  {
    if i < |list| - 1 {
      TimesMember(list[..|list| - 1], i);
    }
  }

  lemma {:induction false} MemberTimes(list: seq<TimeEntry>, t: int)
    requires t in Times(list)
    ensures exists i :: 0 <= i < |list| && list[i].time == t
  {
    if t != list[|list| - 1].time {
      MemberTimes(list[..|list| - 1], t);
    }
  }

  lemma TimesOfMergeInto(merged: seq<TimeEntry>, e: TimeEntry)
    requires merged != []
    ensures Times(MergeInto(merged, e))
         == Times(merged) + if e.time - merged[|merged| - 1].time <= TIME_DIFF_THRESHOLD_MS then {} else {e.time}
  {
    var n := |merged| - 1;
    Snoc(merged, e);
    assert MergeInto(merged, e)[..n] == merged[..n] || MergeInto(merged, e) == merged + [e];
  }

  lemma {:induction false} CountBeyond(list: seq<TimeEntry>, lo: int)
    requires forall i :: 0 <= i < |list| ==> list[i].time < lo
    ensures CountWithin(list, lo) == 0
  {
    if list != [] {
      CountBeyond(list[..|list| - 1], lo);
    }
  }

  // Anchors ascend, so the last one is the largest.
  lemma AnchorsUpToLast(merged: seq<TimeEntry>, t: int)
    requires AnchorsApart(merged) && t in Times(merged)
    ensures merged != [] && t <= merged[|merged| - 1].time
  {
    MemberTimes(merged, t);
  }

  // A new cluster opens only after every earlier time.
  lemma NewAnchorIsLater(list: seq<TimeEntry>, merged: seq<TimeEntry>, e: TimeEntry)
    requires merged != [] && AnchorsApart(merged) && Covers(Times(merged), Times(list))
    requires forall i :: 0 <= i < |list| ==> list[i].time <= e.time
    requires e.time - merged[|merged| - 1].time > TIME_DIFF_THRESHOLD_MS
    ensures CountWithin(list, e.time) == 0
  {
    forall i | 0 <= i < |list| ensures list[i].time < e.time {
      TimesMember(list, i);
      var w :| w in Times(merged) && w <= list[i].time <= w + TIME_DIFF_THRESHOLD_MS;
      AnchorsUpToLast(merged, w);
    }
    CountBeyond(list, e.time);
  }

  lemma WindowsCountedStep(list: seq<TimeEntry>, merged: seq<TimeEntry>, e: TimeEntry)
    requires merged != [] && AnchorsApart(merged) && WindowsCounted(list, merged)
    requires e.time - merged[|merged| - 1].time > TIME_DIFF_THRESHOLD_MS ==> CountWithin(list, e.time) == 0
    requires merged[|merged| - 1].time <= e.time
    ensures WindowsCounted(list + [e], MergeInto(merged, e))
  {
    var after := MergeInto(merged, e);
    forall i | 0 <= i < |after| ensures after[i].count == CountWithin(list + [e], after[i].time) {
      CountWithinSnoc(list, e, after[i].time);
    }
  }

  lemma AnchorsApartStep(merged: seq<TimeEntry>, e: TimeEntry)
    requires merged != [] && AnchorsApart(merged)
    ensures AnchorsApart(MergeInto(merged, e))
  {
  }

  lemma CoversStep(windows: set<int>, times: set<int>, last: int, t: int)
    requires Covers(windows, times) && last in windows && last <= t
    ensures Covers(windows + if t - last <= TIME_DIFF_THRESHOLD_MS then {} else {t}, times + {t})
  {
    var after := windows + if t - last <= TIME_DIFF_THRESHOLD_MS then {} else {t};
    forall t' | t' in times + {t}
      ensures exists w :: w in after && w <= t' <= w + TIME_DIFF_THRESHOLD_MS
    {
      if t' in times {
        var w :| w in windows && w <= t' <= w + TIME_DIFF_THRESHOLD_MS;
        assert w in after;
      } else if t - last <= TIME_DIFF_THRESHOLD_MS {
        assert last in after;
      } else {
        assert t in after;
      }
    }
  }

  // One turn of the loop keeps the merge property.
  lemma MergeStep(list: seq<TimeEntry>, merged: seq<TimeEntry>, e: TimeEntry)
    requires merged != [] && IsMergeOf(list, merged)
    requires forall i :: 0 <= i < |list| ==> list[i].time <= e.time
    ensures IsMergeOf(list + [e], MergeInto(merged, e))
  {
    var last := merged[|merged| - 1];
    TimesMember(merged, |merged| - 1);
    MemberTimes(list, last.time);
    if e.time - last.time > TIME_DIFF_THRESHOLD_MS {
      NewAnchorIsLater(list, merged, e);
    }
    WindowsCountedStep(list, merged, e);
    TimesOfMergeInto(merged, e);
    Snoc(list, e);
    CoversStep(Times(merged), Times(list), last.time, e.time);
    AnchorsApartStep(merged, e);
  }

  // MergeTimeList: a single pass that compares each time with the first time of the
  // last cluster.
  method MergeTimeList(timeList: seq<TimeEntry>) returns (ok: bool, mergedList: seq<TimeEntry>)
    ensures ok <==> timeList != []
    ensures ok <==> mergedList != []
    ensures ok ==> mergedList[0].time == timeList[0].time
    ensures TotalCount(mergedList) == TotalCount(timeList)
    ensures SortedByTime(timeList) ==> IsMergeOf(timeList, mergedList)
  {
    hide IsMergeOf, TotalCount;
    mergedList := [];
    if timeList == [] {
      MergeOfNone();
      return false, mergedList;
    }
    mergedList := [timeList[0]];
    MergeOfOne(timeList[0]);
    assert timeList[..1] == [timeList[0]];
    var i := 1;
    while i < |timeList|
      invariant 1 <= i <= |timeList|
      invariant mergedList != [] && mergedList[0].time == timeList[0].time
      invariant TotalCount(mergedList) == TotalCount(timeList[..i])
      invariant SortedByTime(timeList) ==> IsMergeOf(timeList[..i], mergedList)
    {
      ghost var before := mergedList;
      var last := |mergedList| - 1;
      var timeDiff := timeList[i].time - mergedList[last].time;
      if timeDiff <= TIME_DIFF_THRESHOLD_MS {
        mergedList := mergedList[last := TimeEntry(mergedList[last].time, mergedList[last].count + timeList[i].count)];
      } else {
        mergedList := mergedList + [timeList[i]];
      }
      assert mergedList == MergeInto(before, timeList[i]);
      assert timeList[..i + 1] == timeList[..i] + [timeList[i]];
      TotalCountStep(timeList[..i], before, timeList[i]);
      if SortedByTime(timeList) {
        MergeStep(timeList[..i], before, timeList[i]);
      }
      i := i + 1;
    }
    assert timeList[..i] == timeList;
    return true, mergedList;
  }

  // ----- sorting a group by time (std::sort) -----

  function InsertByTime(list: seq<TimeEntry>, e: TimeEntry): seq<TimeEntry> {
    if list == [] || list[|list| - 1].time <= e.time then list + [e]
    else InsertByTime(list[..|list| - 1], e) + [list[|list| - 1]]
  }

  function SortByTime(list: seq<TimeEntry>): seq<TimeEntry> {
    if list == [] then [] else InsertByTime(SortByTime(list[..|list| - 1]), list[|list| - 1])
  }

  lemma {:induction false} InsertSorted(list: seq<TimeEntry>, e: TimeEntry)
    requires SortedByTime(list)
    ensures SortedByTime(InsertByTime(list, e))
    ensures forall i :: 0 <= i < |InsertByTime(list, e)| ==>
              InsertByTime(list, e)[i].time <= e.time
              || (list != [] && InsertByTime(list, e)[i].time <= list[|list| - 1].time)
  {
    if list != [] && list[|list| - 1].time > e.time {
      InsertSorted(list[..|list| - 1], e);
    }
  }

  lemma {:induction false} InsertKeeps(list: seq<TimeEntry>, e: TimeEntry)
    ensures Times(InsertByTime(list, e)) == Times(list) + {e.time}
    ensures TotalCount(InsertByTime(list, e)) == TotalCount(list) + e.count
  {
    if list == [] || list[|list| - 1].time <= e.time {
      Snoc(list, e);
    } else {
      var n := |list| - 1;
      InsertKeeps(list[..n], e);
      Snoc(InsertByTime(list[..n], e), list[n]);
    }
  }

  lemma {:induction false} InsertPermutes(list: seq<TimeEntry>, e: TimeEntry)
    ensures multiset(InsertByTime(list, e)) == multiset(list) + multiset{e}
  {
    if list != [] && list[|list| - 1].time > e.time {
      var n := |list| - 1;
      InsertPermutes(list[..n], e);
      assert list == list[..n] + [list[n]];
    }
  }

  lemma {:induction false} SortSorts(list: seq<TimeEntry>)
    ensures SortedByTime(SortByTime(list))
  {
    if list != [] {
      SortSorts(list[..|list| - 1]);
      InsertSorted(SortByTime(list[..|list| - 1]), list[|list| - 1]);
    }
  }

  lemma {:induction false} SortPermutes(list: seq<TimeEntry>)
    ensures multiset(SortByTime(list)) == multiset(list)
  {
    if list != [] {
      var n := |list| - 1;
      SortPermutes(list[..n]);
      InsertPermutes(SortByTime(list[..n]), list[n]);
      assert list == list[..n] + [list[n]];
    }
  }

  lemma {:induction false} SortKeeps(list: seq<TimeEntry>)
    ensures Times(SortByTime(list)) == Times(list) && TotalCount(SortByTime(list)) == TotalCount(list)
  {
    if list != [] {
      SortKeeps(list[..|list| - 1]);
      InsertKeeps(SortByTime(list[..|list| - 1]), list[|list| - 1]);
    }
  }

  // ----- optimality -----

  ghost predicate Separated(s: set<int>) {
    forall a, b :: a in s && b in s && a < b ==> b - a > TIME_DIFF_THRESHOLD_MS
  }

  // n is the largest number of times pairwise more than 200 ms apart.
  ghost predicate IsPackingNumber(times: set<int>, n: int) {
    && (exists s :: s <= times && Separated(s) && |s| == n)
    && (forall s :: s <= times && Separated(s) ==> |s| <= n)
  }

  // n is the smallest number of 200 ms windows that contain all times.
  ghost predicate IsCoverNumber(times: set<int>, n: int) {
    && (exists w :: Covers(w, times) && |w| == n)
    && (forall w :: Covers(w, times) ==> n <= |w|)
  }

  lemma AnElement<T>(s: set<T>) returns (t: T)
    requires s != {}
    ensures t in s
  {
    t :| t in s;
  }

  // No window holds two separated times.
  lemma {:induction false} PackingAtMostCover(s: set<int>, windows: set<int>)
    requires Separated(s) && Covers(windows, s)
    ensures |s| <= |windows|
    decreases s
  {
    if s != {} {
      var t := AnElement(s);
      var w :| w in windows && w <= t <= w + TIME_DIFF_THRESHOLD_MS;
      var rest := s - {t};
      forall t' | t' in rest
        ensures exists w' :: w' in windows - {w} && w' <= t' <= w' + TIME_DIFF_THRESHOLD_MS
      {
        var w' :| w' in windows && w' <= t' <= w' + TIME_DIFF_THRESHOLD_MS;
        assert w' in windows - {w};
      }
      PackingAtMostCover(rest, windows - {w});
    }
  }

  lemma {:induction false} AnchorSet(merged: seq<TimeEntry>)
    requires AnchorsApart(merged)
    ensures Separated(Times(merged)) && |Times(merged)| == |merged|
  {
    if merged != [] {
      var n := |merged| - 1;
      AnchorSet(merged[..n]);
      forall a | a in Times(merged[..n]) ensures merged[n].time - a > TIME_DIFF_THRESHOLD_MS {
        MemberTimes(merged[..n], a);
      }
    }
  }

  // The number of clusters is the largest number of accesses pairwise more than
  // 200 ms apart, and the smallest number of 200 ms windows that cover them all.
  lemma GreedyIsOptimal(list: seq<TimeEntry>, merged: seq<TimeEntry>)
    requires IsMergeOf(list, merged)
    ensures IsPackingNumber(Times(list), |merged|)
    ensures IsCoverNumber(Times(list), |merged|)
  {
    var anchors := Times(merged);
    AnchorSet(merged);
    forall s | s <= Times(list) && Separated(s) ensures |s| <= |merged| {
      PackingAtMostCover(s, anchors);
    }
    forall w | Covers(w, Times(list)) ensures |merged| <= |w| {
      PackingAtMostCover(anchors, w);
    }
  }

  // One more time raises the packing number by 0 or 1.
  lemma PackingAfterInsert(times: set<int>, t: int, n: int, n': int)
    requires IsPackingNumber(times, n) && IsPackingNumber(times + {t}, n')
    ensures n <= n' <= n + 1
  {
    var s :| s <= times && Separated(s) && |s| == n;
    assert s <= times + {t};
    var s' :| s' <= times + {t} && Separated(s') && |s'| == n';
    assert s' - {t} <= times && Separated(s' - {t});
    assert |s' - {t}| >= |s'| - 1;
  }

  function Progression(lo: int, n: nat): set<int> {
    set i | 0 <= i < n :: lo + 201 * i
  }

  lemma {:induction false} ProgressionSize(lo: int, n: nat)
    ensures |Progression(lo, n)| == n
  {
    if n > 0 {
      ProgressionSize(lo, n - 1);
      assert lo + 201 * (n - 1) !in Progression(lo, n - 1);
      assert Progression(lo, n) == Progression(lo, n - 1) + {lo + 201 * (n - 1)};
    }
  }

  lemma {:induction false} SubsetSize<T>(a: set<T>, b: set<T>)
    requires a <= b
    ensures |a| <= |b|
  {
    if a != {} {
      var t :| t in a;
      SubsetSize(a - {t}, b - {t});
    }
  }

  // A progression is apart, so its size is its packing number.
  lemma ProgressionPacking(lo: int, n: nat)
    ensures IsPackingNumber(Progression(lo, n), n)
  {
    var times := Progression(lo, n);
    ProgressionSize(lo, n);
    assert Separated(times) && times <= times;
    forall s | s <= times && Separated(s) ensures |s| <= n {
      SubsetSize(s, times);
    }
  }

  // Times spanning fewer than 201 n milliseconds give a count of at most n.
  lemma PackingBound(times: set<int>, lo: int, n: nat, count: int)
    requires IsPackingNumber(times, count)
    requires forall t :: t in times ==> lo <= t < lo + 201 * n
    ensures count <= n
  {
    var s :| s <= times && Separated(s) && |s| == count;
    forall t | t in s
      ensures exists w :: w in Progression(lo, n) && w <= t <= w + TIME_DIFF_THRESHOLD_MS
    {
      var i := (t - lo) / 201;
      assert lo + 201 * i in Progression(lo, n);
    }
    PackingAtMostCover(s, Progression(lo, n));
    ProgressionSize(lo, n);
  }
}
