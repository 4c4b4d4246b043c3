// Grouping access records by minute and counting each group (ProcessAccessRecords).

module AccessRecords {
  import opened Options
  import opened Text
  import opened GreedyMerge

  const ONE_MINUTE_MS: int := 60 * 1000

  // The record that is queried, grouped and sent: its time is decimal text.
  datatype AccessRecordInfo = AccessRecordInfo(userId: int, bundleName: Str, uid: Str, time: Str, count: int)

  // One access: a row of anco_a_record.
  datatype AccessRow = AccessRow(userId: int, bundleName: Str, uid: Str, time: int)

  datatype MinuteGroupKey = MinuteGroupKey(userId: int, bundleName: Str, uid: Str, minuteGroup: int) {
    // operator<
    predicate Less(other: MinuteGroupKey) {
      if userId != other.userId then userId < other.userId
      else if bundleName != other.bundleName then StrLess(bundleName, other.bundleName)
      else if uid != other.uid then StrLess(uid, other.uid)
      else minuteGroup < other.minuteGroup
    }
  }

  // Division of 64-bit integers truncates toward zero.
  function MinuteOf(time: int): int {
    if time >= 0 then time / ONE_MINUTE_MS else -((-time) / ONE_MINUTE_MS)
  }

  function KeyOf(row: AccessRow): MinuteGroupKey {
    MinuteGroupKey(row.userId, row.bundleName, row.uid, MinuteOf(row.time))
  }

  // ----- operator< is a strict total order -----

  lemma LessIrreflexive(a: MinuteGroupKey)
    ensures !a.Less(a)
  {
  }

  lemma LessTransitive(a: MinuteGroupKey, b: MinuteGroupKey, c: MinuteGroupKey)
    requires a.Less(b) && b.Less(c)
    ensures a.Less(c)
  {
    if StrLess(a.bundleName, b.bundleName) && StrLess(b.bundleName, c.bundleName) {
      StrLessTransitive(a.bundleName, b.bundleName, c.bundleName);
      StrLessIrreflexive(a.bundleName);
    }
    if StrLess(a.uid, b.uid) && StrLess(b.uid, c.uid) {
      StrLessTransitive(a.uid, b.uid, c.uid);
      StrLessIrreflexive(a.uid);
    }
    if a.bundleName == c.bundleName && a.bundleName != b.bundleName && StrLess(a.bundleName, b.bundleName) {
      StrLessIrreflexive(a.bundleName);
    }
    if a.uid == c.uid && a.uid != b.uid && StrLess(a.uid, b.uid) {
      StrLessIrreflexive(a.uid);
    }
  }

  // Keys that std::map cannot tell apart are equal.
  lemma LessTotal(a: MinuteGroupKey, b: MinuteGroupKey)
    ensures a.Less(b) || a == b || b.Less(a)
  {
    StrLessTotal(a.bundleName, b.bundleName);
    StrLessTotal(a.uid, b.uid);
  }

  predicate Ascending(keys: seq<MinuteGroupKey>) {
    forall i, j :: 0 <= i < j < |keys| ==> keys[i].Less(keys[j])
  }

  // ----- what a report says about the accesses -----

  // The times of the accesses that belong to one group.
  function TimesOf(rows: seq<AccessRow>, key: MinuteGroupKey): set<int> {
    if rows == [] then {}
    else
      var last := rows[|rows| - 1];
      TimesOf(rows[..|rows| - 1], key) + if KeyOf(last) == key then {last.time} else {}
  }

  predicate IsEarliest(times: set<int>, first: int) {
    first in times && forall t :: t in times ==> first <= t
  }

  // One record for a group: its names, its earliest access, and a count that is both
  // the largest number of its accesses pairwise more than 200 ms apart and the smallest
  // number of 200 ms windows that cover them all.
  ghost predicate IsSummary(rows: seq<AccessRow>, key: MinuteGroupKey, info: AccessRecordInfo) {
    && info.userId == key.userId && info.bundleName == key.bundleName && info.uid == key.uid
    && (exists first :: IsEarliest(TimesOf(rows, key), first) && info.time == ToString(first))
    && IsPackingNumber(TimesOf(rows, key), info.count)
    && IsCoverNumber(TimesOf(rows, key), info.count)
  }

  // One record per non-empty group, in ascending order of the keys.
  ghost predicate IsReport(rows: seq<AccessRow>, keys: seq<MinuteGroupKey>, out: seq<AccessRecordInfo>) {
    && Ascending(keys)
    && (forall k :: k in keys <==> TimesOf(rows, k) != {})
    && |out| == |keys|
    && (forall i :: 0 <= i < |keys| ==> IsSummary(rows, keys[i], out[i]))
  }

  // ----- the ordered map of groups -----

  // std::map<MinuteGroupKey, vector>: lists[i] is the vector of keys[i].
  datatype GroupMap = GroupMap(keys: seq<MinuteGroupKey>, lists: seq<seq<TimeEntry>>)

  function EntriesOf(rows: seq<AccessRow>, key: MinuteGroupKey): seq<TimeEntry> {
    if rows == [] then []
    else
      var last := rows[|rows| - 1];
      EntriesOf(rows[..|rows| - 1], key) + if KeyOf(last) == key then [TimeEntry(last.time, 1)] else []
  }

  function TotalSize(lists: seq<seq<TimeEntry>>): nat {
    if lists == [] then 0 else TotalSize(lists[..|lists| - 1]) + |lists[|lists| - 1]|
  }

  ghost predicate IsGrouping(rows: seq<AccessRow>, groups: GroupMap) {
    && Ascending(groups.keys)
    && (forall k :: k in groups.keys <==> TimesOf(rows, k) != {})
    && |groups.lists| == |groups.keys|
    && (forall i :: 0 <= i < |groups.keys| ==> groups.lists[i] == EntriesOf(rows, groups.keys[i]))
    && TotalSize(groups.lists) == |rows|
  }

  lemma {:induction false} EntriesTimes(rows: seq<AccessRow>, key: MinuteGroupKey)
    ensures Times(EntriesOf(rows, key)) == TimesOf(rows, key)
    ensures EntriesOf(rows, key) == [] <==> TimesOf(rows, key) == {}
    ensures TotalCount(EntriesOf(rows, key)) == |EntriesOf(rows, key)|
  {
    if rows != [] {
      var n := |rows| - 1;
      EntriesTimes(rows[..n], key);
      Snoc(EntriesOf(rows[..n], key), TimeEntry(rows[n].time, 1));
      assert EntriesOf(rows[..n], key) + [] == EntriesOf(rows[..n], key);
    }
  }

  lemma {:induction false} TotalSizeSplit(a: seq<seq<TimeEntry>>, b: seq<seq<TimeEntry>>)
    ensures TotalSize(a + b) == TotalSize(a) + TotalSize(b)
  {
    if b == [] {
      assert a + b == a;
    } else {
      var n := |b| - 1;
      TotalSizeSplit(a, b[..n]);
      assert (a + b)[..|a| + n] == a + b[..n];
    }
  }

  lemma RowSnoc(rows: seq<AccessRow>, row: AccessRow, key: MinuteGroupKey)
    ensures TimesOf(rows + [row], key) == TimesOf(rows, key) + if KeyOf(row) == key then {row.time} else {}
    ensures EntriesOf(rows + [row], key)
         == EntriesOf(rows, key) + if KeyOf(row) == key then [TimeEntry(row.time, 1)] else []
  {
    assert (rows + [row])[..|rows|] == rows;
  }

  // minuteGroups[key].push_back(e), i being the lower bound of key.
  function PushBack(groups: GroupMap, i: nat, key: MinuteGroupKey, e: TimeEntry): GroupMap
    requires i <= |groups.keys| == |groups.lists|
  {
    if i < |groups.keys| && !key.Less(groups.keys[i])
    then groups.(lists := groups.lists[..i] + [groups.lists[i] + [e]] + groups.lists[i + 1..])
    else GroupMap(groups.keys[..i] + [key] + groups.keys[i..], groups.lists[..i] + [[e]] + groups.lists[i..])
  }

  ghost predicate IsLowerBound(keys: seq<MinuteGroupKey>, key: MinuteGroupKey, i: nat) {
    && i <= |keys|
    && (forall j :: 0 <= j < i ==> keys[j].Less(key))
    && (i < |keys| ==> !keys[i].Less(key))
  }

  lemma LowerBoundFacts(keys: seq<MinuteGroupKey>, key: MinuteGroupKey, i: nat)
    requires Ascending(keys) && IsLowerBound(keys, key, i)
    ensures key in keys <==> i < |keys| && keys[i] == key
    ensures i < |keys| && !key.Less(keys[i]) ==> keys[i] == key
    ensures i < |keys| && keys[i] == key ==> !key.Less(keys[i])
    ensures key !in keys ==> Ascending(keys[..i] + [key] + keys[i..])
  {
    LessIrreflexive(key);
    if i < |keys| {
      LessTotal(keys[i], key);
    }
    forall j | i < j < |keys| ensures key.Less(keys[j]) {
      if keys[i] != key {
        LessTransitive(key, keys[i], keys[j]);
      }
    }
  }

  lemma PushBackKeys(rows: seq<AccessRow>, groups: GroupMap, i: nat, row: AccessRow)
    requires IsGrouping(rows, groups) && IsLowerBound(groups.keys, KeyOf(row), i)
    ensures var groups' := PushBack(groups, i, KeyOf(row), TimeEntry(row.time, 1));
            && Ascending(groups'.keys) && |groups'.lists| == |groups'.keys|
            && (forall k :: k in groups'.keys <==> TimesOf(rows + [row], k) != {})
  {
    var key := KeyOf(row);
    LowerBoundFacts(groups.keys, key, i);
    var groups' := PushBack(groups, i, key, TimeEntry(row.time, 1));
    forall k ensures k in groups'.keys <==> TimesOf(rows + [row], k) != {} {
      RowSnoc(rows, row, k);
      assert k in groups'.keys <==> k in groups.keys || k == key;
    }
  }

  // The list of a key that is pushed to grows by the new entry; all others stay.
  lemma PushBackLists(rows: seq<AccessRow>, groups: GroupMap, i: nat, row: AccessRow, j: nat)
    requires IsGrouping(rows, groups) && IsLowerBound(groups.keys, KeyOf(row), i)
    requires j < |PushBack(groups, i, KeyOf(row), TimeEntry(row.time, 1)).keys|
    ensures var groups' := PushBack(groups, i, KeyOf(row), TimeEntry(row.time, 1));
            j < |groups'.lists| && groups'.lists[j] == EntriesOf(rows + [row], groups'.keys[j])
  {
    var key := KeyOf(row);
    LowerBoundFacts(groups.keys, key, i);
    LessIrreflexive(key);
    PushBackKeys(rows, groups, i, row);
    var groups' := PushBack(groups, i, key, TimeEntry(row.time, 1));
    RowSnoc(rows, row, groups'.keys[j]);
    if j < i {
      assert groups'.keys[j].Less(groups'.keys[i]);
    } else if j > i {
      assert groups'.keys[i].Less(groups'.keys[j]);
    } else {
      EntriesTimes(rows, key);
    }
  }

  lemma PushBackSize(groups: GroupMap, i: nat, key: MinuteGroupKey, e: TimeEntry)
    requires i <= |groups.keys| == |groups.lists|
    ensures TotalSize(PushBack(groups, i, key, e).lists) == TotalSize(groups.lists) + 1
  {
    var lists := groups.lists;
    if i < |groups.keys| && !key.Less(groups.keys[i]) {
      assert lists == lists[..i] + [lists[i]] + lists[i + 1..];
      TotalSizeSplit(lists[..i] + [lists[i]], lists[i + 1..]);
      TotalSizeSplit(lists[..i] + [lists[i] + [e]], lists[i + 1..]);
      TotalSizeSplit(lists[..i], [lists[i]]);
      TotalSizeSplit(lists[..i], [lists[i] + [e]]);
    } else {
      assert lists == lists[..i] + lists[i..];
      TotalSizeSplit(lists[..i], lists[i..]);
      TotalSizeSplit(lists[..i] + [[e]], lists[i..]);
      TotalSizeSplit(lists[..i], [[e]]);
    }
  }

  lemma PushBackGroups(rows: seq<AccessRow>, groups: GroupMap, i: nat, row: AccessRow)
    requires IsGrouping(rows, groups) && IsLowerBound(groups.keys, KeyOf(row), i)
    ensures IsGrouping(rows + [row], PushBack(groups, i, KeyOf(row), TimeEntry(row.time, 1)))
  {
    PushBackKeys(rows, groups, i, row);
    forall j | 0 <= j < |PushBack(groups, i, KeyOf(row), TimeEntry(row.time, 1)).keys|
      ensures PushBack(groups, i, KeyOf(row), TimeEntry(row.time, 1)).lists[j]
           == EntriesOf(rows + [row], PushBack(groups, i, KeyOf(row), TimeEntry(row.time, 1)).keys[j])
    {
      PushBackLists(rows, groups, i, row, j);
    }
    PushBackSize(groups, i, KeyOf(row), TimeEntry(row.time, 1));
  }

  // ----- a report, minute by minute -----

  // Minute m begins 60000 m milliseconds after the epoch; truncation toward zero joins the
  // two minutes around the epoch and turns the earlier ones around.
  predicate InMinute(time: int, m: int) {
    if m > 0 then 60000 * m <= time < 60000 * (m + 1)
    else if m == 0 then -60000 < time < 60000
    else 60000 * (m - 1) < time <= 60000 * m
  }

  lemma MinuteInterval(time: int, m: int)
    ensures MinuteOf(time) == m <==> InMinute(time, m)
  {
  }

  // The times of an app's accesses in one minute.
  function MinuteTimes(rows: seq<AccessRow>, userId: int, bundleName: Str, uid: Str, m: int): set<int> {
    set row | row in rows && row.userId == userId && row.bundleName == bundleName && row.uid == uid
              && InMinute(row.time, m)
            :: row.time
  }

  // The earliest of some times, how many of them can be 200 ms apart, and how few windows
  // cover them.
  ghost predicate Summarises(info: AccessRecordInfo, times: set<int>) {
    && (exists first :: first in times && (forall t :: t in times ==> first <= t) && info.time == ToString(first))
    && IsPackingNumber(times, info.count)
    && IsCoverNumber(times, info.count)
  }

  // By user, bundle name, uid and minute, in this order; names by their bytes.
  predicate Before(a: AccessRecordInfo, m: int, b: AccessRecordInfo, n: int) {
    || a.userId < b.userId
    || (a.userId == b.userId && StrBefore(a.bundleName, b.bundleName))
    || (a.userId == b.userId && a.bundleName == b.bundleName && StrBefore(a.uid, b.uid))
    || (a.userId == b.userId && a.bundleName == b.bundleName && a.uid == b.uid && m < n)
  }

  // Record i is that of its app's accesses in minute minutes[i]; every access has its
  // record, and no two records are for the same app and minute.
  ghost predicate IsMinuteReport(rows: seq<AccessRow>, minutes: seq<int>, out: seq<AccessRecordInfo>) {
    && |minutes| == |out|
    && (forall i :: 0 <= i < |out| ==>
          Summarises(out[i], MinuteTimes(rows, out[i].userId, out[i].bundleName, out[i].uid, minutes[i])))
    && (forall row :: row in rows ==>
          exists i :: 0 <= i < |out| && out[i].userId == row.userId && out[i].bundleName == row.bundleName
                      && out[i].uid == row.uid && InMinute(row.time, minutes[i]))
    && (forall i, j :: 0 <= i < j < |out| ==> Before(out[i], minutes[i], out[j], minutes[j]))
  }

  lemma LessMeans(a: MinuteGroupKey, b: MinuteGroupKey, x: AccessRecordInfo, y: AccessRecordInfo)
    requires a.userId == x.userId && a.bundleName == x.bundleName && a.uid == x.uid
    requires b.userId == y.userId && b.bundleName == y.bundleName && b.uid == y.uid
    ensures a.Less(b) <==> Before(x, a.minuteGroup, y, b.minuteGroup)
  {
    StrLessMeans(a.bundleName, b.bundleName);
    StrLessMeans(a.uid, b.uid);
  }

  lemma {:induction false} TimesOfMember(rows: seq<AccessRow>, key: MinuteGroupKey, t: int)
    ensures t in TimesOf(rows, key)
       <==> AccessRow(key.userId, key.bundleName, key.uid, t) in rows && MinuteOf(t) == key.minuteGroup
  {
    if rows != [] {
      var n := |rows| - 1;
      TimesOfMember(rows[..n], key, t);
      assert rows == rows[..n] + [rows[n]];
    }
  }

  lemma GroupIsMinute(rows: seq<AccessRow>, key: MinuteGroupKey)
    ensures TimesOf(rows, key) == MinuteTimes(rows, key.userId, key.bundleName, key.uid, key.minuteGroup)
  {
    forall t
      ensures t in TimesOf(rows, key)
         <==> t in MinuteTimes(rows, key.userId, key.bundleName, key.uid, key.minuteGroup)
    {
      TimesOfMember(rows, key, t);
      MinuteInterval(t, key.minuteGroup);
    }
  }

  lemma RowInGroup(rows: seq<AccessRow>, row: AccessRow)
    requires row in rows
    ensures row.time in TimesOf(rows, KeyOf(row))
  {
    TimesOfMember(rows, KeyOf(row), row.time);
  }

  function MinutesOf(keys: seq<MinuteGroupKey>): seq<int> {
    seq(|keys|, i requires 0 <= i < |keys| => keys[i].minuteGroup)
  }

  // A report has one record for every app and every minute in which it has accesses.
  lemma ReportIsPerMinute(rows: seq<AccessRow>, keys: seq<MinuteGroupKey>, out: seq<AccessRecordInfo>)
    requires IsReport(rows, keys, out)
    ensures IsMinuteReport(rows, MinutesOf(keys), out)
  {
    hide TimesOf, MinuteTimes, IsPackingNumber, IsCoverNumber, Before, InMinute, MinuteOf;
    forall i | 0 <= i < |out|
      ensures Summarises(out[i], MinuteTimes(rows, out[i].userId, out[i].bundleName, out[i].uid, keys[i].minuteGroup))
    {
      GroupIsMinute(rows, keys[i]);
      var first :| IsEarliest(TimesOf(rows, keys[i]), first) && out[i].time == ToString(first);
    }
    forall row | row in rows
      ensures exists i :: 0 <= i < |out| && out[i].userId == row.userId && out[i].bundleName == row.bundleName
                          && out[i].uid == row.uid && InMinute(row.time, MinutesOf(keys)[i])
    {
      RowInGroup(rows, row);
      MinuteInterval(row.time, KeyOf(row).minuteGroup);
      var i :| 0 <= i < |keys| && keys[i] == KeyOf(row);
      assert InMinute(row.time, MinutesOf(keys)[i]);
    }
    forall i, j | 0 <= i < j < |out| ensures Before(out[i], keys[i].minuteGroup, out[j], keys[j].minuteGroup) {
      LessMeans(keys[i], keys[j], out[i], out[j]);
    }
  }

  // ----- ProcessAccessRecords -----

  predicate Parses(info: AccessRecordInfo) {
    Stoll(info.time).Number?
  }

  predicate AllParse(records: seq<AccessRecordInfo>) {
    forall i :: 0 <= i < |records| ==> Parses(records[i])
  }

  // The access a record stands for; meant for records that parse.
  function RowOf(info: AccessRecordInfo): AccessRow {
    AccessRow(info.userId, info.bundleName, info.uid, if Parses(info) then Stoll(info.time).value else 0)
  }

  function RowsOf(records: seq<AccessRecordInfo>): (rows: seq<AccessRow>)
    ensures |rows| == |records|
    ensures forall i, t :: 0 <= i < |records| && Stoll(records[i].time) == Number(t) ==>
              rows[i] == AccessRow(records[i].userId, records[i].bundleName, records[i].uid, t)
  {
    seq(|records|, i requires 0 <= i < |records| => RowOf(records[i]))
  }

  // The position at which std::map finds or inserts a key.
  method LowerBound(keys: seq<MinuteGroupKey>, key: MinuteGroupKey) returns (i: nat)
    ensures IsLowerBound(keys, key, i)
  {
    i := 0;
    while i < |keys| && keys[i].Less(key)
      invariant i <= |keys|
      invariant forall j :: 0 <= j < i ==> keys[j].Less(key)
    {
      i := i + 1;
    }
  }

  // minuteGroups[key].push_back({time, 1})
  method AddRecord(groups: GroupMap, record: AccessRecordInfo, ghost rows: seq<AccessRow>) returns (groups': GroupMap)
    requires Parses(record) && IsGrouping(rows, groups)
    ensures IsGrouping(rows + [RowOf(record)], groups')
  {
    var row := RowOf(record);
    var i := LowerBound(groups.keys, KeyOf(row));
    PushBackGroups(rows, groups, i, row);
    groups' := PushBack(groups, i, KeyOf(row), TimeEntry(row.time, 1));
  }

  lemma EmptyGrouping()
    ensures IsGrouping([], GroupMap([], []))
  {
  }

  // The first loop of ProcessAccessRecords; None is the exception of std::stoll.
  method GroupByMinute(records: seq<AccessRecordInfo>) returns (groups: Option<GroupMap>)
    ensures groups.Some? <==> AllParse(records)
    ensures groups.Some? ==> IsGrouping(RowsOf(records), groups.value)
  {
    hide IsGrouping, RowOf, Parses;
    var minuteGroups := GroupMap([], []);
    EmptyGrouping();
    ghost var rows := RowsOf(records);
    assert rows[..0] == [];
    var n := 0;
    while n < |records|
      invariant n <= |records|
      invariant forall i :: 0 <= i < n ==> Parses(records[i])
      invariant IsGrouping(rows[..n], minuteGroups)
    {
      if !Parses(records[n]) {
        return None;
      }
      minuteGroups := AddRecord(minuteGroups, records[n], rows[..n]);
      assert rows[..n + 1] == rows[..n] + [rows[n]];
      n := n + 1;
    }
    assert rows[..n] == rows;
    return Some(minuteGroups);
  }

  // static_cast<int32_t> of a size.
  function ToInt32(n: nat): int {
    var low := n % 0x1_0000_0000;
    if low < 0x8000_0000 then low else low - 0x1_0000_0000
  }

  method BuildAccessRecordInfo(key: MinuteGroupKey, mergedList: seq<TimeEntry>) returns (info: AccessRecordInfo)
    requires mergedList != []
    ensures info == AccessRecordInfo(key.userId, key.bundleName, key.uid,
                                     ToString(mergedList[0].time), ToInt32(|mergedList|))
  {
    info := AccessRecordInfo(key.userId, key.bundleName, key.uid, ToString(mergedList[0].time), ToInt32(|mergedList|));
  }

  // A group's count is at most 299, and at most 598 in minute 0, where truncation
  // toward zero joins the last negative minute; the 32-bit cast never loses anything.
  lemma CountBound(rows: seq<AccessRow>, key: MinuteGroupKey, count: int)
    requires IsPackingNumber(TimesOf(rows, key), count)
    ensures count <= 598
    ensures key.minuteGroup != 0 || (forall row :: row in rows ==> row.time >= 0) ==> count <= 299
  {
    var times := TimesOf(rows, key);
    var m := key.minuteGroup * ONE_MINUTE_MS;
    forall t | t in times
      ensures m - 59999 <= t <= m + 59999
      ensures m > 0 ==> m <= t
      ensures m < 0 ==> t <= m
      ensures (forall row :: row in rows ==> row.time >= 0) ==> m <= t
    {
      TimesOfMember(rows, key, t);
    }
    if m < 0 {
      PackingBound(times, m - 59999, 299, count);
    } else if m > 0 || (forall row :: row in rows ==> row.time >= 0) {
      PackingBound(times, m, 299, count);
    } else {
      PackingBound(times, -59999, 598, count);
    }
  }

  // The 32-bit cast of the cluster count loses nothing.
  lemma MergedCount(rows: seq<AccessRow>, key: MinuteGroupKey, times: set<int>, n: nat)
    requires times == TimesOf(rows, key) && IsPackingNumber(times, n)
    ensures ToInt32(n) == n
  {
    CountBound(rows, key, n);
  }

  lemma FirstIsEarliest(timeList: seq<TimeEntry>)
    requires SortedByTime(timeList) && timeList != []
    ensures IsEarliest(Times(timeList), timeList[0].time)
  {
    TimesMember(timeList, 0);
    forall t | t in Times(timeList) ensures timeList[0].time <= t {
      MemberTimes(timeList, t);
    }
  }

  lemma SummaryOfMerge(rows: seq<AccessRow>, key: MinuteGroupKey, timeList: seq<TimeEntry>, mergedList: seq<TimeEntry>)
    requires SortedByTime(timeList) && Times(timeList) == TimesOf(rows, key)
    requires timeList != [] && mergedList != [] && mergedList[0].time == timeList[0].time
    requires IsMergeOf(timeList, mergedList)
    ensures IsSummary(rows, key, AccessRecordInfo(key.userId, key.bundleName, key.uid,
                                                  ToString(mergedList[0].time), ToInt32(|mergedList|)))
  {
    assert IsPackingNumber(Times(timeList), ToInt32(|mergedList|))
        && IsCoverNumber(Times(timeList), ToInt32(|mergedList|)) by {
      GreedyIsOptimal(timeList, mergedList);
      MergedCount(rows, key, Times(timeList), |mergedList|);
    }
    assert IsEarliest(Times(timeList), mergedList[0].time) by {
      FirstIsEarliest(timeList);
    }
  }

  // One turn of the second loop: sort, merge, summarise.
  method SummariseGroup(ghost rows: seq<AccessRow>, key: MinuteGroupKey, entries: seq<TimeEntry>)
    returns (info: AccessRecordInfo)
    requires entries == EntriesOf(rows, key) && TimesOf(rows, key) != {}
    ensures IsSummary(rows, key, info)
  {
    var timeList := SortByTime(entries);
    var ok, mergedList := MergeTimeList(timeList);
    EntriesTimes(rows, key);
    SortSorts(entries);
    SortKeeps(entries);
    info := BuildAccessRecordInfo(key, mergedList);
    SummaryOfMerge(rows, key, timeList, mergedList);
  }

  method ProcessAccessRecords(records: seq<AccessRecordInfo>)
    returns (result: Option<seq<AccessRecordInfo>>, ghost keys: seq<MinuteGroupKey>)
    ensures result.Some? <==> AllParse(records)
    ensures result.Some? ==> IsReport(RowsOf(records), keys, result.value)
    ensures result.Some? ==> IsMinuteReport(RowsOf(records), MinutesOf(keys), result.value)
  {
    hide IsSummary, RowOf, Parses, EntriesOf, TotalSize, IsMinuteReport;
    keys := [];
    var grouped := GroupByMinute(records);
    if grouped.None? {
      return None, keys;
    }
    var groups := grouped.value;
    ghost var rows := RowsOf(records);
    var out: seq<AccessRecordInfo> := [];
    var i := 0;
    while i < |groups.keys|
      invariant 0 <= i <= |groups.keys| && |out| == i
      invariant forall j :: 0 <= j < i ==> IsSummary(rows, groups.keys[j], out[j])
    {
      assert groups.keys[i] in groups.keys;
      var info := SummariseGroup(rows, groups.keys[i], groups.lists[i]);
      out := out + [info];
      i := i + 1;
    }
    ReportIsPerMinute(rows, groups.keys, out);
    return Some(out), groups.keys;
  }

  // ----- the bounds are exact -----

  // n accesses of minute 0, 201 ms apart, from its first possible time on.
  function Spread(key: MinuteGroupKey, n: nat): seq<AccessRow> {
    seq(n, i => AccessRow(key.userId, key.bundleName, key.uid, 201 * i - 59999))
  }

  lemma SpreadTimes(key: MinuteGroupKey, n: nat)
    requires key.minuteGroup == 0 && n <= 598
    ensures TimesOf(Spread(key, n), key) == Progression(-59999, n)
  {
    var rows := Spread(key, n);
    forall t ensures t in TimesOf(rows, key) <==> t in Progression(-59999, n) {
      TimesOfMember(rows, key, t);
      if t in Progression(-59999, n) {
        var i :| 0 <= i < n && t == -59999 + 201 * i;
        assert rows[i] == AccessRow(key.userId, key.bundleName, key.uid, t);
      }
    }
  }

  // Both bounds are exact: 299 bounds the counts of every minute except minute 0, whose
  // counts reach 598.
  lemma CountBoundExact(key: MinuteGroupKey)
    ensures (forall rows, count :: IsPackingNumber(TimesOf(rows, key), count) ==> count <= 299)
       <==> key.minuteGroup != 0
    ensures key.minuteGroup == 0 ==> exists rows :: IsPackingNumber(TimesOf(rows, key), 598)
  {
    if key.minuteGroup == 0 {
      SpreadTimes(key, 598);
      ProgressionPacking(-59999, 598);
      assert IsPackingNumber(TimesOf(Spread(key, 598), key), 598);
    } else {
      forall rows, count | IsPackingNumber(TimesOf(rows, key), count) ensures count <= 299 {
        CountBound(rows, key, count);
      }
    }
  }
}
