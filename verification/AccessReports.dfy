// What the aggregated report depends on, and how one more access changes it.

module AccessReports {
  import opened Sequences
  import opened Text
  import opened GreedyMerge
  import opened AccessRecords
  import opened Tables

  lemma SameHead(a: seq<MinuteGroupKey>, b: seq<MinuteGroupKey>)
    requires Ascending(a) && Ascending(b) && a != [] && b != []
    requires a[0] in b && b[0] in a
    ensures a[0] == b[0]
  {
    if a[0] != b[0] {
      LessTransitive(a[0], b[0], a[0]);
      LessIrreflexive(a[0]);
    }
  }

  lemma InTail(a: seq<MinuteGroupKey>, k: MinuteGroupKey)
    requires Ascending(a) && a != []
    ensures k in a[1..] <==> k in a && k != a[0]
  {
    LessIrreflexive(k);
    assert a == [a[0]] + a[1..];
  }

  lemma {:induction false} AscendingUnique(a: seq<MinuteGroupKey>, b: seq<MinuteGroupKey>)
    requires Ascending(a) && Ascending(b)
    requires forall k :: k in a <==> k in b
    ensures a == b
  {
    assert forall i :: 0 <= i < |a| ==> a[i] in b;
    assert forall i :: 0 <= i < |b| ==> b[i] in a;
    if a != [] && b != [] {
      SameHead(a, b);
      forall k ensures k in a[1..] <==> k in b[1..] {
        InTail(a, k);
        InTail(b, k);
      }
      AscendingUnique(a[1..], b[1..]);
      assert a == [a[0]] + a[1..] && b == [b[0]] + b[1..];
    }
  }

  // A group's summary is determined by the set of its times.
  lemma SummaryUnique(rows: seq<AccessRow>, rows': seq<AccessRow>, key: MinuteGroupKey,
                      info: AccessRecordInfo, info': AccessRecordInfo)
    requires IsSummary(rows, key, info) && IsSummary(rows', key, info')
    requires TimesOf(rows, key) == TimesOf(rows', key)
    ensures info == info'
  {
  }

  // The report depends only on which accesses there are: neither their order nor how
  // often the same millisecond occurs matters.
  lemma SameAccessesSameReport(rows: seq<AccessRow>, rows': seq<AccessRow>,
                               keys: seq<MinuteGroupKey>, keys': seq<MinuteGroupKey>,
                               out: seq<AccessRecordInfo>, out': seq<AccessRecordInfo>)
    requires IsReport(rows, keys, out) && IsReport(rows', keys', out')
    requires forall row :: row in rows <==> row in rows'
    ensures out == out' && keys == keys'
  {
    forall k ensures TimesOf(rows, k) == TimesOf(rows', k) {
      forall t ensures t in TimesOf(rows, k) <==> t in TimesOf(rows', k) {
        TimesOfMember(rows, k, t);
        TimesOfMember(rows', k, t);
      }
    }
    AscendingUnique(keys, keys');
    forall i | 0 <= i < |keys| ensures out[i] == out'[i] {
      SummaryUnique(rows, rows', keys[i], out[i], out'[i]);
    }
  }

  // In particular, the report is the same for every permutation of the accesses.
  lemma OrderIndependence(rows: seq<AccessRow>, rows': seq<AccessRow>,
                          keys: seq<MinuteGroupKey>, keys': seq<MinuteGroupKey>,
                          out: seq<AccessRecordInfo>, out': seq<AccessRecordInfo>)
    requires IsReport(rows, keys, out) && IsReport(rows', keys', out')
    requires multiset(rows) == multiset(rows')
    ensures out == out'
  {
    forall row ensures row in rows <==> row in rows' {
      assert row in rows <==> row in multiset(rows);
      assert row in rows' <==> row in multiset(rows');
    }
    SameAccessesSameReport(rows, rows', keys, keys', out, out');
  }

  // The time text of each record parses back to the group's first access, so the keys
  // can be read off the report.
  lemma KeysOfReport(rows: seq<AccessRow>, keys: seq<MinuteGroupKey>, out: seq<AccessRecordInfo>, i: nat)
    requires IsReport(rows, keys, out) && i < |out|
    requires forall row :: row in rows ==> IsInt64(row.time)
    ensures Parses(out[i]) && IsEarliest(TimesOf(rows, keys[i]), RowOf(out[i]).time)
    ensures KeyOf(RowOf(out[i])) == keys[i]
    ensures out[i].time == ToString(RowOf(out[i]).time)
  {
    var first :| IsEarliest(TimesOf(rows, keys[i]), first) && out[i].time == ToString(first);
    TimesOfMember(rows, keys[i], first);
    StollToString(first);
  }

  // ----- the effect of one more access -----

  // The record of the group that receives an access at time t.
  ghost predicate RecordUpdated(before: AccessRecordInfo, after: AccessRecordInfo, t: int) {
    && Parses(before)
    && after.userId == before.userId && after.bundleName == before.bundleName && after.uid == before.uid
    && after.time == (if t < RowOf(before).time then ToString(t) else before.time)
    && before.count <= after.count <= before.count + 1
  }

  lemma SummaryAfterInsert(rows: seq<AccessRow>, row: AccessRow, before: AccessRecordInfo, after: AccessRecordInfo)
    requires IsSummary(rows, KeyOf(row), before) && IsSummary(rows + [row], KeyOf(row), after)
    requires Parses(before) && IsEarliest(TimesOf(rows, KeyOf(row)), RowOf(before).time)
    requires before.time == ToString(RowOf(before).time)
    ensures RecordUpdated(before, after, row.time)
  {
    var key := KeyOf(row);
    RowSnoc(rows, row, key);
    PackingAfterInsert(TimesOf(rows, key), row.time, before.count, after.count);
    var first := RowOf(before).time;
    assert IsEarliest(TimesOf(rows + [row], key), if row.time < first then row.time else first);
  }

  lemma SummaryOfFirst(rows: seq<AccessRow>, row: AccessRow, info: AccessRecordInfo)
    requires TimesOf(rows, KeyOf(row)) == {} && IsSummary(rows + [row], KeyOf(row), info)
    ensures info == AccessRecordInfo(row.userId, row.bundleName, row.uid, ToString(row.time), 1)
  {
    RowSnoc(rows, row, KeyOf(row));
    var times := {row.time};
    assert times <= times && Separated(times) && |times| == 1;
    forall s | s <= times && Separated(s) ensures |s| <= 1 {
      assert s == {} || s == times;
    }
    assert IsPackingNumber(times, 1);
  }

  lemma SameKeysAfterInsert(rows: seq<AccessRow>, row: AccessRow, keys: seq<MinuteGroupKey>, keys': seq<MinuteGroupKey>)
    requires Ascending(keys) && Ascending(keys')
    requires forall k :: k in keys <==> TimesOf(rows, k) != {}
    requires forall k :: k in keys' <==> TimesOf(rows + [row], k) != {}
    requires KeyOf(row) in keys
    ensures keys' == keys
  {
    forall k ensures k in keys' <==> k in keys {
      RowSnoc(rows, row, k);
    }
    AscendingUnique(keys, keys');
  }

  lemma SameSummaryElsewhere(rows: seq<AccessRow>, row: AccessRow, key: MinuteGroupKey,
                             before: AccessRecordInfo, after: AccessRecordInfo)
    requires IsSummary(rows, key, before) && IsSummary(rows + [row], key, after)
    requires key != KeyOf(row)
    ensures before == after
  {
    RowSnoc(rows, row, key);
    SummaryUnique(rows, rows + [row], key, before, after);
  }

  // An access to a group that is already reported changes that group's record only.
  lemma InsertIntoGroup(rows: seq<AccessRow>, row: AccessRow, keys: seq<MinuteGroupKey>, keys': seq<MinuteGroupKey>,
                        out: seq<AccessRecordInfo>, out': seq<AccessRecordInfo>)
    returns (i: nat)
    requires IsReport(rows, keys, out) && IsReport(rows + [row], keys', out')
    requires forall r :: r in rows ==> IsInt64(r.time)
    requires KeyOf(row) in keys
    ensures keys' == keys && i < |out| && keys[i] == KeyOf(row)
    ensures RecordUpdated(out[i], out'[i], row.time)
    ensures out' == out[i := out'[i]]
  {
    hide IsSummary, IsEarliest, RecordUpdated, Parses;
    SameKeysAfterInsert(rows, row, keys, keys');
    i :| 0 <= i < |keys| && keys[i] == KeyOf(row);
    KeysOfReport(rows, keys, out, i);
    SummaryAfterInsert(rows, row, out[i], out'[i]);
    forall j | 0 <= j < |keys| && j != i ensures out[j] == out'[j] {
      LessIrreflexive(keys[i]);
      SameSummaryElsewhere(rows, row, keys[j], out[j], out'[j]);
    }
  }

  lemma KeysAfterNewGroup(rows: seq<AccessRow>, row: AccessRow, keys: seq<MinuteGroupKey>, keys': seq<MinuteGroupKey>,
                          i: nat)
    requires Ascending(keys) && Ascending(keys')
    requires forall k :: k in keys <==> TimesOf(rows, k) != {}
    requires forall k :: k in keys' <==> TimesOf(rows + [row], k) != {}
    requires KeyOf(row) !in keys && IsLowerBound(keys, KeyOf(row), i)
    ensures keys' == keys[..i] + [KeyOf(row)] + keys[i..]
  {
    var key := KeyOf(row);
    var widened := keys[..i] + [key] + keys[i..];
    LowerBoundFacts(keys, key, i);
    assert keys == keys[..i] + keys[i..];
    forall k ensures k in keys' <==> k in widened {
      RowSnoc(rows, row, k);
      assert k in widened <==> k in keys || k == key;
    }
    AscendingUnique(keys', widened);
  }

  lemma NewGroupIsEmpty(rows: seq<AccessRow>, keys: seq<MinuteGroupKey>, key: MinuteGroupKey)
    requires forall k :: k in keys <==> TimesOf(rows, k) != {}
    requires key !in keys
    ensures TimesOf(rows, key) == {}
  {
  }

  lemma Spliced<T>(a: seq<T>, b: seq<T>, i: nat)
    requires i <= |a| && |b| == |a| + 1
    requires forall j :: 0 <= j < i ==> b[j] == a[j]
    requires forall j :: i <= j < |a| ==> b[j + 1] == a[j]
    ensures b == a[..i] + [b[i]] + a[i..]
  {
  }

  // An access that opens a group adds one record with count 1 at the group's place.
  lemma InsertNewGroup(rows: seq<AccessRow>, row: AccessRow, keys: seq<MinuteGroupKey>, keys': seq<MinuteGroupKey>,
                       out: seq<AccessRecordInfo>, out': seq<AccessRecordInfo>, i: nat)
    requires IsReport(rows, keys, out) && IsReport(rows + [row], keys', out')
    requires KeyOf(row) !in keys && IsLowerBound(keys, KeyOf(row), i)
    ensures keys' == keys[..i] + [KeyOf(row)] + keys[i..]
    ensures out' == out[..i] + [AccessRecordInfo(row.userId, row.bundleName, row.uid, ToString(row.time), 1)] + out[i..]
  {
    hide IsSummary, TimesOf, MinuteGroupKey.Less;
    KeysAfterNewGroup(rows, row, keys, keys', i);
    NewGroupIsEmpty(rows, keys, KeyOf(row));
    SummaryOfFirst(rows, row, out'[i]);
    forall j | 0 <= j < i ensures out'[j] == out[j] {
      SameSummaryElsewhere(rows, row, keys[j], out[j], out'[j]);
    }
    forall j | i <= j < |out| ensures out'[j + 1] == out[j] {
      SameSummaryElsewhere(rows, row, keys[j], out[j], out'[j + 1]);
    }
    Spliced(out, out', i);
  }

  // Every key has a place among the keys before which all are smaller.
  lemma {:induction false} LowerBoundExists(keys: seq<MinuteGroupKey>, key: MinuteGroupKey, from: nat)
    requires from <= |keys| && forall j :: 0 <= j < from ==> keys[j].Less(key)
    ensures exists i: nat :: IsLowerBound(keys, key, i)
    decreases |keys| - from
  {
    if from < |keys| && keys[from].Less(key) {
      LowerBoundExists(keys, key, from + 1);
    } else {
      assert IsLowerBound(keys, key, from);
    }
  }

  lemma ReportShape(rows: seq<AccessRow>, keys: seq<MinuteGroupKey>, out: seq<AccessRecordInfo>)
    requires IsReport(rows, keys, out)
    ensures |out| == |keys|
  {
  }

  // One more access changes a query's report in at most one place: nowhere when the
  // query does not select it; otherwise one record's count rises by 0 or 1 and its time
  // becomes the minimum, or a new record with count 1 appears at its group's place.
  lemma InsertEffect(records: seq<AccessRow>, row: AccessRow, userId: int, bundleName: Str, uid: Str, since: int,
                     keys: seq<MinuteGroupKey>, keys': seq<MinuteGroupKey>,
                     out: seq<AccessRecordInfo>, out': seq<AccessRecordInfo>)
    returns (i: nat)
    requires forall r :: r in records ==> IsInt64(r.time)
    requires IsReport(Select(records, InWindow(userId, bundleName, uid, since)), keys, out)
    requires IsReport(Select(records + [row], InWindow(userId, bundleName, uid, since)), keys', out')
    ensures i <= |out|
    ensures !InWindow(userId, bundleName, uid, since)(row) ==> out' == out
    ensures InWindow(userId, bundleName, uid, since)(row) ==>
              if KeyOf(row) in keys
              then && i < |out| == |out'| && keys[i] == KeyOf(row)
                   && RecordUpdated(out[i], out'[i], row.time) && out' == out[i := out'[i]]
              else var info := AccessRecordInfo(row.userId, row.bundleName, row.uid, ToString(row.time), 1);
                   out' == out[..i] + [info] + out[i..]
  {
    hide IsReport, Select, RecordUpdated, InWindow;
    var query := InWindow(userId, bundleName, uid, since);
    var rows := Select(records, query);
    SelectSnoc(records, row, query);
    ReportShape(rows, keys, out);
    ReportShape(Select(records + [row], query), keys', out');
    forall r | r in rows ensures IsInt64(r.time) {
      SelectMember(records, query, r);
    }
    i := 0;
    if !query(row) {
      assert rows + [] == rows;
      SameAccessesSameReport(rows, rows, keys, keys', out, out');
    } else if KeyOf(row) in keys {
      i := InsertIntoGroup(rows, row, keys, keys', out, out');
    } else {
      LowerBoundExists(keys, KeyOf(row), 0);
      i :| IsLowerBound(keys, KeyOf(row), i);
      InsertNewGroup(rows, row, keys, keys', out, out', i);
    }
  }

  // Every count in a report is at most 299; only the group of minute 0 can exceed that,
  // and only when some time is negative.
  lemma ReportCountBound(rows: seq<AccessRow>, keys: seq<MinuteGroupKey>, out: seq<AccessRecordInfo>, i: nat)
    requires IsReport(rows, keys, out) && i < |out|
    ensures 1 <= out[i].count <= 598
    ensures keys[i].minuteGroup != 0 || (forall row :: row in rows ==> row.time >= 0) ==> out[i].count <= 299
  {
    var times := TimesOf(rows, keys[i]);
    CountBound(rows, keys[i], out[i].count);
    var t :| IsEarliest(times, t) && out[i].time == ToString(t);
    assert {t} <= times && Separated({t});
  }
}
