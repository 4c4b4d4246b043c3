// The two tables as sequences of rows, and the statements that change them.

module Tables {
  import opened Sequences
  import opened Text
  import opened GreedyMerge
  import opened AccessRecords

  const SEVEN_DAYS_MS: int := 7 * 24 * 60 * ONE_MINUTE_MS
  const TEN_DAYS_MS: int := 10 * 24 * 60 * ONE_MINUTE_MS
  const THREE_DAYS_MS: int := 3 * 24 * 60 * ONE_MINUTE_MS
  const MAX_DELETE_COUNT: nat := 100

  datatype SwitchKey = SwitchKey(userId: int, bundleName: Str, uid: Str)

  // A row of anco_s_status; (user_id, bn, uid) is its primary key.
  datatype SwitchRow = SwitchRow(key: SwitchKey, res: int, createTime: int, updateTime: int)

  // ----- anco_s_status -----

  predicate UniqueKeys(rows: seq<SwitchRow>) {
    forall i, j :: 0 <= i < j < |rows| ==> rows[i].key != rows[j].key
  }

  predicate HasRow(rows: seq<SwitchRow>, key: SwitchKey) {
    exists i :: 0 <= i < |rows| && rows[i].key == key
  }

  function UpdateRows(rows: seq<SwitchRow>, key: SwitchKey, status: int, now: int): seq<SwitchRow> {
    if rows == [] then []
    else
      var row := rows[|rows| - 1];
      UpdateRows(rows[..|rows| - 1], key, status, now)
      + [if row.key == key then row.(res := status, updateTime := now) else row]
  }

  // Count, then update or insert.
  function Upsert(rows: seq<SwitchRow>, key: SwitchKey, status: int, now: int): seq<SwitchRow> {
    if HasRow(rows, key) then UpdateRows(rows, key, status, now)
    else rows + [SwitchRow(key, status, now, now)]
  }

  // The rows of a user whose bundle is not in the batch survive a batch delete.
  function KeepSwitch(userId: int, batch: set<Str>): SwitchRow -> bool {
    (row: SwitchRow) => !(row.key.userId == userId && row.key.bundleName in batch)
  }

  function OfQuery(userId: int, bundleName: Str, uid: Str): SwitchRow -> bool {
    (row: SwitchRow) =>
      row.key.userId == userId
      && (bundleName != [] && uid != [] ==> row.key.bundleName == bundleName && row.key.uid == uid)
  }

  // A query with both names asks for their row, any other for all of the user's.
  lemma QuerySelects(rows: seq<SwitchRow>, userId: int, bundleName: Str, uid: Str, row: SwitchRow)
    ensures row in Select(rows, OfQuery(userId, bundleName, uid))
       <==> row in rows && row.key.userId == userId
            && (bundleName == [] || uid == [] || (row.key.bundleName == bundleName && row.key.uid == uid))
  {
    SelectMember(rows, OfQuery(userId, bundleName, uid), row);
  }

  // ----- the table as a map from keys -----

  datatype SwitchEntry = SwitchEntry(status: int, createTime: int, updateTime: int)

  function SwitchMap(rows: seq<SwitchRow>): map<SwitchKey, SwitchEntry> {
    if rows == [] then map[]
    else
      var row := rows[|rows| - 1];
      SwitchMap(rows[..|rows| - 1])[row.key := SwitchEntry(row.res, row.createTime, row.updateTime)]
  }

  function SetEntry(m: map<SwitchKey, SwitchEntry>, key: SwitchKey, status: int, now: int)
    : map<SwitchKey, SwitchEntry>
  {
    m[key := SwitchEntry(status, if key in m then m[key].createTime else now, now)]
  }

  function CleanEntries(m: map<SwitchKey, SwitchEntry>, userId: int, batch: set<Str>): map<SwitchKey, SwitchEntry> {
    map key | key in m && !(key.userId == userId && key.bundleName in batch) :: m[key]
  }

  lemma {:induction false} SwitchMapDomain(rows: seq<SwitchRow>, key: SwitchKey)
    ensures key in SwitchMap(rows) <==> HasRow(rows, key)
  {
    if rows != [] {
      var n := |rows| - 1;
      SwitchMapDomain(rows[..n], key);
      if HasRow(rows[..n], key) {
        var i :| 0 <= i < n && rows[..n][i].key == key;
        assert rows[i].key == key;
      }
      if i :| 0 <= i < n && rows[i].key == key {
        assert rows[..n][i].key == key;
      }
    }
  }

  lemma {:induction false} SwitchMapRow(rows: seq<SwitchRow>, i: nat)
    requires UniqueKeys(rows) && i < |rows|
    ensures rows[i].key in SwitchMap(rows)
    ensures SwitchMap(rows)[rows[i].key] == SwitchEntry(rows[i].res, rows[i].createTime, rows[i].updateTime)
  {
    if i < |rows| - 1 {
      SwitchMapRow(rows[..|rows| - 1], i);
    }
  }

  lemma {:induction false} UpdateKeys(rows: seq<SwitchRow>, key: SwitchKey, status: int, now: int)
    ensures var after := UpdateRows(rows, key, status, now);
            && |after| == |rows|
            && forall i :: 0 <= i < |rows| ==> after[i].key == rows[i].key
  {
    if rows != [] {
      UpdateKeys(rows[..|rows| - 1], key, status, now);
    }
  }

  lemma {:induction false} UpdateRefines(rows: seq<SwitchRow>, key: SwitchKey, status: int, now: int)
    requires UniqueKeys(rows)
    ensures var m := SwitchMap(rows);
            SwitchMap(UpdateRows(rows, key, status, now)) == if key in m then SetEntry(m, key, status, now) else m
  {
    if rows != [] {
      var n := |rows| - 1;
      UpdateRefines(rows[..n], key, status, now);
      var after := UpdateRows(rows, key, status, now);
      assert after[..n] == UpdateRows(rows[..n], key, status, now) by { UpdateKeys(rows[..n], key, status, now); }
      SwitchMapDomain(rows[..n], key);
      SwitchMapDomain(rows[..n], rows[n].key);
    }
  }

  // The upsert keeps keys unique and acts on the table as an assignment acts on a map.
  lemma UpsertRefines(rows: seq<SwitchRow>, key: SwitchKey, status: int, now: int)
    requires UniqueKeys(rows)
    ensures UniqueKeys(Upsert(rows, key, status, now))
    ensures SwitchMap(Upsert(rows, key, status, now)) == SetEntry(SwitchMap(rows), key, status, now)
  {
    SwitchMapDomain(rows, key);
    if HasRow(rows, key) {
      UpdateKeys(rows, key, status, now);
      UpdateRefines(rows, key, status, now);
    } else {
      assert (rows + [SwitchRow(key, status, now, now)])[..|rows|] == rows;
    }
  }

  lemma {:induction false} SelectUnique(rows: seq<SwitchRow>, p: SwitchRow -> bool)
    requires UniqueKeys(rows)
    ensures UniqueKeys(Select(rows, p))
  {
    if rows != [] {
      var n := |rows| - 1;
      var kept := Select(rows[..n], p);
      SelectUnique(rows[..n], p);
      forall i | 0 <= i < |kept| ensures kept[i].key != rows[n].key {
        SelectMember(rows[..n], p, kept[i]);
      }
    }
  }

  lemma CleanEntriesUpdate(m: map<SwitchKey, SwitchEntry>, key: SwitchKey, e: SwitchEntry, userId: int, batch: set<Str>)
    ensures CleanEntries(m[key := e], userId, batch)
         == if key.userId == userId && key.bundleName in batch then CleanEntries(m, userId, batch)
            else CleanEntries(m, userId, batch)[key := e]
  {
  }

  // Deleting a batch of bundles removes exactly their keys from the map.
  lemma {:induction false} CleanRefines(rows: seq<SwitchRow>, userId: int, batch: set<Str>)
    ensures SwitchMap(Select(rows, KeepSwitch(userId, batch))) == CleanEntries(SwitchMap(rows), userId, batch)
  {
    if rows != [] {
      var n := |rows| - 1;
      var kept := Select(rows[..n], KeepSwitch(userId, batch));
      CleanRefines(rows[..n], userId, batch);
      CleanEntriesUpdate(SwitchMap(rows[..n]), rows[n].key,
                         SwitchEntry(rows[n].res, rows[n].createTime, rows[n].updateTime), userId, batch);
      if KeepSwitch(userId, batch)(rows[n]) {
        assert (kept + [rows[n]])[..|kept|] == kept;
      } else {
        assert kept + [] == kept;
      }
    }
  }

  // A query by key returns the one row of that key, if there is one.
  lemma {:induction false} QueryByKey(rows: seq<SwitchRow>, key: SwitchKey)
    requires UniqueKeys(rows) && key.bundleName != [] && key.uid != []
    ensures var found := Select(rows, OfQuery(key.userId, key.bundleName, key.uid));
            && |found| == (if key in SwitchMap(rows) then 1 else 0)
            && (key in SwitchMap(rows) ==> found[0].key == key && found[0].res == SwitchMap(rows)[key].status)
  {
    if rows != [] {
      var n := |rows| - 1;
      QueryByKey(rows[..n], key);
      SwitchMapDomain(rows[..n], rows[n].key);
    }
  }

  // ----- any history of sets and cleanups -----

  datatype SwitchEvent =
    | SetStatus(key: SwitchKey, status: int, now: int, ok: bool)
    | CleanBundles(userId: int, batch: set<Str>)

  function ApplySwitch(rows: seq<SwitchRow>, event: SwitchEvent): seq<SwitchRow> {
    match event
    case SetStatus(key, status, now, ok) => if ok then Upsert(rows, key, status, now) else rows
    case CleanBundles(userId, batch) => Select(rows, KeepSwitch(userId, batch))
  }

  function SwitchTable(history: seq<SwitchEvent>): seq<SwitchRow> {
    if history == [] then []
    else ApplySwitch(SwitchTable(history[..|history| - 1]), history[|history| - 1])
  }

  // The successful sets of a key since it was last cleaned, oldest first.
  function SetsSinceClean(history: seq<SwitchEvent>, key: SwitchKey): seq<(int, int)> {
    if history == [] then []
    else
      var earlier := SetsSinceClean(history[..|history| - 1], key);
      match history[|history| - 1]
      case SetStatus(k, status, now, ok) => if ok && k == key then earlier + [(status, now)] else earlier
      case CleanBundles(userId, batch) =>
        if key.userId == userId && key.bundleName in batch then [] else earlier
  }

  lemma {:induction false} SwitchTableUnique(history: seq<SwitchEvent>)
    ensures UniqueKeys(SwitchTable(history))
  {
    if history != [] {
      var n := |history| - 1;
      var rows := SwitchTable(history[..n]);
      SwitchTableUnique(history[..n]);
      match history[n]
      case SetStatus(k, status, now, ok) => UpsertRefines(rows, k, status, now);
      case CleanBundles(userId, batch) => SelectUnique(rows, KeepSwitch(userId, batch));
    }
  }

  lemma SwitchMapEmpty()
    ensures SwitchMap([]) == map[]
  {
  }

  // After any history the row of a key, of which there is at most one, holds the status
  // and time of the last set since the key was last cleaned, and the time of the first.
  lemma {:induction false} SwitchHistory(history: seq<SwitchEvent>, key: SwitchKey)
    ensures UniqueKeys(SwitchTable(history))
    ensures var sets, m := SetsSinceClean(history, key), SwitchMap(SwitchTable(history));
            && (key in m <==> sets != [])
            && (sets != [] ==> m[key] == SwitchEntry(sets[|sets| - 1].0, sets[0].1, sets[|sets| - 1].1))
  {
    hide SwitchMap, UniqueKeys, Upsert, Select, HasRow;
    SwitchTableUnique(history);
    if history == [] {
      SwitchMapEmpty();
    } else {
      var n := |history| - 1;
      var rows := SwitchTable(history[..n]);
      SwitchTableUnique(history[..n]);
      SwitchHistory(history[..n], key);
      match history[n]
      case SetStatus(k, status, now, ok) => UpsertRefines(rows, k, status, now);
      case CleanBundles(userId, batch) => CleanRefines(rows, userId, batch);
    }
  }

  // ----- anco_a_record -----

  function InWindow(userId: int, bundleName: Str, uid: Str, since: int): AccessRow -> bool {
    (row: AccessRow) =>
      row.userId == userId
      && (bundleName != [] && uid != [] ==> row.bundleName == bundleName && row.uid == uid)
      && row.time >= since
  }

  // What a query asks of an access, with names that count only when both are given.
  predicate Asked(row: AccessRow, userId: int, bundleName: Str, uid: Str, since: int) {
    && row.userId == userId
    && row.time >= since
    && (bundleName == [] || uid == [] || (row.bundleName == bundleName && row.uid == uid))
  }

  lemma InWindowMeans(row: AccessRow, userId: int, bundleName: Str, uid: Str, since: int)
    ensures InWindow(userId, bundleName, uid, since)(row) <==> Asked(row, userId, bundleName, uid, since)
  {
  }

  // The times that one record of a query at time now is about: one app, one minute, the
  // last seven days.
  function AskedTimes(rows: seq<AccessRow>, userId: int, bundleName: Str, uid: Str, now: int,
                      info: AccessRecordInfo, m: int): set<int>
  {
    set row | row in rows && Asked(row, userId, bundleName, uid, now - 604800000)
              && row.bundleName == info.bundleName && row.uid == info.uid && InMinute(row.time, m)
            :: row.time
  }

  // The records answer a query at time now: each is one of the asked user's and apps', not
  // older than seven days, and sums up one minute of what was asked; every access that was
  // asked for has its record.
  ghost predicate Answers(rows: seq<AccessRow>, userId: int, bundleName: Str, uid: Str, now: int,
                          minutes: seq<int>, out: seq<AccessRecordInfo>)
  {
    && |minutes| == |out|
    && (forall i :: 0 <= i < |out| ==>
          && out[i].userId == userId
          && (bundleName != [] && uid != [] ==> out[i].bundleName == bundleName && out[i].uid == uid)
          && Stoll(out[i].time).Number? && Stoll(out[i].time).value >= now - 604800000
          && Summarises(out[i], AskedTimes(rows, userId, bundleName, uid, now, out[i], minutes[i])))
    && (forall row :: row in rows && Asked(row, userId, bundleName, uid, now - 604800000) ==>
          exists i :: 0 <= i < |out| && out[i].bundleName == row.bundleName && out[i].uid == row.uid
                      && InMinute(row.time, minutes[i]))
    && (forall i, j :: 0 <= i < j < |out| ==> Before(out[i], minutes[i], out[j], minutes[j]))
  }

  lemma SelectedAsked(rows: seq<AccessRow>, userId: int, bundleName: Str, uid: Str, since: int, row: AccessRow)
    ensures row in Select(rows, InWindow(userId, bundleName, uid, since))
       <==> row in rows && Asked(row, userId, bundleName, uid, since)
  {
    SelectMember(rows, InWindow(userId, bundleName, uid, since), row);
    InWindowMeans(row, userId, bundleName, uid, since);
  }

  lemma SameElements<T>(a: set<T>, b: set<T>)
    requires forall t :: t in a <==> t in b
    ensures a == b
  {
  }

  lemma RecordAnswers(rows: seq<AccessRow>, userId: int, bundleName: Str, uid: Str, now: int,
                      info: AccessRecordInfo, m: int)
    requires forall row :: row in rows ==> IsInt64(row.time)
    requires var asked := Select(rows, InWindow(userId, bundleName, uid, now - 604800000));
             Summarises(info, MinuteTimes(asked, info.userId, info.bundleName, info.uid, m))
    ensures info.userId == userId
    ensures bundleName != [] && uid != [] ==> info.bundleName == bundleName && info.uid == uid
    ensures Stoll(info.time).Number? && Stoll(info.time).value >= now - 604800000
    ensures Summarises(info, AskedTimes(rows, userId, bundleName, uid, now, info, m))
  {
    hide InMinute, IsPackingNumber, IsCoverNumber, Stoll, ToString, Select;
    var asked := Select(rows, InWindow(userId, bundleName, uid, now - 604800000));
    var times := MinuteTimes(asked, info.userId, info.bundleName, info.uid, m);
    forall row ensures row in asked <==> row in rows && Asked(row, userId, bundleName, uid, now - 604800000) {
      SelectedAsked(rows, userId, bundleName, uid, now - 604800000, row);
    }
    var first :| first in times && (forall t :: t in times ==> first <= t) && info.time == ToString(first);
    var row :| row in asked && row.userId == info.userId && row.bundleName == info.bundleName && row.uid == info.uid
               && InMinute(row.time, m) && row.time == first;
    StollToString(first);
    SameElements(times, AskedTimes(rows, userId, bundleName, uid, now, info, m));
  }

  // A minute-by-minute report of the accesses that a query selects answers the query.
  lemma QueryAnswers(rows: seq<AccessRow>, userId: int, bundleName: Str, uid: Str, now: int,
                     minutes: seq<int>, out: seq<AccessRecordInfo>)
    requires forall row :: row in rows ==> IsInt64(row.time)
    requires IsMinuteReport(Select(rows, InWindow(userId, bundleName, uid, now - SEVEN_DAYS_MS)), minutes, out)
    ensures Answers(rows, userId, bundleName, uid, now, minutes, out)
  {
    hide Summarises, InMinute, InWindow, Select, Before, AskedTimes, MinuteTimes, Stoll, Asked;
    assert SEVEN_DAYS_MS == 604800000;
    forall i | 0 <= i < |out|
      ensures out[i].userId == userId
      ensures bundleName != [] && uid != [] ==> out[i].bundleName == bundleName && out[i].uid == uid
      ensures Stoll(out[i].time).Number? && Stoll(out[i].time).value >= now - 604800000
      ensures Summarises(out[i], AskedTimes(rows, userId, bundleName, uid, now, out[i], minutes[i]))
    {
      RecordAnswers(rows, userId, bundleName, uid, now, out[i], minutes[i]);
    }
    forall row | row in rows && Asked(row, userId, bundleName, uid, now - 604800000)
      ensures exists i :: 0 <= i < |out| && out[i].bundleName == row.bundleName && out[i].uid == row.uid
                          && InMinute(row.time, minutes[i])
    {
      SelectedAsked(rows, userId, bundleName, uid, now - 604800000, row);
    }
  }

  function NotExpired(userId: int, cutoff: int): AccessRow -> bool {
    (row: AccessRow) => !(row.userId == userId && row.time < cutoff)
  }

  datatype Expiry = Expiry(userId: int, now: int)

  function AfterExpiries(rows: seq<AccessRow>, expiries: seq<Expiry>): seq<AccessRow> {
    if expiries == [] then rows
    else
      var last := expiries[|expiries| - 1];
      Select(AfterExpiries(rows, expiries[..|expiries| - 1]), NotExpired(last.userId, last.now - TEN_DAYS_MS))
  }

  // An expiry deletes the user's accesses that are more than ten days old and no others.
  lemma ExpiryDeletes(rows: seq<AccessRow>, userId: int, now: int, row: AccessRow)
    ensures row in AfterExpiries(rows, [Expiry(userId, now)])
       <==> row in rows && (row.userId != userId || row.time >= now - 864000000)
  {
    assert AfterExpiries(rows, [Expiry(userId, now)][..0]) == rows;
    SelectMember(rows, NotExpired(userId, now - TEN_DAYS_MS), row);
  }

  function KeepRecord(userId: int, batch: set<Str>): AccessRow -> bool {
    (row: AccessRow) => !(row.userId == userId && row.bundleName in batch)
  }

  // The query at time now selects the same rows as if the expiries had not run.
  ghost predicate Invisible(rows: seq<AccessRow>, expiries: seq<Expiry>,
                            userId: int, bundleName: Str, uid: Str, now: int)
  {
    var query := InWindow(userId, bundleName, uid, now - SEVEN_DAYS_MS);
    Select(AfterExpiries(rows, expiries), query) == Select(rows, query)
  }

  // Expiry cleanups up to three days after the query's own time are invisible to it.
  lemma {:induction false} ExpiryInvisible(rows: seq<AccessRow>, expiries: seq<Expiry>,
                                           userId: int, bundleName: Str, uid: Str, now: int)
    requires forall e :: e in expiries ==> e.now <= now + THREE_DAYS_MS
    ensures Invisible(rows, expiries, userId, bundleName, uid, now)
  {
    if expiries != [] {
      var n := |expiries| - 1;
      assert expiries == expiries[..n] + [expiries[n]];
      ExpiryInvisible(rows, expiries[..n], userId, bundleName, uid, now);
      SelectAfterDelete(AfterExpiries(rows, expiries[..n]),
                        NotExpired(expiries[n].userId, expiries[n].now - TEN_DAYS_MS),
                        InWindow(userId, bundleName, uid, now - SEVEN_DAYS_MS));
    }
  }

  // Three days is exact: a later cleanup of the same user can remove an access that the
  // query would have selected.
  lemma ExpiryBoundExact(userId: int, bundleName: Str, uid: Str, now: int, expiryTime: int)
    ensures (forall rows :: Invisible(rows, [Expiry(userId, expiryTime)], userId, bundleName, uid, now))
       <==> expiryTime <= now + THREE_DAYS_MS
  {
    var expiries := [Expiry(userId, expiryTime)];
    if expiryTime <= now + THREE_DAYS_MS {
      forall rows ensures Invisible(rows, expiries, userId, bundleName, uid, now) {
        ExpiryInvisible(rows, expiries, userId, bundleName, uid, now);
      }
    } else {
      var row := AccessRow(userId, bundleName, uid, expiryTime - TEN_DAYS_MS - 1);
      var rows := [row];
      assert AfterExpiries(rows, expiries[..0]) == rows;
      SelectOne(row, NotExpired(userId, expiryTime - TEN_DAYS_MS));
      SelectOne(row, InWindow(userId, bundleName, uid, now - SEVEN_DAYS_MS));
      assert !Invisible(rows, expiries, userId, bundleName, uid, now);
    }
  }
}
