// OaidRdbManager: the object that owns the two tables, and its cleanup passes.
// The SQL engine's verdicts, the clock and the installed-bundle test are parameters.

module RdbManager {
  import opened ErrorCodes
  import opened Sequences
  import opened Text
  import opened AccessRecords
  import opened AccessReports
  import opened Tables

  datatype AncoSwitchStatusInfo = AncoSwitchStatusInfo(userId: int, bundleName: Str, uid: Str, status: int)

  datatype Database = Database(switches: seq<SwitchRow>, records: seq<AccessRow>)

  // ----- BuildBatchDeleteSql -----

  datatype SqlValue = IntValue(n: int) | TextValue(s: Str)

  datatype SqlStatement = SqlStatement(sql: string, args: seq<SqlValue>)

  function Placeholders(sql: string): nat {
    if sql == "" then 0 else Placeholders(sql[..|sql| - 1]) + if sql[|sql| - 1] == '?' then 1 else 0
  }

  lemma {:induction false} PlaceholdersConcat(a: string, b: string)
    ensures Placeholders(a + b) == Placeholders(a) + Placeholders(b)
  {
    if b == "" {
      assert a + b == a;
    } else {
      PlaceholdersConcat(a, b[..|b| - 1]);
      assert (a + b)[..|a + b| - 1] == a + b[..|b| - 1];
    }
  }

  function NameSet(names: seq<Str>): set<Str> {
    if names == [] then {} else NameSet(names[..|names| - 1]) + {names[|names| - 1]}
  }

  function TextArgs(names: seq<Str>): seq<SqlValue> {
    if names == [] then [] else TextArgs(names[..|names| - 1]) + [TextValue(names[|names| - 1])]
  }

  // "?, ?, ..., ?"
  function PlaceholderList(n: nat): string {
    if n == 0 then "" else if n == 1 then "?" else PlaceholderList(n - 1) + ", " + "?"
  }

  lemma OneMark()
    ensures Placeholders("?") == 1 && Placeholders(", ") == 0
  {
    assert "?"[..0] == "" && ", "[..1] == "," && ","[..0] == "";
  }

  lemma {:induction false} PlaceholderListCount(n: nat)
    ensures Placeholders(PlaceholderList(n)) == n
  {
    OneMark();
    if n > 1 {
      PlaceholderListCount(n - 1);
      PlaceholdersConcat(PlaceholderList(n - 1), ", ");
      PlaceholdersConcat(PlaceholderList(n - 1) + ", ", "?");
    }
  }

  const DELETE_HEAD: string := "DELETE FROM "
  const DELETE_WHERE: string := " WHERE user_id = ? AND bn IN ("

  // The statement deletes by the user and the listed names, and binds exactly one
  // argument to every placeholder.
  method BuildBatchDeleteSql(userId: int, tableName: string, bundleNames: seq<Str>) returns (st: SqlStatement)
    ensures st.args == [IntValue(userId)] + TextArgs(bundleNames)
    ensures st.sql == DELETE_HEAD + tableName + DELETE_WHERE + PlaceholderList(|bundleNames|) + ")"
  {
    var sql := DELETE_HEAD + tableName + DELETE_WHERE;
    ghost var head := sql;
    var args := [IntValue(userId)];
    var i := 0;
    while i < |bundleNames|
      invariant i <= |bundleNames|
      invariant sql == head + PlaceholderList(i)
      invariant args == [IntValue(userId)] + TextArgs(bundleNames[..i])
    {
      if i > 0 {
        sql := sql + ", ";
      }
      sql := sql + "?";
      args := args + [TextValue(bundleNames[i])];
      assert bundleNames[..i + 1][..i] == bundleNames[..i];
      i := i + 1;
    }
    assert bundleNames[..i] == bundleNames;
    return SqlStatement(sql + ")", args);
  }

  lemma {:induction false} TextArgsLength(names: seq<Str>)
    ensures |TextArgs(names)| == |names|
  {
    if names != [] {
      TextArgsLength(names[..|names| - 1]);
    }
  }

  lemma {:induction false} NoMarks(s: string)
    requires '?' !in s
    ensures Placeholders(s) == 0
  {
    if s != "" {
      NoMarks(s[..|s| - 1]);
    }
  }

  lemma FixedTextCounts()
    ensures Placeholders(DELETE_HEAD) == 0 && Placeholders(DELETE_WHERE) == 1 && Placeholders(")") == 0
  {
    NoMarks(DELETE_HEAD);
    NoMarks(")");
    assert DELETE_WHERE == " WHERE user_id = " + "?" + " AND bn IN (";
    PlaceholdersConcat(" WHERE user_id = " + "?", " AND bn IN (");
    PlaceholdersConcat(" WHERE user_id = ", "?");
    NoMarks(" WHERE user_id = ");
    NoMarks(" AND bn IN (");
    OneMark();
  }

  // As many placeholders as arguments, for a table name without a placeholder.
  lemma PlaceholdersMatchArguments(userId: int, tableName: string, bundleNames: seq<Str>, st: SqlStatement)
    requires st.args == [IntValue(userId)] + TextArgs(bundleNames)
    requires st.sql == DELETE_HEAD + tableName + DELETE_WHERE + PlaceholderList(|bundleNames|) + ")"
    requires Placeholders(tableName) == 0
    ensures Placeholders(st.sql) == |st.args|
  {
    var n := |bundleNames|;
    TextArgsLength(bundleNames);
    PlaceholderListCount(n);
    FixedTextCounts();
    PlaceholdersConcat(DELETE_HEAD, tableName);
    PlaceholdersConcat(DELETE_HEAD + tableName, DELETE_WHERE);
    PlaceholdersConcat(DELETE_HEAD + tableName + DELETE_WHERE, PlaceholderList(n));
    PlaceholdersConcat(DELETE_HEAD + tableName + DELETE_WHERE + PlaceholderList(n), ")");
  }

  // ----- bundle names of a user -----

  function SwitchNames(rows: seq<SwitchRow>, userId: int): set<Str> {
    if rows == [] then {}
    else
      var row := rows[|rows| - 1];
      SwitchNames(rows[..|rows| - 1], userId) + if row.key.userId == userId then {row.key.bundleName} else {}
  }

  function RecordNames(rows: seq<AccessRow>, userId: int): set<Str> {
    if rows == [] then {}
    else
      var row := rows[|rows| - 1];
      RecordNames(rows[..|rows| - 1], userId) + if row.userId == userId then {row.bundleName} else {}
  }

  function BundleNames(db: Database, userId: int): set<Str> {
    SwitchNames(db.switches, userId) + RecordNames(db.records, userId)
  }

  lemma {:induction false} SwitchNamesMember(rows: seq<SwitchRow>, userId: int, name: Str)
    ensures name in SwitchNames(rows, userId)
       <==> exists row :: row in rows && row.key.userId == userId && row.key.bundleName == name
  {
    if rows != [] {
      var n := |rows| - 1;
      SwitchNamesMember(rows[..n], userId, name);
      assert rows == rows[..n] + [rows[n]];
      assert rows[n] in rows;
    }
  }

  lemma {:induction false} RecordNamesMember(rows: seq<AccessRow>, userId: int, name: Str)
    ensures name in RecordNames(rows, userId)
       <==> exists row :: row in rows && row.userId == userId && row.bundleName == name
  {
    if rows != [] {
      var n := |rows| - 1;
      RecordNamesMember(rows[..n], userId, name);
      assert rows == rows[..n] + [rows[n]];
      assert rows[n] in rows;
    }
  }

  // A name is one of a user's if and only if a row of the user in either table carries it.
  lemma BundleNamesMember(db: Database, userId: int, name: Str)
    ensures name in BundleNames(db, userId)
       <==> || (exists row :: row in db.switches && row.key.userId == userId && row.key.bundleName == name)
            || (exists row :: row in db.records && row.userId == userId && row.bundleName == name)
  {
    SwitchNamesMember(db.switches, userId, name);
    RecordNamesMember(db.records, userId, name);
  }

  // ----- what the queries return -----

  function StatusInfo(row: SwitchRow): AncoSwitchStatusInfo {
    AncoSwitchStatusInfo(row.key.userId, row.key.bundleName, row.key.uid, row.res)
  }

  function StatusInfos(rows: seq<SwitchRow>): seq<AncoSwitchStatusInfo> {
    if rows == [] then [] else StatusInfos(rows[..|rows| - 1]) + [StatusInfo(rows[|rows| - 1])]
  }

  function InfoOf(row: AccessRow): AccessRecordInfo {
    AccessRecordInfo(row.userId, row.bundleName, row.uid, ToString(row.time), 1)
  }

  lemma InfoOfRow(row: AccessRow)
    requires IsInt64(row.time)
    ensures Parses(InfoOf(row)) && RowOf(InfoOf(row)) == row
  {
    StollToString(row.time);
  }

  function InfosOf(rows: seq<AccessRow>): seq<AccessRecordInfo> {
    if rows == [] then [] else InfosOf(rows[..|rows| - 1]) + [InfoOf(rows[|rows| - 1])]
  }

  // The records of a query parse back to its rows.
  lemma {:induction false} InfosOfRows(rows: seq<AccessRow>)
    requires forall row :: row in rows ==> IsInt64(row.time)
    ensures AllParse(InfosOf(rows)) && RowsOf(InfosOf(rows)) == rows
  {
    hide Parses, RowOf, InfoOf;
    if rows != [] {
      var n := |rows| - 1;
      assert rows == rows[..n] + [rows[n]];
      InfosOfRows(rows[..n]);
      InfoOfRow(rows[n]);
    }
  }

  lemma {:induction false} InfosAt(rows: seq<AccessRow>, i: nat)
    requires i < |rows|
    ensures |InfosOf(rows)| == |rows|
    ensures InfosOf(rows)[i]
         == AccessRecordInfo(rows[i].userId, rows[i].bundleName, rows[i].uid, ToString(rows[i].time), 1)
  {
    if |rows| > 1 {
      var n := |rows| - 1;
      InfosAt(rows[..n], if i < n then i else 0);
    }
  }

  lemma {:induction false} StatusInfosAt(rows: seq<SwitchRow>, i: nat)
    requires i < |rows|
    ensures |StatusInfos(rows)| == |rows|
    ensures StatusInfos(rows)[i]
         == AncoSwitchStatusInfo(rows[i].key.userId, rows[i].key.bundleName, rows[i].key.uid, rows[i].res)
  {
    if |rows| > 1 {
      var n := |rows| - 1;
      StatusInfosAt(rows[..n], if i < n then i else 0);
    }
  }

  lemma EmptyReport(keys: seq<MinuteGroupKey>, out: seq<AccessRecordInfo>)
    requires IsReport([], keys, out)
    ensures out == []
  {
    AscendingUnique(keys, []);
  }

  predicate Distinct(names: seq<Str>) {
    forall i, j :: 0 <= i < j < |names| ==> names[i] != names[j]
  }

  lemma {:induction false} NameSetMember(names: seq<Str>, name: Str)
    ensures name in NameSet(names) <==> name in names
  {
    if names != [] {
      var n := |names| - 1;
      NameSetMember(names[..n], name);
      assert names == names[..n] + [names[n]];
    }
  }

  lemma DistinctSnoc(names: seq<Str>, name: Str)
    requires Distinct(names) && name !in names
    ensures Distinct(names + [name])
  {
  }

  method AddName(names: seq<Str>, name: Str) returns (names': seq<Str>)
    requires Distinct(names)
    ensures Distinct(names') && NameSet(names') == NameSet(names) + {name}
  {
    hide Distinct;
    NameSetMember(names, name);
    if name in names {
      return names;
    }
    DistinctSnoc(names, name);
    names' := names + [name];
    assert names'[..|names|] == names;
  }

  // ----- picking a batch -----

  function Uninstalled(db: Database, userId: int, installed: set<Str>): set<Str> {
    BundleNames(db, userId) - installed
  }

  function Min(a: int, b: int): int {
    if a < b then a else b
  }

  ghost predicate IsBatch(candidates: set<Str>, batch: set<Str>) {
    batch <= candidates && |batch| == Min(|candidates|, MAX_DELETE_COUNT)
  }

  lemma NotSeen(names: seq<Str>, i: nat)
    requires Distinct(names) && i < |names|
    ensures names[i] !in NameSet(names[..i])
  {
    NameSetMember(names[..i], names[i]);
  }

  lemma NewCandidate(seen: set<Str>, name: Str, installed: set<Str>)
    requires name !in seen
    ensures |seen + {name} - installed| == |seen - installed| + if name in installed then 0 else 1
  {
    if name in installed {
      assert seen + {name} - installed == seen - installed;
    } else {
      assert seen + {name} - installed == (seen - installed) + {name};
    }
  }

  method PickUninstalled(names: seq<Str>, installed: set<Str>) returns (picked: seq<Str>)
    requires Distinct(names)
    ensures IsBatch(NameSet(names) - installed, NameSet(picked))
    ensures picked == [] <==> NameSet(picked) == {}
  {
    hide Distinct;
    picked := [];
    var i := 0;
    while i < |names|
      invariant i <= |names|
      invariant NameSet(picked) <= NameSet(names[..i]) - installed
      invariant |NameSet(picked)| == |picked| == Min(|NameSet(names[..i]) - installed|, MAX_DELETE_COUNT)
    {
      var name := names[i];
      assert names[..i + 1][..i] == names[..i];
      NotSeen(names, i);
      NewCandidate(NameSet(names[..i]), name, installed);
      if |picked| < MAX_DELETE_COUNT && name !in installed {
        assert (picked + [name])[..|picked|] == picked;
        picked := picked + [name];
      }
      i := i + 1;
    }
    assert names[..i] == names;
  }

  function BoundNames(args: seq<SqlValue>): set<Str> {
    if args == [] then {}
    else
      BoundNames(args[..|args| - 1])
      + match args[|args| - 1] case TextValue(s) => {s} case IntValue(_) => {}
  }

  // The names that a batch delete binds are the names it was built from.
  lemma {:induction false} BoundNamesOfArgs(first: SqlValue, names: seq<Str>)
    requires first.IntValue?
    ensures BoundNames([first] + TextArgs(names)) == NameSet(names)
  {
    if names == [] {
      assert [first] + TextArgs(names) == [first];
      assert BoundNames([first][..0]) == {};
    } else {
      var n := |names| - 1;
      BoundNamesOfArgs(first, names[..n]);
      var args := [first] + TextArgs(names);
      assert args[..|args| - 1] == [first] + TextArgs(names[..n]);
    }
  }

  function AfterPass(db: Database, userId: int, batch: set<Str>): Database {
    Database(Select(db.switches, KeepSwitch(userId, batch)), Select(db.records, KeepRecord(userId, batch)))
  }

  // A pass deletes the user's rows of the batch's bundles, and no others.
  ghost predicate PassDeletes(db: Database, userId: int, batch: set<Str>) {
    var after := AfterPass(db, userId, batch);
    && (forall row :: row in after.switches <==>
          row in db.switches && (row.key.userId != userId || row.key.bundleName !in batch))
    && (forall row :: row in after.records <==>
          row in db.records && (row.userId != userId || row.bundleName !in batch))
  }

  lemma PassKeepsRest(db: Database, userId: int, batch: set<Str>)
    ensures PassDeletes(db, userId, batch)
  {
    hide Select;
    var after := AfterPass(db, userId, batch);
    forall row
      ensures row in after.switches
         <==> row in db.switches && (row.key.userId != userId || row.key.bundleName !in batch)
    {
      SelectMember(db.switches, KeepSwitch(userId, batch), row);
    }
    forall row
      ensures row in after.records <==> row in db.records && (row.userId != userId || row.bundleName !in batch)
    {
      SelectMember(db.records, KeepRecord(userId, batch), row);
    }
  }

  lemma AfterEmptyPass(db: Database, userId: int)
    ensures AfterPass(db, userId, {}) == db
  {
    SelectAll(db.switches, KeepSwitch(userId, {}));
    SelectAll(db.records, KeepRecord(userId, {}));
  }

  // The record is that of a row which the query asks for.
  predicate IsStatusOf(info: AncoSwitchStatusInfo, row: SwitchRow, userId: int, bundleName: Str, uid: Str) {
    && row.key.userId == userId
    && (bundleName != [] && uid != [] ==> row.key.bundleName == bundleName && row.key.uid == uid)
    && info.userId == row.key.userId && info.bundleName == row.key.bundleName && info.uid == row.key.uid
    && info.status == row.res
  }

  lemma {:induction false} StatusInfosLength(rows: seq<SwitchRow>)
    ensures |StatusInfos(rows)| == |rows|
  {
    if rows != [] {
      StatusInfosLength(rows[..|rows| - 1]);
    }
  }

  lemma StatusAnswers(switches: seq<SwitchRow>, userId: int, bundleName: Str, uid: Str)
    ensures var result := StatusInfos(Select(switches, OfQuery(userId, bundleName, uid)));
            && (forall info :: info in result ==>
                  exists row :: row in switches && IsStatusOf(info, row, userId, bundleName, uid))
            && (forall row :: row in switches && row.key.userId == userId
                              && (bundleName == [] || uid == []
                                  || (row.key.bundleName == bundleName && row.key.uid == uid)) ==>
                  AncoSwitchStatusInfo(userId, row.key.bundleName, row.key.uid, row.res) in result)
  {
    hide Select, OfQuery, StatusInfo;
    var rows := Select(switches, OfQuery(userId, bundleName, uid));
    var result := StatusInfos(rows);
    forall info | info in result
      ensures exists row :: row in switches && IsStatusOf(info, row, userId, bundleName, uid)
    {
      var i :| 0 <= i < |result| && result[i] == info;
      StatusInfosLength(rows);
      StatusInfosAt(rows, i);
      QuerySelects(switches, userId, bundleName, uid, rows[i]);
      assert rows[i] in switches && IsStatusOf(info, rows[i], userId, bundleName, uid);
    }
    forall row | row in switches && row.key.userId == userId
                 && (bundleName == [] || uid == [] || (row.key.bundleName == bundleName && row.key.uid == uid))
      ensures AncoSwitchStatusInfo(userId, row.key.bundleName, row.key.uid, row.res) in result
    {
      QuerySelects(switches, userId, bundleName, uid, row);
      var i :| 0 <= i < |rows| && rows[i] == row;
      StatusInfosAt(rows, i);
    }
  }

  // ----- the object -----

  class OaidRdbManager {
    var isOpen: bool
    var switches: seq<SwitchRow>
    var records: seq<AccessRow>

    ghost predicate Valid()
      reads this
    {
      && UniqueKeys(switches)
      && (forall row :: row in records ==> IsInt64(row.time))
    }

    function Contents(): Database
      reads this
    {
      Database(switches, records)
    }

    constructor ()
      ensures Valid() && !isOpen && Contents() == Database([], [])
    {
      isOpen, switches, records := false, [], [];
    }

    // Opens the store; one that cannot be opened is deleted and recreated empty. The
    // recreation may report an error and still hand out a store, which then stays set.
    method Init(openOk: bool, recreateOk: bool, handedOut: bool) returns (err: int)
      requires Valid()
      modifies this
      ensures Valid()
      ensures err == if old(isOpen) || openOk || (recreateOk && handedOut) then ERR_OK else ERR_DB_CONNECT_FAILED
      ensures isOpen == (old(isOpen) || openOk || handedOut)
      ensures Contents() == if old(isOpen) || openOk then old(Contents()) else Database([], [])
    {
      if isOpen {
        return ERR_OK;
      }
      isOpen := openOk;
      if !isOpen {
        switches, records := [], [];
        isOpen := handedOut;
        if !recreateOk || !isOpen {
          return ERR_DB_CONNECT_FAILED;
        }
      }
      return ERR_OK;
    }

    // Count decides between update and insert; a failing statement changes nothing.
    method InsertOrReplaceSwitchStatus(userId: int, bundleName: Str, uid: Str, status: int,
                                       now: int, countOk: bool, writeOk: bool) returns (err: int)
      requires Valid()
      modifies this`switches
      ensures Valid()
      ensures err == (if isOpen && countOk && writeOk then ERR_OK else ERR_DB_CONNECT_FAILED)
      ensures SwitchMap(switches)
           == if err == ERR_OK then SetEntry(SwitchMap(old(switches)), SwitchKey(userId, bundleName, uid), status, now)
              else SwitchMap(old(switches))
      ensures switches == if err == ERR_OK then Upsert(old(switches), SwitchKey(userId, bundleName, uid), status, now)
                          else old(switches)
    {
      if !isOpen || !countOk {
        return ERR_DB_CONNECT_FAILED;
      }
      var key := SwitchKey(userId, bundleName, uid);
      var found := HasRow(switches, key);
      if !writeOk {
        return ERR_DB_CONNECT_FAILED;
      }
      UpsertRefines(switches, key, status, now);
      if found {
        switches := UpdateRows(switches, key, status, now);
      } else {
        switches := switches + [SwitchRow(key, status, now, now)];
      }
      return ERR_OK;
    }

    method QuerySwitchStatus(userId: int, bundleName: Str, uid: Str, queryOk: bool)
      returns (result: seq<AncoSwitchStatusInfo>)
      ensures result
           == if isOpen && queryOk then StatusInfos(Select(switches, OfQuery(userId, bundleName, uid))) else []
      ensures forall info :: info in result ==>
                exists row :: row in switches && IsStatusOf(info, row, userId, bundleName, uid)
      ensures isOpen && queryOk ==>
                forall row :: row in switches && row.key.userId == userId
                              && (bundleName == [] || uid == []
                                  || (row.key.bundleName == bundleName && row.key.uid == uid)) ==>
                  AncoSwitchStatusInfo(userId, row.key.bundleName, row.key.uid, row.res) in result
    {
      result := [];
      if !isOpen || !queryOk {
        return;
      }
      var rows := Select(switches, OfQuery(userId, bundleName, uid));
      var i := 0;
      while i < |rows|
        invariant i <= |rows| && result == StatusInfos(rows[..i])
      {
        assert rows[..i + 1][..i] == rows[..i];
        result := result + [StatusInfo(rows[i])];
        i := i + 1;
      }
      assert rows[..i] == rows;
      StatusAnswers(switches, userId, bundleName, uid);
    }

    method InsertAccessRecord(userId: int, bundleName: Str, uid: Str, now: int, insertOk: bool) returns (err: int)
      requires Valid() && IsInt64(now)
      modifies this`records
      ensures Valid()
      ensures err == (if isOpen && insertOk then ERR_OK else ERR_DB_CONNECT_FAILED)
      ensures records == old(records) + if err == ERR_OK then [AccessRow(userId, bundleName, uid, now)] else []
    {
      if !isOpen || !insertOk {
        return ERR_DB_CONNECT_FAILED;
      }
      records := records + [AccessRow(userId, bundleName, uid, now)];
      return ERR_OK;
    }

    // One record per selected row: its names, the text of its time, and count 1.
    method QueryAccessRecordsFromDatabase(userId: int, bundleName: Str, uid: Str, sevenDaysAgo: int, queryOk: bool)
      returns (result: seq<AccessRecordInfo>)
      requires Valid()
      ensures var rows := if queryOk then Select(records, InWindow(userId, bundleName, uid, sevenDaysAgo)) else [];
              result == InfosOf(rows) && AllParse(result) && RowsOf(result) == rows
      ensures forall i :: 0 <= i < |result| ==>
                var row := RowsOf(result)[i];
                && row in records && Asked(row, userId, bundleName, uid, sevenDaysAgo)
                && result[i] == AccessRecordInfo(row.userId, row.bundleName, row.uid, ToString(row.time), 1)
      ensures queryOk ==>
                forall row :: row in records && Asked(row, userId, bundleName, uid, sevenDaysAgo) ==>
                  row in RowsOf(result)
    {
      hide Parses, RowOf, Select;
      result := [];
      InfosOfRows([]);
      if !queryOk {
        return;
      }
      var query := InWindow(userId, bundleName, uid, sevenDaysAgo);
      var rows := Select(records, query);
      forall row | row in rows ensures IsInt64(row.time) {
        SelectMember(records, query, row);
      }
      var i := 0;
      while i < |rows|
        invariant i <= |rows| && result == InfosOf(rows[..i])
      {
        assert rows[..i + 1][..i] == rows[..i];
        var row := rows[i];
        result := result + [AccessRecordInfo(row.userId, row.bundleName, row.uid, ToString(row.time), 1)];
        i := i + 1;
      }
      assert rows[..i] == rows;
      InfosOfRows(rows);
      forall row ensures row in rows <==> row in records && Asked(row, userId, bundleName, uid, sevenDaysAgo) {
        SelectedAsked(records, userId, bundleName, uid, sevenDaysAgo, row);
      }
      forall j | 0 <= j < |rows|
        ensures result[j]
             == AccessRecordInfo(rows[j].userId, rows[j].bundleName, rows[j].uid, ToString(rows[j].time), 1)
      {
        InfosAt(rows, j);
      }
    }

    // The accesses of the last seven days, reported group by group.
    method QueryAccessRecords(userId: int, bundleName: Str, uid: Str, now: int, queryOk: bool)
      returns (result: seq<AccessRecordInfo>, ghost keys: seq<MinuteGroupKey>)
      requires Valid()
      ensures !isOpen || !queryOk ==> result == []
      ensures isOpen && queryOk ==>
                IsReport(Select(records, InWindow(userId, bundleName, uid, now - SEVEN_DAYS_MS)), keys, result)
      ensures isOpen && queryOk ==> Answers(records, userId, bundleName, uid, now, MinutesOf(keys), result)
    {
      hide IsReport, Parses, RowsOf, Select, IsMinuteReport, Answers, Asked;
      result, keys := [], [];
      if !isOpen {
        return;
      }
      var found := QueryAccessRecordsFromDatabase(userId, bundleName, uid, now - SEVEN_DAYS_MS, queryOk);
      var processed, groupKeys := ProcessAccessRecords(found);
      result, keys := processed.value, groupKeys;
      if !queryOk {
        EmptyReport(keys, result);
      } else {
        QueryAnswers(records, userId, bundleName, uid, now, MinutesOf(keys), result);
      }
    }

    // The distinct names of both tables (UNION).
    method QueryAllBundleNames(userId: int, queryOk: bool) returns (names: seq<Str>)
      ensures Distinct(names)
      ensures NameSet(names) == if isOpen && queryOk then BundleNames(Contents(), userId) else {}
      ensures forall name :: name in names <==>
                && isOpen && queryOk
                && (|| (exists row :: row in switches && row.key.userId == userId && row.key.bundleName == name)
                    || (exists row :: row in records && row.userId == userId && row.bundleName == name))
    {
      names := [];
      if !isOpen || !queryOk {
        return;
      }
      var i := 0;
      while i < |switches|
        invariant i <= |switches|
        invariant Distinct(names) && NameSet(names) == SwitchNames(switches[..i], userId)
      {
        assert switches[..i + 1][..i] == switches[..i];
        if switches[i].key.userId == userId {
          names := AddName(names, switches[i].key.bundleName);
        }
        i := i + 1;
      }
      assert switches[..i] == switches;
      i := 0;
      while i < |records|
        invariant i <= |records|
        invariant Distinct(names)
        invariant NameSet(names) == SwitchNames(switches, userId) + RecordNames(records[..i], userId)
      {
        assert records[..i + 1][..i] == records[..i];
        if records[i].userId == userId {
          names := AddName(names, records[i].bundleName);
        }
        i := i + 1;
      }
      assert records[..i] == records;
      forall name
        ensures name in names
           <==> || (exists row :: row in switches && row.key.userId == userId && row.key.bundleName == name)
                || (exists row :: row in records && row.userId == userId && row.bundleName == name)
      {
        NameSetMember(names, name);
        BundleNamesMember(Contents(), userId, name);
      }
    }

    // One cleanup pass: at most 100 names that are not installed, both tables, the
    // switch table first.
    method CleanUninstalledAppRecords(userId: int, installed: set<Str>, queryOk: bool, switchOk: bool, recordOk: bool)
      returns (err: int, ghost batch: set<Str>)
      requires Valid()
      modifies this`switches, this`records
      ensures Valid()
      ensures isOpen && queryOk ==> IsBatch(Uninstalled(old(Contents()), userId, installed), batch)
      ensures !isOpen || !queryOk ==> batch == {}
      ensures err == (if batch == {} || (switchOk && recordOk) then ERR_OK else ERR_DB_CONNECT_FAILED)
      ensures err == ERR_OK ==> Contents() == AfterPass(old(Contents()), userId, batch)
      ensures err == ERR_OK ==> PassDeletes(old(Contents()), userId, batch)
      ensures err != ERR_OK ==>
                records == old(records)
                && switches == if switchOk then Select(old(switches), KeepSwitch(userId, batch)) else old(switches)
    {
      hide UniqueKeys, PassDeletes;
      ghost var before := Contents();
      batch := {};
      AfterEmptyPass(before, userId);
      forall b ensures PassDeletes(before, userId, b) {
        PassKeepsRest(before, userId, b);
      }
      var allBundleNames := QueryAllBundleNames(userId, queryOk);
      var uninstalledBundles := PickUninstalled(allBundleNames, installed);
      batch := NameSet(uninstalledBundles);
      if uninstalledBundles == [] {
        return ERR_OK, batch;
      }
      var deleteSwitches := BuildBatchDeleteSql(userId, "anco_s_status", uninstalledBundles);
      if !switchOk {
        return ERR_DB_CONNECT_FAILED, batch;
      }
      BoundNamesOfArgs(IntValue(userId), uninstalledBundles);
      SelectUnique(switches, KeepSwitch(userId, batch));
      switches := Select(switches, KeepSwitch(userId, BoundNames(deleteSwitches.args)));
      var deleteRecords := BuildBatchDeleteSql(userId, "anco_a_record", uninstalledBundles);
      if !recordOk {
        return ERR_DB_CONNECT_FAILED, batch;
      }
      forall row | row in Select(records, KeepRecord(userId, batch)) ensures row in records {
        SelectMember(records, KeepRecord(userId, batch), row);
      }
      records := Select(records, KeepRecord(userId, BoundNames(deleteRecords.args)));
      return ERR_OK, batch;
    }

    method CleanExpiredAccessRecords(userId: int, now: int, deleteOk: bool) returns (err: int)
      requires Valid()
      modifies this`records
      ensures Valid()
      ensures err == (if isOpen && deleteOk then ERR_OK else ERR_DB_CONNECT_FAILED)
      ensures records == if err == ERR_OK then AfterExpiries(old(records), [Expiry(userId, now)]) else old(records)
      ensures err == ERR_OK ==>
                forall row :: row in records <==>
                  row in old(records) && (row.userId != userId || row.time >= now - 864000000)
    {
      if !isOpen || !deleteOk {
        return ERR_DB_CONNECT_FAILED;
      }
      var keep := NotExpired(userId, now - TEN_DAYS_MS);
      forall row
        ensures row in AfterExpiries(records, [Expiry(userId, now)])
           <==> row in records && (row.userId != userId || row.time >= now - 864000000)
      {
        ExpiryDeletes(records, userId, now, row);
      }
      assert AfterExpiries(records, [Expiry(userId, now)][..0]) == records;
      records := Select(records, keep);
      return ERR_OK;
    }
  }

  // ----- cleanup over many passes -----

  lemma SwitchNamesAfter(rows: seq<SwitchRow>, userId: int, batch: set<Str>)
    ensures SwitchNames(Select(rows, KeepSwitch(userId, batch)), userId) == SwitchNames(rows, userId) - batch
  {
    hide Select, SwitchNames;
    var kept := Select(rows, KeepSwitch(userId, batch));
    forall row ensures row in kept <==> row in rows && KeepSwitch(userId, batch)(row) {
      SelectMember(rows, KeepSwitch(userId, batch), row);
    }
    forall name
      ensures name in SwitchNames(kept, userId) <==> name in SwitchNames(rows, userId) && name !in batch
    {
      SwitchNamesMember(kept, userId, name);
      SwitchNamesMember(rows, userId, name);
    }
  }

  lemma RecordNamesAfter(rows: seq<AccessRow>, userId: int, batch: set<Str>)
    ensures RecordNames(Select(rows, KeepRecord(userId, batch)), userId) == RecordNames(rows, userId) - batch
  {
    hide Select, RecordNames;
    var kept := Select(rows, KeepRecord(userId, batch));
    forall row ensures row in kept <==> row in rows && KeepRecord(userId, batch)(row) {
      SelectMember(rows, KeepRecord(userId, batch), row);
    }
    forall name
      ensures name in RecordNames(kept, userId) <==> name in RecordNames(rows, userId) && name !in batch
    {
      RecordNamesMember(kept, userId, name);
      RecordNamesMember(rows, userId, name);
    }
  }

  // Rows of other users and of installed bundles.
  function ProtectedSwitch(userId: int, installed: set<Str>): SwitchRow -> bool {
    (row: SwitchRow) => row.key.userId != userId || row.key.bundleName in installed
  }

  function ProtectedRecord(userId: int, installed: set<Str>): AccessRow -> bool {
    (row: AccessRow) => row.userId != userId || row.bundleName in installed
  }

  ghost predicate SameProtected(a: Database, b: Database, userId: int, installed: set<Str>) {
    && Select(a.switches, ProtectedSwitch(userId, installed)) == Select(b.switches, ProtectedSwitch(userId, installed))
    && Select(a.records, ProtectedRecord(userId, installed)) == Select(b.records, ProtectedRecord(userId, installed))
  }

  // Every row of the user, in either table, is of an installed bundle.
  ghost predicate AllInstalled(db: Database, userId: int, installed: set<Str>) {
    && (forall row :: row in db.switches && row.key.userId == userId ==> row.key.bundleName in installed)
    && (forall row :: row in db.records && row.userId == userId ==> row.bundleName in installed)
  }

  lemma NoneUninstalled(db: Database, userId: int, installed: set<Str>)
    ensures Uninstalled(db, userId, installed) == {} <==> AllInstalled(db, userId, installed)
  {
    hide BundleNames;
    if Uninstalled(db, userId, installed) == {} {
      forall row | row in db.switches && row.key.userId == userId ensures row.key.bundleName in installed {
        BundleNamesMember(db, userId, row.key.bundleName);
        assert row.key.bundleName !in Uninstalled(db, userId, installed);
      }
      forall row | row in db.records && row.userId == userId ensures row.bundleName in installed {
        BundleNamesMember(db, userId, row.bundleName);
        assert row.bundleName !in Uninstalled(db, userId, installed);
      }
    } else if AllInstalled(db, userId, installed) {
      var name :| name in Uninstalled(db, userId, installed);
      BundleNamesMember(db, userId, name);
    }
  }

  // A pass removes exactly min(k, 100) of the k uninstalled names and no protected row.
  lemma PassProgress(db: Database, userId: int, installed: set<Str>, batch: set<Str>)
    requires IsBatch(Uninstalled(db, userId, installed), batch)
    ensures var after := AfterPass(db, userId, batch);
            var k := |Uninstalled(db, userId, installed)|;
            && Uninstalled(after, userId, installed) == Uninstalled(db, userId, installed) - batch
            && |Uninstalled(after, userId, installed)| == k - Min(k, MAX_DELETE_COUNT)
            && SameProtected(after, db, userId, installed)
            && PassDeletes(db, userId, batch)
  {
    PassKeepsRest(db, userId, batch);
    SwitchNamesAfter(db.switches, userId, batch);
    RecordNamesAfter(db.records, userId, batch);
    var after := AfterPass(db, userId, batch);
    assert Uninstalled(after, userId, installed) == Uninstalled(db, userId, installed) - batch;
    SelectAfterDelete(db.switches, KeepSwitch(userId, batch), ProtectedSwitch(userId, installed));
    SelectAfterDelete(db.records, KeepRecord(userId, batch), ProtectedRecord(userId, installed));
  }

  ghost predicate IsCleanup(dbs: seq<Database>, batches: seq<set<Str>>, userId: int, installed: set<Str>) {
    && |dbs| == |batches| + 1
    && forall i :: 0 <= i < |batches| ==>
         && IsBatch(Uninstalled(dbs[i], userId, installed), batches[i])
         && dbs[i + 1] == AfterPass(dbs[i], userId, batches[i])
  }

  // After n passes with a fixed installed set, k - 100 n uninstalled names are left, so
  // none is left, that is every row of the user is of an installed bundle, exactly when
  // 100 n reaches k; protected rows are never touched.
  lemma {:induction false} CleanupConverges(dbs: seq<Database>, batches: seq<set<Str>>, userId: int,
                                            installed: set<Str>)
    requires IsCleanup(dbs, batches, userId, installed)
    ensures var k, n := |Uninstalled(dbs[0], userId, installed)|, |batches|;
            && |Uninstalled(dbs[n], userId, installed)| == k - Min(k, 100 * n)
            && (Uninstalled(dbs[n], userId, installed) == {} <==> k <= 100 * n)
            && (AllInstalled(dbs[n], userId, installed) <==> k <= 100 * n)
            && SameProtected(dbs[n], dbs[0], userId, installed)
  {
    hide PassDeletes, AllInstalled, Uninstalled, AfterPass;
    var n := |batches|;
    NoneUninstalled(dbs[n], userId, installed);
    if n > 0 {
      CleanupConverges(dbs[..n], batches[..n - 1], userId, installed);
      PassProgress(dbs[n - 1], userId, installed, batches[n - 1]);
    }
  }
}
