// The service calls over the tables, and the broker's decision whether an app gets the
// identifier. A failing call between client and service is a parameter as well.

module AncoService {
  import opened ErrorCodes
  import opened Sequences
  import opened Text
  import opened Uuid
  import opened AccessRecords
  import opened Tables
  import opened RdbManager

  // What the storage answers during one service call; handedOut tells whether a recreation
  // hands out a store, which it may do although it reports an error.
  datatype Verdicts = Verdicts(open: bool, recreate: bool, handedOut: bool, queryNames: bool, deleteSwitches: bool,
                               deleteRecords: bool, expire: bool, query: bool)

  predicate AllGood(v: Verdicts) {
    v.open && v.queryNames && v.deleteSwitches && v.deleteRecords && v.expire && v.query
  }

  // Whether a call goes on to the tables, whether the store is open after it, and the
  // tables it finds: a store that is not open yet and cannot be opened is recreated empty.
  predicate HasStore(isOpen: bool, v: Verdicts) {
    isOpen || v.open || (v.recreate && v.handedOut)
  }

  predicate StaysOpen(isOpen: bool, v: Verdicts) {
    isOpen || v.open || v.handedOut
  }

  function Found(isOpen: bool, db: Database, v: Verdicts): Database {
    if isOpen || v.open then db else Database([], [])
  }

  function WithStatus(db: Database, key: SwitchKey, status: int, now: int): Database {
    Database(Upsert(db.switches, key, status, now), db.records)
  }

  function WithRecord(db: Database, row: AccessRow): Database {
    Database(db.switches, db.records + [row])
  }

  function WithoutExpired(db: Database, userId: int, now: int): Database {
    Database(db.switches, AfterExpiries(db.records, [Expiry(userId, now)]))
  }

  // What a cleanup pass leaves when each of its two deletes may fail: a failing first
  // delete skips the second.
  function AfterTry(db: Database, userId: int, batch: set<Str>, v: Verdicts): Database {
    if batch == {} || (v.deleteSwitches && v.deleteRecords) then AfterPass(db, userId, batch)
    else if v.deleteSwitches then Database(Select(db.switches, KeepSwitch(userId, batch)), db.records)
    else db
  }

  // The names that a service call's cleanup pass tries to delete.
  ghost predicate IsTried(isOpen: bool, db: Database, userId: int, installed: set<Str>, v: Verdicts, batch: set<Str>) {
    if HasStore(isOpen, v) && v.queryNames
    then IsBatch(Uninstalled(Found(isOpen, db, v), userId, installed), batch)
    else batch == {}
  }

  function Answer(db: Database, userId: int, bundleName: Str, uid: Str): seq<AncoSwitchStatusInfo> {
    StatusInfos(Select(db.switches, OfQuery(userId, bundleName, uid)))
  }

  // OAIDService::SetAncoSwitchStatus
  method SetAncoSwitchStatus(db: OaidRdbManager, userId: int, bundleName: Str, uid: Str, status: int, now: int,
                             v: Verdicts, writeOk: bool) returns (ok: bool)
    requires db.Valid()
    modifies db
    ensures db.Valid() && db.isOpen == StaysOpen(old(db.isOpen), v)
    ensures ok == (HasStore(old(db.isOpen), v) && v.query && writeOk)
    ensures var found := Found(old(db.isOpen), old(db.Contents()), v);
            db.Contents() == if ok then WithStatus(found, SwitchKey(userId, bundleName, uid), status, now) else found
  {
    var ret := db.Init(v.open, v.recreate, v.handedOut);
    if ret != ERR_OK {
      return false;
    }
    ret := db.InsertOrReplaceSwitchStatus(userId, bundleName, uid, status, now, v.query, writeOk);
    return ret == ERR_OK;
  }

  // Init and the cleanup pass, with which both query calls begin.
  method OpenAndClean(db: OaidRdbManager, userId: int, installed: set<Str>, v: Verdicts)
    returns (ready: bool, ghost batch: set<Str>)
    requires db.Valid()
    modifies db
    ensures db.Valid() && db.isOpen == StaysOpen(old(db.isOpen), v)
    ensures ready == HasStore(old(db.isOpen), v)
    ensures IsTried(old(db.isOpen), old(db.Contents()), userId, installed, v, batch)
    ensures db.Contents() == AfterTry(Found(old(db.isOpen), old(db.Contents()), v), userId, batch, v)
  {
    hide IsBatch, Uninstalled, UniqueKeys, Select;
    batch := {};
    var ret := db.Init(v.open, v.recreate, v.handedOut);
    AfterEmptyPass(db.Contents(), userId);
    if ret != ERR_OK {
      return false, batch;
    }
    ret, batch := db.CleanUninstalledAppRecords(userId, installed, v.queryNames, v.deleteSwitches, v.deleteRecords);
    return true, batch;
  }

  // OAIDService::GetAncoSwitchStatus: every query first runs a cleanup pass.
  method GetAncoSwitchStatus(db: OaidRdbManager, userId: int, bundleName: Str, uid: Str, installed: set<Str>,
                             v: Verdicts)
    returns (result: seq<AncoSwitchStatusInfo>, ghost batch: set<Str>)
    requires db.Valid()
    modifies db
    ensures db.Valid() && db.isOpen == StaysOpen(old(db.isOpen), v)
    ensures IsTried(old(db.isOpen), old(db.Contents()), userId, installed, v, batch)
    ensures db.Contents() == AfterTry(Found(old(db.isOpen), old(db.Contents()), v), userId, batch, v)
    ensures result
         == if HasStore(old(db.isOpen), v) && v.query then Answer(db.Contents(), userId, bundleName, uid) else []
  {
    hide IsTried, AfterTry, Found, UniqueKeys, Select;
    var ready;
    ready, batch := OpenAndClean(db, userId, installed, v);
    if !ready {
      return [], batch;
    }
    result := db.QuerySwitchStatus(userId, bundleName, uid, v.query);
  }

  // OAIDService::GetAncoAccessRecords: cleanup and expiry come first, but the report is
  // that of the accesses before the expiry.
  method GetAncoAccessRecords(db: OaidRdbManager, userId: int, bundleName: Str, uid: Str, installed: set<Str>,
                              expiryTime: int, now: int, v: Verdicts)
    returns (result: seq<AccessRecordInfo>, ghost keys: seq<MinuteGroupKey>, ghost batch: set<Str>)
    requires db.Valid()
    modifies db
    ensures db.Valid() && db.isOpen == StaysOpen(old(db.isOpen), v)
    ensures IsTried(old(db.isOpen), old(db.Contents()), userId, installed, v, batch)
    ensures var cleaned := AfterTry(Found(old(db.isOpen), old(db.Contents()), v), userId, batch, v);
            && db.Contents() == (if HasStore(old(db.isOpen), v) && v.expire
                                 then WithoutExpired(cleaned, userId, expiryTime) else cleaned)
            && (HasStore(old(db.isOpen), v) && v.query && expiryTime <= now + THREE_DAYS_MS ==>
                  IsReport(Select(cleaned.records, InWindow(userId, bundleName, uid, now - SEVEN_DAYS_MS)),
                           keys, result))
    ensures !HasStore(old(db.isOpen), v) || !v.query ==> result == []
    ensures HasStore(old(db.isOpen), v) && v.query ==>
              IsReport(Select(db.records, InWindow(userId, bundleName, uid, now - SEVEN_DAYS_MS)), keys, result)
  {
    hide IsTried, AfterTry, Found, UniqueKeys, IsReport, Select, AfterExpiries;
    result, keys := [], [];
    var ready;
    ready, batch := OpenAndClean(db, userId, installed, v);
    if !ready {
      return;
    }
    ghost var before := db.records;
    var _ := db.CleanExpiredAccessRecords(userId, expiryTime, v.expire);
    if expiryTime <= now + THREE_DAYS_MS {
      ExpiryInvisible(before, [Expiry(userId, expiryTime)], userId, bundleName, uid, now);
    }
    result, keys := db.QueryAccessRecords(userId, bundleName, uid, now, v.query);
  }

  // The tables after the insertion of an access.
  function AfterInsert(isOpen: bool, db: Database, row: AccessRow, w: Verdicts, insertOk: bool): Database {
    var found := Found(isOpen, db, w);
    if HasStore(isOpen, w) && insertOk then WithRecord(found, row) else found
  }

  // OAIDService::InsertAccessRecord; a store that cannot be opened counts as success.
  method InsertAccessRecord(db: OaidRdbManager, userId: int, bundleName: Str, uid: Str, now: int, v: Verdicts,
                            insertOk: bool) returns (err: int)
    requires db.Valid() && IsInt64(now)
    modifies db
    ensures db.Valid() && db.isOpen == StaysOpen(old(db.isOpen), v)
    ensures err == (if !HasStore(old(db.isOpen), v) || insertOk then ERR_OK else ERR_DB_CONNECT_FAILED)
    ensures db.Contents() == AfterInsert(old(db.isOpen), old(db.Contents()),
                                         AccessRow(userId, bundleName, uid, now), v, insertOk)
  {
    var ret := db.Init(v.open, v.recreate, v.handedOut);
    if ret != ERR_OK {
      return ERR_OK;
    }
    err := db.InsertAccessRecord(userId, bundleName, uid, now, insertOk);
  }

  // ----- OAIDBrokerClient -----

  // The switch decision of GetAncoOaid: status 0 allows, any other status denies, and an
  // app without a row follows the global switch.
  predicate Blocks(globalSwitch: bool, appSwitch: seq<AncoSwitchStatusInfo>) {
    if globalSwitch then appSwitch == [] || appSwitch[0].status != 0
    else appSwitch != [] && appSwitch[0].status != 0
  }

  method WriteAuthorization(db: OaidRdbManager, userId: int, packageName: Str, uid: Str, status: bool, now: int,
                            v: Verdicts, writeOk: bool) returns (ok: bool)
    requires db.Valid()
    modifies db
    ensures db.Valid() && db.isOpen == StaysOpen(old(db.isOpen), v)
    ensures ok == (HasStore(old(db.isOpen), v) && v.query && writeOk)
    ensures var found, key := Found(old(db.isOpen), old(db.Contents()), v), SwitchKey(userId, packageName, uid);
            db.Contents() == if ok then WithStatus(found, key, if status then 1 else 0, now) else found
  {
    ok := SetAncoSwitchStatus(db, userId, packageName, uid, if status then 1 else 0, now, v, writeOk);
  }

  // The row of the key denies the app, or allows it.
  ghost predicate Decided(db: Database, key: SwitchKey, denied: bool) {
    && UniqueKeys(db.switches)
    && key in SwitchMap(db.switches)
    && (SwitchMap(db.switches)[key].status != 0 <==> denied)
  }

  // An app with non-empty names is blocked when its row denies it, whatever the global
  // switch, and follows the global switch when it has no row.
  lemma BlockedExactly(db: Database, key: SwitchKey, globalSwitch: bool)
    requires UniqueKeys(db.switches) && key.bundleName != [] && key.uid != []
    ensures Blocks(globalSwitch, Answer(db, key.userId, key.bundleName, key.uid))
       <==> var m := SwitchMap(db.switches);
            if key in m then m[key].status != 0 else globalSwitch
  {
    hide UniqueKeys, SwitchMap, Select;
    QueryByKey(db.switches, key);
    var found := Select(db.switches, OfQuery(key.userId, key.bundleName, key.uid));
    if found != [] {
      StatusInfosAt(found, 0);
    }
  }

  lemma PassKeepsDecision(db: Database, userId: int, batch: set<Str>, key: SwitchKey, denied: bool)
    requires Decided(db, key, denied) && key.bundleName !in batch
    ensures Decided(AfterPass(db, userId, batch), key, denied)
  {
    hide UniqueKeys, SwitchMap, Select;
    SelectUnique(db.switches, KeepSwitch(userId, batch));
    CleanRefines(db.switches, userId, batch);
  }

  // The tables after the status query of GetAncoOaid, and the answer that the broker
  // sees: empty when the call does not reach the service, no store opens or the query fails.
  function Consulted(isOpen: bool, db: Database, userId: int, batch: set<Str>, serviceOk: bool, v: Verdicts): Database {
    if serviceOk then AfterTry(Found(isOpen, db, v), userId, batch, v) else db
  }

  function SeenAnswer(isOpen: bool, db: Database, key: SwitchKey, batch: set<Str>, serviceOk: bool, v: Verdicts)
    : seq<AncoSwitchStatusInfo>
  {
    if serviceOk && HasStore(isOpen, v) && v.query
    then Answer(Consulted(isOpen, db, key.userId, batch, serviceOk, v), key.userId, key.bundleName, key.uid)
    else []
  }

  lemma DecisionSurvivesTry(db: Database, key: SwitchKey, batch: set<Str>, v: Verdicts, denied: bool)
    requires Decided(db, key, denied) && key.bundleName !in batch
    ensures Decided(AfterTry(db, key.userId, batch, v), key, denied)
  {
    PassKeepsDecision(db, key.userId, batch, key, denied);
  }

  lemma ConsultedUnique(isOpen: bool, db: Database, userId: int, batch: set<Str>, serviceOk: bool, v: Verdicts)
    requires UniqueKeys(db.switches)
    ensures UniqueKeys(Consulted(isOpen, db, userId, batch, serviceOk, v).switches)
  {
    var found := Found(isOpen, db, v);
    SelectUnique(found.switches, KeepSwitch(userId, batch));
  }

  // Whether the broker lets an app have the identifier. The row of an app with non-empty
  // names decides if the status query is answered and there is one; otherwise the global
  // switch does.
  ghost predicate MayHave(isOpen: bool, db: Database, key: SwitchKey, globalSwitch: bool, batch: set<Str>,
                          serviceOk: bool, v: Verdicts)
  {
    var m := SwitchMap(Consulted(isOpen, db, key.userId, batch, serviceOk, v).switches);
    var answered := serviceOk && HasStore(isOpen, v) && v.query;
    if key.bundleName == [] || key.uid == []
    then !Blocks(globalSwitch, SeenAnswer(isOpen, db, key, batch, serviceOk, v))
    else if answered && key in m then m[key].status == 0
    else !globalSwitch
  }

  lemma MayHaveExactly(isOpen: bool, db: Database, key: SwitchKey, globalSwitch: bool, batch: set<Str>,
                       serviceOk: bool, v: Verdicts)
    requires UniqueKeys(db.switches)
    ensures MayHave(isOpen, db, key, globalSwitch, batch, serviceOk, v)
       <==> !Blocks(globalSwitch, SeenAnswer(isOpen, db, key, batch, serviceOk, v))
  {
    hide UniqueKeys, SwitchMap, Select, AfterTry;
    if key.bundleName != [] && key.uid != [] {
      ConsultedUnique(isOpen, db, key.userId, batch, serviceOk, v);
      BlockedExactly(Consulted(isOpen, db, key.userId, batch, serviceOk, v), key, globalSwitch);
    }
  }

  // A cleanup pass never tries to delete an installed bundle.
  lemma TriedSparesInstalled(isOpen: bool, db: Database, userId: int, installed: set<Str>, v: Verdicts, batch: set<Str>)
    requires batch == {} || IsTried(isOpen, db, userId, installed, v, batch)
    ensures batch !! installed
  {
  }

  // A denied app that stays installed is blocked if and only if the global switch is on or
  // the query reads the tables that hold the denial: the call reaches the service, the
  // store is open or opens without being recreated, and the query succeeds.
  lemma DenialNeedsAnswer(isOpen: bool, db: Database, key: SwitchKey, globalSwitch: bool, batch: set<Str>,
                          serviceOk: bool, v: Verdicts)
    requires Decided(db, key, true) && key.bundleName != [] && key.uid != [] && key.bundleName !in batch
    ensures Blocks(globalSwitch, SeenAnswer(isOpen, db, key, batch, serviceOk, v))
       <==> globalSwitch || (serviceOk && (isOpen || v.open) && v.query)
  {
    hide UniqueKeys, SwitchMap, Select;
    MayHaveExactly(isOpen, db, key, globalSwitch, batch, serviceOk, v);
    if isOpen || v.open {
      DecisionSurvivesTry(db, key, batch, v, true);
    } else {
      SelectNothing([], KeepSwitch(key.userId, batch));
      SwitchMapEmpty();
    }
  }

  // Reply and tables after GetAncoOaid when every call succeeds.
  function Granted(db: Database, userId: int, packageName: Str, uid: Str, flag: bool, globalSwitch: bool,
                   batch: set<Str>, val: Str, now: int): (Str, Database)
  {
    if flag then (val, db)
    else
      var db' := AfterPass(db, userId, batch);
      if Blocks(globalSwitch, Answer(db', userId, packageName, uid)) then (OAID_ALLZERO_STR, db')
      else if val == OAID_ALLZERO_STR then (val, db')
      else (val, WithRecord(db', AccessRow(userId, packageName, uid, now)))
  }

  // The reply, and the tables after it, when every call succeeds: the app's row decides, or
  // the global switch without one; an identifier that is handed out leaves one record.
  ghost predicate RepliesBySwitch(db: Database, userId: int, packageName: Str, uid: Str, globalSwitch: bool,
                                  batch: set<Str>, val: Str, now: int, r: Str, after: Database)
  {
    var key, db' := SwitchKey(userId, packageName, uid), AfterPass(db, userId, batch);
    var m := SwitchMap(db'.switches);
    var blocked := if key in m then m[key].status != 0 else globalSwitch;
    && r == (if blocked then OAID_ALLZERO_STR else val)
    && after.switches == db'.switches
    && after.records == db'.records + if r == OAID_ALLZERO_STR then []
                                      else [AccessRow(userId, packageName, uid, now)]
  }

  lemma GrantedExactly(db: Database, key: SwitchKey, globalSwitch: bool, batch: set<Str>, val: Str, now: int)
    requires UniqueKeys(db.switches) && key.bundleName != [] && key.uid != []
    ensures var (r, after) := Granted(db, key.userId, key.bundleName, key.uid, false, globalSwitch, batch, val, now);
            RepliesBySwitch(db, key.userId, key.bundleName, key.uid, globalSwitch, batch, val, now, r, after)
  {
    hide UniqueKeys, SwitchMap, Select, Blocks;
    SelectUnique(db.switches, KeepSwitch(key.userId, batch));
    var db' := AfterPass(db, key.userId, batch);
    BlockedExactly(db', key, globalSwitch);
    assert db'.records + [] == db'.records;
  }

  lemma GoodCall(isOpen: bool, db: Database, userId: int, batch: set<Str>, v: Verdicts)
    requires AllGood(v)
    ensures Found(isOpen, db, v) == db && HasStore(isOpen, v) && StaysOpen(isOpen, v)
    ensures AfterTry(db, userId, batch, v) == AfterPass(db, userId, batch)
  {
  }

  // The first half of GetAncoOaid: the status query and the switch decision. serviceOk tells
  // whether the query reaches the service.
  method IsBlocked(db: OaidRdbManager, userId: int, packageName: Str, uid: Str, globalSwitch: bool,
                   serviceOk: bool, installed: set<Str>, v: Verdicts) returns (blocked: bool, ghost batch: set<Str>)
    requires db.Valid()
    modifies db
    ensures db.Valid()
    ensures if serviceOk then IsTried(old(db.isOpen), old(db.Contents()), userId, installed, v, batch) else batch == {}
    ensures db.isOpen == if serviceOk then StaysOpen(old(db.isOpen), v) else old(db.isOpen)
    ensures db.Contents() == Consulted(old(db.isOpen), old(db.Contents()), userId, batch, serviceOk, v)
    ensures var key := SwitchKey(userId, packageName, uid);
            blocked <==> !MayHave(old(db.isOpen), old(db.Contents()), key, globalSwitch, batch, serviceOk, v)
  {
    assert UniqueKeys(db.switches);
    hide IsBatch, Uninstalled, AfterTry, Found, Answer, UniqueKeys, MayHave, IsTried;
    batch := {};
    var appSwitch: seq<AncoSwitchStatusInfo> := [];
    ghost var (isOpen, tables) := (db.isOpen, db.Contents());
    if serviceOk {
      appSwitch, batch := GetAncoSwitchStatus(db, userId, packageName, uid, installed, v);
    }
    MayHaveExactly(isOpen, tables, SwitchKey(userId, packageName, uid), globalSwitch, batch, serviceOk, v);
    if globalSwitch {
      blocked := appSwitch == [] || appSwitch[0].status != 0;
    } else {
      blocked := appSwitch != [] && appSwitch[0].status != 0;
    }
  }

  // val is what the client gets for the identifier; v and w are what the storage answers to
  // the status query and to the insertion.
  method GetAncoOaid(db: OaidRdbManager, userId: int, packageName: Str, uid: Str, flag: bool, globalSwitch: bool,
                     serviceOk: bool, installed: set<Str>, v: Verdicts, val: Str, now: int, w: Verdicts, insertOk: bool)
    returns (r: Str, ghost batch: set<Str>)
    requires db.Valid() && IsInt64(now)
    modifies db
    ensures db.Valid()
    ensures if !flag && serviceOk then IsTried(old(db.isOpen), old(db.Contents()), userId, installed, v, batch)
            else batch == {}
    ensures var key := SwitchKey(userId, packageName, uid);
            var (isOpen, tables) := (old(db.isOpen), old(db.Contents()));
            var granted := flag || MayHave(isOpen, tables, key, globalSwitch, batch, serviceOk, v);
            var consulted := if flag then tables else Consulted(isOpen, tables, userId, batch, serviceOk, v);
            && r == (if granted then val else OAID_ALLZERO_STR)
            && db.Contents() == if granted && !flag && val != OAID_ALLZERO_STR
                                then AfterInsert(if serviceOk then StaysOpen(isOpen, v) else isOpen, consulted,
                                                 AccessRow(userId, packageName, uid, now), w, insertOk)
                                else consulted
    ensures !flag && val != OAID_ALLZERO_STR && packageName in installed && packageName != [] && uid != []
            && Decided(old(db.Contents()), SwitchKey(userId, packageName, uid), true) ==>
              (r == OAID_ALLZERO_STR <==> globalSwitch || (serviceOk && (old(db.isOpen) || v.open) && v.query))
    ensures AllGood(v) && serviceOk && w.open && insertOk ==>
              (r, db.Contents())
              == Granted(old(db.Contents()), userId, packageName, uid, flag, globalSwitch, batch, val, now)
  {
    assert UniqueKeys(db.switches);
    hide IsBatch, Uninstalled, AfterTry, Answer, Blocks, UniqueKeys, Decided, MayHave, IsTried;
    batch := {};
    ghost var key := SwitchKey(userId, packageName, uid);
    ghost var (isOpen, tables) := (db.isOpen, db.Contents());
    if !flag {
      var blocked;
      blocked, batch := IsBlocked(db, userId, packageName, uid, globalSwitch, serviceOk, installed, v);
      MayHaveExactly(isOpen, tables, key, globalSwitch, batch, serviceOk, v);
      TriedSparesInstalled(isOpen, tables, userId, installed, v, batch);
      if Decided(tables, key, true) && packageName != [] && uid != [] && packageName in installed {
        DenialNeedsAnswer(isOpen, tables, key, globalSwitch, batch, serviceOk, v);
      }
      if AllGood(v) {
        GoodCall(isOpen, tables, userId, batch, v);
      }
      if blocked {
        return OAID_ALLZERO_STR, batch;
      }
    }
    if val != OAID_ALLZERO_STR && !flag {
      var _ := InsertAccessRecord(db, userId, packageName, uid, now, w, insertOk);
    }
    return val, batch;
  }

  // ----- a decision over whole runs -----

  datatype Call =
    | SetSwitch(key: SwitchKey, status: int, now: int)
    | GetOaid(bundleName: Str, uid: Str, flag: bool, globalSwitch: bool, batch: set<Str>, val: Str, now: int)
    | GetStatus(batch: set<Str>)
    | GetRecords(batch: set<Str>, now: int)

  function Reply(db: Database, userId: int, call: Call): (Str, Database) {
    match call
    case SetSwitch(key, status, now) => ([], WithStatus(db, key, status, now))
    case GetOaid(bundleName, uid, flag, globalSwitch, batch, val, now) =>
      Granted(db, userId, bundleName, uid, flag, globalSwitch, batch, val, now)
    case GetStatus(batch) => ([], AfterPass(db, userId, batch))
    case GetRecords(batch, now) => ([], WithoutExpired(AfterPass(db, userId, batch), userId, now))
  }

  function AfterCalls(db: Database, userId: int, calls: seq<Call>): Database {
    if calls == [] then db
    else Reply(AfterCalls(db, userId, calls[..|calls| - 1]), userId, calls[|calls| - 1]).1
  }

  // The call neither reverses the decision on the app nor treats it as uninstalled.
  predicate LeavesDecision(call: Call, key: SwitchKey, denied: bool) {
    match call
    case SetSwitch(k, status, _) => k == key ==> (status != 0 <==> denied)
    case GetOaid(_, _, _, _, batch, _, _) => key.bundleName !in batch
    case GetStatus(batch) => key.bundleName !in batch
    case GetRecords(batch, _) => key.bundleName !in batch
  }

  lemma CallKeepsDecision(db: Database, userId: int, call: Call, key: SwitchKey, denied: bool)
    requires Decided(db, key, denied) && LeavesDecision(call, key, denied)
    ensures Decided(Reply(db, userId, call).1, key, denied)
  {
    hide UniqueKeys, SwitchMap, Select, Upsert;
    match call {
      case SetSwitch(k, status, now) => UpsertRefines(db.switches, k, status, now);
      case GetOaid(_, _, flag, _, batch, _, _) => PassKeepsDecision(db, userId, batch, key, denied);
      case GetStatus(batch) => PassKeepsDecision(db, userId, batch, key, denied);
      case GetRecords(batch, _) => PassKeepsDecision(db, userId, batch, key, denied);
    }
  }

  lemma {:induction false} CallsKeepDecision(db: Database, userId: int, calls: seq<Call>, key: SwitchKey, denied: bool)
    requires Decided(db, key, denied)
    requires forall call :: call in calls ==> LeavesDecision(call, key, denied)
    ensures Decided(AfterCalls(db, userId, calls), key, denied)
  {
    hide Decided, Reply, LeavesDecision;
    if calls != [] {
      var n := |calls| - 1;
      assert calls == calls[..n] + [calls[n]];
      CallsKeepDecision(db, userId, calls[..n], key, denied);
      CallKeepsDecision(AfterCalls(db, userId, calls[..n]), userId, calls[n], key, denied);
    }
  }

  // After a WriteAuthorization, as long as the decision is not reversed and the app stays
  // installed, every GetAncoOaid for it with flag false follows the decision, whatever
  // calls for this and other apps came in between.
  lemma DecisionHolds(db: Database, key: SwitchKey, denied: bool, decidedAt: int, calls: seq<Call>,
                      globalSwitch: bool, batch: set<Str>, val: Str, now: int)
    requires UniqueKeys(db.switches) && key.bundleName != [] && key.uid != []
    requires forall call :: call in calls ==> LeavesDecision(call, key, denied)
    requires key.bundleName !in batch
    ensures var db' := AfterCalls(WithStatus(db, key, if denied then 1 else 0, decidedAt), key.userId, calls);
            var call := GetOaid(key.bundleName, key.uid, false, globalSwitch, batch, val, now);
            var (r, after) := Reply(db', key.userId, call);
            && r == (if denied then OAID_ALLZERO_STR else val)
            && after.switches == AfterPass(db', key.userId, batch).switches
            && after.records == AfterPass(db', key.userId, batch).records
                                + if r == OAID_ALLZERO_STR then []
                                  else [AccessRow(key.userId, key.bundleName, key.uid, now)]
  {
    var status := if denied then 1 else 0;
    var decided := WithStatus(db, key, status, decidedAt);
    assert Decided(decided, key, denied) by {
      UpsertRefines(db.switches, key, status, decidedAt);
    }
    hide UniqueKeys, SwitchMap, Select, Upsert, AfterPass, WithStatus, Granted, LeavesDecision;
    CallsKeepDecision(decided, key.userId, calls, key, denied);
    var db' := AfterCalls(decided, key.userId, calls);
    GrantedExactly(db', key, globalSwitch, batch, val, now);
    PassKeepsDecision(db', key.userId, batch, key, denied);
  }

  // After a denying WriteAuthorization every GetAncoOaid answers all zeros and adds no
  // record until the app is allowed again.
  lemma DenialHolds(db: Database, key: SwitchKey, deniedAt: int, calls: seq<Call>,
                    globalSwitch: bool, batch: set<Str>, val: Str, now: int)
    requires UniqueKeys(db.switches) && key.bundleName != [] && key.uid != []
    requires forall call :: call in calls ==> LeavesDecision(call, key, true)
    requires key.bundleName !in batch
    ensures var db' := AfterCalls(WithStatus(db, key, 1, deniedAt), key.userId, calls);
            var call := GetOaid(key.bundleName, key.uid, false, globalSwitch, batch, val, now);
            var (r, after) := Reply(db', key.userId, call);
            r == OAID_ALLZERO_STR && after.records == AfterPass(db', key.userId, batch).records
  {
    hide UniqueKeys, AfterCalls, Reply, AfterPass, WithStatus, LeavesDecision;
    DecisionHolds(db, key, true, deniedAt, calls, globalSwitch, batch, val, now);
  }

  // After a permitting one every GetAncoOaid answers the identifier and adds exactly one
  // record until the app is denied or cleaned.
  lemma PermissionHolds(db: Database, key: SwitchKey, allowedAt: int, calls: seq<Call>,
                        globalSwitch: bool, batch: set<Str>, val: Str, now: int)
    requires UniqueKeys(db.switches) && key.bundleName != [] && key.uid != [] && val != OAID_ALLZERO_STR
    requires forall call :: call in calls ==> LeavesDecision(call, key, false)
    requires key.bundleName !in batch
    ensures var db' := AfterCalls(WithStatus(db, key, 0, allowedAt), key.userId, calls);
            var call := GetOaid(key.bundleName, key.uid, false, globalSwitch, batch, val, now);
            var (r, after) := Reply(db', key.userId, call);
            && r == val
            && after.records == AfterPass(db', key.userId, batch).records
                                + [AccessRow(key.userId, key.bundleName, key.uid, now)]
  {
    hide UniqueKeys, AfterCalls, Reply, AfterPass, WithStatus, LeavesDecision;
    DecisionHolds(db, key, false, allowedAt, calls, globalSwitch, batch, val, now);
  }
}
