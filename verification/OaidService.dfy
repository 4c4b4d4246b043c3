// OAIDService and OaidObserverManager: the identifier, its store and its observer.
// The under-age gate, the randomness and the store's verdicts are parameters.

module OaidService {
  import opened Options
  import opened Text
  import opened Uuid
  import opened ErrorCodes

  // A stored text that GainOAID accepts as an identifier.
  predicate Usable(s: Str) {
    s != OAID_ALLZERO_STR && s != []
  }

  // What a read leaves in the caller's variable, which starts as the all-zero text.
  function Seen(store: Option<Str>, readOk: bool): Str {
    if readOk && store.Some? then store.value else OAID_ALLZERO_STR
  }

  // The memory after GainOAID has looked at the store; minted is what GetUUID returns.
  function Gained(memory: Str, seen: Str, minted: Str): Str {
    if memory != [] then memory else if Usable(seen) then seen else minted
  }

  // The store after it: written only when nothing usable was read.
  function GainedStore(memory: Str, store: Option<Str>, readOk: bool, minted: Str, writeOk: bool): Option<Str> {
    var seen := Seen(store, readOk);
    var memory' := Gained(memory, seen, minted);
    if !Usable(seen) && memory' != [] && writeOk then Some(memory') else store
  }

  predicate IsMinted(s: Str) {
    s == [] || IsV4Text(s)
  }

  class OAIDService {
    var oaid: Str
    var store: Option<Str>

    constructor (store: Option<Str>)
      ensures oaid == [] && this.store == store
    {
      this.store := store;
      oaid := [];
    }

    method GainOAID(allowed: bool, readOk: bool, random: Option<seq<bv8>>, variantRandom: Option<bv8>, writeOk: bool)
      returns (r: Str, ghost minted: Str)
      requires random.Some? ==> |random.value| == UUID_LENGTH
      modifies this
      ensures IsMinted(minted)
      ensures allowed && old(oaid) == [] && !Usable(Seen(old(store), readOk)) ==>
                (minted == [] <==> random.None? || variantRandom.None?)
      ensures !allowed ==> r == OAID_ALLZERO_STR && oaid == old(oaid) && store == old(store)
      ensures allowed ==>
                && oaid == Gained(old(oaid), Seen(old(store), readOk), minted)
                && r == (if oaid == [] then OAID_ALLZERO_STR else oaid)
                && store == GainedStore(old(oaid), old(store), readOk, minted, writeOk)
    {
      hide IsTextOf, IsV4Text;
      minted := [];
      if !allowed {
        return OAID_ALLZERO_STR, minted;
      }
      var oaidKvStoreStr := OAID_ALLZERO_STR;
      if readOk && store.Some? {
        oaidKvStoreStr := store.value;
      }
      if oaidKvStoreStr != OAID_ALLZERO_STR && oaidKvStoreStr != [] {
        if oaid == [] {
          oaid := oaidKvStoreStr;
        }
        return oaid, minted;
      }
      if oaid == [] {
        oaid := GetUUID(random, variantRandom);
        minted := oaid;
        if random.Some? && variantRandom.Some? {
          GeneratedIsV4(random.value, variantRandom.value, oaid);
          GeneratedIsNonzero(oaid);
        }
        if oaid == [] {
          return OAID_ALLZERO_STR, minted;
        }
      }
      if writeOk {
        store := Some(oaid);
      }
      return oaid, minted;
    }

    method ResetOAID(random: Option<seq<bv8>>, variantRandom: Option<bv8>, writeOk: bool,
                     observers: OaidObserverManager) returns (err: int)
      requires random.Some? ==> |random.value| == UUID_LENGTH
      modifies this, observers`delivered
      ensures err == (if random.Some? && variantRandom.Some? then ERR_OK else ERR_SYSYTEM_ERROR)
      ensures err != ERR_OK ==>
                oaid == old(oaid) && store == old(store) && observers.delivered == old(observers.delivered)
      ensures err == ERR_OK ==>
                && IsTextOf(Stamped(random.value, variantRandom.value), oaid) && IsV4Text(oaid)
                && store == (if writeOk then Some(oaid) else old(store))
                && observers.Told(oaid)
                && observers.delivered == old(observers.delivered)
                   + if observers.observer.Some? then [(observers.observer.value, oaid)] else []
    {
      hide IsTextOf, IsV4Text;
      var resetOaid := GetUUID(random, variantRandom);
      if random.Some? && variantRandom.Some? {
        GeneratedIsV4(random.value, variantRandom.value, resetOaid);
        GeneratedIsNonzero(resetOaid);
      }
      if resetOaid == [] {
        return ERR_SYSYTEM_ERROR;
      }
      oaid := resetOaid;
      if writeOk {
        store := Some(resetOaid);
      }
      observers.OnUpdateOaid(resetOaid);
      return ERR_OK;
    }
  }

  class OaidObserverManager {
    var observer: Option<int>
    // Every OnOaidUpdated call, with the observer it went to.
    var delivered: seq<(int, Str)>

    constructor ()
      ensures observer == None && delivered == []
    {
      observer, delivered := None, [];
    }

    // The registered observer, if any, was last told this identifier.
    predicate Told(id: Str)
      reads this
    {
      observer.Some? ==> delivered != [] && delivered[|delivered| - 1] == (observer.value, id)
    }

    method OnUpdateOaid(id: Str)
      modifies this`delivered
      ensures delivered == old(delivered) + if observer.Some? then [(observer.value, id)] else []
      ensures Told(id)
    {
      if observer.None? {
        return;
      }
      delivered := delivered + [(observer.value, id)];
    }

    // A new observer replaces the old one and is told the current identifier at once.
    method RegisterObserver(candidate: Option<int>, service: OAIDService, allowed: bool, readOk: bool,
                            random: Option<seq<bv8>>, variantRandom: Option<bv8>, writeOk: bool)
      returns (err: int, ghost minted: Str)
      requires random.Some? ==> |random.value| == UUID_LENGTH
      modifies this, service
      ensures IsMinted(minted)
      ensures err == if candidate.None? then ERR_INVALID_PARAM else ERR_OK
      ensures candidate.None? ==>
                observer == old(observer) && delivered == old(delivered)
                && service.oaid == old(service.oaid) && service.store == old(service.store)
      ensures candidate.Some? && !allowed ==>
                service.oaid == old(service.oaid) && service.store == old(service.store)
      ensures candidate.Some? && allowed ==>
                && service.oaid == Gained(old(service.oaid), Seen(old(service.store), readOk), minted)
                && service.store == GainedStore(old(service.oaid), old(service.store), readOk, minted, writeOk)
      ensures candidate.Some? ==>
                var id := if allowed && service.oaid != [] then service.oaid else OAID_ALLZERO_STR;
                observer == candidate && delivered == old(delivered) + [(candidate.value, id)]
    {
      if candidate.None? {
        return ERR_INVALID_PARAM, [];
      }
      observer := candidate;
      var oaid;
      oaid, minted := service.GainOAID(allowed, readOk, random, variantRandom, writeOk);
      delivered := delivered + [(candidate.value, oaid)];
      return ERR_OK, minted;
    }
  }
}
