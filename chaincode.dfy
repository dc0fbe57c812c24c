/**
 * The contract-management chaincode: Contract records and AuditLog entries
 * kept side by side in one key-value world state. The world state is the
 * field `state`; `keys` lists its keys in the order a full range scan
 * visits them. The transaction time is passed in as `seconds`.
 */
module Chaincode {
  import opened Wrappers
  import opened Json
  import opened Decimal
  import opened KeyOrder
  import opened Records

  datatype Error =
    | AlreadyExists(id: string)     // "contract <id> already exists"
    | DoesNotExist(id: string)      // "contract <id> does not exist"
    | BadContractData               // "failed to unmarshal contract data"
    | BadUpdateData                 // "failed to unmarshal update data"
    | BadStoredValue(key: string)   // the value under `key` does not unmarshal
    | EmptyKey                      // the host refuses to bind "": "key must not be an empty string"
    | PutFailed(id: string)         // "failed to put contract <id> to world state: ..."
    | PutUpdateFailed(id: string)   // "failed to put updated contract <id> to world state: ..."
    | AuditFailed                   // "failed to create audit log: ..."

  type WorldState = map<string, Blob>

  /** The one record InitLedger seeds. */
  const SeedContract := Contract(
    "HĐ-2024-001", "Xây dựng cầu Nhật Tân 2", "Công ty TNHH ABC Construction",
    450000000, "2024-01-15", "2024-12-31", "active", "admin",
    "2024-01-15T10:30:00Z", "2024-01-15T10:30:00Z", "Dự án xây dựng cầu Nhật Tân 2", [])

  /** Every stored value unmarshals both as a Contract and as an AuditLog. */
  ghost predicate Decodable(ws: WorldState)
  {
    forall k | k in ws :: DecodeContract(ws[k]).Some? && DecodeAuditLog(ws[k]).Some?
  }

  /** What the chaincode writes for a contract is readable by both listings. */
  lemma StoredContractDecodable(c: Contract)
    ensures DecodeContract(Document(EncodeContract(c))).Some?
    ensures DecodeAuditLog(Document(EncodeContract(c))).Some?
  {
    ContractRoundTrip(c);
    ContractIsNoAuditEntry(c);
  }

  /** What the chaincode writes for an audit entry is readable by both listings. */
  lemma StoredAuditLogDecodable(a: AuditLog)
    ensures DecodeContract(Document(EncodeAuditLog(a))).Some?
    ensures DecodeAuditLog(Document(EncodeAuditLog(a))).Some?
  {
    AuditLogRoundTrip(a);
    AuditEntryIsNoContract(a);
  }

  // ------------------------------------------------------------ the listings

  /**
   * GetAllContracts over the keys `ks`, in that order: the decoded records
   * with non-empty id and title; the first value that does not decode
   * aborts the listing.
   */
  function ScanContracts(ks: seq<string>, ws: WorldState): Result<seq<Contract>, Error>
    requires forall k | k in ks :: k in ws
  {
    if ks == [] then Success([])
    else
      var before :- ScanContracts(ks[..|ks| - 1], ws);
      var k := ks[|ks| - 1];
      match DecodeContract(ws[k])
      case None => Failure(BadStoredValue(k))
      case Some(c) => Success(if IsContractShaped(c) then before + [c] else before)
  }

  /** Whether an audit entry passes GetAuditLogs' entity filter. */
  predicate Selected(a: AuditLog, entityId: string)
  {
    IsAuditShaped(a) && (entityId == "" || a.entityId == entityId)
  }

  /** GetAuditLogs over the keys `ks`, in that order. */
  function ScanAuditLogs(ks: seq<string>, ws: WorldState, entityId: string): Result<seq<AuditLog>, Error>
    requires forall k | k in ks :: k in ws
  {
    if ks == [] then Success([])
    else
      var before :- ScanAuditLogs(ks[..|ks| - 1], ws, entityId);
      var k := ks[|ks| - 1];
      match DecodeAuditLog(ws[k])
      case None => Failure(BadStoredValue(k))
      case Some(a) => Success(if Selected(a, entityId) then before + [a] else before)
  }

  /** Once a prefix of the scan has failed, the whole scan fails the same way. */
  lemma {:induction false} ScanContractsAborts(ks: seq<string>, ws: WorldState, n: nat)
    requires forall k | k in ks :: k in ws
    requires n <= |ks| && ScanContracts(ks[..n], ws).Failure?
    ensures ScanContracts(ks, ws) == ScanContracts(ks[..n], ws)
    decreases |ks| - n
  {
    if n < |ks| {
      assert ks[..n + 1][..n] == ks[..n];
      ScanContractsAborts(ks, ws, n + 1);
    } else {
      assert ks[..n] == ks;
    }
  }

  lemma {:induction false} ScanAuditLogsAborts(ks: seq<string>, ws: WorldState, entityId: string, n: nat)
    requires forall k | k in ks :: k in ws
    requires n <= |ks| && ScanAuditLogs(ks[..n], ws, entityId).Failure?
    ensures ScanAuditLogs(ks, ws, entityId) == ScanAuditLogs(ks[..n], ws, entityId)
    decreases |ks| - n
  {
    if n < |ks| {
      assert ks[..n + 1][..n] == ks[..n];
      ScanAuditLogsAborts(ks, ws, entityId, n + 1);
    } else {
      assert ks[..n] == ks;
    }
  }

  /** The contract listing succeeds exactly when every scanned value decodes. */
  lemma {:induction false} ScanContractsSucceeds(ks: seq<string>, ws: WorldState)
    requires forall k | k in ks :: k in ws
    ensures ScanContracts(ks, ws).Success? <==> forall k | k in ks :: DecodeContract(ws[k]).Some?
  {
    if ks != [] {
      var init := ks[..|ks| - 1];
      assert forall k :: k in ks <==> k in init || k == ks[|ks| - 1] by {
        assert ks == init + [ks[|ks| - 1]];
      }
      ScanContractsSucceeds(init, ws);
    }
  }

  /**
   * A successful contract listing holds exactly the contract-shaped records
   * stored under the scanned keys.
   */
  lemma {:induction false} ScanContractsExact(ks: seq<string>, ws: WorldState)
    requires forall k | k in ks :: k in ws
    requires ScanContracts(ks, ws).Success?
    ensures forall c :: c in ScanContracts(ks, ws).value <==>
      IsContractShaped(c) && exists k :: k in ks && DecodeContract(ws[k]) == Some(c)
  {
    if ks != [] {
      var init, last := ks[..|ks| - 1], ks[|ks| - 1];
      assert forall k :: k in ks <==> k in init || k == last by {
        assert ks == init + [last];
      }
      ScanContractsExact(init, ws);
    }
  }

  /** The audit listing succeeds exactly when every scanned value decodes. */
  lemma {:induction false} ScanAuditLogsSucceeds(ks: seq<string>, ws: WorldState, entityId: string)
    requires forall k | k in ks :: k in ws
    ensures ScanAuditLogs(ks, ws, entityId).Success? <==> forall k | k in ks :: DecodeAuditLog(ws[k]).Some?
  {
    if ks != [] {
      var init := ks[..|ks| - 1];
      assert forall k :: k in ks <==> k in init || k == ks[|ks| - 1] by {
        assert ks == init + [ks[|ks| - 1]];
      }
      ScanAuditLogsSucceeds(init, ws, entityId);
    }
  }

  /**
   * A successful audit listing holds exactly the audit-shaped entries stored
   * under the scanned keys that pass the entity filter.
   */
  lemma {:induction false} ScanAuditLogsExact(ks: seq<string>, ws: WorldState, entityId: string)
    requires forall k | k in ks :: k in ws
    requires ScanAuditLogs(ks, ws, entityId).Success?
    ensures forall a :: a in ScanAuditLogs(ks, ws, entityId).value <==>
      IsAuditShaped(a) && (entityId == "" || a.entityId == entityId) &&
      exists k :: k in ks && DecodeAuditLog(ws[k]) == Some(a)
  {
    if ks != [] {
      var init, last := ks[..|ks| - 1], ks[|ks| - 1];
      assert forall k :: k in ks <==> k in init || k == last by {
        assert ks == init + [last];
      }
      ScanAuditLogsExact(init, ws, entityId);
    }
  }

  /** The entries of `logs` about entity `entityId`, in order. */
  function OfEntity(logs: seq<AuditLog>, entityId: string): seq<AuditLog>
  {
    if logs == [] then []
    else
      var before := OfEntity(logs[..|logs| - 1], entityId);
      if logs[|logs| - 1].entityId == entityId then before + [logs[|logs| - 1]] else before
  }

  /**
   * Filtering by a non-empty entity id is the unfiltered listing narrowed to
   * that entity, order kept.
   */
  lemma {:induction false} ScanAuditLogsNarrows(ks: seq<string>, ws: WorldState, entityId: string)
    requires forall k | k in ks :: k in ws
    requires entityId != ""
    ensures ScanAuditLogs(ks, ws, entityId) ==
      match ScanAuditLogs(ks, ws, "")
      case Success(all) => Success(OfEntity(all, entityId))
      case Failure(e) => Failure(e)
  {
    if ks != [] {
      ScanAuditLogsNarrows(ks[..|ks| - 1], ws, entityId);
      var all := ScanAuditLogs(ks[..|ks| - 1], ws, "");
      if all.Success? {
        var a := DecodeAuditLog(ws[ks[|ks| - 1]]);
        if a.Some? && Selected(a.value, "") {
          var whole := all.value + [a.value];
          assert whole[..|whole| - 1] == all.value;
        }
      }
    }
  }

  /** On a decodable world state neither listing can fail. */
  lemma ListingsSucceed(ks: seq<string>, ws: WorldState, entityId: string)
    requires forall k | k in ks :: k in ws
    requires Decodable(ws)
    ensures ScanContracts(ks, ws).Success?
    ensures ScanAuditLogs(ks, ws, entityId).Success?
  {
    ScanContractsSucceeds(ks, ws);
    ScanAuditLogsSucceeds(ks, ws, entityId);
  }

  /** UpdateContract's field-by-field overwrite of the decoded record, then the new update time. */
  method ApplyUpdates(stored: Contract, u: map<string, Json>, updatedAt: string) returns (contract: Contract)
    ensures contract == MergeUpdates(stored, u, updatedAt)
  {
    contract := stored;
    if GivesString(u, "title") {
      contract := contract.(title := u["title"].s);
    }
    if GivesString(u, "contractor") {
      contract := contract.(contractor := u["contractor"].s);
    }
    if GivesNumber(u, "value") {
      contract := contract.(value := u["value"].n);
    }
    if GivesString(u, "startDate") {
      contract := contract.(startDate := u["startDate"].s);
    }
    if GivesString(u, "endDate") {
      contract := contract.(endDate := u["endDate"].s);
    }
    if GivesString(u, "status") {
      contract := contract.(status := u["status"].s);
    }
    if GivesString(u, "description") {
      contract := contract.(description := u["description"].s);
    }
    contract := contract.(updatedAt := updatedAt);
  }

  // ------------------------------------------------------------- the ledger

  class Ledger {
    var state: WorldState
    var keys: seq<string>

    ghost predicate Valid()
      reads this
    {
      Ascending(keys) && (forall k :: k in keys <==> k in state) && "" !in state
    }

    constructor ()
      ensures Valid() && state == map[]
    {
      state := map[];
      keys := [];
    }

    /**
     * The host's PutState: bind `key` to `value`, keeping the scan order. The
     * host refuses the empty key and then binds nothing.
     */
    method PutState(key: string, value: Blob) returns (r: Outcome<Error>)
      requires Valid()
      modifies this
      ensures Valid()
      ensures key == "" ==> r == Fail(EmptyKey) && state == old(state)
      ensures key != "" ==> r == Pass && state == old(state)[key := value]
    {
      if key == "" {
        return Fail(EmptyKey);
      }
      r := Pass;
      if key !in state {
        keys := Insert(keys, key);
      }
      state := state[key := value];
    }

    /** Writes the seed records, and no audit entry. */
    method InitLedger() returns (r: Outcome<Error>)
      requires Valid()
      modifies this
      ensures Valid() && r == Pass
      ensures state == old(state)[SeedContract.id := Document(EncodeContract(SeedContract))]
      ensures Decodable(old(state)) ==> Decodable(state)
    {
      var contracts := [SeedContract];
      var i := 0;
      while i < |contracts|
        invariant 0 <= i <= |contracts|
        invariant Valid()
        invariant state == if i == 0 then old(state) else old(state)[SeedContract.id := Document(EncodeContract(SeedContract))]
      {
        var c := contracts[i];
        var put := PutState(c.id, Document(EncodeContract(c)));
        if put.Fail? {
          return Fail(PutFailed(c.id));
        }
        i := i + 1;
      }
      StoredContractDecodable(SeedContract);
      r := Pass;
    }

    /** Whether the key is bound, whatever kind of value it holds. */
    method ContractExists(id: string) returns (found: bool)
      ensures found <==> id in state
    {
      found := id in state;
    }

    /** Writes `entry` under `key`, overwriting whatever the key held; the empty key fails. */
    method CreateAuditLog(key: string, entry: AuditLog) returns (r: Outcome<Error>)
      requires Valid()
      modifies this
      ensures Valid()
      ensures key == "" ==> r == Fail(EmptyKey) && state == old(state)
      ensures key != "" ==> r == Pass && state == old(state)[key := Document(EncodeAuditLog(entry))]
      ensures Decodable(old(state)) ==> Decodable(state)
    {
      r := PutState(key, Document(EncodeAuditLog(entry)));
      StoredAuditLogDecodable(entry);
    }

    method CreateContract(id: string, data: Blob, seconds: int) returns (r: Outcome<Error>)
      requires Valid()
      modifies this
      ensures Valid()
      ensures id in old(state) ==> r == Fail(AlreadyExists(id)) && state == old(state)
      ensures id !in old(state) && DecodeContract(data).None? ==>
                r == Fail(BadContractData) && state == old(state)
      ensures id == "" && DecodeContract(data).Some? ==> r == Fail(PutFailed(id)) && state == old(state)
      ensures id !in old(state) && id != "" && DecodeContract(data).Some? ==>
                var c := DecodeContract(data).value.(id := id);
                r == Pass &&
                state == old(state)[id := Document(EncodeContract(c))]
                                   [AuditKey(id, seconds) := Document(EncodeAuditLog(CreationEntry(id, c.createdBy, seconds)))]
      ensures Decodable(old(state)) ==> Decodable(state)
    {
      var found := ContractExists(id);
      if found {
        return Fail(AlreadyExists(id));
      }
      var decoded := DecodeContract(data);
      if decoded.None? {
        return Fail(BadContractData);
      }
      var contract := decoded.value.(id := id);
      var put := PutState(id, Document(EncodeContract(contract)));
      if put.Fail? {
        return Fail(PutFailed(id));
      }
      StoredContractDecodable(contract);
      var entry := CreationEntry(id, contract.createdBy, seconds);
      var logged := CreateAuditLog(entry.id, entry);
      if logged.Fail? {
        return Fail(AuditFailed);
      }
      r := Pass;
    }

    method UpdateContract(id: string, updates: Blob, seconds: int) returns (r: Outcome<Error>)
      requires Valid()
      modifies this
      ensures Valid()
      ensures id !in old(state) ==> r == Fail(DoesNotExist(id)) && state == old(state)
      ensures id in old(state) && DecodeContract(old(state)[id]).None? ==>
                r == Fail(BadStoredValue(id)) && state == old(state)
      ensures id in old(state) && DecodeContract(old(state)[id]).Some? && DecodeUpdates(updates).None? ==>
                r == Fail(BadUpdateData) && state == old(state)
      ensures id in old(state) && DecodeContract(old(state)[id]).Some? && DecodeUpdates(updates).Some? ==>
                var merged := MergeUpdates(DecodeContract(old(state)[id]).value, DecodeUpdates(updates).value,
                                           IntToString(seconds));
                r == Pass &&
                state == old(state)[id := Document(EncodeContract(merged))]
                                   [AuditKey(id, seconds) := Document(EncodeAuditLog(UpdateEntry(id, merged.createdBy, seconds)))]
      ensures Decodable(old(state)) ==> Decodable(state)
    {
      if id !in state {
        return Fail(DoesNotExist(id));
      }
      var stored := DecodeContract(state[id]);
      if stored.None? {
        return Fail(BadStoredValue(id));
      }
      var parsed := DecodeUpdates(updates);
      if parsed.None? {
        return Fail(BadUpdateData);
      }
      var contract := ApplyUpdates(stored.value, parsed.value, IntToString(seconds));
      var put := PutState(id, Document(EncodeContract(contract)));
      if put.Fail? {
        return Fail(PutUpdateFailed(id));
      }
      StoredContractDecodable(contract);
      var entry := UpdateEntry(id, contract.createdBy, seconds);
      var logged := CreateAuditLog(entry.id, entry);
      if logged.Fail? {
        return Fail(AuditFailed);
      }
      r := Pass;
    }

    method GetContract(id: string) returns (r: Result<Contract, Error>)
      ensures id !in state ==> r == Failure(DoesNotExist(id))
      ensures id in state && DecodeContract(state[id]).None? ==> r == Failure(BadStoredValue(id))
      ensures id in state && DecodeContract(state[id]).Some? ==> r == Success(DecodeContract(state[id]).value)
    {
      if id !in state {
        return Failure(DoesNotExist(id));
      }
      var decoded := DecodeContract(state[id]);
      if decoded.None? {
        return Failure(BadStoredValue(id));
      }
      r := Success(decoded.value);
    }

    method GetAllContracts() returns (r: Result<seq<Contract>, Error>)
      requires Valid()
      ensures r == ScanContracts(keys, state)
    {
      var contracts: seq<Contract> := [];
      var i := 0;
      while i < |keys|
        invariant 0 <= i <= |keys|
        invariant ScanContracts(keys[..i], state) == Success(contracts)
      {
        assert keys[..i + 1][..i] == keys[..i];
        var decoded := DecodeContract(state[keys[i]]);
        if decoded.None? {
          ScanContractsAborts(keys, state, i + 1);
          return Failure(BadStoredValue(keys[i]));
        }
        var contract := decoded.value;
        if contract.id != "" && contract.title != "" {
          contracts := contracts + [contract];
        }
        i := i + 1;
      }
      assert keys[..i] == keys;
      r := Success(contracts);
    }

    method GetAuditLogs(entityId: string) returns (r: Result<seq<AuditLog>, Error>)
      requires Valid()
      ensures r == ScanAuditLogs(keys, state, entityId)
    {
      var auditLogs: seq<AuditLog> := [];
      var i := 0;
      while i < |keys|
        invariant 0 <= i <= |keys|
        invariant ScanAuditLogs(keys[..i], state, entityId) == Success(auditLogs)
      {
        assert keys[..i + 1][..i] == keys[..i];
        var decoded := DecodeAuditLog(state[keys[i]]);
        if decoded.None? {
          ScanAuditLogsAborts(keys, state, entityId, i + 1);
          return Failure(BadStoredValue(keys[i]));
        }
        var auditLog := decoded.value;
        if auditLog.id != "" && auditLog.action != "" {
          if entityId == "" || auditLog.entityId == entityId {
            auditLogs := auditLogs + [auditLog];
          }
        }
        i := i + 1;
      }
      assert keys[..i] == keys;
      r := Success(auditLogs);
    }
  }
}
