/**
 * The in-memory ledger simulator used by the Node.js server in place of a
 * real Fabric network.  It keeps contracts and audit logs in two
 * insertion-ordered maps (JavaScript `Map`s) behind a connection flag.
 *
 * Unlike the chaincode, `CreateContract` overwrites an existing record and
 * `UpdateContract` merges by object spread.  Transaction ids, block
 * numbers and clock readings, which the service draws from `Math.random`
 * and `Date`, are parameters here.
 */
module BlockchainService {
  import opened Wrappers
  import opened Decimal
  import opened JsValues
  import Records

  /**
   * A JavaScript `Map`: its keys in insertion order and the value bound to
   * each.  Keys compare structurally here (see `Service`).
   */
  datatype InsertionMap = InsertionMap(keys: seq<Value>, entries: map<Value, Object>)
  {
    ghost predicate Valid()
    {
      (forall i, j | 0 <= i < j < |keys| :: keys[i] != keys[j])
      && (forall k :: k in entries <==> k in keys)
    }

    /** `map.get(k)`, `None` standing for `undefined`. */
    function Get(k: Value): Option<Object>
    {
      if k in entries then Some(entries[k]) else None
    }

    /** `map.set(k, v)`: a new key goes last, an existing key keeps its place. */
    function Set(k: Value, v: Object): InsertionMap
    {
      InsertionMap(if k in entries then keys else keys + [k], entries[k := v])
    }

    /** `Array.from(map.values())`. */
    function Values(): (r: seq<Object>)
      requires Valid()
      ensures |r| == |keys|
      ensures forall i | 0 <= i < |keys| :: r[i] == entries[keys[i]]
    {
      seq(|keys|, i requires 0 <= i < |keys| => entries[keys[i]])
    }
  }

  const EmptyMap := InsertionMap([], map[])

  lemma EmptyMapValid()
    ensures EmptyMap.Valid() && EmptyMap.Values() == []
  {
  }

  /** Setting a key keeps the map well formed, binds the key and leaves every other key alone. */
  lemma SetValid(m: InsertionMap, k: Value, v: Object)
    requires m.Valid()
    ensures m.Set(k, v).Valid()
    ensures m.Set(k, v).Get(k) == Some(v)
    ensures forall k' | k' != k :: m.Set(k, v).Get(k') == m.Get(k')
  {
    var r := m.Set(k, v);
    if k !in m.entries {
      forall i, j | 0 <= i < j < |r.keys|
        ensures r.keys[i] != r.keys[j]
      {
        if j == |m.keys| {
          assert r.keys[j] == k && r.keys[i] == m.keys[i];
        }
      }
    }
  }

  /** Setting a key already present keeps the map well formed: the key order is untouched. */
  lemma SetExistingValid(m: InsertionMap, k: Value, v: Object)
    requires m.Valid() && k in m.entries
    ensures m.Set(k, v).Valid() && m.Set(k, v).keys == m.keys
  {
    assert m.Set(k, v).entries.Keys == m.entries.Keys;
  }

  /** Setting a key already present overwrites its value in place: the listing keeps its length and order. */
  lemma SetExistingValues(m: InsertionMap, k: Value, v: Object)
    requires m.Valid() && k in m.entries
    ensures m.Set(k, v).Values() == m.Values()[IndexIn(m.keys, k) := v]
  {
    var i := IndexIn(m.keys, k);
    var r := m.Set(k, v);
    assert r.keys == m.keys && r.entries == m.entries[k := v];
    assert r.entries.Keys == m.entries.Keys;
    var after, before := r.Values(), m.Values()[i := v];
    forall j | 0 <= j < |m.keys|
      ensures after[j] == before[j]
    {
      assert after[j] == r.entries[m.keys[j]];
      if j < i {
        assert m.keys[j] != m.keys[i];
      } else if i < j {
        assert m.keys[i] != m.keys[j];
      }
    }
    assert after == before;
  }

  /** Setting a new key appends its value to the listing. */
  lemma SetNewValues(m: InsertionMap, k: Value, v: Object)
    requires m.Valid() && k !in m.entries
    ensures m.Set(k, v).Values() == m.Values() + [v]
  {
    SetValid(m, k, v);
    var r := m.Set(k, v);
    forall j | 0 <= j < |r.keys|
      ensures r.Values()[j] == (m.Values() + [v])[j]
    {
      if j < |m.keys| {
        assert m.keys[j] != k;
      }
    }
  }

  /** The listing holds exactly the stored values. */
  lemma ValuesExact(m: InsertionMap, o: Object)
    requires m.Valid()
    ensures o in m.Values() <==> exists k :: m.Get(k) == Some(o)
  {
    if exists k :: m.Get(k) == Some(o) {
      var k :| m.Get(k) == Some(o);
      var i :| 0 <= i < |m.keys| && m.keys[i] == k;
      assert m.Values()[i] == o;
    }
    if o in m.Values() {
      var i :| 0 <= i < |m.Values()| && m.Values()[i] == o;
      assert m.Get(m.keys[i]) == Some(o);
    }
  }

  /** The position of a key in a sequence that holds it. */
  function IndexIn(keys: seq<Value>, k: Value): (i: nat)
    requires k in keys
    ensures i < |keys| && keys[i] == k
  {
    if keys[0] == k then 0 else 1 + IndexIn(keys[1..], k)
  }

  /** What a transaction of the simulated network yields. */
  datatype Tick = Tick(txId: string, blockNumber: int, iso: string)

  /** The receipt returned by every write: `{success: true, txId, blockNumber, ...}`. */
  datatype Receipt = Receipt(txId: string, blockNumber: int)

  /** The two errors the service throws. */
  datatype ServiceError = NotConnected | NotFound(contractId: Value)

  /** The properties a write stamps onto a stored contract. */
  const ContractStamps: set<string> := {"txId", "blockNumber", "createdAt", "updatedAt"}

  /** `{...contractData, txId, blockNumber, createdAt, updatedAt}`. */
  function NewContractRecord(contractData: Object, tx: Tick): (r: Object)
    ensures r.Keys == contractData.Keys + ContractStamps
    ensures Prop(r, "txId") == Str(tx.txId) && Prop(r, "blockNumber") == Num(tx.blockNumber)
    ensures Prop(r, "createdAt") == Str(tx.iso) && Prop(r, "updatedAt") == Str(tx.iso)
    ensures forall name | name !in ContractStamps :: Prop(r, name) == Prop(contractData, name)
  {
    contractData + map["txId" := Str(tx.txId), "blockNumber" := Num(tx.blockNumber),
                       "createdAt" := Str(tx.iso), "updatedAt" := Str(tx.iso)]
  }

  /** The properties an update stamps onto a contract, overriding the stored and the supplied ones. */
  const UpdateStamps: set<string> := {"txId", "blockNumber", "updatedAt"}

  /** `{...existingContract, ...updates, txId, blockNumber, updatedAt}`. */
  function UpdatedContractRecord(existing: Object, updates: Object, tx: Tick): (r: Object)
    ensures r.Keys == existing.Keys + updates.Keys + UpdateStamps
    ensures Prop(r, "txId") == Str(tx.txId) && Prop(r, "blockNumber") == Num(tx.blockNumber)
    ensures Prop(r, "updatedAt") == Str(tx.iso)
    ensures forall name | name !in UpdateStamps && name in updates :: Prop(r, name) == updates[name]
    ensures forall name | name !in UpdateStamps && name !in updates :: Prop(r, name) == Prop(existing, name)
  {
    existing + updates + map["txId" := Str(tx.txId), "blockNumber" := Num(tx.blockNumber),
                             "updatedAt" := Str(tx.iso)]
  }

  /** An update that supplies nothing still re-stamps the record but keeps its data, its `createdAt` included. */
  lemma EmptyUpdateKeepsData(existing: Object, tx: Tick)
    ensures forall name | name !in UpdateStamps :: Prop(UpdatedContractRecord(existing, map[], tx), name) == Prop(existing, name)
  {
  }

  /** `{...auditData, txId, blockNumber, createdAt}`. */
  function AuditLogRecord(auditData: Object, tx: Tick): (r: Object)
    ensures r.Keys == auditData.Keys + {"txId", "blockNumber", "createdAt"}
    ensures Prop(r, "txId") == Str(tx.txId) && Prop(r, "blockNumber") == Num(tx.blockNumber)
    ensures Prop(r, "createdAt") == Str(tx.iso)
    ensures forall name | name !in {"txId", "blockNumber", "createdAt"} :: Prop(r, name) == Prop(auditData, name)
  {
    auditData + map["txId" := Str(tx.txId), "blockNumber" := Num(tx.blockNumber), "createdAt" := Str(tx.iso)]
  }

  /**
   * The audit payload the service builds for a contract write: its id is
   * `audit-<id>-<Date.now()>`, the same shape as the chaincode's audit key.
   */
  function ContractAuditData(action: string, verb: string, id: Value, userId: Value, nowMillis: int, iso: string): (r: Object)
    ensures Prop(r, "id") == Str(Records.AuditKey(ToText(id), nowMillis))
    ensures Prop(r, "action") == Str(action) && Prop(r, "entityType") == Str("CONTRACT")
    ensures Prop(r, "entityId") == id && Prop(r, "userId") == userId
  {
    map["id" := Str(Records.AuditKey(ToText(id), nowMillis)),
        "action" := Str(action),
        "entityType" := Str("CONTRACT"),
        "entityId" := id,
        "userId" := userId,
        "timestamp" := Str(iso),
        "details" := Str("Contract " + ToText(id) + " " + verb),
        "ipAddress" := Str("127.0.0.1")]
  }

  /** `logs.filter(log => log.entityId === entityId)`, order kept. */
  function OfEntity(logs: seq<Object>, entityId: Value): seq<Object>
  {
    if |logs| == 0 then []
    else
      var rest := OfEntity(logs[..|logs| - 1], entityId);
      if Prop(logs[|logs| - 1], "entityId") == entityId then rest + [logs[|logs| - 1]] else rest
  }

  /** The filter keeps exactly the logs about the entity, and never more logs than it was given. */
  lemma {:induction false} OfEntityExact(logs: seq<Object>, entityId: Value)
    ensures forall o :: o in OfEntity(logs, entityId) <==> o in logs && Prop(o, "entityId") == entityId
    ensures |OfEntity(logs, entityId)| <= |logs|
  {
    if |logs| > 0 {
      var init := logs[..|logs| - 1];
      OfEntityExact(init, entityId);
      assert logs == init + [logs[|logs| - 1]];
    }
  }

  /** `getAuditLogs(entityId)`: every log for a falsy argument, otherwise those about that entity. */
  function AuditLogsFor(logs: seq<Object>, entityId: Value): seq<Object>
  {
    if Truthy(entityId) then OfEntity(logs, entityId) else logs
  }

  /** Two contract writes in the same millisecond share an audit id, so the later audit log replaces the earlier. */
  lemma AuditIdsCollide(id: Value, millis1: int, millis2: int)
    ensures Records.AuditKey(ToText(id), millis1) == Records.AuditKey(ToText(id), millis2) <==> millis1 == millis2
  {
    Records.AuditKeySameSecond(ToText(id), millis1, millis2);
  }

  /**
   * The service object.  Map keys are compared structurally; JavaScript
   * compares object keys by identity, which this model does not capture.
   */
  class Service {
    var isConnected: bool
    var contracts: InsertionMap
    var auditLogs: InsertionMap

    ghost predicate Valid()
      reads this
    {
      contracts.Valid() && auditLogs.Valid()
    }

    constructor()
      ensures Valid() && !isConnected
      ensures contracts == EmptyMap && auditLogs == EmptyMap
    {
      isConnected := false;
      contracts := EmptyMap;
      auditLogs := EmptyMap;
    }

    method Initialize() returns (ok: bool)
      modifies this
      ensures ok && isConnected
      ensures contracts == old(contracts) && auditLogs == old(auditLogs)
    {
      isConnected := true;
      ok := true;
    }

    method Disconnect()
      modifies this
      ensures !isConnected
      ensures contracts == old(contracts) && auditLogs == old(auditLogs)
    {
      isConnected := false;
    }

    method TestConnection() returns (connected: bool)
      ensures connected <==> isConnected
    {
      connected := isConnected;
    }

    /** Stores the audit payload stamped with the transaction under the payload's `id`, replacing any log there. */
    method CreateAuditLog(auditData: Object, tx: Tick) returns (r: Result<Receipt, ServiceError>)
      requires Valid()
      modifies this
      ensures Valid() && isConnected == old(isConnected) && contracts == old(contracts)
      ensures !old(isConnected) ==> r == Failure(NotConnected) && auditLogs == old(auditLogs)
      ensures old(isConnected) ==> r == Success(Receipt(tx.txId, tx.blockNumber))
      ensures old(isConnected) ==> auditLogs == old(auditLogs).Set(Prop(auditData, "id"), AuditLogRecord(auditData, tx))
    {
      if !isConnected {
        return Failure(NotConnected);
      }
      SetValid(auditLogs, Prop(auditData, "id"), AuditLogRecord(auditData, tx));
      auditLogs := auditLogs.Set(Prop(auditData, "id"), AuditLogRecord(auditData, tx));
      r := Success(Receipt(tx.txId, tx.blockNumber));
    }

    /**
     * Stores the contract under `contractData.id`, overwriting whatever was
     * there, and logs `CREATE_CONTRACT` for it.
     */
    method CreateContract(contractData: Object, tx: Tick, auditTx: Tick, nowMillis: int) returns (r: Result<Receipt, ServiceError>)
      requires Valid()
      modifies this
      ensures Valid() && isConnected == old(isConnected)
      ensures !old(isConnected) ==> r == Failure(NotConnected) && contracts == old(contracts) && auditLogs == old(auditLogs)
      ensures old(isConnected) ==> r == Success(Receipt(tx.txId, tx.blockNumber))
      ensures old(isConnected) ==>
        var id := Prop(contractData, "id");
        var audit := ContractAuditData("CREATE_CONTRACT", "created", id, Prop(contractData, "createdBy"), nowMillis, tx.iso);
        contracts == old(contracts).Set(id, NewContractRecord(contractData, tx))
        && auditLogs == old(auditLogs).Set(Prop(audit, "id"), AuditLogRecord(audit, auditTx))
    {
      if !isConnected {
        return Failure(NotConnected);
      }
      var id := Prop(contractData, "id");
      SetValid(contracts, id, NewContractRecord(contractData, tx));
      contracts := contracts.Set(id, NewContractRecord(contractData, tx));
      var audit := ContractAuditData("CREATE_CONTRACT", "created", id, Prop(contractData, "createdBy"), nowMillis, tx.iso);
      var _ := CreateAuditLog(audit, auditTx);
      r := Success(Receipt(tx.txId, tx.blockNumber));
    }

    /**
     * Spread-merges the updates into the stored contract and logs
     * `UPDATE_CONTRACT`, attributed to the contract's creator; an unknown
     * id changes nothing.
     */
    method UpdateContract(contractId: Value, updates: Object, tx: Tick, auditTx: Tick, nowMillis: int) returns (r: Result<Receipt, ServiceError>)
      requires Valid()
      modifies this
      ensures Valid() && isConnected == old(isConnected)
      ensures !old(isConnected) ==> r == Failure(NotConnected)
      ensures old(isConnected) && contractId !in old(contracts).entries ==> r == Failure(NotFound(contractId))
      ensures r.Failure? ==> contracts == old(contracts) && auditLogs == old(auditLogs)
      ensures old(isConnected) && contractId in old(contracts).entries ==>
        var existing := old(contracts).entries[contractId];
        var audit := ContractAuditData("UPDATE_CONTRACT", "updated", contractId, Prop(existing, "createdBy"), nowMillis, tx.iso);
        r == Success(Receipt(tx.txId, tx.blockNumber))
        && contracts == old(contracts).Set(contractId, UpdatedContractRecord(existing, updates, tx))
        && auditLogs == old(auditLogs).Set(Prop(audit, "id"), AuditLogRecord(audit, auditTx))
    {
      if !isConnected {
        return Failure(NotConnected);
      }
      var existing := contracts.Get(contractId);
      if existing.None? {
        return Failure(NotFound(contractId));
      }
      var updated := UpdatedContractRecord(existing.value, updates, tx);
      SetExistingValid(contracts, contractId, updated);
      contracts := contracts.Set(contractId, updated);
      var audit := ContractAuditData("UPDATE_CONTRACT", "updated", contractId, Prop(existing.value, "createdBy"), nowMillis, tx.iso);
      var _ := CreateAuditLog(audit, auditTx);
      r := Success(Receipt(tx.txId, tx.blockNumber));
    }

    /** The stored record, `None` (JavaScript `null`) for an unknown id. */
    method GetContract(contractId: Value) returns (r: Result<Option<Object>, ServiceError>)
      ensures !isConnected ==> r == Failure(NotConnected)
      ensures isConnected ==> r == Success(contracts.Get(contractId))
    {
      if !isConnected {
        return Failure(NotConnected);
      }
      r := Success(contracts.Get(contractId));
    }

    /** Every stored contract, in the order the ids were first stored. */
    method GetAllContracts() returns (r: Result<seq<Object>, ServiceError>)
      requires Valid()
      ensures !isConnected ==> r == Failure(NotConnected)
      ensures isConnected ==> r == Success(contracts.Values())
    {
      if !isConnected {
        return Failure(NotConnected);
      }
      r := Success(contracts.Values());
    }

    /** Every audit log for a falsy `entityId`, otherwise those whose `entityId` matches, in insertion order. */
    method GetAuditLogs(entityId: Value) returns (r: Result<seq<Object>, ServiceError>)
      requires Valid()
      ensures !isConnected ==> r == Failure(NotConnected)
      ensures isConnected ==> r == Success(AuditLogsFor(auditLogs.Values(), entityId))
    {
      if !isConnected {
        return Failure(NotConnected);
      }
      var logs := auditLogs.Values();
      if Truthy(entityId) {
        logs := OfEntity(logs, entityId);
      }
      r := Success(logs);
    }
  }

  /** Creating a contract whose id is already stored replaces the record in place: the listing keeps its length. */
  lemma CreateOverwrites(contracts: InsertionMap, contractData: Object, tx: Tick)
    requires contracts.Valid() && Prop(contractData, "id") in contracts.entries
    ensures |contracts.Set(Prop(contractData, "id"), NewContractRecord(contractData, tx)).Values()| == |contracts.Values()|
    ensures contracts.Set(Prop(contractData, "id"), NewContractRecord(contractData, tx)).Get(Prop(contractData, "id"))
         == Some(NewContractRecord(contractData, tx))
  {
    SetExistingValues(contracts, Prop(contractData, "id"), NewContractRecord(contractData, tx));
    SetValid(contracts, Prop(contractData, "id"), NewContractRecord(contractData, tx));
  }

  /** A created contract can be read back under its id, carrying the creation stamps. */
  lemma CreateThenGet(contracts: InsertionMap, contractData: Object, tx: Tick)
    requires contracts.Valid()
    ensures var stored := contracts.Set(Prop(contractData, "id"), NewContractRecord(contractData, tx)).Get(Prop(contractData, "id"));
      stored.Some? && Prop(stored.value, "createdAt") == Str(tx.iso) && Prop(stored.value, "txId") == Str(tx.txId)
  {
    SetValid(contracts, Prop(contractData, "id"), NewContractRecord(contractData, tx));
  }

  /** The creation audit log is found when the logs are asked for the contract's (truthy) id. */
  lemma CreationLogFound(logs: InsertionMap, contractData: Object, tx: Tick, auditTx: Tick, nowMillis: int)
    requires logs.Valid() && Truthy(Prop(contractData, "id"))
    ensures
      var id := Prop(contractData, "id");
      var audit := ContractAuditData("CREATE_CONTRACT", "created", id, Prop(contractData, "createdBy"), nowMillis, tx.iso);
      var after := logs.Set(Prop(audit, "id"), AuditLogRecord(audit, auditTx));
      after.Valid() && AuditLogRecord(audit, auditTx) in AuditLogsFor(after.Values(), id)
  {
    var id := Prop(contractData, "id");
    var audit := ContractAuditData("CREATE_CONTRACT", "created", id, Prop(contractData, "createdBy"), nowMillis, tx.iso);
    var record := AuditLogRecord(audit, auditTx);
    var after := logs.Set(Prop(audit, "id"), record);
    SetValid(logs, Prop(audit, "id"), record);
    ValuesExact(after, record);
    OfEntityExact(after.Values(), id);
    assert Prop(record, "entityId") == id;
  }
}
