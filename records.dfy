/**
 * The two record shapes the chaincode keeps in its world state, their JSON
 * encoding and decoding (Go's `encoding/json` rules for a fresh struct),
 * the field merge of UpdateContract and the audit entries it derives.
 */
module Records {
  import opened Wrappers
  import opened Json
  import opened Decimal

  datatype Contract = Contract(
    id: string,
    title: string,
    contractor: string,
    value: int,
    startDate: string,
    endDate: string,
    status: string,
    createdBy: string,
    createdAt: string,
    updatedAt: string,
    description: string,
    attachments: seq<string>)

  datatype AuditLog = AuditLog(
    id: string,
    action: string,
    entityType: string,
    entityId: string,
    userId: string,
    timestamp: string,
    details: string,
    ipAddress: string)

  /** The zero value of the Go struct: what decoding `null` yields. */
  const EmptyContract := Contract("", "", "", 0, "", "", "", "", "", "", "", [])
  const EmptyAuditLog := AuditLog("", "", "", "", "", "", "", "")

  // ---------------------------------------------------------------- encoding

  function StringsToJson(xs: seq<string>): (r: seq<Json>)
    ensures |r| == |xs|
  {
    if xs == [] then [] else [JString(xs[0])] + StringsToJson(xs[1..])
  }

  /** json.Marshal of a Contract: every field under its JSON tag. */
  function EncodeContract(c: Contract): Json
  {
    JObject(map[
      "id" := JString(c.id),
      "title" := JString(c.title),
      "contractor" := JString(c.contractor),
      "value" := JNumber(c.value),
      "startDate" := JString(c.startDate),
      "endDate" := JString(c.endDate),
      "status" := JString(c.status),
      "createdBy" := JString(c.createdBy),
      "createdAt" := JString(c.createdAt),
      "updatedAt" := JString(c.updatedAt),
      "description" := JString(c.description),
      "attachments" := JArray(StringsToJson(c.attachments))])
  }

  /** json.Marshal of an AuditLog. */
  function EncodeAuditLog(a: AuditLog): Json
  {
    JObject(map[
      "id" := JString(a.id),
      "action" := JString(a.action),
      "entityType" := JString(a.entityType),
      "entityId" := JString(a.entityId),
      "userId" := JString(a.userId),
      "timestamp" := JString(a.timestamp),
      "details" := JString(a.details),
      "ipAddress" := JString(a.ipAddress)])
  }

  // ---------------------------------------------------------------- decoding

  /** A string field: absent or null leaves "", another JSON type is an error. */
  function StringMember(m: map<string, Json>, name: string): Option<string>
  {
    if name !in m then Some("")
    else match m[name]
      case JNull => Some("")
      case JString(s) => Some(s)
      case _ => None
  }

  /** A numeric field: absent or null leaves 0. */
  function NumberMember(m: map<string, Json>, name: string): Option<int>
  {
    if name !in m then Some(0)
    else match m[name]
      case JNull => Some(0)
      case JNumber(n) => Some(n)
      case _ => None
  }

  function StringItems(items: seq<Json>): Option<seq<string>>
  {
    if items == [] then Some([])
    else
      var rest :- StringItems(items[1..]);
      match items[0]
      case JNull => Some([""] + rest)
      case JString(s) => Some([s] + rest)
      case _ => None
  }

  /** A []string field: absent or null leaves the empty list. */
  function StringsMember(m: map<string, Json>, name: string): Option<seq<string>>
  {
    if name !in m then Some([])
    else match m[name]
      case JNull => Some([])
      case JArray(items) => StringItems(items)
      case _ => None
  }

  /** The fields of a Contract read from the members of a JSON object. */
  function ContractFromMembers(m: map<string, Json>): Option<Contract>
  {
    var id, title, contractor := StringMember(m, "id"), StringMember(m, "title"), StringMember(m, "contractor");
    var value, startDate, endDate := NumberMember(m, "value"), StringMember(m, "startDate"), StringMember(m, "endDate");
    var status, createdBy, createdAt := StringMember(m, "status"), StringMember(m, "createdBy"), StringMember(m, "createdAt");
    var updatedAt, description := StringMember(m, "updatedAt"), StringMember(m, "description");
    var attachments := StringsMember(m, "attachments");
    if id.Some? && title.Some? && contractor.Some? && value.Some? && startDate.Some?
       && endDate.Some? && status.Some? && createdBy.Some? && createdAt.Some?
       && updatedAt.Some? && description.Some? && attachments.Some?
    then
      Some(Contract(id.value, title.value, contractor.value, value.value, startDate.value,
                    endDate.value, status.value, createdBy.value, createdAt.value,
                    updatedAt.value, description.value, attachments.value))
    else None
  }

  /** json.Unmarshal into a fresh Contract; None is the unmarshal error. */
  function DecodeContract(b: Blob): Option<Contract>
  {
    match b
    case Document(JNull) => Some(EmptyContract)
    case Document(JObject(m)) => ContractFromMembers(m)
    case _ => None
  }

  /** The fields of an AuditLog read from the members of a JSON object. */
  function AuditLogFromMembers(m: map<string, Json>): Option<AuditLog>
  {
    var id, action, entityType := StringMember(m, "id"), StringMember(m, "action"), StringMember(m, "entityType");
    var entityId, userId, timestamp := StringMember(m, "entityId"), StringMember(m, "userId"), StringMember(m, "timestamp");
    var details, ipAddress := StringMember(m, "details"), StringMember(m, "ipAddress");
    if id.Some? && action.Some? && entityType.Some? && entityId.Some? && userId.Some?
       && timestamp.Some? && details.Some? && ipAddress.Some?
    then
      Some(AuditLog(id.value, action.value, entityType.value, entityId.value,
                    userId.value, timestamp.value, details.value, ipAddress.value))
    else None
  }

  /** json.Unmarshal into a fresh AuditLog. */
  function DecodeAuditLog(b: Blob): Option<AuditLog>
  {
    match b
    case Document(JNull) => Some(EmptyAuditLog)
    case Document(JObject(m)) => AuditLogFromMembers(m)
    case _ => None
  }

  /** json.Unmarshal into a `map[string]interface{}`: null gives the nil map. */
  function DecodeUpdates(b: Blob): Option<map<string, Json>>
  {
    match b
    case Document(JObject(m)) => Some(m)
    case Document(JNull) => Some(map[])
    case _ => None
  }

  lemma {:induction false} StringItemsRoundTrip(xs: seq<string>)
    ensures StringItems(StringsToJson(xs)) == Some(xs)
  {
    if xs != [] {
      var js := StringsToJson(xs);
      assert js[0] == JString(xs[0]) && js[1..] == StringsToJson(xs[1..]);
      StringItemsRoundTrip(xs[1..]);
      assert [xs[0]] + xs[1..] == xs;
    }
  }

  /** Members that spell out every field of c decode to exactly c. */
  lemma ContractFromExactMembers(m: map<string, Json>, c: Contract)
    requires StringMember(m, "id") == Some(c.id) && StringMember(m, "title") == Some(c.title)
    requires StringMember(m, "contractor") == Some(c.contractor) && NumberMember(m, "value") == Some(c.value)
    requires StringMember(m, "startDate") == Some(c.startDate) && StringMember(m, "endDate") == Some(c.endDate)
    requires StringMember(m, "status") == Some(c.status) && StringMember(m, "createdBy") == Some(c.createdBy)
    requires StringMember(m, "createdAt") == Some(c.createdAt) && StringMember(m, "updatedAt") == Some(c.updatedAt)
    requires StringMember(m, "description") == Some(c.description)
    requires StringsMember(m, "attachments") == Some(c.attachments)
    ensures ContractFromMembers(m) == Some(c)
  {
  }

  lemma EncodedContractIdentity(c: Contract)
    ensures var m := EncodeContract(c).members;
      && StringMember(m, "id") == Some(c.id) && StringMember(m, "title") == Some(c.title)
      && StringMember(m, "contractor") == Some(c.contractor) && NumberMember(m, "value") == Some(c.value)
  {
  }

  lemma EncodedContractTerms(c: Contract)
    ensures var m := EncodeContract(c).members;
      && StringMember(m, "startDate") == Some(c.startDate) && StringMember(m, "endDate") == Some(c.endDate)
      && StringMember(m, "status") == Some(c.status) && StringMember(m, "createdBy") == Some(c.createdBy)
  {
  }

  lemma EncodedContractHistory(c: Contract)
    ensures var m := EncodeContract(c).members;
      && StringMember(m, "createdAt") == Some(c.createdAt) && StringMember(m, "updatedAt") == Some(c.updatedAt)
      && StringMember(m, "description") == Some(c.description)
      && StringsMember(m, "attachments") == Some(c.attachments)
  {
    StringItemsRoundTrip(c.attachments);
  }

  /** A stored contract reads back as the contract that was written. */
  lemma ContractRoundTrip(c: Contract)
    ensures DecodeContract(Document(EncodeContract(c))) == Some(c)
  {
    EncodedContractIdentity(c);
    EncodedContractTerms(c);
    EncodedContractHistory(c);
    ContractFromExactMembers(EncodeContract(c).members, c);
  }

  /** A stored audit entry reads back as the entry that was written. */
  lemma AuditLogRoundTrip(a: AuditLog)
    ensures DecodeAuditLog(Document(EncodeAuditLog(a))) == Some(a)
  {
  }

  // ------------------------------------------- telling the two shapes apart

  /** The listing filter for contracts: non-empty id and title. */
  predicate IsContractShaped(c: Contract) { c.id != "" && c.title != "" }

  /** The listing filter for audit entries: non-empty id and action. */
  predicate IsAuditShaped(a: AuditLog) { a.id != "" && a.action != "" }

  /** Members that spell out every field of a decode to exactly a. */
  lemma AuditLogFromExactMembers(m: map<string, Json>, a: AuditLog)
    requires StringMember(m, "id") == Some(a.id) && StringMember(m, "action") == Some(a.action)
    requires StringMember(m, "entityType") == Some(a.entityType) && StringMember(m, "entityId") == Some(a.entityId)
    requires StringMember(m, "userId") == Some(a.userId) && StringMember(m, "timestamp") == Some(a.timestamp)
    requires StringMember(m, "details") == Some(a.details) && StringMember(m, "ipAddress") == Some(a.ipAddress)
    ensures AuditLogFromMembers(m) == Some(a)
  {
  }

  /** The first audit fields read from an encoded contract: its id, then empty fields. */
  lemma ContractAsAuditHead(c: Contract)
    ensures var m := EncodeContract(c).members;
      StringMember(m, "id") == Some(c.id) && StringMember(m, "action") == Some("")
      && StringMember(m, "entityType") == Some("") && StringMember(m, "entityId") == Some("")
  {
  }

  /** The remaining audit fields read from an encoded contract: all empty. */
  lemma ContractAsAuditTail(c: Contract)
    ensures var m := EncodeContract(c).members;
      StringMember(m, "userId") == Some("") && StringMember(m, "timestamp") == Some("")
      && StringMember(m, "details") == Some("") && StringMember(m, "ipAddress") == Some("")
  {
  }

  /** The identifying contract fields read from an encoded audit entry: its id, then empty or zero. */
  lemma AuditAsContractIdentity(a: AuditLog)
    ensures var m := EncodeAuditLog(a).members;
      StringMember(m, "id") == Some(a.id) && StringMember(m, "title") == Some("")
      && StringMember(m, "contractor") == Some("") && NumberMember(m, "value") == Some(0)
  {
  }

  lemma AuditAsContractTerms(a: AuditLog)
    ensures var m := EncodeAuditLog(a).members;
      StringMember(m, "startDate") == Some("") && StringMember(m, "endDate") == Some("")
      && StringMember(m, "status") == Some("") && StringMember(m, "createdBy") == Some("")
  {
  }

  lemma AuditAsContractHistory(a: AuditLog)
    ensures var m := EncodeAuditLog(a).members;
      StringMember(m, "createdAt") == Some("") && StringMember(m, "updatedAt") == Some("")
      && StringMember(m, "description") == Some("") && StringsMember(m, "attachments") == Some([])
  {
  }

  /**
   * A stored audit entry also decodes as a Contract, but with an empty
   * title, so the contract listing never includes it.
   */
  lemma AuditEntryIsNoContract(a: AuditLog)
    ensures DecodeContract(Document(EncodeAuditLog(a))).Some?
    ensures !IsContractShaped(DecodeContract(Document(EncodeAuditLog(a))).value)
  {
    var j := EncodeAuditLog(a);
    assert j.JObject?;
    AuditMembersDecodeAsContract(a);
    assert DecodeContract(Document(j)) == ContractFromMembers(j.members);
  }

  lemma AuditMembersDecodeAsContract(a: AuditLog)
    ensures ContractFromMembers(EncodeAuditLog(a).members) == Some(Contract(a.id, "", "", 0, "", "", "", "", "", "", "", []))
  {
    AuditAsContractIdentity(a);
    AuditAsContractTerms(a);
    AuditAsContractHistory(a);
    ContractFromExactMembers(EncodeAuditLog(a).members, Contract(a.id, "", "", 0, "", "", "", "", "", "", "", []));
  }

  /**
   * A stored contract also decodes as an AuditLog, but with an empty action,
   * so the audit listing never includes it.
   */
  lemma ContractIsNoAuditEntry(c: Contract)
    ensures DecodeAuditLog(Document(EncodeContract(c))).Some?
    ensures !IsAuditShaped(DecodeAuditLog(Document(EncodeContract(c))).value)
  {
    var j := EncodeContract(c);
    assert j.JObject?;
    ContractMembersDecodeAsAudit(c);
    assert DecodeAuditLog(Document(j)) == AuditLogFromMembers(j.members);
  }

  lemma ContractMembersDecodeAsAudit(c: Contract)
    ensures AuditLogFromMembers(EncodeContract(c).members) == Some(AuditLog(c.id, "", "", "", "", "", "", ""))
  {
    ContractAsAuditHead(c);
    ContractAsAuditTail(c);
    AuditLogFromExactMembers(EncodeContract(c).members, AuditLog(c.id, "", "", "", "", "", "", ""));
  }

  // -------------------------------------------------------------- the merge

  /** The seven fields UpdateContract may overwrite, by JSON name. */
  const MutableFields: set<string> :=
    {"title", "contractor", "value", "startDate", "endDate", "status", "description"}

  /** The update payload carries `name` with a JSON string. */
  predicate GivesString(u: map<string, Json>, name: string) { name in u && u[name].JString? }

  /** The update payload carries `name` with a JSON number. */
  predicate GivesNumber(u: map<string, Json>, name: string) { name in u && u[name].JNumber? }

  /** The update payload carries `name` with the type the field expects. */
  predicate GivesField(u: map<string, Json>, name: string)
  {
    if name == "value" then GivesNumber(u, name) else GivesString(u, name)
  }

  function StringOr(u: map<string, Json>, name: string, current: string): string
  {
    if GivesString(u, name) then u[name].s else current
  }

  /** The string-typed mutable field of c named `name` in JSON. */
  function TextField(c: Contract, name: string): string
  {
    match name
    case "title" => c.title
    case "contractor" => c.contractor
    case "startDate" => c.startDate
    case "endDate" => c.endDate
    case "status" => c.status
    case "description" => c.description
    case _ => ""
  }

  /**
   * The record UpdateContract writes: each mutable field is taken from the
   * payload when the payload carries it with the expected JSON type, and
   * the update time is always replaced.
   */
  function MergeUpdates(c: Contract, u: map<string, Json>, updatedAt: string): (r: Contract)
    ensures r.id == c.id && r.createdBy == c.createdBy
    ensures r.createdAt == c.createdAt && r.attachments == c.attachments
    ensures r.updatedAt == updatedAt
    ensures r.value == (if GivesNumber(u, "value") then u["value"].n else c.value)
    ensures forall name | name in MutableFields - {"value"} ::
              TextField(r, name) == (if GivesString(u, name) then u[name].s else TextField(c, name))
  {
    c.(title := StringOr(u, "title", c.title),
       contractor := StringOr(u, "contractor", c.contractor),
       value := if GivesNumber(u, "value") then u["value"].n else c.value,
       startDate := StringOr(u, "startDate", c.startDate),
       endDate := StringOr(u, "endDate", c.endDate),
       status := StringOr(u, "status", c.status),
       description := StringOr(u, "description", c.description),
       updatedAt := updatedAt)
  }

  /** A payload that carries no mutable field with the right type only moves the update time. */
  lemma MergeWithoutUsableFields(c: Contract, u: map<string, Json>, updatedAt: string)
    requires forall name | name in MutableFields :: !GivesField(u, name)
    ensures MergeUpdates(c, u, updatedAt) == c.(updatedAt := updatedAt)
  {
    assert !GivesField(u, "title") && !GivesField(u, "contractor") && !GivesField(u, "value");
    assert !GivesField(u, "startDate") && !GivesField(u, "endDate");
    assert !GivesField(u, "status") && !GivesField(u, "description");
  }

  /** Applying the same payload twice at the same time is the same as once. */
  lemma MergeIdempotent(c: Contract, u: map<string, Json>, updatedAt: string)
    ensures MergeUpdates(MergeUpdates(c, u, updatedAt), u, updatedAt) == MergeUpdates(c, u, updatedAt)
  {
  }

  /** Members outside the seven mutable fields never influence the merge. */
  lemma MergeIgnoresOtherMembers(c: Contract, u: map<string, Json>, extra: string, j: Json, updatedAt: string)
    requires extra !in MutableFields
    ensures MergeUpdates(c, u[extra := j], updatedAt) == MergeUpdates(c, u, updatedAt)
  {
  }

  // ------------------------------------------------------------ audit entries

  /** The world-state key of the audit entry for `id` at transaction time `seconds`. */
  function AuditKey(id: string, seconds: int): string
  {
    "audit-" + id + "-" + IntToString(seconds)
  }

  /** The audit entry CreateContract / UpdateContract derive. */
  function AuditEntry(action: string, verb: string, id: string, userId: string, seconds: int): (a: AuditLog)
    ensures a.id == AuditKey(id, seconds) && a.action == action && a.entityId == id
  {
    AuditLog(AuditKey(id, seconds), action, "CONTRACT", id, userId,
             IntToString(seconds), "Contract " + id + " " + verb, "127.0.0.1")
  }

  function CreationEntry(id: string, userId: string, seconds: int): AuditLog
  {
    AuditEntry("CREATE_CONTRACT", "created", id, userId, seconds)
  }

  function UpdateEntry(id: string, userId: string, seconds: int): AuditLog
  {
    AuditEntry("UPDATE_CONTRACT", "updated", id, userId, seconds)
  }

  /** An audit key never coincides with the key of the contract it describes. */
  lemma AuditKeyDiffersFromSubject(id: string, seconds: int)
    ensures AuditKey(id, seconds) != id
  {
    assert |AuditKey(id, seconds)| > |id|;
  }

  /**
   * For one contract, audit keys coincide exactly when the transaction
   * seconds coincide: two mutations within the same second share a key.
   */
  lemma AuditKeySameSecond(id: string, s1: int, s2: int)
    ensures AuditKey(id, s1) == AuditKey(id, s2) <==> s1 == s2
  {
    var p := "audit-" + id + "-";
    if AuditKey(id, s1) == AuditKey(id, s2) {
      assert AuditKey(id, s1) == p + IntToString(s1);
      assert AuditKey(id, s2) == p + IntToString(s2);
      assert IntToString(s1) == AuditKey(id, s1)[|p|..];
      assert IntToString(s2) == AuditKey(id, s2)[|p|..];
      IntToStringInjective(s1, s2);
    }
  }
}
