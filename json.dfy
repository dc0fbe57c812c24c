/**
 * JSON documents as the chaincode's `encoding/json` sees them. Numbers are
 * integers in this model (the contract value is an amount in whole units).
 */
module Json {

  datatype Json =
    | JNull
    | JBool(b: bool)
    | JNumber(n: int)
    | JString(s: string)
    | JArray(items: seq<Json>)
    | JObject(members: map<string, Json>)

  /** The bytes held under a world-state key, or passed in as a payload. */
  datatype Blob =
    | Unparsable          // bytes that are not a JSON document
    | Document(json: Json)
}
