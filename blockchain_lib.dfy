/**
 * Client-side blockchain helpers: shortening a transaction hash for
 * display, the required-field check on contract data, and the
 * listener registry that broadcasts blockchain events inside the web
 * client.
 */
module BlockchainLib {
  import opened JsValues

  /** Length of the head and of the tail kept by a shortened hash. */
  const KeptEnd := 8

  /**
   * A hash of at most 16 characters is shown as it is; a longer one as its
   * first 8 characters, an ellipsis and its last 8 characters.
   */
  function FormatTxHash(hash: string): (r: string)
    ensures |r| <= 19
    ensures |hash| <= 16 ==> r == hash
    ensures |hash| > 16 ==> |r| == 19 && r[..KeptEnd] == hash[..KeptEnd]
    ensures |hash| > 16 ==> r[KeptEnd..KeptEnd + 3] == "..." && r[KeptEnd + 3..] == hash[|hash| - KeptEnd..]
  {
    if |hash| <= 16 then hash
    else hash[..KeptEnd] + "..." + hash[|hash| - KeptEnd..]
  }

  /** Shortening an already shortened hash changes nothing. */
  lemma FormatTxHashIdempotent(hash: string)
    ensures FormatTxHash(FormatTxHash(hash)) == FormatTxHash(hash)
  {
    var r := FormatTxHash(hash);
    if |hash| > 16 {
      assert r == r[..KeptEnd] + r[KeptEnd..KeptEnd + 3] + r[KeptEnd + 3..];
      assert r[|r| - KeptEnd..] == r[KeptEnd + 3..];
    }
  }

  /** Two long hashes with the same head and tail cannot be told apart once shortened. */
  lemma FormatTxHashForgetsMiddle(h1: string, h2: string)
    requires |h1| > 16 && |h2| > 16
    ensures FormatTxHash(h1) == FormatTxHash(h2)
        <==> h1[..KeptEnd] == h2[..KeptEnd] && h1[|h1| - KeptEnd..] == h2[|h2| - KeptEnd..]
  {
    var r1, r2 := FormatTxHash(h1), FormatTxHash(h2);
    if r1 == r2 {
      assert h1[..KeptEnd] == r1[..KeptEnd] == r2[..KeptEnd] == h2[..KeptEnd];
      assert h1[|h1| - KeptEnd..] == r1[KeptEnd + 3..] == r2[KeptEnd + 3..] == h2[|h2| - KeptEnd..];
    }
  }

  /** The fields a contract payload must carry, each with a truthy value. */
  const RequiredFields: seq<string> := ["id", "title", "contractor", "value"]

  /** `!!(data.id && data.title && data.contractor && data.value)`. */
  function ValidateContractData(data: Object): (ok: bool)
    ensures ok <==> forall name | name in RequiredFields :: Truthy(Prop(data, name))
  {
    Truthy(Prop(data, "id")) && Truthy(Prop(data, "title"))
    && Truthy(Prop(data, "contractor")) && Truthy(Prop(data, "value"))
  }

  /**
   * For a payload with string id, title and contractor and a numeric value,
   * validation asks for three non-empty strings and a non-zero value; so a
   * contract worth 0 is rejected.
   */
  lemma ValidateTypedContractData(data: Object, id: string, title: string, contractor: string, value: int)
    requires Prop(data, "id") == Str(id) && Prop(data, "title") == Str(title)
    requires Prop(data, "contractor") == Str(contractor) && Prop(data, "value") == Num(value)
    ensures ValidateContractData(data) <==> id != "" && title != "" && contractor != "" && value != 0
  {
  }

  /** A payload that lacks any required field is rejected. */
  lemma ValidateNeedsEveryField(data: Object, name: string)
    requires name in RequiredFields && name !in data
    ensures !ValidateContractData(data)
  {
    assert Prop(data, name) == Undefined;
  }

  /** `Array.prototype.indexOf` under strict equality: the first position of x, or -1. */
  function IndexOf<T(==)>(s: seq<T>, x: T): (r: int)
    ensures -1 <= r < |s|
    ensures r == -1 <==> x !in s
    ensures 0 <= r ==> s[r] == x && x !in s[..r]
  {
    if |s| == 0 then -1
    else if s[0] == x then 0
    else
      var i := IndexOf(s[1..], x);
      assert s[1..][..if i < 0 then 0 else i] == s[1..1 + if i < 0 then 0 else i];
      if i < 0 then -1 else i + 1
  }

  /** `splice(indexOf(x), 1)` when x occurs: drops the first occurrence of x only. */
  function RemoveFirst<T(==)>(s: seq<T>, x: T): (r: seq<T>)
  {
    var i := IndexOf(s, x);
    if i < 0 then s else s[..i] + s[i + 1..]
  }

  /** Removal takes away exactly one registration of x and keeps every other one. */
  lemma RemoveFirstCounts<T>(s: seq<T>, x: T)
    ensures x !in s ==> RemoveFirst(s, x) == s
    ensures x in s ==> multiset(RemoveFirst(s, x)) == multiset(s) - multiset{x}
    ensures x in s ==> |RemoveFirst(s, x)| == |s| - 1
  {
    var i := IndexOf(s, x);
    if 0 <= i {
      assert s == s[..i] + [x] + s[i + 1..];
      calc {
        multiset(s);
        multiset(s[..i]) + multiset{x} + multiset(s[i + 1..]);
        multiset(s[..i] + s[i + 1..]) + multiset{x};
      }
    }
  }

  /** Removing a callback right after registering it (when it was not registered before) undoes the registration. */
  lemma RemoveFirstUndoesAppend<T>(s: seq<T>, x: T)
    requires x !in s
    ensures RemoveFirst(s + [x], x) == s
  {
    assert (s + [x])[|s|] == x;
    assert (s + [x])[..|s|] == s;
  }

  /** Removing the first occurrence keeps the other callbacks in their order: what remains is the list with one position cut out. */
  lemma RemoveFirstKeepsOrder<T>(s: seq<T>, x: T)
    requires x in s
    ensures exists i :: 0 <= i < |s| && s[i] == x && RemoveFirst(s, x) == s[..i] + s[i + 1..] && x !in s[..i]
  {
    var i := IndexOf(s, x);
    assert s[i] == x && RemoveFirst(s, x) == s[..i] + s[i + 1..];
  }

  /** One call of a listener: the callback and the data it was handed. */
  datatype Invocation<C, D> = Invocation(callback: C, data: D)

  /**
   * The event emitter keeps, per event name, the list of callbacks in
   * registration order; the same callback may be registered several times.
   * Callbacks are opaque values: what they do when called is not modelled,
   * `Emit` reports the calls it makes.
   */
  class EventEmitter<Callback(==)> {
    var listeners: map<string, seq<Callback>>

    /** The callbacks registered for an event, none when the event is unknown. */
    function Registered(event: string): seq<Callback>
      reads this
    {
      if event in listeners then listeners[event] else []
    }

    constructor()
      ensures listeners == map[]
    {
      listeners := map[];
    }

    /** Appends the callback to the event's list, creating the list if needed. */
    method On(event: string, callback: Callback)
      modifies this
      ensures listeners == old(listeners)[event := old(Registered(event)) + [callback]]
      ensures Registered(event) == old(Registered(event)) + [callback]
      ensures forall e :: e != event ==> Registered(e) == old(Registered(e))
    {
      if event !in listeners {
        listeners := listeners[event := []];
      }
      listeners := listeners[event := listeners[event] + [callback]];
    }

    /** Removes the first registration of the callback; nothing happens when the event or the callback is unknown. */
    method Off(event: string, callback: Callback)
      modifies this
      ensures event in old(listeners) ==> listeners == old(listeners)[event := RemoveFirst(old(listeners)[event], callback)]
      ensures event !in old(listeners) ==> listeners == old(listeners)
      ensures callback !in old(Registered(event)) ==> listeners == old(listeners)
    {
      if event in listeners {
        var callbacks := listeners[event];
        var index := IndexOf(callbacks, callback);
        if index > -1 {
          listeners := listeners[event := callbacks[..index] + callbacks[index + 1..]];
        } else {
          assert listeners == listeners[event := callbacks];
        }
      }
    }

    /** Calls every callback registered for the event, once per registration, in registration order. */
    method Emit<Data>(event: string, data: Data) returns (calls: seq<Invocation<Callback, Data>>)
      ensures |calls| == |Registered(event)|
      ensures forall i | 0 <= i < |calls| :: calls[i] == Invocation(Registered(event)[i], data)
      ensures event !in listeners ==> calls == []
    {
      calls := [];
      if event in listeners {
        var callbacks := listeners[event];
        var i := 0;
        while i < |callbacks|
          invariant 0 <= i <= |callbacks|
          invariant |calls| == i
          invariant forall j | 0 <= j < i :: calls[j] == Invocation(callbacks[j], data)
        {
          calls := calls + [Invocation(callbacks[i], data)];
          i := i + 1;
        }
      }
    }
  }
}
