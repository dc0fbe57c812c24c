/**
 * The order in which a world-state range scan visits keys: byte-wise
 * lexicographic order of the UTF-8 keys, which is code-point order.
 */
module KeyOrder {

  /** a sorts strictly before b. */
  predicate Below(a: string, b: string)
    decreases |a|
  {
    if a == [] then b != []
    else if b == [] then false
    else if a[0] == b[0] then Below(a[1..], b[1..])
    else a[0] < b[0]
  }

  lemma {:induction false} BelowIrreflexive(a: string)
    ensures !Below(a, a)
  {
    if a != [] {
      BelowIrreflexive(a[1..]);
    }
  }

  lemma {:induction false} BelowTransitive(a: string, b: string, c: string)
    requires Below(a, b) && Below(b, c)
    ensures Below(a, c)
    decreases |a|
  {
    if a != [] && b != [] && c != [] && a[0] == b[0] && b[0] == c[0] {
      BelowTransitive(a[1..], b[1..], c[1..]);
    }
  }

  lemma {:induction false} BelowTotal(a: string, b: string)
    ensures a == b || Below(a, b) || Below(b, a)
    decreases |a|
  {
    if a != [] && b != [] && a[0] == b[0] {
      BelowTotal(a[1..], b[1..]);
      if a[1..] == b[1..] {
        assert a == [a[0]] + a[1..] && b == [b[0]] + b[1..];
      }
    }
  }

  /** Keys listed in strictly increasing order (hence without repetition). */
  predicate Ascending(keys: seq<string>)
  {
    forall i, j :: 0 <= i < j < |keys| ==> Below(keys[i], keys[j])
  }

  /**
   * Inserting a key that is not yet present at the position a scan would
   * reach it keeps the listing ascending.
   */
  method Insert(keys: seq<string>, key: string) returns (r: seq<string>)
    requires Ascending(keys) && key !in keys
    ensures Ascending(r)
    ensures forall k :: k in r <==> k in keys || k == key
  {
    var i := 0;
    while i < |keys| && Below(keys[i], key)
      invariant 0 <= i <= |keys|
      invariant forall j :: 0 <= j < i ==> Below(keys[j], key)
    {
      i := i + 1;
    }
    if i < |keys| {
      BelowTotal(keys[i], key);
      forall j | i <= j < |keys|
        ensures Below(key, keys[j])
      {
        if j > i {
          BelowTransitive(key, keys[i], keys[j]);
        }
      }
    }
    r := keys[..i] + [key] + keys[i..];
    assert forall j :: 0 <= j < |r| ==> r[j] == (if j < i then keys[j] else if j == i then key else keys[j - 1]);
    assert forall k :: k in keys <==> k in keys[..i] || k in keys[i..] by {
      assert keys == keys[..i] + keys[i..];
    }
  }
}
