/** Values of the host language that every other module speaks about:
    `None`, exceptions raised by built-in operations, function objects, and
    the `list(d.keys())` idiom. */
module Runtime {

  datatype Option<+T> = None | Some(value: T)

  /** The built-in exceptions the modelled code can raise. */
  datatype Error = KeyError | IndexError | ValueError | TypeError | AttributeError

  /** The outcome of a call: it returned a value, or it raised. */
  datatype Outcome<+T> = Returned(value: T) | Raised(error: Error)

  /** A function object, seen through its `__name__` and its identity. */
  datatype Callable = Callable(name: string, id: nat)

  ghost predicate Distinct<T>(s: seq<T>) {
    forall i, j :: 0 <= i < j < |s| ==> s[i] != s[j]
  }

  /** `list(m.keys())`: every key exactly once. Dictionary insertion order is
      not part of a `map`, so the order of the list is left open. */
  method KeysList<K, V>(m: map<K, V>) returns (keys: seq<K>)
    ensures Distinct(keys)
    ensures |keys| == |m|
    ensures forall k :: k in keys <==> k in m
  {
    keys := [];
    var rest := m.Keys;
    while rest != {}
      invariant rest <= m.Keys
      invariant Distinct(keys)
      invariant forall k :: k in keys <==> k in m && k !in rest
      invariant |keys| + |rest| == |m.Keys|
      decreases |rest|
    {
      var k :| k in rest;
      keys := keys + [k];
      rest := rest - {k};
    }
    assert m.Keys == set k | k in keys;
  }
}
