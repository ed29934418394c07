/**
 * Python dicts built by a loop of the shape
 *
 *     d = {}
 *     for x in xs:
 *         if <x yields a pair (k, v)>:
 *             d[k] = v
 *
 * which every parser of the backend uses (headers, cookies, form fields, the
 * `key=value` fields of the persistence files): a later pair overwrites an
 * earlier one with the same key, and an item that yields no pair is skipped.
 */
module Dicts {
  import opened Wrappers

  /** Python's `d.get(k, default)`. */
  function Get<K, V>(m: map<K, V>, k: K, default: V): V {
    if k in m then m[k] else default
  }

  /** Python's `d.get(k)`, with `None` for a missing key. */
  function Lookup<K, V>(m: map<K, V>, k: K): (r: Option<V>)
    ensures r.Some? <==> k in m
    ensures r.Some? ==> r.value == m[k]
  {
    if k in m then Some(m[k]) else None
  }

  /** Item `x` yields a pair whose key is `k`. */
  predicate Yields<A, K(==), V>(f: A -> Option<(K, V)>, x: A, k: K) {
    f(x).Some? && f(x).value.0 == k
  }

  /** The dict the loop above builds from an empty one. */
  function Assemble<A, K, V>(f: A -> Option<(K, V)>, xs: seq<A>): map<K, V>
    decreases |xs|
  {
    if xs == [] then map[]
    else
      var m := Assemble(f, xs[..|xs| - 1]);
      match f(xs[|xs| - 1])
      case None => m
      case Some(kv) => m[kv.0 := kv.1]
  }

  /** A key is present exactly when some item yields it. */
  lemma {:induction false} AssembleKeys<A, K, V>(f: A -> Option<(K, V)>, xs: seq<A>, k: K)
    ensures k in Assemble(f, xs) <==> exists i :: 0 <= i < |xs| && Yields(f, xs[i], k)
  {
    if xs != [] {
      var init := xs[..|xs| - 1];
      AssembleKeys(f, init, k);
      if k in Assemble(f, init) {
        var i :| 0 <= i < |init| && Yields(f, init[i], k);
        assert xs[i] == init[i];
      }
      if exists i :: 0 <= i < |xs| && Yields(f, xs[i], k) {
        var i :| 0 <= i < |xs| && Yields(f, xs[i], k);
        if i < |init| {
          assert init[i] == xs[i];
        }
      }
    }
  }

  /** The value stored under a key comes from the last item that yields that key. */
  lemma {:induction false} AssembleValue<A, K, V>(f: A -> Option<(K, V)>, xs: seq<A>, i: nat)
    requires i < |xs| && f(xs[i]).Some?
    requires forall j :: i < j < |xs| ==> !Yields(f, xs[j], f(xs[i]).value.0)
    ensures f(xs[i]).value.0 in Assemble(f, xs)
    ensures Assemble(f, xs)[f(xs[i]).value.0] == f(xs[i]).value.1
  {
    var init := xs[..|xs| - 1];
    if i < |xs| - 1 {
      assert init[i] == xs[i];
      forall j | i < j < |init| ensures !Yields(f, init[j], f(init[i]).value.0) {
        assert init[j] == xs[j];
      }
      AssembleValue(f, init, i);
    }
  }

  /** Items that yield the same pairs build the same dict. */
  lemma {:induction false} AssembleCongruent<A, B, K, V>(
    f: A -> Option<(K, V)>, xs: seq<A>, g: B -> Option<(K, V)>, ys: seq<B>)
    requires |xs| == |ys|
    requires forall i :: 0 <= i < |xs| ==> f(xs[i]) == g(ys[i])
    ensures Assemble(f, xs) == Assemble(g, ys)
  {
    if xs != [] {
      AssembleCongruent(f, xs[..|xs| - 1], g, ys[..|ys| - 1]);
    }
  }

  /** The loop itself. */
  method Collect<A, K, V>(f: A -> Option<(K, V)>, xs: seq<A>) returns (d: map<K, V>)
    ensures d == Assemble(f, xs)
  {
    d := map[];
    var i := 0;
    while i < |xs|
      invariant 0 <= i <= |xs|
      invariant d == Assemble(f, xs[..i])
    {
      assert xs[..i + 1][..i] == xs[..i];
      match f(xs[i]) {
        case Some(kv) => d := d[kv.0 := kv.1];
        case None =>
      }
      i := i + 1;
    }
    assert xs[..i] == xs;
  }
}
