/** Ordered association lists, the model of a JavaScript plain object used as
    a dictionary: its own properties in insertion order, each with a value. */
module Assoc {
  import opened Wrappers
  import opened OrderedSet

  type Assoc<V> = seq<(string, V)>

  /** `Object.keys`: the property names in insertion order. */
  function Keys<V>(a: Assoc<V>): (ks: seq<string>) {
    seq(|a|, i requires 0 <= i < |a| => a[i].0)
  }

  /** A JavaScript object never holds two properties of the same name. */
  predicate WellFormed<V>(a: Assoc<V>) {
    Distinct(Keys(a))
  }

  /** Property read `a[k]`: the value of the first binding of `k`. */
  function Get<V>(a: Assoc<V>, k: string): (r: Option<V>)
    ensures r.None? <==> k !in Keys(a)
    ensures r.Some? ==> (k, r.value) in a
  {
    if |a| == 0 then None
    else
      KeysCons(a);
      if a[0].0 == k then Some(a[0].1) else Get(a[1..], k)
  }

  lemma KeysCons<V>(a: Assoc<V>)
    requires |a| > 0
    ensures Keys(a) == [a[0].0] + Keys(a[1..])
  {
  }

  /** Property write `a[k] = v`: an existing property keeps its position and
      takes the new value, a new one is appended. */
  function Put<V>(a: Assoc<V>, k: string, v: V): (r: Assoc<V>)
    ensures Keys(r) == Add(Keys(a), k)
    ensures Get(r, k) == Some(v)
    ensures forall k' :: k' != k ==> Get(r, k') == Get(a, k')
  {
    if |a| == 0 then [(k, v)]
    else if a[0].0 == k then
      PutHead(a, k, v);
      [(k, v)] + a[1..]
    else
      var rest := Put(a[1..], k, v);
      PutTail(a, k, v, rest);
      [a[0]] + rest
  }

  /** `Put` on a list whose first property is the one written. */
  lemma PutHead<V>(a: Assoc<V>, k: string, v: V)
    requires |a| > 0 && a[0].0 == k
    ensures Keys([(k, v)] + a[1..]) == Add(Keys(a), k)
    ensures Get([(k, v)] + a[1..], k) == Some(v)
    ensures forall k' :: k' != k ==> Get([(k, v)] + a[1..], k') == Get(a, k')
  {
    var r := [(k, v)] + a[1..];
    assert r[1..] == a[1..];
    assert Keys(r) == Keys(a);
  }

  /** `Put` on a list whose first property is another one, given the
      result `rest` of writing into the tail. */
  lemma PutTail<V>(a: Assoc<V>, k: string, v: V, rest: Assoc<V>)
    requires |a| > 0 && a[0].0 != k
    requires Keys(rest) == Add(Keys(a[1..]), k)
    requires Get(rest, k) == Some(v)
    requires forall k' :: k' != k ==> Get(rest, k') == Get(a[1..], k')
    ensures Keys([a[0]] + rest) == Add(Keys(a), k)
    ensures Get([a[0]] + rest, k) == Some(v)
    ensures forall k' :: k' != k ==> Get([a[0]] + rest, k') == Get(a, k')
  {
    var r := [a[0]] + rest;
    assert r[1..] == rest;
    PutTailKeys(a, k, rest);
  }

  lemma PutTailKeys<V>(a: Assoc<V>, k: string, rest: Assoc<V>)
    requires |a| > 0 && a[0].0 != k
    requires Keys(rest) == Add(Keys(a[1..]), k)
    ensures Keys([a[0]] + rest) == Add(Keys(a), k)
  {
    var r := [a[0]] + rest;
    var ks := Keys(a[1..]);
    assert r[1..] == rest;
    assert Keys(r) == [a[0].0] + Keys(rest);
    assert Keys(a) == [a[0].0] + ks;
    if k in ks {
      assert k in Keys(a);
    } else {
      assert k !in Keys(a);
      assert [a[0].0] + (ks + [k]) == ([a[0].0] + ks) + [k];
    }
  }

  /** In a well-formed list the binding at position `i` is the one read. */
  lemma GetAt<V>(a: Assoc<V>, i: int)
    requires WellFormed(a) && 0 <= i < |a|
    ensures Get(a, a[i].0) == Some(a[i].1)
  {
    assert Keys(a)[i] == a[i].0;
    var r := Get(a, a[i].0);
    var j :| 0 <= j < |a| && a[j] == (a[i].0, r.value);
    assert Keys(a)[j] == a[i].0;
  }

  /** Two well-formed lists with the same property order that agree on every
      property are the same object. */
  lemma Extensionality<V>(a: Assoc<V>, b: Assoc<V>)
    requires WellFormed(a) && Keys(a) == Keys(b)
    requires forall k :: k in Keys(a) ==> Get(a, k) == Get(b, k)
    ensures a == b
  {
    assert |a| == |Keys(a)| == |b|;
    forall i | 0 <= i < |a| ensures a[i] == b[i] {
      assert Keys(a)[i] == a[i].0 && Keys(b)[i] == b[i].0;
      GetAt(a, i);
      GetAt(b, i);
    }
  }
}
