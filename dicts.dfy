/** Python dictionaries with string keys, as association lists in insertion
    order. Assigning `d[k] = v` overwrites the value of an existing key in
    its original position and appends a new key at the end; iterating a
    dict (as `list += d` does) yields its keys in that order. */
module Dicts {

  datatype Option<T> = None | Some(value: T)

  /** One key of a dict with the value stored under it. */
  datatype Binding<V> = Binding(key: string, val: V)

  /** The keys of `d`, in insertion order. */
  function Keys<V>(d: seq<Binding<V>>): seq<string>
  {
    seq(|d|, i requires 0 <= i < |d| => d[i].key)
  }

  /** No key occurs twice. */
  predicate Distinct(ks: seq<string>)
  {
    forall i, j :: 0 <= i < j < |ks| ==> ks[i] != ks[j]
  }

  /** `d.get(k)`: the value stored under `k`, if any. */
  function Get<V>(d: seq<Binding<V>>, k: string): Option<V>
  {
    if d == [] then None
    else if d[0].key == k then Some(d[0].val) else Get(d[1..], k)
  }

  /** A lookup finds a value exactly when the key is among the keys. */
  lemma {:induction false} GetFindsKeys<V>(d: seq<Binding<V>>, k: string)
    ensures Get(d, k).Some? <==> k in Keys(d)
  {
    if d != [] {
      ConsFacts(d[0], d[1..]);
      assert [d[0]] + d[1..] == d;
      GetFindsKeys(d[1..], k);
    }
  }

  /** Keys and lookups of a dict with one more pair in front. */
  lemma ConsFacts<V>(b: Binding<V>, d: seq<Binding<V>>)
    ensures Keys([b] + d) == [b.key] + Keys(d)
    ensures forall k :: Get([b] + d, k) == if b.key == k then Some(b.val) else Get(d, k)
  {
    assert ([b] + d)[1..] == d;
  }

  /** The keys of a dict with one more pair at the end. */
  lemma KeysSnoc<V>(d: seq<Binding<V>>, b: Binding<V>)
    ensures Keys(d + [b]) == Keys(d) + [b.key]
  {
  }

  /** `d[k] = v`. */
  function Put<V>(d: seq<Binding<V>>, k: string, v: V): (r: seq<Binding<V>>)
    ensures Keys(r) == if k in Keys(d) then Keys(d) else Keys(d) + [k]
    ensures Get(r, k) == Some(v)
    ensures forall k' :: k' != k ==> Get(r, k') == Get(d, k')
  {
    if d == [] then [Binding(k, v)]
    else
      ConsFacts(d[0], d[1..]);
      assert [d[0]] + d[1..] == d;
      if d[0].key == k then
        ConsFacts(Binding(k, v), d[1..]);
        [Binding(k, v)] + d[1..]
      else
        var tail := Put(d[1..], k, v);
        ConsFacts(d[0], tail);
        KeysAfterCons(d[0], d[1..], tail, k);
        [d[0]] + tail
  }

  /** Putting `k` behind a pair with another key keeps the key order that
      putting it into the rest gives. */
  lemma KeysAfterCons<V>(b: Binding<V>, rest: seq<Binding<V>>, tail: seq<Binding<V>>, k: string)
    requires b.key != k
    requires Keys(tail) == if k in Keys(rest) then Keys(rest) else Keys(rest) + [k]
    ensures Keys([b] + tail) == if k in Keys([b] + rest) then Keys([b] + rest) else Keys([b] + rest) + [k]
  {
    ConsFacts(b, rest);
    ConsFacts(b, tail);
    if k !in Keys(rest) {
      assert [b.key] + (Keys(rest) + [k]) == ([b.key] + Keys(rest)) + [k];
    }
  }

  /** Assigning a key the value it already holds changes nothing. */
  lemma {:induction false} PutSame<V>(d: seq<Binding<V>>, k: string, v: V)
    requires Get(d, k) == Some(v)
    ensures Put(d, k, v) == d
  {
    if d[0].key != k {
      PutSame(d[1..], k, v);
    }
  }

  /** Assigning a new key appends it. */
  lemma {:induction false} PutFresh<V>(d: seq<Binding<V>>, k: string, v: V)
    requires k !in Keys(d)
    ensures Put(d, k, v) == d + [Binding(k, v)]
  {
    if d != [] {
      ConsFacts(d[0], d[1..]);
      assert [d[0]] + d[1..] == d;
      assert d[0].key != k;
      PutFresh(d[1..], k, v);
      assert Put(d, k, v) == [d[0]] + (d[1..] + [Binding(k, v)]);
    }
  }

  /** The assignments `d[k] = v` for each pair of `kvs`, in order. */
  function PutAll<V>(d: seq<Binding<V>>, kvs: seq<Binding<V>>): seq<Binding<V>>
    decreases kvs
  {
    if kvs == [] then d else PutAll(Put(d, kvs[0].key, kvs[0].val), kvs[1..])
  }

  lemma {:induction false} PutAllConcat<V>(d: seq<Binding<V>>, a: seq<Binding<V>>, b: seq<Binding<V>>)
    ensures PutAll(d, a + b) == PutAll(PutAll(d, a), b)
    decreases a
  {
    if a == [] {
      assert a + b == b;
    } else {
      assert (a + b)[1..] == a[1..] + b;
      PutAllConcat(Put(d, a[0].key, a[0].val), a[1..], b);
    }
  }

  /** A sequence of assignments never removes or reorders a key: the old
      keys are a prefix of the new ones. */
  lemma {:induction false} PutAllExtends<V>(d: seq<Binding<V>>, kvs: seq<Binding<V>>)
    ensures Keys(d) <= Keys(PutAll(d, kvs))
    decreases kvs
  {
    if kvs != [] {
      var d' := Put(d, kvs[0].key, kvs[0].val);
      PutAllExtends(d', kvs[1..]);
    }
  }

  /** Assignments of distinct new keys append the pairs as they are. */
  lemma {:induction false} PutAllFresh<V>(d: seq<Binding<V>>, kvs: seq<Binding<V>>)
    requires Distinct(Keys(d + kvs))
    ensures PutAll(d, kvs) == d + kvs
    decreases kvs
  {
    if kvs != [] {
      var k := kvs[0].key;
      assert Keys(d + kvs)[|d|] == k;
      assert forall i :: 0 <= i < |d| ==> Keys(d)[i] == Keys(d + kvs)[i];
      assert Keys(d + [kvs[0]] + kvs[1..]) == Keys(d + kvs) by {
        assert d + [kvs[0]] + kvs[1..] == d + kvs;
      }
      PutFresh(d, k, kvs[0].val);
      assert d + kvs == (d + [kvs[0]]) + kvs[1..];
      PutAllFresh(d + [kvs[0]], kvs[1..]);
    }
  }

  /** The elements of `xs` without repeats, each where it first occurs: the
      key order of a dict built by assigning the keys of `xs` in turn. */
  function Dedup(xs: seq<string>): seq<string>
  {
    if xs == [] then []
    else
      var d := Dedup(xs[..|xs| - 1]);
      if xs[|xs| - 1] in d then d else d + [xs[|xs| - 1]]
  }

  lemma {:induction false} DedupSpec(xs: seq<string>)
    ensures Distinct(Dedup(xs))
    ensures forall x :: x in Dedup(xs) <==> x in xs
    ensures xs != [] ==> Dedup(xs)[0] == xs[0]
  {
    if xs != [] {
      var init := xs[..|xs| - 1];
      DedupSpec(init);
      assert xs == init + [xs[|xs| - 1]];
      if init == [] {
        assert Dedup(init) == [];
      }
    }
  }

  /** Deduplicating a sequence that has no repeats leaves it as it is. */
  lemma {:induction false} DedupOfDistinct(xs: seq<string>)
    requires Distinct(xs)
    ensures Dedup(xs) == xs
  {
    if xs != [] {
      var init := xs[..|xs| - 1];
      DedupOfDistinct(init);
      assert forall i :: 0 <= i < |init| ==> init[i] == xs[i];
      assert xs == init + [xs[|xs| - 1]];
    }
  }
}
