/**
 * The label dictionary of `generateCounterLabel`: a JavaScript object used as an
 * insertion-ordered map. Its abstract value is an association list whose order
 * is the order in which keys were first inserted; `Put` is assignment to a key.
 * The module is generic in the key type `K`.
 */
module LabelSet {
  import opened Wrappers

  /** One label: its key and its value. */
  type Label<K> = (K, string)

  /** The keys of an association list, in order. */
  function KeysOf<K(==)>(es: seq<Label<K>>): (ks: seq<K>)
    ensures |ks| == |es|
    decreases |es|
  {
    if es == [] then [] else [es[0].0] + KeysOf(es[1..])
  }

  predicate Distinct<K(==)>(ks: seq<K>) {
    forall i, j :: 0 <= i < j < |ks| ==> ks[i] != ks[j]
  }

  /** The value of the first entry with key `k`. */
  function Lookup<K(==)>(es: seq<Label<K>>, k: K): Option<string>
    decreases |es|
  {
    if es == [] then None
    else if es[0].0 == k then Some(es[0].1)
    else Lookup(es[1..], k)
  }

  /** `labels[k] = v`: an existing key keeps its position and takes the new
      value; a new key is appended at the end. */
  function Put<K(==)>(es: seq<Label<K>>, k: K, v: string): seq<Label<K>>
    decreases |es|
  {
    if es == [] then [(k, v)]
    else if es[0].0 == k then [(k, v)] + es[1..]
    else [es[0]] + Put(es[1..], k, v)
  }

  /** A key has a value exactly when it is listed. */
  lemma {:induction false} LookupKeys<K>(es: seq<Label<K>>, k: K)
    ensures Lookup(es, k).None? <==> k !in KeysOf(es)
    decreases |es|
  {
    if es != [] {
      LookupKeys(es[1..], k);
      assert KeysOf(es) == [es[0].0] + KeysOf(es[1..]);
    }
  }

  /** Assignment leaves the key order alone when the key exists and appends it otherwise. */
  lemma {:induction false} PutKeys<K>(es: seq<Label<K>>, k: K, v: string)
    ensures KeysOf(Put(es, k, v)) == if Lookup(es, k).Some? then KeysOf(es) else KeysOf(es) + [k]
    decreases |es|
  {
    if es != [] && es[0].0 != k {
      PutKeys(es[1..], k, v);
      assert KeysOf(es) == [es[0].0] + KeysOf(es[1..]);
    }
  }

  /** After assignment the key reads back the new value and every other key its old one. */
  lemma {:induction false} PutLookup<K>(es: seq<Label<K>>, k: K, v: string, q: K)
    ensures Lookup(Put(es, k, v), q) == if q == k then Some(v) else Lookup(es, q)
    decreases |es|
  {
    if es != [] && es[0].0 != k {
      PutLookup(es[1..], k, v, q);
    }
  }

  /** Assignment never duplicates a key. */
  lemma PutDistinct<K>(es: seq<Label<K>>, k: K, v: string)
    requires Distinct(KeysOf(es))
    ensures Distinct(KeysOf(Put(es, k, v)))
  {
    PutKeys(es, k, v);
    LookupKeys(es, k);
  }

  /** Assigning a new key appends it. */
  lemma {:induction false} PutAbsent<K>(es: seq<Label<K>>, k: K, v: string)
    requires k !in KeysOf(es)
    ensures Put(es, k, v) == es + [(k, v)]
    decreases |es|
  {
    if es != [] {
      assert es[0].0 == KeysOf(es)[0];
      assert KeysOf(es[1..]) == KeysOf(es)[1..];
      PutAbsent(es[1..], k, v);
      assert [es[0]] + es[1..] == es;
    }
  }

  /** The entries of a key order and a value table, in key order. */
  function Zip<K(==)>(keys: seq<K>, values: map<K, string>): (es: seq<Label<K>>)
    requires forall k :: k in keys ==> k in values
    ensures |es| == |keys|
    decreases |keys|
  {
    if keys == [] then [] else [(keys[0], values[keys[0]])] + Zip(keys[1..], values)
  }

  /** The entries list exactly the keys, in order. */
  lemma {:induction false} ZipKeys<K>(keys: seq<K>, values: map<K, string>)
    requires forall k :: k in keys ==> k in values
    ensures KeysOf(Zip(keys, values)) == keys
    decreases |keys|
  {
    if keys != [] {
      ZipKeys(keys[1..], values);
    }
  }

  lemma {:induction false} ZipSnoc<K>(keys: seq<K>, k: K, values: map<K, string>)
    requires forall q :: q in keys ==> q in values
    requires k in values
    ensures Zip(keys + [k], values) == Zip(keys, values) + [(k, values[k])]
    decreases |keys|
  {
    if keys == [] {
      assert keys + [k] == [k];
    } else {
      assert (keys + [k])[1..] == keys[1..] + [k];
      ZipSnoc(keys[1..], k, values);
    }
  }

  /** Entry `i` pairs key `i` with its value. */
  lemma {:induction false} ZipAt<K>(keys: seq<K>, values: map<K, string>, i: nat)
    requires forall q :: q in keys ==> q in values
    requires i < |keys|
    ensures |Zip(keys, values)| == |keys|
    ensures Zip(keys, values)[i] == (keys[i], values[keys[i]])
    decreases i
  {
    if i > 0 {
      ZipAt(keys[1..], values, i - 1);
    }
  }

  /** Changing the value of a key that is not listed changes no entry. */
  lemma {:induction false} ZipIgnores<K>(keys: seq<K>, values: map<K, string>, k: K, v: string)
    requires forall q :: q in keys ==> q in values
    requires k !in keys
    ensures Zip(keys, values[k := v]) == Zip(keys, values)
    decreases |keys|
  {
    if keys != [] {
      ZipIgnores(keys[1..], values, k, v);
    }
  }

  /** Changing the value of a listed key is assignment on the entries. */
  lemma {:induction false} ZipOverwrite<K>(keys: seq<K>, values: map<K, string>, k: K, v: string)
    requires forall q :: q in keys ==> q in values
    requires Distinct(keys) && k in keys
    ensures Zip(keys, values[k := v]) == Put(Zip(keys, values), k, v)
    decreases |keys|
  {
    if keys[0] == k {
      assert k !in keys[1..];
      ZipIgnores(keys[1..], values, k, v);
    } else {
      ZipOverwrite(keys[1..], values, k, v);
    }
  }

  /** The mutable label dictionary: the keys in insertion order and their values. */
  class LabelMap<K(==)> {
    var keys: seq<K>
    var values: map<K, string>

    ghost predicate Valid()
      reads this
    {
      Distinct(keys) && values.Keys == set k | k in keys
    }

    /** The abstract value: the labels in insertion order. */
    ghost function Entries(): seq<Label<K>>
      reads this
      requires Valid()
    {
      Zip(keys, values)
    }

    /** `let labels = {}`. */
    constructor ()
      ensures Valid() && Entries() == []
    {
      keys := [];
      values := map[];
    }

    /** `labels[k] = v`. */
    method Set(k: K, v: string)
      requires Valid()
      modifies this
      ensures Valid()
      ensures Entries() == Put(old(Entries()), k, v)
    {
      if k in values {
        ZipOverwrite(keys, values, k, v);
      } else {
        ZipIgnores(keys, values, k, v);
        ZipSnoc(keys, k, values[k := v]);
        ZipKeys(keys, values);
        PutAbsent(Zip(keys, values), k, v);
        keys := keys + [k];
      }
      values := values[k := v];
    }
  }
}
