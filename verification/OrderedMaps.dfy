/** A map that remembers the order its keys were first inserted in. */
module OrderedMaps {
  import opened Options

  ghost predicate Distinct<T>(s: seq<T>) {
    forall i, j :: 0 <= i < j < |s| ==> s[i] != s[j]
  }

  function Without(keys: seq<string>, k: string): (r: seq<string>)
    ensures forall x :: x in r <==> x in keys && x != k
    ensures Distinct(keys) ==> Distinct(r)
  {
    if keys == [] then []
    else
      var rest := Without(keys[1..], k);
      assert forall i :: 0 <= i < |rest| ==> rest[i] in keys[1..];
      if keys[0] == k then rest else [keys[0]] + rest
  }

  /** The keys, first occurrence first, of a list that may repeat some. */
  function FirstOccurrences(names: seq<string>): (r: seq<string>)
    ensures forall x :: x in r <==> x in names
    decreases |names|
  {
    if names == [] then []
    else
      var before, last := FirstOccurrences(names[..|names| - 1]), names[|names| - 1];
      if last in before then before else before + [last]
  }

  lemma {:induction false} FirstOccurrencesOfDistinct(names: seq<string>)
    requires Distinct(names)
    ensures FirstOccurrences(names) == names
    decreases |names|
  {
    if names != [] {
      FirstOccurrencesOfDistinct(names[..|names| - 1]);
    }
  }

  datatype OrderedMap<V> = OrderedMap(keys: seq<string>, values: map<string, V>) {
    ghost predicate Valid() {
      Distinct(keys) && forall k :: k in values <==> k in keys
    }

    /** Every key has a value: all a walk needs of `Valid`. */
    ghost predicate Walkable() {
      forall i :: 0 <= i < |keys| ==> keys[i] in values
    }

    function Get(k: string): Option<V> {
      if k in values then Some(values[k]) else None
    }

    /** Replaces the value in place, or adds the key at the end. */
    function Put(k: string, v: V): (m: OrderedMap<V>)
      ensures Valid() ==> m.Valid()
    {
      OrderedMap(if k in values then keys else keys + [k], values[k := v])
    }

    /** Removes the key, keeping the order of the others. */
    function Drop(k: string): (m: OrderedMap<V>)
      ensures Valid() ==> m.Valid()
    {
      OrderedMap(Without(keys, k), values - {k})
    }

    /** Every value changed, at its place. */
    function Mapped(f: V -> V): (m: OrderedMap<V>)
      ensures Valid() ==> m.Valid()
      ensures m.keys == keys && m.values.Keys == values.Keys
      ensures forall k :: k in values ==> m.values[k] == f(values[k])
    {
      OrderedMap(keys, map k | k in values :: f(values[k]))
    }
  }

  /** The values of the first `i` keys are images, the others are the original ones. */
  ghost predicate MappedUpTo<V>(known: OrderedMap<V>, values: map<string, V>, f: V -> V, i: nat) {
    && i <= |known.keys| && values.Keys == known.values.Keys
    && known.Valid()
    && (forall j :: 0 <= j < i ==> values[known.keys[j]] == f(known.values[known.keys[j]]))
    && (forall j :: i <= j < |known.keys| ==> values[known.keys[j]] == known.values[known.keys[j]])
  }

  lemma MappedNext<V>(known: OrderedMap<V>, values: map<string, V>, f: V -> V, i: nat)
    requires MappedUpTo(known, values, f, i) && i < |known.keys|
    ensures values[known.keys[i]] == known.values[known.keys[i]]
    ensures MappedUpTo(known, values[known.keys[i] := f(known.values[known.keys[i]])], f, i + 1)
  {
  }

  lemma MappedAll<V>(known: OrderedMap<V>, values: map<string, V>, f: V -> V)
    requires MappedUpTo(known, values, f, |known.keys|)
    ensures OrderedMap(known.keys, values) == known.Mapped(f)
  {
    forall k | k in values ensures values[k] == known.Mapped(f).values[k] {
      assert k in known.keys;
    }
    assert values == known.Mapped(f).values;
  }

  /** Replacing a value by one with the same image leaves the image of the map. */
  lemma PutMapped<V>(m: OrderedMap<V>, k: string, v: V, f: V -> V)
    requires k in m.values && f(v) == f(m.values[k])
    ensures m.Put(k, v).Mapped(f) == m.Mapped(f)
  {
    assert m.Put(k, v).Mapped(f).values == m.Mapped(f).values;
  }

  function Empty<V>(): (m: OrderedMap<V>)
    ensures m.Valid()
  {
    OrderedMap([], map[])
  }

  // ---------- walking the values in order ----------

  function Flat<E>(keys: seq<string>, f: string -> seq<E>): seq<E> {
    if keys == [] then [] else Flat(keys[..|keys| - 1], f) + f(keys[|keys| - 1])
  }

  lemma FlatStep<E>(keys: seq<string>, f: string -> seq<E>, i: nat)
    requires i < |keys|
    ensures Flat(keys[..i + 1], f) == Flat(keys[..i], f) + f(keys[i])
  {
    assert keys[..i + 1][..i] == keys[..i];
  }

  lemma {:induction false} FlatIn<E>(keys: seq<string>, f: string -> seq<E>, e: E)
    ensures e in Flat(keys, f) <==> exists k :: k in keys && e in f(k)
    decreases |keys|
  {
    if keys != [] {
      var n := |keys| - 1;
      FlatIn(keys[..n], f, e);
      assert keys == keys[..n] + [keys[n]];
    }
  }

  /** The walk yields no element twice when no value does and no two values share one. */
  lemma {:induction false} FlatIsDistinct<E>(keys: seq<string>, f: string -> seq<E>)
    requires Distinct(keys)
    requires forall k :: k in keys ==> Distinct(f(k))
    requires forall k, l, e :: k in keys && l in keys && e in f(k) && e in f(l) ==> k == l
    ensures Distinct(Flat(keys, f))
    decreases |keys|
  {
    if keys != [] {
      var n := |keys| - 1;
      FlatIsDistinct(keys[..n], f);
      var before, last := Flat(keys[..n], f), f(keys[n]);
      forall e | e in before ensures e !in last {
        FlatIn(keys[..n], f, e);
        var k :| k in keys[..n] && e in f(k);
        assert k in keys && keys[n] in keys;
      }
      assert forall i :: 0 <= i < |before| ==> before[i] in before;
    }
  }

  lemma {:induction false} FlatAgrees<E>(keys: seq<string>, f: string -> seq<E>, g: string -> seq<E>)
    requires forall k :: k in keys ==> f(k) == g(k)
    ensures Flat(keys, f) == Flat(keys, g)
    decreases |keys|
  {
    if keys != [] {
      FlatAgrees(keys[..|keys| - 1], f, g);
    }
  }

  /** `ys` is `xs` without one occurrence of `e`. */
  ghost predicate Removed<E>(xs: seq<E>, e: E, ys: seq<E>) {
    exists i :: 0 <= i < |xs| && xs[i] == e && ys == xs[..i] + xs[i + 1..]
  }

  lemma RemovedAfter<E>(a: seq<E>, xs: seq<E>, e: E, ys: seq<E>)
    requires Removed(xs, e, ys)
    ensures Removed(a + xs, e, a + ys)
  {
    var i :| 0 <= i < |xs| && xs[i] == e && ys == xs[..i] + xs[i + 1..];
    var all := a + xs;
    assert all[|a| + i] == e;
    assert a + ys == all[..|a| + i] + all[|a| + i + 1..];
  }

  lemma RemovedBefore<E>(xs: seq<E>, e: E, ys: seq<E>, b: seq<E>)
    requires Removed(xs, e, ys)
    ensures Removed(xs + b, e, ys + b)
  {
    var i :| 0 <= i < |xs| && xs[i] == e && ys == xs[..i] + xs[i + 1..];
    var all := xs + b;
    assert all[i] == e;
    assert ys + b == all[..i] + all[i + 1..];
  }

  lemma NotBefore(keys: seq<string>, k: string)
    requires Distinct(keys) && k in keys
    ensures keys[|keys| - 1] == k ==> k !in keys[..|keys| - 1]
    ensures keys[|keys| - 1] != k ==> k in keys[..|keys| - 1]
    ensures Distinct(keys[..|keys| - 1])
  {
    assert keys == keys[..|keys| - 1] + [keys[|keys| - 1]];
  }

  /** Removing an element from one value removes it from the walk. */
  lemma {:induction false} FlatRemoved<E>(keys: seq<string>, f: string -> seq<E>, g: string -> seq<E>, k: string, e: E)
    requires Distinct(keys) && k in keys
    requires forall l :: l in keys && l != k ==> f(l) == g(l)
    requires Removed(f(k), e, g(k))
    ensures Removed(Flat(keys, f), e, Flat(keys, g))
    decreases |keys|
  {
    var n := |keys| - 1;
    NotBefore(keys, k);
    if keys[n] == k {
      FlatAgrees(keys[..n], f, g);
      RemovedAfter(Flat(keys[..n], f), f(k), e, g(k));
    } else {
      FlatRemoved(keys[..n], f, g, k, e);
      RemovedBefore(Flat(keys[..n], f), e, Flat(keys[..n], g), f(keys[n]));
    }
  }
}
