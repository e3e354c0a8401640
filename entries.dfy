/**
 * The mutable log entry of src/core/logger.ts and src/bilbo/bilbo.ts: a
 * JavaScript object, modelled as its fields in the order `Object.keys` lists
 * them (insertion order). Assigning a key that is present keeps its place;
 * assigning a new key appends it; `delete` removes it.
 */
module Entries {
  import opened Wrappers

  /** A value a field can hold; `Undefined` is a key explicitly set to `undefined`. */
  datatype Value = Undefined | Null | Bool(b: bool) | Num(n: int) | Str(s: string)

  /** The values `!v` is true for (NaN aside). */
  predicate Falsy(v: Value)
  {
    v == Undefined || v == Null || v == Bool(false) || v == Num(0) || v == Str("")
  }

  datatype Field = Field(key: string, value: Value)

  type Entry = seq<Field>

  /** `Object.keys(entry)`. */
  function Keys(e: Entry): (ks: seq<string>)
    ensures |ks| == |e|
  {
    if e == [] then [] else [e[0].key] + Keys(e[1..])
  }

  lemma {:induction false} KeyAt(e: Entry, i: nat)
    requires i < |e|
    ensures Keys(e)[i] == e[i].key
    decreases i
  {
    if i > 0 {
      KeyAt(e[1..], i - 1);
    }
  }

  lemma {:induction false} KeysAppend(a: Entry, b: Entry)
    ensures Keys(a + b) == Keys(a) + Keys(b)
    decreases |a|
  {
    if a == [] {
      assert a + b == b;
    } else {
      assert (a + b)[0] == a[0] && (a + b)[1..] == a[1..] + b;
      KeysAppend(a[1..], b);
    }
  }

  /** An object holds each key once. */
  predicate UniqueKeys(e: Entry)
  {
    e == [] || (e[0].key !in Keys(e[1..]) && UniqueKeys(e[1..]))
  }

  /** The fields from index `i` on of an object also hold each key once. */
  lemma {:induction false} UniqueSuffix(e: Entry, i: nat)
    requires UniqueKeys(e) && i <= |e|
    ensures UniqueKeys(e[i..])
    decreases i
  {
    if i > 0 {
      UniqueSuffix(e[1..], i - 1);
      assert e[1..][i - 1..] == e[i..];
    }
  }

  /** `entry[key]`, with `None` for a key the object does not hold. */
  function Lookup(e: Entry, k: string): (r: Option<Value>)
    ensures r.Some? <==> k in Keys(e)
  {
    if e == [] then None
    else if e[0].key == k then Some(e[0].value)
    else Lookup(e[1..], k)
  }

  /**
   * `entry[key] = value`: the key now holds the value and every other key
   * keeps its value; a present key keeps its place and a new one comes last.
   */
  function Set(e: Entry, k: string, v: Value): (r: Entry)
    ensures Lookup(r, k) == Some(v)
    ensures forall k' :: k' != k ==> Lookup(r, k') == Lookup(e, k')
    ensures Keys(r) == if k in Keys(e) then Keys(e) else Keys(e) + [k]
    ensures UniqueKeys(e) ==> UniqueKeys(r)
  {
    if e == [] then
      assert Keys([Field(k, v)]) == [k];
      [Field(k, v)]
    else
      var f := e[0];
      if f.key == k then
        assert ([Field(k, v)] + e[1..])[1..] == e[1..];
        [Field(k, v)] + e[1..]
      else
        var rest := Set(e[1..], k, v);
        assert ([f] + rest)[0] == f && ([f] + rest)[1..] == rest;
        assert Keys(e) == [f.key] + Keys(e[1..]);
        [f] + rest
  }

  /** Assigning a key an object does not hold appends it. */
  lemma SetFresh(e: Entry, k: string, v: Value)
    requires UniqueKeys(e) && k !in Keys(e)
    ensures UniqueKeys(Set(e, k, v)) && Keys(Set(e, k, v)) == Keys(e) + [k]
  {
  }

  /** Assigning one key leaves the value of another. */
  lemma SetKeeps(e: Entry, k: string, v: Value, other: string)
    requires other != k
    ensures Lookup(Set(e, k, v), other) == Lookup(e, other)
  {
  }

  /** One assignment to an empty object gives an object of that key alone. */
  lemma SetOne(k: string, v: Value)
    ensures var e := Set([], k, v);
      UniqueKeys(e) && Keys(e) == [k] && Lookup(e, k) == Some(v)
  {
    assert Keys([]) == [] && UniqueKeys([]);
    SetFresh([], k, v);
  }

  /** Two assignments of distinct keys to an empty object give exactly those keys, in order. */
  lemma SetTwo(k1: string, v1: Value, k2: string, v2: Value)
    requires k1 != k2
    ensures var e := Set(Set([], k1, v1), k2, v2);
      && UniqueKeys(e) && Keys(e) == [k1, k2]
      && Lookup(e, k1) == Some(v1) && Lookup(e, k2) == Some(v2)
  {
    var e1 := Set([], k1, v1);
    SetOne(k1, v1);
    SetFresh(e1, k2, v2);
    SetKeeps(e1, k2, v2, k1);
  }

  /** Three assignments of distinct keys to an empty object give exactly those keys, in order, with their values. */
  lemma SetThree(k1: string, v1: Value, k2: string, v2: Value, k3: string, v3: Value)
    requires k1 != k2 && k1 != k3 && k2 != k3
    ensures var e := Set(Set(Set([], k1, v1), k2, v2), k3, v3);
      && UniqueKeys(e) && Keys(e) == [k1, k2, k3]
      && Lookup(e, k1) == Some(v1) && Lookup(e, k2) == Some(v2) && Lookup(e, k3) == Some(v3)
  {
    var e2 := Set(Set([], k1, v1), k2, v2);
    SetTwo(k1, v1, k2, v2);
    SetFresh(e2, k3, v3);
    SetKeeps(e2, k3, v3, k1);
    SetKeeps(e2, k3, v3, k2);
  }

  /** `delete entry[key]`: the key is gone and every other field stays, in order. */
  function Delete(e: Entry, k: string): (r: Entry)
    ensures Lookup(r, k) == None
    ensures forall k' :: k' != k ==> Lookup(r, k') == Lookup(e, k')
    ensures forall x :: x in Keys(r) ==> x in Keys(e)
    ensures k !in Keys(e) ==> r == e
    ensures UniqueKeys(e) ==> UniqueKeys(r)
  {
    if e == [] then []
    else
      var f := e[0];
      var rest := Delete(e[1..], k);
      assert Keys(e) == [f.key] + Keys(e[1..]);
      if f.key == k then rest
      else
        assert ([f] + rest)[0] == f && ([f] + rest)[1..] == rest;
        assert e == [f] + e[1..];
        [f] + rest
  }

  /** Deleting from a concatenation deletes from each part. */
  lemma {:induction false} DeleteAppend(a: Entry, b: Entry, k: string)
    ensures Delete(a + b, k) == Delete(a, k) + Delete(b, k)
    decreases |a|
  {
    if a == [] {
      assert a + b == b;
    } else {
      DeleteAppend(a[1..], b, k);
      DeleteAppendStep(a[0], a[1..], b, k);
      assert a == [a[0]] + a[1..];
    }
  }

  lemma DeleteAppendStep(h: Field, t: Entry, b: Entry, k: string)
    requires Delete(t + b, k) == Delete(t, k) + Delete(b, k)
    ensures Delete([h] + t + b, k) == Delete([h] + t, k) + Delete(b, k)
  {
    ConcatAssoc([h], t, b);
    DeleteCons(h, t + b, k);
    DeleteCons(h, t, k);
    if h.key != k {
      ConcatAssoc([h], Delete(t, k), Delete(b, k));
    }
  }

  lemma ConcatAssoc<T>(a: seq<T>, b: seq<T>, c: seq<T>)
    ensures a + b + c == a + (b + c)
  {
  }

  lemma DeleteCons(f: Field, rest: Entry, k: string)
    ensures Delete([f] + rest, k) == if f.key == k then Delete(rest, k) else [f] + Delete(rest, k)
  {
    assert ([f] + rest)[0] == f && ([f] + rest)[1..] == rest;
  }

  /** The fields of `e` whose key is `k`, in order. */
  function OnlyKey(e: Entry, k: string): (r: Entry)
    ensures forall x :: x in Keys(r) ==> x == k
    ensures k !in Keys(e) ==> r == []
  {
    if e == [] then []
    else
      var rest := OnlyKey(e[1..], k);
      assert Keys(e) == [e[0].key] + Keys(e[1..]);
      if e[0].key == k then
        assert ([e[0]] + rest)[0] == e[0] && ([e[0]] + rest)[1..] == rest;
        [e[0]] + rest
      else rest
  }

  lemma {:induction false} OnlyKeyAppend(a: Entry, b: Entry, k: string)
    ensures OnlyKey(a + b, k) == OnlyKey(a, k) + OnlyKey(b, k)
    decreases |a|
  {
    if a == [] {
      assert a + b == b;
    } else {
      assert (a + b)[0] == a[0] && (a + b)[1..] == a[1..] + b;
      OnlyKeyAppend(a[1..], b, k);
    }
  }

  /** An object holding `k` keeps just that field. */
  lemma {:induction false} OnlyPresentKey(e: Entry, k: string)
    requires UniqueKeys(e) && k in Keys(e)
    ensures OnlyKey(e, k) == [Field(k, Lookup(e, k).value)]
    decreases |e|
  {
    assert Keys(e) == [e[0].key] + Keys(e[1..]);
    if e[0].key != k {
      OnlyPresentKey(e[1..], k);
    }
  }

  /**
   * One step of a loop over a snapshot of the keys that deletes each key but
   * `keep`: with the first `i` fields reduced to the `keep` one and the rest
   * untouched, handling key `i` reduces the first `i + 1`.
   */
  lemma KeepStep(e: Entry, i: nat, keep: string)
    requires UniqueKeys(e) && i < |e|
    ensures var cur := OnlyKey(e[..i], keep) + e[i..];
      (if e[i].key != keep then Delete(cur, e[i].key) else cur) == OnlyKey(e[..i + 1], keep) + e[i + 1..]
  {
    Around(e, i);
    OnlyKeySnoc(e[..i], e[i], keep);
    HandleField(OnlyKey(e[..i], keep), e[i], e[i + 1..], keep);
  }

  /** The field at `i` splits an object into the fields before, itself and a rest without its key. */
  lemma Around(e: Entry, i: nat)
    requires UniqueKeys(e) && i < |e|
    ensures e[..i + 1] == e[..i] + [e[i]] && e[i..] == [e[i]] + e[i + 1..]
    ensures e[i].key !in Keys(e[i + 1..])
  {
    NotLater(e, i);
    SliceAround(e, i);
  }

  lemma SliceAround<T>(s: seq<T>, i: nat)
    requires i < |s|
    ensures s[..i + 1] == s[..i] + [s[i]] && s[i..] == [s[i]] + s[i + 1..]
  {
    assert s[..i + 1] == s[..i] + [s[i]];
    assert s[i..] == [s[i]] + s[i + 1..];
  }

  lemma {:induction false} NotLater(e: Entry, i: nat)
    requires UniqueKeys(e) && i < |e|
    ensures e[i].key !in Keys(e[i + 1..])
    decreases i
  {
    if i > 0 {
      NotLater(e[1..], i - 1);
      assert e[1..][i - 1] == e[i] && e[1..][i..] == e[i + 1..];
    }
  }

  /** Handling one field: deleted unless its key is `keep`. */
  lemma HandleField(done: Entry, f: Field, rest: Entry, keep: string)
    requires forall x :: x in Keys(done) ==> x == keep
    requires f.key !in Keys(rest)
    ensures (if f.key != keep then Delete(done + ([f] + rest), f.key) else done + ([f] + rest))
         == (done + (if f.key == keep then [f] else [])) + rest
  {
    if f.key != keep {
      DropOther(done, f, rest, keep);
    } else {
      assert done + ([f] + rest) == (done + [f]) + rest;
    }
  }

  lemma OnlyKeySnoc(a: Entry, f: Field, keep: string)
    ensures OnlyKey(a + [f], keep) == OnlyKey(a, keep) + (if f.key == keep then [f] else [])
  {
    OnlyKeyAppend(a, [f], keep);
    assert [f][1..] == [];
  }

  /** Deleting the key of a field that occurs only there, from fields that all hold another key. */
  lemma DropOther(done: Entry, f: Field, rest: Entry, keep: string)
    requires forall x :: x in Keys(done) ==> x == keep
    requires f.key != keep && f.key !in Keys(rest)
    ensures Delete(done + ([f] + rest), f.key) == done + rest
  {
    DeleteAppend(done, [f] + rest, f.key);
    assert ([f] + rest)[0] == f && ([f] + rest)[1..] == rest;
  }

  /** One step of a loop over a snapshot of the keys that deletes every key. */
  lemma DeleteStep(e: Entry, i: nat)
    requires UniqueKeys(e) && i < |e|
    ensures Delete(e[i..], e[i].key) == e[i + 1..]
  {
    UniqueSuffix(e, i);
    assert e[i..][0] == e[i] && e[i..][1..] == e[i + 1..];
  }
}
