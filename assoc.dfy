/** Insertion-ordered dictionaries: the plain objects the components index
    by display strings and walk with `Object.entries` / `Object.keys`. A key
    assigned for the first time goes to the end of the key order;
    re-assigning it keeps its place. */
module Assoc {
  import opened Wrappers

  /** `keys` is the insertion order, `vals` the contents. */
  datatype Dict<V> = Dict(keys: seq<string>, vals: map<string, V>)

  predicate NoDup(s: seq<string>)
  {
    forall i, j :: 0 <= i < j < |s| ==> s[i] != s[j]
  }

  /** Every key is listed exactly once in the order. */
  predicate Valid<V>(d: Dict<V>)
  {
    && NoDup(d.keys)
    && (forall k :: k in d.keys ==> k in d.vals)
    && (forall k :: k in d.vals ==> k in d.keys)
  }

  /** `{}` */
  function Empty<V>(): (d: Dict<V>)
    ensures Valid(d) && d.keys == []
  {
    Dict([], map[])
  }

  /** `obj[k]`: the value stored under `k`, if any. */
  function Lookup<V>(d: Dict<V>, k: string): Option<V>
  {
    if k in d.vals then Some(d.vals[k]) else None
  }

  /** `obj[k]` when `k` is present, otherwise the fresh value `dflt` that
      `if (!obj[k]) obj[k] = dflt` would install. */
  function GetOr<V>(d: Dict<V>, k: string, dflt: V): V
  {
    if k in d.vals then d.vals[k] else dflt
  }

  /** `obj[k] = v`: the key now holds `v`, every other key keeps its value,
      a new key goes last and an existing one keeps its place. */
  function Put<V>(d: Dict<V>, k: string, v: V): (r: Dict<V>)
    ensures Lookup(r, k) == Some(v)
    ensures forall k' :: k' != k ==> Lookup(r, k') == Lookup(d, k')
    ensures Valid(d) ==> Valid(r)
    ensures Valid(d) ==> r.keys == if k in d.keys then d.keys else d.keys + [k]
  {
    Dict(if k in d.vals then d.keys else d.keys + [k], d.vals[k := v])
  }

  /** Reading back after an assignment. */
  lemma GetOrPut<V>(d: Dict<V>, k: string, v: V, k': string, dflt: V)
    ensures GetOr(Put(d, k, v), k', dflt) == if k' == k then v else GetOr(d, k', dflt)
  {
  }

  /** Assigning a key twice is assigning it the second value once: the key
      keeps the place of its first assignment. */
  lemma PutPut<V>(d: Dict<V>, k: string, v: V, w: V)
    ensures Put(Put(d, k, v), k, w) == Put(d, k, w)
  {
    assert d.vals[k := v][k := w] == d.vals[k := w];
  }

  /** The position of the first occurrence of `x` in `s`. */
  function FirstIndex(s: seq<string>, x: string): (i: nat)
    requires x in s
    ensures i < |s| && s[i] == x
    ensures forall k :: 0 <= k < i ==> s[k] != x
  {
    if s[0] == x then 0 else FirstIndex(s[1..], x) + 1
  }

  /** Appending an element does not move a first occurrence already there. */
  lemma FirstIndexSnoc(s: seq<string>, y: string, x: string)
    requires x in s
    ensures FirstIndex(s + [y], x) == FirstIndex(s, x)
  {
    assert forall k :: 0 <= k < |s| ==> (s + [y])[k] == s[k];
  }

  /** Keys in order of first appearance: what `Object.keys` gives after
      assigning the keys of `s` one after another. Each key of `s` is
      listed once, and a key whose first occurrence in `s` comes earlier is
      listed earlier. */
  function Dedup(s: seq<string>): (r: seq<string>)
    ensures NoDup(r)
    ensures forall x :: x in r <==> x in s
    ensures forall i, j :: 0 <= i < j < |r| ==> FirstIndex(s, r[i]) < FirstIndex(s, r[j])
  {
    if s == [] then []
    else
      var init, last := s[..|s| - 1], s[|s| - 1];
      var d := Dedup(init);
      assert s == init + [last];
      assert forall x :: x in s <==> x in init || x == last;
      assert forall x :: x in init ==> FirstIndex(s, x) == FirstIndex(init, x) by {
        forall x | x in init ensures FirstIndex(s, x) == FirstIndex(init, x) {
          FirstIndexSnoc(init, last, x);
        }
      }
      if last in d then d
      else
        assert FirstIndex(s, last) == |init| by {
          assert forall k :: 0 <= k < |init| ==> s[k] == init[k];
        }
        d + [last]
  }

  lemma DedupAppend(s: seq<string>, x: string)
    ensures Dedup(s + [x]) == if x in Dedup(s) then Dedup(s) else Dedup(s) + [x]
  {
    assert (s + [x])[..|s|] == s;
  }

  /** Sum of `f` over the values of the listed keys, in key order. */
  function SumOver<V>(keys: seq<string>, vals: map<string, V>, f: V -> int): int
  {
    if keys == [] then 0
    else
      var k := keys[|keys| - 1];
      SumOver(keys[..|keys| - 1], vals, f) + (if k in vals then f(vals[k]) else 0)
  }

  /** Sum of `f` over all values (`Object.values(...).reduce`). */
  function SumValues<V>(d: Dict<V>, f: V -> int): int
  {
    SumOver(d.keys, d.vals, f)
  }

  /** Changing the value of a key that is not listed changes no sum. */
  lemma {:induction false} SumOverFrame<V>(keys: seq<string>, vals: map<string, V>, k: string, v: V, f: V -> int)
    requires k !in keys
    ensures SumOver(keys, vals[k := v], f) == SumOver(keys, vals, f)
  {
    if keys != [] {
      SumOverFrame(keys[..|keys| - 1], vals, k, v, f);
    }
  }

  /** Changing the value of a key listed once swaps its contribution. */
  lemma {:induction false} SumOverUpdate<V>(keys: seq<string>, vals: map<string, V>, k: string, v: V, f: V -> int)
    requires forall x :: x in keys ==> x in vals
    requires NoDup(keys) && k in keys
    ensures SumOver(keys, vals[k := v], f) == SumOver(keys, vals, f) - f(vals[k]) + f(v)
  {
    var init, last := keys[..|keys| - 1], keys[|keys| - 1];
    if last == k {
      assert k !in init by {
        forall i | 0 <= i < |init| ensures init[i] != k { assert keys[i] == init[i]; }
      }
      SumOverFrame(init, vals, k, v, f);
    } else {
      assert k in init by {
        var i :| 0 <= i < |keys| && keys[i] == k;
        assert init[i] == k;
      }
      assert NoDup(init) by {
        forall i, j | 0 <= i < j < |init| ensures init[i] != init[j] { assert init[i] == keys[i] && init[j] == keys[j]; }
      }
      SumOverUpdate(init, vals, k, v, f);
    }
  }

  /** Assigning a key replaces the contribution of its old value. */
  lemma SumPut<V>(d: Dict<V>, k: string, v: V, f: V -> int)
    requires Valid(d)
    ensures SumValues(Put(d, k, v), f) == SumValues(d, f) - (if k in d.vals then f(d.vals[k]) else 0) + f(v)
  {
    var r := Put(d, k, v);
    if k in d.vals {
      SumOverUpdate(d.keys, d.vals, k, v, f);
    } else {
      SumOverFrame(d.keys, d.vals, k, v, f);
      assert r.keys[..|r.keys| - 1] == d.keys;
    }
  }
}
