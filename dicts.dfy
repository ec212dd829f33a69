/** Python dictionaries keyed by strings, which remember insertion order:
    `keys()`, `d.get(k)`, the assignment `d[k] = v` (which keeps an existing
    key in place and appends a new one) and the merge `{**a, **b}`; and the
    `x or []` defaults the decorators apply to their arguments. */
module Dicts {
  import opened Outcomes

  predicate DistinctKeys<V>(d: seq<(string, V)>)
  {
    forall i, j :: 0 <= i < j < |d| ==> d[i].0 != d[j].0
  }

  /** The entries in insertion order; no key occurs twice. */
  type Dict<V> = d: seq<(string, V)> | DistinctKeys(d) witness []

  /** `list(d.keys())`. */
  function Keys<V>(d: seq<(string, V)>): (ks: seq<string>)
    ensures |ks| == |d|
    ensures forall i :: 0 <= i < |d| ==> ks[i] == d[i].0
  {
    if d == [] then [] else [d[0].0] + Keys(d[1..])
  }

  /** Where key `k` sits. */
  function IndexOf<V>(d: seq<(string, V)>, k: string): (i: nat)
    requires k in Keys(d)
    ensures i < |d| && d[i].0 == k
  {
    if d[0].0 == k then 0
    else
      assert Keys(d) == [d[0].0] + Keys(d[1..]);
      1 + IndexOf(d[1..], k)
  }

  /** With distinct keys, the entry holding a key is the only one. */
  lemma IndexOfUnique<V>(d: Dict<V>, k: string, i: nat)
    requires i < |d| && d[i].0 == k
    ensures k in Keys(d) && IndexOf(d, k) == i
  {
    assert Keys(d)[i] == k;
  }

  /** `d.get(k)`. */
  function Get<V>(d: Dict<V>, k: string): (r: Option<V>)
    ensures r.None? <==> k !in Keys(d)
    ensures r.Some? ==> exists i :: 0 <= i < |d| && d[i] == (k, r.value)
  {
    if k in Keys(d) then Some(d[IndexOf(d, k)].1) else None
  }

  /** `d[k] = v`: an existing key keeps its place, a new one is appended. */
  function Assign<V>(d: Dict<V>, k: string, v: V): (r: Dict<V>)
    ensures k in Keys(d) ==> Keys(r) == Keys(d)
    ensures k !in Keys(d) ==> Keys(r) == Keys(d) + [k]
  {
    if k in Keys(d) then
      var r: Dict<V> := d[IndexOf(d, k) := (k, v)];
      assert Keys(r) == Keys(d);
      r
    else
      assert forall i :: 0 <= i < |d| ==> d[i].0 == Keys(d)[i];
      var r: Dict<V> := d + [(k, v)];
      assert Keys(r) == Keys(d) + [k];
      r
  }

  /** After `d[k] = v`, `k` maps to `v` and every other key to what it did. */
  lemma GetAssign<V>(d: Dict<V>, k: string, v: V, k': string)
    ensures Get(Assign(d, k, v), k') == if k' == k then Some(v) else Get(d, k')
  {
    var r := Assign(d, k, v);
    if k in Keys(d) {
      var i := IndexOf(d, k);
      assert r == d[i := (k, v)];
      IndexOfUnique(r, k, i);
      if k' != k && k' in Keys(d) {
        IndexOfUnique(r, k', IndexOf(d, k'));
      }
    } else {
      assert r == d + [(k, v)];
      IndexOfUnique(r, k, |d|);
      if k' != k && k' in Keys(d) {
        IndexOfUnique(r, k', IndexOf(d, k'));
      }
    }
  }

  /** `{**a, **b}`: the entries of `a`, overwritten or extended by those of `b`
      in order. */
  function Merge<V>(a: Dict<V>, b: Dict<V>): Dict<V>
    decreases |b|
  {
    if b == [] then a else Merge(Assign(a, b[0].0, b[0].1), b[1..])
  }

  /** Looking a key up in a merge finds the right-hand dict's value first. */
  lemma {:induction false} GetMerge<V>(a: Dict<V>, b: Dict<V>, k: string)
    ensures Get(Merge(a, b), k) == (if k in Keys(b) then Get(b, k) else Get(a, k))
    decreases |b|
  {
    if b != [] {
      var a' := Assign(a, b[0].0, b[0].1);
      GetMerge(a', b[1..], k);
      GetAssign(a, b[0].0, b[0].1, k);
      assert Keys(b) == [b[0].0] + Keys(b[1..]);
    }
  }

  /** `x or []` */
  function OrEmpty(x: Option<seq<string>>): seq<string>
  {
    if x.Some? then x.value else []
  }

  /** `x or dict()` */
  function OrEmptyDict<V>(x: Option<Dict<V>>): Dict<V>
  {
    if x.Some? then x.value else []
  }

  /** `set(s)` */
  function ToSet(s: seq<string>): set<string>
  {
    set x | x in s
  }
}

/** A run of assignments `d[k] = v` made one after another, as the streaming
    decorator makes for its `has` entries. */
module DictAssignments {
  import opened Outcomes
  import opened Dicts

  /** The dict after the assignments `d[k] = v` for the first `n` of `pairs`. */
  function AssignAll<V>(d: Dict<V>, pairs: seq<(string, V)>, n: nat): Dict<V>
    requires n <= |pairs|
  {
    if n == 0 then d
    else Assign(AssignAll(d, pairs, n - 1), pairs[n - 1].0, pairs[n - 1].1)
  }

  /** `a` is a prefix of `b`. */
  predicate Extends(a: seq<string>, b: seq<string>)
  {
    |a| <= |b| && b[..|a|] == a
  }

  lemma ExtendsTrans(a: seq<string>, b: seq<string>, c: seq<string>)
    requires Extends(a, b) && Extends(b, c)
    ensures Extends(a, c)
  {
    assert c[..|a|] == c[..|b|][..|a|];
  }

  /** One assignment adds at most the key it writes, at the end. */
  lemma AssignAllStep<V>(d: Dict<V>, pairs: seq<(string, V)>, n: nat)
    requires 0 < n <= |pairs|
    ensures var before := Keys(AssignAll(d, pairs, n - 1));
            var after := Keys(AssignAll(d, pairs, n));
            (after == before || after == before + [pairs[n - 1].0]) && Extends(before, after)
  {
    var before := Keys(AssignAll(d, pairs, n - 1));
    var after := Keys(AssignAll(d, pairs, n));
    if after != before {
      assert after[..|before|] == before;
    }
  }

  /** One assignment changes the value of the key it writes only. */
  lemma GetAssignAllStep<V>(d: Dict<V>, pairs: seq<(string, V)>, n: nat, k: string)
    requires 0 < n <= |pairs|
    ensures Get(AssignAll(d, pairs, n), k) ==
              if pairs[n - 1].0 == k then Some(pairs[n - 1].1) else Get(AssignAll(d, pairs, n - 1), k)
  {
    GetAssign(AssignAll(d, pairs, n - 1), pairs[n - 1].0, pairs[n - 1].1, k);
  }

  /** The original keys stay first and in their order. */
  lemma {:induction false} AssignAllKeepsOrder<V>(d: Dict<V>, pairs: seq<(string, V)>, n: nat)
    requires n <= |pairs|
    ensures Extends(Keys(d), Keys(AssignAll(d, pairs, n)))
  {
    if n > 0 {
      AssignAllKeepsOrder(d, pairs, n - 1);
      AssignAllStep(d, pairs, n);
      ExtendsTrans(Keys(d), Keys(AssignAll(d, pairs, n - 1)), Keys(AssignAll(d, pairs, n)));
    } else {
      assert Keys(d)[..|Keys(d)|] == Keys(d);
    }
  }

  /** The last of the first `n` pairs that assigns key `k`. */
  function LastWithKey<V>(pairs: seq<(string, V)>, k: string, n: nat): (r: Option<nat>)
    requires n <= |pairs|
    ensures r.None? <==> forall j :: 0 <= j < n ==> pairs[j].0 != k
    ensures r.Some? ==> r.value < n && pairs[r.value].0 == k
                        && forall j :: r.value < j < n ==> pairs[j].0 != k
  {
    if n == 0 then None
    else if pairs[n - 1].0 == k then Some(n - 1)
    else LastWithKey(pairs, k, n - 1)
  }

  /** In a sequence of assignments the last write to a key wins, and a key
      never written keeps its value. */
  lemma {:induction false} LastWriteWins<V>(d: Dict<V>, pairs: seq<(string, V)>, n: nat, k: string)
    requires n <= |pairs|
    ensures LastWithKey(pairs, k, n).None? ==> Get(AssignAll(d, pairs, n), k) == Get(d, k)
    ensures LastWithKey(pairs, k, n).Some? ==>
              Get(AssignAll(d, pairs, n), k) == Some(pairs[LastWithKey(pairs, k, n).value].1)
  {
    if n > 0 {
      var m := n - 1;
      GetAssignAllStep(d, pairs, n, k);
      if pairs[m].0 != k {
        LastWriteWins(d, pairs, m, k);
        assert LastWithKey(pairs, k, n) == LastWithKey(pairs, k, m);
      }
    }
  }

  /** A write that no later write to the same key follows is the one seen. */
  lemma LastWriteSeen<V>(d: Dict<V>, pairs: seq<(string, V)>, n: nat, j: nat)
    requires j < n <= |pairs|
    requires forall j' :: j < j' < n ==> pairs[j'].0 != pairs[j].0
    ensures Get(AssignAll(d, pairs, n), pairs[j].0) == Some(pairs[j].1)
  {
    LastWriteWins(d, pairs, n, pairs[j].0);
  }

  /** A sequence of assignments keeps the original keys first and in order,
      and adds exactly the keys it writes. */
  lemma AssignAllKeys<V>(d: Dict<V>, pairs: seq<(string, V)>, n: nat)
    requires n <= |pairs|
    ensures var ks := Keys(AssignAll(d, pairs, n));
            && |Keys(d)| <= |ks| && ks[..|Keys(d)|] == Keys(d)
            && (forall j :: 0 <= j < n ==> pairs[j].0 in ks)
            && (forall k :: k in ks ==> k in Keys(d) || exists j :: 0 <= j < n && pairs[j].0 == k)
  {
    AssignAllKeepsOrder(d, pairs, n);
    var ks := Keys(AssignAll(d, pairs, n));
    forall j | 0 <= j < n
      ensures pairs[j].0 in ks
    {
      LastWriteWins(d, pairs, n, pairs[j].0);
    }
    forall k | k in ks
      ensures k in Keys(d) || exists j :: 0 <= j < n && pairs[j].0 == k
    {
      LastWriteWins(d, pairs, n, k);
    }
  }
}
