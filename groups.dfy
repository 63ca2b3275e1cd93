/** The `results` dictionary of the forecast scripts: a Python dict, in
    insertion order, from a key to the list of values filed under it, grown
    by `try: d[k].append(v) except KeyError: d[k] = [v]`. */
module Groups {

  predicate Distinct<T(==)>(s: seq<T>)
  {
    forall i, j :: 0 <= i < j < |s| ==> s[i] != s[j]
  }

  /** The values of a list of key/value pairs, in order. */
  function Values<K, V>(kvs: seq<(K, V)>): (r: seq<V>)
    ensures |r| == |kvs|
  {
    seq(|kvs|, i requires 0 <= i < |kvs| => kvs[i].1)
  }

  /** The keys of `kvs` in order of first appearance: the iteration order of
      the dict after the pairs have been filed one by one. */
  function FirstKeys<K(==), V>(kvs: seq<(K, V)>): seq<K>
    decreases |kvs|
  {
    if kvs == [] then []
    else
      var before := FirstKeys(kvs[..|kvs| - 1]);
      if kvs[|kvs| - 1].0 in before then before else before + [kvs[|kvs| - 1].0]
  }

  /** The list filed under `k`: the values paired with `k`, in order. */
  function Members<K(==), V>(kvs: seq<(K, V)>, k: K): seq<V>
    decreases |kvs|
  {
    if kvs == [] then []
    else Members(kvs[..|kvs| - 1], k) + (if kvs[|kvs| - 1].0 == k then [kvs[|kvs| - 1].1] else [])
  }

  /** The dict after the pairs have been filed one by one: each key maps to
      its list so far, extended by the value of each pair that carries it. */
  function GroupsOf<K(==), V>(kvs: seq<(K, V)>): map<K, seq<V>>
    decreases |kvs|
  {
    if kvs == [] then map[]
    else
      var g := GroupsOf(kvs[..|kvs| - 1]);
      var k := kvs[|kvs| - 1].0;
      g[k := (if k in g then g[k] else []) + [kvs[|kvs| - 1].1]]
  }

  /** The groups of `keys`, one after the other. */
  function Concat<K(==), V>(keys: seq<K>, kvs: seq<(K, V)>): seq<V>
    decreases |keys|
  {
    if keys == [] then [] else Concat(keys[..|keys| - 1], kvs) + Members(kvs, keys[|keys| - 1])
  }

  /** Some pair carries the key `k`. */
  ghost predicate HasKey<K, V>(kvs: seq<(K, V)>, k: K)
  {
    exists i :: 0 <= i < |kvs| && kvs[i].0 == k
  }

  /** Every key appears once, and exactly the keys of some pair appear. */
  lemma {:induction false} FirstKeysMeaning<K, V>(kvs: seq<(K, V)>)
    ensures Distinct(FirstKeys(kvs))
    ensures forall k :: k in FirstKeys(kvs) <==> HasKey(kvs, k)
    decreases |kvs|
  {
    if kvs != [] {
      var init := kvs[..|kvs| - 1];
      FirstKeysMeaning(init);
      forall k ensures HasKey(kvs, k) <==> HasKey(init, k) || kvs[|kvs| - 1].0 == k
      {
        if exists i :: 0 <= i < |kvs| && kvs[i].0 == k {
          var i :| 0 <= i < |kvs| && kvs[i].0 == k;
          if i < |init| {
            assert init[i].0 == k;
          }
        }
        if exists i :: 0 <= i < |init| && init[i].0 == k {
          var i :| 0 <= i < |init| && init[i].0 == k;
          assert kvs[i].0 == k;
        }
      }
    }
  }

  /** A key has a non-empty list exactly when it is one of the dict's keys. */
  lemma {:induction false} MembersNonEmpty<K, V>(kvs: seq<(K, V)>, k: K)
    ensures Members(kvs, k) != [] <==> k in FirstKeys(kvs)
    decreases |kvs|
  {
    if kvs != [] {
      MembersNonEmpty(kvs[..|kvs| - 1], k);
    }
  }

  /** The dict holds exactly the keys of its iteration order, and under each
      key exactly the values filed with that key. */
  lemma {:induction false} GroupsOfMeaning<K, V>(kvs: seq<(K, V)>)
    ensures forall k :: k in GroupsOf(kvs) <==> k in FirstKeys(kvs)
    ensures forall k :: k in GroupsOf(kvs) ==> GroupsOf(kvs)[k] == Members(kvs, k)
    decreases |kvs|
  {
    if kvs != [] {
      var init := kvs[..|kvs| - 1];
      GroupsOfMeaning(init);
      forall k | k !in GroupsOf(init) ensures Members(init, k) == [] {
        MembersNonEmpty(init, k);
      }
    }
  }

  /** Filing one more pair adds its value to its key's group and leaves the
      other groups alone. */
  lemma {:induction false} ConcatStep<K, V>(keys: seq<K>, kvs: seq<(K, V)>, k: K, v: V)
    requires Distinct(keys)
    ensures multiset(Concat(keys, kvs + [(k, v)])) ==
            multiset(Concat(keys, kvs)) + (if k in keys then multiset{v} else multiset{})
    decreases |keys|
  {
    if keys != [] {
      var init := keys[..|keys| - 1];
      var last := keys[|keys| - 1];
      assert Distinct(init);
      ConcatStep(init, kvs, k, v);
      assert (kvs + [(k, v)])[..|kvs|] == kvs;
      assert Members(kvs + [(k, v)], last) == Members(kvs, last) + (if last == k then [v] else []);
      assert k in keys <==> k in init || k == last;
      assert k == last ==> k !in init;
    }
  }

  /** Grouping neither loses nor duplicates a value: the groups, taken in
      key order, hold exactly the values filed. */
  lemma {:induction false} GroupsPermuteValues<K, V>(kvs: seq<(K, V)>)
    ensures multiset(Concat(FirstKeys(kvs), kvs)) == multiset(Values(kvs))
    decreases |kvs|
  {
    if kvs != [] {
      var init := kvs[..|kvs| - 1];
      var (k, v) := kvs[|kvs| - 1];
      assert kvs == init + [(k, v)];
      assert Values(kvs) == Values(init) + [v];
      GroupsPermuteValues(init);
      FirstKeysMeaning(init);
      ConcatStep(FirstKeys(init), init, k, v);
      if k !in FirstKeys(init) {
        MembersNonEmpty(init, k);
        assert Members(kvs, k) == [v];
        var keys := FirstKeys(init) + [k];
        assert keys[..|keys| - 1] == FirstKeys(init);
      }
    }
  }

  /** Every value of a group was filed under that group's key. */
  lemma {:induction false} MembersFiledUnder<K, V>(kvs: seq<(K, V)>, k: K, v: V)
    requires v in Members(kvs, k)
    ensures (k, v) in kvs
    decreases |kvs|
  {
    var init := kvs[..|kvs| - 1];
    if v in Members(init, k) {
      MembersFiledUnder(init, k, v);
    }
  }

  /** The dict itself: its keys in insertion order and the list under each;
      `added` records every pair filed so far. */
  class OrderedGroups<K(==), V> {
    var keys: seq<K>
    var groups: map<K, seq<V>>
    ghost var added: seq<(K, V)>

    ghost predicate Valid()
      reads this
    {
      keys == FirstKeys(added) && groups == GroupsOf(added)
    }

    /** `results = {}`. */
    constructor ()
      ensures Valid() && added == [] && keys == [] && groups == map[]
    {
      keys := [];
      groups := map[];
      added := [];
    }

    /** `try: d[k].append(v) except KeyError: d[k] = [v]`. */
    method Append(k: K, v: V)
      requires Valid()
      modifies this
      ensures Valid() && added == old(added) + [(k, v)]
      ensures keys == if k in old(groups) then old(keys) else old(keys) + [k]
      ensures groups == old(groups)[k := (if k in old(groups) then old(groups)[k] else []) + [v]]
    {
      ghost var next := added + [(k, v)];
      assert next[..|added|] == added && next[|next| - 1] == (k, v);
      assert GroupsOf(next) == groups[k := (if k in groups then groups[k] else []) + [v]];
      GroupsOfMeaning(added);
      assert FirstKeys(next) == if k in groups then keys else keys + [k];
      if k in groups {
        groups := groups[k := groups[k] + [v]];
      } else {
        assert [] + [v] == [v];
        keys := keys + [k];
        groups := groups[k := [v]];
      }
      added := added + [(k, v)];
    }
  }
}
