/**
 The part of Python's `OrderedDict` the flow table claims to behave like: a list of
 key/value pairs with distinct keys, oldest first.
 */
module OrderedDict {
  import opened Prelude

  type Dict<K, V> = seq<(K, V)>

  ghost predicate WellFormed<K, V>(d: Dict<K, V>) {
    forall i, j :: 0 <= i < j < |d| ==> d[i].0 != d[j].0
  }

  ghost predicate Has<K, V>(d: Dict<K, V>, key: K) {
    exists i :: 0 <= i < |d| && d[i].0 == key
  }

  /** `del d[key]`; a missing key leaves the dictionary alone. */
  ghost function Delete<K, V>(d: Dict<K, V>, key: K): Dict<K, V> {
    if d == [] then []
    else if d[0].0 == key then Delete(d[1..], key)
    else [d[0]] + Delete(d[1..], key)
  }

  /** The value stored under `key`. */
  ghost function Lookup<K, V>(d: Dict<K, V>, key: K): Option<V> {
    if d == [] then None
    else if d[0].0 == key then Some(d[0].1)
    else Lookup(d[1..], key)
  }

  /** `d[key] = value; d.move_to_end(key)`. */
  ghost function PutLast<K, V>(d: Dict<K, V>, key: K, value: V): Dict<K, V> {
    Delete(d, key) + [(key, value)]
  }

  /** `d.popitem(last=False)` when the bound is reached, before an append. */
  ghost function EvictOldest<K, V>(d: Dict<K, V>, max: nat): Dict<K, V> {
    if |d| >= max && d != [] then d[1..] else d
  }

  lemma {:induction false} DeleteAbsent<K, V>(d: Dict<K, V>, key: K)
    requires !Has(d, key)
    ensures Delete(d, key) == d
  {
    if d != [] {
      assert forall i :: 0 <= i < |d[1..]| ==> d[1..][i] == d[i + 1];
      DeleteAbsent(d[1..], key);
    }
  }

  /** With distinct keys, deleting removes exactly one position, and lookup reads it. */
  lemma {:induction false} DeleteAt<K, V>(d: Dict<K, V>, i: nat)
    requires WellFormed(d) && i < |d|
    ensures Delete(d, d[i].0) == d[..i] + d[i + 1..]
    ensures Lookup(d, d[i].0) == Some(d[i].1)
  {
    var key := d[i].0;
    if i == 0 {
      DeleteAbsent(d[1..], key);
    } else {
      DeleteAt(d[1..], i - 1);
      assert [d[0]] + (d[1..][..i - 1] + d[1..][i..]) == d[..i] + d[i + 1..];
    }
  }

  lemma {:induction false} LookupAbsent<K, V>(d: Dict<K, V>, key: K)
    ensures Lookup(d, key) == None <==> !Has(d, key)
  {
    if d != [] {
      LookupAbsent(d[1..], key);
      if Has(d[1..], key) {
        var i :| 0 <= i < |d[1..]| && d[1..][i].0 == key;
        assert d[i + 1].0 == key;
      }
      if Has(d, key) && d[0].0 != key {
        var i :| 0 <= i < |d| && d[i].0 == key;
        assert d[1..][i - 1].0 == key;
      }
    }
  }

  /** The pairs whose value passes (or, with `want` false, fails) the test, in order. */
  ghost function Filter<K, V>(d: Dict<K, V>, test: V -> bool, want: bool): Dict<K, V> {
    if d == [] then []
    else if test(d[0].1) == want then [d[0]] + Filter(d[1..], test, want)
    else Filter(d[1..], test, want)
  }

  ghost function Keys<K, V>(d: Dict<K, V>): seq<K> {
    if d == [] then [] else [d[0].0] + Keys(d[1..])
  }

  ghost function Values<K, V>(d: Dict<K, V>): seq<V> {
    if d == [] then [] else [d[0].1] + Values(d[1..])
  }

  /** `for key in keys: del d[key]`. */
  ghost function DeleteAll<K, V>(d: Dict<K, V>, keys: seq<K>): Dict<K, V>
    decreases |keys|
  {
    if keys == [] then d else DeleteAll(Delete(d, keys[0]), keys[1..])
  }

  /** What popping the keys one after the other returns, missing keys skipped. */
  ghost function PopAll<K, V>(d: Dict<K, V>, keys: seq<K>): seq<V>
    decreases |keys|
  {
    if keys == [] then []
    else
      var head := Lookup(d, keys[0]);
      var tail := PopAll(Delete(d, keys[0]), keys[1..]);
      if head.Some? then [head.value] + tail else tail
  }

  lemma {:induction false} PopBehind<K, V>(first: (K, V), d: Dict<K, V>, keys: seq<K>)
    requires first.0 !in keys
    ensures DeleteAll([first] + d, keys) == [first] + DeleteAll(d, keys)
    ensures PopAll([first] + d, keys) == PopAll(d, keys)
    decreases |keys|
  {
    if keys != [] {
      assert ([first] + d)[1..] == d;
      PopBehind(first, Delete(d, keys[0]), keys[1..]);
    }
  }

  lemma {:induction false} FilterKeys<K, V>(d: Dict<K, V>, test: V -> bool, want: bool)
    ensures forall k :: k in Keys(Filter(d, test, want)) ==> Has(d, k)
  {
    if d != [] {
      FilterKeys(d[1..], test, want);
      forall k | k in Keys(Filter(d, test, want)) ensures Has(d, k) {
        if k != d[0].0 {
          assert k in Keys(Filter(d[1..], test, want));
          var i :| 0 <= i < |d[1..]| && d[1..][i].0 == k;
          assert d[i + 1].0 == k;
        }
      }
    }
  }

  /** Popping the keys of the entries that pass a test returns exactly those, and leaves the others in order. */
  lemma {:induction false} PopFiltered<K, V>(d: Dict<K, V>, test: V -> bool)
    requires WellFormed(d)
    ensures DeleteAll(d, Keys(Filter(d, test, true))) == Filter(d, test, false)
    ensures PopAll(d, Keys(Filter(d, test, true))) == Values(Filter(d, test, true))
  {
    if d != [] {
      var rest := d[1..];
      PopFiltered(rest, test);
      var keys := Keys(Filter(rest, test, true));
      assert d == [d[0]] + rest;
      if test(d[0].1) {
        DeleteAt(d, 0);
        assert Filter(d, test, true) == [d[0]] + Filter(rest, test, true);
        assert Keys(Filter(d, test, true)) == [d[0].0] + keys;
        assert Delete(d, d[0].0) == rest;
      } else {
        FilterKeys(rest, test, true);
        assert !Has(rest, d[0].0);
        PopBehind(d[0], rest, keys);
      }
    }
  }

  lemma FilterFrom<K, V>(d: Dict<K, V>, i: nat, test: V -> bool)
    requires i < |d|
    ensures Keys(Filter(d[i..], test, true)) ==
            (if test(d[i].1) then [d[i].0] else []) + Keys(Filter(d[i + 1..], test, true))
    ensures Values(d[i..]) == [d[i].1] + Values(d[i + 1..])
  {
    assert d[i..][1..] == d[i + 1..];
    if test(d[i].1) {
      assert Filter(d[i..], test, true)[1..] == Filter(d[i + 1..], test, true);
    }
  }
}
