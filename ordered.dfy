/**
 * `collections.OrderedDict` keyed by strings, as the status sections use it:
 * keys in first-insertion order, a later insertion of an existing key
 * replacing its value in place.
 */
module Ordered {

  datatype OrderedDict<V> = OrderedDict(keys: seq<string>, items: map<string, V>)
  {
    /** The keys are listed once each, and exactly the mapped ones. */
    ghost predicate Valid()
    {
      (forall i, j :: 0 <= i < j < |keys| ==> keys[i] != keys[j])
      && (forall k :: k in items <==> k in keys)
    }
  }

  function Empty<V>(): (d: OrderedDict<V>)
    ensures d.Valid() && d.items == map[]
  {
    OrderedDict([], map[])
  }

  /** `d[k] = v`: a new key goes last, an existing key keeps its position. */
  function Put<V>(d: OrderedDict<V>, k: string, v: V): (r: OrderedDict<V>)
    ensures d.Valid() ==> r.Valid()
    ensures k in r.items && r.items[k] == v
    ensures forall k' :: k' != k ==> (k' in r.items <==> k' in d.items)
    ensures forall k' :: k' != k && k' in d.items ==> r.items[k'] == d.items[k']
    ensures |d.keys| <= |r.keys| && r.keys[..|d.keys|] == d.keys
    ensures k in d.items ==> r.keys == d.keys
  {
    if k in d.items then OrderedDict(d.keys, d.items[k := v])
    else OrderedDict(d.keys + [k], d.items[k := v])
  }

  /**
   * The ordered map built by inserting the key/value pairs in order, as
   * `OrderedDict().update({key(x): x for x in xs})` does.
   */
  function Collect<V>(pairs: seq<(string, V)>): OrderedDict<V>
  {
    if pairs == [] then Empty()
    else
      var last := pairs[|pairs| - 1];
      Put(Collect(pairs[..|pairs| - 1]), last.0, last.1)
  }

  /** Collecting one more pair puts it into what the pairs before it collect. */
  lemma CollectSnoc<V>(pairs: seq<(string, V)>, i: nat)
    requires i < |pairs|
    ensures Collect(pairs[..i + 1]) == Put(Collect(pairs[..i]), pairs[i].0, pairs[i].1)
  {
    var front := pairs[..i + 1];
    assert front[..i] == pairs[..i] && front[i] == pairs[i];
  }

  lemma {:induction false} CollectValid<V>(pairs: seq<(string, V)>)
    ensures Collect(pairs).Valid()
  {
    if pairs != [] {
      CollectValid(pairs[..|pairs| - 1]);
    }
  }

  /** The keys are exactly those of the pairs. */
  lemma {:induction false} CollectKeys<V>(pairs: seq<(string, V)>, k: string)
    ensures k in Collect(pairs).items <==> exists i :: 0 <= i < |pairs| && pairs[i].0 == k
  {
    if pairs != [] {
      var n := |pairs| - 1;
      var front := pairs[..n];
      assert Collect(pairs) == Put(Collect(front), pairs[n].0, pairs[n].1);
      CollectKeys(front, k);
      if k in Collect(front).items {
        var i :| 0 <= i < n && front[i].0 == k;
        assert pairs[i].0 == k;
      } else if k != pairs[n].0 {
        forall i | 0 <= i < |pairs| ensures pairs[i].0 != k {
          if i < n { assert front[i] == pairs[i]; }
        }
      }
    }
  }

  /** Last occurrence wins: a key holds the value of its last pair. */
  lemma {:induction false} CollectLastWins<V>(pairs: seq<(string, V)>, i: nat)
    requires i < |pairs|
    requires forall j :: i < j < |pairs| ==> pairs[j].0 != pairs[i].0
    ensures pairs[i].0 in Collect(pairs).items
    ensures Collect(pairs).items[pairs[i].0] == pairs[i].1
  {
    var n := |pairs| - 1;
    if i < n {
      CollectLastWins(pairs[..n], i);
    }
  }

  /**
   * Keys keep their first position: the keys collected from a prefix are a
   * prefix of the keys collected from the whole.
   */
  lemma {:induction false} CollectKeysGrow<V>(pairs: seq<(string, V)>, m: nat)
    requires m <= |pairs|
    ensures |Collect(pairs[..m]).keys| <= |Collect(pairs).keys|
    ensures Collect(pairs).keys[..|Collect(pairs[..m]).keys|] == Collect(pairs[..m]).keys
  {
    if m < |pairs| {
      var n := |pairs| - 1;
      var front := pairs[..n];
      assert front[..m] == pairs[..m];
      CollectKeysGrow(front, m);
      assert Collect(pairs) == Put(Collect(front), pairs[n].0, pairs[n].1);
      PrefixOfPrefix(Collect(pairs).keys, Collect(front).keys, Collect(pairs[..m]).keys);
    } else {
      assert pairs[..m] == pairs;
    }
  }

  lemma PrefixOfPrefix(a: seq<string>, b: seq<string>, c: seq<string>)
    requires |b| <= |a| && a[..|b|] == b
    requires |c| <= |b| && b[..|c|] == c
    ensures |c| <= |a| && a[..|c|] == c
  {
    assert a[..|c|] == a[..|b|][..|c|];
  }
}
