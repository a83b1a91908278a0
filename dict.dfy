/** A Python `dict`: a map whose keys remember the order in which they were first inserted. */
module Dict {
  import opened Wrappers

  datatype ODict<K, V> = ODict(order: seq<K>, entries: map<K, V>)

  /** Every key is listed once, and the listed keys are exactly the mapped ones. */
  ghost predicate Valid<K, V>(d: ODict<K, V>)
  {
    && (forall i, j :: 0 <= i < j < |d.order| ==> d.order[i] != d.order[j])
    && d.entries.Keys == set k | k in d.order
  }

  /** `{}` */
  function Empty<K, V>(): (d: ODict<K, V>)
    ensures Valid(d) && d.order == [] && d.entries == map[]
  {
    ODict([], map[])
  }

  /** `len(d)` */
  function Len<K, V>(d: ODict<K, V>): nat
  {
    |d.order|
  }

  /** `d[k] = v`: a new key goes to the end of the order, an existing key keeps its place. */
  function Put<K, V>(d: ODict<K, V>, k: K, v: V): (r: ODict<K, V>)
    requires Valid(d)
    ensures Valid(r)
    ensures r.entries == d.entries[k := v]
    ensures r.order == if k in d.entries then d.order else d.order + [k]
  {
    if k in d.entries then ODict(d.order, d.entries[k := v])
    else ODict(d.order + [k], d.entries[k := v])
  }

  /** Assigning the pairs one after the other, left to right. */
  function PutAll<K, V>(d: ODict<K, V>, pairs: seq<(K, V)>): (r: ODict<K, V>)
    requires Valid(d)
    ensures Valid(r)
    decreases |pairs|
  {
    if pairs == [] then d
    else
      var last := pairs[|pairs| - 1];
      Put(PutAll(d, pairs[..|pairs| - 1]), last.0, last.1)
  }

  /** `list(d.items())` */
  function Items<K, V>(d: ODict<K, V>): (r: seq<(K, V)>)
    requires Valid(d)
    ensures |r| == |d.order|
    ensures forall i :: 0 <= i < |r| ==> r[i].0 == d.order[i] && r[i].1 == d.entries[d.order[i]]
  {
    seq(|d.order|, i requires 0 <= i < |d.order| => (d.order[i], d.entries[d.order[i]]))
  }

  /** `d.update(e)` */
  function Update<K, V>(d: ODict<K, V>, e: ODict<K, V>): (r: ODict<K, V>)
    requires Valid(d) && Valid(e)
    ensures Valid(r)
  {
    PutAll(d, Items(e))
  }

  /** The value of the last pair whose key is `k`, reading `pairs` independently from the end. */
  function LastFor<K(==), V>(pairs: seq<(K, V)>, k: K): (r: Option<V>)
    ensures r.None? <==> forall i :: 0 <= i < |pairs| ==> pairs[i].0 != k
    ensures r.Some? ==> exists i :: 0 <= i < |pairs| && pairs[i].0 == k && pairs[i].1 == r.value
                                    && forall j :: i < j < |pairs| ==> pairs[j].0 != k
    decreases |pairs|
  {
    if pairs == [] then None
    else if pairs[|pairs| - 1].0 == k then Some(pairs[|pairs| - 1].1)
    else
      var init := pairs[..|pairs| - 1];
      var r := LastFor(init, k);
      assert pairs == init + [pairs[|pairs| - 1]];
      LastForSkip(init, pairs[|pairs| - 1], k, r);
      r
  }

  /** A last pair with another key leaves the answer for `k` as it was. */
  lemma LastForSkip<K, V>(init: seq<(K, V)>, last: (K, V), k: K, r: Option<V>)
    requires last.0 != k
    requires r.None? <==> forall i :: 0 <= i < |init| ==> init[i].0 != k
    requires r.Some? ==> exists i :: 0 <= i < |init| && init[i].0 == k && init[i].1 == r.value
                                     && forall j :: i < j < |init| ==> init[j].0 != k
    ensures var pairs := init + [last];
            && (r.None? <==> forall i :: 0 <= i < |pairs| ==> pairs[i].0 != k)
            && (r.Some? ==> exists i :: 0 <= i < |pairs| && pairs[i].0 == k && pairs[i].1 == r.value
                                        && forall j :: i < j < |pairs| ==> pairs[j].0 != k)
  {
    var pairs := init + [last];
    if r.Some? {
      var i :| 0 <= i < |init| && init[i].0 == k && init[i].1 == r.value
               && forall j :: i < j < |init| ==> init[j].0 != k;
      assert pairs[i] == init[i];
      forall j | i < j < |pairs| ensures pairs[j].0 != k {
        if j < |init| { assert pairs[j] == init[j]; }
      }
    } else {
      forall i | 0 <= i < |pairs| ensures pairs[i].0 != k {
        if i < |init| { assert pairs[i] == init[i]; }
      }
    }
  }

  /** Last write wins: after assigning `pairs`, each key holds the value of its last pair, and the
      keys no pair names keep their old values. */
  lemma {:induction false} PutAllLastWins<K, V>(d: ODict<K, V>, pairs: seq<(K, V)>, k: K)
    requires Valid(d)
    ensures k in PutAll(d, pairs).entries <==> k in d.entries || LastFor(pairs, k).Some?
    ensures k in PutAll(d, pairs).entries ==>
              PutAll(d, pairs).entries[k] == (if LastFor(pairs, k).Some? then LastFor(pairs, k).value
                                              else d.entries[k])
    decreases |pairs|
  {
    if pairs != [] {
      PutAllLastWins(d, pairs[..|pairs| - 1], k);
    }
  }

  /** Assigning one more pair is one more `d[k] = v`. */
  lemma PutAllSnoc<K, V>(d: ODict<K, V>, pairs: seq<(K, V)>, p: (K, V))
    requires Valid(d)
    ensures PutAll(d, pairs + [p]) == Put(PutAll(d, pairs), p.0, p.1)
  {
    assert (pairs + [p])[..|pairs|] == pairs;
  }

  /** Assigning a sequence of pairs in two parts is assigning them all. */
  lemma {:induction false} PutAllAppend<K, V>(d: ODict<K, V>, a: seq<(K, V)>, b: seq<(K, V)>)
    requires Valid(d)
    ensures PutAll(d, a + b) == PutAll(PutAll(d, a), b)
    decreases |b|
  {
    if b == [] {
      assert a + b == a;
    } else {
      assert (a + b)[..|a + b| - 1] == a + b[..|b| - 1];
      PutAllAppend(d, a, b[..|b| - 1]);
    }
  }

  /** `d.update(e)` keeps the keys of `d` and takes every value of `e`: the entries of `e` win. */
  lemma UpdateEntries<K(!new), V>(d: ODict<K, V>, e: ODict<K, V>)
    requires Valid(d) && Valid(e)
    ensures Update(d, e).entries == d.entries + e.entries
  {
    var items := Items(e);
    var a, b := Update(d, e).entries, d.entries + e.entries;
    forall k
      ensures k in a <==> k in b
      ensures k in a ==> a[k] == b[k]
    {
      PutAllLastWins(d, items, k);
      if k in e.entries {
        assert k in e.order;
        var i :| 0 <= i < |e.order| && e.order[i] == k;
        assert items[i].0 == k;
        var v := LastFor(items, k).value;
        var j :| 0 <= j < |items| && items[j].0 == k && items[j].1 == v;
        assert e.order[j] == k;
      } else {
        assert k in b ==> b[k] == d.entries[k];
        forall i | 0 <= i < |items| ensures items[i].0 != k {
          assert e.order[i] in e.entries;
        }
      }
    }
    assert a == b;
  }
}
