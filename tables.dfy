/**
 * A Python dict with string keys: a mapping plus the order in which keys
 * were first inserted, which is the order `.items()` yields them in.
 * `Table` is the dict as a value; `Dict` is the object the scripts update
 * in place, whose state is a `Table`.
 */
module Tables {
  import opened Common

  datatype Table<V> = Table(keys: seq<string>, entries: map<string, V>)

  /** The keys in order are distinct and are exactly the keys of the mapping. */
  ghost predicate Valid<V>(t: Table<V>) {
    Distinct(t.keys) && (forall k :: k in t.entries <==> k in t.keys)
  }

  function EmptyTable<V>(): (r: Table<V>)
    ensures Valid(r) && r.entries == map[]
  {
    Table([], map[])
  }

  /** `d[k] = v`: a new key goes last, an existing key keeps its place. */
  function Assign<V>(t: Table<V>, k: string, v: V): (r: Table<V>)
    requires Valid(t)
    ensures Valid(r)
    ensures k in r.entries && r.entries[k] == v
    ensures forall j :: j != k ==> (j in r.entries <==> j in t.entries)
    ensures forall j :: j != k && j in t.entries ==> r.entries[j] == t.entries[j]
    ensures |t.keys| <= |r.keys| && r.keys[..|t.keys|] == t.keys
  {
    var keys := if k in t.entries then t.keys else t.keys + [k];
    assert keys[..|t.keys|] == t.keys;
    Table(keys, t.entries[k := v])
  }

  /** Assigning pairs in order, as a loop of `d[k] = v` does. */
  function AssignAll<V>(t: Table<V>, pairs: seq<(string, V)>): (r: Table<V>)
    requires Valid(t)
    ensures Valid(r)
  {
    if pairs == [] then t
    else
      var last := pairs[|pairs| - 1];
      Assign(AssignAll(t, pairs[..|pairs| - 1]), last.0, last.1)
  }

  lemma AssignAllStep<V>(t: Table<V>, pairs: seq<(string, V)>, i: nat)
    requires Valid(t) && i < |pairs|
    ensures AssignAll(t, pairs[..i + 1]) == Assign(AssignAll(t, pairs[..i]), pairs[i].0, pairs[i].1)
  {
    assert pairs[..i + 1][..i] == pairs[..i];
  }

  /** The value the last pair with key k carries. */
  function LastValue<V>(pairs: seq<(string, V)>, k: string): Option<V> {
    if pairs == [] then None
    else if pairs[|pairs| - 1].0 == k then Some(pairs[|pairs| - 1].1)
    else LastValue(pairs[..|pairs| - 1], k)
  }

  /**
   * After assigning the pairs, a key holds the value of the last pair with
   * that key, and any other key is present and valued as before.
   */
  lemma {:induction false} AssignAllSpec<V>(t: Table<V>, pairs: seq<(string, V)>, k: string)
    requires Valid(t)
    ensures k in AssignAll(t, pairs).entries <==> k in t.entries || LastValue(pairs, k).Some?
    ensures LastValue(pairs, k).Some? ==> AssignAll(t, pairs).entries[k] == LastValue(pairs, k).value
    ensures LastValue(pairs, k).None? && k in t.entries ==> AssignAll(t, pairs).entries[k] == t.entries[k]
  {
    if pairs != [] {
      var init := pairs[..|pairs| - 1];
      var last := pairs[|pairs| - 1];
      AssignAllSpec(t, init, k);
      var mid := AssignAll(t, init);
      assert AssignAll(t, pairs) == Assign(mid, last.0, last.1);
      assert LastValue(pairs, k) == if last.0 == k then Some(last.1) else LastValue(init, k);
    }
  }

  /** The keys already there keep their order, in front of the new ones. */
  lemma {:induction false} AssignAllKeepsOrder<V>(t: Table<V>, pairs: seq<(string, V)>)
    requires Valid(t)
    ensures |t.keys| <= |AssignAll(t, pairs).keys| && AssignAll(t, pairs).keys[..|t.keys|] == t.keys
  {
    if pairs != [] {
      var init := pairs[..|pairs| - 1];
      AssignAllKeepsOrder(t, init);
      var mid := AssignAll(t, init);
      assert AssignAll(t, pairs).keys[..|mid.keys|] == mid.keys;
      assert AssignAll(t, pairs).keys[..|t.keys|] == mid.keys[..|t.keys|];
    }
  }

  /** LastValue finds a pair exactly when some pair has the key, and it is the last such pair. */
  lemma {:induction false} LastValueSome<V>(pairs: seq<(string, V)>, k: string)
    ensures LastValue(pairs, k).Some? <==> exists i :: 0 <= i < |pairs| && pairs[i].0 == k
    ensures LastValue(pairs, k).Some? ==>
      exists i :: (0 <= i < |pairs| && pairs[i] == (k, LastValue(pairs, k).value)
        && forall j :: i < j < |pairs| ==> pairs[j].0 != k)
  {
    if pairs != [] {
      var init := pairs[..|pairs| - 1];
      LastValueSome(init, k);
      if exists i :: 0 <= i < |init| && init[i].0 == k {
        var i :| 0 <= i < |init| && init[i].0 == k;
        assert pairs[i] == init[i];
      }
      if LastValue(init, k).Some? && pairs[|pairs| - 1].0 != k {
        var i :| 0 <= i < |init| && init[i] == (k, LastValue(init, k).value) && forall j :: i < j < |init| ==> init[j].0 != k;
        assert pairs[i] == init[i];
        forall j | i < j < |pairs| ensures pairs[j].0 != k {
          if j < |init| {
            assert pairs[j] == init[j];
          }
        }
      }
      if exists i :: 0 <= i < |pairs| && pairs[i].0 == k {
        var i :| 0 <= i < |pairs| && pairs[i].0 == k;
        if i < |init| {
          assert init[i] == pairs[i];
        }
      }
    }
  }

  /** The pairs a loop assigns when each element contributes at most one pair. */
  function Collect<T, V>(xs: seq<T>, entry: T -> Option<(string, V)>): seq<(string, V)> {
    if xs == [] then []
    else
      var prev := Collect(xs[..|xs| - 1], entry);
      match entry(xs[|xs| - 1])
      case None => prev
      case Some(p) => prev + [p]
  }

  /** The element contributes a pair with key k. */
  predicate Hits<T, V>(entry: T -> Option<(string, V)>, x: T, k: string) {
    entry(x).Some? && entry(x).value.0 == k
  }

  lemma LastValueSnoc<V>(prev: seq<(string, V)>, p: (string, V), k: string)
    ensures LastValue(prev + [p], k) == if p.0 == k then Some(p.1) else LastValue(prev, k)
  {
    assert (prev + [p])[..|prev|] == prev;
  }

  /** The last element either gives k its value or leaves it to the elements before. */
  lemma CollectStep<T, V>(xs: seq<T>, entry: T -> Option<(string, V)>, k: string)
    requires xs != []
    ensures var x := xs[|xs| - 1];
            LastValue(Collect(xs, entry), k)
            == if Hits(entry, x, k) then Some(entry(x).value.1) else LastValue(Collect(xs[..|xs| - 1], entry), k)
  {
    var x := xs[|xs| - 1];
    if entry(x).Some? {
      LastValueSnoc(Collect(xs[..|xs| - 1], entry), entry(x).value, k);
    }
  }

  /** A key has a value exactly when some element contributes it. */
  lemma {:induction false} CollectKeys<T, V>(xs: seq<T>, entry: T -> Option<(string, V)>, k: string)
    ensures LastValue(Collect(xs, entry), k).Some? <==> exists i :: 0 <= i < |xs| && Hits(entry, xs[i], k)
  {
    if xs != [] {
      var n := |xs| - 1;
      var init := xs[..n];
      CollectStep(xs, entry, k);
      CollectKeys(init, entry, k);
      if LastValue(Collect(xs, entry), k).Some? && !Hits(entry, xs[n], k) {
        var i :| 0 <= i < |init| && Hits(entry, init[i], k);
        assert xs[i] == init[i];
      }
      if exists i :: 0 <= i < |xs| && Hits(entry, xs[i], k) {
        var i :| 0 <= i < |xs| && Hits(entry, xs[i], k);
        if i < n {
          assert init[i] == xs[i];
        }
      }
    }
  }

  /** That value is the one the last contributing element gives. */
  lemma {:induction false} CollectLast<T, V>(xs: seq<T>, entry: T -> Option<(string, V)>, k: string)
    requires LastValue(Collect(xs, entry), k).Some?
    ensures exists j :: && 0 <= j < |xs| && Hits(entry, xs[j], k)
                        && LastValue(Collect(xs, entry), k).value == entry(xs[j]).value.1
                        && forall h :: j < h < |xs| ==> !Hits(entry, xs[h], k)
  {
    var n := |xs| - 1;
    CollectStep(xs, entry, k);
    if !Hits(entry, xs[n], k) {
      var init := xs[..n];
      CollectLast(init, entry, k);
      var j :| && 0 <= j < |init| && Hits(entry, init[j], k)
               && LastValue(Collect(init, entry), k).value == entry(init[j]).value.1
               && forall h :: j < h < |init| ==> !Hits(entry, init[h], k);
      assert init[j] == xs[j];
      forall h | j < h < |xs| ensures !Hits(entry, xs[h], k) {
        if h < n {
          assert init[h] == xs[h];
        }
      }
    }
  }

  /** `.items()` */
  function Items<V>(t: Table<V>): seq<(string, V)>
    requires Valid(t)
  {
    seq(|t.keys|, i requires 0 <= i < |t.keys| => (t.keys[i], t.entries[t.keys[i]]))
  }

  /** `.items()` lists every key exactly once, with its value. */
  lemma ItemsOnePerKey<V>(t: Table<V>)
    requires Valid(t)
    ensures forall i, j :: 0 <= i < j < |Items(t)| ==> Items(t)[i].0 != Items(t)[j].0
    ensures forall k :: k in t.entries ==> exists i :: 0 <= i < |Items(t)| && Items(t)[i] == (k, t.entries[k])
    ensures forall i :: 0 <= i < |Items(t)| ==> Items(t)[i].0 in t.entries && Items(t)[i].1 == t.entries[Items(t)[i].0]
  {
    forall k | k in t.entries ensures exists i :: 0 <= i < |Items(t)| && Items(t)[i] == (k, t.entries[k]) {
      var i :| 0 <= i < |t.keys| && t.keys[i] == k;
      assert Items(t)[i] == (k, t.entries[k]);
    }
  }

  /** The dict object; its methods change its state as `Assign` says. */
  class Dict<V> {
    var keys: seq<string>
    var entries: map<string, V>

    function State(): Table<V>
      reads this
    {
      Table(keys, entries)
    }

    constructor ()
      ensures State() == EmptyTable()
    {
      keys := [];
      entries := map[];
    }

    /** `d[k] = v` */
    method Put(k: string, v: V)
      modifies this
      requires Valid(State())
      ensures State() == Assign(old(State()), k, v)
    {
      if k !in entries {
        keys := keys + [k];
      }
      entries := entries[k := v];
    }

    /** `k in d` */
    predicate Has(k: string)
      reads this
    {
      k in entries
    }

    /** A loop of `d[k] = v` over the pairs. */
    method PutAll(pairs: seq<(string, V)>)
      modifies this
      requires Valid(State())
      ensures State() == AssignAll(old(State()), pairs)
    {
      var i := 0;
      while i < |pairs|
        invariant 0 <= i <= |pairs|
        invariant State() == AssignAll(old(State()), pairs[..i])
      {
        AssignAllStep(old(State()), pairs, i);
        Put(pairs[i].0, pairs[i].1);
        i := i + 1;
      }
      assert pairs[..i] == pairs;
    }
  }
}
