/**
 * Values shared by every script of the portfolio tracker: optional values,
 * Python floats (which may be NaN or infinite), calendar days, pandas'
 * `unique()` and the stable sort of Python lists.
 */
module Common {

  datatype Option<T> = None | Some(value: T)

  /** A calendar day, counted in days since 1970-01-01 (pandas Timestamp at midnight). */
  type Day = int

  /** 2008-01-01, the default start of the dividend audit when a ticker has no dated row. */
  const AuditStart: Day := 13879

  /** A Python float as the providers deliver it: a finite value, NaN, or an infinity. */
  datatype Float = Finite(value: real) | NaN | Infinity(negative: bool)

  /** Python truthiness of a float: only zero is false (NaN and infinities are true). */
  predicate Truthy(f: Float) {
    !(f.Finite? && f.value == 0.0)
  }

  /** A dated amount of a pandas Series indexed by day (a dividend event). */
  datatype Event = Event(day: Day, rate: real)

  predicate Distinct<T(==)>(s: seq<T>) {
    forall i, j :: 0 <= i < j < |s| ==> s[i] != s[j]
  }

  /** The position of the first occurrence of x in s. */
  function FirstIndex<T(==)>(s: seq<T>, x: T): (i: nat)
    requires x in s
    ensures i < |s| && s[i] == x && x !in s[..i]
  {
    var init := s[..|s| - 1];
    if x in init then
      var i := FirstIndex(init, x);
      assert s[..i] == init[..i];
      i
    else
      |s| - 1
  }

  /** pandas `Series.unique()`: each value once, in order of first appearance. */
  function Unique<T(==)>(s: seq<T>): (r: seq<T>)
    ensures Distinct(r)
    ensures forall i :: 0 <= i < |r| ==> r[i] in s
    ensures forall i :: 0 <= i < |s| ==> s[i] in r
    ensures |r| <= |s|
    ensures forall i, j :: 0 <= i < j < |r| ==> FirstIndex(s, r[i]) < FirstIndex(s, r[j])
  {
    if s == [] then []
    else
      var init := s[..|s| - 1];
      var x := s[|s| - 1];
      var u := Unique(init);
      FirstIndexKept(s, u);
      if x in u then u
      else
        assert x !in init;
        UniqueAppendOrder(s, u);
        u + [x]
  }

  /** The values of the init keep their first positions once one more element is appended. */
  lemma FirstIndexKept<T>(s: seq<T>, u: seq<T>)
    requires s != [] && forall i :: 0 <= i < |u| ==> u[i] in s[..|s| - 1]
    ensures forall i :: 0 <= i < |u| ==> FirstIndex(s, u[i]) == FirstIndex(s[..|s| - 1], u[i]) < |s| - 1
  {
  }

  /** A value new to the init goes last and appears first after every earlier value. */
  lemma UniqueAppendOrder<T>(s: seq<T>, u: seq<T>)
    requires s != [] && s[|s| - 1] !in u && s[|s| - 1] !in s[..|s| - 1]
    requires Distinct(u) && forall i :: 0 <= i < |u| ==> u[i] in s && FirstIndex(s, u[i]) < |s| - 1
    requires forall i, j :: 0 <= i < j < |u| ==> FirstIndex(s, u[i]) < FirstIndex(s, u[j])
    ensures Distinct(u + [s[|s| - 1]])
    ensures var r := u + [s[|s| - 1]]; forall i, j :: 0 <= i < j < |r| ==> FirstIndex(s, r[i]) < FirstIndex(s, r[j])
  {
    assert FirstIndex(s, s[|s| - 1]) == |s| - 1;
  }

  /** The results of f on every element, one after another. */
  function Flatten<A, B>(xs: seq<A>, f: A -> seq<B>): seq<B> {
    if xs == [] then [] else Flatten(xs[..|xs| - 1], f) + f(xs[|xs| - 1])
  }

  /** Flattening a concatenation flattens the two parts in turn. */
  lemma {:induction false} FlattenAppend<A, B>(xs: seq<A>, ys: seq<A>, f: A -> seq<B>)
    ensures Flatten(xs + ys, f) == Flatten(xs, f) + Flatten(ys, f)
    decreases |ys|
  {
    if ys != [] {
      var ys' := ys[..|ys| - 1];
      assert (xs + ys)[..|xs + ys| - 1] == xs + ys' && (xs + ys)[|xs + ys| - 1] == ys[|ys| - 1];
      FlattenAppend(xs, ys', f);
    } else {
      assert xs + ys == xs;
    }
  }

  /** Applies f to every element, failing as a whole as soon as one application fails. */
  function MapAll<A, B>(xs: seq<A>, f: A -> Option<B>): Option<seq<B>> {
    if xs == [] then Some([])
    else
      match MapAll(xs[..|xs| - 1], f)
      case None => None
      case Some(prev) =>
        match f(xs[|xs| - 1])
        case None => None
        case Some(y) => Some(prev + [y])
  }

  /** MapAll succeeds exactly when every application does, and then lists their results in order. */
  lemma {:induction false} MapAllSpec<A, B>(xs: seq<A>, f: A -> Option<B>)
    ensures MapAll(xs, f).Some? <==> forall i :: 0 <= i < |xs| ==> f(xs[i]).Some?
    ensures MapAll(xs, f).Some? ==> |MapAll(xs, f).value| == |xs| && forall i :: 0 <= i < |xs| ==> f(xs[i]) == Some(MapAll(xs, f).value[i])
  {
    if xs != [] {
      var n := |xs| - 1;
      var init := xs[..n];
      MapAllSpec(init, f);
      assert forall i :: 0 <= i < n ==> init[i] == xs[i];
      if MapAll(xs, f).Some? {
        var prev := MapAll(init, f).value;
        assert MapAll(xs, f).value == prev + [f(xs[n]).value];
      } else if MapAll(init, f).Some? {
        assert f(xs[n]).None?;
      } else {
        var i :| 0 <= i < n && f(init[i]).None?;
        assert f(xs[i]).None?;
      }
    }
  }

  predicate SortedBy<T>(s: seq<T>, key: T -> int) {
    forall i, j :: 0 <= i < j < |s| ==> key(s[i]) <= key(s[j])
  }

  /** Inserts x in front of the trailing elements whose key is greater than key(x), as a stable sort does. */
  function InsertBy<T>(s: seq<T>, x: T, key: T -> int): (r: seq<T>)
    ensures |r| == |s| + 1
  {
    if s == [] then [x]
    else if key(s[|s| - 1]) <= key(x) then s + [x]
    else InsertBy(s[..|s| - 1], x, key) + [s[|s| - 1]]
  }

  lemma {:induction false} InsertByPermutes<T>(s: seq<T>, x: T, key: T -> int)
    ensures multiset(InsertBy(s, x, key)) == multiset(s) + multiset{x}
  {
    if s != [] && key(s[|s| - 1]) > key(x) {
      var init := s[..|s| - 1];
      InsertByPermutes(init, x, key);
      assert s == init + [s[|s| - 1]];
    }
  }

  lemma {:induction false} InsertBySorted<T>(s: seq<T>, x: T, key: T -> int)
    requires SortedBy(s, key)
    ensures SortedBy(InsertBy(s, x, key), key)
  {
    if s != [] && key(s[|s| - 1]) > key(x) {
      var init := s[..|s| - 1];
      var last := s[|s| - 1];
      assert forall i :: 0 <= i < |init| ==> init[i] == s[i];
      InsertBySorted(init, x, key);
      InsertByPermutes(init, x, key);
      var r' := InsertBy(init, x, key);
      forall k | 0 <= k < |r'|
        ensures key(r'[k]) <= key(last)
      {
        assert r'[k] in multiset(r');
        if r'[k] != x {
          assert r'[k] in multiset(init);
          var m :| 0 <= m < |init| && init[m] == r'[k];
        }
      }
    }
  }

  /** Python's `list.sort(key=...)`: an insertion sort, stable like Timsort. */
  function SortBy<T>(s: seq<T>, key: T -> int): (r: seq<T>)
    ensures SortedBy(r, key)
    ensures multiset(r) == multiset(s)
    ensures |r| == |s|
  {
    if s == [] then []
    else
      var prev := SortBy(s[..|s| - 1], key);
      InsertBySorted(prev, s[|s| - 1], key);
      InsertByPermutes(prev, s[|s| - 1], key);
      assert s == s[..|s| - 1] + [s[|s| - 1]];
      InsertBy(prev, s[|s| - 1], key)
  }

  /** The elements of s whose key is k, in the order of s. */
  function WithKey<T>(s: seq<T>, key: T -> int, k: int): seq<T> {
    if s == [] then []
    else WithKey(s[..|s| - 1], key, k) + (if key(s[|s| - 1]) == k then [s[|s| - 1]] else [])
  }

  lemma {:induction false} WithKeyAppend<T>(a: seq<T>, b: seq<T>, key: T -> int, k: int)
    ensures WithKey(a + b, key, k) == WithKey(a, key, k) + WithKey(b, key, k)
    decreases |b|
  {
    if b == [] {
      assert a + b == a;
    } else {
      var b' := b[..|b| - 1];
      assert (a + b)[..|a + b| - 1] == a + b' && (a + b)[|a + b| - 1] == b[|b| - 1];
      WithKeyAppend(a, b', key, k);
    }
  }

  /** Inserting never reorders elements of equal key: x goes after every element whose key equals its own. */
  lemma {:induction false} InsertByStable<T>(s: seq<T>, x: T, key: T -> int, k: int)
    ensures WithKey(InsertBy(s, x, key), key, k) == WithKey(s, key, k) + (if key(x) == k then [x] else [])
  {
    if s == [] {
      assert [x][..0] == [];
    } else if key(s[|s| - 1]) <= key(x) {
      WithKeyAppend(s, [x], key, k);
      assert [x][..0] == [];
    } else {
      var init, last := s[..|s| - 1], s[|s| - 1];
      var r' := InsertBy(init, x, key);
      InsertByStable(init, x, key, k);
      assert (r' + [last])[..|r' + [last]| - 1] == r';
    }
  }

  /** The sort is stable: the elements of any one key keep their input order. */
  lemma {:induction false} SortByStable<T>(s: seq<T>, key: T -> int, k: int)
    ensures WithKey(SortBy(s, key), key, k) == WithKey(s, key, k)
  {
    if s != [] {
      var init := s[..|s| - 1];
      SortByStable(init, key, k);
      InsertByStable(SortBy(init, key), s[|s| - 1], key, k);
    }
  }

  /** Summing a sequence of reals left to right. */
  function Sum(s: seq<real>): real {
    if s == [] then 0.0 else Sum(s[..|s| - 1]) + s[|s| - 1]
  }

  function Max0(x: real): (r: real)
    ensures r >= 0.0 && r >= x
    ensures r == x || r == 0.0
  {
    if x > 0.0 then x else 0.0
  }
}
