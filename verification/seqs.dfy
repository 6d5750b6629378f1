/** Generic sequence helpers: the list operations the Python source uses
    (flattening, `list.remove`, `insert`, `pop`, `sum`, `min`/`max` with a
    key) and the facts about them that the rest of the model relies on. */
module Seqs {
  import opened Wrappers

  /** Concatenation of a list of lists, `[x for r in rs for x in r]`. */
  function Flatten<T>(ss: seq<seq<T>>): seq<T>
  {
    if |ss| == 0 then [] else ss[0] + Flatten(ss[1..])
  }

  lemma {:induction false} FlattenConcat<T>(a: seq<seq<T>>, b: seq<seq<T>>)
    ensures Flatten(a + b) == Flatten(a) + Flatten(b)
  {
    if |a| == 0 {
      assert a + b == b;
    } else {
      assert (a + b)[1..] == a[1..] + b;
      FlattenConcat(a[1..], b);
    }
  }

  lemma AppendAssoc<T>(a: seq<T>, b: seq<T>, c: seq<T>)
    ensures a + b + c == a + (b + c)
  {
  }

  lemma FlattenSingle<T>(s: seq<T>)
    ensures Flatten([s]) == s
  {
    assert [s][1..] == [];
  }

  /** The multiset of all elements is unchanged by replacing one inner list
      with another that has the same multiset. */
  lemma {:induction false} FlattenUpdateMultiset<T>(ss: seq<seq<T>>, i: nat, t: seq<T>)
    requires i < |ss|
    ensures multiset(Flatten(ss[i := t])) + multiset(ss[i]) == multiset(Flatten(ss)) + multiset(t)
  {
    if i == 0 {
      assert ss[i := t][1..] == ss[1..];
      assert Flatten(ss[i := t]) == t + Flatten(ss[1..]);
      assert Flatten(ss) == ss[0] + Flatten(ss[1..]);
    } else {
      var rest := ss[1..];
      var u := ss[i := t];
      assert u[1..] == rest[i - 1 := t];
      assert u[0] == ss[0];
      FlattenUpdateMultiset(rest, i - 1, t);
      assert rest[i - 1] == ss[i];
      assert multiset(Flatten(u)) == multiset(ss[0]) + multiset(Flatten(rest[i - 1 := t]));
      assert multiset(Flatten(ss)) == multiset(ss[0]) + multiset(Flatten(rest));
      calc {
        multiset(Flatten(u)) + multiset(ss[i]);
        multiset(ss[0]) + (multiset(Flatten(rest[i - 1 := t])) + multiset(rest[i - 1]));
        multiset(ss[0]) + (multiset(Flatten(rest)) + multiset(t));
        multiset(Flatten(ss)) + multiset(t);
      }
    }
  }

  lemma MultisetCancel<T>(a: multiset<T>, b: multiset<T>, c: multiset<T>)
    requires a + c == b + c
    ensures a == b
  {
    forall x
      ensures a[x] == b[x]
    {
      assert (a + c)[x] == (b + c)[x];
    }
  }

  lemma MultisetLeCancel<T>(a: multiset<T>, b: multiset<T>, c: multiset<T>)
    requires a + c <= b + c
    ensures a <= b
  {
    forall x
      ensures a[x] <= b[x]
    {
      assert (a + c)[x] <= (b + c)[x];
    }
  }

  lemma MultisetLeAdd<T>(a: multiset<T>, b: multiset<T>, c: multiset<T>)
    requires a <= b
    ensures a + c <= b + c
  {
    forall x
      ensures (a + c)[x] <= (b + c)[x]
    {
    }
  }

  /** Replacing a part c by d in a sum, where d is c with one more x. */
  lemma ReplaceGrow<T>(a: multiset<T>, b: multiset<T>, c: multiset<T>, d: multiset<T>, x: T)
    requires a + c == b + d && d == c + multiset{x}
    ensures a == b + multiset{x}
  {
    MultisetCancel(a, b + multiset{x}, c);
  }

  /** Replacing a part c by d in a sum, where c is d with one more x. */
  lemma ReplaceShrink<T>(a: multiset<T>, b: multiset<T>, c: multiset<T>, d: multiset<T>, x: T)
    requires a + c == b + d && c == d + multiset{x}
    ensures a + multiset{x} == b
  {
    MultisetCancel(a + multiset{x}, b, d);
  }

  /** Replacing a part c by d in a sum, where d trades p for q. */
  lemma ReplaceTrade<T>(a: multiset<T>, b: multiset<T>, c: multiset<T>, d: multiset<T>, p: multiset<T>, q: multiset<T>)
    requires a + c == b + d && d + p == c + q
    ensures a + p == b + q
  {
    calc {
      a + p + c;
      (a + c) + p;
      (b + d) + p;
      b + (d + p);
      b + (c + q);
      b + q + c;
    }
    MultisetCancel(a + p, b + q, c);
  }

  /** An element of an inner list is an element of the concatenation. */
  lemma {:induction false} InFlattenGeneric<T>(ss: seq<seq<T>>, j: nat, i: nat)
    requires j < |ss| && i < |ss[j]|
    ensures ss[j][i] in Flatten(ss)
  {
    if j > 0 {
      InFlattenGeneric(ss[1..], j - 1, i);
    }
  }

  lemma {:induction false} FlattenLength<T>(ss: seq<seq<T>>, i: nat)
    requires i < |ss|
    ensures |Flatten(ss)| >= |ss[i]|
  {
    if i > 0 {
      FlattenLength(ss[1..], i - 1);
    }
  }

  /** Removing the element at index i (`list.pop(i)`). */
  function RemoveAt<T>(s: seq<T>, i: nat): (r: seq<T>)
    requires i < |s|
    ensures |r| == |s| - 1
    ensures multiset(r) == multiset(s) - multiset{s[i]}
    ensures forall k :: 0 <= k < i ==> r[k] == s[k]
    ensures forall k :: i <= k < |r| ==> r[k] == s[k + 1]
  {
    assert s == s[..i] + [s[i]] + s[i + 1..];
    s[..i] + s[i + 1..]
  }

  /** Inserting x before index i (`list.insert(i, x)`, with i in range). */
  function InsertAt<T>(s: seq<T>, i: nat, x: T): (r: seq<T>)
    requires i <= |s|
    ensures |r| == |s| + 1
    ensures r[i] == x
    ensures multiset(r) == multiset(s) + multiset{x}
  {
    assert s == s[..i] + s[i..];
    s[..i] + [x] + s[i..]
  }

  /** Python's `list.index(x)`: the position of the first occurrence. */
  function FirstIndex<T(==)>(s: seq<T>, x: T): (i: nat)
    requires x in s
    ensures i < |s| && s[i] == x && x !in s[..i]
  {
    if s[0] == x then 0
    else
      assert x in s[1..];
      var j := FirstIndex(s[1..], x);
      assert s[..j + 1] == [s[0]] + s[1..][..j];
      j + 1
  }

  /** Python's `list.remove(x)`: drop the first occurrence, if any. */
  function RemoveFirst<T(==)>(s: seq<T>, x: T): (r: seq<T>)
    ensures x in s ==> |r| == |s| - 1 && multiset(r) + multiset{x} == multiset(s)
    ensures x !in s ==> r == s
  {
    if |s| == 0 then s
    else if s[0] == x then
      assert s == [s[0]] + s[1..];
      s[1..]
    else
      assert s == [s[0]] + s[1..];
      [s[0]] + RemoveFirst(s[1..], x)
  }

  /** What `list.remove(x)` drops is the first occurrence of `x`: the
      list before it and the list after it are kept as they were. */
  lemma {:induction false} RemoveFirstAt<T>(s: seq<T>, x: T)
    requires x in s
    ensures RemoveFirst(s, x) == s[..FirstIndex(s, x)] + s[FirstIndex(s, x) + 1..]
  {
    if s[0] == x {
      assert s[..0] == [];
    } else {
      var y, t := s[0], s[1..];
      assert s == [y] + t && x in t;
      RemoveFirstCons(y, t, x);
      RemoveFirstAt(t, x);
      var j := FirstIndex(t, x);
      assert FirstIndex(s, x) == j + 1;
      assert s[..j + 1] == [y] + t[..j];
      assert s[j + 1 + 1..] == t[j + 1..];
      AppendAssoc([y], t[..j], t[j + 1..]);
    }
  }

  /** Past a head that is not `x`, `list.remove(x)` works on the tail. */
  lemma RemoveFirstCons<T>(y: T, s: seq<T>, x: T)
    requires y != x
    ensures RemoveFirst([y] + s, x) == [y] + RemoveFirst(s, x)
  {
    assert ([y] + s)[1..] == s;
  }

  /** Removing from a concatenation removes from the first part that holds
      the element. */
  lemma {:induction false} RemoveFirstConcat<T>(a: seq<T>, b: seq<T>, x: T)
    ensures RemoveFirst(a + b, x) == if x in a then RemoveFirst(a, x) + b else a + RemoveFirst(b, x)
  {
    if |a| == 0 {
      assert a + b == b;
    } else if a[0] == x {
      assert (a + b)[1..] == a[1..] + b;
    } else {
      var y, t := a[0], a[1..];
      assert a == [y] + t;
      AppendAssoc([y], t, b);
      RemoveFirstCons(y, t + b, x);
      RemoveFirstCons(y, t, x);
      RemoveFirstConcat(t, b, x);
      if x in t {
        AppendAssoc([y], RemoveFirst(t, x), b);
      } else {
        AppendAssoc([y], t, RemoveFirst(b, x));
      }
    }
  }

  /** Filtering commutes with `list.remove`: removing x and then filtering
      is filtering and then removing x if x passes the filter. */
  lemma {:induction false} FilterRemoveFirst<T>(s: seq<T>, p: T -> bool, x: T)
    ensures Filter(RemoveFirst(s, x), p) == if p(x) then RemoveFirst(Filter(s, p), x) else Filter(s, p)
  {
    if |s| > 0 && s[0] != x {
      var t := RemoveFirst(s[1..], x);
      assert RemoveFirst(s, x) == [s[0]] + t;
      assert ([s[0]] + t)[1..] == t;
      FilterRemoveFirst(s[1..], p, x);
      if p(s[0]) {
        var f := Filter(s[1..], p);
        assert Filter(s, p) == [s[0]] + f;
        assert ([s[0]] + f)[1..] == f;
      }
    }
  }

  predicate Distinct<T(==)>(s: seq<T>)
  {
    forall i, j :: 0 <= i < j < |s| ==> s[i] != s[j]
  }

  /** A distinct sequence is its head, absent from a distinct tail. */
  lemma DistinctUncons<T>(s: seq<T>)
    requires |s| > 0 && Distinct(s)
    ensures Distinct(s[1..]) && s[0] !in s[1..]
  {
  }

  /** Prefixing a distinct sequence with a new element keeps it distinct. */
  lemma DistinctCons<T>(x: T, t: seq<T>)
    requires Distinct(t) && x !in t
    ensures Distinct([x] + t)
  {
    var s := [x] + t;
    forall i, j | 0 <= i < j < |s|
      ensures s[i] != s[j]
    {
      assert s[j] == t[j - 1];
      if i > 0 {
        assert s[i] == t[i - 1];
      }
    }
  }

  /** Concatenating two distinct sequences with no common element keeps
      them distinct. */
  lemma DistinctConcat<T>(a: seq<T>, b: seq<T>)
    requires Distinct(a) && Distinct(b) && forall x :: x in a ==> x !in b
    ensures Distinct(a + b)
  {
    var s := a + b;
    forall i, j | 0 <= i < j < |s|
      ensures s[i] != s[j]
    {
      if j >= |a| {
        assert s[j] == b[j - |a|];
        if i < |a| {
          assert s[i] == a[i] && a[i] in a && b[j - |a|] in b;
        } else {
          assert s[i] == b[i - |a|];
        }
      } else {
        assert s[i] == a[i] && s[j] == a[j];
      }
    }
  }

  /** A distinct sequence has multiplicity at most one for every element. */
  lemma {:induction false} DistinctMultiset<T>(s: seq<T>, x: T)
    requires Distinct(s)
    ensures multiset(s)[x] <= 1
  {
    if |s| > 0 {
      assert s == [s[0]] + s[1..];
      assert Distinct(s[1..]);
      DistinctMultiset(s[1..], x);
      if s[0] == x {
        assert x !in s[1..];
      }
    }
  }

  /** Two distinct sequences with the same elements are permutations of
      each other. */
  lemma DistinctSameSetPermutation<T>(a: seq<T>, b: seq<T>)
    requires Distinct(a) && Distinct(b)
    requires forall x :: x in a <==> x in b
    ensures multiset(a) == multiset(b)
  {
    forall x
      ensures multiset(a)[x] == multiset(b)[x]
    {
      DistinctMultiset(a, x);
      DistinctMultiset(b, x);
      if x in a {
        assert x in b;
      } else {
        assert x !in b;
      }
    }
  }

  function Filter<T>(s: seq<T>, p: T -> bool): (r: seq<T>)
    ensures |r| <= |s|
    ensures forall i :: 0 <= i < |r| ==> r[i] in s && p(r[i])
    ensures forall i :: 0 <= i < |s| && p(s[i]) ==> s[i] in r
    ensures multiset(r) <= multiset(s)
  {
    if |s| == 0 then []
    else if p(s[0]) then
      assert s == [s[0]] + s[1..];
      [s[0]] + Filter(s[1..], p)
    else
      assert s == [s[0]] + s[1..];
      Filter(s[1..], p)
  }

  lemma {:induction false} FilterConcat<T>(a: seq<T>, b: seq<T>, p: T -> bool)
    ensures Filter(a + b, p) == Filter(a, p) + Filter(b, p)
  {
    if |a| == 0 {
      assert a + b == b;
    } else {
      assert (a + b)[1..] == a[1..] + b;
      FilterConcat(a[1..], b, p);
    }
  }

  lemma {:induction false} FilterDistinct<T>(s: seq<T>, p: T -> bool)
    requires Distinct(s)
    ensures Distinct(Filter(s, p))
  {
    if |s| > 0 {
      assert Distinct(s[1..]);
      FilterDistinct(s[1..], p);
      assert s[0] !in s[1..];
    }
  }

  /** Two tests that agree on every element select the same elements. */
  lemma {:induction false} FilterExt<T>(s: seq<T>, p: T -> bool, q: T -> bool)
    requires forall i :: 0 <= i < |s| ==> p(s[i]) == q(s[i])
    ensures Filter(s, p) == Filter(s, q)
  {
    if |s| > 0 {
      FilterExt(s[1..], p, q);
    }
  }

  /** Filtering splits a multiset into the elements that pass and those
      that do not. */
  lemma {:induction false} FilterSplit<T>(s: seq<T>, p: T -> bool, q: T -> bool)
    requires forall x :: q(x) == !p(x)
    ensures multiset(Filter(s, p)) + multiset(Filter(s, q)) == multiset(s)
  {
    if |s| > 0 {
      FilterSplit(s[1..], p, q);
      assert s == [s[0]] + s[1..];
    }
  }

  /** `sum(f(x) for x in s)`. */
  function SumOf<T>(s: seq<T>, f: T -> real): real
  {
    if |s| == 0 then 0.0 else f(s[0]) + SumOf(s[1..], f)
  }

  /** `sum(xs)` over a list of floats. */
  function Sum(xs: seq<real>): real
  {
    SumOf(xs, x => x)
  }

  lemma {:induction false} SumOfConcat<T>(a: seq<T>, b: seq<T>, f: T -> real)
    ensures SumOf(a + b, f) == SumOf(a, f) + SumOf(b, f)
  {
    if |a| == 0 {
      assert a + b == b;
    } else {
      assert (a + b)[1..] == a[1..] + b;
      SumOfConcat(a[1..], b, f);
    }
  }

  lemma SumOfSingle<T>(x: T, f: T -> real)
    ensures SumOf([x], f) == f(x)
  {
    assert [x][1..] == [];
  }

  lemma SumConcat(a: seq<real>, b: seq<real>)
    ensures Sum(a + b) == Sum(a) + Sum(b)
  {
    SumOfConcat(a, b, x => x);
  }

  lemma {:induction false} SumOfNonNegative<T>(s: seq<T>, f: T -> real)
    requires forall i :: 0 <= i < |s| ==> f(s[i]) >= 0.0
    ensures SumOf(s, f) >= 0.0
  {
    if |s| > 0 {
      SumOfNonNegative(s[1..], f);
    }
  }

  /** A sum of non-negative terms is zero exactly when every term is. */
  lemma {:induction false} SumOfZero<T>(s: seq<T>, f: T -> real)
    requires forall i :: 0 <= i < |s| ==> f(s[i]) >= 0.0
    ensures SumOf(s, f) == 0.0 <==> forall i :: 0 <= i < |s| ==> f(s[i]) == 0.0
  {
    if |s| > 0 {
      SumOfZero(s[1..], f);
      SumOfNonNegative(s[1..], f);
      assert forall i :: 1 <= i < |s| ==> s[i] == s[1..][i - 1];
    }
  }

  /** A sum does not depend on the order of its terms. */
  lemma {:induction false} SumOfPermutation<T>(a: seq<T>, b: seq<T>, f: T -> real)
    requires multiset(a) == multiset(b)
    ensures SumOf(a, f) == SumOf(b, f)
    decreases |a|
  {
    if |a| == 0 {
      assert |b| == |multiset(b)| == 0;
    } else {
      assert a[0] in multiset(b);
      var k :| 0 <= k < |b| && b[k] == a[0];
      var b' := RemoveAt(b, k);
      SumOfRemoveAt(b, k, f);
      assert a == [a[0]] + a[1..];
      assert multiset(a[1..]) == multiset(b');
      SumOfPermutation(a[1..], b', f);
    }
  }

  /** Taking one term out of a sum. */
  lemma SumOfRemoveAt<T>(b: seq<T>, k: nat, f: T -> real)
    requires k < |b|
    ensures SumOf(b, f) == f(b[k]) + SumOf(RemoveAt(b, k), f)
  {
    SplitAt(b, k);
    SumOfAround(b[..k], b[k], b[k + 1..], f);
  }

  /** A list is what comes before position k, the element there and what
      comes after it; removing position k joins the two sides. */
  lemma SplitAt<T>(b: seq<T>, k: nat)
    requires k < |b|
    ensures b == b[..k] + ([b[k]] + b[k + 1..])
    ensures RemoveAt(b, k) == b[..k] + b[k + 1..]
  {
  }

  /** A term between two parts of a sum adds to the sum of the parts. */
  lemma SumOfAround<T>(pre: seq<T>, x: T, post: seq<T>, f: T -> real)
    ensures SumOf(pre + ([x] + post), f) == f(x) + SumOf(pre + post, f)
  {
    SumOfConcat(pre, [x] + post, f);
    SumOfConcat(pre, post, f);
    assert ([x] + post)[1..] == post;
  }

  /** A quotient by a positive number keeps the bounds the dividend has
      in multiples of it. */
  lemma DivBounds(a: real, lo: real, hi: real, n: real)
    requires n > 0.0 && lo * n <= a <= hi * n
    ensures lo <= a / n <= hi
  {
    var q := a / n;
    assert q * n == a;
  }

  /** `min(range(len(xs)), key=...)`: the first index holding the least value. */
  function ArgMinFirst(xs: seq<real>): (k: nat)
    requires |xs| > 0
    ensures k < |xs|
    ensures forall j :: 0 <= j < |xs| ==> xs[k] <= xs[j]
    ensures forall j :: 0 <= j < k ==> xs[k] < xs[j]
  {
    if |xs| == 1 then 0
    else
      var t := ArgMinFirst(xs[1..]);
      if xs[0] <= xs[1 + t] then 0 else 1 + t
  }

  /** `max(range(len(xs)), key=...)`: the first index holding the largest value. */
  function ArgMaxFirst(xs: seq<real>): (k: nat)
    requires |xs| > 0
    ensures k < |xs|
    ensures forall j :: 0 <= j < |xs| ==> xs[j] <= xs[k]
    ensures forall j :: 0 <= j < k ==> xs[j] < xs[k]
  {
    if |xs| == 1 then 0
    else
      var t := ArgMaxFirst(xs[1..]);
      if xs[0] >= xs[1 + t] then 0 else 1 + t
  }

  /** The scan `for i ...: if ok[i] and xs[i] < best: best = xs[i]`
      started from `best = float('inf')`, from index i on with the best
      index so far: the first admissible index holding the least value. */
  function ScanMin(xs: seq<real>, ok: seq<bool>, i: nat, best: Option<nat>): (r: Option<nat>)
    requires |xs| == |ok| && i <= |xs|
    requires best.None? <==> forall j :: 0 <= j < i ==> !ok[j]
    requires best.Some? ==>
               best.value < i && ok[best.value]
               && (forall j :: 0 <= j < i && ok[j] ==> xs[best.value] <= xs[j])
               && (forall j :: 0 <= j < best.value && ok[j] ==> xs[best.value] < xs[j])
    ensures r.None? <==> forall j :: 0 <= j < |ok| ==> !ok[j]
    ensures r.Some? ==>
              r.value < |xs| && ok[r.value]
              && (forall j :: 0 <= j < |xs| && ok[j] ==> xs[r.value] <= xs[j])
              && (forall j :: 0 <= j < r.value && ok[j] ==> xs[r.value] < xs[j])
    decreases |xs| - i
  {
    if i == |xs| then best
    else if ok[i] && (best.None? || xs[i] < xs[best.value]) then ScanMin(xs, ok, i + 1, Some(i))
    else ScanMin(xs, ok, i + 1, best)
  }

  function ArgMinWhere(xs: seq<real>, ok: seq<bool>): (r: Option<nat>)
    requires |xs| == |ok|
    ensures r.None? <==> forall j :: 0 <= j < |ok| ==> !ok[j]
    ensures r.Some? ==>
              r.value < |xs| && ok[r.value]
              && (forall j :: 0 <= j < |xs| && ok[j] ==> xs[r.value] <= xs[j])
              && (forall j :: 0 <= j < r.value && ok[j] ==> xs[r.value] < xs[j])
  {
    ScanMin(xs, ok, 0, None)
  }

  /** `list.reverse()` / `s[::-1]`. */
  function Reversed<T>(s: seq<T>): (r: seq<T>)
    ensures |r| == |s|
    ensures forall i :: 0 <= i < |s| ==> r[i] == s[|s| - 1 - i]
  {
    if |s| == 0 then [] else Reversed(s[1..]) + [s[0]]
  }

  lemma ReversedTwice<T>(s: seq<T>)
    ensures Reversed(Reversed(s)) == s
  {
  }

  lemma {:induction false} ReversedMultiset<T>(s: seq<T>)
    ensures multiset(Reversed(s)) == multiset(s)
  {
    if |s| > 0 {
      ReversedMultiset(s[1..]);
      assert s == [s[0]] + s[1..];
    }
  }

  /** Overwriting one element swaps one copy in the multiset. */
  lemma UpdateMultiset<T>(s: seq<T>, i: nat, x: T)
    requires i < |s|
    ensures multiset(s[i := x]) + multiset{s[i]} == multiset(s) + multiset{x}
  {
    assert s == s[..i] + [s[i]] + s[i + 1..];
    assert s[i := x] == s[..i] + [x] + s[i + 1..];
  }

  /** Dropping one inner list drops its elements from the concatenation. */
  lemma {:induction false} FlattenRemoveAt<T>(ss: seq<seq<T>>, i: nat)
    requires i < |ss|
    ensures multiset(Flatten(RemoveAt(ss, i))) + multiset(ss[i]) == multiset(Flatten(ss))
  {
    assert ss == ss[..i] + [ss[i]] + ss[i + 1..];
    FlattenConcat(ss[..i] + [ss[i]], ss[i + 1..]);
    FlattenConcat(ss[..i], [ss[i]]);
    FlattenConcat(ss[..i], ss[i + 1..]);
    FlattenSingle(ss[i]);
  }

  /** `[r for r in rs if r]`: the list without its empty lists. */
  function DropEmpty<T>(ss: seq<seq<T>>): (r: seq<seq<T>>)
    ensures forall k :: 0 <= k < |r| ==> |r[k]| > 0
    ensures |r| <= |ss|
  {
    if |ss| == 0 then []
    else (if |ss[0]| > 0 then [ss[0]] else []) + DropEmpty(ss[1..])
  }

  /** Dropping the empty lists of a concatenation drops those of each part. */
  lemma {:induction false} DropEmptyConcat<T>(a: seq<seq<T>>, b: seq<seq<T>>)
    ensures DropEmpty(a + b) == DropEmpty(a) + DropEmpty(b)
  {
    if |a| > 0 {
      assert (a + b)[0] == a[0];
      assert (a + b)[1..] == a[1..] + b;
      DropEmptyConcat(a[1..], b);
    } else {
      assert a + b == b;
    }
  }

  /** A list of non-empty lists has nothing to drop. */
  lemma {:induction false} DropEmptyNone<T>(ss: seq<seq<T>>)
    requires forall k :: 0 <= k < |ss| ==> |ss[k]| > 0
    ensures DropEmpty(ss) == ss
  {
    if |ss| > 0 {
      DropEmptyNone(ss[1..]);
      assert [ss[0]] + ss[1..] == ss;
    }
  }

  /** Dropping empty lists does not change the concatenation. */
  lemma {:induction false} FlattenDropEmpty<T>(ss: seq<seq<T>>)
    ensures Flatten(DropEmpty(ss)) == Flatten(ss)
  {
    if |ss| > 0 {
      FlattenDropEmpty(ss[1..]);
      var head := if |ss[0]| > 0 then [ss[0]] else [];
      assert DropEmpty(ss) == head + DropEmpty(ss[1..]);
      FlattenConcat(head, DropEmpty(ss[1..]));
      if |ss[0]| > 0 {
        assert Flatten(head) == ss[0] + Flatten(head[1..]);
        assert head[1..] == [];
      }
    }
  }

  /** Ascending order of a score. */
  predicate SortedBy<T>(s: seq<T>, f: T -> real)
  {
    forall i, j :: 0 <= i < j < |s| ==> f(s[i]) <= f(s[j])
  }

  /** Insertion into a sorted list, ahead of the first element that does
      not score less (so earlier elements stay ahead of equal later ones). */
  function InsertBy<T>(x: T, s: seq<T>, f: T -> real): (r: seq<T>)
    requires SortedBy(s, f)
    ensures SortedBy(r, f)
    ensures multiset(r) == multiset(s) + multiset{x}
    ensures |r| == |s| + 1
    ensures forall i :: 0 <= i < |r| ==> r[i] == x || r[i] in s
  {
    if |s| == 0 then [x]
    else if f(x) <= f(s[0]) then [x] + s
    else
      var t := InsertBy(x, s[1..], f);
      InsertBehind(x, s, f, t);
      [s[0]] + t
  }

  /** Inserting behind the head of a sorted list whose head scores less. */
  lemma InsertBehind<T>(x: T, s: seq<T>, f: T -> real, t: seq<T>)
    requires SortedBy(s, f) && |s| > 0 && f(s[0]) < f(x)
    requires SortedBy(t, f) && multiset(t) == multiset(s[1..]) + multiset{x}
    requires forall i :: 0 <= i < |t| ==> t[i] == x || t[i] in s[1..]
    ensures SortedBy([s[0]] + t, f)
    ensures multiset([s[0]] + t) == multiset(s) + multiset{x}
    ensures forall i :: 0 <= i < |[s[0]] + t| ==> ([s[0]] + t)[i] == x || ([s[0]] + t)[i] in s
  {
    assert s == [s[0]] + s[1..];
    forall i | 0 <= i < |t|
      ensures f(s[0]) <= f(t[i])
    {
      if t[i] != x {
        var j :| 0 <= j < |s[1..]| && s[1..][j] == t[i];
        assert s[j + 1] == t[i];
      }
    }
    SortedCons(s[0], t, f);
    forall i | 0 <= i < |[s[0]] + t|
      ensures ([s[0]] + t)[i] == x || ([s[0]] + t)[i] in s
    {
      if i > 0 {
        assert ([s[0]] + t)[i] == t[i - 1];
      }
    }
  }

  /** A head scoring no more than every element of a sorted tail keeps
      the list sorted. */
  lemma SortedCons<T>(h: T, t: seq<T>, f: T -> real)
    requires SortedBy(t, f) && forall i :: 0 <= i < |t| ==> f(h) <= f(t[i])
    ensures SortedBy([h] + t, f)
  {
    var s := [h] + t;
    forall i, j | 0 <= i < j < |s|
      ensures f(s[i]) <= f(s[j])
    {
      assert s[j] == t[j - 1];
      if i > 0 {
        assert s[i] == t[i - 1];
      }
    }
  }

  /** A stable sort by ascending score: `sorted(s, key=f)`. */
  function SortBy<T>(s: seq<T>, f: T -> real): (r: seq<T>)
    ensures SortedBy(r, f)
    ensures multiset(r) == multiset(s)
    ensures |r| == |s|
  {
    if |s| == 0 then []
    else
      assert s == [s[0]] + s[1..];
      InsertBy(s[0], SortBy(s[1..], f), f)
  }

  /** A prefix holds no more than the whole. */
  lemma PrefixMultiset<T>(s: seq<T>, n: nat)
    requires n <= |s|
    ensures multiset(s[..n]) <= multiset(s)
  {
    assert s == s[..n] + s[n..];
  }

  /** `[g(x) for x in s]`. */
  function MapSeq<A, B>(s: seq<A>, g: A -> B): (r: seq<B>)
    ensures |r| == |s|
    ensures forall i :: 0 <= i < |s| ==> r[i] == g(s[i])
  {
    seq(|s|, i requires 0 <= i < |s| => g(s[i]))
  }

  /** Ranking keys by the score of what they stand for ranks what they
      stand for: inserting a key inserts its image at the same place. */
  lemma {:induction false} MapInsertBy<A, B>(x: A, s: seq<A>, g: A -> B, f: B -> real, h: A -> real)
    requires forall a :: h(a) == f(g(a))
    requires SortedBy(s, h)
    ensures SortedBy(MapSeq(s, g), f)
    ensures MapSeq(InsertBy(x, s, h), g) == InsertBy(g(x), MapSeq(s, g), f)
    decreases |s|
  {
    var ms := MapSeq(s, g);
    if |s| == 0 {
      assert InsertBy(x, s, h) == [x];
    } else if h(x) <= h(s[0]) {
      assert InsertBy(x, s, h) == [x] + s;
      assert MapSeq([x] + s, g) == [g(x)] + ms;
    } else {
      var t := s[1..];
      MapInsertBy(x, t, g, f, h);
      assert MapSeq(t, g) == ms[1..];
      var u := InsertBy(x, t, h);
      assert InsertBy(x, s, h) == [s[0]] + u;
      assert MapSeq([s[0]] + u, g) == [g(s[0])] + MapSeq(u, g);
    }
  }

  /** Sorting keys by the score of their images and then mapping them is
      sorting the images, ties in the same order. */
  lemma {:induction false} MapSortBy<A, B>(s: seq<A>, g: A -> B, f: B -> real, h: A -> real)
    requires forall a :: h(a) == f(g(a))
    ensures MapSeq(SortBy(s, h), g) == SortBy(MapSeq(s, g), f)
    decreases |s|
  {
    if |s| > 0 {
      var t := s[1..];
      MapSortBy(t, g, f, h);
      assert MapSeq(t, g) == MapSeq(s, g)[1..];
      MapInsertBy(s[0], SortBy(t, h), g, f, h);
    }
  }

  /** `min(f(x) for x in s)`. */
  function Least<T>(s: seq<T>, f: T -> real): (r: real)
    requires |s| > 0
    ensures exists i :: 0 <= i < |s| && r == f(s[i])
    ensures forall i :: 0 <= i < |s| ==> r <= f(s[i])
  {
    if |s| == 1 then f(s[0])
    else
      var t := Least(s[1..], f);
      assert forall i :: 1 <= i < |s| ==> s[i] == s[1..][i - 1];
      if f(s[0]) <= t then f(s[0]) else t
  }

  /** The least score of a sorted list is the score of its head. */
  lemma LeastOfSorted<T>(s: seq<T>, f: T -> real)
    requires |s| > 0 && SortedBy(s, f)
    ensures Least(s, f) == f(s[0])
  {
    assert Least(s, f) <= f(s[0]);
  }

  /** The least score depends only on the multiset of elements. */
  lemma LeastPermutation<T>(a: seq<T>, b: seq<T>, f: T -> real)
    requires |a| > 0 && multiset(a) == multiset(b)
    ensures |b| > 0 && Least(a, f) == Least(b, f)
  {
    assert a[0] in multiset(b);
    var i :| 0 <= i < |a| && Least(a, f) == f(a[i]);
    assert a[i] in multiset(b);
    var j :| 0 <= j < |b| && Least(b, f) == f(b[j]);
    assert b[j] in multiset(a);
    var i' :| 0 <= i' < |a| && a[i'] == b[j];
    var j' :| 0 <= j' < |b| && b[j'] == a[i];
    assert Least(a, f) <= f(a[i']);
    assert Least(b, f) <= f(b[j']);
  }

  /** Adding elements can only lower the least score. */
  lemma LeastConcat<T>(a: seq<T>, b: seq<T>, f: T -> real)
    requires |a| > 0
    ensures Least(a + b, f) <= Least(a, f)
  {
    var i :| 0 <= i < |a| && Least(a, f) == f(a[i]);
    assert (a + b)[i] == a[i];
  }

  /** Python's `seq[start:end]` with both bounds clamped to the length. */
  function Slice<T>(s: seq<T>, start: nat, end: nat): (r: seq<T>)
    ensures start <= end <= |s| ==> r == s[start..end]
    ensures start >= |s| || end <= start ==> r == []
  {
    var e := if end <= |s| then end else |s|;
    if start >= e then [] else s[start..e]
  }
}
