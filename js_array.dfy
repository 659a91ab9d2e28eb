/** The JavaScript array operations the catalog uses: `filter`, `map` with an index, and `find`. */
module JsArray {
  import opened Optional

  /** `s.filter(keep)`: the elements satisfying `keep`, in their original order. */
  function Filter<T(!new)>(s: seq<T>, keep: T -> bool): (r: seq<T>)
    ensures |r| <= |s|
  {
    if s == [] then []
    else
      assert s == [s[0]] + s[1..];
      (if keep(s[0]) then [s[0]] else []) + Filter(s[1..], keep)
  }

  /** Filtering keeps the elements satisfying `keep` and no others. */
  lemma {:induction false} FilterMembership<T(!new)>(s: seq<T>, keep: T -> bool)
    ensures forall x :: x in Filter(s, keep) <==> x in s && keep(x)
  {
    if s != [] {
      FilterMembership(s[1..], keep);
      assert s == [s[0]] + s[1..];
    }
  }

  /** Filtering keeps every occurrence of a kept element and none of the others. */
  lemma {:induction false} FilterMultiset<T(!new)>(s: seq<T>, keep: T -> bool)
    ensures forall x :: multiset(Filter(s, keep))[x] == if keep(x) then multiset(s)[x] else 0
  {
    if s != [] {
      FilterMultiset(s[1..], keep);
      assert s == [s[0]] + s[1..];
    }
  }

  /** Filtering is done element by element, so it keeps the relative order:
      filtering a concatenation concatenates the filtered parts. */
  lemma {:induction false} FilterConcat<T(!new)>(a: seq<T>, b: seq<T>, keep: T -> bool)
    ensures Filter(a + b, keep) == Filter(a, keep) + Filter(b, keep)
  {
    if a != [] {
      assert (a + b)[1..] == a[1..] + b;
      FilterConcat(a[1..], b, keep);
    } else {
      assert a + b == b;
    }
  }

  /** An element the predicate rejects can be dropped from anywhere in the sequence. */
  lemma FilterSkips<T(!new)>(a: seq<T>, x: T, b: seq<T>, keep: T -> bool)
    requires !keep(x)
    ensures Filter(a + [x] + b, keep) == Filter(a + b, keep)
  {
    FilterConcat(a + [x], b, keep);
    FilterConcat(a, [x], keep);
    FilterConcat(a, b, keep);
    assert [x][1..] == [];
  }

  /** Two filters in a row are one filter by the conjunction. */
  lemma {:induction false} FilterFilter<T(!new)>(s: seq<T>, first: T -> bool, second: T -> bool, both: T -> bool)
    requires forall x :: both(x) == (first(x) && second(x))
    ensures Filter(Filter(s, first), second) == Filter(s, both)
  {
    if s != [] {
      var rest := Filter(s[1..], first);
      FilterFilter(s[1..], first, second, both);
      if first(s[0]) {
        var f := [s[0]] + rest;
        assert Filter(s, first) == f;
        assert f[0] == s[0] && f[1..] == rest;
        assert Filter(f, second) == (if second(s[0]) then [s[0]] else []) + Filter(rest, second);
      } else {
        assert Filter(s, first) == rest;
      }
    }
  }

  /** A filter that keeps every element returns its input. */
  lemma {:induction false} FilterAll<T(!new)>(s: seq<T>, keep: T -> bool)
    requires forall x :: x in s ==> keep(x)
    ensures Filter(s, keep) == s
  {
    if s != [] {
      FilterAll(s[1..], keep);
    }
  }

  /** `s.map((x, index) => f(x, index))`. */
  function MapIndexed<T, U>(s: seq<T>, f: (T, nat) -> U): (r: seq<U>)
    ensures |r| == |s|
    ensures forall k :: 0 <= k < |s| ==> r[k] == f(s[k], k)
  {
    seq(|s|, k requires 0 <= k < |s| => f(s[k], k))
  }

  /** An element appended to the array is mapped with the next index. */
  lemma MapIndexedAppend<T, U>(s: seq<T>, x: T, f: (T, nat) -> U)
    ensures MapIndexed(s + [x], f) == MapIndexed(s, f) + [f(x, |s|)]
  {
    var l := MapIndexed(s + [x], f);
    var r := MapIndexed(s, f) + [f(x, |s|)];
    forall k | 0 <= k < |l| ensures l[k] == r[k] {
      if k < |s| {
        assert (s + [x])[k] == s[k];
      }
    }
  }

  /** The position of the first element satisfying `test`, or `None`. */
  function FindIndex<T>(s: seq<T>, test: T -> bool): (r: Option<nat>)
    ensures r.Some? ==> r.value < |s| && test(s[r.value])
    ensures r.Some? ==> forall j :: 0 <= j < r.value ==> !test(s[j])
    ensures r.None? ==> forall j :: 0 <= j < |s| ==> !test(s[j])
  {
    if s == [] then None
    else if test(s[0]) then Some(0)
    else match FindIndex(s[1..], test)
      case None => None
      case Some(i) => Some(i + 1)
  }

  /** `s.find(test)`: the first element satisfying `test`, or `None` (`undefined`). */
  function Find<T(!new)>(s: seq<T>, test: T -> bool): (r: Option<T>)
    ensures r.Some? ==> exists k :: 0 <= k < |s| && s[k] == r.value && test(s[k]) &&
                                    forall j :: 0 <= j < k ==> !test(s[j])
    ensures r.None? <==> forall x :: x in s ==> !test(x)
  {
    match FindIndex(s, test)
    case None => None
    case Some(k) => Some(s[k])
  }
}
