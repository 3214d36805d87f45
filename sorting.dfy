/** The sort of the directory: `sorted.sort((a, b) => a.f.localeCompare(b.f))`
    for the field `f` the user picked. `Array.prototype.sort` is stable, and a
    stable sort under a total order has exactly one result, which `StableSort`
    (insertion from the left) defines. */
module Sorting {
  import opened Text
  import opened Companies

  /** The two fields the sort selector offers. */
  datatype Field = Name | Industry

  function KeyOf(c: Company, f: Field): string {
    match f
    case Name => c.name
    case Industry => c.industry
  }

  /** The comparator handed to `sort`. */
  function Compare(a: Company, b: Company, f: Field): (r: int)
    ensures -1 <= r <= 1
    ensures r == 0 <==> KeyOf(a, f) == KeyOf(b, f)
  {
    LocaleCompare(KeyOf(a, f), KeyOf(b, f))
  }

  /** Non-decreasing by the key of `f`. */
  ghost predicate Sorted(s: seq<Company>, f: Field) {
    forall i, j :: 0 <= i < j < |s| ==> Compare(s[i], s[j], f) <= 0
  }

  /** Inserts `x` after every element of `t` that does not sort after it. */
  function Insert(t: seq<Company>, x: Company, f: Field): seq<Company>
    decreases |t|
  {
    if t == [] then [x]
    else if Compare(t[|t| - 1], x, f) <= 0 then t + [x]
    else Insert(t[..|t| - 1], x, f) + [t[|t| - 1]]
  }

  /** The stable ascending sort of `s` by the key of `f`. */
  function StableSort(s: seq<Company>, f: Field): seq<Company>
    decreases |s|
  {
    if s == [] then [] else Insert(StableSort(s[..|s| - 1], f), s[|s| - 1], f)
  }

  /** The records of `s` whose key under `f` is `k`, in their order in `s`. */
  function WithKey(s: seq<Company>, f: Field, k: string): seq<Company>
    decreases |s|
  {
    if s == [] then []
    else WithKey(s[..|s| - 1], f, k) + (if KeyOf(s[|s| - 1], f) == k then [s[|s| - 1]] else [])
  }

  lemma {:induction false} InsertPermutes(t: seq<Company>, x: Company, f: Field)
    ensures multiset(Insert(t, x, f)) == multiset(t) + multiset{x}
    decreases |t|
  {
    if t != [] && Compare(t[|t| - 1], x, f) > 0 {
      InsertPermutes(t[..|t| - 1], x, f);
      MultisetSplitLast(t);
    }
  }

  /** Sorting neither creates nor drops a record. */
  lemma {:induction false} SortPermutes(s: seq<Company>, f: Field)
    ensures multiset(StableSort(s, f)) == multiset(s)
    decreases |s|
  {
    if s != [] {
      var init, last := s[..|s| - 1], s[|s| - 1];
      assert StableSort(s, f) == Insert(StableSort(init, f), last, f);
      SortPermutes(init, f);
      InsertPermutes(StableSort(init, f), last, f);
      MultisetSplitLast(s);
    }
  }

  /** A non-empty list holds the records of all but its last element, and
      the last one. */
  lemma MultisetSplitLast<T>(s: seq<T>)
    requires |s| > 0
    ensures multiset(s) == multiset(s[..|s| - 1]) + multiset{s[|s| - 1]}
  {
    assert s == s[..|s| - 1] + [s[|s| - 1]];
  }

  /** Appending a record that no earlier record sorts after keeps a list
      sorted. */
  lemma SortedAppend(t: seq<Company>, y: Company, f: Field)
    requires Sorted(t, f)
    requires forall i :: 0 <= i < |t| ==> Compare(t[i], y, f) <= 0
    ensures Sorted(t + [y], f)
  {
    var s := t + [y];
    forall i, j | 0 <= i < j < |s| ensures Compare(s[i], s[j], f) <= 0 {
      assert s[i] == t[i];
    }
  }

  /** In a sorted list nothing sorts after a record that the last one does
      not sort after. */
  lemma BelowLast(t: seq<Company>, x: Company, f: Field)
    requires Sorted(t, f) && t != [] && Compare(t[|t| - 1], x, f) <= 0
    ensures forall i :: 0 <= i < |t| ==> Compare(t[i], x, f) <= 0
  {
    var last := t[|t| - 1];
    forall i | 0 <= i < |t| ensures Compare(t[i], x, f) <= 0 {
      if i < |t| - 1 {
        LocaleCompareTransitive(KeyOf(t[i], f), KeyOf(last, f), KeyOf(x, f));
      }
    }
  }

  /** If neither `x` nor any record of `t` sorts after `y`, then no record of
      the insertion does. */
  lemma InsertBelow(t: seq<Company>, x: Company, y: Company, f: Field)
    requires forall i :: 0 <= i < |t| ==> Compare(t[i], y, f) <= 0
    requires Compare(x, y, f) <= 0
    ensures forall i :: 0 <= i < |Insert(t, x, f)| ==> Compare(Insert(t, x, f)[i], y, f) <= 0
  {
    var u := Insert(t, x, f);
    InsertPermutes(t, x, f);
    forall i | 0 <= i < |u| ensures Compare(u[i], y, f) <= 0 {
      assert u[i] in multiset(u);
      assert u[i] in multiset(t) || u[i] == x;
    }
  }

  lemma {:induction false} InsertSorted(t: seq<Company>, x: Company, f: Field)
    requires Sorted(t, f)
    ensures Sorted(Insert(t, x, f), f)
    decreases |t|
  {
    if t != [] {
      var last := t[|t| - 1];
      if Compare(last, x, f) <= 0 {
        BelowLast(t, x, f);
        SortedAppend(t, x, f);
      } else {
        var init := t[..|t| - 1];
        assert Sorted(init, f);
        InsertSorted(init, x, f);
        LocaleCompareAntisymmetric(KeyOf(last, f), KeyOf(x, f));
        InsertBelow(init, x, last, f);
        SortedAppend(Insert(init, x, f), last, f);
      }
    }
  }

  /** The sorted list is non-decreasing by the chosen key. */
  lemma {:induction false} SortSorted(s: seq<Company>, f: Field)
    ensures Sorted(StableSort(s, f), f)
    decreases |s|
  {
    if s != [] {
      SortSorted(s[..|s| - 1], f);
      InsertSorted(StableSort(s[..|s| - 1], f), s[|s| - 1], f);
    }
  }

  /** The records with key `k` of a list with one record appended. */
  lemma WithKeyAppend(s: seq<Company>, y: Company, f: Field, k: string)
    ensures WithKey(s + [y], f, k) == WithKey(s, f, k) + (if KeyOf(y, f) == k then [y] else [])
  {
    assert (s + [y])[..|s|] == s;
  }

  lemma {:induction false} InsertStable(t: seq<Company>, x: Company, f: Field, k: string)
    ensures WithKey(Insert(t, x, f), f, k) == WithKey(t, f, k) + (if KeyOf(x, f) == k then [x] else [])
    decreases |t|
  {
    var xs := if KeyOf(x, f) == k then [x] else [];
    if t == [] {
      WithKeyAppend([], x, f, k);
      assert [] + [x] == [x];
    } else {
      var last := t[|t| - 1];
      var init := t[..|t| - 1];
      if Compare(last, x, f) <= 0 {
        WithKeyAppend(t, x, f, k);
      } else {
        var u := Insert(init, x, f);
        var ls := if KeyOf(last, f) == k then [last] else [];
        InsertStable(init, x, f, k);
        WithKeyAppend(u, last, f, k);
        ConcatSwap(WithKey(init, f, k), xs, ls);
        calc {
          WithKey(Insert(t, x, f), f, k);
          WithKey(u + [last], f, k);
          WithKey(u, f, k) + ls;
          WithKey(init, f, k) + xs + ls;
          WithKey(init, f, k) + ls + xs;
          WithKey(t, f, k) + xs;
        }
      }
    }
  }

  /** Two parts of which at least one is empty can be appended in either
      order. */
  lemma ConcatSwap<T>(a: seq<T>, p: seq<T>, q: seq<T>)
    requires p == [] || q == []
    ensures a + p + q == a + q + p
  {
    if p == [] {
      assert a + p == a && a + q + p == a + q;
    } else {
      assert a + q == a && a + p + q == a + p;
    }
  }

  /** Records with equal keys keep their prior relative order. */
  lemma {:induction false} SortStable(s: seq<Company>, f: Field, k: string)
    ensures WithKey(StableSort(s, f), f, k) == WithKey(s, f, k)
    decreases |s|
  {
    if s != [] {
      SortStable(s[..|s| - 1], f, k);
      InsertStable(StableSort(s[..|s| - 1], f), s[|s| - 1], f, k);
    }
  }

  /** What `handleSort` leaves in `filtered` for the selector value `sortType`:
      "name" and "industry" sort, every other value keeps the order. */
  function ApplySort(s: seq<Company>, sortType: string): (r: seq<Company>)
    ensures multiset(r) == multiset(s)
    ensures sortType != "name" && sortType != "industry" ==> r == s
  {
    if sortType == "name" then SortPermutes(s, Name); StableSort(s, Name)
    else if sortType == "industry" then SortPermutes(s, Industry); StableSort(s, Industry)
    else s
  }

  /** Whatever the selector value, the result is a permutation of the input;
      the empty value and any unknown value keep the order; "name" and
      "industry" give a list sorted by that field and stable on ties. */
  lemma ApplySortSpec(s: seq<Company>, sortType: string)
    ensures multiset(ApplySort(s, sortType)) == multiset(s)
    ensures sortType != "name" && sortType != "industry" ==> ApplySort(s, sortType) == s
    ensures sortType == "name" ==>
      Sorted(ApplySort(s, sortType), Name) &&
      forall k :: WithKey(ApplySort(s, sortType), Name, k) == WithKey(s, Name, k)
    ensures sortType == "industry" ==>
      Sorted(ApplySort(s, sortType), Industry) &&
      forall k :: WithKey(ApplySort(s, sortType), Industry, k) == WithKey(s, Industry, k)
  {
    if sortType == "name" {
      SortPermutes(s, Name);
      SortSorted(s, Name);
      forall k ensures WithKey(StableSort(s, Name), Name, k) == WithKey(s, Name, k) {
        SortStable(s, Name, k);
      }
    } else if sortType == "industry" {
      SortPermutes(s, Industry);
      SortSorted(s, Industry);
      forall k ensures WithKey(StableSort(s, Industry), Industry, k) == WithKey(s, Industry, k) {
        SortStable(s, Industry, k);
      }
    }
  }

  /** During the pass that inserts the record at index `i` of `s`, that
      record `x` sits at index `j`: inserting it into the part left of it,
      followed by the records already moved right, gives `target`, and the
      records after index `i` are still `rest`. */
  ghost predicate Pending(s: seq<Company>, i: int, j: int, x: Company, target: seq<Company>,
                          rest: seq<Company>, f: Field) {
    0 <= j <= i < |s| && s[j] == x && Insert(s[..j], x, f) + s[j + 1..i + 1] == target &&
    s[i + 1..] == rest
  }

  /** One swap of the in-place pass: exchanging `x` with a record just left
      of it that sorts strictly after it leaves the pending insertion's result
      unchanged. */
  lemma SwapStep(s: seq<Company>, i: int, j: int, x: Company, target: seq<Company>,
                 rest: seq<Company>, f: Field)
    requires Pending(s, i, j, x, target, rest, f) && j > 0 && Compare(s[j - 1], x, f) > 0
    ensures Pending(s[j - 1 := x][j := s[j - 1]], i, j - 1, x, target, rest, f)
  {
    var after := s[j - 1 := x][j := s[j - 1]];
    assert s[..j][..j - 1] == s[..j - 1] == after[..j - 1];
    assert s[..j][j - 1] == s[j - 1];
    assert after[j..i + 1] == [s[j - 1]] + s[j + 1..i + 1];
    assert after[i + 1..] == s[i + 1..];
  }

  /** The pass stops once `x` reaches the front or a record that does not
      sort after it: the first `i + 1` records are then the insertion's
      result. */
  lemma PendingDone(s: seq<Company>, i: int, j: int, x: Company, target: seq<Company>,
                    rest: seq<Company>, f: Field)
    requires Pending(s, i, j, x, target, rest, f)
    requires j == 0 || Compare(s[j - 1], x, f) <= 0
    ensures s[..i + 1] == target && s[i + 1..] == rest
  {
    assert Insert(s[..j], x, f) == s[..j] + [x];
    assert s[..i + 1] == s[..j] + [x] + s[j + 1..i + 1];
  }

  /** Moves `a[i]` leftwards past the elements of `a[..i]` that sort strictly
      after it: one pass of the in-place insertion sort. */
  method InsertInPlace(a: array<Company>, i: int, f: Field)
    requires 0 <= i < a.Length
    modifies a
    ensures a[..i + 1] == Insert(old(a[..i]), old(a[i]), f)
    ensures a[i + 1..] == old(a[i + 1..])
  {
    ghost var x := a[i];
    ghost var target := Insert(a[..i], x, f);
    ghost var rest := a[i + 1..];
    var j := i;
    while j > 0 && Compare(a[j - 1], a[j], f) > 0
      invariant Pending(a[..], i, j, x, target, rest, f)
    {
      ghost var before := a[..];
      SwapStep(before, i, j, x, target, rest, f);
      a[j - 1], a[j] := a[j], a[j - 1];
      assert a[..] == before[j - 1 := x][j := before[j - 1]];
      j := j - 1;
    }
    PendingDone(a[..], i, j, x, target, rest, f);
  }

  /** Sorting neither lengthens nor shortens a list. */
  lemma SortLength(s: seq<Company>, f: Field)
    ensures |StableSort(s, f)| == |s|
  {
    SortPermutes(s, f);
    assert |multiset(StableSort(s, f))| == |multiset(s)|;
  }

  /** One pass of the outer loop: when the first `i` cells hold the sorted
      first `i` records of `orig` and the rest is untouched, inserting cell
      `i` into the sorted part sorts the first `i + 1` records. */
  lemma SortStep(orig: seq<Company>, i: int, before: seq<Company>, after: seq<Company>, f: Field)
    requires 0 <= i < |orig| && |before| == |orig| && |after| == |orig|
    requires before == StableSort(orig[..i], f) + orig[i..]
    requires after[..i + 1] == Insert(before[..i], before[i], f)
    requires after[i + 1..] == before[i + 1..]
    ensures after == StableSort(orig[..i + 1], f) + orig[i + 1..]
  {
    var sorted := StableSort(orig[..i], f);
    SortLength(orig[..i], f);
    assert before[..i] == sorted;
    assert before[i] == orig[i];
    assert before[i + 1..] == orig[i + 1..];
    SplitAt(after, i + 1);
    calc {
      after;
      after[..i + 1] + after[i + 1..];
      Insert(before[..i], before[i], f) + before[i + 1..];
      Insert(sorted, orig[i], f) + orig[i + 1..];
      { assert orig[..i + 1][..i] == orig[..i]; }
      StableSort(orig[..i + 1], f) + orig[i + 1..];
    }
  }

  /** A list is its first `n` elements followed by the rest. */
  lemma SplitAt<T>(s: seq<T>, n: int)
    requires 0 <= n <= |s|
    ensures s == s[..n] + s[n..]
  {
  }

  /** Sorts `a` in place, as `sorted.sort(...)` does on the copy of the
      filtered list. */
  method SortInPlace(a: array<Company>, f: Field)
    modifies a
    ensures a[..] == StableSort(old(a[..]), f)
  {
    ghost var orig := a[..];
    var i := 0;
    while i < a.Length
      invariant 0 <= i <= a.Length
      invariant a[..] == StableSort(orig[..i], f) + orig[i..]
    {
      ghost var before := a[..];
      InsertInPlace(a, i, f);
      SortStep(orig, i, before, a[..], f);
      i := i + 1;
    }
    assert orig[..a.Length] == orig;
  }

  /** `let sorted = [...filtered]` followed by the sort for `sortType`. */
  method SortedCopy(s: seq<Company>, sortType: string) returns (r: seq<Company>)
    ensures r == ApplySort(s, sortType)
  {
    var sorted := new Company[|s|](i requires 0 <= i < |s| => s[i]);
    assert sorted[..] == s;
    if sortType == "name" {
      SortInPlace(sorted, Name);
    } else if sortType == "industry" {
      SortInPlace(sorted, Industry);
    }
    r := sorted[..];
  }
}
