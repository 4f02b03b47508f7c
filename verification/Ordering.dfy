/** Three-way comparison and sorting, as Go's `cmp` and `slices` packages give them to
    the services, the events and the ports of this repository. */
module Ordering {

  /** `cmp.Compare` on integers. */
  function CompareInts(a: int, b: int): int {
    if a < b then -1 else if a > b then 1 else 0
  }

  /** `cmp.Compare` on strings: the first difference decides, and a proper prefix comes first. */
  function CompareStrings(a: string, b: string): int {
    if a == [] || b == [] then CompareInts(|a|, |b|)
    else if a[0] != b[0] then CompareInts(a[0] as int, b[0] as int)
    else CompareStrings(a[1..], b[1..])
  }

  /** `cmp.Or`: the first of three comparisons that tells the two apart. */
  function Or(first: int, second: int, third: int): int {
    if first != 0 then first else if second != 0 then second else third
  }

  /** What `slices.SortFunc` needs of the comparison it is given. */
  ghost predicate TotalPreorder<T(!new)>(compare: (T, T) -> int) {
    && (forall x, y :: compare(x, y) < 0 <==> compare(y, x) > 0)
    && (forall x, y, z {:trigger compare(x, y), compare(y, z), compare(x, z)} ::
         compare(x, y) <= 0 && compare(y, z) <= 0 ==> compare(x, z) <= 0)
  }

  ghost predicate Sorted<T>(s: seq<T>, compare: (T, T) -> int) {
    forall i, j :: 0 <= i < j < |s| ==> compare(s[i], s[j]) <= 0
  }

  ghost predicate StrictlySorted<T>(s: seq<T>, compare: (T, T) -> int) {
    forall i, j :: 0 <= i < j < |s| ==> compare(s[i], s[j]) < 0
  }

  // ----- strings ---------------------------------------------------------------------

  lemma {:induction false} CompareStringsFlips(a: string, b: string)
    ensures CompareStrings(a, b) == -CompareStrings(b, a)
    ensures CompareStrings(a, b) == 0 <==> a == b
    decreases |a|
  {
    if a != [] && b != [] && a[0] == b[0] {
      CompareStringsFlips(a[1..], b[1..]);
      assert a == [a[0]] + a[1..] && b == [b[0]] + b[1..];
    }
  }

  lemma {:induction false} CompareStringsTransitive(a: string, b: string, c: string)
    requires CompareStrings(a, b) <= 0 && CompareStrings(b, c) <= 0
    ensures CompareStrings(a, c) <= 0
    decreases |a|
  {
    if a != [] && b != [] && c != [] && a[0] == b[0] == c[0] {
      CompareStringsTransitive(a[1..], b[1..], c[1..]);
    }
  }

  // ----- sorting ---------------------------------------------------------------------

  /** Puts `x` in front of the first element that is greater than it. */
  function Insert<T>(x: T, s: seq<T>, compare: (T, T) -> int): (r: seq<T>)
    ensures multiset(r) == multiset(s) + multiset{x}
    ensures |r| == |s| + 1
  {
    if s == [] then [x]
    else if compare(s[0], x) > 0 then [x] + s
    else
      assert s == [s[0]] + s[1..];
      [s[0]] + Insert(x, s[1..], compare)
  }

  function Sort<T>(s: seq<T>, compare: (T, T) -> int): (r: seq<T>)
    ensures multiset(r) == multiset(s)
    ensures |r| == |s|
  {
    if s == [] then []
    else
      assert s == s[..|s| - 1] + [s[|s| - 1]];
      Insert(s[|s| - 1], Sort(s[..|s| - 1], compare), compare)
  }

  lemma EmptyOrMember<T>(s: seq<T>)
    ensures s == [] || s[0] in s
  {
  }

  lemma SameMembers<T>(s: seq<T>, t: seq<T>)
    requires multiset(s) == multiset(t)
    ensures forall x :: x in s <==> x in t
  {
    forall x ensures x in s <==> x in t {
      assert x in s <==> x in multiset(s);
      assert x in t <==> x in multiset(t);
    }
  }

  lemma {:induction false} InsertMembers<T>(x: T, s: seq<T>, compare: (T, T) -> int)
    ensures forall y :: y in Insert(x, s, compare) <==> y == x || y in s
  {
    forall y ensures y in Insert(x, s, compare) <==> y == x || y in s {
      assert y in Insert(x, s, compare) <==> y in multiset(Insert(x, s, compare));
      assert y in s <==> y in multiset(s);
    }
  }

  lemma LessThenAtMost<T(!new)>(x: T, y: T, z: T, compare: (T, T) -> int)
    requires TotalPreorder(compare)
    requires compare(x, y) < 0 && compare(y, z) <= 0
    ensures compare(x, z) < 0
  {
    assert compare(z, x) <= 0 ==> compare(y, x) <= 0;
  }

  lemma FirstGoesBefore<T(!new)>(x: T, s: seq<T>, compare: (T, T) -> int)
    requires TotalPreorder(compare)
    requires Sorted(s, compare)
    requires s != [] && compare(s[0], x) > 0
    ensures forall j :: 0 <= j < |s| ==> compare(x, s[j]) < 0
  {
    forall j | 0 <= j < |s| ensures compare(x, s[j]) < 0 {
      if j > 0 { LessThenAtMost(x, s[0], s[j], compare); }
    }
  }

  lemma PrependSorted<T>(x: T, s: seq<T>, compare: (T, T) -> int)
    requires Sorted(s, compare)
    requires forall j :: 0 <= j < |s| ==> compare(x, s[j]) <= 0
    ensures Sorted([x] + s, compare)
  {
  }

  lemma PrependStrictlySorted<T>(x: T, s: seq<T>, compare: (T, T) -> int)
    requires StrictlySorted(s, compare)
    requires forall j :: 0 <= j < |s| ==> compare(x, s[j]) < 0
    ensures StrictlySorted([x] + s, compare)
  {
  }

  lemma {:induction false} InsertSorts<T(!new)>(x: T, s: seq<T>, compare: (T, T) -> int)
    requires TotalPreorder(compare)
    requires Sorted(s, compare)
    ensures Sorted(Insert(x, s, compare), compare)
  {
    if s == [] {
    } else if compare(s[0], x) > 0 {
      FirstGoesBefore(x, s, compare);
      PrependSorted(x, s, compare);
    } else {
      var tail := Insert(x, s[1..], compare);
      InsertSorts(x, s[1..], compare);
      forall j | 0 <= j < |tail| ensures compare(s[0], tail[j]) <= 0 {
        InsertMembers(x, s[1..], compare);
        assert tail[j] in tail;
      }
      PrependSorted(s[0], tail, compare);
    }
  }

  /** Inserting an element that is new to a strictly sorted list keeps it strictly sorted. */
  lemma {:induction false} InsertSortsStrictly<T(!new)>(x: T, s: seq<T>, compare: (T, T) -> int)
    requires TotalPreorder(compare)
    requires StrictlySorted(s, compare)
    requires forall i :: 0 <= i < |s| ==> compare(s[i], x) != 0
    ensures StrictlySorted(Insert(x, s, compare), compare)
  {
    if s == [] {
    } else if compare(s[0], x) > 0 {
      FirstGoesBefore(x, s, compare);
      PrependStrictlySorted(x, s, compare);
    } else {
      var tail := Insert(x, s[1..], compare);
      InsertSortsStrictly(x, s[1..], compare);
      forall j | 0 <= j < |tail| ensures compare(s[0], tail[j]) < 0 {
        InsertMembers(x, s[1..], compare);
        assert tail[j] in tail;
      }
      PrependStrictlySorted(s[0], tail, compare);
    }
  }

  lemma {:induction false} SortSorts<T(!new)>(s: seq<T>, compare: (T, T) -> int)
    requires TotalPreorder(compare)
    ensures Sorted(Sort(s, compare), compare)
  {
    if s != [] {
      SortSorts(s[..|s| - 1], compare);
      InsertSorts(s[|s| - 1], Sort(s[..|s| - 1], compare), compare);
    }
  }

  /** Elements the comparison tells apart come out strictly sorted. */
  lemma {:induction false} SortSortsStrictly<T(!new)>(s: seq<T>, compare: (T, T) -> int)
    requires TotalPreorder(compare)
    requires forall i, j :: 0 <= i < j < |s| ==> compare(s[i], s[j]) != 0
    ensures StrictlySorted(Sort(s, compare), compare)
  {
    if s != [] {
      var init, last := s[..|s| - 1], s[|s| - 1];
      SortSortsStrictly(init, compare);
      forall i | 0 <= i < |Sort(init, compare)| ensures compare(Sort(init, compare)[i], last) != 0 {
        SameMembers(Sort(init, compare), init);
        assert Sort(init, compare)[i] in init;
      }
      InsertSortsStrictly(last, Sort(init, compare), compare);
    }
  }

  /** There is only one strictly sorted list of a given set of elements. */
  lemma {:induction false} StrictlySortedIsUnique<T(!new)>(s: seq<T>, t: seq<T>, compare: (T, T) -> int)
    requires TotalPreorder(compare)
    requires StrictlySorted(s, compare) && StrictlySorted(t, compare)
    requires forall x :: x in s <==> x in t
    ensures s == t
    decreases |s|
  {
    if s == [] {
      EmptyOrMember(t);
    } else {
      assert s[0] in s && s[0] in t;
      assert t[0] in t && t[0] in s;
      var i :| 0 <= i < |t| && t[i] == s[0];
      var j :| 0 <= j < |s| && s[j] == t[0];
      assert i == 0;
      var s', t' := s[1..], t[1..];
      assert s == [s[0]] + s' && t == [t[0]] + t';
      assert s[0] !in s' && t[0] !in t';
      forall x ensures x in s' <==> x in t' {
        assert x in s <==> x == s[0] || x in s';
        assert x in t <==> x == t[0] || x in t';
      }
      StrictlySortedIsUnique(s', t', compare);
    }
  }

  /** A sorted permutation of elements the comparison tells apart has no two of them level. */
  lemma SortedPermutationIsStrict<T(!new)>(s: seq<T>, t: seq<T>, compare: (T, T) -> int)
    requires TotalPreorder(compare)
    requires Sorted(s, compare) && multiset(s) == multiset(t)
    requires forall i, j :: 0 <= i < j < |t| ==> compare(t[i], t[j]) != 0
    ensures StrictlySorted(s, compare)
  {
    SameMembers(s, t);
    forall i, j | 0 <= i < j < |s| ensures compare(s[i], s[j]) < 0 {
      assert s[i] in t && s[j] in t;
      var p :| 0 <= p < |t| && t[p] == s[i];
      var q :| 0 <= q < |t| && t[q] == s[j];
      if p == q {
        OccursOnce(t, p);
        OccursTwice(s, i, j);
      } else {
        assert compare(t[p], t[q]) != 0 by {
          if q < p { assert compare(t[q], t[p]) != 0; }
        }
      }
    }
  }

  lemma OccursTwice<T>(s: seq<T>, i: nat, j: nat)
    requires i < j < |s| && s[i] == s[j]
    ensures multiset(s)[s[i]] >= 2
  {
    assert s == s[..j] + s[j..];
    assert s[i] in s[..j] && s[j] in s[j..];
    assert multiset(s) == multiset(s[..j]) + multiset(s[j..]);
  }

  lemma OccursOnce<T>(s: seq<T>, i: nat)
    requires i < |s| && forall j :: 0 <= j < |s| && j != i ==> s[j] != s[i]
    ensures multiset(s)[s[i]] == 1
  {
    assert s == s[..i] + [s[i]] + s[i + 1..];
    assert s[i] !in s[..i] && s[i] !in s[i + 1..];
  }

  /** `slices.SortFunc` sorts in place; of elements that compare equal it promises no order. */
  method SortFunc<T(!new)>(a: array<T>, compare: (T, T) -> int)
    requires TotalPreorder(compare)
    modifies a
    ensures Sorted(a[..], compare)
    ensures multiset(a[..]) == multiset(old(a[..]))
  {
    var sorted := Sort(a[..], compare);
    SortSorts(a[..], compare);
    WriteBack(a, sorted);
  }

  method WriteBack<T>(a: array<T>, s: seq<T>)
    requires |s| == a.Length
    modifies a
    ensures a[..] == s
  {
    for i := 0 to a.Length
      invariant forall j :: 0 <= j < i ==> a[j] == s[j]
    {
      a[i] := s[i];
    }
  }
}
