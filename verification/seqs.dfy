/**
  Sequence helpers with the meaning of the array methods the application
  leans on: `filter`, `find` (first match), `Map.get` over a list of
  pairs (last match wins), and the "remove if present, else append"
  membership toggle used for likes and for the invite selection.
 */
module Seqs {
  import opened Types

  /** `a` is obtained from `b` by deleting elements; the order is kept. */
  ghost predicate Subsequence<T>(a: seq<T>, b: seq<T>)
    decreases |b|
  {
    if |a| == 0 then true
    else if |b| == 0 then false
    else if a[0] == b[0] then Subsequence(a[1..], b[1..])
    else Subsequence(a, b[1..])
  }

  /** No element occurs twice. */
  predicate NoDup<T(==)>(s: seq<T>) {
    forall i, j :: 0 <= i < j < |s| ==> s[i] != s[j]
  }

  /** `Array.prototype.filter`: the elements satisfying `f`, in their original order. */
  function Filter<T(!new)>(f: T -> bool, s: seq<T>): (r: seq<T>)
    ensures |r| <= |s|
    ensures forall x :: x in r <==> x in s && f(x)
    ensures multiset(r) <= multiset(s)
    ensures forall x :: f(x) ==> multiset(r)[x] == multiset(s)[x]
    ensures Subsequence(r, s)
  {
    if |s| == 0 then []
    else
      var rest := Filter(f, s[1..]);
      assert s == [s[0]] + s[1..];
      if f(s[0]) then
        assert ([s[0]] + rest)[1..] == rest;
        [s[0]] + rest
      else
        assert |rest| > 0 ==> rest[0] in rest && rest[0] != s[0];
        rest
  }

  /** Filtering a list that has no repeated element leaves none. */
  lemma {:induction false} FilterNoDup<T(!new)>(f: T -> bool, s: seq<T>)
    requires NoDup(s)
    ensures NoDup(Filter(f, s))
  {
    if |s| > 0 {
      assert NoDup(s[1..]) by {
        forall i, j | 0 <= i < j < |s| - 1 ensures s[1..][i] != s[1..][j] {
          assert s[1..][i] == s[i + 1] && s[1..][j] == s[j + 1];
        }
      }
      FilterNoDup(f, s[1..]);
      var rest := Filter(f, s[1..]);
      if f(s[0]) {
        assert s[0] !in s[1..] by {
          forall k | 0 <= k < |s| - 1 ensures s[1..][k] != s[0] {
            assert s[1..][k] == s[k + 1];
          }
        }
        assert s[0] !in rest;
        ConsNoDup(s[0], rest);
      }
    }
  }

  /** Putting a new element in front of a list without repeats leaves none. */
  lemma ConsNoDup<T>(x: T, s: seq<T>)
    requires NoDup(s) && x !in s
    ensures NoDup([x] + s)
  {
    var r := [x] + s;
    forall i, j | 0 <= i < j < |r| ensures r[i] != r[j] {
      if i == 0 {
        assert r[j] == s[j - 1];
      } else {
        assert r[i] == s[i - 1] && r[j] == s[j - 1];
      }
    }
  }

  /** Filtering distributes over concatenation. */
  lemma {:induction false} FilterAppend<T(!new)>(f: T -> bool, a: seq<T>, b: seq<T>)
    ensures Filter(f, a + b) == Filter(f, a) + Filter(f, b)
  {
    if |a| > 0 {
      assert (a + b)[1..] == a[1..] + b;
      FilterAppend(f, a[1..], b);
    } else {
      assert a + b == b;
    }
  }

  /** Filtering keeps a list whose every element passes. */
  lemma {:induction false} FilterKeepsAll<T(!new)>(f: T -> bool, s: seq<T>)
    requires forall i :: 0 <= i < |s| ==> f(s[i])
    ensures Filter(f, s) == s
  {
    if |s| > 0 {
      FilterKeepsAll(f, s[1..]);
      assert [s[0]] + s[1..] == s;
    }
  }

  /** `Array.prototype.findIndex`: the first position whose element satisfies `f`. */
  function FirstIndex<T>(f: T -> bool, s: seq<T>): (r: Option<nat>)
    ensures r.Some? ==> r.value < |s| && f(s[r.value])
    ensures r.Some? ==> forall j :: 0 <= j < r.value ==> !f(s[j])
    ensures r.None? <==> forall j :: 0 <= j < |s| ==> !f(s[j])
  {
    if |s| == 0 then None
    else if f(s[0]) then Some(0)
    else
      match FirstIndex(f, s[1..])
      case None => None
      case Some(i) => Some(i + 1)
  }

  /** `Array.prototype.find`: the first element satisfying `f`, if any. */
  function Find<T>(f: T -> bool, s: seq<T>): (r: Option<T>)
    ensures r.Some? ==> r.value in s && f(r.value)
    ensures r.Some? ==> exists i :: 0 <= i < |s| && s[i] == r.value && forall j :: 0 <= j < i ==> !f(s[j])
    ensures r.None? <==> forall x :: x in s ==> !f(x)
  {
    match FirstIndex(f, s)
    case None => None
    case Some(i) => Some(s[i])
  }

  /** The last position whose element satisfies `f`: what a `Map` built from the list keeps. */
  function LastIndex<T>(f: T -> bool, s: seq<T>): (r: Option<nat>)
    ensures r.Some? ==> r.value < |s| && f(s[r.value])
    ensures r.Some? ==> forall j :: r.value < j < |s| ==> !f(s[j])
    ensures r.None? <==> forall j :: 0 <= j < |s| ==> !f(s[j])
  {
    if |s| == 0 then None
    else if f(s[|s| - 1]) then Some(|s| - 1)
    else LastIndex(f, s[..|s| - 1])
  }

  /** When at most one element satisfies `f`, the first and the last match coincide. */
  lemma FirstIsLastWhenUnique<T>(f: T -> bool, s: seq<T>)
    requires forall i, j :: 0 <= i < |s| && 0 <= j < |s| && f(s[i]) && f(s[j]) ==> i == j
    ensures FirstIndex(f, s) == LastIndex(f, s)
  {
  }

  /**
    The membership toggle: every occurrence of `x` is removed when `x` is
    present, otherwise `x` is appended once.
   */
  function Toggle<T(==,!new)>(s: seq<T>, x: T): (r: seq<T>)
    ensures x in r <==> x !in s
    ensures forall y :: y != x ==> (y in r <==> y in s)
    ensures multiset(r)[x] <= 1
    ensures forall y :: y != x ==> multiset(r)[y] == multiset(s)[y]
    ensures NoDup(s) ==> NoDup(r)
    ensures x !in s ==> |r| == |s| + 1
    ensures x in s ==> |r| == |s| - multiset(s)[x]
  {
    if x in s then
      var r := Filter(y => y != x, s);
      FilterNoDupWhen(s, x);
      FilterOthersCount(s, x);
      FilterRemovesCount(s, x);
      r
    else
      assert NoDup(s) ==> NoDup(s + [x]) by {
        if NoDup(s) {
          forall i, j | 0 <= i < j < |s| + 1 ensures (s + [x])[i] != (s + [x])[j] {
            if j == |s| {
              assert (s + [x])[i] == s[i];
            }
          }
        }
      }
      s + [x]
  }

  lemma FilterNoDupWhen<T(!new)>(s: seq<T>, x: T)
    ensures NoDup(s) ==> NoDup(Filter(y => y != x, s))
  {
    if NoDup(s) {
      FilterNoDup(y => y != x, s);
    }
  }

  /** Removing every `x` keeps the multiplicity of every other element. */
  lemma {:induction false} FilterOthersCount<T(!new)>(s: seq<T>, x: T)
    ensures forall y :: y != x ==> multiset(Filter(z => z != x, s))[y] == multiset(s)[y]
  {
    if |s| > 0 {
      FilterOthersCount(s[1..], x);
      assert s == [s[0]] + s[1..];
    }
  }

  /** Removing every `x` shortens the list by the number of occurrences of `x`. */
  lemma {:induction false} FilterRemovesCount<T(!new)>(s: seq<T>, x: T)
    ensures |Filter(y => y != x, s)| == |s| - multiset(s)[x]
  {
    if |s| > 0 {
      FilterRemovesCount(s[1..], x);
      assert s == [s[0]] + s[1..];
    }
  }

  /** Toggling twice restores membership of every element. */
  lemma ToggleTwiceMembership<T(!new)>(s: seq<T>, x: T)
    ensures forall y :: y in Toggle(Toggle(s, x), x) <==> y in s
  {
  }

  /** Toggling an absent element twice gives back exactly the list it started from. */
  lemma ToggleTwiceAbsent<T(!new)>(s: seq<T>, x: T)
    requires x !in s
    ensures Toggle(Toggle(s, x), x) == s
  {
    FilterAppend(y => y != x, s, [x]);
    FilterKeepsAll(y => y != x, s);
  }
}
