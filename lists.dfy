/**
 * Order-preserving list operations of the JavaScript source: `indexOf` +
 * `splice(i, 1)`, the `intersect`/`subtract` filters of src/flow/transition.js
 * and the first-occurrence de-duplication `[...new Set(xs)]`.
 */
module Lists {

  /** No element occurs twice. */
  predicate NoDup<T(==)>(s: seq<T>) {
    forall i, j :: 0 <= i < j < |s| ==> s[i] != s[j]
  }

  /** `s` is obtained from `t` by deleting elements (order kept). */
  predicate IsSubseq<T(==)>(s: seq<T>, t: seq<T>)
    decreases |t|
  {
    if s == [] then true
    else if t == [] then false
    else (s[0] == t[0] && IsSubseq(s[1..], t[1..])) || IsSubseq(s, t[1..])
  }

  /** `Array.prototype.indexOf`: the first index holding `x`, or -1. */
  function IndexOf<T(==)>(s: seq<T>, x: T): (i: int)
    ensures -1 <= i < |s|
    ensures i == -1 <==> x !in s
    ensures 0 <= i ==> s[i] == x && x !in s[..i]
  {
    if s == [] then -1
    else if s[0] == x then 0
    else
      var k := IndexOf(s[1..], x);
      if k == -1 then -1 else k + 1
  }

  /** `const i = s.indexOf(x); if (i !== -1) s.splice(i, 1);` */
  function RemoveFirst<T(==)>(s: seq<T>, x: T): (r: seq<T>)
    ensures x !in s ==> r == s
    ensures x in s ==> |r| == |s| - 1
  {
    var i := IndexOf(s, x);
    if i == -1 then s
    else
      assert s == s[..i] + [x] + s[i+1..];
      s[..i] + s[i+1..]
  }

  /** `RemoveFirst` takes away exactly one copy of `x`, and only when there is one. */
  lemma RemoveFirstCount<T>(s: seq<T>, x: T)
    ensures multiset(RemoveFirst(s, x)) == multiset(s) - multiset{x}
  {
    var i := IndexOf(s, x);
    if i != -1 {
      assert s == s[..i] + [x] + s[i+1..];
    }
  }

  /** `A.filter(x => new Set(B).has(x))`. */
  function Intersect<T(==)>(A: seq<T>, B: seq<T>): (r: seq<T>)
    ensures forall x :: x in r ==> x in A && x in B
    ensures forall x :: x in A && x in B ==> x in r
  {
    if A == [] then []
    else
      var rest := Intersect(A[1..], B);
      assert A == [A[0]] + A[1..];
      if A[0] in B then [A[0]] + rest else rest
  }

  /** `A.filter(x => !new Set(B).has(x))`. */
  function Subtract<T(==)>(A: seq<T>, B: seq<T>): (r: seq<T>)
    ensures forall x :: x in r ==> x in A && x !in B
    ensures forall x :: x in A && x !in B ==> x in r
  {
    if A == [] then []
    else
      var rest := Subtract(A[1..], B);
      assert A == [A[0]] + A[1..];
      if A[0] !in B then [A[0]] + rest else rest
  }

  /**
   * Both filters keep `A`'s order, and each occurrence of an element of `A`
   * survives in exactly the filter its membership in `B` selects.
   */
  lemma {:induction false} FiltersKeepOrder<T>(A: seq<T>, B: seq<T>)
    ensures IsSubseq(Intersect(A, B), A) && IsSubseq(Subtract(A, B), A)
    ensures forall x :: x in A ==> multiset(Intersect(A, B))[x] == if x in B then multiset(A)[x] else 0
    ensures forall x :: x in A ==> multiset(Subtract(A, B))[x] == if x in B then 0 else multiset(A)[x]
  {
    if A != [] {
      FiltersKeepOrder(A[1..], B);
      assert A == [A[0]] + A[1..];
      var i, s := Intersect(A[1..], B), Subtract(A[1..], B);
      if A[0] in B {
        assert ([A[0]] + i)[1..] == i;
      } else {
        assert ([A[0]] + s)[1..] == s;
      }
    }
  }

  /** `[...new Set(s)]`: every element once, at its first occurrence. */
  function Dedup<T(==)>(s: seq<T>): (r: seq<T>)
    ensures forall x :: x in r ==> x in s
    ensures forall x :: x in s ==> x in r
    ensures NoDup(r)
    ensures |r| <= |s|
  {
    if s == [] then []
    else
      var init := Dedup(s[..|s| - 1]);
      assert s == s[..|s| - 1] + [s[|s| - 1]];
      if s[|s| - 1] in init then init else init + [s[|s| - 1]]
  }

  /**
   * The kept elements appear in the order of their first occurrences in `s`,
   * which with `Dedup`'s own contract fixes the result completely.
   */
  lemma {:induction false} DedupFirstOccurrence<T>(s: seq<T>)
    ensures forall i, j :: 0 <= i < j < |Dedup(s)| ==> IndexOf(s, Dedup(s)[i]) < IndexOf(s, Dedup(s)[j])
  {
    if s != [] {
      var init, x := s[..|s| - 1], s[|s| - 1];
      assert s == init + [x];
      DedupFirstOccurrence(init);
      var d := Dedup(init);
      forall y | y in init ensures IndexOf(s, y) == IndexOf(init, y) {
        IndexOfPrefix(s, |s| - 1, y);
      }
      if x !in d {
        assert x !in init;
        assert IndexOf(s, x) == |s| - 1 by {
          assert s[..|s| - 1] == init;
        }
        var r := d + [x];
        forall i, j | 0 <= i < j < |r| ensures IndexOf(s, r[i]) < IndexOf(s, r[j]) {
          assert r[i] == d[i] && r[i] in init;
          if j < |d| {
            assert r[j] == d[j];
          }
        }
      }
    }
  }

  /** The first occurrence of an element of a prefix is found within the prefix. */
  lemma IndexOfPrefix<T>(s: seq<T>, m: nat, y: T)
    requires m <= |s| && y in s[..m]
    ensures IndexOf(s, y) == IndexOf(s[..m], y)
  {
    var i, k := IndexOf(s, y), IndexOf(s[..m], y);
    assert s[..m][..k] == s[..k] && s[k] == y && s[i] == y;
    assert forall j :: 0 <= j < i ==> s[j] != y by {
      forall j | 0 <= j < i ensures s[j] != y {
        assert s[j] == s[..i][j];
      }
    }
    assert forall j :: 0 <= j < k ==> s[j] != y by {
      forall j | 0 <= j < k ensures s[j] != y {
        assert s[j] == s[..k][j];
      }
    }
  }

  /**
   * `intersect` and `subtract` split `A` between them: every occurrence of
   * every element lands in exactly one of the two.
   */
  lemma IntersectSubtractPartition<T>(A: seq<T>, B: seq<T>)
    ensures multiset(Intersect(A, B)) + multiset(Subtract(A, B)) == multiset(A)
    ensures forall x :: !(x in Intersect(A, B) && x in Subtract(A, B))
  {
    var i, s := Intersect(A, B), Subtract(A, B);
    FiltersKeepOrder(A, B);
    forall x ensures (multiset(i) + multiset(s))[x] == multiset(A)[x] {
    }
  }

  lemma {:induction false} SubseqIn<T>(s: seq<T>, t: seq<T>, x: T)
    requires IsSubseq(s, t) && x in s
    ensures x in t
    decreases |t|
  {
    if s[0] == t[0] && IsSubseq(s[1..], t[1..]) {
      if x != s[0] {
        assert x in s[1..];
        SubseqIn(s[1..], t[1..], x);
      }
    } else {
      SubseqIn(s, t[1..], x);
    }
  }

  lemma {:induction false} SubseqNoDup<T>(s: seq<T>, t: seq<T>)
    requires IsSubseq(s, t) && NoDup(t)
    ensures NoDup(s)
    decreases |t|
  {
    if s != [] {
      assert NoDup(t[1..]) by {
        forall i, j | 0 <= i < j < |t[1..]| ensures t[1..][i] != t[1..][j] {
          assert t[1..][i] == t[i + 1] && t[1..][j] == t[j + 1];
        }
      }
      if s[0] == t[0] && IsSubseq(s[1..], t[1..]) {
        SubseqNoDup(s[1..], t[1..]);
        forall j | 0 < j < |s| ensures s[0] != s[j] {
          assert s[j] == s[1..][j - 1];
          SubseqIn(s[1..], t[1..], s[j]);
          assert t[0] !in t[1..];
        }
        forall i, j | 0 <= i < j < |s| ensures s[i] != s[j] {
          if 0 < i {
            assert s[i] == s[1..][i - 1] && s[j] == s[1..][j - 1];
          }
        }
      } else {
        SubseqNoDup(s, t[1..]);
      }
    }
  }

  /** In a list without duplicates, `RemoveFirst` deletes the element altogether. */
  lemma RemoveFirstNoDup<T>(s: seq<T>, x: T)
    requires NoDup(s)
    ensures RemoveFirst(s, x) == Subtract(s, [x])
    ensures x !in RemoveFirst(s, x)
    ensures NoDup(RemoveFirst(s, x))
  {
    RemoveFirstIsSubtract(s, x);
    FiltersKeepOrder(s, [x]);
    SubseqNoDup(Subtract(s, [x]), s);
  }

  /** `RemoveFirst` unfolded one element at a time. */
  lemma RemoveFirstCons<T>(s: seq<T>, x: T)
    requires s != []
    ensures RemoveFirst(s, x) == if s[0] == x then s[1..] else [s[0]] + RemoveFirst(s[1..], x)
  {
    if s[0] != x {
      var k := IndexOf(s[1..], x);
      if k != -1 {
        assert s[..k + 1] + s[k + 2..] == [s[0]] + (s[1..][..k] + s[1..][k + 1..]);
      }
    }
  }

  lemma {:induction false} RemoveFirstIsSubtract<T>(s: seq<T>, x: T)
    requires NoDup(s)
    ensures RemoveFirst(s, x) == Subtract(s, [x])
  {
    if s != [] {
      assert NoDup(s[1..]) by {
        forall i, j | 0 <= i < j < |s[1..]| ensures s[1..][i] != s[1..][j] {
          assert s[1..][i] == s[i + 1] && s[1..][j] == s[j + 1];
        }
      }
      RemoveFirstIsSubtract(s[1..], x);
      RemoveFirstCons(s, x);
      if s[0] == x {
        assert x !in s[1..] by {
          forall j | 0 <= j < |s[1..]| ensures s[1..][j] != x {
            assert s[1..][j] == s[j + 1];
          }
        }
        assert Subtract(s[1..], [x]) == s[1..];
      }
    }
  }

  /** `removeNode(obj)` twice leaves the list as once, when there are no duplicates. */
  lemma RemoveFirstIdempotent<T>(s: seq<T>, x: T)
    requires NoDup(s)
    ensures RemoveFirst(RemoveFirst(s, x), x) == RemoveFirst(s, x)
  {
    RemoveFirstNoDup(s, x);
  }

  lemma {:induction false} SubtractNothing<T>(s: seq<T>)
    ensures Subtract(s, []) == s
  {
    if s != [] {
      SubtractNothing(s[1..]);
      assert s == [s[0]] + s[1..];
    }
  }

  lemma {:induction false} SubtractAppend<T>(s: seq<T>, xs: seq<T>, x: T)
    ensures Subtract(Subtract(s, xs), [x]) == Subtract(s, xs + [x])
  {
    if s != [] {
      SubtractAppend(s[1..], xs, x);
    }
  }

  /** One more `removeNode` step of a loop that removes the elements of `xs` in turn. */
  lemma RemoveFirstAfterSubtract<T>(s: seq<T>, xs: seq<T>, x: T)
    requires NoDup(s)
    ensures RemoveFirst(Subtract(s, xs), x) == Subtract(s, xs + [x])
  {
    FiltersKeepOrder(s, xs);
    SubseqNoDup(Subtract(s, xs), s);
    RemoveFirstIsSubtract(Subtract(s, xs), x);
    SubtractAppend(s, xs, x);
  }

  /** Removing a list's own elements from it leaves nothing. */
  lemma {:induction false} SubtractCovered<T>(s: seq<T>, t: seq<T>)
    requires forall x :: x in s ==> x in t
    ensures Subtract(s, t) == []
  {
    if s != [] {
      assert s[0] in t;
      SubtractCovered(s[1..], t);
    }
  }
}
