/** Sorted lists of texts. */
module Sorting {
  import opened Text

  function Insert(x: string, sorted: seq<string>): seq<string> {
    if |sorted| == 0 then [x]
    else if Before(sorted[0], x) then [sorted[0]] + Insert(x, sorted[1..])
    else [x] + sorted
  }

  /** The texts in ascending order. */
  function Sort(texts: seq<string>): seq<string> {
    if |texts| == 0 then [] else Insert(texts[|texts| - 1], Sort(texts[..|texts| - 1]))
  }

  predicate Ascending(texts: seq<string>) {
    forall i, j :: 0 <= i < j < |texts| ==> !Before(texts[j], texts[i])
  }

  lemma {:induction false} InsertCounts(x: string, sorted: seq<string>)
    ensures multiset(Insert(x, sorted)) == multiset(sorted) + multiset{x}
  {
    if |sorted| > 0 {
      assert sorted == [sorted[0]] + sorted[1..];
      InsertCounts(x, sorted[1..]);
    }
  }

  /** Sorting permutes. */
  lemma {:induction false} SortPermutes(texts: seq<string>)
    ensures multiset(Sort(texts)) == multiset(texts) && |Sort(texts)| == |texts|
  {
    if |texts| > 0 {
      var n := |texts| - 1;
      assert texts == texts[..n] + [texts[n]];
      SortPermutes(texts[..n]);
      InsertCounts(texts[n], Sort(texts[..n]));
      assert |multiset(Sort(texts))| == |multiset(texts)|;
    }
  }

  lemma {:induction false} InsertAscends(x: string, sorted: seq<string>)
    requires Ascending(sorted)
    ensures Ascending(Insert(x, sorted))
  {
    if |sorted| > 0 {
      if Before(sorted[0], x) {
        InsertAscends(x, sorted[1..]);
        InsertCounts(x, sorted[1..]);
        var rest := Insert(x, sorted[1..]);
        forall j | 0 <= j < |rest| ensures !Before(rest[j], sorted[0]) {
          assert rest[j] in multiset(rest);
          if rest[j] == x {
            if Before(x, sorted[0]) { BeforeTransitive(x, sorted[0], x); BeforeIrreflexive(x); }
          } else {
            assert rest[j] in sorted[1..];
          }
        }
      } else {
        forall j | 0 <= j < |sorted| ensures !Before(sorted[j], x) {
          if Before(sorted[j], x) {
            BeforeTotal(sorted[0], sorted[j]);
            if Before(sorted[0], sorted[j]) { BeforeTransitive(sorted[0], sorted[j], x); }
          }
        }
      }
    }
  }

  lemma {:induction false} SortAscends(texts: seq<string>)
    ensures Ascending(Sort(texts))
  {
    if |texts| > 0 {
      SortAscends(texts[..|texts| - 1]);
      InsertAscends(texts[|texts| - 1], Sort(texts[..|texts| - 1]));
    }
  }

  lemma FirstIsLeast(a: seq<string>, b: seq<string>)
    requires Ascending(a) && Ascending(b) && |a| > 0 && |b| > 0 && multiset(a) == multiset(b)
    ensures a[0] == b[0]
  {
    assert a[0] in multiset(b) && b[0] in multiset(a);
    var i :| 0 <= i < |b| && b[i] == a[0];
    var j :| 0 <= j < |a| && a[j] == b[0];
    BeforeTotal(a[0], b[0]);
  }

  /** Ascending lists with the same contents are the same. */
  lemma {:induction false} AscendingIsUnique(a: seq<string>, b: seq<string>)
    requires Ascending(a) && Ascending(b) && multiset(a) == multiset(b)
    ensures a == b
  {
    assert |multiset(a)| == |multiset(b)|;
    if |a| > 0 {
      FirstIsLeast(a, b);
      assert a == [a[0]] + a[1..] && b == [b[0]] + b[1..];
      assert multiset(a[1..]) == multiset(a) - multiset{a[0]} == multiset(b[1..]);
      AscendingIsUnique(a[1..], b[1..]);
    }
  }

  /** Two lists sort to the same list exactly when they hold the same texts equally often. */
  lemma SortDecides(a: seq<string>, b: seq<string>)
    ensures Sort(a) == Sort(b) <==> multiset(a) == multiset(b)
  {
    SortPermutes(a);
    SortPermutes(b);
    SortAscends(a);
    SortAscends(b);
    if multiset(a) == multiset(b) { AscendingIsUnique(Sort(a), Sort(b)); }
  }

  // ----- Multisets of texts and of what they print -----

  function Without<T>(s: seq<T>, j: nat): seq<T>
    requires j < |s|
  {
    s[..j] + s[j + 1..]
  }

  lemma WithoutOne<T>(s: seq<T>, j: nat)
    requires j < |s|
    ensures multiset(s) == multiset(Without(s, j)) + multiset{s[j]}
  {
    assert s == s[..j] + [s[j]] + s[j + 1..];
  }

  lemma WithoutAt<T>(s: seq<T>, j: nat, k: nat)
    requires j < |s| && k < |s| - 1
    ensures Without(s, j)[k] == s[if k < j then k else k + 1]
  {
  }

  lemma EqualWithout<T>(s: seq<T>, i: nat, t: seq<T>, j: nat)
    requires i < |s| && j < |t| && s[i] == t[j] && multiset(s) == multiset(t)
    ensures multiset(Without(s, i)) == multiset(Without(t, j))
  {
    WithoutOne(s, i);
    WithoutOne(t, j);
    assert multiset(Without(s, i)) == multiset(s) - multiset{s[i]};
    assert multiset(Without(t, j)) == multiset(t) - multiset{t[j]};
  }

  /** Equal entries of the first pair of lists stand beside equal entries of the second. */
  predicate Follows<T(==), U(==)>(a: seq<T>, x: seq<U>, b: seq<T>, y: seq<U>)
    requires |a| == |x| && |b| == |y|
  {
    forall i, j :: 0 <= i < |a| && 0 <= j < |b| && a[i] == b[j] ==> x[i] == y[j]
  }

  lemma FollowsWithout<T, U>(a: seq<T>, x: seq<U>, m: nat, b: seq<T>, y: seq<U>, n: nat)
    requires |a| == |x| && |b| == |y| && Follows(a, x, b, y) && m < |a| && n < |b|
    ensures Follows(Without(a, m), Without(x, m), Without(b, n), Without(y, n))
  {
    var a', x', b', y' := Without(a, m), Without(x, m), Without(b, n), Without(y, n);
    forall i, j | 0 <= i < |a'| && 0 <= j < |b'| && a'[i] == b'[j] ensures x'[i] == y'[j] {
      WithoutAt(a, m, i);
      WithoutAt(x, m, i);
      WithoutAt(b, n, j);
      WithoutAt(y, n, j);
    }
  }

  /** Texts that are equal only where the data are: equal multisets of texts, equal multisets of data. */
  lemma {:induction false} DataFollow<T, U>(a: seq<T>, x: seq<U>, b: seq<T>, y: seq<U>)
    requires |a| == |x| && |b| == |y| && multiset(a) == multiset(b) && Follows(a, x, b, y)
    ensures multiset(x) == multiset(y)
    decreases |a|
  {
    if |a| == 0 {
      assert |multiset(b)| == 0;
    } else {
      assert a[0] in multiset(b);
      var j :| 0 <= j < |b| && b[j] == a[0];
      EqualWithout(a, 0, b, j);
      FollowsWithout(a, x, 0, b, y, j);
      DataFollow(Without(a, 0), Without(x, 0), Without(b, j), Without(y, j));
      WithoutOne(x, 0);
      WithoutOne(y, j);
    }
  }

  lemma MultisetsCorrespond<T, U>(a: seq<T>, x: seq<U>, b: seq<T>, y: seq<U>)
    requires |a| == |x| && |b| == |y|
    requires forall i, j :: 0 <= i < |a| && 0 <= j < |b| ==> (a[i] == b[j] <==> x[i] == y[j])
    ensures multiset(a) == multiset(b) <==> multiset(x) == multiset(y)
  {
    if multiset(a) == multiset(b) { DataFollow(a, x, b, y); }
    if multiset(x) == multiset(y) { DataFollow(x, a, y, b); }
  }
}
