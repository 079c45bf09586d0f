/** Sorting names the way `sort.Strings` orders them: byte by byte, a proper prefix first. */
module Sorting {

  predicate Leq(a: string, b: string) {
    a == "" || (b != "" && (a[0] < b[0] || (a[0] == b[0] && Leq(a[1..], b[1..]))))
  }

  lemma {:induction false} LeqTotal(a: string, b: string)
    ensures Leq(a, b) || Leq(b, a)
  {
    if a == "" || b == "" {
    } else {
      LeqTotal(a[1..], b[1..]);
    }
  }

  lemma {:induction false} LeqAntisymmetric(a: string, b: string)
    requires Leq(a, b) && Leq(b, a)
    ensures a == b
  {
    if a == "" {
    } else {
      LeqAntisymmetric(a[1..], b[1..]);
      assert a == [a[0]] + a[1..] && b == [b[0]] + b[1..];
    }
  }

  lemma {:induction false} LeqTransitive(a: string, b: string, c: string)
    requires Leq(a, b) && Leq(b, c)
    ensures Leq(a, c)
  {
    if a == "" || !(a[0] == b[0] == c[0]) {
    } else {
      LeqTransitive(a[1..], b[1..], c[1..]);
    }
  }

  /** The texts part here, and the first has the smaller byte. */
  ghost predicate SmallerAt(a: string, b: string, k: int) {
    0 <= k < |a| && k < |b| && a[..k] == b[..k] && a[k] < b[k]
  }

  /** The order of bytes: a beginning of the other, or smaller where they part. */
  ghost predicate AtMost(a: string, b: string) {
    a <= b || exists k :: SmallerAt(a, b, k)
  }

  lemma {:induction false} LeqExactly(a: string, b: string)
    ensures Leq(a, b) <==> AtMost(a, b)
  {
    if a == "" || b == "" {
    } else {
      LeqExactly(a[1..], b[1..]);
      assert a == [a[0]] + a[1..] && b == [b[0]] + b[1..];
      if a[0] == b[0] {
        assert a <= b <==> a[1..] <= b[1..];
        forall k ensures SmallerAt(a[1..], b[1..], k) ==> SmallerAt(a, b, k + 1) {
          if SmallerAt(a[1..], b[1..], k) {
            assert a[..k + 1] == [a[0]] + a[1..][..k] && b[..k + 1] == [b[0]] + b[1..][..k];
          }
        }
        forall k ensures SmallerAt(a, b, k) ==> k > 0 && SmallerAt(a[1..], b[1..], k - 1) {
          if SmallerAt(a, b, k) {
            assert a[1..][..k - 1] == a[..k][1..] && b[1..][..k - 1] == b[..k][1..];
          }
        }
      } else {
        assert SmallerAt(a, b, 0) <==> a[0] < b[0];
        forall k ensures SmallerAt(a, b, k) ==> k == 0 {
          assert 0 < k <= |a| && k <= |b| ==> a[..k][0] == a[0] && b[..k][0] == b[0];
        }
      }
    }
  }

  /** A common prefix does not change the order. */
  lemma {:induction false} LeqPrefixed(p: string, a: string, b: string)
    ensures Leq(p + a, p + b) <==> Leq(a, b)
  {
    if p == "" {
      assert p + a == a && p + b == b;
    } else {
      assert (p + a)[1..] == p[1..] + a && (p + b)[1..] == p[1..] + b;
      LeqPrefixed(p[1..], a, b);
    }
  }

  ghost predicate IsSorted(s: seq<string>) {
    forall i, j :: 0 <= i < j < |s| ==> Leq(s[i], s[j])
  }

  function Insert(x: string, s: seq<string>): seq<string> {
    if s == [] || Leq(x, s[0]) then [x] + s else [s[0]] + Insert(x, s[1..])
  }

  function Sort(s: seq<string>): seq<string> {
    if s == [] then [] else Insert(s[0], Sort(s[1..]))
  }

  lemma {:induction false} InsertSorts(x: string, s: seq<string>)
    requires IsSorted(s)
    ensures IsSorted(Insert(x, s))
    ensures multiset(Insert(x, s)) == multiset{x} + multiset(s)
  {
    if s == [] {
    } else if Leq(x, s[0]) {
      forall j | 0 <= j < |s| ensures Leq(x, s[j]) {
        if j > 0 {
          LeqTransitive(x, s[0], s[j]);
        }
      }
    } else {
      InsertSorts(x, s[1..]);
      LeqTotal(x, s[0]);
      var t := Insert(x, s[1..]);
      assert s == [s[0]] + s[1..];
      forall j | 0 <= j < |t| ensures Leq(s[0], t[j]) {
        assert t[j] in multiset(t);
        assert t[j] == x || t[j] in s[1..];
      }
    }
  }

  /** Sorting orders the names and neither adds nor loses any. */
  lemma {:induction false} SortSorts(s: seq<string>)
    ensures IsSorted(Sort(s)) && multiset(Sort(s)) == multiset(s) && |Sort(s)| == |s|
  {
    if s == [] {
    } else {
      SortSorts(s[1..]);
      InsertSorts(s[0], Sort(s[1..]));
      assert s == [s[0]] + s[1..];
    }
    assert |multiset(Sort(s))| == |multiset(s)|;
  }

  /** The names come out in the order of their bytes. */
  lemma SortedByBytes(s: seq<string>, i: nat, j: nat)
    requires i < j < |s|
    ensures |Sort(s)| == |s| && AtMost(Sort(s)[i], Sort(s)[j])
  {
    SortSorts(s);
    LeqExactly(Sort(s)[i], Sort(s)[j]);
  }

  lemma FirstIsLeast(s: seq<string>, x: string)
    requires s != [] && IsSorted(s) && x in multiset(s)
    ensures Leq(s[0], x)
  {
    var i :| 0 <= i < |s| && s[i] == x;
    LeqTotal(x, x);
  }

  lemma RestOf(s: seq<string>)
    requires s != [] && IsSorted(s)
    ensures IsSorted(s[1..]) && multiset(s[1..]) == multiset(s) - multiset{s[0]}
  {
    assert s == [s[0]] + s[1..];
  }

  lemma SameLeast(s: seq<string>, t: seq<string>)
    requires s != [] && t != [] && IsSorted(s) && IsSorted(t) && multiset(s) == multiset(t)
    ensures s[0] == t[0]
  {
    assert s[0] in multiset(s) && t[0] in multiset(t);
    FirstIsLeast(s, t[0]);
    FirstIsLeast(t, s[0]);
    LeqAntisymmetric(s[0], t[0]);
  }

  lemma SameLength(s: seq<string>, t: seq<string>)
    requires multiset(s) == multiset(t)
    ensures |s| == |t|
  {
    assert |s| == |multiset(s)| && |t| == |multiset(t)|;
  }

  /** Two sorted arrangements of the same names are the same. */
  lemma {:induction false} SortedUnique(s: seq<string>, t: seq<string>)
    requires IsSorted(s) && IsSorted(t) && multiset(s) == multiset(t)
    ensures s == t
  {
    SameLength(s, t);
    if s == [] {
    } else {
      var u, v := s[1..], t[1..];
      SameLeast(s, t);
      RestOf(s);
      RestOf(t);
      SortedUnique(u, v);
      assert s == [s[0]] + u && t == [t[0]] + v;
    }
  }

  /** The order in which names arrive does not matter once they are sorted. */
  lemma SortIgnoresOrder(s: seq<string>, t: seq<string>)
    requires multiset(s) == multiset(t)
    ensures Sort(s) == Sort(t)
  {
    SortSorts(s);
    SortSorts(t);
    SortedUnique(Sort(s), Sort(t));
  }
}
