/** Orders and sorting: Python's comparison of strings and pairs, and `sorted`. */
module Order {

  ghost predicate Total<T(!new)>(le: (T, T) -> bool) {
    && (forall a, b :: le(a, b) || le(b, a))
    && (forall a, b :: le(a, b) && le(b, a) ==> a == b)
    && (forall a, b, c :: le(a, b) && le(b, c) ==> le(a, c))
  }

  ghost predicate Sorted<T(!new)>(s: seq<T>, le: (T, T) -> bool) {
    forall i, j :: 0 <= i < j < |s| ==> le(s[i], s[j])
  }

  ghost predicate Distinct<T(!new)>(s: seq<T>) {
    forall i, j :: 0 <= i < j < |s| ==> s[i] != s[j]
  }

  /** Python's `<=` on strings: by code point, a proper prefix first. */
  predicate LexLe(a: string, b: string) {
    if a == [] then true
    else if b == [] then false
    else if a[0] != b[0] then a[0] < b[0]
    else LexLe(a[1..], b[1..])
  }

  lemma {:induction false} LexAntisymmetric(a: string, b: string)
    requires LexLe(a, b) && LexLe(b, a)
    ensures a == b
  {
    if a != [] && b != [] {
      LexAntisymmetric(a[1..], b[1..]);
      assert a == [a[0]] + a[1..] && b == [b[0]] + b[1..];
    }
  }

  lemma {:induction false} LexTransitive(a: string, b: string, c: string)
    requires LexLe(a, b) && LexLe(b, c)
    ensures LexLe(a, c)
  {
    if a != [] && a[0] == b[0] == c[0] {
      LexTransitive(a[1..], b[1..], c[1..]);
    }
  }

  lemma {:induction false} LexConnected(a: string, b: string)
    ensures LexLe(a, b) || LexLe(b, a)
  {
    if a != [] && b != [] && a[0] == b[0] {
      LexConnected(a[1..], b[1..]);
    }
  }

  lemma LexTotal()
    ensures Total(LexLe)
  {
    forall a, b ensures LexLe(a, b) || LexLe(b, a) {
      LexConnected(a, b);
    }
    forall a, b | LexLe(a, b) && LexLe(b, a) ensures a == b {
      LexAntisymmetric(a, b);
    }
    forall a, b, c | LexLe(a, b) && LexLe(b, c) ensures LexLe(a, c) {
      LexTransitive(a, b, c);
    }
  }

  // ---- sorted(list): a stable insertion sort ----

  function Insert<T>(x: T, s: seq<T>, le: (T, T) -> bool): seq<T> {
    if s == [] then [x]
    else if le(x, s[0]) then [x] + s
    else [s[0]] + Insert(x, s[1..], le)
  }

  function SortSeq<T>(s: seq<T>, le: (T, T) -> bool): seq<T> {
    if s == [] then [] else Insert(s[0], SortSeq(s[1..], le), le)
  }

  lemma {:induction false} InsertKeeps<T>(x: T, s: seq<T>, le: (T, T) -> bool)
    ensures multiset(Insert(x, s, le)) == multiset{x} + multiset(s)
  {
    if s != [] {
      assert s == [s[0]] + s[1..];
      if !le(x, s[0]) {
        InsertKeeps(x, s[1..], le);
      }
    }
  }

  lemma {:induction false} SortKeeps<T>(s: seq<T>, le: (T, T) -> bool)
    ensures multiset(SortSeq(s, le)) == multiset(s)
    ensures |SortSeq(s, le)| == |s|
  {
    if s != [] {
      SortKeeps(s[1..], le);
      InsertKeeps(s[0], SortSeq(s[1..], le), le);
      assert s == [s[0]] + s[1..];
    }
    assert |SortSeq(s, le)| == |multiset(SortSeq(s, le))|;
  }

  /** Total order up to ties: what a Python sort key induces. */
  ghost predicate Preorder<T(!new)>(le: (T, T) -> bool) {
    && (forall a, b :: le(a, b) || le(b, a))
    && (forall a, b, c :: le(a, b) && le(b, c) ==> le(a, c))
  }

  lemma {:induction false} InsertSorted<T(!new)>(x: T, s: seq<T>, le: (T, T) -> bool)
    requires Preorder(le) && Sorted(s, le)
    ensures Sorted(Insert(x, s, le), le)
  {
    if s != [] && !le(x, s[0]) {
      InsertSorted(x, s[1..], le);
      InsertKeeps(x, s[1..], le);
      var r := Insert(x, s[1..], le);
      forall k | 0 <= k < |r| ensures le(s[0], r[k]) {
        assert r[k] in multiset(r);
        assert r[k] == x || r[k] in s[1..];
      }
    }
  }

  lemma {:induction false} SortSorted<T(!new)>(s: seq<T>, le: (T, T) -> bool)
    requires Preorder(le)
    ensures Sorted(SortSeq(s, le), le)
  {
    if s != [] {
      SortSorted(s[1..], le);
      InsertSorted(s[0], SortSeq(s[1..], le), le);
    }
  }

  /** A list has one sorted arrangement under a total order. */
  lemma {:induction false} SortedUnique<T(!new)>(s: seq<T>, t: seq<T>, le: (T, T) -> bool)
    requires Total(le) && Sorted(s, le) && Sorted(t, le) && multiset(s) == multiset(t)
    ensures s == t
  {
    assert |s| == |multiset(s)| == |multiset(t)| == |t|;
    if s != [] {
      assert s[0] in multiset(t) && t[0] in multiset(s);
      FirstIsLeast(s, t[0], le);
      FirstIsLeast(t, s[0], le);
      assert s == [s[0]] + s[1..] && t == [t[0]] + t[1..];
      assert multiset(s[1..]) == multiset(s) - multiset{s[0]};
      assert multiset(t[1..]) == multiset(t) - multiset{t[0]};
      SortedUnique(s[1..], t[1..], le);
    }
  }

  lemma FirstIsLeast<T(!new)>(s: seq<T>, x: T, le: (T, T) -> bool)
    requires Total(le) && Sorted(s, le) && x in s
    ensures le(s[0], x)
  {
  }

  /** `sorted` forgets the order its argument came in. */
  lemma SortForgetsOrder<T(!new)>(s: seq<T>, t: seq<T>, le: (T, T) -> bool)
    requires Total(le) && multiset(s) == multiset(t)
    ensures SortSeq(s, le) == SortSeq(t, le)
  {
    SortKeeps(s, le); SortKeeps(t, le);
    SortSorted(s, le); SortSorted(t, le);
    SortedUnique(SortSeq(s, le), SortSeq(t, le), le);
  }

  // ---- sorted(set) ----

  lemma {:induction false} LeastExists<T(!new)>(s: set<T>, le: (T, T) -> bool)
    requires Total(le) && s != {}
    ensures exists m :: m in s && forall x :: x in s ==> le(m, x)
  {
    var y :| y in s;
    var rest := s - {y};
    if rest == {} {
      assert s == {y};
    } else {
      LeastExists(rest, le);
      var m :| m in rest && forall x :: x in rest ==> le(m, x);
      if le(y, m) {
        assert forall x :: x in s ==> x == y || x in rest;
      } else {
        assert le(m, y);
        assert forall x :: x in s ==> x == y || x in rest;
      }
    }
  }

  function SortSet<T(==,!new)>(s: set<T>, le: (T, T) -> bool): (r: seq<T>)
    requires Total(le)
    ensures |r| == |s|
    ensures forall x :: x in r <==> x in s
  {
    if s == {} then [] else
      LeastExists(s, le);
      var m :| m in s && forall x :: x in s ==> le(m, x);
      [m] + SortSet(s - {m}, le)
  }

  lemma {:induction false} SortSetSorted<T(!new)>(s: set<T>, le: (T, T) -> bool)
    requires Total(le)
    ensures Sorted(SortSet(s, le), le) && Distinct(SortSet(s, le))
  {
    if s != {} {
      var r := SortSet(s, le);
      var m :| m in s && (forall x :: x in s ==> le(m, x)) && r == [m] + SortSet(s - {m}, le);
      SortSetSorted(s - {m}, le);
      LeastInFront(m, SortSet(s - {m}, le), le);
    }
  }

  lemma LeastInFront<T(!new)>(m: T, r: seq<T>, le: (T, T) -> bool)
    requires Sorted(r, le) && Distinct(r) && forall x :: x in r ==> le(m, x) && x != m
    ensures Sorted([m] + r, le) && Distinct([m] + r)
  {
  }

  // ---- what the order is, and what sorting leaves alone ----

  ghost predicate DifferAt(a: string, b: string, k: nat) {
    k < |a| && k < |b| && a[..k] == b[..k] && a[k] != b[k]
  }

  /** The smaller character stands in `a` where the two first differ. */
  ghost predicate Smaller(a: string, b: string) { exists k: nat :: DifferAt(a, b, k) && a[k] < b[k] }

  /** Strings are compared by the first place where they differ. */
  lemma {:induction false} LexLeIff(a: string, b: string)
    ensures LexLe(a, b) <==> a <= b || Smaller(a, b)
  {
    if a != [] && b != [] {
      if a[0] != b[0] {
        assert forall k: nat :: 0 < k <= |a| && k <= |b| ==> a[..k][0] == a[0] && b[..k][0] == b[0];
        assert DifferAt(a, b, 0);
      } else {
        LexLeIff(a[1..], b[1..]);
        assert a == [a[0]] + a[1..] && b == [b[0]] + b[1..];
        SmallerLater(a, b);
      }
    }
  }

  lemma SmallerLater(a: string, b: string)
    requires a != [] && b != [] && a[0] == b[0]
    ensures Smaller(a, b) <==> Smaller(a[1..], b[1..])
  {
    if k: nat :| DifferAt(a, b, k) && a[k] < b[k] {
      DifferLater(a, b, k - 1);
      assert a[1..][k - 1] == a[k] && b[1..][k - 1] == b[k];
    }
    if k: nat :| DifferAt(a[1..], b[1..], k) && a[1..][k] < b[1..][k] {
      DifferLater(a, b, k);
      assert a[1..][k] == a[k + 1] && b[1..][k] == b[k + 1];
    }
  }

  lemma DifferLater(a: string, b: string, k: nat)
    requires a != [] && b != [] && a[0] == b[0]
    ensures DifferAt(a[1..], b[1..], k) <==> DifferAt(a, b, k + 1)
  {
    if k < |a| - 1 && k < |b| - 1 {
      assert a[..k + 1] == [a[0]] + a[1..][..k] && b[..k + 1] == [b[0]] + b[1..][..k];
      assert a[..k + 1][1..] == a[1..][..k] && b[..k + 1][1..] == b[1..][..k];
    }
  }

  /** What stands on a level with `z`. */
  function Ties<T>(s: seq<T>, le: (T, T) -> bool, z: T): seq<T> {
    if s == [] then [] else (if le(s[0], z) && le(z, s[0]) then [s[0]] else []) + Ties(s[1..], le, z)
  }

  lemma NotBothTied<T(!new)>(x: T, y: T, le: (T, T) -> bool, z: T)
    requires Preorder(le) && !le(x, y)
    ensures !(le(x, z) && le(z, x) && le(y, z) && le(z, y))
  {
  }

  lemma {:induction false} InsertKeepsTies<T(!new)>(x: T, s: seq<T>, le: (T, T) -> bool, z: T)
    requires Preorder(le)
    ensures Ties(Insert(x, s, le), le, z) == (if le(x, z) && le(z, x) then [x] else []) + Ties(s, le, z)
  {
    if s == [] {
    } else if le(x, s[0]) {
      assert ([x] + s)[1..] == s;
    } else {
      InsertKeepsTies(x, s[1..], le, z);
      NotBothTied(x, s[0], le, z);
      assert ([s[0]] + Insert(x, s[1..], le))[1..] == Insert(x, s[1..], le);
    }
  }

  /** Sorting is stable: what stands on a level stays in the order it had. */
  lemma {:induction false} SortIsStable<T(!new)>(s: seq<T>, le: (T, T) -> bool, z: T)
    requires Preorder(le)
    ensures Ties(SortSeq(s, le), le, z) == Ties(s, le, z)
  {
    if s != [] {
      SortIsStable(s[1..], le, z);
      InsertKeepsTies(s[0], SortSeq(s[1..], le), le, z);
    }
  }
}
