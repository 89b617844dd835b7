/** Orders on values and sequences, and sorting by them.
  *
  * The storage and release code sorts directory listings, candidate files and
  * packages.  This module supplies what those sorts rely on: lexicographic
  * orders, a sort that is a permutation, and the fact that a sorted permutation
  * is unique when no two of its elements tie.
  */
module Orders {

  ghost predicate TotalPreorder<T(!new)>(le: (T, T) -> bool) {
    && (forall x, y :: le(x, y) || le(y, x))
    && (forall x, y, z :: le(x, y) && le(y, z) ==> le(x, z))
  }

  ghost predicate TotalOrder<T(!new)>(le: (T, T) -> bool) {
    && TotalPreorder(le)
    && (forall x, y :: le(x, y) && le(y, x) ==> x == y)
  }

  /** Two elements of `s` that tie under `le` are the same element. */
  ghost predicate TieFree<T>(le: (T, T) -> bool, s: seq<T>) {
    forall x, y :: x in s && y in s && le(x, y) && le(y, x) ==> x == y
  }

  predicate Sorted<T>(le: (T, T) -> bool, s: seq<T>) {
    forall i, j :: 0 <= i < j < |s| ==> le(s[i], s[j])
  }

  /** No value occurs at two positions. */
  predicate Distinct<T(==)>(s: seq<T>) {
    forall i, j :: 0 <= i < j < |s| ==> s[i] != s[j]
  }

  // ----- Lexicographic order -----

  predicate LexLe<T(==)>(le: (T, T) -> bool, s: seq<T>, t: seq<T>) {
    s == [] || (t != [] && (if s[0] == t[0] then LexLe(le, s[1..], t[1..]) else le(s[0], t[0])))
  }

  function Lex<T(==)>(le: (T, T) -> bool): (seq<T>, seq<T>) -> bool {
    (s, t) => LexLe(le, s, t)
  }

  lemma {:induction false} LexAntisymmetric<T(!new)>(le: (T, T) -> bool, s: seq<T>, t: seq<T>)
    requires TotalOrder(le) && LexLe(le, s, t) && LexLe(le, t, s)
    ensures s == t
  {
    if s == [] || t == [] {
    } else {
      assert s[0] == t[0];
      LexAntisymmetric(le, s[1..], t[1..]);
      assert s == [s[0]] + s[1..] && t == [t[0]] + t[1..];
    }
  }

  lemma {:induction false} LexTotal<T(!new)>(le: (T, T) -> bool, s: seq<T>, t: seq<T>)
    requires TotalOrder(le)
    ensures LexLe(le, s, t) || LexLe(le, t, s)
  {
    if s != [] && t != [] && s[0] == t[0] {
      LexTotal(le, s[1..], t[1..]);
    }
  }

  lemma {:induction false} LexTransitive<T(!new)>(le: (T, T) -> bool, s: seq<T>, t: seq<T>, u: seq<T>)
    requires TotalOrder(le) && LexLe(le, s, t) && LexLe(le, t, u)
    ensures LexLe(le, s, u)
  {
    if s == [] {
    } else if s[0] == t[0] && t[0] == u[0] {
      LexTransitive(le, s[1..], t[1..], u[1..]);
    } else {
      assert le(s[0], t[0]) || s[0] == t[0];
      assert le(t[0], u[0]) || t[0] == u[0];
    }
  }

  lemma LexIsTotal<T(!new)>(le: (T, T) -> bool)
    requires TotalOrder(le)
    ensures TotalOrder(Lex(le))
  {
    forall s, t ensures Lex(le)(s, t) || Lex(le)(t, s) {
      LexTotal(le, s, t);
    }
    forall s, t | Lex(le)(s, t) && Lex(le)(t, s) ensures s == t {
      LexAntisymmetric(le, s, t);
    }
    forall s, t, u | Lex(le)(s, t) && Lex(le)(t, u) ensures Lex(le)(s, u) {
      LexTransitive(le, s, t, u);
    }
  }

  // ----- Orders on strings and on paths of names -----

  function CharOrder(): (char, char) -> bool { (a, b) => a <= b }

  function StringOrder(): (string, string) -> bool { Lex(CharOrder()) }

  function PathOrder(): (seq<string>, seq<string>) -> bool { Lex(StringOrder()) }

  lemma StringOrderIsTotal()
    ensures TotalOrder(StringOrder())
  {
    LexIsTotal(CharOrder());
  }

  lemma PathOrderIsTotal()
    ensures TotalOrder(PathOrder())
  {
    StringOrderIsTotal();
    LexIsTotal(StringOrder());
  }

  // ----- What the orders are, place by place -----

  predicate SameUpTo<T(==)>(s: seq<T>, t: seq<T>, k: nat) { k <= |s| && k <= |t| && s[..k] == t[..k] }

  /** A prefix comes first; otherwise the first place at which they differ decides. */
  lemma {:induction false} LexMeans<T>(le: (T, T) -> bool, s: seq<T>, t: seq<T>)
    ensures LexLe(le, s, t) <==>
      exists k: nat :: SameUpTo(s, t, k) && (k == |s| || (k < |s| && k < |t| && s[k] != t[k] && le(s[k], t[k])))
  {
    if s == [] {
      assert SameUpTo(s, t, 0);
    } else if t == [] {
    } else if s[0] != t[0] {
      assert SameUpTo(s, t, 0);
      forall k: nat | SameUpTo(s, t, k) ensures k == 0 {
        if k > 0 {
          SameHeads(s, t, k);
          assert false;
        }
      }
    } else {
      LexMeans(le, s[1..], t[1..]);
      forall k: nat ensures SameUpTo(s[1..], t[1..], k) <==> SameUpTo(s, t, k + 1) {
        SameTails(s, t, k);
      }
      if k: nat :| SameUpTo(s, t, k) && (k == |s| || (k < |s| && k < |t| && s[k] != t[k] && le(s[k], t[k]))) {
        assert k > 0;
        assert SameUpTo(s[1..], t[1..], k - 1);
      }
    }
  }

  lemma SameHeads<T>(s: seq<T>, t: seq<T>, k: nat)
    requires SameUpTo(s, t, k) && k > 0
    ensures s[0] == t[0]
  {
    assert s[0] == s[..k][0] && t[0] == t[..k][0];
  }

  lemma SameTails<T>(s: seq<T>, t: seq<T>, k: nat)
    requires s != [] && t != [] && s[0] == t[0]
    ensures SameUpTo(s[1..], t[1..], k) <==> SameUpTo(s, t, k + 1)
  {
    if k < |s| && k < |t| {
      assert s[..k + 1] == [s[0]] + s[1..][..k] && t[..k + 1] == [t[0]] + t[1..][..k];
      assert s[..k + 1][1..] == s[1..][..k] && t[..k + 1][1..] == t[1..][..k];
    }
  }

  /** By characters, a prefix first. */
  ghost predicate StringBefore(s: string, t: string) {
    exists k: nat :: SameUpTo(s, t, k) && (k == |s| || (k < |s| && k < |t| && s[k] < t[k]))
  }

  /** By names, the directory of a path first. */
  ghost predicate PathBefore(a: seq<string>, b: seq<string>) {
    exists k: nat :: SameUpTo(a, b, k) && (k == |a| || (k < |a| && k < |b| && a[k] != b[k] && StringBefore(a[k], b[k])))
  }

  lemma StringOrderMeans(s: string, t: string)
    ensures StringOrder()(s, t) <==> StringBefore(s, t)
  {
    LexMeans(CharOrder(), s, t);
  }

  lemma PathOrderMeans(a: seq<string>, b: seq<string>)
    ensures PathOrder()(a, b) <==> PathBefore(a, b)
  {
    LexMeans(StringOrder(), a, b);
    forall k: nat | k < |a| && k < |b| ensures StringOrder()(a[k], b[k]) <==> StringBefore(a[k], b[k]) {
      StringOrderMeans(a[k], b[k]);
    }
  }

  // ----- Sorting -----

  function Insert<T>(le: (T, T) -> bool, x: T, s: seq<T>): seq<T> {
    if s == [] || le(x, s[0]) then [x] + s else [s[0]] + Insert(le, x, s[1..])
  }

  function Sort<T>(le: (T, T) -> bool, s: seq<T>): seq<T> {
    if s == [] then [] else Insert(le, s[0], Sort(le, s[1..]))
  }

  lemma {:induction false} InsertPermutes<T>(le: (T, T) -> bool, x: T, s: seq<T>)
    ensures multiset(Insert(le, x, s)) == multiset{x} + multiset(s)
  {
    if s == [] || le(x, s[0]) {
    } else {
      InsertPermutes(le, x, s[1..]);
      assert s == [s[0]] + s[1..];
    }
  }

  lemma {:induction false} SortPermutes<T>(le: (T, T) -> bool, s: seq<T>)
    ensures multiset(Sort(le, s)) == multiset(s)
    ensures |Sort(le, s)| == |s|
  {
    if s == [] {
    } else {
      SortPermutes(le, s[1..]);
      InsertPermutes(le, s[0], Sort(le, s[1..]));
      assert s == [s[0]] + s[1..];
      assert |multiset(Sort(le, s))| == |multiset(s)|;
    }
  }

  lemma {:induction false} InsertSorts<T(!new)>(le: (T, T) -> bool, x: T, s: seq<T>)
    requires TotalPreorder(le) && Sorted(le, s)
    ensures Sorted(le, Insert(le, x, s))
  {
    if s == [] || le(x, s[0]) {
      forall j | 0 <= j < |s| ensures le(x, s[j]) {
        assert le(s[0], s[j]);
      }
    } else {
      var rest := Insert(le, x, s[1..]);
      InsertSorts(le, x, s[1..]);
      InsertPermutes(le, x, s[1..]);
      forall j | 0 <= j < |rest| ensures le(s[0], rest[j]) {
        assert rest[j] in multiset(rest);
        assert rest[j] == x || rest[j] in s[1..];
      }
    }
  }

  lemma {:induction false} SortSorts<T(!new)>(le: (T, T) -> bool, s: seq<T>)
    requires TotalPreorder(le)
    ensures Sorted(le, Sort(le, s))
  {
    if s != [] {
      SortSorts(le, s[1..]);
      InsertSorts(le, s[0], Sort(le, s[1..]));
    }
  }

  lemma SameMultisetSameMembers<T>(s: seq<T>, t: seq<T>)
    requires multiset(s) == multiset(t)
    ensures |s| == |t|
    ensures forall x :: x in s <==> x in t
  {
    assert |multiset(s)| == |s| && |multiset(t)| == |t|;
    forall x ensures x in s <==> x in t {
      assert x in s <==> x in multiset(s);
      assert x in t <==> x in multiset(t);
    }
  }

  lemma SortedHeadIsLeast<T(!new)>(le: (T, T) -> bool, s: seq<T>, x: T)
    requires TotalPreorder(le) && Sorted(le, s) && x in s
    ensures le(s[0], x)
  {
    assert le(s[0], s[0]);
  }

  lemma TailMultiset<T>(s: seq<T>)
    requires s != []
    ensures multiset(s[1..]) == multiset(s) - multiset{s[0]} && s == [s[0]] + s[1..]
  {
    assert s == [s[0]] + s[1..];
  }

  /** A sorted permutation of a tie-free sequence is unique. */
  lemma {:induction false} SortedIsUnique<T(!new)>(le: (T, T) -> bool, s: seq<T>, t: seq<T>)
    requires TotalPreorder(le) && TieFree(le, s)
    requires Sorted(le, s) && Sorted(le, t) && multiset(s) == multiset(t)
    ensures s == t
  {
    SameMultisetSameMembers(s, t);
    if s == [] {
    } else {
      assert s[0] == t[0] by {
        SortedHeadIsLeast(le, s, t[0]);
        SortedHeadIsLeast(le, t, s[0]);
      }
      TailMultiset(s);
      TailMultiset(t);
      assert TieFree(le, s[1..]) by {
        assert forall x :: x in s[1..] ==> x in s;
      }
      SortedIsUnique(le, s[1..], t[1..]);
    }
  }

  /** Sorting forgets the order its input arrived in. */
  lemma SortForgetsOrder<T(!new)>(le: (T, T) -> bool, s: seq<T>, t: seq<T>)
    requires TotalPreorder(le) && TieFree(le, s) && multiset(s) == multiset(t)
    ensures Sort(le, s) == Sort(le, t)
  {
    SortPermutes(le, s);
    SortPermutes(le, t);
    SortSorts(le, s);
    SortSorts(le, t);
    SameMultisetSameMembers(Sort(le, s), s);
    SortedIsUnique(le, Sort(le, s), Sort(le, t));
  }

  // ----- One element and the rest -----

  ghost function Position<T>(s: seq<T>, x: T): (k: nat)
    requires x in s
    ensures k < |s| && s[k] == x
  {
    var k :| 0 <= k < |s| && s[k] == x; k
  }

  /** A sequence around one of its elements. */
  lemma SplitAround<T>(s: seq<T>, e: T) returns (x: seq<T>, y: seq<T>)
    requires e in s
    ensures s == x + [e] + y && |x + y| < |s|
    ensures multiset(x + y) == multiset(s) - multiset{e}
  {
    var k := Position(s, e);
    x := s[..k];
    y := s[k + 1..];
    assert s == x + [e] + y;
  }

  function Reverse<T>(s: seq<T>): (r: seq<T>)
    ensures multiset(r) == multiset(s) && |r| == |s|
  {
    if s == [] then [] else assert s == [s[0]] + s[1..]; Reverse(s[1..]) + [s[0]]
  }

  lemma SubsetIsNoLarger<T>(a: set<T>, b: set<T>)
    requires a <= b
    ensures |a| <= |b|
  {
    assert b == a + (b - a);
  }

  lemma MoveToFront<T>(x: seq<T>, y: seq<T>, z: seq<T>)
    ensures multiset(x + y + z) == multiset(y) + multiset(x + z)
  {
  }

  /** A permutation of a sequence without repetitions has none either. */
  lemma DistinctPermutation<T>(s: seq<T>, t: seq<T>)
    requires multiset(s) == multiset(t) && Distinct(s)
    ensures Distinct(t)
  {
    forall i, j | 0 <= i < j < |t| ensures t[i] != t[j] {
      if t[i] == t[j] {
        assert t == t[..i] + [t[i]] + t[i + 1..j] + [t[j]] + t[j + 1..];
        assert multiset(t)[t[i]] >= 2;
        DistinctCountsOnce(s, t[i]);
        assert false;
      }
    }
  }

  /** No two entries have the same key. */
  predicate DistinctBy<T, K(==)>(key: T -> K, s: seq<T>) {
    forall i, j :: 0 <= i < j < |s| ==> key(s[i]) != key(s[j])
  }

  lemma DistinctByPermutation<T, K>(key: T -> K, s: seq<T>, t: seq<T>)
    requires multiset(s) == multiset(t) && DistinctBy(key, s)
    ensures DistinctBy(key, t)
  {
    SameMultisetSameMembers(s, t);
    assert Distinct(s) by {
      forall i, j | 0 <= i < j < |s| ensures s[i] != s[j] {
        assert key(s[i]) != key(s[j]);
      }
    }
    DistinctPermutation(s, t);
    forall i, j | 0 <= i < j < |t| ensures key(t[i]) != key(t[j]) {
      assert t[i] in s && t[j] in s && t[i] != t[j];
      var k, l := Position(s, t[i]), Position(s, t[j]);
      assert k < l || l < k;
    }
  }

  lemma {:induction false} DistinctCountsOnce<T>(s: seq<T>, x: T)
    requires Distinct(s)
    ensures multiset(s)[x] <= 1
  {
    if s != [] {
      DistinctCountsOnce(s[1..], x);
      assert s == [s[0]] + s[1..];
      if s[0] == x {
        assert x !in s[1..];
      }
    }
  }
}
