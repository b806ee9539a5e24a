/** Paths as sequences of components, and the component-wise order `sort` uses on them. */
module Paths {

  type Name = string

  /** An absolute path. `[]` is `/`; `a <= p` says that `p` starts with `a`, component by component. */
  type Path = seq<Name>

  /** The `..` component. Canonical paths never hold one; a path as spelled by a user may. */
  const DOTDOT: Name := ".."

  function Parent(p: Path): Path
    requires p != []
  {
    p[..|p| - 1]
  }

  function Last(p: Path): Name
    requires p != []
  {
    p[|p| - 1]
  }

  /** Neither path holds the other. */
  predicate Apart(p: Path, q: Path) {
    !(p <= q) && !(q <= p)
  }

  /** Two prefixes of one path are comparable. */
  lemma PrefixesCompare(a: Path, b: Path, p: Path)
    requires a <= p && b <= p
    ensures a <= b || b <= a
  {
  }

  lemma StrictPrefixOfParent(a: Path, p: Path)
    requires a < p
    ensures a <= Parent(p)
  {
  }

  /** A path that starts with `a` but is not `a` goes on with one of its components. */
  lemma PrefixSnoc(a: Path, p: Path)
    requires a < p
    ensures a + [p[|a|]] == p[..|a| + 1] <= p
    ensures Parent(p[..|a| + 1]) == a
  {
  }

  /** Two entries of one directory. */
  lemma SiblingsApart(p: Path, a: Path, b: Path)
    requires a != [] && b != [] && Parent(a) == p == Parent(b) && a != b
    ensures Apart(a, b)
  {
    assert a == p + [Last(a)] && b == p + [Last(b)];
  }

  // ------------------------------------------------------------- the order

  ghost predicate StrictOrder<T(!new)>(lt: (T, T) -> bool) {
    && (forall x :: !lt(x, x))
    && (forall x, y :: x == y || lt(x, y) || lt(y, x))
    && (forall x, y, z :: lt(x, y) && lt(y, z) ==> lt(x, z))
  }

  predicate LexLess<T(==)>(a: seq<T>, b: seq<T>, lt: (T, T) -> bool) {
    b != [] && (a == [] || lt(a[0], b[0]) || (a[0] == b[0] && LexLess(a[1..], b[1..], lt)))
  }

  predicate CharLess(x: char, y: char) {
    x < y
  }

  predicate NameLess(a: Name, b: Name) {
    LexLess(a, b, CharLess)
  }

  predicate PathLess(p: Path, q: Path) {
    LexLess(p, q, NameLess)
  }

  predicate PathLeq(p: Path, q: Path) {
    !PathLess(q, p)
  }

  lemma {:induction false} LexIrreflexive<T(!new)>(a: seq<T>, lt: (T, T) -> bool)
    requires StrictOrder(lt)
    ensures !LexLess(a, a, lt)
  {
    if a != [] {
      LexIrreflexive(a[1..], lt);
    }
  }

  lemma {:induction false} LexTotal<T(!new)>(a: seq<T>, b: seq<T>, lt: (T, T) -> bool)
    requires StrictOrder(lt)
    ensures a == b || LexLess(a, b, lt) || LexLess(b, a, lt)
  {
    if a != [] && b != [] && a[0] == b[0] {
      LexTotal(a[1..], b[1..], lt);
      assert a == [a[0]] + a[1..] && b == [b[0]] + b[1..];
    }
  }

  lemma {:induction false} LexTransitive<T(!new)>(a: seq<T>, b: seq<T>, c: seq<T>, lt: (T, T) -> bool)
    requires StrictOrder(lt)
    requires LexLess(a, b, lt) && LexLess(b, c, lt)
    ensures LexLess(a, c, lt)
  {
    if a != [] && a[0] == b[0] && b[0] == c[0] {
      LexTransitive(a[1..], b[1..], c[1..], lt);
    }
  }

  lemma LexStrict<T(!new)>(lt: (T, T) -> bool, lex: (seq<T>, seq<T>) -> bool)
    requires StrictOrder(lt)
    requires forall a, b :: lex(a, b) == LexLess(a, b, lt)
    ensures StrictOrder(lex)
  {
    forall a ensures !lex(a, a) { LexIrreflexive(a, lt); }
    forall a, b ensures a == b || lex(a, b) || lex(b, a) { LexTotal(a, b, lt); }
    forall a, b, c | lex(a, b) && lex(b, c) ensures lex(a, c) { LexTransitive(a, b, c, lt); }
  }

  /** The order of paths is a strict total order, so sorting by it is well defined. */
  lemma PathOrderStrict()
    ensures StrictOrder(PathLess)
  {
    LexStrict(CharLess, NameLess);
    LexStrict(NameLess, PathLess);
  }

  lemma PathLeqTotalPreorder()
    ensures TotalPreorder(PathLeq)
  {
    PathOrderStrict();
    assert forall x, y: Path, z :: PathLeq(x, y) && PathLeq(y, z) ==> PathLeq(x, z);
  }

  lemma LeqNotEqual(p: Path, q: Path)
    requires PathLeq(p, q) && p != q
    ensures PathLess(p, q)
  {
    PathOrderStrict();
  }

  /** `a` ends where `b` goes on, or at their first difference comes before it. */
  ghost predicate Before<T(!new)>(a: seq<T>, b: seq<T>, lt: (T, T) -> bool) {
    a < b || exists k :: 0 <= k < |a| && k < |b| && a[..k] == b[..k] && lt(a[k], b[k])
  }

  lemma {:induction false} LexMeans<T(!new)>(a: seq<T>, b: seq<T>, lt: (T, T) -> bool)
    ensures LexLess(a, b, lt) <==> Before(a, b, lt)
  {
    if a != [] && b != [] {
      LexMeans(a[1..], b[1..], lt);
      if a[0] == b[0] { BeforeRest(a, b, lt); } else { BeforeFirst(a, b, lt); }
    }
  }

  lemma BeforeFirst<T(!new)>(a: seq<T>, b: seq<T>, lt: (T, T) -> bool)
    requires a != [] && b != [] && a[0] != b[0]
    ensures Before(a, b, lt) <==> lt(a[0], b[0])
  {
    assert forall k :: 0 < k < |a| && k < |b| ==> a[..k][0] != b[..k][0];
  }

  lemma BeforeRest<T(!new)>(a: seq<T>, b: seq<T>, lt: (T, T) -> bool)
    requires a != [] && b != [] && a[0] == b[0]
    ensures Before(a, b, lt) <==> lt(a[0], b[0]) || Before(a[1..], b[1..], lt)
  {
    var s, t := a[1..], b[1..];
    assert a == [a[0]] + s && b == [b[0]] + t;
    forall k | 0 <= k < |s| && k < |t| && s[..k] == t[..k] && lt(s[k], t[k]) ensures Before(a, b, lt) {
      assert a[..k + 1] == [a[0]] + s[..k] == b[..k + 1];
    }
    forall k | 0 < k < |a| && k < |b| && a[..k] == b[..k] && lt(a[k], b[k]) ensures Before(s, t, lt) {
      assert s[..k - 1] == a[..k][1..] == t[..k - 1];
    }
  }

  ghost predicate NameBefore(a: Name, b: Name) {
    Before(a, b, (x: char, y: char) => x < y)
  }

  ghost predicate PathBefore(p: Path, q: Path) {
    Before(p, q, NameBefore)
  }

  /** Paths are ordered component by component, and components character by character. */
  lemma PathOrderMeans(p: Path, q: Path)
    ensures PathLess(p, q) <==> PathBefore(p, q)
  {
    forall a: Name, b: Name ensures NameLess(a, b) <==> NameBefore(a, b) {
      LexSame(a, b, CharLess, (x: char, y: char) => x < y);
      LexMeans(a, b, (x: char, y: char) => x < y);
    }
    LexSame(p, q, NameLess, NameBefore);
    LexMeans(p, q, NameBefore);
  }

  lemma {:induction false} LexSame<T(!new)>(a: seq<T>, b: seq<T>, lt: (T, T) -> bool, lu: (T, T) -> bool)
    requires forall x, y :: lt(x, y) == lu(x, y)
    ensures LexLess(a, b, lt) == LexLess(a, b, lu)
  {
    if a != [] && b != [] { LexSame(a[1..], b[1..], lt, lu); }
  }

  /** Sorting puts every directory before what it holds. */
  lemma {:induction false} AncestorFirst(a: Path, p: Path)
    requires a <= p
    ensures PathLeq(a, p)
  {
    PathOrderStrict();
    LexStrict(CharLess, NameLess);
    if a != [] {
      assert a[0] == p[0];
      AncestorFirst(a[1..], p[1..]);
    }
  }

  // ------------------------------------------------------------- stable sort

  ghost predicate TotalPreorder<T(!new)>(leq: (T, T) -> bool) {
    && (forall x, y :: leq(x, y) || leq(y, x))
    && (forall x, y, z :: leq(x, y) && leq(y, z) ==> leq(x, z))
  }

  ghost predicate SortedBy<T>(s: seq<T>, leq: (T, T) -> bool) {
    forall i, j :: 0 <= i < j < |s| ==> leq(s[i], s[j])
  }

  function InsertBy<T>(x: T, s: seq<T>, leq: (T, T) -> bool): (r: seq<T>)
    ensures multiset(r) == multiset{x} + multiset(s)
  {
    if s == [] || leq(x, s[0]) then
      assert [x] + s == [x] + s;
      [x] + s
    else
      assert s == [s[0]] + s[1..];
      [s[0]] + InsertBy(x, s[1..], leq)
  }

  /** The library's stable `sort_by`. */
  function SortBy<T>(s: seq<T>, leq: (T, T) -> bool): (r: seq<T>)
    ensures multiset(r) == multiset(s)
    ensures |r| == |s|
  {
    if s == [] then
      []
    else
      assert s == [s[0]] + s[1..];
      var r := InsertBy(s[0], SortBy(s[1..], leq), leq);
      assert |multiset(r)| == |multiset(s)|;
      r
  }

  lemma InMultiset<T>(x: T, s: seq<T>)
    ensures x in s <==> x in multiset(s)
  {
  }

  lemma {:induction false} InsertSorts<T(!new)>(x: T, s: seq<T>, leq: (T, T) -> bool)
    requires TotalPreorder(leq) && SortedBy(s, leq)
    ensures SortedBy(InsertBy(x, s, leq), leq)
  {
    if s == [] || leq(x, s[0]) {
    } else {
      var rest := InsertBy(x, s[1..], leq);
      InsertSorts(x, s[1..], leq);
      forall j | 0 <= j < |rest| ensures leq(s[0], rest[j]) {
        assert rest[j] in multiset(rest);
        assert rest[j] == x || rest[j] in s[1..];
      }
    }
  }

  lemma {:induction false} SortSorts<T(!new)>(s: seq<T>, leq: (T, T) -> bool)
    requires TotalPreorder(leq)
    ensures SortedBy(SortBy(s, leq), leq)
  {
    if s != [] {
      SortSorts(s[1..], leq);
      InsertSorts(s[0], SortBy(s[1..], leq), leq);
    }
  }

  lemma SortMembers<T>(s: seq<T>, leq: (T, T) -> bool)
    ensures forall x :: x in SortBy(s, leq) <==> x in s
  {
    forall x ensures x in SortBy(s, leq) <==> x in s {
      InMultiset(x, SortBy(s, leq));
      InMultiset(x, s);
    }
  }

  lemma {:induction false} InsertPlace<T>(x: T, s: seq<T>, leq: (T, T) -> bool) returns (m: nat)
    ensures PlacedAt(x, s, InsertBy(x, s, leq), m) && forall k :: 0 <= k < m ==> !leq(x, s[k])
  {
    if s == [] || leq(x, s[0]) {
      m := 0;
    } else {
      m := InsertPlace(x, s[1..], leq);
      m := m + 1;
    }
  }

  /** `r` is `s` with `x` put in at `m`. */
  ghost predicate PlacedAt<T>(x: T, s: seq<T>, r: seq<T>, m: nat) {
    && m <= |s| && |r| == |s| + 1 && r[m] == x
    && (forall k :: 0 <= k < m ==> r[k] == s[k])
    && (forall k :: m <= k < |s| ==> r[k + 1] == s[k])
  }

  /** Sorting keeps the order of what it does not tell apart. */
  lemma {:induction false} SortStable<T>(s: seq<T>, leq: (T, T) -> bool, i: nat, j: nat)
    requires i < j < |s| && leq(SortBy(s, leq)[j], SortBy(s, leq)[i])
    ensures exists k, l :: 0 <= k < l < |s| && s[k] == SortBy(s, leq)[i] && s[l] == SortBy(s, leq)[j]
  {
    hide SortBy, InsertBy;
    SortNext(s, leq);
    var rest, r := SortBy(s[1..], leq), SortBy(s, leq);
    var m := InsertPlace(s[0], rest, leq);
    var b := if j < m then j else j - 1;
    if i == m {
      assert r[j] == rest[b] && rest[b] in multiset(rest);
      var l :| 0 <= l < |s| - 1 && s[1..][l] == r[j];
      assert s[0] == r[i] && s[l + 1] == r[j];
    } else {
      assert j != m;
      var a := if i < m then i else i - 1;
      assert r[i] == rest[a] && r[j] == rest[b];
      SortStable(s[1..], leq, a, b);
      var k, l :| 0 <= k < l < |s| - 1 && s[1..][k] == r[i] && s[1..][l] == r[j];
      assert s[k + 1] == r[i] && s[l + 1] == r[j];
    }
  }

  lemma SortNext<T>(s: seq<T>, leq: (T, T) -> bool)
    requires s != []
    ensures SortBy(s, leq) == InsertBy(s[0], SortBy(s[1..], leq), leq) && |SortBy(s[1..], leq)| == |s| - 1
  {
  }

  ghost predicate Distinct<T>(s: seq<T>) {
    forall i, j :: 0 <= i < j < |s| ==> s[i] != s[j]
  }

  lemma {:induction false} InsertDistinct<T>(x: T, s: seq<T>, leq: (T, T) -> bool)
    requires Distinct(s) && x !in s
    ensures Distinct(InsertBy(x, s, leq))
  {
    if s != [] && !leq(x, s[0]) {
      InsertDistinct(x, s[1..], leq);
      var rest := InsertBy(x, s[1..], leq);
      forall j | 0 <= j < |rest| ensures rest[j] != s[0] {
        assert rest[j] in multiset(rest);
        assert rest[j] == x || rest[j] in s[1..];
      }
    }
  }

  lemma {:induction false} SortDistinct<T>(s: seq<T>, leq: (T, T) -> bool)
    requires Distinct(s)
    ensures Distinct(SortBy(s, leq))
  {
    if s != [] {
      SortDistinct(s[1..], leq);
      SortMembers(s[1..], leq);
      InsertDistinct(s[0], SortBy(s[1..], leq), leq);
    }
  }

  // ------------------------------------------------------------- places in a sequence

  ghost predicate Increasing(places: seq<nat>) {
    forall i, j :: 0 <= i < j < |places| ==> places[i] < places[j]
  }

  lemma NextPlace(places: seq<nat>, i: nat)
    requires Increasing(places) && forall k :: k in places ==> k < i
    ensures Increasing(places + [i])
  {
    assert forall k :: 0 <= k < |places| ==> places[k] in places;
  }

  function Count<T>(s: seq<T>, hit: T -> bool): nat {
    if s == [] then 0 else (if hit(s[0]) then 1 else 0) + Count(s[1..], hit)
  }

  lemma {:induction false} CountInsert<T>(x: T, s: seq<T>, leq: (T, T) -> bool, hit: T -> bool)
    ensures Count(InsertBy(x, s, leq), hit) == (if hit(x) then 1 else 0) + Count(s, hit)
  {
    if s == [] || leq(x, s[0]) {
      assert ([x] + s)[1..] == s;
    } else {
      CountInsert(x, s[1..], leq, hit);
      assert ([s[0]] + InsertBy(x, s[1..], leq))[1..] == InsertBy(x, s[1..], leq);
    }
  }

  /** Sorting neither loses nor repeats anything a caller may be counting. */
  lemma {:induction false} CountSort<T>(s: seq<T>, leq: (T, T) -> bool, hit: T -> bool)
    ensures Count(SortBy(s, leq), hit) == Count(s, hit)
  {
    if s != [] {
      CountSort(s[1..], leq, hit);
      CountInsert(s[0], SortBy(s[1..], leq), leq, hit);
    }
  }

  lemma {:induction false} CountConcat<T>(s: seq<T>, t: seq<T>, hit: T -> bool)
    ensures Count(s + t, hit) == Count(s, hit) + Count(t, hit)
  {
    if s == [] {
      assert s + t == t;
    } else {
      assert (s + t)[1..] == s[1..] + t;
      CountConcat(s[1..], t, hit);
    }
  }
}
