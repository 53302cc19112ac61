/**
  Lists expanded through rows: every element is replaced by its row, and repetitions are dropped. What rows must
  be like for a second expansion to give the identical list.
 */
module Rows {
  import opened Prelude
  import opened FirstOccurrences

  function Images<A>(vs: seq<A>, row: A -> seq<A>): (r: seq<A>) {
    if vs == [] then [] else Images(Init(vs), row) + row(Last(vs))
  }

  function Expand<A(==,!new)>(vs: seq<A>, row: A -> seq<A>): (r: seq<A>) {
    Dedup(Images(vs, row))
  }

  lemma ImagesSnoc<A(!new)>(vs: seq<A>, v: A, row: A -> seq<A>)
    ensures Images(vs + [v], row) == Images(vs, row) + row(v)
  {
    assert Init(vs + [v]) == vs && Last(vs + [v]) == v;
  }

  lemma SingleImages<A(!new)>(v: A, row: A -> seq<A>)
    ensures Images([v], row) == row(v)
  {
    ImagesSnoc([], v, row);
    assert [] + [v] == [v] && [] + row(v) == row(v);
  }

  lemma {:induction false} ImagesAreRows<A(!new)>(vs: seq<A>, row: A -> seq<A>, x: A)
    ensures x in Images(vs, row) <==> exists i :: 0 <= i < |vs| && x in row(vs[i])
    decreases |vs|
  {
    if vs != [] {
      var before, n := Init(vs), |vs| - 1;
      ImagesAreRows(before, row, x);
      if i :| 0 <= i < |before| && x in row(before[i]) {
        assert before[i] == vs[i];
      }
      if i :| 0 <= i < |vs| && x in row(vs[i]) {
        assert i < n ==> before[i] == vs[i];
      }
    }
  }

  lemma {:induction false} ImagesConcat<A(!new)>(a: seq<A>, b: seq<A>, row: A -> seq<A>)
    ensures Images(a + b, row) == Images(a, row) + Images(b, row)
    decreases |b|
  {
    if b == [] {
      assert a + b == a;
    } else {
      ConcatEnds(a, b);
      ImagesConcat(a, Init(b), row);
      ConcatAssociates(Images(a, row), Images(Init(b), row), row(Last(b)));
    }
  }

  // ---------- One element decides ----------

  /** The element's own expansion expands to itself. */
  ghost predicate Alone<A(!new)>(v: A, row: A -> seq<A>) {
    Expand(Dedup(row(v)), row) == Dedup(row(v))
  }

  /** Then the rows of the row's members stay within the row. */
  lemma AloneIsClosed<A(!new)>(v: A, row: A -> seq<A>, y: A, z: A)
    requires Alone(v, row) && y in row(v) && z in row(y)
    ensures z in row(v)
  {
    var d := Dedup(row(v));
    var i :| 0 <= i < |d| && d[i] == y;
    ImagesAreRows(d, row, z);
    assert z in Expand(d, row);
  }

  /** Members whose rows are gone altogether can be left out beforehand. */
  lemma {:induction false} FilteredImages<A(!new)>(d: seq<A>, gone: set<A>, row: A -> seq<A>)
    requires forall y, z :: y in d && y in gone && z in row(y) ==> z in gone
    ensures Without(Images(d, row), gone) == Without(Images(Without(d, gone), row), gone)
    decreases |d|
  {
    if d != [] {
      var before, y := Init(d), Last(d);
      InitIsPart(d);
      FilteredImages(before, gone, row);
      assert d == before + [y];
      WithoutSnoc(before, y, gone);
      WithoutConcat(Images(before, row), row(y), gone);
      if y in gone {
        NothingRemains(row(y), gone);
      } else {
        ImagesSnoc(Without(before, gone), y, row);
        WithoutConcat(Images(Without(before, gone), row), row(y), gone);
      }
    }
  }

  lemma NothingRemains<A(!new)>(s: seq<A>, gone: set<A>)
    requires forall x :: x in s ==> x in gone
    ensures Without(s, gone) == []
  {
    var r := Without(s, gone);
    assert forall i :: 0 <= i < |r| ==> r[i] in r;
  }

  lemma {:induction false} WithoutConcat<A(!new)>(a: seq<A>, b: seq<A>, gone: set<A>)
    ensures Without(a + b, gone) == Without(a, gone) + Without(b, gone)
    decreases |b|
  {
    if b == [] {
      assert a + b == a;
    } else {
      ConcatEnds(a, b);
      WithoutConcat(a, Init(b), gone);
    }
  }

  /** What a settled list gains from one more element settles with it. */
  lemma OneMoreSettles<A(!new)>(images: seq<A>, v: A, row: A -> seq<A>)
    requires Alone(v, row) && Expand(Dedup(images), row) == Dedup(images)
    requires forall y, z :: y in images && z in row(y) ==> z in images
    ensures var e := Dedup(images + row(v)); Expand(e, row) == e
  {
    var e, d, gone := Dedup(images), Dedup(row(v)), Elems(images);
    var fresh_ := Without(d, gone);
    DedupConcat(images, row(v));
    ImagesConcat(e, fresh_, row);
    DedupConcat(Images(e, row), Images(fresh_, row));
    assert forall x :: x in Images(e, row) <==> x in e;
    assert Elems(Images(e, row)) == gone;
    FilteredImages(d, gone, row);
    WithoutDedup(Images(fresh_, row), gone);
    WithoutDedup(Images(d, row), gone);
  }

  ghost predicate AllAlone<A(!new)>(vs: seq<A>, row: A -> seq<A>) {
    forall i :: 0 <= i < |vs| ==> Alone(vs[i], row)
  }

  /** A list settles as soon as each of its elements does alone. */
  lemma {:induction false} AloneDecides<A(!new)>(vs: seq<A>, row: A -> seq<A>)
    requires AllAlone(vs, row)
    ensures Expand(Expand(vs, row), row) == Expand(vs, row)
    decreases |vs|
  {
    if vs != [] {
      var before := Init(vs);
      assert AllAlone(before, row);
      AloneDecides(before, row);
      forall y, z | y in Images(before, row) && z in row(y) ensures z in Images(before, row) {
        ImagesAreRows(before, row, y);
        var i :| 0 <= i < |before| && y in row(before[i]);
        AloneIsClosed(before[i], row, y, z);
        ImagesAreRows(before, row, z);
      }
      OneMoreSettles(Images(before, row), Last(vs), row);
    }
  }

  // ---------- Rows in two parts ----------

  /** Every row consists of the two parts, in this order. */
  ghost predicate Parts<A(!new)>(row: A -> seq<A>, r1: A -> seq<A>, r2: A -> seq<A>) {
    forall x :: row(x) == r1(x) + r2(x)
  }

  /** Second parts that repeat the first add nothing. */
  lemma {:induction false} PaddedImages<A(!new)>(d: seq<A>, row: A -> seq<A>, r1: A -> seq<A>, r2: A -> seq<A>)
    requires Parts(row, r1, r2) && forall y, z :: y in d && z in r2(y) ==> z in r1(y)
    ensures Dedup(Images(d, row)) == Dedup(Images(d, r1))
    decreases |d|
  {
    if d != [] {
      var before, y := Init(d), Last(d);
      InitIsPart(d);
      PaddedImages(before, row, r1, r2);
      var s := Images(before, row);
      ConcatAssociates(s, r1(y), r2(y));
      DedupKnown(s + r1(y), r2(y));
      DedupCongruence(s, Images(before, r1), r1(y));
    }
  }

  /** If the second part starts with a member of the first, it adds nothing to it. */
  lemma KnownHead<A(!new)>(v: A, row: A -> seq<A>, r1: A -> seq<A>, r2: A -> seq<A>)
    requires Parts(row, r1, r2) && Alone(v, r1) && r2(v) != []
    requires forall y, z :: y in r1(v) && z in r2(y) ==> z in r1(y)
    requires row(r2(v)[0]) == row(v) && r2(v)[0] in r1(v)
    ensures forall z :: z in r2(v) ==> z in r1(v)
  {
    var b := r2(v)[0];
    forall z | z in r2(v) ensures z in r1(v) {
      assert z in row(v) && z in row(b);
      assert z in r1(b);
      AloneIsClosed(v, r1, b, z);
    }
  }

  /**
    A row settles alone if its first part does, the second parts of that part's members add nothing, and the
    head of the second part has the same row.
   */
  lemma PartsSettle<A(!new)>(v: A, row: A -> seq<A>, r1: A -> seq<A>, r2: A -> seq<A>)
    requires Parts(row, r1, r2) && Alone(v, r1) && r2(v) != []
    requires forall y, z :: y in r1(v) && z in r2(y) ==> z in r1(y)
    requires row(r2(v)[0]) == row(v)
    requires forall y, z :: y in row(v) && z in row(y) ==> z in row(v)
    ensures Alone(v, row)
  {
    var b, d1 := r2(v)[0], Dedup(r1(v));
    PaddedImages(d1, row, r1, r2);
    if b in r1(v) {
      KnownHead(v, row, r1, r2);
      DedupKnown(r1(v), r2(v));
    } else {
      NewHead(v, row, r1, r2);
    }
  }

  lemma NewHead<A(!new)>(v: A, row: A -> seq<A>, r1: A -> seq<A>, r2: A -> seq<A>)
    requires Parts(row, r1, r2) && r2(v) != [] && r2(v)[0] !in r1(v) && row(r2(v)[0]) == row(v)
    requires Dedup(Images(Dedup(r1(v)), row)) == Dedup(r1(v))
    requires forall y, z :: y in row(v) && z in row(y) ==> z in row(v)
    ensures Alone(v, row)
  {
    var d1 := Dedup(r1(v));
    var rest := HeadOfFresh(r1(v), r2(v));
    ConcatAssociates(d1, [r2(v)[0]], rest);
    ImagesConcat(d1 + [r2(v)[0]], rest, row);
    ImagesSnoc(d1, r2(v)[0], row);
    forall z | z in Images(rest, row) ensures z in row(v) {
      ImagesAreRows(rest, row, z);
      var i :| 0 <= i < |rest| && z in row(rest[i]);
      assert rest[i] in rest;
    }
    DedupKnown(Images(d1, row) + row(v), Images(rest, row));
    OnceMore(Images(d1, row), r1(v), r2(v));
  }

  /** The new elements of a list that starts with one start with it. */
  lemma HeadOfFresh<A(!new)>(a: seq<A>, b: seq<A>) returns (rest: seq<A>)
    requires b != [] && b[0] !in a
    ensures Dedup(a + b) == Dedup(a) + ([b[0]] + rest) && forall x :: x in rest ==> x in b
  {
    var fresh_ := Without(Dedup(b), Elems(a));
    DedupConcat(a, b);
    DedupKeepsHead(b);
    WithoutKeepsHead(Dedup(b), Elems(a));
    rest := fresh_[1..];
    assert fresh_ == [b[0]] + rest;
    forall x | x in rest ensures x in b {
      assert x in fresh_;
    }
  }

  lemma OnceMore<A(!new)>(s: seq<A>, a: seq<A>, b: seq<A>)
    requires Dedup(s) == Dedup(a)
    ensures Dedup(s + (a + b)) == Dedup(a + b)
  {
    DedupCongruence(s, a, a + b);
    ConcatAssociates(a, a, b);
    DedupKnown(a, a);
    DedupCongruence(a + a, a, b);
  }

  // ---------- Rows with few different members ----------

  /** A row whose head has the same row settles, if it is closed. */
  lemma HeadSettles<A(!new)>(v: A, row: A -> seq<A>)
    requires row(v) != [] && row(row(v)[0]) == row(v)
    requires forall y, z :: y in row(v) && z in row(y) ==> z in row(v)
    ensures Alone(v, row)
  {
    var none := (x: A) => [];
    assert Parts(row, none, row);
    PartsSettle(v, row, none, row);
  }

  /** A list of x and z that starts with x and has z. */
  lemma TwoMembers<A(!new)>(s: seq<A>, x: A, z: A)
    requires s != [] && s[0] == x && z in s && x != z && forall y :: y in s ==> y == x || y == z
    ensures Dedup(s) == [x, z]
  {
    var d := Dedup(s);
    DedupKeepsHead(s);
    DedupIsDistinct(s);
    var i :| 0 <= i < |d| && d[i] == z;
    assert d[1] in d && d[|d| - 1] in d;
    assert d[1] == z == d[|d| - 1];
  }

  lemma OneMember<A(!new)>(s: seq<A>, x: A)
    requires s != [] && forall y :: y in s ==> y == x
    ensures Dedup(s) == [x]
  {
    var d := Dedup(s);
    DedupKeepsHead(s);
    DedupIsDistinct(s);
    assert s[0] in s;
    assert d[|d| - 1] in d && d[0] == x == d[|d| - 1];
  }

  /** The row [x, y, x]: the row of x is x alone, that of y the whole row. */
  lemma RepeatedFirstSettles<A(!new)>(v: A, x: A, y: A, row: A -> seq<A>)
    requires row(v) == [x, y, x] && x != y && row(y) == row(v) && row(x) != [] && forall u :: u in row(x) ==> u == x
    ensures Alone(v, row)
  {
    TwoMembers([x, y, x], x, y);
    PairImages(x, y, row);
    DedupConcat(row(x), row(y));
    OneMember(row(x), x);
    KeepsSecond(x, y, Elems(row(x)));
  }

  lemma KeepsSecond<A(!new)>(x: A, y: A, gone: set<A>)
    requires x in gone && y !in gone
    ensures Without([x, y], gone) == [y]
  {
    WithoutSnoc([], x, gone);
    WithoutSnoc([x], y, gone);
    assert [] + [x] == [x] && [x] + [y] == [x, y];
  }

  lemma PairImages<A(!new)>(x: A, y: A, row: A -> seq<A>)
    ensures Images([x, y], row) == row(x) + row(y)
  {
    SingleImages(x, row);
    ImagesSnoc([x], y, row);
    assert [x] + [y] == [x, y];
  }

  /** The row [x, y, y]: the row of x starts with x and is otherwise free, that of y is the whole row. */
  lemma RepeatedLastSettles<A(!new)>(v: A, x: A, y: A, row: A -> seq<A>)
    requires row(v) == [x, y, y] && x != y && row(y) == row(v)
    requires row(x) != [] && row(x)[0] == x && y in row(x) && forall u :: u in row(x) ==> u == x || u == y
    ensures Alone(v, row)
  {
    TwoMembers([x, y, y], x, y);
    PairImages(x, y, row);
    TwoMembers(row(x), x, y);
    DedupKnown(row(x), row(y));
  }

  /** The row [x, y, z], all different, when the row of x has z but not y: z comes second. */
  lemma Overtakes<A(!new)>(v: A, x: A, y: A, z: A, row: A -> seq<A>)
    requires row(v) == [x, y, z] && x != y && x != z && y != z
    requires row(x) != [] && row(x)[0] == x && z in row(x) && forall u :: u in row(x) ==> u == x || u == z
    ensures !Alone(v, row)
  {
    DedupThree(x, y, z);
    ThreeImages(x, y, z, row);
    ConcatAssociates(row(x), row(y), row(z));
    DedupConcat(row(x), row(y) + row(z));
    TwoMembers(row(x), x, z);
    assert Expand([x, y, z], row)[1] == z;
  }

  // ---------- Rows for which a second expansion differs ----------

  /** A row whose first member has a new element in its own row. */
  lemma Grows<A(!new)>(v: A, a: A, b: A, c: A, row: A -> seq<A>)
    requires row(v) == [a, b] && row(a) == [a, c] && c != a && c != b
    ensures c !in Expand([v], row) && c in Expand(Expand([v], row), row)
  {
    ImagesAreRows([v], row, c);
    ImagesAreRows([v], row, a);
    assert [v][0] == v && [a, b][0] in row(v) && [a, c][1] in row(a);
    var e := Expand([v], row);
    var n :| 0 <= n < |e| && e[n] == a;
    ImagesAreRows(e, row, c);
  }

  /** A row [a, b, c] whose first member skips the second. */
  lemma Reorders<A(!new)>(a: A, b: A, c: A, row: A -> seq<A>)
    requires row(b) == [a, b, c] && row(a) == [a, a, c] && row(c) == [c, c, c] && a != b && b != c && a != c
    ensures Expand([b], row) == [a, b, c] && Expand([a, b, c], row) == [a, c, b]
  {
    ThreeImages(b, b, b, row);
    DedupThree(a, b, c);
    ThreeImages(a, b, c, row);
    DedupThree(a, a, c);
    ThreeRows(a, b, c, [a, a, c], [a, b, c], [c, c, c]);
  }

  lemma ThreeRows<A(!new)>(a: A, b: A, c: A, s: seq<A>, t: seq<A>, u: seq<A>)
    requires Dedup(s) == [a, c] && Dedup(t) == [a, b, c] && (forall x :: x in u ==> x in t) && a != b && b != c
    ensures Dedup(s + t + u) == [a, c, b]
  {
    forall x | x in u ensures x in s + t { InConcat(s, t, x); }
    DedupKnown(s + t, u);
    DedupConcat(s, t);
    assert a in [a, c] && c in [a, c] && b !in [a, c];
    assert a in Dedup(s) && c in Dedup(s) && b !in Dedup(s);
    OneRemains(a, b, c, Elems(s));
  }

  lemma OneRemains<A(!new)>(a: A, b: A, c: A, gone: set<A>)
    requires a in gone && b !in gone && c in gone
    ensures Without([a, b, c], gone) == [b]
  {
    WithoutSnoc([], a, gone);
    WithoutSnoc([a], b, gone);
    WithoutSnoc([a, b], c, gone);
    assert [] + [a] == [a] && [a] + [b] == [a, b] && [a, b] + [c] == [a, b, c];
  }

  lemma ThreeImages<A(!new)>(a: A, b: A, c: A, row: A -> seq<A>)
    ensures Images([a], row) == row(a) && Images([a, b, c], row) == row(a) + row(b) + row(c)
  {
    ImagesSnoc([], a, row);
    ImagesSnoc([a], b, row);
    ImagesSnoc([a, b], c, row);
    assert [] + [a] == [a] && [a] + [b] == [a, b] && [a, b] + [c] == [a, b, c] && [] + row(a) == row(a);
  }

  lemma DedupThree<A(!new)>(a: A, b: A, c: A)
    requires a != c && b != c
    ensures Dedup([a, b, c]) == if a == b then [a, c] else [a, b, c]
  {
    DedupPair(a, b);
    DedupSnoc([a, b], c);
    assert [a, b] + [c] == [a, b, c];
  }

  lemma DedupPair<A(!new)>(a: A, b: A)
    ensures Dedup([a, b]) == if a == b then [a] else [a, b]
  {
    DedupSnoc([], a);
    DedupSnoc([a], b);
    assert [] + [a] == [a] && [a] + [b] == [a, b];
  }
}
