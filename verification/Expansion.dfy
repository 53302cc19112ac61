/**
  Addresses as numbers moved into several networks at once, and what happens when the result is moved again.
 */
module Expansion {
  import opened Prelude
  import opened Bits
  import opened FirstOccurrences
  import opened Rows

  datatype Network = Network(v6: bool, base: nat, prefix: nat) {
    function Width(): nat { if v6 then 128 else 32 }
    ghost predicate Valid() {
      prefix <= Width() && base < Pow2(Width()) && base % HostSize(this) == 0
    }
  }

  /** The number of addresses in the network. */
  function HostSize(t: Network): (n: nat)
    ensures n > 0
  {
    if t.prefix <= t.Width() then Pow2(t.Width() - t.prefix) else 1
  }

  /** The network address plus the host part of the value. */
  function Place(v: nat, t: Network): (r: nat) {
    t.base + v % HostSize(t)
  }

  ghost predicate Contains(t: Network, v: nat) {
    t.base <= v < t.base + HostSize(t)
  }

  ghost predicate OneFamily(targets: seq<Network>, v6: bool) {
    forall k :: 0 <= k < |targets| ==> targets[k].Valid() && targets[k].v6 == v6
  }

  /** The image lies in the target, keeps the host bits, and fits the width. */
  lemma PlaceLandsInTarget(v: nat, t: Network)
    requires t.Valid()
    ensures var r := Place(v, t);
      Contains(t, r) && r / HostSize(t) == t.base / HostSize(t) && r % HostSize(t) == v % HostSize(t)
        && r < Pow2(t.Width())
  {
    var host, x := HostSize(t), v % HostSize(t);
    assert t.base == (t.base / host) * host;
    QuotientIsUnique(t.base + x, t.base / host, x, host);
    Pow2Splits(t.Width() - t.prefix, t.prefix);
    BelowNextMultiple(t.base, x, host, Pow2(t.prefix));
  }

  // ---------- Placing twice ----------

  /** Where the network u starts once it is placed in the larger network t. */
  function Corner(t: Network, u: Network): nat {
    t.base + u.base % HostSize(t)
  }

  lemma SizesDivide(t: Network, u: Network) returns (c: nat)
    requires t.Valid() && u.Valid() && t.v6 == u.v6 && t.prefix <= u.prefix
    ensures c > 0 && HostSize(t) == HostSize(u) * c && (t.prefix < u.prefix ==> c >= 2)
  {
    c := Pow2Divides(u.Width() - u.prefix, t.Width() - t.prefix);
  }

  /** Into a network that is not larger, only the value counts, not where it was placed before. */
  lemma PlaceTwiceSmall(v: nat, u: Network, t: Network)
    requires t.Valid() && u.Valid() && t.v6 == u.v6 && u.prefix <= t.prefix
    ensures Place(Place(v, u), t) == Place(v, t)
  {
    var c := SizesDivide(u, t);
    ModuloOfModulo(u.base, HostSize(t), c);
    ModuloOfModulo(v, HostSize(t), c);
    AddMultiple(u.base, v % HostSize(u), HostSize(t));
  }

  /** Into a larger network, the smaller network is moved as a whole. */
  lemma PlaceTwiceLarge(v: nat, u: Network, t: Network)
    requires t.Valid() && u.Valid() && t.v6 == u.v6 && t.prefix < u.prefix
    ensures Place(Place(v, u), t) == Corner(t, u) + v % HostSize(u)
    ensures u.base % HostSize(t) + HostSize(u) <= HostSize(t)
  {
    var c := SizesDivide(t, u);
    AddBelow(u.base, v % HostSize(u), HostSize(u), c);
  }

  // ---------- Expansion over targets ----------

  function Row(v: nat, targets: seq<Network>): (r: seq<nat>)
    ensures |r| == |targets| && forall k :: 0 <= k < |targets| ==> r[k] == Place(v, targets[k])
  {
    seq(|targets|, k requires 0 <= k < |targets| => Place(v, targets[k]))
  }

  function RowOf(targets: seq<Network>): nat -> seq<nat> {
    v => Row(v, targets)
  }

  /** Every value placed in every target, repetitions dropped. */
  function Expanded(vs: seq<nat>, targets: seq<Network>): (r: seq<nat>) {
    Expand(vs, RowOf(targets))
  }

  /** Expansion is free of duplicates and holds exactly the images of every value in every target. */
  lemma ExpansionIsExact(vs: seq<nat>, targets: seq<Network>, x: nat)
    ensures Distinct(Expanded(vs, targets))
    ensures x in Expanded(vs, targets) <==>
      exists i, k :: 0 <= i < |vs| && 0 <= k < |targets| && x == Place(vs[i], targets[k])
  {
    DedupIsDistinct(Images(vs, RowOf(targets)));
    ImagesAreRows(vs, RowOf(targets), x);
    if i :| 0 <= i < |vs| && x in Row(vs[i], targets) {
      var k :| 0 <= k < |targets| && x == Row(vs[i], targets)[k];
      assert x == Place(vs[i], targets[k]);
    }
    if i, k :| 0 <= i < |vs| && 0 <= k < |targets| && x == Place(vs[i], targets[k]) {
      assert x == Row(vs[i], targets)[k];
    }
  }

  /** The images come address by address, and for each address target by target. */
  lemma {:induction false} ImagesInOrder(vs: seq<nat>, targets: seq<Network>, i: nat, k: nat)
    requires i < |vs| && k < |targets|
    ensures |Images(vs, RowOf(targets))| == |vs| * |targets| && i * |targets| + k < |vs| * |targets|
    ensures Images(vs, RowOf(targets))[i * |targets| + k] == Place(vs[i], targets[k])
    decreases |vs|
  {
    var before, n := Init(vs), |targets|;
    ImagesLength(before, targets);
    assert |vs| * n == |before| * n + n;
    if i < |before| {
      ImagesInOrder(before, targets, i, k);
    }
  }

  lemma {:induction false} ImagesLength(vs: seq<nat>, targets: seq<Network>)
    ensures |Images(vs, RowOf(targets))| == |vs| * |targets|
    decreases |vs|
  {
    if vs != [] {
      ImagesLength(Init(vs), targets);
      assert |vs| * |targets| == |Init(vs)| * |targets| + |targets|;
    }
  }

  /** What is kept are the first occurrences of the images. */
  lemma ExpansionKeepsFirsts(vs: seq<nat>, targets: seq<Network>) returns (at: seq<nat>)
    ensures AreFirsts(Images(vs, RowOf(targets)), at, Expanded(vs, targets))
  {
    at := DedupKeepsFirsts(Images(vs, RowOf(targets)));
  }

  lemma ExpansionIsNotEmpty(vs: seq<nat>, targets: seq<Network>)
    requires vs != [] && targets != []
    ensures Expanded(vs, targets) != []
  {
    ExpansionIsExact(vs, targets, Place(vs[0], targets[0]));
  }

  // ---------- When the second expansion adds no address ----------

  /** The place of u inside the larger t is filled by targets that are not larger than u. */
  ghost predicate Covered(targets: seq<Network>, t: Network, u: Network) {
    forall z: nat :: Corner(t, u) <= z < Corner(t, u) + HostSize(u) ==> InSmaller(targets, u, z)
  }

  ghost predicate InSmaller(targets: seq<Network>, u: Network, v: nat) {
    exists k :: 0 <= k < |targets| && targets[k].prefix >= u.prefix && Contains(targets[k], v)
  }

  ghost predicate Closed(targets: seq<Network>) {
    forall i, j :: 0 <= i < |targets| && 0 <= j < |targets| && targets[i].prefix < targets[j].prefix ==>
      Covered(targets, targets[i], targets[j])
  }

  /** Every image of an image of v is an image of v. */
  ghost predicate RowClosed(v: nat, targets: seq<Network>) {
    forall i, j :: 0 <= i < |targets| && 0 <= j < |targets| ==>
      Place(Place(v, targets[j]), targets[i]) in Row(v, targets)
  }

  lemma CoveredIsPlaced(v: nat, targets: seq<Network>, v6: bool, i: nat, j: nat)
    requires OneFamily(targets, v6) && i < |targets| && j < |targets| && targets[i].prefix < targets[j].prefix
    requires Covered(targets, targets[i], targets[j])
    ensures Place(Place(v, targets[j]), targets[i]) in Row(v, targets)
  {
    var t, u := targets[i], targets[j];
    var z := Place(Place(v, u), t);
    MovedIsInPlace(v, t, u);
    assert InSmaller(targets, u, z);
    var k :| 0 <= k < |targets| && targets[k].prefix >= u.prefix && Contains(targets[k], z);
    CornerKeepsHost(v, t, u, targets[k]);
    assert Row(v, targets)[k] == z;
  }

  lemma MovedIsInPlace(v: nat, t: Network, u: Network)
    requires t.Valid() && u.Valid() && t.v6 == u.v6 && t.prefix < u.prefix
    ensures Corner(t, u) <= Place(Place(v, u), t) < Corner(t, u) + HostSize(u)
  {
    PlaceTwiceLarge(v, u, t);
  }

  lemma ContainedIsPlaced(z: nat, w: Network)
    requires w.Valid() && Contains(w, z)
    ensures Place(z, w) == z
  {
    AboveMultiple(w.base, z, HostSize(w));
  }

  /** A network w not larger than u that contains the moved value contains it where v itself would be placed. */
  lemma CornerKeepsHost(v: nat, t: Network, u: Network, w: Network)
    requires t.Valid() && u.Valid() && w.Valid() && t.v6 == u.v6 == w.v6 && t.prefix < u.prefix <= w.prefix
    requires Contains(w, Place(Place(v, u), t))
    ensures Place(v, w) == Place(Place(v, u), t)
  {
    ContainedIsPlaced(Place(Place(v, u), t), w);
    PlaceTwiceSmall(Place(v, u), t, w);
    PlaceTwiceSmall(v, u, w);
  }

  lemma ClosedRows(v: nat, targets: seq<Network>, v6: bool)
    requires OneFamily(targets, v6) && Closed(targets)
    ensures RowClosed(v, targets)
  {
    forall i, j | 0 <= i < |targets| && 0 <= j < |targets|
      ensures Place(Place(v, targets[j]), targets[i]) in Row(v, targets)
    {
      if targets[j].prefix <= targets[i].prefix {
        PlaceTwiceSmall(v, targets[j], targets[i]);
        assert Row(v, targets)[i] == Place(v, targets[i]);
      } else {
        CoveredIsPlaced(v, targets, v6, i, j);
      }
    }
  }

  /** The value with host part x whose next bit differs from that of the place z. */
  function Witness(x: nat, z: nat, h: nat): (v: nat)
    requires h > 0
    ensures v == x || v == x + h
  {
    if (z / h) % 2 == 0 then x + h else x
  }

  /** A multiple of 2h never makes up for the differing bit. */
  lemma WitnessDiffers(b: nat, x: nat, z: nat, h: nat, n: nat)
    requires h > 0 && b % (2 * h) == 0 && x < h && 2 * h <= n
    ensures b + Witness(x, z, h) % n != z + x
  {
    var v := Witness(x, z, h);
    QuotientIsUnique(v, 0, v, n);
    if b + v == z + x {
      OddOrEven(b, h, z);
    }
  }

  lemma OddOrEven(b: nat, h: nat, z: nat)
    requires h > 0 && b % (2 * h) == 0
    requires z == b || z == b + h
    ensures (z / h) % 2 == if z == b then 0 else 1
  {
    var k := b / (2 * h);
    NestedProduct(k, h, 2);
    QuotientIsUnique(z, if z == b then k * 2 else k * 2 + 1, 0, h);
  }

  lemma LargerIsTwice(w: Network, u: Network)
    requires w.Valid() && u.Valid() && w.v6 == u.v6 && w.prefix < u.prefix
    ensures w.base % (2 * HostSize(u)) == 0 && 2 * HostSize(u) <= HostSize(w) <= Pow2(w.Width())
  {
    var e, f := u.Width() - u.prefix, w.Width() - w.prefix;
    assert Pow2(e + 1) == 2 * Pow2(e);
    Pow2Monotone(e + 1, f);
    Pow2Monotone(f, w.Width());
    DividesDown(w.base, e + 1, f);
  }

  lemma DividesDown(b: nat, e: nat, f: nat)
    requires e <= f && b % Pow2(f) == 0
    ensures b % Pow2(e) == 0
  {
    var c := Pow2Divides(e, f);
    ModuloOfModulo(b, Pow2(e), c);
  }

  /** Only targets no larger than u can hold the witness at the moved place. */
  lemma WitnessIsSmall(w: Network, u: Network, x: nat, z: nat)
    requires u.Valid() && w.Valid() && u.v6 == w.v6 && x < HostSize(u)
    requires Place(Witness(x, z, HostSize(u)), w) == z + x
    ensures w.prefix >= u.prefix
  {
    if w.prefix < u.prefix {
      LargerIsTwice(w, u);
      WitnessDiffers(w.base, x, z, HostSize(u), HostSize(w));
    }
  }

  lemma WitnessHost(x: nat, z: nat, u: Network)
    requires x < HostSize(u)
    ensures Witness(x, z, HostSize(u)) % HostSize(u) == x
  {
    var v := Witness(x, z, HostSize(u));
    QuotientIsUnique(v, if v == x then 0 else 1, x, HostSize(u));
  }

  /** A value in range that is first placed in u and then moved to z. */
  lemma WitnessIsMoved(t: Network, u: Network, z: nat) returns (v: nat)
    requires t.Valid() && u.Valid() && t.v6 == u.v6 && t.prefix < u.prefix
    requires Corner(t, u) <= z < Corner(t, u) + HostSize(u)
    ensures v == Witness(z - Corner(t, u), Corner(t, u), HostSize(u)) && v < Pow2(u.Width())
    ensures Place(Place(v, u), t) == z
  {
    var x := z - Corner(t, u);
    v := Witness(x, Corner(t, u), HostSize(u));
    LargerIsTwice(t, u);
    WitnessHost(x, Corner(t, u), u);
    PlaceTwiceLarge(v, u, t);
  }

  lemma ClosedAt(v: nat, targets: seq<Network>, i: nat, j: nat, z: nat) returns (k: nat)
    requires RowClosed(v, targets) && i < |targets| && j < |targets| && z == Place(Place(v, targets[j]), targets[i])
    ensures k < |targets| && Place(v, targets[k]) == z
  {
    assert z in Row(v, targets);
    k :| 0 <= k < |targets| && Row(v, targets)[k] == z;
  }

  lemma SmallHolds(w: Network, t: Network, u: Network, z: nat, v: nat)
    requires u.Valid() && w.Valid() && u.v6 == w.v6 && Corner(t, u) <= z < Corner(t, u) + HostSize(u)
    requires v == Witness(z - Corner(t, u), Corner(t, u), HostSize(u)) && Place(v, w) == z
    ensures w.prefix >= u.prefix && Contains(w, z)
  {
    WitnessIsSmall(w, u, z - Corner(t, u), Corner(t, u));
    PlaceLandsInTarget(v, w);
  }

  ghost predicate InRange(vs: seq<nat>, v6: bool) {
    forall i :: 0 <= i < |vs| ==> vs[i] < Pow2(if v6 then 128 else 32)
  }

  /** A second expansion has no address the first did not have, for any list of addresses. */
  ghost predicate AddsNothing(targets: seq<Network>, v6: bool) {
    forall vs, x :: InRange(vs, v6) && x in Expanded(Expanded(vs, targets), targets) ==> x in Expanded(vs, targets)
  }

  lemma RowClosedAddsNothing(vs: seq<nat>, targets: seq<Network>, x: nat)
    requires forall i :: 0 <= i < |vs| ==> RowClosed(vs[i], targets)
    requires x in Expanded(Expanded(vs, targets), targets)
    ensures x in Expanded(vs, targets)
  {
    var e := Expanded(vs, targets);
    ExpansionIsExact(e, targets, x);
    var n, k :| 0 <= n < |e| && 0 <= k < |targets| && x == Place(e[n], targets[k]);
    ExpansionIsExact(vs, targets, e[n]);
    var i, j :| 0 <= i < |vs| && 0 <= j < |targets| && e[n] == Place(vs[i], targets[j]);
    assert x in Row(vs[i], targets);
    var l :| 0 <= l < |targets| && x == Row(vs[i], targets)[l];
    ExpansionIsExact(vs, targets, x);
  }

  lemma ClosedAddsNothing(vs: seq<nat>, targets: seq<Network>, v6: bool, x: nat)
    requires OneFamily(targets, v6) && Closed(targets) && x in Expanded(Expanded(vs, targets), targets)
    ensures x in Expanded(vs, targets)
  {
    forall i | 0 <= i < |vs| ensures RowClosed(vs[i], targets) { ClosedRows(vs[i], targets, v6); }
    RowClosedAddsNothing(vs, targets, x);
  }

  lemma AddsNothingClosesRows(v: nat, targets: seq<Network>, v6: bool)
    requires AddsNothing(targets, v6) && v < Pow2(if v6 then 128 else 32)
    ensures RowClosed(v, targets)
  {
    forall i, j | 0 <= i < |targets| && 0 <= j < |targets|
      ensures Place(Place(v, targets[j]), targets[i]) in Row(v, targets)
    {
      var y := Place(v, targets[j]);
      var x := Place(y, targets[i]);
      assert InRange([v], v6);
      ExpansionIsExact([v], targets, y);
      assert [v][0] == v;
      var e := Expanded([v], targets);
      var n :| 0 <= n < |e| && e[n] == y;
      ExpansionIsExact(e, targets, x);
      ExpansionIsExact([v], targets, x);
      var a, k :| 0 <= a < |[v]| && 0 <= k < |targets| && x == Place([v][a], targets[k]);
      assert Row(v, targets)[k] == x;
    }
  }

  /** If nothing is ever added, some target places the witness itself at z. */
  lemma MovedIsHeld(targets: seq<Network>, v6: bool, i: nat, j: nat, z: nat) returns (v: nat, k: nat)
    requires OneFamily(targets, v6) && i < |targets| && j < |targets| && targets[i].prefix < targets[j].prefix
    requires AddsNothing(targets, v6)
    requires Corner(targets[i], targets[j]) <= z < Corner(targets[i], targets[j]) + HostSize(targets[j])
    ensures var c := Corner(targets[i], targets[j]); v == Witness(z - c, c, HostSize(targets[j]))
    ensures k < |targets| && Place(v, targets[k]) == z
  {
    v := WitnessIsMoved(targets[i], targets[j], z);
    AddsNothingClosesRows(v, targets, v6);
    k := ClosedAt(v, targets, i, j, z);
  }

  lemma CoverIsNeeded(targets: seq<Network>, v6: bool, i: nat, j: nat, z: nat)
    requires OneFamily(targets, v6) && i < |targets| && j < |targets| && targets[i].prefix < targets[j].prefix
    requires AddsNothing(targets, v6)
    requires Corner(targets[i], targets[j]) <= z < Corner(targets[i], targets[j]) + HostSize(targets[j])
    ensures InSmaller(targets, targets[j], z)
  {
    var v, k := MovedIsHeld(targets, v6, i, j, z);
    SmallHolds(targets[k], targets[i], targets[j], z, v);
  }

  /**
    Expanding twice adds no address, whatever the addresses, exactly when the targets are closed: wherever a
    smaller target would be moved to inside a larger one, targets no larger than it cover the place.
   */
  lemma AddsNothingIff(targets: seq<Network>, v6: bool)
    requires OneFamily(targets, v6)
    ensures AddsNothing(targets, v6) <==> Closed(targets)
  {
    if Closed(targets) {
      forall vs, x | InRange(vs, v6) && x in Expanded(Expanded(vs, targets), targets)
        ensures x in Expanded(vs, targets)
      {
        ClosedAddsNothing(vs, targets, v6, x);
      }
    }
    if AddsNothing(targets, v6) {
      forall i, j | 0 <= i < |targets| && 0 <= j < |targets| && targets[i].prefix < targets[j].prefix
        ensures Covered(targets, targets[i], targets[j])
      {
        var corner := Corner(targets[i], targets[j]);
        forall z: nat | corner <= z < corner + HostSize(targets[j]) ensures InSmaller(targets, targets[j], z) {
          CoverIsNeeded(targets, v6, i, j, z);
        }
      }
    }
  }

  /** u lies inside t. */
  ghost predicate Inside(u: Network, t: Network) {
    t.base <= u.base && u.base + HostSize(u) <= t.base + HostSize(t)
  }

  /** The one with the longer prefix lies inside the other. */
  ghost predicate Nested(t: Network, u: Network) {
    if t.prefix < u.prefix then Inside(u, t) else Inside(t, u)
  }

  /** Inside the larger network, being moved there changes nothing. */
  lemma InsideIff(u: Network, t: Network)
    requires t.Valid() && u.Valid() && t.v6 == u.v6 && t.prefix < u.prefix
    ensures Inside(u, t) <==> Corner(t, u) == u.base
  {
    PlaceTwiceLarge(0, u, t);
    if Inside(u, t) {
      AboveMultiple(t.base, u.base, HostSize(t));
    }
  }

  /** Pairwise nested targets are closed, so they never add an address. */
  lemma NestedAddsNothing(targets: seq<Network>, v6: bool)
    requires OneFamily(targets, v6)
    requires forall i, j :: 0 <= i < |targets| && 0 <= j < |targets| && targets[i].prefix < targets[j].prefix ==>
      Inside(targets[j], targets[i])
    ensures AddsNothing(targets, v6)
  {
    forall i, j | 0 <= i < |targets| && 0 <= j < |targets| && targets[i].prefix < targets[j].prefix
      ensures Covered(targets, targets[i], targets[j])
    {
      InsideIff(targets[j], targets[i]);
      forall z: nat | Corner(targets[i], targets[j]) <= z < Corner(targets[i], targets[j]) + HostSize(targets[j])
        ensures InSmaller(targets, targets[j], z)
      {
        assert Contains(targets[j], z);
      }
    }
    AddsNothingIff(targets, v6);
  }

  // ---------- When the second expansion is the identical list ----------

  /** The target has a shorter prefix than all before it. */
  ghost predicate IsRecord(targets: seq<Network>, j: nat)
    requires j < |targets|
  {
    forall i :: 0 <= i < j ==> targets[j].prefix < targets[i].prefix
  }

  /** From a record on, every prefix is shorter than all before the record. */
  ghost predicate Descends(targets: seq<Network>) {
    forall i, j, k :: 0 <= i < j < k < |targets| && IsRecord(targets, j) ==> targets[k].prefix < targets[i].prefix
  }

  /** The last record: the first of the targets with the shortest prefix. */
  function LastRecord(targets: seq<Network>): (s: nat)
    requires targets != []
    ensures s < |targets| && IsRecord(targets, s)
    ensures forall k :: 0 <= k < |targets| ==> targets[s].prefix <= targets[k].prefix
  {
    var n := |targets| - 1;
    if n == 0 then 0
    else
      var s := LastRecord(targets[..n]);
      if targets[n].prefix < targets[s].prefix then n else s
  }

  /** All targets before s are smaller than all from s on. */
  ghost predicate SmallerBefore(targets: seq<Network>, s: nat) {
    forall i, k :: 0 <= i < s <= k < |targets| ==> targets[k].prefix < targets[i].prefix
  }

  lemma RecordSplits(targets: seq<Network>, s: nat)
    requires Descends(targets) && s < |targets| && IsRecord(targets, s)
    ensures SmallerBefore(targets, s)
  {
  }

  lemma DescendsBefore(targets: seq<Network>, s: nat)
    requires Descends(targets) && s <= |targets|
    ensures Descends(targets[..s])
  {
    var r := targets[..s];
    forall i, j, k | 0 <= i < j < k < |r| && IsRecord(r, j) ensures r[k].prefix < r[i].prefix {
      assert forall h :: 0 <= h < j ==> targets[h] == r[h];
      assert IsRecord(targets, j);
    }
  }

  lemma CoveredBefore(targets: seq<Network>, s: nat, j: nat, z: nat)
    requires SmallerBefore(targets, s) && j < s <= |targets| && InSmaller(targets, targets[j], z)
    ensures InSmaller(targets[..s], targets[j], z)
  {
    var k :| 0 <= k < |targets| && targets[k].prefix >= targets[j].prefix && Contains(targets[k], z);
    assert k < s && targets[..s][k] == targets[k];
  }

  lemma ClosedBefore(targets: seq<Network>, s: nat)
    requires Closed(targets) && SmallerBefore(targets, s) && s <= |targets|
    ensures Closed(targets[..s])
  {
    var r := targets[..s];
    forall i, j | 0 <= i < |r| && 0 <= j < |r| && r[i].prefix < r[j].prefix ensures Covered(r, r[i], r[j]) {
      assert Covered(targets, targets[i], targets[j]);
      forall z: nat | Corner(r[i], r[j]) <= z < Corner(r[i], r[j]) + HostSize(r[j]) ensures InSmaller(r, r[j], z) {
        CoveredBefore(targets, s, j, z);
      }
    }
  }

  /** Moving an image into a larger target gives an image in a target that is not larger. */
  lemma MovedAmongSmaller(v: nat, targets: seq<Network>, v6: bool, i: nat, k: nat) returns (m: nat)
    requires OneFamily(targets, v6) && i < |targets| && k < |targets| && targets[k].prefix < targets[i].prefix
    requires Covered(targets, targets[k], targets[i])
    ensures m < |targets| && targets[m].prefix >= targets[i].prefix
    ensures Place(Place(v, targets[i]), targets[m]) == Place(Place(v, targets[i]), targets[k])
  {
    var t, u := targets[k], targets[i];
    var z := Place(Place(v, u), t);
    MovedIsInPlace(v, t, u);
    assert InSmaller(targets, u, z);
    m :| 0 <= m < |targets| && targets[m].prefix >= u.prefix && Contains(targets[m], z);
    CornerKeepsHost(v, t, u, targets[m]);
    PlaceTwiceSmall(v, u, targets[m]);
  }

  /** The images of a value in the targets before s have no new images in the targets from s on. */
  lemma NothingNewBehind(v: nat, targets: seq<Network>, v6: bool, s: nat, y: nat, z: nat)
    requires OneFamily(targets, v6) && Closed(targets) && s <= |targets| && SmallerBefore(targets, s)
    requires y in Row(v, targets[..s]) && z in Row(y, targets[s..])
    ensures z in Row(y, targets[..s])
  {
    var i :| 0 <= i < s && y == Row(v, targets[..s])[i];
    var k :| 0 <= k < |targets| - s && z == Row(y, targets[s..])[k];
    var m := MovedAmongSmaller(v, targets, v6, i, s + k);
    assert m < s;
    assert Row(y, targets[..s])[m] == z;
  }

  lemma RowSplits(targets: seq<Network>, s: nat)
    requires s <= |targets|
    ensures Parts(RowOf(targets), RowOf(targets[..s]), RowOf(targets[s..]))
  {
    forall x: nat ensures RowOf(targets)(x) == RowOf(targets[..s])(x) + RowOf(targets[s..])(x) {
      assert Row(x, targets) == Row(x, targets[..s]) + Row(x, targets[s..]);
    }
  }

  /** The image in the largest target has the same row as the value. */
  lemma LargestKeepsRow(v: nat, targets: seq<Network>, v6: bool, s: nat)
    requires OneFamily(targets, v6) && s < |targets|
    requires forall k :: 0 <= k < |targets| ==> targets[s].prefix <= targets[k].prefix
    ensures Row(Place(v, targets[s]), targets) == Row(v, targets)
  {
    forall k | 0 <= k < |targets| ensures Row(Place(v, targets[s]), targets)[k] == Row(v, targets)[k] {
      PlaceTwiceSmall(v, targets[s], targets[k]);
    }
  }

  lemma ClosedRow(v: nat, targets: seq<Network>, v6: bool, y: nat, z: nat)
    requires OneFamily(targets, v6) && Closed(targets) && y in Row(v, targets) && z in Row(y, targets)
    ensures z in Row(v, targets)
  {
    ClosedRows(v, targets, v6);
    var j :| 0 <= j < |targets| && y == Row(v, targets)[j];
    var i :| 0 <= i < |targets| && z == Row(y, targets)[i];
    assert z == Place(Place(v, targets[j]), targets[i]);
  }

  /** A single value settles: by the targets before the last record, then by those from it on. */
  lemma {:induction false} ValueSettles(v: nat, targets: seq<Network>, v6: bool)
    requires OneFamily(targets, v6) && Closed(targets) && Descends(targets)
    ensures Alone(v, RowOf(targets))
    decreases |targets|
  {
    if targets == [] {
      assert RowOf(targets)(v) == [];
    } else {
      var s := LastRecord(targets);
      var row, r1, r2 := RowOf(targets), RowOf(targets[..s]), RowOf(targets[s..]);
      RecordSplits(targets, s);
      DescendsBefore(targets, s);
      ClosedBefore(targets, s);
      ValueSettles(v, targets[..s], v6);
      RowSplits(targets, s);
      LargestKeepsRow(v, targets, v6, s);
      assert r2(v)[0] == Place(v, targets[s]);
      forall y, z | y in r1(v) && z in r2(y) ensures z in r1(y) {
        NothingNewBehind(v, targets, v6, s, y, z);
      }
      forall y, z | y in row(v) && z in row(y) ensures z in row(v) {
        ClosedRow(v, targets, v6, y, z);
      }
      PartsSettle(v, row, r1, r2);
    }
  }

  /** With closed targets that descend, a second expansion gives the identical list. */
  lemma DescendingSettles(vs: seq<nat>, targets: seq<Network>, v6: bool)
    requires OneFamily(targets, v6) && Closed(targets) && Descends(targets)
    ensures Expanded(Expanded(vs, targets), targets) == Expanded(vs, targets)
  {
    forall i | 0 <= i < |vs| ensures Alone(vs[i], RowOf(targets)) {
      ValueSettles(vs[i], targets, v6);
    }
    AloneDecides(vs, RowOf(targets));
  }

  /** So it is with closed targets of which the first has the shortest prefix. */
  lemma ShortestFirstSettles(vs: seq<nat>, targets: seq<Network>, v6: bool)
    requires OneFamily(targets, v6) && Closed(targets)
    requires forall k :: 0 <= k < |targets| ==> targets[0].prefix <= targets[k].prefix
    ensures Expanded(Expanded(vs, targets), targets) == Expanded(vs, targets)
  {
    forall j | 0 < j < |targets| ensures !IsRecord(targets, j) {
      assert !(targets[j].prefix < targets[0].prefix);
    }
    DescendingSettles(vs, targets, v6);
  }

  /** And with targets of one prefix length. */
  lemma SamePrefixSettles(vs: seq<nat>, targets: seq<Network>, v6: bool)
    requires OneFamily(targets, v6)
    requires forall i, j :: 0 <= i < |targets| && 0 <= j < |targets| ==> targets[i].prefix == targets[j].prefix
    ensures Expanded(Expanded(vs, targets), targets) == Expanded(vs, targets)
  {
    ShortestFirstSettles(vs, targets, v6);
  }

  /** A second expansion gives the identical list, whatever the addresses. */
  ghost predicate Settles(targets: seq<Network>, v6: bool) {
    forall vs :: InRange(vs, v6) ==> Expanded(Expanded(vs, targets), targets) == Expanded(vs, targets)
  }

  /** Lists settle exactly when single addresses do. */
  lemma SinglesDecide(targets: seq<Network>, v6: bool)
    ensures Settles(targets, v6) <==>
      forall v: nat :: InRange([v], v6) ==> Expanded(Expanded([v], targets), targets) == Expanded([v], targets)
  {
    if forall v: nat :: InRange([v], v6) ==> Expanded(Expanded([v], targets), targets) == Expanded([v], targets) {
      forall vs | InRange(vs, v6) ensures Expanded(Expanded(vs, targets), targets) == Expanded(vs, targets) {
        forall i | 0 <= i < |vs| ensures Alone(vs[i], RowOf(targets)) {
          assert InRange([vs[i]], v6);
          SingleImages(vs[i], RowOf(targets));
        }
        AloneDecides(vs, RowOf(targets));
      }
    }
  }

  lemma SettlesIsClosed(targets: seq<Network>, v6: bool)
    requires OneFamily(targets, v6) && Settles(targets, v6)
    ensures Closed(targets)
  {
    assert AddsNothing(targets, v6);
    AddsNothingIff(targets, v6);
  }

  /** Two targets of which one lies inside the other, in either order, or of one prefix length. */
  lemma NestedSettles(vs: seq<nat>, a: Network, b: Network)
    requires a.Valid() && b.Valid() && a.v6 == b.v6 && (a.prefix == b.prefix || Nested(a, b))
    ensures Expanded(Expanded(vs, [a, b]), [a, b]) == Expanded(vs, [a, b])
  {
    NestedAddsNothing([a, b], a.v6);
    AddsNothingIff([a, b], a.v6);
    DescendingSettles(vs, [a, b], a.v6);
  }

  lemma ClosedPairIsNested(a: Network, b: Network)
    requires a.Valid() && b.Valid() && a.v6 == b.v6 && a.prefix != b.prefix && Closed([a, b])
    ensures Nested(a, b)
  {
    if a.prefix < b.prefix {
      CoveredByItself([a, b], 0, 1);
    } else {
      CoveredByItself([a, b], 1, 0);
    }
  }

  /** For two targets: exactly when the prefixes are equal or the target with the longer one lies inside the other. */
  lemma TwoTargetsSettleIff(a: Network, b: Network)
    requires a.Valid() && b.Valid() && a.v6 == b.v6
    ensures Settles([a, b], a.v6) <==> a.prefix == b.prefix || Nested(a, b)
  {
    if a.prefix == b.prefix || Nested(a, b) {
      forall vs | InRange(vs, a.v6) ensures Expanded(Expanded(vs, [a, b]), [a, b]) == Expanded(vs, [a, b]) {
        NestedSettles(vs, a, b);
      }
    }
    if Settles([a, b], a.v6) && a.prefix != b.prefix {
      SettlesIsClosed([a, b], a.v6);
      ClosedPairIsNested(a, b);
    }
  }

  /** Of two targets only the smaller one can cover its own place. */
  lemma CoveredByItself(targets: seq<Network>, i: nat, j: nat)
    requires |targets| == 2 && i < 2 && j < 2 && OneFamily(targets, targets[0].v6)
    requires targets[i].prefix < targets[j].prefix && Covered(targets, targets[i], targets[j])
    ensures Inside(targets[j], targets[i])
  {
    var t, u := targets[i], targets[j];
    OnlyItself(targets, i, j, Corner(t, u));
    OnlyItself(targets, i, j, Corner(t, u) + (HostSize(u) - 1));
    InsideIff(u, t);
  }

  lemma OnlyItself(targets: seq<Network>, i: nat, j: nat, z: nat)
    requires |targets| == 2 && i < 2 && j < 2 && targets[i].prefix < targets[j].prefix
    requires Covered(targets, targets[i], targets[j])
    requires Corner(targets[i], targets[j]) <= z < Corner(targets[i], targets[j]) + HostSize(targets[j])
    ensures Contains(targets[j], z)
  {
    assert InSmaller(targets, targets[j], z);
  }

  // ---------- Concrete targets ----------

  lemma SmallSizes()
    ensures HostSize(Network(false, 0, 29)) == 8 && HostSize(Network(false, 0, 30)) == 4
    ensures HostSize(Network(false, 0, 31)) == 2 && HostSize(Network(false, 4, 30)) == 4 && Pow2(32) > 8
  {
    Pow2Monotone(4, 32);
    assert Pow2(1) == 2 && Pow2(2) == 4 && Pow2(3) == 8 && Pow2(4) == 16;
  }

  lemma SmallRows()
    ensures Row(3, [Network(false, 0, 31), Network(false, 4, 30)]) == [1, 7]
    ensures Row(1, [Network(false, 0, 31), Network(false, 4, 30)]) == [1, 5]
  {
    var a, b := Network(false, 0, 31), Network(false, 4, 30);
    SmallSizes();
    assert Place(3, a) == 1 && Place(3, b) == 7;
    assert Place(1, a) == 1 && Place(1, b) == 5;
  }

  lemma ThreeSmallRows()
    ensures var targets := [Network(false, 0, 30), Network(false, 0, 29), Network(false, 0, 31)];
      Row(7, targets) == [3, 7, 1] && Row(3, targets) == [3, 3, 1] && Row(1, targets) == [1, 1, 1]
  {
    var a, b, c := Network(false, 0, 30), Network(false, 0, 29), Network(false, 0, 31);
    SmallSizes();
    assert Place(7, a) == 3 && Place(7, b) == 7 && Place(7, c) == 1;
    assert Place(3, a) == 3 && Place(3, b) == 3 && Place(3, c) == 1;
    assert Place(1, a) == 1 && Place(1, b) == 1 && Place(1, c) == 1;
  }

  /** Neither target inside the other: a second expansion has a new address. */
  lemma MixedPrefixesCanGrow()
    ensures var targets := [Network(false, 0, 31), Network(false, 4, 30)];
      5 !in Expanded([3], targets) && 5 in Expanded(Expanded([3], targets), targets)
  {
    SmallRows();
    Grows(3, 1, 7, 5, RowOf([Network(false, 0, 31), Network(false, 4, 30)]));
  }

  /** Three targets, each inside the next larger one: no address is added, but the order changes. */
  lemma ThreeNestedCanReorder()
    ensures var targets := [Network(false, 0, 30), Network(false, 0, 29), Network(false, 0, 31)];
      Expanded([7], targets) == [3, 7, 1] && Expanded([3, 7, 1], targets) == [3, 1, 7]
  {
    ThreeSmallRows();
    Reorders(3, 7, 1, RowOf([Network(false, 0, 30), Network(false, 0, 29), Network(false, 0, 31)]));
  }
}
