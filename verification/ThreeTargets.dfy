/**
  When moving addresses into three networks twice gives the identical list: the targets must be closed, and the
  second must not be a larger one that the third overtakes.
 */
module ThreeTargets {
  import opened Prelude
  import opened Bits
  import opened FirstOccurrences
  import opened Rows
  import opened Expansion

  /** The second target is larger than the first, and the third is not larger than the first. */
  ghost predicate Dips(a: Network, b: Network, c: Network) {
    b.prefix < a.prefix <= c.prefix
  }

  /** a and c are the two halves of b. */
  ghost predicate Halves(a: Network, c: Network, b: Network) {
    a.prefix == c.prefix == b.prefix + 1 && a != c && Inside(a, b) && Inside(c, b)
  }

  /** The three images of the value are different. */
  ghost predicate AllDiffer(v: nat, a: Network, b: Network, c: Network) {
    Place(v, a) != Place(v, b) && Place(v, b) != Place(v, c) && Place(v, a) != Place(v, c)
  }

  ghost predicate ThreeValid(a: Network, b: Network, c: Network) {
    a.Valid() && b.Valid() && c.Valid() && a.v6 == b.v6 == c.v6
  }

  // ---------- The row of a value when the second target is the largest ----------

  /** Members of the row of the first image are that image and the third. */
  lemma FirstRow(v: nat, a: Network, b: Network, c: Network)
    requires ThreeValid(a, b, c) && Dips(a, b, c) && Closed([a, b, c])
    ensures var row, x, z := RowOf([a, b, c]), Place(v, a), Place(v, c);
      row(x)[0] == x && row(x)[2] == z && forall y :: y in row(x) ==> y == x || y == z
  {
    var targets := [a, b, c];
    PlaceTwiceSmall(v, a, a);
    PlaceTwiceSmall(v, a, c);
    assert Covered(targets, targets[1], targets[0]);
    var m := MovedAmongSmaller(v, targets, a.v6, 0, 1);
    assert m == 0 || m == 2;
  }

  lemma SecondRow(v: nat, a: Network, b: Network, c: Network)
    requires ThreeValid(a, b, c) && Dips(a, b, c)
    ensures RowOf([a, b, c])(Place(v, b)) == RowOf([a, b, c])(v)
  {
    LargestKeepsRow(v, [a, b, c], a.v6, 1);
  }

  lemma RowStays(v: nat, targets: seq<Network>, v6: bool)
    requires OneFamily(targets, v6) && Closed(targets)
    ensures forall y, z :: y in RowOf(targets)(v) && z in RowOf(targets)(y) ==> z in RowOf(targets)(v)
  {
    forall y, z | y in RowOf(targets)(v) && z in RowOf(targets)(y) ensures z in RowOf(targets)(v) {
      ClosedRow(v, targets, v6, y, z);
    }
  }

  /** If two of the three images coincide, the value settles. */
  lemma CoincidingSettles(v: nat, a: Network, b: Network, c: Network)
    requires ThreeValid(a, b, c) && Dips(a, b, c) && Closed([a, b, c])
    requires !AllDiffer(v, a, b, c)
    ensures Alone(v, RowOf([a, b, c]))
  {
    var row, x, y, z := RowOf([a, b, c]), Place(v, a), Place(v, b), Place(v, c);
    assert row(v) == [x, y, z];
    FirstRow(v, a, b, c);
    SecondRow(v, a, b, c);
    RowStays(v, [a, b, c], a.v6);
    if x == y {
      HeadSettles(v, row);
    } else if x == z {
      RepeatedFirstSettles(v, x, y, row);
    } else {
      RepeatedLastSettles(v, x, y, row);
    }
  }

  /** If all three differ, the third comes before the second. */
  lemma DistinctOvertakes(v: nat, a: Network, b: Network, c: Network)
    requires ThreeValid(a, b, c) && Dips(a, b, c) && Closed([a, b, c])
    requires AllDiffer(v, a, b, c)
    ensures !Alone(v, RowOf([a, b, c]))
  {
    var row, x, y, z := RowOf([a, b, c]), Place(v, a), Place(v, b), Place(v, c);
    assert row(v) == [x, y, z];
    FirstRow(v, a, b, c);
    Overtakes(v, x, y, z, row);
  }

  // ---------- When two images always coincide ----------

  lemma LowOrHigh(b: nat, a: nat, h: nat)
    requires h > 0 && b % h == 0 && a % h == 0 && b <= a <= b + h
    ensures a == b || a == b + h
  {
    if a < b + h {
      AboveMultiple(b, a, h);
    }
  }

  lemma HalfIsLowOrHigh(a: Network, b: Network)
    requires a.Valid() && b.Valid() && a.v6 == b.v6 && a.prefix == b.prefix + 1 && Inside(a, b)
    ensures HostSize(b) == 2 * HostSize(a) && (a.base == b.base || a.base == b.base + HostSize(a))
  {
    var e := a.Width() - a.prefix;
    assert Pow2(e + 1) == 2 * Pow2(e);
    DividesDown(b.base, e, e + 1);
    LowOrHigh(b.base, a.base, Pow2(e));
  }

  lemma HalvesCoincide(v: nat, a: Network, c: Network, b: Network)
    requires ThreeValid(a, b, c) && Halves(a, c, b)
    ensures Place(v, b) == Place(v, a) || Place(v, b) == Place(v, c)
  {
    HalfIsLowOrHigh(a, b);
    HalfIsLowOrHigh(c, b);
    HostOfDouble(v, HostSize(a));
  }

  lemma HostOfDouble(v: nat, h: nat)
    requires h > 0
    ensures v % (2 * h) == v % h || v % (2 * h) == v % h + h
  {
    var x := v % (2 * h);
    ModuloOfModulo(v, h, 2);
    if x < h {
      QuotientIsUnique(x, 0, x, h);
    } else {
      QuotientIsUnique(x, 1, x - h, h);
    }
  }

  // ---------- A value whose three images differ ----------

  /** Of two values with host part l, a step of h apart, one is moved out of an interval of length h. */
  lemma StepOut(b: nat, l: nat, lo: nat, h: nat) returns (v: nat)
    requires l < h
    ensures v < 2 * h && v % h == l && !(lo <= b + v < lo + h)
  {
    v := if lo <= b + l < lo + h then h + l else l;
    QuotientIsUnique(v, if v == l then 0 else 1, l, h);
  }

  /** The first and third target of one size: a value that misses both. */
  lemma DistinctOfOneSize(a: Network, b: Network, c: Network) returns (v: nat)
    requires ThreeValid(a, b, c) && b.prefix < a.prefix == c.prefix && a != c && !Halves(a, c, b)
    ensures v < Pow2(a.Width()) && AllDiffer(v, a, b, c)
  {
    var h := HostSize(a);
    LargerIsTwice(b, a);
    assert a.base != c.base;
    var q := FreeBlock(a, b, c);
    v := q * h;
    QuotientIsUnique(v, q, 0, h);
    QuotientIsUnique(v, 0, v, HostSize(b));
  }

  /** A block of b that is neither a nor c. */
  lemma FreeBlock(a: Network, b: Network, c: Network) returns (q: nat)
    requires ThreeValid(a, b, c) && b.prefix < a.prefix == c.prefix && a != c && !Halves(a, c, b)
    ensures q * HostSize(a) < HostSize(b) && b.base + q * HostSize(a) != a.base && b.base + q * HostSize(a) != c.base
  {
    var h := HostSize(a);
    LargerIsTwice(b, a);
    if b.base != a.base && b.base != c.base {
      q := 0;
    } else if b.base + h != a.base && b.base + h != c.base {
      q := 1;
    } else {
      q := 2;
      if a.prefix == b.prefix + 1 {
        HalvesFound(a, b, c);
        assert false;
      }
      QuarterFits(a, b);
    }
  }

  lemma HalvesFound(a: Network, b: Network, c: Network)
    requires ThreeValid(a, b, c) && a.prefix == c.prefix == b.prefix + 1 && a != c
    requires b.base == a.base || b.base == c.base
    requires b.base + HostSize(a) == a.base || b.base + HostSize(a) == c.base
    ensures Halves(a, c, b)
  {
    LargerIsTwice(b, a);
  }

  lemma QuarterFits(a: Network, b: Network)
    requires a.Valid() && b.Valid() && a.v6 == b.v6 && b.prefix + 2 <= a.prefix
    ensures 2 * HostSize(a) < HostSize(b)
  {
    var e := a.Width() - a.prefix;
    assert Pow2(e + 2) == 2 * Pow2(e + 1) && Pow2(e + 1) == 2 * Pow2(e);
    Pow2Monotone(e + 2, b.Width() - b.prefix);
  }

  /** A value with host part l in a that is placed outside a by b, and with host part 0 in c. */
  lemma InnerWitness(a: Network, b: Network, c: Network, l: nat) returns (v: nat)
    requires ThreeValid(a, b, c) && b.prefix < a.prefix < c.prefix && (l == 0 || l == HostSize(c))
    ensures v < HostSize(b) && v % HostSize(a) == l && v % HostSize(c) == 0
    ensures !Contains(a, b.base + v)
  {
    LargerIsTwice(b, a);
    LargerIsTwice(a, c);
    v := StepOut(b.base, l, a.base, HostSize(a));
    HostOfInner(a, c, v, l);
  }

  /** The third target inside the first: a value whose second image misses the first. */
  lemma DistinctInside(a: Network, b: Network, c: Network) returns (v: nat)
    requires ThreeValid(a, b, c) && b.prefix < a.prefix < c.prefix && Inside(c, a)
    ensures v < Pow2(a.Width()) && AllDiffer(v, a, b, c)
  {
    var l := if a.base == c.base then HostSize(c) else 0;
    v := InnerWitness(a, b, c, l);
    QuotientIsUnique(v, 0, v, HostSize(b));
    LargerIsTwice(b, a);
    InsideImages(v, a, c);
  }

  lemma InsideImages(v: nat, a: Network, c: Network)
    requires a.Valid() && c.Valid() && Inside(c, a)
    ensures Contains(a, Place(v, a)) && Contains(a, Place(v, c))
  {
    PlaceLandsInTarget(v, a);
    PlaceLandsInTarget(v, c);
  }

  lemma HostOfInner(a: Network, c: Network, v: nat, l: nat)
    requires a.Valid() && c.Valid() && a.v6 == c.v6 && a.prefix < c.prefix
    requires v % HostSize(a) == l && (l == 0 || l == HostSize(c))
    ensures v % HostSize(c) == 0
  {
    var n := SizesDivide(a, c);
    InnerHost(v, HostSize(c), n, l);
  }

  lemma InnerHost(v: nat, h: nat, n: nat, l: nat)
    requires h > 0 && n > 0 && h * n > 0 && v % (h * n) == l && (l == 0 || l == h)
    ensures v % h == 0
  {
    ModuloOfModulo(v, h, n);
    QuotientIsUnique(l, if l == 0 then 0 else 1, 0, h);
  }

  /** With closed targets the third, if smaller, lies inside the first. */
  lemma ThirdIsInside(a: Network, b: Network, c: Network)
    requires ThreeValid(a, b, c) && b.prefix < a.prefix < c.prefix && Closed([a, b, c])
    ensures Inside(c, a)
  {
    var targets := [a, b, c];
    assert Covered(targets, targets[0], targets[2]);
    OnlyThird(a, b, c, Corner(a, c));
    OnlyThird(a, b, c, Corner(a, c) + (HostSize(c) - 1));
    InsideIff(c, a);
  }

  lemma OnlyThird(a: Network, b: Network, c: Network, z: nat)
    requires b.prefix < a.prefix < c.prefix && Covered([a, b, c], a, c)
    requires Corner(a, c) <= z < Corner(a, c) + HostSize(c)
    ensures Contains(c, z)
  {
    assert InSmaller([a, b, c], c, z);
  }

  lemma DistinctValue(a: Network, b: Network, c: Network) returns (v: nat)
    requires ThreeValid(a, b, c) && Dips(a, b, c) && Closed([a, b, c]) && a != c && !Halves(a, c, b)
    ensures v < Pow2(a.Width()) && AllDiffer(v, a, b, c)
  {
    if a.prefix == c.prefix {
      v := DistinctOfOneSize(a, b, c);
    } else {
      ThirdIsInside(a, b, c);
      v := DistinctInside(a, b, c);
    }
  }

  // ---------- The exact condition ----------

  ghost predicate Orderly(a: Network, b: Network, c: Network) {
    Dips(a, b, c) ==> a == c || Halves(a, c, b)
  }

  lemma OrderlySettles(vs: seq<nat>, a: Network, b: Network, c: Network)
    requires ThreeValid(a, b, c) && Closed([a, b, c]) && Orderly(a, b, c)
    ensures Expanded(Expanded(vs, [a, b, c]), [a, b, c]) == Expanded(vs, [a, b, c])
  {
    var targets := [a, b, c];
    if Dips(a, b, c) {
      forall i | 0 <= i < |vs| ensures Alone(vs[i], RowOf(targets)) {
        if Halves(a, c, b) {
          HalvesCoincide(vs[i], a, c, b);
        }
        CoincidingSettles(vs[i], a, b, c);
      }
      AloneDecides(vs, RowOf(targets));
    } else {
      NoDipDescends(a, b, c);
      DescendingSettles(vs, targets, a.v6);
    }
  }

  lemma NoDipDescends(a: Network, b: Network, c: Network)
    requires !Dips(a, b, c)
    ensures Descends([a, b, c])
  {
    var targets := [a, b, c];
    if b.prefix >= a.prefix {
      assert !IsRecord(targets, 1) by { assert !(targets[1].prefix < targets[0].prefix); }
    }
  }

  /**
    For three targets a second expansion gives the identical list for all addresses exactly when the targets are
    closed, and the second is not a larger one that the third overtakes, unless the first and third are the same
    or the two halves of the second.
   */
  lemma ThreeTargetsSettleIff(a: Network, b: Network, c: Network)
    requires ThreeValid(a, b, c)
    ensures Settles([a, b, c], a.v6) <==> Closed([a, b, c]) && Orderly(a, b, c)
  {
    var targets := [a, b, c];
    assert OneFamily(targets, a.v6);
    if Closed(targets) && Orderly(a, b, c) {
      forall vs | InRange(vs, a.v6) ensures Expanded(Expanded(vs, targets), targets) == Expanded(vs, targets) {
        OrderlySettles(vs, a, b, c);
      }
    }
    if Settles(targets, a.v6) {
      SettlesIsClosed(targets, a.v6);
      if !Orderly(a, b, c) {
        var v := DistinctValue(a, b, c);
        DistinctOvertakes(v, a, b, c);
        SingleImages(v, RowOf(targets));
        assert InRange([v], a.v6);
        assert false;
      }
    }
  }
}
