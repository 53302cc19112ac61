/** Choosing the addresses of a reply by measured round-trip time, and reserving addresses for measurement. */
module SpeedTest {
  import opened Prelude
  import opened FirstOccurrences

  /** A round-trip time in milliseconds; addresses that must not be measured count as infinite. */
  datatype Rtt = Finite(ms: real) | Infinite

  /** A measured candidate with its position among the candidates. */
  datatype Item = Item(ip: string, rtt: Rtt, rank: nat)

  // ---------- Order ----------

  predicate RttLess(a: Rtt, b: Rtt) {
    a.Finite? && (b.Infinite? || a.ms < b.ms)
  }

  /** By time, then by candidate order. */
  predicate Precedes(a: Item, b: Item) {
    RttLess(a.rtt, b.rtt) || (a.rtt == b.rtt && a.rank < b.rank)
  }

  ghost predicate InOrder(s: seq<Item>) {
    forall i, j :: 0 <= i < j < |s| ==> Precedes(s[i], s[j])
  }

  ghost predicate RanksDiffer(s: seq<Item>) {
    forall i, j :: 0 <= i < j < |s| ==> s[i].rank != s[j].rank
  }

  function Insert(s: seq<Item>, x: Item): (r: seq<Item>)
    ensures |r| == |s| + 1 && multiset(r) == multiset(s) + multiset{x}
  {
    if s == [] || Precedes(x, s[0]) then [x] + s
    else
      assert s == [s[0]] + s[1..];
      [s[0]] + Insert(s[1..], x)
  }

  function Sorted(s: seq<Item>): (r: seq<Item>)
    ensures |r| == |s| && multiset(r) == multiset(s)
  {
    if s == [] then []
    else
      assert s == Init(s) + [Last(s)];
      Insert(Sorted(Init(s)), Last(s))
  }

  lemma InsertMembers(s: seq<Item>, x: Item, y: Item)
    requires y in Insert(s, x)
    ensures y == x || y in s
  {
    assert y in multiset(Insert(s, x));
  }

  lemma {:induction false} InsertKeepsOrder(s: seq<Item>, x: Item)
    requires InOrder(s) && forall i :: 0 <= i < |s| ==> s[i].rank != x.rank
    ensures InOrder(Insert(s, x))
  {
    if s != [] && !Precedes(x, s[0]) {
      InsertKeepsOrder(s[1..], x);
      var rest := Insert(s[1..], x);
      forall k | 0 <= k < |rest| ensures Precedes(s[0], rest[k]) {
        InsertMembers(s[1..], x, rest[k]);
      }
    }
  }

  lemma {:induction false} SortedIsInOrder(s: seq<Item>)
    requires RanksDiffer(s)
    ensures InOrder(Sorted(s))
    decreases |s|
  {
    if s != [] {
      SortedIsInOrder(Init(s));
      var sorted := Sorted(Init(s));
      forall i | 0 <= i < |sorted| ensures sorted[i].rank != Last(s).rank {
        assert sorted[i] in multiset(Init(s));
      }
      InsertKeepsOrder(sorted, Last(s));
    }
  }

  lemma HeadIsLeast(a: seq<Item>, x: Item)
    requires InOrder(a) && x in a
    ensures x == a[0] || Precedes(a[0], x)
  {
  }

  lemma TailWithoutHead(a: seq<Item>)
    requires a != []
    ensures multiset(a[1..]) == multiset(a) - multiset{a[0]}
  {
    assert a == [a[0]] + a[1..];
  }

  lemma SameHead(a: seq<Item>, b: seq<Item>)
    requires InOrder(a) && InOrder(b) && multiset(a) == multiset(b) && a != []
    ensures b != [] && a[0] == b[0]
  {
    assert a[0] in multiset(b);
    assert b[0] in multiset(a);
    HeadIsLeast(a, b[0]);
    HeadIsLeast(b, a[0]);
  }

  /** Sequences in order with the same members are equal: the sort does not depend on where it starts from. */
  lemma {:induction false} OrderIsUnique(a: seq<Item>, b: seq<Item>)
    requires InOrder(a) && InOrder(b) && multiset(a) == multiset(b)
    ensures a == b
    decreases |a|
  {
    assert |multiset(a)| == |multiset(b)|;
    if a != [] {
      SameHead(a, b);
      TailWithoutHead(a);
      TailWithoutHead(b);
      OrderIsUnique(a[1..], b[1..]);
      assert a == [a[0]] + a[1..] && b == [b[0]] + b[1..];
    }
  }

  /** However the items are listed, sorting them gives the same sequence. */
  lemma SortIgnoresListing(a: seq<Item>, b: seq<Item>)
    requires RanksDiffer(a) && RanksDiffer(b) && multiset(a) == multiset(b)
    ensures Sorted(a) == Sorted(b)
  {
    SortedIsInOrder(a);
    SortedIsInOrder(b);
    OrderIsUnique(Sorted(a), Sorted(b));
  }

  // ---------- Floating-point differences ----------

  /** a - best <= tolerance; the difference of two infinities is not a number and compares false. */
  predicate Within(a: Rtt, best: Rtt, tolerance: real) {
    a.Finite? && (best.Infinite? || a.ms - best.ms <= tolerance)
  }

  /** a - b > threshold, likewise. */
  predicate Jumps(a: Rtt, b: Rtt, threshold: real) {
    b.Finite? && (a.Infinite? || a.ms - b.ms > threshold)
  }

  // ---------- Selection ----------

  /** The items up to the first that is out of tolerance of the best; all of them when none is in tolerance. */
  method FilterByTolerance(sorted: seq<Item>, tolerance: real) returns (r: seq<Item>)
    ensures sorted != [] && !Within(sorted[0].rtt, sorted[0].rtt, tolerance) ==> r == sorted
    ensures sorted == [] || Within(sorted[0].rtt, sorted[0].rtt, tolerance) ==>
      && r <= sorted && (forall i :: 0 <= i < |r| ==> Within(sorted[i].rtt, sorted[0].rtt, tolerance))
      && (|r| < |sorted| ==> !Within(sorted[|r|].rtt, sorted[0].rtt, tolerance))
  {
    r := [];
    var i := 0;
    while i < |sorted|
      invariant 0 <= i <= |sorted| && r == sorted[..i]
      invariant forall j :: 0 <= j < i ==> Within(sorted[j].rtt, sorted[0].rtt, tolerance)
    {
      if !Within(sorted[i].rtt, sorted[0].rtt, tolerance) {
        break;
      }
      r := r + [sorted[i]];
      i := i + 1;
    }
    if r == [] {
      r := sorted;
    }
  }

  /** The items up to the first jump. */
  method CutAtGap(items: seq<Item>, threshold: real) returns (r: seq<Item>)
    ensures r <= items && (items != [] ==> r != [])
    ensures forall i :: 0 < i < |r| ==> !Jumps(items[i].rtt, items[i - 1].rtt, threshold)
    ensures 0 < |r| < |items| ==> Jumps(items[|r|].rtt, items[|r| - 1].rtt, threshold)
  {
    r := [];
    var i := 0;
    while i < |items|
      invariant 0 <= i <= |items| && r == items[..i]
      invariant forall j :: 0 < j < i ==> !Jumps(items[j].rtt, items[j - 1].rtt, threshold)
    {
      if i > 0 && Jumps(items[i].rtt, items[i - 1].rtt, threshold) {
        break;
      }
      r := r + [items[i]];
      i := i + 1;
    }
  }

  /** The first n items are acceptable: in tolerance of the best, or nothing is finite, and without a jump. */
  ghost predicate Acceptable(s: seq<Item>, n: nat, tolerance: real, threshold: real)
    requires n <= |s|
  {
    && (forall i :: 0 <= i < n ==> s[0].rtt.Infinite? || Within(s[i].rtt, s[0].rtt, tolerance))
    && (forall i :: 0 < i < n ==> !Jumps(s[i].rtt, s[i - 1].rtt, threshold))
  }

  /** n is the length of the longest acceptable prefix. */
  ghost predicate IsLongest(s: seq<Item>, n: nat, tolerance: real, threshold: real) {
    && n <= |s| && Acceptable(s, n, tolerance, threshold)
    && forall m :: n < m <= |s| ==> !Acceptable(s, m, tolerance, threshold)
  }

  function Min(a: nat, b: nat): nat { if a < b then a else b }

  /** The longest acceptable prefix of the sorted items, cut to the limit. */
  ghost predicate IsSelection(r: seq<Item>, s: seq<Item>, tolerance: real, threshold: real, limit: nat) {
    exists n: nat :: IsLongest(s, n, tolerance, threshold) && r == s[..Min(n, limit)]
  }

  /** The items and the settings determine the selection, however the items are listed. */
  lemma SelectionIsDetermined(a: seq<Item>, b: seq<Item>, r: seq<Item>, q: seq<Item>, tolerance: real,
      threshold: real, limit: nat)
    requires RanksDiffer(a) && RanksDiffer(b) && multiset(a) == multiset(b)
    requires IsSelection(r, Sorted(a), tolerance, threshold, limit)
    requires IsSelection(q, Sorted(b), tolerance, threshold, limit)
    ensures r == q
  {
    SortIgnoresListing(a, b);
    var s := Sorted(a);
    var n: nat :| IsLongest(s, n, tolerance, threshold) && r == s[..Min(n, limit)];
    var m: nat :| IsLongest(s, m, tolerance, threshold) && q == s[..Min(m, limit)];
    LongestIsUnique(s, n, m, tolerance, threshold);
  }

  lemma LongestIsUnique(s: seq<Item>, n: nat, m: nat, tolerance: real, threshold: real)
    requires IsLongest(s, n, tolerance, threshold) && IsLongest(s, m, tolerance, threshold)
    ensures n == m
  {
  }

  method Select(items: seq<Item>, tolerance: real, threshold: real, limit: nat) returns (r: seq<Item>)
    requires RanksDiffer(items) && tolerance >= 0.0 && limit >= 1
    ensures IsSelection(r, Sorted(items), tolerance, threshold, limit)
    ensures items != [] ==> r != []
    ensures InOrder(r) && |r| <= limit
  {
    SortedIsInOrder(items);
    r := SelectSorted(Sorted(items), tolerance, threshold, limit);
  }

  method SelectSorted(sorted: seq<Item>, tolerance: real, threshold: real, limit: nat) returns (r: seq<Item>)
    requires InOrder(sorted) && tolerance >= 0.0 && limit >= 1
    ensures IsSelection(r, sorted, tolerance, threshold, limit)
    ensures sorted != [] ==> r != []
    ensures InOrder(r) && |r| <= limit
  {
    var filtered := FilterByTolerance(sorted, tolerance);
    var cut := CutAtGap(filtered, threshold);
    ghost var k := if sorted != [] && Within(sorted[0].rtt, sorted[0].rtt, tolerance) then |filtered| else 0;
    LongestPrefix(sorted, k, filtered, cut, tolerance, threshold);
    r := cut[..Min(|cut|, limit)];
    assert r == sorted[..Min(|cut|, limit)];
  }

  lemma AllInfinite(s: seq<Item>)
    requires InOrder(s) && s != [] && s[0].rtt.Infinite?
    ensures forall i :: 0 <= i < |s| ==> s[i].rtt.Infinite?
  {
  }

  lemma LongestPrefix(s: seq<Item>, k: nat, filtered: seq<Item>, cut: seq<Item>, tolerance: real, threshold: real)
    requires InOrder(s) && tolerance >= 0.0 && k <= |s| && filtered == (if k == 0 then s else s[..k])
    requires forall i :: 0 <= i < k ==> Within(s[i].rtt, s[0].rtt, tolerance)
    requires k < |s| ==> !Within(s[k].rtt, s[0].rtt, tolerance)
    requires cut <= filtered
    requires forall i :: 0 < i < |cut| ==> !Jumps(filtered[i].rtt, filtered[i - 1].rtt, threshold)
    requires 0 < |cut| < |filtered| ==> Jumps(filtered[|cut|].rtt, filtered[|cut| - 1].rtt, threshold)
    requires filtered != [] ==> cut != []
    ensures cut <= s && IsLongest(s, |cut|, tolerance, threshold)
  {
    if s != [] && s[0].rtt.Infinite? {
      AllInfinite(s);
    }
    var n := |cut|;
    if n < |s| {
      if n < |filtered| {
        assert Jumps(s[n].rtt, s[n - 1].rtt, threshold);
      } else {
        assert n == k;
        assert !Within(s[n].rtt, s[0].rtt, tolerance);
      }
    }
  }

  lemma SortedStaysInfinite(items: seq<Item>)
    requires forall i :: 0 <= i < |items| ==> items[i].rtt.Infinite?
    ensures forall i :: 0 <= i < |Sorted(items)| ==> Sorted(items)[i].rtt.Infinite?
  {
    var s := Sorted(items);
    forall i | 0 <= i < |s| ensures s[i].rtt.Infinite? {
      assert s[i] in multiset(items);
    }
  }

  lemma InfiniteInRankOrder(s: seq<Item>, n: nat, tolerance: real, threshold: real)
    requires InOrder(s) && forall i :: 0 <= i < |s| ==> s[i].rtt.Infinite?
    ensures forall i, j :: 0 <= i < j < |s| ==> s[i].rank < s[j].rank
    ensures IsLongest(s, n, tolerance, threshold) ==> n == |s|
  {
    forall i, j | 0 <= i < j < |s| ensures s[i].rank < s[j].rank {
      assert Precedes(s[i], s[j]);
    }
    assert Acceptable(s, |s|, tolerance, threshold);
  }

  /** When no time is finite, the first `limit` measured candidates are taken in candidate order. */
  lemma AllInfiniteTakesCandidateOrder(items: seq<Item>, r: seq<Item>, tolerance: real, threshold: real, limit: nat)
    requires RanksDiffer(items) && (forall i :: 0 <= i < |items| ==> items[i].rtt.Infinite?)
    requires IsSelection(r, Sorted(items), tolerance, threshold, limit)
    ensures r == Sorted(items)[..Min(|items|, limit)]
    ensures forall i, j :: 0 <= i < j < |Sorted(items)| ==> Sorted(items)[i].rank < Sorted(items)[j].rank
  {
    var s := Sorted(items);
    SortedIsInOrder(items);
    SortedStaysInfinite(items);
    var n: nat :| IsLongest(s, n, tolerance, threshold) && r == s[..Min(n, limit)];
    InfiniteInRankOrder(s, n, tolerance, threshold);
  }

  // ---------- The selection on the times themselves ----------

  /** Infinite only if b is, and not more milliseconds. */
  predicate NoSlower(a: Rtt, b: Rtt) {
    b.Finite? ==> a.Finite? && a.ms <= b.ms
  }

  /** Times never fall, and equal times come in candidate order. */
  ghost predicate FastestFirst(r: seq<Item>) {
    forall i, j :: 0 <= i < j < |r| ==>
      NoSlower(r[i].rtt, r[j].rtt) && (r[i].rtt == r[j].rtt ==> r[i].rank < r[j].rank)
  }

  /** With a finite best time: all within the tolerance of it, and no step beyond the threshold. */
  ghost predicate CloseTogether(r: seq<Item>, tolerance: real, threshold: real) {
    r != [] && r[0].rtt.Finite? ==>
      && (forall i :: 0 <= i < |r| ==> r[i].rtt.Finite? && r[0].rtt.ms <= r[i].rtt.ms <= r[0].rtt.ms + tolerance)
      && (forall i :: 0 < i < |r| ==> r[i].rtt.ms - r[i - 1].rtt.ms <= threshold)
  }

  /** A time that is left out although there is room: not finite, out of tolerance, or beyond a gap. */
  ghost predicate IsTooSlow(r: seq<Item>, x: Rtt, tolerance: real, threshold: real)
    requires r != []
  {
    && r[0].rtt.Finite?
    && (x.Infinite? || x.ms > r[0].rtt.ms + tolerance
        || (r[|r| - 1].rtt.Finite? && x.ms > r[|r| - 1].rtt.ms + threshold))
  }

  lemma OrderOnTimes(s: seq<Item>)
    requires InOrder(s)
    ensures FastestFirst(s)
  {
    forall i, j | 0 <= i < j < |s|
      ensures NoSlower(s[i].rtt, s[j].rtt) && (s[i].rtt == s[j].rtt ==> s[i].rank < s[j].rank)
    {
      assert Precedes(s[i], s[j]);
    }
  }

  /** Sorting keeps the items and puts the fastest first. */
  lemma SortedOnTimes(s: seq<Item>)
    requires RanksDiffer(s)
    ensures FastestFirst(Sorted(s)) && multiset(Sorted(s)) == multiset(s)
  {
    SortedIsInOrder(s);
    OrderOnTimes(Sorted(s));
  }

  lemma PrefixIsClose(s: seq<Item>, k: nat, tolerance: real, threshold: real)
    requires FastestFirst(s) && k <= |s| && Acceptable(s, k, tolerance, threshold) && tolerance >= 0.0
    ensures CloseTogether(s[..k], tolerance, threshold)
  {
    var r := s[..k];
    if r != [] && r[0].rtt.Finite? {
      forall i | 0 <= i < k ensures r[i].rtt.Finite? && r[0].rtt.ms <= r[i].rtt.ms <= r[0].rtt.ms + tolerance {
        assert Within(s[i].rtt, s[0].rtt, tolerance);
        assert i > 0 ==> NoSlower(s[0].rtt, s[i].rtt);
      }
      forall i | 0 < i < k ensures r[i].rtt.ms - r[i - 1].rtt.ms <= threshold {
        assert !Jumps(s[i].rtt, s[i - 1].rtt, threshold);
      }
    }
  }

  lemma AcceptableShorter(s: seq<Item>, n: nat, k: nat, tolerance: real, threshold: real)
    requires k <= n <= |s| && Acceptable(s, n, tolerance, threshold)
    ensures Acceptable(s, k, tolerance, threshold)
  {
  }

  lemma RestIsTooSlow(s: seq<Item>, n: nat, j: nat, tolerance: real, threshold: real)
    requires FastestFirst(s) && IsLongest(s, n, tolerance, threshold) && 0 < n <= j < |s| && tolerance >= 0.0
    ensures IsTooSlow(s[..n], s[j].rtt, tolerance, threshold)
  {
    assert !Acceptable(s, n + 1, tolerance, threshold);
    assert n < j ==> NoSlower(s[n].rtt, s[j].rtt);
    assert NoSlower(s[0].rtt, s[n].rtt) && NoSlower(s[n - 1].rtt, s[n].rtt);
    assert s[0].rtt.Infinite? || Within(s[n - 1].rtt, s[0].rtt, tolerance);
  }

  lemma LongestIsNotEmpty(s: seq<Item>, n: nat, tolerance: real, threshold: real)
    requires s != [] && IsLongest(s, n, tolerance, threshold) && tolerance >= 0.0
    ensures n > 0
  {
    assert Acceptable(s, 1, tolerance, threshold);
  }

  /** What a selection of sorted items is, on their times. */
  lemma SelectionOnTimes(r: seq<Item>, s: seq<Item>, tolerance: real, threshold: real, limit: nat)
    requires InOrder(s) && IsSelection(r, s, tolerance, threshold, limit) && tolerance >= 0.0 && limit >= 1
    ensures r <= s && |r| <= limit && (s != [] ==> r != [])
    ensures FastestFirst(s) && CloseTogether(r, tolerance, threshold)
    ensures |r| < limit ==> forall j :: |r| <= j < |s| ==> IsTooSlow(r, s[j].rtt, tolerance, threshold)
  {
    OrderOnTimes(s);
    var n: nat :| IsLongest(s, n, tolerance, threshold) && r == s[..Min(n, limit)];
    AcceptableShorter(s, n, |r|, tolerance, threshold);
    PrefixIsClose(s, |r|, tolerance, threshold);
    if s != [] { LongestIsNotEmpty(s, n, tolerance, threshold); }
    if |r| < limit {
      forall j | |r| <= j < |s| ensures IsTooSlow(r, s[j].rtt, tolerance, threshold) {
        RestIsTooSlow(s, n, j, tolerance, threshold);
      }
    }
  }

  // ---------- From measurements to items ----------

  datatype Measurement = Measurement(ip: string, best: Option<Rtt>)

  /** The last usable measurement of this address. */
  function Latest(results: seq<Measurement>, ip: string): Option<Rtt> {
    if results == [] then None
    else if Last(results).ip == ip && Last(results).best.Some? then Last(results).best
    else Latest(Init(results), ip)
  }

  /** A usable measurement of the address that no usable one follows. */
  ghost predicate IsLatest(results: seq<Measurement>, ip: string, i: nat) {
    && i < |results| && results[i].ip == ip && results[i].best.Some?
    && forall j :: i < j < |results| ==> results[j].ip != ip || results[j].best.None?
  }

  lemma {:induction false} LatestIsLast(results: seq<Measurement>, ip: string)
    ensures Latest(results, ip).Some? ==>
      exists i: nat :: IsLatest(results, ip, i) && results[i].best == Latest(results, ip)
    ensures Latest(results, ip).None? ==>
      forall j :: 0 <= j < |results| ==> results[j].ip != ip || results[j].best.None?
    decreases |results|
  {
    if results != [] {
      var n := |results| - 1;
      if results[n].ip == ip && results[n].best.Some? {
        assert IsLatest(results, ip, n);
      } else {
        LatestIsLast(Init(results), ip);
        if Latest(results, ip).Some? {
          var i: nat :| IsLatest(Init(results), ip, i) && Init(results)[i].best == Latest(Init(results), ip);
          assert IsLatest(results, ip, i);
        }
        forall j | 0 <= j < n ensures results[j] == Init(results)[j] {}
      }
    }
  }

  /** A dictionary of the candidates' results, later measurements replacing earlier ones. */
  method LatestResults(results: seq<Measurement>, candidates: seq<string>) returns (m: map<string, Rtt>)
    ensures forall ip :: ip in m <==> ip in candidates && Latest(results, ip).Some?
    ensures forall ip :: ip in m ==> Latest(results, ip) == Some(m[ip])
  {
    m := map[];
    for n := 0 to |results|
      invariant forall ip :: ip in m <==> ip in candidates && Latest(results[..n], ip).Some?
      invariant forall ip :: ip in m ==> Latest(results[..n], ip) == Some(m[ip])
    {
      var item := results[n];
      assert Init(results[..n + 1]) == results[..n] && Last(results[..n + 1]) == item;
      if item.best.Some? && item.ip in candidates {
        m := m[item.ip := item.best.value];
      }
    }
    assert results[..|results|] == results;
  }

  /** The measured candidates with their ranks, in candidate order. */
  function ItemsOf(candidates: seq<string>, m: map<string, Rtt>): (r: seq<Item>)
    ensures forall i :: 0 <= i < |r| ==>
      r[i].rank < |candidates| && r[i].ip == candidates[r[i].rank] && r[i].ip in m && r[i].rtt == m[r[i].ip]
    ensures forall i, j :: 0 <= i < j < |r| ==> r[i].rank < r[j].rank
  {
    if candidates == [] then []
    else
      assert candidates == Init(candidates) + [Last(candidates)];
      var r := ItemsOf(Init(candidates), m);
      if Last(candidates) in m then r + [Item(Last(candidates), m[Last(candidates)], |candidates| - 1)] else r
  }

  /** Every measured candidate is an item. */
  lemma {:induction false} ItemsCover(candidates: seq<string>, m: map<string, Rtt>, k: nat) returns (i: nat)
    requires k < |candidates| && candidates[k] in m
    ensures i < |ItemsOf(candidates, m)| && ItemsOf(candidates, m)[i] == Item(candidates[k], m[candidates[k]], k)
    decreases |candidates|
  {
    if k < |candidates| - 1 {
      i := ItemsCover(Init(candidates), m, k);
    } else {
      i := |ItemsOf(candidates, m)| - 1;
    }
  }

  /** Every item is a candidate with its time in the dictionary. */
  ghost predicate AreMeasured(r: seq<Item>, candidates: seq<string>, m: map<string, Rtt>) {
    forall i :: 0 <= i < |r| ==>
      r[i].rank < |candidates| && r[i].ip == candidates[r[i].rank] && r[i].ip in m && r[i].rtt == m[r[i].ip]
  }

  /** The candidate has a time but is not among the items. */
  ghost predicate IsLeftOut(r: seq<Item>, candidates: seq<string>, m: map<string, Rtt>, ip: string) {
    ip in candidates && ip in m && forall i :: 0 <= i < |r| ==> r[i].ip != ip
  }

  /**
    The addresses of the reply, on the candidates and their times: fastest first, none faster left out, close
    together, and if there is room left then only because the others are too slow.
   */
  method SelectAddresses(candidates: seq<string>, m: map<string, Rtt>, tolerance: real, threshold: real, limit: nat)
    returns (chosen: seq<Item>)
    requires Distinct(candidates) && tolerance >= 0.0 && limit >= 1
    ensures chosen != [] <==> exists ip :: ip in candidates && ip in m
    ensures |chosen| <= limit && AreMeasured(chosen, candidates, m)
    ensures forall i, j :: 0 <= i < j < |chosen| ==> chosen[i].ip != chosen[j].ip
    ensures FastestFirst(chosen) && CloseTogether(chosen, tolerance, threshold)
    ensures forall ip, i :: IsLeftOut(chosen, candidates, m, ip) && 0 <= i < |chosen| ==> NoSlower(chosen[i].rtt, m[ip])
    ensures |chosen| < limit ==>
      forall ip :: IsLeftOut(chosen, candidates, m, ip) ==> IsTooSlow(chosen, m[ip], tolerance, threshold)
    ensures IsSelection(chosen, Sorted(ItemsOf(candidates, m)), tolerance, threshold, limit)
  {
    var items := ItemsOf(candidates, m);
    chosen := Select(items, tolerance, threshold, limit);
    SortedIsInOrder(items);
    SelectionOnTimes(chosen, Sorted(items), tolerance, threshold, limit);
    SortedAreItems(items, candidates, m);
    SortKeepsRanksDifferent(items);
    ChosenDiffer(chosen, Sorted(items), candidates, m);
    forall ip | IsLeftOut(chosen, candidates, m, ip)
      ensures chosen != [] && forall i :: 0 <= i < |chosen| ==> NoSlower(chosen[i].rtt, m[ip])
      ensures |chosen| < limit ==> IsTooSlow(chosen, m[ip], tolerance, threshold)
    {
      LeftOutIsNotFaster(chosen, Sorted(items), candidates, m, ip);
      var j := LeftOutIsBehind(chosen, Sorted(items), candidates, m, ip);
    }
    if ip :| ip in candidates && ip in m {
      var j := MeasuredIsSorted(items, candidates, m, ip);
    }
  }

  lemma ChosenDiffer(chosen: seq<Item>, s: seq<Item>, candidates: seq<string>, m: map<string, Rtt>)
    requires chosen <= s && RanksDiffer(s) && AreMeasured(s, candidates, m) && Distinct(candidates) && FastestFirst(s)
    ensures AreMeasured(chosen, candidates, m) && FastestFirst(chosen)
    ensures forall i, j :: 0 <= i < j < |chosen| ==> chosen[i].ip != chosen[j].ip
  {
    assert forall i :: 0 <= i < |chosen| ==> chosen[i] == s[i];
    forall i, j | 0 <= i < j < |chosen| ensures chosen[i].ip != chosen[j].ip {
      assert chosen[i].rank != chosen[j].rank;
    }
  }

  lemma LeftOutIsNotFaster(chosen: seq<Item>, s: seq<Item>, candidates: seq<string>, m: map<string, Rtt>, ip: string)
    requires s == Sorted(ItemsOf(candidates, m)) && chosen <= s && FastestFirst(s)
    requires IsLeftOut(chosen, candidates, m, ip)
    ensures forall i :: 0 <= i < |chosen| ==> NoSlower(chosen[i].rtt, m[ip])
  {
    var j := LeftOutIsBehind(chosen, s, candidates, m, ip);
    assert forall i :: 0 <= i < |chosen| ==> chosen[i] == s[i];
  }

  lemma {:induction false} SortKeepsRanksDifferent(items: seq<Item>)
    requires RanksDiffer(items)
    ensures RanksDiffer(Sorted(items))
    decreases |items|
  {
    if items != [] {
      var before, x := Init(items), Last(items);
      SortKeepsRanksDifferent(before);
      forall i | 0 <= i < |Sorted(before)| ensures Sorted(before)[i].rank != x.rank {
        assert Sorted(before)[i] in multiset(before);
      }
      InsertKeepsRanksDifferent(Sorted(before), x);
    }
  }

  lemma {:induction false} InsertKeepsRanksDifferent(s: seq<Item>, x: Item)
    requires RanksDiffer(s) && forall i :: 0 <= i < |s| ==> s[i].rank != x.rank
    ensures RanksDiffer(Insert(s, x))
  {
    if s != [] && !Precedes(x, s[0]) {
      InsertKeepsRanksDifferent(s[1..], x);
      var rest := Insert(s[1..], x);
      forall k | 0 <= k < |rest| ensures rest[k].rank != s[0].rank {
        InsertMembers(s[1..], x, rest[k]);
      }
    }
  }

  lemma SortedAreItems(items: seq<Item>, candidates: seq<string>, m: map<string, Rtt>)
    requires AreMeasured(items, candidates, m)
    ensures AreMeasured(Sorted(items), candidates, m)
  {
    var s := Sorted(items);
    forall i | 0 <= i < |s|
      ensures s[i].rank < |candidates| && s[i].ip == candidates[s[i].rank] && s[i].ip in m && s[i].rtt == m[s[i].ip]
    {
      assert s[i] in multiset(items);
    }
  }

  lemma MeasuredIsSorted(items: seq<Item>, candidates: seq<string>, m: map<string, Rtt>, ip: string) returns (j: nat)
    requires items == ItemsOf(candidates, m) && ip in candidates && ip in m
    ensures j < |Sorted(items)| && Sorted(items)[j].ip == ip && Sorted(items)[j].rtt == m[ip]
  {
    var k :| 0 <= k < |candidates| && candidates[k] == ip;
    var i := ItemsCover(candidates, m, k);
    assert items[i] in multiset(Sorted(items));
    j :| 0 <= j < |Sorted(items)| && Sorted(items)[j] == items[i];
  }

  lemma LeftOutIsBehind(chosen: seq<Item>, s: seq<Item>, candidates: seq<string>, m: map<string, Rtt>, ip: string)
    returns (j: nat)
    requires s == Sorted(ItemsOf(candidates, m)) && chosen <= s && IsLeftOut(chosen, candidates, m, ip)
    ensures |chosen| <= j < |s| && s[j].rtt == m[ip]
  {
    j := MeasuredIsSorted(ItemsOf(candidates, m), candidates, m, ip);
    assert forall i :: 0 <= i < |chosen| ==> chosen[i] == s[i];
  }

  // ---------- Reservations ----------

  class SpeedTestContext {
    var seen: set<string>

    constructor ()
      ensures seen == {}
    {
      seen := {};
    }

    /** Hands out each address once; the whole call holds the lock. */
    method ReserveIps(ips: seq<string>) returns (candidates: seq<string>)
      modifies this`seen
      ensures candidates == Without(Dedup(ips), old(seen))
      ensures seen == old(seen) + Elems(ips)
    {
      var ordered, known := AppendUnseen(ips, [], [], {});
      assert [] + ips == ips;
      var fresh_ := known - seen;
      candidates := [];
      for i := 0 to |ordered|
        invariant candidates == Without(ordered[..i], seen)
      {
        assert Init(ordered[..i + 1]) == ordered[..i] && Last(ordered[..i + 1]) == ordered[i];
        assert ordered[i] in ordered;
        if ordered[i] in fresh_ {
          candidates := candidates + [ordered[i]];
        }
      }
      assert ordered[..|ordered|] == ordered;
      seen := seen + fresh_;
    }
  }

  /** What has been asked for in the first n calls. */
  ghost function Asked(calls: seq<seq<string>>, n: nat): set<string>
    requires n <= |calls|
  {
    if n == 0 then {} else Asked(calls, n - 1) + Elems(calls[n - 1])
  }

  /** The list the i-th call gets. */
  ghost function Granted(calls: seq<seq<string>>, i: nat): seq<string>
    requires i < |calls|
  {
    Without(Dedup(calls[i]), Asked(calls, i))
  }

  lemma {:induction false} AskedGrows(calls: seq<seq<string>>, i: nat, j: nat)
    requires i < j <= |calls|
    ensures Elems(calls[i]) <= Asked(calls, j)
    decreases j
  {
    if i < j - 1 { AskedGrows(calls, i, j - 1); }
  }

  /** Over any sequence of calls the lists handed out are free of duplicates and pairwise disjoint. */
  lemma ReservationsAreDisjoint(calls: seq<seq<string>>, i: nat, j: nat, x: string)
    requires i < j < |calls|
    ensures Distinct(Granted(calls, i)) && !(x in Granted(calls, i) && x in Granted(calls, j))
  {
    AskedGrows(calls, i, j);
    DedupIsDistinct(calls[i]);
    WithoutStaysDistinct(Dedup(calls[i]), Asked(calls, i));
    if x in Granted(calls, i) {
      assert x in Dedup(calls[i]);
      assert x in Elems(calls[i]);
    }
  }

  /** Every address asked for is handed out by some call. */
  lemma {:induction false} EveryAddressIsGranted(calls: seq<seq<string>>, n: nat, x: string) returns (i: nat)
    requires n <= |calls| && x in Asked(calls, n)
    ensures i < n && x in Granted(calls, i)
    decreases n
  {
    if x in Asked(calls, n - 1) {
      i := EveryAddressIsGranted(calls, n - 1, x);
    } else {
      i := n - 1;
      assert x in Elems(calls[i]);
      assert x in Dedup(calls[i]);
    }
  }
}
