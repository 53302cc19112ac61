/** Lists cut down in place: without the elements of a set, or without repetitions. */
module FirstOccurrences {
  import opened Prelude

  /** The list without the elements of a set, order and repetitions kept. */
  function Without<A(==,!new)>(s: seq<A>, gone: set<A>): (r: seq<A>)
    ensures forall x :: x in r <==> x in s && x !in gone
  {
    if s == [] then []
    else
      assert s == Init(s) + [Last(s)];
      var r := Without(Init(s), gone);
      if Last(s) in gone then r else r + [Last(s)]
  }

  function Dedup<A(==,!new)>(s: seq<A>): (r: seq<A>)
    ensures forall x :: x in r <==> x in s
  {
    if s == [] then []
    else
      assert s == Init(s) + [Last(s)];
      var r := Dedup(Init(s));
      if Last(s) in r then r else r + [Last(s)]
  }

  lemma {:induction false} DedupIsDistinct<A(!new)>(s: seq<A>)
    ensures Distinct(Dedup(s))
    decreases |s|
  {
    if s != [] {
      DedupIsDistinct(Init(s));
    }
  }

  lemma {:induction false} WithoutStaysDistinct<A(!new)>(s: seq<A>, gone: set<A>)
    requires Distinct(s)
    ensures Distinct(Without(s, gone))
    decreases |s|
  {
    if s != [] {
      WithoutStaysDistinct(Init(s), gone);
    }
  }

  /** Nothing is left out exactly when nothing is gone. */
  lemma {:induction false} WithoutSameIff<A(!new)>(s: seq<A>, gone: set<A>)
    ensures |Without(s, gone)| <= |s| && (Without(s, gone) == s <==> forall x :: x in s ==> x !in gone)
    decreases |s|
  {
    if s != [] {
      WithoutSameIff(Init(s), gone);
      assert s == Init(s) + [Last(s)];
    }
  }

  lemma DedupSnoc<A(!new)>(s: seq<A>, x: A)
    ensures Dedup(s + [x]) == if x in Dedup(s) then Dedup(s) else Dedup(s) + [x]
  {
  }

  lemma InitIsPart<A(!new)>(s: seq<A>)
    requires s != []
    ensures Last(s) in s && forall x :: x in Init(s) ==> x in s
  {
  }

  lemma {:induction false} DedupKnown<A(!new)>(s: seq<A>, more: seq<A>)
    requires forall x :: x in more ==> x in s
    ensures Dedup(s + more) == Dedup(s)
    decreases |more|
  {
    if more == [] {
      assert s + more == s;
    } else {
      ConcatEnds(s, more);
      InitIsPart(more);
      DedupKnown(s, Init(more));
    }
  }

  lemma {:induction false} DedupFresh<A(!new)>(s: seq<A>, more: seq<A>)
    requires forall x :: x in more ==> x !in s
    ensures Dedup(s + more) == Dedup(s) + Dedup(more)
    decreases |more|
  {
    if more == [] {
      assert s + more == s;
    } else {
      ConcatEnds(s, more);
      InitIsPart(more);
      DedupFresh(s, Init(more));
    }
  }

  lemma WithoutSnoc<A(!new)>(s: seq<A>, x: A, gone: set<A>)
    ensures Without(s + [x], gone) == Without(s, gone) + if x in gone then [] else [x]
  {
    assert Init(s + [x]) == s && Last(s + [x]) == x;
  }

  /** Dropping repetitions and dropping a set of elements commute. */
  lemma {:induction false} WithoutDedup<A(!new)>(s: seq<A>, gone: set<A>)
    ensures Without(Dedup(s), gone) == Dedup(Without(s, gone))
    decreases |s|
  {
    if s != [] {
      var before, x := Init(s), Last(s);
      WithoutDedup(before, gone);
      assert s == before + [x];
      WithoutSnoc(before, x, gone);
      DedupSnoc(before, x);
      if x in Dedup(before) {
        if x !in gone {
          DedupSnoc(Without(before, gone), x);
        }
      } else {
        WithoutSnoc(Dedup(before), x, gone);
        DedupSnoc(Without(before, gone), x);
      }
    }
  }

  lemma KnownSnoc<A(!new)>(s: seq<A>, x: A)
    ensures x in s ==> Dedup(s + [x]) == Dedup(s)
    ensures x !in s ==> Dedup(s + [x]) == Dedup(s) + [x]
  {
    DedupSnoc(s, x);
  }

  lemma InConcat<A(!new)>(a: seq<A>, b: seq<A>, x: A)
    ensures x in a + b <==> x in a || x in b
  {
  }

  /** What a list adds to another: its own first occurrences that are not there yet. */
  lemma {:induction false} DedupConcat<A(!new)>(s: seq<A>, more: seq<A>)
    ensures Dedup(s + more) == Dedup(s) + Without(Dedup(more), Elems(s))
    decreases |more|
  {
    if more == [] {
      assert s + more == s;
    } else {
      var before, x := Init(more), Last(more);
      DedupConcat(s, before);
      assert more == before + [x];
      ConcatAssociates(s, before, [x]);
      KnownSnoc(s + before, x);
      InConcat(s, before, x);
      KnownSnoc(before, x);
      if x !in before {
        WithoutSnoc(Dedup(before), x, Elems(s));
        ConcatAssociates(Dedup(s), Without(Dedup(before), Elems(s)), [x]);
      }
    }
  }

  lemma DedupCongruence<A(!new)>(s: seq<A>, t: seq<A>, more: seq<A>)
    requires Dedup(s) == Dedup(t)
    ensures Dedup(s + more) == Dedup(t + more)
  {
    DedupConcat(s, more);
    DedupConcat(t, more);
    forall x ensures x in s <==> x in t {
      assert x in Dedup(s) <==> x in Dedup(t);
    }
    assert Elems(s) == Elems(t);
  }

  lemma {:induction false} DedupKeepsHead<A(!new)>(s: seq<A>)
    requires s != []
    ensures Dedup(s) != [] && Dedup(s)[0] == s[0]
    decreases |s|
  {
    if |s| > 1 {
      DedupKeepsHead(Init(s));
    }
  }

  lemma {:induction false} WithoutKeepsHead<A(!new)>(s: seq<A>, gone: set<A>)
    requires s != [] && s[0] !in gone
    ensures Without(s, gone) != [] && Without(s, gone)[0] == s[0]
    decreases |s|
  {
    if |s| > 1 {
      WithoutKeepsHead(Init(s), gone);
    }
  }

  /** `at` lists first occurrences in s, in increasing order, and r holds the elements there. */
  ghost predicate AreFirsts<A>(s: seq<A>, at: seq<nat>, r: seq<A>) {
    && |at| == |r|
    && (forall k :: 0 <= k < |at| ==> at[k] < |s| && r[k] == s[at[k]] && r[k] !in s[..at[k]])
    && (forall k, l :: 0 <= k < l < |at| ==> at[k] < at[l])
  }

  lemma FirstsExtend<A>(s: seq<A>, at: seq<nat>, r: seq<A>, x: A)
    requires AreFirsts(s, at, r)
    ensures AreFirsts(s + [x], at, r)
    ensures x !in s ==> AreFirsts(s + [x], at + [|s|], r + [x])
  {
  }

  /** The kept elements are the first occurrences, in their order. */
  lemma {:induction false} DedupKeepsFirsts<A(!new)>(s: seq<A>) returns (at: seq<nat>)
    ensures AreFirsts(s, at, Dedup(s))
    decreases |s|
  {
    if s == [] {
      at := [];
    } else {
      at := DedupKeepsFirsts(Init(s));
      FirstsExtend(Init(s), at, Dedup(Init(s)), Last(s));
      assert s == Init(s) + [Last(s)];
      if Last(s) !in Dedup(Init(s)) {
        at := at + [|s| - 1];
      }
    }
  }

  /** Appends the elements not seen so far, in order. */
  method AppendUnseen<A(==,!new)>(row: seq<A>, ghost done: seq<A>, found: seq<A>, known: set<A>)
    returns (expanded: seq<A>, seen: set<A>)
    requires found == Dedup(done) && forall x :: x in known <==> x in found
    ensures expanded == Dedup(done + row) && forall x :: x in seen <==> x in expanded
  {
    expanded, seen := found, known;
    assert done + row[..0] == done;
    for k := 0 to |row|
      invariant expanded == Dedup(done + row[..k])
      invariant forall x :: x in seen <==> x in expanded
    {
      PrefixSnoc(done, row, k);
      KnownSnoc(done + row[..k], row[k]);
      if row[k] in seen {
        continue;
      }
      seen := seen + {row[k]};
      expanded := expanded + [row[k]];
    }
    assert row[..|row|] == row;
  }

  lemma PrefixSnoc<A>(s: seq<A>, row: seq<A>, k: nat)
    requires k < |row|
    ensures s + row[..k + 1] == (s + row[..k]) + [row[k]]
  {
  }
}
