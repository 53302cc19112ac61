/** Cleaning HTTPS records: the `h3` protocol id and the address hints are taken out (RFC 9460). */
module HttpsParams {
  import opened Prelude
  import opened FirstOccurrences
  import opened Messages

  type Key = nat
  const MANDATORY: Key := 0
  const ALPN: Key := 1
  const NO_DEFAULT_ALPN: Key := 2
  const IPV4HINT: Key := 4
  const IPV6HINT: Key := 6
  const H3 := "h3"

  /** A parameter value: protocol ids, mandatory keys, or anything this plugin does not look into. */
  datatype Value = Ids(ids: seq<string>) | Keys(keys: seq<Key>) | Other(data: seq<nat>)

  type Params = map<Key, Value>

  datatype Rdata = Rdata(priority: nat, target: string, params: Params)

  /** The record class holds ids under alpn and keys under mandatory. */
  predicate Typed(p: Params) {
    (ALPN in p ==> p[ALPN].Ids?) && (MANDATORY in p ==> p[MANDATORY].Keys?)
  }

  // ---------- What cleaning means ----------

  function IdsOf(p: Params): seq<string>
    requires Typed(p)
  {
    if ALPN in p then p[ALPN].ids else []
  }

  function MandatoryOf(p: Params): seq<Key>
    requires Typed(p)
  {
    if MANDATORY in p then p[MANDATORY].keys else []
  }

  /** No h3, no hints. */
  predicate Clean(p: Params)
    requires Typed(p)
  {
    H3 !in IdsOf(p) && IPV4HINT !in p && IPV6HINT !in p
  }

  /** Only h3 was offered, so the whole alpn parameter goes, and with it no-default-alpn. */
  predicate OnlyH3(p: Params)
    requires Typed(p)
  {
    H3 in IdsOf(p) && forall x :: x in IdsOf(p) ==> x == H3
  }

  /** The parameters that go, mandatory aside. */
  function Gone(p: Params): set<Key>
    requires Typed(p)
  {
    set k | k in p && (k == IPV4HINT || k == IPV6HINT || (OnlyH3(p) && (k == ALPN || k == NO_DEFAULT_ALPN)))
  }

  /** The mandatory list named only parameters that go. */
  predicate MandatoryEmptied(p: Params)
    requires Typed(p)
  {
    MandatoryOf(p) != [] && Without(MandatoryOf(p), Gone(p)) == []
  }

  function Sanitized(p: Params): Params
    requires Typed(p)
  {
    map k | k in p && k !in Gone(p) && !(k == MANDATORY && MandatoryEmptied(p)) ::
      if k == ALPN then Ids(Without(p[k].ids, {H3}))
      else if k == MANDATORY then Keys(Without(p[k].keys, Gone(p)))
      else p[k]
  }

  function SanitizedRdata(d: Rdata): Rdata
    requires Typed(d.params)
  {
    d.(params := Sanitized(d.params))
  }

  function H3Count(p: Params): nat
    requires Typed(p)
  {
    multiset(IdsOf(p))[H3]
  }

  function HintCount(p: Params): nat {
    (if IPV4HINT in p then 1 else 0) + (if IPV6HINT in p then 1 else 0)
  }

  // ---------- The step-by-step form ----------

  lemma {:induction false} WithoutDropsOccurrences<A(!new)>(s: seq<A>, x: A)
    ensures |s| - |Without(s, {x})| == multiset(s)[x]
    decreases |s|
  {
    if s != [] {
      WithoutDropsOccurrences(Init(s), x);
      assert s == Init(s) + [Last(s)];
    }
  }

  /** The alpn part; `removed` collects the keys taken out. */
  method FilterAlpn(p: Params) returns (q: Params, changed: bool, removed: set<Key>, h3: nat)
    requires Typed(p)
    ensures changed <==> H3 in IdsOf(p)
    ensures removed == if OnlyH3(p) then {ALPN} + (p.Keys * {NO_DEFAULT_ALPN}) else {}
    ensures q.Keys == p.Keys - removed
    ensures forall k :: k in q && k != ALPN ==> q[k] == p[k]
    ensures ALPN in q ==> q[ALPN] == Ids(Without(IdsOf(p), {H3}))
    ensures h3 == H3Count(p)
  {
    q, changed, removed, h3 := p, false, {}, 0;
    if ALPN in p {
      var ids := p[ALPN].ids;
      var filtered := Without(ids, {H3});
      WithoutDropsOccurrences(ids, H3);
      WithoutSameIff(ids, {H3});
      if filtered != ids {
        changed := true;
        h3 := |ids| - |filtered|;
        if filtered != [] {
          q := q[ALPN := Ids(filtered)];
          assert filtered[0] in filtered;
        } else {
          q := q - {ALPN};
          removed := removed + {ALPN};
          if NO_DEFAULT_ALPN in q {
            q := q - {NO_DEFAULT_ALPN};
            removed := removed + {NO_DEFAULT_ALPN};
          }
        }
      }
    }
  }

  method DropHints(p: Params, gone: set<Key>) returns (q: Params, removed: set<Key>, hints: nat)
    ensures removed == gone + (p.Keys * {IPV4HINT, IPV6HINT})
    ensures q == p - {IPV4HINT, IPV6HINT}
    ensures hints == HintCount(p)
  {
    q, removed, hints := p, gone, 0;
    var hintKeys := [IPV4HINT, IPV6HINT];
    for i := 0 to |hintKeys|
      invariant removed == gone + (p.Keys * Elems(hintKeys[..i]))
      invariant q == p - Elems(hintKeys[..i])
      invariant hints == (if i > 0 && IPV4HINT in p then 1 else 0) + (if i > 1 && IPV6HINT in p then 1 else 0)
    {
      assert hintKeys[..i + 1] == hintKeys[..i] + [hintKeys[i]];
      if hintKeys[i] in q {
        q := q - {hintKeys[i]};
        removed := removed + {hintKeys[i]};
        hints := hints + 1;
      }
    }
    assert Elems(hintKeys) == {IPV4HINT, IPV6HINT};
  }

  method TrimMandatory(p: Params, removed: set<Key>) returns (q: Params)
    requires Typed(p)
    ensures
      var emptied := MandatoryOf(p) != [] && Without(MandatoryOf(p), removed) == [];
      q.Keys == p.Keys - if emptied then {MANDATORY} else {}
    ensures forall k :: k in q ==> q[k] == if k == MANDATORY then Keys(Without(MandatoryOf(p), removed)) else p[k]
  {
    q := p;
    WithoutSameIff(MandatoryOf(p), removed);
    if MANDATORY in p && removed != {} {
      var remaining := Without(p[MANDATORY].keys, removed);
      if remaining != p[MANDATORY].keys {
        if remaining != [] {
          q := q[MANDATORY := Keys(remaining)];
        } else {
          q := q - {MANDATORY};
        }
      }
    }
  }

  lemma StepsAddUp(p: Params, q: Params, withoutHints: Params, trimmed: Params)
    requires Typed(p) && q.Keys == p.Keys - (if OnlyH3(p) then {ALPN, NO_DEFAULT_ALPN} else {})
    requires forall k :: k in q ==> q[k] == if k == ALPN then Ids(Without(IdsOf(p), {H3})) else p[k]
    requires withoutHints == q - {IPV4HINT, IPV6HINT}
    requires trimmed.Keys == withoutHints.Keys - (if MandatoryEmptied(p) then {MANDATORY} else {})
    requires forall k :: k in trimmed ==>
      trimmed[k] == if k == MANDATORY then Keys(Without(MandatoryOf(p), Gone(p))) else q[k]
    ensures trimmed == Sanitized(p)
  {
  }

  /** One record: the cleaned record, whether it is a new one, and what was taken out. */
  method SanitizeRdata(d: Rdata) returns (r: Rdata, changed: bool, h3: nat, hints: nat)
    requires Typed(d.params)
    ensures r == SanitizedRdata(d) && r.priority == d.priority && r.target == d.target
    ensures changed <==> r != d
    ensures changed <==> !Clean(d.params)
    ensures h3 == H3Count(d.params) && hints == HintCount(d.params)
  {
    var p := d.params;
    var q, alpnChanged, alpnRemoved, ids := FilterAlpn(p);
    var withoutHints, removed, dropped := DropHints(q, alpnRemoved);
    assert removed == Gone(p);
    var trimmed := TrimMandatory(withoutHints, removed);
    StepsAddUp(p, q, withoutHints, trimmed);
    FixedIffClean(p);
    changed := alpnChanged || dropped > 0;
    if !changed {
      r, h3, hints := d, 0, 0;
    } else {
      r, h3, hints := d.(params := trimmed), ids, dropped;
    }
  }

  // ---------- What cleaning guarantees ----------

  /** Cleaning leaves no h3 and no hint. */
  lemma SanitizedIsClean(p: Params)
    requires Typed(p)
    ensures Typed(Sanitized(p)) && Clean(Sanitized(p))
    ensures H3Count(Sanitized(p)) == 0 && HintCount(Sanitized(p)) == 0
  {
  }

  /** A record is left as it is exactly when it was clean. */
  lemma FixedIffClean(p: Params)
    requires Typed(p)
    ensures Sanitized(p) == p <==> Clean(p)
  {
    WithoutSameIff(IdsOf(p), {H3});
    WithoutSameIff(MandatoryOf(p), Gone(p));
    if Clean(p) {
      assert Gone(p) == {};
    }
  }

  lemma SanitizeIsIdempotent(p: Params)
    requires Typed(p)
    ensures Typed(Sanitized(p)) && Sanitized(Sanitized(p)) == Sanitized(p)
  {
    SanitizedIsClean(p);
    FixedIffClean(Sanitized(p));
  }

  /** Nothing else is touched. */
  lemma OnlyH3AndHintsGo(p: Params, k: Key)
    requires Typed(p)
    ensures k in Sanitized(p) ==> k in p
    ensures k in p && k !in {MANDATORY, ALPN, NO_DEFAULT_ALPN, IPV4HINT, IPV6HINT} ==>
      k in Sanitized(p) && Sanitized(p)[k] == p[k]
    ensures k in p && k == NO_DEFAULT_ALPN && !OnlyH3(p) ==> k in Sanitized(p) && Sanitized(p)[k] == p[k]
    ensures k in p && k == ALPN && !OnlyH3(p) ==> k in Sanitized(p)
    ensures k in p && k == MANDATORY && Without(MandatoryOf(p), Gone(p)) != [] ==> k in Sanitized(p)
    ensures k != MANDATORY ==> (k in Gone(p) <==> k in p && k !in Sanitized(p))
  {
  }

  lemma NothingLeft(ids: seq<string>)
    requires forall x :: x in ids ==> x == H3
    ensures Without(ids, {H3}) == []
  {
  }

  /** The remaining protocol ids and mandatory keys keep their order. */
  lemma ListsAreFiltered(p: Params)
    requires Typed(p)
    ensures Typed(Sanitized(p)) && IdsOf(Sanitized(p)) == Without(IdsOf(p), {H3})
    ensures MandatoryOf(Sanitized(p)) == Without(MandatoryOf(p), Gone(p))
  {
    if OnlyH3(p) { NothingLeft(IdsOf(p)); }
  }

  /** Every mandatory key is present, and no-default-alpn comes with alpn (sections 7.1.1 and 8 of RFC 9460). */
  predicate Consistent(p: Params)
    requires Typed(p)
  {
    (forall k :: k in MandatoryOf(p) ==> k in p) && (NO_DEFAULT_ALPN in p ==> ALPN in p)
  }

  lemma {:induction false} WithoutKeepsIncreasing(s: seq<Key>, gone: set<Key>)
    requires Increasing(s)
    ensures Increasing(Without(s, gone))
    decreases |s|
  {
    if s != [] {
      WithoutKeepsIncreasing(Init(s), gone);
      var r := Without(Init(s), gone);
      forall i | 0 <= i < |r| ensures r[i] < Last(s) {
        assert r[i] in Init(s);
      }
    }
  }

  /** Cleaning neither breaks nor repairs the consistency of a record. */
  lemma ConsistencyIsKeptExactly(p: Params)
    requires Typed(p)
    ensures Typed(Sanitized(p)) && (Consistent(Sanitized(p)) <==> Consistent(p))
  {
  }

  /** What the record class checks when a record is built. */
  ghost predicate WellFormed(p: Params)
    requires Typed(p)
  {
    && Consistent(p) && Increasing(MandatoryOf(p)) && MANDATORY !in MandatoryOf(p)
    && (MANDATORY in p ==> MandatoryOf(p) != []) && (ALPN in p ==> IdsOf(p) != [])
  }

  /** The cleaned parameters always make a legal record. */
  lemma CleanedRecordCanBeBuilt(p: Params)
    requires Typed(p) && WellFormed(p)
    ensures Typed(Sanitized(p)) && WellFormed(Sanitized(p))
  {
    ConsistencyIsKeptExactly(p);
    ListsAreFiltered(p);
    WithoutKeepsIncreasing(MandatoryOf(p), Gone(p));
  }

  // ---------- A whole answer ----------

  datatype HttpsRRset = HttpsRRset(name: string, rdtype: nat, ttl: int, records: seq<Rdata>)

  predicate AllTyped(s: seq<Rdata>) {
    forall i :: 0 <= i < |s| ==> Typed(s[i].params)
  }

  predicate AllClean(s: seq<Rdata>)
    requires AllTyped(s)
  {
    forall i :: 0 <= i < |s| ==> Clean(s[i].params)
  }

  function SanitizedEach(s: seq<Rdata>): (r: seq<Rdata>)
    requires AllTyped(s)
  {
    if s == [] then [] else SanitizedEach(Init(s)) + [SanitizedRdata(Last(s))]
  }

  /** Records that became equal are merged, since an rrset holds each record once. */
  function SanitizedRRset(r: HttpsRRset): HttpsRRset
    requires AllTyped(r.records)
  {
    if AllClean(r.records) then r else r.(records := Dedup(SanitizedEach(r.records)))
  }

  function TotalH3(s: seq<Rdata>): nat
    requires AllTyped(s)
  {
    if s == [] then 0 else TotalH3(Init(s)) + H3Count(Last(s).params)
  }

  function TotalHints(s: seq<Rdata>): nat {
    if s == [] then 0 else TotalHints(Init(s)) + HintCount(Last(s).params)
  }

  function Dirty(s: seq<Rdata>): nat
    requires AllTyped(s)
  {
    if s == [] then 0 else Dirty(Init(s)) + (if Clean(Last(s).params) then 0 else 1)
  }

  lemma {:induction false} EachImage(s: seq<Rdata>)
    requires AllTyped(s)
    ensures |SanitizedEach(s)| == |s|
    ensures forall i :: 0 <= i < |s| ==> SanitizedEach(s)[i] == SanitizedRdata(s[i])
    decreases |s|
  {
    if s != [] {
      EachImage(Init(s));
    }
  }

  lemma {:induction false} CleanTotals(s: seq<Rdata>)
    requires AllTyped(s) && AllClean(s)
    ensures Dirty(s) == 0 && TotalH3(s) == 0 && TotalHints(s) == 0
    decreases |s|
  {
    if s != [] {
      CleanTotals(Init(s));
    }
  }

  /** Every record in turn. */
  method SanitizeEach(was: seq<Rdata>) returns (sanitized: seq<Rdata>, changed: bool, records: nat, h3: nat, hints: nat)
    requires AllTyped(was)
    ensures sanitized == SanitizedEach(was) && (changed <==> !AllClean(was))
    ensures records == Dirty(was) && h3 == TotalH3(was) && hints == TotalHints(was)
  {
    sanitized, changed, records, h3, hints := [], false, 0, 0, 0;
    for i := 0 to |was|
      invariant sanitized == SanitizedEach(was[..i])
      invariant changed <==> !AllClean(was[..i])
      invariant records == Dirty(was[..i]) && h3 == TotalH3(was[..i]) && hints == TotalHints(was[..i])
    {
      assert Init(was[..i + 1]) == was[..i] && Last(was[..i + 1]) == was[i];
      AllCleanSnoc(was, i);
      var r, isNew, ids, dropped := SanitizeRdata(was[i]);
      changed := changed || isNew;
      if isNew {
        records := records + 1;
      }
      h3 := h3 + ids;
      hints := hints + dropped;
      sanitized := sanitized + [r];
    }
    assert was[..|was|] == was;
  }

  class HttpsAnswer {
    var rdtype: nat
    var rrset: Option<HttpsRRset>

    predicate Covered()
      reads this
    {
      rrset.Some? && rdtype == TYPE_HTTPS && rrset.value.rdtype == TYPE_HTTPS
    }

    /** Replaces the rrset if any record changes, and counts records, ids and hints. */
    method Sanitize() returns (records: nat, h3: nat, hints: nat)
      requires Covered() ==> AllTyped(rrset.value.records)
      modifies this`rrset
      ensures !old(Covered()) ==> rrset == old(rrset) && records == h3 == hints == 0
      ensures old(Covered()) ==> rrset == Some(SanitizedRRset(old(rrset.value)))
      ensures old(Covered()) ==>
        && rrset.value.name == old(rrset.value.name) && rrset.value.rdtype == old(rrset.value.rdtype)
        && rrset.value.ttl == old(rrset.value.ttl)
      ensures old(Covered()) ==>
        var s := old(rrset.value.records);
        records == Dirty(s) && h3 == TotalH3(s) && hints == TotalHints(s)
    {
      records, h3, hints := 0, 0, 0;
      if !Covered() {
        return;
      }
      var was := rrset.value;
      var sanitized, changed;
      sanitized, changed, records, h3, hints := SanitizeEach(was.records);
      if !changed {
        CleanTotals(was.records);
        records, h3, hints := 0, 0, 0;
        return;
      }
      var merged, _ := AppendUnseen(sanitized, [], [], {});
      assert [] + sanitized == sanitized;
      rrset := Some(was.(records := merged));
    }
  }

  lemma AllCleanSnoc(s: seq<Rdata>, i: nat)
    requires AllTyped(s) && i < |s|
    ensures AllClean(s[..i + 1]) <==> AllClean(s[..i]) && Clean(s[i].params)
  {
  }

  /** Where a record changes. */
  ghost function ChangedAt(s: seq<Rdata>): set<int>
    requires AllTyped(s)
  {
    set i | 0 <= i < |s| && SanitizedRdata(s[i]) != s[i]
  }

  /** Where a record has this parameter. */
  ghost function PresentAt(s: seq<Rdata>, key: Key): set<int> {
    set i | 0 <= i < |s| && key in s[i].params
  }

  lemma {:induction false} DirtyIsCount(s: seq<Rdata>)
    requires AllTyped(s)
    ensures Dirty(s) == |ChangedAt(s)|
    decreases |s|
  {
    if s != [] {
      DirtyIsCount(Init(s));
      FixedIffClean(Last(s).params);
      forall i | 0 <= i < |s| - 1 ensures s[i] == Init(s)[i] {}
      CountSnoc(ChangedAt(s), ChangedAt(Init(s)), |s| - 1);
    }
  }

  lemma {:induction false} HintsAreCounts(s: seq<Rdata>)
    ensures TotalHints(s) == |PresentAt(s, IPV4HINT)| + |PresentAt(s, IPV6HINT)|
    decreases |s|
  {
    if s != [] {
      HintsAreCounts(Init(s));
      forall i | 0 <= i < |s| - 1 ensures s[i] == Init(s)[i] {}
      CountSnoc(PresentAt(s, IPV4HINT), PresentAt(Init(s), IPV4HINT), |s| - 1);
      CountSnoc(PresentAt(s, IPV6HINT), PresentAt(Init(s), IPV6HINT), |s| - 1);
    }
  }

  lemma {:induction false} H3IsIdsGone(s: seq<Rdata>)
    requires AllTyped(s)
    ensures TotalH3(s) == TotalIds(s) - TotalIds(SanitizedEach(s))
    decreases |s|
  {
    if s != [] {
      H3IsIdsGone(Init(s));
      IdsGone(Last(s).params);
      TotalIdsSnoc(SanitizedEach(Init(s)), SanitizedRdata(Last(s)));
    }
  }

  /** The totals count records that change, and records with either hint; the ids taken out are the ids gone. */
  lemma TotalsAreCounts(s: seq<Rdata>)
    requires AllTyped(s)
    ensures Dirty(s) == |ChangedAt(s)| && TotalHints(s) == |PresentAt(s, 4)| + |PresentAt(s, 6)|
    ensures TotalH3(s) == TotalIds(s) - TotalIds(SanitizedEach(s))
  {
    DirtyIsCount(s);
    HintsAreCounts(s);
    H3IsIdsGone(s);
  }

  lemma CountSnoc(all: set<int>, before: set<int>, n: int)
    requires n !in before && all - {n} == before
    ensures |all| == |before| + if n in all then 1 else 0
  {
    assert all == if n in all then before + {n} else before;
  }

  function TotalIds(s: seq<Rdata>): nat {
    if s == [] then 0
    else TotalIds(Init(s)) + if Typed(Last(s).params) then |IdsOf(Last(s).params)| else 0
  }

  lemma TotalIdsSnoc(s: seq<Rdata>, d: Rdata)
    ensures TotalIds(s + [d]) == TotalIds(s) + if Typed(d.params) then |IdsOf(d.params)| else 0
  {
    assert Init(s + [d]) == s && Last(s + [d]) == d;
  }

  lemma IdsGone(p: Params)
    requires Typed(p)
    ensures Typed(Sanitized(p)) && H3Count(p) == |IdsOf(p)| - |IdsOf(Sanitized(p))|
  {
    ListsAreFiltered(p);
    WithoutDropsOccurrences(IdsOf(p), H3);
  }

  /** Afterwards every record is clean, and the records are exactly the cleaned originals. */
  lemma AnswerIsSanitized(r: HttpsRRset, d: Rdata)
    requires AllTyped(r.records) && Distinct(r.records)
    ensures AllTyped(SanitizedRRset(r).records) && AllClean(SanitizedRRset(r).records)
    ensures Distinct(SanitizedRRset(r).records)
    ensures !AllClean(r.records) ==> exists at :: AreFirsts(SanitizedEach(r.records), at, SanitizedRRset(r).records)
    ensures d in SanitizedRRset(r).records <==> exists i :: 0 <= i < |r.records| && d == SanitizedRdata(r.records[i])
  {
    var s := r.records;
    EachImage(s);
    EachIsClean(s);
    DedupIsDistinct(SanitizedEach(s));
    var at := DedupKeepsFirsts(SanitizedEach(s));
    var after := SanitizedRRset(r).records;
    if AllClean(s) {
      CleanIsFixed(s);
    }
    forall i | 0 <= i < |after| ensures Typed(after[i].params) && Clean(after[i].params) {
      assert after[i] in after;
      assert after[i] in SanitizedEach(s);
    }
  }

  lemma EachIsClean(s: seq<Rdata>)
    requires AllTyped(s)
    ensures forall d :: d in SanitizedEach(s) ==> Typed(d.params) && Clean(d.params)
  {
    EachImage(s);
    forall d | d in SanitizedEach(s) ensures Typed(d.params) && Clean(d.params) {
      var i :| 0 <= i < |s| && d == SanitizedRdata(s[i]);
      SanitizedIsClean(s[i].params);
    }
  }

  lemma CleanIsFixed(s: seq<Rdata>)
    requires AllTyped(s) && AllClean(s)
    ensures SanitizedEach(s) == s
  {
    EachImage(s);
    forall i | 0 <= i < |s| ensures SanitizedRdata(s[i]) == s[i] {
      FixedIffClean(s[i].params);
    }
  }

  /** A second pass changes nothing and counts nothing. */
  lemma SecondPassIsNoop(r: HttpsRRset)
    requires AllTyped(r.records) && Distinct(r.records)
    ensures var q := SanitizedRRset(r);
      AllTyped(q.records) && SanitizedRRset(q) == q
      && Dirty(q.records) == 0 && TotalH3(q.records) == 0 && TotalHints(q.records) == 0
  {
    AnswerIsSanitized(r, Rdata(0, "", map[]));
    CleanTotals(SanitizedRRset(r).records);
  }
}
