/**
  The domain tag index: entries are stored under their reversed labels, and a query collects the tags of
  every stored key that is a string prefix of its own reversed form.
 */
module DomainIndex {
  import opened Prelude
  import opened Text

  // ---------- Splitting and joining ----------

  function Split(s: string, sep: char): (parts: seq<string>)
    ensures parts != [] && forall k :: 0 <= k < |parts| ==> sep !in parts[k]
    decreases |s|
  {
    if sep !in s then [s]
    else
      var i := IndexOf(s, sep);
      [s[..i]] + Split(s[i + 1..], sep)
  }

  function Join(parts: seq<string>, sep: char): (s: string) {
    if parts == [] then "" else if |parts| == 1 then parts[0] else parts[0] + [sep] + Join(parts[1..], sep)
  }

  ghost predicate Free(parts: seq<string>, sep: char) {
    forall k :: 0 <= k < |parts| ==> sep !in parts[k]
  }

  lemma FirstSeparator(a: string, b: string, sep: char)
    requires sep !in a
    ensures sep in a + [sep] + b && IndexOf(a + [sep] + b, sep) == |a|
  {
    var s := a + [sep] + b;
    assert s[|a|] == sep;
    assert forall j :: 0 <= j < |a| ==> s[j] == a[j];
  }

  lemma {:induction false} SplitOfJoin(parts: seq<string>, sep: char)
    requires parts != [] && Free(parts, sep)
    ensures Split(Join(parts, sep), sep) == parts
  {
    if |parts| > 1 {
      var rest := Join(parts[1..], sep);
      FirstSeparator(parts[0], rest, sep);
      var s := parts[0] + [sep] + rest;
      assert s[..|parts[0]|] == parts[0] && s[|parts[0]| + 1..] == rest;
      SplitOfJoin(parts[1..], sep);
    }
  }

  // ---------- Reversed domains ----------

  predicate IsMarked(s: string) {
    |s| >= 2 && s[0] == '+' && s[1] == '.'
  }

  /** None stands for the ValueError of an empty name. */
  function Normalize(value: string): (r: Option<string>)
    ensures r.Some? ==> r.value != ""
  {
    var c := Canonical(value);
    var n := if IsMarked(c) then c[2..] else c;
    if n == "" then None else Some(n)
  }

  /** A line of a tag file without outer blanks and trailing dots. */
  function Core(line: string): string {
    StripDots(Strip(line))
  }

  /** Nothing is left to strip: no blank uncovered by stripping dots or the marker, and no second marker. */
  predicate IsSteadyCore(core: string) {
    && core != "" && !IsSpace(core[|core| - 1])
    && (IsMarked(core) ==> |core| > 2 && !IsSpace(core[2]) && !IsMarked(core[2..]))
  }

  predicate IsSteady(line: string) {
    IsSteadyCore(Core(line))
  }

  lemma LowerKeeps(s: string)
    ensures |Lower(s)| == |s|
    ensures forall i :: 0 <= i < |s| ==> (IsSpace(Lower(s)[i]) <==> IsSpace(s[i]))
    ensures forall i :: 0 <= i < |s| ==> (Lower(s)[i] == '.' <==> s[i] == '.') && (Lower(s)[i] == '+' <==> s[i] == '+')
  {
  }

  /** A name in lower case without a trailing dot is left alone exactly when it has no outer blank and no marker. */
  lemma NormalizeFixedIff(n: string)
    requires n != "" && Lower(n) == n && n[|n| - 1] != '.'
    ensures Normalize(n) == Some(n) <==> !IsSpace(n[0]) && !IsSpace(n[|n| - 1]) && !IsMarked(n)
  {
    CanonicalFixedIff(n);
    assert |Canonical(n)| <= |n|;
  }

  lemma SuffixOfLower(c: string, k: nat)
    requires Lower(c) == c && k < |c|
    ensures Lower(c[k..]) == c[k..] && c[k..][|c| - k - 1] == c[|c| - 1]
  {
    forall i | 0 <= i < |c| - k ensures Lower(c[k..])[i] == c[k..][i] {
      assert Lower(c)[i + k] == c[i + k];
    }
  }

  lemma MarkedLower(s: string)
    ensures IsMarked(Lower(s)) <==> IsMarked(s)
  {
    if |s| >= 2 {
      assert Lower(s)[0] == LowerChar(s[0]) && Lower(s)[1] == LowerChar(s[1]);
    }
  }

  /** The normalised line is a suffix of the lower-case core, which does not end in a dot. */
  lemma NormalizedIs(line: string) returns (core: string, n: string)
    requires Normalize(line).Some?
    ensures core == Core(line) && n == Normalize(line).value
    ensures core != "" && core[|core| - 1] != '.' && IsRest(core, n)
  {
    core := Core(line);
    MarkedLower(core);
    n := Normalize(line).value;
  }

  lemma ShapeOfSuffix(core: string, k: nat, n: string)
    requires k < |core| && core[|core| - 1] != '.' && n == Lower(core)[k..]
    ensures n != "" && Lower(n) == n && n[|n| - 1] != '.' && IsSpace(n[|n| - 1]) == IsSpace(core[|core| - 1])
  {
    LowerTwice(core);
    SuffixOfLower(Lower(core), k);
    assert Lower(core)[|core| - 1] == LowerChar(core[|core| - 1]);
  }

  lemma LowerTwice(s: string)
    ensures Lower(Lower(s)) == Lower(s)
  {
  }

  /**
    Domains of tag files are normalised when the file is read and again when they are indexed. The second pass
    changes nothing exactly when the line is steady.
   */
  lemma NormalizeTwiceIff(line: string)
    requires Normalize(line).Some?
    ensures Normalize(Normalize(line).value) == Normalize(line) <==> IsSteady(line)
  {
    var core, n := NormalizedIs(line);
    CoreStartsClean(line);
    FixedIffSteadyCore(core, n);
  }

  ghost predicate IsRest(core: string, n: string) {
    n != "" && n == Lower(core)[if IsMarked(core) then 2 else 0..]
  }

  lemma FixedIffSteadyCore(core: string, n: string)
    requires core != "" && !IsSpace(core[0]) && core[|core| - 1] != '.' && IsRest(core, n)
    ensures Normalize(n) == Some(n) <==> IsSteadyCore(core)
  {
    ShapeOfSuffix(core, if IsMarked(core) then 2 else 0, n);
    SteadyOnCore(core, n);
    NormalizeFixedIff(n);
  }

  lemma SteadyOnCore(core: string, n: string)
    requires core != "" && !IsSpace(core[0]) && IsRest(core, n)
    requires IsSpace(n[|n| - 1]) == IsSpace(core[|core| - 1])
    ensures !IsSpace(n[0]) && !IsSpace(n[|n| - 1]) && !IsMarked(n) <==> IsSteadyCore(core)
  {
    LowerKeeps(core);
    if IsMarked(core) {
      SecondMarker(core);
    } else {
      assert n == Lower(core);
    }
  }

  lemma SecondMarker(core: string)
    requires |core| > 2
    ensures IsSpace(Lower(core)[2..][0]) == IsSpace(core[2]) && IsMarked(Lower(core)[2..]) == IsMarked(core[2..])
  {
    LowerKeeps(core);
  }

  lemma CoreStartsClean(line: string)
    requires Core(line) != ""
    ensures !IsSpace(Core(line)[0])
  {
    var left := StripLeft(line);
    var right := StripRight(left);
    assert Core(line)[0] == right[0] == left[0];
  }

  /** A doubled marker is a line on which the two passes differ. */
  lemma NormalizeTwiceCanDiffer()
    ensures Normalize("+.+.com") == Some("+.com") && !IsSteady("+.+.com")
  {
    var line := "+.+.com";
    assert Lower(line) == line;
    CanonicalFixedIff(line);
    assert !IsMarked(Core(line)[2..]) ==> Core(line) != line;
    CoreOfCanonical(line);
  }

  lemma CoreOfCanonical(line: string)
    requires Canonical(line) == line
    ensures Core(line) == line
  {
    assert |Core(line)| == |Canonical(line)|;
    assert |StripDots(Strip(line))| <= |StripRight(StripLeft(line))| <= |StripLeft(line)| <= |line|;
  }

  function Labels(name: string): (ls: seq<string>)
    ensures ls != [] && Free(ls, '.')
  {
    Split(name, '.')
  }

  function Reverse<T>(s: seq<T>): (r: seq<T>)
    ensures |r| == |s| && forall i :: 0 <= i < |s| ==> r[i] == s[|s| - 1 - i]
  {
    seq(|s|, i requires 0 <= i < |s| => s[|s| - 1 - i])
  }

  function ReversedName(name: string): (r: string) {
    Join(Reverse(Labels(name)), '.') + "."
  }

  function ReverseDomain(value: string): (r: Option<string>) {
    var n := Normalize(value);
    if n.None? then None else Some(ReversedName(n.value))
  }

  /** Every label followed by a dot. */
  ghost function Dotted(labels: seq<string>): string {
    if labels == [] then "" else labels[0] + "." + Dotted(labels[1..])
  }

  lemma {:induction false} JoinIsDotted(labels: seq<string>)
    requires labels != []
    ensures Join(labels, '.') + "." == Dotted(labels)
  {
    if |labels| > 1 {
      JoinIsDotted(labels[1..]);
      var rest := Join(labels[1..], '.');
      assert labels[0] + "." + rest + "." == labels[0] + "." + (rest + ".");
    } else {
      assert Dotted(labels[1..]) == "";
      assert labels[0] + "." + "" == labels[0] + ".";
    }
  }

  lemma IndexInPrefix(a: string, b: string, c: char)
    requires a <= b && c in a
    ensures c in b && IndexOf(a, c) == IndexOf(b, c)
  {
  }

  lemma PrefixAcrossSeparator(x: string, y: string, u: string, v: string, sep: char)
    requires sep !in x && sep !in u
    ensures x + [sep] + y <= u + [sep] + v <==> x == u && y <= v
  {
    var s, t := x + [sep] + y, u + [sep] + v;
    FirstSeparator(x, y, sep);
    FirstSeparator(u, v, sep);
    if s <= t {
      IndexInPrefix(s, t, sep);
      assert x == s[..|x|] == t[..|x|] == u;
      assert y == s[|x| + 1..] == t[|x| + 1..|s|] == v[..|y|];
    }
    if x == u && y <= v {
      assert t == s + v[|y|..];
    }
  }

  /** The trailing dot makes labels a prefix code, even when labels are empty. */
  lemma {:induction false} DottedIsPrefixCode(a: seq<string>, b: seq<string>)
    requires Free(a, '.') && Free(b, '.')
    ensures Dotted(a) <= Dotted(b) <==> a <= b
  {
    if a != [] {
      if b != [] {
        PrefixAcrossSeparator(a[0], Dotted(a[1..]), b[0], Dotted(b[1..]), '.');
        DottedIsPrefixCode(a[1..], b[1..]);
        assert a == [a[0]] + a[1..] && b == [b[0]] + b[1..];
      }
    }
  }

  ghost predicate IsSuffix<T>(a: seq<T>, b: seq<T>) {
    |a| <= |b| && b[|b| - |a|..] == a
  }

  lemma ReverseTurnsSuffixIntoPrefix<T>(a: seq<T>, b: seq<T>)
    ensures IsSuffix(a, b) <==> Reverse(a) <= Reverse(b)
  {
    if |a| <= |b| {
      var tail := b[|b| - |a|..];
      if Reverse(a) <= Reverse(b) {
        forall i | 0 <= i < |a| ensures tail[i] == a[i] {
          assert Reverse(a)[|a| - 1 - i] == Reverse(b)[|a| - 1 - i];
        }
        assert tail == a;
      }
      if tail == a {
        forall i | 0 <= i < |a| ensures Reverse(a)[i] == Reverse(b)[i] {
          assert tail[|a| - 1 - i] == a[|a| - 1 - i];
        }
        assert Reverse(a) == Reverse(b)[..|a|];
      }
    }
  }

  /**
    A stored key is a prefix of the query's reversed form exactly when its labels are a suffix of the query's
    labels.
   */
  lemma PrefixIffLabelSuffix(d: string, q: string)
    ensures ReversedName(d) <= ReversedName(q) <==> IsSuffix(Labels(d), Labels(q))
  {
    JoinIsDotted(Reverse(Labels(d)));
    JoinIsDotted(Reverse(Labels(q)));
    DottedIsPrefixCode(Reverse(Labels(d)), Reverse(Labels(q)));
    ReverseTurnsSuffixIntoPrefix(Labels(d), Labels(q));
  }

  lemma {:induction false} JoinOfSplit(s: string, sep: char)
    ensures Join(Split(s, sep), sep) == s
    decreases |s|
  {
    if sep in s {
      var i := IndexOf(s, sep);
      var head, rest := s[..i], Split(s[i + 1..], sep);
      JoinOfSplit(s[i + 1..], sep);
      JoinHead(head, rest, sep);
      assert s == head + [sep] + s[i + 1..];
    }
  }

  lemma JoinHead(head: string, rest: seq<string>, sep: char)
    requires rest != []
    ensures Join([head] + rest, sep) == head + [sep] + Join(rest, sep)
  {
    assert ([head] + rest)[1..] == rest;
  }

  /** Names with the same labels are the same. */
  lemma LabelsDetermineName(a: string, b: string)
    requires Labels(a) == Labels(b)
    ensures a == b
  {
    JoinOfSplit(a, '.');
    JoinOfSplit(b, '.');
  }

  // ---------- Tag values ----------

  const SEPARATOR: char := '\0'

  function EncodeTags(tags: seq<string>): string {
    Join(tags, SEPARATOR)
  }

  function DecodeTags(value: string): (r: set<string>) {
    set t | t in Split(value, SEPARATOR) && t != ""
  }

  predicate CleanTag(t: string) {
    t != "" && SEPARATOR !in t
  }

  /** Decoding gives back the encoded tags exactly when all of them are non-empty and free of the separator. */
  lemma TagRoundTripIff(tags: seq<string>)
    ensures DecodeTags(EncodeTags(tags)) == Elems(tags) <==> forall t :: t in tags ==> CleanTag(t)
  {
    if forall t :: t in tags ==> CleanTag(t) {
      if tags == [] {
        assert Split("", SEPARATOR) == [""];
        assert DecodeTags("") == {};
      } else {
        assert forall k :: 0 <= k < |tags| ==> CleanTag(tags[k]);
        SplitOfJoin(tags, SEPARATOR);
      }
    } else {
      var t :| t in tags && !CleanTag(t);
      assert t !in DecodeTags(EncodeTags(tags));
    }
  }

  // ---------- The index ----------

  /** A tag with a domain of its file, already normalised once when the file was read. */
  datatype Tagged = Tagged(tag: string, domain: string)

  /** A tag under the key its domain is stored at. */
  datatype Keyed = Keyed(tag: string, key: string)

  /** The key of an entry; its domain is normalised a second time here. */
  function KeyOf(e: Tagged): (k: Option<string>) {
    ReverseDomain(e.domain)
  }

  /** Every entry under its key. */
  ghost predicate KeyedAs(entries: seq<Tagged>, keyed: seq<Keyed>) {
    && |keyed| == |entries|
    && forall i :: 0 <= i < |entries| ==> KeyOf(entries[i]) == Some(keyed[i].key) && keyed[i].tag == entries[i].tag
  }

  function TagsAt(index: map<string, set<string>>, key: string): set<string> {
    if key in index then index[key] else {}
  }

  /** The dictionary holds exactly the tags of the keyed entries. */
  ghost predicate Indexes(index: map<string, set<string>>, keyed: seq<Keyed>) {
    && (forall k, t :: t in TagsAt(index, k) <==> Keyed(t, k) in keyed)
    && (forall k :: k in index ==> index[k] != {})
  }

  /** The key of every entry; None when some domain normalises to nothing. */
  function KeysOf(entries: seq<Tagged>): (keyed: Option<seq<Keyed>>)
    ensures keyed.Some? ==> KeyedAs(entries, keyed.value)
    ensures (forall e :: e in entries ==> KeyOf(e).Some?) ==> keyed.Some?
  {
    if forall i :: 0 <= i < |entries| ==> KeyOf(entries[i]).Some?
    then Some(seq(|entries|, i requires 0 <= i < |entries| => Keyed(entries[i].tag, KeyOf(entries[i]).value)))
    else None
  }

  /** One dictionary slot per reversed domain. */
  method BuildEntries(keyed: seq<Keyed>) returns (index: map<string, set<string>>)
    ensures Indexes(index, keyed)
  {
    index := map[];
    for i := 0 to |keyed|
      invariant Indexes(index, keyed[..i])
    {
      var e := keyed[i];
      var updated := index[e.key := TagsAt(index, e.key) + {e.tag}];
      AddedTag(index, updated, keyed[..i], e);
      assert keyed[..i + 1] == keyed[..i] + [e];
      index := updated;
    }
    assert keyed[..|keyed|] == keyed;
  }

  lemma AddedTag(before: map<string, set<string>>, after: map<string, set<string>>, keyed: seq<Keyed>, e: Keyed)
    requires Indexes(before, keyed) && after == before[e.key := TagsAt(before, e.key) + {e.tag}]
    ensures Indexes(after, keyed + [e])
  {
  }

  /** The trie: each key with its encoded tags. */
  ghost predicate Encodes(trie: map<string, string>, keyed: seq<Keyed>) {
    && (forall k :: k in trie ==> forall t :: t in DecodeTags(trie[k]) <==> Keyed(t, k) in keyed)
    && (forall k :: k in trie ==> exists e :: e in keyed && e.key == k)
    && (forall e :: e in keyed ==> e.key in trie)
  }

  /** Encoding each slot, in any order of its tags, loses nothing when the tags are clean. */
  method BuildTrie(index: map<string, set<string>>, ghost keyed: seq<Keyed>, sorted: set<string> -> seq<string>)
      returns (trie: map<string, string>)
    requires Indexes(index, keyed) && (forall s :: Elems(sorted(s)) == s)
    requires forall e :: e in keyed ==> CleanTag(e.tag)
    ensures Encodes(trie, keyed)
  {
    trie := map k | k in index :: EncodeTags(sorted(index[k]));
    forall k, t | k in trie ensures t in DecodeTags(trie[k]) <==> Keyed(t, k) in keyed {
      SlotIsClean(index, keyed, k);
      assert Elems(sorted(index[k])) == index[k];
      assert forall x :: x in sorted(index[k]) ==> CleanTag(x);
      TagRoundTripIff(sorted(index[k]));
      assert TagsAt(index, k) == index[k];
    }
    forall k | k in trie ensures exists e :: e in keyed && e.key == k {
      var t :| t in index[k];
      assert t in TagsAt(index, k);
      assert Keyed(t, k) in keyed;
    }
    forall e | e in keyed ensures e.key in trie {
      assert Keyed(e.tag, e.key) in keyed;
      assert e.tag in TagsAt(index, e.key);
    }
  }

  lemma SlotIsClean(index: map<string, set<string>>, keyed: seq<Keyed>, k: string)
    requires Indexes(index, keyed) && k in index && forall e :: e in keyed ==> CleanTag(e.tag)
    ensures forall t :: t in index[k] ==> CleanTag(t)
  {
    forall t | t in index[k] ensures CleanTag(t) {
      assert t in TagsAt(index, k);
      assert Keyed(t, k) in keyed;
    }
  }

  /**
    The union of the tags of all stored keys that are prefixes of the reversed query. An empty index answers
    without looking at the query; otherwise an empty name is an error.
   */
  method Lookup(trie: map<string, string>, qname: string) returns (tags: Option<set<string>>)
    ensures tags.None? <==> trie != map[] && Normalize(qname).None?
    ensures tags.Some? && Normalize(qname).None? ==> tags.value == {}
    ensures tags.Some? && Normalize(qname).Some? ==> forall t :: t in tags.value <==> Finds(trie, qname, t)
  {
    if trie == map[] {
      return Some({});
    }
    var reversed := ReverseDomain(qname);
    if reversed.None? {
      return None;
    }
    var r := reversed.value;
    var found: set<string> := {};
    for n := 0 to |r| + 1
      invariant forall t :: t in found <==> exists k :: k in trie && k <= r && |k| < n && t in DecodeTags(trie[k])
    {
      var prefix := r[..n];
      ghost var before := found;
      if prefix in trie {
        found := found + DecodeTags(trie[prefix]);
      }
      forall k | k in trie && k <= r && |k| == n ensures k == prefix {}
      forall t ensures t in found <==> exists k :: k in trie && k <= r && |k| < n + 1 && t in DecodeTags(trie[k]) {
        if t in found && t !in before { assert prefix in trie && prefix <= r; }
      }
    }
    return Some(found);
  }

  /** A stored prefix of the query holds tags of an entry that covers the query. */
  lemma StoredPrefixCovers(entries: seq<Tagged>, keyed: seq<Keyed>, i: nat, q: string)
    requires KeyedAs(entries, keyed) && i < |entries| && Normalize(q).Some?
    ensures keyed[i].key <= ReverseDomain(q).value <==> Covers(entries[i].domain, q)
  {
    PrefixIffLabelSuffix(Normalize(entries[i].domain).value, Normalize(q).value);
  }

  /** The tag is found under a stored key that is a prefix of the reversed query. */
  ghost predicate Finds(trie: map<string, string>, q: string, t: string)
    requires Normalize(q).Some?
  {
    exists k :: k in trie && k <= ReverseDomain(q).value && t in DecodeTags(trie[k])
  }

  /** Some entry with the tag covers the query. */
  ghost predicate IsTagged(entries: seq<Tagged>, q: string, t: string) {
    exists i :: 0 <= i < |entries| && entries[i].tag == t && Covers(entries[i].domain, q)
  }

  lemma FoundIsTagged(
      entries: seq<Tagged>, keyed: seq<Keyed>, trie: map<string, string>, q: string, t: string, k: string)
    requires KeyedAs(entries, keyed) && Encodes(trie, keyed) && Normalize(q).Some?
    requires k in trie && k <= ReverseDomain(q).value && t in DecodeTags(trie[k])
    ensures IsTagged(entries, q, t)
  {
    assert Keyed(t, k) in keyed;
    var i :| 0 <= i < |keyed| && keyed[i] == Keyed(t, k);
    StoredPrefixCovers(entries, keyed, i, q);
  }

  lemma TaggedIsFound(
      entries: seq<Tagged>, keyed: seq<Keyed>, trie: map<string, string>, q: string, t: string, i: nat)
    requires KeyedAs(entries, keyed) && Encodes(trie, keyed) && Normalize(q).Some?
    requires i < |entries| && entries[i].tag == t && Covers(entries[i].domain, q)
    ensures Finds(trie, q, t)
  {
    StoredPrefixCovers(entries, keyed, i, q);
    var k := keyed[i].key;
    assert keyed[i] in keyed && keyed[i] == Keyed(t, k);
    assert k in trie && t in DecodeTags(trie[k]);
  }

  /**
    For all entries and queries: the lookup returns exactly the tags of the entries whose labels are a
    suffix of the query's labels.
   */
  lemma LookupIsLabelSuffixMatch(
      entries: seq<Tagged>, keyed: seq<Keyed>, trie: map<string, string>, q: string, t: string)
    requires KeyedAs(entries, keyed) && Encodes(trie, keyed) && Normalize(q).Some?
    ensures Finds(trie, q, t) <==> IsTagged(entries, q, t)
  {
    if Finds(trie, q, t) {
      var k :| k in trie && k <= ReverseDomain(q).value && t in DecodeTags(trie[k]);
      FoundIsTagged(entries, keyed, trie, q, t, k);
    }
    if IsTagged(entries, q, t) {
      var i :| 0 <= i < |entries| && entries[i].tag == t && Covers(entries[i].domain, q);
      TaggedIsFound(entries, keyed, trie, q, t, i);
    }
  }

  /**
    From tag files to a query's tags: exactly those of the entries that cover the query. An entry that
    normalises to nothing is an error, and so is an empty query unless there are no entries.
   */
  method TagsOf(entries: seq<Tagged>, sorted: set<string> -> seq<string>, q: string) returns (tags: Option<set<string>>)
    requires forall s :: Elems(sorted(s)) == s
    requires forall e :: e in entries ==> CleanTag(e.tag)
    ensures tags.None? <==>
      (exists e :: e in entries && Normalize(e.domain).None?) || (entries != [] && Normalize(q).None?)
    ensures tags.Some? ==> forall t :: t in tags.value <==> IsTagged(entries, q, t)
  {
    var keys := KeysOf(entries);
    if keys.None? {
      return None;
    }
    var keyed := keys.value;
    forall e | e in keyed ensures CleanTag(e.tag) {
      var i :| 0 <= i < |keyed| && keyed[i] == e;
      assert entries[i] in entries;
    }
    var index := BuildEntries(keyed);
    var trie := BuildTrie(index, keyed, sorted);
    EmptyTrie(trie, keyed);
    tags := Lookup(trie, q);
    if Normalize(q).Some? {
      forall t ensures t in tags.value <==> IsTagged(entries, q, t) {
        LookupIsLabelSuffixMatch(entries, keyed, trie, q, t);
      }
    }
  }

  lemma EmptyTrie(trie: map<string, string>, keyed: seq<Keyed>)
    requires Encodes(trie, keyed)
    ensures trie == map[] <==> keyed == []
  {
    if keyed != [] {
      assert keyed[0] in keyed;
    }
    if k :| k in trie {
      assert exists e :: e in keyed && e.key == k;
    }
  }

  /**
    An entry of the index covers the same queries as the line it was read from exactly when the line is steady.
   */
  lemma EntryCoversAsLineIff(line: string)
    requires Normalize(line).Some?
    ensures (forall q :: Covers(Normalize(line).value, q) <==> Covers(line, q)) <==> IsSteady(line)
  {
    NormalizeTwiceIff(line);
    var n := Normalize(line).value;
    if forall q :: Covers(n, q) <==> Covers(line, q) {
      assert Covers(line, line);
      assert Covers(n, line);
      assert Covers(n, n);
      assert Covers(line, n);
      LabelsDetermineName(n, Normalize(n).value);
    }
  }

  /** The query is the domain itself or lies below it. */
  ghost predicate Covers(domain: string, q: string) {
    Normalize(domain).Some? && Normalize(q).Some?
      && IsSuffix(Labels(Normalize(domain).value), Labels(Normalize(q).value))
  }
}
