/**
  The multiprocess master's response cache and its table of requests in progress, one critical
  section at a time.
 */
module FrontCache {
  import opened Prelude
  import opened Messages
  import opened Text

  /** Names compare without regard to case, so the key holds the lower-case form. */
  datatype Key = Key(name: string, rdtype: nat, rdclass: nat)

  function KeyOf(request: Message): (k: Option<Key>) {
    if request.opcode != OPCODE_QUERY || |request.question| != 1 || request.question[0].rdclass != CLASS_IN then None
    else Some(Key(Lower(request.question[0].name), request.question[0].rdtype, request.question[0].rdclass))
  }

  /** A query with one question, of class IN. */
  predicate IsCacheable(request: Message) {
    request.opcode == 0 && |request.question| == 1 && request.question[0].rdclass == 1
  }

  /** Two such queries for one name up to case, of one type and one class. */
  predicate SameQuery(a: Message, b: Message) {
    && IsCacheable(a) && IsCacheable(b)
    && a.question[0].rdtype == b.question[0].rdtype && a.question[0].rdclass == b.question[0].rdclass
    && SameIgnoringCase(a.question[0].name, b.question[0].name)
  }

  /** Exactly cacheable requests have a key. */
  lemma HasKeyIff(request: Message)
    ensures KeyOf(request).Some? <==> IsCacheable(request)
  {
  }

  /** Requests share a key exactly when they are the same query. */
  lemma SharesKeyIff(a: Message, b: Message)
    ensures KeyOf(a).Some? && KeyOf(a) == KeyOf(b) <==> SameQuery(a, b)
  {
    if IsCacheable(a) && IsCacheable(b) {
      LowerSameIff(a.question[0].name, b.question[0].name);
    }
  }

  datatype Entry = Entry(response: Message, expiration: real)

  /** An event with the holder its owner fills in; `key` records what it was created for. */
  datatype Cell = Cell(key: Key, isSet: bool, wire: Option<Message>)

  /** The cache, the pending table (cells by index), and every cell ever created. */
  datatype Front = Front(entries: map<Key, Entry>, pending: map<Key, nat>, cells: seq<Cell>)

  // ---------- Serving from the cache ----------

  function Truncate(x: real): int {
    if x >= 0.0 then x.Floor else -((-x).Floor)
  }

  function RemainingTtl(expiration: real, now: real): (ttl: int)
    ensures ttl >= 0
  {
    if Truncate(expiration - now) > 0 then Truncate(expiration - now) else 0
  }

  predicate Pseudo(r: RRset) {
    r.rdtype == TYPE_OPT || r.rdtype == TYPE_TSIG
  }

  function Retimed(section: seq<RRset>, ttl: int): (r: seq<RRset>) {
    seq(|section|, i requires 0 <= i < |section| => if Pseudo(section[i]) then section[i] else section[i].(ttl := ttl))
  }

  function Served(entry: Entry, request: Message, now: real): (m: Message) {
    var ttl := RemainingTtl(entry.expiration, now);
    CloneFor(entry.response, request).(
      answer := Retimed(entry.response.answer, ttl),
      authority := Retimed(entry.response.authority, ttl),
      additional := Retimed(entry.response.additional, ttl))
  }

  method RetimeSection(section: seq<RRset>, ttl: int) returns (r: seq<RRset>)
    ensures r == Retimed(section, ttl)
  {
    r := section;
    for i := 0 to |section|
      invariant |r| == |section|
      invariant forall j :: 0 <= j < i ==> r[j] == Retimed(section, ttl)[j]
      invariant forall j :: i <= j < |section| ==> r[j] == section[j]
    {
      if r[i].rdtype == TYPE_OPT || r[i].rdtype == TYPE_TSIG {
        continue;
      }
      r := r[i := r[i].(ttl := ttl)];
    }
  }

  method CloneCached(entry: Entry, request: Message, now: real) returns (m: Message)
    ensures m == Served(entry, request, now)
  {
    m := CloneFor(entry.response, request);
    var ttl := RemainingTtl(entry.expiration, now);
    var sections := [m.answer, m.authority, m.additional];
    for i := 0 to 3
      invariant |sections| == 3
      invariant forall j :: 0 <= j < i ==> sections[j] == Retimed([m.answer, m.authority, m.additional][j], ttl)
      invariant forall j :: i <= j < 3 ==> sections[j] == [m.answer, m.authority, m.additional][j]
    {
      var section := RetimeSection(sections[i], ttl);
      sections := sections[i := section];
    }
    m := m.(answer := sections[0], authority := sections[1], additional := sections[2]);
  }

  /**
    Section 3.2.1 of RFC 1035: the remaining TTL never outlives the entry, is no more than a second short of it,
    and never grows with time.
   */
  lemma ServedTtlIsSafe(entry: Entry, now: real, later: real)
    requires now <= later
    ensures RemainingTtl(entry.expiration, now) == 0
      || now + RemainingTtl(entry.expiration, now) as real <= entry.expiration
    ensures RemainingTtl(entry.expiration, later) <= RemainingTtl(entry.expiration, now)
    ensures entry.expiration >= now ==> entry.expiration < now + RemainingTtl(entry.expiration, now) as real + 1.0
  {
  }

  function Records(m: Message): seq<RRset> {
    m.answer + m.authority + m.additional
  }

  /**
    The record that was stored at this position is served with a TTL bounded by the entry, and the same or a lower
    one later.
   */
  lemma ServedRecordsExpire(entry: Entry, request: Message, now: real, later: real, i: nat)
    requires now <= later && i < |Records(entry.response)|
    ensures |Records(Served(entry, request, now))| == |Records(Served(entry, request, later))|
      == |Records(entry.response)|
    ensures var was, first, second := Records(entry.response)[i], Records(Served(entry, request, now))[i],
      Records(Served(entry, request, later))[i];
      if was.rdtype == 41 || was.rdtype == 250 then first == second == was
      else
        && first.(ttl := was.ttl) == second.(ttl := was.ttl) == was
        && 0 <= second.ttl <= first.ttl && (first.ttl == 0 || now + first.ttl as real <= entry.expiration)
  {
  }

  /** The message without its id and its TTLs. */
  function Untimed(m: Message): Message {
    m.(id := 0,
       answer := Retimed(m.answer, 0),
       authority := Retimed(m.authority, 0),
       additional := Retimed(m.additional, 0))
  }

  /** Equality up to the message id and the TTLs. */
  ghost predicate SameAnswer(m: Message, x: Message) {
    Untimed(m) == Untimed(x)
  }

  lemma ServedIsSameAnswer(entry: Entry, request: Message, now: real)
    ensures SameAnswer(Served(entry, request, now), entry.response)
    ensures Served(entry, request, now).id == request.id
  {
  }

  // ---------- Storing and the pending table ----------

  /** An answer is built from a successful response to a cacheable request. */
  predicate Builds(request: Message, response: Option<Message>) {
    response.Some? && response.value.rcode == NOERROR && KeyOf(request).Some?
  }

  /** Only a response that is also non-empty is stored. */
  predicate Storable(request: Message, response: Option<Message>) {
    Builds(request, response) && response.value.answer != []
  }

  function Put(f: Front, request: Message, response: Option<Message>, expiration: real): (r: Front) {
    if !Storable(request, response) then f
    else f.(entries := f.entries[KeyOf(request).value := Entry(CloneFor(response.value, request), expiration)])
  }

  /** Exactly successful, non-empty responses to cacheable requests are stored. */
  lemma StoredIff(request: Message, response: Option<Message>)
    ensures Storable(request, response) <==>
      IsCacheable(request) && response.Some? && response.value.rcode == 0 && response.value.answer != []
  {
    HasKeyIff(request);
  }

  /** The entry a lookup for this request finds, expired or not. */
  function Found(f: Front, request: Message): Option<Entry> {
    var k := KeyOf(request);
    if k.Some? && k.value in f.entries then Some(f.entries[k.value]) else None
  }

  /** A stored response is found by the same query, with its expiration, and by no other lookup. */
  lemma StoredIsFound(f: Front, request: Message, response: Option<Message>, expiration: real, other: Message)
    requires Storable(request, response)
    ensures var g := Put(f, request, response, expiration);
      if SameQuery(request, other) then
        && Found(g, other).Some? && Found(g, other).value.expiration == expiration
        && SameAnswer(Found(g, other).value.response, response.value)
      else Found(g, other) == Found(f, other)
  {
    SharesKeyIff(request, other);
  }

  /** The caller becomes the owner (None) or a follower of the cell that is already there. */
  function Acquire(f: Front, request: Message): (r: (Front, Option<nat>)) {
    match KeyOf(request)
    case None => (f, None)
    case Some(k) =>
      if k in f.pending then (f, Some(f.pending[k]))
      else (f.(pending := f.pending[k := |f.cells|], cells := f.cells + [Cell(k, false, None)]), None)
  }

  function Complete(f: Front, key: Option<Key>, response: Option<Message>, written: bool): (r: Front) {
    if key.None? || key.value !in f.pending || f.pending[key.value] >= |f.cells| then f
    else
      var c := f.pending[key.value];
      f.(pending := f.pending - {key.value},
         cells := f.cells[c := f.cells[c].(isSet := true, wire := if written then None else response)])
  }

  class FrontCacheObject {
    var entries: map<Key, Entry>
    var pending: map<Key, nat>
    var cells: seq<Cell>

    function View(): Front reads this { Front(entries, pending, cells) }

    ghost predicate Valid() reads this {
      forall k :: k in pending ==> pending[k] < |cells|
    }

    constructor ()
      ensures Valid() && View() == Front(map[], map[], [])
    {
      entries, pending, cells := map[], map[], [];
    }

    /** None on a miss; expired entries are misses. */
    method GetResponse(request: Message, now: real) returns (m: Option<Message>)
      ensures m.Some? <==> Found(View(), request).Some? && now < Found(View(), request).value.expiration
      ensures m.Some? ==> m.value == Served(Found(View(), request).value, request, now)
    {
      var key := KeyOf(request);
      if key.None? || key.value !in entries || entries[key.value].expiration <= now {
        return None;
      }
      var served := CloneCached(entries[key.value], request, now);
      return Some(served);
    }

    /** `expiration` is the library's, or None when building the answer raises; then nothing is stored. */
    method PutResponse(request: Message, response: Option<Message>, expiration: Option<real>)
      returns (written: bool, raised: bool)
      modifies this`entries
      ensures raised <==> Builds(request, response) && expiration.None?
      ensures raised ==> !written && View() == old(View())
      ensures !raised ==> written == Storable(request, response)
      ensures expiration.Some? ==> View() == Put(old(View()), request, response, expiration.value)
    {
      if response.None? || response.value.rcode != NOERROR {
        return false, false;
      }
      var key := KeyOf(request);
      if key.None? {
        return false, false;
      }
      if expiration.None? {
        return false, true;
      }
      if response.value.answer == [] {
        return false, false;
      }
      entries := entries[key.value := Entry(CloneFor(response.value, request), expiration.value)];
      return true, false;
    }

    method AcquirePending(request: Message) returns (key: Option<Key>, cell: Option<nat>)
      requires Valid()
      modifies this`pending, this`cells
      ensures Valid() && key == KeyOf(request)
      ensures (View(), cell) == Acquire(old(View()), request)
    {
      key := KeyOf(request);
      if key.None? {
        return key, None;
      }
      if key.value in pending {
        return key, Some(pending[key.value]);
      }
      pending, cells := pending[key.value := |cells|], cells + [Cell(key.value, false, None)];
      return key, None;
    }

    method CompletePending(key: Option<Key>, response: Option<Message>, written: bool)
      requires Valid()
      modifies this`pending, this`cells
      ensures Valid() && View() == Complete(old(View()), key, response, written)
    {
      if key.None? || key.value !in pending {
        return;
      }
      var c := pending[key.value];
      pending := pending - {key.value};
      cells := cells[c := cells[c].(wire := if written || response.None? then None else response)];
      cells := cells[c := cells[c].(isSet := true)];
    }
  }
}
