/** The cache of encoded results, bounded in entries and in bytes, as locked sections that interleave. */
module ResultsCache {
  import opened Common

  datatype Key = Key(selectedRange: int, agent: int, dashboard: bool)

  type Data = seq<bv8>

  datatype Entry = Entry(data: Data, expiresAt: int)

  /** Limits of zero or less are no limits. */
  datatype Config = Config(ttl: int, maxEntries: int, maxBytes: int)

  type Entries = map<Key, Entry>

  ghost function Size(m: Entries): nat {
    if m == map[] then 0
    else
      var k :| k in m;
      |m[k].data| + Size(m - {k})
  }

  lemma {:induction false} SizeWithout(m: Entries, k: Key)
    requires k in m
    ensures Size(m) == |m[k].data| + Size(m - {k})
  {
    var j :| j in m && Size(m) == |m[j].data| + Size(m - {j});
    if j != k {
      SizeWithout(m - {j}, k);
      SizeWithout(m - {k}, j);
      assert m - {j} - {k} == m - {k} - {j};
    }
  }

  lemma SizeWith(m: Entries, k: Key, e: Entry)
    requires k !in m
    ensures Size(m[k := e]) == |e.data| + Size(m)
  {
    SizeWithout(m[k := e], k);
    assert m[k := e] - {k} == m;
  }

  // ----- What the sections do

  datatype State = State(entries: Entries, bytes: int)

  /** Room is wanting for one more entry of length bytes. */
  predicate Over(c: Config, count: int, bytes: int, length: int) {
    (c.maxEntries > 0 && count >= c.maxEntries) || (c.maxBytes > 0 && bytes + length > c.maxBytes)
  }

  predicate Accepts(c: Config, data: Data) {
    c.ttl > 0 && !(c.maxBytes > 0 && |data| > c.maxBytes)
  }

  /** Entries that a set at this time does not find expired, other than its own. */
  function Live(m: Entries, key: Key, now: int): Entries {
    map k | k in m && k != key && now < m[k].expiresAt :: m[k]
  }

  /** kept is live without some of its oldest entries, and with the last one evicted there was no room. */
  ghost predicate Trimmed(c: Config, live: Entries, kept: Entries, length: int) {
    && kept.Keys <= live.Keys
    && (forall k :: k in kept ==> kept[k] == live[k])
    && (forall e, k :: e in live && e !in kept && k in kept ==> live[e].expiresAt <= kept[k].expiresAt)
    && (kept != live ==>
          exists e :: e in live && e !in kept && Over(c, |kept| + 1, Size(kept) + |live[e].data|, length))
  }

  /** Trimmed, and now there is room: no more is evicted than needed. */
  ghost predicate Evicted(c: Config, live: Entries, kept: Entries, length: int) {
    Trimmed(c, live, kept, length) && !Over(c, |kept|, Size(kept), length)
  }

  predicate FirstToExpire(m: Entries, oldest: Key) {
    oldest in m && forall k :: k in m ==> m[oldest].expiresAt <= m[k].expiresAt
  }

  lemma TrimOne(c: Config, live: Entries, kept: Entries, length: int, oldest: Key)
    requires Trimmed(c, live, kept, length) && Over(c, |kept|, Size(kept), length) && FirstToExpire(kept, oldest)
    ensures Trimmed(c, live, kept - {oldest}, length)
  {
    SizeWithout(kept, oldest);
    OneFewer(kept, oldest);
  }

  /** The section of set. */
  ghost predicate SetStep(c: Config, s: State, key: Key, data: Data, now: int, s': State) {
    if !Accepts(c, data) then s' == s
    else
      && key in s'.entries && s'.entries[key] == Entry(data, now + c.ttl)
      && Evicted(c, Live(s.entries, key, now), s'.entries - {key}, |data|)
      && s'.bytes == Size(s'.entries)
  }

  /** The second section of get: whatever the key holds by now is removed if it is expired. */
  function Removed(s: State, key: Key, now: int): State {
    if key in s.entries && now > s.entries[key].expiresAt
    then State(s.entries - {key}, s.bytes - |s.entries[key].data|)
    else s
  }

  /** The first section of get. */
  function Lookup(s: State, key: Key, now: int): Option<Data> {
    if key in s.entries && now <= s.entries[key].expiresAt then Some(s.entries[key].data) else None
  }

  ghost predicate Consistent(c: Config, s: State) {
    && s.bytes == Size(s.entries)
    && (c.maxEntries > 0 ==> |s.entries| <= c.maxEntries)
    && (c.maxBytes > 0 ==> s.bytes <= c.maxBytes)
  }

  // ----- The class

  class ResultsCache {
    const ttl: int
    const maxEntries: int
    const maxBytes: int
    var bytes: int
    var entries: Entries

    constructor (ttl: int, maxEntries: int, maxBytes: int)
      ensures Valid() && Contents() == State(map[], 0) && Limits() == Config(ttl, maxEntries, maxBytes)
    {
      this.ttl, this.maxEntries, this.maxBytes := ttl, maxEntries, maxBytes;
      bytes, entries := 0, map[];
    }

    function Limits(): Config {
      Config(ttl, maxEntries, maxBytes)
    }

    function Contents(): State
      reads this
    {
      State(entries, bytes)
    }

    ghost predicate Valid()
      reads this
    {
      Consistent(Limits(), Contents()) && forall k :: k in entries ==> entries[k].expiresAt > 0
    }

    /** The read-locked section of get; stale asks for the second section. */
    method Find(key: Key, now: int) returns (data: Option<Data>, stale: bool)
      ensures data == Lookup(Contents(), key, now)
      ensures stale <==> key in entries && data == None
    {
      if key !in entries {
        return None, false;
      }
      if now > entries[key].expiresAt {
        return None, true;
      }
      return Some(entries[key].data), false;
    }

    /** The write-locked section of get, with the time taken before the first one. */
    method RemoveExpired(key: Key, now: int)
      requires Valid()
      modifies this
      ensures Valid() && Contents() == Removed(old(Contents()), key, now)
    {
      if key in entries && now > entries[key].expiresAt {
        SizeWithout(entries, key);
        bytes := bytes - |entries[key].data|;
        entries := entries - {key};
      }
    }

    method Clear()
      modifies this
      ensures Valid() && Contents() == State(map[], 0)
    {
      entries := map[];
      bytes := 0;
    }

    /** First loop of set, in any order. */
    method Purge(now: int)
      requires bytes == Size(entries)
      modifies this
      ensures entries == map k | k in old(entries) && now < old(entries)[k].expiresAt :: old(entries)[k]
      ensures bytes == Size(entries)
    {
      var all := entries;
      var left := all.Keys;
      while left != {}
        invariant left <= all.Keys
        invariant entries == map k | k in all && (k in left || now < all[k].expiresAt) :: all[k]
        invariant bytes == Size(entries)
        decreases |left|
      {
        var k :| k in left;
        left := left - {k};
        if entries[k].expiresAt <= now {
          SizeWithout(entries, k);
          bytes := bytes - |entries[k].data|;
          entries := entries - {k};
        }
      }
    }

    /** The scan for the entry that expires first; the zero time stands for none seen yet. */
    method Oldest() returns (oldestKey: Key)
      requires entries != map[]
      requires forall k :: k in entries ==> entries[k].expiresAt > 0
      ensures FirstToExpire(entries, oldestKey)
    {
      var left, oldestExpiry := entries.Keys, 0;
      oldestKey :| oldestKey in entries;
      while left != {}
        invariant left <= entries.Keys && oldestKey in entries
        invariant oldestExpiry == 0 ==> left == entries.Keys
        invariant oldestExpiry != 0 ==> oldestExpiry == entries[oldestKey].expiresAt
        invariant oldestExpiry != 0 ==> forall k :: k in entries && k !in left ==> oldestExpiry <= entries[k].expiresAt
        decreases |left|
      {
        var k :| k in left;
        left := left - {k};
        if oldestExpiry == 0 || entries[k].expiresAt < oldestExpiry {
          oldestKey, oldestExpiry := k, entries[k].expiresAt;
        }
      }
    }

    method EvictOldest()
      requires entries != map[] && bytes == Size(entries)
      requires forall k :: k in entries ==> entries[k].expiresAt > 0
      modifies this
      ensures exists k :: FirstToExpire(old(entries), k) && entries == old(entries) - {k}
      ensures bytes == Size(entries) && |entries| < |old(entries)|
      ensures forall k :: k in entries ==> entries[k].expiresAt > 0
    {
      var oldest := Oldest();
      SizeWithout(entries, oldest);
      OneFewer(entries, oldest);
      bytes := bytes - |entries[oldest].data|;
      entries := entries - {oldest};
    }

    /** Second loop of set. */
    method Evict(length: nat)
      requires bytes == Size(entries) && !(maxBytes > 0 && length > maxBytes)
      requires forall k :: k in entries ==> entries[k].expiresAt > 0
      modifies this
      ensures bytes == Size(entries) && Evicted(Limits(), old(entries), entries, length)
      ensures forall k :: k in entries ==> entries[k].expiresAt > 0
    {
      ghost var live := entries;
      hide Trimmed, FirstToExpire, Size;
      NothingTrimmed(Limits(), live, length);
      while Over(Limits(), |entries|, bytes, length)
        invariant bytes == Size(entries) && Trimmed(Limits(), live, entries, length)
        invariant forall k :: k in entries ==> entries[k].expiresAt > 0
        decreases |entries|
      {
        ghost var kept := entries;
        EmptyHasRoom(Limits(), entries, length);
        EvictOldest();
        ghost var oldest :| FirstToExpire(kept, oldest) && entries == kept - {oldest};
        TrimOne(Limits(), live, kept, length, oldest);
      }
    }

    /** Makes way for the key's new entry. */
    method MakeRoom(key: Key, length: nat, now: int)
      requires Valid() && !(maxBytes > 0 && length > maxBytes)
      modifies this
      ensures bytes == Size(entries) && Evicted(Limits(), Live(old(entries), key, now), entries, length)
      ensures forall k :: k in entries ==> entries[k].expiresAt > 0
    {
      hide Size, Evicted;
      ghost var before := entries;
      Purge(now);
      if key in entries {
        SizeWithout(entries, key);
        bytes := bytes - |entries[key].data|;
        entries := entries - {key};
      }
      assert entries == Live(before, key, now);
      Evict(length);
    }

    method Set(key: Key, data: Data, now: int)
      requires Valid() && now > 0
      modifies this
      ensures Valid() && SetStep(Limits(), old(Contents()), key, data, now, Contents())
    {
      hide Size, Evicted, Consistent, Live, SetStep;
      ghost var before := Contents();
      if ttl <= 0 || (maxBytes > 0 && |data| > maxBytes) {
        Refused(Limits(), before, key, data, now);
        return;
      }
      MakeRoom(key, |data|, now);
      SetFits(Limits(), before, entries, key, data, now);
      entries := entries[key := Entry(data, now + ttl)];
      bytes := bytes + |data|;
    }
  }

  lemma Refused(c: Config, s: State, key: Key, data: Data, now: int)
    requires !Accepts(c, data)
    ensures SetStep(c, s, key, data, now, s)
  {
  }

  lemma NothingTrimmed(c: Config, live: Entries, length: int)
    ensures Trimmed(c, live, live, length)
  {
  }

  lemma EmptyHasRoom(c: Config, m: Entries, length: nat)
    requires !(c.maxBytes > 0 && length > c.maxBytes)
    requires Over(c, |m|, Size(m), length)
    ensures m != map[]
  {
  }

  /** The new entry after an eviction: counted, and within both limits. */
  lemma SetFits(c: Config, s: State, kept: Entries, key: Key, data: Data, now: int)
    requires Accepts(c, data) && Evicted(c, Live(s.entries, key, now), kept, |data|)
    ensures var s' := State(kept[key := Entry(data, now + c.ttl)], Size(kept) + |data|);
      Consistent(c, s') && SetStep(c, s, key, data, now, s')
  {
    hide Evicted, Trimmed, Size, Live, Consistent, Over;
    OwnKeyGone(c, s, kept, key, |data|, now);
    RoomForOne(c, Live(s.entries, key, now), kept, key, Entry(data, now + c.ttl));
  }

  lemma OwnKeyGone(c: Config, s: State, kept: Entries, key: Key, length: int, now: int)
    requires Evicted(c, Live(s.entries, key, now), kept, length)
    ensures key !in kept
  {
    assert key !in Live(s.entries, key, now).Keys;
  }

  lemma RoomForOne(c: Config, live: Entries, kept: Entries, key: Key, e: Entry)
    requires Evicted(c, live, kept, |e.data|) && key !in kept
    ensures Consistent(c, State(kept[key := e], Size(kept) + |e.data|))
    ensures kept[key := e] - {key} == kept && Size(kept[key := e]) == Size(kept) + |e.data|
  {
    hide Trimmed, Size;
    SizeWith(kept, key, e);
    assert kept[key := e] - {key} == kept;
    OneFewer(kept[key := e], key);
  }

  lemma OneFewer(m: Entries, k: Key)
    requires k in m
    ensures |m - {k}| == |m| - 1
  {
    assert (m - {k}).Keys == m.Keys - {k};
  }

  // ----- What one section does to each entry

  /** Data within the limit is hit from the set on up to ttl later and no longer; other data changes nothing. */
  lemma SetIsHit(c: Config, s: State, key: Key, data: Data, now: int, s': State, at: int)
    requires SetStep(c, s, key, data, now, s')
    ensures c.ttl <= 0 || 0 < c.maxBytes < |data| ==> s' == s
    ensures c.ttl > 0 && !(0 < c.maxBytes < |data|) ==>
      Lookup(s', key, at) == if at <= now + c.ttl then Some(data) else None
  {
  }

  /** Of the other entries a set leaves none that has expired by then, and changes none it leaves. */
  lemma SetLeavesLive(c: Config, s: State, key: Key, data: Data, now: int, s': State, k: Key)
    requires SetStep(c, s, key, data, now, s') && c.ttl > 0 && !(0 < c.maxBytes < |data|)
    requires k != key && k in s'.entries
    ensures k in s.entries && s'.entries[k] == s.entries[k] && now < s.entries[k].expiresAt
  {
    assert k in (s'.entries - {key}).Keys;
  }

  lemma {:induction false} SizeOfPart(m: Entries, part: Entries)
    requires part.Keys <= m.Keys && forall k :: k in part ==> part[k] == m[k]
    ensures Size(part) <= Size(m) && |part| <= |m|
    decreases |m|
  {
    if part == map[] {
    } else {
      var k :| k in part;
      SizeWithout(m, k);
      SizeWithout(part, k);
      OneFewer(m, k);
      OneFewer(part, k);
      SizeOfPart(m - {k}, part - {k});
    }
  }

  /** While there is room within both limits, it leaves all that have not expired. */
  lemma SetWithRoomKeepsLive(c: Config, s: State, key: Key, data: Data, now: int, s': State, k: Key)
    requires Consistent(c, s) && SetStep(c, s, key, data, now, s') && c.ttl > 0
    requires c.maxEntries > 0 ==> |s.entries| < c.maxEntries
    requires c.maxBytes > 0 ==> s.bytes + |data| <= c.maxBytes
    requires k in s.entries && k != key && now < s.entries[k].expiresAt
    ensures k in s'.entries && s'.entries[k] == s.entries[k]
  {
    hide Size, Trimmed, Over;
    var live, kept := Live(s.entries, key, now), s'.entries - {key};
    NoneTrimmed(c, s.entries, live, kept, |data|);
    assert k in kept;
  }

  lemma OneMore(m: Entries, kept: Entries, e: Key)
    requires kept.Keys <= m.Keys && (forall k :: k in kept ==> kept[k] == m[k]) && e in m && e !in kept
    ensures Size(kept) + |m[e].data| <= Size(m) && |kept| + 1 <= |m|
  {
    hide Size;
    SizeWithout(m, e);
    OneFewer(m, e);
    SizeOfPart(m - {e}, kept);
  }

  lemma NoneTrimmed(c: Config, m: Entries, live: Entries, kept: Entries, length: int)
    requires Trimmed(c, live, kept, length)
    requires live.Keys <= m.Keys && forall k :: k in live ==> live[k] == m[k]
    requires c.maxEntries > 0 ==> |m| < c.maxEntries
    requires c.maxBytes > 0 ==> Size(m) + length <= c.maxBytes
    ensures kept == live
  {
    hide Size;
    if kept != live {
      var e :| e in live && e !in kept && Over(c, |kept| + 1, Size(kept) + |live[e].data|, length);
      OneMore(m, kept, e);
    }
  }

  /** The late half of a get removes its own entry exactly if that has expired, and no other. */
  lemma RemovedIff(s: State, key: Key, now: int, k: Key)
    ensures var s' := Removed(s, key, now);
      && (k in s'.entries <==> k in s.entries && (k != key || now <= s.entries[k].expiresAt))
      && (k in s'.entries ==> s'.entries[k] == s.entries[k])
  {
  }

  // ----- Any interleaving of sections

  /** The sections that change the cache: set, the second half of get, and clear. */
  datatype Event = Put(key: Key, data: Data, now: int) | Expire(key: Key, now: int) | Drop

  ghost predicate Step(c: Config, s: State, e: Event, s': State) {
    match e
    case Put(key, data, now) => SetStep(c, s, key, data, now, s')
    case Expire(key, now) => s' == Removed(s, key, now)
    case Drop => s' == State(map[], 0)
  }

  /** s can result from these events, starting with an empty cache. */
  ghost predicate Reach(c: Config, events: seq<Event>, s: State) {
    if events == [] then s == State(map[], 0)
    else
      var front, last := events[..|events| - 1], events[|events| - 1];
      exists before :: Reach(c, front, before) && Step(c, before, last, s)
  }

  /** The latest accepted set of the key since the last clear, and when it was. */
  function Latest(c: Config, events: seq<Event>, key: Key): Option<(Data, int)> {
    if events == [] then None
    else
      match events[|events| - 1]
      case Drop => None
      case Expire(_, _) => Latest(c, events[..|events| - 1], key)
      case Put(k, data, now) =>
        if k == key && Accepts(c, data) then Some((data, now)) else Latest(c, events[..|events| - 1], key)
  }

  /** Every entry is its key's latest set, and expires ttl after it. */
  predicate FromLatest(c: Config, events: seq<Event>, m: Entries) {
    forall k :: k in m ==> Latest(c, events, k) == Some((m[k].data, m[k].expiresAt - c.ttl))
  }

  lemma RemovedConsistent(c: Config, s: State, key: Key, now: int)
    requires Consistent(c, s)
    ensures Consistent(c, Removed(s, key, now))
  {
    if key in s.entries {
      SizeWithout(s.entries, key);
      OneFewer(s.entries, key);
    }
  }

  lemma SetConsistent(c: Config, s: State, key: Key, data: Data, now: int, s': State)
    requires Consistent(c, s) && SetStep(c, s, key, data, now, s')
    ensures Consistent(c, s')
  {
    hide Size, Trimmed, Live;
    if Accepts(c, data) {
      SizeWithout(s'.entries, key);
      OneFewer(s'.entries, key);
    }
  }

  lemma SetFromLatest(c: Config, events: seq<Event>, s: State, e: Event, s': State)
    requires e.Put? && FromLatest(c, events, s.entries) && SetStep(c, s, e.key, e.data, e.now, s')
    ensures FromLatest(c, events + [e], s'.entries)
  {
    assert (events + [e])[..|events|] == events;
    if Accepts(c, e.data) {
      forall k | k in s'.entries
        ensures Latest(c, events + [e], k) == Some((s'.entries[k].data, s'.entries[k].expiresAt - c.ttl))
      {
        if k != e.key {
          assert k in (s'.entries - {e.key}).Keys;
        }
      }
    }
  }

  lemma StepKeepsInv(c: Config, events: seq<Event>, s: State, e: Event, s': State)
    requires Consistent(c, s) && FromLatest(c, events, s.entries) && Step(c, s, e, s')
    ensures Consistent(c, s') && FromLatest(c, events + [e], s'.entries)
  {
    hide SetStep, Consistent;
    match e
    case Put(key, data, now) =>
      SetConsistent(c, s, key, data, now, s');
      SetFromLatest(c, events, s, e, s');
    case Expire(key, now) =>
      RemovedConsistent(c, s, key, now);
      assert (events + [e])[..|events|] == events;
    case Drop =>
      EmptyConsistent(c);
  }

  lemma EmptyConsistent(c: Config)
    ensures Consistent(c, State(map[], 0))
  {
  }

  /** In every interleaving: bytes is the sum of the lengths, both limits hold, entries are the latest sets. */
  lemma {:induction false} AlwaysConsistent(c: Config, events: seq<Event>, s: State)
    requires Reach(c, events, s)
    ensures Consistent(c, s) && FromLatest(c, events, s.entries)
  {
    hide Step, Consistent, FromLatest;
    if events == [] {
      EmptyConsistent(c);
      EmptyFromLatest(c);
    } else {
      var front, last := events[..|events| - 1], events[|events| - 1];
      var before :| Reach(c, front, before) && Step(c, before, last, s);
      AlwaysConsistent(c, front, before);
      StepKeepsInv(c, front, before, last, s);
      assert events == front + [last];
    }
  }

  lemma EmptyFromLatest(c: Config)
    ensures FromLatest(c, [], map[])
  {
  }

  /** A hit is the latest accepted set of that key since the last clear, no more than ttl after it. */
  lemma HitIsLatest(c: Config, events: seq<Event>, s: State, key: Key, now: int)
    requires Reach(c, events, s) && Lookup(s, key, now).Some?
    ensures Latest(c, events, key).Some?
    ensures var (data, at) := Latest(c, events, key).value; Lookup(s, key, now).value == data && now <= at + c.ttl
  {
    hide Reach, Consistent;
    AlwaysConsistent(c, events, s);
  }

  /** The latest set of the key since the last clear, accepted or not. */
  function LatestSet(events: seq<Event>, key: Key): Option<(Data, int)> {
    if events == [] then None
    else
      match events[|events| - 1]
      case Drop => None
      case Expire(_, _) => LatestSet(events[..|events| - 1], key)
      case Put(k, data, now) => if k == key then Some((data, now)) else LatestSet(events[..|events| - 1], key)
  }

  lemma {:induction false} LatestAccepted(c: Config, events: seq<Event>, key: Key)
    ensures Latest(c, events, key).Some? ==>
      && Accepts(c, Latest(c, events, key).value.0)
      && LatestSet(events, key).Some?
      && (Accepts(c, LatestSet(events, key).value.0) ==> LatestSet(events, key) == Latest(c, events, key))
  {
    hide Accepts;
    if events != [] {
      LatestAccepted(c, events[..|events| - 1], key);
    }
  }

  /** A hit is what was set last, of whatever size, exactly when that set was accepted. */
  lemma HitIsLatestSetIff(c: Config, events: seq<Event>, s: State, key: Key, now: int)
    requires Reach(c, events, s) && Lookup(s, key, now).Some?
    ensures LatestSet(events, key).Some?
    ensures Lookup(s, key, now).value == LatestSet(events, key).value.0 <==> Accepts(c, LatestSet(events, key).value.0)
  {
    hide Reach, Lookup, Accepts;
    HitIsLatest(c, events, s, key, now);
    LatestAccepted(c, events, key);
  }

  /** With room for one byte, setting two after one leaves the one to be hit. */
  lemma OversizedSetLeavesOldEntry(key: Key)
    ensures var c, events := Config(10, 0, 1), [Put(key, [7], 1), Put(key, [8, 9], 2)];
      var s := State(map[key := Entry([7], 11)], 1);
      Reach(c, events, s) && Lookup(s, key, 3) == Some([7]) && LatestSet(events, key) == Some(([8, 9], 2))
  {
    var c, first, second := Config(10, 0, 1), Put(key, [7], 1), Put(key, [8, 9], 2);
    var events := [first, second];
    var empty, s := State(map[], 0), State(map[key := Entry([7], 11)], 1);
    FirstEntry(c, key);
    assert events[..1] == [first] && [first][..0] == [];
    assert Reach(c, [], empty) && Step(c, empty, first, s);
    assert Reach(c, [first], s) && Step(c, s, second, s);
  }

  lemma FirstEntry(c: Config, key: Key)
    requires c == Config(10, 0, 1)
    ensures SetStep(c, State(map[], 0), key, [7], 1, State(map[key := Entry([7], 11)], 1))
  {
    var none: Entries := map[];
    assert Live(none, key, 1) == none && map[key := Entry([7], 11)] - {key} == none;
    SizeWith(none, key, Entry([7], 11));
  }

  /** What a set evicts for want of room was set no later than anything it leaves. */
  lemma EvictsOldestFirst(c: Config, events: seq<Event>, s: State, put: Event, s': State, gone: Key, left: Key)
    requires Reach(c, events, s) && put.Put? && Step(c, s, put, s')
    requires gone in s.entries && gone !in s'.entries && put.now < s.entries[gone].expiresAt
    requires left in s'.entries && left != put.key
    ensures Latest(c, events, gone).Some? && Latest(c, events, left).Some?
    ensures Latest(c, events, gone).value.1 <= Latest(c, events, left).value.1
  {
    hide Reach, Consistent;
    AlwaysConsistent(c, events, s);
    assert left in (s'.entries - {put.key}).Keys;
    assert left in Live(s.entries, put.key, put.now).Keys;
    assert gone in Live(s.entries, put.key, put.now);
  }

  /** The late second half of a get never removes what a set has renewed meanwhile. */
  lemma LateRemovalSparesRenewed(c: Config, s: State, key: Key, data: Data, setAt: int, s': State, now: int)
    requires Accepts(c, data) && SetStep(c, s, key, data, setAt, s') && now <= setAt
    ensures Removed(s', key, now) == s' && Lookup(s', key, now) == Some(data)
  {
  }
}
