/**
 The ARP cache.  The functions say what each operation does to the entries; the class runs them
 with the loops of the source.  A `History` records what a run has seen: the newest insertion and
 the requests and failures of the newest resolution of every address.
 */
module ArpCaches {
  import opened Primitives

  const RETRY_INTERVAL: int := 1_000_000_000
  const MAX_TRANSMISSIONS: nat := 3

  type Ip = u32
  type Mac = seq<u8>

  datatype NeighborState = Resolved | Incomplete | Failed

  datatype Entry = Entry(state: NeighborState, mac: Option<Mac>, updatedAt: int, nextDeadline: Option<int>,
                         transmitCount: nat)

  type Entries = map<Ip, Entry>

  // ---------------------------------------------------------------- the operations

  predicate Stale(e: Entry, now: int, lifetime: int) { e.state != Incomplete && now - e.updatedAt >= lifetime }

  function Expired(m: Entries, now: int, lifetime: int): Entries {
    map k | k in m && !Stale(m[k], now, lifetime) :: m[k]
  }

  /** `a` goes before `b`: older, and of two equally old ones the smaller address. */
  predicate Before(m: Entries, a: Ip, b: Ip)
    requires a in m && b in m
  {
    m[a].updatedAt < m[b].updatedAt || (m[a].updatedAt == m[b].updatedAt && a <= b)
  }

  /** The entry to evict: the oldest one that is not being resolved. */
  ghost predicate IsVictim(m: Entries, k: Ip) {
    k in m && m[k].state != Incomplete && forall j | j in m && m[j].state != Incomplete :: Before(m, k, j)
  }

  /** Room for one more entry, if it can be made. */
  ghost function Room(m: Entries, capacity: nat): Option<Entries> {
    if |m| < capacity then Some(m)
    else if k :| IsVictim(m, k) then Some(m - {k})
    else None
  }

  function Fresh(mac: Mac, now: int): Entry { Entry(Resolved, Some(mac), now, None, 0) }

  function Started(now: int): Entry { Entry(Incomplete, None, now, Some(now + RETRY_INTERVAL), 1) }

  ghost function Inserted(m: Entries, capacity: nat, lifetime: int, ip: Ip, mac: Mac, now: int): Entries {
    var live := Expired(m, now, lifetime);
    if ip in live then live[ip := Fresh(mac, now)]
    else
      var room := Room(live, capacity);
      if room.None? then live else room.value[ip := Fresh(mac, now)]
  }

  function Found(m: Entries, lifetime: int, ip: Ip, now: int): Option<Mac> {
    var live := Expired(m, now, lifetime);
    if ip !in live || live[ip].state != Resolved then None else live[ip].mac
  }

  /** The entries after `beginResolution`, and whether the first request is to be sent. */
  ghost function Begun(m: Entries, capacity: nat, lifetime: int, ip: Ip, now: int): (Entries, bool) {
    var live := Expired(m, now, lifetime);
    if ip in live then (live, false)
    else
      var room := Room(live, capacity);
      if room.None? then (live, false) else (room.value[ip := Started(now)], true)
  }

  predicate DueEntry(e: Entry, now: int) {
    e.state == Incomplete && e.nextDeadline.Some? && now >= e.nextDeadline.value
  }

  function Polled(e: Entry, now: int): Entry {
    if !DueEntry(e, now) then e
    else if e.transmitCount >= MAX_TRANSMISSIONS then e.(state := Failed, updatedAt := now, nextDeadline := None)
    else e.(transmitCount := e.transmitCount + 1, nextDeadline := Some(now + RETRY_INTERVAL))
  }

  function PolledAll(m: Entries, now: int): Entries { map k | k in m :: Polled(m[k], now) }

  function Requests(m: Entries, now: int): set<Ip> {
    set k | k in m && DueEntry(m[k], now) && m[k].transmitCount < MAX_TRANSMISSIONS
  }

  function Failures(m: Entries, now: int): set<Ip> {
    set k | k in m && DueEntry(m[k], now) && m[k].transmitCount >= MAX_TRANSMISSIONS
  }

  // ---------------------------------------------------------------- runs

  datatype Operation = Insert(ip: Ip, mac: Mac) | Lookup(ip: Ip) | Begin(ip: Ip) | Poll

  /** Newest insertion of an address, and the requests and failures of its newest resolution. */
  datatype History = History(inserts: map<Ip, (Mac, int)>, sent: map<Ip, nat>, failed: map<Ip, nat>)

  function Count(m: map<Ip, nat>, k: Ip): nat { if k in m then m[k] else 0 }

  function Bump(m: map<Ip, nat>, ks: set<Ip>): map<Ip, nat> {
    map k | k in m.Keys + ks :: Count(m, k) + (if k in ks then 1 else 0)
  }

  ghost function Step(m: Entries, h: History, capacity: nat, lifetime: int, op: Operation, now: int)
    : (Entries, History)
  {
    match op
    case Insert(ip, mac) => (Inserted(m, capacity, lifetime, ip, mac, now), h.(inserts := h.inserts[ip := (mac, now)]))
    case Lookup(ip) => (Expired(m, now, lifetime), h)
    case Begin(ip) =>
      var (m', begun) := Begun(m, capacity, lifetime, ip, now);
      (m', if begun then h.(sent := h.sent[ip := 1], failed := h.failed[ip := 0]) else h)
    case Poll =>
      var live := Expired(m, now, lifetime);
      (PolledAll(live, now), PollHistory(live, h, now))
  }

  /** One entry against the history. */
  predicate EntryValid(k: Ip, e: Entry, h: History) {
    match e.state
    case Resolved => e.mac.Some? && e.nextDeadline.None? && k in h.inserts && h.inserts[k] == (e.mac.value, e.updatedAt)
    case Incomplete =>
      e.nextDeadline.Some? && 1 <= e.transmitCount <= MAX_TRANSMISSIONS && Count(h.sent, k) == e.transmitCount
      && Count(h.failed, k) == 0
    case Failed => e.nextDeadline.None? && Count(h.failed, k) == 1
  }

  /** At most three requests and one failure, and the failure only after the third request. */
  predicate Tally(h: History, k: Ip) {
    && Count(h.sent, k) <= MAX_TRANSMISSIONS && Count(h.failed, k) <= 1
    && (Count(h.failed, k) == 1 ==> Count(h.sent, k) == MAX_TRANSMISSIONS)
  }

  ghost predicate HistoryValid(h: History) { forall k: Ip :: Tally(h, k) }

  ghost predicate CacheValid(m: Entries, h: History, capacity: nat) {
    |m| <= capacity && HistoryValid(h) && forall k | k in m :: EntryValid(k, m[k], h)
  }

  lemma ExpireKeepsValid(m: Entries, h: History, capacity: nat, now: int, lifetime: int)
    requires CacheValid(m, h, capacity)
    ensures CacheValid(Expired(m, now, lifetime), h, capacity)
  {
    hide EntryValid, Stale, HistoryValid;
    var live := Expired(m, now, lifetime);
    SubsetSize(live.Keys, m.Keys);
    assert |live| == |live.Keys| && |m| == |m.Keys|;
  }

  /** Room is made only by evicting an entry that is not being resolved. */
  lemma RoomMeans(m: Entries, capacity: nat)
    requires |m| <= capacity
    ensures var r := Room(m, capacity);
            r.Some? ==> |r.value| < capacity && (forall k | k in r.value :: k in m && r.value[k] == m[k])
                        && (forall k | k in m && m[k].state == Incomplete :: k in r.value)
  {
    hide Before;
    var r := Room(m, capacity);
    if r.Some? && |m| >= capacity {
      var k :| IsVictim(m, k) && r.value == m - {k};
      assert r.value.Keys == m.Keys - {k};
      assert |r.value| == |r.value.Keys| && |m| == |m.Keys|;
    }
  }

  lemma AddKeepsValid(m: Entries, h: History, capacity: nat, ip: Ip, e: Entry)
    requires |m| < capacity || ip in m
    requires |m| <= capacity && HistoryValid(h) && EntryValid(ip, e, h)
             && forall k | k in m && k != ip :: EntryValid(k, m[k], h)
    ensures CacheValid(m[ip := e], h, capacity)
  {
    hide EntryValid, HistoryValid;
    assert m[ip := e].Keys == m.Keys + {ip};
    assert |m[ip := e]| == |m[ip := e].Keys| && |m| == |m.Keys|;
    if ip in m {
      assert m.Keys + {ip} == m.Keys;
    }
  }

  lemma InsertKeepsValid(m: Entries, h: History, capacity: nat, lifetime: int, ip: Ip, mac: Mac, now: int)
    requires CacheValid(m, h, capacity)
    ensures CacheValid(Inserted(m, capacity, lifetime, ip, mac, now), h.(inserts := h.inserts[ip := (mac, now)]),
                       capacity)
  {
    hide Expired, Room;
    var live := Expired(m, now, lifetime);
    var h' := h.(inserts := h.inserts[ip := (mac, now)]);
    ExpireKeepsValid(m, h, capacity, now, lifetime);
    forall k: Ip
      ensures Tally(h', k)
    {
      assert Tally(h, k);
    }
    assert forall k | k in live && k != ip :: EntryValid(k, live[k], h');
    if ip in live {
      AddKeepsValid(live, h', capacity, ip, Fresh(mac, now));
    } else {
      RoomMeans(live, capacity);
      var room := Room(live, capacity);
      if room.Some? {
        AddKeepsValid(room.value, h', capacity, ip, Fresh(mac, now));
      }
    }
  }

  lemma BeginKeepsValid(m: Entries, h: History, capacity: nat, lifetime: int, ip: Ip, now: int)
    requires CacheValid(m, h, capacity)
    ensures var (m', h') := Step(m, h, capacity, lifetime, Begin(ip), now); CacheValid(m', h', capacity)
  {
    hide Expired, Room, HistoryValid, EntryValid;
    var live := Expired(m, now, lifetime);
    ExpireKeepsValid(m, h, capacity, now, lifetime);
    if ip !in live {
      RoomMeans(live, capacity);
      var room := Room(live, capacity);
      if room.Some? {
        var h' := h.(sent := h.sent[ip := 1], failed := h.failed[ip := 0]);
        BegunHistory(h, ip);
        BegunEntry(h, ip, now);
        forall k | k in room.value && k != ip
          ensures EntryValid(k, room.value[k], h')
        {
          OtherEntry(h, ip, k, room.value[k]);
        }
        AddKeepsValid(room.value, h', capacity, ip, Started(now));
      }
    }
  }

  lemma BegunEntry(h: History, ip: Ip, now: int)
    ensures EntryValid(ip, Started(now), h.(sent := h.sent[ip := 1], failed := h.failed[ip := 0]))
  {
  }

  lemma OtherEntry(h: History, ip: Ip, k: Ip, e: Entry)
    requires k != ip && EntryValid(k, e, h)
    ensures EntryValid(k, e, h.(sent := h.sent[ip := 1], failed := h.failed[ip := 0]))
  {
  }

  lemma BegunHistory(h: History, ip: Ip)
    requires HistoryValid(h)
    ensures HistoryValid(h.(sent := h.sent[ip := 1], failed := h.failed[ip := 0]))
  {
    var h' := h.(sent := h.sent[ip := 1], failed := h.failed[ip := 0]);
    forall k: Ip
      ensures Tally(h', k)
    {
      assert Tally(h, k);
    }
  }

  function PollHistory(m: Entries, h: History, now: int): History {
    h.(sent := Bump(h.sent, Requests(m, now)), failed := Bump(h.failed, Failures(m, now)))
  }

  lemma PollOne(m: Entries, h: History, now: int, k: Ip)
    requires Tally(h, k) && (k in m ==> EntryValid(k, m[k], h))
    ensures Tally(PollHistory(m, h, now), k)
    ensures k in m ==> EntryValid(k, Polled(m[k], now), PollHistory(m, h, now))
  {
    hide Bump;
    BumpCounts(h.sent, Requests(m, now), k);
    BumpCounts(h.failed, Failures(m, now), k);
  }

  lemma PollKeepsValid(m: Entries, h: History, capacity: nat, now: int)
    requires CacheValid(m, h, capacity)
    ensures CacheValid(PolledAll(m, now), PollHistory(m, h, now), capacity)
  {
    hide EntryValid, Tally, PollHistory, Polled;
    assert PolledAll(m, now).Keys == m.Keys;
    assert |PolledAll(m, now)| == |PolledAll(m, now).Keys| && |m| == |m.Keys|;
    forall k: Ip
      ensures Tally(PollHistory(m, h, now), k)
      ensures k in m ==> EntryValid(k, Polled(m[k], now), PollHistory(m, h, now))
    {
      PollOne(m, h, now, k);
    }
  }

  lemma BumpCounts(m: map<Ip, nat>, ks: set<Ip>, k: Ip)
    ensures Count(Bump(m, ks), k) == Count(m, k) + (if k in ks then 1 else 0)
  {
  }

  lemma StepKeepsValid(m: Entries, h: History, capacity: nat, lifetime: int, op: Operation, now: int)
    requires CacheValid(m, h, capacity)
    ensures var (m', h') := Step(m, h, capacity, lifetime, op, now); CacheValid(m', h', capacity)
  {
    hide CacheValid, Expired, Inserted, Begun;
    ExpireKeepsValid(m, h, capacity, now, lifetime);
    match op {
      case Insert(ip, mac) => InsertKeepsValid(m, h, capacity, lifetime, ip, mac, now);
      case Lookup(ip) =>
      case Begin(ip) => BeginKeepsValid(m, h, capacity, lifetime, ip, now);
      case Poll => PollKeepsValid(Expired(m, now, lifetime), h, capacity, now);
    }
  }

  datatype Call = Call(op: Operation, now: int)

  ghost function Run(m: Entries, h: History, capacity: nat, lifetime: int, calls: seq<Call>): (Entries, History)
    decreases |calls|
  {
    if calls == [] then (m, h)
    else
      var (m', h') := Step(m, h, capacity, lifetime, calls[0].op, calls[0].now);
      Run(m', h', capacity, lifetime, calls[1..])
  }

  const NO_HISTORY := History(map[], map[], map[])

  lemma {:induction false} RunKeepsValid(m: Entries, h: History, capacity: nat, lifetime: int, calls: seq<Call>)
    requires CacheValid(m, h, capacity)
    ensures var (m', h') := Run(m, h, capacity, lifetime, calls); CacheValid(m', h', capacity)
    decreases |calls|
  {
    hide CacheValid, Step;
    if calls != [] {
      StepKeepsValid(m, h, capacity, lifetime, calls[0].op, calls[0].now);
      var (m', h') := Step(m, h, capacity, lifetime, calls[0].op, calls[0].now);
      RunKeepsValid(m', h', capacity, lifetime, calls[1..]);
    }
  }

  /**
   After any calls on an empty cache: the capacity holds, every resolution has sent at most three
   requests and failed at most once, after the third, and what a lookup returns is the newest
   insertion of that address, younger than the lifetime.
   */
  lemma EveryRun(capacity: nat, lifetime: int, calls: seq<Call>, ip: Ip, now: int)
    ensures var (m, h) := Run(map[], NO_HISTORY, capacity, lifetime, calls);
            && |m| <= capacity
            && Tally(h, ip)
            && (Found(m, lifetime, ip, now).Some? ==>
                  ip in h.inserts && Found(m, lifetime, ip, now).value == h.inserts[ip].0
                  && now - h.inserts[ip].1 < lifetime)
  {
    hide Run;
    EmptyIsValid(capacity);
    RunKeepsValid(map[], NO_HISTORY, capacity, lifetime, calls);
    var (m, h) := Run(map[], NO_HISTORY, capacity, lifetime, calls);
    if ip in m {
      assert EntryValid(ip, m[ip], h);
    }
  }

  lemma EmptyIsValid(capacity: nat)
    ensures CacheValid(map[], NO_HISTORY, capacity)
  {
  }

  /** Nothing but its own insertion or a due poll touches a resolution in progress. */
  lemma ResolutionIsKept(m: Entries, h: History, capacity: nat, lifetime: int, op: Operation, now: int, ip: Ip)
    requires |m| <= capacity && ip in m && m[ip].state == Incomplete
    ensures var m' := Step(m, h, capacity, lifetime, op, now).0;
            && ip in m'
            && (m'[ip] == m[ip] || (op.Insert? && op.ip == ip && m'[ip] == Fresh(op.mac, now))
                || (op.Poll? && DueEntry(m[ip], now) && m'[ip] == Polled(m[ip], now)))
  {
    hide Room;
    var live := Expired(m, now, lifetime);
    SubsetSize(live.Keys, m.Keys);
    assert |live| == |live.Keys| && |m| == |m.Keys|;
    RoomMeans(live, capacity);
  }

  // ---------------------------------------------------------------- what a caller gets

  /** There is, or can be made, an entry for the address: it has one, the cache is not full, or something can go. */
  predicate CanHold(m: Entries, capacity: nat, lifetime: int, ip: Ip, now: int) {
    var live := Expired(m, now, lifetime);
    ip in live || |live| < capacity || exists k | k in live :: live[k].state != Incomplete
  }

  /**
   `m'` keeps every live entry of `m` but the one for the address and, in a full cache, one that is
   not being resolved.
   */
  ghost predicate KeepsOthers(m: Entries, m': Entries, capacity: nat, lifetime: int, ip: Ip, now: int) {
    var live := Expired(m, now, lifetime);
    && (forall k | k in m' && k != ip :: k in live && m'[k] == live[k])
    && (forall k | k in live && k !in m' :: ip !in live && |live| >= capacity && IsVictim(live, k))
  }

  /**
   An inserted address is found with its newest hardware address until the lifetime has passed,
   exactly when the cache can hold it.
   */
  lemma InsertIsFound(m: Entries, capacity: nat, lifetime: int, ip: Ip, mac: Mac, now: int, later: int)
    requires now <= later
    ensures var m' := Inserted(m, capacity, lifetime, ip, mac, now);
            && KeepsOthers(m, m', capacity, lifetime, ip, now)
            && (CanHold(m, capacity, lifetime, ip, now) ==>
                  Found(m', lifetime, ip, later) == (if later - now < lifetime then Some(mac) else None))
            && (!CanHold(m, capacity, lifetime, ip, now) ==> ip !in m')
  {
    hide Room;
    var live := Expired(m, now, lifetime);
    RoomExactly(live, capacity);
  }

  lemma RoomExactly(m: Entries, capacity: nat)
    ensures var room := Room(m, capacity);
            && (room.Some? <==> |m| < capacity || exists k | k in m :: m[k].state != Incomplete)
            && (room.Some? ==>
                  && (forall k | k in room.value :: k in m && room.value[k] == m[k])
                  && (forall k | k in m && k !in room.value :: |m| >= capacity && IsVictim(m, k)))
  {
    if |m| >= capacity && exists k | k in m :: m[k].state != Incomplete {
      VictimExists(m);
    }
  }

  /** Of entries that can go there is one to go first. */
  lemma VictimExists(m: Entries)
    requires exists k | k in m :: m[k].state != Incomplete
    ensures exists k :: IsVictim(m, k)
  {
    var k :| k in m && m[k].state != Incomplete;
    var others := set j | j in m && m[j].state != Incomplete;
    assert k in others;
    var v := OldestOf(m, others);
    assert IsVictim(m, v);
  }

  lemma {:induction false} OldestOf(m: Entries, ks: set<Ip>) returns (v: Ip)
    requires ks != {} && forall k | k in ks :: k in m
    ensures v in ks && forall k | k in ks :: Before(m, v, k)
    decreases ks
  {
    var x :| x in ks;
    if ks == {x} {
      v := x;
    } else {
      var rest := ks - {x};
      var w := OldestOf(m, rest);
      v := if Before(m, x, w) then x else w;
      assert forall k | k in ks :: k == x || k in rest;
    }
  }

  /**
   A resolution starts exactly when the address has no live entry and one can be made; its first
   request is out, and the next is due a second later.
   */
  lemma BeginLaws(m: Entries, capacity: nat, lifetime: int, ip: Ip, now: int)
    ensures var live := Expired(m, now, lifetime);
            var (m', begun) := Begun(m, capacity, lifetime, ip, now);
            && (begun <==> ip !in live && CanHold(m, capacity, lifetime, ip, now))
            && (begun ==> ip in m' && m'[ip].state == Incomplete && m'[ip].transmitCount == 1
                          && Deadline(m'[ip], lifetime) == Some(now + 1_000_000_000)
                          && KeepsOthers(m, m', capacity, lifetime, ip, now))
            && (!begun ==> m' == live)
  {
    hide Room;
    RoomExactly(Expired(m, now, lifetime), capacity);
  }

  /** A due poll sends the second and the third request a second apart and then gives up; nothing else changes. */
  lemma PollLaws(m: Entries, lifetime: int, now: int, ip: Ip)
    requires ip in m && m[ip].state == Incomplete
    ensures var m' := PolledAll(Expired(m, now, lifetime), now);
            && ip in m'
            && (if m[ip].nextDeadline.None? || now < m[ip].nextDeadline.value then
                  m'[ip] == m[ip] && ip !in Requests(m, now) && ip !in Failures(m, now)
                else if m[ip].transmitCount < 3 then
                  && ip in Requests(m, now) && ip !in Failures(m, now) && m'[ip].state == Incomplete
                  && m'[ip].transmitCount == m[ip].transmitCount + 1
                  && m'[ip].nextDeadline == Some(now + 1_000_000_000)
                else ip !in Requests(m, now) && ip in Failures(m, now) && m'[ip].state == Failed)
  {
  }

  // ---------------------------------------------------------------- the deadline

  /** When an entry next changes by itself. */
  function Deadline(e: Entry, lifetime: int): Option<int> {
    if e.state != Incomplete then Some(e.updatedAt + lifetime) else e.nextDeadline
  }

  ghost predicate Earliest(m: Entries, lifetime: int, d: Option<int>) {
    && (d.Some? ==> exists k | k in m :: Deadline(m[k], lifetime) == d)
    && (forall k | k in m && Deadline(m[k], lifetime).Some? :: d.Some? && d.value <= Deadline(m[k], lifetime).value)
  }

  /** `poll(now)` changes the cache exactly when `now` has reached `nextDeadline`. */
  lemma PollActsIffDue(m: Entries, lifetime: int, now: int, d: Option<int>)
    requires Earliest(m, lifetime, d)
    ensures PolledAll(Expired(m, now, lifetime), now) == m <==> !(d.Some? && now >= d.value)
  {
    var out := PolledAll(Expired(m, now, lifetime), now);
    if d.Some? && now >= d.value {
      var k :| k in m && Deadline(m[k], lifetime) == d;
      assert k !in out || out[k] != m[k];
    } else {
      forall k | k in m
        ensures k in out && out[k] == m[k]
      {
      }
    }
  }

  // ---------------------------------------------------------------- the cache

  lemma VictimIsUnique(m: Entries, a: Ip, b: Ip)
    requires IsVictim(m, a) && IsVictim(m, b)
    ensures a == b
  {
    assert Before(m, a, b) && Before(m, b, a);
  }

  class ArpCache {
    const capacity: nat
    const lifetime: int
    var entries: Entries

    constructor (capacity: nat, lifetime: int)
      ensures this.capacity == capacity && this.lifetime == lifetime && entries == map[]
    {
      this.capacity, this.lifetime := capacity, lifetime;
      entries := map[];
    }

    /** `makeRoom`. */
    method MakeRoom() returns (ok: bool)
      modifies this
      ensures var room := Room(old(entries), capacity);
              ok == room.Some? && entries == if ok then room.value else old(entries)
    {
      hide Before;
      if |entries| < capacity {
        return true;
      }
      var todo := entries.Keys;
      var oldest: Option<Ip> := None;
      while todo != {}
        invariant entries == old(entries) && todo <= entries.Keys
        invariant oldest.Some? ==> oldest.value in entries && entries[oldest.value].state != Incomplete
        invariant forall j | j in entries && j !in todo && entries[j].state != Incomplete ::
                    oldest.Some? && Before(entries, oldest.value, j)
        decreases todo
      {
        var k :| k in todo;
        todo := todo - {k};
        if entries[k].state != Incomplete {
          BeforeItself(entries, k);
          if oldest.None? {
            oldest := Some(k);
          } else if !Before(entries, oldest.value, k) {
            forall j | j in entries && Before(entries, oldest.value, j)
              ensures Before(entries, k, j)
            {
              BeforeAll(entries, oldest.value, k, j);
            }
            oldest := Some(k);
          }
        }
      }
      if oldest.None? {
        assert forall k :: !IsVictim(entries, k);
        return false;
      }
      assert IsVictim(entries, oldest.value);
      forall k | IsVictim(entries, k)
        ensures k == oldest.value
      {
        VictimIsUnique(entries, k, oldest.value);
      }
      entries := entries - {oldest.value};
      ok := true;
    }

    /** `expire`. */
    method Expire(now: int)
      modifies this
      ensures entries == Expired(old(entries), now, lifetime)
    {
      hide Stale;
      var todo := entries.Keys;
      while todo != {}
        invariant todo <= entries.Keys <= old(entries).Keys
        invariant forall k | k in old(entries) :: k in entries <==> k in todo || !Stale(old(entries)[k], now, lifetime)
        invariant forall k | k in entries :: entries[k] == old(entries)[k]
        decreases todo
      {
        var k :| k in todo;
        todo := todo - {k};
        if Stale(entries[k], now, lifetime) {
          entries := entries - {k};
        }
      }
    }

    /** `insert`. */
    method Insert(ip: Ip, mac: Mac, now: int)
      modifies this
      ensures entries == Inserted(old(entries), capacity, lifetime, ip, mac, now)
    {
      hide Expired, Room;
      Expire(now);
      if ip !in entries {
        var ok := MakeRoom();
        if !ok {
          return;
        }
      }
      entries := entries[ip := Fresh(mac, now)];
    }

    /** `lookup`. */
    method Lookup(ip: Ip, now: int) returns (mac: Option<Mac>)
      modifies this
      ensures mac == Found(old(entries), lifetime, ip, now) && entries == Expired(old(entries), now, lifetime)
    {
      hide Expired;
      Expire(now);
      if ip !in entries || entries[ip].state != Resolved {
        return None;
      }
      mac := entries[ip].mac;
    }

    /** `beginResolution`. */
    method BeginResolution(ip: Ip, now: int) returns (send: bool)
      modifies this
      ensures (entries, send) == Begun(old(entries), capacity, lifetime, ip, now)
    {
      hide Expired, Room;
      Expire(now);
      if ip in entries {
        return false;
      }
      var ok := MakeRoom();
      if !ok {
        return false;
      }
      entries := entries[ip := Started(now)];
      send := true;
    }

    /** `poll`. */
    method Poll(now: int) returns (requests: set<Ip>, failed: set<Ip>)
      modifies this
      ensures var live := Expired(old(entries), now, lifetime);
              entries == PolledAll(live, now) && requests == Requests(live, now) && failed == Failures(live, now)
    {
      hide Expired;
      Expire(now);
      ghost var live := entries;
      requests, failed := {}, {};
      var todo := entries.Keys;
      while todo != {}
        invariant live == Expired(old(entries), now, lifetime) && entries.Keys == live.Keys && todo <= live.Keys
        invariant forall k | k in live :: entries[k] == if k in todo then live[k] else Polled(live[k], now)
        invariant requests == Requests(live, now) - todo && failed == Failures(live, now) - todo
        decreases todo
      {
        var k :| k in todo;
        var e := entries[k];
        if DueEntry(e, now) {
          if e.transmitCount >= MAX_TRANSMISSIONS {
            entries := entries[k := e.(state := Failed, updatedAt := now, nextDeadline := None)];
            failed := failed + {k};
          } else {
            entries := entries[k := e.(transmitCount := e.transmitCount + 1,
                                       nextDeadline := Some(now + RETRY_INTERVAL))];
            requests := requests + {k};
          }
        }
        todo := todo - {k};
      }
    }

    /** `nextDeadline`. */
    method NextDeadline() returns (deadline: Option<int>)
      ensures Earliest(entries, lifetime, deadline)
    {
      deadline := None;
      var todo := entries.Keys;
      while todo != {}
        invariant todo <= entries.Keys
        invariant deadline.Some? ==> exists k | k in entries :: Deadline(entries[k], lifetime) == deadline
        invariant forall k | k in entries && k !in todo && Deadline(entries[k], lifetime).Some? ::
                    deadline.Some? && deadline.value <= Deadline(entries[k], lifetime).value
        decreases todo
      {
        var k :| k in todo;
        todo := todo - {k};
        var candidate := entries[k].nextDeadline;
        if entries[k].state != Incomplete {
          candidate := Some(entries[k].updatedAt + lifetime);
        }
        if candidate.Some? && (deadline.None? || candidate.value < deadline.value) {
          deadline := candidate;
        }
      }
    }
  }

  lemma BeforeItself(m: Entries, k: Ip)
    requires k in m
    ensures Before(m, k, k)
  {
  }

  lemma BeforeAll(m: Entries, a: Ip, k: Ip, j: Ip)
    requires a in m && k in m && j in m && !Before(m, a, k) && Before(m, a, j)
    ensures Before(m, k, j)
  {
  }
}
