/** The bounded fingerprint cache: two maps that keep each other's place. */
module Fingerprints {
  import opened Common

  type Hash = nat

  /** Hashing and normalization, which lie outside the model. */
  datatype Sql = Sql(hash: Text -> Hash, normalize: Text -> Option<Text>, hex: Hash -> Text)

  /** The fingerprint a text has when no cache is asked. */
  function FingerprintOf(sql: Sql, text: Text): Text {
    match sql.normalize(text)
    case Some(fingerprint) => fingerprint
    case None => sql.hex(sql.hash(text))
  }

  /** Texts whose hashes collide only where that cannot change an answer. */
  ghost predicate Faithful(sql: Sql, texts: iset<Text>) {
    forall a, b :: a in texts && b in texts && sql.hash(a) == sql.hash(b)
      ==> FingerprintOf(sql, a) == FingerprintOf(sql, b)
  }

  // ---- Recency, latest first ----

  /** A run of accesses, or the order it leaves behind: the latest hash in front. */
  datatype Recency = Never | After(latest: Hash, earlier: Recency)
  {
    function Members(): set<Hash> {
      if Never? then {} else {latest} + earlier.Members()
    }

    function Len(): nat {
      if Never? then 0 else 1 + earlier.Len()
    }

    function Without(h: Hash): Recency {
      if Never? then Never
      else if latest == h then earlier.Without(h)
      else After(latest, earlier.Without(h))
    }

    function Take(n: nat): Recency {
      if Never? || n == 0 then Never else After(latest, earlier.Take(n - 1))
    }

    predicate Distinct() {
      After? ==> latest !in earlier.Members() && earlier.Distinct()
    }

    /** The hashes in front of `h`. */
    function Ahead(h: Hash): set<Hash> {
      if Never? || latest == h then {} else {latest} + earlier.Ahead(h)
    }
  }

  /** One access: to the front, and when that makes more than `cap`, the last one goes. `0` is no bound. */
  function Access(r: Recency, h: Hash, cap: nat): Recency {
    if h in r.Members() || cap == 0 then After(h, r.Without(h)) else After(h, r.Take(cap - 1))
  }

  /** What a run of accesses leaves in a cache. */
  function Held(run: Recency, cap: nat): Recency {
    if run.Never? then Never else Access(Held(run.earlier, cap), run.latest, cap)
  }

  lemma {:induction false} WithoutMembers(r: Recency, h: Hash)
    ensures r.Without(h).Members() == r.Members() - {h}
    ensures r.Distinct() ==> r.Without(h).Distinct()
    ensures h !in r.Members() ==> r.Without(h) == r
  {
    if r.After? {
      WithoutMembers(r.earlier, h);
    }
  }

  lemma {:induction false} TakeMembers(r: Recency, n: nat)
    ensures r.Take(n).Members() <= r.Members()
    ensures r.Take(n).Len() == Min(n, r.Len())
    ensures r.Len() <= n ==> r.Take(n) == r
    ensures r.Distinct() ==> r.Take(n).Distinct()
  {
    if r.After? && n > 0 {
      TakeMembers(r.earlier, n - 1);
    }
  }

  lemma {:induction false} TakeTake(r: Recency, n: nat)
    requires n > 0
    ensures r.Take(n).Take(n - 1) == r.Take(n - 1)
  {
    if r.After? && n > 1 {
      TakeTake(r.earlier, n - 1);
    }
  }

  lemma {:induction false} TakeWithout(r: Recency, h: Hash, n: nat)
    requires r.Distinct() && n > 0
    ensures h in r.Take(n).Members() ==> r.Take(n).Without(h) == r.Without(h).Take(n - 1)
    ensures h !in r.Take(n).Members() ==> r.Take(n - 1) == r.Without(h).Take(n - 1)
  {
    if r.After? {
      WithoutMembers(r.earlier, h);
      TakeMembers(r.earlier, n - 1);
      if r.latest == h {
        WithoutMembers(r.earlier.Take(n - 1), h);
      } else if n > 1 {
        TakeWithout(r.earlier, h, n - 1);
      }
    }
  }

  lemma AccessTake(r: Recency, h: Hash, cap: nat)
    requires r.Distinct() && cap > 0
    ensures Access(r.Take(cap), h, cap) == Access(r, h, 0).Take(cap)
  {
    TakeWithout(r, h, cap);
    TakeTake(r, cap);
    TakeMembers(r, cap);
  }

  lemma {:induction false} HeldDistinct(run: Recency)
    ensures Held(run, 0).Distinct() && Held(run, 0).Members() == run.Members()
  {
    if run.After? {
      HeldDistinct(run.earlier);
      WithoutMembers(Held(run.earlier, 0), run.latest);
    }
  }

  /** After any run, a bounded cache holds the recent end of what an unbounded one holds. */
  lemma {:induction false} BoundedIsRecentEnd(run: Recency, cap: nat)
    requires cap > 0
    ensures Held(run, cap) == Held(run, 0).Take(cap)
  {
    if run.After? {
      BoundedIsRecentEnd(run.earlier, cap);
      HeldDistinct(run.earlier);
      AccessTake(Held(run.earlier, 0), run.latest, cap);
    }
  }

  /** A smaller cache never holds what a larger one has lost. */
  lemma Inclusion(run: Recency, small: nat, large: nat)
    requires 0 < small <= large
    ensures Held(run, small).Members() <= Held(run, large).Members() <= Held(run, 0).Members()
  {
    BoundedIsRecentEnd(run, small);
    BoundedIsRecentEnd(run, large);
    TakeMembers(Held(run, 0), large);
    TakeNested(Held(run, 0), small, large);
  }

  lemma {:induction false} TakeNested(r: Recency, m: nat, n: nat)
    requires m <= n
    ensures r.Take(m).Members() <= r.Take(n).Members()
  {
    if r.After? && m > 0 {
      TakeNested(r.earlier, m - 1, n - 1);
    }
  }

  lemma {:induction false} AheadWithout(r: Recency, g: Hash, h: Hash)
    requires g != h
    ensures r.Without(g).Ahead(h) == r.Ahead(h) - {g}
  {
    if r.After? {
      AheadWithout(r.earlier, g, h);
    }
  }

  /** The cache's order counts, in front of `h`, the hashes accessed since `h` was. */
  lemma {:induction false} AheadIsSince(run: Recency, h: Hash)
    ensures Held(run, 0).Ahead(h) == run.Ahead(h)
  {
    if run.After? {
      AheadIsSince(run.earlier, h);
      if run.latest != h {
        AheadWithout(Held(run.earlier, 0), run.latest, h);
      }
    }
  }

  lemma {:induction false} AheadDecidesTake(r: Recency, n: nat, h: Hash)
    requires r.Distinct() && h in r.Members()
    ensures h in r.Take(n).Members() <==> |r.Ahead(h)| < n
  {
    if r.latest != h {
      AheadMembers(r.earlier, h);
      assert |r.Ahead(h)| == 1 + |r.earlier.Ahead(h)|;
      if n > 0 {
        AheadDecidesTake(r.earlier, n - 1, h);
      }
    }
  }

  lemma {:induction false} AheadMembers(r: Recency, h: Hash)
    ensures r.Ahead(h) <= r.Members()
  {
    if r.After? {
      AheadMembers(r.earlier, h);
    }
  }

  /**
   * What a cache of `cap` holds after a run: exactly the hashes since whose
   * last access fewer than `cap` others were accessed.
   */
  lemma HoldsMostRecent(run: Recency, cap: nat, h: Hash)
    requires cap > 0
    ensures h in Held(run, cap).Members() <==> h in run.Members() && |run.Ahead(h)| < cap
  {
    BoundedIsRecentEnd(run, cap);
    HeldDistinct(run);
    TakeMembers(Held(run, 0), cap);
    AheadIsSince(run, h);
    if h in run.Members() {
      AheadDecidesTake(Held(run, 0), cap, h);
    }
  }

  // ---- The cache ----

  type Entries = map<Hash, (Text, nat)>

  predicate EntryLinked(entries: Entries, order: map<nat, Hash>, h: Hash) {
    h in entries ==> entries[h].1 in order && order[entries[h].1] == h
  }

  predicate TickLinked(entries: Entries, order: map<nat, Hash>, tick: nat, t: nat) {
    t in order ==> t <= tick && order[t] in entries && entries[order[t]].1 == t
  }

  /** The two maps are each other's inverse, and no tick is ahead of the clock. */
  ghost predicate MapsAgree(entries: Entries, order: map<nat, Hash>, tick: nat) {
    (forall h :: EntryLinked(entries, order, h)) && (forall t :: TickLinked(entries, order, tick, t))
  }

  /** The ticks fall along `r`. */
  ghost predicate Falling(entries: Entries, r: Recency) {
    r.After? ==>
      && r.latest in entries
      && (forall g :: g in r.earlier.Members() ==> g in entries && entries[g].1 < entries[r.latest].1)
      && Falling(entries, r.earlier)
  }

  /** `r` lists the cached hashes in the order their ticks tell. */
  ghost predicate Tracks(entries: Entries, r: Recency) {
    entries.Keys == r.Members() && r.Distinct() && Falling(entries, r)
  }

  lemma {:induction false} FallingWithout(before: Entries, after: Entries, r: Recency, h: Hash)
    requires Falling(before, r)
    requires forall g :: g in r.Members() && g != h ==> g in after && after[g] == before[g]
    ensures Falling(after, r.Without(h))
  {
    if r.After? {
      WithoutMembers(r.earlier, h);
      FallingWithout(before, after, r.earlier, h);
    }
  }

  lemma {:induction false} LenIsCount(r: Recency)
    requires r.Distinct()
    ensures r.Len() == |r.Members()|
  {
    if r.After? {
      LenIsCount(r.earlier);
    }
  }

  /** Refreshing, or inserting, `h` under the next tick. */
  lemma StampTracks(before: Entries, r: Recency, h: Hash, fingerprint: Text, order: map<nat, Hash>, tick: nat)
    requires MapsAgree(before, order, tick) && Tracks(before, r)
    ensures Tracks(before[h := (fingerprint, tick + 1)], After(h, r.Without(h)))
  {
    var after := before[h := (fingerprint, tick + 1)];
    WithoutMembers(r, h);
    FallingWithout(before, after, r, h);
    forall g | g in r.Without(h).Members() ensures after[g].1 < after[h].1 {
      assert EntryLinked(before, order, g) && TickLinked(before, order, tick, before[g].1);
    }
  }

  /** The order map without the key under which `h` stands. */
  function Unlinked(entries: Entries, order: map<nat, Hash>, h: Hash): map<nat, Hash> {
    if h in entries then order - {entries[h].1} else order
  }

  lemma StampAgrees(before: Entries, h: Hash, fingerprint: Text, order: map<nat, Hash>, tick: nat)
    requires MapsAgree(before, order, tick)
    ensures MapsAgree(before[h := (fingerprint, tick + 1)], Unlinked(before, order, h)[tick + 1 := h], tick + 1)
  {
    var after, linked := before[h := (fingerprint, tick + 1)], Unlinked(before, order, h)[tick + 1 := h];
    forall g ensures EntryLinked(after, linked, g) {
      assert EntryLinked(before, order, g) && EntryLinked(before, order, h);
      assert g in before ==> TickLinked(before, order, tick, before[g].1);
    }
    var now := tick + 1;
    forall t ensures TickLinked(after, linked, now, t) {
      assert TickLinked(before, order, tick, t) && EntryLinked(before, order, h);
    }
  }

  lemma OnlyLowest(entries: Entries, r: Recency)
    requires r.After? && Falling(entries, r) && r.Distinct()
    requires forall g :: g in r.Members() ==> g in entries && entries[r.latest].1 <= entries[g].1
    ensures r.earlier.Never?
  {
    assert r.earlier.Members() == {};
    NoMembers(r.earlier);
  }

  lemma NoMembers(r: Recency)
    requires r.Members() == {}
    ensures r.Never?
  {}

  /** The first key of the tick order is the last of the recency order. */
  lemma {:induction false} LowestIsLast(entries: Entries, r: Recency, lru: Hash)
    requires Falling(entries, r) && r.Distinct() && lru in r.Members()
    requires forall g :: g in r.Members() ==> g in entries && entries[lru].1 <= entries[g].1
    ensures r.Len() > 0 && r.Take(r.Len() - 1) == r.Without(lru)
  {
    if r.latest == lru {
      OnlyLowest(entries, r);
    } else {
      LowestIsLast(entries, r.earlier, lru);
    }
  }

  lemma EvictTracks(entries: Entries, r: Recency, order: map<nat, Hash>, tick: nat, t: nat)
    requires MapsAgree(entries, order, tick) && Tracks(entries, r)
    requires t in order && forall o :: o in order ==> t <= o
    ensures MapsAgree(entries - {order[t]}, order - {t}, tick)
    ensures r.Len() > 0 && Tracks(entries - {order[t]}, r.Take(r.Len() - 1))
    ensures order[t] in entries
  {
    var lru := order[t];
    assert TickLinked(entries, order, tick, t);
    forall g | g in r.Members() ensures entries[lru].1 <= entries[g].1 {
      assert EntryLinked(entries, order, g);
    }
    forall h ensures EntryLinked(entries - {lru}, order - {t}, h) {
      assert EntryLinked(entries, order, h);
    }
    forall u ensures TickLinked(entries - {lru}, order - {t}, tick, u) {
      assert TickLinked(entries, order, tick, u);
    }
    LowestIsLast(entries, r, lru);
    WithoutMembers(r, lru);
    FallingWithout(entries, entries - {lru}, r, lru);
  }

  /** What holds between the fields of a cache. */
  ghost predicate Consistent(cap: nat, tick: nat, entries: Entries, order: map<nat, Hash>, r: Recency) {
    && MapsAgree(entries, order, tick)
    && Tracks(entries, r)
    && (cap > 0 ==> |entries| <= cap)
  }

  lemma StampConsistent(cap: nat, tick: nat, entries: Entries, order: map<nat, Hash>, r: Recency, h: Hash, f: Text)
    requires Consistent(cap, tick, entries, order, r)
    requires h in entries || cap == 0 || |entries| < cap
    ensures Consistent(cap, tick + 1, entries[h := (f, tick + 1)],
                       Unlinked(entries, order, h)[tick + 1 := h], After(h, r.Without(h)))
    ensures After(h, r.Without(h)) == Access(r, h, cap)
  {
    StampTracks(entries, r, h, f, order, tick);
    StampAgrees(entries, h, f, order, tick);
    StampCount(entries, r, h, (f, tick + 1), cap);
    WithoutMembers(r, h);
  }

  lemma RoomAlready(cap: nat, tick: nat, entries: Entries, order: map<nat, Hash>, r: Recency, h: Hash)
    requires Consistent(cap, tick, entries, order, r) && (h in entries || cap == 0 || |entries| < cap)
    ensures After(h, r.Without(h)) == Access(r, h, cap)
  {
    StampConsistent(cap, tick, entries, order, r, h, []);
  }

  lemma StampCount(entries: Entries, r: Recency, h: Hash, entry: (Text, nat), cap: nat)
    requires Tracks(entries, r) && (cap > 0 ==> |entries| <= cap)
    requires h in entries || cap == 0 || |entries| < cap
    ensures cap > 0 ==> |entries[h := entry]| <= cap
    ensures h !in entries && cap > 0 ==> r.Take(cap - 1) == r
  {
    assert h in entries ==> entries[h := entry].Keys == entries.Keys;
    LenIsCount(r);
    assert |entries| == |entries.Keys|;
    if cap > 0 {
      TakeMembers(r, cap - 1);
    }
  }

  lemma EvictConsistent(cap: nat, tick: nat, entries: Entries, order: map<nat, Hash>, r: Recency, t: nat)
    requires Consistent(cap, tick, entries, order, r)
    requires t in order && forall o :: o in order ==> t <= o
    ensures r.Len() > 0 && Consistent(cap, tick, entries - {order[t]}, order - {t}, r.Take(r.Len() - 1))
    ensures order[t] in entries && r.Len() == |entries| == |entries - {order[t]}| + 1
  {
    EvictTracks(entries, r, order, tick, t);
    LenIsCount(r);
    assert |entries| == |entries.Keys|;
    assert entries.Keys == (entries - {order[t]}).Keys + {order[t]};
  }

  lemma OrderNotEmpty(entries: Entries, order: map<nat, Hash>, tick: nat)
    requires MapsAgree(entries, order, tick) && |entries| > 0
    ensures order != map[]
  {
    var some :| some in entries;
    assert EntryLinked(entries, order, some);
  }

  /** Access after the eviction is access with the eviction. */
  lemma EvictThenStamp(r: Recency, h: Hash, cap: nat)
    requires cap > 0 && r.Len() == cap && h !in r.Members()
    ensures After(h, r.Take(cap - 1).Without(h)) == Access(r, h, cap)
    ensures h !in r.Take(cap - 1).Members()
  {
    TakeMembers(r, cap - 1);
    WithoutMembers(r.Take(cap - 1), h);
  }

  class FingerprintCache {
    const cap: nat
    var tick: nat
    var entries: Entries
    var order: map<nat, Hash>
    ghost var recency: Recency

    ghost predicate Valid()
      reads this
    {
      Consistent(cap, tick, entries, order, recency)
    }

    constructor (cap: nat)
      ensures Valid() && this.cap == cap && recency == Never && entries == map[]
    {
      this.cap := cap;
      tick := 0;
      entries := map[];
      order := map[];
      recency := Never;
    }

    /** A hit refreshes the entry; a miss changes nothing. */
    method Get(hash: Hash) returns (r: Option<Text>)
      requires Valid()
      modifies this
      ensures Valid()
      ensures r == if hash in old(entries) then Some(old(entries)[hash].0) else None
      ensures hash !in old(entries) ==> recency == old(recency) && entries == old(entries)
      ensures hash in old(entries) ==>
        && recency == Access(old(recency), hash, cap)
        && entries == old(entries)[hash := (old(entries)[hash].0, tick)]
    {
      if hash !in entries {
        return None;
      }
      var fingerprint := entries[hash].0;
      Stamp(hash, fingerprint);
      return Some(fingerprint);
    }

    /** Put `hash` under the next tick. */
    method Stamp(hash: Hash, fingerprint: Text)
      requires Valid() && (hash in entries || cap == 0 || |entries| < cap)
      modifies this
      ensures Valid() && tick == old(tick) + 1
      ensures recency == Access(old(recency), hash, cap) == After(hash, old(recency).Without(hash))
      ensures entries == old(entries)[hash := (fingerprint, tick)]
    {
      StampConsistent(cap, tick, entries, order, recency, hash, fingerprint);
      var linked := Unlinked(entries, order, hash)[tick + 1 := hash];
      var stamped := entries[hash := (fingerprint, tick + 1)];
      ghost var after := After(hash, recency.Without(hash));
      Install(tick + 1, stamped, linked, after);
    }

    /** Maps that keep each other's place take the place of the old ones. */
    method Install(now: nat, stamped: Entries, linked: map<nat, Hash>, ghost after: Recency)
      requires Consistent(cap, now, stamped, linked, after)
      modifies this
      ensures Valid() && tick == now && entries == stamped && order == linked && recency == after
    {
      tick, entries, order, recency := now, stamped, linked, after;
    }

    /** The entry is there afterwards, the others stay, but for the least recently used one when full. */
    method Insert(hash: Hash, fingerprint: Text)
      requires Valid()
      modifies this
      ensures Valid()
      ensures recency == Access(old(recency), hash, cap)
      ensures hash in entries && entries[hash] == (fingerprint, tick)
      ensures forall h :: h in entries && h != hash ==> h in old(entries) && entries[h] == old(entries)[h]
    {
      MakeRoom(hash);
      Stamp(hash, fingerprint);
    }

    /** A full cache gives up its least recently used entry for a hash it does not hold. */
    method MakeRoom(hash: Hash)
      requires Valid()
      modifies this
      ensures Valid() && (hash in entries || cap == 0 || |entries| < cap)
      ensures After(hash, recency.Without(hash)) == Access(old(recency), hash, cap)
      ensures forall h :: h in entries ==> h in old(entries) && entries[h] == old(entries)[h]
    {
      if hash !in entries && cap > 0 && |entries| >= cap {
        Evict();
        EvictThenStamp(old(recency), hash, cap);
      } else {
        RoomAlready(cap, tick, entries, order, recency, hash);
      }
    }

    /** Drop the entry under the first key of the tick order. */
    method Evict()
      requires Valid() && |entries| > 0
      modifies this
      ensures Valid() && tick == old(tick)
      ensures old(recency).Len() == |old(entries)| == |entries| + 1
      ensures recency == old(recency).Take(|entries|)
      ensures exists lru :: lru in old(entries) && entries == old(entries) - {lru}
    {
      OrderNotEmpty(entries, order, tick);
      var lruTick := FirstKey(order);
      EvictConsistent(cap, tick, entries, order, recency, lruTick);
      entries, order, recency := entries - {order[lruTick]}, order - {lruTick}, recency.Take(recency.Len() - 1);
    }
  }

  /** First key of an ordered map. */
  method FirstKey(order: map<nat, Hash>) returns (t: nat)
    requires order != map[]
    ensures t in order && forall o :: o in order ==> t <= o
  {
    t :| t in order;
    var rest := order.Keys - {t};
    while rest != {}
      invariant t in order && rest <= order.Keys
      invariant forall o :: o in order && o !in rest ==> t <= o
      decreases rest
    {
      var o :| o in rest;
      if o < t {
        t := o;
      }
      rest := rest - {o};
    }
  }

  /** Every cached fingerprint is the one its texts have. */
  ghost predicate Sound(entries: Entries, sql: Sql, texts: iset<Text>) {
    forall t :: t in texts && sql.hash(t) in entries ==> entries[sql.hash(t)].0 == FingerprintOf(sql, t)
  }

  /**
   * Resolve a text through the cache. The text is accessed either way; the
   * first text to bring a hash decides its answer, which on faithful hashes
   * is the right one.
   */
  method FingerprintFor(cache: FingerprintCache, sql: Sql, text: Text, ghost texts: iset<Text>) returns (f: Text)
    requires cache.Valid()
    modifies cache
    ensures cache.Valid()
    ensures cache.recency == Access(old(cache.recency), sql.hash(text), cache.cap)
    ensures f == if sql.hash(text) in old(cache.entries) then old(cache.entries)[sql.hash(text)].0
                 else FingerprintOf(sql, text)
    ensures text in texts && Faithful(sql, texts) && Sound(old(cache.entries), sql, texts) ==>
              f == FingerprintOf(sql, text) && Sound(cache.entries, sql, texts)
  {
    var hash := sql.hash(text);
    var cached := cache.Get(hash);
    if cached.Some? {
      return cached.value;
    }
    f := FingerprintOf(sql, text);
    cache.Insert(hash, f);
  }
}
