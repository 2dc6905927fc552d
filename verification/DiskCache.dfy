/** The reservation-bounded block cache. What each locked region does to the shared fields is a function
    on values; the class methods are proved against those functions, and the accounting is proved for
    every interleaving of the regions by any number of threads. */
module DiskCaches {

  const BLOCK: nat := 8388608
  const DIGEST: nat := 32

  type Key = string

  datatype Entry = Entry(key: Key, size: nat)

  /** The shared fields: entries oldest first. */
  datatype Cache = Cache(limit: nat, entries: seq<Entry>, used: int, reserved: int, pending: set<Key>)

  // ------------------------------------------------------------------ entries

  ghost function SumOf(entries: seq<Entry>): nat {
    if entries == [] then 0 else entries[0].size + SumOf(entries[1..])
  }

  predicate Has(entries: seq<Entry>, key: Key) {
    exists i :: 0 <= i < |entries| && entries[i].key == key
  }

  ghost predicate DistinctKeys(entries: seq<Entry>) {
    forall i, j :: 0 <= i < j < |entries| ==> entries[i].key != entries[j].key
  }

  /** Where a key is, or the number of entries. */
  function Find(entries: seq<Entry>, key: Key): (i: nat)
    ensures i <= |entries|
    ensures i < |entries| ==> entries[i].key == key
    ensures i == |entries| ==> !Has(entries, key)
  {
    if entries == [] || entries[0].key == key then 0 else 1 + Find(entries[1..], key)
  }

  function Without(entries: seq<Entry>, i: nat): (r: seq<Entry>)
    requires i < |entries|
    ensures |r| == |entries| - 1
  {
    entries[..i] + entries[i + 1..]
  }

  /** One entry of the key is gone, and the others are as they were. */
  ghost predicate OneGone(before: seq<Entry>, after: seq<Entry>, key: Key) {
    exists i :: GoneAt(before, after, key, i)
  }

  ghost predicate GoneAt(before: seq<Entry>, after: seq<Entry>, key: Key, i: int) {
    0 <= i < |before| && before[i].key == key && after == before[..i] + before[i + 1..]
  }

  /** The key's entry is the newest now, and the others are in the order they had. */
  ghost predicate MadeNewest(before: seq<Entry>, after: seq<Entry>, key: Key) {
    && Has(before, key) && after != [] && after[|after| - 1] in before && after[|after| - 1].key == key
    && OneGone(before, after[..|after| - 1], key)
  }

  /** The oldest entries went, no more of them than it took for total to come within the limit. */
  ghost predicate MadeRoom(before: seq<Entry>, after: seq<Entry>, total: int, limit: nat) {
    && |after| <= |before| && after == before[|before| - |after|..]
    && (after == [] || total <= limit)
    && (|after| < |before| ==> total + before[|before| - |after| - 1].size > limit)
  }

  lemma {:induction false} WithoutIsOneGone(entries: seq<Entry>, i: nat)
    requires i < |entries|
    ensures OneGone(entries, Without(entries, i), entries[i].key)
  {
    assert GoneAt(entries, Without(entries, i), entries[i].key, i);
  }

  lemma {:induction false} MovedIsNewest(entries: seq<Entry>, i: nat)
    requires i < |entries|
    ensures MadeNewest(entries, Without(entries, i) + [entries[i]], entries[i].key)
  {
    WithoutIsOneGone(entries, i);
    var after := Without(entries, i) + [entries[i]];
    assert after[..|after| - 1] == Without(entries, i);
  }

  lemma {:induction false} SumConcat(a: seq<Entry>, b: seq<Entry>)
    ensures SumOf(a + b) == SumOf(a) + SumOf(b)
  {
    if a == [] {
      assert a + b == b;
    } else {
      assert (a + b)[1..] == a[1..] + b;
      SumConcat(a[1..], b);
    }
  }

  lemma {:induction false} SumWithout(entries: seq<Entry>, i: nat)
    requires i < |entries|
    ensures SumOf(entries) == SumOf(Without(entries, i)) + entries[i].size
  {
    assert entries == entries[..i] + ([entries[i]] + entries[i + 1..]);
    SumConcat(entries[..i], [entries[i]] + entries[i + 1..]);
    SumConcat(entries[..i], entries[i + 1..]);
    assert ([entries[i]] + entries[i + 1..])[1..] == entries[i + 1..];
  }

  lemma {:induction false} SumPush(entries: seq<Entry>, e: Entry)
    ensures SumOf(entries + [e]) == SumOf(entries) + e.size
  {
    SumConcat(entries, [e]);
    assert [e][1..] == [];
  }

  // ------------------------------------------------------------------ the locked regions

  /** Drop the oldest entries until there is room, or none is left. */
  function Evicted(c: Cache, need: nat): (r: Cache)
    ensures r.limit == c.limit && r.reserved == c.reserved && r.pending == c.pending
    ensures r.entries == [] || r.used + r.reserved + need <= r.limit
    decreases |c.entries|
  {
    if c.entries == [] || c.used + c.reserved + need <= c.limit then c
    else Evicted(c.(entries := c.entries[1..], used := c.used - c.entries[0].size), need)
  }

  /** Make an entry the newest. */
  function Touched(c: Cache, key: Key): Cache {
    var i := Find(c.entries, key);
    if i < |c.entries| then c.(entries := Without(c.entries, i) + [c.entries[i]]) else c
  }

  datatype Claim = Wait | Read | Fill

  /** One pass of the claiming loop under the lock: wait for a fill of the key, read it, wait for room,
      or reserve room and fill it. */
  function Claimed(c: Cache, key: Key, need: nat): (r: (Cache, Claim)) {
    if key in c.pending then (c, Wait)
    else if Find(c.entries, key) < |c.entries| then (Touched(c, key), Read)
    else
      var e := Evicted(c, need);
      if e.used + e.reserved + need > e.limit then (e, Wait)
      else (e.(reserved := e.reserved + need, pending := e.pending + {key}), Fill)
  }

  function Dropped(c: Cache, key: Key): Cache {
    var i := Find(c.entries, key);
    if i < |c.entries| then c.(entries := Without(c.entries, i), used := c.used - c.entries[i].size) else c
  }

  /** Store a size under a key: in place when the key is there, otherwise as the newest. */
  function Stored(entries: seq<Entry>, key: Key, size: nat): seq<Entry> {
    var i := Find(entries, key);
    if i < |entries| then entries[i := Entry(key, size)] else entries + [Entry(key, size)]
  }

  function Committed(c: Cache, key: Key, need: nat): Cache {
    c.(entries := Stored(c.entries, key, need), used := c.used + need, reserved := c.reserved - need,
       pending := c.pending - {key})
  }

  function Aborted(c: Cache, key: Key, need: nat): Cache {
    c.(reserved := c.reserved - need, pending := c.pending - {key})
  }

  /** Files found at start, oldest first: sizes that no block could have are dropped. */
  function Loaded(files: seq<Entry>): (r: seq<Entry>) {
    if files == [] then []
    else
      var f := files[|files| - 1];
      Loaded(files[..|files| - 1]) + if f.size < DIGEST || f.size > BLOCK + DIGEST then [] else [f]
  }

  /** A file that can be a block with its digest. */
  ghost predicate Plausible(f: Entry) {
    DIGEST <= f.size <= BLOCK + DIGEST
  }

  /** kept lists the places of the plausible files in increasing order, and loaded has those files. */
  ghost predicate KeepsPlausible(files: seq<Entry>, loaded: seq<Entry>, kept: seq<nat>) {
    && |kept| == |loaded| && (forall a, b :: 0 <= a < b < |kept| ==> kept[a] < kept[b])
    && (forall a :: 0 <= a < |kept| ==> kept[a] < |files| && loaded[a] == files[kept[a]])
    && (forall i: nat :: i < |files| ==> (i in kept <==> Plausible(files[i])))
  }

  lemma {:induction false} LoadedKeepsPlausible(files: seq<Entry>) returns (kept: seq<nat>)
    ensures KeepsPlausible(files, Loaded(files), kept)
  {
    kept := [];
    if files != [] {
      var n := |files| - 1;
      var front := LoadedKeepsPlausible(files[..n]);
      kept := if Plausible(files[n]) then front + [n] else front;
      KeepsNext(files, n, Loaded(files[..n]), front, Loaded(files), kept);
    }
  }

  lemma {:induction false} KeepsNext(files: seq<Entry>, n: nat, loaded: seq<Entry>, front: seq<nat>, more: seq<Entry>,
                                     kept: seq<nat>)
    requires |files| == n + 1 && KeepsPlausible(files[..n], loaded, front)
    requires if Plausible(files[n]) then kept == front + [n] && more == loaded + [files[n]]
             else kept == front && more == loaded
    ensures KeepsPlausible(files, more, kept)
  {
    forall i: nat | i < |files|
      ensures i in kept <==> Plausible(files[i])
    {
      if i < n {
        assert files[..n][i] == files[i];
      } else {
        assert i !in front;
      }
    }
  }

  datatype Opened = TooSmall | Open(cache: Cache)

  ghost function Opening(limit: nat, files: seq<Entry>): Opened {
    if limit < BLOCK + DIGEST then TooSmall
    else Open(Evicted(Cache(limit, Loaded(files), SumOf(Loaded(files)), 0, {}), 0))
  }

  // ------------------------------------------------------------------ the accounting

  ghost predicate SizesFit(entries: seq<Entry>) {
    forall i :: 0 <= i < |entries| ==> DIGEST <= entries[i].size <= BLOCK + DIGEST
  }

  /** used is the sum of the entries; no key is both stored and being filled. */
  ghost predicate Accounted(c: Cache) {
    && c.limit >= BLOCK + DIGEST && DistinctKeys(c.entries) && SizesFit(c.entries)
    && c.used == SumOf(c.entries)
    && (forall i :: 0 <= i < |c.entries| ==> c.entries[i].key !in c.pending)
  }

  ghost predicate WithinLimit(c: Cache) {
    c.used + c.reserved <= c.limit
  }

  lemma {:induction false} EvictedAccounted(c: Cache, need: nat)
    requires Accounted(c) && c.reserved >= 0
    ensures Accounted(Evicted(c, need)) && Evicted(c, need).used <= c.used
    ensures WithinLimit(c) ==> WithinLimit(Evicted(c, need))
    ensures forall k :: Has(Evicted(c, need).entries, k) ==> Has(c.entries, k)
    decreases |c.entries|
  {
    if c.entries != [] && c.used + c.reserved + need > c.limit {
      var d := c.(entries := c.entries[1..], used := c.used - c.entries[0].size);
      assert forall i :: 0 <= i < |d.entries| ==> d.entries[i] == c.entries[i + 1];
      EvictedAccounted(d, need);
      forall k | Has(Evicted(c, need).entries, k)
        ensures Has(c.entries, k)
      {
        assert Has(d.entries, k);
        var i :| 0 <= i < |d.entries| && d.entries[i].key == k;
        assert c.entries[i + 1].key == k;
      }
    }
  }

  lemma {:induction false} EvictedKeeps(c: Cache, need: nat)
    ensures Accounted(c) && WithinLimit(c) && c.reserved >= 0 ==>
              Accounted(Evicted(c, need)) && WithinLimit(Evicted(c, need))
  {
    if Accounted(c) && WithinLimit(c) && c.reserved >= 0 {
      EvictedAccounted(c, need);
    }
  }

  /** Eviction drops a shortest front that makes room, or everything. */
  lemma {:induction false} EvictedIsBack(c: Cache, need: nat)
    ensures var r := Evicted(c, need);
            var d := |c.entries| - |r.entries|;
            && 0 <= d && r.entries == c.entries[d..]
            && (d == 0 ==> r == c)
            && (d > 0 ==> r.used + c.entries[d - 1].size + r.reserved + need > r.limit)
    decreases |c.entries|
  {
    if c.entries != [] && c.used + c.reserved + need > c.limit {
      EvictedIsBack(c.(entries := c.entries[1..], used := c.used - c.entries[0].size), need);
    }
  }

  /** Evicting makes room whenever what is reserved and needed fits at all: with nothing stored, nothing is used. */
  lemma {:induction false} EvictedHasRoom(c: Cache, need: nat)
    requires Accounted(c) && c.reserved >= 0
    ensures var r := Evicted(c, need); r.used + r.reserved + need <= r.limit <==> c.reserved + need <= c.limit
  {
    EvictedAccounted(c, need);
  }

  lemma {:induction false} WithoutAccounted(c: Cache, i: nat)
    requires Accounted(c) && i < |c.entries|
    ensures Accounted(c.(entries := Without(c.entries, i), used := c.used - c.entries[i].size))
    ensures !Has(Without(c.entries, i), c.entries[i].key)
  {
    SumWithout(c.entries, i);
    var r := Without(c.entries, i);
    assert forall k: nat :: k < |r| ==> r[k] == c.entries[if k < i then k else k + 1];
  }

  lemma {:induction false} PushAccounted(c: Cache, e: Entry)
    requires Accounted(c) && !Has(c.entries, e.key) && e.key !in c.pending && DIGEST <= e.size <= BLOCK + DIGEST
    ensures Accounted(c.(entries := c.entries + [e], used := c.used + e.size))
  {
    SumPush(c.entries, e);
    assert forall i :: 0 <= i < |c.entries| ==> Has(c.entries, c.entries[i].key);
  }

  lemma {:induction false} TouchedAccounted(c: Cache, key: Key)
    requires Accounted(c)
    ensures Accounted(Touched(c, key)) && Touched(c, key).used == c.used && Touched(c, key).reserved == c.reserved
    ensures Touched(c, key).pending == c.pending && Touched(c, key).limit == c.limit
  {
    var i := Find(c.entries, key);
    if i < |c.entries| {
      WithoutAccounted(c, i);
      PushAccounted(c.(entries := Without(c.entries, i), used := c.used - c.entries[i].size), c.entries[i]);
    }
  }

  lemma {:induction false} DroppedAccounted(c: Cache, key: Key)
    requires Accounted(c)
    ensures Accounted(Dropped(c, key)) && Dropped(c, key).used <= c.used && !Has(Dropped(c, key).entries, key)
  {
    if Find(c.entries, key) < |c.entries| {
      WithoutAccounted(c, Find(c.entries, key));
    }
  }

  /** A key being filled is waited for; otherwise a stored key is read, and one that is not is filled when it fits
      beside what is reserved and waits when it does not. The three cases exclude each other. */
  ghost predicate Decides(c: Cache, key: Key, need: nat, claim: Claim) {
    match claim
    case Read => key !in c.pending && Has(c.entries, key)
    case Fill => key !in c.pending && !Has(c.entries, key) && c.reserved + need <= c.limit
    case Wait => key in c.pending || (!Has(c.entries, key) && c.reserved + need > c.limit)
  }

  /** A key that is neither stored nor being filled is filled exactly when it fits beside what is reserved. */
  lemma {:induction false} ClaimedWaits(c: Cache, key: Key, need: nat)
    requires Accounted(c) && c.reserved >= 0
    ensures var (d, claim) := Claimed(c, key, need);
            Decides(c, key, need, claim)
  {
    EvictedHasRoom(c, need);
    if Has(c.entries, key) {
      var i :| 0 <= i < |c.entries| && c.entries[i].key == key;
      assert c.entries[i].key !in c.pending;
    }
  }

  /** What each way leaves: a read makes the entry the newest and changes nothing else; the others reserve the need
      or nothing, and drop no more of the oldest entries than it takes. */
  ghost predicate ClaimLeaves(c: Cache, key: Key, need: nat, d: Cache, claim: Claim) {
    match claim
    case Read => MadeNewest(c.entries, d.entries, key) && d == c.(entries := d.entries)
    case Fill => ClearedFor(c, d, need) && d.pending == c.pending + {key} && d.reserved == c.reserved + need
    case Wait => if key in c.pending then d == c else ClearedFor(c, d, need) && SameFills(c, d)
  }

  ghost predicate ClearedFor(c: Cache, d: Cache, need: nat) {
    d.limit == c.limit && MadeRoom(c.entries, d.entries, d.used + c.reserved + need, c.limit)
  }

  ghost predicate SameFills(c: Cache, d: Cache) {
    d.pending == c.pending && d.reserved == c.reserved
  }

  lemma {:induction false} EvictedClears(c: Cache, need: nat)
    ensures ClearedFor(c, Evicted(c, need), need) && SameFills(c, Evicted(c, need))
  {
    EvictedIsBack(c, need);
  }

  lemma {:induction false} FillClears(c: Cache, e: Cache, d: Cache, need: nat)
    requires ClearedFor(c, e, need) && d.limit == e.limit && d.entries == e.entries && d.used == e.used
    ensures ClearedFor(c, d, need)
  {}

  lemma {:induction false} ClaimedLeaves(c: Cache, key: Key, need: nat)
    ensures var (d, claim) := Claimed(c, key, need);
            ClaimLeaves(c, key, need, d, claim)
  {
    if key !in c.pending && Find(c.entries, key) < |c.entries| {
      MovedIsNewest(c.entries, Find(c.entries, key));
    } else if key !in c.pending {
      EvictedClears(c, need);
      FillClears(c, Evicted(c, need), Claimed(c, key, need).0, need);
    }
  }

  /** What claiming does to the accounts, whichever way it goes. */
  lemma {:induction false} ClaimedAccounted(c: Cache, key: Key, need: nat)
    requires Accounted(c) && WithinLimit(c) && c.reserved >= 0 && DIGEST < need <= BLOCK + DIGEST
    ensures var (d, claim) := Claimed(c, key, need);
            && Accounted(d) && WithinLimit(d)
            && (claim == Fill ==>
                  key !in c.pending && d.pending == c.pending + {key} && d.reserved == c.reserved + need)
            && (claim != Fill ==> d.pending == c.pending && d.reserved == c.reserved)
            && (claim == Wait ==> key in c.pending || c.reserved > 0)
  {
    var e := Evicted(c, need);
    EvictedAccounted(c, need);
    TouchedAccounted(c, key);
    if key !in c.pending && Find(c.entries, key) == |c.entries| {
      assert !Has(e.entries, key);
      assert forall i :: 0 <= i < |e.entries| ==> Has(e.entries, e.entries[i].key);
    }
  }

  lemma {:induction false} CommittedAccounted(c: Cache, key: Key, need: nat)
    requires Accounted(c) && WithinLimit(c) && key in c.pending && DIGEST < need <= BLOCK + DIGEST
    ensures var d := Committed(c, key, need);
            && Accounted(d) && WithinLimit(d)
            && d.entries == c.entries + [Entry(key, need)] && d.used + d.reserved == c.used + c.reserved
  {
    var i := Find(c.entries, key);
    assert i == |c.entries|;
    var d := c.(pending := c.pending - {key});
    PushAccounted(d, Entry(key, need));
  }

  lemma {:induction false} LoadedFits(files: seq<Entry>)
    requires DistinctKeys(files)
    ensures SizesFit(Loaded(files)) && DistinctKeys(Loaded(files))
    ensures forall k :: Has(Loaded(files), k) ==> Has(files, k)
  {
    if files != [] {
      var front := files[..|files| - 1];
      LoadedFits(front);
      var r := Loaded(front);
      forall k | Has(Loaded(files), k)
        ensures Has(files, k)
      {
        var i :| 0 <= i < |Loaded(files)| && Loaded(files)[i].key == k;
        if i < |r| {
          assert Has(r, k);
          var j :| 0 <= j < |front| && front[j].key == k;
          assert files[j].key == k;
        } else {
          assert files[|files| - 1].key == k;
        }
      }
      forall i | 0 <= i < |r|
        ensures r[i].key != files[|files| - 1].key
      {
        assert Has(r, r[i].key);
        var j :| 0 <= j < |front| && front[j].key == r[i].key;
        assert files[j].key == r[i].key;
      }
    }
  }

  /** A cache that opens starts accounted and within its limit. */
  lemma {:induction false} OpeningAccounted(limit: nat, files: seq<Entry>)
    requires DistinctKeys(files) && limit >= BLOCK + DIGEST
    ensures var c := Opening(limit, files).cache;
            Accounted(c) && WithinLimit(c) && c.reserved == 0 && c.pending == {} && c.limit == limit
  {
    LoadedFits(files);
    EvictedAccounted(Cache(limit, Loaded(files), SumOf(Loaded(files)), 0, {}), 0);
  }

  lemma {:induction false} EvictedSums(c: Cache, need: nat)
    requires c.used == SumOf(c.entries)
    ensures Evicted(c, need).used == SumOf(Evicted(c, need).entries)
    decreases |c.entries|
  {
    if c.entries != [] && c.used + c.reserved + need > c.limit {
      EvictedSums(c.(entries := c.entries[1..], used := c.used - c.entries[0].size), need);
    }
  }

  ghost predicate HeldOf(files: seq<Entry>, loaded: seq<Entry>, kept: seq<nat>, c: Cache) {
    KeepsPlausible(files, loaded, kept) && MadeRoom(loaded, c.entries, c.used, c.limit)
  }

  /** An opened cache has the plausible files in their order, less the oldest that do not fit. */
  ghost predicate HoldsFiles(files: seq<Entry>, c: Cache) {
    && c.reserved == 0 && c.pending == {} && c.used == SumOf(c.entries)
    && exists loaded, kept :: HeldOf(files, loaded, kept, c)
  }

  lemma {:induction false} OpeningHoldsFiles(limit: nat, files: seq<Entry>)
    requires limit >= BLOCK + DIGEST
    ensures Opening(limit, files).cache.limit == limit && HoldsFiles(files, Opening(limit, files).cache)
  {
    var kept := LoadedKeepsPlausible(files);
    var all := Cache(limit, Loaded(files), SumOf(Loaded(files)), 0, {});
    EvictedSums(all, 0);
    EvictedIsBack(all, 0);
    var c := Evicted(all, 0);
    assert HeldOf(files, Loaded(files), kept, c);
  }

  // ------------------------------------------------------------------ the class

  /** The cache object. Each method is one locked region. */
  class DiskCache {
    const limit: nat
    var entries: seq<Entry>
    var used: int
    var reserved: int
    var pending: set<Key>
    var hits: nat
    var downloaded: nat

    function State(): Cache
      reads this
    {
      Cache(limit, entries, used, reserved, pending)
    }

    /** The accounts are right and within the limit. */
    ghost predicate Valid()
      reads this
    {
      Accounted(State()) && WithinLimit(State()) && reserved >= 0
    }

    /** Open a cache over the files found, oldest first. */
    constructor (limit: nat, files: seq<Entry>)
      requires limit >= BLOCK + DIGEST
      ensures Opening(limit, files) == Open(State()) && hits == 0 && downloaded == 0
      ensures DistinctKeys(files) ==> Valid() && reserved == 0 && pending == {}
    {
      this.limit, entries, used, reserved, pending := limit, [], 0, 0, {};
      hits, downloaded := 0, 0;
      new;
      for i := 0 to |files|
        invariant entries == Loaded(files[..i]) && used == SumOf(entries)
        invariant reserved == 0 && pending == {} && hits == 0 && downloaded == 0
      {
        assert files[..i + 1][..i] == files[..i];
        if DIGEST <= files[i].size <= BLOCK + DIGEST {
          SumPush(entries, files[i]);
          entries := entries + [files[i]];
          used := used + files[i].size;
        }
      }
      assert files[..|files|] == files;
      Evict(0);
      if DistinctKeys(files) {
        OpeningAccounted(limit, files);
      }
    }

    method Evict(need: nat)
      modifies this`entries, this`used
      ensures State() == Evicted(old(State()), need)
      ensures old(Valid()) ==> Valid()
      ensures MadeRoom(old(entries), entries, used + reserved + need, limit)
    {
      EvictedIsBack(State(), need);
      EvictedKeeps(State(), need);
      ghost var start := State();
      while entries != [] && used + reserved + need > limit
        invariant Evicted(State(), need) == Evicted(start, need)
        invariant limit == start.limit && reserved == start.reserved && pending == start.pending
        decreases |entries|
      {
        used := used - entries[0].size;
        entries := entries[1..];
      }
    }

    method Touch(key: Key)
      modifies this`entries
      ensures State() == Touched(old(State()), key)
      ensures old(Valid()) ==> Valid()
      ensures if Has(old(entries), key) then MadeNewest(old(entries), entries, key) else entries == old(entries)
    {
      if Valid() {
        TouchedAccounted(State(), key);
      }
      var i := Find(entries, key);
      if i < |entries| {
        MovedIsNewest(entries, i);
        entries := Without(entries, i) + [entries[i]];
      }
    }

    /** Claim a key: the branch taken tells whether to wait, to read, or to fill. */
    method TryClaim(key: Key, need: nat) returns (claim: Claim)
      modifies this`entries, this`used, this`reserved, this`pending
      ensures (State(), claim) == Claimed(old(State()), key, need)
      ensures old(Valid()) && DIGEST < need <= BLOCK + DIGEST ==>
                Valid() && (claim.Wait? ==> key in pending || reserved > 0)
      ensures old(Valid()) ==> Decides(old(State()), key, need, claim)
      ensures ClaimLeaves(old(State()), key, need, State(), claim)
    {
      ClaimedLeaves(State(), key, need);
      if Valid() {
        ClaimedWaits(State(), key, need);
      }
      if Valid() && DIGEST < need <= BLOCK + DIGEST {
        ClaimedAccounted(State(), key, need);
      }
      claim := ClaimLocked(key, need);
    }

    method ClaimLocked(key: Key, need: nat) returns (claim: Claim)
      modifies this`entries, this`used, this`reserved, this`pending
      ensures (State(), claim) == Claimed(old(State()), key, need)
    {
      if key in pending {
        return Wait;
      }
      if Find(entries, key) < |entries| {
        Touch(key);
        return Read;
      }
      Evict(need);
      if used + reserved + need > limit {
        return Wait;
      }
      reserved := reserved + need;
      pending := pending + {key};
      claim := Fill;
    }

    /** A verified read. */
    method Hit(key: Key, length: nat)
      modifies this`entries, this`hits
      ensures State() == Touched(old(State()), key) && hits == old(hits) + length
      ensures old(Valid()) ==> Valid()
      ensures if Has(old(entries), key) then MadeNewest(old(entries), entries, key) else entries == old(entries)
    {
      Touch(key);
      hits := hits + length;
    }

    /** A read that did not verify: forget the entry. */
    method Drop(key: Key)
      modifies this`entries, this`used
      ensures State() == Dropped(old(State()), key)
      ensures old(Valid()) ==> Valid() && !Has(entries, key)
      ensures if Has(old(entries), key) then OneGone(old(entries), entries, key) else entries == old(entries)
    {
      if Valid() {
        DroppedAccounted(State(), key);
      }
      var i := Find(entries, key);
      if i < |entries| {
        WithoutIsOneGone(entries, i);
        used := used - entries[i].size;
        entries := Without(entries, i);
      }
    }

    /** A fill that was pending becomes the newest entry, and its reservation becomes bytes in use. */
    method Commit(key: Key, need: nat)
      requires need >= DIGEST
      modifies this`entries, this`used, this`reserved, this`pending, this`downloaded
      ensures State() == Committed(old(State()), key, need) && downloaded == old(downloaded) + need - DIGEST
      ensures old(Valid()) && key in old(pending) && DIGEST < need <= BLOCK + DIGEST && need <= old(reserved) ==>
                && Valid() && entries == old(entries) + [Entry(key, need)]
                && used + reserved == old(used) + old(reserved) && pending == old(pending) - {key}
    {
      if Valid() && key in pending && DIGEST < need <= BLOCK + DIGEST && need <= reserved {
        CommittedAccounted(State(), key, need);
      }
      entries := Stored(entries, key, need);
      used := used + need;
      downloaded := downloaded + (need - DIGEST);
      reserved := reserved - need;
      pending := pending - {key};
    }

    /** A fill that failed gives its reservation back and stores nothing. */
    method Abort(key: Key, need: nat)
      modifies this`reserved, this`pending
      ensures State() == Aborted(old(State()), key, need)
      ensures old(Valid()) && need <= old(reserved) ==>
                Valid() && used + reserved + need == old(used) + old(reserved) && pending == old(pending) - {key}
    {
      reserved := reserved - need;
      pending := pending - {key};
    }
  }

  /** Open a cache, or refuse a limit that cannot hold one block. */
  method OpenCache(limit: nat, files: seq<Entry>) returns (cache: DiskCache?)
    ensures cache == null <==> Opening(limit, files) == TooSmall
    ensures cache != null ==> fresh(cache) && Opening(limit, files) == Open(cache.State())
    ensures cache == null <==> limit < BLOCK + DIGEST
    ensures cache != null ==> cache.limit == limit && HoldsFiles(files, cache.State())
  {
    if limit < BLOCK + DIGEST {
      return null;
    }
    cache := new DiskCache(limit, files);
    OpeningHoldsFiles(limit, files);
  }
}
