/** Any number of threads in the block cache, one locked region or file operation at a time, in any
    order. Every reachable state keeps the accounts, and no thread waits unless a fill is under way. */
module CacheThreads {
  import opened DiskCaches

  /** Where a thread is in a call for a key: about to claim it, waiting, reading its file, about to
      remove a file that did not verify, or filling it. */
  datatype Thread = Idle
                  | Claiming(key: Key, need: nat)
                  | Waiting(key: Key, need: nat)
                  | Reading(key: Key, need: nat)
                  | Removing(key: Key, need: nat)
                  | Filling(key: Key, need: nat)

  /** The shared fields, the block files on disk by key, and the threads. */
  datatype System = System(cache: Cache, files: map<Key, nat>, threads: seq<Thread>)

  predicate IsKey(key: Key) {
    |key| == 64 && forall i :: 0 <= i < |key| ==> '0' <= key[i] <= '9' || 'a' <= key[i] <= 'f'
  }

  predicate ValidCall(key: Key, length: int) {
    0 < length <= BLOCK && IsKey(key)
  }

  /** A notified thread goes back to claiming. */
  function Woken(t: Thread): Thread {
    if t.Waiting? then Claiming(t.key, t.need) else t
  }

  function WakeAll(threads: seq<Thread>): (r: seq<Thread>)
    ensures |r| == |threads|
  {
    seq(|threads|, i requires 0 <= i < |threads| => Woken(threads[i]))
  }

  /** Files of evicted entries are removed inside the lock. */
  function Surviving(files: map<Key, nat>, before: seq<Entry>, after: seq<Entry>): map<Key, nat> {
    map k | k in files && (Has(before, k) ==> Has(after, k)) :: files[k]
  }

  function With(s: System, i: nat, cache: Cache, t: Thread): System
    requires i < |s.threads|
  {
    s.(cache := cache, files := Surviving(s.files, s.cache.entries, cache.entries), threads := s.threads[i := t])
  }

  // ------------------------------------------------------------------ steps

  ghost predicate Begins(s: System, i: nat, s': System)
    requires i < |s.threads|
  {
    s.threads[i].Idle? && exists key: Key, length: int ::
      ValidCall(key, length) && s' == s.(threads := s.threads[i := Claiming(key, length + DIGEST)])
  }

  ghost predicate Claims(s: System, i: nat, s': System)
    requires i < |s.threads|
  {
    s.threads[i].Claiming? && s' == AfterClaims(s, i)
  }

  function AfterClaims(s: System, i: nat): System
    requires i < |s.threads| && s.threads[i].Claiming?
  {
    var t := s.threads[i];
    var claimed := Claimed(s.cache, t.key, t.need);
    With(s, i, claimed.0, AfterClaim(t.key, t.need, claimed.1))
  }

  function AfterClaim(key: Key, need: nat, claim: Claim): Thread {
    match claim
    case Wait => Waiting(key, need)
    case Read => Reading(key, need)
    case Fill => Filling(key, need)
  }

  /** The file verified: the entry is touched, if it is still there. */
  ghost predicate Hits(s: System, i: nat, s': System)
    requires i < |s.threads|
  {
    s.threads[i].Reading? && s' == With(s, i, Touched(s.cache, s.threads[i].key), Idle)
  }

  /** It did not: the entry is forgotten under the lock, and the file is removed outside it. */
  ghost predicate Drops(s: System, i: nat, s': System)
    requires i < |s.threads|
  {
    var t := s.threads[i];
    t.Reading? && s' == s.(cache := Dropped(s.cache, t.key), threads := s.threads[i := Removing(t.key, t.need)])
  }

  ghost predicate Removes(s: System, i: nat, s': System)
    requires i < |s.threads|
  {
    var t := s.threads[i];
    t.Removing? && s' == s.(files := s.files - {t.key}, threads := s.threads[i := Claiming(t.key, t.need)])
  }

  ghost predicate Commits(s: System, i: nat, s': System)
    requires i < |s.threads|
  {
    var t := s.threads[i];
    && t.Filling?
    && s' == s.(cache := Committed(s.cache, t.key, t.need), files := s.files[t.key := t.need],
                threads := WakeAll(s.threads[i := Idle]))
  }

  ghost predicate Aborts(s: System, i: nat, s': System)
    requires i < |s.threads|
  {
    var t := s.threads[i];
    t.Filling? && s' == s.(cache := Aborted(s.cache, t.key, t.need), threads := WakeAll(s.threads[i := Idle]))
  }

  ghost predicate Steps(s: System, i: nat, s': System)
    requires i < |s.threads|
  {
    Begins(s, i, s') || Claims(s, i, s') || Hits(s, i, s') || Drops(s, i, s') || Removes(s, i, s') || Commits(s, i, s')
        || Aborts(s, i, s')
  }

  // ------------------------------------------------------------------ the invariant

  function Reserves(t: Thread): nat {
    if t.Filling? then t.need else 0
  }

  ghost function ReservedBy(threads: seq<Thread>): nat {
    if threads == [] then 0 else Reserves(threads[0]) + ReservedBy(threads[1..])
  }

  ghost predicate AnyFilling(threads: seq<Thread>) {
    exists i :: 0 <= i < |threads| && threads[i].Filling?
  }

  ghost predicate NeedsFit(threads: seq<Thread>) {
    forall i :: 0 <= i < |threads| && !threads[i].Idle? ==> DIGEST < threads[i].need <= BLOCK + DIGEST
  }

  ghost predicate FillsKey(threads: seq<Thread>, i: int, k: Key) {
    0 <= i < |threads| && threads[i].Filling? && threads[i].key == k
  }

  ghost predicate BeingFilled(threads: seq<Thread>, k: Key) {
    exists i :: FillsKey(threads, i, k)
  }

  ghost predicate OneFillEach(threads: seq<Thread>) {
    forall i, j, k :: FillsKey(threads, i, k) && FillsKey(threads, j, k) ==> i == j
  }

  /** Pending is exactly the keys being filled, each by one thread. */
  ghost predicate PendingIsFilling(pending: set<Key>, threads: seq<Thread>) {
    (forall k :: k in pending <==> BeingFilled(threads, k)) && OneFillEach(threads)
  }

  ghost predicate WaitsOnlyForFills(threads: seq<Thread>) {
    (exists i :: 0 <= i < |threads| && threads[i].Waiting?) ==> AnyFilling(threads)
  }

  ghost predicate Inv(s: System) {
    && Accounted(s.cache) && WithinLimit(s.cache)
    && s.cache.reserved == ReservedBy(s.threads)
    && NeedsFit(s.threads) && PendingIsFilling(s.cache.pending, s.threads) && WaitsOnlyForFills(s.threads)
  }

  // ------------------------------------------------------------------ sums over threads

  lemma {:induction false} ReservedUpdate(threads: seq<Thread>, i: nat, t: Thread)
    requires i < |threads|
    ensures ReservedBy(threads[i := t]) == ReservedBy(threads) - Reserves(threads[i]) + Reserves(t)
  {
    if i == 0 {
      assert threads[i := t][1..] == threads[1..];
    } else {
      assert threads[i := t][1..] == threads[1..][i - 1 := t];
      ReservedUpdate(threads[1..], i - 1, t);
    }
  }

  lemma {:induction false} ReservedWoken(threads: seq<Thread>)
    ensures ReservedBy(WakeAll(threads)) == ReservedBy(threads)
  {
    if threads != [] {
      assert WakeAll(threads)[1..] == WakeAll(threads[1..]);
      ReservedWoken(threads[1..]);
    }
  }

  lemma {:induction false} SomeFilling(threads: seq<Thread>)
    requires ReservedBy(threads) > 0
    ensures AnyFilling(threads)
  {
    if !threads[0].Filling? {
      SomeFilling(threads[1..]);
      var i :| 0 <= i < |threads[1..]| && threads[1..][i].Filling?;
      assert threads[i + 1].Filling?;
    }
  }

  // ------------------------------------------------------------------ every step keeps it

  lemma {:induction false} PendingQuiet(pending: set<Key>, threads: seq<Thread>, i: nat, t: Thread)
    requires PendingIsFilling(pending, threads) && i < |threads| && !threads[i].Filling? && !t.Filling?
    ensures PendingIsFilling(pending, threads[i := t])
  {
    forall k
      ensures k in pending <==> BeingFilled(threads[i := t], k)
    {
      FilledElsewhere(threads, i, t, k);
    }
    OneFiller(threads, i, t);
  }

  /** Another key's fill is none of thread i's business. */
  lemma {:induction false} FilledElsewhere(threads: seq<Thread>, i: nat, t: Thread, k: Key)
    requires i < |threads|
    requires (threads[i].Filling? ==> threads[i].key != k) && (t.Filling? ==> t.key != k)
    ensures BeingFilled(threads[i := t], k) <==> BeingFilled(threads, k)
  {
    var after := threads[i := t];
    if j :| FillsKey(threads, j, k) {
      assert FillsKey(after, j, k);
    }
    if j :| FillsKey(after, j, k) {
      assert FillsKey(threads, j, k);
    }
  }

  lemma {:induction false} OneFiller(threads: seq<Thread>, i: nat, t: Thread)
    requires i < |threads| && (t.Filling? ==> !BeingFilled(threads, t.key)) && OneFillEach(threads)
    ensures OneFillEach(threads[i := t])
  {
    var after := threads[i := t];
    forall j, l, k | FillsKey(after, j, k) && FillsKey(after, l, k)
      ensures j == l
    {
      assert j != i ==> FillsKey(threads, j, k);
      assert l != i ==> FillsKey(threads, l, k);
    }
  }

  lemma {:induction false} PendingFill(pending: set<Key>, threads: seq<Thread>, i: nat, key: Key, need: nat)
    requires PendingIsFilling(pending, threads) && i < |threads| && !threads[i].Filling? && key !in pending
    ensures PendingIsFilling(pending + {key}, threads[i := Filling(key, need)])
  {
    var after := threads[i := Filling(key, need)];
    assert FillsKey(after, i, key);
    forall k | k != key
      ensures k in pending <==> BeingFilled(after, k)
    {
      FilledElsewhere(threads, i, Filling(key, need), k);
    }
    OneFiller(threads, i, Filling(key, need));
  }

  lemma {:induction false} PendingEnd(pending: set<Key>, threads: seq<Thread>, i: nat)
    requires PendingIsFilling(pending, threads) && i < |threads| && threads[i].Filling?
    ensures PendingIsFilling(pending - {threads[i].key}, threads[i := Idle])
  {
    var after := threads[i := Idle];
    OneFiller(threads, i, Idle);
    NoLongerFilled(threads, i);
    forall k | k != threads[i].key
      ensures k in pending <==> BeingFilled(after, k)
    {
      FilledElsewhere(threads, i, Idle, k);
    }
  }

  lemma {:induction false} NoLongerFilled(threads: seq<Thread>, i: nat)
    requires i < |threads| && threads[i].Filling? && OneFillEach(threads)
    ensures !BeingFilled(threads[i := Idle], threads[i].key)
  {
    var after := threads[i := Idle];
    assert FillsKey(threads, i, threads[i].key);
    forall j
      ensures !FillsKey(after, j, threads[i].key)
    {
      assert j != i ==> !FillsKey(threads, j, threads[i].key);
    }
  }

  lemma {:induction false} PendingWoken(pending: set<Key>, threads: seq<Thread>)
    requires PendingIsFilling(pending, threads)
    ensures PendingIsFilling(pending, WakeAll(threads))
  {
    var woken := WakeAll(threads);
    forall k, j
      ensures FillsKey(woken, j, k) <==> FillsKey(threads, j, k)
    {
    }
    forall k
      ensures BeingFilled(woken, k) <==> BeingFilled(threads, k)
    {
      if j :| FillsKey(threads, j, k) {
        assert FillsKey(woken, j, k);
      }
    }
  }

  lemma {:induction false} QuietStep(s: System, i: nat, t: Thread, cache: Cache, s': System)
    requires Inv(s) && i < |s.threads| && !s.threads[i].Filling? && !t.Filling? && !t.Waiting?
    requires Accounted(cache) && WithinLimit(cache)
    requires cache.reserved == s.cache.reserved && cache.pending == s.cache.pending
    requires !t.Idle? ==> DIGEST < t.need <= BLOCK + DIGEST
    requires s'.cache == cache && s'.threads == s.threads[i := t]
    ensures Inv(s')
  {
    ReservedUpdate(s.threads, i, t);
    KeepsFilling(s.threads, i, t);
    PendingQuiet(cache.pending, s.threads, i, t);
  }

  lemma {:induction false} KeepsFilling(threads: seq<Thread>, i: nat, t: Thread)
    requires i < |threads| && !threads[i].Filling? && WaitsOnlyForFills(threads)
    ensures AnyFilling(threads) ==> AnyFilling(threads[i := t])
    ensures !t.Waiting? ==> WaitsOnlyForFills(threads[i := t])
  {
    if j :| 0 <= j < |threads| && threads[j].Filling? {
      assert threads[i := t][j].Filling?;
    }
    var after := threads[i := t];
    if k :| 0 <= k < |after| && after[k].Waiting? && !t.Waiting? {
      assert threads[k].Waiting?;
    }
  }

  lemma {:induction false} WaitStep(s: System, i: nat, s': System)
    requires Inv(s) && i < |s.threads| && s.threads[i].Claiming? && Claims(s, i, s')
    requires Claimed(s.cache, s.threads[i].key, s.threads[i].need).1 == Wait
    ensures Inv(s')
  {
    var t := s.threads[i];
    ClaimedAccounted(s.cache, t.key, t.need);
    ReservedUpdate(s.threads, i, Waiting(t.key, t.need));
    if t.key in s.cache.pending {
      var j :| FillsKey(s.threads, j, t.key);
    } else {
      SomeFilling(s.threads);
    }
    KeepsFilling(s.threads, i, Waiting(t.key, t.need));
    PendingQuiet(s.cache.pending, s.threads, i, Waiting(t.key, t.need));
  }

  lemma {:induction false} FillStep(s: System, i: nat, s': System)
    requires Inv(s) && i < |s.threads| && s.threads[i].Claiming? && Claims(s, i, s')
    requires Claimed(s.cache, s.threads[i].key, s.threads[i].need).1 == Fill
    ensures Inv(s')
  {
    var t := s.threads[i];
    ClaimedAccounted(s.cache, t.key, t.need);
    ReservedUpdate(s.threads, i, Filling(t.key, t.need));
    assert s'.threads[i].Filling?;
    PendingFill(s.cache.pending, s.threads, i, t.key, t.need);
  }

  /** The end of a fill, however it ends: its reservation goes and every waiter wakes. */
  lemma {:induction false} EndStep(s: System, i: nat, cache: Cache, s': System)
    requires Inv(s) && i < |s.threads| && s.threads[i].Filling?
    requires Accounted(cache) && WithinLimit(cache)
    requires cache.reserved == s.cache.reserved - s.threads[i].need
    requires cache.pending == s.cache.pending - {s.threads[i].key}
    requires s'.cache == cache && s'.threads == WakeAll(s.threads[i := Idle])
    ensures Inv(s')
  {
    ReservedUpdate(s.threads, i, Idle);
    ReservedWoken(s.threads[i := Idle]);
    PendingEnd(s.cache.pending, s.threads, i);
    PendingWoken(cache.pending, s.threads[i := Idle]);
  }

  lemma {:induction false} StepKeepsInv(s: System, i: nat, s': System)
    requires Inv(s) && i < |s.threads| && Steps(s, i, s')
    ensures Inv(s')
  {
    var t := s.threads[i];
    if Begins(s, i, s') {
      var key: Key, length: int :| ValidCall(key, length)
          && s' == s.(threads := s.threads[i := Claiming(key, length + DIGEST)]);
      QuietStep(s, i, Claiming(key, length + DIGEST), s.cache, s');
    } else if Claims(s, i, s') {
      ClaimedAccounted(s.cache, t.key, t.need);
      match Claimed(s.cache, t.key, t.need).1
      case Wait => WaitStep(s, i, s');
      case Read => QuietStep(s, i, Reading(t.key, t.need), Claimed(s.cache, t.key, t.need).0, s');
      case Fill => FillStep(s, i, s');
    } else if Hits(s, i, s') {
      TouchedAccounted(s.cache, t.key);
      QuietStep(s, i, Idle, Touched(s.cache, t.key), s');
    } else if Drops(s, i, s') {
      DroppedAccounted(s.cache, t.key);
      QuietStep(s, i, Removing(t.key, t.need), Dropped(s.cache, t.key), s');
    } else if Removes(s, i, s') {
      QuietStep(s, i, Claiming(t.key, t.need), s.cache, s');
    } else if Commits(s, i, s') {
      assert FillsKey(s.threads, i, t.key);
      CommittedAccounted(s.cache, t.key, t.need);
      EndStep(s, i, Committed(s.cache, t.key, t.need), s');
    } else {
      assert Aborts(s, i, s');
      EndStep(s, i, Aborted(s.cache, t.key, t.need), s');
    }
  }

  // ------------------------------------------------------------------ runs

  /** The cache is open, the files left are those of its entries, and no call has begun. */
  ghost predicate Starts(s: System, limit: nat, files: seq<Entry>) {
    && DistinctKeys(files) && Opening(limit, files) == Open(s.cache)
    && (forall i :: 0 <= i < |s.threads| ==> s.threads[i].Idle?)
    && (forall k :: k in s.files <==> Has(s.cache.entries, k))
    && SizesMatch(s.cache.entries, s.files)
  }

  /** A stored entry records the size of its file. */
  ghost predicate SizesMatch(entries: seq<Entry>, files: map<Key, nat>) {
    forall e :: e in entries && e.key in files ==> files[e.key] == e.size
  }

  ghost predicate IsRun(run: seq<System>, limit: nat, files: seq<Entry>) {
    run != [] && Starts(run[0], limit, files) && forall n: nat :: n < |run| - 1 ==> StepAt(run, n)
  }

  ghost predicate StepAt(run: seq<System>, n: nat) {
    n < |run| - 1 && Next(run[n], run[n + 1])
  }

  ghost predicate Next(s: System, s': System) {
    exists i: nat :: i < |s.threads| && Steps(s, i, s')
  }

  lemma {:induction false} NothingReserved(threads: seq<Thread>)
    requires forall i :: 0 <= i < |threads| ==> threads[i].Idle?
    ensures ReservedBy(threads) == 0
  {
    if threads != [] {
      NothingReserved(threads[1..]);
    }
  }

  lemma {:induction false} StepOf(run: seq<System>, limit: nat, files: seq<Entry>, n: nat) returns (i: nat)
    requires IsRun(run, limit, files) && n < |run| - 1
    ensures i < |run[n].threads| && Steps(run[n], i, run[n + 1])
  {
    assert StepAt(run, n);
    i :| i < |run[n].threads| && Steps(run[n], i, run[n + 1]);
  }

  /** Every state of every interleaving keeps the accounts: used is the sum of the entries, reserved the
      sum of the fills, no entry is pending, both together stay within the limit, and a thread waits only
      while some fill is under way, whose end wakes it. */
  lemma {:induction false} InvOnRuns(run: seq<System>, limit: nat, files: seq<Entry>, n: nat)
    requires IsRun(run, limit, files) && n < |run|
    ensures Inv(run[n])
  {
    if n == 0 {
      OpeningAccounted(limit, files);
      NothingReserved(run[0].threads);
    } else {
      InvOnRuns(run, limit, files, n - 1);
      var i := StepOf(run, limit, files, n - 1);
      StepKeepsInv(run[n - 1], i, run[n]);
    }
  }

  // ------------------------------------------------------------------ no wake-up is lost

  /** A waiting thread would wait again if it claimed now. */
  ghost predicate IsBlocked(c: Cache, t: Thread) {
    t.Waiting? ==> Decides(c, t.key, t.need, Wait)
  }

  ghost predicate WaitersBlocked(c: Cache, threads: seq<Thread>) {
    forall i :: 0 <= i < |threads| ==> IsBlocked(c, threads[i])
  }

  /** Nothing is given back and nothing is stored: what blocked a thread still does. */
  ghost predicate FreesNothing(c: Cache, d: Cache) {
    && c.limit == d.limit && c.reserved <= d.reserved && c.pending <= d.pending
    && forall k :: Has(d.entries, k) ==> Has(c.entries, k)
  }

  lemma {:induction false} StillBlocked(c: Cache, d: Cache, threads: seq<Thread>, i: nat, t: Thread)
    requires i < |threads| && WaitersBlocked(c, threads) && FreesNothing(c, d) && IsBlocked(d, t)
    ensures WaitersBlocked(d, threads[i := t])
  {
    var after := threads[i := t];
    forall j | 0 <= j < |after|
      ensures IsBlocked(d, after[j])
    {
      assert IsBlocked(c, threads[j]);
    }
  }

  lemma {:induction false} TouchedFreesNothing(c: Cache, key: Key)
    ensures FreesNothing(c, Touched(c, key)) && FreesNothing(c, Dropped(c, key))
  {
    var i := Find(c.entries, key);
    if i < |c.entries| {
      var rest := Without(c.entries, i);
      forall k | Has(rest, k) || Has(rest + [c.entries[i]], k)
        ensures Has(c.entries, k)
      {
        var more := rest + [c.entries[i]];
        assert Has(more, k) by {
          if l :| 0 <= l < |rest| && rest[l].key == k {
            assert more[l].key == k;
          }
        }
        var j :| 0 <= j < |more| && more[j].key == k;
        assert c.entries[if j < i then j else if j < |rest| then j + 1 else i].key == k;
      }
    }
  }

  lemma {:induction false} ClaimFreesNothing(c: Cache, key: Key, need: nat)
    requires Accounted(c) && c.reserved >= 0
    ensures FreesNothing(c, Claimed(c, key, need).0)
  {
    EvictedAccounted(c, need);
    TouchedFreesNothing(c, key);
  }

  lemma {:induction false} ClaimKeepsBlocked(s: System, i: nat, s': System)
    requires Inv(s) && WaitersBlocked(s.cache, s.threads) && i < |s.threads| && Claims(s, i, s')
    ensures WaitersBlocked(s'.cache, s'.threads)
  {
    var t := s.threads[i];
    var claimed := Claimed(s.cache, t.key, t.need);
    ClaimFreesNothing(s.cache, t.key, t.need);
    ClaimedWaits(s.cache, t.key, t.need);
    StillBlocked(s.cache, claimed.0, s.threads, i, AfterClaim(t.key, t.need, claimed.1));
  }

  lemma {:induction false} StepKeepsBlocked(s: System, i: nat, s': System)
    requires Inv(s) && WaitersBlocked(s.cache, s.threads) && i < |s.threads| && Steps(s, i, s')
    ensures WaitersBlocked(s'.cache, s'.threads)
  {
    var t := s.threads[i];
    if Claims(s, i, s') {
      ClaimKeepsBlocked(s, i, s');
    } else if Commits(s, i, s') || Aborts(s, i, s') {
      assert forall j :: 0 <= j < |s'.threads| ==> !s'.threads[j].Waiting?;
    } else {
      if !t.Idle? {
        TouchedFreesNothing(s.cache, t.key);
      }
      StillBlocked(s.cache, s'.cache, s.threads, i, s'.threads[i]);
    }
  }

  /** In every state of every interleaving a thread waits only for a fill of its key, or for room that what is
      reserved leaves none of: no wake-up is lost. */
  lemma {:induction false} NoLostWakeup(run: seq<System>, limit: nat, files: seq<Entry>, n: nat, i: nat)
    requires IsRun(run, limit, files) && n < |run| && i < |run[n].threads| && run[n].threads[i].Waiting?
    ensures var c, t := run[n].cache, run[n].threads[i];
            t.key in c.pending || (!Has(c.entries, t.key) && c.reserved + t.need > c.limit)
  {
    BlockedOnRuns(run, limit, files, n);
    assert IsBlocked(run[n].cache, run[n].threads[i]);
  }

  lemma {:induction false} BlockedOnRuns(run: seq<System>, limit: nat, files: seq<Entry>, n: nat)
    requires IsRun(run, limit, files) && n < |run|
    ensures WaitersBlocked(run[n].cache, run[n].threads)
  {
    if n > 0 {
      BlockedOnRuns(run, limit, files, n - 1);
      InvOnRuns(run, limit, files, n - 1);
      var i := StepOf(run, limit, files, n - 1);
      StepKeepsBlocked(run[n - 1], i, run[n]);
    }
  }

  /** No deadlock: while some call is under way, a thread other than the waiting ones can step. */
  lemma {:induction false} SomeThreadCanStep(run: seq<System>, limit: nat, files: seq<Entry>, n: nat, i: nat)
    requires IsRun(run, limit, files) && n < |run| && i < |run[n].threads| && !run[n].threads[i].Idle?
    ensures exists j: nat, s': System ::
              j < |run[n].threads| && !run[n].threads[j].Waiting? && !run[n].threads[j].Idle?
              && Steps(run[n], j, s')
  {
    InvOnRuns(run, limit, files, n);
    var s := run[n];
    if s.threads[i].Waiting? {
      assert AnyFilling(s.threads);
      var j :| 0 <= j < |s.threads| && s.threads[j].Filling?;
      ThreadCanStep(s, j);
    } else {
      ThreadCanStep(s, i);
    }
  }

  lemma {:induction false} ThreadCanStep(s: System, i: nat)
    requires i < |s.threads| && !s.threads[i].Waiting? && !s.threads[i].Idle?
    ensures exists s': System :: Steps(s, i, s')
  {
    var t := s.threads[i];
    match t
    case Claiming(key, need) =>
      assert Claims(s, i, AfterClaims(s, i)) && Steps(s, i, AfterClaims(s, i));
    case Reading(key, need) =>
      var s' := With(s, i, Touched(s.cache, key), Idle);
      assert Hits(s, i, s') && Steps(s, i, s');
    case Removing(key, need) =>
      var s' := s.(files := s.files - {key}, threads := s.threads[i := Claiming(key, need)]);
      assert Removes(s, i, s') && Steps(s, i, s');
    case Filling(key, need) =>
      var s' := s.(cache := Aborted(s.cache, key, need), threads := WakeAll(s.threads[i := Idle]));
      assert Aborts(s, i, s') && Steps(s, i, s');
  }
}
