/** The block files beside the cache: who accounts for each file, whether each entry still has its file,
    and how many bytes are on disk. A bad block is forgotten under the lock but its file is removed
    outside it, so these laws have a gap, and the gap is delimited exactly. */
module CacheFiles {
  import opened DiskCaches
  import opened CacheThreads

  // ------------------------------------------------------------------ every file is accounted for

  /** Thread i is about to remove the file of key k. */
  ghost predicate RemovesKey(threads: seq<Thread>, i: int, k: Key) {
    0 <= i < |threads| && threads[i].Removing? && threads[i].key == k
  }

  ghost predicate AboutToGo(threads: seq<Thread>, k: Key) {
    exists i :: RemovesKey(threads, i, k)
  }

  /** Every block file belongs to an entry or is about to be removed. */
  ghost predicate FilesAccounted(s: System) {
    forall k :: k in s.files ==> Has(s.cache.entries, k) || AboutToGo(s.threads, k)
  }

  lemma {:induction false} StillGoing(threads: seq<Thread>, i: nat, t: Thread, k: Key)
    requires i < |threads| && AboutToGo(threads, k)
    ensures AboutToGo(threads[i := t], k) || RemovesKey(threads, i, k)
    ensures AboutToGo(WakeAll(threads), k)
  {
    var j :| RemovesKey(threads, j, k);
    assert RemovesKey(WakeAll(threads), j, k);
    if j != i {
      assert RemovesKey(threads[i := t], j, k);
    }
  }

  lemma {:induction false} HasKept(entries: seq<Entry>, i: nat, k: Key)
    requires i < |entries| && Has(entries, k)
    ensures Has(Without(entries, i), k) || entries[i].key == k
    ensures Has(Without(entries, i) + [entries[i]], k)
  {
    var j :| 0 <= j < |entries| && entries[j].key == k;
    var r := Without(entries, i);
    if j != i {
      assert r[if j < i then j else j - 1].key == k;
      assert (r + [entries[i]])[if j < i then j else j - 1].key == k;
    } else {
      assert (r + [entries[i]])[|r|].key == k;
    }
  }

  lemma {:induction false} TouchedHas(c: Cache, key: Key, k: Key)
    requires Has(c.entries, k)
    ensures Has(Touched(c, key).entries, k)
  {
    if Find(c.entries, key) < |c.entries| {
      HasKept(c.entries, Find(c.entries, key), k);
    }
  }

  lemma {:induction false} StoredHas(entries: seq<Entry>, key: Key, size: nat, k: Key)
    requires Has(entries, k) || k == key
    ensures Has(Stored(entries, key, size), k)
  {
    var r := Stored(entries, key, size);
    var i := Find(entries, key);
    if k == key {
      assert r[i].key == k;
    } else {
      var j :| 0 <= j < |entries| && entries[j].key == k;
      assert r[j].key == k;
    }
  }

  /** Disk space: a step leaves no file behind that nobody accounts for. */
  lemma {:induction false} StepKeepsFiles(s: System, i: nat, s': System)
    requires FilesAccounted(s) && i < |s.threads| && Steps(s, i, s')
    ensures FilesAccounted(s')
  {
    forall k | k in s'.files
      ensures Has(s'.cache.entries, k) || AboutToGo(s'.threads, k)
    {
      FileStep(s, i, s', k);
    }
  }

  lemma {:induction false} FileStep(s: System, i: nat, s': System, k: Key)
    requires FilesAccounted(s) && i < |s.threads| && Steps(s, i, s') && k in s'.files
    ensures Has(s'.cache.entries, k) || AboutToGo(s'.threads, k)
  {
    var t := s.threads[i];
    if Commits(s, i, s') {
      if k == t.key || Has(s.cache.entries, k) {
        StoredHas(s.cache.entries, t.key, t.need, k);
      } else {
        StillGoing(s.threads, i, Idle, k);
        StillGoing(s.threads[i := Idle], i, Idle, k);
      }
    } else if Aborts(s, i, s') {
      if !Has(s.cache.entries, k) {
        StillGoing(s.threads, i, Idle, k);
        StillGoing(s.threads[i := Idle], i, Idle, k);
      }
    } else if Drops(s, i, s') {
      DropFile(s, i, s', k);
    } else if !Has(s.cache.entries, k) {
      StillGoing(s.threads, i, s'.threads[i], k);
    } else if Hits(s, i, s') {
      TouchedHas(s.cache, t.key, k);
    }
  }

  lemma {:induction false} DropFile(s: System, i: nat, s': System, k: Key)
    requires FilesAccounted(s) && i < |s.threads| && Drops(s, i, s') && k in s.files
    ensures Has(s'.cache.entries, k) || AboutToGo(s'.threads, k)
  {
    var t := s.threads[i];
    if k == t.key {
      assert RemovesKey(s'.threads, i, k);
    } else if Has(s.cache.entries, k) {
      if Find(s.cache.entries, t.key) < |s.cache.entries| {
        HasKept(s.cache.entries, Find(s.cache.entries, t.key), k);
      }
    } else {
      StillGoing(s.threads, i, s'.threads[i], k);
    }
  }

  lemma {:induction false} FilesOnRuns(run: seq<System>, limit: nat, files: seq<Entry>, n: nat)
    requires IsRun(run, limit, files) && n < |run|
    ensures FilesAccounted(run[n])
  {
    if n > 0 {
      FilesOnRuns(run, limit, files, n - 1);
      var i := StepOf(run, limit, files, n - 1);
      StepKeepsFiles(run[n - 1], i, run[n]);
    }
  }

  // ------------------------------------------------------------------ every entry has its file

  ghost predicate EntriesHaveFiles(s: System) {
    forall k :: Has(s.cache.entries, k) ==> k in s.files
  }

  /** A step removes the file of a key that an entry stores. */
  ghost predicate RemovesStored(s: System, s': System) {
    exists i: nat :: i < |s.threads| && Removes(s, i, s') && Has(s.cache.entries, s.threads[i].key)
  }

  /** No entry is invented. */
  ghost predicate From(after: seq<Entry>, before: seq<Entry>) {
    forall e :: e in after ==> e in before
  }

  lemma {:induction false} FromHas(after: seq<Entry>, before: seq<Entry>, k: Key)
    requires From(after, before) && Has(after, k)
    ensures Has(before, k)
  {
    var i :| 0 <= i < |after| && after[i].key == k;
    assert after[i] in before;
  }

  lemma {:induction false} EvictedFrom(c: Cache, need: nat)
    ensures From(Evicted(c, need).entries, c.entries)
    decreases |c.entries|
  {
    if c.entries != [] && c.used + c.reserved + need > c.limit {
      EvictedFrom(c.(entries := c.entries[1..], used := c.used - c.entries[0].size), need);
    }
  }

  lemma {:induction false} ClaimedFrom(c: Cache, key: Key, need: nat)
    ensures From(Claimed(c, key, need).0.entries, c.entries)
  {
    EvictedFrom(c, need);
  }

  /** In place or at the end, storing changes one entry. */
  lemma {:induction false} StoredFrom(entries: seq<Entry>, key: Key, size: nat, e: Entry)
    requires DistinctKeys(entries) && e in Stored(entries, key, size)
    ensures e == Entry(key, size) || (e in entries && e.key != key)
  {
    var i := Find(entries, key);
    var r := Stored(entries, key, size);
    var j :| 0 <= j < |r| && r[j] == e;
    if j != i {
      assert entries[j] == e;
      assert i == |entries| ==> Has(entries, entries[j].key);
    }
  }

  /** The entries of a step come from those before, except for a stored fill. */
  lemma {:induction false} StepFrom(s: System, i: nat, s': System)
    requires i < |s.threads| && Steps(s, i, s') && !Commits(s, i, s')
    ensures From(s'.cache.entries, s.cache.entries)
  {
    if Claims(s, i, s') {
      ClaimedFrom(s.cache, s.threads[i].key, s.threads[i].need);
    }
  }

  /** One step loses the file of an entry exactly when it removes the file of a stored key. */
  lemma {:induction false} StepKeepsEntryFiles(s: System, i: nat, s': System)
    requires Inv(s) && EntriesHaveFiles(s) && i < |s.threads| && Steps(s, i, s')
    ensures EntriesHaveFiles(s') <==> !RemovesStored(s, s')
  {
    if RemovesStored(s, s') {
      var j: nat :| j < |s.threads| && Removes(s, j, s') && Has(s.cache.entries, s.threads[j].key);
      assert Has(s'.cache.entries, s.threads[j].key);
    } else {
      forall k | Has(s'.cache.entries, k)
        ensures k in s'.files
      {
        EntryFileStep(s, i, s', k);
      }
    }
  }

  lemma {:induction false} EntryFileStep(s: System, i: nat, s': System, k: Key)
    requires Inv(s) && EntriesHaveFiles(s) && i < |s.threads| && Steps(s, i, s') && !RemovesStored(s, s')
    requires Has(s'.cache.entries, k)
    ensures k in s'.files
  {
    if Commits(s, i, s') {
      var j :| 0 <= j < |s'.cache.entries| && s'.cache.entries[j].key == k;
      StoredFrom(s.cache.entries, s.threads[i].key, s.threads[i].need, s'.cache.entries[j]);
      assert k != s.threads[i].key ==> Has(s.cache.entries, k);
    } else {
      StepFrom(s, i, s');
      FromHas(s'.cache.entries, s.cache.entries, k);
    }
  }

  ghost predicate HaveFilesAt(run: seq<System>, n: nat) {
    n < |run| && EntriesHaveFiles(run[n])
  }

  ghost predicate RemovesStoredAt(run: seq<System>, n: nat) {
    n < |run| - 1 && RemovesStored(run[n], run[n + 1])
  }

  /** Every entry has its file in every state of a run exactly when no step of it removes the file of a
      key that is stored at that moment. */
  lemma {:induction false} EntriesKeepFiles(run: seq<System>, limit: nat, files: seq<Entry>)
    requires IsRun(run, limit, files)
    ensures (forall n: nat :: n < |run| ==> HaveFilesAt(run, n)) <==> (forall n: nat :: !RemovesStoredAt(run, n))
  {
    if forall n: nat :: n < |run| ==> HaveFilesAt(run, n) {
      forall n: nat
        ensures !RemovesStoredAt(run, n)
      {
        if n < |run| - 1 {
          assert HaveFilesAt(run, n) && HaveFilesAt(run, n + 1);
          StepAtLoses(run, limit, files, n);
        }
      }
    }
    if forall n: nat :: !RemovesStoredAt(run, n) {
      forall n: nat | n < |run|
        ensures HaveFilesAt(run, n)
      {
        FilesUntil(run, limit, files, n);
      }
    }
  }

  lemma {:induction false} StepAtLoses(run: seq<System>, limit: nat, files: seq<Entry>, n: nat)
    requires IsRun(run, limit, files) && n < |run| - 1 && HaveFilesAt(run, n)
    ensures HaveFilesAt(run, n + 1) <==> !RemovesStoredAt(run, n)
  {
    InvOnRuns(run, limit, files, n);
    var i := StepOf(run, limit, files, n);
    StepKeepsEntryFiles(run[n], i, run[n + 1]);
  }

  lemma {:induction false} FilesUntil(run: seq<System>, limit: nat, files: seq<Entry>, n: nat)
    requires IsRun(run, limit, files) && n < |run| && forall m: nat :: m < n ==> !RemovesStoredAt(run, m)
    ensures HaveFilesAt(run, n)
  {
    if n > 0 {
      FilesUntil(run, limit, files, n - 1);
      StepAtLoses(run, limit, files, n - 1);
    }
  }

  /** A read fails verification at step n. */
  ghost predicate ReadFailsAt(run: seq<System>, n: nat) {
    n < |run| - 1 && ReadFails(run[n], run[n + 1])
  }

  ghost predicate ReadFails(s: System, s': System) {
    exists i: nat :: i < |s.threads| && Drops(s, i, s')
  }

  ghost predicate NoneRemoving(threads: seq<Thread>) {
    forall i :: 0 <= i < |threads| ==> !threads[i].Removing?
  }

  lemma {:induction false} NoneRemovingUntil(run: seq<System>, limit: nat, files: seq<Entry>, n: nat)
    requires IsRun(run, limit, files) && n < |run| && forall m: nat :: m < n ==> !ReadFailsAt(run, m)
    ensures NoneRemoving(run[n].threads)
  {
    if n > 0 {
      NoneRemovingUntil(run, limit, files, n - 1);
      var i := StepOf(run, limit, files, n - 1);
      assert !ReadFailsAt(run, n - 1);
      StepRemovesNone(run[n - 1], i, run[n]);
    }
  }

  lemma {:induction false} StepRemovesNone(s: System, i: nat, s': System)
    requires i < |s.threads| && Steps(s, i, s') && !Drops(s, i, s') && NoneRemoving(s.threads)
    ensures NoneRemoving(s'.threads)
  {
  }

  /** What a caller can see: while every file read verifies, every entry keeps its file. */
  lemma {:induction false} VerifiedReadsKeepFiles(run: seq<System>, limit: nat, files: seq<Entry>, n: nat)
    requires IsRun(run, limit, files) && n < |run| && forall m: nat :: m < n ==> !ReadFailsAt(run, m)
    ensures EntriesHaveFiles(run[n])
  {
    forall m: nat | m < n
      ensures !RemovesStoredAt(run, m)
    {
      NoneRemovingUntil(run, limit, files, m);
    }
    FilesUntil(run, limit, files, n);
  }

  /** The key a thread is about to remove is not stored. */
  ghost predicate RemovesUnstored(s: System) {
    forall i :: 0 <= i < |s.threads| && s.threads[i].Removing? ==> !Has(s.cache.entries, s.threads[i].key)
  }

  /** One thread alone keeps the file of every entry, whatever its reads return. */
  lemma {:induction false} OneThreadKeepsFiles(run: seq<System>, limit: nat, files: seq<Entry>, n: nat)
    requires IsRun(run, limit, files) && n < |run| && |run[0].threads| == 1
    ensures EntriesHaveFiles(run[n]) && RemovesUnstored(run[n]) && |run[n].threads| == 1
  {
    if n > 0 {
      OneThreadKeepsFiles(run, limit, files, n - 1);
      InvOnRuns(run, limit, files, n - 1);
      var i := StepOf(run, limit, files, n - 1);
      OneThreadStep(run[n - 1], i, run[n]);
    }
  }

  lemma {:induction false} OneThreadStep(s: System, i: nat, s': System)
    requires Inv(s) && EntriesHaveFiles(s) && RemovesUnstored(s) && i < |s.threads| == 1 && Steps(s, i, s')
    ensures EntriesHaveFiles(s') && RemovesUnstored(s') && |s'.threads| == 1
  {
    assert !RemovesStored(s, s');
    StepKeepsEntryFiles(s, i, s');
    if Drops(s, i, s') {
      DroppedAccounted(s.cache, s.threads[i].key);
    }
  }

  // ------------------------------------------------------------------ bytes on disk

  /** Bytes of the files of a list of keys. */
  ghost function Bytes(files: map<Key, nat>, keys: seq<Key>): nat
    requires forall k :: k in keys ==> k in files
  {
    if keys == [] then 0 else files[keys[0]] + Bytes(files, keys[1..])
  }

  ghost predicate Listed(files: map<Key, nat>, keys: seq<Key>) {
    && (forall k :: k in keys ==> k in files)
    && forall i, j :: 0 <= i < j < |keys| ==> keys[i] != keys[j]
  }

  /** Those of the keys that some entry stores, or those that none does. */
  ghost function Picked(entries: seq<Entry>, keys: seq<Key>, stored: bool): (r: seq<Key>)
    ensures forall k :: k in r <==> k in keys && Has(entries, k) == stored
  {
    if keys == [] then []
    else (if Has(entries, keys[0]) == stored then [keys[0]] else []) + Picked(entries, keys[1..], stored)
  }

  lemma {:induction false} PickedSplit(files: map<Key, nat>, entries: seq<Entry>, keys: seq<Key>)
    requires Listed(files, keys)
    ensures Listed(files, Picked(entries, keys, true)) && Listed(files, Picked(entries, keys, false))
    ensures Bytes(files, keys)
         == Bytes(files, Picked(entries, keys, true)) + Bytes(files, Picked(entries, keys, false))
  {
    if keys != [] {
      PickedSplit(files, entries, keys[1..]);
      PickedFirst(files, entries, keys, true);
      PickedFirst(files, entries, keys, false);
    }
  }

  lemma {:induction false} PickedFirst(files: map<Key, nat>, entries: seq<Entry>, keys: seq<Key>, stored: bool)
    requires keys != [] && Listed(files, keys) && Listed(files, Picked(entries, keys[1..], stored))
    ensures Listed(files, Picked(entries, keys, stored))
    ensures Bytes(files, Picked(entries, keys, stored))
         == Bytes(files, Picked(entries, keys[1..], stored)) + if Has(entries, keys[0]) == stored
             then files[keys[0]] else 0
  {
    var rest := Picked(entries, keys[1..], stored);
    if Has(entries, keys[0]) == stored {
      assert keys[0] !in keys[1..];
      ListedFirst(files, keys[0], rest);
    } else {
      assert [] + rest == rest;
    }
  }

  lemma {:induction false} ListedFirst(files: map<Key, nat>, key: Key, rest: seq<Key>)
    requires key in files && Listed(files, rest) && key !in rest
    ensures Listed(files, [key] + rest) && Bytes(files, [key] + rest) == files[key] + Bytes(files, rest)
  {
    var all := [key] + rest;
    assert all[1..] == rest;
    forall i, j | 0 <= i < j < |all|
      ensures all[i] != all[j]
    {
      assert all[j] == rest[j - 1] && rest[j - 1] in rest;
      if i > 0 {
        assert all[i] == rest[i - 1];
      }
    }
  }

  /** Stored files are bytes in use, and all of it when every entry is listed. */
  lemma {:induction false} StoredBytes(entries: seq<Entry>, files: map<Key, nat>, keys: seq<Key>)
    requires Listed(files, keys) && DistinctKeys(entries) && SizesMatch(entries, files)
    requires forall k :: k in keys ==> Has(entries, k)
    ensures Bytes(files, keys) <= SumOf(entries)
    ensures (forall k :: Has(entries, k) ==> k in keys) ==> Bytes(files, keys) == SumOf(entries)
  {
    if keys == [] {
      if (forall k :: Has(entries, k) ==> k in keys) && entries != [] {
        assert Has(entries, entries[0].key);
      }
    } else {
      var i := Find(entries, keys[0]);
      var r := Without(entries, i);
      SumWithout(entries, i);
      assert entries[i] in entries;
      assert forall j :: 0 <= j < |r| ==> r[j] == entries[if j < i then j else j + 1];
      forall k
        ensures Has(r, k) <==> Has(entries, k) && k != keys[0]
      {
        WithoutHas(entries, i, k);
      }
      assert forall j :: 0 <= j < |keys[1..]| ==> keys[1..][j] == keys[j + 1] != keys[0];
      StoredBytes(r, files, keys[1..]);
    }
  }

  lemma {:induction false} WithoutHas(entries: seq<Entry>, i: nat, k: Key)
    requires i < |entries| && DistinctKeys(entries)
    ensures Has(Without(entries, i), k) <==> Has(entries, k) && k != entries[i].key
  {
    var r := Without(entries, i);
    assert forall j :: 0 <= j < |r| ==> r[j] == entries[if j < i then j else j + 1];
    if Has(entries, k) && k != entries[i].key {
      HasKept(entries, i, k);
    }
  }

  lemma {:induction false} StepKeepsSizes(s: System, i: nat, s': System)
    requires Inv(s) && SizesMatch(s.cache.entries, s.files) && i < |s.threads| && Steps(s, i, s')
    ensures SizesMatch(s'.cache.entries, s'.files)
  {
    forall e | e in s'.cache.entries && e.key in s'.files
      ensures s'.files[e.key] == e.size
    {
      if Commits(s, i, s') {
        StoredFrom(s.cache.entries, s.threads[i].key, s.threads[i].need, e);
      } else {
        StepFrom(s, i, s');
      }
    }
  }

  lemma {:induction false} SizesOnRuns(run: seq<System>, limit: nat, files: seq<Entry>, n: nat)
    requires IsRun(run, limit, files) && n < |run|
    ensures SizesMatch(run[n].cache.entries, run[n].files) && run[n].cache.limit == limit
  {
    if n == 0 {
      OpeningAccounted(limit, files);
    } else {
      SizesOnRuns(run, limit, files, n - 1);
      InvOnRuns(run, limit, files, n - 1);
      var i := StepOf(run, limit, files, n - 1);
      StepKeepsSizes(run[n - 1], i, run[n]);
    }
  }

  /** Files on disk and reserved bytes exceed the limit by no more than the files that no entry stores,
      each of which some thread is about to remove. */
  lemma {:induction false} BytesOnRuns(run: seq<System>, limit: nat, files: seq<Entry>, n: nat, keys: seq<Key>)
    requires IsRun(run, limit, files) && n < |run| && Listed(run[n].files, keys)
    ensures var s := run[n];
            var doomed := Picked(s.cache.entries, keys, false);
            && (forall k :: k in doomed ==> AboutToGo(s.threads, k))
            && Bytes(s.files, keys) <= s.cache.used + Bytes(s.files, doomed)
            && Bytes(s.files, keys) + s.cache.reserved <= limit + Bytes(s.files, doomed)
            && (EntriesHaveFiles(s) && (forall k :: k in s.files ==> k in keys)
                ==> Bytes(s.files, keys) == s.cache.used + Bytes(s.files, doomed))
  {
    var s := run[n];
    InvOnRuns(run, limit, files, n);
    FilesOnRuns(run, limit, files, n);
    SizesOnRuns(run, limit, files, n);
    PickedSplit(s.files, s.cache.entries, keys);
    StoredBytes(s.cache.entries, s.files, Picked(s.cache.entries, keys, true));
  }

  /** While every file read verifies, files and reserved bytes stay within the limit. */
  lemma {:induction false} VerifiedReadsBoundBytes(run: seq<System>, limit: nat, files: seq<Entry>, n: nat,
                                                   keys: seq<Key>)
    requires IsRun(run, limit, files) && n < |run| && Listed(run[n].files, keys)
    requires forall m: nat :: m < n ==> !ReadFailsAt(run, m)
    ensures Bytes(run[n].files, keys) + run[n].cache.reserved <= limit
  {
    BytesOnRuns(run, limit, files, n, keys);
    NoneRemovingUntil(run, limit, files, n);
    var doomed := Picked(run[n].cache.entries, keys, false);
    if doomed != [] {
      SomeRemoving(run[n].threads, doomed);
    }
  }

  lemma {:induction false} SomeRemoving(threads: seq<Thread>, keys: seq<Key>)
    requires keys != [] && forall k :: k in keys ==> AboutToGo(threads, k)
    ensures !NoneRemoving(threads)
  {
    assert keys[0] in keys;
    var i :| RemovesKey(threads, i, keys[0]);
  }

  // ------------------------------------------------------------------ one thread

  /** Files and reserved bytes together are within the limit. */
  ghost predicate WithinBytes(s: System, limit: nat) {
    forall keys :: Listed(s.files, keys) ==> Bytes(s.files, keys) + s.cache.reserved <= limit
  }

  /** A lone thread reads only what is stored, and the file it is about to remove still fits beside the
      bytes in use. */
  ghost predicate LoneFits(s: System)
    requires |s.threads| == 1
  {
    var t := s.threads[0];
    && (t.Reading? ==> Has(s.cache.entries, t.key))
    && (t.Removing? && t.key in s.files ==> s.cache.used + s.files[t.key] <= s.cache.limit)
  }

  lemma {:induction false} ForgottenFits(c: Cache, files: map<Key, nat>, key: Key)
    requires Accounted(c) && c.used <= c.limit && SizesMatch(c.entries, files) && Has(c.entries, key) && key in files
    ensures Dropped(c, key).used + files[key] <= c.limit
  {
    var i := Find(c.entries, key);
    assert c.entries[i] in c.entries;
  }

  lemma {:induction false} LoneStep(s: System, i: nat, s': System)
    requires Inv(s) && SizesMatch(s.cache.entries, s.files) && i < |s.threads| == 1 && LoneFits(s) && Steps(s, i, s')
    ensures |s'.threads| == 1 && LoneFits(s')
  {
    var t := s.threads[0];
    if Claims(s, i, s') {
      if s'.threads[0].Reading? {
        TouchedHas(s.cache, t.key, t.key);
      }
    } else if Drops(s, i, s') {
      if t.key in s.files {
        ForgottenFits(s.cache, s.files, t.key);
      }
    }
  }

  lemma {:induction false} LoneOnRuns(run: seq<System>, limit: nat, files: seq<Entry>, n: nat)
    requires IsRun(run, limit, files) && n < |run| && |run[0].threads| == 1
    ensures |run[n].threads| == 1 && LoneFits(run[n])
  {
    if n > 0 {
      LoneOnRuns(run, limit, files, n - 1);
      InvOnRuns(run, limit, files, n - 1);
      SizesOnRuns(run, limit, files, n - 1);
      var i := StepOf(run, limit, files, n - 1);
      LoneStep(run[n - 1], i, run[n]);
    }
  }

  lemma {:induction false} BytesOfOne(files: map<Key, nat>, keys: seq<Key>, key: Key)
    requires Listed(files, keys) && forall k :: k in keys ==> k == key
    ensures keys == [] || (key in files && Bytes(files, keys) == files[key])
  {
    if |keys| > 1 {
      OtherKey(files, keys, key);
    } else if |keys| == 1 {
      assert keys[0] in keys && keys[1..] == [];
    }
  }

  lemma {:induction false} OtherKey(files: map<Key, nat>, keys: seq<Key>, key: Key)
    requires Listed(files, keys) && |keys| > 1
    ensures exists k :: k in keys && k != key
  {
    assert keys[0] in keys && keys[1] in keys && keys[0] != keys[1];
  }

  /** One thread alone keeps files and reserved bytes within the limit, whatever its reads return. */
  lemma {:induction false} OneThreadBoundsBytes(run: seq<System>, limit: nat, files: seq<Entry>, n: nat, keys: seq<Key>)
    requires IsRun(run, limit, files) && n < |run| && |run[0].threads| == 1 && Listed(run[n].files, keys)
    ensures Bytes(run[n].files, keys) + run[n].cache.reserved <= limit
  {
    var s := run[n];
    InvOnRuns(run, limit, files, n);
    SizesOnRuns(run, limit, files, n);
    LoneOnRuns(run, limit, files, n);
    BytesOnRuns(run, limit, files, n, keys);
    PickedSplit(s.files, s.cache.entries, keys);
    var doomed := Picked(s.cache.entries, keys, false);
    if doomed != [] {
      DoomedIsLone(s.threads, doomed);
      BytesOfOne(s.files, doomed, s.threads[0].key);
      LoneReserves(s.threads);
    }
  }

  lemma {:induction false} LoneReserves(threads: seq<Thread>)
    requires |threads| == 1
    ensures ReservedBy(threads) == Reserves(threads[0])
  {
    assert threads[1..] == [];
  }

  lemma {:induction false} DoomedIsLone(threads: seq<Thread>, keys: seq<Key>)
    requires |threads| == 1 && keys != [] && forall k :: k in keys ==> AboutToGo(threads, k)
    ensures threads[0].Removing? && forall k :: k in keys ==> k == threads[0].key
  {
    assert keys[0] in keys;
  }

  // ------------------------------------------------------------------ an entry can outlive its file

  lemma {:induction false} OneEntry(key: Key, size: nat)
    ensures Find([Entry(key, size)], key) == 0 && Has([Entry(key, size)], key) && SumOf([Entry(key, size)]) == size
    ensures Without([Entry(key, size)], 0) == [] && Find([], key) == 0 && !Has([], key)
  {
    assert [Entry(key, size)][1..] == [];
    assert [Entry(key, size)][0].key == key;
  }

  lemma {:induction false} BeginStep(s: System, i: nat, key: Key, length: nat)
    requires i < |s.threads| && s.threads[i].Idle? && ValidCall(key, length)
    ensures Next(s, s.(threads := s.threads[i := Claiming(key, length + DIGEST)]))
  {
    var s' := s.(threads := s.threads[i := Claiming(key, length + DIGEST)]);
    assert Begins(s, i, s') && Steps(s, i, s');
  }

  ghost function FullCache(key: Key, need: nat): Cache {
    Cache(BLOCK + DIGEST, [Entry(key, need)], need, 0, {})
  }

  ghost function EmptyCache(): Cache {
    Cache(BLOCK + DIGEST, [], 0, 0, {})
  }

  /** The first thread reads a stored block, finds it bad, and forgets the entry. */
  lemma {:induction false} ForgetsEntry(key: Key, need: nat, s0: System, s3: System) returns (s1: System, s2: System)
    requires IsKey(key) && DIGEST < need <= BLOCK + DIGEST
    requires s0 == System(FullCache(key, need), map[key := need], [Idle, Idle])
    requires s3 == System(EmptyCache(), map[key := need], [Removing(key, need), Idle])
    ensures Next(s0, s1) && Next(s1, s2) && Next(s2, s3)
  {
    s1 := s0.(threads := [Claiming(key, need), Idle]);
    s2 := s0.(threads := [Reading(key, need), Idle]);
    assert s0.threads[0 := Claiming(key, need)] == s1.threads;
    BeginStep(s0, 0, key, need - DIGEST);
    ClaimToRead(s1, s2, key, need);
    DropStep(s2, s3, key, need);
  }

  /** The second thread fills the block anew. */
  lemma {:induction false} FillsAnew(key: Key, need: nat, s3: System) returns (s4: System, s5: System)
    requires IsKey(key) && DIGEST < need <= BLOCK + DIGEST
    requires s3 == System(EmptyCache(), map[key := need], [Removing(key, need), Idle])
    ensures Next(s3, s4) && Next(s4, s5) && s5.files == s3.files
    ensures s5.cache == EmptyCache().(reserved := need, pending := {key})
    ensures s5.threads == [Removing(key, need), Filling(key, need)]
  {
    s4 := s3.(threads := [Removing(key, need), Claiming(key, need)]);
    s5 := s3.(cache := s3.cache.(reserved := need, pending := {key}),
              threads := [Removing(key, need), Filling(key, need)]);
    assert s3.threads[1 := Claiming(key, need)] == s4.threads;
    BeginStep(s3, 1, key, need - DIGEST);
    ClaimToFill(s4, s5, key, need);
  }

  /** The fill is stored, and the first thread removes the new file. */
  lemma {:induction false} RemovesNewFile(key: Key, need: nat, s5: System) returns (s6: System, s7: System)
    requires s5.cache == EmptyCache().(reserved := need, pending := {key})
    requires s5.files == map[key := need] && s5.threads == [Removing(key, need), Filling(key, need)]
    ensures Next(s5, s6) && Next(s6, s7)
    ensures s7.cache == FullCache(key, need) && s7.files == map[] && |s7.threads| == 2
  {
    s6 := System(FullCache(key, need), map[key := need], [Removing(key, need), Idle]);
    s7 := System(FullCache(key, need), map[key := need] - {key}, [Claiming(key, need), Idle]);
    CommitStep(s5, s6, key, need);
    RemoveStep(s6, s7, key, need);
  }

  /** Some run ends in the state. */
  ghost predicate Reached(s: System, limit: nat, files: seq<Entry>) {
    exists run: seq<System> :: IsRun(run, limit, files) && run[|run| - 1] == s
  }

  lemma {:induction false} ReachedNext(s: System, s': System, limit: nat, files: seq<Entry>)
    requires Reached(s, limit, files) && Next(s, s')
    ensures Reached(s', limit, files)
  {
    var run: seq<System> :| IsRun(run, limit, files) && run[|run| - 1] == s;
    var longer := run + [s'];
    forall n: nat | n < |longer| - 1
      ensures StepAt(longer, n)
    {
      if n < |run| - 1 {
        assert StepAt(run, n);
      }
    }
    assert longer[|longer| - 1] == s';
  }

  lemma {:induction false} ReachedTwice(s: System, s': System, s'': System, limit: nat, files: seq<Entry>)
    requires Reached(s, limit, files) && Next(s, s') && Next(s', s'')
    ensures Reached(s'', limit, files)
  {
    ReachedNext(s, s', limit, files);
    ReachedNext(s', s'', limit, files);
  }

  /** A thread finds a bad block and forgets its entry under the lock, another thread fills the block
      anew, and the first removes the new file. */
  lemma {:induction false} BadBlockRefilled(key: Key, need: nat) returns (filling: System, removed: System)
    requires IsKey(key) && DIGEST < need <= BLOCK + DIGEST
    ensures Reached(filling, BLOCK + DIGEST, [Entry(key, need)])
    ensures filling.files == map[key := need] && filling.cache.reserved == need && |filling.threads| == 2
    ensures Reached(removed, BLOCK + DIGEST, [Entry(key, need)])
    ensures removed.files == map[] && removed.cache == FullCache(key, need) && |removed.threads| == 2
  {
    var limit, files := BLOCK + DIGEST, [Entry(key, need)];
    var s0 := System(FullCache(key, need), map[key := need], [Idle, Idle]);
    var s3 := System(EmptyCache(), map[key := need], [Removing(key, need), Idle]);
    StartOfOne(key, need, s0);
    assert IsRun([s0], limit, files) && [s0][|[s0]| - 1] == s0;
    var s1, s2 := ForgetsEntry(key, need, s0, s3);
    ReachedTwice(s0, s1, s2, limit, files);
    ReachedNext(s2, s3, limit, files);
    var s4, s5 := FillsAnew(key, need, s3);
    ReachedTwice(s3, s4, s5, limit, files);
    filling := s5;
    var s6, s7 := RemovesNewFile(key, need, s5);
    ReachedTwice(s5, s6, s7, limit, files);
    removed := s7;
  }

  /** The same system with more threads that make no call. */
  ghost function WithIdle(s: System, k: nat): System {
    s.(threads := s.threads + seq(k, _ => Idle))
  }

  lemma {:induction false} WokenWithIdle(threads: seq<Thread>, idle: seq<Thread>)
    requires forall i :: 0 <= i < |idle| ==> idle[i].Idle?
    ensures WakeAll(threads + idle) == WakeAll(threads) + idle
  {}

  lemma {:induction false} UpdateWithIdle(threads: seq<Thread>, idle: seq<Thread>, i: nat, t: Thread)
    requires i < |threads|
    ensures (threads + idle)[i := t] == threads[i := t] + idle
  {}

  lemma {:induction false} IdleStep(s: System, i: nat, s': System, k: nat)
    requires i < |s.threads| && Steps(s, i, s')
    ensures Steps(WithIdle(s, k), i, WithIdle(s', k))
  {
    var idle := seq(k, _ => Idle);
    UpdateWithIdle(s.threads, idle, i, Idle);
    UpdateWithIdle(s.threads, idle, i, s'.threads[i]);
    WokenWithIdle(s.threads[i := Idle], idle);
    if Begins(s, i, s') {
      var key: Key, length: int :|
        ValidCall(key, length) && s' == s.(threads := s.threads[i := Claiming(key, length + DIGEST)]);
      assert Begins(WithIdle(s, k), i, WithIdle(s', k));
    }
  }

  /** Threads that make no call change nothing of what the others reach. */
  lemma {:induction false} ReachedWithIdle(s: System, limit: nat, files: seq<Entry>, k: nat)
    requires Reached(s, limit, files)
    ensures Reached(WithIdle(s, k), limit, files)
  {
    var run: seq<System> :| IsRun(run, limit, files) && run[|run| - 1] == s;
    RunWithIdle(run, limit, files, |run| - 1, k);
  }

  lemma {:induction false} RunWithIdle(run: seq<System>, limit: nat, files: seq<Entry>, n: nat, k: nat)
    requires IsRun(run, limit, files) && n < |run|
    ensures Reached(WithIdle(run[n], k), limit, files)
  {
    if n == 0 {
      var s := WithIdle(run[0], k);
      IdleStarts(run[0], limit, files, k);
      assert IsRun([s], limit, files) && [s][|[s]| - 1] == s;
    } else {
      RunWithIdle(run, limit, files, n - 1, k);
      assert StepAt(run, n - 1);
      IdleNext(run[n - 1], run[n], k);
      ReachedNext(WithIdle(run[n - 1], k), WithIdle(run[n], k), limit, files);
    }
  }

  lemma {:induction false} IdleNext(s: System, s': System, k: nat)
    requires Next(s, s')
    ensures Next(WithIdle(s, k), WithIdle(s', k))
  {
    var i: nat :| i < |s.threads| && Steps(s, i, s');
    IdleStep(s, i, s', k);
  }

  lemma {:induction false} IdleStarts(s: System, limit: nat, files: seq<Entry>, k: nat)
    requires Starts(s, limit, files)
    ensures Starts(WithIdle(s, k), limit, files)
  {}

  /** With two threads or more an entry can be without its file. */
  lemma {:induction false} EntryCanOutliveItsFile(key: Key, threads: nat)
    requires IsKey(key) && threads >= 2
    ensures exists s: System, limit: nat, files: seq<Entry> ::
              Reached(s, limit, files) && |s.threads| == threads && Has(s.cache.entries, key) && key !in s.files
  {
    var filling, removed := BadBlockRefilled(key, 1 + DIGEST);
    OneEntry(key, 1 + DIGEST);
    ReachedWithIdle(removed, BLOCK + DIGEST, [Entry(key, 1 + DIGEST)], threads - 2);
  }

  /** With two threads or more, files and reserved bytes can together be twice the limit. */
  lemma {:induction false} BytesCanExceedLimit(key: Key, threads: nat)
    requires IsKey(key) && threads >= 2
    ensures exists s: System, limit: nat, files: seq<Entry> ::
              Reached(s, limit, files) && |s.threads| == threads && limit > 0 && Listed(s.files, [key])
              && Bytes(s.files, [key]) + s.cache.reserved == 2 * limit
  {
    var filling, removed := BadBlockRefilled(key, BLOCK + DIGEST);
    var keys, limit := [key], BLOCK + DIGEST;
    assert keys[1..] == [];
    ReachedWithIdle(filling, limit, [Entry(key, limit)], threads - 2);
    var s := WithIdle(filling, threads - 2);
    assert Listed(s.files, keys) && Bytes(s.files, keys) == limit;
    assert Reached(s, limit, [Entry(key, limit)]);
  }

  // ------------------------------------------------------------------ exactly when

  lemma {:induction false} ThreadsStay(run: seq<System>, limit: nat, files: seq<Entry>, n: nat)
    requires IsRun(run, limit, files) && n < |run|
    ensures |run[n].threads| == |run[0].threads|
  {
    if n > 0 {
      ThreadsStay(run, limit, files, n - 1);
      var i := StepOf(run, limit, files, n - 1);
    }
  }

  /** State n of a run of this many threads. */
  ghost predicate InRun(run: seq<System>, limit: nat, files: seq<Entry>, n: nat, threads: nat) {
    IsRun(run, limit, files) && n < |run| && |run[0].threads| == threads
  }

  lemma {:induction false} ReachedInRun(s: System, limit: nat, files: seq<Entry>) returns (run: seq<System>, n: nat)
    requires Reached(s, limit, files)
    ensures InRun(run, limit, files, n, |s.threads|) && run[n] == s
  {
    run :| IsRun(run, limit, files) && run[|run| - 1] == s;
    n := |run| - 1;
    ThreadsStay(run, limit, files, n);
  }

  lemma {:induction false} NoThreadNoFailure(run: seq<System>, limit: nat, files: seq<Entry>, m: nat)
    requires IsRun(run, limit, files) && |run[0].threads| == 0
    ensures !ReadFailsAt(run, m)
  {
    if m < |run| {
      ThreadsStay(run, limit, files, m);
    }
  }

  lemma {:induction false} AloneKeeps(run: seq<System>, limit: nat, files: seq<Entry>, n: nat, threads: nat)
    requires InRun(run, limit, files, n, threads) && threads <= 1
    ensures EntriesHaveFiles(run[n]) && WithinBytes(run[n], limit)
  {
    if threads == 0 {
      forall m: nat | m < n
        ensures !ReadFailsAt(run, m)
      {
        NoThreadNoFailure(run, limit, files, m);
      }
      VerifiedReadsKeepFiles(run, limit, files, n);
    } else {
      OneThreadKeepsFiles(run, limit, files, n);
    }
    forall keys | Listed(run[n].files, keys)
      ensures Bytes(run[n].files, keys) + run[n].cache.reserved <= limit
    {
      if threads == 0 {
        VerifiedReadsBoundBytes(run, limit, files, n, keys);
      } else {
        OneThreadBoundsBytes(run, limit, files, n, keys);
      }
    }
  }

  ghost function SomeKey(): (key: Key)
    ensures IsKey(key)
  {
    seq(64, _ => '0')
  }

  /** Every entry has its file, in every state of every run of a number of threads, exactly when that
      number is at most one. */
  lemma {:induction false} FilesKeptIffAlone(threads: nat)
    ensures (forall run, limit, files, n :: InRun(run, limit, files, n, threads) ==> EntriesHaveFiles(run[n]))
            <==> threads <= 1
  {
    if threads <= 1 {
      forall run, limit, files, n | InRun(run, limit, files, n, threads)
        ensures EntriesHaveFiles(run[n])
      {
        AloneKeeps(run, limit, files, n, threads);
      }
    } else {
      EntryCanOutliveItsFile(SomeKey(), threads);
      var s: System, limit: nat, files: seq<Entry> :|
        Reached(s, limit, files) && |s.threads| == threads && Has(s.cache.entries, SomeKey()) && SomeKey() !in s.files;
      var run, n := ReachedInRun(s, limit, files);
      assert InRun(run, limit, files, n, threads) && !EntriesHaveFiles(run[n]);
    }
  }

  /** Files and reserved bytes are within the limit, in every state of every run of a number of threads,
      exactly when that number is at most one. */
  lemma {:induction false} BytesBoundedIffAlone(threads: nat)
    ensures (forall run, limit, files, n :: InRun(run, limit, files, n, threads) ==> WithinBytes(run[n], limit))
            <==> threads <= 1
  {
    if threads <= 1 {
      forall run, limit, files, n | InRun(run, limit, files, n, threads)
        ensures WithinBytes(run[n], limit)
      {
        AloneKeeps(run, limit, files, n, threads);
      }
    } else {
      BytesCanExceedLimit(SomeKey(), threads);
      var s: System, limit: nat, files: seq<Entry> :|
        && Reached(s, limit, files) && |s.threads| == threads && limit > 0 && Listed(s.files, [SomeKey()])
        && Bytes(s.files, [SomeKey()]) + s.cache.reserved == 2 * limit;
      var run, n := ReachedInRun(s, limit, files);
      assert InRun(run, limit, files, n, threads) && !WithinBytes(run[n], limit);
    }
  }

  lemma {:induction false} StartOfOne(key: Key, need: nat, s: System)
    requires DIGEST < need <= BLOCK + DIGEST && s == System(FullCache(key, need), map[key := need], [Idle, Idle])
    ensures Starts(s, BLOCK + DIGEST, [Entry(key, need)])
  {
    OneEntry(key, need);
    OpeningOne(BLOCK + DIGEST, [Entry(key, need)]);
  }

  lemma {:induction false} ClaimToRead(s: System, s': System, key: Key, need: nat)
    requires s.cache.entries == [Entry(key, need)] && s.cache.pending == {} && s.files == map[key := need]
    requires s.threads == [Claiming(key, need), Idle] && s' == s.(threads := [Reading(key, need), Idle])
    ensures Next(s, s')
  {
    OneEntry(key, need);
    assert Touched(s.cache, key) == s.cache;
    assert Surviving(s.files, s.cache.entries, s.cache.entries) == s.files;
    assert s.threads[0 := Reading(key, need)] == s'.threads;
    assert Claims(s, 0, s') && Steps(s, 0, s');
  }

  lemma {:induction false} DropStep(s: System, s': System, key: Key, need: nat)
    requires s.cache.entries == [Entry(key, need)] && s.threads == [Reading(key, need), Idle]
    requires s' == s.(cache := s.cache.(entries := [], used := s.cache.used - need),
                      threads := [Removing(key, need), Idle])
    ensures Next(s, s')
  {
    OneEntry(key, need);
    assert s.threads[0 := Removing(key, need)] == s'.threads;
    assert Drops(s, 0, s') && Steps(s, 0, s');
  }

  lemma {:induction false} RemoveStep(s: System, s': System, key: Key, need: nat)
    requires s.threads == [Removing(key, need), Idle]
             && s' == s.(files := s.files - {key}, threads := [Claiming(key, need), Idle])
    ensures Next(s, s')
  {
    assert s.threads[0 := Claiming(key, need)] == s'.threads;
    assert Removes(s, 0, s') && Steps(s, 0, s');
  }

  lemma {:induction false} ClaimToFill(s: System, s': System, key: Key, need: nat)
    requires s.cache.entries == [] && s.cache.pending == {} && s.cache.used == s.cache.reserved == 0
             && need <= s.cache.limit
    requires s.threads == [Removing(key, need), Claiming(key, need)] && s.files == map[key := need]
    requires s' == s.(cache := s.cache.(reserved := need, pending := {key}),
                      threads := [Removing(key, need), Filling(key, need)])
    ensures Next(s, s')
  {
    OneEntry(key, need);
    assert Evicted(s.cache, need) == s.cache;
    assert Surviving(s.files, [], []) == s.files;
    assert s.threads[1 := Filling(key, need)] == s'.threads;
    assert Claims(s, 1, s') && Steps(s, 1, s');
  }

  lemma {:induction false} CommitStep(s: System, s': System, key: Key, need: nat)
    requires s.cache.entries == [] && s.cache.pending == {key} && s.cache.reserved == need
    requires s.threads == [Removing(key, need), Filling(key, need)] && s.files == map[key := need]
    requires s' == s.(cache := s.cache.(entries := [Entry(key, need)], used := s.cache.used + need, reserved := 0,
                                        pending := {}),
                      threads := [Removing(key, need), Idle])
    ensures Next(s, s')
  {
    OneEntry(key, need);
    assert Committed(s.cache, key, need) == s'.cache;
    assert WakeAll(s.threads[1 := Idle]) == s'.threads;
    assert s.files[key := need] == s'.files;
    assert Commits(s, 1, s') && Steps(s, 1, s');
  }

  lemma {:induction false} OpeningOne(limit: nat, e: seq<Entry>)
    requires limit == BLOCK + DIGEST && |e| == 1 && DIGEST < e[0].size <= BLOCK + DIGEST
    ensures Opening(limit, e) == Open(Cache(limit, e, e[0].size, 0, {}))
  {
    assert Loaded(e[..0]) == [] && Loaded(e) == Loaded(e[..0]) + [e[0]] == e;
    assert e[1..] == [] && SumOf(e) == e[0].size + SumOf(e[1..]);
  }
}
