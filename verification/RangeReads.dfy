/** Reading a range of a remote shard through whole blocks. The block cache holds earlier fetches, any of
    which may have been evicted, and offline nothing is fetched: the bytes are the shard's whenever the
    read succeeds, and only a block that is not stored makes an offline read fail. */
module RangeReads {
  import opened Numbers
  import opened BitStrings
  import opened DiskCaches

  datatype Range = OutOfRange | Missing | Bytes(bytes: seq<Byte>)

  /** A request to the cache or the network: part of the shard. */
  datatype Request = Request(start: nat, count: nat)

  /** Stored blocks of one shard, by their offset. */
  type Store = map<nat, seq<Byte>>

  /** How the blocks are reached: directly, or through a store that evicts blocks to make room. */
  datatype Access = Direct | Cached(evicted: Store -> set<nat>)

  function BlockLength(shard: seq<Byte>, start: nat): nat
    requires start <= |shard|
  {
    Min(BLOCK, |shard| - start)
  }

  ghost predicate StoresBlock(shard: seq<Byte>, store: Store, start: nat) {
    start in store ==> start <= |shard| && store[start] == shard[start..start + BlockLength(shard, start)]
  }

  /** Whatever is stored was fetched from this shard. */
  ghost predicate IsStoreOf(shard: seq<Byte>, store: Store) {
    forall start :: StoresBlock(shard, store, start)
  }

  /** One block or part of one: stored, or fetched and then stored; offline only stored. */
  method Get(shard: seq<Byte>, q: Request, access: Access, offline: bool, store: Store)
    returns (r: Range, store': Store)
    requires IsStoreOf(shard, store) && q.start + q.count <= |shard|
    requires access.Cached? ==> q.count == BlockLength(shard, q.start)
    ensures IsStoreOf(shard, store')
    ensures r == Missing <==> offline && (access.Direct? || q.start !in store)
    ensures r != Missing ==> r == Bytes(shard[q.start..q.start + q.count])
    ensures offline ==> store' == store
    ensures access.Cached? && r != Missing ==> q.start in store' && (q.start in store ==> store' == store)
  {
    assert StoresBlock(shard, store, q.start);
    store' := store;
    if access.Cached? && q.start in store {
      return Bytes(store[q.start]), store';
    }
    if offline {
      return Missing, store';
    }
    var data := shard[q.start..q.start + q.count];
    if access.Cached? {
      store' := (store - access.evicted(store))[q.start := data];
      forall start
        ensures StoresBlock(shard, store', start)
      {
        assert StoresBlock(shard, store, start);
      }
    }
    r := Bytes(data);
  }

  /** A block or a part of one inside the shard, and aligned when it goes through the store. */
  ghost predicate GoodRequest(shard: seq<Byte>, access: Access, q: Request) {
    && 0 < q.count <= BLOCK && q.start + q.count <= |shard|
    && (access.Cached? ==> q.start % BLOCK == 0 && q.count == BlockLength(shard, q.start))
  }

  /** The offset of the block of a position. */
  function BlockOf(at: nat): (start: nat)
    ensures start <= at < start + BLOCK && start % BLOCK == 0
  {
    at - at % BLOCK
  }

  /** The block of some position of the range is not stored. */
  ghost predicate Unstored(store: Store, lo: nat, hi: nat) {
    exists at :: lo <= at < hi && BlockOf(at) !in store
  }

  function RequestAt(shard: seq<Byte>, access: Access, at: nat, left: nat): (q: Request)
    requires at < |shard| && 0 < left
    ensures q.start <= at < q.start + q.count
    ensures access.Cached? ==> q.start == BlockOf(at)
    ensures access.Direct? && at + left <= |shard| ==> q.start + q.count <= |shard|
    ensures GoodRequest(shard, Cached(s => {}), q) || access.Direct?
  {
    if access.Cached? then Request(BlockOf(at), BlockLength(shard, BlockOf(at))) else Request(at, Min(BLOCK, left))
  }

  /** The bytes of one request from a position on, at most left of them. */
  method Take(shard: seq<Byte>, at: nat, left: nat, access: Access, offline: bool, store: Store)
    returns (part: Range, store': Store, ghost q: Request)
    requires IsStoreOf(shard, store) && 0 < left && at + left <= |shard|
    ensures IsStoreOf(shard, store') && GoodRequest(shard, access, q) && (offline ==> store' == store)
    ensures part == Missing <==> offline && (access.Direct? || BlockOf(at) !in store)
    ensures part != Missing ==> part.Bytes? && 0 < |part.bytes| <= left && part.bytes == shard[at..at + |part.bytes|]
    ensures part.Bytes? && offline ==> !Unstored(store, at, at + |part.bytes|)
  {
    var asked := RequestAt(shard, access, at, left);
    q := asked;
    part, store' := Get(shard, asked, access, offline, store);
    if part.Bytes? {
      var within := at - asked.start;
      var take := Min(left, |part.bytes| - within);
      SliceOfSlice(shard, asked.start, asked.count, within, take);
      part := Bytes(part.bytes[within..within + take]);
      if offline {
        SameBlock(store, at, take, asked.start);
      }
    }
  }

  /** Read length bytes at offset. */
  method Read(shard: seq<Byte>, offset: int, length: int, access: Access, offline: bool, store: Store)
    returns (r: Range, store': Store, ghost requests: seq<Request>)
    requires IsStoreOf(shard, store)
    ensures IsStoreOf(shard, store')
    ensures r == OutOfRange <==> offset < 0 || length < 0 || offset > |shard| - length
    ensures r.Bytes? ==> r.bytes == shard[offset..offset + length]
    ensures r == Missing <==>
              r != OutOfRange && offline && length > 0 && (access.Direct? || Unstored(store, offset, offset + length))
    ensures forall q :: q in requests ==> GoodRequest(shard, access, q)
  {
    requests, store' := [], store;
    if offset < 0 || length < 0 || offset > |shard| - length {
      return OutOfRange, store', requests;
    }
    var at, left := offset, length;
    var result := [];
    while left > 0
      invariant offset <= at && left >= 0 && at + left == offset + length && result == shard[offset..at]
      invariant IsStoreOf(shard, store') && (offline ==> store' == store)
      invariant offline && at > offset ==> access.Cached? && !Unstored(store, offset, at)
      invariant forall q :: q in requests ==> GoodRequest(shard, access, q)
      decreases left
    {
      var part;
      ghost var q;
      part, store', q := Take(shard, at, left, access, offline, store');
      requests := requests + [q];
      if part == Missing {
        assert access.Cached? ==> BlockOf(at) !in store;
        return Missing, store', requests;
      }
      assert shard[offset..at] + shard[at..at + |part.bytes|] == shard[offset..at + |part.bytes|];
      result := result + part.bytes;
      at := at + |part.bytes|;
      left := left - |part.bytes|;
    }
    r := Bytes(result);
  }

  /** The positions taken from one stored block have no other. */
  lemma {:induction false} SameBlock(store: Store, at: nat, take: nat, start: nat)
    requires start <= at && at + take <= start + BLOCK && start % BLOCK == 0 && start in store
    ensures !Unstored(store, at, at + take)
  {
    forall p | at <= p < at + take
      ensures BlockOf(p) == start
    {
    }
  }
}
