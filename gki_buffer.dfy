// The GKI buffer manager: fixed pools of equal-sized buffers kept on free
// queues, a pool list ordered by buffer size, a permission mask that hides
// restricted pools from `GKI_getbuf`, and general-purpose buffer queues.
//
// A buffer is named by its pool and its slot in the pool's memory; its
// header (queue id and status) lives in `hdr`. The linked free queues and
// buffer queues are kept as sequences in link order (first to last).
module GkiBuffer {
  import opened Bytes

  const GKI_NUM_TOTAL_BUF_POOLS: nat := 4
  const GKI_NUM_FIXED_BUF_POOLS: nat := 3
  const GKI_BUF0_SIZE: u16 := 64
  const GKI_BUF0_MAX: u16 := 20
  const GKI_BUF1_SIZE: u16 := 128
  const GKI_BUF1_MAX: u16 := 10
  const GKI_BUF2_SIZE: u16 := 320
  const GKI_BUF2_MAX: u16 := 5
  const GKI_POOL_ID_0: u8 := 0
  const GKI_POOL_ID_1: u8 := 1
  const GKI_POOL_ID_2: u8 := 2
  /** The 16-bit access mask is kept as the set of its 1 bits (the
      restricted pools); the default 0xFFF0 makes pools 0..3 public and
      every other bit restricted. */
  const GKI_DEF_BUFPOOL_PERM_MASK: set<nat> := set k | 4 <= k < 16
  const GKI_RESTRICTED_POOL: u8 := 1
  const GKI_SUCCESS: u8 := 0x00
  const GKI_INVALID_POOL: u8 := 0xFF
  /** Header (next pointer and four bytes) plus the magic number, on the
      32-bit targets. */
  const BUFFER_PADDING_SIZE: nat := 12
  const MAX_USER_BUF_SIZE: nat := 0xFFFF - BUFFER_PADDING_SIZE

  datatype BufStatus = Free | Unlinked | Queued

  /** A buffer: its pool and its index in the pool's memory. */
  datatype Buf = Buf(pool: nat, slot: nat)

  /** The part of `BUFFER_HDR_T` the manager reads: the owning queue and the
      status. */
  datatype Hdr = Hdr(qId: nat, status: BufStatus)

  /** `FREE_QUEUE_T`; `free` is the chain from `p_first` to `p_last`. */
  datatype FreeQueue = FreeQueue(size: u16, total: u16, curCnt: u16, maxCnt: u16, free: seq<Buf>)

  /** The buffer part of `tGKI_COM_CB`; `poolStart[p]` says whether pool `p`
      has memory, `poolList[..curTotal]` are the pools in use. */
  datatype GkiState = GkiState(freeq: seq<FreeQueue>, poolStart: seq<bool>, hdr: map<Buf, Hdr>,
                               poolList: seq<nat>, curTotal: nat, accessMask: set<nat>)

  /** A state and the buffer an allocation handed out, if any. */
  datatype Got = Got(s: GkiState, buf: Option<Buf>)

  /** A state and whether the operation was accepted (no GKI exception). */
  datatype Checked = Checked(s: GkiState, ok: bool)

  /** The shape every operation relies on: four pools, list entries that
      name pools, and free-listed buffers that have headers. */
  predicate WellFormed(s: GkiState)
  {
    |s.freeq| == GKI_NUM_TOTAL_BUF_POOLS && |s.poolStart| == GKI_NUM_TOTAL_BUF_POOLS &&
    |s.poolList| == GKI_NUM_TOTAL_BUF_POOLS && s.curTotal <= GKI_NUM_TOTAL_BUF_POOLS &&
    (forall i :: 0 <= i < GKI_NUM_TOTAL_BUF_POOLS ==> s.poolList[i] < GKI_NUM_TOTAL_BUF_POOLS) &&
    (forall p, b :: 0 <= p < GKI_NUM_TOTAL_BUF_POOLS && b in s.freeq[p].free ==> b in s.hdr)
  }

  // ---------------------------------------------------------------------
  // Pool set-up
  // ---------------------------------------------------------------------

  /** `ALIGN_POOL`: the size rounded up to whole 32-bit words. */
  function AlignPool(size: nat): (r: nat)
    ensures r % 4 == 0 && size <= r < size + 4
  {
    ((size + 3) / 4) * 4
  }

  /** The buffers of pool `id`, in memory order. */
  function Slots(id: nat, n: nat): (r: seq<Buf>)
    ensures |r| == n && forall k :: 0 <= k < n ==> r[k] == Buf(id, k)
  {
    seq(n, k requires 0 <= k => Buf(id, k))
  }

  /** The headers once pool `id` is laid out with `n` buffers: each one
      belongs to the pool and is free; other headers are unchanged. */
  function InitHdr(hdr: map<Buf, Hdr>, id: nat, n: nat): (r: map<Buf, Hdr>)
    ensures forall k :: 0 <= k < n ==> Buf(id, k) in r && r[Buf(id, k)] == Hdr(id, Free)
    ensures forall b :: b in hdr ==> b in r
    ensures forall b :: b in r ==> b in hdr || (b.pool == id && b.slot < n)
    ensures forall b :: b in hdr && !(b.pool == id && b.slot < n) ==> r[b] == hdr[b]
  {
    var added := set k | 0 <= k < n :: Buf(id, k);
    map b | b in hdr.Keys + added :: if b.pool == id && b.slot < n then Hdr(id, Free) else hdr[b]
  }

  /** `phUwb_gki_init_free_queue` with pool memory: the size is word
      aligned, the counters are cleared, and every buffer of the pool is
      free and chained in memory order. */
  function InitFreeQueue(s: GkiState, id: nat, size: u16, total: u16): (r: GkiState)
    requires WellFormed(s) && id < GKI_NUM_TOTAL_BUF_POOLS
    ensures WellFormed(r)
  {
    s.(freeq := s.freeq[id := FreeQueue(AlignPool(size) % 0x1_0000, total, 0, 0, Slots(id, total as nat))],
       poolStart := s.poolStart[id := true],
       hdr := InitHdr(s.hdr, id, total as nat))
  }

  /** `phUwb_gki_alloc_free_queue(id)`: the queue it inspects is the one of
      `pool_list[id]`; only an empty one is (re)laid out, into pool `id`, and
      only when memory can be had. */
  function AllocFreeQueue(s: GkiState, id: nat, mallocOk: bool): (r: Checked)
    requires WellFormed(s) && id < GKI_NUM_TOTAL_BUF_POOLS
    ensures WellFormed(r.s) && (!r.ok ==> r.s == s)
  {
    var q := s.freeq[s.poolList[id]];
    if q.free != [] || !mallocOk then Checked(s, false)
    else Checked(InitFreeQueue(s, id, q.size, q.total), true)
  }

  // ---------------------------------------------------------------------
  // Allocation
  // ---------------------------------------------------------------------

  /** Pool `p` is open to `GKI_getbuf`: its bit of the access mask is clear. */
  predicate Public(mask: set<nat>, p: nat)
  {
    p !in mask
  }

  /** The first list position from `i` on whose pool can hold `size`
      bytes, or `curTotal` when there is none. */
  function FitFrom(s: GkiState, size: nat, i: nat): (r: nat)
    requires WellFormed(s) && i <= s.curTotal
    ensures i <= r <= s.curTotal
    ensures r < s.curTotal ==> size <= s.freeq[s.poolList[r]].size
    ensures forall k :: i <= k < r ==> size > s.freeq[s.poolList[k]].size
    decreases s.curTotal - i
  {
    if i == s.curTotal then i
    else if size <= s.freeq[s.poolList[i]].size then i
    else FitFrom(s, size, i + 1)
  }

  /** The first list position from `i` on whose pool is public and not
      exhausted, or `curTotal` when there is none. */
  function ServeFrom(s: GkiState, i: nat): (r: nat)
    requires WellFormed(s) && i <= s.curTotal
    ensures i <= r <= s.curTotal
    ensures r < s.curTotal ==>
      var p := s.poolList[r]; Public(s.accessMask, p) && s.freeq[p].curCnt < s.freeq[p].total
    ensures forall k :: i <= k < r ==>
      var p := s.poolList[k]; !Public(s.accessMask, p) || s.freeq[p].curCnt >= s.freeq[p].total
    decreases s.curTotal - i
  {
    if i == s.curTotal then i
    else
      var p := s.poolList[i];
      if Public(s.accessMask, p) && s.freeq[p].curCnt < s.freeq[p].total then i
      else ServeFrom(s, i + 1)
  }

  /** The head of pool `p`'s free queue is handed out: it leaves the
      queue, is counted in `cur_cnt` (and `max_cnt` follows), and is
      UNLINKED. */
  function Take(s: GkiState, p: nat): (r: Got)
    requires WellFormed(s) && p < GKI_NUM_TOTAL_BUF_POOLS
    requires s.freeq[p].free != [] && s.freeq[p].curCnt < s.freeq[p].total
    ensures WellFormed(r.s) && r.buf == Some(s.freeq[p].free[0])
  {
    var q := s.freeq[p];
    var b := q.free[0];
    var c := q.curCnt + 1;
    Got(s.(freeq := s.freeq[p := q.(free := q.free[1..], curCnt := c, maxCnt := if c > q.maxCnt then c else q.maxCnt)],
           hdr := s.hdr[b := s.hdr[b].(status := Unlinked)]),
        Some(b))
  }

  /** A buffer from pool `p`, whose queue was found with room: an empty
      chain first goes through `alloc_free_queue(allocIdx)`, and the queue
      of `p` is read again afterwards. */
  function ServeFromPool(s: GkiState, p: nat, allocIdx: nat, mallocOk: bool): (r: Got)
    requires WellFormed(s) && p < GKI_NUM_TOTAL_BUF_POOLS && allocIdx < GKI_NUM_TOTAL_BUF_POOLS
    requires s.freeq[p].curCnt < s.freeq[p].total
    ensures WellFormed(r.s)
  {
    if s.freeq[p].free != [] then Take(s, p)
    else
      var a := AllocFreeQueue(s, allocIdx, mallocOk);
      if !a.ok || a.s.freeq[p].free == [] then Got(a.s, None)
      else Take(a.s, p)
  }

  /** `phUwb_GKI_getbuf`: nothing for a zero size or a size no pool can
      hold; otherwise the first public, not exhausted pool from the first
      one big enough on, in pool-list order. */
  function GetBufStep(s: GkiState, size: u16, mallocOk: bool): (r: Got)
    requires WellFormed(s)
    ensures WellFormed(r.s)
    ensures size == 0 ==> r == Got(s, None)
  {
    if size == 0 then Got(s, None)
    else
      var i := FitFrom(s, size, 0);
      if i == s.curTotal then Got(s, None)
      else
        var j := ServeFrom(s, i);
        if j == s.curTotal then Got(s, None)
        else ServeFromPool(s, s.poolList[j], j, mallocOk)
  }

  /** `phUwb_GKI_getpoolbuf`: a buffer of the given pool, restricted or
      not, and when that pool is exhausted whatever `GKI_getbuf` gives for
      its buffer size. */
  function GetPoolBufStep(s: GkiState, poolId: u8, mallocOk: bool): (r: Got)
    requires WellFormed(s)
    ensures WellFormed(r.s)
  {
    if poolId as nat >= GKI_NUM_TOTAL_BUF_POOLS then Got(s, None)
    else if s.freeq[poolId].curCnt < s.freeq[poolId].total then ServeFromPool(s, poolId as nat, poolId as nat, mallocOk)
    else GetBufStep(s, s.freeq[poolId].size, mallocOk)
  }

  /** `phUwb_GKI_get_poolId`: the smallest fixed pool whose buffers hold
      `length` bytes, or 0xFF. */
  function GetPoolId(length: u16): (r: u8)
    ensures r == GKI_POOL_ID_0 <==> length <= GKI_BUF0_SIZE
    ensures r == GKI_POOL_ID_1 <==> GKI_BUF0_SIZE < length <= GKI_BUF1_SIZE
    ensures r == GKI_POOL_ID_2 <==> GKI_BUF1_SIZE < length <= GKI_BUF2_SIZE
    ensures r == 0xFF <==> length > GKI_BUF2_SIZE
  {
    if length <= GKI_BUF0_SIZE then GKI_POOL_ID_0
    else if length <= GKI_BUF1_SIZE then GKI_POOL_ID_1
    else if length <= GKI_BUF2_SIZE then GKI_POOL_ID_2
    else 0xFF
  }

  /** `phUwb_GKI_find_get_poolBuf` from pool `id` on: each fixed pool in
      turn, up to the last one. */
  function FindFrom(s: GkiState, id: nat, mallocOk: bool): (r: Got)
    requires WellFormed(s) && id < GKI_NUM_FIXED_BUF_POOLS
    ensures WellFormed(r.s)
    decreases GKI_NUM_FIXED_BUF_POOLS - id
  {
    var g := GetPoolBufStep(s, id as u8, mallocOk);
    if g.buf.Some? || id == GKI_NUM_FIXED_BUF_POOLS - 1 then g
    else FindFrom(g.s, id + 1, mallocOk)
  }

  /** `phUwb_GKI_find_get_poolBuf`. */
  function FindGetPoolBufStep(s: GkiState, size: u16, mallocOk: bool): (r: Got)
    requires WellFormed(s)
    ensures WellFormed(r.s)
    ensures size > GKI_BUF2_SIZE ==> r == Got(s, None)
  {
    var id := GetPoolId(size);
    if id == 0xFF then Got(s, None) else FindFrom(s, id as nat, mallocOk)
  }

  // ---------------------------------------------------------------------
  // Release and queues
  // ---------------------------------------------------------------------

  /** `phUwb_GKI_freebuf`: a damaged buffer (its magic number overwritten),
      a buffer that is not UNLINKED or one with a bad queue id is refused;
      otherwise it goes to the tail of its pool's free queue, is FREE, and
      `cur_cnt` drops unless it is already 0. */
  function FreeBufStep(s: GkiState, b: Buf, damaged: bool): (r: Checked)
    requires WellFormed(s) && b in s.hdr
    ensures WellFormed(r.s) && (!r.ok ==> r.s == s)
    ensures r.ok <==> !damaged && s.hdr[b].status == Unlinked && s.hdr[b].qId < GKI_NUM_TOTAL_BUF_POOLS
  {
    var h := s.hdr[b];
    if damaged || h.status != Unlinked || h.qId >= GKI_NUM_TOTAL_BUF_POOLS then Checked(s, false)
    else
      var q := s.freeq[h.qId];
      Checked(s.(freeq := s.freeq[h.qId := q.(free := q.free + [b], curCnt := if q.curCnt > 0 then q.curCnt - 1 else 0)],
                 hdr := s.hdr[b := h.(status := Free)]),
              true)
  }

  /** `BUFFER_Q`: the chain from `p_first` to `p_last`, and `count`. */
  datatype BufferQ = BufferQ(items: seq<Buf>, count: u16)

  /** A queue and the headers after an enqueue or dequeue. */
  datatype QueueStep = QueueStep(hdr: map<Buf, Hdr>, q: BufferQ, ok: bool)

  /** `phUwb_GKI_enqueue`: only an undamaged UNLINKED buffer is taken; it
      goes to the tail, `count` grows (as a 16-bit counter), and the buffer
      is QUEUED. */
  function EnqueueStep(hdr: map<Buf, Hdr>, q: BufferQ, b: Buf, damaged: bool): (r: QueueStep)
    requires b in hdr
    ensures r.hdr.Keys == hdr.Keys
    ensures !r.ok ==> r == QueueStep(hdr, q, false)
    ensures r.ok <==> !damaged && hdr[b].status == Unlinked
  {
    if damaged || hdr[b].status != Unlinked then QueueStep(hdr, q, false)
    else QueueStep(hdr[b := hdr[b].(status := Queued)], BufferQ(q.items + [b], (q.count + 1) % 0x1_0000), true)
  }

  /** A queue whose counter matches its chain. */
  predicate QueueValid(hdr: map<Buf, Hdr>, q: BufferQ)
  {
    q.count == |q.items| % 0x1_0000 && forall b :: b in q.items ==> b in hdr
  }

  /** `phUwb_GKI_dequeue`: nothing from an empty queue; otherwise the head
      leaves the queue, `count` drops, and the buffer is UNLINKED. */
  function DequeueStep(hdr: map<Buf, Hdr>, q: BufferQ): (r: (QueueStep, Option<Buf>))
    requires QueueValid(hdr, q)
    ensures r.0.hdr.Keys == hdr.Keys && QueueValid(r.0.hdr, r.0.q)
    ensures q.count == 0 ==> r == (QueueStep(hdr, q, true), None)
  {
    if q.count == 0 then (QueueStep(hdr, q, true), None)
    else
      var b := q.items[0];
      (QueueStep(hdr[b := hdr[b].(status := Unlinked)], BufferQ(q.items[1..], q.count - 1), true), Some(b))
  }

  // ---------------------------------------------------------------------
  // Pool list and permissions
  // ---------------------------------------------------------------------

  /** `phUwb_GKI_set_pool_permission`: a restricted pool's bit is set,
      any other permission clears it; an unknown pool is refused. */
  function SetPoolPermissionStep(s: GkiState, poolId: u8, permission: u8): (r: (GkiState, u8))
    ensures poolId as nat >= GKI_NUM_TOTAL_BUF_POOLS ==> r == (s, GKI_INVALID_POOL)
  {
    if poolId as nat >= GKI_NUM_TOTAL_BUF_POOLS then (s, GKI_INVALID_POOL)
    else if permission == GKI_RESTRICTED_POOL then (s.(accessMask := s.accessMask + {poolId as nat}), GKI_SUCCESS)
    else (s.(accessMask := s.accessMask - {poolId as nat}), GKI_SUCCESS)
  }

  /** The pool list is in increasing buffer size. */
  predicate SortedBySize(freeq: seq<FreeQueue>, list: seq<nat>)
    requires |freeq| == GKI_NUM_TOTAL_BUF_POOLS && forall i :: 0 <= i < |list| ==> list[i] < GKI_NUM_TOTAL_BUF_POOLS
  {
    forall i, j :: 0 <= i < j < |list| ==> freeq[list[i]].size <= freeq[list[j]].size
  }

  /** The first position of the in-use list whose pool is at least as
      large as `pool`, or `n`. */
  function InsertPos(freeq: seq<FreeQueue>, list: seq<nat>, pool: nat, n: nat, i: nat): (r: nat)
    requires |freeq| == GKI_NUM_TOTAL_BUF_POOLS && pool < GKI_NUM_TOTAL_BUF_POOLS
    requires n <= |list| && i <= n && forall k :: 0 <= k < |list| ==> list[k] < GKI_NUM_TOTAL_BUF_POOLS
    ensures i <= r <= n
    ensures r < n ==> freeq[pool].size <= freeq[list[r]].size
    ensures forall k :: i <= k < r ==> freeq[pool].size > freeq[list[k]].size
    decreases n - i
  {
    if i == n then i
    else if freeq[pool].size <= freeq[list[i]].size then i
    else InsertPos(freeq, list, pool, n, i + 1)
  }

  /** `phUwb_gki_add_to_pool_list`: the pool goes in before the first pool
      at least as large; the rest of the in-use list moves up one place. */
  function AddToPoolList(freeq: seq<FreeQueue>, list: seq<nat>, n: nat, pool: nat): (r: seq<nat>)
    requires |freeq| == GKI_NUM_TOTAL_BUF_POOLS && pool < GKI_NUM_TOTAL_BUF_POOLS
    requires n < |list| && forall k :: 0 <= k < |list| ==> list[k] < GKI_NUM_TOTAL_BUF_POOLS
    ensures |r| == |list| && forall k :: 0 <= k < |r| ==> r[k] < GKI_NUM_TOTAL_BUF_POOLS
  {
    var i := InsertPos(freeq, list, pool, n, 0);
    list[..i] + [pool] + list[i..n] + list[n + 1..]
  }

  /** The position of `pool` in the in-use list, or `n`. */
  function PoolIndex(list: seq<nat>, n: nat, pool: nat, i: nat): (r: nat)
    requires n <= |list| && i <= n
    ensures i <= r <= n && (r < n ==> list[r] == pool)
    ensures forall k :: i <= k < r ==> list[k] != pool
    decreases n - i
  {
    if i == n then i else if list[i] == pool then i else PoolIndex(list, n, pool, i + 1)
  }

  /** `gki_remove_from_pool_list`: the pools after `pool` move down one
      place; the last in-use entry stays as it was. */
  function RemoveFromPoolList(list: seq<nat>, n: nat, pool: nat): (r: seq<nat>)
    requires n <= |list|
    ensures |r| == |list|
  {
    var i := PoolIndex(list, n, pool, 0);
    if i + 1 >= n then list
    else list[..i] + list[i + 1..n] + list[n - 1..]
  }

  // ---------------------------------------------------------------------
  // The bookkeeping invariant
  // ---------------------------------------------------------------------

  predicate Distinct(s: seq<Buf>)
  {
    forall i, j :: 0 <= i < j < |s| ==> s[i] != s[j]
  }

  /** Pool `p`: every buffer is either on the free queue (once, FREE) or
      counted in `cur_cnt`; `max_cnt` bounds `cur_cnt`; a pool without
      memory has no buffers. */
  predicate PoolValid(s: GkiState, p: nat)
    requires WellFormed(s) && p < GKI_NUM_TOTAL_BUF_POOLS
  {
    var q := s.freeq[p];
    q.curCnt as nat + |q.free| == q.total as nat && q.curCnt <= q.maxCnt && Distinct(q.free) &&
    (forall b :: b in q.free ==> b.pool == p && b.slot < q.total as nat && b in s.hdr && s.hdr[b].status == Free) &&
    (!s.poolStart[p] ==> q.total == 0)
  }

  /** Each header names its own pool, and a buffer that is out (UNLINKED or
      QUEUED) is a buffer of a pool with memory. */
  predicate HdrValid(s: GkiState)
    requires WellFormed(s)
  {
    forall b :: b in s.hdr ==>
      s.hdr[b].qId == b.pool &&
      (s.hdr[b].status != Free ==>
        b.pool < GKI_NUM_TOTAL_BUF_POOLS && s.poolStart[b.pool] && b.slot < s.freeq[b.pool].total as nat)
  }

  /** The in-use part of the pool list holds each pool with memory exactly
      once, in increasing buffer size. */
  predicate ListValid(s: GkiState)
    requires WellFormed(s)
  {
    var list := s.poolList[..s.curTotal];
    (forall i :: 0 <= i < |list| ==> s.poolStart[list[i]]) &&
    (forall p :: 0 <= p < GKI_NUM_TOTAL_BUF_POOLS && s.poolStart[p] ==> p in list) &&
    (forall i, j :: 0 <= i < j < |list| ==> list[i] != list[j]) &&
    SortedBySize(s.freeq, list)
  }

  predicate Valid(s: GkiState)
  {
    WellFormed(s) && (forall p :: 0 <= p < GKI_NUM_TOTAL_BUF_POOLS ==> PoolValid(s, p)) &&
    HdrValid(s) && ListValid(s)
  }

  // Counting: a queue of distinct buffers of one pool that misses one of
  // the pool's buffers is shorter than the pool.

  function Elems(s: seq<nat>): set<nat>
  {
    set x | x in s
  }

  lemma {:induction false} DistinctSetSize(s: seq<nat>)
    requires forall i, j :: 0 <= i < j < |s| ==> s[i] != s[j]
    ensures |Elems(s)| == |s|
  {
    if s != [] {
      DistinctSetSize(s[1..]);
      assert Elems(s) == {s[0]} + Elems(s[1..]);
      assert s[0] !in Elems(s[1..]);
    }
  }

  /** Distinct numbers below `n`, none equal to `x < n`, are fewer than `n`. */
  lemma NatPigeon(s: seq<nat>, n: nat, x: nat)
    requires x < n && forall i, j :: 0 <= i < j < |s| ==> s[i] != s[j]
    requires forall i :: 0 <= i < |s| ==> s[i] < n && s[i] != x
    ensures |s| < n
  {
    var t := s + [x];
    var range := seq(n, k requires 0 <= k => k as nat);
    DistinctSetSize(t);
    DistinctSetSize(range);
    var a := Elems(t);
    var r := Elems(range);
    forall v | v in a ensures v in r {
      assert range[v] == v;
    }
    assert r * a == a;
    assert |r| == |r - a| + |r * a|;
  }

  /** A free queue without buffer `b` of its own pool is not full length. */
  lemma FreeQueueMissing(free: seq<Buf>, p: nat, total: nat, b: Buf)
    requires Distinct(free) && b.pool == p && b.slot < total && b !in free
    requires forall c :: c in free ==> c.pool == p && c.slot < total
    ensures |free| < total
  {
    var slots := seq(|free|, i requires 0 <= i < |free| => free[i].slot);
    forall i, j | 0 <= i < j < |slots| ensures slots[i] != slots[j] {
      assert free[i] != free[j] && free[i].pool == free[j].pool;
    }
    forall i | 0 <= i < |slots| ensures slots[i] < total && slots[i] != b.slot {
      assert free[i] in free;
    }
    NatPigeon(slots, total, b.slot);
  }

  // ---------------------------------------------------------------------
  // Release keeps the books
  // ---------------------------------------------------------------------

  /** Freeing an UNLINKED buffer keeps the invariant, and it always finds
      `cur_cnt` above zero: the `cur_cnt > 0` guard never fires. */
  lemma FreeBufKeepsValid(s: GkiState, b: Buf, damaged: bool)
    requires Valid(s) && b in s.hdr
    ensures var r := FreeBufStep(s, b, damaged);
            Valid(r.s) && (r.ok ==> s.freeq[b.pool].curCnt > 0)
  {
    var r := FreeBufStep(s, b, damaged);
    if r.ok {
      var p := b.pool;
      var q := s.freeq[p];
      assert p < GKI_NUM_TOTAL_BUF_POOLS && s.hdr[b].status == Unlinked;
      assert PoolValid(s, p);
      assert b !in q.free;
      FreeQueueMissing(q.free, p, q.total as nat, b);
      forall p' | 0 <= p' < GKI_NUM_TOTAL_BUF_POOLS ensures PoolValid(r.s, p') {
        if p' == p {
          var q' := r.s.freeq[p];
          assert q'.free == q.free + [b];
          forall c | c in q'.free ensures c.pool == p && c.slot < q'.total as nat && c in r.s.hdr && r.s.hdr[c].status == Free {
            if c != b { assert c in q.free; }
          }
        } else {
          assert r.s.freeq[p'] == s.freeq[p'];
          assert PoolValid(s, p');
          forall c | c in s.freeq[p'].free ensures c != b {
            assert s.hdr[c].status == Free;
          }
        }
      }
      assert ListValid(r.s) by {
        assert r.s.poolList == s.poolList && r.s.poolStart == s.poolStart;
        forall k | 0 <= k < GKI_NUM_TOTAL_BUF_POOLS ensures r.s.freeq[k].size == s.freeq[k].size {}
      }
    }
  }

  // ---------------------------------------------------------------------
  // Allocation keeps the books
  // ---------------------------------------------------------------------

  /** Handing out the head of a free queue keeps the invariant. */
  lemma TakeKeepsValid(s: GkiState, p: nat)
    requires Valid(s) && p < GKI_NUM_TOTAL_BUF_POOLS
    requires s.freeq[p].free != [] && s.freeq[p].curCnt < s.freeq[p].total
    ensures Valid(Take(s, p).s)
  {
    var r := Take(s, p).s;
    var q := s.freeq[p];
    var b := q.free[0];
    assert PoolValid(s, p);
    assert b in q.free;
    forall p' | 0 <= p' < GKI_NUM_TOTAL_BUF_POOLS ensures PoolValid(r, p') {
      if p' == p {
        forall c | c in r.freeq[p].free ensures c != b && c in q.free {
          var k :| 0 <= k < |q.free[1..]| && q.free[1..][k] == c;
          assert q.free[k + 1] == c;
        }
      } else {
        assert r.freeq[p'] == s.freeq[p'];
        assert PoolValid(s, p');
      }
    }
    assert ListValid(r) by {
      forall k | 0 <= k < GKI_NUM_TOTAL_BUF_POOLS ensures r.freeq[k].size == s.freeq[k].size {}
    }
  }

  /** A pool with room always has a free buffer at the head of its queue,
      so `alloc_free_queue` is never reached: the buffer comes from `Take`. */
  lemma ServeFromPoolTakes(s: GkiState, p: nat, allocIdx: nat, mallocOk: bool)
    requires Valid(s) && p < GKI_NUM_TOTAL_BUF_POOLS && allocIdx < GKI_NUM_TOTAL_BUF_POOLS
    requires s.freeq[p].curCnt < s.freeq[p].total
    ensures s.freeq[p].free != []
    ensures ServeFromPool(s, p, allocIdx, mallocOk) == Take(s, p)
    ensures Valid(Take(s, p).s)
  {
    assert PoolValid(s, p);
    TakeKeepsValid(s, p);
  }

  /** List position `k` could serve `size` bytes: its pool is large
      enough, public, and has room. */
  predicate Fits(s: GkiState, size: nat, k: nat)
    requires WellFormed(s) && k < s.curTotal
  {
    var p := s.poolList[k];
    size <= s.freeq[p].size && Public(s.accessMask, p) && s.freeq[p].curCnt < s.freeq[p].total
  }

  /** List position `j` is the first that could serve `size` bytes. */
  predicate Served(s: GkiState, size: nat, j: nat)
    requires WellFormed(s) && j < s.curTotal
  {
    Fits(s, size, j) && forall k :: 0 <= k < j ==> !Fits(s, size, k)
  }

  /** `GKI_getbuf` keeps the invariant; it gives a buffer exactly when a
      nonzero size fits some pool in use, and when it gives nothing,
      nothing changes. */
  lemma GetBufKeepsValid(s: GkiState, size: u16, mallocOk: bool)
    requires Valid(s)
    ensures var r := GetBufStep(s, size, mallocOk);
            Valid(r.s) && (r.buf.None? ==> r.s == s) &&
            (r.buf.None? <==> size == 0 || forall k :: 0 <= k < s.curTotal ==> !Fits(s, size, k))
  {
    if size != 0 {
      var i := FitFrom(s, size, 0);
      if i < s.curTotal {
        SortedFit(s, size, i);
        var j := ServeFrom(s, i);
        if j < s.curTotal {
          ServeFromPoolTakes(s, s.poolList[j], j, mallocOk);
          assert Fits(s, size, j);
        }
      }
    }
  }

  /** `GKI_getbuf` serves from the first pool in list order that fits: the
      head of its free queue, now UNLINKED, counted in `cur_cnt`, with
      `max_cnt` following. */
  lemma GetBufFirstFit(s: GkiState, size: u16, mallocOk: bool, j: nat)
    requires Valid(s) && size > 0 && j < s.curTotal && Served(s, size, j)
    ensures var p := s.poolList[j];
            var q := s.freeq[p];
            var r := GetBufStep(s, size, mallocOk);
            q.free != [] && r == Take(s, p) && r.buf == Some(q.free[0]) &&
            r.s.freeq[p].curCnt == q.curCnt + 1 &&
            r.s.freeq[p].maxCnt == (if q.curCnt + 1 > q.maxCnt then q.curCnt + 1 else q.maxCnt) &&
            r.s.hdr[q.free[0]].status == Unlinked
  {
    var i := FitFrom(s, size, 0);
    assert i <= j;
    SortedFit(s, size, i);
    assert ServeFrom(s, i) == j by {
      var j' := ServeFrom(s, i);
      if j' < j { assert Fits(s, size, j'); }
    }
    ServeFromPoolTakes(s, s.poolList[j], j, mallocOk);
  }

  /** The pool list is sorted: every pool from the first large enough one
      on is large enough, so a position that serves is exactly one that
      fits. */
  lemma SortedFit(s: GkiState, size: u16, i: nat)
    requires Valid(s) && i < s.curTotal && i == FitFrom(s, size, 0)
    ensures forall k :: i <= k < s.curTotal ==> size <= s.freeq[s.poolList[k]].size
  {
    var list := s.poolList[..s.curTotal];
    forall k | i <= k < s.curTotal ensures size <= s.freeq[s.poolList[k]].size {
      if i < k { assert s.freeq[list[i]].size <= s.freeq[list[k]].size; }
    }
  }

  /** `GKI_getpoolbuf` keeps the invariant; a pool with room serves from
      the head of its own free queue whatever its permission, and an
      exhausted pool falls back to `GKI_getbuf` for its buffer size. */
  lemma GetPoolBufKeepsValid(s: GkiState, poolId: u8, mallocOk: bool)
    requires Valid(s)
    ensures Valid(GetPoolBufStep(s, poolId, mallocOk).s)
    ensures poolId as nat < GKI_NUM_TOTAL_BUF_POOLS && s.freeq[poolId].curCnt < s.freeq[poolId].total ==>
      s.freeq[poolId].free != [] && GetPoolBufStep(s, poolId, mallocOk) == Take(s, poolId as nat)
  {
    if poolId as nat < GKI_NUM_TOTAL_BUF_POOLS {
      if s.freeq[poolId].curCnt < s.freeq[poolId].total {
        ServeFromPoolTakes(s, poolId as nat, poolId as nat, mallocOk);
      } else {
        GetBufKeepsValid(s, s.freeq[poolId].size, mallocOk);
      }
    }
  }

  /** `phUwb_GKI_find_get_poolBuf` keeps the invariant. */
  lemma FindFromKeepsValid(s: GkiState, id: nat, mallocOk: bool)
    requires Valid(s) && id < GKI_NUM_FIXED_BUF_POOLS
    ensures Valid(FindFrom(s, id, mallocOk).s)
  {
    var t := FindFromValid(s, id, mallocOk);
  }

  /** The state the search from pool `id` on leaves behind is valid. */
  lemma {:induction false} FindFromValid(s: GkiState, id: nat, mallocOk: bool) returns (t: GkiState)
    requires Valid(s) && id < GKI_NUM_FIXED_BUF_POOLS
    ensures t == FindFrom(s, id, mallocOk).s && Valid(t)
    decreases GKI_NUM_FIXED_BUF_POOLS - id
  {
    var g := GetPoolBufStep(s, id as u8, mallocOk);
    GetPoolBufKeepsValid(s, id as u8, mallocOk);
    if g.buf.None? && id < GKI_NUM_FIXED_BUF_POOLS - 1 {
      t := FindFromValid(g.s, id + 1, mallocOk);
    } else {
      t := g.s;
    }
  }

  /** Freeing the buffer an allocation just took from a pool's free queue
      undoes it: the free is accepted, `cur_cnt` is back where it was, the
      headers are as before, and the buffer has moved from the head to the
      tail of its pool's free queue. `GKI_getbuf` (`GetBufFirstFit`) and
      `GKI_getpoolbuf` (`GetPoolBufKeepsValid`) allocate by `Take`. */
  lemma FreeUndoesTake(s: GkiState, p: nat)
    requires Valid(s) && p < GKI_NUM_TOTAL_BUF_POOLS
    requires s.freeq[p].free != [] && s.freeq[p].curCnt < s.freeq[p].total
    ensures var b := s.freeq[p].free[0];
            var t := Take(s, p);
            b.pool == p && b in t.s.hdr &&
            var f := FreeBufStep(t.s, b, false);
            f.ok && f.s.freeq[p].curCnt == s.freeq[p].curCnt &&
            f.s.freeq[p].free == s.freeq[p].free[1..] + [b] &&
            f.s.hdr == s.hdr
  {
    var b := s.freeq[p].free[0];
    assert PoolValid(s, p) && b in s.freeq[p].free;
    assert s.hdr[b].qId == b.pool;
  }

  // ---------------------------------------------------------------------
  // Queues
  // ---------------------------------------------------------------------

  /** A queue whose buffers are QUEUED and chained once each. */
  predicate QueueSound(hdr: map<Buf, Hdr>, q: BufferQ)
  {
    QueueValid(hdr, q) && Distinct(q.items) && forall b :: b in q.items ==> hdr[b].status == Queued
  }

  /** `GKI_enqueue` and `GKI_dequeue` are first in, first out: dequeuing
      after an enqueue gives the old head (or the new buffer, from an empty
      queue), and the rest is the old queue's tail with the new buffer
      behind it. */
  lemma QueueFifo(hdr: map<Buf, Hdr>, q: BufferQ, b: Buf)
    requires QueueSound(hdr, q) && b in hdr && hdr[b].status == Unlinked && |q.items| < 0xFFFF
    ensures var e := EnqueueStep(hdr, q, b, false);
            var d := DequeueStep(e.hdr, e.q);
            e.ok && QueueSound(e.hdr, e.q) && e.q.items == q.items + [b] &&
            d.1 == Some(if q.items == [] then b else q.items[0]) &&
            d.0.q.items == (q.items + [b])[1..] && d.0.hdr[d.1.value].status == Unlinked
  {
    var e := EnqueueStep(hdr, q, b, false);
    assert b !in q.items;
    assert (q.count + 1) % 0x1_0000 == |q.items + [b]| % 0x1_0000;
  }

  /** Enqueuing a buffer on an empty queue and dequeuing it again gives the
      buffer back and restores the queue and every header. */
  lemma EnqueueDequeueRoundTrip(hdr: map<Buf, Hdr>, b: Buf)
    requires b in hdr && hdr[b].status == Unlinked
    ensures var e := EnqueueStep(hdr, BufferQ([], 0), b, false);
            var d := DequeueStep(e.hdr, e.q);
            d.1 == Some(b) && d.0.hdr == hdr && d.0.q == BufferQ([], 0)
  {
    var e := EnqueueStep(hdr, BufferQ([], 0), b, false);
    assert e.q == BufferQ([b], 1);
    assert e.hdr[b := hdr[b]] == hdr;
  }

  /** Moving a buffer between QUEUED and UNLINKED keeps the pool books. */
  lemma QueueKeepsValid(s: GkiState, hdr': map<Buf, Hdr>, b: Buf)
    requires Valid(s) && b in s.hdr && s.hdr[b].status != Free
    requires hdr'.Keys == s.hdr.Keys && hdr'[b].qId == s.hdr[b].qId && hdr'[b].status != Free
    requires forall c :: c in s.hdr && c != b ==> hdr'[c] == s.hdr[c]
    ensures Valid(s.(hdr := hdr'))
  {
    var r := s.(hdr := hdr');
    forall p | 0 <= p < GKI_NUM_TOTAL_BUF_POOLS ensures PoolValid(r, p) {
      assert PoolValid(s, p);
      forall c | c in s.freeq[p].free ensures c != b { assert s.hdr[c].status == Free; }
    }
  }

  /** `GKI_enqueue` keeps the pool books. */
  lemma EnqueueKeepsValid(s: GkiState, q: BufferQ, b: Buf, damaged: bool)
    requires Valid(s) && b in s.hdr
    ensures Valid(s.(hdr := EnqueueStep(s.hdr, q, b, damaged).hdr))
  {
    var e := EnqueueStep(s.hdr, q, b, damaged);
    if e.ok {
      QueueKeepsValid(s, e.hdr, b);
    } else {
      assert s.(hdr := e.hdr) == s;
    }
  }

  /** `GKI_dequeue` keeps the pool books and leaves a sound queue. */
  lemma DequeueKeepsValid(s: GkiState, q: BufferQ)
    requires Valid(s) && QueueSound(s.hdr, q)
    ensures Valid(s.(hdr := DequeueStep(s.hdr, q).0.hdr))
    ensures QueueSound(DequeueStep(s.hdr, q).0.hdr, DequeueStep(s.hdr, q).0.q)
  {
    var d := DequeueStep(s.hdr, q);
    if q.count != 0 {
      var h := q.items[0];
      assert h in q.items;
      QueueKeepsValid(s, d.0.hdr, h);
      forall c | c in d.0.q.items ensures c != h && c in q.items {
        var k :| 0 <= k < |q.items[1..]| && q.items[1..][k] == c;
        assert q.items[k + 1] == c;
      }
    } else {
      assert s.(hdr := d.0.hdr) == s;
    }
  }

  // ---------------------------------------------------------------------
  // Permissions and the pool list
  // ---------------------------------------------------------------------

  /** `GKI_set_pool_permission` makes the pool restricted exactly when
      asked to, and leaves the other pools' permissions and every other
      bit of the mask as they were. */
  lemma PermissionBits(s: GkiState, poolId: u8, permission: u8, k: nat)
    requires poolId as nat < GKI_NUM_TOTAL_BUF_POOLS
    ensures var r := SetPoolPermissionStep(s, poolId, permission);
            r.1 == GKI_SUCCESS && r.0 == s.(accessMask := r.0.accessMask)
    ensures Public(SetPoolPermissionStep(s, poolId, permission).0.accessMask, k) ==
            if k == poolId as nat then permission != GKI_RESTRICTED_POOL else Public(s.accessMask, k)
  {
  }

  /** `add_to_pool_list` keeps the in-use list sorted by size: the pool
      goes in before the first pool at least as large. */
  lemma AddToPoolListSorted(freeq: seq<FreeQueue>, list: seq<nat>, n: nat, pool: nat)
    requires |freeq| == GKI_NUM_TOTAL_BUF_POOLS && pool < GKI_NUM_TOTAL_BUF_POOLS
    requires n < |list| && forall k :: 0 <= k < |list| ==> list[k] < GKI_NUM_TOTAL_BUF_POOLS
    requires SortedBySize(freeq, list[..n])
    ensures var r := AddToPoolList(freeq, list, n, pool);
            var i := InsertPos(freeq, list, pool, n, 0);
            r[..n + 1] == list[..i] + [pool] + list[i..n] && r[n + 1..] == list[n + 1..] &&
            SortedBySize(freeq, r[..n + 1])
  {
    var r := AddToPoolList(freeq, list, n, pool);
    var i := InsertPos(freeq, list, pool, n, 0);
    var l := r[..n + 1];
    assert l == list[..i] + [pool] + list[i..n];
    forall a, b | 0 <= a < b < |l| ensures freeq[l[a]].size <= freeq[l[b]].size {
      assert list[..n][..i] == list[..i];
      if b < i {
        assert l[a] == list[..n][a] && l[b] == list[..n][b];
      } else if b == i {
        assert l[a] == list[a];
      } else if a < i {
        assert l[a] == list[..n][a] && l[b] == list[..n][b - 1];
        assert freeq[list[a]].size < freeq[pool].size <= freeq[list[i]].size;
        if i < b - 1 { assert freeq[list[..n][i]].size <= freeq[list[..n][b - 1]].size; }
      } else if a == i {
        assert l[b] == list[..n][b - 1];
        if i < b - 1 { assert freeq[list[..n][i]].size <= freeq[list[..n][b - 1]].size; }
      } else {
        assert l[a] == list[..n][a - 1] && l[b] == list[..n][b - 1];
      }
    }
  }

  /** `remove_from_pool_list` takes the pool out of the in-use list and
      keeps the order of the others. */
  lemma RemoveFromPoolListOrder(freeq: seq<FreeQueue>, list: seq<nat>, n: nat, pool: nat, i: nat)
    requires |freeq| == GKI_NUM_TOTAL_BUF_POOLS && n <= |list| && forall k :: 0 <= k < |list| ==> list[k] < GKI_NUM_TOTAL_BUF_POOLS
    requires i < n && list[i] == pool && forall k :: 0 <= k < i ==> list[k] != pool
    requires SortedBySize(freeq, list[..n])
    ensures var r := RemoveFromPoolList(list, n, pool);
            r[..n - 1] == list[..i] + list[i + 1..n] && SortedBySize(freeq, r[..n - 1])
  {
    assert PoolIndex(list, n, pool, 0) == i;
    var r := RemoveFromPoolList(list, n, pool);
    var l := r[..n - 1];
    assert l == list[..i] + list[i + 1..n];
    forall a, b | 0 <= a < b < |l| ensures freeq[l[a]].size <= freeq[l[b]].size {
      var a' := if a < i then a else a + 1;
      var b' := if b < i then b else b + 1;
      assert l[a] == list[..n][a'] && l[b] == list[..n][b'];
    }
  }

  // ---------------------------------------------------------------------
  // Pool life cycle
  // ---------------------------------------------------------------------

  /** The control block before any pool is laid out. */
  function EmptyState(): (r: GkiState)
    ensures WellFormed(r)
  {
    GkiState(seq(GKI_NUM_TOTAL_BUF_POOLS, _ => FreeQueue(0, 0, 0, 0, [])), seq(GKI_NUM_TOTAL_BUF_POOLS, _ => false),
             map[], [0, 0, 0, 0], 0, GKI_DEF_BUFPOOL_PERM_MASK)
  }

  /** `phUwb_gki_buffer_init`: every queue cleared, the default access
      mask, the three fixed pools laid out in their static memory, and the
      in-use list 0, 1, 2 (the spare entry stays 0). */
  function BufferInitState(): (r: GkiState)
    ensures WellFormed(r)
  {
    var s0 := InitFreeQueue(EmptyState(), 0, GKI_BUF0_SIZE, GKI_BUF0_MAX);
    var s1 := InitFreeQueue(s0, 1, GKI_BUF1_SIZE, GKI_BUF1_MAX);
    var s2 := InitFreeQueue(s1, 2, GKI_BUF2_SIZE, GKI_BUF2_MAX);
    s2.(poolList := [0, 1, 2, 0], curTotal := GKI_NUM_FIXED_BUF_POOLS)
  }

  /** The fixed pools as `phUwb_gki_buffer_init` lays them out. */
  lemma BufferInitShape()
    ensures var s := BufferInitState();
            s.curTotal == 3 && s.poolList[..3] == [0, 1, 2] &&
            s.freeq[0] == FreeQueue(64, 20, 0, 0, Slots(0, 20)) &&
            s.freeq[1] == FreeQueue(128, 10, 0, 0, Slots(1, 10)) &&
            s.freeq[2] == FreeQueue(320, 5, 0, 0, Slots(2, 5)) &&
            s.poolStart == [true, true, true, false] && s.accessMask == GKI_DEF_BUFPOOL_PERM_MASK
  {
    assert AlignPool(64) == 64 && AlignPool(128) == 128 && AlignPool(320) == 320;
  }

  /** Laying out the fixed pools balances every pool's books. */
  lemma BufferInitBooks()
    ensures var s := BufferInitState();
            (forall p :: 0 <= p < GKI_NUM_TOTAL_BUF_POOLS ==> PoolValid(s, p)) && HdrValid(s)
  {
    var e := EmptyState();
    forall p | 0 <= p < GKI_NUM_TOTAL_BUF_POOLS ensures PoolValid(e, p) { }
    var s0 := InitFreeQueue(e, 0, GKI_BUF0_SIZE, GKI_BUF0_MAX);
    InitUnusedKeepsPools(e, 0, GKI_BUF0_SIZE, GKI_BUF0_MAX);
    var s1 := InitFreeQueue(s0, 1, GKI_BUF1_SIZE, GKI_BUF1_MAX);
    InitUnusedKeepsPools(s0, 1, GKI_BUF1_SIZE, GKI_BUF1_MAX);
    var s2 := InitFreeQueue(s1, 2, GKI_BUF2_SIZE, GKI_BUF2_MAX);
    InitUnusedKeepsPools(s1, 2, GKI_BUF2_SIZE, GKI_BUF2_MAX);
    var s := BufferInitState();
    assert s == s2.(poolList := [0, 1, 2, 0], curTotal := 3);
    forall p | 0 <= p < GKI_NUM_TOTAL_BUF_POOLS ensures PoolValid(s, p) {
      assert PoolValid(s2, p);
    }
    assert HdrValid(s2);
  }

  /** After start-up the books balance and the in-use list is sound. */
  lemma BufferInitValid()
    ensures Valid(BufferInitState())
  {
    var s := BufferInitState();
    BufferInitShape();
    BufferInitBooks();
    assert ListValid(s) by {
      var list := s.poolList[..s.curTotal];
      assert list == [0, 1, 2];
      forall p | 0 <= p < GKI_NUM_TOTAL_BUF_POOLS && s.poolStart[p] ensures p in list {
        assert list[p] == p;
      }
    }
  }

  /** The first pool from `i` on that has no memory, or the pool count. */
  function FirstUnused(s: GkiState, i: nat): (r: nat)
    requires WellFormed(s) && i <= GKI_NUM_TOTAL_BUF_POOLS
    ensures i <= r <= GKI_NUM_TOTAL_BUF_POOLS
    ensures r < GKI_NUM_TOTAL_BUF_POOLS ==> !s.poolStart[r]
    ensures forall k :: i <= k < r ==> s.poolStart[k]
    decreases GKI_NUM_TOTAL_BUF_POOLS - i
  {
    if i == GKI_NUM_TOTAL_BUF_POOLS then i
    else if !s.poolStart[i] then i
    else FirstUnused(s, i + 1)
  }

  /** A pool without memory is not in the in-use list, so the list has a
      free entry. */
  lemma UnusedLeavesRoom(s: GkiState, xx: nat)
    requires Valid(s) && xx < GKI_NUM_TOTAL_BUF_POOLS && !s.poolStart[xx]
    ensures s.curTotal < GKI_NUM_TOTAL_BUF_POOLS && xx !in s.poolList[..s.curTotal]
  {
    var list := s.poolList[..s.curTotal];
    forall i | 0 <= i < |list| ensures list[i] < GKI_NUM_TOTAL_BUF_POOLS && list[i] != xx {
      assert s.poolStart[list[i]];
    }
    NatPigeon(list, GKI_NUM_TOTAL_BUF_POOLS, xx);
  }

  /** The pool id `phUwb_GKI_create_pool` answers with, and the state. */
  datatype Created = Created(s: GkiState, id: u8)

  /** `phUwb_GKI_create_pool`: refused (0xFF, nothing changes) for a size
      above `MAX_USER_BUF_SIZE`, when every pool has memory, or when no
      memory is given and none can be had; otherwise the first pool without
      memory is laid out, entered in the in-use list by size, given its
      permission and counted. `memOk` stands for a caller pool or a
      successful `GKI_os_malloc`. */
  function CreatePoolStep(s: GkiState, size: u16, count: u16, permission: u8, memOk: bool): (r: Created)
    requires Valid(s)
    ensures WellFormed(r.s)
  {
    if size as nat > MAX_USER_BUF_SIZE then Created(s, GKI_INVALID_POOL)
    else
      var xx := FirstUnused(s, 0);
      if xx == GKI_NUM_TOTAL_BUF_POOLS || !memOk then Created(s, GKI_INVALID_POOL)
      else
        UnusedLeavesRoom(s, xx);
        var s1 := InitFreeQueue(s, xx, size, count);
        var s2 := s1.(poolList := AddToPoolList(s1.freeq, s1.poolList, s1.curTotal, xx));
        var s3 := SetPoolPermissionStep(s2, xx as u8, permission).0;
        Created(s3.(curTotal := s3.curTotal + 1), xx as u8)
  }

  /** Laying out a pool without memory keeps every pool's books and the
      headers sound. */
  lemma InitUnusedKeepsPools(s: GkiState, xx: nat, size: u16, count: u16)
    requires WellFormed(s) && (forall p :: 0 <= p < GKI_NUM_TOTAL_BUF_POOLS ==> PoolValid(s, p)) && HdrValid(s)
    requires xx < GKI_NUM_TOTAL_BUF_POOLS && !s.poolStart[xx]
    ensures var r := InitFreeQueue(s, xx, size, count);
            (forall p :: 0 <= p < GKI_NUM_TOTAL_BUF_POOLS ==> PoolValid(r, p)) && HdrValid(r)
  {
    var r := InitFreeQueue(s, xx, size, count);
    forall p | 0 <= p < GKI_NUM_TOTAL_BUF_POOLS ensures PoolValid(r, p) {
      if p == xx {
        var q := r.freeq[p];
        forall b | b in q.free ensures b.pool == p && b.slot < q.total as nat && b in r.hdr && r.hdr[b].status == Free {
          var k :| 0 <= k < |q.free| && q.free[k] == b;
        }
      } else {
        assert PoolValid(s, p);
        assert r.freeq[p] == s.freeq[p];
      }
    }
    forall b | b in r.hdr ensures r.hdr[b].qId == b.pool &&
        (r.hdr[b].status != Free ==> b.pool < GKI_NUM_TOTAL_BUF_POOLS && r.poolStart[b.pool] && b.slot < r.freeq[b.pool].total as nat) {
      if !(b.pool == xx && b.slot < count as nat) {
        assert b in s.hdr && r.hdr[b] == s.hdr[b];
      }
    }
  }

  /** Inserting a new value into a list of distinct values: every entry
      is the new value or an old one, every old one stays, and the entries
      stay distinct. */
  lemma InsertSeq(l: seq<nat>, i: nat, x: nat)
    requires i <= |l| && x !in l && forall a, b :: 0 <= a < b < |l| ==> l[a] != l[b]
    ensures var r := l[..i] + [x] + l[i..];
            |r| == |l| + 1 && r[i] == x &&
            (forall k :: 0 <= k < |r| ==> r[k] == x || r[k] in l) &&
            (forall v :: v in l ==> v in r) &&
            (forall a, b :: 0 <= a < b < |r| ==> r[a] != r[b])
  {
    var r := l[..i] + [x] + l[i..];
    forall k | 0 <= k < |r| ensures r[k] == (if k < i then l[k] else if k == i then x else l[k - 1]) { }
    forall v | v in l ensures v in r {
      var k :| 0 <= k < |l| && l[k] == v;
      if k < i { assert r[k] == v; } else { assert r[k + 1] == v; }
    }
  }

  /** Entering a pool in a sorted in-use list that lacks it: the list
      stays sorted and is the old list with the pool at its place. */
  lemma AddUnusedSorted(s: GkiState, xx: nat, r: GkiState) returns (i: nat)
    requires WellFormed(s) && ListValid(s) && xx < GKI_NUM_TOTAL_BUF_POOLS && s.curTotal < GKI_NUM_TOTAL_BUF_POOLS
    requires WellFormed(r) && r.curTotal == s.curTotal + 1
    requires forall p :: 0 <= p < GKI_NUM_TOTAL_BUF_POOLS && p != xx ==> r.freeq[p].size == s.freeq[p].size
    requires xx !in s.poolList[..s.curTotal]
    requires r.poolList == AddToPoolList(r.freeq, s.poolList, s.curTotal, xx)
    ensures i <= s.curTotal
    ensures SortedBySize(r.freeq, r.poolList[..r.curTotal])
    ensures r.poolList[..r.curTotal] == s.poolList[..s.curTotal][..i] + [xx] + s.poolList[..s.curTotal][i..]
  {
    var n := s.curTotal;
    var old_ := s.poolList[..n];
    assert forall k :: 0 <= k < |old_| ==> old_[k] < GKI_NUM_TOTAL_BUF_POOLS && old_[k] != xx by {
      forall k | 0 <= k < |old_| ensures old_[k] != xx { assert old_[k] in old_; }
    }
    SortedElsewhere(s.freeq, r.freeq, old_, xx);
    assert old_ == s.poolList[..n];
    AddToPoolListSorted(r.freeq, s.poolList, n, xx);
    i := InsertPos(r.freeq, s.poolList, xx, n, 0);
    assert old_[..i] == s.poolList[..i] && old_[i..] == s.poolList[i..n];
  }

  /** Entering an unused pool in the in-use list keeps the list sound. */
  lemma AddUnusedKeepsList(s: GkiState, xx: nat, r: GkiState)
    requires WellFormed(s) && ListValid(s) && xx < GKI_NUM_TOTAL_BUF_POOLS && !s.poolStart[xx] && s.curTotal < GKI_NUM_TOTAL_BUF_POOLS
    requires xx !in s.poolList[..s.curTotal]
    requires WellFormed(r) && r.poolStart == s.poolStart[xx := true] && r.curTotal == s.curTotal + 1
    requires forall p :: 0 <= p < GKI_NUM_TOTAL_BUF_POOLS && p != xx ==> r.freeq[p].size == s.freeq[p].size
    requires r.poolList == AddToPoolList(r.freeq, s.poolList, s.curTotal, xx)
    ensures ListValid(r)
  {
    var old_ := s.poolList[..s.curTotal];
    var i := AddUnusedSorted(s, xx, r);
    var list := r.poolList[..r.curTotal];
    InsertSeq(old_, i, xx);
    assert forall k :: 0 <= k < |list| ==> r.poolStart[list[k]] by {
      forall k | 0 <= k < |list| ensures r.poolStart[list[k]] {
        if list[k] != xx { assert s.poolStart[list[k]]; }
      }
    }
    assert forall p :: 0 <= p < GKI_NUM_TOTAL_BUF_POOLS && r.poolStart[p] ==> p in list by {
      forall p | 0 <= p < GKI_NUM_TOTAL_BUF_POOLS && r.poolStart[p] ensures p in list {
        if p != xx { assert p in old_; }
      }
    }
  }

  /** A successful `phUwb_GKI_create_pool` keeps the books and lays out
      the first pool without memory with the aligned size and `count` free
      buffers, enters it in the in-use list, and makes it restricted
      exactly when asked. */
  lemma CreatePoolLaysOut(s: GkiState, size: u16, count: u16, permission: u8, memOk: bool)
    requires Valid(s) && size as nat <= MAX_USER_BUF_SIZE && memOk && FirstUnused(s, 0) < GKI_NUM_TOTAL_BUF_POOLS
    ensures var r := CreatePoolStep(s, size, count, permission, memOk);
            var xx := FirstUnused(s, 0);
            Valid(r.s) && r.id as nat == xx && r.s.poolStart[xx] &&
            r.s.freeq[xx] == FreeQueue(AlignPool(size as nat) as u16, count, 0, 0, Slots(xx, count as nat)) &&
            r.s.curTotal == s.curTotal + 1 && xx in r.s.poolList[..r.s.curTotal] &&
            (Public(r.s.accessMask, xx) <==> permission != GKI_RESTRICTED_POOL)
  {
    var r := CreatePoolStep(s, size, count, permission, memOk);
    var xx := FirstUnused(s, 0);
    UnusedLeavesRoom(s, xx);
    var s1 := InitFreeQueue(s, xx, size, count);
    InitUnusedKeepsPools(s, xx, size, count);
    var s2 := s1.(poolList := AddToPoolList(s1.freeq, s1.poolList, s1.curTotal, xx));
    assert r.s == s2.(accessMask := r.s.accessMask, curTotal := s.curTotal + 1);
    assert r.s.freeq[xx] == FreeQueue(AlignPool(size as nat) as u16, count, 0, 0, Slots(xx, count as nat)) by {
      assert AlignPool(size as nat) < 0x1_0000;
      assert r.s.freeq == s1.freeq;
    }
    AddUnusedKeepsList(s, xx, r.s);
    forall p | 0 <= p < GKI_NUM_TOTAL_BUF_POOLS ensures PoolValid(r.s, p) {
      assert PoolValid(s1, p);
    }
    assert HdrValid(s1);
    var i := AddUnusedSorted(s, xx, r.s);
    assert r.s.poolList[..r.s.curTotal][i] == xx;
  }

  /** `phUwb_GKI_create_pool` keeps the books; it answers 0xFF, changing
      nothing, exactly for an oversized request, when every pool has
      memory, or without memory, and otherwise a pool that had none. */
  lemma CreatePoolKeepsValid(s: GkiState, size: u16, count: u16, permission: u8, memOk: bool)
    requires Valid(s)
    ensures var r := CreatePoolStep(s, size, count, permission, memOk);
            Valid(r.s) &&
            (r.id == GKI_INVALID_POOL <==>
              size as nat > MAX_USER_BUF_SIZE || !memOk || forall p :: 0 <= p < GKI_NUM_TOTAL_BUF_POOLS ==> s.poolStart[p]) &&
            (r.id == GKI_INVALID_POOL ==> r.s == s) &&
            (r.id != GKI_INVALID_POOL ==> r.id as nat < GKI_NUM_TOTAL_BUF_POOLS && !s.poolStart[r.id])
  {
    var xx := FirstUnused(s, 0);
    if size as nat <= MAX_USER_BUF_SIZE && xx < GKI_NUM_TOTAL_BUF_POOLS && memOk {
      CreatePoolLaysOut(s, size, count, permission, memOk);
    }
  }

  /** A pool with memory is in the in-use list. */
  lemma StartedListed(s: GkiState, id: nat) returns (i: nat)
    requires Valid(s) && id < GKI_NUM_TOTAL_BUF_POOLS && s.poolStart[id]
    ensures i < s.curTotal && s.poolList[i] == id && forall k :: 0 <= k < i ==> s.poolList[k] != id
  {
    var list := s.poolList[..s.curTotal];
    assert id in list;
    i := PoolIndex(s.poolList, s.curTotal, id, 0);
  }

  lemma StartedCounted(s: GkiState, id: nat)
    requires Valid(s) && id < GKI_NUM_TOTAL_BUF_POOLS && s.poolStart[id]
    ensures s.curTotal > 0
  {
    var i := StartedListed(s, id);
  }

  /** `phUwb_GKI_delete_pool`: an unknown pool or one without memory is
      ignored; a pool with no buffer out loses its memory, its counters
      and its place in the in-use list; a pool with buffers out raises the
      GKI exception (`ok` false) and is kept. */
  function DeletePoolStep(s: GkiState, poolId: u8): (r: Checked)
    requires Valid(s)
    ensures WellFormed(r.s)
  {
    if poolId as nat >= GKI_NUM_TOTAL_BUF_POOLS || !s.poolStart[poolId] then Checked(s, true)
    else if s.freeq[poolId].curCnt == 0 then
      StartedCounted(s, poolId as nat);
      Checked(s.(freeq := s.freeq[poolId := FreeQueue(0, 0, 0, 0, [])],
                 poolStart := s.poolStart[poolId := false],
                 poolList := RemoveFromPoolList(s.poolList, s.curTotal, poolId as nat),
                 curTotal := s.curTotal - 1),
              true)
    else Checked(s, false)
  }

  /** No buffer of a pool whose `cur_cnt` is zero is out. */
  lemma IdlePoolAllFree(s: GkiState, id: nat, b: Buf)
    requires Valid(s) && id < GKI_NUM_TOTAL_BUF_POOLS && s.freeq[id].curCnt == 0
    requires b in s.hdr && b.pool == id
    ensures s.hdr[b].status == Free
  {
    if s.hdr[b].status != Free {
      var q := s.freeq[id];
      assert PoolValid(s, id);
      assert b !in q.free;
      FreeQueueMissing(q.free, id, q.total as nat, b);
    }
  }

  /** Deleting an idle pool keeps every pool's books and the headers. */
  lemma DeleteKeepsBooks(s: GkiState, poolId: u8)
    requires Valid(s) && poolId as nat < GKI_NUM_TOTAL_BUF_POOLS && s.poolStart[poolId] && s.freeq[poolId].curCnt == 0
    ensures var r := DeletePoolStep(s, poolId).s;
            (forall p :: 0 <= p < GKI_NUM_TOTAL_BUF_POOLS ==> PoolValid(r, p)) && HdrValid(r)
  {
    var r := DeletePoolStep(s, poolId).s;
    forall p | 0 <= p < GKI_NUM_TOTAL_BUF_POOLS ensures PoolValid(r, p) {
      if p != poolId as nat {
        assert PoolValid(s, p);
        assert r.freeq[p] == s.freeq[p];
      }
    }
    forall b | b in r.hdr ensures r.hdr[b].qId == b.pool &&
        (r.hdr[b].status != Free ==> b.pool < GKI_NUM_TOTAL_BUF_POOLS && r.poolStart[b.pool] && b.slot < r.freeq[b.pool].total as nat) {
      if b.pool == poolId as nat { IdlePoolAllFree(s, poolId as nat, b); }
    }
  }

  /** Removing entry `i` from a list of distinct values: every entry left
      is an old one other than the removed one, every other old one stays,
      and the entries stay distinct. */
  lemma RemoveSeq(l: seq<nat>, i: nat)
    requires i < |l| && forall a, b :: 0 <= a < b < |l| ==> l[a] != l[b]
    ensures var r := l[..i] + l[i + 1..];
            |r| == |l| - 1 &&
            (forall k :: 0 <= k < |r| ==> r[k] != l[i] && r[k] in l) &&
            (forall v :: v in l && v != l[i] ==> v in r) &&
            (forall a, b :: 0 <= a < b < |r| ==> r[a] != r[b])
  {
    var r := l[..i] + l[i + 1..];
    forall k | 0 <= k < |r| ensures r[k] == l[if k < i then k else k + 1] { }
    forall v | v in l && v != l[i] ensures v in r {
      var k :| 0 <= k < |l| && l[k] == v;
      if k < i { assert r[k] == v; } else { assert r[k - 1] == v; }
    }
  }

  /** Removing an idle pool from the in-use list keeps the rest sorted. */
  lemma DeleteKeepsOrder(s: GkiState, poolId: u8) returns (i: nat)
    requires Valid(s) && poolId as nat < GKI_NUM_TOTAL_BUF_POOLS && s.poolStart[poolId] && s.freeq[poolId].curCnt == 0
    ensures var r := DeletePoolStep(s, poolId).s;
            i < s.curTotal && s.poolList[i] == poolId as nat &&
            r.poolList[..r.curTotal] == s.poolList[..s.curTotal][..i] + s.poolList[..s.curTotal][i + 1..] &&
            SortedBySize(r.freeq, r.poolList[..r.curTotal])
  {
    var r := DeletePoolStep(s, poolId).s;
    var id := poolId as nat;
    i := StartedListed(s, id);
    var n := s.curTotal;
    RemoveFromPoolListOrder(s.freeq, s.poolList, n, id, i);
    assert r.poolList[..r.curTotal] == s.poolList[..n][..i] + s.poolList[..n][i + 1..];
    RemoveSeq(s.poolList[..n], i);
    SortedElsewhere(s.freeq, r.freeq, r.poolList[..r.curTotal], id);
  }

  /** Sortedness by size does not depend on pools outside the list. */
  lemma SortedElsewhere(f: seq<FreeQueue>, g: seq<FreeQueue>, l: seq<nat>, id: nat)
    requires |f| == GKI_NUM_TOTAL_BUF_POOLS && |g| == GKI_NUM_TOTAL_BUF_POOLS
    requires forall k :: 0 <= k < |l| ==> l[k] < GKI_NUM_TOTAL_BUF_POOLS && l[k] != id
    requires forall p :: 0 <= p < GKI_NUM_TOTAL_BUF_POOLS && p != id ==> f[p].size == g[p].size
    requires SortedBySize(f, l)
    ensures SortedBySize(g, l)
  {
  }

  /** Deleting an idle pool keeps the in-use list sound. */
  lemma DeleteKeepsList(s: GkiState, poolId: u8)
    requires Valid(s) && poolId as nat < GKI_NUM_TOTAL_BUF_POOLS && s.poolStart[poolId] && s.freeq[poolId].curCnt == 0
    ensures ListValid(DeletePoolStep(s, poolId).s)
  {
    var r := DeletePoolStep(s, poolId).s;
    var id := poolId as nat;
    var i := DeleteKeepsOrder(s, poolId);
    var old_ := s.poolList[..s.curTotal];
    var list := r.poolList[..r.curTotal];
    RemoveSeq(old_, i);
    assert forall k :: 0 <= k < |list| ==> r.poolStart[list[k]] by {
      forall k | 0 <= k < |list| ensures r.poolStart[list[k]] {
        assert s.poolStart[list[k]];
      }
    }
    assert forall p :: 0 <= p < GKI_NUM_TOTAL_BUF_POOLS && r.poolStart[p] ==> p in list by {
      forall p | 0 <= p < GKI_NUM_TOTAL_BUF_POOLS && r.poolStart[p] ensures p in list {
        assert p in old_;
      }
    }
  }

  /** `phUwb_GKI_delete_pool` keeps the books; it is refused exactly when
      the pool has buffers out, and then nothing changes; an accepted
      delete of a pool with memory leaves it without memory, with an empty
      queue and out of the in-use list. */
  lemma DeletePoolKeepsValid(s: GkiState, poolId: u8)
    requires Valid(s)
    ensures var r := DeletePoolStep(s, poolId);
            Valid(r.s) && (!r.ok ==> r.s == s) &&
            (r.ok <==> poolId as nat >= GKI_NUM_TOTAL_BUF_POOLS || !s.poolStart[poolId] || s.freeq[poolId].curCnt == 0) &&
            (r.ok && poolId as nat < GKI_NUM_TOTAL_BUF_POOLS && s.poolStart[poolId] ==>
              !r.s.poolStart[poolId] && r.s.freeq[poolId] == FreeQueue(0, 0, 0, 0, []) &&
              r.s.curTotal == s.curTotal - 1 && poolId as nat !in r.s.poolList[..r.s.curTotal])
  {
    if poolId as nat < GKI_NUM_TOTAL_BUF_POOLS && s.poolStart[poolId] && s.freeq[poolId].curCnt == 0 {
      DeleteKeepsBooks(s, poolId);
      DeleteKeepsList(s, poolId);
    }
  }

  // ---------------------------------------------------------------------
  // The control block, updated in place
  // ---------------------------------------------------------------------

  /** `InitHdr` one buffer at a time. */
  lemma InitHdrStep(hdr: map<Buf, Hdr>, id: nat, n: nat)
    ensures InitHdr(hdr, id, n + 1) == InitHdr(hdr, id, n)[Buf(id, n) := Hdr(id, Free)]
  {
    var a := InitHdr(hdr, id, n + 1);
    var b := InitHdr(hdr, id, n)[Buf(id, n) := Hdr(id, Free)];
    assert a.Keys == b.Keys;
  }

  /** `InitHdr` with no buffers changes nothing. */
  lemma InitHdrNone(hdr: map<Buf, Hdr>, id: nat)
    ensures InitHdr(hdr, id, 0) == hdr
  {
  }

  /** The array after the shift of `add_to_pool_list`, entry by entry. */
  lemma InsertedPointwise(a: seq<nat>, l: seq<nat>, i: nat, n: nat, pool: nat)
    requires |a| == |l| && i <= n < |l| && a[i] == pool
    requires forall k :: 0 <= k < i ==> a[k] == l[k]
    requires forall k :: i < k <= n ==> a[k] == l[k - 1]
    requires forall k :: n < k < |l| ==> a[k] == l[k]
    ensures a == l[..i] + [pool] + l[i..n] + l[n + 1..]
  {
  }

  /** The array after the shift of `remove_from_pool_list`, entry by entry. */
  lemma RemovedPointwise(a: seq<nat>, l: seq<nat>, i: nat, n: nat)
    requires |a| == |l| && n <= |l|
    requires i + 1 < n ==> (forall k :: 0 <= k < i ==> a[k] == l[k]) && (forall k :: i <= k < n - 1 ==> a[k] == l[k + 1]) &&
                           (forall k :: n - 1 <= k < |l| ==> a[k] == l[k])
    requires i + 1 >= n ==> a == l
    ensures a == if i + 1 >= n then l else l[..i] + l[i + 1..n] + l[n - 1..]
  {
    if i + 1 < n {
      var r := l[..i] + l[i + 1..n] + l[n - 1..];
      assert |r| == |a|;
      forall k | 0 <= k < |a| ensures a[k] == r[k] {
        if k < i { } else if k < n - 1 { } else { }
      }
    }
  }

  /** The buffer part of `tGKI_COM_CB`: the free queues, which pools have
      memory, the buffer headers, the in-use pool list (an array the pool
      operations shift in place), its length, and the access mask. */
  class Gki {
    var freeq: seq<FreeQueue>
    var poolStart: seq<bool>
    var hdr: map<Buf, Hdr>
    const poolList: array<nat>
    var curTotal: nat
    var accessMask: set<nat>

    function State(): GkiState
      reads this, poolList
    {
      GkiState(freeq, poolStart, hdr, poolList[..], curTotal, accessMask)
    }

    /** `phUwb_gki_buffer_init`. */
    constructor ()
      ensures State() == BufferInitState()
    {
      freeq := seq(GKI_NUM_TOTAL_BUF_POOLS, _ => FreeQueue(0, 0, 0, 0, []));
      poolStart := seq(GKI_NUM_TOTAL_BUF_POOLS, _ => false);
      hdr := map[];
      poolList := new nat[GKI_NUM_TOTAL_BUF_POOLS](_ => 0);
      curTotal := 0;
      accessMask := GKI_DEF_BUFPOOL_PERM_MASK;
      new;
      assert State() == EmptyState();
      LayOutPool(0, GKI_BUF0_SIZE, GKI_BUF0_MAX);
      LayOutPool(1, GKI_BUF1_SIZE, GKI_BUF1_MAX);
      LayOutPool(2, GKI_BUF2_SIZE, GKI_BUF2_MAX);
      ghost var laid := State();
      for i := 0 to GKI_NUM_FIXED_BUF_POOLS
        invariant State() == laid.(poolList := poolList[..])
        invariant forall k :: 0 <= k < i ==> poolList[k] == k
        invariant forall k :: i <= k < GKI_NUM_TOTAL_BUF_POOLS ==> poolList[k] == 0
      {
        poolList[i] := i;
      }
      curTotal := GKI_NUM_FIXED_BUF_POOLS;
      assert poolList[..] == [0, 1, 2, 0];
    }

    /** `phUwb_gki_init_free_queue` with memory: the headers are laid out
        and chained one buffer at a time. */
    method LayOutPool(id: nat, size: u16, total: u16)
      requires WellFormed(State()) && id < GKI_NUM_TOTAL_BUF_POOLS
      modifies this
      ensures State() == InitFreeQueue(old(State()), id, size, total)
    {
      var chain: seq<Buf> := [];
      var h := hdr;
      InitHdrNone(hdr, id);
      var i: nat := 0;
      while i < total as nat
        invariant i <= total as nat && chain == Slots(id, i) && h == InitHdr(hdr, id, i)
        invariant State() == old(State())
      {
        InitHdrStep(hdr, id, i);
        h := h[Buf(id, i) := Hdr(id, Free)];
        chain := chain + [Buf(id, i)];
        i := i + 1;
      }
      freeq := freeq[id := FreeQueue(AlignPool(size as nat) % 0x1_0000, total, 0, 0, chain)];
      poolStart := poolStart[id := true];
      hdr := h;
    }

    /** `phUwb_gki_alloc_free_queue`. */
    method AllocPool(id: nat, mallocOk: bool) returns (ok: bool)
      requires WellFormed(State()) && id < GKI_NUM_TOTAL_BUF_POOLS
      modifies this
      ensures Checked(State(), ok) == AllocFreeQueue(old(State()), id, mallocOk)
    {
      var q := freeq[poolList[id]];
      if q.free != [] || !mallocOk {
        return false;
      }
      LayOutPool(id, q.size, q.total);
      return true;
    }

    /** Unlinking the head of pool `p`'s free queue. */
    method TakeHead(p: nat) returns (b: Option<Buf>)
      requires WellFormed(State()) && p < GKI_NUM_TOTAL_BUF_POOLS
      requires freeq[p].free != [] && freeq[p].curCnt < freeq[p].total
      modifies this
      ensures Got(State(), b) == Take(old(State()), p)
    {
      var q := freeq[p];
      var h := q.free[0];
      var c := q.curCnt + 1;
      freeq := freeq[p := q.(free := q.free[1..], curCnt := c, maxCnt := if c > q.maxCnt then c else q.maxCnt)];
      hdr := hdr[h := hdr[h].(status := Unlinked)];
      b := Some(h);
    }

    /** Serving from a pool found with room. */
    method ServePool(p: nat, allocIdx: nat, mallocOk: bool) returns (b: Option<Buf>)
      requires WellFormed(State()) && p < GKI_NUM_TOTAL_BUF_POOLS && allocIdx < GKI_NUM_TOTAL_BUF_POOLS
      requires freeq[p].curCnt < freeq[p].total
      modifies this
      ensures Got(State(), b) == ServeFromPool(old(State()), p, allocIdx, mallocOk)
    {
      if freeq[p].free == [] {
        var ok := AllocPool(allocIdx, mallocOk);
        if !ok || freeq[p].free == [] {
          return None;
        }
      }
      b := TakeHead(p);
    }

    /** `phUwb_GKI_getbuf`: a first loop finds the first pool big enough,
        a second the first public one with room from there on. */
    method GetBuf(size: u16, mallocOk: bool) returns (b: Option<Buf>)
      requires WellFormed(State())
      modifies this
      ensures Got(State(), b) == GetBufStep(old(State()), size, mallocOk)
    {
      if size == 0 {
        return None;
      }
      ghost var s0 := State();
      var i := 0;
      while i < curTotal && size > freeq[poolList[i]].size
        invariant i <= curTotal && State() == s0 && FitFrom(s0, size, i) == FitFrom(s0, size, 0)
        decreases curTotal - i
      {
        i := i + 1;
      }
      if i == curTotal {
        return None;
      }
      ghost var i0 := i;
      while i < curTotal
        invariant i0 <= i <= curTotal && State() == s0 && ServeFrom(s0, i) == ServeFrom(s0, i0)
        decreases curTotal - i
      {
        var p := poolList[i];
        if p !in accessMask && freeq[p].curCnt < freeq[p].total {
          b := ServePool(p, i, mallocOk);
          return;
        }
        i := i + 1;
      }
      return None;
    }

    /** `phUwb_GKI_getpoolbuf`. */
    method GetPoolBuf(poolId: u8, mallocOk: bool) returns (b: Option<Buf>)
      requires WellFormed(State())
      modifies this
      ensures Got(State(), b) == GetPoolBufStep(old(State()), poolId, mallocOk)
    {
      if poolId as nat >= GKI_NUM_TOTAL_BUF_POOLS {
        return None;
      }
      if freeq[poolId].curCnt < freeq[poolId].total {
        b := ServePool(poolId as nat, poolId as nat, mallocOk);
      } else {
        b := GetBuf(freeq[poolId].size, mallocOk);
      }
    }

    /** `phUwb_GKI_find_get_poolBuf`: the retry loop over the fixed pools. */
    method FindGetPoolBuf(size: u16, mallocOk: bool) returns (b: Option<Buf>)
      requires WellFormed(State())
      modifies this
      ensures Got(State(), b) == FindGetPoolBufStep(old(State()), size, mallocOk)
    {
      var id := GetPoolId(size);
      if id == 0xFF {
        return None;
      }
      ghost var s0 := State();
      b := GetPoolBuf(id, mallocOk);
      while b.None? && id as nat != GKI_NUM_FIXED_BUF_POOLS - 1
        invariant id as nat < GKI_NUM_FIXED_BUF_POOLS && WellFormed(State())
        invariant FindGetPoolBufStep(s0, size, mallocOk) ==
          if b.Some? || id as nat == GKI_NUM_FIXED_BUF_POOLS - 1 then Got(State(), b) else FindFrom(State(), id as nat + 1, mallocOk)
        decreases GKI_NUM_FIXED_BUF_POOLS - id as nat
      {
        id := id + 1;
        b := GetPoolBuf(id, mallocOk);
      }
    }

    /** `phUwb_GKI_freebuf`; `damaged` is the outcome of the magic-number
        check. */
    method FreeBuf(b: Buf, damaged: bool) returns (ok: bool)
      requires WellFormed(State()) && b in hdr
      modifies this
      ensures Checked(State(), ok) == FreeBufStep(old(State()), b, damaged)
    {
      var h := hdr[b];
      if damaged || h.status != Unlinked || h.qId >= GKI_NUM_TOTAL_BUF_POOLS {
        return false;
      }
      var q := freeq[h.qId];
      freeq := freeq[h.qId := q.(free := q.free + [b], curCnt := if q.curCnt > 0 then q.curCnt - 1 else 0)];
      hdr := hdr[b := h.(status := Free)];
      return true;
    }

    /** `phUwb_GKI_set_pool_permission`. */
    method SetPoolPermission(poolId: u8, permission: u8) returns (status: u8)
      modifies this
      ensures (State(), status) == SetPoolPermissionStep(old(State()), poolId, permission)
    {
      if poolId as nat >= GKI_NUM_TOTAL_BUF_POOLS {
        return GKI_INVALID_POOL;
      }
      if permission == GKI_RESTRICTED_POOL {
        accessMask := accessMask + {poolId as nat};
      } else {
        accessMask := accessMask - {poolId as nat};
      }
      return GKI_SUCCESS;
    }

    /** `phUwb_gki_add_to_pool_list`: find the place by size, shift the
        tail of the in-use list up one entry, and store the pool. */
    method InsertPool(pool: nat)
      requires WellFormed(State()) && pool < GKI_NUM_TOTAL_BUF_POOLS && curTotal < GKI_NUM_TOTAL_BUF_POOLS
      modifies poolList
      ensures poolList[..] == AddToPoolList(freeq, old(poolList[..]), curTotal, pool)
    {
      ghost var l := poolList[..];
      var i := FindInsertPos(pool);
      ShiftUp(i, curTotal);
      poolList[i] := pool;
      InsertedPointwise(poolList[..], l, i, curTotal, pool);
    }

    /** The first loop of `add_to_pool_list`. */
    method FindInsertPos(pool: nat) returns (i: nat)
      requires WellFormed(State()) && pool < GKI_NUM_TOTAL_BUF_POOLS
      ensures i == InsertPos(freeq, poolList[..], pool, curTotal, 0)
    {
      i := 0;
      while i < curTotal && freeq[pool].size > freeq[poolList[i]].size
        invariant i <= curTotal && InsertPos(freeq, poolList[..], pool, curTotal, i) == InsertPos(freeq, poolList[..], pool, curTotal, 0)
        decreases curTotal - i
      {
        i := i + 1;
      }
    }

    /** The second loop of `add_to_pool_list`: entries `i..n-1` move up one
        place. */
    method ShiftUp(i: nat, n: nat)
      requires i <= n < poolList.Length
      modifies poolList
      ensures forall k :: 0 <= k <= i ==> poolList[k] == old(poolList[k])
      ensures forall k :: i < k <= n ==> poolList[k] == old(poolList[k - 1])
      ensures forall k :: n < k < poolList.Length ==> poolList[k] == old(poolList[k])
    {
      var j := n;
      while j > i
        invariant i <= j <= n
        invariant forall k :: 0 <= k <= j ==> poolList[k] == old(poolList[k])
        invariant forall k :: j < k <= n ==> poolList[k] == old(poolList[k - 1])
        invariant forall k :: n < k < poolList.Length ==> poolList[k] == old(poolList[k])
        decreases j
      {
        poolList[j] := poolList[j - 1];
        j := j - 1;
      }
    }

    /** `gki_remove_from_pool_list`: find the pool, then shift the entries
        after it down one place; the last in-use entry keeps its value. */
    method RemovePool(pool: nat)
      requires WellFormed(State())
      modifies poolList
      ensures poolList[..] == RemoveFromPoolList(old(poolList[..]), curTotal, pool)
    {
      ghost var l := poolList[..];
      var n := curTotal;
      var i := 0;
      while i < n && poolList[i] != pool
        invariant i <= n && PoolIndex(l, n, pool, i) == PoolIndex(l, n, pool, 0)
        decreases n - i
      {
        i := i + 1;
      }
      ghost var i0 := i;
      while i + 1 < n
        invariant i0 <= i && (i0 + 1 < n ==> i < n) && (i0 + 1 >= n ==> i == i0)
        invariant forall k :: 0 <= k < i0 ==> poolList[k] == l[k]
        invariant forall k :: i0 <= k < i ==> poolList[k] == l[k + 1]
        invariant forall k :: i <= k < GKI_NUM_TOTAL_BUF_POOLS ==> poolList[k] == l[k]
        decreases n - i
      {
        poolList[i] := poolList[i + 1];
        i := i + 1;
      }
      RemovedPointwise(poolList[..], l, i0, n);
    }

    /** `phUwb_GKI_create_pool`; `memOk` stands for a caller pool or a
        successful `GKI_os_malloc`. */
    method CreatePool(size: u16, count: u16, permission: u8, memOk: bool) returns (id: u8)
      requires Valid(State())
      modifies this, poolList
      ensures Created(State(), id) == CreatePoolStep(old(State()), size, count, permission, memOk)
    {
      if size as nat > MAX_USER_BUF_SIZE {
        return GKI_INVALID_POOL;
      }
      ghost var s0 := State();
      var xx := 0;
      while xx < GKI_NUM_TOTAL_BUF_POOLS && poolStart[xx]
        invariant xx <= GKI_NUM_TOTAL_BUF_POOLS && FirstUnused(s0, xx) == FirstUnused(s0, 0)
        decreases GKI_NUM_TOTAL_BUF_POOLS - xx
      {
        xx := xx + 1;
      }
      if xx == GKI_NUM_TOTAL_BUF_POOLS || !memOk {
        return GKI_INVALID_POOL;
      }
      UnusedLeavesRoom(s0, xx);
      LayOutPool(xx, size, count);
      InsertPool(xx);
      var _ := SetPoolPermission(xx as u8, permission);
      curTotal := curTotal + 1;
      return xx as u8;
    }

    /** `phUwb_GKI_delete_pool`; `ok` is false when the GKI exception is
        raised. */
    method DeletePool(poolId: u8) returns (ok: bool)
      requires Valid(State())
      modifies this, poolList
      ensures Checked(State(), ok) == DeletePoolStep(old(State()), poolId)
    {
      if poolId as nat >= GKI_NUM_TOTAL_BUF_POOLS || !poolStart[poolId] {
        return true;
      }
      if freeq[poolId].curCnt != 0 {
        return false;
      }
      StartedCounted(State(), poolId as nat);
      freeq := freeq[poolId := FreeQueue(0, 0, 0, 0, [])];
      poolStart := poolStart[poolId := false];
      RemovePool(poolId as nat);
      curTotal := curTotal - 1;
      return true;
    }

    /** `phUwb_GKI_enqueue`; `damaged` is the outcome of the magic-number
        check. Only the headers of the control block change. */
    method Enqueue(q: BufferQueue, b: Buf, damaged: bool) returns (ok: bool)
      requires b in hdr
      modifies this, q
      ensures QueueStep(hdr, q.Contents(), ok) == EnqueueStep(old(hdr), old(q.Contents()), b, damaged)
      ensures State() == old(State()).(hdr := hdr)
    {
      if damaged || hdr[b].status != Unlinked {
        return false;
      }
      q.items := q.items + [b];
      q.count := (q.count + 1) % 0x1_0000;
      hdr := hdr[b := hdr[b].(status := Queued)];
      return true;
    }

    /** `phUwb_GKI_dequeue`. Only the headers of the control block change. */
    method Dequeue(q: BufferQueue) returns (b: Option<Buf>)
      requires QueueValid(hdr, q.Contents())
      modifies this, q
      ensures QueueStep(hdr, q.Contents(), true) == DequeueStep(old(hdr), old(q.Contents())).0
      ensures b == DequeueStep(old(hdr), old(q.Contents())).1
      ensures State() == old(State()).(hdr := hdr)
    {
      if q.count == 0 {
        return None;
      }
      var h := q.items[0];
      q.items := q.items[1..];
      q.count := q.count - 1;
      hdr := hdr[h := hdr[h].(status := Unlinked)];
      return Some(h);
    }
  }

  /** `BUFFER_Q`, updated in place by enqueue and dequeue. */
  class BufferQueue {
    var items: seq<Buf>
    var count: u16

    function Contents(): BufferQ
      reads this
    {
      BufferQ(items, count)
    }

    /** `GKI_init_q`: an empty queue. */
    constructor ()
      ensures Contents() == BufferQ([], 0)
    {
      items := [];
      count := 0;
    }
  }
}
