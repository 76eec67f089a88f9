/**
 The bump allocator `static_pool` and the handles that share it. Addresses are
 those of a flat address space of 2^64 bytes.
 */
module FieldsAlloc {
  import opened Wrappers

  const SIZE_T: nat := 0x1_0000_0000_0000_0000

  datatype Block = Block(addr: nat, size: nat)

  predicate Before(a: Block, b: Block) {
    a.addr + a.size <= b.addr
  }

  predicate Disjoint(a: Block, b: Block) {
    Before(a, b) || Before(b, a)
  }

  predicate Between(lo: nat, b: Block, hi: nat) {
    lo <= b.addr && b.addr + b.size <= hi
  }

  ghost predicate NoOverlap(blocks: map<nat, Block>) {
    forall i, j :: i in blocks && j in blocks && i != j ==> Disjoint(blocks[i], blocks[j])
  }

  // ---- the pool as a value ----

  /**
   `base` is the address behind the header, where the `size` bytes of the pool
   begin. `live` holds the blocks not given back, under numbers that are counted
   up in `next` and never used twice.
   */
  datatype Pool = Pool(base: nat, size: nat, p: nat, count: nat, live: map<nat, Block>, next: nat)

  datatype Op = Alloc(n: nat) | Dealloc(id: nat)

  function Empty(base: nat, size: nat): Pool {
    Pool(base, size, base, 0, map[], 0)
  }

  /** `p_ + n`, as the address space has it. */
  function Last(p: Pool, n: nat): nat {
    (p.p + n) % SIZE_T
  }

  /** The outcome of the code: whether `alloc(n)` does not throw. */
  predicate Grants(p: Pool, n: nat) {
    Last(p, n) < p.base + p.size
  }

  /** The outcome intended: whether n bytes are free, and one more. */
  predicate HasRoom(p: Pool, n: nat) {
    p.p + n < p.base + p.size
  }

  /** One call, including those that break the rules of `LegalOp`. */
  function Step(p: Pool, op: Op): Pool {
    match op
    case Alloc(n) =>
      if Grants(p, n) then
        p.(count := (p.count + 1) % SIZE_T, live := p.live[p.next := Block(p.p, n)], next := p.next + 1,
           p := Last(p, n))
      else p
    case Dealloc(id) =>
      var count := if p.count == 0 then SIZE_T - 1 else p.count - 1;
      p.(count := count, live := p.live - {id}, p := if count == 0 then p.base else p.p)
  }

  ghost predicate Sound(p: Pool) {
    && p.base + p.size < SIZE_T
    && p.count == |p.live| < SIZE_T
    && p.base <= p.p
    && (if p.live == map[] then p.p == p.base else p.p < p.base + p.size)
    && (forall i :: i in p.live ==> i < p.next && Between(p.base, p.live[i], p.p))
    && NoOverlap(p.live)
  }

  /** Pointer and counter do not wrap, and only live blocks are given back. */
  predicate LegalOp(p: Pool, op: Op) {
    match op
    case Alloc(n) => p.p + n < SIZE_T && (HasRoom(p, n) ==> |p.live| + 1 < SIZE_T)
    case Dealloc(id) => id in p.live
  }

  /**
   Where the code does what is intended: exactly when the addition to the
   pointer does not wrap.
   */
  lemma OutcomeIsIntended(p: Pool, n: nat)
    requires Sound(p) && n < SIZE_T
    ensures (Grants(p, n) <==> HasRoom(p, n)) <==> p.p + n < SIZE_T
  {
    if p.p + n >= SIZE_T {
      assert Last(p, n) == p.p + n - SIZE_T;
    }
  }

  /** An input on which it does not: far too much is granted, and the pointer moves back. */
  lemma WrappedPointer(base: nat, size: nat)
    requires 0 < base && base + size < SIZE_T
    ensures var p, n := Empty(base, size), 0xffff_ffff_ffff_ffff; var q := Step(p, Alloc(n));
      && Sound(p) && !HasRoom(p, n)
      && q.live == map[0 := Block(base, n)] && q.p == base - 1
  {
    assert base + (SIZE_T - 1) == SIZE_T + (base - 1);
  }

  lemma NoOverlapBehind(blocks: map<nat, Block>, id: nat, b: Block)
    requires NoOverlap(blocks) && id !in blocks && forall i :: i in blocks ==> Before(blocks[i], b)
    ensures NoOverlap(blocks[id := b])
  {
  }

  lemma NoOverlapOfFewer(blocks: map<nat, Block>, id: nat)
    requires NoOverlap(blocks)
    ensures NoOverlap(blocks - {id})
  {
  }

  lemma GrantSound(p: Pool, n: nat)
    requires Sound(p) && HasRoom(p, n) && |p.live| + 1 < SIZE_T
    ensures Sound(Step(p, Alloc(n)))
  {
    hide NoOverlap;
    var live := p.live[p.next := Block(p.p, n)];
    assert Last(p, n) == p.p + n && p.next !in p.live && |live| == |p.live| + 1;
    NoOverlapBehind(p.live, p.next, Block(p.p, n));
    assert Step(p, Alloc(n)) == Pool(p.base, p.size, p.p + n, p.count + 1, live, p.next + 1);
  }

  lemma GrantUnsound(p: Pool, n: nat)
    requires Sound(p) && n < SIZE_T && Grants(p, n)
    requires p.p + n >= SIZE_T || |p.live| + 1 == SIZE_T
    ensures !Sound(Step(p, Alloc(n)))
  {
    hide NoOverlap;
    var q := Step(p, Alloc(n));
    assert q.live[p.next] == Block(p.p, n) && |q.live| == |p.live| + 1;
    if p.p + n >= SIZE_T {
      assert q.p == p.p + n - SIZE_T;
    }
  }

  lemma AllocSound(p: Pool, n: nat)
    requires Sound(p) && n < SIZE_T
    ensures Sound(Step(p, Alloc(n))) <==> LegalOp(p, Alloc(n))
  {
    hide Sound;
    OutcomeIsIntended(p, n);
    if Grants(p, n) {
      if LegalOp(p, Alloc(n)) {
        GrantSound(p, n);
      } else {
        CountBounded(p);
        GrantUnsound(p, n);
      }
    }
  }

  lemma CountBounded(p: Pool)
    requires Sound(p)
    ensures |p.live| < SIZE_T
  {
  }

  lemma DeallocSound(p: Pool, id: nat)
    requires Sound(p)
    ensures Sound(Step(p, Dealloc(id))) <==> LegalOp(p, Dealloc(id))
  {
    hide NoOverlap;
    var q := Step(p, Dealloc(id));
    if id in p.live {
      NoOverlapOfFewer(p.live, id);
      assert p.live == q.live[id := p.live[id]];
      assert |q.live| == |p.live| - 1;
    } else {
      assert q.live == p.live;
    }
  }

  /** A call keeps the invariant exactly when it is legal. */
  lemma StepSound(p: Pool, op: Op)
    requires Sound(p) && (op.Alloc? ==> op.n < SIZE_T)
    ensures Sound(Step(p, op)) <==> LegalOp(p, op)
  {
    match op
    case Alloc(n) => AllocSound(p, n);
    case Dealloc(id) => DeallocSound(p, id);
  }

  /**
   A request for `bytes` bytes, if it is passed on modulo 2^64 and granted, is
   good for all of them exactly when nothing has wrapped.
   */
  lemma Bytes(p: Pool, bytes: nat)
    requires Sound(p)
    ensures bytes <= bytes % SIZE_T <==> bytes < SIZE_T
    ensures Grants(p, bytes % SIZE_T) ==> (HasRoom(p, bytes) <==> p.p + bytes < SIZE_T)
  {
    OutcomeIsIntended(p, bytes % SIZE_T);
  }

  // ---- runs ----

  predicate Legal(p: Pool, ops: seq<Op>)
    decreases ops
  {
    ops == [] || (LegalOp(p, ops[0]) && Legal(Step(p, ops[0]), ops[1..]))
  }

  function Run(p: Pool, ops: seq<Op>): Pool
    decreases ops
  {
    if ops == [] then p else Run(Step(p, ops[0]), ops[1..])
  }

  lemma {:induction false} RunSound(p: Pool, ops: seq<Op>)
    requires Sound(p) && Legal(p, ops)
    ensures Sound(Run(p, ops)) && Run(p, ops).base == p.base && Run(p, ops).size == p.size
    decreases ops
  {
    if ops != [] {
      StepSound(p, ops[0]);
      RunSound(Step(p, ops[0]), ops[1..]);
    }
  }

  /**
   After any legal run from an empty pool, the live blocks lie in the pool, no two
   of them share a byte, and their number is the counter.
   */
  lemma LiveBlocksAreDisjoint(base: nat, size: nat, ops: seq<Op>)
    requires base + size < SIZE_T && Legal(Empty(base, size), ops)
    ensures var p := Run(Empty(base, size), ops);
      && p.count == |p.live|
      && (forall i :: i in p.live ==> base <= p.live[i].addr && p.live[i].addr + p.live[i].size < base + size)
      && NoOverlap(p.live)
  {
    hide Legal, Run, LegalOp, Step;
    RunSound(Empty(base, size), ops);
  }

  /** When nothing is live, the whole pool is there again. */
  lemma EmptyIsFresh(base: nat, size: nat, ops: seq<Op>)
    requires base + size < SIZE_T && Legal(Empty(base, size), ops) && Run(Empty(base, size), ops).live == map[]
    ensures Run(Empty(base, size), ops).(next := 0) == Empty(base, size)
  {
    hide Legal, Run, LegalOp, Step;
    RunSound(Empty(base, size), ops);
  }

  // ---- when space comes back ----

  function GrantedBy(p: Pool, op: Op): seq<Block> {
    if op.Alloc? && Grants(p, op.n) then [Block(p.p, op.n)] else []
  }

  /** What the calls of a run are granted, in their order. */
  function Granted(p: Pool, ops: seq<Op>): seq<Block>
    decreases ops
  {
    if ops == [] then [] else GrantedBy(p, ops[0]) + Granted(Step(p, ops[0]), ops[1..])
  }

  function Total(blocks: seq<Block>): nat {
    if blocks == [] then 0 else blocks[0].size + Total(blocks[1..])
  }

  /** The blocks lie one behind another, from address `a` on. */
  predicate Consecutive(a: nat, blocks: seq<Block>)
    decreases blocks
  {
    blocks == [] || (blocks[0].addr == a && Consecutive(a + blocks[0].size, blocks[1..]))
  }

  /** Some block is live after every step. */
  predicate NeverEmpty(p: Pool, ops: seq<Op>)
    decreases ops
  {
    ops == [] || (Step(p, ops[0]).live != map[] && NeverEmpty(Step(p, ops[0]), ops[1..]))
  }

  lemma OneMoreBehind(a: nat, first: seq<Block>, rest: seq<Block>)
    requires |first| <= 1 && Consecutive(a, first) && Consecutive(a + Total(first), rest)
    ensures Consecutive(a, first + rest) && Total(first + rest) == Total(first) + Total(rest)
  {
    if first == [] {
      assert first + rest == rest;
    } else {
      assert first == [first[0]] && first[1..] == [];
      assert (first + rest)[0] == first[0] && (first + rest)[1..] == rest;
    }
  }

  /** A step that leaves something live moves the pointer by what it grants. */
  lemma PointerMoves(p: Pool, op: Op)
    requires Sound(p) && LegalOp(p, op) && Step(p, op).live != map[]
    ensures |GrantedBy(p, op)| <= 1 && Consecutive(p.p, GrantedBy(p, op))
    ensures Step(p, op).p == p.p + Total(GrantedBy(p, op))
  {
    hide NoOverlap;
    if op.Alloc? {
      OutcomeIsIntended(p, op.n);
    } else {
      CountAfter(p, op.id);
    }
  }

  lemma CountAfter(p: Pool, id: nat)
    requires Sound(p) && id in p.live && Step(p, Dealloc(id)).live != map[]
    ensures Step(p, Dealloc(id)).p == p.p
  {
    hide NoOverlap;
    StepSound(p, Dealloc(id));
    assert Step(p, Dealloc(id)).count != 0;
  }

  lemma StepGrantsBehind(p: Pool, op: Op, rest: seq<Block>)
    requires Sound(p) && LegalOp(p, op) && Step(p, op).live != map[] && Consecutive(Step(p, op).p, rest)
    ensures Consecutive(p.p, GrantedBy(p, op) + rest)
    ensures Step(p, op).p + Total(rest) == p.p + Total(GrantedBy(p, op) + rest)
  {
    hide Sound, LegalOp, Step, GrantedBy, Consecutive, Total;
    PointerMoves(p, op);
    OneMoreBehind(p.p, GrantedBy(p, op), rest);
  }

  /**
   While the pool is not empty nothing is reused: what is granted lies one behind
   another, from where the pointer stood to where it stands.
   */
  lemma {:induction false} NothingIsReused(p: Pool, ops: seq<Op>)
    requires Sound(p) && Legal(p, ops) && NeverEmpty(p, ops)
    ensures Consecutive(p.p, Granted(p, ops))
    ensures Run(p, ops).p == p.p + Total(Granted(p, ops))
    decreases ops
  {
    if ops != [] {
      hide Sound, LegalOp, Step, Grants, GrantedBy, Consecutive, Total;
      StepSound(p, ops[0]);
      NothingIsReused(Step(p, ops[0]), ops[1..]);
      StepGrantsBehind(p, ops[0], Granted(Step(p, ops[0]), ops[1..]));
    }
  }

  /**
   Between two empty moments, the pool has room for n bytes exactly as long as
   they and all bytes granted so far stay below its size.
   */
  lemma FailsWhenFull(p: Pool, ops: seq<Op>, n: nat)
    requires Sound(p) && p.live == map[] && Legal(p, ops) && NeverEmpty(p, ops)
    requires Run(p, ops).p + n < SIZE_T
    ensures Run(p, ops).p - p.base == Total(Granted(p, ops))
    ensures Grants(Run(p, ops), n) <==> Total(Granted(p, ops)) + n < p.size
  {
    hide Legal, NeverEmpty, Run, Granted, Total;
    NothingIsReused(p, ops);
    RunSound(p, ops);
    OutcomeIsIntended(Run(p, ops), n);
  }

  // ---- one block ----

  lemma StepKeepsBlock(p: Pool, op: Op, id: nat)
    requires Sound(p) && LegalOp(p, op) && id in p.live && op != Dealloc(id)
    ensures id in Step(p, op).live && Step(p, op).live[id] == p.live[id]
    ensures forall k :: 0 <= k < |GrantedBy(p, op)| ==> Before(p.live[id], GrantedBy(p, op)[k])
  {
    hide NoOverlap;
  }

  /**
   Until it is given back, a live block stays where it is, and nothing that is
   granted meanwhile shares a byte with it.
   */
  lemma {:induction false} LiveBlockIsKept(p: Pool, ops: seq<Op>, id: nat)
    requires Sound(p) && Legal(p, ops) && id in p.live && Dealloc(id) !in ops
    ensures id in Run(p, ops).live && Run(p, ops).live[id] == p.live[id]
    ensures forall k :: 0 <= k < |Granted(p, ops)| ==> Before(p.live[id], Granted(p, ops)[k])
    decreases ops
  {
    if ops != [] {
      hide Sound, LegalOp, Step, GrantedBy, Before;
      assert Dealloc(id) !in ops[1..];
      StepSound(p, ops[0]);
      StepKeepsBlock(p, ops[0], id);
      LiveBlockIsKept(Step(p, ops[0]), ops[1..], id);
    }
  }

  /** So what an allocation returns is safe to use until it is given back. */
  lemma AllocationIsSafe(p: Pool, n: nat, ops: seq<Op>)
    requires Sound(p) && LegalOp(p, Alloc(n)) && Grants(p, n)
    requires Legal(Step(p, Alloc(n)), ops) && Dealloc(p.next) !in ops
    ensures var q := Run(Step(p, Alloc(n)), ops);
      && p.next in q.live && q.live[p.next] == Block(p.p, n)
      && (forall i :: i in q.live && i != p.next ==> Disjoint(q.live[i], Block(p.p, n)))
    ensures forall k :: 0 <= k < |Granted(Step(p, Alloc(n)), ops)| ==>
      Before(Block(p.p, n), Granted(Step(p, Alloc(n)), ops)[k])
  {
    hide Legal, Run, Granted;
    StepSound(p, Alloc(n));
    LiveBlockIsKept(Step(p, Alloc(n)), ops, p.next);
    RunSound(Step(p, Alloc(n)), ops);
  }

  // ---- the pool as an object ----

  class StaticPool {
    const base: nat
    const size: nat
    var refs: nat
    var count: nat
    var p: nat

    ghost var live: map<nat, Block>
    ghost var next: nat

    ghost function Value(): Pool
      reads this
    {
      Pool(base, size, p, count, live, next)
    }

    ghost predicate Valid()
      reads this
    {
      Sound(Value())
    }

    /** `base` is where the memory found for the pool begins. */
    constructor (base: nat, size: nat)
      requires base + size < SIZE_T
      ensures Valid() && refs == 1 && Value() == Empty(base, size)
    {
      this.base, this.size := base, size;
      refs, count, p := 1, 0, base;
      live, next := map[], 0;
    }

    /** None stands for the exception `bad_alloc`. */
    method Alloc(n: nat) returns (r: Option<nat>)
      requires Valid() && n < SIZE_T
      modifies `count, `p, `live, `next
      ensures Value() == Step(old(Value()), Op.Alloc(n))
      ensures Valid() <==> LegalOp(old(Value()), Op.Alloc(n))
      ensures old(p) + n < SIZE_T ==> r == if HasRoom(old(Value()), n) then Some(old(p)) else None
      ensures old(p) + n >= SIZE_T ==> r == Some(old(p)) && p < old(p)
      ensures r.None? ==> Value() == old(Value())
    {
      hide Sound;
      StepSound(Value(), Op.Alloc(n));
      OutcomeIsIntended(Value(), n);
      var last := (p + n) % SIZE_T;
      if last >= base + size {
        return None;
      }
      count := (count + 1) % SIZE_T;
      r := Some(p);
      live, next := live[next := Block(p, n)], next + 1;
      p := last;
    }

    /** Does not say which block it gives back; `id` is the one its caller means. */
    method Dealloc(ghost id: nat)
      requires Valid()
      modifies `count, `p, `live
      ensures Value() == Step(old(Value()), Op.Dealloc(id))
      ensures Valid() <==> id in old(live)
    {
      hide Sound;
      StepSound(Value(), Op.Dealloc(id));
      live := live - {id};
      count := if count == 0 then SIZE_T - 1 else count - 1;
      if count != 0 {
        return;
      }
      p := base;
    }

    method Share()
      modifies `refs
      ensures refs == old(refs) + 1
    {
      refs := refs + 1;
    }

    /** `freed` says whether the memory of the pool is given back. */
    method Destroy() returns (freed: bool)
      modifies `refs
      ensures freed == (old(refs) == 0)
      ensures refs == if old(refs) == 0 then SIZE_T - 1 else old(refs) - 1
    {
      var before := refs;
      refs := if refs == 0 then SIZE_T - 1 else refs - 1;
      freed := before == 0;
    }

    /** Makes the calls `ops`, until one of them frees the pool. */
    method ShareAndDestroy(ops: seq<Ref>) returns (freed: bool)
      modifies `refs
      ensures freed == Frees(old(refs), ops)
      ensures !freed ==> refs == old(refs) + Balance(ops)
    {
      freed := false;
      var k := 0;
      assert ops[0..] == ops && Balance(ops[..0]) == 0;
      while k < |ops| && !freed
        invariant k <= |ops|
        invariant !freed ==> refs == old(refs) + Balance(ops[..k]) && Frees(refs, ops[k..]) == Frees(old(refs), ops)
        invariant freed ==> Frees(old(refs), ops)
        decreases |ops| - k
      {
        BalanceOneMore(ops, k);
        if ops[k].Share? {
          Share();
        } else {
          freed := Destroy();
        }
        k := k + 1;
      }
      assert ops[..|ops|] == ops;
    }
  }

  /** A handle `fields_alloc<T>`, where `elementSize` is `sizeof(T)`. */
  class Handle {
    const pool: StaticPool
    const elementSize: nat

    constructor (base: nat, size: nat, elementSize: nat)
      requires base + size < SIZE_T
      ensures fresh(pool) && pool.Valid() && pool.Value() == Empty(base, size) && pool.refs == 1
      ensures this.elementSize == elementSize
    {
      pool := new StaticPool(base, size);
      this.elementSize := elementSize;
    }

    /** The copy constructors, also between element types. */
    constructor Copy(other: Handle, elementSize: nat)
      modifies other.pool`refs
      ensures pool == other.pool && pool.refs == old(other.pool.refs) + 1
      ensures this.elementSize == elementSize
    {
      pool := other.pool;
      this.elementSize := elementSize;
      new;
      other.pool.Share();
    }

    method Destroy() returns (freed: bool)
      modifies pool`refs
      ensures freed == (old(pool.refs) == 0)
      ensures pool.refs == if old(pool.refs) == 0 then SIZE_T - 1 else old(pool.refs) - 1
    {
      freed := pool.Destroy();
    }

    /**
     The size in bytes is computed in `size_t`. Of a block that is granted, all n
     elements lie in the pool exactly when neither this product nor the pointer
     wraps.
     */
    method Allocate(n: nat) returns (r: Option<nat>)
      requires pool.Valid()
      modifies pool`count, pool`p, pool`live, pool`next
      ensures pool.Value() == Step(old(pool.Value()), Op.Alloc(n * elementSize % SIZE_T))
      ensures pool.Valid() <==> LegalOp(old(pool.Value()), Op.Alloc(n * elementSize % SIZE_T))
      ensures r == if Grants(old(pool.Value()), n * elementSize % SIZE_T) then Some(old(pool.p)) else None
      ensures r.Some? ==> old(pool.next) in pool.live && pool.live[old(pool.next)].addr == r.value
      ensures r.Some? ==> (n * elementSize <= pool.live[old(pool.next)].size <==> n * elementSize < SIZE_T)
      ensures r.Some? ==> (HasRoom(old(pool.Value()), n * elementSize) <==> r.value + n * elementSize < SIZE_T)
    {
      hide Sound, Legal, Run;
      Bytes(pool.Value(), n * elementSize);
      r := pool.Alloc(n * elementSize % SIZE_T);
    }

    method Deallocate(ghost id: nat)
      requires pool.Valid()
      modifies pool`count, pool`p, pool`live
      ensures pool.Value() == Step(old(pool.Value()), Op.Dealloc(id))
      ensures pool.Valid() <==> id in old(pool.live)
    {
      pool.Dealloc(id);
    }
  }

  // ---- the reference count ----

  datatype Ref = Share | Destroy

  /** Whether a run of handle copies and destructions frees the pool. */
  function Frees(refs: nat, ops: seq<Ref>): bool
    decreases ops
  {
    if ops == [] then false
    else if ops[0].Share? then Frees(refs + 1, ops[1..])
    else refs == 0 || Frees(refs - 1, ops[1..])
  }

  function Destroys(ops: seq<Ref>): nat {
    if ops == [] then 0 else (if ops[0].Destroy? then 1 else 0) + Destroys(ops[1..])
  }

  /** Handles that exist after a run, beyond those at its start. */
  function Balance(ops: seq<Ref>): int {
    |ops| - 2 * Destroys(ops)
  }

  lemma {:induction false} DestroysOneMore(ops: seq<Ref>, last: Ref)
    ensures Destroys(ops + [last]) == Destroys(ops) + if last.Destroy? then 1 else 0
  {
    if ops != [] {
      assert (ops + [last])[1..] == ops[1..] + [last];
      DestroysOneMore(ops[1..], last);
    }
  }

  lemma BalanceOneMore(ops: seq<Ref>, k: nat)
    requires k < |ops|
    ensures Balance(ops[..k + 1]) == Balance(ops[..k]) + if ops[k].Share? then 1 else -1
    ensures ops[k..][1..] == ops[k + 1..]
  {
    assert ops[..k + 1] == ops[..k] + [ops[k]];
    DestroysOneMore(ops[..k], ops[k]);
  }

  /** Frees exactly when one more handle is destroyed than there are. */
  lemma {:induction false} FreesOneTooLate(refs: nat, ops: seq<Ref>)
    ensures Frees(refs, ops) <==> exists k :: 0 <= k <= |ops| && refs + Balance(ops[..k]) < 0
    decreases ops
  {
    if ops != [] {
      var d := if ops[0].Share? then 1 else -1;
      forall k | 0 < k <= |ops|
        ensures Balance(ops[..k]) == d + Balance(ops[1..][..k - 1])
      {
        assert ops[..k][1..] == ops[1..][..k - 1];
      }
      if refs + d >= 0 {
        FreesOneTooLate(refs + d, ops[1..]);
        if k' :| 0 <= k' <= |ops[1..]| && refs + d + Balance(ops[1..][..k']) < 0 {
          assert refs + Balance(ops[..k' + 1]) < 0;
        }
      } else {
        assert ops[1..][..0] == [];
        assert refs + Balance(ops[..1]) < 0;
      }
    }
  }

  // ---- handles that come and go ----

  /** One handle is copied, or one is destroyed. */
  datatype Event = Copied(other: nat, elementSize: nat) | Destroyed(which: nat)

  /** Every event is about one of the handles that exist then. */
  predicate Possible(handles: nat, events: seq<Event>)
    decreases events
  {
    events == [] ||
    match events[0]
    case Copied(i, _) => i < handles && Possible(handles + 1, events[1..])
    case Destroyed(i) => i < handles && Possible(handles - 1, events[1..])
  }

  /**
   From the first handle on, through copies and destructions in any order and
   down to no handle at all, the count is the number of handles, and the pool is
   never freed.
   */
  method Lifetimes(base: nat, size: nat, elementSize: nat, events: seq<Event>)
    returns (pool: StaticPool, handles: seq<Handle>, freed: bool)
    requires base + size < SIZE_T && Possible(1, events)
    ensures !freed && pool.refs == |handles|
    ensures forall i :: 0 <= i < |handles| ==> handles[i].pool == pool
  {
    var first := new Handle(base, size, elementSize);
    pool, handles, freed := first.pool, [first], false;
    var k := 0;
    while k < |events|
      invariant k <= |events| && Possible(|handles|, events[k..])
      invariant fresh(pool) && !freed && pool.refs == |handles|
      invariant forall i :: 0 <= i < |handles| ==> handles[i].pool == pool
    {
      assert events[k..][1..] == events[k + 1..];
      if events[k].Copied? {
        var copy := new Handle.Copy(handles[events[k].other], events[k].elementSize);
        handles := handles + [copy];
      } else {
        var i := events[k].which;
        var now := handles[i].Destroy();
        freed := freed || now;
        handles := handles[..i] + handles[i + 1..];
      }
      k := k + 1;
    }
  }
}
