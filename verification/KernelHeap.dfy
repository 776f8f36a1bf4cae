/** The kernel heap's operations. Which pages the page allocator hands out is the caller's to say. */
module KernelHeap {
  import opened Base
  import opened Queues
  import opened HeapModel

  const ALIGNED_BUCKETS: nat := 64

  /** The size of the record kept for a page-aligned allocation. */
  const RECORD_SIZE: nat := 24

  datatype Outcome = Done | Nothing | Panicked

  /** `chunk` is where the record itself lies. */
  datatype Record = Record(address: nat, pages: nat, chunk: nat)

  function PagesFor(bytes: nat): nat {
    (bytes + PAGE_SIZE - 1) / PAGE_SIZE
  }

  function BucketOf(address: nat): nat {
    (address / PAGE_SIZE) % ALIGNED_BUCKETS
  }

  /** The blocks handed out and not given back. */
  ghost function LiveOf(p: Plan): map<nat, Status> {
    map a | a in p.blocks && !p.blocks[a].Free? :: p.blocks[a]
  }

  /** Fresh pages: aligned, not null, and nobody's. */
  ghost predicate FreshPages(p: Plan, run: Option<nat>, pages: nat) {
    run.Some? ==> run.value > 0 && run.value % PAGE_SIZE == 0 && Unowned(p, run.value, pages * PAGE_SIZE)
  }

  predicate InSpan(g: int, a: nat, length: nat) {
    a <= g * GRANULE < a + length
  }

  /** The heap's memory is what it was, and at most what was given to it. */
  ghost predicate Took(p: Plan, p': Plan, page: Option<nat>, run: Option<nat>, pages: nat) {
    forall g {:trigger g in p'.owner} :: g in p'.owner ==>
      || g in p.owner || (page.Some? && InSpan(g, page.value, PAGE_SIZE))
      || (run.Some? && InSpan(g, run.value, pages * PAGE_SIZE))
  }

  /** The heap's memory is no more than it was. */
  ghost predicate Shrank(p: Plan, p': Plan) {
    forall g {:trigger g in p'.owner} :: g in p'.owner ==> g in p.owner
  }

  lemma TookChunk(p0: Plan, p: Plan, p': Plan, base: nat, size: nat, i: nat)
    requires Took(p0, p, Some(base), None, 0) && (i + 1) * size <= PAGE_SIZE
    requires p'.owner == Claimed(p, base + i * size, size).owner
    ensures Took(p0, p', Some(base), None, 0)
  {
    assert (i + 1) * size == i * size + size;
    TookPart(p0, p, p', base, i * size, size);
  }

  lemma TookPart(p0: Plan, p: Plan, p': Plan, base: nat, offset: nat, size: nat)
    requires Took(p0, p, Some(base), None, 0) && offset + size <= PAGE_SIZE
    requires p'.owner == Claimed(p, base + offset, size).owner
    ensures Took(p0, p', Some(base), None, 0)
  {
    forall g | g in p'.owner ensures g in p0.owner || InSpan(g, base, PAGE_SIZE) {
      if g !in p.owner { assert InSpan(g, base + offset, size); }
    }
  }

  predicate Disjoint(a: nat, length: nat, b: nat, other: nat) {
    a + length <= b || b + other <= a
  }

  /** Claiming memory leaves the rest as unowned as it was. */
  lemma UnownedBeside(p: Plan, a: nat, length: nat, b: nat, other: nat)
    requires Unowned(p, b, other) && Disjoint(a, length, b, other)
    ensures Unowned(Claimed(p, a, length), b, other)
  {
  }

  ghost predicate NoneFree(p: Plan, c: nat) {
    forall a :: a in p.blocks ==> p.blocks[a] != Free(c)
  }

  lemma EmptyHead(h: Heap, p: Plan, c: nat)
    requires HeapOk(h, p) && c < CLASS_COUNT
    ensures h.heads[c] == 0 <==> NoneFree(p, c)
  {
    assert ListOk(h, p, c);
    if h.heads[c] != 0 { assert p.lists[c][0] in p.lists[c]; }
  }

  /** Nothing to give: the class has no free block and no page comes, or no run of pages comes. */
  ghost predicate OutOfMemory(p: Plan, size: nat, page: Option<nat>, run: Option<nat>) {
    exists c: nat :: IsClassFor(size, c) && if c == CLASS_LARGE then run.None? else page.None? && NoneFree(p, c)
  }

  lemma ClassIs(p: Plan, size: nat, page: Option<nat>, run: Option<nat>, c: nat)
    requires IsClassFor(size, c)
    ensures OutOfMemory(p, size, page, run) <==> if c == CLASS_LARGE then run.None? else page.None? && NoneFree(p, c)
  {
    if d: nat :| IsClassFor(size, d) && d != c {
      if c < CLASS_COUNT { ChunkBound(c); }
      if d < CLASS_COUNT { ChunkBound(d); }
    }
  }

  /** The block is the run of pages, as many as it needs. */
  ghost predicate IsRun(p: Plan, run: Option<nat>, pointer: nat, size: nat) {
    && run.Some? && pointer == run.value + HEADER_SIZE && run.value in LiveOf(p)
    && LiveOf(p)[run.value] == Large(PagesFor(size + HEADER_SIZE), size)
  }

  // --- refilling a class

  /** The rest of the page, from chunk `i` on, is still nobody's. */
  ghost predicate Carving(h: Heap, p: Plan, base: nat, size: nat, i: nat) {
    HeapOk(h, p) && i * size <= PAGE_SIZE && Unowned(p, base + i * size, PAGE_SIZE - i * size)
  }

  lemma CarveStep(h: Heap, p: Plan, c: nat, base: nat, i: nat) returns (p': Plan)
    requires c < CLASS_COUNT && base > 0 && base % GRANULE == 0 && (i + 1) * ChunkSize(c) <= PAGE_SIZE &&
      i * ChunkSize(c) <= PAGE_SIZE
    requires Carving(h, p, base, ChunkSize(c), i)
    ensures Carving(PushHeap(h, c, base + i * ChunkSize(c)), p', base, ChunkSize(c), i + 1)
    ensures LiveOf(p') == LiveOf(p) && Total(p'.blocks) == Total(p.blocks)
    ensures p'.owner == Claimed(p, base + i * ChunkSize(c), ChunkSize(c)).owner
  {
    var size := ChunkSize(c);
    var a := base + i * size;
    assert a + size == base + (i + 1) * size;
    ChunkAligned(c, i);
    CarveOne(h, p, c, a, PAGE_SIZE - i * size);
    p' := PushPlan(Claimed(p, a, size), c, a);
  }

  /** One chunk cut off the front of memory that is nobody's. */
  lemma CarveOne(h: Heap, p: Plan, c: nat, a: nat, length: nat)
    requires HeapOk(h, p) && c < CLASS_COUNT && a > 0 && a % GRANULE == 0 && ChunkSize(c) <= length &&
      Unowned(p, a, length)
    ensures var p' := PushPlan(Claimed(p, a, ChunkSize(c)), c, a);
      && HeapOk(PushHeap(h, c, a), p') && Unowned(p', a + ChunkSize(c), length - ChunkSize(c))
      && LiveOf(p') == LiveOf(p) && Total(p'.blocks) == Total(p.blocks)
  {
    var size := ChunkSize(c);
    ClaimKeeps(h, p, a, size);
    FreshBlock(h, p, a, length);
    PushKeeps(h, Claimed(p, a, size), c, a);
    TotalPut(p.blocks, a, Free(c));
    UnownedBeside(p, a, size, a + size, length - size);
  }

  /** A refill under way: nothing but free chunks has been added, and the memory set apart is untouched. */
  ghost predicate Refilling(p0: Plan, h: Heap, p: Plan, c: nat, base: nat, i: nat, away: nat, other: nat) {
    && c < CLASS_COUNT && base > 0 && base % GRANULE == 0 && Carving(h, p, base, ChunkSize(c), i)
    && LiveOf(p) == LiveOf(p0) && Total(p.blocks) == Total(p0.blocks)
    && Unowned(p, away, other) && Disjoint(base, PAGE_SIZE, away, other) && Took(p0, p, Some(base), None, 0)
  }

  lemma RefillStep(p0: Plan, h: Heap, p: Plan, c: nat, base: nat, i: nat, away: nat, other: nat) returns (p': Plan)
    requires Refilling(p0, h, p, c, base, i, away, other) && i < PAGE_SIZE / ChunkSize(c)
    ensures Refilling(p0, PushHeap(h, c, base + i * ChunkSize(c)), p', c, base, i + 1, away, other)
  {
    var size := ChunkSize(c);
    ChunkFits(c, i);
    p' := CarveStep(h, p, c, base, i);
    assert (i + 1) * size == i * size + size;
    UnownedBeside(p, base + i * size, size, away, other);
    TookChunk(p0, p, p', base, size, i);
  }

  lemma MultipleAligned(i: nat, k: nat)
    ensures (i * (k * GRANULE)) % GRANULE == 0
  {
    assert i * (k * GRANULE) == (i * k) * GRANULE;
  }

  lemma ChunkAligned(c: nat, i: nat)
    requires c < CLASS_COUNT
    ensures (i * ChunkSize(c)) % GRANULE == 0
  {
    MultipleAligned(i, [1, 2, 4, 8, 16, 32, 64][c]);
  }

  /** Where nobody owns anything, no block starts. */
  lemma FreshBlock(h: Heap, p: Plan, a: nat, length: nat)
    requires HeapOk(h, p) && a % GRANULE == 0 && length > 0 && Unowned(p, a, length)
    ensures a !in p.blocks
  {
    var g := a / GRANULE;
    assert g * GRANULE == a && g !in p.owner;
    assert a in p.blocks ==> Placed(p, a);
    assert !Owns(p, g, a);
  }

  // --- the records of aligned allocations

  ghost predicate RecordOk(p: Plan, held: map<nat, nat>, b: nat, r: Record) {
    && BucketOf(r.address) == b && r.address in p.blocks && p.blocks[r.address] == Aligned(r.pages)
    && r.chunk in p.blocks && p.blocks[r.chunk].Small? && p.blocks[r.chunk].size == RECORD_SIZE && r.chunk in held &&
      held[r.chunk] == r.address
  }

  ghost predicate BucketOk(p: Plan, held: map<nat, nat>, bucket: seq<Record>, b: nat) {
    && (forall i {:trigger bucket[i]} :: 0 <= i < |bucket| ==> RecordOk(p, held, b, bucket[i]))
    && (forall i, j :: 0 <= i < j < |bucket| ==> bucket[i].address != bucket[j].address)
  }

  ghost predicate Recorded(buckets: seq<seq<Record>>, a: nat)
    requires |buckets| == ALIGNED_BUCKETS
  {
    exists i :: 0 <= i < |buckets[BucketOf(a)]| && buckets[BucketOf(a)][i].address == a
  }

  /** Each aligned block has its record, in its bucket, and each record its own chunk. */
  ghost predicate BucketsOk(p: Plan, held: map<nat, nat>, buckets: seq<seq<Record>>) {
    && |buckets| == ALIGNED_BUCKETS
    && (forall b {:trigger BucketOk(p, held, buckets[b], b)} :: 0 <= b < ALIGNED_BUCKETS ==>
      BucketOk(p, held, buckets[b], b))
    && (forall a :: a in p.blocks && p.blocks[a].Aligned? ==> Recorded(buckets, a))
    && (forall k :: k in held ==> k in p.blocks && p.blocks[k].Small?)
  }

  lemma LiveIff(p: Plan, a: nat, st: Status)
    ensures a in LiveOf(p) && LiveOf(p)[a] == st <==> a in p.blocks && p.blocks[a] == st && !st.Free?
  {
  }

  /** Records depend on live blocks only. */
  lemma BucketsKept(p: Plan, p': Plan, held: map<nat, nat>, buckets: seq<seq<Record>>, skip: set<nat>)
    requires BucketsOk(p, held, buckets)
    requires forall a :: a in skip ==>
      && a !in held && (a in p.blocks ==> !p.blocks[a].Aligned?)
      && (a in p'.blocks ==> !p'.blocks[a].Aligned?)
    requires forall x :: x !in skip ==>
      && (x in LiveOf(p) <==> x in LiveOf(p'))
      && (x in LiveOf(p) ==> LiveOf(p')[x] == LiveOf(p)[x])
    ensures BucketsOk(p', held, buckets)
  {
    forall b | 0 <= b < ALIGNED_BUCKETS ensures BucketOk(p', held, buckets[b], b) {
      assert BucketOk(p, held, buckets[b], b);
      forall i | 0 <= i < |buckets[b]| ensures RecordOk(p', held, b, buckets[b][i]) {
        var r := buckets[b][i];
        assert RecordOk(p, held, b, r);
        assert r.address in LiveOf(p) && r.chunk in LiveOf(p);
      }
    }
    forall x | x in p'.blocks && p'.blocks[x].Aligned? ensures Recorded(buckets, x) { assert x in LiveOf(p'); }
    forall k | k in held ensures k in p'.blocks && p'.blocks[k].Small? { assert k in LiveOf(p); }
  }

  lemma PageAligned(a: nat)
    requires a % PAGE_SIZE == 0
    ensures a % GRANULE == 0
  {
  }

  lemma PagesEnough(bytes: nat)
    ensures bytes <= PagesFor(bytes) * PAGE_SIZE && (bytes > 0 ==> PagesFor(bytes) > 0)
  {
  }

  class Allocator {
    var h: Heap
    var bytesInUse: nat
    var bytesReserved: int
    var allocations: nat
    var frees: nat
    var buckets: seq<seq<Record>>
    ghost var plan: Plan
    /** The chunks that hold records, and whose. */
    ghost var held: map<nat, nat>

    ghost predicate Sound()
      reads this
    {
      HeapOk(h, plan) && bytesInUse == Total(plan.blocks)
    }

    ghost predicate Valid()
      reads this
    {
      Sound() && BucketsOk(plan, held, buckets)
    }

    constructor ()
      ensures Valid() && LiveOf(plan) == map[] && bytesInUse == 0 && plan.owner == map[]
    {
      h := Heap(map[], seq(CLASS_COUNT, _ => 0));
      bytesInUse, bytesReserved, allocations, frees := 0, 0, 0, 0;
      buckets := seq(ALIGNED_BUCKETS, _ => []);
      plan := Plan(map[], seq(CLASS_COUNT, _ => []), map[]);
      held := map[];
    }

    /** `refill_class`: a page cut into chunks, all free. */
    method Refill(c: nat, page: Option<nat>, ghost away: nat, ghost other: nat) returns (ok: bool)
      requires Sound() && c < CLASS_COUNT && FreshPages(plan, page, 1)
      requires Unowned(plan, away, other) && (page.Some? ==> Disjoint(page.value, PAGE_SIZE, away, other))
      modifies this`h, this`plan, this`bytesReserved
      ensures Sound() && LiveOf(plan) == LiveOf(old(plan)) && ok == page.Some? && Unowned(plan, away, other)
      ensures ok ==> h.heads[c] != 0
      ensures !ok ==> h == old(h) && plan == old(plan)
      ensures Took(old(plan), plan, page, None, 0)
    {
      if page.None? { return false; }
      var base, size := page.value, ChunkSize(c);
      var count := PAGE_SIZE / size;
      assert 0 * size == 0;
      for i := 0 to count
        invariant Refilling(old(plan), h, plan, c, base, i, away, other)
        invariant i > 0 ==> h.heads[c] != 0
      {
        ghost var p' := RefillStep(old(plan), h, plan, c, base, i, away, other);
        h := PushHeap(h, c, base + i * size);
        plan := p';
      }
      bytesReserved := bytesReserved + PAGE_SIZE;
      return true;
    }

    /**
     * `kmalloc`, without the records: `page` and `run` are what the page allocator would give. Memory
     * that is not the heap's and in neither stays so.
     */
    method Allocate(size: nat, page: Option<nat>, run: Option<nat>, ghost away: nat, ghost other: nat)
      returns (r: Option<nat>)
      requires Sound() && FreshPages(plan, page, 1) && FreshPages(plan, run, PagesFor(size + HEADER_SIZE))
      requires Unowned(plan, away, other) && (page.Some? ==> Disjoint(page.value, PAGE_SIZE, away, other))
      requires run.Some? ==> Disjoint(run.value, PagesFor(size + HEADER_SIZE) * PAGE_SIZE, away, other)
      modifies this`h, this`plan, this`bytesInUse, this`bytesReserved, this`allocations
      ensures Sound() && Unowned(plan, away, other)
      ensures r.None? ==> LiveOf(plan) == LiveOf(old(plan)) && bytesInUse == old(bytesInUse)
      ensures r.Some? ==> HandedOut(old(plan), plan, r.value, size) && bytesInUse == old(bytesInUse) + size
      ensures r.None? <==> size == 0 || OutOfMemory(old(plan), size, page, run)
      ensures Took(old(plan), plan, page, run, PagesFor(size + HEADER_SIZE))
      ensures r.Some? && size + HEADER_SIZE > 2048 ==> IsRun(plan, run, r.value, size)
    {
      if size == 0 { return None; }
      var c := ClassFor(size);
      ClassIs(plan, size, page, run, c);
      if c == CLASS_LARGE {
        if run.None? { return None; }
        r := AllocateRun(size, run.value, away, other);
        return;
      }
      ChunkBound(c);
      r := AllocateChunk(c, size, page, away, other);
    }

    method AllocateChunk(c: nat, size: nat, page: Option<nat>, ghost away: nat, ghost other: nat)
      returns (r: Option<nat>)
      requires Sound() && c < CLASS_COUNT && 0 < size && size + HEADER_SIZE <= ChunkSize(c) && FreshPages(plan, page, 1)
      requires Unowned(plan, away, other) && (page.Some? ==> Disjoint(page.value, PAGE_SIZE, away, other))
      modifies this`h, this`plan, this`bytesInUse, this`bytesReserved, this`allocations
      ensures Sound() && Unowned(plan, away, other) && (r.None? <==> page.None? && NoneFree(old(plan), c))
      ensures Took(old(plan), plan, page, None, 0)
      ensures r.None? ==> LiveOf(plan) == LiveOf(old(plan)) && bytesInUse == old(bytesInUse)
      ensures r.Some? ==> HandedOut(old(plan), plan, r.value, size) && bytesInUse == old(bytesInUse) + size
    {
      EmptyHead(h, plan, c);
      if h.heads[c] == 0 {
        var ok := Refill(c, page, away, other);
        if !ok { return None; }
      }
      PopHandsOut(h, plan, c, size);
      var a := h.heads[c];
      h := PopHeap(h, c, size);
      plan := PopPlan(plan, c, size);
      bytesInUse := bytesInUse + size;
      allocations := allocations + 1;
      return Some(a + HEADER_SIZE);
    }

    method AllocateRun(size: nat, run: nat, ghost away: nat, ghost other: nat) returns (r: Option<nat>)
      requires Sound() && size + HEADER_SIZE > 2048 && FreshPages(plan, Some(run), PagesFor(size + HEADER_SIZE))
      requires Unowned(plan, away, other) && Disjoint(run, PagesFor(size + HEADER_SIZE) * PAGE_SIZE, away, other)
      modifies this`h, this`plan, this`bytesInUse, this`bytesReserved, this`allocations
      ensures Sound() && r == Some(run + HEADER_SIZE) && Unowned(plan, away, other)
      ensures HandedOut(old(plan), plan, run + HEADER_SIZE, size) && bytesInUse == old(bytesInUse) + size
      ensures Took(old(plan), plan, None, Some(run), PagesFor(size + HEADER_SIZE))
      ensures IsRun(plan, Some(run), run + HEADER_SIZE, size)
    {
      RunHandsOut(h, plan, run, size);
      UnownedBeside(plan, run, PagesFor(size + HEADER_SIZE) * PAGE_SIZE, away, other);
      plan := RunPlan(plan, run, PagesFor(size + HEADER_SIZE), Large(PagesFor(size + HEADER_SIZE), size));
      h := RunHeap(h, run, size);
      bytesInUse := bytesInUse + size;
      bytesReserved := bytesReserved + PagesFor(size + HEADER_SIZE) * PAGE_SIZE;
      allocations := allocations + 1;
      return Some(run + HEADER_SIZE);
    }

    /** `kmalloc`. */
    method Malloc(size: nat, page: Option<nat>, run: Option<nat>) returns (r: Option<nat>)
      requires Valid() && FreshPages(plan, page, 1) && FreshPages(plan, run, PagesFor(size + HEADER_SIZE))
      modifies this`h, this`plan, this`bytesInUse, this`bytesReserved, this`allocations
      ensures Valid()
      ensures r.None? ==> LiveOf(plan) == LiveOf(old(plan)) && bytesInUse == old(bytesInUse)
      ensures r.Some? ==> HandedOut(old(plan), plan, r.value, size) && bytesInUse == old(bytesInUse) + size
      ensures r.None? <==> size == 0 || OutOfMemory(old(plan), size, page, run)
      ensures Took(old(plan), plan, page, run, PagesFor(size + HEADER_SIZE))
      ensures r.Some? && size + HEADER_SIZE > 2048 ==> IsRun(plan, run, r.value, size)
    {
      r := Allocate(size, page, run, 0, 0);
      if r.Some? {
        HandedOutKeeps(old(plan), plan, held, buckets, r.value, size);
      } else {
        LiveKeeps(old(plan), plan, held, buckets);
      }
    }

    /** `kfree` of a block that has a header, live or free. */
    method Release(a: nat) returns (outcome: Outcome)
      requires Sound() && a in plan.blocks && !plan.blocks[a].Aligned?
      modifies this`h, this`plan, this`bytesInUse, this`bytesReserved, this`frees
      ensures Sound() && outcome == if old(plan).blocks[a].Free? then Panicked else Done
      ensures outcome == Panicked ==> h == old(h) && plan == old(plan) && bytesInUse == old(bytesInUse)
      ensures outcome == Done ==>
        && GivenBack(old(plan), plan, a)
        && bytesInUse + old(plan).blocks[a].size == old(bytesInUse)
      ensures Shrank(old(plan), plan)
      ensures old(plan).blocks[a].Large? ==> Unowned(plan, a, Length(old(plan).blocks[a]))
    {
      assert Labelled(h, plan, a) && Placed(plan, a);
      if plan.blocks[a].Free? { DoubleFreeCaught(h, plan, a); } else { LiveAccepted(h, plan, a); }
      if MagicOf(h.words[a]) != HEADER_MAGIC { return Panicked; }
      HeaderFields(if plan.blocks[a].Small? then plan.blocks[a].class_ else CLASS_LARGE);
      var size, class_ := h.words[a + 8], ClassOf(h.words[a]);
      TotalWithout(plan.blocks, a);
      bytesInUse := bytesInUse - size;
      frees := frees + 1;
      if class_ == CLASS_LARGE {
        LargeReturns(h, plan, a);
        var pages := PagesFor(size + HEADER_SIZE);
        bytesReserved := bytesReserved - pages * PAGE_SIZE;
        h := h.(words := h.words[a := h.words[a] - HEADER_MAGIC]);
        plan := Removed(plan, a);
        return Done;
      }
      ChunkReturns(h, plan, a, class_);
      h := PushHeap(h, class_, a);
      plan := PushPlan(plan, class_, a);
      return Done;
    }

    /** `kfree`, of null, of a pointer `kmalloc` gave out, or of one it has taken back into a free list. */
    method Kfree(pointer: nat) returns (outcome: Outcome)
      requires Valid()
      requires pointer != 0 ==>
        && pointer >= HEADER_SIZE && pointer - HEADER_SIZE in plan.blocks
        && !plan.blocks[pointer - HEADER_SIZE].Aligned?
      requires pointer != 0 ==> pointer - HEADER_SIZE !in held
      modifies this`h, this`plan, this`bytesInUse, this`bytesReserved, this`frees
      ensures Valid()
      ensures outcome == if pointer == 0 then Nothing else if old(plan).blocks[pointer - HEADER_SIZE].Free?
        then Panicked else Done
      ensures outcome != Done ==> plan == old(plan) && bytesInUse == old(bytesInUse)
      ensures outcome == Done ==>
        GivenBack(old(plan), plan, pointer - HEADER_SIZE) &&
          bytesInUse + old(plan).blocks[pointer - HEADER_SIZE].size == old(bytesInUse)
      ensures Shrank(old(plan), plan)
      ensures pointer != 0 && old(plan).blocks[pointer - HEADER_SIZE].Large? ==>
        Unowned(plan, pointer - HEADER_SIZE, Length(old(plan).blocks[pointer - HEADER_SIZE]))
    {
      if pointer == 0 { return Nothing; }
      outcome := Release(pointer - HEADER_SIZE);
      if outcome == Done { GivenBackKeeps(old(plan), plan, held, buckets, pointer - HEADER_SIZE); }
    }

    /** `kmalloc_aligned`, above the alignment every block has anyway; `page` is for the record. */
    method MallocAligned(size: nat, run: Option<nat>, page: Option<nat>) returns (r: Option<nat>)
      requires Valid() && FreshPages(plan, page, 1) && FreshPages(plan, run, PagesFor(size))
      requires page.Some? && run.Some? ==> Disjoint(page.value, PAGE_SIZE, run.value, PagesFor(size) * PAGE_SIZE)
      modifies this
      ensures Valid()
      ensures r.None? ==> LiveOf(plan) == LiveOf(old(plan)) && bytesInUse == old(bytesInUse)
      ensures r.Some? ==>
        && r == run && r.value % PAGE_SIZE == 0 && size <= PagesFor(size) * PAGE_SIZE
        && AlignedOut(old(plan), plan, r.value, PagesFor(size))
        && bytesInUse == old(bytesInUse) + PagesFor(size) * PAGE_SIZE + RECORD_SIZE
      ensures r.None? <==> size == 0 || run.None? || OutOfMemory(old(plan), RECORD_SIZE, page, None)
      ensures r.None? ==> Took(old(plan), plan, page, None, 0)
      ensures Took(old(plan), plan, page, run, PagesFor(size))
    {
      if size == 0 || run.None? { return None; }
      var pages, address := PagesFor(size), run.value;
      PagesEnough(size);
      var record := Allocate(RECORD_SIZE, page, None, address, pages * PAGE_SIZE);
      if record.None? {
        LiveKeeps(old(plan), plan, held, buckets);
        return None;
      }
      var chunk := record.value - HEADER_SIZE;
      AlignedAll(old(plan), h, plan, held, buckets, address, pages, chunk);
      var b := BucketOf(address);
      buckets := buckets[b := [Record(address, pages, chunk)] + buckets[b]];
      held := held[chunk := address];
      plan := RunPlan(plan, address, pages, Aligned(pages));
      bytesInUse := bytesInUse + pages * PAGE_SIZE;
      bytesReserved := bytesReserved + pages * PAGE_SIZE;
      return Some(address);
    }

    /** Where the bucket has a record for that address; its length when it has none. */
    method FindRecord(bucket: seq<Record>, address: nat) returns (k: nat)
      ensures k <= |bucket| && forall i :: 0 <= i < k ==> bucket[i].address != address
      ensures k < |bucket| ==> bucket[k].address == address
    {
      k := 0;
      while k < |bucket| && bucket[k].address != address
        invariant k <= |bucket| && forall i :: 0 <= i < k ==> bucket[i].address != address
      {
        k := k + 1;
      }
    }

    /** `kfree_aligned`: the pages and the record go; anything but an aligned block is a panic. */
    method FreeAligned(pointer: nat) returns (outcome: Outcome, pages: nat)
      requires Valid()
      modifies this
      ensures Valid()
      ensures outcome == if pointer == 0 then Nothing else if pointer in old(plan).blocks &&
        old(plan).blocks[pointer].Aligned? then Done else Panicked
      ensures outcome == Done ==>
        && old(plan).blocks[pointer] == Aligned(pages) && Shrank(old(plan), plan)
        && Unowned(plan, pointer, pages * PAGE_SIZE)
      ensures outcome != Done ==> plan == old(plan) && bytesInUse == old(bytesInUse)
      ensures outcome == Done ==>
        && (exists chunk ::
          && chunk in old(held) && old(held)[chunk] == pointer
          && LiveOf(plan) == LiveOf(old(plan)) - {pointer} - {chunk})
        && bytesInUse + old(plan).blocks[pointer].pages * PAGE_SIZE + RECORD_SIZE == old(bytesInUse)
    {
      if pointer == 0 { return Nothing, 0; }
      var b := BucketOf(pointer);
      assert BucketOk(plan, held, buckets[b], b);
      var k := FindRecord(buckets[b], pointer);
      if k == |buckets[b]| { return Panicked, 0; }
      var record := buckets[b][k];
      RecordRemoved(h, plan, held, buckets, k, record);
      TotalWithout(plan.blocks, pointer);
      buckets := buckets[b := buckets[b][..k] + buckets[b][k + 1..]];
      bytesInUse := bytesInUse - record.pages * PAGE_SIZE;
      bytesReserved := bytesReserved - record.pages * PAGE_SIZE;
      plan := Removed(plan, pointer);
      held := held - {record.chunk};
      ghost var middle := plan;
      var released := Release(record.chunk);
      GivenBackKeeps(middle, plan, held, buckets, record.chunk);
      return Done, record.pages;
    }
  }

  /** Taking a record out of its bucket with its pages leaves the other records as they should be. */
  lemma RecordRemoved(h: Heap, p: Plan, held: map<nat, nat>, buckets: seq<seq<Record>>, k: nat, r: Record)
    requires HeapOk(h, p) && BucketsOk(p, held, buckets) && k < |buckets[BucketOf(r.address)]| &&
      buckets[BucketOf(r.address)][k] == r
    ensures r.address in p.blocks && p.blocks[r.address] == Aligned(r.pages) && r.chunk in held &&
      held[r.chunk] == r.address
    ensures HeapOk(h, Removed(p, r.address)) && LiveOf(Removed(p, r.address)) == LiveOf(p) - {r.address}
    ensures Unowned(Removed(p, r.address), r.address, r.pages * PAGE_SIZE) && Shrank(p, Removed(p, r.address))
    ensures r.chunk in Removed(p, r.address).blocks && Removed(p, r.address).blocks[r.chunk].Small? &&
      Removed(p, r.address).blocks[r.chunk].size == RECORD_SIZE
    ensures var b := BucketOf(r.address);
      BucketsOk(Removed(p, r.address), held - {r.chunk}, buckets[b := buckets[b][..k] + buckets[b][k + 1..]])
  {
    var b0 := BucketOf(r.address);
    assert BucketOk(p, held, buckets[b0], b0);
    assert RecordOk(p, held, b0, r);
    RemoveKeeps(h, p, h, r.address);
    BucketsWithout(p, Removed(p, r.address), held, buckets, k, r);
  }

  lemma BucketsWithout(p: Plan, p': Plan, held: map<nat, nat>, buckets: seq<seq<Record>>, k: nat, r: Record)
    requires BucketsOk(p, held, buckets) && k < |buckets[BucketOf(r.address)]| && buckets[BucketOf(r.address)][k] == r
    requires RecordOk(p, held, BucketOf(r.address), r) && p'.blocks == p.blocks - {r.address}
    ensures var b := BucketOf(r.address); BucketsOk(p', held - {r.chunk},
      buckets[b := buckets[b][..k] + buckets[b][k + 1..]])
  {
    var b0 := BucketOf(r.address);
    var rest := buckets[b0][..k] + buckets[b0][k + 1..];
    var held', buckets' := held - {r.chunk}, buckets[b0 := rest];
    assert BucketOk(p, held, buckets[b0], b0);
    forall i | 0 <= i < |rest| ensures RecordOk(p', held', b0, rest[i]) && rest[i].address != r.address {
      RecordStays(p, p', held, buckets, b0, if i < k then i else i + 1, r, k);
    }
    forall b | 0 <= b < ALIGNED_BUCKETS ensures BucketOk(p', held', buckets'[b], b) {
      assert BucketOk(p, held, buckets[b], b);
      if b != b0 {
        forall i | 0 <= i < |buckets[b]| ensures RecordOk(p', held', b, buckets[b][i]) {
          RecordStays(p, p', held, buckets, b, i, r, k);
        }
      }
    }
    forall a | a in p'.blocks && p'.blocks[a].Aligned? ensures Recorded(buckets', a) {
      RecordedWithout(buckets, b0, k, a);
    }
  }

  lemma RecordedWithout(buckets: seq<seq<Record>>, b: nat, k: nat, a: nat)
    requires |buckets| == ALIGNED_BUCKETS && b < ALIGNED_BUCKETS && k < |buckets[b]|
    requires Recorded(buckets, a) && a != buckets[b][k].address
    ensures Recorded(buckets[b := buckets[b][..k] + buckets[b][k + 1..]], a)
  {
    var buckets': seq<seq<Record>> := buckets[b := buckets[b][..k] + buckets[b][k + 1..]];
    var i :| 0 <= i < |buckets[BucketOf(a)]| && buckets[BucketOf(a)][i].address == a;
    var j := if BucketOf(a) == b && i > k then i - 1 else i;
    assert 0 <= j < |buckets'[BucketOf(a)]| && buckets'[BucketOf(a)][j].address == a;
  }

  lemma RecordStays(p: Plan, p': Plan, held: map<nat, nat>, buckets: seq<seq<Record>>, b: nat, i: nat, r: Record,
    k: nat)
    requires BucketsOk(p, held, buckets) && k < |buckets[BucketOf(r.address)]| && buckets[BucketOf(r.address)][k] == r
    requires RecordOk(p, held, BucketOf(r.address), r) && p'.blocks == p.blocks - {r.address}
    requires b < ALIGNED_BUCKETS && i < |buckets[b]| && (b != BucketOf(r.address) || i != k)
    ensures RecordOk(p', held - {r.chunk}, b, buckets[b][i]) && buckets[b][i].address != r.address
  {
    assert BucketOk(p, held, buckets[b], b);
    assert RecordOk(p, held, b, buckets[b][i]);
    if b == BucketOf(r.address) {
      assert buckets[b][i].address != buckets[b][k].address;
    }
  }

  /** A new aligned block and its record, and every older live block as it was. */
  ghost predicate AlignedOut(p: Plan, p': Plan, address: nat, pages: nat) {
    && address !in LiveOf(p) && address in LiveOf(p') && LiveOf(p')[address] == Aligned(pages)
    && exists chunk ::
      && chunk !in LiveOf(p) && chunk != address && chunk in LiveOf(p') && LiveOf(p')[chunk].Small?
      && LiveOf(p') == LiveOf(p)[chunk := LiveOf(p')[chunk]][address := Aligned(pages)]
  }

  lemma AlignedLive(p: Plan, p1: Plan, address: nat, pages: nat, chunk: nat)
    requires HandedOut(p, p1, chunk + HEADER_SIZE, RECORD_SIZE) && address !in p1.blocks
    ensures AlignedOut(p, RunPlan(p1, address, pages, Aligned(pages)), address, pages)
  {
    var p' := RunPlan(p1, address, pages, Aligned(pages));
    RunLive(p1, address, pages, Aligned(pages));
    assert LiveOf(p') == LiveOf(p)[chunk := LiveOf(p')[chunk]][address := Aligned(pages)];
    assert address in LiveOf(p) ==> address in LiveOf(p1);
  }

  lemma AlignedKeeps(h: Heap, p: Plan, held: map<nat, nat>, buckets: seq<seq<Record>>, address: nat, pages: nat,
    chunk: nat)
    requires HeapOk(h, p) && BucketsOk(p, held, buckets) && pages > 0 && FreshPages(p, Some(address), pages)
    requires chunk in p.blocks && p.blocks[chunk].Small? && p.blocks[chunk].size == RECORD_SIZE && chunk !in held
    ensures address !in p.blocks && HeapOk(h, RunPlan(p, address, pages, Aligned(pages)))
    ensures Total(RunPlan(p, address, pages, Aligned(pages)).blocks) == Total(p.blocks) + pages * PAGE_SIZE
    ensures BucketsOk(RunPlan(p, address, pages, Aligned(pages)), held[chunk := address],
                      buckets[BucketOf(address) := [Record(address, pages, chunk)] + buckets[BucketOf(address)]])
  {
    PageAligned(address);
    FreshBlock(h, p, address, pages * PAGE_SIZE);
    AlignedPlaced(h, p, address, pages, pages * PAGE_SIZE);
    TotalPut(p.blocks, address, Aligned(pages));
    RecordAdded(p, RunPlan(p, address, pages, Aligned(pages)), held, buckets, Record(address, pages, chunk));
  }

  lemma AlignedAll(p0: Plan, h: Heap, p: Plan, held: map<nat, nat>, buckets: seq<seq<Record>>, address: nat,
    pages: nat, chunk: nat)
    requires HeapOk(h, p) && BucketsOk(p0, held, buckets) && HandedOut(p0, p, chunk + HEADER_SIZE, RECORD_SIZE)
    requires pages > 0 && FreshPages(p, Some(address), pages)
    ensures var p' := RunPlan(p, address, pages, Aligned(pages));
      && HeapOk(h, p') && AlignedOut(p0, p', address, pages) && Total(p'.blocks) == Total(p.blocks) + pages * PAGE_SIZE
      && |buckets| == ALIGNED_BUCKETS
      && BucketsOk(p', held[chunk := address],
        buckets[BucketOf(address) := [Record(address, pages, chunk)] + buckets[BucketOf(address)]])
  {
    HandedOutKeeps(p0, p, held, buckets, chunk + HEADER_SIZE, RECORD_SIZE);
    LiveIff(p, chunk, LiveOf(p)[chunk]);
    assert chunk in held ==> chunk in LiveOf(p0);
    AlignedKeeps(h, p, held, buckets, address, pages, chunk);
    AlignedLive(p0, p, address, pages, chunk);
  }

  lemma AlignedPlaced(h: Heap, p: Plan, address: nat, pages: nat, length: nat)
    requires HeapOk(h, p) && address > 0 && address % GRANULE == 0 && pages > 0 && length == pages * PAGE_SIZE
    requires Unowned(p, address, length) && address !in p.blocks
    ensures HeapOk(h, RunPlan(p, address, pages, Aligned(pages)))
  {
    ClaimKeeps(h, p, address, length);
    SetBlockKeeps(h, Claimed(p, address, length), h, address, Aligned(pages));
  }

  lemma RecordAdded(p: Plan, p': Plan, held: map<nat, nat>, buckets: seq<seq<Record>>, r: Record)
    requires BucketsOk(p, held, buckets) && r.address !in p.blocks &&
      p'.blocks == p.blocks[r.address := Aligned(r.pages)]
    requires r.chunk in p.blocks && p.blocks[r.chunk].Small? && p.blocks[r.chunk].size == RECORD_SIZE &&
      r.chunk !in held
    ensures BucketsOk(p', held[r.chunk := r.address],
      buckets[BucketOf(r.address) := [r] + buckets[BucketOf(r.address)]])
  {
    var b0 := BucketOf(r.address);
    var held', buckets' := held[r.chunk := r.address], buckets[b0 := [r] + buckets[b0]];
    forall b | 0 <= b < ALIGNED_BUCKETS ensures BucketOk(p', held', buckets'[b], b) {
      assert BucketOk(p, held, buckets[b], b);
      forall i | 0 <= i < |buckets'[b]| ensures RecordOk(p', held', b, buckets'[b][i]) {
        if b != b0 { assert RecordOk(p, held, b, buckets[b][i]); }
        else if i > 0 { assert RecordOk(p, held, b, buckets[b][i - 1]); }
      }
      if b == b0 {
        forall i, j | 0 <= i < j < |buckets'[b]| ensures buckets'[b][i].address != buckets'[b][j].address {
          assert RecordOk(p, held, b, buckets[b][j - 1]);
        }
      }
    }
    forall a | a in p'.blocks && p'.blocks[a].Aligned? ensures Recorded(buckets', a) {
      if a == r.address {
        assert buckets'[b0][0].address == a;
      } else {
        var i :| 0 <= i < |buckets[BucketOf(a)]| && buckets[BucketOf(a)][i].address == a;
        var k := if BucketOf(a) == b0 then i + 1 else i;
        assert 0 <= k < |buckets'[BucketOf(a)]| && buckets'[BucketOf(a)][k].address == a;
      }
    }
  }

  lemma GivenBackKeeps(p: Plan, p': Plan, held: map<nat, nat>, buckets: seq<seq<Record>>, a: nat)
    requires BucketsOk(p, held, buckets) && GivenBack(p, p', a) && a !in held && !p.blocks[a].Aligned?
    ensures BucketsOk(p', held, buckets)
  {
    assert a in p'.blocks ==> a !in LiveOf(p');
    BucketsKept(p, p', held, buckets, {a});
  }

  /** The class in a header's first word. */
  function ClassOf(word: nat): nat {
    (word / LOW) % 0x10000
  }

  lemma HeaderFields(class_: nat)
    requires class_ < 0x10000
    ensures ClassOf(HeaderWord(class_)) == class_ && MagicOf(HeaderWord(class_)) == HEADER_MAGIC &&
      HeaderWord(class_) >= HEADER_MAGIC
  {
  }

  /** One live block less, the others as they were. */
  ghost predicate GivenBack(p: Plan, p': Plan, a: nat) {
    a in LiveOf(p) && LiveOf(p') == LiveOf(p) - {a}
  }

  lemma ChunkReturns(h: Heap, p: Plan, a: nat, c: nat)
    requires HeapOk(h, p) && a in p.blocks && p.blocks[a].Small? && p.blocks[a].class_ == c
    ensures c < CLASS_COUNT && HeapOk(PushHeap(h, c, a), PushPlan(p, c, a)) && GivenBack(p, PushPlan(p, c, a), a)
    ensures Total(PushPlan(p, c, a).blocks) + p.blocks[a].size == Total(p.blocks)
  {
    assert Placed(p, a);
    PushKeeps(h, p, c, a);
    TotalPut(p.blocks, a, Free(c));
  }

  lemma LargeReturns(h: Heap, p: Plan, a: nat)
    requires HeapOk(h, p) && a in p.blocks && p.blocks[a].Large? && a in h.words && h.words[a] >= HEADER_MAGIC
    ensures HeapOk(h.(words := h.words[a := h.words[a] - HEADER_MAGIC]), Removed(p, a)) &&
      GivenBack(p, Removed(p, a), a)
    ensures Total(Removed(p, a).blocks) + p.blocks[a].size == Total(p.blocks)
    ensures Unowned(Removed(p, a), a, Length(p.blocks[a])) && Shrank(p, Removed(p, a))
  {
    RemoveKeeps(h, p, h.(words := h.words[a := h.words[a] - HEADER_MAGIC]), a);
    TotalWithout(p.blocks, a);
  }

  lemma HandedOutKeeps(p: Plan, p': Plan, held: map<nat, nat>, buckets: seq<seq<Record>>, pointer: nat, size: nat)
    requires BucketsOk(p, held, buckets) && HandedOut(p, p', pointer, size)
    ensures BucketsOk(p', held, buckets)
  {
    var a := pointer - HEADER_SIZE;
    assert a in held ==> a in LiveOf(p);
    assert a in p.blocks && p.blocks[a].Aligned? ==> a in LiveOf(p);
    assert p'.blocks[a] == LiveOf(p')[a];
    BucketsKept(p, p', held, buckets, {a});
  }

  lemma LiveKeeps(p: Plan, p': Plan, held: map<nat, nat>, buckets: seq<seq<Record>>)
    requires BucketsOk(p, held, buckets) && LiveOf(p') == LiveOf(p)
    ensures BucketsOk(p', held, buckets)
  {
    BucketsKept(p, p', held, buckets, {});
  }

  lemma ChunkBound(c: nat)
    requires c < CLASS_COUNT
    ensures ChunkSize(c) <= 2048
  {
  }

  lemma PopHandsOut(h: Heap, p: Plan, c: nat, size: nat)
    requires HeapOk(h, p) && c < CLASS_COUNT && h.heads[c] != 0 && 0 < size && size + HEADER_SIZE <= ChunkSize(c)
    ensures h.heads[c] in h.words && p.lists[c] != [] && HeapOk(PopHeap(h, c, size), PopPlan(p, c, size))
    ensures HandedOut(p, PopPlan(p, c, size), h.heads[c] + HEADER_SIZE, size)
    ensures Total(PopPlan(p, c, size).blocks) == Total(p.blocks) + size
  {
    PopKeeps(h, p, c, size);
    ChunkBound(c);
    var a := h.heads[c];
    assert Placed(p, a);
    TotalPut(p.blocks, a, Small(c, size));
    AlignedPointer(a);
  }

  lemma AlignedPointer(a: nat)
    requires a % GRANULE == 0
    ensures (a + HEADER_SIZE) % 16 == 0
  {
    var n := a / GRANULE * 2 + 1;
    assert a + HEADER_SIZE == n * 16;
    Multiple(n);
  }

  lemma Multiple(n: nat)
    ensures n * 16 % 16 == 0
  {
  }

  function RunHeap(h: Heap, run: nat, size: nat): Heap {
    Heap(h.words[run := HeaderWord(CLASS_LARGE)][run + 8 := size], h.heads)
  }

  ghost function RunPlan(p: Plan, run: nat, pages: nat, st: Status): Plan {
    var claimed := Claimed(p, run, pages * PAGE_SIZE);
    claimed.(blocks := claimed.blocks[run := st])
  }

  lemma RunKeeps(h: Heap, p: Plan, run: nat, pages: nat, length: nat, size: nat)
    requires HeapOk(h, p) && run > 0 && run % GRANULE == 0 && length == pages * PAGE_SIZE && Unowned(p, run, length)
    requires 0 < size && size + HEADER_SIZE <= length && run !in p.blocks
    ensures HeapOk(RunHeap(h, run, size), RunPlan(p, run, pages, Large(pages, size)))
  {
    ClaimKeeps(h, p, run, length);
    SetBlockKeeps(h, Claimed(p, run, length), RunHeap(h, run, size), run, Large(pages, size));
  }

  lemma RunHandsOut(h: Heap, p: Plan, run: nat, size: nat)
    requires HeapOk(h, p) && size + HEADER_SIZE > 2048 && FreshPages(p, Some(run), PagesFor(size + HEADER_SIZE))
    ensures var pages := PagesFor(size + HEADER_SIZE); var p' := RunPlan(p, run, pages, Large(pages, size));
      && HeapOk(RunHeap(h, run, size), p') && HandedOut(p, p', run + HEADER_SIZE, size) &&
        Total(p'.blocks) == Total(p.blocks) + size
  {
    var pages := PagesFor(size + HEADER_SIZE);
    PageAligned(run);
    PagesEnough(size + HEADER_SIZE);
    FreshBlock(h, p, run, pages * PAGE_SIZE);
    RunKeeps(h, p, run, pages, pages * PAGE_SIZE, size);
    TotalPut(p.blocks, run, Large(pages, size));
    AlignedPointer(run);
    RunLive(p, run, pages, Large(pages, size));
  }

  lemma RunLive(p: Plan, run: nat, pages: nat, st: Status)
    requires run !in p.blocks && !st.Free?
    ensures LiveOf(RunPlan(p, run, pages, st)) == LiveOf(p)[run := st] && run !in LiveOf(p)
  {
  }

  /** One more live block, of that payload, at a pointer aligned to sixteen; the others are as they were. */
  ghost predicate HandedOut(p: Plan, p': Plan, pointer: nat, size: nat) {
    && pointer >= HEADER_SIZE && pointer % 16 == 0
    && var a := pointer - HEADER_SIZE;
       && a !in LiveOf(p) && a in LiveOf(p') && LiveOf(p') == LiveOf(p)[a := LiveOf(p')[a]]
       && (if size + HEADER_SIZE <= 2048 then LiveOf(p')[a].Small? else LiveOf(p')[a].Large?) &&
         LiveOf(p')[a].size == size
       && size + HEADER_SIZE <= Length(LiveOf(p')[a])
  }

  /** What is handed out is clear of everything that was live, header and all. */
  lemma PayloadApart(h: Heap, p: Plan, p': Plan, pointer: nat, size: nat, b: nat)
    requires HeapOk(h, p') && HandedOut(p, p', pointer, size) && b in LiveOf(p)
    ensures b in LiveOf(p') && LiveOf(p')[b] == LiveOf(p)[b]
    ensures pointer + size <= b || b + Length(LiveOf(p)[b]) <= pointer - HEADER_SIZE
  {
    LiveIff(p', b, LiveOf(p')[b]);
    LiveIff(p', pointer - HEADER_SIZE, LiveOf(p')[pointer - HEADER_SIZE]);
    BlocksApart(h, p', pointer - HEADER_SIZE, b);
  }

  lemma ChunkFits(c: nat, i: nat)
    requires c < CLASS_COUNT && i < PAGE_SIZE / ChunkSize(c)
    ensures (i + 1) * ChunkSize(c) <= PAGE_SIZE
  {
  }
}
