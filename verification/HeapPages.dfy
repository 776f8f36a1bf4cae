/** The kernel heap on the page allocator: where its pages come from and where they go. */
module HeapPages {
  import opened Base
  import opened HeapModel
  import opened KernelHeap
  import Physical

  /** Where physical memory is mapped in the kernel half. */
  const DIRECT_MAP: nat := 0xFFFF_8000_0000_0000

  function AddressOf(frame: nat): nat {
    DIRECT_MAP + frame * PAGE_SIZE
  }

  function FrameOf(address: nat): nat
    requires address >= DIRECT_MAP
  {
    (address - DIRECT_MAP) / PAGE_SIZE
  }

  lemma FrameOfAddress(frame: nat)
    ensures FrameOf(AddressOf(frame)) == frame && AddressOf(frame) % PAGE_SIZE == 0 && AddressOf(frame) > 0
  {
    assert DIRECT_MAP % PAGE_SIZE == 0;
  }

  /** The granule lies on a frame that exists and is taken. */
  ghost predicate OnTakenFrame(g: int, free: set<nat>, total: nat) {
    g * GRANULE >= DIRECT_MAP && FrameOf(g * GRANULE) < total && FrameOf(g * GRANULE) !in free
  }

  /** All of the heap's memory does. */
  ghost predicate Backed(p: Plan, free: set<nat>, total: nat) {
    forall g {:trigger g in p.owner} :: g in p.owner ==> OnTakenFrame(g, free, total)
  }

  /** Blocks of whole pages begin at one and are no longer than they need be. */
  ghost predicate PageBlock(a: nat, st: Status) {
    match st
    case Large(pages, size) => a % PAGE_SIZE == 0 && pages == PagesFor(size + HEADER_SIZE)
    case Aligned(_) => a % PAGE_SIZE == 0
    case _ => true
  }

  ghost predicate PageBlocks(live: map<nat, Status>) {
    forall a {:trigger PageBlock(a, live[a])} :: a in live ==> PageBlock(a, live[a])
  }

  // --- spans of granules and ranges of frames

  lemma SpanFrames(g: int, f: nat, n: nat)
    requires InSpan(g, AddressOf(f), n * PAGE_SIZE)
    ensures g * GRANULE >= DIRECT_MAP && f <= FrameOf(g * GRANULE) < f + n
  {
    var d := g * GRANULE - DIRECT_MAP;
    assert f * PAGE_SIZE <= d < f * PAGE_SIZE + n * PAGE_SIZE;
    FrameBounds(d, f, n);
  }

  lemma FrameBounds(d: nat, f: nat, n: nat)
    requires f * PAGE_SIZE <= d < f * PAGE_SIZE + n * PAGE_SIZE
    ensures f <= d / PAGE_SIZE < f + n
  {
  }

  /** The first granule of a frame lies in the span of a range that has the frame. */
  lemma FrameSpan(k: nat, f: nat, n: nat)
    requires f <= k < f + n
    ensures InSpan(AddressOf(k) / GRANULE, AddressOf(f), n * PAGE_SIZE)
    ensures FrameOf(AddressOf(k) / GRANULE * GRANULE) == k
  {
    FrameOfAddress(k);
    WholeGranules(k);
    Further(f, k, n);
  }

  lemma WholeGranules(k: nat)
    ensures AddressOf(k) / GRANULE * GRANULE == AddressOf(k)
  {
    var m := DIRECT_MAP / GRANULE + k * (PAGE_SIZE / GRANULE);
    assert AddressOf(k) == m * GRANULE;
  }

  lemma Further(f: nat, k: nat, n: nat)
    requires f <= k < f + n
    ensures AddressOf(f) <= AddressOf(k) < AddressOf(f) + n * PAGE_SIZE
  {
  }

  lemma InRangeIff(k: nat, f: nat, n: nat)
    ensures k in Physical.Range(f, n) <==> f <= k < f + n
  {
  }

  /** Frames that were free are fresh pages to the heap. */
  lemma FreshFrames(p: Plan, free: set<nat>, total: nat, f: nat, n: nat)
    requires Backed(p, free, total) && Physical.Range(f, n) <= free
    ensures FreshPages(p, Some(AddressOf(f)), n)
  {
    FrameOfAddress(f);
    forall g | InSpan(g, AddressOf(f), n * PAGE_SIZE) ensures g !in p.owner {
      SpanFrames(g, f, n);
      InRangeIff(FrameOf(g * GRANULE), f, n);
    }
  }

  /** With some frames taken, what the heap had is still on taken frames. */
  lemma BackedFewer(p: Plan, free: set<nat>, free': set<nat>, total: nat)
    requires Backed(p, free, total) && free' <= free
    ensures Backed(p, free', total)
  {
  }

  /** And so is what it takes of those. */
  lemma BackedRun(p: Plan, p': Plan, free: set<nat>, total: nat, f: nat, n: nat)
    requires Backed(p, free, total) && Took(p, p', None, Some(AddressOf(f)), n)
    requires Physical.Range(f, n) !! free && f + n <= total
    ensures Backed(p', free, total)
  {
    forall g | g in p'.owner ensures OnTakenFrame(g, free, total) {
      if g !in p.owner {
        SpanFrames(g, f, n);
        InRangeIff(FrameOf(g * GRANULE), f, n);
      }
    }
  }

  lemma BackedBoth(p: Plan, p': Plan, free: set<nat>, total: nat, page: Option<nat>, run: Option<nat>, n: nat)
    requires Backed(p, free, total)
    requires Took(p, p', OnFrame(page), OnFrame(run), n)
    requires page.Some? ==> page.value !in free && page.value < total
    requires run.Some? ==> Physical.Range(run.value, n) !! free && run.value + n <= total
    ensures Backed(p', free, total)
  {
    forall g | g in p'.owner ensures OnTakenFrame(g, free, total) {
      if g !in p.owner {
        if page.Some? && InSpan(g, AddressOf(page.value), PAGE_SIZE) {
          SpanFrames(g, page.value, 1);
        } else {
          SpanFrames(g, run.value, n);
          InRangeIff(FrameOf(g * GRANULE), run.value, n);
        }
      }
    }
  }

  function OnFrame(frame: Option<nat>): Option<nat> {
    if frame.Some? then Some(AddressOf(frame.value)) else None
  }

  /** Frames nothing of the heap's lies on may be freed. */
  lemma BackedMore(p: Plan, free: set<nat>, total: nat, f: nat, n: nat, free': set<nat>)
    requires Backed(p, free, total) && Unowned(p, AddressOf(f), n * PAGE_SIZE)
    requires forall k :: k in free' ==> k in free || f <= k < f + n
    ensures Backed(p, free', total)
  {
    forall g | g in p.owner ensures OnTakenFrame(g, free', total) {
      var k := FrameOf(g * GRANULE);
      if f <= k < f + n {
        FrameHolds(g, f, n);
        assert false;
      }
    }
  }

  lemma FrameHolds(g: int, f: nat, n: nat)
    requires g * GRANULE >= DIRECT_MAP && f <= FrameOf(g * GRANULE) < f + n
    ensures InSpan(g, AddressOf(f), n * PAGE_SIZE)
  {
    var k := FrameOf(g * GRANULE);
    assert f * PAGE_SIZE <= k * PAGE_SIZE <= g * GRANULE - DIRECT_MAP < (k + 1) * PAGE_SIZE <= (f + n) * PAGE_SIZE;
    assert (f + n) * PAGE_SIZE == f * PAGE_SIZE + n * PAGE_SIZE;
  }

  /** A block of whole pages is on frames that exist, and none of them is free. */
  lemma BlockTaken(h: Heap, p: Plan, free: set<nat>, total: nat, a: nat, pages: nat)
    requires HeapOk(h, p) && Backed(p, free, total) && a in p.blocks && a % PAGE_SIZE == 0 && pages > 0
    requires Length(p.blocks[a]) == pages * PAGE_SIZE
    ensures a >= DIRECT_MAP && a == AddressOf(FrameOf(a))
    ensures FrameOf(a) + pages <= total && Physical.Range(FrameOf(a), pages) !! free
  {
    assert Placed(p, a);
    assert a / GRANULE * GRANULE == a;
    assert Owns(p, a / GRANULE, a) && OnTakenFrame(a / GRANULE, free, total);
    var f := FrameOf(a);
    assert DIRECT_MAP % PAGE_SIZE == 0;
    assert a == AddressOf(f);
    BlockFrame(p, free, total, a, f, pages, f + pages - 1);
    forall k | k in Physical.Range(f, pages) ensures k !in free {
      InRangeIff(k, f, pages);
      BlockFrame(p, free, total, a, f, pages, k);
    }
  }

  lemma BlockFrame(p: Plan, free: set<nat>, total: nat, a: nat, f: nat, pages: nat, k: nat)
    requires Backed(p, free, total) && a in p.blocks && Placed(p, a) && Length(p.blocks[a]) == pages * PAGE_SIZE
    requires a == AddressOf(f) && f <= k < f + pages
    ensures k < total && k !in free
  {
    FrameSpan(k, f, pages);
    var g := AddressOf(k) / GRANULE;
    assert Owns(p, g, a) && OnTakenFrame(g, free, total);
  }

  // --- what is handed out and given back

  lemma HandedPages(p: Plan, p': Plan, pointer: nat, size: nat, run: Option<nat>)
    requires PageBlocks(LiveOf(p)) && HandedOut(p, p', pointer, size)
    requires size + HEADER_SIZE > 2048 ==> IsRun(p', run, pointer, size) && run.value % PAGE_SIZE == 0
    ensures PageBlocks(LiveOf(p'))
  {
    var live, live' := LiveOf(p), LiveOf(p');
    forall a | a in live' ensures PageBlock(a, live'[a]) {
      if a != pointer - HEADER_SIZE { assert PageBlock(a, live[a]); }
    }
  }

  lemma AlignedPages(p: Plan, p': Plan, address: nat, pages: nat)
    requires PageBlocks(LiveOf(p)) && AlignedOut(p, p', address, pages) && address % PAGE_SIZE == 0
    ensures PageBlocks(LiveOf(p'))
  {
    var live, live' := LiveOf(p), LiveOf(p');
    forall a | a in live' ensures PageBlock(a, live'[a]) {
      if a in live && a != address { assert PageBlock(a, live[a]); }
    }
  }

  lemma FewerPages(live: map<nat, Status>, live': map<nat, Status>)
    requires PageBlocks(live) && forall a :: a in live' ==> a in live && live'[a] == live[a]
    ensures PageBlocks(live')
  {
    forall a | a in live' ensures PageBlock(a, live'[a]) { assert PageBlock(a, live[a]); }
  }

  ghost predicate NoRun(count: nat, free: set<nat>) {
    forall s: nat {:trigger Physical.IsFreeRun(s, count, free)} :: !Physical.IsFreeRun(s, count, free)
  }

  /** Nothing to give: no free block of the class and no free page, or no run of free pages. */
  ghost predicate Starved(p: Plan, size: nat, free: set<nat>) {
    exists c: nat :: IsClassFor(size, c) &&
      if c == CLASS_LARGE then NoRun(PagesFor(size + HEADER_SIZE), free) else NoneFree(p, c) && free == {}
  }

  lemma StarvedIn(p: Plan, size: nat, free: set<nat>, c: nat)
    requires IsClassFor(size, c)
    ensures Starved(p, size, free) <==>
      if c == CLASS_LARGE then NoRun(PagesFor(size + HEADER_SIZE), free) else NoneFree(p, c) && free == {}
  {
    if d: nat :| IsClassFor(size, d) && d != c {
      if c < CLASS_COUNT { ChunkBound(c); }
      if d < CLASS_COUNT { ChunkBound(d); }
    }
  }

  /** Every free page goes into the run, and nothing else is left for its record. */
  ghost predicate NoRecord(p: Plan, pages: nat, free: set<nat>) {
    exists f: nat :: Physical.IsFreeRun(f, pages, free) && Starved(p, RECORD_SIZE, free - Physical.Range(f, pages))
  }

  /** It does not matter which run is taken: then there is only one. */
  lemma NoRecordAfter(p: Plan, run: nat, pages: nat, free: set<nat>)
    requires pages > 0 && Physical.IsFreeRun(run, pages, free)
    ensures NoRecord(p, pages, free) <==> Starved(p, RECORD_SIZE, free - Physical.Range(run, pages))
  {
    if f: nat :| Physical.IsFreeRun(f, pages, free) && Starved(p, RECORD_SIZE, free - Physical.Range(f, pages)) {
      assert free - Physical.Range(f, pages) == {};
      var last := run + pages - 1;
      InRangeIff(run, run, pages);
      InRangeIff(run, f, pages);
      InRangeIff(last, run, pages);
      InRangeIff(last, f, pages);
      assert run in free - (free - Physical.Range(f, pages)) && last in free - (free - Physical.Range(f, pages));
    }
  }

  /** The frames from that address on, and no others, have been freed. */
  ghost predicate Freed(free: set<nat>, free': set<nat>, a: nat, pages: nat) {
    a >= DIRECT_MAP && free' == free + Physical.Range(FrameOf(a), pages)
  }

  class KernelMemory {
    const heap: Allocator
    const frames: Physical.PageAllocator

    ghost predicate Valid()
      reads this, heap, frames, frames.bitmap
    {
      && heap.Valid() && frames.Valid() && Backed(heap.plan, frames.Free(), frames.totalPages)
      && PageBlocks(LiveOf(heap.plan))
    }

    constructor (frames: Physical.PageAllocator)
      requires frames.Valid()
      ensures Valid() && this.frames == frames && fresh(heap) && LiveOf(heap.plan) == map[]
    {
      this.frames := frames;
      heap := new Allocator();
    }

    /** A run of free frames exists. */
    lemma RunExists(f: nat, n: nat, free: set<nat>)
      requires n > 0 && Physical.IsFreeRun(f, n, free) && forall k :: k in free ==> k < frames.totalPages
      ensures f + n <= frames.totalPages
    {
      InRangeIff(f + n - 1, f, n);
    }

    /** `kmalloc`, with the pages it takes if it needs any. */
    method Kmalloc(size: nat) returns (r: Option<nat>)
      requires Valid()
      modifies heap, frames, frames.bitmap
      ensures frames.bitmap == old(frames.bitmap) && frames.totalPages == old(frames.totalPages)
      ensures Valid() && frames.Free() <= old(frames.Free())
      ensures r.Some? ==> HandedOut(old(heap.plan), heap.plan, r.value, size)
      ensures r.None? ==> LiveOf(heap.plan) == old(LiveOf(heap.plan)) && frames.Free() == old(frames.Free())
      ensures r.None? <==> size == 0 || Starved(old(heap.plan), size, old(frames.Free()))
    {
      if size == 0 { return None; }
      var c := ClassFor(size);
      StarvedIn(heap.plan, size, frames.Free(), c);
      if c == CLASS_LARGE {
        r := MallocRun(size);
      } else {
        r := MallocChunk(c, size);
      }
    }

    method MallocRun(size: nat) returns (r: Option<nat>)
      requires Valid() && size + HEADER_SIZE > 2048
      modifies heap, frames, frames.bitmap
      ensures frames.bitmap == old(frames.bitmap) && frames.totalPages == old(frames.totalPages)
      ensures Valid() && frames.Free() <= old(frames.Free())
      ensures r.Some? ==> HandedOut(old(heap.plan), heap.plan, r.value, size)
      ensures r.None? ==> heap.plan == old(heap.plan) && frames.Free() == old(frames.Free())
      ensures r.None? <==> NoRun(PagesFor(size + HEADER_SIZE), old(frames.Free()))
    {
      var pages := PagesFor(size + HEADER_SIZE);
      PagesEnough(size + HEADER_SIZE);
      var run := frames.AllocateContiguous(pages);
      if run.None? { return None; }
      ghost var p, free, total := heap.plan, old(frames.Free()), frames.totalPages;
      FreshFrames(p, free, total, run.value, pages);
      RunExists(run.value, pages, free);
      FrameOfAddress(run.value);
      ClassIs(p, size, None, Some(AddressOf(run.value)), CLASS_LARGE);
      r := heap.Malloc(size, None, Some(AddressOf(run.value)));
      BackedFewer(p, free, frames.Free(), total);
      BackedRun(p, heap.plan, frames.Free(), total, run.value, pages);
      HandedPages(p, heap.plan, r.value, size, Some(AddressOf(run.value)));
    }

    method MallocChunk(c: nat, size: nat) returns (r: Option<nat>)
      requires Valid() && size > 0 && c < CLASS_COUNT && IsClassFor(size, c)
      modifies heap, frames, frames.bitmap
      ensures frames.bitmap == old(frames.bitmap) && frames.totalPages == old(frames.totalPages)
      ensures Valid() && frames.Free() <= old(frames.Free())
      ensures r.Some? ==> HandedOut(old(heap.plan), heap.plan, r.value, size)
      ensures r.None? ==> heap.plan == old(heap.plan) && frames.Free() == old(frames.Free())
      ensures r.None? <==> NoneFree(old(heap.plan), c) && old(frames.Free()) == {}
    {
      ghost var p, free, total := heap.plan, frames.Free(), frames.totalPages;
      EmptyHead(heap.h, p, c);
      ChunkBound(c);
      var page: Option<nat> := None;
      if heap.h.heads[c] == 0 {
        page := frames.AllocatePage();
        if page.None? { return None; }
        SinglePage(p, free, total, page.value);
      }
      ClassIs(p, size, OnFrame(page), None, c);
      r := heap.Malloc(size, OnFrame(page), None);
      BackedFewer(p, free, frames.Free(), total);
      BackedBoth(p, heap.plan, frames.Free(), total, page, None, PagesFor(size + HEADER_SIZE));
      HandedPages(p, heap.plan, r.value, size, None);
    }

    /** `kfree`: the pages of a large block go back, and the page allocator finds none of them free already. */
    method Kfree(pointer: nat) returns (outcome: Outcome)
      requires Valid()
      requires pointer != 0 ==>
        && pointer >= HEADER_SIZE && pointer - HEADER_SIZE in heap.plan.blocks
        && !heap.plan.blocks[pointer - HEADER_SIZE].Aligned? && pointer - HEADER_SIZE !in heap.held
      modifies heap, frames, frames.bitmap
      ensures frames.bitmap == old(frames.bitmap) && frames.totalPages == old(frames.totalPages)
      ensures Valid()
      ensures outcome == if pointer == 0 then Nothing else if old(heap.plan).blocks[pointer - HEADER_SIZE].Free?
        then Panicked else Done
      ensures outcome == Done ==> GivenBack(old(heap.plan), heap.plan, pointer - HEADER_SIZE)
      ensures outcome == Done && old(heap.plan).blocks[pointer - HEADER_SIZE].Large? ==>
        Freed(old(frames.Free()), frames.Free(), pointer - HEADER_SIZE,
          old(heap.plan).blocks[pointer - HEADER_SIZE].pages)
      ensures outcome != Done || !old(heap.plan).blocks[pointer - HEADER_SIZE].Large? ==>
        frames.Free() == old(frames.Free())
    {
      if pointer == 0 { return Nothing; }
      var a := pointer - HEADER_SIZE;
      ghost var p := heap.plan;
      var large, pages := IsLarge(a);
      outcome := heap.Kfree(pointer);
      FewerBacked(p, heap.plan, frames.Free(), frames.totalPages);
      if outcome == Done { FewerPages(LiveOf(p), LiveOf(heap.plan)); }
      if outcome == Done && large { FreeFrames(a, pages); }
    }

    /** What the header says, if it is one: whether the block is large, and how many pages it has. */
    method IsLarge(a: nat) returns (large: bool, pages: nat)
      requires Valid() && a in heap.plan.blocks && !heap.plan.blocks[a].Aligned?
      ensures !heap.plan.blocks[a].Free? ==> large == heap.plan.blocks[a].Large?
      ensures heap.plan.blocks[a].Large? ==>
        && heap.plan.blocks[a].pages == pages > 0 && a >= DIRECT_MAP && a == AddressOf(FrameOf(a))
        && FrameOf(a) + pages <= frames.totalPages && Physical.Range(FrameOf(a), pages) !! frames.Free()
    {
      assert Labelled(heap.h, heap.plan, a) && Placed(heap.plan, a);
      large := ClassOf(heap.h.words[a]) == CLASS_LARGE;
      ghost var st := heap.plan.blocks[a];
      if !st.Free? { HeaderFields(if st.Small? then st.class_ else CLASS_LARGE); }
      pages := if a + 8 in heap.h.words then PagesFor(heap.h.words[a + 8] + HEADER_SIZE) else 0;
      if st.Large? {
        PagesEnough(st.size + HEADER_SIZE);
        assert PageBlock(a, LiveOf(heap.plan)[a]);
        BlockTaken(heap.h, heap.plan, frames.Free(), frames.totalPages, a, pages);
      }
    }

    /** `free_contiguous` of frames the heap no longer has. */
    method FreeFrames(a: nat, pages: nat)
      requires Valid() && a >= DIRECT_MAP && a == AddressOf(FrameOf(a)) && FrameOf(a) + pages <= frames.totalPages
      requires Physical.Range(FrameOf(a), pages) !! frames.Free() && Unowned(heap.plan, a, pages * PAGE_SIZE)
      modifies frames, frames.bitmap
      ensures frames.bitmap == old(frames.bitmap) && frames.totalPages == old(frames.totalPages)
      ensures Valid() && frames.Free() == old(frames.Free()) + Physical.Range(FrameOf(a), pages)
    {
      ghost var f, free, total := FrameOf(a), frames.Free(), frames.totalPages;
      forall k | k in Physical.Range(f, pages) ensures k < total && f <= k < f + pages { InRangeIff(k, f, pages); }
      assert Physical.Range(f, pages) * Physical.Range(0, total) == Physical.Range(f, pages);
      var panicked := frames.FreeContiguous(FrameOf(a), pages);
      BackedMore(heap.plan, free, total, f, pages, frames.Free());
    }

    /** `kmalloc_aligned`, above the alignment every block has anyway; without a record the pages go back. */
    method KmallocAligned(size: nat) returns (r: Option<nat>)
      requires Valid()
      modifies heap, frames, frames.bitmap
      ensures frames.bitmap == old(frames.bitmap) && frames.totalPages == old(frames.totalPages)
      ensures Valid()
      ensures r.Some? ==> r.value % PAGE_SIZE == 0 && AlignedOut(old(heap.plan), heap.plan, r.value, PagesFor(size))
      ensures r.None? ==> LiveOf(heap.plan) == old(LiveOf(heap.plan)) && frames.Free() == old(frames.Free())
      ensures r.None? <==>
        size == 0 || NoRun(PagesFor(size), old(frames.Free())) ||
        NoRecord(old(heap.plan), PagesFor(size), old(frames.Free()))
    {
      if size == 0 { return None; }
      var pages := PagesFor(size);
      PagesEnough(size);
      var run := frames.AllocateContiguous(pages);
      if run.None? { return None; }
      ghost var p, free, total := heap.plan, old(frames.Free()), frames.totalPages;
      FreshFrames(p, free, total, run.value, pages);
      RunExists(run.value, pages, free);
      FrameOfAddress(run.value);
      BackedFewer(p, free, frames.Free(), total);
      NoRecordAfter(p, run.value, pages, free);
      r := MallocRecord(size, run.value);
      if r.None? {
        FreeFrames(AddressOf(run.value), pages);
        assert free - Physical.Range(run.value, pages) + Physical.Range(run.value, pages) == free;
      }
    }

    /** The record, on a page of its own if need be, and the aligned block. */
    method MallocRecord(size: nat, run: nat) returns (r: Option<nat>)
      requires Valid() && size > 0 && run + PagesFor(size) <= frames.totalPages
      requires FreshPages(heap.plan, Some(AddressOf(run)), PagesFor(size))
      requires Physical.Range(run, PagesFor(size)) !! frames.Free()
      modifies heap, frames, frames.bitmap
      ensures frames.bitmap == old(frames.bitmap) && frames.totalPages == old(frames.totalPages)
      ensures Valid()
      ensures r.Some? ==> r == Some(AddressOf(run)) && AlignedOut(old(heap.plan), heap.plan, r.value, PagesFor(size))
      ensures r.None? ==>
        && LiveOf(heap.plan) == old(LiveOf(heap.plan)) && frames.Free() == old(frames.Free())
        && Unowned(heap.plan, AddressOf(run), PagesFor(size) * PAGE_SIZE)
      ensures r.None? <==> Starved(old(heap.plan), RECORD_SIZE, old(frames.Free()))
    {
      var c := ClassFor(RECORD_SIZE);
      StarvedIn(heap.plan, RECORD_SIZE, frames.Free(), c);
      ghost var p, free, total := heap.plan, frames.Free(), frames.totalPages;
      EmptyHead(heap.h, p, c);
      var page: Option<nat> := None;
      if heap.h.heads[c] == 0 {
        page := frames.AllocatePage();
        if page.Some? {
          SinglePage(p, free, total, page.value);
          Apart(page.value, run, PagesFor(size), free);
        }
      }
      ClassIs(p, RECORD_SIZE, OnFrame(page), None, c);
      FrameOfAddress(run);
      r := heap.MallocAligned(size, Some(AddressOf(run)), OnFrame(page));
      BackedFewer(p, free, frames.Free(), total);
      BackedBoth(p, heap.plan, frames.Free(), total, page, Some(run), PagesFor(size));
      if r.Some? {
        AlignedPages(p, heap.plan, r.value, PagesFor(size));
      } else {
        assert Unowned(heap.plan, AddressOf(run), PagesFor(size) * PAGE_SIZE);
      }
    }

    /** `kfree_aligned`: the pages and the record go back. */
    method KfreeAligned(pointer: nat) returns (outcome: Outcome)
      requires Valid()
      modifies heap, frames, frames.bitmap
      ensures frames.bitmap == old(frames.bitmap) && frames.totalPages == old(frames.totalPages)
      ensures Valid()
      ensures outcome == if pointer == 0 then Nothing else if pointer in old(heap.plan).blocks &&
        old(heap.plan).blocks[pointer].Aligned? then Done else Panicked
      ensures outcome == Done ==>
        Freed(old(frames.Free()), frames.Free(), pointer, old(heap.plan).blocks[pointer].pages)
      ensures outcome != Done ==> heap.plan == old(heap.plan) && frames.Free() == old(frames.Free())
    {
      ghost var p := heap.plan;
      if pointer in p.blocks && p.blocks[pointer].Aligned? {
        assert Placed(p, pointer) && PageBlock(pointer, LiveOf(p)[pointer]);
        BlockTaken(heap.h, p, frames.Free(), frames.totalPages, pointer, p.blocks[pointer].pages);
      }
      var pages;
      outcome, pages := heap.FreeAligned(pointer);
      if outcome == Done {
        FewerBacked(p, heap.plan, frames.Free(), frames.totalPages);
        FewerPages(LiveOf(p), LiveOf(heap.plan));
        FreeFrames(pointer, pages);
      }
    }
  }

  lemma FewerBacked(p: Plan, p': Plan, free: set<nat>, total: nat)
    requires Backed(p, free, total) && Shrank(p, p')
    ensures Backed(p', free, total)
  {
  }

  lemma SinglePage(p: Plan, free: set<nat>, total: nat, f: nat)
    requires Backed(p, free, total) && f in free
    ensures FreshPages(p, Some(AddressOf(f)), 1)
  {
    forall k | k in Physical.Range(f, 1) ensures k in free { InRangeIff(k, f, 1); }
    FreshFrames(p, free, total, f, 1);
  }

  lemma Apart(page: nat, run: nat, n: nat, free: set<nat>)
    requires page in free && Physical.Range(run, n) !! free
    ensures Disjoint(AddressOf(page), PAGE_SIZE, AddressOf(run), n * PAGE_SIZE)
  {
    if run <= page < run + n { InRangeIff(page, run, n); }
  }
}
