/** What the heap owns, block by block, and the words it keeps in them. */
module HeapModel {
  import opened Base
  import opened Queues

  const HEADER_MAGIC: nat := 0x53484954
  const HEADER_SIZE: nat := 16
  const CLASS_COUNT: nat := 7
  const CLASS_LARGE: nat := 0xFFFF
  const LOW: nat := 0x1_0000_0000

  /** Chunk sizes, header included. */
  function ChunkSize(c: nat): nat
    requires c < CLASS_COUNT
  {
    [32, 64, 128, 256, 512, 1024, 2048][c]
  }

  /** The smallest class a payload fits in, or none. */
  ghost predicate IsClassFor(size: nat, c: nat) {
    if c < CLASS_COUNT then
      size + HEADER_SIZE <= ChunkSize(c) && forall k :: 0 <= k < c ==> size + HEADER_SIZE > ChunkSize(k)
    else c == CLASS_LARGE && size + HEADER_SIZE > 2048
  }

  method ClassFor(size: nat) returns (c: nat)
    ensures IsClassFor(size, c)
  {
    for i := 0 to CLASS_COUNT
      invariant forall k :: 0 <= k < i ==> size + HEADER_SIZE > ChunkSize(k)
    {
      if size + HEADER_SIZE <= ChunkSize(i) { return i; }
    }
    assert size + HEADER_SIZE > ChunkSize(6);
    return CLASS_LARGE;
  }

  // --- blocks

  datatype Status =
    | Free(class_: nat)
    | Small(class_: nat, size: nat)
    | Large(pages: nat, size: nat)
    | Aligned(pages: nat)

  function Length(st: Status): nat {
    match st
    case Free(c) => if c < CLASS_COUNT then ChunkSize(c) else 0
    case Small(c, _) => if c < CLASS_COUNT then ChunkSize(c) else 0
    case Large(pages, _) => pages * PAGE_SIZE
    case Aligned(pages) => pages * PAGE_SIZE
  }

  /** What a block adds to the bytes in use. */
  function InUse(st: Status): nat {
    match st
    case Free(_) => 0
    case Small(_, size) => size
    case Large(_, size) => size
    case Aligned(pages) => pages * PAGE_SIZE
  }

  /** Memory is dealt out in granules of the smallest chunk. */
  const GRANULE: nat := 32

  /** The first word of a header: magic, class, no flags. */
  function HeaderWord(class_: nat): nat {
    HEADER_MAGIC + class_ * LOW
  }

  /** `header->magic`: the low half of the first word. */
  function MagicOf(word: nat): nat {
    word % LOW
  }

  /**
   * The heap's words by address, and what they stand for: `blocks` by their start, the free chunks of each
   * class in list order, and for every granule the block it belongs to.
   */
  datatype Heap = Heap(words: map<nat, nat>, heads: seq<nat>)
  datatype Plan = Plan(blocks: map<nat, Status>, lists: seq<seq<nat>>, owner: map<nat, nat>)

  ghost predicate StatusOk(st: Status) {
    match st
    case Free(c) => c < CLASS_COUNT
    case Small(c, size) => c < CLASS_COUNT && 0 < size && size + HEADER_SIZE <= ChunkSize(c)
    case Large(pages, size) => 0 < size && size + HEADER_SIZE <= pages * PAGE_SIZE
    case Aligned(pages) => 0 < pages
  }

  /** The block is aligned, and its granules are its own. */
  ghost predicate Placed(p: Plan, a: nat)
    requires a in p.blocks
  {
    && StatusOk(p.blocks[a]) && 0 < a && a % GRANULE == 0
    && forall g {:trigger Owns(p, g, a)} :: a <= g * GRANULE < a + Length(p.blocks[a]) ==> Owns(p, g, a)
  }

  ghost predicate Owns(p: Plan, g: int, a: nat) {
    g >= 0 && g in p.owner && p.owner[g] == a
  }

  /** What a block's first words say. */
  ghost predicate Labelled(h: Heap, p: Plan, a: nat)
    requires a in p.blocks
  {
    match p.blocks[a]
    case Free(_) => a in h.words && h.words[a] % GRANULE == 0
    case Small(c, size) => a in h.words && h.words[a] == HeaderWord(c) && a + 8 in h.words && h.words[a + 8] == size
    case Large(_, size) => a in h.words && h.words[a] == HeaderWord(CLASS_LARGE) && a + 8 in h.words &&
      h.words[a + 8] == size
    case Aligned(_) => true
  }

  /** A chain of links from `head`, ending in null, that visits exactly `list`. */
  ghost predicate Chain(words: map<nat, nat>, head: nat, list: seq<nat>)
    decreases |list|
  {
    if list == [] then head == 0
    else head == list[0] && head != 0 && head in words && Chain(words, words[head], list[1..])
  }

  ghost predicate ListOk(h: Heap, p: Plan, c: nat)
    requires c < |h.heads| && c < |p.lists|
  {
    && Chain(h.words, h.heads[c], p.lists[c]) && NoDup(p.lists[c])
    && forall a :: a in p.lists[c] <==> a in p.blocks && p.blocks[a] == Free(c)
  }

  ghost predicate HeapOk(h: Heap, p: Plan) {
    && |h.heads| == CLASS_COUNT && |p.lists| == CLASS_COUNT
    && (forall a {:trigger Placed(p, a)} :: a in p.blocks ==> Placed(p, a))
    && (forall a {:trigger Labelled(h, p, a)} :: a in p.blocks ==> Labelled(h, p, a))
    && (forall c {:trigger ListOk(h, p, c)} :: 0 <= c < CLASS_COUNT ==> ListOk(h, p, c))
  }

  // --- what it means

  /** Two blocks share no byte; in particular no two live payloads do. */
  lemma BlocksApart(h: Heap, p: Plan, a: nat, b: nat)
    requires HeapOk(h, p) && a in p.blocks && b in p.blocks && a != b
    ensures a + Length(p.blocks[a]) <= b || b + Length(p.blocks[b]) <= a
  {
    assert Placed(p, a) && Placed(p, b);
    var ga, gb := a / GRANULE, b / GRANULE;
    assert ga * GRANULE == a && gb * GRANULE == b;
    assert Owns(p, ga, a) && Owns(p, gb, b);
    assert b <= a < b + Length(p.blocks[b]) ==> Owns(p, ga, b);
    assert a <= b < a + Length(p.blocks[a]) ==> Owns(p, gb, a);
  }

  /** The first word of a free chunk never reads as a header: a second free is always caught. */
  lemma DoubleFreeCaught(h: Heap, p: Plan, a: nat)
    requires HeapOk(h, p) && a in p.blocks && p.blocks[a].Free?
    ensures a in h.words && MagicOf(h.words[a]) != HEADER_MAGIC
  {
    assert Labelled(h, p, a);
    AlignedLow(h.words[a]);
  }

  lemma AlignedLow(n: nat)
    requires n % GRANULE == 0
    ensures (n % LOW) % GRANULE == 0 && MagicOf(n) != HEADER_MAGIC
  {
    assert HEADER_MAGIC % GRANULE == 20;
    var q := n / LOW;
    assert n == q * LOW + n % LOW;
    assert LOW == 134217728 * GRANULE;
    assert n % LOW == n - (q * 134217728) * GRANULE;
  }

  /** A live block's header carries the magic, so freeing it once succeeds. */
  lemma LiveAccepted(h: Heap, p: Plan, a: nat)
    requires HeapOk(h, p) && a in p.blocks && (p.blocks[a].Small? || p.blocks[a].Large?)
    ensures a in h.words && MagicOf(h.words[a]) == HEADER_MAGIC
  {
    assert Labelled(h, p, a);
    HeaderMagic(if p.blocks[a].Small? then p.blocks[a].class_ else CLASS_LARGE);
  }

  lemma HeaderMagic(class_: nat)
    ensures MagicOf(HeaderWord(class_)) == HEADER_MAGIC
  {
  }

  // --- changes

  lemma {:induction false} ChainFrame(words: map<nat, nat>, words': map<nat, nat>, head: nat, list: seq<nat>)
    requires Chain(words, head, list)
    requires forall x :: x in list && x in words ==> x in words' && words'[x] == words[x]
    ensures Chain(words', head, list)
    decreases |list|
  {
    if list != [] { ChainFrame(words, words', words[head], list[1..]); }
  }

  /** Nothing the lists or labels depend on changed, except at `a` and in the list of class `c`. */
  ghost predicate Beside(h: Heap, p: Plan, h': Heap, p': Plan, a: nat, c: nat) {
    && |h'.heads| == |h.heads| == CLASS_COUNT && |p'.lists| == |p.lists| == CLASS_COUNT
    && (forall k :: 0 <= k < CLASS_COUNT && k != c ==> h'.heads[k] == h.heads[k] && p'.lists[k] == p.lists[k])
    && (forall x :: x in p.blocks && x != a ==> x in p'.blocks && p'.blocks[x] == p.blocks[x])
    && (forall x :: x in p'.blocks && x != a ==> x in p.blocks)
    && (forall x :: x in h.words && x != a && x != a + 8 ==> x in h'.words && h'.words[x] == h.words[x])
  }

  lemma OtherList(h: Heap, p: Plan, h': Heap, p': Plan, a: nat, c: nat, k: nat)
    requires HeapOk(h, p) && Beside(h, p, h', p', a, c) && k < CLASS_COUNT && k != c && a % GRANULE == 0
    requires a in p.blocks ==> p.blocks[a] != Free(k)
    requires a in p'.blocks ==> p'.blocks[a] != Free(k)
    ensures ListOk(h', p', k)
  {
    assert ListOk(h, p, k);
    forall x | x in p.lists[k] && x in h.words ensures x in h'.words && h'.words[x] == h.words[x] {
      assert Placed(p, x);
    }
    ChainFrame(h.words, h'.words, h.heads[k], p.lists[k]);
  }

  lemma OtherLabel(h: Heap, p: Plan, h': Heap, p': Plan, a: nat, c: nat, b: nat)
    requires HeapOk(h, p) && Beside(h, p, h', p', a, c) && b in p'.blocks && b != a && a % GRANULE == 0
    ensures b in p.blocks && Labelled(h', p', b)
  {
    assert Placed(p, b) && Labelled(h, p, b);
  }

  /** The first chunk of a list is handed out. */
  function PopHeap(h: Heap, c: nat, size: nat): Heap
    requires c < |h.heads| && h.heads[c] in h.words
  {
    var a := h.heads[c];
    Heap(h.words[a := HeaderWord(c)][a + 8 := size], h.heads[c := h.words[a]])
  }

  ghost function PopPlan(p: Plan, c: nat, size: nat): Plan
    requires c < |p.lists| && p.lists[c] != []
  {
    p.(blocks := p.blocks[p.lists[c][0] := Small(c, size)], lists := p.lists[c := p.lists[c][1..]])
  }

  lemma PopKeeps(h: Heap, p: Plan, c: nat, size: nat)
    requires HeapOk(h, p) && c < CLASS_COUNT && h.heads[c] != 0 && 0 < size && size + HEADER_SIZE <= ChunkSize(c)
    ensures ListOk(h, p, c) && p.lists[c] != [] && p.lists[c][0] == h.heads[c] && h.heads[c] in h.words
    ensures p.lists[c][0] in p.blocks && p.blocks[p.lists[c][0]] == Free(c)
    ensures HeapOk(PopHeap(h, c, size), PopPlan(p, c, size))
  {
    assert ListOk(h, p, c);
    var a, list := h.heads[c], p.lists[c];
    assert a in list;
    var h', p' := PopHeap(h, c, size), PopPlan(p, c, size);
    assert Placed(p, a);
    TailNoDup(list);
    forall x | x in list[1..] && x in h.words ensures x in h'.words && h'.words[x] == h.words[x] {
      assert Placed(p, x);
    }
    ChainFrame(h.words, h'.words, h.words[a], list[1..]);
    assert Beside(h, p, h', p', a, c);
    forall b | b in p'.blocks ensures Placed(p', b) && Labelled(h', p', b) {
      assert Placed(p, b);
      forall g | b <= g * GRANULE < b + Length(p'.blocks[b]) ensures Owns(p', g, b) { assert Owns(p, g, b); }
      if b != a { OtherLabel(h, p, h', p', a, c, b); }
    }
    forall k | 0 <= k < CLASS_COUNT ensures ListOk(h', p', k) {
      if k != c { OtherList(h, p, h', p', a, c, k); }
    }
  }

  /** A chunk goes to the front of its class's list. */
  function PushHeap(h: Heap, c: nat, a: nat): Heap
    requires c < |h.heads|
  {
    Heap(h.words[a := h.heads[c]], h.heads[c := a])
  }

  ghost function PushPlan(p: Plan, c: nat, a: nat): Plan
    requires c < |p.lists|
  {
    p.(blocks := p.blocks[a := Free(c)], lists := p.lists[c := [a] + p.lists[c]])
  }

  lemma HeadAligned(h: Heap, p: Plan, c: nat)
    requires HeapOk(h, p) && c < CLASS_COUNT
    ensures h.heads[c] % GRANULE == 0
  {
    assert ListOk(h, p, c);
    if p.lists[c] != [] {
      assert h.heads[c] in p.lists[c];
      assert Placed(p, h.heads[c]);
    }
  }

  lemma PushKeeps(h: Heap, p: Plan, c: nat, a: nat)
    requires HeapOk(h, p) && c < CLASS_COUNT && a % GRANULE == 0 && a > 0
    requires a in p.blocks ==> !p.blocks[a].Free?
    requires forall g {:trigger Owns(p, g, a)} :: a <= g * GRANULE < a + ChunkSize(c) ==> Owns(p, g, a)
    ensures HeapOk(PushHeap(h, c, a), PushPlan(p, c, a))
  {
    assert ListOk(h, p, c);
    HeadAligned(h, p, c);
    var h', p', list := PushHeap(h, c, a), PushPlan(p, c, a), p.lists[c];
    forall x | x in list && x in h.words ensures x in h'.words && h'.words[x] == h.words[x] { }
    ChainFrame(h.words, h'.words, h.heads[c], list);
    PrependNoDup(list, a);
    assert ([a] + list)[1..] == list;
    assert Beside(h, p, h', p', a, c);
    forall b | b in p'.blocks ensures Placed(p', b) && Labelled(h', p', b) {
      if b != a {
        assert Placed(p, b);
        forall g | b <= g * GRANULE < b + Length(p'.blocks[b]) ensures Owns(p', g, b) { assert Owns(p, g, b); }
        OtherLabel(h, p, h', p', a, c, b);
      } else {
        forall g | b <= g * GRANULE < b + Length(p'.blocks[b]) ensures Owns(p', g, b) { assert Owns(p, g, b); }
      }
    }
    forall k | 0 <= k < CLASS_COUNT ensures ListOk(h', p', k) {
      if k != c { OtherList(h, p, h', p', a, c, k); }
    }
  }

  /** Nobody owns any of that memory. */
  ghost predicate Unowned(p: Plan, a: nat, length: nat) {
    forall g {:trigger g in p.owner} :: a <= g * GRANULE < a + length ==> g !in p.owner
  }

  ghost function Claimed(p: Plan, a: nat, length: nat): Plan {
    p.(owner := p.owner + (map g | 0 <= g < a + length && a <= g * GRANULE < a + length :: a))
  }

  lemma ClaimKeeps(h: Heap, p: Plan, a: nat, length: nat)
    requires HeapOk(h, p) && Unowned(p, a, length)
    ensures HeapOk(h, Claimed(p, a, length))
    ensures forall g {:trigger Owns(Claimed(p, a, length), g, a)} :: a <= g * GRANULE < a + length ==>
      Owns(Claimed(p, a, length), g, a)
  {
    var p' := Claimed(p, a, length);
    forall b | b in p'.blocks ensures Placed(p', b) && Labelled(h, p', b) {
      assert Placed(p, b) && Labelled(h, p, b);
      forall g | b <= g * GRANULE < b + Length(p'.blocks[b]) ensures Owns(p', g, b) { assert Owns(p, g, b); }
    }
    forall k | 0 <= k < CLASS_COUNT ensures ListOk(h, p', k) { assert ListOk(h, p, k); }
  }

  /** A block that is on no list appears, or changes what it is. */
  lemma SetBlockKeeps(h: Heap, p: Plan, h': Heap, a: nat, st: Status)
    requires HeapOk(h, p) && a % GRANULE == 0 && a > 0 && StatusOk(st) && !st.Free?
    requires a in p.blocks ==> !p.blocks[a].Free?
    requires forall g {:trigger Owns(p, g, a)} :: a <= g * GRANULE < a + Length(st) ==> Owns(p, g, a)
    requires Beside(h, p, h', p.(blocks := p.blocks[a := st]), a, CLASS_COUNT) &&
      Labelled(h', p.(blocks := p.blocks[a := st]), a)
    ensures HeapOk(h', p.(blocks := p.blocks[a := st]))
  {
    var p' := p.(blocks := p.blocks[a := st]);
    forall b | b in p'.blocks ensures Placed(p', b) && Labelled(h', p', b) {
      if b != a {
        assert Placed(p, b);
        OtherLabel(h, p, h', p', a, CLASS_COUNT, b);
      }
      forall g | b <= g * GRANULE < b + Length(p'.blocks[b]) ensures Owns(p', g, b) { assert Owns(p, g, b); }
    }
    forall k | 0 <= k < CLASS_COUNT ensures ListOk(h', p', k) { OtherList(h, p, h', p', a, CLASS_COUNT, k); }
  }

  ghost function Removed(p: Plan, a: nat): Plan {
    p.(blocks := p.blocks - {a}, owner := map g | g in p.owner && p.owner[g] != a :: p.owner[g])
  }

  /** A block given back: its memory is nobody's, and nothing else changes. */
  lemma RemoveKeeps(h: Heap, p: Plan, h': Heap, a: nat)
    requires HeapOk(h, p) && a in p.blocks && !p.blocks[a].Free? && Beside(h, p, h', Removed(p, a), a, CLASS_COUNT)
    ensures HeapOk(h', Removed(p, a)) && Unowned(Removed(p, a), a, Length(p.blocks[a]))
  {
    var p' := Removed(p, a);
    assert Placed(p, a);
    forall b | b in p'.blocks ensures Placed(p', b) && Labelled(h', p', b) {
      assert Placed(p, b);
      OtherLabel(h, p, h', p', a, CLASS_COUNT, b);
      forall g | b <= g * GRANULE < b + Length(p'.blocks[b]) ensures Owns(p', g, b) { assert Owns(p, g, b); }
    }
    forall k | 0 <= k < CLASS_COUNT ensures ListOk(h', p', k) { OtherList(h, p, h', p', a, CLASS_COUNT, k); }
    forall g | a <= g * GRANULE < a + Length(p.blocks[a]) ensures g !in p'.owner { assert Owns(p, g, a); }
  }

  // --- the bytes in use

  ghost function Total(blocks: map<nat, Status>): nat {
    if blocks == map[] then 0
    else var a :| a in blocks; InUse(blocks[a]) + Total(blocks - {a})
  }

  lemma {:induction false} TotalWithout(blocks: map<nat, Status>, x: nat)
    requires x in blocks
    ensures Total(blocks) == InUse(blocks[x]) + Total(blocks - {x})
  {
    var a :| a in blocks && Total(blocks) == InUse(blocks[a]) + Total(blocks - {a});
    if a != x {
      TotalWithout(blocks - {a}, x);
      TotalWithout(blocks - {x}, a);
      assert blocks - {a} - {x} == blocks - {x} - {a};
    }
  }

  lemma TotalPut(blocks: map<nat, Status>, x: nat, st: Status)
    ensures Total(blocks[x := st]) == Total(blocks) + InUse(st) - (if x in blocks then InUse(blocks[x]) else 0)
  {
    TotalWithout(blocks[x := st], x);
    assert blocks[x := st] - {x} == blocks - {x};
    if x in blocks { TotalWithout(blocks, x); } else { assert blocks - {x} == blocks; }
  }
}
