/**
 * The physical page allocator: a bitmap of 64-page words, a count of used pages and a search
 * hint. Every operation is specified by what it does to the set of free pages, and the hinted,
 * word-at-a-time search is proved to be plain first fit.
 */
module Physical {
  import opened Base

  /** One bitmap word, least significant bit first; a set bit means the page is in use. */
  type Word = w: seq<bool> | |w| == 64 witness seq(64, _ => false)

  predicate Full(w: Word) {
    forall k :: 0 <= k < 64 ==> w[k]
  }

  /** The lowest clear bit at or above `k`; what `__builtin_ctzll(~word)` answers for `k == 0`. */
  function LowestClear(w: Word, k: nat): (b: nat)
    requires k <= 64 && exists j :: k <= j < 64 && !w[j]
    ensures k <= b < 64 && !w[b]
    ensures forall j :: k <= j < b ==> w[j]
    decreases 64 - k
  {
    if !w[k] then k else LowestClear(w, k + 1)
  }

  // --- what the bitmap denotes

  predicate Test(b: seq<Word>, i: nat)
    requires i < 64 * |b|
  {
    b[i / 64][i % 64]
  }

  ghost function FreeSet(b: seq<Word>, total: nat): set<nat>
    requires total <= 64 * |b|
  {
    set i: nat | i < total && !Test(b, i)
  }

  ghost function UsedSet(b: seq<Word>, total: nat): set<nat>
    requires total <= 64 * |b|
  {
    set i: nat | i < total && Test(b, i)
  }

  function WithBit(b: seq<Word>, i: nat, v: bool): (c: seq<Word>)
    requires i < 64 * |b|
    ensures |c| == |b|
    ensures forall j: nat :: j < 64 * |b| ==> Test(c, j) == if j == i then v else Test(b, j)
  {
    var w: Word := b[i / 64][i % 64 := v];
    var c := b[i / 64 := w];
    assert forall j: nat | j < 64 * |b| :: Test(c, j) == if j == i then v else Test(b, j) by {
      forall j: nat | j < 64 * |b| ensures Test(c, j) == if j == i then v else Test(b, j) {
        SameWordSameBit(i, j);
      }
    }
    c
  }

  lemma SameWordSameBit(i: nat, j: nat)
    ensures i / 64 == j / 64 && i % 64 == j % 64 ==> i == j
  {
  }

  /** The words' bits are page numbers: word `w`, bit `k` is page `64 * w + k`. */
  lemma WordBit(b: seq<Word>, w: nat, k: nat)
    requires w < |b| && k < 64
    ensures Test(b, 64 * w + k) == b[w][k]
  {
  }

  ghost predicate IsLowest(p: nat, free: set<nat>) {
    p in free && forall q :: q in free ==> p <= q
  }

  lemma {:induction false} LowestExists(free: set<nat>)
    requires free != {}
    ensures exists p :: IsLowest(p, free)
  {
    var p :| p in free;
    if free == {p} {
      assert IsLowest(p, free);
    } else {
      LowestExists(free - {p});
      var r :| IsLowest(r, free - {p});
      assert free == (free - {p}) + {p};
      if p < r {
        assert IsLowest(p, free);
      } else {
        assert IsLowest(r, free);
      }
    }
  }

  ghost predicate IsFreeRun(start: nat, count: nat, free: set<nat>) {
    Range(start, count) <= free
  }

  predicate InRange(i: nat, first: nat, count: nat) {
    first <= i < first + count
  }

  ghost function Range(first: nat, count: nat): set<nat> {
    set i: nat | i < first + count && InRange(i, first, count)
  }

  ghost predicate NoneBelow(pages: set<nat>, hint: nat) {
    forall i :: i in pages ==> hint <= i
  }

  lemma UnionBelow(pages: set<nat>, more: set<nat>, hint: nat)
    ensures NoneBelow(pages + more, hint) <==> NoneBelow(pages, hint) && NoneBelow(more, hint)
  {
    forall i | i in more && NoneBelow(pages + more, hint) ensures hint <= i { assert i in pages + more; }
    forall i | i in pages && NoneBelow(pages + more, hint) ensures hint <= i { assert i in pages + more; }
  }

  lemma SplitPages(b: seq<Word>, total: nat)
    requires total <= 64 * |b|
    ensures |UsedSet(b, total)| + |FreeSet(b, total)| == total
  {
    var u, f := UsedSet(b, total), FreeSet(b, total);
    assert u + f == Range(0, total);
    assert u !! f;
    RangeSize(0, total);
  }

  lemma {:induction false} RangeSize(first: nat, count: nat)
    ensures |Range(first, count)| == count
  {
    if count == 0 {
      assert Range(first, 0) == {};
    } else {
      RangeSize(first, count - 1);
      assert Range(first, count) == Range(first, count - 1) + {first + count - 1};
    }
  }

  class PageAllocator {
    var bitmap: array<Word>
    var totalPages: nat
    var usedPages: nat
    var searchHint: nat

    /**
     * The count is exact, and the padding bits of the last word are set so that no search ever
     * lands on them.
     */
    ghost predicate Counted()
      reads this, bitmap
    {
      && bitmap.Length == (totalPages + 63) / 64
      && (forall i: nat :: totalPages <= i < 64 * bitmap.Length ==> Test(bitmap[..], i))
      && usedPages == |UsedSet(bitmap[..], totalPages)|
    }

    ghost function Free(): set<nat>
      reads this, bitmap
      requires Counted()
    {
      FreeSet(bitmap[..], totalPages)
    }

    /** Nothing below the hint is free. */
    ghost predicate Valid()
      reads this, bitmap
    {
      Counted() && NoneBelow(Free(), searchHint)
    }

    /** `memset(0xFF)`: every page starts out taken. */
    constructor (total: nat)
      ensures Valid() && fresh(bitmap) && totalPages == total && Free() == {}
      ensures usedPages == total
    {
      var full: Word := seq(64, _ => true);
      bitmap := new Word[(total + 63) / 64](_ => full);
      totalPages, usedPages, searchHint := total, total, 0;
      new;
      assert UsedSet(bitmap[..], total) == Range(0, total);
      RangeSize(0, total);
    }

    method TestBit(i: nat) returns (r: bool)
      requires i < 64 * bitmap.Length
      ensures r == Test(bitmap[..], i)
    {
      r := bitmap[i / 64][i % 64];
    }

    /** Sets or clears one bit and keeps the count in step. */
    method Flip(i: nat, v: bool)
      requires Counted() && i < totalPages
      requires Test(bitmap[..], i) != v
      modifies bitmap, this`usedPages
      ensures Counted()
      ensures Free() == if v then old(Free()) - {i} else old(Free()) + {i}
      ensures usedPages == if v then old(usedPages) + 1 else old(usedPages) - 1
    {
      ghost var before := bitmap[..];
      bitmap[i / 64] := bitmap[i / 64][i % 64 := v];
      assert bitmap[..] == WithBit(before, i, v);
      ghost var u := UsedSet(before, totalPages);
      if v {
        assert UsedSet(bitmap[..], totalPages) == u + {i};
        usedPages := usedPages + 1;
      } else {
        assert UsedSet(bitmap[..], totalPages) == u - {i};
        usedPages := usedPages - 1;
      }
    }

    /**
     * First fit: the lowest free page, or failure only when no page is free. The search itself
     * starts at the hint and steps a word at a time.
     */
    method AllocatePage() returns (r: Option<nat>)
      requires Valid()
      modifies this, bitmap
      ensures Valid() && bitmap == old(bitmap) && totalPages == old(totalPages)
      ensures r.None? ==> old(Free()) == {} && Free() == {}
      ensures r.Some? ==> IsLowest(r.value, old(Free())) && Free() == old(Free()) - {r.value}
    {
      for attempt := 0 to 2
        invariant Valid() && bitmap == old(bitmap) && totalPages == old(totalPages)
        invariant bitmap[..] == old(bitmap[..]) && Free() == old(Free())
        invariant attempt > 0 ==> Free() == {}
      {
        var start := if attempt == 0 then searchHint else 0;
        var limit := if attempt == 0 then totalPages else searchHint;
        assert forall i :: i in Free() ==> start <= i;
        var index := Search(start, limit, attempt);
        if index.Some? {
          Flip(index.value, true);
          searchHint := index.value + 1;
          return index;
        }
      }
      return None;
    }

    /** One pass of the search, from the word holding `start`. */
    method Search(start: nat, limit: nat, attempt: nat) returns (r: Option<nat>)
      requires Valid() && forall i :: i in Free() ==> start <= i
      requires attempt == 1 ==> Free() == {}
      ensures r.None? ==> Free() == {}
      ensures r.Some? ==> IsLowest(r.value, Free())
    {
      var word := start / 64;
      while word < bitmap.Length
        invariant forall i :: i in Free() ==> 64 * word <= i
      {
        if Full(bitmap[word]) {
          assert forall i :: i in Free() ==> i / 64 != word;
          word := word + 1;
          continue;
        }
        var bit := LowestClear(bitmap[word], 0);
        var index := word * 64 + bit;
        WordBit(bitmap[..], word, bit);
        assert index in Free();
        if index >= totalPages || (attempt == 1 && index >= limit) {
          break;
        }
        forall i | i in Free() ensures index <= i {
          if i < index { WordBit(bitmap[..], word, i - 64 * word); }
        }
        return Some(index);
      }
      return None;
    }

    /** The lowest run of `count` free pages, or failure only when there is no such run. */
    method AllocateContiguous(count: nat) returns (r: Option<nat>)
      requires Valid()
      modifies this, bitmap
      ensures Valid() && bitmap == old(bitmap) && totalPages == old(totalPages)
      ensures r.None? ==> Free() == old(Free())
      ensures r.None? && count > 0 ==> forall s: nat :: !IsFreeRun(s, count, old(Free()))
      ensures r.Some? ==> count > 0 && IsFreeRun(r.value, count, old(Free()))
      ensures r.Some? ==> forall s: nat :: IsFreeRun(s, count, old(Free())) ==> r.value <= s
      ensures r.Some? ==> Free() == old(Free()) - Range(r.value, count)
    {
      if count == 0 {
        return None;
      }
      if count == 1 {
        r := AllocatePage();
        RunOfOne(old(Free()), r);
        return;
      }
      r := FindRun(count);
      if r.Some? {
        MarkUsed(r.value, count);
      }
    }

    /** The scan of `AllocateContiguous`: the current run of clear bits, restarted at every set bit. */
    method FindRun(count: nat) returns (r: Option<nat>)
      requires Valid() && count > 0
      ensures r.None? ==> forall s: nat :: !IsFreeRun(s, count, Free())
      ensures r.Some? ==> IsFreeRun(r.value, count, Free())
      ensures r.Some? ==> forall s: nat :: IsFreeRun(s, count, Free()) ==> r.value <= s
    {
      var runStart, runLength := 0, 0;
      for index := 0 to totalPages
        invariant Scanning(index, runLength, count, Free()) && (runLength > 0 ==> runStart == index - runLength)
      {
        if bitmap[index / 64][index % 64] {
          ScanUsed(index, runLength, count, Free());
          runLength := 0;
          continue;
        }
        if runLength == 0 {
          runStart := index;
        }
        ScanFree(index, runLength, count, Free());
        runLength := runLength + 1;
        if runLength == count {
          return Some(runStart);
        }
      }
      RunsFit(count, totalPages, Free());
      return None;
    }

    method MarkUsed(first: nat, count: nat)
      requires Counted()
      modifies bitmap, this`usedPages
      ensures Counted() && Free() == old(Free()) - Range(first, count)
    {
      var i := first;
      while i < first + count && i < totalPages
        invariant first <= i <= first + count
        invariant Counted() && Free() == old(Free()) - Range(first, i - first)
      {
        if !bitmap[i / 64][i % 64] {
          Flip(i, true);
        }
        i := i + 1;
      }
    }

    /** Hands back usable RAM at start-up. It leaves the hint alone, so it must not free anything below it. */
    method MarkFree(first: nat, count: nat)
      requires Valid()
      modifies bitmap, this`usedPages
      ensures Counted() && (Valid() <==> NoneBelow(Range(first, count) * Range(0, totalPages), searchHint))
      ensures Free() == old(Free()) + (Range(first, count) * Range(0, totalPages))
    {
      var i := first;
      while i < first + count && i < totalPages
        invariant first <= i <= first + count
        invariant Counted()
        invariant Free() == old(Free()) + Range(first, i - first)
      {
        if bitmap[i / 64][i % 64] {
          Flip(i, false);
        }
        i := i + 1;
      }
      ghost var freed := Range(first, count) * Range(0, totalPages);
      assert Free() == old(Free()) + freed;
      UnionBelow(old(Free()), freed, searchHint);
    }

    /**
     * Freeing. The panic is a result: it happens exactly when some page of the range was free
     * already. A range starting past the end is ignored.
     */
    method FreeContiguous(first: nat, count: nat) returns (panicked: bool)
      requires Valid()
      modifies this, bitmap
      ensures bitmap == old(bitmap) && totalPages == old(totalPages)
      ensures panicked <==> first < totalPages && Range(first, count) * old(Free()) != {}
      ensures !panicked ==> Valid()
      ensures !panicked ==> Free() == old(Free()) + (Range(first, count) * Range(0, totalPages))
    {
      if first >= totalPages {
        return false;
      }
      panicked := ClearRange(first, count);
      if !panicked {
        searchHint := if first < searchHint then first else searchHint;
      }
    }

    /** Clears the bits one by one, stopping at the first that is clear already. */
    method ClearRange(first: nat, count: nat) returns (panicked: bool)
      requires Counted() && first < totalPages
      modifies bitmap, this`usedPages
      ensures panicked <==> Range(first, count) * old(Free()) != {}
      ensures !panicked ==> Counted()
      ensures !panicked ==> Free() == old(Free()) + (Range(first, count) * Range(0, totalPages))
    {
      var i := first;
      while i < first + count && i < totalPages
        invariant first <= i <= first + count && i <= totalPages
        invariant Counted() && Cleared(old(Free()), Free(), first, i - first)
      {
        if !bitmap[i / 64][i % 64] {
          StillFree(old(Free()), Free(), first, i - first, count);
          return true;
        }
        ghost var before := Free();
        Flip(i, false);
        ClearedNext(old(Free()), before, first, i - first);
        i := i + 1;
      }
      ClearedAll(old(Free()), Free(), first, i - first, count, totalPages);
      return false;
    }
  }

  /** `free` is `before` with `done` more pages from `first` up, none of which was free. */
  ghost predicate Cleared(before: set<nat>, free: set<nat>, first: nat, done: nat) {
    free == before + Range(first, done) && before !! Range(first, done)
  }

  lemma ClearedNext(before: set<nat>, free: set<nat>, first: nat, done: nat)
    requires Cleared(before, free, first, done) && first + done !in free
    ensures Cleared(before, free + {first + done}, first, done + 1)
  {
    assert Range(first, done + 1) == Range(first, done) + {first + done};
  }

  lemma StillFree(before: set<nat>, free: set<nat>, first: nat, done: nat, count: nat)
    requires Cleared(before, free, first, done) && done < count && first + done in free
    ensures Range(first, count) * before != {}
  {
    assert first + done in Range(first, count) * before;
  }

  lemma ClearedAll(before: set<nat>, free: set<nat>, first: nat, done: nat, count: nat, total: nat)
    requires Cleared(before, free, first, done) && first < total
    requires done <= count && first + done <= total && (done == count || first + done == total)
    requires forall i :: i in before ==> i < total
    ensures Range(first, count) * before == {}
    ensures free == before + (Range(first, count) * Range(0, total))
  {
    assert Range(first, done) == Range(first, count) * Range(0, total);
  }

  lemma NoRunThrough(hole: nat, index: nat, count: nat, free: set<nat>)
    requires hole !in free && hole <= index < hole + count
    ensures index + 1 >= count ==> !IsFreeRun(index + 1 - count, count, free)
  {
    if index + 1 >= count {
      assert hole in Range(index + 1 - count, count);
    }
  }

  /** The pages before `index` end in a run of that many free ones, and no run of `count` has come by. */
  ghost predicate Scanning(index: nat, run: nat, count: nat, free: set<nat>) {
    && run <= index && run < count && Range(index - run, run) <= free && (run < index ==> index - run - 1 !in free)
    && forall s: nat :: s + count <= index ==> !IsFreeRun(s, count, free)
  }

  lemma ScanUsed(index: nat, run: nat, count: nat, free: set<nat>)
    requires Scanning(index, run, count, free) && index !in free
    ensures Scanning(index + 1, 0, count, free)
  {
    NoRunThrough(index, index, count, free);
  }

  lemma ScanFree(index: nat, run: nat, count: nat, free: set<nat>)
    requires Scanning(index, run, count, free) && index in free
    ensures run + 1 < count ==> Scanning(index + 1, run + 1, count, free)
    ensures run + 1 == count ==>
      IsFreeRun(index - run, count, free) && forall s: nat :: IsFreeRun(s, count, free) ==> index - run <= s
  {
    assert Range(index - run, run + 1) <= free;
    if run + 1 < count && run < index { NoRunThrough(index - run - 1, index, count, free); }
  }

  /** The lowest free page is the lowest run of one. */
  lemma RunOfOne(free: set<nat>, r: Option<nat>)
    requires if r.Some? then IsLowest(r.value, free) else free == {}
    ensures r.Some? ==> Range(r.value, 1) == {r.value} && IsFreeRun(r.value, 1, free)
    ensures forall s: nat :: IsFreeRun(s, 1, free) ==> r.Some? && r.value <= s
  {
    assert r.Some? ==> Range(r.value, 1) == {r.value};
    forall s: nat | IsFreeRun(s, 1, free) ensures s in free { assert s in Range(s, 1); }
  }

  lemma RunsFit(count: nat, total: nat, free: set<nat>)
    requires count > 0 && forall i :: i in free ==> i < total
    requires forall s: nat :: s + count <= total ==> !IsFreeRun(s, count, free)
    ensures forall s: nat :: !IsFreeRun(s, count, free)
  {
    forall s: nat ensures !IsFreeRun(s, count, free) {
      if s + count > total {
        assert s + count - 1 in Range(s, count);
      }
    }
  }
}
