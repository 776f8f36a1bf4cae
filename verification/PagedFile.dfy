/** A file kept as a list of pages, against the flat string of bytes it stands for. */
module PagedFile {
  import opened Base

  type Page = p: seq<Byte> | |p| == PAGE_SIZE witness seq(PAGE_SIZE, _ => 0)

  function ZeroPage(): Page {
    seq(PAGE_SIZE, _ => 0)
  }

  function PagesFor(bytes: nat): nat {
    (bytes + PAGE_SIZE - 1) / PAGE_SIZE
  }

  lemma PagesForBounds(bytes: nat)
    ensures bytes <= PagesFor(bytes) * PAGE_SIZE < bytes + PAGE_SIZE
  {
  }

  lemma PagesForGrows(a: nat, b: nat)
    requires a <= b
    ensures PagesFor(a) <= PagesFor(b)
  {
  }

  predicate InPages(pages: seq<Page>, i: int) {
    0 <= i < |pages| * PAGE_SIZE
  }

  lemma PageOf(pages: seq<Page>, i: int)
    requires InPages(pages, i)
    ensures 0 <= i / PAGE_SIZE < |pages| && 0 <= i % PAGE_SIZE < PAGE_SIZE &&
      i == (i / PAGE_SIZE) * PAGE_SIZE + i % PAGE_SIZE
  {
  }

  /** The byte at a position in the file. */
  function ByteAt(pages: seq<Page>, i: int): Byte
    requires InPages(pages, i)
  {
    PageOf(pages, i);
    pages[i / PAGE_SIZE][i % PAGE_SIZE]
  }

  /** The file's contents. */
  ghost function Flat(pages: seq<Page>, size: nat): (r: seq<Byte>)
    requires size <= |pages| * PAGE_SIZE
    ensures |r| == size
  {
    seq(size, i requires 0 <= i < size => ByteAt(pages, i))
  }

  // --- the flat file

  /** A write puts the data there; a gap before it reads as zeroes. */
  function Written(bytes: seq<Byte>, offset: nat, data: seq<Byte>): (r: seq<Byte>)
    ensures |r| == if offset + |data| > |bytes| then offset + |data| else |bytes|
  {
    var size := if offset + |data| > |bytes| then offset + |data| else |bytes|;
    seq(size, i requires 0 <= i < size =>
      if offset <= i < offset + |data| then data[i - offset] else if i < |bytes| then bytes[i] else 0)
  }

  /** Cut off, or filled up with zeroes. */
  function Resized(bytes: seq<Byte>, size: nat): (r: seq<Byte>)
    ensures |r| == size
  {
    seq(size, i requires 0 <= i < size => if i < |bytes| then bytes[i] else 0)
  }

  function Slice(bytes: seq<Byte>, offset: nat, length: nat): seq<Byte> {
    if offset >= |bytes| then []
    else bytes[offset..if length < |bytes| - offset then offset + length else |bytes|]
  }

  // --- reading what was written

  /** A read gives the bytes from the offset on, as many as were asked for and are there. */
  lemma SliceAt(bytes: seq<Byte>, offset: nat, length: nat)
    ensures |Slice(bytes, offset, length)| ==
      if offset >= |bytes| then 0 else if length < |bytes| - offset then length else |bytes| - offset
    ensures forall i :: 0 <= i < |Slice(bytes, offset, length)| ==> Slice(bytes, offset, length)[i] == bytes[offset + i]
  {
  }

  /** Two reads in a row are one. */
  lemma ReadOn(bytes: seq<Byte>, offset: nat, first: nat, second: nat)
    ensures Slice(bytes, offset, first) + Slice(bytes, offset + first, second) == Slice(bytes, offset, first + second)
  {
  }

  /** What was written is read back, what lies before a gap and after the data is as it was, and the gap is zero. */
  lemma ReadBack(bytes: seq<Byte>, offset: nat, data: seq<Byte>)
    ensures var after := Written(bytes, offset, data);
      && (data != [] ==> Slice(after, offset, |data|) == data)
      && Slice(after, 0, offset) == Resized(bytes, offset)
      && Slice(after, offset + |data|, |bytes|) == Slice(bytes, offset + |data|, |bytes|)
  {
    var after, end := Written(bytes, offset, data), offset + |data|;
    SliceAt(after, offset, |data|);
    SliceAt(after, 0, offset);
    SliceAt(after, end, |bytes|);
    SliceAt(bytes, end, |bytes|);
    assert |Slice(after, 0, offset)| == offset;
    assert |Slice(after, end, |bytes|)| == |Slice(bytes, end, |bytes|)|;
    forall i | 0 <= i < |Slice(bytes, end, |bytes|)|
      ensures Slice(after, end, |bytes|)[i] == Slice(bytes, end, |bytes|)[i] { }
    if data != [] { assert |Slice(after, offset, |data|)| == |data|; }
  }

  /** A file cut or stretched keeps its beginning, and the new end is zero. */
  lemma ReadResized(bytes: seq<Byte>, size: nat)
    ensures var kept := if size < |bytes| then size else |bytes|;
      && Slice(Resized(bytes, size), 0, kept) == bytes[..kept]
      && Slice(Resized(bytes, size), kept, size) == seq(size - kept, _ => 0)
  {
  }

  // --- pages

  /** Part of one page overwritten, seen through the whole file. */
  lemma OverwriteByte(pages: seq<Page>, index: nat, within: nat, chunk: seq<Byte>, i: int)
    requires index < |pages| && within + |chunk| <= PAGE_SIZE && InPages(pages, i)
    ensures var page := pages[index]; var pages' := pages[index := page[..within] + chunk + page[within + |chunk|..]];
      var start := index * PAGE_SIZE + within;
      ByteAt(pages', i) == if start <= i < start + |chunk| then chunk[i - start] else ByteAt(pages, i)
  {
    PageOf(pages, i);
    if i / PAGE_SIZE < index { assert i < index * PAGE_SIZE; }
    if i / PAGE_SIZE > index { assert i >= (index + 1) * PAGE_SIZE; }
  }

  /** Everything from there to the end of the pages is zero. */
  ghost predicate ZeroFrom(pages: seq<Page>, from: nat) {
    forall i :: from <= i && InPages(pages, i) ==> ByteAt(pages, i) == 0
  }

  lemma AppendZero(pages: seq<Page>, from: nat)
    requires ZeroFrom(pages, from)
    ensures ZeroFrom(pages + [ZeroPage()], from)
    ensures forall i :: InPages(pages, i) ==>
      && InPages(pages + [ZeroPage()], i)
      && ByteAt(pages + [ZeroPage()], i) == ByteAt(pages, i)
  {
    var longer := pages + [ZeroPage()];
    forall i | InPages(longer, i)
      ensures if InPages(pages, i) then ByteAt(longer, i) == ByteAt(pages, i) else ByteAt(longer, i) == 0 {
      PageOf(longer, i);
      if !InPages(pages, i) { assert i / PAGE_SIZE >= |pages|; }
    }
  }

  /** The bytes of `old`, and zeroes after them. */
  ghost predicate Extends(pages: seq<Page>, before: seq<Page>, size: nat) {
    && |before| <= |pages| && ZeroFrom(pages, size)
    && forall i :: InPages(before, i) ==> InPages(pages, i) && ByteAt(pages, i) == ByteAt(before, i)
  }

  class File {
    const isDirectory: bool
    var pages: seq<Page>
    var size: nat

    /** As many pages as the size needs, and zeroes past the end. */
    ghost predicate Valid()
      reads this
    {
      |pages| == PagesFor(size) && ZeroFrom(pages, size)
    }

    ghost function Contents(): seq<Byte>
      requires Valid()
      reads this
    {
      PagesForBounds(size);
      Flat(pages, size)
    }

    constructor (isDirectory: bool)
      ensures Valid() && Contents() == [] && this.isDirectory == isDirectory
    {
      this.isDirectory := isDirectory;
      pages, size := [], 0;
    }

    /** `release_pages_from`. */
    method ReleasePagesFrom(first: nat)
      modifies this`pages
      ensures pages == if first < |old(pages)| then old(pages)[..first] else old(pages)
    {
      while |pages| > first
        invariant |pages| <= |old(pages)| && pages == old(pages)[..|pages|] &&
          (first < |old(pages)| ==> first <= |pages|)
        invariant first >= |old(pages)| ==> pages == old(pages)
      {
        pages := pages[..|pages| - 1];
      }
    }

    /** `ensure_pages`, when the page allocator has `frames` pages left. */
    method EnsurePages(wanted: nat, frames: nat) returns (r: Result<()>)
      requires Valid()
      modifies this`pages
      ensures r.Ok? <==> PagesFor(wanted) <= |old(pages)| + frames || PagesFor(wanted) <= |old(pages)|
      ensures r.Err? ==> r.error == ENOMEM && pages == old(pages)
      ensures r.Ok? ==>
        && |pages| == (if PagesFor(wanted) > |old(pages)| then PagesFor(wanted) else |old(pages)|)
        && Extends(pages, old(pages), size)
    {
      ghost var before := pages;
      var left := frames;
      while |pages| < PagesFor(wanted)
        invariant |before| <= |pages| && |pages| + left == |before| + frames &&
          (|pages| <= PagesFor(wanted) || pages == before)
        invariant pages[..|before|] == before && Extends(pages, before, size)
        decreases PagesFor(wanted) - |pages|
      {
        if left == 0 {
          ReleasePagesFrom(PagesFor(size));
          return Err(ENOMEM);
        }
        AppendZero(pages, size);
        pages := pages + [ZeroPage()];
        left := left - 1;
      }
      return Ok(());
    }

    /** `read`. */
    method Read(offset: nat, length: nat) returns (r: Result<seq<Byte>>)
      requires Valid()
      ensures r == if isDirectory then Err(EISDIR) else Ok(Slice(Contents(), offset, length))
    {
      if isDirectory { return Err(EISDIR); }
      if offset >= size { return Ok([]); }
      PagesForBounds(size);
      var toCopy := if length < size - offset then length else size - offset;
      var out: seq<Byte> := [];
      while |out| < toCopy
        invariant |out| <= toCopy && out == Flat(pages, size)[offset..offset + |out|]
        decreases toCopy - |out|
      {
        var position := offset + |out|;
        PageOf(pages, position);
        var index, within := position / PAGE_SIZE, position % PAGE_SIZE;
        var run := if toCopy - |out| < PAGE_SIZE - within then toCopy - |out| else PAGE_SIZE - within;
        ReadMore(pages, size, offset, out, index, within, run);
        out := out + pages[index][within..within + run];
      }
      return Ok(out);
    }

    /** `write`, when the page allocator has `frames` pages left. */
    method Write(offset: nat, data: seq<Byte>, frames: nat) returns (r: Result<nat>)
      requires Valid()
      modifies this
      ensures Valid()
      ensures r.Ok? ==>
        && r.value == |data|
        && Contents() == if data == [] then old(Contents()) else Written(old(Contents()), offset, data)
      ensures r.Err? ==> Contents() == old(Contents()) && size == old(size)
      ensures r.Err? <==> isDirectory || (data != [] && PagesFor(offset + |data|) > PagesFor(old(size)) + frames)
      ensures r.Err? ==> r.error == if isDirectory then EISDIR else ENOMEM
    {
      if isDirectory { return Err(EISDIR); }
      if data == [] { return Ok(0); }
      var ensured := EnsurePages(offset + |data|, frames);
      if ensured.Err? { return Err(ensured.error); }
      ghost var before := pages;
      PagesForBounds(offset + |data|);
      CopyIn(offset, data);
      WrittenIs(old(pages), old(size), before, pages, offset, data);
      size := if offset + |data| > size then offset + |data| else size;
      return Ok(|data|);
    }

    /** The copying loop of `write`, a page or less at a time. */
    method CopyIn(offset: nat, data: seq<Byte>)
      requires offset + |data| <= |pages| * PAGE_SIZE
      modifies this`pages
      ensures |pages| == |old(pages)| && CopiedSoFar(pages, old(pages), offset, data, |data|)
    {
      var written := 0;
      while written < |data|
        invariant written <= |data| && |pages| == |old(pages)|
        invariant CopiedSoFar(pages, old(pages), offset, data, written)
        decreases |data| - written
      {
        var position := offset + written;
        PageOf(pages, position);
        var index, within := position / PAGE_SIZE, position % PAGE_SIZE;
        var run := if |data| - written < PAGE_SIZE - within then |data| - written else PAGE_SIZE - within;
        CopyRun(pages, old(pages), offset, data, written, index, within, run);
        var page := pages[index];
        pages := pages[index := page[..within] + data[written..written + run] + page[within + run..]];
        written := written + run;
      }
    }

    /** `truncate`, when the page allocator has `frames` pages left. */
    method Truncate(length: nat, frames: nat) returns (r: Result<()>)
      requires Valid()
      modifies this
      ensures Valid()
      ensures r.Ok? ==> Contents() == Resized(old(Contents()), length)
      ensures r.Err? ==> Contents() == old(Contents()) && size == old(size)
      ensures r.Err? <==> isDirectory || PagesFor(length) > PagesFor(old(size)) + frames
      ensures r.Err? ==> r.error == if isDirectory then EISDIR else ENOMEM
    {
      if isDirectory { return Err(EISDIR); }
      if length > size {
        PagesForGrows(size, length);
        var ensured := EnsurePages(length, frames);
        if ensured.Err? { return Err(ensured.error); }
        GrownIs(old(pages), old(size), pages, length);
      } else if length < size {
        PagesForGrows(length, size);
        var keep, within := PagesFor(length), length % PAGE_SIZE;
        if within != 0 && keep > 0 {
          var page := pages[keep - 1];
          pages := pages[keep - 1 := page[..within] + seq(PAGE_SIZE - within, _ => 0)];
        }
        ReleasePagesFrom(keep);
        ShrunkIs(old(pages), old(size), pages, length);
      } else {
        SameSize(pages, size);
      }
      size := length;
      return Ok(());
    }
  }

  lemma SameSize(pages: seq<Page>, size: nat)
    requires size <= |pages| * PAGE_SIZE || |pages| == PagesFor(size)
    ensures size <= |pages| * PAGE_SIZE && Resized(Flat(pages, size), size) == Flat(pages, size)
  {
    PagesForBounds(size);
  }

  lemma GrownIs(first: seq<Page>, size: nat, pages: seq<Page>, length: nat)
    requires |first| == PagesFor(size) && Extends(pages, first, size) && size < length && |pages| == PagesFor(length)
    ensures length <= |pages| * PAGE_SIZE && size <= |first| * PAGE_SIZE && ZeroFrom(pages, length)
    ensures Flat(pages, length) == Resized(Flat(first, size), length)
  {
    PagesForBounds(size);
    PagesForBounds(length);
  }

  /** The pages after shrinking: the last one kept is cleared past the new end. */
  function Shrunk(pages: seq<Page>, length: nat): seq<Page>
    requires PagesFor(length) <= |pages|
  {
    var keep, within := PagesFor(length), length % PAGE_SIZE;
    (if within != 0 && keep > 0 then
       pages[keep - 1 := pages[keep - 1][..within] + seq(PAGE_SIZE - within, _ => 0)]
     else pages)[..keep]
  }

  lemma LastPage(length: nat)
    requires length % PAGE_SIZE != 0
    ensures PagesFor(length) > 0 && (PagesFor(length) - 1) * PAGE_SIZE + length % PAGE_SIZE == length
  {
  }

  lemma WholePages(length: nat)
    requires length % PAGE_SIZE == 0
    ensures PagesFor(length) * PAGE_SIZE == length
  {
  }

  lemma ShrunkByte(pages: seq<Page>, length: nat, i: int)
    requires PagesFor(length) <= |pages| && InPages(Shrunk(pages, length), i)
    ensures InPages(pages, i) && ByteAt(Shrunk(pages, length), i) == if i < length then ByteAt(pages, i) else 0
  {
    var keep, within := PagesFor(length), length % PAGE_SIZE;
    PageOf(Shrunk(pages, length), i);
    if within != 0 {
      LastPage(length);
      var zeroes: seq<Byte> := seq(PAGE_SIZE - within, _ => 0);
      OverwriteByte(pages, keep - 1, within, zeroes, i);
      assert pages[keep - 1][within + |zeroes|..] == [];
    } else {
      WholePages(length);
    }
  }

  lemma ShrunkIs(first: seq<Page>, size: nat, pages: seq<Page>, length: nat)
    requires |first| == PagesFor(size) && length < size && PagesFor(length) <= |first| && pages == Shrunk(first, length)
    ensures |pages| == PagesFor(length) && length <= |pages| * PAGE_SIZE && size <= |first| * PAGE_SIZE &&
      ZeroFrom(pages, length)
    ensures Flat(pages, length) == Resized(Flat(first, size), length)
  {
    PagesForBounds(size);
    PagesForBounds(length);
    forall i | InPages(pages, i)
      ensures InPages(first, i) && ByteAt(pages, i) == if i < length then ByteAt(first, i) else 0 {
      ShrunkByte(first, length, i);
    }
  }

  lemma ReadRun(pages: seq<Page>, size: nat, index: nat, within: nat, run: nat)
    requires index < |pages| && within + run <= PAGE_SIZE &&
      index * PAGE_SIZE + within + run <= size <= |pages| * PAGE_SIZE
    ensures pages[index][within..within + run] ==
      Flat(pages, size)[index * PAGE_SIZE + within..index * PAGE_SIZE + within + run]
  {
    var start := index * PAGE_SIZE + within;
    forall i | start <= i < start + run ensures Flat(pages, size)[i] == pages[index][i - index * PAGE_SIZE] {
      PageOf(pages, i);
      assert i / PAGE_SIZE == index;
    }
  }

  lemma ReadMore(pages: seq<Page>, size: nat, offset: nat, out: seq<Byte>, index: nat, within: nat, run: nat)
    requires size <= |pages| * PAGE_SIZE && offset + |out| + run <= size &&
      out == Flat(pages, size)[offset..offset + |out|]
    requires index < |pages| && within + run <= PAGE_SIZE && offset + |out| == index * PAGE_SIZE + within
    ensures out + pages[index][within..within + run] == Flat(pages, size)[offset..offset + |out| + run]
  {
    ReadRun(pages, size, index, within, run);
  }

  ghost predicate CopiedSoFar(pages: seq<Page>, before: seq<Page>, offset: nat, data: seq<Byte>, written: nat)
    requires |pages| == |before| && written <= |data|
  {
    forall i :: InPages(pages, i) ==>
      ByteAt(pages, i) == if offset <= i < offset + written then data[i - offset] else ByteAt(before, i)
  }

  lemma CopyRun(pages: seq<Page>, before: seq<Page>, offset: nat, data: seq<Byte>, written: nat, index: nat,
    within: nat, run: nat)
    requires |pages| == |before| && written + run <= |data| && CopiedSoFar(pages, before, offset, data, written)
    requires index < |pages| && within + run <= PAGE_SIZE && offset + written == index * PAGE_SIZE + within
    ensures var page := pages[index];
      var pages' := pages[index := page[..within] + data[written..written + run] + page[within + run..]];
      CopiedSoFar(pages', before, offset, data, written + run)
  {
    var page := pages[index];
    var chunk := data[written..written + run];
    var pages' := pages[index := page[..within] + chunk + page[within + run..]];
    forall i | InPages(pages', i)
      ensures ByteAt(pages', i) == if offset <= i < offset + written + run then data[i - offset] else ByteAt(before, i)
    {
      OverwriteByte(pages, index, within, chunk, i);
    }
  }

  lemma WrittenIs(first: seq<Page>, size: nat, before: seq<Page>, pages: seq<Page>, offset: nat, data: seq<Byte>)
    requires |first| == PagesFor(size) && Extends(before, first, size) && ZeroFrom(first, size) && data != []
    requires |before| == (if PagesFor(offset + |data|) > |first| then PagesFor(offset + |data|) else |first|)
    requires |pages| == |before| && CopiedSoFar(pages, before, offset, data, |data|)
    ensures var size' := if offset + |data| > size then offset + |data| else size;
      && |pages| == PagesFor(size') && ZeroFrom(pages, size') && size' <= |pages| * PAGE_SIZE &&
        size <= |first| * PAGE_SIZE
      && Flat(pages, size') == Written(Flat(first, size), offset, data)
  {
    PagesForBounds(size);
    PagesForBounds(offset + |data|);
    if size <= offset + |data| { PagesForGrows(size, offset + |data|); } else { PagesForGrows(offset + |data|, size); }
  }
}
