/** Copying in and out of a space that is not the active one, page by page through its tables. */
module UserCopy {
  import opened Base
  import opened PageTables
  import opened PageMaps
  import opened Isolation
  import opened AddressSpaces

  /** A mapped page's memory is there to be read. */
  lemma MappedHasData(s: State, t: Tree, sp: nat, n: nat)
    requires Inv(s, t) && sp in s.spaces && n in PageMap(s, sp)
    ensures PageMap(s, sp)[n].frame in s.data
  {
    if PageMap(s, sp)[n].flags.foreign {
      ForeignFrame(s, t, sp, n);
      assert FrameAt(s, t, PageMap(s, sp)[n].frame);
    } else {
      PrivatePlace(s, t, sp, n);
    }
  }

  function Patched(page: Page, at: nat, chunk: seq<Byte>): Page
    requires at + |chunk| <= 4096
  {
    page[..at] + chunk + page[at + |chunk|..]
  }

  /** Part of a frame overwritten. */
  function WriteChunk(s: State, f: nat, at: nat, chunk: seq<Byte>): State
    requires f in s.data && at + |chunk| <= 4096
  {
    State(s.tables, s.data[f := Patched(s.data[f], at, chunk)], s.free, s.outside, s.spaces, s.kernelHalf)
  }

  /** Written through a private page, a chunk changes those bytes of that space and no other byte of any space. */
  lemma PrivateChunk(s: State, t: Tree, sp: nat, address: nat, chunk: seq<Byte>)
    requires Inv(s, t) && sp in s.spaces && address / 4096 in PageMap(s, sp) &&
      !PageMap(s, sp)[address / 4096].flags.foreign
    requires PageMap(s, sp)[address / 4096].frame in s.data && address % 4096 + |chunk| <= 4096
    ensures var s' := WriteChunk(s, PageMap(s, sp)[address / 4096].frame, address % 4096, chunk);
      && Inv(s', t) && (forall r :: r in s.spaces ==> PageMap(s', r) == PageMap(s, r))
      && forall r: nat, a: nat {:trigger ReadByte(s', r, a)} :: r in s.spaces ==>
           ReadByte(s', r, a) ==
             if r == sp && address <= a < address + |chunk| then Some(chunk[a - address]) else ReadByte(s, r, a)
  {
    var n, f := address / 4096, PageMap(s, sp)[address / 4096].frame;
    var s' := WriteChunk(s, f, address % 4096, chunk);
    forall g ensures FrameAt(s', t, g) { assert FrameAt(s, t, g); }
    MemoryKeeps(s, t, s');
    forall r, a: nat | r in s.spaces
      ensures ReadByte(s', r, a) ==
        if r == sp && address <= a < address + |chunk| then Some(chunk[a - address]) else ReadByte(s, r, a) {
      ChunkByte(s, t, sp, address, chunk, s', r, a);
    }
  }

  lemma ChunkByte(s: State, t: Tree, sp: nat, address: nat, chunk: seq<Byte>, s': State, r: nat, a: nat)
    requires Inv(s, t) && sp in s.spaces && r in s.spaces && address / 4096 in PageMap(s, sp) &&
      !PageMap(s, sp)[address / 4096].flags.foreign
    requires PageMap(s, sp)[address / 4096].frame in s.data && address % 4096 + |chunk| <= 4096
    requires s' == WriteChunk(s, PageMap(s, sp)[address / 4096].frame, address % 4096, chunk) &&
      PageMap(s', r) == PageMap(s, r)
    ensures ReadByte(s', r, a) ==
      if r == sp && address <= a < address + |chunk| then Some(chunk[a - address]) else ReadByte(s, r, a)
  {
    var n, k := address / 4096, a / 4096;
    assert address <= a < address + |chunk| ==> k == n;
    if k in PageMap(s, r) && PageMap(s, r)[k].frame == PageMap(s, sp)[n].frame {
      SoleOwner(s, t, sp, n, r, k);
      assert a - address == a % 4096 - address % 4096;
    }
  }

  /** The first `copied` bytes are in the space, and no other byte of any space has changed. */
  ghost predicate Copied(before: State, s: State, sp: nat, destination: nat, bytes: seq<Byte>, copied: nat)
    requires copied <= |bytes|
  {
    && s.spaces == before.spaces && (forall r :: r in s.spaces ==> PageMap(s, r) == PageMap(before, r))
    && forall r: nat, a: nat {:trigger ReadByte(s, r, a)} :: r in s.spaces ==>
         ReadByte(s, r, a) ==
           if r == sp && destination <= a < destination + copied then Some(bytes[a - destination])
           else ReadByte(before, r, a)
  }

  /** Every page the range touches is mapped. */
  ghost predicate AllMapped(s: State, sp: nat, address: nat, length: nat)
    requires sp in s.spaces
  {
    forall a: nat :: address <= a < address + length ==> a / 4096 in PageMap(s, sp)
  }

  ghost predicate NoneForeign(s: State, sp: nat, address: nat, length: nat)
    requires sp in s.spaces
  {
    forall a: nat :: address <= a < address + length && a / 4096 in PageMap(s, sp) ==>
      !PageMap(s, sp)[a / 4096].flags.foreign
  }

  lemma CopiedMore(before: State, s: State, t: Tree, sp: nat, destination: nat, bytes: seq<Byte>, copied: nat,
    chunk: nat)
    requires Inv(s, t) && sp in s.spaces && copied + chunk <= |bytes| &&
      Copied(before, s, sp, destination, bytes, copied)
    requires var a := destination + copied;
      && a / 4096 in PageMap(s, sp) && !PageMap(s, sp)[a / 4096].flags.foreign
      && a % 4096 + chunk <= 4096
    ensures PageMap(s, sp)[(destination + copied) / 4096].frame in s.data
    ensures var f := PageMap(s, sp)[(destination + copied) / 4096].frame;
      var s' := WriteChunk(s, f, (destination + copied) % 4096, bytes[copied..copied + chunk]);
      Inv(s', t) && Copied(before, s', sp, destination, bytes, copied + chunk)
  {
    var a := destination + copied;
    MappedHasData(s, t, sp, a / 4096);
    PrivateChunk(s, t, sp, a, bytes[copied..copied + chunk]);
  }

  /** `copy_into_space`: exactly those bytes change, as far as the range is mapped. */
  method CopyInto(m: AddressSpaces, sp: nat, destination: nat, bytes: seq<Byte>) returns (r: Result<()>)
    requires m.Valid() && sp in m.st.spaces && destination + |bytes| <= USER_SPACE_END &&
      NoneForeign(m.st, sp, destination, |bytes|)
    modifies m
    ensures m.Valid()
    ensures r == if AllMapped(old(m.st), sp, destination, |bytes|) then Ok(()) else Err(EFAULT)
    ensures r.Ok? ==> Copied(old(m.st), m.st, sp, destination, bytes, |bytes|)
    ensures r.Err? ==> exists k :: 0 <= k < |bytes| && Copied(old(m.st), m.st, sp, destination, bytes, k)
  {
    var copied := 0;
    while copied < |bytes|
      invariant m.Valid() && 0 <= copied <= |bytes| && Copied(old(m.st), m.st, sp, destination, bytes, copied) &&
        sp in m.st.spaces
      invariant AllMapped(old(m.st), sp, destination, copied) && m.tree == old(m.tree)
      decreases |bytes| - copied
    {
      var address := destination + copied;
      var offset := address % 4096;
      var chunk := if 4096 - offset < |bytes| - copied then 4096 - offset else |bytes| - copied;
      var place := m.Translate(sp, address);
      if place.Err? { return Err(place.error); }
      CopiedMore(old(m.st), m.st, m.tree, sp, destination, bytes, copied, chunk);
      SamePage(address, chunk);
      m.st := WriteChunk(m.st, place.value / 4096, offset, bytes[copied..copied + chunk]);
      copied := copied + chunk;
    }
    return Ok(());
  }

  lemma SamePage(address: nat, chunk: nat)
    requires address % 4096 + chunk <= 4096
    ensures forall a: nat :: address <= a < address + chunk ==> a / 4096 == address / 4096
  {
  }

  /** `copy_out_of_space`: the bytes a program in that space would read. */
  method CopyOut(m: AddressSpaces, sp: nat, source: nat, length: nat) returns (r: Result<seq<Byte>>)
    requires m.Valid() && sp in m.st.spaces && source + length <= USER_SPACE_END
    ensures r.Ok? <==> AllMapped(m.st, sp, source, length)
    ensures r.Err? ==> r.error == EFAULT
    ensures r.Ok? ==> |r.value| == length && forall i :: 0 <= i < length ==>
      ReadByte(m.st, sp, source + i) == Some(r.value[i])
  {
    var out: seq<Byte> := [];
    while |out| < length
      invariant |out| <= length && AllMapped(m.st, sp, source, |out|)
      invariant forall i :: 0 <= i < |out| ==> ReadByte(m.st, sp, source + i) == Some(out[i])
      decreases length - |out|
    {
      var address := source + |out|;
      var offset := address % 4096;
      var chunk := if 4096 - offset < length - |out| then 4096 - offset else length - |out|;
      var place := m.Translate(sp, address);
      if place.Err? { return Err(place.error); }
      MappedHasData(m.st, m.tree, sp, address / 4096);
      SamePage(address, chunk);
      out := out + m.st.data[place.value / 4096][offset..offset + chunk];
    }
    return Ok(out);
  }
}
