/**
 * Bulk access to the guest memory: 64 KiB page buffers written and read in chunks, with 32-bit
 * address arithmetic, against one flat byte sequence.
 */
module PagedMemory {
  import opened Common
  import Layout

  type Byte = b: int | 0 <= b < 256

  const PAGE_SIZE: int := 65536
  const MAX_PAGES: int := 32768

  predicate Int32(x: int) {
    -TWO31 <= x < TWO31
  }

  // ------------------------------------------------------------------ bounds check

  /** The guard of `checkBounds`, with the 32-bit sum it really computes. */
  predicate Accepts(addr: int, size: int, limit: int) {
    !(addr < 0 || size < 0 || addr > limit || (size > 0 && Wrap32(addr + size) > limit))
  }

  /** The request lies inside [0, limit). */
  predicate InRange(addr: int, size: int, limit: int) {
    0 <= addr && 0 <= size && addr + size <= limit
  }

  /** The limit passed for guest memory: PAGE_SIZE * pages, in 32 bits. */
  function Limit(pages: int): int {
    Wrap32(PAGE_SIZE * pages)
  }

  /**
   * `checkBounds` is right about a request exactly when the sum does not overflow (or the request is
   * refused already for its start or sign); every overflowing request that starts in range is let through.
   */
  lemma AcceptsIsInRangeIff(addr: int, size: int, limit: int)
    requires Int32(addr) && Int32(size) && Int32(limit)
    ensures (Accepts(addr, size, limit) <==> 0 <= addr && 0 <= size && addr + size <= limit)
            <==> !(0 <= addr <= limit && 0 < size && addr + size >= 0x8000_0000)
  {
    if 0 <= addr && 0 <= size {
      assert addr + size >= TWO31 ==> Wrap32(addr + size) == addr + size - TWO32;
    }
  }

  /** What is known of a request the check let through: it starts in range and either fits or overflows. */
  lemma AcceptedCases(addr: int, size: int, limit: int)
    requires Int32(addr) && Int32(size) && Int32(limit) && Accepts(addr, size, limit)
    ensures 0 <= addr <= limit && 0 <= size
    ensures InRange(addr, size, limit) || addr + size >= TWO31
  {
    AcceptsIsInRangeIff(addr, size, limit);
  }

  lemma InRangeIsAccepted(addr: int, size: int, limit: int)
    requires Int32(addr) && Int32(size) && limit < TWO31
    ensures InRange(addr, size, limit) ==> Accepts(addr, size, limit)
  {}

  lemma LimitValue(pages: int)
    requires 0 <= pages <= MAX_PAGES
    ensures Int32(Limit(pages))
    ensures pages < 32768 ==> Limit(pages) == 65536 * pages
    ensures pages == 32768 ==> Limit(pages) < 0
  {}

  /** With the full 32768 pages the limit wraps negative and every access is refused. */
  lemma FullMemoryRefusesEverything(addr: int, size: int)
    requires Int32(addr) && Int32(size)
    ensures !Accepts(addr, size, Limit(32768))
  {
    assert Limit(MAX_PAGES) == -TWO31;
  }

  // ------------------------------------------------------------------ flat view

  /** `mem` with `src` laid over it from `at`. */
  function Splice(mem: seq<Byte>, at: int, src: seq<Byte>): seq<Byte>
    requires 0 <= at && at + |src| <= |mem|
  {
    mem[..at] + src + mem[at + |src|..]
  }

  lemma SpliceExtends(mem: seq<Byte>, at: int, a: seq<Byte>, b: seq<Byte>)
    requires 0 <= at && at + |a| + |b| <= |mem|
    ensures Splice(Splice(mem, at, a), at + |a|, b) == Splice(mem, at, a + b)
  {}

  lemma SpliceInLeft(f: seq<Byte>, g: seq<Byte>, at: int, src: seq<Byte>)
    requires 0 <= at && at + |src| <= |f|
    ensures Splice(f + g, at, src) == Splice(f, at, src) + g
  {}

  lemma SpliceInRight(f: seq<Byte>, g: seq<Byte>, at: int, src: seq<Byte>)
    requires 0 <= at && at + |src| <= |g|
    ensures Splice(f + g, |f| + at, src) == f + Splice(g, at, src)
  {}

  /** Writing then reading the same range gives the data back, and a disjoint range is untouched. */
  lemma ReadAfterWrite(mem: seq<Byte>, at: int, src: seq<Byte>, from: int, len: int)
    requires 0 <= at && at + |src| <= |mem| && 0 <= from && 0 <= len && from + len <= |mem|
    ensures |Splice(mem, at, src)| == |mem| && Splice(mem, at, src)[at..at + |src|] == src
    ensures from + len <= at || at + |src| <= from ==> Splice(mem, at, src)[from..from + len] == mem[from..from + len]
  {
    var m := Splice(mem, at, src);
    assert forall i :: 0 <= i < at ==> m[i] == mem[i];
    assert forall i :: at + |src| <= i < |mem| ==> m[i] == mem[i];
  }

  // ------------------------------------------------------------------ pages laid end to end

  /** Page index and offset of an address; the page exists exactly when a chunk inside it is in memory. */
  lemma PageFits(a: int, chunk: int, pages: int)
    requires 0 <= a && 0 < chunk <= PAGE_SIZE - a % PAGE_SIZE && 0 <= pages
    ensures a == (a / PAGE_SIZE) * PAGE_SIZE + a % PAGE_SIZE
    ensures a / PAGE_SIZE < pages <==> a + chunk <= pages * PAGE_SIZE
  {}

  predicate Paged(ps: seq<seq<Byte>>) {
    Layout.Wide(ps, PAGE_SIZE)
  }

  /** Overwriting part of one page is overwriting the flat range at that page's base. */
  lemma {:induction false} FlatSplice(ps: seq<seq<Byte>>, k: int, off: int, src: seq<Byte>)
    requires Paged(ps) && 0 <= k < |ps| && 0 <= off && off + |src| <= PAGE_SIZE
    ensures |Layout.Flat(ps)| == |ps| * PAGE_SIZE && k * PAGE_SIZE + PAGE_SIZE <= |ps| * PAGE_SIZE
    ensures Layout.Flat(ps[k := Splice(ps[k], off, src)]) == Splice(Layout.Flat(ps), k * PAGE_SIZE + off, src)
  {
    Layout.FlatLength(ps, PAGE_SIZE);
    var last := |ps| - 1;
    var init, page := ps[..last], ps[last];
    var qs := ps[k := Splice(ps[k], off, src)];
    Layout.FlatLength(init, PAGE_SIZE);
    if k == last {
      assert qs[..last] == init;
      SpliceInRight(Layout.Flat(init), page, off, src);
    } else {
      assert qs[..last] == init[k := Splice(init[k], off, src)];
      FlatSplice(init, k, off, src);
      SpliceInLeft(Layout.Flat(init), page, k * PAGE_SIZE + off, src);
    }
  }

  /** A flat slice that stays in one page is that page's slice. */
  lemma {:induction false} FlatSlice(ps: seq<seq<Byte>>, k: int, off: int, len: int)
    requires Paged(ps) && 0 <= k < |ps| && 0 <= off && 0 <= len && off + len <= PAGE_SIZE
    ensures |Layout.Flat(ps)| == |ps| * PAGE_SIZE && k * PAGE_SIZE + PAGE_SIZE <= |ps| * PAGE_SIZE
    ensures Layout.Flat(ps)[k * PAGE_SIZE + off..k * PAGE_SIZE + off + len] == ps[k][off..off + len]
  {
    Layout.FlatLength(ps, PAGE_SIZE);
    var last := |ps| - 1;
    var init := ps[..last];
    Layout.FlatLength(init, PAGE_SIZE);
    if k < last {
      FlatSlice(init, k, off, len);
      assert Layout.Flat(ps)[k * PAGE_SIZE + off..k * PAGE_SIZE + off + len]
          == Layout.Flat(init)[k * PAGE_SIZE + off..k * PAGE_SIZE + off + len];
    }
  }

  /** Exactly the first k bytes of the request have reached memory. */
  ghost predicate PrefixWritten(before: seq<Byte>, after: seq<Byte>, addr: int, data: seq<Byte>, offset: int, k: int) {
    0 <= k && 0 <= offset && offset + k <= |data| && 0 <= addr && addr + k <= |before|
    && after == Splice(before, addr, data[offset..offset + k])
  }

  lemma PrefixGrows(before: seq<Byte>, mid: seq<Byte>, after: seq<Byte>, addr: int, data: seq<Byte>, offset: int,
                    k: int, a: int, o: int, chunk: int)
    requires PrefixWritten(before, mid, addr, data, offset, k) && 0 <= chunk && a == addr + k && o == offset + k
    requires o + chunk <= |data| && a + chunk <= |before|
    requires after == Splice(mid, a, data[o..o + chunk])
    ensures PrefixWritten(before, after, addr, data, offset, k + chunk)
  {
    SpliceExtends(before, addr, data[offset..offset + k], data[offset + k..offset + k + chunk]);
    assert data[offset..offset + k] + data[offset + k..offset + k + chunk] == data[offset..offset + k + chunk];
  }

  datatype WriteResult = Written | Refused | Trapped

  class Memory {
    const pages: seq<array<Byte>>

    ghost predicate Valid() {
      && |pages| <= MAX_PAGES
      && (forall i :: 0 <= i < |pages| ==> pages[i].Length == PAGE_SIZE)
      && (forall i, j :: 0 <= i < j < |pages| ==> pages[i] != pages[j])
    }

    ghost function View(): (v: seq<seq<Byte>>)
      requires Valid()
      reads pages
      ensures |v| == |pages| && Paged(v)
      ensures forall i :: 0 <= i < |pages| ==> v[i] == pages[i][..]
    {
      seq(|pages|, i requires 0 <= i < |pages| reads pages => pages[i][..])
    }

    /** The whole memory as one byte sequence. */
    ghost function Flat(): (f: seq<Byte>)
      requires Valid()
      reads pages
      ensures |f| == |pages| * 65536
    {
      Layout.FlatLength(View(), PAGE_SIZE);
      Layout.Flat(View())
    }

    /** One absolute `ByteBuffer.put`: copies `chunk` bytes into a page, or traps without writing. */
    method PutPage(k: int, off: int, data: seq<Byte>, from: int, chunk: int) returns (ok: bool)
      requires Valid() && 0 <= k && 0 <= off && 0 <= from && 0 <= chunk && off + chunk <= PAGE_SIZE
      modifies pages
      ensures ok <==> k < |pages| && from + chunk <= |data|
      ensures ok ==> Flat() == Splice(old(Flat()), k * PAGE_SIZE + off, data[from..from + chunk])
      ensures !ok ==> Flat() == old(Flat())
    {
      ok := k < |pages| && from + chunk <= |data|;
      if ok {
        var page := pages[k];
        var i := 0;
        while i < chunk
          invariant 0 <= i <= chunk
          invariant page[..] == Splice(old(page[..]), off, data[from..from + i])
          invariant forall j :: 0 <= j < |pages| && j != k ==> pages[j][..] == old(pages[j][..])
        {
          page[off + i] := data[from + i];
          assert data[from..from + i + 1] == data[from..from + i] + [data[from + i]];
          i := i + 1;
        }
        assert View() == old(View())[k := Splice(old(View())[k], off, data[from..from + chunk])];
        FlatSplice(old(View()), k, off, data[from..from + chunk]);
      }
    }

    /** One round of the chunk loop: the part of the request that falls into one page. */
    method PutChunk(a: int, data: seq<Byte>, o: int, left: int) returns (ok: bool, chunk: int)
      requires Valid() && 0 <= a && 0 <= o && 0 < left
      modifies pages
      ensures 0 < chunk <= left
      ensures ok <==> a + chunk <= |Flat()| && o + chunk <= |data|
      ensures Flat() == if ok then Splice(old(Flat()), a, data[o..o + chunk]) else old(Flat())
    {
      var pageIdx := a / PAGE_SIZE;          // ushr 16
      var pageOffset := a % PAGE_SIZE;       // and 0xFFFF
      chunk := if left < PAGE_SIZE - pageOffset then left else PAGE_SIZE - pageOffset;
      PageFits(a, chunk, |pages|);
      ok := PutPage(pageIdx, pageOffset, data, o, chunk);
    }

    /** One more chunk behind the prefix written so far. */
    method PutNext(a: int, data: seq<Byte>, o: int, left: int, ghost before: seq<Byte>, ghost addr: int, ghost offset: int, ghost written: int)
      returns (ok: bool, chunk: int)
      requires Valid() && 0 < left && PrefixWritten(before, Flat(), addr, data, offset, written)
      requires |before| == |Flat()| && a == addr + written && o == offset + written
      modifies pages
      ensures 0 < chunk <= left && (ok <==> a + chunk <= |before| && o + chunk <= |data|)
      ensures PrefixWritten(before, Flat(), addr, data, offset, if ok then written + chunk else written)
    {
      ghost var mid := Flat();
      ok, chunk := PutChunk(a, data, o, left);
      if ok {
        PrefixGrows(before, mid, Flat(), addr, data, offset, written, a, o, chunk);
      }
    }

    /** The chunk loop of `write`: copies everything, or traps at the first chunk that leaves memory or data. */
    method CopyIn(addr: int, data: seq<Byte>, offset: int, size: int) returns (r: WriteResult, ghost written: int)
      requires Valid() && 0 <= addr <= |Flat()| && 0 <= offset <= |data| && 0 <= size
      modifies pages
      ensures r == if offset + size <= |data| && addr + size <= |Flat()| then Written else Trapped
      ensures PrefixWritten(old(Flat()), Flat(), addr, data, offset, written)
      ensures if r.Written? then written == size else 0 <= written < size
    {
      var a, o, left := addr, offset, size;
      ghost var before := Flat();
      written := 0;
      assert data[offset..offset] == [];
      while left > 0
        invariant 0 <= written == size - left && 0 <= left && a == addr + written && o == offset + written
        invariant PrefixWritten(before, Flat(), addr, data, offset, written)
      {
        var ok, chunk := PutNext(a, data, o, left, before, addr, offset, written);
        if !ok {
          return Trapped, written;
        }
        a, o, left, written := a + chunk, o + chunk, left - chunk, written + chunk;
      }
      r := Written;
    }

    /**
     * `write`: refused requests change nothing; an in-range request changes exactly its range; and a
     * request that only the overflowing bounds check lets through traps after a written prefix.
     */
    method Write(addr: int, data: seq<Byte>, offset: int, size: int) returns (r: WriteResult, ghost written: int)
      requires Valid() && Int32(addr) && Int32(offset) && Int32(size) && |data| < TWO31
      modifies pages
      ensures r.Refused? <==> !(Accepts(offset, size, |data|) && Accepts(addr, size, Limit(|pages|)))
      ensures r.Refused? ==> Flat() == old(Flat())
      ensures r.Written? <==>
                0 <= size && 0 <= offset && offset + size <= |data| && 0 <= addr && addr + size <= |Flat()| && |pages| < 32768
      ensures r.Written? ==> Flat() == Splice(old(Flat()), addr, data[offset..offset + size])
      ensures r.Trapped? ==> written < size && PrefixWritten(old(Flat()), Flat(), addr, data, offset, written)
    {
      LimitValue(|pages|);
      if !Accepts(offset, size, |data|) || !Accepts(addr, size, Limit(|pages|)) {
        InRangeIsAccepted(offset, size, |data|);
        InRangeIsAccepted(addr, size, Limit(|pages|));
        return Refused, 0;
      }
      AcceptedCases(offset, size, |data|);
      AcceptedCases(addr, size, Limit(|pages|));
      r, written := CopyIn(addr, data, offset, size);
    }

    /** `readBytes`: None when refused or trapped; otherwise exactly the flat slice. */
    method ReadBytes(addr: int, len: int) returns (r: Option<seq<Byte>>)
      requires Valid() && Int32(addr) && Int32(len)
      ensures r.Some? <==> 0 <= addr && 0 <= len && addr + len <= |Flat()| && |pages| < 32768
      ensures r.Some? ==> r.value == Flat()[addr..addr + len]
    {
      LimitValue(|pages|);
      if !Accepts(addr, len, Limit(|pages|)) {
        InRangeIsAccepted(addr, len, Limit(|pages|));
        return None;
      }
      AcceptedCases(addr, len, Limit(|pages|));
      r := CopyOut(addr, len);
    }

    /** The chunk loop of `readBytes`. */
    method CopyOut(addr: int, len: int) returns (r: Option<seq<Byte>>)
      requires Valid() && 0 <= addr <= |pages| * PAGE_SIZE && 0 <= len
      ensures r.Some? <==> addr + len <= |pages| * PAGE_SIZE
      ensures r.Some? ==> r.value == Flat()[addr..addr + len]
    {
      var result: seq<Byte> := [];
      var a, left := addr, len;
      ghost var flat := Flat();
      while left > 0
        invariant 0 <= left <= len && a == addr + (len - left) && a <= |flat|
        invariant result == flat[addr..a]
      {
        var chunk := GetChunk(a, left);
        if chunk.None? {
          return None;
        }
        result := result + chunk.value;
        assert flat[addr..a] + flat[a..a + |chunk.value|] == flat[addr..a + |chunk.value|];
        a := a + |chunk.value|;
        left := left - |chunk.value|;
      }
      return Some(result);
    }

    /** The part of a read that falls into one page; None when the page does not exist. */
    method GetChunk(a: int, left: int) returns (r: Option<seq<Byte>>)
      requires Valid() && 0 <= a <= |pages| * PAGE_SIZE && 0 < left
      ensures r.Some? <==> a < |pages| * PAGE_SIZE
      ensures r.Some? ==> 0 < |r.value| <= left && a + |r.value| <= |Flat()| && r.value == Flat()[a..a + |r.value|]
    {
      var pageIdx := a / PAGE_SIZE;
      var pageOffset := a % PAGE_SIZE;
      var chunk := if left < PAGE_SIZE - pageOffset then left else PAGE_SIZE - pageOffset;
      if pageIdx >= |pages| {
        return None;
      }
      FlatSlice(View(), pageIdx, pageOffset, chunk);
      return Some(pages[pageIdx][pageOffset..pageOffset + chunk]);
    }
  }
}
