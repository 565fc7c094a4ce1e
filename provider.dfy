/** The buffer-handle layer of provider.c. A provider_handle is either REAL,
    owning a kmalloc'd buffer of `size` bytes, or REF, pointing into memory
    owned by something else. Memory is a set of byte regions (arrays); a
    pointer is a region and an offset, and two pointers are identical when
    both agree. The compression entry points reach the adapter of
    compress.c through the interface of compress.h, seen here as an oracle. */
module Provider {
  import opened Kmem
  import Compress

  type Byte = bv8

  /** A byte address: region `base`, offset `off`. */
  datatype Ptr = Ptr(base: array<Byte>, off: nat)

  datatype HandleType = Real | Ref

  /** The provider's status codes, DPUSM_OK and DPUSM_ERROR. */
  datatype Status = DpusmOk | DpusmError

  /** An out-pointer argument: NULL, or a cell holding a value. */
  datatype OutPtr = NullOut | Out(value: nat)

  class Handle {
    var kind: HandleType
    var ptr: Ptr
    var size: nat

    constructor (kind: HandleType, ptr: Ptr, size: nat)
      ensures this.kind == kind && this.ptr == ptr && this.size == size
    {
      this.kind, this.ptr, this.size := kind, ptr, size;
    }
  }

  /** ptr_start: the address `offset` bytes into the handle's memory. */
  function PtrStart(h: Handle, offset: nat): (p: Ptr)
    reads h
    ensures p.base == h.ptr.base && p.off >= h.ptr.off
    ensures offset == 0 <==> p == h.ptr
  {
    Ptr(h.ptr.base, h.ptr.off + offset)
  }

  /** [p, p + n) lies inside p's region. */
  predicate Inside(p: Ptr, n: nat)
  {
    p.off + n <= p.base.Length
  }

  function Bytes(p: Ptr, n: nat): seq<Byte>
    requires Inside(p, n)
    reads p.base
  {
    p.base[p.off..p.off + n]
  }

  /** The ownership invariant over the live handle records: a REAL handle
      owns a live kmalloc'd buffer of exactly its size from offset 0, and no
      two REAL handles own the same buffer. REF handles promise nothing;
      keeping their memory alive is the caller's business. */
  ghost predicate HandlesValid(slab: Slab)
    reads slab, set h: Handle | h in slab.live
  {
    && (forall h: Handle :: h in slab.live && h.kind == Real ==>
          h.ptr.off == 0 && h.ptr.base in slab.live && h.ptr.base.Length == h.size)
    && (forall h1: Handle, h2: Handle ::
          h1 in slab.live && h2 in slab.live && h1.kind == Real && h2.kind == Real && h1 != h2
          ==> h1.ptr.base != h2.ptr.base)
  }

  /** The invariant depends on the handle records and the live set only, so
      a step that changes neither (a byte copy) keeps it. */
  twostate lemma HandlesValidFrame(slab: Slab)
    requires old(HandlesValid(slab))
    requires unchanged(slab)
    requires unchanged(set h: Handle | h in slab.live)
    ensures HandlesValid(slab)
  {
  }

  /** `s` with the bytes from `at` on replaced by `t`. */
  function Splice(s: seq<Byte>, at: nat, t: seq<Byte>): (r: seq<Byte>)
    requires at + |t| <= |s|
    ensures |r| == |s|
    ensures r[at..at + |t|] == t
    ensures forall i :: 0 <= i < |s| && !(at <= i < at + |t|) ==> r[i] == s[i]
  {
    s[..at] + t + s[at + |t|..]
  }

  /** memcpy: the n bytes at `src` (as they were before the call) land at
      `dst`; nothing outside dst's region changes. */
  method Memcpy(dst: Ptr, src: Ptr, n: nat)
    requires Inside(dst, n) && Inside(src, n)
    modifies dst.base
    ensures dst.base[..] == Splice(old(dst.base[..]), dst.off, old(Bytes(src, n)))
  {
    var data := src.base[src.off..src.off + n];
    forall i | 0 <= i < n {
      dst.base[dst.off + i] := data[i];
    }
    assert dst.base[..] == Splice(old(dst.base[..]), dst.off, data);
  }

  // ---------------------------------------------------------------------
  // zfs_acomp_algos

  /** DPUSM_COMPRESS_GZIP_<level>, one bit of a capability mask. A mask is
      modelled as the set of its bits, so the source's OR is set union. */
  datatype CompressFlag = Gzip(level: nat)

  /** zfs_acomp_algos: gzip levels 1 to 9 for compression and the same for
      decompression; no checksum, no checksum byte order, no RAID. */
  method Algos() returns (ret: Status, compress: set<CompressFlag>, decompress: set<CompressFlag>,
                          checksum: int, checksumByteorder: int, raid: int)
    ensures ret == DpusmOk
    ensures forall f :: f in compress <==> 1 <= f.level <= 9
    ensures decompress == compress
    ensures checksum == 0 && checksumByteorder == 0 && raid == 0
  {
    compress := {Gzip(1)} + {Gzip(2)} + {Gzip(3)} + {Gzip(4)} + {Gzip(5)} +
                {Gzip(6)} + {Gzip(7)} + {Gzip(8)} + {Gzip(9)};
    decompress := compress;
    checksum, checksumByteorder, raid := 0, 0, 0;
    ret := DpusmOk;
  }

  // ---------------------------------------------------------------------
  // Handle lifetime

  /** zfs_acomp_alloc: a REAL handle owning fresh storage of `size` bytes,
      or NULL with nothing left allocated when either kmalloc is refused. */
  method Alloc(slab: Slab, size: nat) returns (h: Handle?)
    requires HandlesValid(slab)
    modifies slab
    ensures HandlesValid(slab)
    ensures h == null ==> slab.live == old(slab.live)
    ensures h != null ==>
      && fresh(h) && fresh(h.ptr.base)
      && h.kind == Real && h.size == size && h.ptr.off == 0 && h.ptr.base.Length == size
      && slab.live == old(slab.live) + {h} + {h.ptr.base}
  {
    var storage := new Byte[size];
    var rec := new Handle(Real, Ptr(storage, 0), size);
    var ok := slab.Kmalloc(rec);
    if !ok {
      return null;
    }
    ok := slab.Kmalloc(storage);
    if !ok {
      slab.Kfree(rec);
      return null;
    }
    return rec;
  }

  /** zfs_acomp_alloc_ref: a REF handle `offset` bytes into the parent's
      memory, of the requested size. No storage is allocated, the parent is
      untouched, and `offset + size` is not checked against the parent. */
  method AllocRef(slab: Slab, parent: Handle, offset: nat, size: nat) returns (h: Handle?)
    requires HandlesValid(slab) && parent in slab.live
    modifies slab
    ensures HandlesValid(slab)
    ensures h == null ==> slab.live == old(slab.live)
    ensures h != null ==>
      && fresh(h) && h.kind == Ref && h.ptr == PtrStart(parent, offset) && h.size == size
      && slab.live == old(slab.live) + {h}
  {
    var rec := new Handle(Ref, PtrStart(parent, offset), size);
    var ok := slab.Kmalloc(rec);
    if !ok {
      return null;
    }
    return rec;
  }

  /** zfs_acomp_get_size: every non-NULL out-pointer receives the handle's
      size, so `size` and `actual` agree; the result is always DPUSM_OK. */
  method GetSize(h: Handle, size: OutPtr, actual: OutPtr)
    returns (ret: Status, sizeOut: OutPtr, actualOut: OutPtr)
    ensures ret == DpusmOk
    ensures sizeOut.NullOut? == size.NullOut? && actualOut.NullOut? == actual.NullOut?
    ensures sizeOut.Out? ==> sizeOut.value == h.size
    ensures actualOut.Out? ==> actualOut.value == h.size
    ensures sizeOut.Out? && actualOut.Out? ==> sizeOut == actualOut
  {
    sizeOut, actualOut := size, actual;
    if size.Out? {
      sizeOut := Out(h.size);
    }
    if actual.Out? {
      actualOut := Out(h.size);
    }
    ret := DpusmOk;
  }

  /** zfs_acomp_free: the record is always freed; the memory behind the
      handle is freed exactly when the handle is REAL. A REF handle never
      frees what it points into, and every other REAL handle keeps its
      storage. Freeing the same handle twice is ruled out by the requires. */
  method Free(slab: Slab, h: Handle) returns (ret: Status)
    requires HandlesValid(slab) && h in slab.live
    modifies slab
    ensures HandlesValid(slab)
    ensures ret == DpusmOk
    ensures h.kind == Real ==> slab.live == old(slab.live) - {h} - {h.ptr.base}
    ensures h.kind == Ref ==> slab.live == old(slab.live) - {h}
  {
    if h.kind == Real {
      slab.Kfree(h.ptr.base);
    }
    slab.Kfree(h);
    return DpusmOk;
  }

  // ---------------------------------------------------------------------
  // Copies

  /** zfs_acomp_copy_from_generic. A REAL handle written at offset 0 gives up
      its storage and becomes a REF handle onto the caller's buffer, with no
      byte moved. Otherwise the `size` bytes of `buf` are copied to offset
      `offset` of the handle's memory; the handle's fields stay as they were
      and no other byte changes. */
  method CopyFromGeneric(slab: Slab, h: Handle, offset: nat, buf: Ptr, size: nat)
    returns (ret: Status)
    requires HandlesValid(slab) && h in slab.live
    requires !(h.kind == Real && offset == 0) ==> Inside(PtrStart(h, offset), size) && Inside(buf, size)
    modifies slab, h, h.ptr.base
    ensures HandlesValid(slab)
    ensures ret == DpusmOk
    ensures old(h.kind) == Real && offset == 0 ==>
      && h.kind == Ref && h.ptr == buf && h.size == size
      && slab.live == old(slab.live) - {old(h.ptr.base)}
      && unchanged(old(h.ptr.base))
    ensures !(old(h.kind) == Real && offset == 0) ==>
      && h.kind == old(h.kind) && h.ptr == old(h.ptr) && h.size == old(h.size)
      && slab.live == old(slab.live)
      && h.ptr.base[..] == Splice(old(h.ptr.base[..]), h.ptr.off + offset, old(Bytes(buf, size)))
  {
    if h.kind == Real && offset == 0 {
      Adopt(slab, h, buf, size);
    } else {
      WriteAt(slab, h, offset, buf, size);
    }
    return DpusmOk;
  }

  /** The copying branch of copy_from_generic: `buf`'s bytes land at
      `offset` in the handle's memory; no handle record changes. */
  method WriteAt(slab: Slab, h: Handle, offset: nat, buf: Ptr, size: nat)
    requires HandlesValid(slab)
    requires Inside(PtrStart(h, offset), size) && Inside(buf, size)
    modifies h.ptr.base
    ensures HandlesValid(slab)
    ensures unchanged(slab) && unchanged(h)
    ensures h.ptr.base[..] == Splice(old(h.ptr.base[..]), h.ptr.off + offset, old(Bytes(buf, size)))
  {
    Memcpy(PtrStart(h, offset), buf, size);
    HandlesValidFrame(slab);
  }

  /** The ownership flip of copy_from_generic: a REAL handle frees its
      storage and becomes a REF handle onto `buf`. */
  method Adopt(slab: Slab, h: Handle, buf: Ptr, size: nat)
    requires HandlesValid(slab) && h in slab.live && h.kind == Real
    modifies slab, h
    ensures HandlesValid(slab)
    ensures h.kind == Ref && h.ptr == buf && h.size == size
    ensures slab.live == old(slab.live) - {old(h.ptr.base)}
  {
    slab.Kfree(h.ptr.base);
    h.kind := Ref;
    h.ptr := buf;
    h.size := size;
  }

  /** zfs_acomp_copy_to_generic: when the handle's address at `offset` is
      `buf` itself nothing is written; otherwise the handle's `size` bytes
      there are copied into `buf`. Either way `buf` ends up holding those
      bytes, and nothing outside buf's region changes. */
  method CopyToGeneric(h: Handle, offset: nat, buf: Ptr, size: nat) returns (ret: Status)
    requires PtrStart(h, offset) != buf ==> Inside(PtrStart(h, offset), size) && Inside(buf, size)
    modifies buf.base
    ensures ret == DpusmOk
    ensures PtrStart(h, offset) == buf ==> unchanged(buf.base)
    ensures PtrStart(h, offset) != buf ==>
      buf.base[..] == Splice(old(buf.base[..]), buf.off, old(Bytes(PtrStart(h, offset), size)))
    ensures Inside(buf, size) && Inside(PtrStart(h, offset), size) ==>
      Bytes(buf, size) == old(Bytes(PtrStart(h, offset), size))
  {
    var start := PtrStart(h, offset);
    if start != buf {
      Memcpy(buf, start, size);
    }
    return DpusmOk;
  }

  /** Zero-copy ingestion then extraction through the same buffer: the
      freshly allocated storage is released, the handle now aliases `buf`,
      and not a byte of `buf` is moved by either call. */
  method IngestThenExtract(slab: Slab, h: Handle, buf: Ptr, size: nat)
    requires HandlesValid(slab) && h in slab.live && h.kind == Real
    modifies slab, h, h.ptr.base, buf.base
    ensures HandlesValid(slab)
    ensures h.kind == Ref && h.ptr == buf && h.size == size
    ensures slab.live == old(slab.live) - {old(h.ptr.base)}
    ensures unchanged(buf.base)
  {
    var r := CopyFromGeneric(slab, h, 0, buf, size);
    r := CopyToGeneric(h, 0, buf, size);
  }

  /** A reference into a handle, made and released: whatever happens, the
      live objects afterwards are those before, so the parent's storage is
      still there. */
  method ReferenceThenRelease(slab: Slab, parent: Handle, offset: nat, size: nat)
    requires HandlesValid(slab) && parent in slab.live
    modifies slab
    ensures HandlesValid(slab)
    ensures slab.live == old(slab.live)
  {
    var child := AllocRef(slab, parent, offset, size);
    if child != null {
      var r := Free(slab, child);
    }
  }

  // ---------------------------------------------------------------------
  // Compression entry points

  /** acomp_compress / acomp_decompress as provider.c calls them: direction,
      source pointer and length, destination pointer and capacity. The answer
      is the returned status and, when it is 0, the length written to
      *c_len (which the adapter leaves alone otherwise). */
  type Adapter = (Compress.Direction, Ptr, nat, Ptr, nat) -> Compress.EngineResult

  /** The common body of zfs_acomp_compress and zfs_acomp_decompress. The
      lengths are checked against the handles' sizes before anything else;
      the adapter gets both handles' base pointers and *d_len as capacity;
      any nonzero status becomes DPUSM_ERROR. */
  method CompDecomp(adapter: Adapter, dir: Compress.Direction,
                    s: Handle, sLen: nat, d: Handle, dLen: nat)
    returns (ret: Status, dLenOut: nat)
    ensures sLen > s.size || dLen > d.size ==> ret == DpusmError && dLenOut == dLen
    ensures sLen <= s.size && dLen <= d.size ==>
      var r := adapter(dir, s.ptr, sLen, d.ptr, dLen);
      && (ret == DpusmOk <==> r.status == 0)
      && dLenOut == (if r.status == 0 then r.dlen else dLen)
  {
    if sLen > s.size || dLen > d.size {
      return DpusmError, dLen;
    }

    var sStart := PtrStart(s, 0);
    var dStart := PtrStart(d, 0);

    var r := adapter(dir, sStart, sLen, dStart, dLen);
    if r.status != 0 {
      return DpusmError, dLen;
    }
    return DpusmOk, r.dlen;
  }

  /** zfs_acomp_compress: `alg` and `level` are accepted and ignored. */
  method ZfsCompress(adapter: Adapter, alg: CompressFlag, level: int,
                     s: Handle, sLen: nat, d: Handle, dLen: nat)
    returns (ret: Status, dLenOut: nat)
    ensures sLen > s.size || dLen > d.size ==> ret == DpusmError && dLenOut == dLen
    ensures sLen <= s.size && dLen <= d.size ==>
      var r := adapter(Compress.Compress, s.ptr, sLen, d.ptr, dLen);
      && (ret == DpusmOk <==> r.status == 0)
      && dLenOut == (if r.status == 0 then r.dlen else dLen)
  {
    ret, dLenOut := CompDecomp(adapter, Compress.Compress, s, sLen, d, dLen);
  }

  /** zfs_acomp_decompress: `alg` and the level out-pointer are accepted and
      ignored. */
  method ZfsDecompress(adapter: Adapter, alg: CompressFlag, level: OutPtr,
                       s: Handle, sLen: nat, d: Handle, dLen: nat)
    returns (ret: Status, dLenOut: nat)
    ensures sLen > s.size || dLen > d.size ==> ret == DpusmError && dLenOut == dLen
    ensures sLen <= s.size && dLen <= d.size ==>
      var r := adapter(Compress.Decompress, s.ptr, sLen, d.ptr, dLen);
      && (ret == DpusmOk <==> r.status == 0)
      && dLenOut == (if r.status == 0 then r.dlen else dLen)
  {
    ret, dLenOut := CompDecomp(adapter, Compress.Decompress, s, sLen, d, dLen);
  }
}
