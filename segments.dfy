/** The segment (scatterlist) builder of compress.c: count_pages, vmalloc_to_sg
    and alloc_scatterlist. A region [vmem, vmem + size) of virtual memory is
    cut at page boundaries into entries {page, offset, length}, the last of
    which carries the end mark the compression engine stops at. */
module Segments {
  import opened Kmem

  /** The page size. It is a power of two, so the source's
      `vaddr & (PAGE_SIZE - 1)` is `vaddr % PAGE_SIZE`. */
  const PAGE_SIZE: nat := 4096

  /** On an unsigned long address, masking with PAGE_SIZE - 1 is the
      remainder by PAGE_SIZE (0x1000), which is how the model computes
      offsets. */
  lemma PageMaskIsRemainder(vaddr: bv64)
    ensures vaddr & 0xFFF == vaddr % 0x1000
  {
  }

  /** What vmalloc_to_page and virt_to_page yield: NULL or a page frame. */
  datatype Page = NoPage | Frame(pfn: nat)

  /** One scatterlist entry; `last` is the end mark set by sg_mark_end. */
  datatype Segment = Segment(page: Page, offset: nat, length: nat, last: bool)

  /** An entry as memset/sg_init_table leave it (before the end mark). */
  const Blank: Segment := Segment(NoPage, 0, 0, false)

  /** The part of the kernel's memory map the builder consults: the vmalloc
      address range (is_vmalloc_addr) and the partial map from virtual page
      number to page frame behind vmalloc_to_page. */
  datatype AddressMap = AddressMap(vmallocStart: nat, vmallocEnd: nat, pages: map<nat, nat>)

  predicate IsVmallocAddr(mm: AddressMap, a: nat)
  {
    mm.vmallocStart <= a < mm.vmallocEnd
  }

  function VmallocToPage(mm: AddressMap, a: nat): Page
  {
    if a / PAGE_SIZE in mm.pages then Frame(mm.pages[a / PAGE_SIZE]) else NoPage
  }

  /** virt_to_page for the linear mapping, with the frame identified with the
      virtual page number. */
  function VirtToPage(a: nat): Page
  {
    Frame(a / PAGE_SIZE)
  }

  /** Every byte of the region lies on a page vmalloc_to_page can resolve. */
  ghost predicate RegionMapped(mm: AddressMap, vmem: nat, size: nat)
  {
    forall a :: vmem <= a < vmem + size ==> VmallocToPage(mm, a).Frame?
  }

  function Min(a: nat, b: nat): nat
  {
    if a <= b then a else b
  }

  /** The length of the piece starting at `vaddr`: up to the end of its page,
      and no more than what remains. */
  function ChunkLen(vaddr: nat, remaining: nat): nat
  {
    Min(PAGE_SIZE - vaddr % PAGE_SIZE, remaining)
  }

  /** A step of a non-empty walk is not empty and stays in its page; a step
      that leaves bytes over runs exactly to the end of the page. */
  lemma ChunkInPage(vaddr: nat, remaining: nat)
    requires remaining > 0
    ensures 1 <= ChunkLen(vaddr, remaining) <= remaining
    ensures vaddr % PAGE_SIZE + ChunkLen(vaddr, remaining) <= PAGE_SIZE
    ensures ChunkLen(vaddr, remaining) < remaining ==>
              && vaddr % PAGE_SIZE + ChunkLen(vaddr, remaining) == PAGE_SIZE
              && (vaddr + ChunkLen(vaddr, remaining)) % PAGE_SIZE == 0
  {
  }

  /** One step of the page walk: the piece [addr, addr + len). */
  datatype Piece = Piece(addr: nat, len: nat)

  /** The pieces the walks of count_pages and vmalloc_to_sg visit, in order. */
  function Pieces(vaddr: nat, remaining: nat): seq<Piece>
    decreases remaining
  {
    if remaining == 0 then []
    else
      var len := ChunkLen(vaddr, remaining);
      [Piece(vaddr, len)] + Pieces(vaddr + len, remaining - len)
  }

  /** The number of distinct pages the region [vaddr, vaddr + size) touches. */
  function PagesTouched(vaddr: nat, size: nat): nat
  {
    if size == 0 then 0 else (vaddr + size - 1) / PAGE_SIZE - vaddr / PAGE_SIZE + 1
  }

  function SumLens(ps: seq<Piece>): nat
  {
    if ps == [] then 0 else ps[0].len + SumLens(ps[1..])
  }

  function SumLengths(t: seq<Segment>): nat
  {
    if t == [] then 0 else t[0].length + SumLengths(t[1..])
  }

  // ---------------------------------------------------------------------
  // The page walk

  /** The walk takes one step per page touched: none for an empty region,
      at least one otherwise. */
  lemma {:induction false} PiecesCount(vaddr: nat, size: nat)
    ensures |Pieces(vaddr, size)| == PagesTouched(vaddr, size)
    ensures size > 0 ==> |Pieces(vaddr, size)| >= 1
    decreases size
  {
    if size > 0 {
      var len := ChunkLen(vaddr, size);
      PiecesCount(vaddr + len, size - len);
      if len < size {
        assert (vaddr + len) / PAGE_SIZE == vaddr / PAGE_SIZE + 1;
      } else {
        assert (vaddr + size - 1) / PAGE_SIZE == vaddr / PAGE_SIZE;
      }
    }
  }

  /** Every piece is non-empty and stays inside one page; every piece but the
      last runs to the end of its page; every piece but the first starts a
      page; the first starts at `vaddr` and each next one where the previous
      one ends. */
  lemma {:induction false} PiecesShape(vaddr: nat, size: nat)
    ensures var ps := Pieces(vaddr, size);
      && (|ps| > 0 ==> ps[0].addr == vaddr)
      && (forall i :: 0 <= i < |ps| ==>
            1 <= ps[i].len && ps[i].addr % PAGE_SIZE + ps[i].len <= PAGE_SIZE)
      && (forall i :: 0 <= i < |ps| - 1 ==> ps[i].addr % PAGE_SIZE + ps[i].len == PAGE_SIZE)
      && (forall i :: 0 < i < |ps| ==>
            ps[i].addr == ps[i - 1].addr + ps[i - 1].len && ps[i].addr % PAGE_SIZE == 0)
    decreases size
  {
    if size > 0 {
      var len := ChunkLen(vaddr, size);
      var rest := Pieces(vaddr + len, size - len);
      PiecesShape(vaddr + len, size - len);
      var ps := Pieces(vaddr, size);
      assert ps == [Piece(vaddr, len)] + rest;
      ChunkInPage(vaddr, size);
      forall i | 0 < i < |ps|
        ensures 1 <= ps[i].len && ps[i].addr % PAGE_SIZE + ps[i].len <= PAGE_SIZE
      {
        assert ps[i] == rest[i - 1];
      }
      forall i | 0 < i < |ps| - 1
        ensures ps[i].addr % PAGE_SIZE + ps[i].len == PAGE_SIZE
      {
        assert ps[i] == rest[i - 1];
      }
      forall i | 0 < i < |ps|
        ensures ps[i].addr == ps[i - 1].addr + ps[i - 1].len && ps[i].addr % PAGE_SIZE == 0
      {
        assert ps[i] == rest[i - 1];
      }
    }
  }

  /** The lengths of the pieces add up to the size of the region. */
  lemma {:induction false} PiecesCover(vaddr: nat, size: nat)
    ensures SumLens(Pieces(vaddr, size)) == size
    decreases size
  {
    if size > 0 {
      var len := ChunkLen(vaddr, size);
      PiecesCover(vaddr + len, size - len);
      assert Pieces(vaddr, size)[1..] == Pieces(vaddr + len, size - len);
    }
  }

  /** Piece i starts `vaddr` plus the lengths of the pieces before it: the
      pieces lie in ascending, gap-free address order. */
  lemma {:induction false} PiecesAddress(vaddr: nat, size: nat, i: nat)
    requires i < |Pieces(vaddr, size)|
    ensures Pieces(vaddr, size)[i].addr == vaddr + SumLens(Pieces(vaddr, size)[..i])
    decreases size
  {
    var ps := Pieces(vaddr, size);
    var len := ChunkLen(vaddr, size);
    var rest := Pieces(vaddr + len, size - len);
    assert ps == [Piece(vaddr, len)] + rest;
    if i > 0 {
      PiecesAddress(vaddr + len, size - len, i - 1);
      assert ps[..i][1..] == rest[..i - 1];
    }
  }

  /** Every address of the region shares its page with the start of some
      piece. */
  lemma {:induction false} PiecesPages(vaddr: nat, size: nat, a: nat)
    requires vaddr <= a < vaddr + size
    ensures exists i :: (0 <= i < |Pieces(vaddr, size)| &&
                         Pieces(vaddr, size)[i].addr / PAGE_SIZE == a / PAGE_SIZE)
    decreases size
  {
    var ps := Pieces(vaddr, size);
    var len := ChunkLen(vaddr, size);
    var rest := Pieces(vaddr + len, size - len);
    assert ps == [Piece(vaddr, len)] + rest;
    if a < vaddr + len {
      assert a / PAGE_SIZE == vaddr / PAGE_SIZE;
      assert ps[0].addr / PAGE_SIZE == a / PAGE_SIZE;
    } else {
      PiecesPages(vaddr + len, size - len, a);
      var j :| 0 <= j < |rest| && rest[j].addr / PAGE_SIZE == a / PAGE_SIZE;
      assert ps[j + 1] == rest[j];
    }
  }

  /** Every piece's start address lies inside the region. */
  lemma {:induction false} PiecesInside(vaddr: nat, size: nat, i: nat)
    requires i < |Pieces(vaddr, size)|
    ensures vaddr <= Pieces(vaddr, size)[i].addr < vaddr + size
    decreases size
  {
    var ps := Pieces(vaddr, size);
    var len := ChunkLen(vaddr, size);
    var rest := Pieces(vaddr + len, size - len);
    assert ps == [Piece(vaddr, len)] + rest;
    if i > 0 {
      PiecesInside(vaddr + len, size - len, i - 1);
      assert ps[i] == rest[i - 1];
    }
  }

  /** Resolving the start page of every piece is the same as resolving every
      byte of the region. */
  lemma PiecesMapped(mm: AddressMap, vaddr: nat, size: nat)
    ensures (forall i :: 0 <= i < |Pieces(vaddr, size)| ==>
               VmallocToPage(mm, Pieces(vaddr, size)[i].addr).Frame?)
            <==> RegionMapped(mm, vaddr, size)
  {
    var ps := Pieces(vaddr, size);
    if forall i :: 0 <= i < |ps| ==> VmallocToPage(mm, ps[i].addr).Frame? {
      StartsMappedRegionMapped(mm, vaddr, size);
    } else {
      var i :| 0 <= i < |ps| && !VmallocToPage(mm, ps[i].addr).Frame?;
      PiecesInside(vaddr, size, i);
      assert !RegionMapped(mm, vaddr, size) by {
        var a := ps[i].addr;
        assert vaddr <= a < vaddr + size && !VmallocToPage(mm, a).Frame?;
      }
    }
  }

  /** One direction of PiecesMapped: resolved piece starts cover the region. */
  lemma StartsMappedRegionMapped(mm: AddressMap, vaddr: nat, size: nat)
    requires forall i :: 0 <= i < |Pieces(vaddr, size)| ==>
               VmallocToPage(mm, Pieces(vaddr, size)[i].addr).Frame?
    ensures RegionMapped(mm, vaddr, size)
  {
    var ps := Pieces(vaddr, size);
    forall a | vaddr <= a < vaddr + size
      ensures VmallocToPage(mm, a).Frame?
    {
      PiecesPages(vaddr, size, a);
      var i :| 0 <= i < |ps| && ps[i].addr / PAGE_SIZE == a / PAGE_SIZE;
      assert VmallocToPage(mm, ps[i].addr).Frame?;
    }
  }

  /** The number of the first piece whose page cannot be resolved; |ps| when
      every page resolves. */
  function FirstUnmapped(mm: AddressMap, ps: seq<Piece>): (k: nat)
    ensures k <= |ps|
    ensures forall j :: 0 <= j < k ==> VmallocToPage(mm, ps[j].addr).Frame?
    ensures k < |ps| ==> VmallocToPage(mm, ps[k].addr) == NoPage
  {
    if ps == [] then 0
    else if VmallocToPage(mm, ps[0].addr) == NoPage then 0
    else 1 + FirstUnmapped(mm, ps[1..])
  }

  // ---------------------------------------------------------------------
  // count_pages

  /** count_pages: the walk of the region, counting its steps. */
  method CountPages(vmem: nat, size: nat) returns (pageCount: nat)
    ensures pageCount == PagesTouched(vmem, size)
    ensures (pageCount == 0) == (size == 0)
  {
    var vaddr: nat := vmem;
    var remaining: nat := size;
    pageCount := 0;
    while remaining > 0
      invariant pageCount + |Pieces(vaddr, remaining)| == |Pieces(vmem, size)|
      decreases remaining
    {
      var len := Min(PAGE_SIZE - vaddr % PAGE_SIZE, remaining);
      vaddr := vaddr + len;
      remaining := remaining - len;
      pageCount := pageCount + 1;
    }
    PiecesCount(vmem, size);
  }

  // ---------------------------------------------------------------------
  // vmalloc_to_sg

  /** What vmalloc_to_sg returns: -EINVAL when a page it reaches cannot be
      resolved, -ENOMEM when the region needs more than `nents` entries, 0
      otherwise. The walk reaches piece i only while i < nents. */
  function SgResult(mm: AddressMap, vmem: nat, size: nat, nents: nat): int
  {
    var ps := Pieces(vmem, size);
    if FirstUnmapped(mm, ps) < Min(|ps|, nents) then -EINVAL
    else if |ps| > nents then -ENOMEM
    else 0
  }

  /** The walk stops with -EINVAL at the first piece whose page is missing,
      when that piece is within the capacity. */
  lemma SgResultUnmapped(mm: AddressMap, vmem: nat, size: nat, nents: nat, k: nat)
    requires k < |Pieces(vmem, size)| && k < nents
    requires forall j :: 0 <= j < k ==> VmallocToPage(mm, Pieces(vmem, size)[j].addr).Frame?
    requires VmallocToPage(mm, Pieces(vmem, size)[k].addr) == NoPage
    ensures SgResult(mm, vmem, size, nents) == -EINVAL
  {
    assert FirstUnmapped(mm, Pieces(vmem, size)) == k;
  }

  /** The walk stops with -ENOMEM once all `nents` entries hold resolved
      pages and pieces remain. */
  lemma SgResultFull(mm: AddressMap, vmem: nat, size: nat, nents: nat)
    requires nents < |Pieces(vmem, size)|
    requires forall j :: 0 <= j < nents ==> VmallocToPage(mm, Pieces(vmem, size)[j].addr).Frame?
    ensures SgResult(mm, vmem, size, nents) == -ENOMEM
  {
    assert FirstUnmapped(mm, Pieces(vmem, size)) >= nents;
  }

  /** The walk succeeds when every piece resolves and fits. */
  lemma SgResultDone(mm: AddressMap, vmem: nat, size: nat, nents: nat)
    requires |Pieces(vmem, size)| <= nents
    requires forall j :: 0 <= j < |Pieces(vmem, size)| ==>
               VmallocToPage(mm, Pieces(vmem, size)[j].addr).Frame?
    ensures SgResult(mm, vmem, size, nents) == 0
  {
    assert FirstUnmapped(mm, Pieces(vmem, size)) == |Pieces(vmem, size)|;
  }

  /** Entry i of an `nents`-entry table after a successful walk over `ps`. */
  function SgEntry(mm: AddressMap, ps: seq<Piece>, nents: nat, i: int): Segment
  {
    if 0 <= i < |ps| then
      Segment(VmallocToPage(mm, ps[i].addr), ps[i].addr % PAGE_SIZE, ps[i].len,
              i == |ps| - 1 || i == nents - 1)
    else
      Segment(NoPage, 0, 0, i == nents - 1)
  }

  /** The first `nents` entries of the array after a successful vmalloc_to_sg. */
  function SgTable(mm: AddressMap, vmem: nat, size: nat, nents: nat): seq<Segment>
  {
    seq(nents, i => SgEntry(mm, Pieces(vmem, size), nents, i))
  }

  /** The outcome of vmalloc_to_sg in the system's terms: success exactly when
      the whole region is mapped and fits; a region that needs more entries
      than the capacity is never accepted; with the capacity set to the page
      count, the overflow result cannot occur. */
  lemma SgResultCases(mm: AddressMap, vmem: nat, size: nat, nents: nat)
    requires size > 0 && nents >= 1
    ensures SgResult(mm, vmem, size, nents) in {0, -EINVAL, -ENOMEM}
    ensures SgResult(mm, vmem, size, nents) == 0
            <==> RegionMapped(mm, vmem, size) && PagesTouched(vmem, size) <= nents
    ensures PagesTouched(vmem, size) > nents ==> SgResult(mm, vmem, size, nents) != 0
    ensures RegionMapped(mm, vmem, size) && PagesTouched(vmem, size) > nents ==>
              SgResult(mm, vmem, size, nents) == -ENOMEM
    ensures PagesTouched(vmem, size) <= nents ==>
              (SgResult(mm, vmem, size, nents) == -EINVAL <==> !RegionMapped(mm, vmem, size))
  {
    PiecesCount(vmem, size);
    PiecesMapped(mm, vmem, size);
  }

  /** sg_init_table: clear the first `nents` entries and end-mark the last of them. */
  method SgInitTable(sgl: array<Segment>, nents: nat)
    requires 1 <= nents <= sgl.Length
    modifies sgl
    ensures forall j :: 0 <= j < nents ==> sgl[j] == Blank.(last := j == nents - 1)
    ensures forall j :: nents <= j < sgl.Length ==> sgl[j] == old(sgl[j])
  {
    forall j | 0 <= j < nents {
      sgl[j] := Blank;
    }
    sgl[nents - 1] := sgl[nents - 1].(last := true);
  }

  /** vmalloc_to_sg: fill the caller's array of capacity `nents` with one
      entry per page of the region, in place. No entry at or beyond `nents`
      is written, on any path. */
  method VmallocToSg(mm: AddressMap, vmem: nat, size: nat, sgl: array<Segment>, nents: nat)
    returns (ret: int)
    requires size > 0
    requires 1 <= nents <= sgl.Length
    modifies sgl
    ensures ret == SgResult(mm, vmem, size, nents)
    ensures ret == 0 ==> sgl[..nents] == SgTable(mm, vmem, size, nents)
    ensures forall j :: nents <= j < sgl.Length ==> sgl[j] == old(sgl[j])
  {
    ghost var ps := Pieces(vmem, size);
    var vaddr: nat := vmem;
    var remaining: nat := size;
    var sgCount: nat := 0;

    SgInitTable(sgl, nents);

    while remaining > 0
      invariant sgCount <= |ps|
      invariant Pieces(vaddr, remaining) == ps[sgCount..]
      invariant remaining > 0 ==> sgCount < nents
      invariant remaining == 0 ==> sgCount <= nents
      invariant forall j :: 0 <= j < sgCount ==> VmallocToPage(mm, ps[j].addr).Frame?
      invariant forall j :: 0 <= j < sgCount ==>
        sgl[j] == Segment(VmallocToPage(mm, ps[j].addr), ps[j].addr % PAGE_SIZE, ps[j].len, j == nents - 1)
      invariant forall j :: sgCount <= j < nents ==> sgl[j] == Blank.(last := j == nents - 1)
      invariant forall j :: nents <= j < sgl.Length ==> sgl[j] == old(sgl[j])
      decreases remaining
    {
      var page := VmallocToPage(mm, vaddr);
      if page == NoPage {
        assert ps[sgCount].addr == vaddr;
        SgResultUnmapped(mm, vmem, size, nents, sgCount);
        return -EINVAL;
      }

      var offset := vaddr % PAGE_SIZE;
      var len := Min(PAGE_SIZE - offset, remaining);

      sgl[sgCount] := sgl[sgCount].(page := page, offset := offset, length := len);

      vaddr := vaddr + len;
      remaining := remaining - len;
      sgCount := sgCount + 1;
      assert ps[sgCount..] == ps[sgCount - 1..][1..];

      if sgCount >= nents && remaining > 0 {
        SgResultFull(mm, vmem, size, nents);
        return -ENOMEM;
      }
    }

    assert sgCount == |ps|;
    SgResultDone(mm, vmem, size, nents);
    sgl[sgCount - 1] := sgl[sgCount - 1].(last := true);
    ret := 0;
    assert forall j :: 0 <= j < nents ==> sgl[..nents][j] == SgTable(mm, vmem, size, nents)[j];
  }

  // ---------------------------------------------------------------------
  // alloc_scatterlist

  /** The entry sg_init_one writes: the whole region in one segment. */
  function OneSegment(vmem: nat, size: nat): Segment
  {
    Segment(VirtToPage(vmem), vmem % PAGE_SIZE, size, true)
  }

  /** The list alloc_scatterlist hands back on success. */
  function ScatterlistFor(mm: AddressMap, vmem: nat, size: nat): seq<Segment>
  {
    if IsVmallocAddr(mm, vmem) then SgTable(mm, vmem, size, PagesTouched(vmem, size))
    else [OneSegment(vmem, size)]
  }

  /** What alloc_scatterlist returns, given whether its kmalloc/kmalloc_array
      was refused. */
  function AllocResult(mm: AddressMap, vmem: nat, size: nat, allocFailed: bool): int
  {
    if !IsVmallocAddr(mm, vmem) then (if allocFailed then -ENOMEM else 0)
    else if PagesTouched(vmem, size) == 0 then -EINVAL
    else if allocFailed then -ENOMEM
    else SgResult(mm, vmem, size, PagesTouched(vmem, size))
  }

  /** alloc_scatterlist fails with -ENOMEM only when the allocator refuses
      (the overflow result of vmalloc_to_sg cannot occur, since the array is
      sized by count_pages), with -EINVAL exactly for an empty or unmapped
      vmalloc region, and succeeds otherwise. */
  lemma AllocResultCases(mm: AddressMap, vmem: nat, size: nat, allocFailed: bool)
    ensures AllocResult(mm, vmem, size, allocFailed) in {0, -EINVAL, -ENOMEM}
    ensures AllocResult(mm, vmem, size, allocFailed) == -ENOMEM
            <==> allocFailed && (!IsVmallocAddr(mm, vmem) || size > 0)
    ensures AllocResult(mm, vmem, size, allocFailed) == -EINVAL
            <==> IsVmallocAddr(mm, vmem) && (size == 0 || (!allocFailed && !RegionMapped(mm, vmem, size)))
    ensures AllocResult(mm, vmem, size, allocFailed) == 0
            <==> !allocFailed && (!IsVmallocAddr(mm, vmem) || (size > 0 && RegionMapped(mm, vmem, size)))
  {
    if IsVmallocAddr(mm, vmem) && size > 0 {
      PiecesCount(vmem, size);
      SgResultCases(mm, vmem, size, PagesTouched(vmem, size));
    }
  }

  lemma {:induction false} SumLengthsMatch(t: seq<Segment>, ps: seq<Piece>)
    requires |t| == |ps|
    requires forall i :: 0 <= i < |t| ==> t[i].length == ps[i].len
    ensures SumLengths(t) == SumLens(ps)
  {
    if t != [] {
      SumLengthsMatch(t[1..], ps[1..]);
    }
  }

  /** The list built for a vmalloc region is the page walk, piece by piece:
      one entry per piece, the last one end-marked. */
  lemma ScatterlistPieces(mm: AddressMap, vmem: nat, size: nat)
    requires IsVmallocAddr(mm, vmem)
    ensures |ScatterlistFor(mm, vmem, size)| == |Pieces(vmem, size)| == PagesTouched(vmem, size)
    ensures forall j :: 0 <= j < |Pieces(vmem, size)| ==>
      var ps := Pieces(vmem, size);
      ScatterlistFor(mm, vmem, size)[j]
        == Segment(VmallocToPage(mm, ps[j].addr), ps[j].addr % PAGE_SIZE, ps[j].len, j == |ps| - 1)
  {
    PiecesCount(vmem, size);
  }

  /** Entry i of the list built for a mapped vmalloc region describes the
      page and in-page offset of the address `vmem` plus the lengths of the
      entries before it; it is not empty, does not cross its page, and is
      end-marked exactly when it is the last entry. */
  lemma ScatterlistEntry(mm: AddressMap, vmem: nat, size: nat, i: nat)
    requires IsVmallocAddr(mm, vmem) && size > 0 && RegionMapped(mm, vmem, size)
    requires i < PagesTouched(vmem, size)
    ensures |ScatterlistFor(mm, vmem, size)| == PagesTouched(vmem, size)
    ensures var t := ScatterlistFor(mm, vmem, size);
      t[i].page == VmallocToPage(mm, vmem + SumLengths(t[..i])) && t[i].page.Frame?
    ensures var t := ScatterlistFor(mm, vmem, size);
      t[i].offset == (vmem + SumLengths(t[..i])) % PAGE_SIZE
    ensures var t := ScatterlistFor(mm, vmem, size);
      1 <= t[i].length && t[i].offset + t[i].length <= PAGE_SIZE
    ensures var t := ScatterlistFor(mm, vmem, size);
      t[i].last <==> i == |t| - 1
  {
    var ps := Pieces(vmem, size);
    var t := ScatterlistFor(mm, vmem, size);
    assert |t| == |ps| == PagesTouched(vmem, size) by {
      ScatterlistPieces(mm, vmem, size);
    }
    assert t[i] == Segment(VmallocToPage(mm, ps[i].addr), ps[i].addr % PAGE_SIZE, ps[i].len, i == |ps| - 1) by {
      ScatterlistPieces(mm, vmem, size);
    }
    // The entries before i cover exactly the pieces before i.
    assert ps[i].addr == vmem + SumLengths(t[..i]) by {
      ScatterlistPieces(mm, vmem, size);
      assert forall j :: 0 <= j < i ==> t[..i][j].length == ps[..i][j].len;
      SumLengthsMatch(t[..i], ps[..i]);
      PiecesAddress(vmem, size, i);
    }
    // The piece lies inside one page, and its page resolves.
    assert 1 <= ps[i].len && ps[i].addr % PAGE_SIZE + ps[i].len <= PAGE_SIZE by {
      PiecesShape(vmem, size);
    }
    assert VmallocToPage(mm, ps[i].addr).Frame? by {
      PiecesMapped(mm, vmem, size);
    }
  }

  /** The list built for a mapped vmalloc region has one entry per page
      touched, its lengths add up to `size`, its last entry is end-marked,
      and every entry is as ScatterlistEntry describes. */
  lemma ScatterlistShape(mm: AddressMap, vmem: nat, size: nat)
    requires IsVmallocAddr(mm, vmem) && size > 0 && RegionMapped(mm, vmem, size)
    ensures var t := ScatterlistFor(mm, vmem, size);
      && |t| == PagesTouched(vmem, size) >= 1
      && SumLengths(t) == size
      && t[|t| - 1].last
      && forall i :: 0 <= i < |t| ==> t[i].page.Frame? && 1 <= t[i].length <= PAGE_SIZE
  {
    var ps := Pieces(vmem, size);
    var t := ScatterlistFor(mm, vmem, size);
    PiecesCount(vmem, size);
    PiecesCover(vmem, size);
    assert |t| == |ps|;
    assert forall j :: 0 <= j < |t| ==> t[j].length == ps[j].len;
    SumLengthsMatch(t, ps);
    ScatterlistEntry(mm, vmem, size, |t| - 1);
    forall i | 0 <= i < |t|
      ensures t[i].page.Frame? && 1 <= t[i].length <= PAGE_SIZE
    {
      ScatterlistEntry(mm, vmem, size, i);
    }
  }

  /** alloc_scatterlist: build the segment list for [vmem, vmem + size).
      `sglIn` is what the caller's out-pointer held before the call; the
      ghost `allocFailed` records whether the allocator refused. */
  method AllocScatterlist(slab: Slab, mm: AddressMap, vmem: nat, size: nat, sglIn: array?<Segment>)
    returns (ret: int, sgl: array?<Segment>, ghost allocFailed: bool)
    modifies slab
    ensures ret == AllocResult(mm, vmem, size, allocFailed)
    ensures ret == 0 ==> sgl != null && fresh(sgl) && slab.live == old(slab.live) + {sgl}
                         && sgl[..] == ScatterlistFor(mm, vmem, size)
    ensures ret != 0 ==> slab.live == old(slab.live)
    ensures ret != 0 ==>
      sgl == if !IsVmallocAddr(mm, vmem) || (size > 0 && !allocFailed) then null else sglIn
  {
    if !IsVmallocAddr(mm, vmem) {
      var sg := new Segment[1](_ => Blank);
      var ok := slab.Kmalloc(sg);
      allocFailed := !ok;
      if !ok {
        return -ENOMEM, null, allocFailed;
      }
      sg[0] := OneSegment(vmem, size);
      return 0, sg, allocFailed;
    }

    allocFailed := false;
    var pages := CountPages(vmem, size);
    if pages <= 0 {
      return -EINVAL, sglIn, allocFailed;
    }

    var sg := new Segment[pages](_ => Blank);
    var ok := slab.Kmalloc(sg);
    if !ok {
      allocFailed := true;
      return -ENOMEM, sglIn, allocFailed;
    }

    ret := VmallocToSg(mm, vmem, size, sg, pages);
    if ret != 0 {
      slab.Kfree(sg);
      return ret, null, allocFailed;
    }
    sgl := sg;
  }
}
