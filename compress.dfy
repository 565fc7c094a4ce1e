/** The compression engine adapter of compress.c: the module-wide transform
    that acomp_init sets up and acomp_exit tears down, and the synchronous
    wrapper that builds the source and destination segment lists, runs one
    request through the engine and frees everything it allocated. The engine
    itself is an oracle: it sees the two lists and the two lengths and
    answers with a status and a produced length. */
module Compress {
  import opened Kmem
  import opened Segments

  datatype Direction = Decompress | Compress

  /** What a request reports once crypto_wait_req returns: the final status
      and the request's dlen. */
  datatype EngineResult = EngineResult(status: int, dlen: nat)

  /** The "zlib-deflate" transform behind acomp_tfm, for a direction, the
      source list and length, the destination list and capacity. */
  type Engine = (Direction, seq<Segment>, nat, seq<Segment>, nat) -> EngineResult

  // ---------------------------------------------------------------------
  // acomp_init / acomp_exit

  /** The value of acomp_tfm: NULL, a transform, or an error pointer. */
  datatype TfmSlot = NullTfm | Tfm(id: nat) | ErrPtr(err: int)

  /** The module globals acomp_tfm and acomp_init_done. */
  class AcompGlobals {
    var tfm: TfmSlot
    var initDone: bool

    /** Static storage starts zeroed. */
    constructor ()
      ensures tfm == NullTfm && !initDone
    {
      tfm := NullTfm;
      initDone := false;
    }

    /** acomp_init; `fromAlloc` is what crypto_alloc_acomp returned: a
        transform, or an error pointer holding a negative errno. The pointer
        is stored either way; the flag is raised only on success. */
    method Init(fromAlloc: TfmSlot) returns (ret: int)
      requires !fromAlloc.NullTfm?
      requires fromAlloc.ErrPtr? ==> fromAlloc.err < 0
      modifies this
      ensures tfm == fromAlloc
      ensures fromAlloc.Tfm? ==> ret == 0 && initDone
      ensures fromAlloc.ErrPtr? ==> ret == fromAlloc.err < 0 && initDone == old(initDone)
    {
      tfm := fromAlloc;
      if tfm.ErrPtr? {
        return tfm.err;
      }
      initDone := true;
      return 0;
    }

    /** acomp_exit: nothing happens unless the init flag is up; otherwise the
        transform (if any) is released, and the pointer and flag are reset.
        `released` is the transform handed to crypto_free_acomp, if any. */
    method Exit() returns (ghost released: TfmSlot)
      modifies this
      ensures !old(initDone) ==> tfm == old(tfm) && !initDone && released == NullTfm
      ensures old(initDone) ==> tfm == NullTfm && !initDone && released == old(tfm)
    {
      released := NullTfm;
      if !initDone {
        return;
      }
      if tfm != NullTfm {
        released := tfm;
        tfm := NullTfm;
      }
      initDone := false;
    }
  }

  // ---------------------------------------------------------------------
  // acomp_comp_decomp_sg

  /** An acomp_req: the parameters acomp_request_set_params records. */
  class AcompReq {
    var src: seq<Segment>
    var dst: seq<Segment>
    var slen: nat
    var dlen: nat

    constructor ()
      ensures src == [] && dst == [] && slen == 0 && dlen == 0
    {
      src, dst, slen, dlen := [], [], 0, 0;
    }
  }

  /** acomp_comp_decomp_sg: allocate a request, submit it, wait, and write
      the produced length to *c_len (`cLen` before, `cLenOut` after) only
      when the wait returns 0. The request is freed on every path after it
      was allocated; `reqFailed` records whether its allocation was refused. */
  method AcompCompDecompSg(slab: Slab, engine: Engine, dir: Direction,
                           src: array<Segment>, srcLen: nat,
                           dst: array<Segment>, dstLen: nat, cLen: nat)
    returns (ret: int, cLenOut: nat, ghost reqFailed: bool)
    modifies slab
    ensures slab.live == old(slab.live)
    ensures reqFailed ==> ret == -ENOMEM && cLenOut == cLen
    ensures !reqFailed ==>
      var r := engine(dir, src[..], srcLen, dst[..], dstLen);
      ret == r.status && cLenOut == (if r.status == 0 then r.dlen else cLen)
  {
    var req := new AcompReq();
    var ok := slab.Kmalloc(req);
    reqFailed := !ok;
    if !ok {
      return -ENOMEM, cLen, reqFailed;
    }

    req.src, req.dst, req.slen, req.dlen := src[..], dst[..], srcLen, dstLen;

    var r := engine(dir, req.src, req.slen, req.dst, req.dlen);
    req.dlen := r.dlen;
    ret := r.status;

    cLenOut := cLen;
    if ret == 0 {
      cLenOut := req.dlen;
    }

    slab.Kfree(req);
  }

  // ---------------------------------------------------------------------
  // acomp_comp_decomp

  /** The result of acomp_comp_decomp, given which of its three allocations
      were refused: a source-list failure is returned as it is, a
      destination-list failure likewise, a refused request gives -ENOMEM,
      and otherwise the engine's status is returned; *c_len changes only
      when the engine succeeds. */
  ghost predicate CompDecompOutcome(mm: AddressMap, engine: Engine, dir: Direction,
                                    src: nat, srcLen: nat, dst: nat, dstLen: nat, cLen: nat,
                                    ret: int, cLenOut: nat,
                                    srcFailed: bool, dstFailed: bool, reqFailed: bool)
  {
    var sr := AllocResult(mm, src, srcLen, srcFailed);
    var dr := AllocResult(mm, dst, dstLen, dstFailed);
    var r := engine(dir, ScatterlistFor(mm, src, srcLen), srcLen,
                    ScatterlistFor(mm, dst, dstLen), dstLen);
    if sr != 0 then ret == sr && cLenOut == cLen
    else if dr != 0 then ret == dr && cLenOut == cLen
    else if reqFailed then ret == -ENOMEM && cLenOut == cLen
    else ret == r.status && cLenOut == (if r.status == 0 then r.dlen else cLen)
  }

  /** *c_len is written only on success, and success means both lists were
      built (both regions mapped, and non-empty where they are vmalloc
      memory) and the engine, given exactly those lists, returned 0 with the
      produced length now in *c_len. */
  lemma CompDecompSuccess(mm: AddressMap, engine: Engine, dir: Direction,
                          src: nat, srcLen: nat, dst: nat, dstLen: nat, cLen: nat,
                          ret: int, cLenOut: nat,
                          srcFailed: bool, dstFailed: bool, reqFailed: bool)
    requires CompDecompOutcome(mm, engine, dir, src, srcLen, dst, dstLen, cLen,
                               ret, cLenOut, srcFailed, dstFailed, reqFailed)
    ensures ret != 0 ==> cLenOut == cLen
    ensures ret == 0 ==>
      && !srcFailed && !dstFailed && !reqFailed
      && (IsVmallocAddr(mm, src) ==> srcLen > 0 && RegionMapped(mm, src, srcLen))
      && (IsVmallocAddr(mm, dst) ==> dstLen > 0 && RegionMapped(mm, dst, dstLen))
      && engine(dir, ScatterlistFor(mm, src, srcLen), srcLen,
                ScatterlistFor(mm, dst, dstLen), dstLen) == EngineResult(0, cLenOut)
  {
    AllocResultCases(mm, src, srcLen, srcFailed);
    AllocResultCases(mm, dst, dstLen, dstFailed);
  }

  /** acomp_comp_decomp: build the source list, then the destination list,
      run the request, and free both lists. A failure is returned as soon as
      it happens, and nothing the call allocates outlives it. */
  method AcompCompDecomp(slab: Slab, mm: AddressMap, engine: Engine, dir: Direction,
                         src: nat, srcLen: nat, dst: nat, dstLen: nat, cLen: nat)
    returns (ret: int, cLenOut: nat,
             ghost srcFailed: bool, ghost dstFailed: bool, ghost reqFailed: bool)
    modifies slab
    ensures slab.live == old(slab.live)
    ensures CompDecompOutcome(mm, engine, dir, src, srcLen, dst, dstLen, cLen,
                              ret, cLenOut, srcFailed, dstFailed, reqFailed)
  {
    var srcSg: array?<Segment> := null;
    var dstSg: array?<Segment> := null;
    dstFailed, reqFailed := false, false;
    cLenOut := cLen;

    ret, srcSg, srcFailed := AllocScatterlist(slab, mm, src, srcLen, srcSg);
    if ret != 0 {
      return;
    }

    ret, dstSg, dstFailed := AllocScatterlist(slab, mm, dst, dstLen, dstSg);
    if ret != 0 {
      slab.Kfree(srcSg);
      return;
    }

    ret, cLenOut, reqFailed := AcompCompDecompSg(slab, engine, dir, srcSg, srcLen, dstSg, dstLen, cLen);

    slab.Kfree(srcSg);
    slab.Kfree(dstSg);
  }

  /** acomp_compress: the wrapper in the compress direction. */
  method AcompCompress(slab: Slab, mm: AddressMap, engine: Engine,
                       src: nat, srcLen: nat, dst: nat, dstLen: nat, cLen: nat)
    returns (ret: int, cLenOut: nat,
             ghost srcFailed: bool, ghost dstFailed: bool, ghost reqFailed: bool)
    modifies slab
    ensures slab.live == old(slab.live)
    ensures CompDecompOutcome(mm, engine, Compress, src, srcLen, dst, dstLen, cLen,
                              ret, cLenOut, srcFailed, dstFailed, reqFailed)
  {
    ret, cLenOut, srcFailed, dstFailed, reqFailed :=
      AcompCompDecomp(slab, mm, engine, Compress, src, srcLen, dst, dstLen, cLen);
  }

  /** acomp_decompress: the wrapper in the decompress direction. */
  method AcompDecompress(slab: Slab, mm: AddressMap, engine: Engine,
                         src: nat, srcLen: nat, dst: nat, dstLen: nat, cLen: nat)
    returns (ret: int, cLenOut: nat,
             ghost srcFailed: bool, ghost dstFailed: bool, ghost reqFailed: bool)
    modifies slab
    ensures slab.live == old(slab.live)
    ensures CompDecompOutcome(mm, engine, Decompress, src, srcLen, dst, dstLen, cLen,
                              ret, cLenOut, srcFailed, dstFailed, reqFailed)
  {
    ret, cLenOut, srcFailed, dstFailed, reqFailed :=
      AcompCompDecomp(slab, mm, engine, Decompress, src, srcLen, dst, dstLen, cLen);
  }
}
