# acomp-dpusm in Dafny

A model of the DPUSM compression provider for the Linux kernel: the provider
hands a storage stack's compression and decompression requests to the
kernel's asynchronous `zlib-deflate` transform, and it wraps the stack's
buffers in handles. There are two pieces of plumbing, and both are modelled
and proved here:

* **The segment builder and engine adapter (compress.c).** `count_pages` and
  `vmalloc_to_sg` walk a virtual region `[vmem, vmem + size)` page by page
  and fill a caller-supplied scatterlist array in place. `alloc_scatterlist`
  picks between a one-entry list for linearly mapped memory and the page walk
  for vmalloc memory. `acomp_comp_decomp` builds both lists, runs one request
  and frees everything on every path. `acomp_init`/`acomp_exit` manage the
  module globals.
* **The buffer handles (provider.c).** A `provider_handle` is REAL (it owns
  a kmalloc'd buffer) or REF (it points into memory owned elsewhere). The
  model covers alloc, alloc_ref, get_size, free, the two generic copies with
  their ownership flip and pointer-identity shortcut, argument checking for
  compress/decompress, and the capability masks.

Files:

* `kmem.dfy` (module `Kmem`): the slab allocator. `live` is the set of
  objects that kmalloc handed out and kfree has not yet taken back. Whether a
  kmalloc succeeds is left open (nondeterministic). kfree requires a live
  object, which rules out a double free.
* `segments.dfy` (module `Segments`): the page walk as a function `Pieces`,
  with lemmas about it, and `count_pages`, `vmalloc_to_sg` and
  `alloc_scatterlist` as methods proved against it. `vmalloc_to_sg` works on
  an `array<Segment>` in place.
* `compress.dfy` (module `Compress`): the globals as a class, the request
  path with the engine as an oracle, and the cleanup discipline.
* `provider.dfy` (module `Provider`): handles as objects whose fields the
  operations update. Memory is a set of byte arrays. A pointer is an (array,
  offset) pair, and pointer identity is equality of that pair. An ownership
  invariant, `HandlesValid`, says every live REAL handle owns a live buffer of
  its own size that no other REAL handle owns.

Modelling choices:

* `PAGE_SIZE` is 4096. `vaddr & (PAGE_SIZE - 1)` is written as
  `vaddr % PAGE_SIZE`, and `PageMaskIsRemainder` shows the two agree on
  64-bit addresses.
* `is_vmalloc_addr` is an address range. `vmalloc_to_page` is a partial map
  from virtual page number to page frame, so NULL stands for an unmapped page.
* The kernel helpers are written as plain record writes, with the kernel's
  meaning:
  * `sg_init_table(sgl, n)` clears `n` entries and end-marks entry `n - 1`.
  * `sg_set_page` keeps the end mark.
  * `sg_mark_end` sets the end mark.
  * `sg_init_one` writes a single end-marked entry.
* An allocation's outcome is reported through a ghost out-parameter
  (`allocFailed`, `reqFailed`, ...). This lets each method's postcondition
  pin down its result exactly for either outcome.

Two behaviours of the code worth knowing, both stated by the model:

* A zero-length region is rejected only for vmalloc memory
  (compress.c:163-167). For other memory, the fast path builds a one-entry
  list of length 0 (compress.c:150-160), and `AllocResultCases` states that
  this call succeeds.
* `*sgl` is set to NULL only after a failed fast-path kmalloc or a failed
  page walk. After `pages <= 0` or a failed `kmalloc_array` it keeps its old
  value. `AllocScatterlist` states this per path.

## Model

| member | source | states |
|---|---|---|
| `Segments.PageMaskIsRemainder` | compress.c:107 | masking an address with `PAGE_SIZE - 1` gives its remainder by `PAGE_SIZE` |
| `Segments.PiecesCount` | compress.c:127-142 | the walk takes one step per distinct page the region touches: 0 for an empty region, at least 1 otherwise |
| `Segments.ChunkInPage` | compress.c:107-108 | each step of a non-empty walk is non-empty, at most what remains, and within its page; a step that leaves bytes over ends exactly on a page boundary |
| `Segments.PiecesShape` | compress.c:107-113 | every piece is non-empty and within one page; all but the last run to the end of their page; all but the first start a page; each starts where the previous one ends |
| `Segments.PiecesCover` | compress.c:100-114 | the piece lengths add up to `size` |
| `Segments.PiecesAddress` | compress.c:110-113 | piece i starts at `vmem` plus the lengths of the pieces before it (ascending, gap-free order) |
| `Segments.PiecesPages` | compress.c:100-113 | every byte of the region shares its page with the start of some piece |
| `Segments.PiecesInside` | compress.c:100-113 | every piece starts inside the region |
| `Segments.PiecesMapped` | compress.c:101-104 | looking up the start page of every piece succeeds exactly when every byte of the region is mapped |
| `Segments.FirstUnmapped` | compress.c:100-105 | the index of the first piece whose page lookup fails: all pieces before it resolve, and the piece at that index does not |
| `Segments.CountPages` | compress.c:127-142 | count_pages returns the number of distinct pages touched, and 0 exactly when `size == 0` |
| `Segments.SgResultCases` | compress.c:100-124 | vmalloc_to_sg returns 0, -EINVAL or -ENOMEM. It succeeds exactly when the region is mapped and needs at most `nents` entries. It never accepts a region that needs more, and a mapped region that needs more gets -ENOMEM. With enough capacity, it fails exactly on an unmapped page |
| `Segments.SgResultUnmapped` | compress.c:101-104 | when the first piece whose page is missing lies within the capacity, the result is -EINVAL |
| `Segments.SgResultFull` | compress.c:116-119 | when all `nents` entries hold resolved pages and pieces remain, the result is -ENOMEM |
| `Segments.SgResultDone` | compress.c:120-124 | when every piece resolves and the pieces fit in `nents` entries, the result is 0 |
| `Segments.SgInitTable` | compress.c:98 | the first `nents` entries are cleared and only entry `nents - 1` is end-marked; the entries beyond are untouched |
| `Segments.VmallocToSg` | compress.c:90-125 | the result is the one the walk's spec gives; on success, the first `nents` entries are the table built from the pieces; no entry at or beyond `nents` is ever written |
| `Segments.AllocResultCases` | compress.c:144-185 | alloc_scatterlist returns -ENOMEM only when an allocation is refused, so the overflow branch is unreachable. It returns -EINVAL exactly for an empty or unmapped vmalloc region, and 0 otherwise |
| `Segments.ScatterlistPieces` | compress.c:163-184 | the list built for vmalloc memory has one entry per step of the walk; each entry has that step's page, in-page offset and length; only the last entry is end-marked |
| `Segments.ScatterlistEntry` | compress.c:107-122 | entry i has the page and in-page offset of the address `vmem` plus the lengths before it; it is non-empty and does not cross its page; it is end-marked exactly when it is the last entry |
| `Segments.ScatterlistShape` | compress.c:163-184 | the list for a mapped vmalloc region has one entry per page touched; its lengths sum to `size`; its last entry is end-marked |
| `Segments.AllocScatterlist` | compress.c:144-185 | the result is the one AllocResult gives. On success the caller gets a fresh, live array holding exactly the one-entry list or the page-walk table. On failure nothing stays allocated, and `*sgl` is NULL or left as it was, per path |
| `Compress.AcompGlobals.constructor` | compress.c:17-18 | the globals start as a NULL transform and a lowered flag |
| `Compress.AcompGlobals.Init` | compress.c:20-31 | the allocation result is stored in acomp_tfm; on success the call returns 0 and raises the flag; on an error pointer it returns the negative errno and leaves the flag as it was |
| `Compress.AcompGlobals.Exit` | compress.c:33-43 | a no-op while the flag is down; otherwise the transform is released, the pointer becomes NULL and the flag is lowered |
| `Compress.AcompCompDecompSg` | compress.c:50-88 | a refused request gives -ENOMEM; otherwise the call returns the engine's status for exactly these lists and lengths. `*c_len` is written only when that status is 0. The request is freed on every path |
| `Compress.CompDecompSuccess` | compress.c:187-212 | `*c_len` changes only on success; success means all three allocations succeeded, both regions were valid, and the engine returned 0 for exactly the two built lists |
| `Compress.AcompCompDecomp` | compress.c:187-212 | a source-list failure is returned unchanged, whatever the destination. A destination-list failure is returned unchanged. Otherwise the request's status is returned. `*c_len` changes only on engine success. Nothing allocated outlives the call |
| `Compress.AcompCompress` | compress.c:214-217 | acomp_comp_decomp in the compress direction, with the same guarantees |
| `Compress.AcompDecompress` | compress.c:219-222 | acomp_comp_decomp in the decompress direction, with the same guarantees |
| `Provider.Handle.constructor` | provider.c:24-28 | a handle record holds a type, a pointer and a size |
| `Provider.PtrStart` | provider.c:30-33 | the address stays in the handle's region, and it is the handle's own pointer exactly at offset 0 |
| `Provider.Splice` | provider.c:130 | after the copy, the destination range holds the copied bytes, all other bytes are as before, and the length is unchanged |
| `Provider.Memcpy` | provider.c:130 | memcpy writes the source's earlier bytes into the destination range and nothing outside the destination region |
| `Provider.Algos` | provider.c:35-51 | the call returns DPUSM_OK; the compress mask is exactly gzip levels 1-9; the decompress mask equals it; checksum, checksum byte order and RAID are 0 |
| `Provider.Alloc` | provider.c:53-71 | on success, a fresh REAL handle whose size and fresh storage both have the requested size, and only those two objects become live; on a refused kmalloc, NULL with nothing left allocated; the ownership invariant is kept |
| `Provider.AllocRef` | provider.c:73-87 | a fresh REF handle at the parent's pointer plus `offset`, with the requested size. Only the record becomes live: no storage is allocated, the parent is untouched and the bound is not checked |
| `Provider.GetSize` | provider.c:89-100 | every non-NULL out-pointer receives the handle's size, so `size == actual`; NULL ones stay NULL; the result is DPUSM_OK |
| `Provider.Free` | provider.c:102-112 | the record is always freed. The storage is freed exactly when the handle is REAL, so a REF handle never frees the memory it points into. Other REAL handles keep their storage. The result is DPUSM_OK |
| `Provider.Adopt` | provider.c:123-128 | a REAL handle frees exactly its storage and becomes `{REF, buf, size}`; the ownership invariant is kept |
| `Provider.WriteAt` | provider.c:129-131 | `buf`'s bytes land at the offset in the handle's memory; no handle record and no live set changes; the ownership invariant is kept |
| `Provider.CopyFromGeneric` | provider.c:114-134 | a REAL handle at offset 0 frees its storage and becomes `{REF, buf, size}`, moving no byte. Otherwise `buf`'s bytes land at the offset, the handle's fields stay the same, and no other byte changes. The ownership invariant is kept |
| `Provider.CopyToGeneric` | provider.c:136-150 | if the handle's address equals `buf`, nothing is written; otherwise the handle's bytes are copied into `buf` and nothing outside buf's region changes. Either way `buf` ends up holding the handle's bytes |
| `Provider.IngestThenExtract` | provider.c:114-150 | copy_from_generic at offset 0 on a REAL handle, then copy_to_generic at offset 0 with the same buffer: the owned storage is released, the handle aliases the buffer, and no byte of the buffer moves |
| `Provider.ReferenceThenRelease` | provider.c:73-112 | a reference made and then freed leaves exactly the live objects there were before, so the parent's storage stays allocated |
| `Provider.CompDecomp` | provider.c:152-205 | if `s_len > s.size` or `*d_len > d.size`, the result is DPUSM_ERROR and `*d_len` is unchanged, whatever the adapter would answer. Otherwise the outcome is the adapter's answer for both base pointers with `*d_len` as capacity: DPUSM_OK exactly when its status is 0, and `*d_len` takes the produced length only then |
| `Provider.ZfsCompress` | provider.c:152-180 | zfs_acomp_compress: as CompDecomp in the compress direction; `alg` and `level` play no part |
| `Provider.ZfsDecompress` | provider.c:182-205 | zfs_acomp_decompress: as CompDecomp in the decompress direction; `alg` and `level` play no part |

## Left out

- The compression engine (the kernel crypto API: `crypto_alloc_acomp`, `acomp_request_*`, `crypto_acomp_compress/decompress`, `crypto_wait_req`). It is foreign and asynchronous code, so it is an oracle: a function from direction, lists and lengths to a final status and a produced length. No deflate algorithm is modelled, so the compress-then-decompress round trip and the destination-too-small behaviour are out of reach.
- The completion/wait mechanism and concurrent use of `acomp_tfm`. They concern blocking and concurrency, which this sequential model does not express.
- `Compress.AcompCompDecompSg`: the transform `acomp_tfm` is not passed along the per-call path. The engine parameter stands for it, so a call made before `acomp_init` is not modelled.
- `Compress.AcompGlobals.Init`: `crypto_alloc_acomp("zlib-deflate")` is not modelled. Its result is a parameter.
- The kernel's memory management. `vmalloc_to_page`, `is_vmalloc_addr` and `virt_to_page` are abstract maps; `virt_to_page` takes the virtual page number as the frame. There is no MMU behaviour.
- The allocator's internals. Only whether kmalloc succeeds is modelled, and that choice is left open.
- Fixed-width integers. Addresses and lengths are unbounded naturals. The model does not capture these narrowings or wrap-arounds:
  - the `size_t` to `int` narrowing of `s_len`/`*d_len` at provider.c:170 and provider.c:200;
  - the `int` to `size_t` conversion of `src_len`/`dst_len` at compress.c:193 and compress.c:199;
  - an `int` page count overflowing in count_pages;
  - `vaddr` wrapping past the top of the address space.
- `PAGE_SIZE` is fixed at 4096. Architectures with larger pages are not covered.
- `Provider.CompDecomp`: the bytes the adapter writes into the destination buffer are not modelled, only the status and `*d_len`.
- `Provider.CompDecomp`: the adapter is an oracle over provider pointers. The model does not link those pointers to the numeric addresses that `Compress.AcompCompDecomp` works on.
- `Provider.Memcpy`: overlapping ranges are treated as a read of the source followed by a write.
- `Provider.CopyFromGeneric` and `Provider.CopyToGeneric`: neither checks that the handle is still live, because the code does not either.
- dpusm/provider_api.h is not part of this model. The GZIP flags are modelled as distinct bits (`CompressFlag`), and DPUSM_OK/DPUSM_ERROR as the two values of `Status`.
- Module registration and the function table (provider.c:207-258), `module_init`/`module_exit`, the module metadata, and `pr_err`/`pr_debug` logging. This is framework plumbing with no logic to model.
- compress.h. It only declares the entry points.
