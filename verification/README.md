# Models of the Far NetBox core libraries

This project models the parts of Far NetBox where most of its reasoning happens, and proves what they promise:

* **dlmalloc** (`libs/dlmalloc/dlmalloc.cc`): the allocator as a class over a byte memory, with boundary tags, small bins,
  trie bins, designated victim, `top`, segments, direct mappings and footprint counters, and every public operation. The
  main results are that every sequence of requests behaves as a store of independent byte blocks, and that every
  operation keeps the whole heap invariant; beside them best fit with the order among equals, exact accounting of the
  memory held from the system, what goes back to it and when, and the equivalence of freeing together or one by one. The plain spin lock and
  the initialisation it guards are a state machine of their own.
* **PuTTY key files** (`libs/putty/import.c`): BER headers, the two encodings of large integers, and the old OpenSSH and
  the ssh.com formats, each written and read back.
* **PuTTY settings** (`libs/putty/settings.c`): escaped string maps with an in-place decoder, and preference lists with
  the completion of missing values.
* **PuTTY callbacks** (`libs/putty/callback.c`): the queue as a linked list changed in place, with idempotent callbacks
  and deletion.
* **icecream transcoders** (`libs/icecream-cpp/icecream.hpp`): UTF-8, UTF-16 and UTF-32 conversions.

## Configuration of the allocator

64-bit words, 16-byte alignment, `FOOTERS` 0, `INSECURE` 0, `PROCEED_ON_ERROR` 0, `MSPACES` 0; Windows: no `MORECORE`, no
`mremap`, 32-bit bin maps, the MSVC form of `compute_tree_index`, `mmap` granularity that is a multiple of the page. The
system is an oracle: a request for memory gives a region of zeroed pages disjoint from all that are mapped, or fails, and
giving memory back either works for the whole region or fails. Addresses and sizes are unbounded integers; every
computation of the source that can wrap around is written with its wrap-around (`Sizes.Plus`, `Sizes.Minus`, `Bitmap`).

The memory (`Memory.dfy`) is a map from addresses to byte cells. Head, foot and link words occupy eight bytes each; a write
to any byte of a word, by the allocator or by a caller, destroys the word. The invariant (`Malloc.MallocState.Valid`)
says that all words the allocator relies on are whole, besides what the debugging routines of the source check
(lines 3300-3563): the chunks tile their segments, tags of neighbours agree, no two free chunks are adjacent, each free
chunk is the designated victim or in exactly the bin of its size, bitmaps are set exactly for non-empty bins, and the
tries and rings are well formed.

## How the files build on each other

`Bitmap`, `Sizes` and `Slots` are the arithmetic of bit maps, chunk sizes and trie positions. `Memory` is the byte memory;
`BinNet`, `TrieNet`, `Bins` and `Search` are rings, tries, bins and the searches in them. `Layout`, `Heap`, `Words` and
`Steps` are the chunk layout, the invariant and how one step changes it; `System`, `Books`, `Regions`, `Segments`,
`Release` and `Ledger` are system memory and accounting; `Resize`, `Align`, `Blocks` and `Tiling` are about blocks. `Malloc`
is the class of the allocator, `Bulk` the comparison of two heaps, `Excess` a run with an oversized aligned chunk,
`Session` the view of a caller, `Locks` the spin lock. `Basics`, `Marshal`, `Numbers`, `KeyBlobs`, `SshcomFiles` and
`PemFiles` are the key files; `StoredMaps` and `Preferences` the settings; `Callbacks` the queue; `Transcode` the transcoders.

## Model

| member | source | states |
|---|---|---|
| `Session.Session.DoAll` | libs/dlmalloc/dlmalloc.cc:4649-5084 | Every sequence of malloc, memalign, calloc, realloc, free, bulk free, trim and writes by callers, whatever the system answers, is a run of a store of byte blocks: a new block appears with the requested size (zeroed for calloc, aligned for memalign), realloc keeps the common prefix, other blocks keep every byte, and null comes back only if the system refused memory during that very request, a limit stands in the way or the request is too big. |
| `Session.Session.Do` | libs/dlmalloc/dlmalloc.cc:4649-4718 | One request is one step of that store, and says when a refusal was justified. |
| `Session.Session.BlocksDisjoint` | libs/dlmalloc/dlmalloc.cc:3368-3379 | In every reachable state two different blocks share no byte, and each is aligned to 16. |
| `Malloc.MallocState.Malloc` | libs/dlmalloc/dlmalloc.cc:4720-4830 | Keeps the heap invariant and all other blocks; the new block holds the request and, in a segment, has less than a minimum chunk to spare: exactly the padded size, or all of a free chunk whose rest could not be one. If any free chunk serves the request no memory is asked of the system, the chunk used is a best fit, of several equal ones the newest small or the oldest large one, and the next designated victim is what is left of a chunk that served a small request. Otherwise the system is asked as `Supplied` says, see `SysAlloc`; null only when no memory could be obtained; the footprint limit is respected. |
| `Malloc.MallocState.Free` | libs/dlmalloc/dlmalloc.cc:4834-4922 | The block goes, all others stay with their bytes, the invariant holds with full coalescing. A mapped block: exactly its region is unmapped, leaves the footprint and the books, unless the system refuses. A block in a segment, from the state before: whether what it joins is `top`, the victim or a bin and how big it gets; `top` is trimmed exactly if it gets beyond the threshold, idle segments are released exactly if the count of checks reaches 0, and otherwise nothing goes back and the counters are as expected. The footprint does not grow; free of null does nothing. |
| `Malloc.MallocState.Realloc` | libs/dlmalloc/dlmalloc.cc:5322-5365 | On every path the first min(old usable size, new size) bytes are kept, other blocks are untouched, the excess bound holds and the footprint limit is respected; on failure nothing has changed. The block stays where it is if and only if it can (`CanStay`: it is big enough, or what comes after it is `top` or free and has enough; a mapped one if its mapping is neither too small nor much too big), and then its size is exact. No mapping is lost unless the system refuses to take one back. |
| `Malloc.MallocState.TryRealloc` | libs/dlmalloc/dlmalloc.cc:4927-5009 | The in-place branches (shrink, into `top`, into the designated victim, into the next free chunk) keep the invariant, every other block and the front of this one; they succeed if and only if the state before allows it, and the resulting size is exact. |
| `Malloc.MallocState.Memalign` | libs/dlmalloc/dlmalloc.cc:5011-5084 | For all alignments for which the code ends: the block is at a multiple of the least power of two not below the alignment, holds the request, and lies at the first place of the chunk malloc gave that leaves room for a leader; in a segment it has less than a minimum chunk to spare if and only if that chunk was not a free one of exactly 16 bytes more than asked for whose aligned place is farthest in; leader and trailer go back as free chunks and the invariant holds. |
| `Malloc.MallocState.Calloc` | libs/dlmalloc/dlmalloc.cc:4701-4714 | All n*size bytes are zero, both where the block is cleared and where a fresh mapping is relied on; the excess bound and the footprint limit hold; a product that overflows is refused. |
| `Malloc.MallocState.BulkFree` | libs/dlmalloc/dlmalloc.cc:5220-5260 | All listed blocks go, entries are cleared, every other block keeps its bytes, the invariant holds, and `top` is afterwards no bigger than the threshold or one unit, unless the system refuses to take memory. |
| `Malloc.MallocState.BulkLoop` | libs/dlmalloc/dlmalloc.cc:5225-5253 | The same for the loop alone, which gives no segment memory back; this is the loop that merges adjacent entries of the list. |
| `Malloc.MallocState.SysAlloc` | libs/dlmalloc/dlmalloc.cc:4128-4347 | A request at or above the mapping threshold gets a mapping of its own, and memory through `top` only if no mapping could be had; a smaller one always goes through `top`. The region mapped has exactly the padded size rounded up to the granularity, the footprint grows by it and the maximum follows, the segments are extended by it as `RegionUsed` says, and the threshold for trimming and the count of checks are set anew exactly where `top` or the heap begins anew. It fails only if none was granted or could be asked for, and then nothing has changed. |
| `Malloc.MallocState.UseRegion` | libs/dlmalloc/dlmalloc.cc:4269-4340 | Any granted region, wherever it lies, serves the request: right after the first segment it extends `top`, right before another segment it extends that one, and otherwise it becomes a new first segment with a new `top`. |
| `Malloc.MallocState.SysTrim` | libs/dlmalloc/dlmalloc.cc:4397-4464 | All blocks stay; memory was released if and only if the footprint went down. Unless the system refuses, `top` keeps more than the padding and at most one unit beyond it, all else going back in whole units, and no releasable segment is left. The next threshold is exact: the configured one after a trim, none if nothing could be released. |
| `Malloc.MallocState.ReleaseUnusedSegments` | libs/dlmalloc/dlmalloc.cc:4349-4395 | The bytes released are exactly the drop of the footprint; all blocks and the invariant stay. Only releasable segments go and, unless the system refuses to take one, all of them; the count until the next check is the number of segments looked at, or 4095 if that is more. |
| `Malloc.MallocState.AddSegment` | libs/dlmalloc/dlmalloc.cc:4073-4123 | The old top becomes a record chunk and fenceposts, with a free chunk in front if there is room, and the new region starts a new `top`; blocks and invariant stay. |
| `Malloc.MallocState.PrependAlloc` | libs/dlmalloc/dlmalloc.cc:4032-4070 | A region granted right below a segment gives the block, and its rest is joined with `top`, the victim or the first free chunk. |
| `Malloc.MallocState.MmapAlloc` | libs/dlmalloc/dlmalloc.cc:3916-3946 | A direct mapping gives a block with zeroed bytes whose offset and size describe exactly the region mapped, of the padded size rounded up; or nothing changes, which happens only if the system refused or could not be asked. |
| `Malloc.MallocState.Consolidate` | libs/dlmalloc/dlmalloc.cc:4851-4909 | The chunk is no longer handed out and the whole invariant holds again, which leaves no two free chunks adjacent. Told from the state before: where the joined stretch ends up (`top`, the victim or a bin), its size, and the new `top` and victim. |
| `Malloc.MallocState.Dispose` | libs/dlmalloc/dlmalloc.cc:4466-4534 | The same for any block, mapped ones included, with no segment memory given back: a mapped block is unmapped with exactly its region unless the system refuses, and then nothing has changed but that the mapping counts as lost. |
| `Malloc.MallocState.HeldBacked` | libs/dlmalloc/dlmalloc.cc:3368-3379 | Every byte of every block lies in memory that is mapped at the moment. |
| `Malloc.MallocState.HeldExactly` | libs/dlmalloc/dlmalloc.cc:4271-4272 | In every reachable state the memory mapped is, address for address, that of the segments and mappings on the books: none is forgotten, none is missing. |
| `Malloc.MallocState.ChecksPass` | libs/dlmalloc/dlmalloc.cc:4834-4866 | The checks of `_free` and realloc on addresses and tags never fail for a chunk that was handed out, in a segment or mapped. |
| `Malloc.MallocState.UnlinkChecksPass` | libs/dlmalloc/dlmalloc.cc:3798-3867 | Nor do those of `unlink_large_chunk` for a chunk in a tree bin: ring and tree links are mutual, and all they lead to is at an address the heap may have. |
| `Malloc.MallocState.FootprintIsExact` | libs/dlmalloc/dlmalloc.cc:4271-4272 | In every reachable state the footprint is the sum of all segments and mappings, fits a word and does not exceed its recorded maximum. |
| `Malloc.MallocState.ReadsBack` | libs/dlmalloc/dlmalloc.cc:2062-2110 | Every head, foot and link word the allocator relies on is still whole in memory, byte for byte, and reads back as the value the invariant gives it: no write of the allocator or of a caller has touched it. |
| `Malloc.MallocState.Store` | libs/dlmalloc/dlmalloc.cc:2063-2083 | A caller that writes inside its block disturbs neither the allocator nor any other block. |
| `Bulk.TogetherOrOneByOne` | libs/dlmalloc/dlmalloc.cc:5220-5260 | Two heaps with the same chunks handed out, one freeing a list together and one freeing the same blocks singly in any order, end with the same tiling, the same `top` and the same free chunks. |
| `Bulk.SameHeap` | libs/dlmalloc/dlmalloc.cc:4466-4534 | Segments and live chunks determine the whole layout of a valid heap. |
| `Tiling.LayoutDetermined` | libs/dlmalloc/dlmalloc.cc:4466-4534 | The same on the layout: full coalescing leaves no trace of the order of frees. |
| `Tiling.Tiled` | libs/dlmalloc/dlmalloc.cc:3503-3563 | Each address of a segment lies in exactly one chunk. |
| `Blocks.BlocksApart` | libs/dlmalloc/dlmalloc.cc:3368-3379 | Blocks of different chunks, in segments or mapped, do not overlap. |
| `Search.FindLargeFit` | libs/dlmalloc/dlmalloc.cc:4539-4590 | The descent with the remembered right subtree, the next-bin bit trick and the leftmost walk find a smallest fitting tree chunk if there is one, among all bins, and of equal ones the oldest. |
| `Search.FindSmallFit` | libs/dlmalloc/dlmalloc.cc:4611-4627 | The smallest of all tree chunks, the oldest of its size, is found from the lowest marked bin. |
| `Search.WalkToSize` | libs/dlmalloc/dlmalloc.cc:4544-4566 | The first loop keeps the best chunk seen and the deepest untaken right subtree, and everything not yet settled is below the node it returns. |
| `Search.FindExactBin` | libs/dlmalloc/dlmalloc.cc:4724-4733 | The two low bits of the shifted small map, if any is set, select a bin whose chunks fit exactly; if both are clear no chunk of that size is binned. |
| `Search.FindNextBin` | libs/dlmalloc/dlmalloc.cc:4748-4756 | The bit trick finds the smallest non-empty small bin above the size, and none only if there is none. |
| `Bins.Bins.InsertLarge` | libs/dlmalloc/dlmalloc.cc:3731-3794 | The bins hold exactly one chunk more, which comes last in age; tries, rings, links and maps stay well formed; the loop ends because every level uses up one of the bits that can still tell sizes apart. |
| `Bins.Bins.UnlinkLarge` | libs/dlmalloc/dlmalloc.cc:3798-3869 | The bins hold exactly that chunk less, whether a ring member or a leaf descendant takes its place, and ages stay; the link checks never fail. |
| `Bins.Bins.InsertSmall` | libs/dlmalloc/dlmalloc.cc:3653-3669 | The small bins hold exactly one chunk more, and nothing but free bytes is written. |
| `Bins.Bins.UnlinkSmall` | libs/dlmalloc/dlmalloc.cc:3672-3695 | The small bins hold exactly that chunk less; the link checks never fail. |
| `Bins.Bins.UnlinkFirstSmall` | libs/dlmalloc/dlmalloc.cc:3698-3713 | The chunk taken from a small bin is the newest one; the bins hold exactly that chunk less. |
| `Bins.NodeIsOldest` | libs/dlmalloc/dlmalloc.cc:2374-2378 | Of the large chunks of one size the one in the tree, which is used next, is the oldest. |
| `TrieNet.OneLevelDown` | libs/dlmalloc/dlmalloc.cc:3745-3776 | One step of an insertion stays on the path of the size, uses up one free bit, and a missing child is the one place for a new size. |
| `TrieNet.LeafMovedUp` | libs/dlmalloc/dlmalloc.cc:3812-3827 | A leaf below may take the slot of any ancestor: the trie stays ordered by its bits. |
| `TrieNet.ReplacedNodes` | libs/dlmalloc/dlmalloc.cc:3828-3866 | Handing the place and the children of a node to its replacement keeps all parent and child links mutual. |
| `BinNet.LeftRings` | libs/dlmalloc/dlmalloc.cc:3801-3811 | Unlinking one member keeps all rings of equal size circular and complete. |
| `Steps.Released` | libs/dlmalloc/dlmalloc.cc:4851-4909 | Writing the joined chunk's head and foot turns the invariant before into the invariant after, word for word. |
| `Release.IdleFound` | libs/dlmalloc/dlmalloc.cc:4358-4366 | The condition on the tags of the first chunk is met only by a segment that is all free but for its record, and its chunk is in a tree bin or the victim. |
| `Release.IdleIff` | libs/dlmalloc/dlmalloc.cc:4358-4366 | The condition is met exactly by the segments that are free up to their record and have no more than the usual two fenceposts after it. |
| `Release.NoLinkInFirst` | libs/dlmalloc/dlmalloc.cc:2781-2790 | Every record lies in the segment it describes, so the segment that holds `top` has no link. |
| `Books.FootprintFits` | libs/dlmalloc/dlmalloc.cc:4143-4150 | Segments and mappings are disjoint pieces of one address space, so the footprint cannot wrap. |
| `Align.RoundingEnds` | libs/dlmalloc/dlmalloc.cc:5015-5020 | The loop that rounds an alignment up ends if and only if the alignment is at most 2^63. |
| `Align.ExcessIff` | libs/dlmalloc/dlmalloc.cc:5034-5074 | What is kept of a chunk after aligning and cutting is 32 bytes over if and only if the chunk was 16 bytes over and its aligned place is the one farthest in. |
| `Excess.Reached` | libs/dlmalloc/dlmalloc.cc:5011-5084 | A run that gets there: two mallocs, a free and a memalign of 1 byte at 32, from an empty heap, give a chunk of 64 bytes where 32 are needed, unless the system refuses memory. |
| `Align.CallocRequestIs` | libs/dlmalloc/dlmalloc.cc:4703-4710 | The guarded division detects exactly the products that overflow. |
| `Sizes.PaddingFits` | libs/dlmalloc/dlmalloc.cc:2291-2304 | Padding gives an aligned size that holds the request, less than 16 bytes too big, and the small requests are those of small chunks. |
| `Sizes.TreeIndexMono` | libs/dlmalloc/dlmalloc.cc:2866-2878 | The MSVC bin index is monotone in the size. |
| `Sizes.TreeIndexIs` | libs/dlmalloc/dlmalloc.cc:2866-2878 | Below the last, each bin holds exactly the sizes with its two leading bits, half a power of two each. |
| `Slots.RootFits` | libs/dlmalloc/dlmalloc.cc:2866-2878 | Every tree size has a bin, the last included, and its leading bits are those of the root of that bin. |
| `Slots.SignBitIsFreeBit` | libs/dlmalloc/dlmalloc.cc:2899-2904 | From `s << leftshift_for_tree_index(i)` on, the sign bit at each level of a descent is the highest bit of the size that the levels above have not used. |
| `Bitmap.NextMarked` | libs/dlmalloc/dlmalloc.cc:2914-2917 | `least_bit` of the map masked with `left_bits` is the next marked bin above. |
| `Locks.RunInv` | libs/dlmalloc/dlmalloc.cc:1872-1888 | Every interleaving of any number of threads keeps the locking invariant. |
| `Locks.MutualExclusion` | libs/dlmalloc/dlmalloc.cc:1872-1888 | In every reachable state at most one thread holds the global mutex and at most one is inside the heap. |
| `Locks.InitialisedOnce` | libs/dlmalloc/dlmalloc.cc:3177-3266 | The initialisation body is entered at most once, and every thread that has left `ensure_initialization` sees all parameters written and the heap mutex set up before it is acquired. |
| `Locks.WaiterCanGoOn` | libs/dlmalloc/dlmalloc.cc:1872-1881 | No deadlock: from every reachable state some schedule gives a waiting thread the global mutex. |
| `Locks.HeapWaiterCanGoOn` | libs/dlmalloc/dlmalloc.cc:4673-4676 | The same for the heap mutex. |
| `Marshal.StringBack` | libs/putty/utils/marshal.c:206-221 | A string written with its length is read back, and no byte after it is touched. |
| `Marshal.StringThereIff` | libs/putty/utils/marshal.c:206-221 | On any input a string is there if and only if its length is and as many bytes after it; otherwise the error flag is set and nothing is returned. |
| `Numbers.WordValue` | libs/putty/utils/marshal.c:48-53 | The four bytes of a word are those of a number, the highest first. |
| `Marshal.BinarySource.GetString` | libs/putty/utils/marshal.c:206-221 | On any input, truncated ones included, the string, the position and the error flag are those of the format; an error is final. |
| `Numbers.BerBack` | libs/putty/import.c:273-302 | `get_ber` of a header and content, whatever follows, returns the identifier, flags and content and consumes exactly the item, for every identifier of 32 bits and length below 2^24. |
| `Numbers.BerRead` | libs/putty/import.c:273-302 | The same for every item of the standard, long forms with spare digits included: the identifier is the number of its seven-bit digits modulo 2^32, the length that of its bytes modulo 2^64. |
| `Numbers.HeaderMeans` | libs/putty/import.c:218-258 | The bytes written open an item by sections 8.1.2 and 8.1.3 of ITU-T X.690, with no digit more than it takes. |
| `Numbers.PutBerIdLen` | libs/putty/import.c:218-258 | The counting and the writing loops emit the long and short forms of identifier and length that `BerBack` reads. |
| `Numbers.GetBer` | libs/putty/import.c:273-302 | On any bytes the reader returns the item of the format, with its identifier in 32 and its length in 64 bits; reading past the end ends both loops. |
| `Numbers.CountIsLeast` | libs/putty/import.c:235-250 | The number of digits written is the least that holds the number. |
| `Numbers.ShiftsDefinedIff` | libs/putty/import.c:218-258 | The widest shifts the writer evaluates stay below the 32 bits of an `int` if and only if the identifier is below 2^28 and the length below 2^24. |
| `Numbers.PutMpSsh2` | libs/putty/import.c:326-341 | Any bytes are written as the canonical integer. |
| `Numbers.CanonicalMeans` | libs/putty/import.c:326-341 | The canonical form stands for the same number, meets section 5 of RFC 4251, and bytes are their own form exactly if they meet it. |
| `Numbers.SameFormIff` | libs/putty/import.c:326-341 | Two byte strings are written alike exactly if they stand for the same number. |
| `Numbers.CanonicalIsUnique` | libs/putty/import.c:326-341 | A number has no other canonical form. |
| `Numbers.ScanBits` | libs/putty/import.c:1939-1948 | The loop over bits stops at the first byte that is not zero and at its highest set bit, but never passes bit 0. |
| `Numbers.BitsWritten` | libs/putty/import.c:1935-1952 | The count written is the bit length of the number, except that a zero that has bytes counts one bit. |
| `Numbers.MpSshcomBack` | libs/putty/import.c:1957-1961 | An integer that counts its bits is read back without its leading zero bytes, and no byte after it is touched. |
| `SshcomFiles.Write` | libs/putty/import.c:2231-2318 | From the key's own blobs, with lengths back-patched, padding to whole blocks and encryption in place, the bytes are the nested strings of the format. |
| `SshcomFiles.FileTells` | libs/putty/import.c:2231-2318 | What is in a file, read by the format alone: magic number, total length, names of key type and cipher, and after decryption the numbers e, d, n, iqmp, q, p of an RSA key or, after a zero word, p, g, q, y, x of a DSA key, each with its count of bits, then less than a block of padding. |
| `SshcomFiles.LengthsRight` | libs/putty/import.c:2290-2304 | The total length field is the length of the file, and what is encrypted is whole blocks. |
| `SshcomFiles.Read` | libs/putty/import.c:2001-2158 | On any bytes the outcome, down to which error and whether it counts as a wrong passphrase, is that of the format. |
| `SshcomFiles.WhenRefused` | libs/putty/import.c:2080-2088 | A failure counts as a wrong passphrase if and only if the file names the cipher and the failure lies in what was decrypted. |
| `SshcomFiles.RoundTrip` | libs/putty/import.c:2090-2158 | For every RSA and DSA key, with or without passphrase and for any padding bytes, reading what was written gives the same numbers under the same names, in canonical form: the reorderings of the writer and of the reader cancel. |
| `SshcomFiles.SameKeyIff` | libs/putty/import.c:2090-2158 | The very blobs of the key come back if and only if its numbers were canonical. |
| `SshcomFiles.ReadIsStable` | libs/putty/import.c:2001-2158 | Whatever file a key was read from, its numbers are canonical, and writing it under any passphrase and reading it again gives the same key. |
| `SshcomFiles.WriteThenRead` | libs/putty/import.c:2231-2318 | The two methods composed return the blobs of a canonical key. |
| `PemFiles.Write` | libs/putty/import.c:855-949 | From the key's own blobs, the bytes are the SEQUENCE of INTEGERs of the key type, padded and encrypted if asked for; see `FileTells` for what they say. |
| `PemFiles.FileTells` | libs/putty/import.c:874-949 | What is in a file, read by BER alone: after decryption a SEQUENCE of INTEGERs and nothing else but padding that says its length; for RSA 0, n, e, d, p, q, then d mod (p-1), then d mod (q-1), then iqmp; for DSA 0, p, q, g, y, x. |
| `PemFiles.PositiveMeans` | libs/putty/import.c:883-899 | The bytes of an exponent stand for it and leave the sign bit clear. |
| `PemFiles.Read` | libs/putty/import.c:556-780 | On any bytes the loop over integers, which holds the modulus back and drops two numbers, returns the outcome of the format, errors included. |
| `PemFiles.WhenRefused` | libs/putty/import.c:622-739 | On any bytes: a version other than zero always fails; what is not a list of as many integers as the key type has fails, and counts as a wrong passphrase if and only if the file was encrypted; all else gives a key. |
| `PemFiles.RoundTrip` | libs/putty/import.c:713-764 | For every RSA and DSA key, encrypted or not, reading what was written gives the same numbers under the same names, in canonical form. |
| `PemFiles.SameKeyIff` | libs/putty/import.c:713-764 | The very blobs of the key come back if and only if its numbers were canonical. |
| `PemFiles.ReadIsCanonical` | libs/putty/import.c:713-764 | Whatever file a key was read from, its numbers are canonical. |
| `PemFiles.WriteThenRead` | libs/putty/import.c:855-949 | The two methods composed return the blobs of a canonical key. |
| `StoredMaps.WriteMap` | libs/putty/settings.c:271-325 | The stored text is the list of escaped entries, in each of its three modes. |
| `StoredMaps.StoredShows` | libs/putty/settings.c:271-325 | Split at the commas that no backslash precedes, the text has one part for every entry, in order, which spells its key and, after an equals sign, its value; the only text lost is that of an empty first key without value. |
| `StoredMaps.SpellsIff` | libs/putty/settings.c:300-314 | A string is spelled with a backslash before every comma, equals sign and backslash and before nothing else, and this is the only such spelling. |
| `StoredMaps.DecodeItem` | libs/putty/settings.c:222-246 | Decoding in place, the write position never reaches what is still to be read, and the front of the buffer is the decoded entry. |
| `StoredMaps.ReadMap` | libs/putty/settings.c:203-265 | The map read is that of the stored text, in both modes; a missing setting gives the empty map. |
| `StoredMaps.RoundTrip` | libs/putty/settings.c:203-325 | Every map of NUL-free strings is read back as written, whatever characters need escapes. |
| `StoredMaps.KeysOnlyIff` | libs/putty/settings.c:271-325 | Written as keys only, the map comes back if and only if no key is empty and all values are. |
| `StoredMaps.PortForwardsIff` | libs/putty/settings.c:203-325 | With the translation of dynamic port forwardings, the map comes back if and only if every entry has the surviving form. |
| `StoredMaps.ForwardsStored` | libs/putty/settings.c:284-299 | A dynamic forwarding is stored with the first L of its key turned into D and no value; nothing else is changed. |
| `StoredMaps.ForwardsFiled` | libs/putty/settings.c:242-262 | A stored key with a D is filed with its first D turned into L and the value D; any other entry as it is. |
| `StoredMaps.WriteThenRead` | libs/putty/settings.c:203-325 | The two methods composed return the map. |
| `Preferences.ReadPreferences` | libs/putty/settings.c:351-429 | For a table of distinct values below 32 with closed rules, and a text such that no cycle of rules is left among the values it does not mention, it ends with every value once. Mentioned values keep the order of their first mention. Every other one stands on the side of its reference that its rule asks for, with only values between them that were drawn there by their own rules, none of them mentioned; one without reference stands beyond all that was mentioned. Of two with one reference, the one whose turn comes first in the passes over the table stands farther out. |
| `Preferences.EndsIff` | libs/putty/settings.c:385-428 | The loop ends if and only if the rules of the values not mentioned have no cycle. |
| `Preferences.AlwaysEndsIff` | libs/putty/settings.c:385-428 | It ends for every text if and only if the rules have no cycle at all. |
| `Preferences.TwoInACircle` | libs/putty/settings.c:385-428 | Two values that refer to each other: no end on an empty text, an end once one is mentioned. |
| `Preferences.Pass` | libs/putty/settings.c:387-428 | One pass over the table adds something exactly if something can be added. |
| `Preferences.ReadWords` | libs/putty/settings.c:360-383 | The words of the text, split at commas, become the list of their values without repetition. |
| `Preferences.ListedMeans` | libs/putty/settings.c:365-381 | That list has the value of every word that has one, once, in the order of first mention. |
| `Preferences.FirstCounts` | libs/putty/settings.c:327-334 | A key that several entries have means the value of the first, one that none has means -1. |
| `Preferences.WordsJoined` | libs/putty/settings.c:365-373 | The words of two texts joined by a comma are those of both; with `OneWord` this determines the words of any text. |
| `Preferences.OneWord` | libs/putty/settings.c:365-373 | A text without commas is one word, or none if it is empty. |
| `Preferences.WritePreferences` | libs/putty/settings.c:449-466 | The text written lists the keys of the values. |
| `Preferences.WrittenIsListed` | libs/putty/settings.c:449-466 | What is written, read by the first loop, is the list. |
| `Preferences.WriteThenRead` | libs/putty/settings.c:351-466 | A complete list written and read back is unchanged, whatever the rules. |
| `Callbacks.CallbackSet.Append` | libs/putty/callback.c:105-135 | The linked list stays well formed and the queue has exactly one task more, at its end. |
| `Callbacks.CallbackSet.QueueIdempotent` | libs/putty/callback.c:49-58 | A flagged callback is not queued again, any other is queued once and flagged. |
| `Callbacks.CallbackSet.DeleteFor` | libs/putty/callback.c:60-103 | Relinking in place leaves exactly the callbacks of other contexts, in their order. |
| `Callbacks.CallbackSet.RunOne` | libs/putty/callback.c:137-165 | The head runs, with its flag cleared first, and whatever it queues comes after what waited; a request for itself while it runs is not lost; what was ever deleted does not run. |
| `Callbacks.CallbackSet.QueuedOnce` | libs/putty/callback.c:42-58 | In every reachable state an idempotent callback is queued at most once, and exactly if it is flagged and no deletion in the history took it out; one that was taken out is flagged still. |
| `Callbacks.CallbackSet.NothingLost` | libs/putty/callback.c:105-165 | Without deletions, done, current and queued tasks together are all requests in their order. |
| `Callbacks.CallbackSet.Drive` | libs/putty/callback.c:137-165 | After every run of the event loop: without deletions the same conservation; with them, whatever was deleted before stays deleted and has not run again. |
| `Callbacks.StruckSurvives` | libs/putty/callback.c:60-86 | Striking the deleted requests from the history leaves the order of all others. |
| `Callbacks.CallbackSet.IsNext` | libs/putty/callback.c:174-180 | The query answers for the head of the queue only. |
| `Callbacks.CallbackSet.IsPending` | libs/putty/callback.c:167-171 | True exactly if something runs or waits. |
| `Callbacks.StruckMarks` | libs/putty/callback.c:60-86 | A deletion marks exactly the waiting tasks of its context, and takes no mark back. |
| `Transcode.ToUtf8` | libs/icecream-cpp/icecream.hpp:1940-1978 | The loop appends the bytes of each code point; see `EncodesRow` for what they are. |
| `Transcode.EncodesRow` | libs/icecream-cpp/icecream.hpp:1940-1978 | The bytes of a code point are those of the table of section 3 of RFC 3629, extended to all four-byte patterns, in its shortest row; from 2^21 on those of U+FFFD. |
| `Transcode.ToUtf32` | libs/icecream-cpp/icecream.hpp:1916-1938 | The loop decodes piece by piece; see `DecodesRows` for what a piece is. |
| `Transcode.DecodesRows` | libs/icecream-cpp/icecream.hpp:1856-1912 | A prefix of any bytes is read as a code point if and only if it is a row of that table for it; the first byte is stray if and only if no prefix is a row. |
| `Transcode.ToUtf32From16` | libs/icecream-cpp/icecream.hpp:1916-1938 | The same for UTF-16 units; see `Decodes16`. |
| `Transcode.Decodes16` | libs/icecream-cpp/icecream.hpp:1831-1854 | A prefix of any units is read as a character if and only if it is that character's encoding by section 2.1 of RFC 2781; the first unit is stray if and only if no prefix is one. |
| `Transcode.RoundTrip` | libs/icecream-cpp/icecream.hpp:1856-1978 | Decoding the encoding of any UTF-32 string gives it back, elements from 0x200000 on replaced by U+FFFD. |
| `Transcode.EncodedApart` | libs/icecream-cpp/icecream.hpp:1940-1978 | Below 2^21 different strings have different encodings. |
| `Transcode.Utf16Through` | libs/icecream-cpp/icecream.hpp:1831-1978 | A UTF-16 string of any units goes through UTF-8 unchanged once decoded, and decodes to characters only. |
| `Transcode.Utf16RoundTrip` | libs/icecream-cpp/icecream.hpp:1831-1854 | The UTF-16 decoder undoes the encoding of every string of characters. |
| `Transcode.CountCodePoints` | libs/icecream-cpp/icecream.hpp:2005-2019 | The loop that skips ahead counts what `Count` says. |
| `Transcode.InStepIff` | libs/icecream-cpp/icecream.hpp:2005-2019 | The count moves on as the decoder does if and only if no pattern is cut short. |
| `Transcode.CountIsLength` | libs/icecream-cpp/icecream.hpp:2005-2019 | Then the count is the number of code points decoded, stray bytes that start no pattern included. |
| `Transcode.CountOfEncoded` | libs/icecream-cpp/icecream.hpp:2005-2019 | Of an encoding it is the length of the string. |

## Findings

* Lines 5015-5020 of `libs/dlmalloc/dlmalloc.cc`: the loop that rounds an alignment up to a power of two doubles a 64-bit
  word. `Align.RoundingEnds` shows that it ends if and only if the alignment is at most 2^63; above that it runs for ever,
  the word being 0. `Memalign` and `Session` therefore take alignments up to 2^63.
* Lines 5064-5074 of the same file cut the back of an aligned chunk off only if more than a minimum chunk is left, where
  other paths cut at equality. So an aligned chunk may be larger than needed by exactly 32 bytes, while the bound elsewhere
  is less than 32 (`Blocks.Snug`). `Malloc.MallocState.Memalign` says exactly when: if and only if the chunk that malloc
  gives was free before, has 16 bytes more than asked for, and is at an address 32 below a multiple of the alignment.
  `Excess.Reached` is a run of four requests that ends so.
* A segment that was closed while its `top` had only 16 bytes left has a longer fencepost, and the test of
  `release_unused_segments` (lines 4358-4366) then never finds it idle, whatever is freed (`Release.IdleIff`); all other
  segments that are wholly free do go back.
* `has_segment_link` never finds a record inside the segment that holds `top`, so the question in `sys_trim` never stops a
  trim (`Release.NoLinkInFirst`); small bins with odd index are always empty (`Search.OddBinsEmpty`).
* `put_ber_id_len` shifts an `int` by its whole width for identifiers from 2^28 and lengths from 2^24 on, which C leaves
  undefined (`Numbers.ShiftsDefinedIff`); `Numbers.PutBerIdLen` stays below.
* A number that has superfluous leading zero bytes, or lacks the zero byte before a top bit, does not come back as the
  same bytes from either key file format; `SameKeyIff` in both says exactly when a key does. An integer zero that has bytes
  is written in the ssh.com format with a bit count of 1 (`Numbers.BitsWritten`).
* `gprefs_from_str` does not end if and only if the rules of the values that its text does not mention have a cycle
  (`Preferences.EndsIff`); `Preferences.TwoInACircle` shows both sides on one table.
* Deleting an idempotent callback from the queue leaves its flag set, so it is never queued and never runs again
  (`Callbacks.CallbackSet.QueuedOnce` and `Drive`: a deletion in the history keeps it out of the queue for good).
  `is_idempotent_callback_pending` looks at the head of the queue only.
* `count_utf8_code_point` and the decoder disagree on some malformed strings, either way (`Transcode.CountsDiffer`); they
  stay in step exactly where no pattern is cut short (`Transcode.InStepIff`).
* Keys without values lose the empty key and all values; port forwardings survive their translation only in the forms
  that `StoredMaps.PortForwardsIff` names.

## Left out

- Links of the segment list in memory: the records are written to memory as chunks, but the list itself is a sequence of
  the model and is not read back.
- Overlapping bin headers: the source lets headers of small bins share words of the allocator's own structure; here each
  header has an address of its own, outside the heap.
- Locks are modelled apart from the heap: `MallocState` is one thread's view between acquiring and releasing the mutex.
- Recursive locks, `MSPACES`, `FOOTERS`, `PROCEED_ON_ERROR`, `MORECORE`, `mremap`, `dlindependent_calloc`, statistics and
  `errno`: switched off in this configuration or only reports.
- Malloc.MallocState.Store: a caller writes bytes only inside its own blocks; behaviour after stray writes is not modelled.
- Preferences.ReadPreferences: asks for a table with distinct values below 32 and closed rules, which the source asserts or
  takes for granted of its constant tables.
- StoredMaps.ReadMap: asks for a text without a backslash at its end, where the source reads past the terminator.
- Callbacks.CallbackSet.RunOne: a callback that runs the queue itself, and one that leaves by an exception, are not
  modelled; deletion is by context, the only predicate the source has.
- Transcode.CountIsLength: where a pattern is cut short the numbers may still agree by chance; only the steps are compared
  exactly.
- PemFiles.Write: RSA keys have p and q above 1, as the source's division demands; ECDSA keys and AES are left out.
- SshcomFiles.Write: key types other than RSA and DSA, which the source refuses, and files of 2^31 bytes or more are left out.
- Ciphers, key derivation and random bytes are parameters: any pair of functions that keeps the length of whole blocks and
  where decrypting undoes encrypting. Base64, PEM headers, file access, the new OpenSSH format and making the key object
  from its blobs are not modelled.
- Formatting, ranges and slicing of `icecream.hpp`, other settings, and the rest of Far NetBox would only add easy members.
