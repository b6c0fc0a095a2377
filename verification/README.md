# A game server's allocator, string library and protocols, verified

This project models the parts of a Go game server with an embedded LuaJIT whose correctness is not obvious from reading
them, and proves what they promise:

- A. the memory allocator that LuaJIT brings along, `luajit/jit/lj_alloc.c`, a customised dlmalloc: from a new heap, every
  sequence of allocations, releases and reallocations keeps the full heap invariant and behaves like a map from live
  blocks to their contents, with blocks that never overlap. The main results are `Client.Run` and `Client.NeverDenied`;
- B. algorithms of the Lua libraries: pattern matching, `string.find` and `string.gsub`, the printer for `%q`,
  `table.sort`, string buffers, references, and the reader of bytecode dumps;
- C. algorithms and protocols of the Go framework `leaf`: cron expressions, calls between goroutines, linear contexts,
  framed messages on a connection, random draws.

## A. The allocator

The model is the 64-bit build with all memory in the low 2 GB. It keeps the source's own form: class `Heap.MState` has
the fields of `malloc_state`, and its methods do what the macros and functions of `lj_alloc.c` do, store by store and
branch by branch, on a memory of 8-byte words addressed by byte. Beside the real state runs a ghost description of it:
the chunks that tile the segments, the lists of the small bins, the tries of the large bins, the segments and the
direct chunks. `Blocks.Sound` ties the two together:

- chunks tile every segment; each chunk's PINUSE bit mirrors its predecessor, a free chunk's foot repeats its size, and
  no two free chunks are adjacent;
- each free chunk is exactly one of the designated victim or a member of the one bin for its size; small bins are
  circular lists through `malloc_state`, large bins are bitwise tries whose equal sizes hang off rings; the two bit maps
  have a bit set exactly for the bins that are not empty;
- the segment records are linked through the segments themselves, and direct chunks lie apart from all of it.

What the operating system does is left open: `CallMmap` returns any unused page-aligned range below 2 GB or fails,
`CallMunmap` and `CallMremap` succeed or fail as they like. The ghost fields `denied`, `stuck` and `unmaps` record the
failures of `mmap` and `mremap` and the calls of `munmap`, so that contracts can say when a request may fail and what was
given back.

The files, bottom up: `BinMap` and `TreeIndex` (bit maps, `compute_tree_index`), `Trie` (the bitwise trie as a value),
`Memory` (words, rings), `TreeLinks`, `TreeUnlink`, `LargeUnlink` (the trie in linked memory), `Layout` and `Segments`
(chunks, tags, segments), `Bins`, `SmallBins`, `LargeBins` (which chunks the bins hold), `Descent` and `BestFit` (the
searches), the `...Steps` files (what each kind of store does to the invariant), `Blocks`, `Bytes` and `UserSteps` (the
program's view), `Heap` (the allocator), `Client` (runs of requests), `Invariants` (what the invariant says, chunk by
chunk).

`compute_tree_index` keeps only 32 bits of the shifted size, so it is not right for every size: `TreeIndex.IndexCorrect`
gives the exact condition, and `TreeIndex.IndexMisplaces` a size that goes to the wrong bin. Sizes below 2 GB are never
concerned.

`release_unused_segments` does not give back every unused segment: one whose top chunk was smaller than a chunk when
`add_segment` retired it keeps a larger record chunk, and fails the size test for good. `DropSteps.ReleaseTest` and
`Invariants.RecordSize` give the exact condition, and `Invariants.EightBytesStay` a segment that is never given back.

## B. The Lua libraries

`Patterns` gives patterns a meaning: the list of all ways to match, in the order in which backtracking tries them
(`Outcomes`). `Matcher.MatchState` has the fields of `MatchState` and methods for `match` and its helpers; each is
proved to return the head of that list and to leave the captures as they were when it fails. Beside that order stands
what patterns mean without it: `PatternSyntax` says how each item is written and what it stands for, `Balance` says by
counting what `%b` matches, and `PatternMeaning` says which ends, captures and errors a pattern can reach at all, and
which of them is best; both agree with `Outcomes` for every pattern. `Recursion` says when the limit of 200 levels is
met. `PatternLanguage` relates the outcomes of patterns without captures to a language, `SimpleMatch` says what `match`
and `string.match` find for them in terms of texts alone, `CaptureFacts` says what captures can be, and `Find`,
`Replacing` and `Gsub` build on it. `str_find_aux` searches a pattern without special characters as plain text. That is
right exactly for patterns without closing parentheses and NULs (`Find.FastPathExact`): `match` reads a NUL as the end
of the pattern and an unopened parenthesis as an error.

`Quoted` is the printer for `%q` against a reader of string literals (section 2.1 of the Lua 5.1 Reference Manual).
`TableSort` is `auxsort` on an array, with comparisons that may answer differently each time; its error is raised only
for one that contradicts itself. `LuaBuffer` and `RefTable`
are `luaL_Buffer` and `luaL_ref`. `BcDump` defines the dump of a tree of prototypes, and `BcReader.LexState` reads it
from pieces of any size, with the buffer that `bcread_fill` moves, grows and fills.

## C. The Go framework

`Calendar` and `Cron` are the search for the next firing time, with its jumps back, on the UTC calendar; `CronParse` is the
parser of a field, and `CronText` that of a whole expression, with the times at which its text is due. `ChanRpc`, `LinearGo` and `TcpConn` are state machines: a step is what one goroutine does between two
points at which others can observe it, `Apply` is what it changes, and the results hold for every possible sequence of
steps. `ChanOutcomes` follows what comes of each call from where it comes about to the callback that is told. `TcpMsg` is the message parser. `Rand` relates the sparse shuffle of `RandIntervalN` to a dense one.

`MsgParser.Write` adds lengths in 32 bits: `TcpMsg.WriteWhole` gives the exact condition for the whole message to be
written, and `TcpMsg.WriteTruncates` a message that is cut off silently.

## Model

| member | source | states |
|---|---|---|
| `Client.Run` | luajit/jit/lj_alloc.c:1144-1394 | after `lj_alloc_create`, any sequence of legal requests and stores is served as by a map of live blocks to contents, keeps the heap invariant, and at each point the blocks of the map are disjoint |
| `Client.Serve` | luajit/jit/lj_alloc.c:1384-1394 | one request: a new block is none of the live ones, a release removes exactly one block, a resize keeps the first min(old, new) bytes, no other block changes; a request is refused only if `mmap` failed meanwhile or its padded size wraps, and never if a free chunk, the top chunk or the block's own place suffices |
| `Client.NeverDenied` | luajit/jit/lj_alloc.c:1384-1394 | on a run in which `mmap` never fails, every request whose size does not wrap is met |
| `Client.MirrorsDisjoint` | luajit/jit/lj_alloc.c:1334-1394 | the live blocks of a heap that satisfies the invariant do not overlap |
| `UserSteps.BlocksApart` | luajit/jit/lj_alloc.c:1334-1394 | the usable bytes of two live blocks, chunk or direct, are disjoint, up to the last byte |
| `Invariants.SegmentTiled` | luajit/jit/lj_alloc.c:1180-1332 | every address of a segment belongs to exactly one chunk, reached by walking from any earlier chunk of the segment |
| `Invariants.BoundaryTags` | luajit/jit/lj_alloc.c:381-397 | in memory, each chunk's PINUSE bit says whether its predecessor is in use, the foot of a free chunk equals its size, and both neighbours of a free chunk are in use |
| `Invariants.FreeChunkHeld` | luajit/jit/lj_alloc.c:594-740 | a chunk is free if and only if it is the designated victim or binned, never both, and only the bin for its size holds it |
| `Invariants.MapBits` | luajit/jit/lj_alloc.c:560-573 | the bits of `smallmap` and `treemap` are set exactly for the bins that hold a chunk |
| `Invariants.EqualSizesShareRing` | luajit/jit/lj_alloc.c:647-730 | in memory, two chunks of a tree bin have equal sizes if and only if they are on one ring, of which only the first chunk has links in the tree |
| `Trie.EqualSizesOneRing` | luajit/jit/lj_alloc.c:647-683 | in the trie, two chunks have equal sizes if and only if one node has both |
| `DropSteps.ReleaseTest` | luajit/jit/lj_alloc.c:975-978 | the test on the first chunk of a segment holds if and only if the segment is free but for its own record and the record chunk has the least size |
| `Invariants.GivenBackIff` | luajit/jit/lj_alloc.c:973-995 | a segment that is free but for its record is gone after the walk of `release_unused_segments` if and only if its record chunk has the least size |
| `Invariants.RecordSize` | luajit/jit/lj_alloc.c:855-865 | the record chunk that `add_segment` leaves has the least size if the old top chunk had room for a free chunk, and takes the old top chunk in otherwise |
| `Invariants.EightBytesStay` | luajit/jit/lj_alloc.c:855-995 | a segment retired with 8 bytes left in its top chunk has a record chunk of 72 bytes and is given back by no later walk, even if it is free but for that |
| `TreeIndex.IndexCorrect` | luajit/jit/lj_alloc.c:532-558 | from 256 on, minsize(I) <= S < minsize(I+1) (no upper bound for the last bin) holds if and only if S < 2^40 or its 32-bit truncation still lands in the last bin |
| `TreeIndex.IndexMisplaces` | luajit/jit/lj_alloc.c:532-545 | a size that goes wrong: 2^40 gets the index of the smallest bin |
| `TreeIndex.IndexMonotone` | luajit/jit/lj_alloc.c:532-545 | below 2^40 a larger size never gets a lower index |
| `TreeIndex.BinInterval` | luajit/jit/lj_alloc.c:547-558 | the aligned power-of-two interval that the trie of a bin divides bit by bit holds every size of that bin |
| `BinMap.FfsLeast` | luajit/jit/lj_alloc.c:563-576 | `lj_ffs` finds a bit that is set, and the least one |
| `BinMap.NextAbove` | luajit/jit/lj_alloc.c:1190-1208 | when bits i and i+1 are clear, the shifts and masks of `lj_alloc_malloc` find the next non-empty small bin above i+1 |
| `Trie.InsertShape` | luajit/jit/lj_alloc.c:647-683 | putting a size into the trie keeps every subtree within its path's size bits, and one node for each size |
| `Trie.InsertCount` | luajit/jit/lj_alloc.c:647-683 | insertion adds exactly one occurrence of the given chunk and no other |
| `Trie.DeleteShape` | luajit/jit/lj_alloc.c:686-730 | removal, with the deepest leaf taking the place of a removed node, keeps every subtree within its path's size bits, and one node for each size |
| `Trie.DeleteCount` | luajit/jit/lj_alloc.c:686-730 | removal takes out exactly the given chunk |
| `Trie.LeastOnWalkIsLeast` | luajit/jit/lj_alloc.c:1092-1098 | the walk along leftmost children meets a smallest size of the whole trie |
| `Heap.MState.constructor` | luajit/jit/lj_alloc.c:1144-1166 | a new heap satisfies the invariant and has no block |
| `Heap.MState.InitBins` | luajit/jit/lj_alloc.c:809-817 | every small bin becomes an empty circular list, and nothing else is written |
| `Heap.MState.InitTop` | luajit/jit/lj_alloc.c:793-806 | exactly the heads of the top chunk, aligned, and of its foot are written, and the trim threshold is reset |
| `Heap.MState.InsertSmallChunk` | luajit/jit/lj_alloc.c:594-606 | the loose free chunk is now in its small bin, lists and bit map agree again, no data word changed |
| `Heap.MState.UnlinkSmallChunk` | luajit/jit/lj_alloc.c:609-619 | exactly the given chunk leaves its small bin, and the bin's bit is cleared if it was the last |
| `Heap.MState.UnlinkFirstSmallChunk` | luajit/jit/lj_alloc.c:622-631 | exactly the first chunk of the bin leaves it |
| `Heap.MState.ReplaceDv` | luajit/jit/lj_alloc.c:634-642 | the given chunk is the designated victim and the old one is in its small bin |
| `Heap.MState.InsertLargeChunk` | luajit/jit/lj_alloc.c:647-684 | the loose chunk is now in the one trie for its size, on the ring of its size if there is one; links, rings, parents, indexes and bit map agree with the trie again, no data word changed |
| `Heap.MState.LinkBelow` | luajit/jit/lj_alloc.c:660-682 | the descent ends, and links the chunk in where the trie with the chunk inserted has it |
| `Heap.MState.UnlinkLargeChunk` | luajit/jit/lj_alloc.c:686-730 | exactly the given chunk leaves its trie, which keeps one node for each size; links, rings, parents, root and bit map agree with what is left, no data word changed |
| `Heap.MState.CutOutChunk` | luajit/jit/lj_alloc.c:687-707 | x is out of its ring, or the deepest leaf is off its children and is to take its place |
| `Heap.MState.SinkToLeaf` | luajit/jit/lj_alloc.c:697-704 | the walk to the deepest leaf ends, at the leaf the trie has there and at the word that links to it |
| `Heap.MState.FindSmallest` | luajit/jit/lj_alloc.c:1112-1128 | the search of `tmalloc_small` finds a smallest chunk of all tries |
| `Heap.MState.SearchBin` | luajit/jit/lj_alloc.c:1056-1083 | the descent by size bits, with the unsigned comparison trem < rsize, leaves a candidate and at most one subtree that can still beat it |
| `Heap.MState.FindBest` | luajit/jit/lj_alloc.c:1048-1098 | the search of `tmalloc_large` finds a smallest chunk of at least nb bytes, or none exactly if there is none |
| `Heap.MState.TmallocSmall` | luajit/jit/lj_alloc.c:1112-1140 | a block from a smallest chunk of all tries; all other blocks and the invariant are kept |
| `Heap.MState.TmallocLarge` | luajit/jit/lj_alloc.c:1048-1109 | a block from the best fitting chunk of all tries; 0, with nothing changed, exactly if there is none or the designated victim fits at least as well |
| `Heap.MState.MallocSmall` | luajit/jit/lj_alloc.c:1185-1226 | the bins' part of a small request: a block from the bin for its size or the next; if both are empty and the designated victim does not suffice, from the best fit of the binned chunks; 0, with nothing changed, if the designated victim is to serve or no free chunk suffices |
| `Heap.MState.MallocLarge` | luajit/jit/lj_alloc.c:1229-1234 | the bins' part of a large request: a block from the best fit of all free chunks; 0, with nothing changed, if that is the designated victim or there is none |
| `Heap.MState.TakeVictim` | luajit/jit/lj_alloc.c:1237-1251 | a block from the designated victim, split unless the rest is too small for a chunk |
| `Heap.MState.TakeTop` | luajit/jit/lj_alloc.c:1252-1259 | a block of exactly nb bytes from the low end of the top chunk |
| `Heap.MState.Malloc` | luajit/jit/lj_alloc.c:1180-1261 | an 8-aligned new block of at least the requested size, with all other blocks kept; if a free chunk suffices, a large request takes the best fit of all, and a small one a chunk of its bin or the next, else the designated victim if that suffices, else the best fit of the binned chunks; neither that nor the top chunk asks the system; when they do not suffice, a request of DEFAULT_MMAP_THRESHOLD bytes or more, and no other, gets a mapping of its own, unless `mmap` failed; a block in a segment leaves no room for another chunk; 0 only if `mmap` failed or the padded size wraps, and then nothing changed |
| `Heap.ChunkRequestLeast` | luajit/jit/lj_alloc.c:1184-1231 | the chunk size looked for is the least that a chunk can have and that leaves room for the request behind the head |
| `Heap.MState.Free` | luajit/jit/lj_alloc.c:1263-1332 | exactly the block at ptr is gone, every other block keeps its words, the invariant, with no two free chunks adjacent, holds again, and a top chunk that outgrew the trim threshold was trimmed; exactly the releases whose merged chunk goes to a tree count `release_checks` down, and when that gets to 0 no spare segment is left, unless `munmap` failed; other releases do not call `munmap` but for the trimming and direct chunks |
| `Heap.MState.FreeChunk` | luajit/jit/lj_alloc.c:1269-1330 | the same for a chunk of a segment, through all cases of coalescing with the previous chunk, the next chunk, the designated victim and the top chunk |
| `Heap.MState.ConsolidateBack` | luajit/jit/lj_alloc.c:1269-1289 | the merged chunk starts at the free chunk in front, which leaves its bin, or at the block; if it was the designated victim and what follows is in use, all is done |
| `Heap.MState.Realloc` | luajit/jit/lj_alloc.c:1334-1382 | the block gets the new size and keeps the first min(old, new) bytes, all other blocks are kept; it stays in place, without waste, if it is large enough or can grow into the top chunk, and a direct block unless `mremap` failed; 0 only if `mmap` failed or the padded size wraps, and then nothing changed |
| `Heap.MState.ResizeInPlace` | luajit/jit/lj_alloc.c:1346-1368 | shrinking, growing into the top chunk or remapping keeps the block's words as far as they fit and leaves no room for another chunk; it refuses no block that has the room, and no large direct block unless `mremap` failed |
| `Heap.MState.ShrinkInPlace` | luajit/jit/lj_alloc.c:1350-1357 | the block has exactly the new size and keeps its first words; the rest is free and coalesced |
| `Heap.MState.GrowInPlace` | luajit/jit/lj_alloc.c:1358-1368 | the block has exactly the new size and keeps its words; the top chunk gives up the difference |
| `Heap.MState.AllocF` | luajit/jit/lj_alloc.c:1384-1394 | size 0 frees, a null pointer allocates, anything else reallocates, each with its full effect |
| `Heap.MState.Destroy` | luajit/jit/lj_alloc.c:1168-1178 | `munmap` is called once for each segment, in order; a segment's words are gone if and only if its call succeeded, and nothing else changes |
| `Heap.MState.AllocSys` | luajit/jit/lj_alloc.c:901-958 | a block at the old top chunk, which fresh memory extended, or in memory that was not mapped before, as a direct chunk or through a lowered or new segment; from DEFAULT_MMAP_THRESHOLD on a direct chunk unless `mmap` failed, below never; 0 only if `mmap` failed or the size wraps, and then nothing changed |
| `Heap.MState.UseFresh` | luajit/jit/lj_alloc.c:921-954 | fresh memory right behind the current segment extends it, and the block is at the old top; otherwise the block is at the start of the fresh memory |
| `Heap.MState.AddSegment` | luajit/jit/lj_alloc.c:853-897 | the new memory is the current segment and its top chunk; the old segment ends in its record, right behind the old top chunk's rest, which is binned, or in its place; all blocks are kept |
| `Heap.MState.PrependAlloc` | luajit/jit/lj_alloc.c:820-850 | the segment behind the new memory begins there now, with the block at its low end; the rest joins the old first chunk if that is free, the designated victim or the top chunk |
| `Heap.MState.AppendTop` | luajit/jit/lj_alloc.c:926-930 | fresh memory right behind the current segment extends the segment and the top chunk, which stays where it is |
| `Heap.MState.ReleaseUnusedSegments` | luajit/jit/lj_alloc.c:963-1003 | keeps every block and the invariant, returns how many bytes went; only segments that are free but for a least-size record go, and all of them unless `munmap` failed |
| `Heap.MState.ReleaseSegment` | luajit/jit/lj_alloc.c:978-992 | the free chunk that spans the segment leaves its bin and the segment its list, or both are as before if `munmap` fails, which is called for exactly the segment |
| `Heap.MState.AllocTrim` | luajit/jit/lj_alloc.c:1005-1043 | keeps every block and the invariant, returns 1 exactly if memory went back; unless `munmap` failed, no spare segment is left and the top chunk, if not pinned by a record, exceeds the room asked for by at most one granule; it is never cut below that room |
| `Heap.MState.SegmentHolding` | luajit/jit/lj_alloc.c:490-499 | finds the record of the segment that holds an address |
| `Heap.MState.DirectAlloc` | luajit/jit/lj_alloc.c:744-761 | a block in a mapping of its own, of less than two pages beyond the request, with all other blocks kept |
| `Heap.MState.FreeDirect` | luajit/jit/lj_alloc.c:1272-1278 | exactly the direct block is gone, by one `munmap` of exactly its mapping |
| `Heap.MState.DirectResize` | luajit/jit/lj_alloc.c:763-789 | the direct block has room for the new size and keeps its words; 0, with nothing changed, only for a small size or if `mremap` failed |
| `Matcher.MatchState.SkipClass` | luajit/jit/lib_string.c:205-224 | the loop finds the end of a single-character item, a class or a set, or the error |
| `Matcher.MatchState.Match` | luajit/jit/lib_string.c:368-451 | the result is the first of all ways to match, in the order of backtracking, with its captures, and so the best of the ends and errors that can be reached; a failure means that none can be reached, and leaves level, depth and all captures as they were; the error of the recursion limit comes exactly if the search meets the limit before it finds anything |
| `PatternMeaning.OutcomesReached` | luajit/jit/lib_string.c:368-451 | for every pattern, subject and captures: matching tries exactly the ends, captures and errors that can be reached by passing item after item, where `%b` passes what is balanced by count, a frontier the border of a set, and `%1` the text of the capture once more |
| `PatternMeaning.BestFirst` | luajit/jit/lib_string.c:302-451 | for every pattern: matching comes first to the one end or error, if any, at which each repeated character takes what comes first in its order among all that get the rest anywhere |
| `PatternSyntax.ItemReads` | luajit/jit/lib_string.c:368-451 | each item, written in any way that can be written, is read as itself, up to its end, and a single character, set or frontier stands for exactly what was written |
| `PatternSyntax.SetMeans` | luajit/jit/lib_string.c:205-267 | a set written from characters, classes and ranges ends at its bracket and stands for exactly the characters of its elements, or for all others behind `^` |
| `PatternSyntax.LastItem` | luajit/jit/lib_string.c:368-451 | a pattern is over at its end, and `$` is an anchor there |
| `PatternSyntax.LetterClasses` | luajit/jit/lib_string.c:226-244 | the classes for letters and digits have exactly the letters and digits |
| `PatternSyntax.OtherClasses` | luajit/jit/lib_string.c:226-244 | the same for punctuation, space and control characters, and the NUL |
| `PatternSyntax.ClassParts` | luajit/jit/lib_string.c:226-244 | which classes are made up of which others |
| `PatternSyntax.ClassNegated` | luajit/jit/lib_string.c:226-244 | an upper-case letter names what its class leaves out; all other characters stand for themselves |
| `PatternSyntax.Malformed` | luajit/jit/lib_string.c:205-430 | which error each kind of cut-off item raises |
| `Balance.BalanceMeans` | luajit/jit/lib_string.c:281-300 | the place that `%b` finds is the end of the shortest text from there on that starts with the opening character and has as many closing ones; for equal characters it is behind the next one; none is found exactly if there is none |
| `Recursion.NestingSuffices` | luajit/jit/lib_string.c:368-451 | the limit of the recursion is not met if there are at least as many levels as parentheses and repeated characters in the pattern |
| `Recursion.LimitExact` | luajit/jit/lib_string.c:368-451 | n items `x?` on n characters x meet the limit if and only if n is at least the number of levels |
| `SimpleMatch.MatchPrefix` | luajit/jit/lib_string.c:368-451 | for a pattern of single-character items with `? * + -`, an end is found exactly if some prefix of the subject is in the pattern's language, and it is the one that backtracking prefers |
| `SimpleMatch.FirstPreferred` | luajit/jit/lib_string.c:302-329 | the first way to match lets each item take what comes first in its order, longest or shortest, among all that let the rest match |
| `SimpleMatch.SimpleAnswers` | luajit/jit/lib_string.c:511-559 | for such a pattern `string.match` returns the text from the first place at which some text is in the language, up to the end preferred there, and nil exactly if there is no such place |
| `Matcher.MatchState.MaxExpand` | luajit/jit/lib_string.c:302-315 | the rest of the pattern is tried after the most characters first, down to none |
| `Matcher.MatchState.MinExpand` | luajit/jit/lib_string.c:317-329 | the rest of the pattern is tried after the fewest characters first |
| `Matcher.MatchState.StartCapture` | luajit/jit/lib_string.c:331-343 | the rest is matched with a capture more, which is gone after a failure |
| `Matcher.MatchState.EndCapture` | luajit/jit/lib_string.c:345-354 | the rest is matched with the last open capture closed, which is open again after a failure |
| `Matcher.MatchState.MatchSet` | luajit/jit/lib_string.c:246-267 | the loop over a set decides membership: for a set written from a list of elements, whether some element has the character, or none if it is negated |
| `Matcher.MatchState.MatchBalance` | luajit/jit/lib_string.c:281-300 | the loop finds the end of the text that is balanced by count, or -1 exactly if there is none |
| `PatternLanguage.EndsInLanguage` | luajit/jit/lib_string.c:302-329 | a pattern of single-character items with `? * + -` reaches an end if and only if the text up to there is in the pattern's language |
| `PatternLanguage.LongestFirst` | luajit/jit/lib_string.c:302-315 | greedy repetition: the outcome taken comes after the most characters after which the rest can match at all |
| `PatternLanguage.ShortestFirst` | luajit/jit/lib_string.c:317-329 | lazy repetition: the outcome taken comes after the fewest |
| `CaptureFacts.CapturesGood` | luajit/jit/lib_string.c:331-366 | every way to match keeps complete captures, only closes open ones, and leaves all within the text matched |
| `Find.MemFind` | luajit/jit/lib_string.c:453-475 | the first occurrence, or -1 exactly if there is none |
| `Find.StrFind` | luajit/jit/lib_string.c:511-559 | plain searches return the first occurrence; others the values at the first place where anything can be reached, which are the texts that the captures enclose or their places, or the whole text matched, with first and last place before them for `find`; or the first error on the way, that of the recursion limit exactly if the search meets it; nil exactly if nothing can be reached |
| `Find.StartMeans` | luajit/jit/lib_string.c:504-525 | where a search starts: places count from 1, or backwards from the end, and are cut to the subject |
| `Find.NoSpecialsMeans` | luajit/jit/lib_string.c:523-527 | the test for special characters looks at the pattern up to its first NUL |
| `Find.SearchNotDeep` | luajit/jit/lib_string.c:511-559 | no search meets the recursion limit with a pattern of fewer parentheses and repeated characters than levels |
| `Find.PlainOutcomes` | luajit/jit/lib_string.c:368-451 | a pattern without special characters, closing parentheses and NULs matches exactly where it occurs |
| `Find.SearchesAgree` | luajit/jit/lib_string.c:511-559 | for such patterns the plain search and the search by matching return the same values |
| `Find.FastPathExact` | luajit/jit/lib_string.c:511-559 | without special characters, the two searches return the same values on every subject, from every start, if and only if the pattern has no closing parenthesis and no NUL |
| `Gsub.Replace` | luajit/jit/lib_string.c:658-697 | the subject is cut, left to right without gap or overlap, into first matches, characters where there is none (or behind an empty match) and a rest; there are at most as many matches as the limit and one more than characters, and an anchored pattern is only tried at the start; the output is put together from the pieces, with each match replaced by its filled template or by what the function or table answered for its captures; answers of nil, or the template `%0`, give the subject back, and answers of t put t for each match; an error is that of the place where the pieces end |
| `Gsub.AddTemplate` | luajit/jit/lib_string.c:605-624 | what the parts of the template give one after the other: characters, characters behind an escape, `%0` and captures; or the error of the first capture that is missing or unfinished |
| `Replacing.FillParts` | luajit/jit/lib_string.c:605-624 | for any way to write a template from such parts, filling it gives what they give |
| `Gsub.AddValue` | luajit/jit/lib_string.c:626-656 | the template filled in, or what the function or table answers for the captures: nil and false keep the match, numbers give decimal text, strings themselves, and all else is an error |
| `Gsub.Identity` | luajit/jit/lib_string.c:658-697 | replacing the matches of any cut of the subject by themselves gives the subject back |
| `Quoted.AddQuoted` | luajit/jit/lib_string.c:711-737 | the loop writes the quoted form, in which a control character has three digits before a digit |
| `Quoted.EscapedIs` | luajit/jit/lib_string.c:711-737 | a control character is written as its decimal code, with zeros to three digits before a digit; quotes, backslashes and newlines behind a backslash; all else as it is |
| `Quoted.RoundTrip` | luajit/jit/lib_string.c:711-737 | reading the quoted form as a string literal gives any byte string back |
| `TableSort.MedianOfThree` | luajit/jit/lib_table.c:195-220 | the ends and the middle are in order, no other element moves |
| `TableSort.Partition` | luajit/jit/lib_table.c:221-246 | for a strict weak order the pivot ends up between what is not greater and what is not less, and no scan runs out of the range; for any comparison the range is rearranged |
| `TableSort.AuxSort` | luajit/jit/lib_table.c:195-256 | terminates for any comparison and only rearranges the range; a strict weak order sorts it; an error means that the comparison contradicted itself; each recursive call has one level less, of as many as the length has binary digits |
| `TableSort.Sort` | luajit/jit/lib_table.c:258-267 | the table is rearranged; a strict weak order sorts it; the error is raised only for a comparison that contradicts itself |
| `TableSort.NoContradiction` | luajit/jit/lib_table.c:195-256 | a comparison contradicts itself if and only if it depends on the call or is not asymmetric, so a lack of transitivity alone never raises the error |
| `LuaBuffer.Buffer.AdjustStack` | luajit/jit/lib_aux.c:183-199 | pieces are joined so that few stack slots are used, and the text stays the same |
| `LuaBuffer.Buffer.AddValue` | luajit/jit/lib_aux.c:226-241 | the value is appended to the text, in the buffer or on the stack |
| `LuaBuffer.Buffer.PushResult` | luajit/jit/lib_aux.c:219-224 | one value is left on the caller's stack: all text that was added |
| `RefTable.Table.Ref` | luajit/jit/lib_aux.c:258-278 | a reference that is not in use, now holding the value; all others keep theirs; nil has a fixed one |
| `RefTable.Table.Unref` | luajit/jit/lib_aux.c:280-289 | exactly this reference is no longer in use |
| `RefTable.ChainRest` | luajit/jit/lib_aux.c:267-272 | the list of free references through the table stays a list when its first leaves |
| `BcReader.LexState.Fill` | luajit/jit/lj_bcread.c:57-94 | what is buffered, then what the reader function will deliver, stays the same; it succeeds exactly if there is enough, and all there is may be less only if it is wanted and not needed |
| `BcReader.LexState.ReadUleb` | luajit/jit/lj_bcread.c:136-151 | decodes any 32-bit number that was encoded |
| `BcDump.UlebMeans` | luajit/jit/lj_bcread.c:136-151 | the encoded number is the sum of its groups of seven bits, and only the last group has no upper bit |
| `BcReader.LexState.ReadUleb33` | luajit/jit/lj_bcread.c:154-169 | decodes the upper 32 of 33 bits |
| `BcReader.LexState.ReadConsts` | luajit/jit/lj_bcread.c:244-280 | the constants that were dumped, with the children from the stack |
| `BcReader.LexState.ReadWords` | luajit/jit/lj_bcread.c:300-326 | words of dumps in either byte order |
| `BcReader.LexState.ReadProto` | luajit/jit/lj_bcread.c:329-420 | the prototype that was dumped, and nothing behind it is consumed |
| `BcReader.LexState.Load` | luajit/jit/lj_bcread.c:423-475 | a well-formed dump of a tree gives the tree back, in whatever pieces it comes |
| `BcDump.OrderBuilds` | luajit/jit/lj_bcread.c:271-277 | reading prototypes in the order of the dump rebuilds the tree on the stack, without underflow, and leaves one more there |
| `BcReader.WordsRead` | luajit/jit/lj_bcread.c:299-326 | swapping the bytes of words of the other order gives the words that were dumped |
| `Calendar.YearDays` | leaf/timer/cronexpr.go:190-268 | the calendar that times are split by follows the Gregorian rule |
| `Calendar.CivilTime` | leaf/timer/cronexpr.go:190-268 | a time is the days of the years before it, of the months before it and of its month, and its clock |
| `Calendar.MonthLength` | leaf/timer/cronexpr.go:190-268 | the length of each month by name, and the rule for leap years |
| `Calendar.NextWeekday` | leaf/timer/cronexpr.go:174-187 | each day has the weekday behind that of the day before |
| `Calendar.Epoch` | leaf/timer/cronexpr.go:174-187 | January 1 of 1970 was a Thursday |
| `Cron.Next` | leaf/timer/cronexpr.go:190-268 | terminates and returns the least second after the given time at which all fields match, or none exactly if there is none up to the end of the year after the start year |
| `Cron.MonthLoop` | leaf/timer/cronexpr.go:204-214 | no match is skipped; a month that matches, or a jump back at the first second of a year |
| `Cron.DayLoop` | leaf/timer/cronexpr.go:216-227 | no match is skipped; a day that matches, or a jump back at the first second of a month |
| `Cron.HourLoop` | leaf/timer/cronexpr.go:229-240 | no match is skipped; an hour that matches, or a jump back at the first second of a day |
| `Cron.MinuteLoop` | leaf/timer/cronexpr.go:242-253 | no match is skipped; a minute that matches, or a jump back at the first second of an hour |
| `Cron.SecondLoop` | leaf/timer/cronexpr.go:255-266 | no match is skipped; all fields match, or a jump back at the first second of a minute |
| `CronParse.ParseField` | leaf/timer/cronexpr.go:85-172 | an error exactly if some part between commas has none of the six forms, or goes beyond the limits; otherwise the bits set are exactly the numbers the parts stand for |
| `CronParse.SixForms` | leaf/timer/cronexpr.go:79-84 | the parser of a part accepts exactly the forms *, a, a-b, */c, a/c and a-b/c within the limits, and gives the range each stands for |
| `Numerals.ReadsSpelled` | leaf/timer/cronexpr.go:111-155 | digits are read as n if and only if they are the decimal text of n, perhaps behind zeros |
| `CronText.NewCronExpr` | leaf/timer/cronexpr.go:30-77 | an error exactly if there are not five or six words, or some field is malformed; otherwise the expression matches exactly the times at which its text is due, field by field, with 0 seconds if they are left out |
| `CronText.DayMeans` | leaf/timer/cronexpr.go:174-188 | `matchDay`: when the field for days of the month leaves no day out, the weekday alone decides, and the other way round; otherwise either suffices |
| `CronText.WordsLaid` | leaf/timer/cronexpr.go:30-31 | a text is split into exactly the words that it is laid out from, whatever space is around them |
| `CronParse.AddRange` | leaf/timer/cronexpr.go:161-168 | both ways to set bits, the shifted masks and the loop, set exactly the numbers of the range |
| `ChanRpc.Safe` | leaf/chanrpc/chanrpc.go:83-388 | on every interleaving, `pendingAsynCall` is what is queued, executing, or returned and not handled, and the sends on `ChanAsynRet` and `chanSyncRet` never block |
| `ChanRpc.IdleMeansDone` | leaf/chanrpc/chanrpc.go:303-392 | when a client is idle, every `AsynCall` has had its callback exactly once, accepted ones in order, and exactly the functions whose results say so have run, once each |
| `ChanOutcomes.CallbacksTrue` | leaf/chanrpc/chanrpc.go:83-392 | on every interleaving, each callback is told what came of its call where that came about, the function's value or panic, the closed server or the reason for which the client gave up; and an idle client has been told that of every call |
| `ChanOutcomes.SyncTrue` | leaf/chanrpc/chanrpc.go:83-300 | on every interleaving, a client receives what came of its synchronous calls, in order, and all of it while it is not waiting |
| `ChanRpc.Progress` | leaf/chanrpc/chanrpc.go:246-263 | while a client waits, in `Close` or in a synchronous call, it can receive or the server can move |
| `ChanRpc.CloseProgress` | leaf/chanrpc/chanrpc.go:384-388 | while `Close` waits, it can receive, or the server has a call of the client left to reply to and can move |
| `ChanRpc.CloseEnds` | leaf/chanrpc/chanrpc.go:384-388 | whatever other clients do, the server never gets further from having replied to the last call of a client in `Close`, each of its steps brings it nearer, and each callback counts pending down |
| `ChanRpc.StepKeeps` | leaf/chanrpc/chanrpc.go:83-388 | each step of a client or the server keeps the invariant |
| `LinearGo.Safe` | leaf/go/go.go:92-122 | on every schedule, functions run one at a time, each once and in the order of submission, callbacks enter `ChanCb` in that order, and no goroutine pops from an empty list |
| `LinearGo.IdleMeansDone` | leaf/go/go.go:75-83 | when `Idle` holds, every function has run and every callback been received, each once and in order |
| `LinearGo.CloseProgress` | leaf/go/go.go:75-79 | while `Close` waits, some goroutine can move |
| `LinearGo.CloseEnds` | leaf/go/go.go:75-79 | each move leaves fewer, so `Close` ends |
| `LinearGo.StepKeeps` | leaf/go/go.go:35-122 | each step keeps the invariant: the length of the list is the number of goroutines that have yet to pop |
| `TcpMsg.ParseFramed` | leaf/network/tcp_msg.go:65-107 | reading yields a message exactly when the stream starts with the frame of one of legal length, for all widths and both byte orders |
| `TcpMsg.ParseErrors` | leaf/network/tcp_msg.go:65-107 | which error comes of which length in the header, and when the stream ends too early |
| `TcpMsg.MessagesPrefix` | leaf/network/tcp_msg.go:65-107 | from any part of a stream of frames, the first messages are read, in order, and no others |
| `TcpMsg.WriteWhole` | leaf/network/tcp_msg.go:110-154 | the frame of the whole message is written if and only if its length is legal and does not wrap around in 32 bits, alone or with the header |
| `TcpMsg.WriteErrors` | leaf/network/tcp_msg.go:110-154 | which error, or panic, comes of which length, for messages whose length does not wrap |
| `TcpMsg.WriteTruncates` | leaf/network/tcp_msg.go:110-154 | a message of 5 bytes more than 2^32 is sent as its first 5 bytes |
| `TcpMsg.MsgParser.SetMsgLen` | leaf/network/tcp_msg.go:31-57 | limits are never 0 and always fit the width |
| `TcpMsg.MsgParser.Write` | leaf/network/tcp_msg.go:110-154 | lengths are added, the frame filled by copying argument by argument, with the errors and the panics of the source |
| `TcpMsg.MsgParser.Read` | leaf/network/tcp_msg.go:65-107 | what the stream starts with, by the byte order and width that are set |
| `TcpConn.Safe` | leaf/network/tcp_conn.go:19-93 | on every run, `writeChan` is never sent to after close nor closed twice, whoever holds the mutex can go on at once, and what goes out is a part from the start of what was accepted |
| `TcpConn.CloseFlushes` | leaf/network/tcp_conn.go:25-72 | on every run, when the sending goroutine has ended and no write failed, everything that was accepted went out |
| `TcpConn.WritesAccepted` | leaf/network/tcp_conn.go:46-93 | on every run, what is accepted is what was written while there was room and the connection open, in order |
| `TcpConn.NothingAfterClose` | leaf/network/tcp_conn.go:46-93 | after the flag is set, nothing more is accepted |
| `TcpConn.Delivered` | leaf/network/tcp_conn.go:25-93 | whatever part arrives, the peer's parser reads the first messages, in order |
| `TcpConn.DeliveredWhole` | leaf/network/tcp_conn.go:25-93 | after such an end, if all that went out arrives, the peer reads exactly the messages accepted |
| `Rand.RandIntervalN` | leaf/util/rand.go:53-91 | the sparse map gives, step for step, what a dense swap-and-remove array gives |
| `Rand.RandIntervalNDistinct` | leaf/util/rand.go:53-91 | the numbers are different and inside the interval, as many as asked for or as there are |
| `Rand.RandIntervalNFair` | leaf/util/rand.go:53-91 | every selection of different numbers, in any order, comes from exactly one sequence of draws |
| `Rand.RandGroup` | leaf/util/rand.go:12-39 | never panics; when the weights do not wrap around in 32 bits, index i is the result for exactly as many draws as its weight |

## Left out

- Client.Run: assumes that `lj_alloc_create` got its first mapping; when `mmap` fails there the source returns a null pointer and there is no heap.
- Heap.MState.PrependAlloc: unlinks a free first chunk before it stores the segment record and the head of the new block, where the source does so after; the stores concern different words.
- Heap.MState.DirectResize: growing in place is modelled for ranges that stay below 2 GB; the kernel gives no such promise for `mremap`. Moving a mapping is not modelled, since the 64-bit build does not ask for it.
- Heap.MState.Malloc: a request within 0x20040 of 2^64 may fail without a failed `mmap`, as in the source.
- Memory is a map from byte addresses to 64-bit words; words at addresses that overlap are independent of each other. The allocator only uses 8-aligned words; bytes of blocks are parts of these words.
- The bit maps, `treebins`, `dv`, `top` and the other scalars of `malloc_state` are fields of the object and not words of memory; the bin headers and the segment record are words.
- The 32-bit build, the Windows and the other `mmap` variants of `lj_alloc.c`, and its address hints.
- PatternSyntax.SetMeans: sets with a range that ends in an escape or a bracket, whose end is looked for by other rules than their elements, are modelled but not described by elements.
- Gsub.Replace: functions given as replacements are functions of their arguments, without side effects; numbers convert to decimal text; the buffer is a string here (`LuaBuffer` models it).
- TableSort.AuxSort: the table is an array without metamethods; the comparison does not change it.
- Cron.Next: UTC only, from year 1 on, and times before the start of a second count as that second.
- CronText.NewCronExpr: `strings.Fields` is taken as a function on texts.
- CronParse.ParseField: the loop over a range does not overflow 64 bits, whatever the increment.
- RefTable.Table.Unref: takes references in use and negative numbers; what other numbers would do to the list is left out.
- BcReader.LexState.Load: what a malformed dump does to a reader without assertions is only modelled as `Unspecified`; sizes do not wrap around in 32 bits; the host is little-endian; the first instruction of a prototype, which is made from its flags, and the pointers into its debug information are left out; a constant table is the list of its entries.
- LinearGo.Safe: the functions given to the context return or panic; the order in which goroutines started otherwise send is left open.
- ChanRpc.Safe: arguments and results are not looked into; a client is used by one goroutine, as its documentation asks.
- TcpConn.Safe: what the network does with bytes it has been handed.
- Rand.RandGroup: the uniformity of `rand.Int63n`.
- In `luajit/`: `string.format`, `gmatch`, `string.rep`, `string.dump`, `table.concat` and the rest of the libraries; the virtual machine.
- In `leaf/`: `RandInterval`, `Go.Go` on its own, timers, gates, the network listeners, consoles and logs.
- `game/`, `hall/`, `db/`, `bean/`, `httpsv/`, `ai/`, `client/`, `rpc/`, `protobuf/`, `encrypt/`: handlers, storage, generated code.
