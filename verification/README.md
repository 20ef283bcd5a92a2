# Verification models for ampi and its sample decoder

This project models the parts of the repository whose correctness is an argument, not a glance, and proves that argument.

**Vorbis entropy decoding** (`sample/stb_vorbis.c`). The codebook builder hands out codewords from a table with one free leaf per level. Its author writes that the invariant "isn't totally trivial to prove"; here it is proved, together with what follows from it: the builder succeeds exactly when the lengths satisfy Kraft's inequality, every codeword is the lowest one compatible with those before it (section 3.2.1 of the Vorbis I specification), and the free leaves and the codewords always partition the code space. The three ways of decoding derived from the same code (16-bit table, binary search, linear scan) are proved to name the same symbol, over a bit reader that is itself proved to deliver exactly the bits of each packet of the Ogg pages. The same file's floor curve, its amplitude folding and its page checksum are proved against direct definitions.

**The VCHIQ slot transport** (`ampi/vc4/vchiq/vchiq_core.c`). Sender, receiver, clients and recycle thread are steps of one machine (`slot_machine.dfy`). A history recorded beside the machine (`slot_history.dfy`) says which message went where. One invariant, `SlotHistory.Sound`, is kept by every step of every thread in every order; the theorems in `slot_transport.dfy` hold in every reachable state. That the counters are exact (`SlotHistory.Exact`) is kept by every step that takes no slot number for another. `slot_threads.dfy` is the same code as it is written, a class whose methods update the shared fields in loops, each proved to be a run of its thread's steps.

**Smaller protocols**: the armed/fired event with its doorbell, the bulk queue counters, the pacing of audio chunks, and the packing of page lists.

Where the code and its promise part, the exact condition is proved:

- A codeword of up to 25 bits is decoded wherever it stands. A longer one is decoded exactly when it ends within the fourth byte from the one being read (`Decoder.Window`), because the accumulator is refilled to 25 bits at least. So a codeword is missed in some packet that has all its bits if and only if it is longer than 25 bits (`RoundTrip.LongCodeMissed`); `RoundTrip.MissedAt33` is a book and a place.
- In a full book that has a sorted table, a codeword of at most ten bits whose symbol is 32767 or higher is never found, and no other one is lost (`RoundTrip.FindableExactly`); `RoundTrip.NeverFound` is a book that fills the code space.
- An accepted sparse book without any used entry has no symbol table, and decoding from it reads through a null pointer; every other accepted book can be decoded from (`RoundTrip.NoTableExactly`, `RoundTrip.UnusedBook`).
- A decoded floor symbol is stored in 16 bits before it is unfolded. Next to every prediction its amplitude is in range if and only if the stored value is from -1 up to the range, that is, if the symbol modulo 65536 is below the range or 65535 (`FloorCurve.SuitsAlways`, `FloorCurve.SafeSymbol`); and a floor stays in range whatever is decoded from a set of symbols if and only if all of them are like that (`FloorCurve.SafeSymbols`). Symbol 65536 is taken for 0, and symbol 40000 gives a negative amplitude (`FloorCurve.Symbol65536`, `FloorCurve.Symbol40000`).
- A push-mode page scan loses its place if and only if the search for candidates stops, at one whose header has not arrived, inside the first 26 bytes of a candidate already begun (`PageSearch.Crowded`, `PageSearch.Search.SearchForPage`). Its count of bytes left stays right, but those bytes go through the checksum a second time (`PageSearch.AheadOfPiece`, `PageSearch.FoldedTwice`); `PageSearch.Search` loses its place on the 35 bytes of `PageSearch.LosesItsPlace`.
- Writing the second of the two initial audio chunks leaves at most two in flight if and only if there was room for it, which is not tested; after that, completions keep what bound there is (`AudioPacing.SoundDevice.StartSecond`, `AudioPacing.SoundDevice.Complete`, and three chunks in `AudioPacing.ThreeChunks`). The messages of a chunk stand together in the queue if and only if no completion handled while one of its packets waits gets a chunk into it (`AudioPacing.SoundDevice.WriteChunk`, `AudioPacing.TornChunk`).
- A cancelled device is found terminating by its waiter if and only if no completion handled in the same visit after the terminating one meets an empty chunk or a failing queue (`AudioPacing.SoundDevice.Cancel`); in `AudioPacing.IdleAtOnce` the waiter finds it idle.
- Slot numbers are compared in 20 bits. Counting a DATA message keeps the counters exact if and only if neither remembered number is taken for the current one though it is another (`SlotExact.CommitExactExactly`). On a run where that happens a slot is not counted, and its rescan meets a counter that is already zero (`SlotAliasing.CountGoesMissing`).

Modules: `basics`, `bits` (numbers as bit strings, reversal), `prefix_code`, `codebook`, `ranking`, `huffman_tables`, `packet_reader`, `decoder`, `round_trip`; `floor_curve`; `crc32`, `page_search`; `slot_machine`, `slot_history`, `slot_ledger`, `slot_claims`, `slot_accounts`, `slot_runs`, `slot_steps`, `slot_exact`, `slot_transport`, `slot_aliasing`, `slot_handover`, `slot_threads`; `remote_events`; `bulk_queues`; `audio_pacing`; `page_lists`. `dafny verify dfyconfig.toml` checks them all.

## Model

| member | source | states |
|---|---|---|
| PrefixCode.BuildReaches | sample/stb_vorbis.c:1047-1091 | after every prefix of every length list the free leaves and the codewords partition [0, 2^32), there is at most one leaf per level, deeper leaves lie strictly to the left, and the codewords are the lowest possible ones; so no assertion of the builder fails |
| PrefixCode.KraftDecides | sample/stb_vorbis.c:1047-1091 | building succeeds exactly when the lengths satisfy Kraft's inequality |
| PrefixCode.FreeBlockInLeaf | sample/stb_vorbis.c:1069-1077 | any free aligned block large enough for a codeword lies inside one single available leaf |
| PrefixCode.DeepestIsLowest | sample/stb_vorbis.c:1069-1079 | the deepest usable leaf holds the numerically lowest free block of that size |
| PrefixCode.Assign | sample/stb_vorbis.c:1080-1089 | taking a codeword and splitting the rest of its leaf keeps the partition |
| PrefixCode.DeadEnd | sample/stb_vorbis.c:1076-1077 | when no leaf is found, the code space left is smaller than the codeword asked for |
| PrefixCode.BuildComplete | sample/stb_vorbis.c:1047-1091 | the builder finds the one code the lowest-codeword rule allows, whenever there is one |
| PrefixCode.CanonicalExists | sample/stb_vorbis.c:1069-1089 | lengths have a lowest-first code exactly when they satisfy Kraft's inequality |
| PrefixCode.FullCode | sample/stb_vorbis.c:1047-1091 | the codewords cover the whole code space exactly when Kraft's inequality is an equality |
| PrefixCode.BeginsIffInside | sample/stb_vorbis.c:1622-1643 | low bits of the accumulator match a stored codeword exactly when the bit-reversed accumulator lies in the codeword's block |
| PrefixCode.BeginsUnique | sample/stb_vorbis.c:1647-1658 | an accumulator begins with at most one codeword |
| Codebooks.ComputeCodewords | sample/stb_vorbis.c:1047-1091 | the in-place builder returns true exactly when Kraft's inequality holds, and then has stored the lowest-first code, bit-reversed, by symbol or in order |
| Codebooks.AddEntry | sample/stb_vorbis.c:1036-1045 | a full book stores a codeword at its symbol, a sparse one at its count together with length and value |
| Codebooks.TakeLeaf | sample/stb_vorbis.c:1078-1089 | the table after a leaf is taken is the split table of the specification |
| Bits.ReverseTwice | sample/stb_vorbis.c:971-978 | reversing the bits of a word twice gives it back |
| Bits.BitReverseWordAt | sample/stb_vorbis.c:971-978 | the five mask-and-shift steps move bit i of a 32-bit word to bit 31 - i |
| Bits.ReverseAt | sample/stb_vorbis.c:971-978 | bit i of a reversed number is bit k - 1 - i of the number |
| Bits.BitReverseAgrees | sample/stb_vorbis.c:971-978 | on every 32-bit word the mask-and-shift steps and the reversal of numbers used by the decoder are the same |
| HuffmanTables.ComputeSortedHuffman | sample/stb_vorbis.c:1140-1191 | the sorted table lists exactly the codewords to be searched, in ascending order, with the symbol and length of each at its place |
| HuffmanTables.BinarySearch | sample/stb_vorbis.c:1167-1182 | the search keeps its bracket (sorted[x] <= code < sorted[x+n]) and ends at the last entry not above the code |
| HuffmanTables.SearchHits | sample/stb_vorbis.c:1171-1187 | a search for any number inside a codeword's block ends at that codeword |
| HuffmanTables.RankedIsStrict | sample/stb_vorbis.c:1158-1159 | sorted codewords are distinct and their blocks do not overlap; exactly the included entries are there |
| HuffmanTables.ComputeAcceleratedHuffman | sample/stb_vorbis.c:1095-1121 | every cell of the table of short codewords holds an index whose codeword matches the cell's low bits, or -1 when there is none |
| PacketReader.LacingRoundTrip | sample/stb_vorbis.c:1500-1522 | cutting a byte stream by the lacing values of packets (section 6 of RFC 3533) gives those packets back, empty ones and multiples of 255 included |
| PacketReader.CutSegment | sample/stb_vorbis.c:1500-1522 | taking the next lacing value changes neither the packet in progress nor those after it |
| PacketReader.CutByte | sample/stb_vorbis.c:1524-1534 | taking one byte takes the first byte of the packet in progress and nothing else |
| PacketReader.Reader.constructor | sample/stb_vorbis.c:1464-1477 | a reader of whole pages stands before exactly the packets their lacing values cut |
| PacketReader.Reader.StartPage | sample/stb_vorbis.c:1392-1462 | a page header is recognised, its lacing values become the segment table, and reading stands at its body |
| PacketReader.Reader.StartPacket | sample/stb_vorbis.c:1464-1477 | a packet starts exactly when one is left and the next page is not marked as continuing one, and it is the next one |
| PacketReader.Reader.NextSegment | sample/stb_vorbis.c:1500-1522 | turning to the next segment, across pages too, leaves the packet in progress as it is; the next lacing value is returned, or 0 and an error at a page that should continue the packet and is not marked so |
| PacketReader.Reader.Get8PacketRaw | sample/stb_vorbis.c:1524-1534 | yields the packet's next byte, and the end-of-packet value exactly at its end |
| PacketReader.Reader.FlushPacket | sample/stb_vorbis.c:1543-1546 | reads up to the packet's end and no further |
| PacketReader.Reader.GetBits | sample/stb_vorbis.c:1550-1580 | returns the next n bits of the packet (n up to 32), least significant first, and removes exactly those; past the end 0, and the reader is marked |
| PacketReader.Reader.PrepHuffman | sample/stb_vorbis.c:1584-1597 | fills the accumulator with at least 25 bits, or all that are left, without changing the bit stream |
| Decoder.SetupCodebook | sample/stb_vorbis.c:3721-3794 | a codebook is accepted exactly when Kraft's inequality holds, and all its tables then agree with the one code |
| Decoder.ShortUnique | sample/stb_vorbis.c:1111-1120 | in a finished book at most one index matches the low bits of a cell, so the table of short codewords never has to choose |
| Decoder.WindowUnique | sample/stb_vorbis.c:1584-1597 | a refilled accumulator ends at the packet's end or within the fourth byte from the one being read |
| Decoder.StartsUnique | sample/stb_vorbis.c:1622-1658 | a bit stream starts with at most one codeword |
| Decoder.SearchSorted | sample/stb_vorbis.c:1619-1643 | the binary search names the codeword at the front of the accumulator, for sparse and full books; whatever the accumulator holds, it is the last entry not above it that is named, or -1 when the valid bits do not allow its length |
| Decoder.SearchLinear | sample/stb_vorbis.c:1646-1658 | the linear scan names the codeword at the front of the accumulator |
| Decoder.CodebookDecodeScalarRaw | sample/stb_vorbis.c:1606-1663 | searching finds the codeword at the front of the packet exactly when it lies in the accumulator and in the searched table, and removes its bits; otherwise the buffered bits are dropped, unless the book has no codewords to search |
| Decoder.DecodeRaw | sample/stb_vorbis.c:1667-1680 | table or search: the codeword at the front of the packet is found exactly when it lies in the accumulator and can be found at all |
| RoundTrip.Decode | sample/stb_vorbis.c:1704-1706 | the symbol is named, and exactly its bits removed, under the same condition; in every other case too the answer is -1 or the symbol of an entry whose length is then removed; at the end of the packet, and where no codeword of a full or linearly scanned code stands, it is -1; the lookup fails exactly when the book is sparse and has no symbol table |
| RoundTrip.NoTableExactly | sample/stb_vorbis.c:3744-3794 | an accepted book has no table to look symbols up in exactly when it is sparse and has no used symbol |
| RoundTrip.UnusedBook | sample/stb_vorbis.c:1704-1706 | four symbols, none used: the book is set up, and decoding from it fails |
| RoundTrip.DecodeSequence | sample/stb_vorbis.c:1606-1706 | symbols written as their codewords are read back with exactly their bits removed, if and only if every codeword fits where it stands |
| RoundTrip.DecodePacket | sample/stb_vorbis.c:1464-1706 | the same from the pages on: starting a packet and decoding it gives the symbols written to it |
| RoundTrip.PackHolds | sample/stb_vorbis.c:1550-1580 | bits written into bytes least significant first are the bits the packet starts with |
| RoundTrip.AlwaysFits | sample/stb_vorbis.c:1584-1706 | with codewords of at most 25 bits and symbols below 32767 every word fits at every place |
| RoundTrip.LongCodeMissed | sample/stb_vorbis.c:1584-1597 | a codeword of a book is missed at some place of some packet that has all its bits exactly when it is longer than 25 bits |
| RoundTrip.MissedAt33 | sample/stb_vorbis.c:1584-1643 | a single codeword of 26 bits is decoded with 32 or 34 bits of the packet left and missed with 33 |
| RoundTrip.FindableExactly | sample/stb_vorbis.c:1101-1110 | which codewords can be found: all but short ones of symbols 32767 and up in a full book with long codewords |
| RoundTrip.NeverFound | sample/stb_vorbis.c:1101-1110 | 32767 lengths of 16, then a 1, then a 16 fill the code space; the one-bit codeword of that full book is never found |
| RoundTrip.EveryStreamDecodes | sample/stb_vorbis.c:1606-1663 | every 32 bits start with a codeword exactly when no code space is left over |
| FloorCurve.PredictBetween | sample/stb_vorbis.c:1885-1893 | a predicted point lies between the two ends and meets them |
| FloorCurve.LineStep | sample/stb_vorbis.c:2015-2030 | one step of the error accumulator carries the exact quotient along |
| FloorCurve.DrawLine | sample/stb_vorbis.c:1984-2031 | every sample from x0 to min(x1, n) uses the height the prediction formula gives; all others stay |
| FloorCurve.FoldInverse | sample/stb_vorbis.c:3234-3252 | unfolding is a bijection of [0, range) for every prediction, with folding as its inverse |
| FloorCurve.UnfoldInRange | sample/stb_vorbis.c:3234-3252 | next to a prediction in range, a value of either sign gives an amplitude in range exactly when it is below the range and, if negative, small enough for the room on its side |
| FloorCurve.SuitsAlways | sample/stb_vorbis.c:3234-3252 | next to every prediction the values from -1 up to the range, and no others, give amplitudes in range |
| FloorCurve.SafeSymbol | sample/stb_vorbis.c:3217-3221 | the 16-bit store leaves a value from -1 up to the range exactly when the low 16 bits of the symbol are below the range or all ones |
| FloorCurve.SafeSymbols | sample/stb_vorbis.c:3196-3257 | whatever is decoded from a set of symbols, all amplitudes are in range exactly when every symbol is stored as a value from -1 up to the range |
| FloorCurve.Symbol65536 | sample/stb_vorbis.c:3217-3257 | symbol 65536, below no range, gives the prediction itself |
| FloorCurve.Symbol40000 | sample/stb_vorbis.c:3217-3257 | symbol 40000 gives a negative amplitude next to every prediction |
| FloorCurve.Neighbors | sample/stb_vorbis.c:1264-1273 | the two indices found are the nearest earlier positions on either side |
| FloorCurve.SetupFloor | sample/stb_vorbis.c:3926-3955 | a floor is accepted exactly when its positions are distinct, and then has its order and neighbours |
| FloorCurve.SortDistinct | sample/stb_vorbis.c:3943-3946 | no two sorted neighbours coincide exactly when all positions are distinct |
| FloorCurve.AmplitudesInRange | sample/stb_vorbis.c:3225-3257 | all unfolded and stored amplitudes are in range exactly when every stored value suits the prediction made for it |
| FloorCurve.UnfoldFloor | sample/stb_vorbis.c:3224-3257 | the array holds the amplitudes defined point by point, each stored in 16 bits, and exactly the ends, the points with values and their neighbours are marked |
| FloorCurve.RangeLeast | sample/stb_vorbis.c:3198-3199 | the range of each multiplier is the least one whose scaled amplitudes reach all 256 heights |
| FloorCurve.CurveFits | sample/stb_vorbis.c:3063-3098 | between points that fit the table the whole curve fits it |
| FloorCurve.DoFloor | sample/stb_vorbis.c:3063-3098 | every sample is scaled by the table entry for the curve through the drawn points, at an index within 0..255 |
| FloorCurve.RenderFloor | sample/stb_vorbis.c:3196-3268 | from decoded symbols whose stored values suit their predictions to the scaled spectrum, with every table index in bounds |
| Crc32.FoldDivides | sample/stb_vorbis.c:953-967 | for every byte sequence the table-driven checksum is the remainder of bit-by-bit division by 0x04c11db7 |
| Crc32.Generator | sample/stb_vorbis.c:950-951 | the generator is the polynomial with the exponents 32, 26, 23, 22, 16, 12, 11, 10, 8, 7, 5, 4, 2, 1 and 0 |
| Crc32.ChecksumOfOne | sample/stb_vorbis.c:953-967 | the checksum of the single byte 1 is the generator |
| Crc32.FeedDivides | sample/stb_vorbis.c:953-962 | feeding bits through the shift register is long division |
| Crc32.MixedFeeds | sample/stb_vorbis.c:964-967 | one table update is eight bits fed one by one |
| Crc32.Crc32Init | sample/stb_vorbis.c:953-962 | every table entry is its index shifted through the register |
| Crc32.Crc32Update | sample/stb_vorbis.c:964-967 | the table lookup takes the register through the byte's eight bits, one by one |
| Crc32.FoldAppend | sample/stb_vorbis.c:4337-4345 | carrying the checksum from one piece of data to the next equals one pass over both |
| PageSearch.Search.SearchForPage | sample/stb_vorbis.c:4278-4366 | over any cutting of the stream, a page is found if and only if one that was begun, now or before, is whole within what is looked at and its checksum is right; its bytes are then consumed. Otherwise every scan has covered exactly the bytes consumed, if and only if the search for candidates did not stop inside the header of one already begun |
| PageSearch.CoversPage | sample/stb_vorbis.c:4347-4350 | a finished scan matches its goal exactly when the page's checksum is right |
| PageSearch.GoalBit | sample/stb_vorbis.c:4318 | bit k of the checksum a page asks for is bit k % 8 of byte k / 8 of its field |
| PageSearch.GoodIsSealed | sample/stb_vorbis.c:4305-4350 | a whole page is good exactly when its field holds the checksum taken with a zeroed field, least significant byte first |
| PageSearch.FindsSealed | sample/stb_vorbis.c:4278-4366 | a page so written, arriving whole with four more bytes and without a capture pattern inside, is found |
| PageSearch.AdvanceCovers | sample/stb_vorbis.c:4337-4346 | a scan goes on over the next piece with exactly the bytes behind those it covered |
| PageSearch.DistanceSuffices | sample/stb_vorbis.c:4289-4296 | with capture patterns at least 26 bytes apart the search never stops inside such a header |
| PageSearch.AheadOfPiece | sample/stb_vorbis.c:4337-4346 | a scan standing beyond the end of the piece keeps the right count of bytes left, while its checksum has already taken the header's first 26 bytes |
| PageSearch.FoldedTwice | sample/stb_vorbis.c:4337-4346 | over the next piece such a scan folds the bytes up to the header's 26th a second time, the checksum field unzeroed |
| PageSearch.LosesItsPlace | sample/stb_vorbis.c:4278-4366 | 35 bytes, the beginning of a page whose serial number is a capture pattern, after which a scan has not covered what was consumed |
| SlotMachine.CalcStride | ampi/vc4/vchiq/vchiq_core.c:474-483 | the least multiple of the header size that holds header and data |
| SlotTransport.AssertionsHold | ampi/vc4/vchiq/vchiq_core.c:553-754 | on every run, whatever thread moves next, the assertions of its code hold: padding has room for a header, a slot is taken only while the available queue is not empty, every header read is there and fits, and every rescan ends exactly at the slot's end |
| SlotSteps.EveryStepKeeps | ampi/vc4/vchiq/vchiq_core.c:553-2031 | every step of sender, receiver, clients and recycle thread keeps the whole invariant |
| SlotTransport.ReachableSound | ampi/vc4/vchiq/vchiq_core.c:2315-2487 | every state reachable from the initial one satisfies the invariant, for 1 to 64 slots |
| SlotTransport.MessagesSurvive | ampi/vc4/vchiq/vchiq_core.c:553-607 | no step of any thread disturbs a message in a slot that is in use or waits for its rescan |
| SlotTransport.TakenSlotIsFree | ampi/vc4/vchiq/vchiq_core.c:575-602 | the slot handed to the sender is used by no slot number still in use or waiting, and no header in it is claimed |
| SlotTransport.SlotsConserved | ampi/vc4/vchiq/vchiq_core.c:1137-1152 | every slot is in exactly one place: still to be filled, or behind one live slot number |
| SlotTransport.NothingLost | ampi/vc4/vchiq/vchiq_core.c:750-753 | free slots and slots in use add up to all slots |
| SlotTransport.RingWindow | ampi/vc4/vchiq/vchiq_core.c:597-600 | no ring entry is overwritten before both sides have read it, even when slots come back out of order |
| SlotTransport.Fifo | ampi/vc4/vchiq/vchiq_core.c:958-983 | the messages parsed, padding aside, are a prefix of the messages queued, byte for byte |
| SlotTransport.LeftoverFitsHeader | ampi/vc4/vchiq/vchiq_core.c:470-483 | what is left of a slot between messages holds a header |
| SlotTransport.NeverPadsTwice | ampi/vc4/vchiq/vchiq_core.c:575-592 | a reservation that found no slot leaves the position published and at a boundary, and the next one writes no padding |
| SlotTransport.PredictedSlotIsUsed | ampi/vc4/vchiq/vchiq_core.c:799-915 | the slot number the quota check predicted is the one the message is counted for |
| SlotTransport.ClaimsBalance | ampi/vc4/vchiq/vchiq_core.c:1103-1137 | use and release count of a slot differ by its claimed headers, plus one while it is parsed |
| SlotTransport.ComesBackUnclaimed | ampi/vc4/vchiq/vchiq_core.c:1137-1152 | a slot comes back only when no header in it is claimed, whatever the order of releases |
| SlotTransport.ComesBackOnce | ampi/vc4/vchiq/vchiq_core.c:1137-1152 | each filled slot is given back at most once |
| SlotTransport.AccountsExact | ampi/vc4/vchiq/vchiq_core.c:626-754 | on every run that takes no slot number for another, each port's message and slot counts, and the count of slots with data, equal what is in slots not yet rescanned, less what the rescan in progress has taken off |
| SlotTransport.CountersNeverMissing | ampi/vc4/vchiq/vchiq_core.c:648-716 | on the same runs no counter a rescan lowers is zero |
| SlotExact.CommitExactExactly | ampi/vc4/vchiq/vchiq_core.c:913-929 | counting a DATA message keeps all counters exact if and only if both 20-bit comparisons of slot numbers tell the truth |
| SlotExact.OverQuotaExactly | ampi/vc4/vchiq/vchiq_core.c:825-830 | with exact counters, no rescan under way and no slot number taken for another, a message is over quota exactly when the DATA messages in use are as many as the quota, or it would add a slot the port has no DATA in while the slots in use are as many as the quota |
| SlotExact.EveryStepExact | ampi/vc4/vchiq/vchiq_core.c:553-2031 | every step that takes no slot number for another keeps all counters exact |
| SlotAliasing.CountGoesMissing | ampi/vc4/vchiq/vchiq_core.c:648-716 | a run of 2^20 slots after which a slot is not counted, and the rescan is about to lower a counter that is zero |
| SlotTransport.QuotasKept | ampi/vc4/vchiq/vchiq_core.c:825-930 | on every run no message or slot counter of a service exceeds its quota |
| SlotTransport.TrueUseWithinQuotas | ampi/vc4/vchiq/vchiq_core.c:825-930 | on every run that takes no slot number for another, a service uses no more messages and slots than its quotas while no rescan is under way |
| SlotTransport.BlockedSenderIsServed | ampi/vc4/vchiq/vchiq_core.c:575-592 | when a sender waits for a slot, everything published is parsed and nothing is claimed, the recycle thread has work |
| SlotTransport.WrappedComparisons | ampi/vc4/vchiq/vchiq_core.c:594-1630 | the positions and counters in use span 64 slots at most, so the comparisons made on 32-bit values (end of data, empty free queue, slot taken too early) come out as on true ones; the remembered slot numbers can be older, and the machine itself compares those in 20 bits |
| SlotTransport.WrappedRingEntry | ampi/vc4/vchiq/vchiq_core.c:597-600 | a wrapped position selects the ring entry and the offset of the true one |
| SlotAccounts.RememberAdd | ampi/vc4/vchiq/vchiq_core.c:2673-2684 | a service added to a port without slots in use starts behind every slot number it could write to next |
| SlotAccounts.RescanCovered | ampi/vc4/vchiq/vchiq_core.c:648-716 | the counters a rescan lowers are above zero |
| SlotLedger.HeldApart | ampi/vc4/vchiq/vchiq_core.c:553-607 | slot numbers not yet rescanned use different slots |
| SlotClaims.CountingRelease | ampi/vc4/vchiq/vchiq_core.c:1118-1152 | releasing a claimed header gives the slot back exactly when it was the last hold on a slot parsed to its end |
| SlotThreads.Transport.constructor | ampi/vc4/vchiq/vchiq_core.c:2459-2487 | the initial rings and counters, set up slot by slot, are the machine's initial state |
| SlotThreads.Transport.ReserveSpace | ampi/vc4/vchiq/vchiq_core.c:553-607 | reserving is a run of the sender's steps; without a slot everything is published, and a caller that may not block gets nothing |
| SlotThreads.Transport.QueueMessage | ampi/vc4/vchiq/vchiq_core.c:757-996 | a run of the sender's steps that sends and publishes the message, refuses it when it is too big, over quota or without a slot, and says which; over quota means that the service's messages are at their quota, or its slots are and the message would end in another slot than the port last wrote to; with truthful counters it means that in what is truly in use |
| SlotThreads.Transport.WokenQueueMessage | ampi/vc4/vchiq/vchiq_core.c:587-607 | a caller left waiting sends its message once a slot is available |
| SlotThreads.Transport.AddServicePort | ampi/vc4/vchiq/vchiq_core.c:2673-2684 | adding a service resets the remembered slot only for a port without slots in use |
| SlotThreads.Transport.ParseRxSlots | ampi/vc4/vchiq/vchiq_core.c:1620-2039 | a run of the receiver's steps that reaches the published position; of the messages parsed exactly the DATA of open services is claimed and handed to clients, in order; with no message half sent everything sent is delivered |
| SlotHandover.NotYetClaimed | ampi/vc4/vchiq/vchiq_core.c:1780-1797 | a header the parser has not passed is not claimed |
| SlotHandover.HandsNext | ampi/vc4/vchiq/vchiq_core.c:1780-1797 | claiming the header under the parser, exactly when it is DATA of an open service, changes no header parsed before |
| SlotThreads.Transport.ReleaseSlot | ampi/vc4/vchiq/vchiq_core.c:1109-1158 | the in-place release is the machine's release step |
| SlotThreads.Transport.ReleaseMessage | ampi/vc4/vchiq/vchiq_core.c:3498-3527 | a released header is no longer claimed, and releasing an unclaimed one changes nothing |
| SlotThreads.Transport.ProcessFreeQueue | ampi/vc4/vchiq/vchiq_core.c:610-754 | a run of the recycle thread's steps after which every slot that came back is available, and counters that were exact count exactly the slots still in use |
| RemoteEvents.NoLostWakeUp | ampi/vc4/vchiq/vchiq_core.c:427-468 | a waiter asleep on a zero semaphore whose event has fired has a doorbell pending or a signaller or interrupt on its way |
| RemoteEvents.NoForgottenWork | ampi/vc4/vchiq/vchiq_2835_arm.c:241-252 | the same whenever the remote side has published work or a local thread has asked for a poll |
| RemoteEvents.WakeUpArrives | ampi/vc4/vchiq/vchiq_2835_arm.c:372-388 | once the steps under way have run, in any order, the sleeping waiter's semaphore is raised |
| RemoteEvents.HelpingEnds | ampi/vc4/vchiq/vchiq_core.c:446-459 | in any order the steps under way come to an end |
| RemoteEvents.WakeUpCertain | ampi/vc4/vchiq/vchiq_core.c:427-468 | from every reachable state with the waiter asleep and work or a poll to do, the steps under way are bounded in number beforehand, and when none is left the semaphore is raised and the waiter can go on |
| RemoteEvents.LeftAloneSleeps | ampi/vc4/vchiq/vchiq_core.c:427-444 | from every reachable state with nothing under way, the waiter comes to sleep after a number of steps known beforehand, with the event armed and not fired and everything dealt with |
| RemoteEvents.StepSafe | ampi/vc4/vchiq/vchiq_core.c:427-459 | every single access of waiter, signallers and interrupt keeps the event's invariant |
| BulkQueues.BulkQueue.Prepare | ampi/vc4/vchiq/vchiq_core.c:3334-3363 | an entry is written exactly when one is free, and no bulk in the queue is touched |
| BulkQueues.BulkQueue.Insert | ampi/vc4/vchiq/vchiq_core.c:3385-3401 | the prepared bulk joins the queue behind all others |
| BulkQueues.BulkQueue.Done | ampi/vc4/vchiq/vchiq_core.c:1888-1951 | an answer finishes the oldest unfinished bulk; an unexpected one is refused |
| BulkQueues.BulkQueue.NotifyBulks | ampi/vc4/vchiq/vchiq_core.c:1160-1262 | clients are told about every finished bulk once, in the order of insertion |
| BulkQueues.BulkQueue.AbortOutstandingBulks | ampi/vc4/vchiq/vchiq_core.c:1391-1438 | terminates with the three front counters equal, every unfinished bulk finished as aborted |
| BulkQueues.BulkQueue.Close | ampi/vc4/vchiq/vchiq_core.c:2803-2821 | afterwards every bulk ever inserted has been reported exactly once, in order, with its result or its direction and whether it was aborted |
| BulkQueues.BulkQueue.ToldRight | ampi/vc4/vchiq/vchiq_core.c:1211-1246 | a blocking caller is woken with the result, a callback is told direction and abortion, and a bulk with neither is silent |
| BulkQueues.BulkQueue.EntriesApart | ampi/vc4/vchiq/vchiq_core.c:3334-3352 | no ring entry serves two bulks in the queue, nor one in the queue and one being prepared |
| BulkQueues.BulkQueue.ToldInOrder | ampi/vc4/vchiq/vchiq_core.c:1160-1262 | what clients were told is a prefix of the finished bulks |
| AudioPacing.SoundDevice.WriteChunk | ampi/vc4/sound/vchiqsoundbasedevice.c:62-112 | a chunk is announced and queued in its pieces of 4000 bytes, the last one perhaps shorter, exactly when every call into the queue succeeds; its messages stand in order, and next to each other if and only if no completion handled while a packet waits gets a chunk into the queue |
| AudioPacing.SoundDevice.Complete | ampi/vc4/sound/vchiqsoundbasedevice.c:144-180 | a completion does to state and bytes in flight what its four cases say; two chunks in flight at most stay two at most, and come back to that once the bytes left allow it; a playing or cancelled device always has bytes in flight; a chunk is queued exactly when one is asked for, there is one and the queue takes it |
| AudioPacing.SoundDevice.Distance | ampi/vc4/sound/vchiqsoundbasedevice.c:164-167 | the wrapped 32-bit positions differ by the true number of bytes in flight |
| AudioPacing.SoundDevice.StartFirst | ampi/vc4/sound/vchiqsoundbasedevice.c:365-374 | the first chunk is in flight and the device runs, less what completions handled during its calls took off and added, or it is idle when there is none |
| AudioPacing.SoundDevice.StartSecond | ampi/vc4/sound/vchiqsoundbasedevice.c:371-374 | the second chunk follows, after an empty first one too; when no completion comes during its calls, at most two chunks are then in flight if and only if there was room for this one |
| AudioPacing.SoundDevice.Cancel | ampi/vc4/sound/vchiqsoundbasedevice.c:393-406 | for every schedule of completions of what is in flight, several to a visit, the wait ends; the waiter finds the device terminating if and only if none that asks for a chunk meets an empty one or a failing queue, and nothing was queued if and only if none got anything into the queue |
| AudioPacing.SoundDevice.Visit | ampi/vc4/sound/vchiqsoundbasedevice.c:144-180 | all completions delivered in one visit of the message thread, in order |
| AudioPacing.CancelledThen | ampi/vc4/sound/vchiqsoundbasedevice.c:393-406 | from a cancelled device on, completions leave it waiting or terminating exactly when none of them fails, and waiting only while bytes are in flight |
| AudioPacing.ThreeChunks | ampi/vc4/sound/vchiqsoundbasedevice.c:365-374 | a device with three whole chunks in flight, after completions between the two initial writes |
| AudioPacing.TornChunk | ampi/vc4/sound/vchiqsoundbasedevice.c:62-180 | a completion handled while the first packet of a chunk waits puts another chunk between that chunk's announcement and its packet |
| AudioPacing.IdleAtOnce | ampi/vc4/sound/vchiqsoundbasedevice.c:393-406 | two completions in one visit after which the waiter of a cancelled device finds it idle |
| PageLists.GroupPages | ampi/vc4/vchiq/vchiq_2835_arm.c:508-531 | expanding the packed words gives back exactly the pages, no count exceeds 4095, and a run ends only where the pages do or where it is full |
| PageLists.NeighbourAt | ampi/vc4/vchiq/vchiq_2835_arm.c:511-523 | the i-th page of an expanded run lies i times 4096 bytes behind its first |
| PageLists.PackedWord | ampi/vc4/vchiq/vchiq_pagelist.h:45-50 | a page address and a count below the page size share a word without mixing |
| PageLists.BytesPerPage | ampi/vc4/vchiq/vchiq_2835_arm.c:424-471 | the bytes per page add up to the buffer, and all pages but the last are used to their end |

## Left out

- HuffmanTables.QSort: the C library's sort is an insertion sort on a sequence, since only its result matters.
- PacketReader.WellFormed: pages without any lacing value, which the reader would skip in a loop, are not modelled; nor are granule positions, page loss and seeking.
- PacketReader.Reader: the stream is a sequence of bytes in memory; file input is not modelled.
- PacketReader.Reader.GetBits: 32 bits are not asked of a full accumulator, for which the source's mask would need a shift by 32.
- Decoder.SetupCodebook: the lengths are an argument; reading them from the setup header, memory allocation and the vector tables behind a codebook are not modelled. A codebook's helper methods split loops that are one function in the source.
- RoundTrip.Decode: for bits that match no codeword, a book with code space left over and a sorted table may name a symbol; which one is said by `Decoder.SearchSorted` alone. The error number recorded when a scan matches nothing is not modelled.
- FloorCurve.DrawLine: samples are real numbers; rounding of the products is not modelled. The optional divide table is not modelled.
- FloorCurve.FromSymbols: reading the two end amplitudes and the partition classes from the bit stream is not modelled; the ends are values below the range, and every other point has a decoded symbol or 0.
- PageSearch.Search.SearchForPage: the piece passed to a call is assumed to start with the bytes not consumed before, and no more is said about later calls once a scan has lost its place. Sample positions are not modelled, nor is the pull-mode search, which checks a page in one pass.
- SlotMachine.Initial: slots of one side are numbered from zero; the layout of slot zero and the version handshake are not modelled.
- SlotMachine.Machine: positions and counters are unbounded numbers; `SlotTransport.WrappedComparisons` says why 32 bits make no difference. Slot numbers remembered for DATA are kept and compared in 20 bits, as in the source.
- SlotMachine.AdmitGuard: the first wait loop of `queue_message`, on the data quota, does not restrict the model, because the second loop may give up the mutex without looking at it again; so there is no bound on slots with data, only their exact count. Waiting for the quota semaphores is the step not being possible.
- SlotMachine.Send: storing a message, counting it and writing its header is one step, since nothing of it can be seen before the position is published; the same goes for writing and publishing a ring entry under the recycle mutex.
- SlotMachine.Receive: messages other than DATA are passed over; the open and close handshake, pausing, the synchronous slot and the master's side are not modelled. Client callbacks never ask for a retry. A release for a service that is closing is no step here; its headers are released by the closing code, as steps of their own.
- SlotThreads.Transport.QueueMessage: a message over quota is an outcome returned to the caller, who may ask again; the source waits on the quota semaphore and tries again.
- SlotThreads.Transport: between the two halves of a blocking call other threads run; the methods themselves run without interruption, and interleaving is the machine's.
- RemoteEvents.State: memory is sequentially consistent, one access per step.
- BulkQueues.BulkQueue: the slave's side only, with callbacks that never ask for a retry; counters are unbounded, page lists and transfers themselves are not modelled, and a service without an instance would be told nothing.
- AudioPacing.SoundDevice.WriteChunk: completions are handled while a call of the starting thread waits; a chunk written in answer to one is then queued without the starting thread getting in between.
- AudioPacing.SoundDevice: one session with a callback set that returns at most one chunk; the peer completes only bytes written in it. Opening, configuring and closing the audio service are not modelled.
- PageLists.GroupPages: page addresses fit 32 bits, pointers 32 or more, and buffers are not empty; cache maintenance and the fragments of partial cache lines are not modelled.
- Inverse MDCT, windowing, coupling, residue vectors, sample conversion, memory management, logging, timers, mutexes and semaphores themselves, and everything else in the repository.
