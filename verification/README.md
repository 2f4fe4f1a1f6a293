# Models of the serializer's containers, allocator, wire format and schema audit

The project models four parts of the Sparsam Thrift bindings and their compiler, and proves what they promise.

**The sparse hash map** (`ext/third-party/sparsepp/sparsepp/spp.h`), the container behind the serializer's class cache. `SparseGroup.dfy` stores up to 32 positions in a dense buffer indexed by the rank of a bitmap, `SparseTable.dfy` splits an index space over groups, `SparseIterator.dfy` walks the non-empty buckets, and `HashTable.dfy` adds probing, tombstones, growth, deferred shrinking and destructive rehashing. Each layer is proved against a simpler one: 32 slots, a sequence of slots, a finite map. `Bits.dfy` and `PopCount.dfy` justify the bit arithmetic, `Probing.dfy` proves that triangular numbers are a permutation modulo a power of two, and `HashSpec.dfy` holds the invariant of probe paths. `TableFormat.dfy`, `TableStream.dfy` and `HashStream.dfy` write tables to a file and read them back.

**The allocator** (`ext/third-party/sparsepp/sparsepp/spp_dlalloc.h`). Memory is a map from addresses to header words, foot words and link words. `TreeIndex.dfy`, `Trie.dfy`, `Links.dfy`, `TreeLinks.dfy` and `TreeUnlink.dfy` show that the pointer updates of the tree bins implement insertion into and removal from a bitwise trie; `BinMaps.dfy`, `BinSpec.dfy` and `Bins.dfy` cover the bin maps, small lists and trees together; `BestFit.dfy` the best-fit search and `Choice.dfy` which free chunk serves a request; `HeapSpec.dfy` to `HeapGrowth.dfy` the boundary tags, the segments and their changes; `UserData.dfy` what callers keep in their chunks; and `Heap.dfy` the allocator state with malloc, free and realloc. The invariant, `HeapOk`, is what the debugging checks of the source (lines 1700 to 2003) assert, for the whole heap at once.

**The serializer and the schema audit** (`ext/serializer.cpp`, `compiler/src/audit/t_audit.cpp`, `compiler/src/parse/t_struct.h`). The protocol is a stream of tokens: field header, scalar, list or set header, map header, stop. `Wire.dfy` says what writing, skipping and reading mean, `Serializer.dfy` is the serializer itself, `Partial.dfy` says what a failing write leaves behind and `Errors.dfy` which exception is raised; `Interop.dfy` proves what a reader with its own schema gets if its types fit the value, `Pending.dfy` and `Exactness.dfy` that it gets that in no other case, `Truncation.dfy` that a stream cut short is rejected, and `RoundTrip.dfy` exactly when it is what was written and when it can be sent on. `Idl.dfy` and `Audit.dfy` model structs and the audit with its reports, and `AuditSound.dfy` and `Relay.dfy` join the two: exactly which values old and new programs exchange unharmed after an audit without failures.

**Streaming MD5** (`compiler/src/md5.c`), in `Md5.dfy`, following RFC 1321, sections 3.1 to 3.5: appending is independent of chunking, and finishing digests exactly the padded message.

Methods that change state carry contracts on the whole new state, given as a function of the old one; what these functions promise is proved as lemmas. A predicate `Valid` or `Holds` that every method requires and ensures makes a statement about every run.

## Conventions

- Machine words are natural numbers; masks, shifts, wrap-around and unsigned negation are written out. Sizes are 64 bits wide and groups have 32 positions.
- Load factors are the exact rationals 1/2 and 1/5, rounded down. Equality of keys is equality of values.
- A `length_error` or a raised Ruby exception is a result. `SPP_ABORT` branches and the run-time checks of the allocator do not occur: `rtcheck` is true under the invariant.
- The region that mmap returns is a parameter, constrained only not to overlap existing segments. The hash function, the value serializer and MD5's block function are parameters too.
- A Ruby object is its class and the instance variables that are not nil; sets and hashes keep insertion order and compare by value, except for objects of struct classes, which compare by identity because no `hash` method is defined for them.

## Where the code differs from its documentation, or does less than one might expect

- The comment above the allocation table of a group (spp.h, lines 1091 to 1093) lists capacities 4, 8, 12, 16, 18 and so on; the loop computes 4, 8 and then every even number. The model has the latter.
- `_squash_deleted` (spp.h, lines 2621 to 2632) names its mode `MoveDontGrow`, but the temporary table starts with 32 buckets, so a smaller table grows to 32.
- `_resize_delta` (spp.h, lines 2732 to 2749) may double the size it found when that is below the needed one. It never is, so the branch is dead.
- `_malloc` first looks at two small bins (spp_dlalloc.h, lines 2989 to 3002), of which only the first can ever hold chunks, as sizes are multiples of 16 (`Choices.ExactBin`).
- The comment above `serialize` (spp.h, line 3412) says that the table is compacted before writing. It is not, and the file does not hold tombstones, so a binding behind one is not found after reading back. `HashStreams.UnserializeTable` and `HashStreams.SurvivesIff` give the exact condition, `HashStreams.ShadowExample` an input.
- The serializer does not round-trip a value in which a field with a default is nil: it comes back as the default. `RoundTrips.RoundTrip` gives the exact condition.
- After a union with an unknown field the stop marker stays in the stream (`RoundTrips.UnknownUnionField`), so a union must hold a field that the reader knows, and no more than one: `RoundTrips.CompatibleFits`, and `AuditSoundness.OldReadsNew` for a new writer and an old reader.
- The audit compares types by name and does not look behind typedefs. A typedef may change its wire type, which raises a mismatch (`AuditSoundness.TypedefHole`), or the elements of a list, which loses the field silently (`AuditSoundness.ListHole`), while maps of base types survive any change (`AuditSoundness.MapUnharmed`). `AuditSoundness.AcceptedIff` says exactly which values an accepted change leaves readable; where names keep their meaning these are all whose unions hold at most one field (`AuditSoundness.NewReadsOld`).
- The audit treats a field without `required` or `optional` as optional while the generated classes treat it as mandatory (`AuditSoundness.RequirednessHole`), so an accepted change may keep a new program from sending on what it received. `RoundTrips.RelaysIff` and `RelaySoundness.RelayedUnharmed` say exactly when it can.
- `md5_append` shifts a signed `nbytes` left by three, which overflows from 2^28 on; the model takes the wrapped value, with which the count is right for every length an `int` can hold.

## Model

| member | source | states |
|---|---|---|
| `PopCounts.PopCountIsOnes` | ext/third-party/sparsepp/sparsepp/spp_utils.h:320-325 | the folding count of every 32-bit word, with its final multiplication, is the number of set bits |
| `PopCounts.WidePopCountIsOnes` | ext/third-party/sparsepp/sparsepp/spp_utils.h:327-338 | the same of every 64-bit word |
| `PopCounts.NoCarry` | ext/third-party/sparsepp/sparsepp/spp_utils.h:320-325 | with nibbles of at most 4, the unmasked addition of the byte stage cannot leave the word |
| `PopCounts.TrailingZeroes` | ext/third-party/sparsepp/sparsepp/spp_utils.h:354-357 | `(v & -v) - 1`, counted in 64 bits, is the position of the lowest set bit |
| `PopCounts.DropLowest` | ext/third-party/sparsepp/sparsepp/spp.h:1187-1202 | `bm & (bm - 1)` clears the lowest set bit, so that the rank of every later position drops by exactly one |
| `PopCounts.LowestPosition` | ext/third-party/sparsepp/sparsepp/spp.h:1196-1202 | `(bm & -bm) - 1`, counted in 32 bits, is the position of the lowest set bit |
| `PopCounts.PosToOffsetIsRank` | ext/third-party/sparsepp/sparsepp/spp.h:1161-1169 | masking below a position and counting gives the number of set bits below it |
| `PopCounts.OffsetToPos` | ext/third-party/sparsepp/sparsepp/spp.h:1187-1202 | the returned position is set and has exactly offset set bits below it: the inverse of the rank on set bits |
| `Bits.RankInjective` | ext/third-party/sparsepp/sparsepp/spp.h:1161-1202 | no two set bits have the same rank, so offsets and full positions correspond one to one |
| `Probing.MaskIsModulo` | ext/third-party/sparsepp/sparsepp/spp.h:3061-3064 | masking with a power of two less one is reduction modulo that power |
| `Probing.ProbeStep` | ext/third-party/sparsepp/sparsepp/spp.h:3061-3064 | adding the probe number to the bucket leads from each triangular probe to the next |
| `Probing.ProbesDistinct` | ext/third-party/sparsepp/sparsepp/spp.h:2492 | two of the first n probes never meet when n is a power of two |
| `Probing.ProbesCover` | ext/third-party/sparsepp/sparsepp/spp.h:2492 | every one of the n buckets is met by one of the first n probes |
| `Probing.ProbesOnce` | ext/third-party/sparsepp/sparsepp/spp.h:2492 | each bucket is met by exactly one of the first n probes |
| `SparseGroups.AllocationTable` | ext/third-party/sparsepp/sparsepp/spp.h:1086-1110 | the table built by the nested loops holds 4, 8 and then the next even number, for every count |
| `SparseGroups.SizingTwice` | ext/third-party/sparsepp/sparsepp/spp.h:1406 | rounding a capacity again does not change it |
| `SparseGroups.SizingSteps` | ext/third-party/sparsepp/sparsepp/spp.h:1364-1395 | the buffer is full exactly when the next value needs a larger one |
| `SparseGroups.RankCounts` | ext/third-party/sparsepp/sparsepp/spp.h:1161-1182 | the rank of a position is the number of values stored below it |
| `SparseGroups.SlotsInsert` | ext/third-party/sparsepp/sparsepp/spp.h:1422-1434 | setting the bit and inserting at the rank changes the one position and no other, although the values shift |
| `SparseGroups.SlotsReplace` | ext/third-party/sparsepp/sparsepp/spp.h:1422-1434 | overwriting at the rank changes the one position and no other |
| `SparseGroups.SlotsErase` | ext/third-party/sparsepp/sparsepp/spp.h:1572-1587 | clearing the bit and removing at the rank leaves a tombstone at the one position and changes no other |
| `SparseGroups.InsertItem` | ext/third-party/sparsepp/sparsepp/spp.h:1363-1420 | the values become the old ones with the new one at offset, in a buffer of exactly the capacity for the new count |
| `SparseGroups.RemoveItem` | ext/third-party/sparsepp/sparsepp/spp.h:1465-1532 | the values become the old ones without the one at offset, in a buffer of exactly the capacity for the new count |
| `SparseGroups.SparseGroup.Set` | ext/third-party/sparsepp/sparsepp/spp.h:1438-1448 | position i holds the value, every other position is as before, bitmaps stay disjoint, the capacity follows from the count |
| `SparseGroups.SparseGroup.Erase` | ext/third-party/sparsepp/sparsepp/spp.h:1572-1587 | a full position becomes a tombstone, every other position is as before; any other position is left alone |
| `SparseGroups.SparseGroup.Clear` | ext/third-party/sparsepp/sparsepp/spp.h:1260-1269 | all values are gone, the tombstones too when asked for; count and capacity are zero |
| `SparseGroups.SparseGroup.Test` | ext/third-party/sparsepp/sparsepp/spp.h:1450-1453 | true exactly on the full positions |
| `SparseGroups.SparseGroup.TestStrict` | ext/third-party/sparsepp/sparsepp/spp.h:1457-1460 | true exactly on the full and the erased positions |
| `SparseGroups.SparseGroup.CountBelow` | ext/third-party/sparsepp/sparsepp/spp.h:1171-1178 | the offset of a position is the number of full positions below it |
| `SparseGroups.SparseGroup.OffsetPosition` | ext/third-party/sparsepp/sparsepp/spp.h:1204-1207 | the position of an offset is full and has that many full positions below it |
| `SparseGroups.SparseGroup.TakeBitmap` | ext/third-party/sparsepp/sparsepp/spp.h:1606-1619 | after a bitmap was read exactly its positions are full, none is erased, and the buffer has the capacity for them |
| `SparseTables.NumGroups` | ext/third-party/sparsepp/sparsepp/spp.h:1880-1885 | the least number of groups that holds so many buckets |
| `SparseTables.FlatUpdate` | ext/third-party/sparsepp/sparsepp/spp.h:1887-1905 | changing position i modulo 32 of group i / 32 changes bucket i and no other |
| `SparseTables.SparseTable.Resize` | ext/third-party/sparsepp/sparsepp/spp.h:2071-2114 | growth appends empty buckets and keeps the others, and the count still agrees |
| `SparseTables.SparseTable.Set` | ext/third-party/sparsepp/sparsepp/spp.h:2230-2239 | bucket i holds the value, the other buckets are as before, the count is again the number of full buckets |
| `SparseTables.SparseTable.Move` | ext/third-party/sparsepp/sparsepp/spp.h:2241-2248 | the same for a bucket that held no value, counted without looking |
| `SparseTables.SparseTable.Erase` | ext/third-party/sparsepp/sparsepp/spp.h:2250-2258 | bucket i becomes a tombstone, the other buckets are as before, the count is again right |
| `SparseTables.SparseTable.Clear` | ext/third-party/sparsepp/sparsepp/spp.h:2047-2052 | no buckets are left |
| `SparseIterators.NeIterator.Begin` | ext/third-party/sparsepp/sparsepp/spp.h:781-836 | the iterator starts at the first full bucket, or at the end when there is none |
| `SparseIterators.NeIterator.Next` | ext/third-party/sparsepp/sparsepp/spp.h:823-868 | the iterator goes to the next full bucket and passes none |
| `SparseIterators.NeIterator.At` | ext/third-party/sparsepp/sparsepp/spp.h:2202-2211 | the iterator made for a full bucket is at that bucket |
| `SparseIterators.NeIterator.GetPos` | ext/third-party/sparsepp/sparsepp/spp.h:2219-2225 | the bucket number recovered from group and offset is the one the iterator is at |
| `SparseIterators.DestructiveIterator.Next` | ext/third-party/sparsepp/sparsepp/spp.h:895-945 | the next full bucket of the original table is reached, none is passed, and only groups already passed have been freed |
| `HashSpec.HoldsUnique` | ext/third-party/sparsepp/sparsepp/spp.h:3029-3070 | the buckets determine the bindings |
| `HashSpec.WalkFails` | ext/third-party/sparsepp/sparsepp/spp.h:3041-3046 | a never-used bucket on a key's probe path proves the key absent |
| `HashSpec.WalkGoesOn` | ext/third-party/sparsepp/sparsepp/spp.h:3061-3064 | while one never-used bucket exists, the probe loop makes fewer probes than there are buckets |
| `HashSpec.FirstIsTombstone` | ext/third-party/sparsepp/sparsepp/spp.h:3054-3059 | the first bucket without a value on a path is one, and is a tombstone whenever the probes of the key meet one |
| `HashSpec.StoreKeeps` | ext/third-party/sparsepp/sparsepp/spp.h:3173-3186 | storing at the first tombstone of the path, or at its end, keeps keys unique and every path unbroken, and adds exactly that binding |
| `HashSpec.EraseKeeps` | ext/third-party/sparsepp/sparsepp/spp.h:3318-3347 | a tombstone keeps every path unbroken, and removes exactly that binding |
| `HashTables.MinBuckets` | ext/third-party/sparsepp/sparsepp/spp.h:443-458 | the least power of two of at least 4 and the wanted size under which the load limit allows the elements; an error exactly when none below 2^64 is |
| `HashTables.LeastIsWanted` | ext/third-party/sparsepp/sparsepp/spp.h:443-458 | a wanted size that is admissible itself is the least one, so that sizing a table again changes nothing |
| `HashTables.LoadFactors` | ext/third-party/sparsepp/sparsepp/spp.h:3546-3558 | the thresholds are half and a fifth of the size, rounded down |
| `HashTables.SparseHashtable.LoadLeavesEmpty` | ext/third-party/sparsepp/sparsepp/spp.h:443-458 | under the load limit, tombstones included, some bucket has never been used |
| `HashTables.SparseHashtable.HalfInUse` | ext/third-party/sparsepp/sparsepp/spp.h:443-458 | at every time at most half of the buckets are in use, tombstones included |
| `HashTables.SparseHashtable.Create` | ext/third-party/sparsepp/sparsepp/spp.h:2892-2907 | a new table is empty and of the least admissible size; an error exactly when no size suffices |
| `HashTables.SparseHashtable.FindPosition` | ext/third-party/sparsepp/sparsepp/spp.h:3029-3066 | the bucket of the key if it is bound, else the one probe before which every bucket is full: a tombstone, or the never-used bucket at the end of the path if it has no tombstone |
| `HashTables.SparseHashtable.Find` | ext/third-party/sparsepp/sparsepp/spp.h:3072-3096 | exactly the bound value, or none when the key is not bound |
| `HashTables.SparseHashtable.Count` | ext/third-party/sparsepp/sparsepp/spp.h:3137-3141 | 1 when the key is bound, else 0 |
| `HashTables.SparseHashtable.InsertNoResize` | ext/third-party/sparsepp/sparsepp/spp.h:3190-3201 | an existing binding stays; an absent key is stored at the first tombstone of its path, whose count drops by one, or at its end; an error exactly for an absent key at the maximal size; no other bucket changes |
| `HashTables.SparseHashtable.Insert` | ext/third-party/sparsepp/sparsepp/spp.h:3240-3244 | the same after making room, in exactly the size that the load asks for; on an error the bindings are as before, and the table was at its maximal size or could not grow any more |
| `HashTables.SparseHashtable.InsertRange` | ext/third-party/sparsepp/sparsepp/spp.h:3205-3217 | all of the range in order, earlier bindings winning, in exactly the size that the load of all of it asks for; on an error exactly the stored part was added, and either no room could be made for the range or the next key did not fit the maximal size |
| `HashTables.SparseHashtable.FindOrInsert` | ext/third-party/sparsepp/sparsepp/spp.h:3269-3316 | the bucket holds the key with its old value, or the default if it was absent, stored at the first tombstone of the path or at its end; an error only for an absent key, at the maximal size or when the table cannot grow |
| `HashTables.SparseHashtable.Assign` | ext/third-party/sparsepp/sparsepp/spp.h:3802-3805 | assigning through the reference binds the key to the value and changes nothing else |
| `HashTables.SparseHashtable.Erase` | ext/third-party/sparsepp/sparsepp/spp.h:3318-3347 | the key is not bound any more, its bucket is a tombstone and nothing else changes; 1 exactly when it was bound, and then the next insertion considers shrinking |
| `HashTables.ShrunkSize` | ext/third-party/sparsepp/sparsepp/spp.h:2679-2685 | the halving loop ends at a size with room for the elements and one more that is the first one not to be halved |
| `HashTables.ShrunkUnique` | ext/third-party/sparsepp/sparsepp/spp.h:2679-2685 | there is just one such size, so a halving that stops earlier or later has another result |
| `HashTables.SparseHashtable.MaybeShrink` | ext/third-party/sparsepp/sparsepp/spp.h:2662-2692 | shrinks exactly when under a fifth full and over 32 buckets, to exactly the halved size that holds the elements and one more, keeping the bindings |
| `HashTables.SparseHashtable.ResizeDelta` | ext/third-party/sparsepp/sparsepp/spp.h:2698-2754 | makes room within the load limit, keeping the bindings, in exactly the size that shrinking first and growing then asks for, and leaves the table as it is if it needs neither; fails because there is no room and none can be made |
| `HashTables.SparseHashtable.Resize` | ext/third-party/sparsepp/sparsepp/spp.h:2848-2855 | keeps the bindings and leaves room for the requested number within the load limit, in exactly the size asked for, or fails because no size up to 2^63 has it |
| `HashTables.SparseHashtable.MoveFrom` | ext/third-party/sparsepp/sparsepp/spp.h:2798-2839 | this table is emptied, sized as `min_buckets` says or as the other table, and takes over its bindings without tombstones; an error exactly when no size suffices, the other table being as before |
| `HashTables.SparseHashtable.MoveAll` | ext/third-party/sparsepp/sparsepp/spp.h:2820-2838 | the loop: every binding is moved before its group is freed, and the bindings are those the other table had |
| `HashTables.SparseHashtable.MoveAt` | ext/third-party/sparsepp/sparsepp/spp.h:2836 | storing into a never-used bucket of the path of a key adds exactly its binding |
| `HashTables.SparseHashtable.Rehash` | ext/third-party/sparsepp/sparsepp/spp.h:2751-2753 | the same bindings without tombstones, in the least admissible number of buckets, or in no fewer than before |
| `HashTables.SparseHashtable.SquashDeleted` | ext/third-party/sparsepp/sparsepp/spp.h:2621-2632 | the tombstones are gone and the bindings stay; so do the buckets, except that a table of fewer than 32 gets 32 |
| `HashTables.SparseHashtable.CopyFrom` | ext/third-party/sparsepp/sparsepp/spp.h:2758-2792 | this table is emptied, sized as `min_buckets` says and gets the same bindings, the other table unchanged; an error exactly when no size suffices |
| `HashTables.SparseHashtable.GrowEmpty` | ext/third-party/sparsepp/sparsepp/spp.h:2766-2771 | an empty table gets the larger number of buckets, all of them never used |
| `HashTables.SparseHashtable.Copy` | ext/third-party/sparsepp/sparsepp/spp.h:2914-2923 | a copy with the same bindings in the least admissible number of buckets, or an error exactly when no size suffices |
| `HashTables.SparseHashtable.Swap` | ext/third-party/sparsepp/sparsepp/spp.h:2982-2993 | tables, bindings and tombstone counts are exchanged, and the thresholds of both follow their new tables |
| `HashTables.SparseHashtable.Clear` | ext/third-party/sparsepp/sparsepp/spp.h:2996-3005 | no bindings, no tombstones |
| `HashTables.SparseHashtable.Equals` | ext/third-party/sparsepp/sparsepp/spp.h:3383-3400 | true exactly when both tables have the same bindings |
| `Bytes.BigAt` | ext/third-party/sparsepp/sparsepp/spp.h:281-294 | each byte written is the one cut out by the shift of the source |
| `Bytes.BigRoundTrip` | ext/third-party/sparsepp/sparsepp/spp.h:265-294 | a number that fits in so many bytes is the value of its big-endian bytes |
| `TableStreams.ByteFile.WriteBigEndianNumber` | ext/third-party/sparsepp/sparsepp/spp.h:281-294 | writes exactly the big-endian bytes, failing exactly when there is no room |
| `TableStreams.ByteFile.ReadBigEndianNumber` | ext/third-party/sparsepp/sparsepp/spp.h:265-278 | reads exactly the value of the next bytes by or-ing shifted bytes, failing exactly when too few are left |
| `TableStreams.ByteFile.Write32Or64` | ext/third-party/sparsepp/sparsepp/spp.h:2307-2322 | 4 bytes below the marker, else the marker and 8 bytes |
| `TableStreams.ByteFile.Read32Or64` | ext/third-party/sparsepp/sparsepp/spp.h:2325-2342 | reads either form, failing exactly when it is cut short |
| `TableFormat.NumberRoundTrip` | ext/third-party/sparsepp/sparsepp/spp.h:2307-2342 | every 64-bit number is read back, with what follows it left in place |
| `TableFormat.FileHeader` | ext/third-party/sparsepp/sparsepp/spp.h:2349-2359 | the file starts with the bytes 24 68 75 31, the bucket count and the number of values |
| `TableFormat.BitmapAt` | ext/third-party/sparsepp/sparsepp/spp.h:1594-1603 | bit i of the bitmaps, from the low end of their first byte on, tells whether bucket i holds a value |
| `TableFormat.BitsOfRow` | ext/third-party/sparsepp/sparsepp/spp.h:1594-1603 | a word is determined by its bits, so a group's bitmap is exactly the pattern of its full positions |
| `TableStreams.WriteMetadata` | ext/third-party/sparsepp/sparsepp/spp.h:2349-2359 | writes magic number, bucket count, number of values and all bitmaps, failing exactly when there is no room |
| `TableStreams.ReadMetadata` | ext/third-party/sparsepp/sparsepp/spp.h:2363-2381 | the table takes the written shape; fails exactly when cut short, and leaves an empty table for another magic number |
| `TableStreams.Serialize` | ext/third-party/sparsepp/sparsepp/spp.h:2414-2422 | writes exactly the image of the buckets, failing exactly when there is no room |
| `TableStreams.Unserialize` | ext/third-party/sparsepp/sparsepp/spp.h:2426-2435 | from the image of a table without tombstones every bucket gets its value back, and exactly the image is consumed; fails exactly when it is cut short or starts with another magic number |
| `HashStreams.SerializeTable` | ext/third-party/sparsepp/sparsepp/spp.h:3459-3462 | writes the image of the underlying table |
| `HashStreams.ClearedImage` | ext/third-party/sparsepp/sparsepp/spp.h:3459-3462 | the file does not tell tombstones from buckets that were never used |
| `HashStreams.TableStored` | ext/third-party/sparsepp/sparsepp/spp.h:3459-3462 | every valid table may be written and read back; without tombstones nothing is shadowed |
| `HashStreams.SurvivesIff` | ext/third-party/sparsepp/sparsepp/spp.h:3072-3096 | after a round trip a bucket is still on the path of its probes exactly when no tombstone stood before it |
| `HashStreams.ShadowExample` | ext/third-party/sparsepp/sparsepp/spp.h:3459-3472 | a table of four buckets with one tombstone whose one binding is not found any more after the round trip |
| `HashStreams.UnserializeTable` | ext/third-party/sparsepp/sparsepp/spp.h:3466-3472 | with the same hash function, the same bindings at the same buckets; the table is sound again exactly when no tombstone stood before a binding on its path |
| `TreeIndexes.IndexBrackets` | ext/third-party/sparsepp/sparsepp/spp_dlalloc.h:1333-1363 | every large size lies between the minimum size of its tree bin and that of the next bin |
| `TreeIndexes.IndexMonotone` | ext/third-party/sparsepp/sparsepp/spp_dlalloc.h:1333-1363 | a size of a later bin is larger than every size of an earlier one |
| `TreeIndexes.KeyBit` | ext/third-party/sparsepp/sparsepp/spp_dlalloc.h:1352-1356 | the top bit of the shifted key tells which half of the current interval the size is in, at every depth of every bin |
| `Tries.InsertCorrect` | ext/third-party/sparsepp/sparsepp/spp_dlalloc.h:2096-2154 | insertion keeps the trie invariant and adds exactly that chunk |
| `Tries.SingletonInterval` | ext/third-party/sparsepp/sparsepp/spp_dlalloc.h:2114-2150 | when the distinguishing bits are used up the sizes are equal, so the descent ends |
| `Tries.DetachCorrect` | ext/third-party/sparsepp/sparsepp/spp_dlalloc.h:2189-2200 | the deepest right-first leaf is taken out, and exactly it |
| `Tries.RemoveCorrect` | ext/third-party/sparsepp/sparsepp/spp_dlalloc.h:2173-2253 | removal, by unlinking from a ring or by replacement with the leaf, keeps the trie and takes out exactly that chunk |
| `Tries.LeftmostBeats` | ext/third-party/sparsepp/sparsepp/spp_dlalloc.h:2891-2901 | the least size of a subtree lies on the path that prefers left children |
| `ChunkLinks.RingPut` | ext/third-party/sparsepp/sparsepp/spp_dlalloc.h:2137-2143 | the four assignments put a chunk into a doubly linked ring and change no other ring |
| `ChunkLinks.UnlinkFirst` | ext/third-party/sparsepp/sparsepp/spp_dlalloc.h:2177-2184 | the two assignments take a chunk out of a ring of several |
| `TreeLinks.InsertRep` | ext/third-party/sparsepp/sparsepp/spp_dlalloc.h:2096-2154 | after the insertion's pointer updates the link words represent the tree with the chunk added |
| `TreeLinks.AdoptRep` | ext/third-party/sparsepp/sparsepp/spp_dlalloc.h:2204-2252 | the replacement, linked to parent and children, represents the tree with it in place of the removed chunk |
| `TreeUnlink.FinishRep` | ext/third-party/sparsepp/sparsepp/spp_dlalloc.h:2173-2253 | after the removal's pointer updates the link words represent the tree without the chunk, and no foreign chunk's links changed |
| `BinMaps.FirstMarked` | ext/third-party/sparsepp/sparsepp/spp_dlalloc.h:1367 | `x & -x` isolates the first nonempty bin |
| `BinMaps.NextMarked` | ext/third-party/sparsepp/sparsepp/spp_dlalloc.h:2882-2888 | masking with the bits to the left finds the least nonempty bin above, or none |
| `BinMaps.NextSmall` | ext/third-party/sparsepp/sparsepp/spp_dlalloc.h:3011-3013 | shifting the bin map back and masking finds the next nonempty small bin |
| `ChunkBins.Bins.Init` | ext/third-party/sparsepp/sparsepp/spp_dlalloc.h:2386-2395 | every list header is its own ring and every tree is empty |
| `ChunkBins.Bins.InsertSmallChunk` | ext/third-party/sparsepp/sparsepp/spp_dlalloc.h:2016-2032 | exactly the chunk is added to the bins |
| `ChunkBins.Bins.UnlinkSmallChunk` | ext/third-party/sparsepp/sparsepp/spp_dlalloc.h:2035-2058 | exactly the chunk is taken from the bins; the bin map says which lists are empty |
| `ChunkBins.Bins.UnlinkFirstSmallChunk` | ext/third-party/sparsepp/sparsepp/spp_dlalloc.h:2061-2076 | the same for the first chunk of a list |
| `ChunkBins.Bins.InsertLargeChunk` | ext/third-party/sparsepp/sparsepp/spp_dlalloc.h:2096-2154 | exactly the chunk is added to the tree of its size, by a descent that terminates |
| `ChunkBins.Bins.UnlinkLargeChunk` | ext/third-party/sparsepp/sparsepp/spp_dlalloc.h:2173-2253 | exactly the chunk is taken from its tree; the bin map says which trees are empty |
| `ChunkBins.Bins.InsertChunk` | ext/third-party/sparsepp/sparsepp/spp_dlalloc.h:2257-2266 | exactly the chunk is added to the bin of its size |
| `ChunkBins.Bins.UnlinkChunk` | ext/third-party/sparsepp/sparsepp/spp_dlalloc.h:2268-2277 | exactly the chunk is taken from the bin of its size |
| `BestFit.Compare` | ext/third-party/sparsepp/sparsepp/spp_dlalloc.h:2860-2866 | comparing the wrapped remainders never selects a chunk that is too small, and prefers the smaller of two |
| `BestFit.SearchPath` | ext/third-party/sparsepp/sparsepp/spp_dlalloc.h:2852-2878 | the descent by the bits of the request misses no better chunk but those of the noted right subtree |
| `BestFit.SearchLeft` | ext/third-party/sparsepp/sparsepp/spp_dlalloc.h:2891-2901 | the leftmost walk finds the least size of the subtree |
| `BestFit.FindLarge` | ext/third-party/sparsepp/sparsepp/spp_dlalloc.h:2846-2901 | the smallest tree chunk of at least the request over all bins, or none exactly when there is none |
| `BestFit.FindSmallest` | ext/third-party/sparsepp/sparsepp/spp_dlalloc.h:2931-2948 | the smallest tree chunk of all |
| `Choices.ExactBin` | ext/third-party/sparsepp/sparsepp/spp_dlalloc.h:2989-3002 | of the two small bins looked at first only that of the request itself can hold chunks, and it does exactly when a chunk has that size |
| `Choices.LaterFit` | ext/third-party/sparsepp/sparsepp/spp_dlalloc.h:3006-3013 | a chunk of the least nonempty small bin above is a best fit over all bins |
| `Choices.LargeChoice` | ext/third-party/sparsepp/sparsepp/spp_dlalloc.h:2846-2928 | what the tree search finds is what may be taken before the designated victim, and finding nothing means that nothing may |
| `Choices.NotFromBins` | ext/third-party/sparsepp/sparsepp/spp_dlalloc.h:3053-3089 | without such a chunk the victim serves if it suffices, then top, and if neither does no binned chunk suffices either |
| `HeapSpec.PlacedTagged` | ext/third-party/sparsepp/sparsepp/spp_dlalloc.h:1738-1774 | replacing the chunks of an interval and writing the new tags keeps all boundary tags consistent with the neighbours |
| `HeapState.Tiles` | ext/third-party/sparsepp/sparsepp/spp_dlalloc.h:1934-1969 | chunks tile every segment exactly: each address is in one and only one chunk |
| `Malloc.AllocationsApart` | ext/third-party/sparsepp/sparsepp/spp_dlalloc.h:1776-1789 | chunks in use are disjoint, aligned and of at least the smallest size |
| `Malloc.TagsAgree` | ext/third-party/sparsepp/sparsepp/spp_dlalloc.h:1738-1774 | size, in-use bits and foot of every chunk agree with it and its neighbour, and of two neighbours one is in use |
| `Malloc.FreeChunksOwned` | ext/third-party/sparsepp/sparsepp/spp_dlalloc.h:1934-2003 | a free chunk is in exactly one of its bin and the designated victim; top is the one chunk of its kind and ends its segment |
| `Malloc.BytesApart` | ext/third-party/sparsepp/sparsepp/spp_dlalloc.h:708-756 | what callers may write shares no place with the head of any chunk, nor with the links or the foot of one that is not in use |
| `Malloc.RequestSizes` | ext/third-party/sparsepp/sparsepp/spp_dlalloc.h:766-775 | the size of a request is the least multiple of 16 that holds it and its overhead, and at least 32 |
| `Malloc.MallocState.Init` | ext/third-party/sparsepp/sparsepp/spp_dlalloc.h:3578-3592 | a fresh region becomes a heap that satisfies the invariant, its header, top and foot as they should be, with nothing allocated and nothing binned |
| `Malloc.MallocState.ReplaceDv` | ext/third-party/sparsepp/sparsepp/spp_dlalloc.h:2080-2091 | the old designated victim is binned and the new one takes its place; nothing in use changes |
| `Malloc.MallocState.TakeSmall` | ext/third-party/sparsepp/sparsepp/spp_dlalloc.h:2989-3002 | a chunk of at least the request leaves its small bin and is in use |
| `Malloc.MallocState.TakeLaterSmall` | ext/third-party/sparsepp/sparsepp/spp_dlalloc.h:3006-3032 | the same from the next nonempty small bin, what remains becoming the designated victim unless the whole chunk is used |
| `Malloc.MallocState.TmallocSmall` | ext/third-party/sparsepp/sparsepp/spp_dlalloc.h:2931-2971 | the smallest tree chunk serves the request, what remains becoming the designated victim if it is a chunk |
| `Malloc.MallocState.TmallocLarge` | ext/third-party/sparsepp/sparsepp/spp_dlalloc.h:2846-2928 | the best fit over all tree chunks serves the request, unless the designated victim fits as well or none fits; then nothing changes |
| `Malloc.MallocState.TakeVictim` | ext/third-party/sparsepp/sparsepp/spp_dlalloc.h:3053-3075 | the designated victim serves the request, split or exhausted |
| `Malloc.MallocState.TakeFromTop` | ext/third-party/sparsepp/sparsepp/spp_dlalloc.h:3077-3089 | the first bytes of top serve the request |
| `Malloc.MallocState.DisposeChunk` | ext/third-party/sparsepp/sparsepp/spp_dlalloc.h:2763-2841 | the chunk leaves use, merged with its free neighbours, top or the designated victim, which afterwards is exactly the one this makes; the other chunks in use are as before |
| `Malloc.MallocState.Release` | ext/third-party/sparsepp/sparsepp/spp_dlalloc.h:3102-3206 | the same for a chunk that a caller gives back |
| `Malloc.MallocState.TryReallocChunk` | ext/third-party/sparsepp/sparsepp/spp_dlalloc.h:3211-3305 | the chunk is resized in place, to less than 32 bytes above the request, exactly when it, top, the victim or the next free chunk has room, and the victim is what remains; else nothing changes |
| `Malloc.MallocState.Append` | ext/third-party/sparsepp/sparsepp/spp_dlalloc.h:2599-2607 | a region right after top's segment makes top larger; nothing in use changes |
| `Malloc.MallocState.PrependAlloc` | ext/third-party/sparsepp/sparsepp/spp_dlalloc.h:2418-2461 | a region right before a segment serves the request, and its rest joins the segment's first chunk |
| `Malloc.MallocState.InsertFenceposts` | ext/third-party/sparsepp/sparsepp/spp_dlalloc.h:2494-2503 | every word from the first on, up to the last that fits before the old end, becomes a fencepost; no header outside changes |
| `Malloc.MallocState.AddSegment` | ext/third-party/sparsepp/sparsepp/spp_dlalloc.h:2464-2517 | a separate region becomes the segment of top, the old top is left with a record, fenceposts and a binned rest; nothing callers hold changes |
| `Malloc.MallocState.SysAlloc` | ext/third-party/sparsepp/sparsepp/spp_dlalloc.h:2522-2645 | serves the request from the region the system supplies, joined to top, put before a segment or made a segment of its own as the addresses demand, with the footprint that follows; changes nothing exactly when size, limit or system refuse |
| `Malloc.MallocState.Malloc` | ext/third-party/sparsepp/sparsepp/spp_dlalloc.h:2975-3098 | an aligned chunk of at least the request and not 32 bytes larger, disjoint from all others, which stay as they are, taken from a best fit in the bins, the designated victim, top or new memory in exactly the order of the source; 0 if and only if no binned chunk suffices, nor victim, nor top, and the system refuses, and then nothing changes |
| `Malloc.MallocState.FreeMemory` | ext/third-party/sparsepp/sparsepp/spp_dlalloc.h:3714-3732 | exactly the caller's chunk is gone; the designated victim is what merging makes of it |
| `Malloc.MallocState.Realloc` | ext/third-party/sparsepp/sparsepp/spp_dlalloc.h:3757-3803 | the chunk grows or shrinks in place exactly when there is room, or moves to the chunk malloc chooses, and ends less than 32 bytes above the request either way; it keeps its bytes up to the smaller size, and the other chunks stay with all of theirs; 0 if and only if it has no room and malloc has none; a null pointer allocates |
| `UserData.Contents.Copy` | ext/third-party/sparsepp/sparsepp/spp_dlalloc.h:3794-3796 | as the two chunks are disjoint, the bytes arrive and no other byte changes |
| `RoundTrips.WritesIff` | ext/serializer.cpp:498-632 | writing succeeds exactly on values of the declared types, in range, with every mandatory field set, at every depth |
| `Errors.ErrorHasCause` | ext/serializer.cpp:436-632 | an exception raised in writing is that of a fault the value has: a wrong type, an integer out of range, a mandatory field not set, or an unknown class |
| `Errors.FaultlessIff` | ext/serializer.cpp:436-632 | writing succeeds exactly if none of the four faults is anywhere in the value |
| `Errors.OnlyCause` | ext/serializer.cpp:436-632 | a value with faults of one kind only raises exactly that exception |
| `Errors.RangeFault` | ext/serializer.cpp:436-493 | a value of the declared types with its mandatory fields set and its classes known fails to be written exactly if some integer is out of range, and then with RangeError |
| `Errors.OutermostFirst` | ext/serializer.cpp:592-632 | the outermost object decides first: its type, its class and its mandatory fields, before any field is written |
| `Errors.FirstElement` | ext/serializer.cpp:519-550 | of several elements that cannot be written the first decides |
| `Errors.FirstPair` | ext/serializer.cpp:552-580 | of several pairs the first, and its key before its value |
| `Errors.FirstField` | ext/serializer.cpp:619-631 | of several fields the one with the least id, those that are nil being passed over |
| `Errors.RangeIsSigned` | ext/serializer.cpp:436-493 | the ranges are those of two's complement numbers of 8, 16, 32 and 64 bits |
| `Partials.FailedRejected` | ext/serializer.cpp:498-632 | the tokens that a failing write leaves behind are not a value of the type: the protocol rejects them |
| `Interop.SkipsAny` | ext/serializer.cpp:191-202 | skipping by the announced type passes over exactly what was written |
| `Interop.NewHoldsDefaults` | lib/sparsam/base_type.rb:34-52 | a new instance of a struct holds exactly the declared defaults, one of a union nothing |
| `Interop.ReadsAny` | ext/serializer.cpp:215-408 | reading, with the reader's own types, what a writer wrote gives the writer's value as far as the reader knows the fields, and consumes exactly those tokens, if the types fit the value |
| `Exactness.ReadsIff` | ext/serializer.cpp:215-408 | and only if: no other written value comes back as it should with its tokens consumed, whatever two schemas and types are paired |
| `Exactness.ReadsObject` | ext/serializer.cpp:327-331 | a struct is read as an object of the class the reader expects, whatever class wrote it |
| `Pending.ReadKeeps` | ext/serializer.cpp:215-408 | a reader that has stopped short of a stop marker stays behind the stream by at least that much, whatever it reads next |
| `Truncation.ReadAnyOn` | ext/serializer.cpp:215-408 | what is read, or which error is raised, depends on no token after the value: with more tokens following, reading gives the same and leaves these |
| `Truncation.CutShort` | ext/serializer.cpp:215-408 | every proper prefix of a written value that fits the reader is rejected by the protocol, never taken for a shorter value |
| `Truncation.SkipCutShort` | ext/serializer.cpp:191-202 | nor is a proper prefix of any written value skipped |
| `Interop.ReadsFields` | ext/serializer.cpp:327-369 | the struct loop skips unknown fields and takes known ones, over any rest of the fields; a list it cannot read leaves the default |
| `Interop.ReadsUnion` | ext/serializer.cpp:371-408 | a union whose field is known is read back, its stop marker included |
| `Interop.ByValueSame` | ext/serializer.cpp:275-310 | what Ruby compares by value is read back as it was, so keys that were apart stay apart |
| `Errors.DistinctKeepsFirst` | ext/serializer.cpp:259-278 | a set read keeps the first of equal elements, in order, and no other duplicates |
| `Errors.PutReplaces` | ext/serializer.cpp:305-311 | a key that comes again keeps its place in a hash, with the later value |
| `RoundTrips.RoundTrip` | ext/serializer.cpp:215-632 | a writable value, its keys distinct and its unions holding at most one field, comes back equal, with nothing else consumed, if and only if none of its fields with a default is nil |
| `RoundTrips.CompatibleFits` | ext/serializer.cpp:215-408 | between classes that agree on their common fields a value can be read if and only if its unions hold at most one field, which the reader knows |
| `RoundTrips.ReceivedIff` | ext/serializer.cpp:327-369 | what the reader gets is the one value equal at the shared fields, with defaults at the reader's other fields and no more |
| `RoundTrips.UnknownUnionField` | ext/serializer.cpp:384-391 | a union field the reader does not know leaves the stop marker in the stream, whatever the field and value |
| `Errors.UnionOverfull` | ext/serializer.cpp:392-406 | a union written with several fields raises UnionException when it is read, whichever comes first |
| `Errors.NoTypeRefused` | ext/serializer.cpp:292-319 | a map whose keys are announced to have no type is refused unless it is empty |
| `RoundTrips.RelaysIff` | ext/serializer.cpp:592-632 | what was received can be written again if and only if in every object received each field came with the value, or has a writable default, or is optional |
| `RoundTrips.DemandsSuffice` | ext/serializer.cpp:592-632 | that is so for every value if no field is demanded that the writer could leave out |
| `Serializers.ThriftSerializer.WriteAny` | ext/serializer.cpp:498-588 | appends exactly the specified tokens, or raises the specified error with exactly the tokens before the fault written |
| `Serializers.ThriftSerializer.WriteStruct` | ext/serializer.cpp:609-632 | the same for the fields of a struct, after the check for mandatory ones |
| `Serializers.ThriftSerializer.CheckRequiredFields` | ext/serializer.cpp:592-607 | true exactly when every mandatory field is set |
| `Serializers.ThriftSerializer.SkipNType` | ext/serializer.cpp:191-195 | skips exactly n values |
| `Serializers.ThriftSerializer.SkipNPair` | ext/serializer.cpp:197-202 | skips exactly n pairs |
| `Serializers.ThriftSerializer.ReadAny` | ext/serializer.cpp:215-323 | reads exactly what is specified, or raises the specified error |
| `Serializers.ThriftSerializer.ReadStruct` | ext/serializer.cpp:327-369 | the same for the fields of a struct, starting from its defaults |
| `Serializers.ThriftSerializer.ReadUnion` | ext/serializer.cpp:371-408 | the same for a union |
| `Idl.TStruct.GetFieldByName` | compiler/src/parse/t_struct.h:136-144 | the field of that name, or none exactly when no field has it |
| `Idl.TStruct.EqualRange` | compiler/src/parse/t_struct.h:109-112 | the range of fields with the key, all smaller keys before and all larger ones after it |
| `Idl.TStruct.ValidateUnionMember` | compiler/src/parse/t_struct.h:66-86 | a required field of a named union becomes optional; a second default is an error |
| `Idl.TStruct.ValidateUnionMembers` | compiler/src/parse/t_struct.h:88-96 | all members of a named union are checked once, the required ones become optional and nothing else changes; an error exactly when two have defaults |
| `Idl.TStruct.SetUnion` | compiler/src/parse/t_struct.h:98-101 | turning a struct into a union leaves it with no required field and at most one default, everything else being as it was |
| `Idl.TStruct.SetName` | compiler/src/parse/t_struct.h:59-62 | naming a union does the same |
| `Idl.TStruct.Append` | compiler/src/parse/t_struct.h:107-124 | refused exactly when key or name is taken; else the field is added and the sorted list stays strictly ascending, with distinct names and the same members |
| `Audits.MergeIff` | compiler/src/audit/t_audit.cpp:253-303 | the merge of the two sorted lists reports something exactly when an old id is gone, a new id lies below an old one, an added field is required, or a shared field changed type or requiredness |
| `Audits.ReportsIff` | compiler/src/audit/t_audit.cpp:253-303 | and it reports each of these changes as what it is, with the id of its field, and nothing else |
| `Audits.AuditReportsIff` | compiler/src/audit/t_audit.cpp:305-329 | over all structs: exactly the old structs that are missing and the changes of the others, each under its name |
| `Audits.FailsReported` | compiler/src/audit/t_audit.cpp:305-329 | the audit fails exactly when it reports something |
| `Audits.LatestIsLast` | compiler/src/audit/t_audit.cpp:307-311 | of several new structs with a name the last one is compared |
| `Audits.Auditor.CompareStructField` | compiler/src/audit/t_audit.cpp:220-251 | reports exactly a changed type and a changed requiredness, and sets the flag when it reports |
| `Audits.Auditor.CompareSingleStruct` | compiler/src/audit/t_audit.cpp:253-303 | the two-pointer loop ends, prints exactly the reports of the merge in order, and sets the flag exactly when the structs fail |
| `Audits.Auditor.CompareStructs` | compiler/src/audit/t_audit.cpp:305-329 | prints exactly the reports of all old structs in order; sets the flag exactly when some old struct is missing or fails against the last new struct of its name |
| `AuditSoundness.ComparesSpelling` | compiler/src/audit/t_audit.cpp:125-168 | types are equal for the audit exactly when they are written alike |
| `AuditSoundness.FailsIff` | compiler/src/audit/t_audit.cpp:220-329 | the audit fails if and only if a struct is missing or two fields stand in one of five ways to each other, stated without the merge |
| `AuditSoundness.RequiredKept` | compiler/src/audit/t_audit.cpp:230-236 | without failures a shared field is required in both files or in neither |
| `AuditSoundness.RequiredByOld` | compiler/src/audit/t_audit.cpp:230-236 | so every value a new writer can write has the fields that the old file requires, and an old reader gets them |
| `AuditSoundness.RequiredByNew` | compiler/src/audit/t_audit.cpp:230-279 | and every value an old writer can write has the fields that the new file requires |
| `AuditSoundness.SameInfo` | compiler/src/audit/t_audit.cpp:125-168 | types that the audit finds equal are read and written alike, if names keep their meaning |
| `AuditSoundness.PlainDenotes` | compiler/src/audit/t_audit.cpp:125-168 | without typedefs and with names of one kind, names keep their meaning |
| `AuditSoundness.AcceptedCovers` | compiler/src/audit/t_audit.cpp:305-329 | without failures the new schema has every class and field of the old one, whatever names mean |
| `AuditSoundness.AcceptedIff` | compiler/src/audit/t_audit.cpp:305-329 | after an audit without failures an old value is read by the new classes with all it held if and only if the types on both sides fit it |
| `AuditSoundness.AuditSound` | compiler/src/audit/t_audit.cpp:305-329 | without failures, and if names kept their meaning, the two schemas give their common fields the same types, and the new one has every class and field of the old one |
| `AuditSoundness.NewReadsOld` | compiler/src/audit/t_audit.cpp:305-329 | if names kept their meaning, that is every old value whose unions hold at most one field; absent fields take defaults |
| `AuditSoundness.OldReadsNew` | compiler/src/audit/t_audit.cpp:305-329 | and the old classes read a new value, losing only the added fields, if and only if its unions hold at most one field, which the old ones know |
| `RelaySoundness.RelayedUnharmed` | compiler/src/audit/t_audit.cpp:305-329 | an old value read by a new program can be written again if and only if it is relayable, and an old program then reads it complete |
| `AuditSoundness.OptionalAdded` | compiler/src/audit/t_audit.cpp:271-279 | adding an optional field at the end is such a change |
| `AuditSoundness.TypedefHole` | compiler/src/audit/t_audit.cpp:160-163 | a typedef that comes to mean another wire type passes the audit, and every value then raises a type mismatch |
| `AuditSoundness.ListHole` | compiler/src/audit/t_audit.cpp:125-163 | a typedef of a list that comes to hold elements of another wire type passes the audit, and the field is lost without any error |
| `AuditSoundness.MapUnharmed` | compiler/src/audit/t_audit.cpp:125-163 | a typedef of a map of base types may come to mean any other map: the field is read back whole |
| `AuditSoundness.RequirednessHole` | compiler/src/generate/t_ruby_generator.cc:822-828 | a field added as neither required nor optional passes the audit, but the generator marks it mandatory: what an old program sent is not relayable |
| `Md5.CountStep` | compiler/src/md5.c:337-340 | low word, carry and high word together add eight times the length modulo 2^64 |
| `Md5.OffsetOf` | compiler/src/md5.c:327 | the count gives the place in the block, and the amount of padding |
| `Md5.Grown` | compiler/src/md5.c:343-353 | bytes added to the buffer either leave it partial or complete exactly the next block of the message |
| `Md5Spec.FoldSplit` | compiler/src/md5.c:355-357 | full blocks may be processed in any number of goes |
| `Md5.Md5State.Init` | compiler/src/md5.c:312-319 | the state of the empty message |
| `Md5.Md5State.Append` | compiler/src/md5.c:322-358 | from the state of any message to the state of that message with the data appended, so that the cuts between appends do not matter |
| `Md5.Md5State.Finish` | compiler/src/md5.c:360-381 | digests exactly the message, a one bit, zeros and the length before padding, and ends at a block boundary |
| `Md5Spec.PaddedBlocks` | compiler/src/md5.c:372-377 | the padded message is the message, a byte 80 hex, zeros and eight bytes, a whole number of blocks and at most 72 bytes longer |
| `Md5Spec.LengthAtEnd` | compiler/src/md5.c:372-377 | its last eight bytes are the number of bits, low word first |
| `Md5Spec.PaddedInjective` | compiler/src/md5.c:360-381 | two messages of less than 2^61 bytes have different padded messages |
| `Bytes.WordRoundTrip` | compiler/src/md5.c:371-380 | the four bytes written for a word determine it |
| `Bytes.WordBytesAt` | compiler/src/md5.c:371-380 | byte i of a word is the one that 8 i binary places up |
| `Md5Spec.RegisterWords` | compiler/src/md5.c:378-380 | the digest is the four registers in order, each low byte first |

## Left out

- `sparse_hashtable::operator=`: it overwrites the tombstone count before the table is cleared, so the count is not an invariant of it.
- Erasing by iterator, emplacing, `equal_range`, changing the load factors, and the move constructor: they add nothing to the operations that are modelled.
- Rounding of the load factors as `float` values, and factors at which a table may fill up.
- `SparseTables.SparseTable.Resize`: does not model a size smaller than the present one, because the source then does not correct its count; the hash table only grows tables.
- `TableStreams.ReadMetadata`: does not model a file with the right magic number that no serialization wrote, because the source trusts its counts there and leaves a table that is not consistent.
- `TableStreams.Unserialize`: does not model such files either, for the same reason.
- `HashStreams.UnserializeTable`: does not model any file that is not the start of one that a hash table wrote.
- `read_nopointer_data` and the other stream interfaces of the sparse table.
- `HashTables.SparseHashtable.Swap`: does not model the exchange of the hash functions and settings, which are constant here; the tables swapped by the other operations have the same.
- The variants of `_set_aux` and `_group_erase_aux` for relocatable and other types differ only in how values are moved, and are one method each.
- `Malloc.MallocState.SysAlloc`: does not model the direct mapping of large requests and the first-time initialization; the state starts from one mapped region.
- `Malloc.MallocState.Release`: does not model trimming and the release of unused segments after a free, which give memory back to the system; it is `dispose_chunk`, which the source repeats in `_free`.
- The link words, header words and feet of chunks and the bytes of callers are kept in separate maps. `Malloc.BytesApart` says that what is in use of them never shares a place; that a chunk's bytes and its former links do is not modelled.
- The allocator's roots, small-bin headers and state lie at the offsets of the x86-64 layout without footers.
- Directly mapped chunks and the mmap threshold, footers and the magic number, `memalign`, `ialloc`, bulk free, statistics, and sizes of 2^32 and more, where the 32-bit flag masks cut sizes.
- That the sum of all chunks is at most the footprint, and the least address, which only the run-time checks read.
- The byte encodings of the Thrift protocols, string encodings, exception texts and the Ruby C interface.
- The class cache of the serializer: a class is entered when it is defined, so that its fields and whether it is a union are known when it is read.
- Field ids beyond 16 bits, which the serializer's field map would cut.
- Doubles are real numbers, without not-a-number and infinities.
- Audit warnings, and with them defaults, field names, enums and constants, and services: only struct failures are modelled, a report being the struct, the kind of change and the id.
- `AuditSoundness.NewReadsOld`: covers structs of the audited file; included files are not modelled.
- The lexer and parser, and the text the generator writes: a struct is given as its list of fields, with its generated field information.
- The block function of MD5 and the byte order it reads words in: any function of registers and block.
