# libsnappy in Dafny

A model of the snapshot library `libsnappy.c` and proofs about it. The library has four parts:

- **The snapshot lister**, `copy_snapshot_list`.
  - It pages bulk-attribute records out of the filesystem's snapshot enumerator.
  - It walks each page record by record, using each record's own length.
  - It keeps the names of the records that report one, packed into a single allocation: an index of 257 slots, then the NUL-terminated names.
  - The allocation grows by `MAXPATHLEN` whenever a name does not fit.
  - It returns the first 256 names as soon as a 257th named record arrives. With exactly 256 names it keeps paging.
  - It returns NULL when an allocation fails, or when the enumerator reports an error before a 257th name arrives.
- **The two queries over that list.** `snapshot_check` asks whether a name is listed. `copy_first_snapshot` copies the first listed name.
- **The hex encoder** `sha1_to_str`. It is Base16 with the uppercase alphabet (section 8 of RFC 4648), written into a caller's buffer.
- **The boot identifier**, made by `copyBootHash` and `copy_system_snapshot`.
  - The identifier is read from the device tree's `/chosen` node.
  - It is either the "root-snapshot-name" property passed through (while the flag below is set), or the digest in hex behind `com.apple.os.update-`. That digest is normally the "boot-manifest-hash" property; once the flag is cleared, a "root-snapshot-name" is hex-encoded the same way.
  - The process-wide flag `READ_NEW_IORegistryEntry` picks the rendering. It starts set and is cleared the first time an opened node lacks "root-snapshot-name".

Files:

- `bytes.dfy` (module `Bytes`): bytes, `Option`, C strings.
- `hex.dfy` (module `Hex`): `sha1_to_str` and the Base16 specification with its decoder.
- `cstrings.dfy` (module `CStrings`): the `strcmp` and `strdup` loops the queries rely on.
- `snapshot_list.dfy` (module `SnapshotList`): the lister, and the class `SnapshotBuffer` for its allocation.
- `snapshot_query.dfy` (module `SnapshotQuery`): `snapshot_check` and `copy_first_snapshot`.
- `boot_hash.dfy` (module `BootHash`): `copyBootHash` and `copy_system_snapshot`, with the flag as a field of the class `Process`.

The enumerator (`fs_snapshot_list`) is a parameter: `replies: seq<Reply>` holds one reply per call.

- A reply is a page of records, or `Error` for a negative return.
- An empty page, and every call past the given replies, stands for the return value 0 (exhausted).
- A record carries its length, whether the name bit is set, and its name.

Allocation failure is a parameter too: `calloc` or `reallocf` of more than `memLimit` bytes fails.

The lister is specified two ways:

- `Expected(replies, memLimit)` is a declarative reference: the visited names, capped at 256, within the memory that their packing needs.
- `Feed` is the same walk stated one name at a time.
- `FeedIsExpected` proves that the two agree.
- Each method of the lister is proved against `Feed`.

The allocation is a class whose methods reassign its fields: `slots` (the index), `bytes` (the whole block), `count` (`snapidx`), `nameOffset` and `size` (`snapshots_size`). Its invariant `Valid` says:

- slot k holds the offset of name k;
- every later slot is NULL;
- the names region holds the names, each with its NUL, back to back;
- `nameOffset <= size`;
- `size` is exactly what the growth rule gives for those names.

The boot identifier is modelled on the values the device tree offers: `Chosen(valid, rootSnapshotName, bootManifestHash)`, where each property is absent or a blob with a type tag. Decoding a blob as UTF-8 is an opaque function parameter `utf8`.

Two pure functions state what one call does, as a function of the flag before the call:

- `NextFlag` gives the flag after the call.
- `BootHashOf` gives the result of `copyBootHash`.

The flag-free description, a tagged `BootId` with `Resolve` and `Identifier`, is related to the code by lemmas.

The flag is only ever lowered (`libsnappy.c:30`, `151`). Once lowered, the flag stays false for the rest of the process; nothing sets it back to true. The model follows the code. `StaleFlagHexesRootName` states the consequence: after that, a "root-snapshot-name" is rendered in hex behind the prefix.

## Model

| member | source | states |
|---|---|---|
| SnapshotList.CopySnapshotList | libsnappy.c:69-123 | Returns null exactly when the C function returns NULL (`Expected` is None). Otherwise returns a fresh, valid allocation whose index lists exactly the names `Expected` gives. |
| SnapshotList.ReadPages | libsnappy.c:87-120 | The outer paging loop ends as `Feed` over all the visited names says. When every name was taken, `failed` is whether the enumeration ended in an error rather than exhaustion. |
| SnapshotList.WalkPage | libsnappy.c:88-113 | Walking the `retcount` records of one page, each read at the offset the earlier records' lengths lead to, stores names and ends as `Feed` over the page's named records says. |
| SnapshotList.VisitRecord | libsnappy.c:92-110 | An unnamed record changes nothing. A named record with 256 names stored ends the walk as Full. Otherwise the name is stored, or the walk ends as OutOfMemory when the growth fails. |
| SnapshotList.SnapshotBuffer.constructor | libsnappy.c:71-79 | The first allocation is 2056 + 1024 bytes, holds no names, and satisfies the invariant (every slot NULL). |
| SnapshotList.SnapshotBuffer.Store | libsnappy.c:98-109 | Storing a name succeeds exactly when the packing of the names, with it, fits in memory. On success the name is appended, the invariant holds, and the size grows by MAXPATHLEN exactly when `nameOffset + size > snapshots_size`, and by nothing otherwise. On failure the names are unchanged. |
| SnapshotList.SnapshotBuffer.Grow | libsnappy.c:98-100 | Growth adds MAXPATHLEN bytes and leaves the index and the stored names as they were. |
| SnapshotList.SnapshotBuffer.Append | libsnappy.c:106-109 | The next slot gets `nameOffset`. The name and its NUL are copied there. `nameOffset` and `snapidx` advance. The allocation size is unchanged. |
| SnapshotList.SnapshotBuffer.SlotHoldsName | libsnappy.c:106-108 | In a valid allocation, slot k points into the names region at a NUL-terminated copy of name k. |
| SnapshotList.SnapshotBuffer.Contains | libsnappy.c:46-51 | The scan from slot 0 to the first NULL slot, comparing with `strcmp`, finds `name` exactly when it is one of the stored names. |
| SnapshotList.SnapshotBuffer.First | libsnappy.c:62-64 | Slot 0 is NULL exactly when no name is stored. Otherwise its `strdup` is name 0. |
| SnapshotList.FeedIsExpected | libsnappy.c:87-122 | Feeding the visited names from an empty list gives the lister's result. It is NULL when a store ran out of memory, or when every name was stored and the enumeration ended in an error. Otherwise it is the stored names. |
| SnapshotList.FeedStores | libsnappy.c:94-109 | A walk stores a prefix of the names, never more than 256 and never more than the memory allows. |
| SnapshotList.FeedEnds | libsnappy.c:94-104 | Walked means every name was stored. Full means 256 were stored and another arrived. OutOfMemory means fewer than 256 were stored and the next one's packing exceeds the memory. |
| SnapshotList.FeedAppend | libsnappy.c:87-113 | Walking two runs of names is walking the first, then the second if the first was taken completely: the walk across records and pages composes. |
| SnapshotList.ExpectedIsCappedPrefix | libsnappy.c:94-97 | A returned list holds at most 256 names. They are the first names enumerated, in order: all of them when there are at most 256, and exactly 256 otherwise. |
| SnapshotList.ExpectedWhenFull | libsnappy.c:94-97 | With more than 256 names whose first 256 fit in memory, the lister returns those 256, whatever the enumerator says afterwards. |
| SnapshotList.ExpectedWhenAllStored | libsnappy.c:117-122 | With at most 256 names that all fit in memory, the result is NULL if the enumeration ended in an error, and all the names otherwise. |
| SnapshotList.PrefixTooBig | libsnappy.c:98-104 | If storing some prefix of the names already needs more memory than there is, the lister returns NULL. |
| SnapshotList.NoNamesGivesEmptyList | libsnappy.c:71-122 | An enumeration with no name and no error gives a non-NULL list whose slot 0 is NULL. |
| SnapshotList.IndexTerminated | libsnappy.c:71-106 | A slot is non-NULL exactly when it belongs to a stored name, so slot 256 is always NULL. |
| SnapshotList.IndexOfAppend | libsnappy.c:106-107 | Storing one more name fills the first NULL slot with the offset just past the names, and changes no other slot. |
| SnapshotList.PackedAt | libsnappy.c:106-108 | Name k sits in the names region at the total length of the names before it, followed by its NUL. |
| SnapshotList.PackedAppend | libsnappy.c:107-108 | The packing of two runs of names is the packing of the first followed by that of the second. |
| SnapshotList.PackedAppendOne | libsnappy.c:107-108 | Packing one more name appends its bytes and a NUL. |
| SnapshotList.UnitsStep | libsnappy.c:98-100 | Storing a name of `size` bytes (at most MAXPATHLEN) adds a growth step exactly when it does not fit the current capacity. |
| SnapshotList.UnitsTight | libsnappy.c:98-100 | The names region is never overfull, and beyond the first step it has less than one step of slack. |
| SnapshotList.UnitsMonotonic | libsnappy.c:98-100 | More name bytes never need fewer growth steps. |
| SnapshotList.StartOfNext | libsnappy.c:112 | Advancing by a record's length moves from the start of record i to that of record i+1. |
| SnapshotList.RecordAtStart | libsnappy.c:88-112 | With positive lengths, the record found at record i's start offset is record i. |
| SnapshotList.NamedOfSplit | libsnappy.c:91-112 | The stored names are the named records in page order. Record i contributes its name after those of the records before it and ahead of those after it. An unnamed record contributes nothing. |
| SnapshotList.NamedOfAppend | libsnappy.c:91-113 | The named records of two runs of records are those of the first run, then those of the second. |
| SnapshotList.StoreAsWritten | libsnappy.c:98-107 | The store as written: the new slot is the address of `nameOffset` in the block as it is after any reallocation, appended after the slots already written, which keep their addresses. |
| SnapshotList.MovedStoreDangles | libsnappy.c:98-106 | For every store that grows the block and moves it clear of the old one, every slot that pointed into the old block's names points outside the current block altogether, so at none of its names. |
| SnapshotList.UnmovedStoreKeepsSlots | libsnappy.c:98-106 | When the block does not grow, or grows in place, every slot that pointed into the names still does. |
| SnapshotList.MovedAllocationLeavesSlotDangling | libsnappy.c:99-106 | Two names of 999 bytes (1000 with their NULs): after the growth moves the block, slot 1 points into it, but slot 0 does not. |
| SnapshotQuery.SnapshotCheck | libsnappy.c:40-54 | True exactly when the lister returns a list and `name` is byte for byte one of its names. False when the lister returns NULL. |
| SnapshotQuery.CopyFirstSnapshot | libsnappy.c:56-67 | None exactly when the lister returns NULL or an empty list. Otherwise a copy of the first name. |
| CStrings.CStringEquals | libsnappy.c:47 | `strcmp` against a C string stored in the buffer reports equality exactly when the strings are equal. |
| CStrings.CStringCopy | libsnappy.c:63 | `strdup` of a C string stored in the buffer gives that string. |
| Hex.Sha1ToStr | libsnappy.c:125-137 | Returns -1 exactly when `buflen < 2*hashlen+1`, and then writes nothing. Otherwise returns success, writes the encoding followed by a NUL, and leaves the rest of the buffer alone. |
| Hex.Encode | libsnappy.c:132-134 | The result has two digits per byte. Byte i gives the digit of its high nibble at 2i and that of its low nibble at 2i+1. |
| Hex.EncodeAppend | libsnappy.c:132-134 | The encoding of two runs of bytes is the encoding of the first followed by that of the second: each byte is rendered on its own. |
| Hex.DigitValue | libsnappy.c:133 | A byte is read as a nibble exactly when it is an uppercase hex digit, and the nibble prints back as that digit. |
| Hex.DigitRoundTrip | libsnappy.c:133 | The digit `%X` prints for a nibble reads back as that nibble. |
| Hex.Decode | libsnappy.c:132-135 | A decoded result is half as long as its input. |
| Hex.DecodeEncode | libsnappy.c:132-135 | Decoding the encoding of a digest gives back the digest. |
| Hex.EncodeDecode | libsnappy.c:132-135 | Whatever decodes is the encoding of what it decodes to. |
| Hex.DecodeIffEncode | libsnappy.c:132-135 | A string decodes to `data` exactly when it is `data`'s encoding. |
| Hex.EncodeIsUpperHex | libsnappy.c:133-135 | Every byte of an encoding is an uppercase hex digit, so the encoding is a C string. |
| Hex.EncodeExample | libsnappy.c:133 | The bytes 00 11 AB encode as "0011AB". |
| BootHash.AppleSnapPrefix | libsnappy.c:28 | APPLESNAP is a 20-byte C string. |
| BootHash.NextFlag | libsnappy.c:148-153 | A call only ever lowers the flag: it is true afterwards only if it was true before. |
| BootHash.Process.constructor | libsnappy.c:30 | At load time the flag is set. |
| BootHash.Process.CopyBootHash | libsnappy.c:139-197 | The flag afterwards is `NextFlag` of the flag before. The result is `BootHashOf` of the flag before: None when the node cannot be opened, neither property is present, or the property is not data. Otherwise it is the property as text while the flag stays set, and its bytes in hex otherwise. |
| BootHash.Process.CopySystemSnapshot | libsnappy.c:199-214 | The flag afterwards is `NextFlag` of the flag before. The result is the boot hash as it is while the flag stays set. Otherwise it is None for None, or APPLESNAP followed by the boot hash. |
| BootHash.Identifier | libsnappy.c:208-212 | A legacy identifier is the prefix's length plus twice the digest's length. |
| BootHash.FreshProcessMatchesResolve | libsnappy.c:148-213 | In a process whose flag is still set, `copy_system_snapshot` returns the identifier of the representation the node offers. A present "root-snapshot-name" of data type comes back unprefixed. Otherwise "boot-manifest-hash" comes back in hex behind the prefix. It returns None when the node offers no data property. |
| BootHash.RepeatedCallAgrees | libsnappy.c:148-213 | For an unchanged node, a second call gives the same identifier and leaves the flag where the first call left it. |
| BootHash.StaleFlagHexesRootName | libsnappy.c:150-212 | Once the flag is false, a present "root-snapshot-name" of data type is rendered in hex behind the prefix instead of passed through. |
| BootHash.NoPropertyNoIdentifier | libsnappy.c:143-207 | The result is None exactly when the node cannot be opened, neither property is present, or the chosen property is not data. This holds whatever the flag. |
| BootHash.LegacyIdentifierDecodes | libsnappy.c:182-212 | A legacy identifier is the prefix, then only uppercase hex digits, which decode back to the digest. |
| BootHash.SystemSnapshotExamples | libsnappy.c:172-212 | In a fresh process, a node whose "root-snapshot-name" reads as "abc.snapshot" gives "abc.snapshot", and a node offering only the digest 00 11 AB gives "com.apple.os.update-0011AB". |

## Left out

- The IOKit and CoreFoundation calls are not modelled. The `/chosen` lookup becomes the value `Chosen`, and UTF-8 decoding with `CFStringGetCString` becomes the opaque parameter `utf8`. A failure of `CFStringCreateFromExternalRepresentation` is not modelled.
- `fs_snapshot_list` itself is not modelled. Its replies are a parameter. The kernel's guarantees are a precondition, `WellFormedReplies`: positive record lengths, and names shorter than MAXPATHLEN without NUL bytes.
- `perror`, `printf` and `fprintf` have no effect on results and are left out.
- `free` and memory ownership are left out. This includes the allocation the lister leaks when it returns NULL after an enumerator error (lines 117-119).
- The allocation is a class whose `seq` fields the methods reassign, not one block written in place. The index holds offsets from the block's start instead of absolute addresses. Aliasing between index slots and name bytes is therefore not modelled. The absolute-address index of the code is modelled separately, under Findings.
- The bytes that `reallocf` adds are indeterminate in C. They are zero in the model; nothing reads them.
- Allocation failure is one threshold, `memLimit`, for every allocation of the lister. The `strdup` in `copy_first_snapshot`, the `calloc` calls in `copyBootHash` and the unchecked `malloc` in `copy_system_snapshot` never fail in the model.
- The `uint64_t`, `size_t` and `int` widths are not modelled. Offsets stay below a few hundred kilobytes, and the record count is the page's length.
- `ERR_SUCCESS` is declared in `snappy.h`, which is not part of this model. It is taken to be 0.
- The scratch-buffer reset with `bzero` (lines 84, 114) is not modelled: each page is given as fresh records.
- Hex.Sha1ToStr: `buflen` is the length of the array passed. A `buflen` larger than the real buffer is not modelled.
- BootHash.Process.CopyBootHash: the `ret != ERR_SUCCESS` branch is unreachable there (the buffer is exactly `2*n+1` bytes). The model keeps the branch.

## Findings

| source | as written | input that shows it | evidently intended | confidence | as-written member | corrected member |
|---|---|---|---|---|---|---|
| libsnappy.c:99-106 | Each slot stores the absolute address `snapshots + nameOffset`. When `reallocf` grows the block and moves it, the slots written earlier still point into the old, freed block. | Two named records with 999-byte names (1000 bytes each with the NUL): the second does not fit the first 1024 bytes of names, so the block grows and may move. Slot 0 then points outside the new block. | Every slot should lead to its name in the current block, e.g. by storing offsets and rebasing them after a move. | not executed | SnapshotList.MovedStoreDangles | SnapshotList.SnapshotBuffer.Store |
