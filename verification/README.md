# Verified model of NFS-RODS

NFS-RODS is a user-space NFSv3 server (RFC 1813). This project models its stateful and
algorithmic cores in Dafny and proves what they promise to clients and to each other:

- **File handles** (`FileSystem`, `FileHandle`, `HandleTheorems`, `HandleWitnesses`, `Locate`,
  `HandleCache`). A
  handle stores device, inode, generation and one 8-bit inode hash per path component;
  resolving it is a backtracking directory search steered by those lossy hashes. The file
  system is any pair of functions `lstat` and `readdir` over path strings (`Fs`); `TreeFs` is
  the pair that a symlink-free tree gives. The cache in front of the search is 4096 slots,
  replaced least recently used first, and may be stale, because the file system is a new
  parameter of every call.
- **Descriptor cache** (`FdTable`, `FdErrors`, `FdCache`): 256 slots that are unused, hold an
  open descriptor or hold an fsync/close error still to be reported, over an operating system
  whose calls fail at will. The environment keeps a trace of every fsync, close and verifier
  renewal with its outcome; what must not get lost is stated about that trace and the table
  (`FdErrors.Step`), for every operation and then for whole runs.
- **JSON parser** (`Json`, `JsonControl`, `JsonMeasure`, `JsonTwoPass`, `JsonTree`, `JsonFill`,
  `JsonGrammar`, `JsonReach`, `JsonLayout`, `JsonRead`, `JsonAccept`, `JsonDenotes`, `JsonParse`,
  `JsonFree`): one iteration of the flag-driven loop is `Json.Step`, the same
  function for both passes except where the source tests `first_pass`. Memory is modelled with
  its bounds: a write outside what was allocated is the outcome `Fault`, and reading a character
  (`Json.CharAt`) demands an index not behind the terminator. `JsonGrammar` says, without the
  parser, which texts are accepted and what tree each denotes.
- **READDIR** (`ReadDir`, `ReadDirTheorems`): paging, the byte budget, and the generation stamp
  in the upper half of cookies.
- **XDR** (`Xdr`, `XdrWire`): encoders and decoders as functions on byte sequences; the library
  primitives follow RFC 4506. `XdrWire` lists the items of every format with their bytes,
  apart from both.
- **MD5** (`Md5`, `Md5Stream`, `Md5Suite`): the 64 written-out operations of a block against a
  table-driven reference, and the streaming interface against the one-shot definition of
  RFC 1321. The reference is pinned by bit laws and by a digest of the RFC's test suite.
- **Export lookup** (`Exports`).

Objects whose fields the source updates (the caches, the READDIR state, the MD5 state, the
export globals) are classes; loops are methods with invariants, proved against functions about
which the theorems speak. `dafny verify dfyconfig.toml` checks everything.

Assumptions that are stated in the model: the file system obeys `FileSystem.Posix` (the empty
path does not resolve, a doubled leading slash is the root, no object has device and inode both
zero); `open` never returns a descriptor that is already open, `close` always releases it, and
the clock is not zero (`FdTable.Os`); the JSON text is followed by a terminator.

Where code and comments disagree, the code is followed: `MAX_ENTRIES` is 143 although its
comment derives it as 4096 / 28; `FH_MINLEN` is 21, which is the true minimum only for 4-byte
words, so the word width is a parameter; `get_gen` as configured never returns 0 on failure.

The JSON parser accepts more than JSON, which the grammar records: a comma before a closing
bracket, any character behind a backslash, a low surrogate as the first of a pair, a minus sign
alone or right before an exponent, and anything behind a NUL that follows the value. With
comments enabled it accepts less in one place: no slash may follow a number directly.

Properties found not to hold as one might expect, with the exact condition:

- A handle with device and inode zero resolves to an entry that cannot be stat'ed
  (`HandleTheorems.ZeroHandleResolvesToMissingObject`); resolution is right exactly for the
  other handles (`HandleTheorems.DecompRawSound`).
- A path of 1023 characters, which `cat_name` (src/nfs.c:220) and the work buffer still take,
  gets a handle that cannot be resolved by search (`HandleWitnesses.LongPathIsLost`;
  `HandleTheorems.RoundTrip` gives both cases).
- With 8-byte words a handle exceeds 64 bytes from depth 32 on
  (`HandleWitnesses.DeepHandleTooLong`; `HandleTheorems.LookupChainComposes` gives the bound for
  every width).
- The `fsid` that `exports_options` stores need not belong to the export whose options apply
  (`Exports.FsidOfAnotherExport`, condition in `Exports.FsidIsBests`).
- A cookie is honoured again after exactly a multiple of 2^32 changes
  (`ReadDirTheorems.OldCookieHonoured`, condition in `ReadDirTheorems.StaleIff`).

## Model

| member | source | states |
|---|---|---|
| `FileHandle.HashComponents` | src/fh.c:232-253 | the do-while loop over the work buffer yields one hash per path prefix, or nothing if a prefix does not resolve or there are more than the limit |
| `FileHandle.FhCompRaw` | src/fh.c:175-258 | every branch of composition: no access, removable export, failed lstat, not a directory, root, hashed path |
| `FileHandle.FhRec` | src/fh.c:377-453 | the readdir loop returns the first hit of the recursive search and touches the stat cache only then |
| `FileHandle.FhDecompRaw` | src/fh.c:458-478 | root handles give "/" and leave the stat cache alone; others give the search result |
| `HandleTheorems.NextComponent` | src/fh.c:235-239 | the next slash found in the work buffer is exactly where the next component starts |
| `HandleTheorems.ComposeIsHandleOf` | src/fh.c:228-257 | in every tree the composed handle carries the object's identity and the hashes of its ancestors in order; below depth 43 it is the invalid handle |
| `HandleTheorems.ComposedWhen` | src/fh.c:185-258 | which handles are composed: none without access, a preset one for a removable export, otherwise one exactly if the object exists, is a directory where needed, and its hashes can be read |
| `HandleTheorems.EntryCases` | src/fh.c:405-425 | among the entries of a directory passed on the way, only the child on the target's path matches; "." and ".." never do |
| `HandleTheorems.SearchFinds` | src/fh.c:390-440 | the search below any directory finds the target if and only if that directory lies on the target's path and the path is short enough |
| `HandleTheorems.RoundTrip` | src/fh.c:458-478 | resolving the composed handle of any object down to depth 43 gives its path and its stat, whatever hash collisions occur, if and only if the path has at most 1022 characters |
| `HandleTheorems.DecompRawSound` | src/fh.c:400-421 | in any file system, the path returned is what lstat now says is the object, for every handle but the all-zero one, for which it never is |
| `HandleTheorems.ZeroHandleResolvesToMissingObject` | src/fh.c:405-411 | a concrete all-zero handle that resolves to an entry without stat |
| `HandleTheorems.ExtendCommutes` | src/fh.c:272-304 | extending a directory's handle by a child equals composing the child's path, up to the password hash; refused exactly at depth 43 |
| `HandleTheorems.LookupChainComposes` | src/fh.c:263-304 | every LOOKUP chain from the root gives the directly composed handle, passes nfh_valid, and fits 64 bytes exactly up to a depth fixed by the word width |
| `HandleWitnesses.LongPathIsLost` | src/fh.c:400-403 | a concrete tree with a path of 1023 characters whose handle does not resolve |
| `HandleWitnesses.DeepHandleTooLong` | src/fh.c:263-266 | a concrete chain of 32 LOOKUPs that gives a handle of more than 64 bytes with 8-byte words |
| `HandleTheorems.TreeIsPosix` | src/fh.c:152-156 | trees without zero identities meet the assumptions made about file systems |
| `Locate.LocatePfx` | src/locate.c:52-96 | terminates on every directory graph and returns the first hit of the brute-force search, touching the stat cache only then |
| `Locate.LocateFile` | src/locate.c:104-176 | searches below the first mount point on the device, if brute force is enabled |
| `Locate.MountIsFirst` | src/locate.c:130-141 | the mount point used is the first one on the device |
| `Locate.FileFindsIff` | src/locate.c:104-176 | an object is found exactly if brute force is enabled and a chain leads to it from that mount point |
| `Locate.PfxSound` | src/locate.c:64-92 | a path returned has the device and inode asked for and is reached by a chain of listed names within the length limit |
| `Locate.FindsIffReachable` | src/locate.c:52-96 | an object is found if and only if some chain of same-device directories within the length limit leads to it |
| `Locate.FindsInTree` | src/locate.c:64-92 | in a tree, an object is found whenever the directories between are on its device and the path is short enough |
| `HandleCache.Cache.constructor` | src/fh_cache.c:45-81 | an empty cache meets the invariant |
| `HandleCache.Cache.Lru` | src/fh_cache.c:88-114 | a full table yields a slot of least use among all but the last returned entry, for any use values; before the clock wraps it is blank or the least recently accessed in the history |
| `HandleCache.Cache.Inval` | src/fh_cache.c:119-125 | the slot becomes blank, nothing else changes |
| `HandleCache.Cache.Index` | src/fh_cache.c:130-141 | the short scan finds a key if and only if any of the 4096 slots holds it |
| `HandleCache.Cache.Add` | src/fh_cache.c:146-164 | replaces the key's own slot, else the next or least used one, and records the access; before the clock wraps the victim is blank or the least recently accessed; keys stay distinct and the last returned entry survives other keys |
| `HandleCache.Cache.Lookup` | src/fh_cache.c:169-204 | hits if and only if a slot remembers a path that now has the key's identity; a hit stamps that slot alone, caches the stat and records the access; a miss empties at most the key's slot and records nothing |
| `HandleCache.Cache.Decomp` | src/fh_cache.c:210-319 | cached resolution refines the raw one for every stale cache: a right path with its stat, or NULL with the stat cache invalid and neither search finding anything; what it does to the table on a hit and on a miss |
| `HandleCache.Cache.ResolveMiss` | src/fh_cache.c:300-313 | the hard way after a miss; a path found is entered in one slot, nothing found leaves the table alone |
| `HandleCache.Cache.Comp` | src/fh_cache.c:326-337 | the composed handle with the password hash, cached exactly if valid |
| `HandleCache.Cache.AddOthers` | src/fh_cache.c:55-65 | the entry of the last lookup survives any number of additions for other keys, also across clock wrap |
| `HandleCache.TouchKeepsTicks` | src/fh_cache.c:67-73 | a use stamp is the tick of the slot's last access until the clock wraps |
| `FdCache.Cache.constructor` | src/fd_cache.c:92-104 | an empty table meets the invariant |
| `FdCache.Cache.Unused` | src/fd_cache.c:110-129 | an unused slot, or none if all are used |
| `FdCache.Cache.Del` | src/fd_cache.c:139-180 | whole new state of a deletion: a written descriptor synced, then closed, counters adjusted, the error kept pending or dropped after renewing the verifier; -1 exactly for a pending error or a call that failed |
| `FdCache.Cache.Add` | src/fd_cache.c:185-204 | the descriptor moves into a slot, or stays outside if the table is full |
| `FdCache.Cache.IdxByFd` | src/fd_cache.c:209-220 | finds a slot with descriptor and kind if there is one |
| `FdCache.Cache.IdxByFh` | src/fd_cache.c:225-239 | finds a slot for kind and handle if there is one |
| `FdCache.Cache.FdOpen` | src/fd_cache.c:245-294 | a pending error is reported with -1 after renewing the verifier and leaves, no other error does; a cached descriptor is returned; a new one belongs to the handle and is cached exactly if allowed and a slot is free; on -1 no descriptor is left open outside the table |
| `FdCache.Cache.OpenNew` | src/fd_cache.c:260-293 | a freshly opened descriptor is returned only if it still is the handle's object, and enters the table exactly if caching is allowed and a slot is free |
| `FdCache.Cache.FdClose` | src/fd_cache.c:300-326 | no descriptor is left open outside the table; -1 exactly if a call made failed; no error leaves or appears; an uncached descriptor is released at once, a cached one only on a real close, otherwise it stays with a new time stamp |
| `FdCache.Cache.FdSync` | src/fd_cache.c:331-342 | the handle's write slot is emptied; -1 if and only if an error was pending for it or one of the calls failed |
| `FdCache.Cache.WriteBracket` | src/nfs.c:715-739 | a successful WRITE leaves its descriptor open in the table only if it was UNSTABLE; otherwise it was synced and right after that closed, both successfully, and no slot for the handle is open; no descriptor is left outside the table; success means that no call failed and no error was pending |
| `FdCache.Cache.Purge` | src/fd_cache.c:347-361 | releases every descriptor; a slot becomes pending if and only if a call on its descriptor failed, and unused otherwise |
| `FdCache.Cache.CloseIdle` | src/fd_cache.c:373-387 | releases exactly the idle descriptors, a slot becoming pending if and only if a call on it failed, and finds whether any pending error is recent |
| `FdCache.Cache.DropPending` | src/fd_cache.c:396-400 | drops all pending errors and nothing else, renewing the verifier for each |
| `FdCache.Cache.CloseInactive` | src/fd_cache.c:366-403 | errors, old or from this sweep, leave only all together, if and only if there are some and each is at least 7200 seconds old, and the verifier is renewed last; otherwise failures of this sweep are pending |
| `FdErrors.NoErrorLost` | src/fd_cache.c:51-62 | over every run of operations, an fsync or close call that fails on a cached descriptor leaves its error pending to the end, or some operation reported it with -1 for that kind and handle or swept it with all others at least 7200 seconds old, and the verifier was renewed after the failure |
| `FdErrors.PendingUntilAnswered` | src/fd_cache.c:165-177 | a pending error leaves a run only in those two ways, with a renewal |
| `FdCache.Cache.Serve` | src/fd_cache.c:245-403 | any series of WRITE, COMMIT, unmount and timeout requests from any state is such a run, each request doing what it promises between its states (stable data on disk, errors reported), and leaves no descriptor outside the table |
| `FdCache.BracketWritten` | src/nfs.c:735-739 | fd_open and a successful fd_close together: an UNSTABLE write stays cached, any other is on disk |
| `FdErrors.ClearStep` | src/fd_cache.c:157-177 | clearing one slot loses no failure, invents no error and keeps the errors of other handles |
| `FdErrors.SweepStep` | src/fd_cache.c:373-387 | a sweep that keeps errors loses none, makes pending only what failed, and releases descriptors by syncing and closing |
| `FdErrors.DropStep` | src/fd_cache.c:389-402 | dropping all errors after such a sweep, when every one is old, answers each of them with a renewal after its failure |
| `FdTable.CountReplace` | src/fd_cache.c:145-153 | reader and writer counters follow one changed slot |
| `FdTable.HeldBound` | src/fd_cache.c:65-83 | a table holds at most as many descriptors as it has slots |
| `JsonControl.DecideSound` | src/utils/json.c:273-846 | what one iteration may decide, given flags and current value |
| `JsonControl.StepWf` | src/utils/json.c:273-901 | every iteration of pass 1 keeps the loop invariant and decreases a measure; it never reads behind the terminator nor faults otherwise |
| `JsonControl.FirstPassEnds` | src/utils/json.c:261-904 | pass 1 ends on every input, within four iterations per character |
| `JsonMeasure.RunGrows` | src/utils/json.c:396-421 | what pass 1 has counted, with the name, string or member under way, is bounded by what it measures in the end |
| `JsonTwoPass.SameDecision` | src/utils/json.c:565-687 | outside numbers both passes decide alike; pass 2 takes a number in one go |
| `JsonTwoPass.NumberRun` | src/utils/json.c:733-841 | pass 1 reads a number exactly up to the first character that pass 2 does not skip |
| `JsonTwoPass.ApplyInsideAgrees` | src/utils/json.c:287-421 | writes of characters and names in pass 2 stay inside what was measured |
| `JsonTwoPass.NewAgrees` | src/utils/json.c:102-192 | pass 2 takes up the value that pass 1 created at this point, with memory of the measured size |
| `JsonTwoPass.NextAgrees` | src/utils/json.c:854-900 | a finished value is entered in its parent's table within bounds |
| `JsonTree.NextLinked` | src/utils/json.c:869-897 | finished values are in their parent's table in order, unfinished ones are not |
| `JsonTree.LinkedIsTree` | src/utils/json.c:854-900 | at the end the links form a tree: every table full, every value in exactly its parent's table |
| `JsonFill.NameFilled` | src/utils/json.c:405-421 | member names lie end to end in the name area with no byte unset |
| `JsonParse.Simulate` | src/utils/json.c:261-904 | from corresponding states, an accepting pass 1 is matched by an accepting pass 2 |
| `JsonParse.TwoPasses` | src/utils/json.c:261-904 | on every input pass 1 accepts, pass 2 accepts without reading or writing out of bounds, with the same values in the same order, and fills every table, name area and string exactly |
| `JsonParse.ParsePass` | src/utils/json.c:273-901 | the parsing loop computes the iterated step |
| `JsonRead.ReadValue` | src/utils/json.c:547-900 | pass 1 reads every value of the grammar up to the iteration that finishes it, and allocates one value per node of the denoted tree, in the order of the text |
| `JsonRead.ReadDocument` | src/utils/json.c:261-904 | pass 1 accepts every text of the grammar |
| `JsonAccept.FillerEnd` | src/utils/json.c:433-480 | what pass 1 skips between tokens is spaces and closed comments |
| `JsonAccept.StringEnd` | src/utils/json.c:277-430 | a string that pass 1 accepts is a string of the grammar with the length it counts |
| `JsonAccept.NumberEnd` | src/utils/json.c:733-841 | a number that pass 1 accepts is a number of the grammar, double exactly if it has a point or an exponent |
| `JsonAccept.ValueFound` | src/utils/json.c:493-900 | a value that pass 1 accepts is a value of the grammar |
| `JsonAccept.DocumentFound` | src/utils/json.c:261-904 | every text that pass 1 accepts is in the grammar |
| `JsonDenotes.LayoutDenotes` | src/utils/json.c:854-900 | where a tree is laid out, the finished tables link exactly its members, in order |
| `JsonParse.ExactDenotes` | src/utils/json.c:261-904 | what pass 2 leaves is the tree the text denotes |
| `JsonParse.Parse` | src/utils/json.c:221-947 | parses exactly the texts of the grammar, into the tree they denote (types, members in order, string lengths), with exactly the measured sizes |
| `JsonFree.FreeValue` | src/utils/json.c:955-1003 | the stackless traversal terminates and frees the values below its argument in post-order, last child first, each right after the memory attached to it, which it finds by the value's type |
| `JsonFree.FreesEachOnce` | src/utils/json.c:964-1002 | that order frees every value, and whatever memory pass 2 attached to it, exactly once, children before the table that leads to them and tables before their values |
| `JsonFree.OrderLists` | src/utils/json.c:964-1002 | the order lists a value and its descendants, each once |
| `JsonFree.ParseAndFree` | src/utils/json.c:221-1003 | a text of the grammar parsed and freed again: everything the two passes allocated is freed exactly once, in a safe order |
| `Xdr.RoundBytes` | src/xdr.c:327-334 | counted opaque data up to its maximum comes back, leaving what followed |
| `Xdr.RoundPostFh` | src/xdr.c:430-445 | a post-operation handle can be sent exactly if it has at most 64 bytes, and then comes back |
| `Xdr.RoundSetTime` | src/xdr.c:514-542 | time settings come back, a time following only SET_TO_CLIENT_TIME |
| `Xdr.RoundSattr` | src/xdr.c:544-559 | settable attributes come back, in a multiple of four bytes |
| `Xdr.RoundCreateHow` | src/xdr.c:900-918 | all three CREATE modes come back |
| `Xdr.RoundFattr` | src/xdr.c:345-374 | file attributes come back |
| `Xdr.RoundPostAttr` | src/xdr.c:376-391 | optional attributes come back |
| `Xdr.RoundEntry` | src/xdr.c:1312-1319 | one directory entry comes back |
| `Xdr.RoundList` | src/xdr.c:1312-1325 | linked entry lists of any length come back, leaving exactly what followed; their encoded length is the accounted one |
| `Xdr.RoundDirlist` | src/xdr.c:1327-1336 | directory lists with their eof flag come back |
| `Xdr.RoundResok` | src/xdr.c:1338-1347 | a whole READDIR answer comes back |
| `Xdr.ResokSize` | src/readdir.c:43-63 | a READDIR answer with attributes takes 104 bytes plus 24 and the padded name for every entry |
| `XdrWire.WireU32` | src/xdr.c:345-374 | a word is four bytes, big end first, in both directions and for every input |
| `XdrWire.WireU64` | src/xdr.c:345-374 | the same for eight bytes |
| `XdrWire.WireBool` | src/xdr.c:376-391 | TRUE is written as 0 0 0 1; exactly four zero bytes are read as FALSE |
| `XdrWire.WireOpaque` | src/xdr.c:900-918 | opaque data stands as it is, padded with zeros to a multiple of four |
| `XdrWire.WireBytes` | src/xdr.c:327-334 | the length in a word, then the data; refused beyond the maximum |
| `XdrWire.WirePostFh` | src/xdr.c:430-445 | a flag, then the handle; what is decoded, of any input, is exactly what starts with these items |
| `XdrWire.WireSattr` | src/xdr.c:544-559 | mode, uid, gid, size and the two times in this order, each with its flag or word, in both directions |
| `XdrWire.WireCreateHow` | src/xdr.c:900-918 | the first four bytes are 0 0 0 and 0 for UNCHECKED, 1 for GUARDED, 2 for EXCLUSIVE, and decide for every input which arm is read |
| `XdrWire.WireFattr` | src/xdr.c:345-374 | the 84 bytes of the attributes field by field, in both directions |
| `XdrWire.WirePostAttr` | src/xdr.c:376-391 | a flag, then the attributes |
| `XdrWire.WireEntry` | src/xdr.c:1312-1319 | fileid, name and cookie in this order |
| `XdrWire.WireDirlist` | src/xdr.c:1312-1336 | entries each behind a TRUE, a FALSE, and the eof flag |
| `XdrWire.WireResok` | src/xdr.c:1338-1347 | attributes, verifier, entries and eof, as written |
| `XdrWire.ReadsResok` | src/xdr.c:1338-1347 | the same as read: exactly the inputs that start with these items |
| `ReadDir.BumpStamp` | src/daemon.c:847-852 | the stamp never has low bits and counts changes modulo 2^32 |
| `ReadDir.Server.ChangeCookie` | src/daemon.c:847-852 | shift, increment, shift back |
| `ReadDir.Server.Read` | src/readdir.c:89-230 | one READDIR call answers with the page function, error cases and missing removable media included |
| `ReadDir.Server.SkipEntries` | src/readdir.c:147-152 | the skip loop stops at the cookie's position or the end |
| `ReadDir.Server.FillCells` | src/readdir.c:154-209 | the fill loop's linked static array holds exactly the entries that fit, in order |
| `ReadDir.FilledAreGood` | src/readdir.c:156-208 | entries returned could be named and stat'ed, and never exceed the 143 slots |
| `ReadDirTheorems.PageIsStretch` | src/readdir.c:104-220 | a page is the stretch of the directory at the cookie's position, eof exactly at its end |
| `ReadDirTheorems.PagingIsExact` | src/readdir.c:147-220 | following cookies from 0 with any counts above 104 yields the directory in order without loss or repetition, and max(1, n) calls reach eof |
| `ReadDirTheorems.StaleIff` | src/readdir.c:104-110 | a cookie issued some changes ago is honoured exactly if their number is a multiple of 2^32, otherwise the listing restarts |
| `ReadDirTheorems.OldCookieHonoured` | src/readdir.c:104-110 | a concrete cookie that is honoured after 2^32 changes |
| `ReadDirTheorems.ReadConsistent` | src/readdir.c:104-186 | at eof the entries since the last restart are the whole current directory |
| `ReadDirTheorems.RunIsWhole` | src/nfs.c:1103-1105 | the same in every interleaving of READDIR with operations that change the directory and bump the stamp |
| `ReadDirTheorems.AnswerSize` | src/readdir.c:156-209 | the accounted size is the size on the wire, at most min(count, 4096) with more than one entry, and nonempty names never fill the slots |
| `ReadDirTheorems.PageIsFull` | src/readdir.c:156-209 | a page that does not reach the end has no room for the next entry, or has 143 |
| `ReadDirTheorems.PageFails` | src/readdir.c:159-208 | a READDIR call fails exactly at an entry that is too long to name or cannot be stat'ed, with the error that tells which |
| `Md5.Round1` | src/md5.c:201-225 | the 16 written-out operations of round 1, with the source's own macros, are the table-driven ones of the reference |
| `Md5.Round2` | src/md5.c:227-251 | the same for round 2 |
| `Md5.Round3` | src/md5.c:253-277 | the same for round 3 |
| `Md5.Round4` | src/md5.c:279-303 | the same for round 4 |
| `Md5.ProcessBlock` | src/md5.c:132-311 | one block is processed as section 3.4 of RFC 1321 defines |
| `Md5.SetIsMix` | src/md5.c:199-208 | one SET line, with the source's macros and its way of reading a word, is an operation of the reference |
| `Md5.FBits` | src/md5.c:204 | F takes y's bit where x is set, z's elsewhere |
| `Md5.GBits` | src/md5.c:230 | G takes x's bit where z is set, y's elsewhere |
| `Md5.HBits` | src/md5.c:256 | H is the parity of the three bits |
| `Md5.IBits` | src/md5.c:282 | I is y's bit, inverted where x is set or z is not |
| `Md5.RotlBits` | src/md5.c:199 | a rotation moves every bit n places up, round the end |
| `Md5.OctetBits` | src/md5.c:377-378 | byte k of a word holds its bits from 8k on |
| `Md5.WordOctets` | src/md5.c:182-192 | the bytes of a word are four bytes of the block, low-order byte first |
| `Md5.InitOctets` | src/md5.c:313-320 | the registers start as 01 23 45 67 89 ab cd ef and back |
| `Md5Suite.SuiteDigest` | src/md5.c:132-311 | the reference gives the digest that section A.5 of RFC 1321 lists for the 62 letters and digits, over two blocks |
| `Md5Stream.Carry` | src/md5.c:332-336 | the two-word counter with carry counts bits modulo 2^64 |
| `Md5Stream.State.constructor` | src/md5.c:313-320 | the empty message |
| `Md5Stream.State.Append` | src/md5.c:322-357 | the message seen grows by the chunk: counter, registers and partial block stay tied to it |
| `Md5Stream.State.TopUp` | src/md5.c:338-348 | a partial block is filled from the chunk and processed when complete |
| `Md5Stream.State.ProcessWhole` | src/md5.c:350-352 | the block loop folds the full blocks of the chunk |
| `Md5Stream.State.LengthOf` | src/md5.c:370-372 | the length is saved low-order byte first |
| `Md5Stream.State.Finish` | src/md5.c:359-379 | the digest is the one RFC 1321 defines for everything appended |
| `Md5Stream.PadLength` | src/md5.c:373-374 | the padding length computed in unsigned arithmetic is the fewest bytes that leave 56 mod 64 |
| `Md5Stream.DigestOf` | src/md5.c:313-379 | any list of chunks gives the digest of their concatenation |
| `Exports.FindHost` | src/Config/y.tab.c:2230-2247 | the first host that admits the client, if any |
| `Exports.AdmitsIff` | src/Config/y.tab.c:2236-2240 | a host entry admits a client exactly if its address has no bits outside the mask and the two agree inside it |
| `Exports.Options.Lookup` | src/Config/y.tab.c:2258-2306 | all globals come from the first admitting host of the earliest longest export that covers the path and admits the client; nothing is set if there is none |
| `Exports.BestUnique` | src/Config/y.tab.c:2281-2303 | there is at most one such export |
| `Exports.FsidIsBests` | src/Config/y.tab.c:2291-2300 | the fsid stored through the pointer is the winner's exactly if no later, longer covering export shuts the client out |
| `Exports.FsidOfAnotherExport` | src/Config/y.tab.c:2291-2292 | a concrete table where it is not |

## Left out

- src/irodsapi, src/utils/rodscapi_utils.c and the iRODS calls in src/nfs.c: a foreign client library without visible semantics.
- The NFS and MOUNT procedures, transports, id switching and error mapping: system call plumbing.
- The generated parser and scanner tables in src/Config, src/winsupport.c and src/Extras/cluster.c: generated or compiled out.
- JSON number values, code point conformance and line numbers; the contents of strings are modelled but only their placement and extent are claimed, and of member names their total extent.
- JSON allocation failure and the clean-up of a rejected text, and the byte sizes of tables (an `int` product in `new_value`).
- The bytes of the write verifier: renewing it is an event.
- Root handles and removable export points in `fh_decomp`: the branches are modelled, but nothing is claimed about the stat they leave.
- HandleCache.Cache.Decomp: the counters fh_cache_use and fh_cache_hit are statistics only and are not modelled.
- FdCache.Cache.Unused: does not model the rate-limited log message.
- Stat buffers hold device, inode, generation and whether it is a directory; other attributes pass through untouched.
- Symlinks inside paths, permissions on directories, signal races and logging.
