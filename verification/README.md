# Checksums, read-ahead and checksum files of xrootd-hdfs

This project models the part of the XRootD plug-in for HDFS in which octets are read or written, digested, and
recorded in a text file under `/cksums`, and proves what that part does. `dafny verify dfyconfig.toml` checks it.

## How the model is laid out

| file | models |
|---|---|
| `Bytes.dfy` | octets, C strings, hexadecimal and decimal printing |
| `Gf2.dfy`, `RegisterPoly.dfy` | polynomials over GF(2); a 32-bit register read as one |
| `CrcTable.dfy`, `CrcDivision.dfy`, `PosixCksum.dfy` | the POSIX `cksum` table and loops, and polynomial division |
| `Zlib.dfy`, `Crc32Division.dfy` | zlib's `adler32` (RFC 1950) and `crc32` (RFC 1952), the latter as polynomial division too |
| `Cvmfs.dfy`, `GraftReading.dfy` | CVMFS chunks, the graft text, and what a reader of the text gets |
| `ChecksumState.dfy` | the class `ChecksumState` |
| `HdfsReplies.dfy`, `HdfsWorld.dfy` | the HDFS client library, errno and malloc as an adversary |
| `ReadAhead.dfy`, `ConcurrentReads.dfy` | the read-ahead window, alone and shared by threads |
| `ConcurrentOpens.dfy` | threads that open, close and read through one object |
| `SequentialWrites.dfy` | short, failing and out-of-order writes |
| `Sidecar.dfy`, `SidecarMap.dfy`, `NamedDigests.dfy` | printing, parsing, updating and searching a checksum file |
| `XrdHdfs.dfy` | the classes `XrdHdfsFile` (here `HdfsFile`) and `ChecksumManager` |
| `EndToEnd.dfy` | from the octets a client writes to the checksums another client reads |

The library is an adversary with a finite script of replies: `hdfsPread` may deliver fewer octets than asked for, be
interrupted, fail, or return 0 with errno set; `hdfsWrite` may accept any part of its argument or fail; opening,
connecting, closing, deleting and allocating may fail. All results hold for every script. When a script runs out, every
later call succeeds. Only these things are taken for granted: `hdfsPread` returns 0 with errno clear only at the end of
the file, a negative `hdfsWrite` stores nothing, and a file does not change while it is open for reading.

Objects the source updates in place are classes whose methods are proved against functions on values; the results about
all inputs, runs and interleavings are lemmas about those functions. A digest context of OpenSSL is the sequence of
octets it has absorbed, and MD5 and SHA-1 are arbitrary functions.

## Where the code does not do what it seems meant to do

The model follows the code. Each point has its exact condition.

- The trailing CVMFS chunk is digested but never appended (`src/XrdHdfsChecksumCalc.cc:253-259`): for every digest
  function the graft covers the file exactly when it has fewer than two full chunks, or ends on a chunk boundary, or the
  last full chunk has the same digest as itself followed by the tail, which for SHA-1 is a collision
  (`Cvmfs.TilesIffCovered`). Appending it would cover every file (`Cvmfs.IntendedListTiles`).
- `m_crc32` is missing from the initialiser list (`src/XrdHdfsChecksumCalc.cc:92-101`): the recorded CRC32 is right exactly
  when that memory held 0 (`EndToEnd.RecordedCrc32RightIff`).
- `Write` digests all octets it was given, also those the library did not store (`src/XrdHdfs.cc:740-746`): the octets
  digested are those of the content exactly when every call in order was accepted in full
  (`SequentialWrites.DigestsContentIffFull`).
- `m_nextoff` is set only by the constructor (`src/XrdHdfs.cc:361`), while opening for writing empties the file: an object
  can write a file from its start exactly when none of its earlier sessions stored an octet
  (`SequentialWrites.SessionServedIff` over all runs of sessions, `EndToEnd.OpenAndWrite` for the object in any state).
  Otherwise all writes are rejected and the file is left empty: its data is lost (`EndToEnd.ReopenLosesData`).
- `Get` removes the data file itself when the checksum file can be read and has no value for the name
  (`src/XrdHdfsChecksum.cc:209-212`, `src/XrdHdfsChecksum.cc:229-233`): the exact condition is in
  `XrdHdfs.ChecksumManager.Get`. The file that `Calc` leaves behind without `do_set` will do (`EndToEnd.GetAfterCalc`): two
  calls that only ask lose the data (`EndToEnd.CalcThenGet`). A malformed file or a missing one never does
  (`EndToEnd.GetFromRecord`, `EndToEnd.GetWithoutRecord`).
- `Open` tests and installs the handle outside the mutex under which it empties the window (`src/XrdHdfs.cc:420-481`): when
  two opens overlap, a read can be given an octet of a file that is no longer open (`ConcurrentOpens.OverlapServesStale`).
  When none do, whatever else overlaps, no read is (`ConcurrentOpens.NoStaleOctet`).
- `Set` does not write when any entry of the name has the value already (`src/XrdHdfsChecksum.cc:361-383`): with repeated
  names an update can be lost (`SidecarMap.LostUpdate`); `SidecarMap.SetFoundIff` says exactly when.
- `Calc` stores its result whatever `do_set` says, and without `do_set` it replaces all recorded checksums by one
  (`src/XrdHdfsChecksumCalc.cc:330-400`, `EndToEnd.CalcForgetsOthers`).
- `SetMultiple` reports success on a file that is cut short (`src/XrdHdfsChecksum.cc:430-434`) exactly when the library
  answers 0 to a non-empty write before it has taken the whole text and before any rejection
  (`XrdHdfs.OutcomeByReplies`; one such answer is enough: `SequentialWrites.StallCutsShort`).
- A write out of order returns the current errno, and ENOTSUP only if errno holds that (`EndToEnd.OutOfOrderCodeIff`);
  `Write` passes the library's negative result on where its comment announces -errno (`src/XrdHdfs.cc:729-748`,
  `src/XrdHdfs.cc:1314-1316`).
- `GetFileContents` shows a file through C strings: it returns the file exactly when it holds no NUL
  (`src/XrdHdfsChecksum.cc:77-82`), and any other without an error (`EndToEnd.NulIsLost`).

## Model

| member | source | states |
|---|---|---|
| CrcTable.TableEntry | src/XrdHdfsChecksumCalc.cc:20-74 | each of the 256 table constants is what eight shift-and-conditional-xor steps with 0x04c11db7 make of its index |
| CrcTable.UnmaskedIndex | src/XrdHdfsChecksumCalc.cc:239 | the index that is not masked is below 256 and the same as the masked one |
| CrcDivision.RegisterCong | src/XrdHdfsChecksumCalc.cc:179-182 | after any bits, from any start, the register is congruent modulo the generator to everything fed to it |
| CrcDivision.TableStepIsEightBits | src/XrdHdfsChecksumCalc.cc:180 | for every running value and octet, one table look-up equals eight register steps |
| PosixCksum.LengthSuffixIff | src/XrdHdfsChecksumCalc.cc:236-240 | the length octets are the one and only shortest sequence that holds the length, least significant first; a zero octet stands for the empty file's |
| PosixCksum.CksumIsPosix | src/XrdHdfsChecksumCalc.cc:231-242 | for every file and every length suffix the standard allows, the final value is the complement of the one and only remainder of M(x) x^32 divided by the generator, as IEEE Std 1003.1 defines it, the empty file included |
| PosixCksum.BurstChangesRegister | src/XrdHdfsChecksumCalc.cc:174-183 | two bit strings that differ only within 32 consecutive bits leave different registers |
| PosixCksum.BurstDetected | src/XrdHdfsChecksumCalc.cc:174-183 | two files of equal length that differ only within 32 consecutive bits have different checksums |
| PosixCksum.FourOctetBurstDetected | src/XrdHdfsChecksumCalc.cc:231-242 | so have two that differ only within four consecutive octets |
| Zlib.AdlerIsRfc1950 | src/XrdHdfsChecksumCalc.cc:170-173 | the running Adler-32 is the pair of sums of RFC 1950, reduced once at the end |
| Zlib.Adler32Concat | src/XrdHdfsChecksumCalc.cc:170-173 | it does not depend on how the octets are cut |
| Zlib.Crc32RightIffStartZero | src/XrdHdfsChecksumCalc.cc:92-101 | the CRC-32 of every file is right if and only if the uninitialised start was 0 |
| Crc32Division.Crc32IsRfc1952 | src/XrdHdfsChecksumCalc.cc:184-187 | for every file the CRC-32 from a start of 0 is the one word whose mirrored, complemented polynomial is the remainder of the preset register and the file's bits, lowest first, by the generator of `cksum` |
| Bytes.HexAt | src/XrdHdfsChecksumCalc.cc:77-89 | octet i is printed as the characters of "0123456789abcdef" for its higher and its lower half, in this order |
| Bytes.HexRoundTrip | src/XrdHdfsChecksumCalc.cc:77-89 | hexadecimal text can be stored and gives the octets back |
| Bytes.DecimalIff | src/XrdHdfsChecksumCalc.cc:137-141 | a number is printed as its one decimal numeral without leading zeros |
| Bytes.NetworkOrderIs | src/XrdHdfsChecksumCalc.cc:146-152 | the octets after `htonl`, put together most significant first, are the word |
| Checksums.HumanReadableEvp | src/XrdHdfsChecksumCalc.cc:77-89 | the loop prints two digits for each octet in order |
| Checksums.CksumBytes | src/XrdHdfsChecksumCalc.cc:174-183 | the loop of `Update` continues the checksum over the slice |
| Checksums.CksumLength | src/XrdHdfsChecksumCalc.cc:231-242 | the loop of `Finalize` feeds in exactly the length octets |
| Checksums.PrintGraft | src/XrdHdfsChecksumCalc.cc:263-282 | the printing loops produce the graft of the chunk list, or of the whole file when there are fewer than two chunks |
| Checksums.ChecksumState.constructor | src/XrdHdfsChecksumCalc.cc:92-115 | nothing absorbed; CRC-32 starts from whatever was in memory |
| Checksums.ChecksumState.Update | src/XrdHdfsChecksumCalc.cc:166-219 | afterwards every field is the function of the whole stream that `Running` says, whatever the slices |
| Checksums.ChecksumState.UpdateChunks | src/XrdHdfsChecksumCalc.cc:192-218 | chunk list, partial count, open context and file context are those of the whole stream, also when one slice spans many chunks |
| Checksums.ChecksumState.Finalize | src/XrdHdfsChecksumCalc.cc:222-284 | every digest asked for is the digest of the stream |
| Checksums.ChecksumState.Get | src/XrdHdfsChecksumCalc.cc:135-164 | the text of the first requested digest of the stream |
| Checksums.SlicingIndependent | src/XrdHdfsChecksumCalc.cc:166-219 | two states that are fed any two cuttings of the same octets agree in every running value, CRC-32 excepted unless its start was the same |
| Checksums.SlicedDigests | src/XrdHdfsChecksumCalc.cc:135-284 | from any two cuttings to the text `Get` returns: the digest of the concatenation, the same for both, CRC-32 excepted unless its start was the same |
| Checksums.SameDigests | src/XrdHdfsChecksumCalc.cc:135-164 | finalized states that absorbed the same octets agree in every text they give, CRC-32 excepted unless its start was the same |
| Checksums.AdlerTextReads | src/XrdHdfsChecksumCalc.cc:149-153 | the ADLER32 text of every file is eight hexadecimal digits that read as the two sums of RFC 1950 |
| Checksums.CksumTextReads | src/XrdHdfsChecksumCalc.cc:137-141 | the CKSUM text is the decimal numeral of the POSIX checksum |
| Cvmfs.ChunkCompletes | src/XrdHdfsChecksumCalc.cc:197-215 | octets that fill a chunk add one entry with its offset and the SHA-1 of exactly that slice |
| Cvmfs.TailGrows | src/XrdHdfsChecksumCalc.cc:216-217 | octets that do not fill one only lengthen the open tail |
| Cvmfs.TilesIffCovered | src/XrdHdfsChecksumCalc.cc:252-282 | for every digest function and file, the listed chunks tile the file with right digests if and only if there are fewer than two full chunks, or no tail, or the tail does not change the digest of the last chunk |
| Cvmfs.TilesForEveryDigest | src/XrdHdfsChecksumCalc.cc:252-282 | so only the sizes with fewer than two full chunks or no tail are safe under every digest function |
| Cvmfs.IntendedListTiles | src/XrdHdfsChecksumCalc.cc:252-259 | with the trailing chunk recorded they tile every file |
| Cvmfs.GraftPlain | src/XrdHdfsChecksumCalc.cc:263-282 | a graft can be stored as a checksum value |
| GraftReading.GraftSays | src/XrdHdfsChecksumCalc.cc:263-282 | split at its separators, the graft text of every file says exactly its size, SHA-1, and the offsets and digests of the listed chunks |
| ReadAhead.FillRight | src/XrdHdfs.cc:653-670 | under every pattern of short reads, interruptions and errors the buffer ends with true octets, and without error it is full or at the end of the file |
| ReadAhead.ReadStepRight | src/XrdHdfs.cc:587-691 | one read keeps the window true to the file, after errors too, and delivers what a plain read would: exactly the available octets if the request fits the buffer |
| ReadAhead.ReadSucceeds | src/XrdHdfs.cc:657-670 | short reads and interruptions alone never make a buffered read fail |
| ReadAhead.NoFaultNoError | src/XrdHdfs.cc:612-623 | without real faults a read of any size succeeds or is interrupted |
| ReadAhead.ErrorUsesReply | src/XrdHdfs.cc:657-670 | every error is an answer of the library, so retrying ends |
| ReadAhead.ReadReportsFault | src/XrdHdfs.cc:612-670 | a read that fails for good returns the code of the first real fault to come, and no other read hides one |
| ReadAhead.HitAsksNothing | src/XrdHdfs.cc:625-633 | a request that lies in the window is served from it without asking the library |
| ReadAhead.AsksBehindWindow | src/XrdHdfs.cc:635-656 | a request that starts in the window has the library asked only for what lies behind it |
| ReadAhead.ReadsAhead | src/XrdHdfs.cc:653-670 | after a buffered read that asked the library, no later read of the next 32 KiB behind it asks again |
| ReadAhead.RunRight | src/XrdHdfs.cc:431-452 | in every run of opens, reads and closes each read delivers octets of the file open at that moment |
| ReadAhead.RunOfNewObject | src/XrdHdfs.cc:361-367 | in particular from a new object on |
| ConcurrentReads.StepKeepsInv | src/XrdHdfs.cc:607-610 | no action of any thread breaks the invariant of the shared window |
| ConcurrentReads.ThreadsReadAlone | src/XrdHdfs.cc:607-690 | under every interleaving of any number of threads, each returned read is that of a lone reader in the order of the mutex, and right; when the mutex is free the window is the lone reader's |
| ConcurrentReads.HolderEnds | src/XrdHdfs.cc:653-670 | from every reachable state the thread that holds the mutex can go on until it has its result and the mutex is free, whatever the library answers |
| ConcurrentReads.ReadCanEnd | src/XrdHdfs.cc:607-690 | from a free mutex on every request of every idle thread can be served, with the lone reader's result |
| ConcurrentReads.MutexNeeded | src/XrdHdfs.hh:141-144 | without waiting for the mutex a thread can be given the octet of another position |
| ConcurrentOpens.StepKeepsInv | src/XrdHdfs.cc:419-481 | while at most one thread is inside `Open`, no action of an opening, closing or reading thread breaks the invariant of handle, window and readers |
| ConcurrentOpens.NoStaleOctet | src/XrdHdfs.cc:419-481 | under every interleaving of opens, closes and reads in which no two opens overlap, every returned read is right for the file installed last |
| ConcurrentOpens.OverlapServesStale | src/XrdHdfs.cc:419-481 | two overlapping opens and a read between them make a later read return an octet of the other file |
| XrdHdfs.HdfsFile.Open | src/XrdHdfs.cc:387-507 | succeeds exactly when nothing is open and the library grants it, with the exact code otherwise; leaves an empty window and, for writing outside /cksums, a fresh checksum state; the write position is not touched |
| XrdHdfs.HdfsFile.OpenHandle | src/XrdHdfs.cc:456-499 | opening for writing creates or empties the file; a failed open changes no file and its code tells a lost connection, a directory, an existing and a missing file apart |
| HdfsWorld.OpenErrorIs | src/XrdHdfs.cc:481-499 | a failed open says ENOENT exactly when there is no such path, EISDIR exactly for a directory and EEXIST exactly for a file |
| XrdHdfs.HdfsFile.Read | src/XrdHdfs.cc:587-691 | result, window, caller's buffer and remaining replies are those of `ReadStep`, which are right |
| XrdHdfs.HdfsFile.Refill | src/XrdHdfs.cc:653-670 | the loop ends with the buffer, code and replies of `Fill` |
| XrdHdfs.HdfsFile.Write | src/XrdHdfs.cc:713-749 | out of order: nothing changes; in order: the accepted prefix is appended, the position moves by it, and all octets are digested |
| XrdHdfs.HdfsFile.Close | src/XrdHdfs.cc:513-572 | the object is reset and the code is the library's; a successful close of a written file stores exactly the digests of what was digested, a failed one nothing |
| SequentialWrites.DigestsContentIffFull | src/XrdHdfs.cc:734-746 | over any calls and answers, digested octets and content agree if and only if no call in order was short; position and content grow together |
| SequentialWrites.RetryDigestsTwice | src/XrdHdfs.cc:740-746 | a retried write is digested twice |
| SequentialWrites.SessionServedIff | src/XrdHdfs.cc:734-741 | over any run of sessions of one object, a client that writes from the start is served if and only if no earlier session stored an octet; otherwise all its calls are rejected and the file is empty |
| SequentialWrites.WriteLoopRight | src/XrdHdfsChecksum.cc:415-434 | how the loop ends depends on the first reply that stops it and on how much the library takes before: complete, cut short without an error, or rejected with that code; what is stored is exact too |
| SequentialWrites.StallCutsShort | src/XrdHdfsChecksum.cc:430-434 | one answer of 0 and nothing is stored without an error |
| SequentialWrites.WriteLoopSucceeds | src/XrdHdfsChecksum.cc:415-430 | interruptions and non-empty short writes never keep the text from being stored completely |
| Sidecar.PrintAll | src/XrdHdfsChecksum.cc:392-403 | the printing loop prints the list line by line |
| Sidecar.Parse | src/XrdHdfsChecksum.cc:99-150 | the loop ends on every text with the code and entries of the recursive reading |
| Sidecar.ParseIffReads | src/XrdHdfsChecksum.cc:99-150 | parsing succeeds with a list if and only if the text reads as it by a grammar of words, colons and newlines, and reports -EIO if and only if it reads as none |
| Sidecar.PrintShortest | src/XrdHdfsChecksum.cc:392-403 | the print of a list is the one shortest text of whole lines that reads as it |
| Sidecar.PrintReads | src/XrdHdfsChecksum.cc:392-403 | the print of storable entries is such a text |
| Sidecar.ParseUndoesPrint | src/XrdHdfsChecksum.cc:108-149 | parsing the print of storable entries gives them back in order, names in upper case |
| Sidecar.ParsedStorable | src/XrdHdfsChecksum.cc:110-131 | everything `Parse` finds, also before an error, can be stored |
| Sidecar.RoundTripIffStorable | src/XrdHdfsChecksum.cc:99-150 | printing and parsing a list gives it back, names in upper case, if and only if every entry is storable |
| Sidecar.ReprintStable | src/XrdHdfsChecksum.cc:392-403 | reading, printing and reading again changes only the case of names, and a second print nothing |
| SidecarMap.Find | src/XrdHdfsChecksum.cc:198-207 | the loop ends with the value of the last entry of that name in any case |
| SidecarMap.LookupIs | src/XrdHdfsChecksum.cc:198-207 | the value found is that of the last entry of the name, and nothing if there is none |
| Sidecar.SameNameIff | src/XrdHdfsChecksum.cc:203 | names are the same if and only if they differ at most in the case of letters |
| Sidecar.UpperTextIs | src/XrdHdfsChecksum.cc:397-400 | the stored form of a name is the name in another case, without lower-case letters |
| SidecarMap.Update | src/XrdHdfsChecksum.cc:345-383 | the loop ends with the upserted list, and the flag that says whether no entry of the name had the value |
| SidecarMap.LookupUpsert | src/XrdHdfsChecksum.cc:352-378 | in the list to be written the name, in any case, finds the value and every other name what it found before |
| SidecarMap.SetStoresAfterSet | src/XrdHdfsChecksum.cc:329-386 | the file after `Set`, rewritten or not, parses to `AfterSet` |
| SidecarMap.SetFoundIff | src/XrdHdfsChecksum.cc:361-383 | after `Set` the name finds the value if and only if the file was rewritten or already mapped the name to it |
| SidecarMap.SetOnDistinctNames | src/XrdHdfsChecksum.cc:329-386 | on distinct names `Set` is a map update: value found, other names and order kept, names still distinct |
| SidecarMap.LostUpdate | src/XrdHdfsChecksum.cc:361-383 | a file with a repeated name on which `Set` has no effect |
| NamedDigests.NamedReadBack | src/XrdHdfsChecksumCalc.cc:298-324 | what is printed for a file's digests parses to exactly those digests |
| NamedDigests.NamedLookup | src/XrdHdfsChecksumCalc.cc:298-324 | each name, in any case, finds its own digest |
| XrdHdfs.OutcomeByReplies | src/XrdHdfsChecksum.cc:405-434 | storing a text succeeds completely, reports success on a file cut short, or fails, each exactly under its condition on the replies |
| XrdHdfs.ChecksumManager.SetMultiple | src/XrdHdfsChecksum.cc:389-435 | if the checksum file can be opened it holds what the write loop stored of the printed list; if not, nothing has happened |
| XrdHdfs.ChecksumFilenameInjective | src/XrdHdfsChecksum.cc:163-171 | different files have different checksum files |
| XrdHdfs.InCksumsIff | src/XrdHdfs.cc:501-504 | no checksum state is made for paths that start with /cksums, and only for these |
| XrdHdfs.ChecksumManager.StoreText | src/XrdHdfsChecksum.cc:415-430 | the retry loop stays at the file's write position and stores what `WriteLoop` says |
| XrdHdfs.ChecksumManager.StateValues | src/XrdHdfsChecksumCalc.cc:301-321 | one entry for each digest of the state |
| XrdHdfs.ChecksumManager.GetFileContents | src/XrdHdfsChecksum.cc:47-96 | the text returned is NUL-free, and the file if and only if that is; the code of a failure is that of the open or of the first real fault while reading, and interruptions are none |
| XrdHdfs.ChecksumManager.Get | src/XrdHdfsChecksum.cc:173-233 | the looked-up value, or the exact code for a missing, unreadable, malformed or silent file and for a value that is too long; the data file is removed exactly when the checksum file has no value for the name and the library deletes it, and otherwise no file changes |
| XrdHdfs.ChecksumManager.Set | src/XrdHdfsChecksum.cc:329-386 | the file is left alone, with the exact code, when it cannot be read or parsed and when an entry has the value already, and else the upserted list is stored |
| XrdHdfs.ChecksumManager.Calc | src/XrdHdfsChecksumCalc.cc:327-428 | a file read to its end gives and stores the digests of all its octets, whatever the short reads and interruptions; otherwise nothing is stored; all codes |
| XrdHdfs.RequestedIff | src/XrdHdfsChecksumCalc.cc:336-355 | a name asks for a digest if and only if it is that digest's name in some case |
| XrdHdfs.ChecksumManager.FeedFile | src/XrdHdfsChecksumCalc.cc:373-389 | under any short reads and interruptions every octet is fed once and in order |
| EndToEnd.RecordedIsDigest | src/XrdHdfsChecksumCalc.cc:298-324 | after storing and parsing, a name in any case finds its digest if it was asked for, and else nothing |
| EndToEnd.BurstShowsInRecord | src/XrdHdfsChecksumCalc.cc:302-305 | files that differ only within four consecutive octets have different recorded CKSUM entries |
| EndToEnd.RecordedCrc32RightIff | src/XrdHdfsChecksumCalc.cc:311-313 | the recorded CRC32 is right if and only if the uninitialised memory held 0 |
| EndToEnd.CalcForgetsOthers | src/XrdHdfsChecksumCalc.cc:330-400 | without `do_set` only the requested digest is on record afterwards |
| EndToEnd.StoreAndReadBack | src/XrdHdfs.cc:554-564 | slices written in full, closed and recorded: the file is their concatenation and the record parses to exactly its digests; it succeeds when the library grants everything |
| EndToEnd.SetThenGet | src/XrdHdfsChecksum.cc:329-386 | `Set` and then `Get` in any case of the name gives the value that was set if and only if the file was rewritten or said so already, on distinct names always |
| EndToEnd.CalcRecords | src/XrdHdfsChecksumCalc.cc:327-428 | `Calc` of a name in any case returns the digest that name means, and the record has under every name its digest, or nothing if `Calc` was not to set it |
| EndToEnd.GetFromRecord | src/XrdHdfsChecksum.cc:173-226 | what `Get` returns and removes, by what the file says: a malformed file gives -ESRCH and keeps everything, one with an entry of the name its value, and only a well-formed one without it has the data file removed |
| EndToEnd.SetOnMalformed | src/XrdHdfsChecksum.cc:329-343 | `Set` on a malformed file gives -EIO and changes nothing |
| EndToEnd.GetWithoutRecord | src/XrdHdfsChecksum.cc:184-188 | without a checksum file `Get` gives -ESRCH and removes nothing |
| EndToEnd.OpenAndWrite | src/XrdHdfs.cc:387-748 | an object in any state that is opened for writing stores a first write at 0 if and only if its write position is 0 and the library takes an octet; otherwise the emptied file stays empty |
| EndToEnd.ReopenLosesData | src/XrdHdfs.cc:361-367 | even if everything is granted, writing, closing, opening again and writing leaves the file empty and the second write rejected |
| EndToEnd.GetAfterCalc | src/XrdHdfsChecksum.cc:209-212 | on a checksum file that holds one digest only, asking for another, in any case of its name, returns -ESRCH and removes the data file and nothing else |
| EndToEnd.CalcThenGet | src/XrdHdfsChecksumCalc.cc:327-428 | on a library that grants everything, `Calc` of one digest without `do_set` and then `Get` of another: the data file is gone |
| EndToEnd.NulIsLost | src/XrdHdfsChecksum.cc:77-82 | every checksum file with a NUL is read without an error and not as it is |

## Left out

- The HDFS, JVM, OpenSSL and XRootD libraries beyond the contracts above; MD5 and SHA-1 stay arbitrary functions.
- What `Unlink` answers: `Del` and `Get` ignore it. Only whether the file is gone is part of the model.
- `Ver`, `List`, `Name`, `Size`, `Config`, `Init`, and the default digest name of `Get`: thin, or made of library types.
- `XrdCksData` is a name and a value text; its conversion to and from binary is not part of this model.
- The branches for a missing `g_hdfs_oss` or a failing `newFile`.
- Path translation by a name-to-name plug-in: the path is used as given.
- Directory operations, `Stat`, `Fstat`, `Chmod`, `Mkdir`, `Rename`, `Unlink`, `Create`, `Truncate`, the connection map.
- The read-ahead counters and the statistics line of `Close`.
- The effects of logging: in particular errno is taken to survive `Emsg`.
- Offsets and lengths near 2^63: they are unbounded naturals here.
- Writing to a file that is open for reading in another object: HDFS files are written once.
- Races of `Open` and `Close` on anything but the handle and the window: `fname`, `m_state` and the filesystem handle.
- XrdHdfs.HdfsFile.Close: the statement about stored digests ends at what the write loop stored; when that is the whole text is `XrdHdfs.OutcomeByReplies`.
- CrcTable.CrcTab: the constant array is a total function on octets, sixteen constants to a row.
