# Verified models of the client's transfer, transport, tools and local-state code

This project models the parts of the repository whose correctness no finite set of examples settles, and
proves what they are for. Loops, classes and arrays of the source are loops, classes and arrays here; each
method is tied to a function of its inputs or of the old state, and the lemmas are about those functions.

- **Resumable download and upload.** `ChunkStore` is the durable table of encrypted chunks with its one
  checkpoint row, `Download` the receive session over it (metadata, chunks, key, acknowledgement, a crash
  anywhere), `Upload` the negotiation check and the sending loop. The main result is `Download.WholeRun`:
  over any number of sessions, each cut short anywhere, resumed from the persisted hint and served by a server
  that seals one plaintext, every session that reports success has written exactly that plaintext.
  `DownloadChecks` gives each check of a session an exact meaning of its own, up to when an attempt succeeds.
- **Byte codecs, ciphers, a generator and a hash.** `Base91`, `Ascii85`, `BaseN` (Base58 and Base62), `Adfgvx`,
  `Matrix` (the 7x7 address matrix), `MersenneTwister`, `SeedWords` and `Sha256`. `Base91` is stated on bit
  strings (`BitStrings`), the radix codecs on digits of one integer, the generator on its two-argument
  recurrence, the hash on the equations of FIPS 180-4. `MersenneSeeding` shows what seeding keeps of its key,
  `Ascii85Grammar` which texts decode; `AdfgvxLayout`, `MatrixExample`, `Sha256Example` and `KnownAnswers` fix tables,
  constants and the order of digits.
- **Frame multiplexer.** `Frame` is the wire format, `Connector` the dispatch loop as a state machine over
  incoming frames, local openings and conclusions, receivers going away and the end of the connection.
- **Registries and queues.** `ConnectAttempts` is the cancel, supersede and claim race, with the id drawn
  outside the lock; `UploadScheduler` the bounded upload queue, with what each event does in `UploadEvents`.
- **Trees and paths.** `LocalDataReset` clears directories around protected paths and retries across crashes, over
  the trees of `ResetTree`, the marker file of `ResetMarker` and the names of `DownloadLeftovers`; `ResetChecks`
  says path by path what a reset leaves;
  `JsonPointer` is escaping, path matching and local reference resolution (sections 3 and 4 of RFC 6901).

`Arithmetic`, `BigEndian`, `Alphabets` and `Outcomes` hold what several of these share.

## What holds only under a condition

Each of these is stated with its exact condition, for all inputs or all runs, and most with a concrete failing case.

- `Sha256`: the source's 32-bit shifts give the padded length of section 5.1.1 of FIPS 180-4 exactly for inputs
  shorter than 2^31 - 72 bytes; for every longer input the buffer cannot be made or cannot hold the input
  (`SourceLengthExact`, `SourceLengthFails`).
- `SeedWords`: "Seed exactly like CPython" (plugins/tools/src/matrix.ts:21) holds of the key words exactly when there
  is only one or the bytes of the topmost are not all zero (`MatchesCPython`); for the text of four NUL characters
  there is a zero word CPython does not have (`SurplusWord`).
- `Adfgvx`: decoding loses the trailing letters A of the plaintext and nothing else (`RoundTrip`); the text
  comes back whole exactly when it does not end in A (`LosesOnlyTrailingA`), and "A" is lost whole (`SingleAIsLost`).
- `ConnectAttempts`: ids rise in the order they are drawn, not in the order they take the slot. In a run, an attempt
  is superseded by one with an older id exactly when a smaller id was pending as it was installed and is installed
  before it leaves the slot by winning, being unregistered or being replaced (`SupersededByOlder`); it is safe from
  that in every continuation exactly when no smaller id is pending (`SafeExactlyWithoutPending`). The shortest
  failing run is `OlderMaySupersede`. An attempt that lost its place never wins in any case (`RetiredNeverWins`).
- `LocalDataReset`: putting the download directory on the protected list protects it from clearing a root
  exactly when that root is not the download directory and not inside it (`ProtectionNeedsRootOutside`).
- `ResetMarker`: a retry keeps a readable request exactly unless reading it fails although it is there and the
  rewriting then either stops before the rename, which leaves no request, or goes through, which drops an order to
  delete downloads (`RequestKept`; `LostBeforeRename` and `WeakenedByFailedRead` are the failing cases). Scheduling
  over an existing marker leaves none exactly when it stops before the rename (`ScheduledExactly`).
- `JsonPointer`: a reference that is not part of a cycle gives the record at its path exactly when the path is not
  empty or there is no such record, because `#` alone is refused (`ReferenceExact`).
- `Download`: metadata that differs from what an unfinished download started with is refused with the store left
  as it is, also on every later attempt with the same metadata (`ChangedMetadataRefused`).

## Model

| member | source | states |
|---|---|---|
| Download.WholeRun | crates/transfer/src/download.rs:144-502 | over any sequence of sessions from an empty store, cut off at any message or crash point and resumed from the persisted hint, the store stays good, every reported success has written exactly the server's plaintext, and the chunk indices accepted into the present store are 0, 1, 2, ... each once |
| DownloadChecks.SuccessExactly | crates/transfer/src/download.rs:144-502 | with the server honest, an attempt from a good store succeeds if and only if it does not crash, its metadata passes the checks and keeps the stored chunk size, and it delivers each missing chunk in full and in turn, a 32-byte key and the acknowledgement |
| Download.StepKeeps | crates/transfer/src/download.rs:254-502 | one attempt from a good store leaves a good store, accepts only the next indices in turn, and loses nothing it had unless the plaintext is on disk |
| Download.PlanKeeps | crates/service/src/services/download_queue.rs:1165-1191 | a good store is never discarded when an attempt is planned, and the planned offset is zero exactly when nothing is stored; `PlanPasses` and `PlanLimit` say the rest of the plan |
| Download.PlanPasses | crates/service/src/services/download_queue.rs:1165-1191 | whatever the user prefers by now, the planned limit allows the stored chunk size and the stored metadata passes the checks again, at the next chunk |
| Download.PlanLimit | crates/service/src/services/download_queue.rs:1165-1191 | a chunk size is within the planned limit exactly when it is within the wanted one, the stored or else the preferred size, brought into the range from 16 KiB to 2 MiB |
| Download.UnreadableStartsOver | crates/service/src/services/download_queue.rs:1165-1191 | a store that does not certify itself is discarded and the download starts over as if nothing were stored |
| Download.SessionKeeps | crates/transfer/src/download.rs:144-502 | whatever offset and chunk limit a session is given, it keeps the store good, and success means the whole plaintext was written |
| Download.SessionAccepts | crates/transfer/src/download.rs:288-362 | a session accepts a contiguous run of indices that starts where the store ends, and the store grows by exactly these unless it is purged after the plaintext was written |
| Download.ReceiveKeeps | crates/transfer/src/download.rs:288-362 | the receive loop advances the checkpoint by exactly the chunks it accepted, in order, and completes only when all are stored |
| Download.DecryptsPrefix | crates/transfer/src/decrypt.rs:27-39 | the rows of a good store open, in order, to the plaintext up to the resume offset |
| Download.DecryptsAll | crates/transfer/src/download.rs:417-477 | a complete good store decrypts to the whole plaintext |
| Download.ReportedIsOffset | crates/transfer/src/download.rs:343-348 | the loop's progress formula is the checkpoint's resume offset, rises strictly with every chunk and ends at the file size |
| Download.ResumePasses | crates/transfer/src/download.rs:199-262 | resuming at a checkpoint's own offset with unchanged metadata passes the bound and alignment checks and computes the same start chunk |
| Download.ResumeInitializes | crates/transfer/src/download.rs:258-275 | that start chunk passes the checkpoint initialisation and changes nothing |
| Download.CompleteTakesNoChunk | crates/transfer/src/download.rs:258-288 | once all chunks are stored, a retry accepts no chunk |
| Download.FullDeliverySucceeds | crates/transfer/src/download.rs:288-502 | an undisturbed session over the stored chunk size, or for a fresh store over one within the wanted size and the two bounds, that delivers the missing chunks, the key and the acknowledgement succeeds, writes the plaintext and purges the store |
| Download.ChangedMetadataRefused | crates/transfer/src/chunks.rs:149-183 | any other file size or chunk size than the stored checkpoint's ends the attempt with the disk unchanged |
| DownloadChecks.NegotiatedExactly | crates/transfer/src/download.rs:153-216 | metadata passes exactly when the limit is from 16 KiB to 2 MiB, the chunk size is within it, the announced pieces reach the end of the file and one fewer does not, and the offset is where a piece begins or the file ends; the session then starts at that piece |
| DownloadChecks.ReceiveExactly | crates/transfer/src/download.rs:288-362 | the loop takes messages as long as each is the next chunk with an 8-byte prefix, a 16-byte tag and its full length, stops at the first that is not, and completes exactly when none is missing |
| DownloadChecks.SuccessNeeds | crates/transfer/src/download.rs:144-502 | for any input and any server, success means every chunk, a 32-byte key and the acknowledgement came, and a file of the announced size was written |
| DownloadChecks.EmptyFileExactly | crates/transfer/src/download.rs:222-245 | an empty file succeeds exactly with its marker and the acknowledgement from offset 0, and touches nothing but the destination |
| DownloadChecks.NonceReads | crates/transfer/src/decrypt.rs:27-39 | a nonce is twelve bytes in which the prefix and the big-endian index can be read back |
| DownloadChecks.NoncesDistinct | crates/transfer/src/decrypt.rs:27-39 | two chunks share a nonce only if prefix and index are the same |
| Download.Client.ReceiveChunks | crates/transfer/src/download.rs:288-362 | the loop over the store object ends in the state, rest of input and verdict of the specification |
| Download.Client.DecryptAll | crates/transfer/src/download.rs:417-477 | one pass over the ordered rows writes the texts up to the first that does not open, and says whether all did |
| Download.Client.CompleteTransfer | crates/transfer/src/download.rs:367-502 | key, decryption, size check, acknowledgement and purge in the source's order, each crash point leaving the disk the specification says |
| Download.Client.ReceiveWithResume | crates/transfer/src/download.rs:144-502 | the whole session over the store object does to the disk exactly what the session function says, for every input and crash point |
| ChunkStore.HintCertifies | crates/transfer/src/chunks.rs:137-147 | from any table contents whatever, a returned hint means the stored indices are exactly the prefix, each of its expected length, and the offset is the number of bytes stored |
| ChunkStore.ConsistentHint | crates/transfer/src/chunks.rs:137-147 | conversely a consistent store gives a hint exactly when it has a checkpoint |
| DownloadChecks.ReadExactly | crates/transfer/src/chunks.rs:106-135 | a stored row stands for a checkpoint exactly if it is of version 1 and every column fits its type |
| DownloadChecks.ConsistentExactly | crates/transfer/src/chunks.rs:137-226 | tables with a checkpoint row give a hint exactly when the row can be read, its pieces cover the file, and the stored indices are those below the next, each of the length its place gives it |
| ChunkStore.ReachableConsistent | crates/transfer/src/chunks.rs:149-284 | every state reached by initialising and recording calls, failed ones included, is consistent |
| ChunkStore.InitializeKeeps | crates/transfer/src/chunks.rs:149-183 | initialising keeps consistency and on success leaves the requested checkpoint |
| DownloadChecks.InitializeExactly | crates/transfer/src/chunks.rs:149-183 | a consistent store takes a checkpoint exactly if it has that one already, or has none and the new one covers the file and starts at the beginning; a refusal changes nothing |
| ChunkStore.RecordKeeps | crates/transfer/src/chunks.rs:238-284 | recording keeps consistency |
| ChunkStore.RecordAcceptsNext | crates/transfer/src/chunks.rs:238-284 | a chunk is accepted if and only if it is the next one and has its length; a refused one changes nothing |
| ChunkStore.PrefixBytes | crates/transfer/src/chunks.rs:200-226 | the bytes of the first n stored chunks are the resume offset at n |
| ChunkStore.OffsetAdvances | crates/transfer/src/chunks.rs:46-48 | the resume offset grows by the expected length of the next chunk |
| ChunkStore.ChunkStartsInside | crates/transfer/src/chunks.rs:228-236 | every chunk of a well-shaped checkpoint starts inside the file and is not empty, so the length arithmetic neither underflows nor overflows |
| ChunkStore.ChunkDb.ValidateStoredPrefix | crates/transfer/src/chunks.rs:200-226 | the counting loop over the rows accepts exactly the tables whose rows are the prefix with the expected lengths |
| ChunkStore.ChunkDb.ReadResumeHint | crates/transfer/src/chunks.rs:137-147 | returns the specified hint or refusal for any contents |
| ChunkStore.ChunkDb.InitializeCheckpoint | crates/transfer/src/chunks.rs:149-183 | new tables and result as specified, for any contents |
| ChunkStore.ChunkDb.RecordChunk | crates/transfer/src/chunks.rs:238-284 | both tables change together or not at all |
| ChunkStore.ChunkDb.OrderedChunks | crates/transfer/src/chunks.rs:301-339 | every row once, in strictly rising index order |
| Upload.ValidateNegotiation | crates/transfer/src/upload.rs:159-205 | accepts exactly a matching size, a chunk size within the limit, and an offset that is at the end or aligned and covered by resume support |
| Upload.SendChunks | crates/transfer/src/upload.rs:101-120 | the payloads are those of the cutting function; they are the file from the offset to its size, none empty, all but the last full, every boundary on a multiple of the chunk size; a file that has shrunk ends in an error after a prefix |
| Upload.BoundaryMultiple | crates/transfer/src/upload.rs:101-120 | in any such cutting from an aligned offset, payload i starts at offset plus i chunk sizes |
| Upload.ServerHoldsPrefix | crates/transfer/src/upload.rs:60-127 | over any run of accepted negotiations at the server's offset, each cut off anywhere and over a file that may have shrunk, what the server holds only grows and is always a prefix of the file |
| Upload.SessionExtends | crates/transfer/src/upload.rs:101-205 | one session leaves a prefix aligned to its chunk size or the whole file, and the whole file exactly when it was there already or everything was read and kept |
| Upload.NextIsAcceptable | crates/transfer/src/upload.rs:159-205 | with the chunk size unchanged, the next negotiation at the server's offset passes validation, resume support given |
| Upload.UncutSessionCompletes | crates/transfer/src/upload.rs:101-120 | after any run of interrupted sessions, one that is not cut off leaves the server with the whole file |
| Base91.RoundTrip | plugins/tools/src/base.ts:186-238 | decoding the encoding returns the bytes, for every byte string and every alphabet of 91 distinct characters |
| Base91.RoundTripFrom | plugins/tools/src/base.ts:191-238 | the same from any pair of buffer states the two loops can be in, with the bits in flight accounted for |
| Base91.GroupFits | plugins/tools/src/base.ts:193-227 | a full buffer yields a group below 91 squared, and the decoder picks the same width of 13 or 14 bits from it |
| Base91.WidestGroup | plugins/tools/src/base.ts:193-200 | a group takes 14 bits exactly when it stays below 91 squared even with the 14th bit set |
| KnownAnswers.Base91Test | plugins/tools/src/base.ts:186-212 | "test" is written "fPNKd" |
| Base91.DecodeFails | plugins/tools/src/base.ts:219-221 | decoding fails exactly on texts with a character outside the alphabet |
| Base91.StandardRoundTrip | plugins/tools/src/base.ts:16-17 | the source's alphabet has 91 distinct characters, so the round trip holds for it |
| Base91.EncodeBytes | plugins/tools/src/base.ts:186-212 | the loop over accumulator b and bit count n writes the encoding of the bit string |
| Base91.DecodeBytes | plugins/tools/src/base.ts:214-238 | the loop over v, b and n returns the specified bytes or the first foreign character |
| Ascii85.RoundTrip | plugins/tools/src/base.ts:69-130 | decoding the encoding returns the bytes, for every length |
| Ascii85Grammar.DecodesExactly | plugins/tools/src/base.ts:100-130 | decoding succeeds if and only if the text is, but for white space, whole groups and at most one cut group at the end, all worth 32-bit numbers, and gives their bytes in turn |
| Ascii85Grammar.OthersRefused | plugins/tools/src/base.ts:104-123 | five white space characters are skipped wherever they stand, and every other character but the digits and z makes a text undecodable |
| KnownAnswers.Ascii85Man | plugins/tools/src/base.ts:69-98 | "Man " is written "9jqo^" |
| Ascii85.FillKeepsLeadingBytes | plugins/tools/src/base.ts:93-114 | a cut last group filled with u never overflows 32 bits and keeps its leading bytes |
| Ascii85.SurplusIsCovered | plugins/tools/src/base.ts:103-129 | on every text that scans, the bytes to be cut off at the end are there |
| Ascii85.GroupDecodes | plugins/tools/src/base.ts:76-117 | a full group, written as five digits or as z, scans back to its four bytes |
| Ascii85.SpaceIgnored | plugins/tools/src/base.ts:118-120 | white space anywhere changes nothing |
| Ascii85.EncodeBytes | plugins/tools/src/base.ts:69-98 | padding, the chunk list with its cut last chunk, and joining give the specified text, so z is never cut |
| Ascii85.DecodeBytes | plugins/tools/src/base.ts:100-130 | the digit loop returns the specified bytes or failure |
| BaseN.DecodeEncode | plugins/tools/src/base.ts:146-180 | decoding the encoding returns the bytes, leading zeros included, for any alphabet of at least two distinct characters |
| BaseN.EncodeDecode | plugins/tools/src/base.ts:146-180 | decoding succeeds exactly on texts over the alphabet, and encoding its result returns the text |
| BaseN.EncodeExactly | plugins/tools/src/base.ts:146-161 | the encoding is the only text over the alphabet with the value of the bytes and as many zeros in front |
| KnownAnswers.Base58Carries | plugins/tools/src/base.ts:146-161 | the bytes 0, 58 are written "121" in Base58 |
| BaseN.ConvertInverse | plugins/tools/src/base.ts:146-180 | re-writing digits between two radixes with leading zeros carried over is its own inverse |
| BaseN.ValueOfDigits | plugins/tools/src/base.ts:136-144 | the digits taken off by repeated division have the value they came from |
| BaseN.StandardAlphabets | plugins/tools/src/base.ts:14-15 | the source's two alphabets qualify |
| BaseN.EncodeBytes | plugins/tools/src/base.ts:146-161 | shifting the bytes into one integer and dividing it down again gives the specified text |
| BaseN.IntToBytes | plugins/tools/src/base.ts:136-144 | the bytes are the base-256 digits without leading zeros |
| BaseN.DecodeText | plugins/tools/src/base.ts:163-180 | the multiply-and-add loop returns the specified bytes or the first foreign character |
| Adfgvx.RoundTrip | plugins/tools/src/ciphers.ts:443-504 | encoding succeeds exactly with a key, a square word and something to encode, and decoding then returns the filtered upper-case text without its trailing As |
| Adfgvx.LosesOnlyTrailingA | plugins/tools/src/ciphers.ts:452-503 | the text comes back whole if and only if it does not end in A |
| Adfgvx.SingleAIsLost | plugins/tools/src/ciphers.ts:503-503 | the text "A" decodes to nothing under every key and square word |
| Adfgvx.GridIsPermutation | plugins/tools/src/ciphers.ts:423-435 | for every key the grid holds each of the 36 symbols once |
| AdfgvxLayout.GridExactly | plugins/tools/src/ciphers.ts:423-435 | the grid is the only arrangement of the alphabet in the order of first occurrence in the upper-cased key word followed by the alphabet |
| AdfgvxLayout.KeyLettersFirst | plugins/tools/src/ciphers.ts:423-427 | the letters of the key word come before all others |
| AdfgvxLayout.EncodePlaces | plugins/tools/src/ciphers.ts:443-466 | for every order of the columns by the square word, symbol r of part p is the row, or at odd places the column, of the letter whose symbol stands in row r and column order[p] |
| AdfgvxLayout.EncodeLength | plugins/tools/src/ciphers.ts:452-466 | each column is full and the padding adds less than one letter for each column |
| AdfgvxLayout.KeepAppends | plugins/tools/src/ciphers.ts:450-450 | the characters of the alphabet are kept in order and all others dropped |
| AdfgvxLayout.UpperExactly | plugins/tools/src/ciphers.ts:444-450 | upper-casing changes the 26 small letters and nothing else |
| Adfgvx.OrderIsUnique | plugins/tools/src/ciphers.ts:437-441 | there is only one order of columns by letter with ties by position, so the stable sort is determined |
| Adfgvx.PadCount | plugins/tools/src/ciphers.ts:452-452 | the padding loop ends, after fewer letters than there are columns, with full rows |
| Adfgvx.PadCountLeast | plugins/tools/src/ciphers.ts:452-452 | no shorter padding fills the rows |
| Adfgvx.TransposeInverse | plugins/tools/src/ciphers.ts:487-496 | writing the columns back in order restores the rows |
| Adfgvx.TranspositionInverts | plugins/tools/src/ciphers.ts:458-496 | cutting the cipher text into columns and writing them back restores the symbols, after the decoder's own filtering |
| Adfgvx.StandardAlphabet | plugins/tools/src/ciphers.ts:34-35 | the source's alphabet and symbols qualify |
| Adfgvx.EncodeText | plugins/tools/src/ciphers.ts:443-466 | the loops give the specified cipher text or refusal |
| Adfgvx.DecodeText | plugins/tools/src/ciphers.ts:468-504 | the loops give the specified text or refusal |
| MersenneTwister.MT19937.Genrand | plugins/tools/src/matrix.ts:80-102 | the k-th output is the tempering of x(624+k) of the pure recurrence, however often the array was regenerated in place |
| MersenneTwister.MT19937.RebuildFromOld | plugins/tools/src/matrix.ts:83-86 | the first 227 words are replaced from old words only |
| MersenneTwister.MT19937.RebuildFromNew | plugins/tools/src/matrix.ts:87-90 | the next 396 words are replaced from words already new |
| MersenneTwister.MT19937.InitByArray | plugins/tools/src/matrix.ts:49-78 | the two wrapping mixing loops leave the specified seed state, from which the next output is the first; `MersenneSeeding.SeedingKeepsKey` says that it depends on every key word |
| MersenneSeeding.SeedingKeepsKey | plugins/tools/src/matrix.ts:49-78 | different keys of the same length, up to 621 words, lead to different states |
| KnownAnswers.KeyedRounds | plugins/tools/src/matrix.ts:49-74 | the first keying and finishing rounds for the key 0x123, 0x234, 0x345, 0x456 |
| KnownAnswers.FirstOutput | plugins/tools/src/matrix.ts:41-102 | the step of the seeding recurrence, the recombination and the tempering that give the first output 3499211612 for the seed 5489 |
| MersenneTwister.MT19937.InitGenrand | plugins/tools/src/matrix.ts:41-47 | the in-place fill is the linear recurrence |
| MersenneTwister.UntemperTemper | plugins/tools/src/matrix.ts:97-101 | tempering loses nothing: an explicit inverse recovers the state word |
| MersenneTwister.NeverDead | plugins/tools/src/matrix.ts:76-94 | from a state whose first word is 0x80000000 the recurrence never reaches the all-zero state |
| MersenneTwister.NeverStuck | plugins/tools/src/matrix.ts:49-102 | for every key, any 624 outputs in a row contain one that is not zero |
| SeedWords.KeyWords | plugins/tools/src/matrix.ts:26-37 | the nested loops cut the seed bytes into limbs, least significant first, short top limb included |
| SeedWords.LimbsAreInteger | plugins/tools/src/matrix.ts:22-39 | the limbs have the value of the bytes read as one big-endian integer |
| SeedWords.MatchesCPython | plugins/tools/src/matrix.ts:21-39 | the words are the key CPython derives from the integer if and only if there is one word only or the bytes of the top word are not all zero |
| SeedWords.SurplusWord | plugins/tools/src/matrix.ts:21-39 | four NUL bytes in front of a 64-byte rest give a word list CPython would not use |
| SeedWords.FromSeedBytes | plugins/tools/src/matrix.ts:22-39 | the generator starts from the state of these words, which is CPython's whenever they are |
| SeedWords.SeedsDiffer | plugins/tools/src/matrix.ts:22-78 | different seed bytes of the same length, up to 2484 of them, start different generators |
| KnownAnswers.WordInOrder | plugins/tools/src/matrix.ts:30-37 | a limb and its machine word are the same number |
| Sha256.SourceLengthExact | plugins/tools/src/sha.ts:74-77 | the shifted length equals the least padded length exactly below 2^31 - 72 bytes |
| Sha256.SourceLengthFails | plugins/tools/src/sha.ts:74-77 | at and above that it is less than the input's own length |
| Sha256.PaddedLengthIsLeast | plugins/tools/src/sha.ts:74-81 | the padded length is the least multiple of 64 with room for nine more bytes |
| Sha256.PadInjective | plugins/tools/src/sha.ts:74-81 | different inputs have different padded forms, within the standard's limit of 2^64 bits |
| Sha256.PadBytes | plugins/tools/src/sha.ts:74-81 | the buffer holds the input, 0x80, zeros and the bit length, high word first |
| Sha256.Schedule | plugins/tools/src/sha.ts:84-94 | the 64-word array is the schedule recurrence of section 6.2.2 of FIPS 180-4 |
| Sha256.RunRounds | plugins/tools/src/sha.ts:96-120 | the in-place rounds are 64 applications of the round function |
| Sha256.RegistersAreWindow | plugins/tools/src/sha.ts:105-120 | the eight registers are four steps of two sequences, so each round only computes the two new values |
| Sha256.HashBlocks | plugins/tools/src/sha.ts:83-130 | the loop over blocks is the chain of compressions from the initial hash value |
| Sha256.Sha256Bytes | plugins/tools/src/sha.ts:73-136 | a digest results exactly below 2^31 - 72 bytes and is the digest of section 6.2.2 of FIPS 180-4 with the source's 64 constants |
| Sha256Example.AbcDigest | plugins/tools/src/sha.ts:53-136 | the digest of "abc" with the source's constants is the published one |
| Sha256Example.ChainGoesOn | plugins/tools/src/sha.ts:83-130 | hashing further blocks goes on from where the blocks before have led |
| Matrix.RoundTrip | plugins/tools/src/matrix.ts:187-270 | decoding the encoding returns the octets and the port with valid true and distance 0, for every address, port and decoy fill |
| Matrix.ValidExactly | plugins/tools/src/matrix.ts:235-270 | a result is valid if and only if the grid is the encoding of some address in range but for its class row, and that row is nearer to the code word of the address's checksum than to any other |
| Matrix.RefusedExactly | plugins/tools/src/matrix.ts:236-248 | decoding is refused exactly for a grid not made of digits or a class row not made of bits |
| MatrixExample.KnownMatrix | plugins/tools/src/matrix.ts:123-215 | the matrix of 192.168.1.10:8080 over decoy cells that are all 7 |
| Matrix.CorrectsOneBit | plugins/tools/src/matrix.ts:249-268 | flipping any one bit of the class row decodes to the same class, valid, at distance 1 |
| Matrix.DataChangeDetected | plugins/tools/src/matrix.ts:235-270 | changing any one payload digit makes the result invalid |
| Matrix.ChecksumCellDetected | plugins/tools/src/matrix.ts:235-270 | so does changing the checksum cell |
| Matrix.DecoysIgnored | plugins/tools/src/matrix.ts:235-270 | changing any decoy cell changes nothing |
| Matrix.ChecksumDetectsChange | plugins/tools/src/matrix.ts:149-155 | for a digit string of any length, changing one digit always changes the checksum |
| Matrix.WeightsInTurn | plugins/tools/src/matrix.ts:123-155 | each further digit weighs 1, 3, 7 or 9 times itself, in turn |
| Matrix.ChecksumExactly | plugins/tools/src/matrix.ts:149-155 | the checksum is the one digit that completes the weighted sum to a multiple of ten |
| Matrix.CodesApart | plugins/tools/src/matrix.ts:157-171 | code words of different classes differ in at least three bits |
| Matrix.ClassOfNear | plugins/tools/src/matrix.ts:249-256 | a row within one bit of a code word is classified as that class, without a tie |
| Matrix.ClassExactly | plugins/tools/src/matrix.ts:249-256 | a class is given exactly when its code word is nearer than every other; two at the least distance give none |
| Matrix.CycleDistinct | plugins/tools/src/matrix.ts:125-147 | the remainder-based column formula visits seven distinct columns for any parameters with a kernel not divisible by seven |
| Matrix.PathsDistinct | plugins/tools/src/matrix.ts:125-147 | the five layer paths in use never visit a column twice |
| Matrix.PathColumns | plugins/tools/src/matrix.ts:141-147 | the columns of the five paths |
| Matrix.PlaceExactly | plugins/tools/src/matrix.ts:203-209 | the row written is the one with the digits in the path's columns and all other cells as they were |
| Matrix.MatrixEncode | plugins/tools/src/matrix.ts:187-215 | overwriting cells of the decoy grid gives the specified grid |
| Frame.DecodeEncode | crates/transport/src/frame.rs:58-87 | decoding the encoding of any frame returns it |
| Frame.EncodeDecode | crates/transport/src/frame.rs:74-87 | decoding fails exactly on fewer than five bytes or an unknown kind, and otherwise loses nothing |
| Frame.WireLayout | crates/transport/src/frame.rs:58-72 | the id comes first, highest byte in front, then 0 for data or 1 for a conclusion, then the payload |
| Connector.QueueIsHeard | crates/transport/src/connector.rs:298-384 | from any point at which a stream is live, its queue receives, in order, exactly the payloads bearing its id until it is concluded, replaced, dropped or the loop ends, and nothing afterwards |
| Connector.OpenedStream | crates/transport/src/connector.rs:222-238 | a stream opened here hears exactly its own frames from its opening on, in any history |
| Connector.PeerStream | crates/transport/src/connector.rs:316-338 | a stream begun by the peer has the frame that began it first, and then its own frames |
| Connector.QueueIgnoresOthers | crates/transport/src/connector.rs:307-379 | stream `s` of any network and history has the same queue as in the history without the frames and conclusions of other ids, however these are interleaved |
| Connector.LateFrameStartsAfresh | crates/transport/src/connector.rs:278-294 | after a conclusion sent from here a late frame of that id begins a new stream and leaves the old queue alone |
| Connector.RunSound | crates/transport/src/connector.rs:298-384 | in every run each id leads to a stream of that id |
| Connector.RoutedExactly | crates/transport/src/connector.rs:307-347 | after a frame its id leads on exactly if the frame does not conclude the stream and finds a receiver, to the same stream as before if there was one; every other id leads where it led |
| Connector.LoopsUntil | crates/transport/src/connector.rs:298-384 | over every run, dispatching has ended exactly if the connection has or a frame came that could not be read |
| Connector.AllocatesInTurn | crates/transport/src/connector.rs:228-233 | after any history the next id is the odd number belonging to the count of openings |
| Connector.ClientIdsOddDistinct | crates/transport/src/connector.rs:228-233 | ids stay odd when the counter wraps, and the first 2^31 are distinct |
| Connector.Connection.CreateStream | crates/transport/src/connector.rs:222-238 | capacity zero is refused with nothing changed, otherwise one opening step |
| Connector.Connection.SendRaw | crates/transport/src/connector.rs:278-294 | only a conclusion changes the routing, by removing its id |
| Connector.Connection.OnBinary | crates/transport/src/connector.rs:307-379 | one dispatch step for any received bytes |
| ConnectAttempts.RetiredNeverWins | src-tauri/src/lib.rs:143-178 | in every interleaving an attempt that has won, been superseded, been unregistered, or been active when a cancel returned true never wins afterwards |
| ConnectAttempts.WinsOnce | src-tauri/src/lib.rs:161-170 | each id wins at most once |
| ConnectAttempts.UnretiredWins | src-tauri/src/lib.rs:161-170 | conversely an installed attempt that nothing has retired wins when it claims |
| ConnectAttempts.ToldExactly | src-tauri/src/lib.rs:146-159 | over every run, an attempt has been told to stop if and only if, at some event, it was in the slot and still listening while another was installed or a cancel came; once told it stays told |
| ConnectAttempts.ReplacedIsTold | src-tauri/src/lib.rs:146-150 | an attempt replaced while it listens is told so, for good |
| ConnectAttempts.CancelTells | src-tauri/src/lib.rs:154-159 | a cancel that returns true has told the attempt in the slot, for good; one that returns false told nobody |
| ConnectAttempts.ListensExactly | src-tauri/src/lib.rs:143-159 | an attempt no longer listens exactly once it has hung up |
| ConnectAttempts.IdsDistinct | src-tauri/src/lib.rs:143-144 | no two registrations draw the same id |
| ConnectAttempts.SupersededByOlder | src-tauri/src/lib.rs:143-178 | over every run, an attempt is superseded by one with a smaller id if and only if that id was pending as it was installed and is installed before the attempt leaves the slot; being cancelled does not make it leave |
| ConnectAttempts.SafeExactlyWithoutPending | src-tauri/src/lib.rs:143-151 | no continuation of a run lets an older attempt supersede a freshly installed one if and only if no smaller id is pending at the install |
| ConnectAttempts.OlderCanTake | src-tauri/src/lib.rs:143-170 | with a smaller id pending, that attempt can take the slot and win, and the newer one is then refused |
| ConnectAttempts.InOrderNeverOlder | src-tauri/src/lib.rs:143-151 | in every run whose installs never overtake a pending smaller id, each install takes the slot from a smaller id or finds it empty |
| ConnectAttempts.HoldsUntilLeaving | src-tauri/src/lib.rs:143-178 | from its install on an attempt is in the slot exactly as long as it has not won, been unregistered or been replaced |
| ConnectAttempts.OlderMaySupersede | src-tauri/src/lib.rs:143-151 | the shortest such run: both ids are drawn, the newer is installed first, and the older wins |
| ConnectAttempts.ConnectAttemptRegistry.InstallId | src-tauri/src/lib.rs:146-150 | one install step: the slot is replaced and the previous attempt is signalled if it still listens |
| ConnectAttempts.ConnectAttemptRegistry.CancelActive | src-tauri/src/lib.rs:154-159 | one cancel step, true exactly when the signal reached someone |
| ConnectAttempts.ConnectAttemptRegistry.ClaimCompletion | src-tauri/src/lib.rs:161-170 | one claim step, true exactly for the active attempt that was not told to stop |
| UploadScheduler.RunKeeps | src/lib/stores.svelte.ts:367-523 | over every run no upload has two runners, and every runner that started found none of its upload and a free slot |
| UploadScheduler.ProcessedKeeps | src/lib/stores.svelte.ts:448-474 | processing ends with all slots taken or nothing left to start; it started the eligible uploads oldest first and left the younger ones |
| UploadScheduler.OldestFirst | src/lib/stores.svelte.ts:457-470 | nothing that was started is younger than anything left waiting |
| UploadScheduler.AfterSound | src/lib/stores.svelte.ts:367-523 | after every event the queue is sound, and after every event that wakes it the slots are full or no startable upload remains; `UploadEvents` says the same event by event |
| UploadEvents.ReleaseFills | src/lib/stores.svelte.ts:518-521 | the end of a runner frees its slot, and then the slots are full or no upload could run |
| UploadEvents.EnqueueSettles | src/lib/stores.svelte.ts:367-379 | a queued upload is there as it came or was started once, and no slot stays free while an upload could run |
| UploadEvents.ResumeSettles | src/lib/stores.svelte.ts:420-434 | a resumed upload is pending or was started once, and no slot stays free while an upload could run |
| UploadEvents.RegisterSettles | src/lib/stores.svelte.ts:391-407 | registering a runner makes a known upload pending with that runner or starts it, and leaves everything as it was for an unknown one |
| UploadEvents.ConfigureFills | src/lib/stores.svelte.ts:362-365 | the limit is the value brought into the range 1 to 8, and new slots are taken at once |
| UploadEvents.OthersSetTheirs | src/lib/stores.svelte.ts:525-575 | progress, a status change and a removal set or take out exactly the entry they name |
| UploadEvents.ProcessedEach | src/lib/stores.svelte.ts:448-493 | processing starts an upload that could run, once, or leaves it exactly as it was |
| UploadScheduler.EligibleAfterStart | src/lib/stores.svelte.ts:476-523 | starting an upload, also one whose runner throws at once, removes exactly it from the eligible ones, so processing ends |
| UploadScheduler.EligibleAll | src/lib/stores.svelte.ts:457-463 | eligible are exactly the pending uploads with a registered idle runner |
| UploadScheduler.UploadStore.ProcessQueue | src/lib/stores.svelte.ts:448-474 | the batch loop with its re-entrancy flag does what one-at-a-time processing does, and terminates |
| UploadScheduler.UploadStore.StartRunner | src/lib/stores.svelte.ts:476-523 | status, slot and runner change together, also when the runner throws |
| LocalDataReset.FileSystem.Clear | src-tauri/src/local_data_reset.rs:299-319 | on success exactly the protected subtrees and the directories leading to them remain below the root; however it ends, only doomed paths are gone and the rest is still a tree; it succeeds without faults exactly when no file stands where a directory is to be entered |
| LocalDataReset.FileSystem.RemoveDownloadArtifacts | src-tauri/src/local_data_reset.rs:366-389 | on success exactly what lies at or under a leftover is gone, and no name of a download under way is below the root; however it ends, nothing else is gone |
| DownloadLeftovers.LeftoverByName | src-tauri/src/local_data_reset.rs:378-381 | a leftover is a directory or a resume file, told by the start, an inner part or the end of its name |
| DownloadLeftovers.RemovedByName | src-tauri/src/local_data_reset.rs:366-389 | once leftovers are removed, no directory named `.cfms-download-` and so on and no resume database of any id, with the two files beside it, is below the root |
| DownloadLeftovers.OrdinaryStays | src-tauri/src/local_data_reset.rs:366-389 | an entry stays if no name below the root on the way to it starts with that prefix |
| LocalDataReset.FileSystem.RemoveEntry | src-tauri/src/local_data_reset.rs:321-349 | a removal that fails or crashes may leave any part of the subtree that is still a tree |
| LocalDataReset.FileSystem.ClearRoots | src-tauri/src/local_data_reset.rs:143-164 | each root is checked on its own and a refused or failed one does not stop the others; no failures means all were fit and exactly what does not survive every root is gone |
| LocalDataReset.FileSystem.CompletePendingReset | src-tauri/src/local_data_reset.rs:95-194 | an attempt does nothing without a valid marker and a safe download root, removes only doomed paths, gives up the marker only when every cleanup succeeded, and completes when nothing but faults could stop it and none occur |
| ResetChecks.SettledExactly | src-tauri/src/local_data_reset.rs:95-194 | for every path: what is there after a reset that was carried out, said of the roots, the marker, the download directory and the names |
| ResetChecks.ActsExactly | src-tauri/src/local_data_reset.rs:95-141 | a request is acted on exactly if it is a marker of version 1 and the download directory is resolved, fit to be cleared and named "downloads" |
| ResetChecks.SettledByName | src-tauri/src/local_data_reset.rs:166-178 | with downloads kept, none of their leftovers is there once the request has been carried out |
| LocalDataReset.RunKeeps | src-tauri/src/local_data_reset.rs:88-194 | over any run of launches, retries and interference by other programs, all of them failing or crashing anywhere, an entry that the request does not doom and nobody touches is there at the end, and deletion of downloads is never ordered anew |
| LocalDataReset.RequestStays | src-tauri/src/local_data_reset.rs:88-194 | over the same runs the request stays as it was until a launch has carried it out and removed exactly what it dooms, unless a retry fails to read it |
| LocalDataReset.AttemptsSettle | src-tauri/src/local_data_reset.rs:95-194 | over any run of failing and crashing attempts alone, once the marker is gone the tree is what one undisturbed reset of the first state would have left |
| LocalDataReset.KeepingDoomsLess | src-tauri/src/local_data_reset.rs:138-178 | a request that keeps the downloads dooms nothing that one deleting them would not |
| LocalDataReset.RunKeepsDownloads | src-tauri/src/local_data_reset.rs:88-194 | over the same runs, with downloads to be kept and no cleanup root equal to or inside their directory, a download that is no leftover and not touched stays as it was |
| LocalDataReset.ProtectionNeedsRootOutside | src-tauri/src/local_data_reset.rs:138-158 | protecting the download directory protects all in it if and only if the root cleared is not the directory and not inside it |
| LocalDataReset.MarkerNotDoomed | src-tauri/src/local_data_reset.rs:138-178 | no cleanup removes the marker, unless it lies inside a download leftover |
| LocalDataReset.ClearedSinks | src-tauri/src/local_data_reset.rs:306-317 | what lies under a cleared path is cleared, so clearing never leaves an entry without its directory |
| LocalDataReset.FileSystem.ScheduleReset | src-tauri/src/local_data_reset.rs:72-80 | tree and outcome are those of the write with its stopping point; success leaves the request readable, and a marker is lost only before the rename |
| LocalDataReset.FileSystem.EnsureRetryableMarker | src-tauri/src/local_data_reset.rs:88-93 | tree and outcome are those of the retry with its faults; success leaves a readable request, and deletion of downloads never appears in one that did not have it |
| LocalDataReset.FileSystem.WriteAside | src-tauri/src/local_data_reset.rs:209-222 | directories made and file written aside as the stopping point allows |
| ResetMarker.ScheduledExactly | src-tauri/src/local_data_reset.rs:209-222 | for every tree and stopping point: when the write succeeds, what else it changes, and that an existing marker is gone afterwards exactly when it stopped before the rename |
| ResetMarker.RequestKept | src-tauri/src/local_data_reset.rs:88-93 | for every tree with a readable request and every combination of faults: when the request is kept, when it is lost and when it loses the order to delete downloads |
| ResetMarker.RetryWithoutFaults | src-tauri/src/local_data_reset.rs:88-93 | without faults a readable request is untouched and anything else that blocks nothing becomes one that keeps the downloads |
| ResetMarker.NeverUpgraded | src-tauri/src/local_data_reset.rs:88-93 | no faults make a retry order downloads to be deleted that were not |
| ResetMarker.LostBeforeRename | src-tauri/src/local_data_reset.rs:209-222 | a tree and faults for which the request is gone |
| ResetMarker.WeakenedByFailedRead | src-tauri/src/local_data_reset.rs:88-93 | a tree and faults for which a retry succeeds and the downloads are no longer to be deleted |
| JsonPointer.UnescapeEscape | src/lib/schedule-schema.ts:98-100 | two global replacements undo the two of escaping, for every string |
| JsonPointer.OrderMatters | src/lib/schedule-schema.ts:98-100 | in the opposite order they would not |
| JsonPointer.PointerRoundTrip | src/lib/schedule-schema.ts:373-376 | splitting a pointer and decoding each piece returns the path |
| JsonPointer.MatchingIsPrefix | src/lib/schedule-schema.ts:378-380 | the text comparison holds exactly when one path is a segment prefix of the other |
| JsonPointer.ReferenceReaches | src/lib/schedule-schema.ts:102-119 | the reference made from a path resolves to the record at that path, and to nothing if there is none |
| JsonPointer.RootNotReachable | src/lib/schedule-schema.ts:107-107 | the empty pointer is refused as a reference |
| JsonPointer.ReferenceExact | src/lib/schedule-schema.ts:102-119 | a reference outside a cycle gives its target if and only if its path is not empty or there is no target |
| JsonPointer.PreparationState.ResolveLocalRef | src/lib/schedule-schema.ts:102-119 | the walking loop returns the specified record, and records only the first failure, with its keyword |

## Left out

- LocalDataReset.FileSystem.CompletePendingReset: the roots are taken as resolved, in any order and with repetitions; the source removes repetitions and sorts by depth, which the results do not need.
- UploadScheduler.UploadStore.StartRunner: a runner that throws at once is modelled, with its nested call for the queue; a runner that itself calls back into the store before its first await is not.
- UploadEvents.ConfigureFills: a missing value or one that is not a number counts as the default in the source; here a value is always given.
- UploadScheduler.RunKeeps: completion callbacks are arbitrary status changes, and pausing and cancelling are among them.
- Upload.ServerHoldsPrefix: the server is taken to keep whole payloads, and a deliberate restart, which discards what it holds, begins a new run.
- Sha256.Sha256Bytes: an input too long is an error result, whichever exception the typed arrays would raise.
- AES-GCM: an abstract pair of functions with the round-trip law and equal lengths; key agreement and zeroization are not modelled.
- SQLite, temporary directories, symbolic links and lock retries: a transaction is one step, the file system a finite tree of files and directories, and a failing call may fail at any time.
- The unconditional `insert` of the chunk store and its variant for downloads without resume: only arbitrary prior contents of the tables.
- Connector.Connection.OnBinary: dispatching is one step per frame, so a frame for a dropped receiver removes its route and dispatching goes on; the source removes the entry while the lookup still holds the map's lock on it (crates/transport/src/connector.rs:327-331), and whether that call can return is not modelled.
- Channel capacity, text and ping frames.
- Watch channels beyond the last value sent and whether anyone listens.
- The base64 pair, the case-folding and bracket-trimming front ends of the codecs, and UTF-8: the codecs are over bytes and the letter cipher over characters with ASCII case mapping.
- SHA-512, which only supplies the last 64 seed bytes; the seed bytes are taken as given.
- Rejection sampling on top of the generator: decoy digits are arbitrary.
- Address parsing and the rotation of the matrix: addresses are four octets and a port.
- The other letter ciphers and the radix converter, whose round trips are simpler than those proved here.
- Preparation of whole schemas: only failures and local references, the part with the path algebra.
- Progress callbacks, user interface, plugin pages and message parsing.
