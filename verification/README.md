# A model of the network disk: MD5, the upload protocol, and the request codec

The network disk stores files by their MD5 signature. A client cuts a file into parts of two bytes and sends each part
in a `NetDiskRequest`; the server stages the parts, compares their sums, publishes the complete directory with `mv`,
links it into the user's directory, and counts the uses of a signature in the table `SignMap`. This project models the
three pieces on which that rests and proves what they are for.

**MD5.** `Words` gives the 32-bit arithmetic of C++ on integers, `Md5Step` the bit functions and step functions,
`Rfc1321` the digest as RFC 1321 describes it, sections 3.1 to 3.5. `Md5` is the class of `md5.cpp` with its arrays,
loops and unrolled rounds. It refines `MdContext`, a hashing context without buffer and words, which computes the
one-shot digest however the input is cut. `Blocks` iterates an arbitrary compression function, so the streaming
argument does not depend on MD5's. `TestSuite` proves the digest that appendix A.5 of RFC 1321 gives for the alphabet,
operation by operation on the words of `HexWords`, which fixes constants, shifts and byte orders of the model.

**The upload protocol.** `UploadSteps` is the server as a step machine: every file-system call and every SQL statement
of a request is one step, any step may fail, and a run is any sequence of registrations, arrivals and steps of any
number of requests. `UploadSafety`, `UploadLinks` and `UploadVerdicts` hold what is true of all runs, `UploadCompletion`
that concurrent uploads succeed once they are answered, `UploadSequential`, `UploadAnswers`, `UploadCorruption`, `ClientPass` and `PassCounts` what
requests served one after the other achieve. `FileSys` and `UploadRpc` are the classes of the
server, `BrpcClient` the client's loop. Their methods are proved to end in the state the step machine reaches.
`Parts` has part names, paths, the `Write` loop and the division of files.

**The codec.** `Wire` defines varints, tags and length-delimited records after the Protocol Buffers Encoding guide
(sections "Base 128 Varints", "Message Structure", "Length-Delimited Records", "Last One Wins"). `NetDiskMessage` is
the meaning of request bytes as a sequence of records, `NetDiskRequest` the generated class.
`BrpcClient.DoUploadFile` puts the three together: its part sums come from the class `MD5`, and its requests are
serialized and parsed on their way to `UploadRpc.Do`.

How some things are rendered:

- `unsigned int` is a subset type of the integers. Sums, counters and shifts wrap explicitly, and the bitwise operators
  are defined position by position. `std::string` is a byte sequence. The has-bits word is the set of its one bits.
- A failing call is an input (`fail`), so every statement over runs covers every pattern of failures. `noise` says that
  the shell command printed something, which is what `upload_rpc.cpp` takes for a failed `mv`.
- The `md5sum` program is a parameter, a function from content to signature. `DoUploadFile` requires it to be MD5.
- `UploadSafety.Catalogue` maps each signature of a run to one content. That two contents with one signature do not
  occur in a run is expressed by its being a map.
- The staging place of a user and a signature is a key of its own; `Parts.PartPathInjective` shows that for names
  without a slash the path strings tell such keys apart.
- `hide` keeps function bodies away from the solver where a proof does not need them. It removes facts and adds none.

- `mv` does nothing if its target is a directory with entries; like rename(2), it replaces an empty one.

Where the code does less than it seems to, the exact condition is proved, with an input that fails:

- `Md5.LoopEndsExactly`: the loop test `i + blocksize <= length` of `update` is computed in 32 bits. The loop ends if and
  only if the last position it can reach is below 2^32 - 64 (`Md5.EndlessUpdate`: one update of 2^32 - 64 bytes).
- `Parts.StoredFaithfully`: `FileSys::Write` stops at the first NUL, never advances its pointer and does not truncate. It
  leaves exactly the body if and only if the bytes before its first NUL are 4096-periodic and either there is no NUL and
  the old file is not longer, or the old file is as long as the body and ends like it from the first NUL on
  (`Parts.NotStored`).
- `ClientPass.PassExactly`: on a server that knows nothing of a file, a pass of the client publishes it faithfully if
  and only if it has no NUL byte and fewer than 2^31 bytes.
- `PassCounts.LaterPassCountsEveryPart`: the instant path is taken by every part of a file that is published already, so a
  second pass adds not one to the reference of the signature but the number of parts.
- `UploadSequential.ResendExactly`: sending a part again changes nothing if and only if its file has the announced sum
  or is what `Write` leaves on a new file.
- `UploadVerdicts.PublishedIsVerifiedExactly`: a part whose sum is wrong is answered `false` but stays on disk, is
  counted, and may be published (`UploadSequential.RejectedPartIsPublished`). A published directory is verified
  throughout if and only if the last answer about each of its parts was `true`; with bodies damaged on the way, exactly
  then it is the file, unless two contents share a sum (`UploadCorruption.PublishedIffAccepted`). The design document, section 6.5.4, does not mention
  this case.

The design document, section 3.1.2, describes publication by an atomic `ln` whose failure means that the file is
already there. The code moves the directory with `mv`, and the model follows the code.

## Model

| member | source | states |
|---|---|---|
| Md5Step.FunctionsByPosition | code/src/md5.cpp:60-75 | at every bit position F is "if x then y else z", G is "if z then x else y", H is parity, and I flips y where x holds or z does not |
| Md5Step.RotateInverse | code/src/md5.cpp:77-80 | for every word and distance, rotation left and rotation right undo each other |
| Md5Step.MixInverse | code/src/md5.cpp:82-98 | FF, GG, HH and II as functions of the register they change are invertible, by rotating right and subtracting |
| Rfc1321.StepInverse | code/src/md5.cpp:82-98 | one operation with register rotation is a bijection on the four registers |
| Rfc1321.RoundsInverse | code/src/md5.cpp:161-236 | for every block, the 64 steps before the final additions are a bijection with an explicit inverse, in both directions and for every prefix of the steps |
| Rfc1321.BytesOfWordsOf | code/src/md5.cpp:136-156 | the words decoded from a block encode back to exactly its bytes, so decode loses nothing |
| Rfc1321.LittleEndianPair | code/src/md5.cpp:308-309 | the two counter words encoded low word first are the eight little-endian bytes of the 64-bit bit count |
| Rfc1321.PaddingAdded | code/src/md5.cpp:308-317 | padding keeps the message and adds 0x80, zero bytes, and eight bytes worth the bit length modulo 2^64, low-order first, as little as fills the last block |
| Rfc1321.CompressInverse | code/src/md5.cpp:160-245 | the feed-forward additions: subtracting the old registers from the compressed ones and undoing the 64 operations gives the old registers, for every block |
| Rfc1321.WordOrder | code/src/md5.cpp:166-236 | the rounds read the words i, 1 + 5i, 5 + 3i and 7i modulo 16 |
| TestSuite.AlphabetDigest | code/src/md5.cpp:160-330 | the digest of the letters a to z is that of RFC 1321, appendix A.5 |
| TestSuite.AlphabetString | code/src/md5.cpp:357-362 | as a string, c3fcd3d76192e4007dfb496cca67e13b |
| HexWords.FunctionOfDigits | code/src/md5.cpp:60-75 | F, G, H and I work digit by digit on hexadecimal words |
| Md5.Round1 | code/src/md5.cpp:166-182 | the 16 unrolled FF calls are operations 0 to 15 of the loop with rotating registers and word index i |
| Md5.Round2 | code/src/md5.cpp:184-200 | the 16 unrolled GG calls are operations 16 to 31, word index 1 + 5i mod 16 |
| Md5.Round3 | code/src/md5.cpp:202-218 | the 16 unrolled HH calls are operations 32 to 47, word index 5 + 3i mod 16 |
| Md5.Round4 | code/src/md5.cpp:220-236 | the 16 unrolled II calls are operations 48 to 63, word index 7i mod 16 |
| Md5.EncodedWord | code/src/md5.cpp:148-156 | the four masked shifts of a word are its little-endian bytes |
| Md5.DecodedWord | code/src/md5.cpp:137-142 | the ors of four shifted bytes are their little-endian value |
| Md5.Decode | code/src/md5.cpp:136-142 | the in-place loop fills the array with the words of the input |
| Md5.Encode | code/src/md5.cpp:145-156 | the in-place loop fills the array with the little-endian bytes of all words |
| Md5.LoopTestFitsExactly | code/src/md5.cpp:274-275 | the 32-bit loop test is right at every reachable position if and only if LoopTestFits |
| Md5.LoopEndsExactly | code/src/md5.cpp:274-275 | the loop, its position wrapping at 2^32, comes to an end if and only if LoopTestFits |
| Md5.EndlessUpdate | code/src/md5.cpp:274-275 | an input for which it does not: 2^32 - 64 bytes on a new object |
| Md5.MD5.constructor | code/src/md5.cpp:102-106 | a new object is the initial hashing context |
| Md5.MD5.OfText | code/src/md5.cpp:110-116 | the object made from a text is finalized and holds the RFC 1321 digest of the text |
| Md5.MD5.Transform | code/src/md5.cpp:160-245 | decode, the four rounds and the feed-forward additions are RFC 1321's compression of the block |
| Md5.MD5.AddToCount | code/src/md5.cpp:256-259 | the two-word counter grows by 8 * length modulo 2^64, carry included |
| Md5.MD5.TransformBlocks | code/src/md5.cpp:273-275 | the bulk loop compresses every whole block from its first position and stops within a block of the end |
| Md5.MD5.Feed | code/src/md5.cpp:261-283 | the chaining value becomes the fold over buffered bytes and input, and the buffer starts with the bytes after the last whole block |
| Md5.MD5.Update | code/src/md5.cpp:251-284 | update absorbs its input: counter, waiting bytes and chaining value are those of the abstract context after the input |
| Md5.MD5.Finalize | code/src/md5.cpp:296-330 | finalize pads, appends the length before padding, stores the digest, clears buffer and counter, and does nothing a second time |
| Md5.DigestOfPieces | code/src/md5.cpp:251-330 | an object fed any pieces, one update each, and finalized holds the RFC 1321 digest of their concatenation |
| Md5.MD5.HexDigest | code/src/md5.cpp:334-346 | the sprintf loop gives the hexadecimal digest, or the empty string before finalize |
| Md5.Md5Of | code/src/md5.cpp:357-362 | the free function returns the hexadecimal RFC 1321 digest of its argument |
| MdContext.CounterSum | code/src/md5.cpp:256-259 | comparing the new low word with the addend finds the carry, and both words together are the 64-bit sum |
| MdContext.CounterLowWord | code/src/md5.cpp:253-254 | the low counter word alone determines the number of waiting bytes |
| MdContext.ConsistentAfter | code/src/md5.cpp:251-284 | after every update the number of waiting bytes is still bits / 8 mod 64, across wrap-around of the counter |
| MdContext.AbsorbHolds | code/src/md5.cpp:251-284 | the class invariant: bits are 8 times the bytes fed mod 2^64, the tail waits, and the state is the fold over all full blocks |
| MdContext.FinishFoldsPadded | code/src/md5.cpp:298-330 | finalize outputs the fold over the padded message, for any compression function |
| MdContext.PiecewiseDigest | code/src/md5.cpp:251-330 | for every sequence of updates, the digest after finalize is the one-shot RFC 1321 digest of the concatenated input |
| MdContext.HexRoundTrip | code/src/md5.cpp:340-345 | the hexadecimal digest has lower-case digits only and the digest bytes can be recovered from it |
| MdContext.HexAt | code/src/md5.cpp:340-345 | byte i gives characters 2i and 2i + 1, the high half first |
| MdContext.DigestIsFinal | code/src/md5.cpp:298-346 | after finalize no sequence of further update and finalize calls changes hexdigest |
| Blocks.BlocksThenTail | code/src/md5.cpp:264-283 | filling the buffered block, folding block by block and keeping the rest equals folding the whole concatenation |
| Blocks.FoldInTwo | code/src/md5.cpp:251-284 | folding a message in two pieces through its tail gives the fold of the whole, and the same tail |
| Wire.VarintBytes | code/proto/NetDisk.pb.cc:402-419 | what is written for v is the shortest sequence whose bytes but the last have the top bit, and whose seven-bit groups, low-order first, make up v |
| Wire.ReadVarintExactly | code/proto/NetDisk.pb.cc:295-320 | from any input, the bytes up to the first without top bit are read, as the number of their groups, if there are at most `limit` |
| Wire.NoVarint | code/proto/NetDisk.pb.cc:295-320 | nothing is read if every byte has its top bit |
| Wire.PrimitivesExactly | code/proto/NetDisk.pb.cc:295-383 | tags of at most 5 bytes, numbers of at most 10, cut to 32 or 64 bits; lengths below 2^31 - 16 whose bytes are there |
| Wire.PayloadExactly | code/proto/NetDisk.pb.cc:371-382 | the payload for each wire type, and which tags are errors |
| Wire.RecordBytes | code/proto/NetDisk.pb.cc:394-467 | the bytes of a record of each wire type |
| Wire.VarintRoundTrip | code/proto/NetDisk.pb.cc:302-320 | reading a varint undoes writing it, whatever bytes follow |
| Wire.UInt32SizeCorrect | code/proto/NetDisk.pb.cc:508-527 | the size counted for a uint32 is the number of bytes its varint takes |
| Wire.RecordRoundTrip | code/proto/NetDisk.pb.cc:293-383 | tag and payload of every well-formed record are read back with the rest of the input untouched |
| NetDiskMessage.LastOneWins | code/proto/NetDisk.pb.cc:297-370 | after any records, each field is as the last record for it says, and as before if there is none |
| NetDiskMessage.UnknownKept | code/proto/NetDisk.pb.cc:371-382 | records that no field takes are kept, all of them and in order |
| NetDiskMessage.Reordering | code/proto/NetDisk.pb.cc:293-386 | any reordering that keeps the order within each field and among unknown records gives the same message |
| NetDiskMessage.ReorderedBytes | code/proto/NetDisk.pb.cc:293-386 | the same for bytes: both serialized orders parse, to the same message |
| NetDiskMessage.SwapExactly | code/proto/NetDisk.pb.cc:293-386 | neighbouring records for different fields may change places; two unknown ones may if and only if they are equal |
| NetDiskMessage.ParseSerialized | code/proto/NetDisk.pb.cc:289-467 | parsing a serialized message into another one, with anything after it, goes on from their merge |
| NetDiskMessage.RoundTrip | code/proto/NetDisk.pb.cc:289-467 | every message comes back from its serialization with the same has-bits, field values and unknown records |
| NetDiskMessage.ConcatenationMerges | code/proto/NetDisk.pb.cc:293-386 | two serialized messages in a row parse as MergeFrom of the second into the first |
| NetDiskMessage.ParseCanonical | code/proto/NetDisk.pb.cc:289-392 | whatever bytes are parsed, absent fields have their defaults afterwards and unknown records are unknown |
| NetDiskMessage.ParsedRoundTrip | code/proto/NetDisk.pb.cc:289-467 | whatever bytes are parsed, the message comes back from its own serialization |
| NetDiskMessage.SizesAddUp | code/proto/NetDisk.pb.cc:469-590 | field sizes and unknown records add up to the length of the serialization, for every set of present fields |
| NetDiskMessage.SerializationLayout | code/proto/NetDisk.pb.cc:394-467 | the serialization spelled out: tags 8, 16, 24, 34, 42, 50, 58 and 66 in this order, each before its field if that is there, then the unknown records |
| NetDiskRequest.AllRequired | code/proto/NetDisk.pb.cc:168-170 | the mask test on the has-bits word holds exactly when all eight fields are there |
| NetDiskRequest.TagsOfFields | code/proto/NetDisk.pb.cc:297-370 | the cases of the switch accept exactly the tags 8n for the numbers and 8n + 2 for the strings |
| NetDiskRequest.NetDiskRequest.constructor | code/proto/NetDisk.pb.cc:214-224 | a new message is empty |
| NetDiskRequest.NetDiskRequest.SetOpType | code/proto/NetDisk.pb.h:742-749 | sets exactly field 1 and its has-bit |
| NetDiskRequest.NetDiskRequest.SetShard | code/proto/NetDisk.pb.h:770-777 | sets exactly field 2 and its has-bit |
| NetDiskRequest.NetDiskRequest.SetPartIndex | code/proto/NetDisk.pb.h:798-805 | sets exactly field 3 and its has-bit |
| NetDiskRequest.NetDiskRequest.SetPartSign | code/proto/NetDisk.pb.h:834-837 | sets exactly field 4 and its has-bit |
| NetDiskRequest.NetDiskRequest.SetFileName | code/proto/NetDisk.pb.h:927-930 | sets exactly field 5 and its has-bit |
| NetDiskRequest.NetDiskRequest.SetFileSign | code/proto/NetDisk.pb.h:1020-1023 | sets exactly field 6 and its has-bit |
| NetDiskRequest.NetDiskRequest.SetUsr | code/proto/NetDisk.pb.h:1113-1116 | sets exactly field 7 and its has-bit |
| NetDiskRequest.NetDiskRequest.SetBody | code/proto/NetDisk.pb.h:1206-1209 | sets exactly field 8 and its has-bit |
| NetDiskRequest.NetDiskRequest.InternalParse | code/proto/NetDisk.pb.cc:289-392 | the loop accepts, stops or rejects exactly as the record-by-record meaning of the bytes, and leaves that message, although number fields keep their has-bits aside until the end |
| NetDiskRequest.NetDiskRequest.InternalSerialize | code/proto/NetDisk.pb.cc:394-467 | writes the present fields in order of number and then the unknown records |
| NetDiskRequest.NetDiskRequest.RequiredFieldsByteSizeFallback | code/proto/NetDisk.pb.cc:469-530 | adds up to the length of the serialization without the unknown records |
| NetDiskRequest.NetDiskRequest.ByteSizeLong | code/proto/NetDisk.pb.cc:531-590 | fast path and fallback both return the length of the serialization and cache it as an int |
| NetDiskRequest.NetDiskRequest.Clear | code/proto/NetDisk.pb.cc:256-287 | leaves the empty message although it resets only fields whose bits are set |
| NetDiskRequest.NetDiskRequest.MergeFrom | code/proto/NetDisk.pb.cc:607-642 | the message becomes the merge: present fields of the other win, unknown records are appended |
| NetDiskRequest.NetDiskRequest.CopyFrom | code/proto/NetDisk.pb.cc:651-656 | leaves an exact copy of the other message, the same object included |
| NetDiskRequest.NetDiskRequest.IsInitialized | code/proto/NetDisk.pb.cc:658-661 | true exactly when all required fields are there |
| Parts.DecimalIsCanonical | code/src/long_connect/upload_rpc.cpp:51 | part names are canonical numerals: every digit string without leading zero is the name of its number |
| Parts.NoLeadingZero | code/src/long_connect/upload_rpc.cpp:51 | only the name of part 0 begins with the digit 0, and the names of the first ten are the ten digits |
| Parts.PartNames | code/src/long_connect/upload_rpc.cpp:51 | decimal part names are injective in the index, never start with a dot and contain no slash |
| Parts.PathOfPart | code/src/long_connect/upload_rpc.cpp:40-51 | the path spelled out, with "/tmp/" |
| Parts.PartPathInjective | code/src/long_connect/upload_rpc.cpp:40-51 | for slash-free users and signatures, the path of a part determines user, signature and index |
| Parts.WrittenRepeats | code/src/file_sys.cpp:48-53 | Write puts exactly strlen bytes, byte i being byte i mod 4096 of the string |
| Parts.CStringIsPrefix | code/src/file_sys.cpp:43-47 | c_str and strlen see the bytes up to the first NUL, all of them if there is none |
| Parts.StoredBytes | code/src/file_sys.cpp:42-56 | after Write, byte i is byte i mod 4096 of the body before its first NUL, and behind that the byte that was there |
| Parts.WrittenFaithful | code/src/file_sys.cpp:47-53 | what the loop sends is the string if and only if the string is 4096-periodic, which every string of at most 4096 bytes is |
| Parts.StoredFaithfully | code/src/file_sys.cpp:42-56 | Write leaves exactly the body over an old file if and only if the body up to its first NUL is periodic and there is no NUL and no longer old file, or the old file ends like the body from there on |
| Parts.StoredOnNewFile | code/src/file_sys.cpp:42-56 | on a new file: if and only if the body has no NUL and is periodic |
| Parts.NotStored | code/src/file_sys.cpp:42-56 | a body with a NUL, and a body over a longer old file, that are not what Write leaves |
| Parts.StoredTwice | code/src/file_sys.cpp:42-56 | writing the same body again changes nothing |
| Parts.StoredExactly | code/src/file_sys.cpp:42-56 | a NUL-free body of at most 4096 bytes is stored exactly, on a new file and over itself without truncation |
| Parts.CountDecides | code/src/long_connect/upload_rpc.cpp:124-132 | with names of indices below n only, a directory has n entries exactly when every index below n is there |
| Parts.CompleteParts | code/src/long_connect/upload_rpc.cpp:124-132 | a directory of parts of a file is the complete file exactly when the number of entries is the number of parts |
| Parts.AssembleAll | code/src/long_connect/brpc_client.cpp:91-100 | the parts the client cuts, put together in index order, are the file |
| Parts.TwoByteParts | code/src/long_connect/brpc_client.cpp:91-100 | a file has half as many parts as bytes, rounded down, plus one; part i is bytes 2i and 2i + 1, the last what is left |
| Parts.AllPartsHoldFile | code/src/long_connect/brpc_client.cpp:91-100 | the complete directory has that many entries, named by index, each these bytes |
| Parts.AsSizeExtendsSign | code/src/long_connect/upload_rpc.cpp:124-132 | a shard from 2^31 on becomes a size near 2^64 |
| FileSys.WriteChunks | code/src/file_sys.cpp:48-53 | the loop overlays the old file with what WrittenRepeats describes and keeps what lies behind it |
| FileSys.FileSys.LsDir | code/src/file_sys.cpp:26-40 | delivers each entry that does not start with a dot exactly once; -1 and nothing for a missing directory |
| FileSys.FileSys.Write | code/src/file_sys.cpp:42-56 | changes the one file to the stored content, or nothing if it cannot be opened |
| FileSys.FileSys.Md5Sum | code/src/public.cpp:26-33 | the sum of the file, or nothing if there is no file |
| UploadSteps.StepEffect | code/src/long_connect/upload_rpc.cpp:11-122 | only making the staging directory, delete, write and move change staged or published files, and how |
| UploadSafety.HonestWrite | code/src/long_connect/upload_rpc.cpp:53-79 | an honest part is stored exactly over whatever honest requests left, and staged files stay parts of the named file |
| UploadSafety.HonestCount | code/src/long_connect/upload_rpc.cpp:124-132 | the count equals shard, compared as size_t, exactly when the staged directory is the complete file |
| UploadSafety.RunIsSafe | code/src/long_connect/upload_rpc.cpp:11-122 | the safety invariant is kept in every interleaving of honest requests, with any faults, duplicates, retries and interruptions |
| UploadSafety.PublishedIsTheFile | code/src/long_connect/upload_rpc.cpp:96-114 | in every such run a published directory is not empty and holds exactly parts 0 to shard - 1, two bytes each, and they concatenate to the content its signature names |
| UploadSafety.PublishedForever | code/src/long_connect/upload_rpc.cpp:96-114 | in every run, honest or not, a published directory is there for good, and if it has entries it never changes |
| UploadSafety.CountMeansComplete | code/src/long_connect/upload_rpc.cpp:124-132 | in every run whose requests for a place use indices below n, n entries are counted exactly when every index below n is present |
| UploadLinks.ReferenceCountsCalls | code/src/long_connect/upload_rpc.cpp:134-174 | under every interleaving and with failing queries, reference is the number of linkToUsr calls that completed their insert or update, and the row exists exactly when it is positive |
| UploadLinks.LinkersAreCounted | code/src/long_connect/upload_rpc.cpp:146-174 | in every run the users linked to a signature are at most its reference plus the failed and unfinished calls |
| UploadLinks.StepNames | code/src/long_connect/upload_rpc.cpp:134-174 | a step keeps the file name of every row, and a row it adds is for the signature and with the file name of its request |
| UploadLinks.RowsKeepTheirNames | code/src/long_connect/upload_rpc.cpp:134-174 | in every run each row bears the file name of a counted request for its signature, for good |
| UploadSequential.SequentialLinkersAreCounted | code/src/long_connect/upload_rpc.cpp:146-174 | in sequential fault-free runs the users linked to a signature never exceed its reference |
| UploadSequential.ServeIsRun | code/src/long_connect/upload_rpc.cpp:11-122 | serving a request to its end is one of the runs of the concurrent system |
| UploadSequential.ServePart | code/src/long_connect/upload_rpc.cpp:50-121 | the outcome of every request of a registered user for an unpublished signature, whatever its body: what its file holds, that no other part changes, the answer, and that the last missing part publishes, links and counts |
| UploadSequential.AnswerExactly | code/src/long_connect/upload_rpc.cpp:50-121 | such a request is answered true if and only if the file it leaves has the announced sum; where that file is |
| UploadAnswers.AnswerToEveryRequest | code/src/long_connect/upload_rpc.cpp:11-174 | the answer with its text to any request, for every pattern of failing calls, in terms of the server before it |
| UploadAnswers.UnregisteredChangesNothing | code/src/long_connect/upload_rpc.cpp:16-22 | a user without home directory is rejected and nothing changes |
| UploadSequential.ServePublished | code/src/long_connect/upload_rpc.cpp:25-38 | for a published signature nothing is staged or written; the user is linked and the use counted |
| UploadSequential.ResendExactly | code/src/long_connect/upload_rpc.cpp:53-79 | sending any such request again does nothing and gets the same answer if and only if its file has the announced sum or is what Write leaves on a new file; after publication it only counts one more use |
| UploadSequential.RejectedPartIsPublished | code/src/long_connect/upload_rpc.cpp:88-114 | a witness: a part answered false because of its sum stays, is counted, and is published with the other part |
| UploadVerdicts.ServeFiles | code/src/long_connect/upload_rpc.cpp:50-114 | serving any request with any faults changes no file but its own, and an answer true means its file has the announced sum where it is kept |
| UploadVerdicts.AnswersAreTruthful | code/src/long_connect/upload_rpc.cpp:50-114 | over every sequential run from the empty server, a kept file whose last writing request was answered true hashes to that request's part_sign; if no call fails, the answer is true if and only if it does |
| UploadVerdicts.PublishedIsVerifiedExactly | code/src/long_connect/upload_rpc.cpp:88-114 | in runs without failing calls, all files of a published directory have their announced sums if and only if the last answers about all of them were true |
| UploadCorruption.PublishedIffAccepted | code/src/long_connect/upload_rpc.cpp:88-132 | if requests announce the right parts and carry any bodies, a published directory is the file if and only if the last answer about each part was true, unless two contents share a sum |
| UploadCompletion.OwnStep | code/src/long_connect/upload_rpc.cpp:11-122 | an honest request without failing calls stays on its way or is about to publish and link; it ends early only while parts are missing |
| UploadCompletion.UploadsComplete | code/src/long_connect/upload_rpc.cpp:11-174 | after interrupted honest uploads with any faults, in every interleaving: once each part has had an honest request of a registered user without failing calls and all are answered, the file is published and the user linked, whatever others do |
| ClientPass.PassPublishes | code/src/long_connect/brpc_client.cpp:91-121 | from any honest partial state, one fault-free pass by a registered user ends with the signature published, entry i being bytes 2i and 2i + 1 of the file, all of them together the file, and the user linked |
| ClientPass.RunsLeaveOver | code/src/long_connect/upload_rpc.cpp:11-122 | every run of honest requests, with any faults and interruptions, leaves a state the pass starts from |
| ClientPass.PassExactly | code/src/long_connect/brpc_client.cpp:82-121 | on a server that does not know the file, a pass publishes it faithfully if and only if it is NUL-free and its size fits an int |
| ClientPass.ShardsExactly | code/src/long_connect/brpc_client.cpp:82-91 | the number of requests of a pass, also where size does not fit an int |
| PassCounts.FirstPass | code/src/long_connect/brpc_client.cpp:82-121 | the first pass for any file below 2^31 bytes publishes each two bytes up to their first NUL, links the user, counts one use and names the row |
| PassCounts.LaterPassCountsEveryPart | code/src/long_connect/upload_rpc.cpp:25-38 | a pass for a published file changes no file and counts one use for each part |
| UploadRpc.UploadRpc.AllPartArrived | code/src/long_connect/upload_rpc.cpp:124-132 | compares shard, converted to int and size_t, with the visible entries; an unlistable directory counts as empty |
| UploadRpc.UploadRpc.LinkToUsr | code/src/long_connect/upload_rpc.cpp:134-174 | link, SELECT and then INSERT or UPDATE leave the state of the step machine, and 0 is returned exactly when the use was counted |
| UploadRpc.UploadRpc.Do | code/src/long_connect/upload_rpc.cpp:11-122 | for every request and every pattern of faults, state and answer are those of the step machine |
| BrpcClient.WireKeepsRequests | code/proto/NetDisk.proto:6-23 | an upload request is the same after serialization and parsing |
| BrpcClient.UploadBytes | code/src/long_connect/brpc_client.cpp:94-110 | an upload request on the wire, byte by byte |
| BrpcClient.PartsAreSendable | code/src/long_connect/brpc_client.cpp:94-110 | the client's messages stay below 2^31 bytes if the two names leave room |
| BrpcClient.BuildRequest | code/src/long_connect/brpc_client.cpp:94-110 | the setters build the message of the request |
| BrpcClient.Receive | code/src/long_connect/long_connection.cpp:19-48 | operation 5 is served and its success text replaced; any other leaves the server alone and gets its text |
| BrpcClient.DoUploadFile | code/src/long_connect/brpc_client.cpp:66-125 | the loop, over the wire, leaves the server as one full pass does; under the conditions of PassPublishes the file is published and linked |

## Left out

- The short connection server, registration, menus, flags, logging, and the download stub: short check-then-act code with easy properties. A registered user is a home directory that exists.
- Raw memory in the client: the two-byte buffer has no terminator. The model takes exactly the bytes `fread` delivered, up to a NUL.
- Transport, timeouts and retries of brpc as such: a retry or duplicate is another arrival of the same request in a run.
- The connection and locking of `mmsql.cpp`: statements are atomic, a SELECT includes its fetch. The reference is unbounded, not a 32-bit column.
- The uninitialised output buffer of `ShellOut`: its effect on `mv` is the input `noise`; `Md5Sum` of a missing file is taken as the empty string.
- Partial writes: one call of `Write` is one step, and `write` stores all it is given once `open` has succeeded.
- Names that are empty, `.`, `..` or contain a slash: places are keys, and paths are told apart for slash-free names only.
- The path of the user's link and of the published directory as strings; they are keys as well.
- `opendir` without `closedir`, and other limits of the process: any call may fail at any time instead.
- Protobuf arenas, reflection, descriptors, swap, UTF-8 checks and groups (a group is an error here), and the response message.
- NetDiskRequest.NetDiskRequest.InternalParse: on an error the fields set so far are not described, only that the message stays canonical, because a read that fails leaves an undefined number.
- NetDiskMessage.RoundTrip: field lengths are below 2^31 - 16, the limit of the runtime; its limit of 2^31 bytes for a message concerns the sender (BrpcClient.Sendable).
- BrpcClient.Receive: serves bytes that are a message to their end; malformed bytes are rejected by the runtime before.
- FileSys.FileSys.Write: the body is shorter than 2^31 bytes, which the wire format guarantees, because its length goes through an `int`.
- Md5.MD5.Update: the input is a value, so it cannot overlap the object's buffer; lengths outside LoopTestFits are excluded because the loop then never ends (Md5.LoopEndsExactly) and reads past its input.
- The derivation of the constants of RFC 1321 from sines, the zeroing of `x` after a block, and collision resistance.
