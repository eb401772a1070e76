# MCPd: a verified model

This project models the algorithms and state machines at the heart of MCPd, a
daemon for AmigaOS that lets a host run commands, move files and drive the
user interface of a remote machine, and of its Python host. It proves what
their comments, documentation and tests promise: for all inputs, all runs and
all interleavings.

| file | what it models |
|---|---|
| `Discovery.dfy` | the reply budgets of the UDP responder: two token buckets, a 16-slot source table, ticks that wrap at 32 bits |
| `Jobs.dfy`, `JobRuns.dfy` | the table of started commands and every interleaving of workers, launches, processes and death messages over it |
| `Sha256.dfy`, `Sha256Laws.dfy` | the streaming hash against FIPS 180-4, and what the standard's constants and functions are |
| `Utf8.dfy`, `Malformed.dfy`, `Motion.dfy`, `Input.dfy`, `Typing.dfy` | text decoding, pointer motion, event injection and typing under budgets |
| `TomlWriter.dfy`, `TomlReader.dfy`, `TomlRoundTrip.dfy`, `TomlChars.dfy`, `TomlDocument.dfy`, `TomlText.dfy` | the configuration writer, a strict reader, the round trip between them, and the text in character codes |
| `Transfer.dfy`, `Download.dfy`, `Inflate.dfy` | chunked upload and download under faults and the frame cap, and the growing inflate buffer |
| `Base64.dfy`, `Frame.dfy`, `Events.dfy`, `Connection.dfy` | the wire path, from bytes to the order of notifications and responses |
| `ExecArgs.dfy` | quoting and joining command arguments |
| `CTypes.dfy`, `Bits.dfy`, `Decimal.dfy`, `Sequences.dfy`, `Wrappers.dfy` | C's integers and bit operations, decimal text, small helpers |

C code that updates state in place is modelled by classes, arrays and loops,
each method proved against a specification function on values; the theorems are
then about those functions. The theorems over runs of the job table are about
its code: `JobRuns.Perform` takes each step with the methods of
`Jobs.JobTable`. Constants and character classes that a specification shares
with the code are pinned down by laws of their own, in plain numbers, character
codes or bits. The network, DOS, the timer, the compressor, the keymap and the
scheduler are oracles: parameters that may answer anything their documentation
allows. Integers are unbounded, with C's widths, wrap-around and truncating
division written out where the code meets them.

Nothing here runs the original program. `dafny verify dfyconfig.toml` checks
the whole project.

## Where the code and its documentation differ

The model follows the code.

- Discovery (`mcpd/src/discovery.c:102-107`): differences "stay correct across
  the wrap" only for gaps under 2^32 ticks. After a longer one a bucket may
  refuse a probe it could afford, and later ones until it is full again
  (`Discovery.WrapRefusesAffordableProbe`). `Discovery.VerdictIff` says exactly
  when, `Discovery.CatchesUpIff` until when. The upper bounds hold regardless.
- UTF-8 (`mcpd/src/methods/input.c:418-420`): a malformed sequence is said to be
  taken as one raw byte and reported as unmapped. It is one raw byte only if a
  continuation is missing (`Malformed.RawByteIff`); over-long forms, surrogates
  and codes above 0x10FFFF are taken whole. A raw byte decodes to its own value
  and an over-long form to what it spells, and the keymap may well type either
  (`Utf8.MalformedLooksLikeLatin1`, `Malformed.OverLongTypesLetter`).
  `Malformed.ReportsMalformedIff` and `Malformed.AlwaysReportedIff` say exactly
  when the promise is kept.
- Motion (`mcpd/src/methods/input.c:1342-1344`): the remainder is said to go to
  the final step. It is spread over all steps (`Motion.RemainderIsSpread`)
  unless it is at most one pixel (`Motion.LastTakesRemainderIff`); the total is
  exact either way.
- Typing (`mcpd/src/methods/input.c:709-718`, `:1183-1199`): closing is there so that
  a call that dies halfway leaves nothing held. It does not cover a typed key:
  when time runs out between its down and its up the key stays down
  (`Typing.SlowTyping`; exactly when: `Typing.InputType`).
- Quoting (`mcpd/src/methods/exec.c:54-58`): the comment does not list the
  newline among the characters that need quotes; the code does.
- Framing: the writer sends an empty payload that the reader refuses
  (`mcpd/src/frame.c:64-118`); the round trip holds exactly without one
  (`Frame.ParseAllWritten`).
- Inflating (`mcpd/src/methods/fs.c:128-168`): an input that ends early can be a
  success with a prefix of the data (`Inflate.CutShortIsAccepted`; exactly when:
  `Inflate.AcceptsCutIff`). A payload within the cap can be called too large
  (`Inflate.LateIsRefused`; exactly when: `Inflate.ExceedsCapIff`): from 4095
  bytes below 128 MiB on, and with an inflater that leaves neither input nor
  room unused, as zlib's does, at 128 MiB.
- Chunk sizes (`host/src/amiga_fleet_mcp/upload.py:7-9`, `:38-41`, `:181-183`): the
  default of 24 MiB is said to leave a margin under the 32 MiB cap on a frame
  (`mcpd/src/frame.c:72`, `:108`,
  `host/src/amiga_fleet_mcp/transports/mcpd.py:233`, `:240`). Its base64 text alone
  is 32 MiB (`Transfer.DefaultChunkNeverFits`): a whole default chunk that does
  not compress is never sent, and one is never read in one reply
  (`Transfer.DefaultUploadStuck`, `Download.DefaultDownloadStuck`), on any retry.
  The installer knows and uses 16 MiB
  (`host/src/amiga_fleet_mcp/tools/installer.py:1353-1357`). `Transfer.FitsIff` is the
  exact bound.
- Uploads (`host/src/amiga_fleet_mcp/upload.py:88-158`): an empty file, a chunk
  size of 0, a negative retry count or a resume point at the end send nothing
  and succeed. `Transfer.EqualAfterUploadIff` gives the exact condition under
  which the files are then equal.
- Downloads (`host/src/amiga_fleet_mcp/upload.py:249-251`): an empty reply ends
  the transfer as a success (`Download.EmptyReplyEndsTransfer`), and nothing else
  short of the end does (`Download.ChunkedDownload`,
  `Download.EqualAfterDownloadIff`).
- TOML (`host/src/amiga_fleet_mcp/setup_wizard.py:33-50`): DEL is left raw,
  which TOML forbids (`TomlDocument.RoundTripsIff`).

## Model

| member | source | states |
|---|---|---|
| `CTypes.ElapsedIsTrueElapsedModulo` | mcpd/src/discovery.c:126 | an unsigned tick difference is the true one modulo 2^32: never more, and equal while the true one fits 32 bits |
| `Discovery.RateLimiter.constructor` | mcpd/src/discovery.c:118-121 | an empty source table and a full global bucket |
| `Discovery.RateLimiter.SourceSlot` | mcpd/src/discovery.c:144-166 | the one-pass search finds the source's slot, else the first free one, else the first of the oldest, and resets only a slot that is taken over |
| `Discovery.RateLimiter.Allow` | mcpd/src/discovery.c:172-182 | new state and verdict of one probe; both budgets are spent or neither |
| `Discovery.RefillInPlace` | mcpd/src/discovery.c:124-134 | the refill in 32- and 64-bit arithmetic overflows nowhere and loses nothing in its division |
| `Discovery.LevelIsLeastSlack` | mcpd/src/discovery.c:124-134 | an ideal bucket's level is the minimum, over every window ending now, of burst plus refill less what was spent in the window |
| `Discovery.GrantsExactlyWithinBound` | mcpd/src/discovery.c:178 | an ideal bucket grants exactly when answering leaves every window ending now within its bound |
| `Discovery.GlobalAffordsIff` | mcpd/src/discovery.c:71-76 | the global bound in numbers: a burst of 24 answers and 8 a second of 50 ticks |
| `Discovery.SourceAffordsIff` | mcpd/src/discovery.c:68-76 | the bound of a source in numbers: a burst of 4 answers and one a second |
| `Discovery.StepKeepsOneSlot` | mcpd/src/discovery.c:148-165 | no non-zero address ever holds two slots |
| `Discovery.StepKeepsSound` | mcpd/src/discovery.c:144-182 | every probe, after any gap, keeps each bucket at or below the ideal level of its history |
| `Discovery.StepKeepsExact` | mcpd/src/discovery.c:144-182 | a probe after gaps under 2^32 ticks keeps buckets that are at their ideal levels at them |
| `Discovery.RunIsSound` | mcpd/src/discovery.c:118-182 | every reachable state is sound |
| `Discovery.GlobalRateBound` | mcpd/src/discovery.c:118-182 | in every window of every run the answers times 1000 are at most 24000 plus 160 per elapsed tick, across wraps and gaps over 2^32 ticks |
| `Discovery.SlotHistoryIsSourceHistory` | mcpd/src/discovery.c:144-182 | the history behind a slot is exactly the verdicts its source got since the one probe that made the slot: the source had none then, and the slot has been its own since |
| `Discovery.SourceRateBound` | mcpd/src/discovery.c:118-182 | a source that keeps its slot gets at most 4000 plus 20 per tick in every window of its stay |
| `Discovery.RunIsExact` | mcpd/src/discovery.c:124-182 | with gaps under 2^32 ticks every bucket is at its ideal level |
| `Discovery.AnswersExactlyWhenAffordable` | mcpd/src/discovery.c:172-182 | with such gaps a probe is answered if and only if, from every earlier probe on, 1000 times the answers and one more are at most 24000 plus 160 per tick since, and, from every earlier one of its source's stay on, at most 4000 plus 20 per tick |
| `Discovery.DecidesRightlyIff` | mcpd/src/discovery.c:124-134 | a bucket, at its ideal level or behind it, decides rightly if and only if it does not lag: the remainder of the gap refills no token for it while the whole gap refills one for the ideal bucket |
| `Discovery.ExactLagsIff` | mcpd/src/discovery.c:124-134 | at its ideal level a bucket lags if and only if the gap is a wrap or more and its remainder refills no token |
| `Discovery.CatchesUpIff` | mcpd/src/discovery.c:124-134 | a refill brings a bucket to its ideal level if and only if it was there and the gap was under a wrap, or it becomes full |
| `Discovery.VerdictIff` | mcpd/src/discovery.c:172-182 | after any run, whatever its gaps, a probe is answered if and only if both windows can afford it, in the same numbers, and neither the global bucket nor its source's lags |
| `Discovery.WrapRefusesAffordableProbe` | mcpd/src/discovery.c:126-134 | a concrete run whose probe, exactly one wrap after the last, is refused although every window affords it |
| `Discovery.EvictsLeastRecentlySeen` | mcpd/src/discovery.c:144-166 | a used slot is taken over only if none is free and (ages under 2^32) none was seen earlier |
| `Discovery.FewSourcesAreNeverEvicted` | mcpd/src/discovery.c:144-166 | with at most 16 distinct non-zero sources every source keeps its slot and its whole history, so no bucket is ever reset |
| `Discovery.SeventeenthEvicts` | mcpd/src/discovery.c:144-166 | with exactly 16 non-zero sources a seventeenth takes over the slot of one of them |
| `Discovery.RefinesIdealLimiter` | mcpd/src/discovery.c:118-182 | then, without a silence of a whole wrap, the table of wrapped buckets gives verdict for verdict what a limiter defined by windows alone gives, in the same numbers |
| `Discovery.AddressZeroHasNoBudgetOfItsOwn` | mcpd/src/discovery.c:150-162 | a datagram from address 0 is decided by the global budget only and leaves its slot free |
| `Sha256.ScheduleAt` | mcpd/src/sha256.c:28-32 | the code's order of the schedule sum is that of section 6.2.2 of FIPS 180-4 |
| `Sha256Laws.PrimesAreFirst` | mcpd/src/sha256.c:7-16 | the 64 numbers the constants are taken from are the first 64 primes in order |
| `Sha256Laws.ConstantsAreCubeRoots` | mcpd/src/sha256.c:7-16 | each round constant is the first 32 bits of the fraction of the cube root of its prime |
| `Sha256Laws.InitialIsSquareRoots` | mcpd/src/sha256.c:55-58 | each word of the initial hash value is the same of a square root |
| `Sha256Laws.ChBits` | mcpd/src/sha256.c:40 | each bit of Ch is that of y or z as x has a 1 or a 0 |
| `Sha256Laws.MajBits` | mcpd/src/sha256.c:43 | each bit of Maj is the majority of three |
| `Sha256Laws.BigSigmaBits` | mcpd/src/sha256.c:39-42 | each bit of the two sums is the parity of three bits 2, 13, 22 and 6, 11, 25 places up, round the word |
| `Sha256Laws.SmallSigmaBits` | mcpd/src/sha256.c:29-30 | each bit of the two schedule functions is the parity of bits 7, 18 and 17, 19 places up, round the word, and 3 and 10 places up |
| `Bits.RotrIs` | mcpd/src/sha256.c:18 | a rotation by n is x / 2^n + x mod 2^n * 2^(32-n) |
| `Bits.BitOfRotr` | mcpd/src/sha256.c:18 | a rotation moves bit k + n to bit k, round the word |
| `Sha256Laws.RoundInNumbers` | mcpd/src/sha256.c:39-46 | a round as sums modulo 2^32 |
| `Sha256Laws.ScheduleInNumbers` | mcpd/src/sha256.c:22-32 | the schedule as big-endian words and sums modulo 2^32 |
| `Sha256Laws.AddVarsInNumbers` | mcpd/src/sha256.c:49-51 | the working variables are added to the state word by word, modulo 2^32 |
| `Sha256Laws.PadInNumbers` | mcpd/src/sha256.c:81-92 | the padded message: a 1 bit, zeros, and the length in bits, in as few blocks as can be |
| `Sha256.ExtendSchedule` | mcpd/src/sha256.c:28-32 | in place, the 64 words of the schedule |
| `Sha256.RoundInPlace` | mcpd/src/sha256.c:38-47 | one rotation of a..h is one round of section 6.2.2 |
| `Sha256.RunRounds` | mcpd/src/sha256.c:38-47 | 64 turns are all rounds |
| `Sha256.Hasher.constructor` | mcpd/src/sha256.c:54-61 | the initial hash value of section 5.3.3, nothing buffered |
| `Sha256.Hasher.Expand` | mcpd/src/sha256.c:21-32 | big-endian words and the schedule of the buffered block |
| `Sha256.Hasher.Transform` | mcpd/src/sha256.c:20-52 | the state becomes the compression function of itself and the block |
| `Sha256.Hasher.FeedPart` | mcpd/src/sha256.c:65-77 | one turn of the update loop |
| `Sha256.Hasher.Update` | mcpd/src/sha256.c:63-78 | state, buffered tail and bit count after any number of further bytes |
| `Sha256.Hasher.FlushMarker` | mcpd/src/sha256.c:82-87 | the 0x80 byte and a first block when the length no longer fits |
| `Sha256.Hasher.FlushWithLength` | mcpd/src/sha256.c:88-93 | zeros and the 64-bit length fill exactly the last block |
| `Sha256.Hasher.Final` | mcpd/src/sha256.c:80-101 | the digest of everything fed |
| `Sha256.Hasher.Emit` | mcpd/src/sha256.c:95-100 | the state's words, most significant byte first |
| `Sha256.AbsorbMore` | mcpd/src/sha256.c:63-78 | folding a concatenation is folding the first part, then what it left over with the second |
| `Sha256.FeedingIsAdditive` | mcpd/src/sha256.c:63-78 | feeding a then b is feeding a+b, in state, tail and bit count |
| `Sha256.FinishPads` | mcpd/src/sha256.c:80-93 | the padding code folds exactly the padded message of section 5.1.1, in one or two blocks |
| `Sha256.HashParts` | mcpd/src/sha256.c:54-101 | for every split of a message into update calls the digest is that of FIPS 180-4 on the whole |
| `Sha256.HashFile` | mcpd/src/methods/fs.c:753-780 | the hash of a file does not depend on the sizes its reads return |
| `Base64.Encode` | mcpd/src/b64.c:42-75 | the text of section 4 of RFC 4648 in a buffer of exactly its size |
| `Base64.EncodedLength` | mcpd/src/b64.c:42-75 | four characters for every three bytes begun |
| `Base64.AlphabetIs` | mcpd/src/b64.c:22-40 | the alphabet of table 1 of RFC 4648, its inverse, the padding character and the white space that is skipped |
| `Base64.TestVectors` | mcpd/src/b64.c:42-75 | the test vectors f, fo and foo of section 10 |
| `Base64.Decode` | mcpd/src/b64.c:77-107 | the octets of the digits' bit string, from a 32-bit accumulator that is never masked |
| `Base64.DecodeText` | mcpd/src/b64.c:77-107 | what decodes is at most three quarters of the text, so it fits the buffer |
| `Base64.OctetSurvivesWrap` | mcpd/src/b64.c:97-102 | the octet taken from the wrapped accumulator is that of the unbounded bit string |
| `Base64.SameBits` | mcpd/src/b64.c:42-75 | an encoding's digits spell the input's bits, shifted only by its padding |
| `Base64.OctetsOfSextets` | mcpd/src/b64.c:77-107 | cutting an encoding's bit string into octets gives the input back |
| `Base64.RoundTrip` | mcpd/src/b64.c:42-107 | decoding an encoding with whitespace anywhere in it gives back every input |
| `Base64.DecodeEncode` | mcpd/src/b64.c:42-107 | decoding an encoding gives back every input |
| `Base64.RejectsExactlyForeignBytes` | mcpd/src/b64.c:86-96 | a text is refused if and only if a byte before the first padding is neither alphabet nor space |
| `Frame.Socket.ReadN` | mcpd/src/frame.c:38-48 | exactly n bytes in order, however recv cuts them, or a failure |
| `Frame.Socket.WriteN` | mcpd/src/frame.c:50-62 | all bytes in order, or a prefix and a broken socket |
| `Frame.Socket.FrameRead` | mcpd/src/frame.c:64-98 | one parsed frame; on a healthy socket it succeeds exactly when a legal frame is there |
| `Frame.Socket.FrameWrite` | mcpd/src/frame.c:107-118 | header and payload; an over-long one sends nothing |
| `Frame.ParseAllWritten` | mcpd/src/frame.c:64-118 | the stream of payloads the writer agrees to send parses back to exactly those payloads if and only if none of them is empty |
| `Frame.WireInNumbers` | mcpd/src/frame.c:107-118 | a payload follows its length in four bytes, the most significant first |
| `Frame.ParsesInNumbers` | mcpd/src/frame.c:64-98 | a frame is there exactly if its length is from 1 to 33554432 and all of it has arrived |
| `Frame.ReadAll` | mcpd/src/frame.c:64-98 | a reader recovers every frame of the stream under every fragmentation |
| `Frame.SendAll` | mcpd/src/frame.c:107-118 | frames sent one after the other are the stream of their encodings |
| `Events.Subscription.constructor` | mcpd/src/methods/events.c:273-277 | an unsubscribed state |
| `Events.Subscription.DrainSynthetic` | mcpd/src/methods/events.c:425-441 | the pending synthetic notification, once |
| `Events.Subscription.EmitPending` | mcpd/src/methods/events.c:286-357 | state and notifications of one poll |
| `Events.Subscription.Perform` | mcpd/src/methods/events.c:364-410 | what subscribing, unsubscribing and test emission do to the state |
| `Events.Subscription.ClientReset` | mcpd/src/methods/events.c:412-423 | nothing of the last client remains |
| `Events.NotifiesExactlyChanges` | mcpd/src/methods/events.c:286-404 | from any earlier state, after a subscription the alert notifications are exactly the changes among the samples since, and the exception ones exactly those with bit 31 set; no stale change is ever sent |
| `Events.SilentUnsubscribed` | mcpd/src/methods/events.c:399-405 | from an unsubscribe on, in any state, until the next subscribe no change is notified |
| `Events.SilentAtFirst` | mcpd/src/methods/events.c:410-425 | nor is any from the start of a connection until its first subscribe |
| `Events.DeadEndIsTopBit` | mcpd/src/methods/events.c:329 | the dead-end flag is bit 31 |
| `Events.ChangesChain` | mcpd/src/methods/events.c:300-357 | each notification's previous is the code of the one before, the first one's the baseline |
| `Events.OneChangePerDifference` | mcpd/src/methods/events.c:300-357 | as many changes as samples that differ from their predecessor |
| `Events.DeliversSynthetics` | mcpd/src/methods/events.c:425-468 | each synthetic notification goes out once, with the next sample, unless replaced first |
| `Connection.SendNotices` | mcpd/src/main.c:280-281 | crash reports, then event notifications |
| `Connection.IdleRound` | mcpd/src/main.c:253-260 | a timeout sends notifications only |
| `Connection.AnswerRound` | mcpd/src/main.c:275-285 | a round's notifications, then its response |
| `Connection.ServeRounds` | mcpd/src/main.c:240-286 | the loop's bookkeeping: what was read, sent and left |
| `Connection.ServeRound` | mcpd/src/main.c:248-285 | one round, or the connection's end and its cause |
| `Connection.HandleConnection` | mcpd/src/main.c:233-287 | unless the socket failed or a response was over-long the client parses exactly the log of the completed rounds; each is what select, dispatch, crash reports and alerts made of it, and all requests read but at most the last are answered |
| `Connection.ParsedIsWire` | mcpd/src/frame.c:64-98 | a frame that was read is what its sender wrote |
| `Connection.OneResponsePerRequest` | mcpd/src/main.c:262-285 | the log holds one response per dispatched request, in request order, and exactly the notifications the events produce, and every crash report once |
| `Connection.NoticesLeadResponse` | mcpd/src/main.c:275-285 | when the response of a round arrives, every earlier response and every notification up to that round is already there, and none of a later one |
| `Utf8.Next` | mcpd/src/methods/input.c:422-445 | one character: its code point and 1 to 4 bytes; a byte without all its continuations is taken alone, and what complete ones spell is not looked at |
| `Utf8.Strlen` | mcpd/src/methods/input.c:450-458 | the number of characters of any byte string |
| `Utf8.CodePoints` | mcpd/src/methods/input.c:1133-1135 | the decoding loop reaches the end of any byte string |
| `Utf8.FirstOfEncoded` | mcpd/src/methods/input.c:422-445 | on the encoding of section 3 of RFC 3629 the decoder reads that code point and those bytes |
| `Utf8.DecodeEncode` | mcpd/src/methods/input.c:422-458 | decoding the encoding of any code point list returns the list |
| `Utf8.Examples` | mcpd/src/methods/input.c:422-445 | one character of each length, byte by byte |
| `Utf8.MalformedLooksLikeLatin1` | mcpd/src/methods/input.c:418-441 | a lone byte from 0x80 up is malformed and decodes to the code point of the Latin-1 character it would be |
| `Malformed.WellFormedIff` | mcpd/src/methods/input.c:422-458 | a text is the encoding of some scalar values if and only if what it decodes to are scalar values that encode to it |
| `Malformed.WellBegunIff` | mcpd/src/methods/input.c:422-441 | byte by byte, exactly which texts begin with an encoded scalar value: what is led and continued without being over-long, a surrogate or above 0x10FFFF |
| `Malformed.RawByteIff` | mcpd/src/methods/input.c:418-441 | a malformed sequence is one raw byte, as promised, if and only if a continuation is missing; every other one is taken whole |
| `Malformed.LooksLatin1Iff` | mcpd/src/methods/input.c:418-441 | a malformed sequence passes for a character up to 0xFF if and only if it is a raw byte or an over-long form of such a character |
| `Malformed.ReportsMalformedIff` | mcpd/src/methods/input.c:418-420 | every malformed sequence of a text is reported and none typed, as promised, if and only if the keymap has no strokes for those that pass for a character up to 0xFF |
| `Malformed.AlwaysReportedIff` | mcpd/src/methods/input.c:418-420 | that holds under every keymap if and only if no malformed sequence of the text passes for a character up to 0xFF |
| `Malformed.OverLongTypesLetter` | mcpd/src/methods/input.c:418-441 | the over-long bytes C1 A1 are malformed, are taken as one character and decode to the letter a |
| `Utf8.Latin1ToUtf8` | mcpd/src/methods/amigautil.c:118-144 | the encoding of the bytes as code points, within 2n bytes |
| `Utf8.Latin1RoundTrip` | mcpd/src/methods/amigautil.c:118-144 | decoding the converter's output returns the original bytes |
| `Motion.DifferencesAddUp` | mcpd/src/methods/input.c:1345-1357 | differences of positions add up to the last position even when zero ones are dropped |
| `Motion.MovesReachPosition` | mcpd/src/methods/input.c:1345-1357 | after any number of steps the emitted motions add up to that step's position |
| `Motion.PositionIsTruncatedIdeal` | mcpd/src/methods/input.c:1346-1347 | each position is the ideal one truncated, less than a pixel off |
| `Motion.MotionIsMonotone` | mcpd/src/methods/input.c:1346-1347 | motion never turns back, never overshoots and ends exactly on the distance |
| `Motion.WholeMotionIsExact` | mcpd/src/methods/input.c:1345-1357 | the emitted motions sum to the distance for any signed distance and any number of steps |
| `Motion.LastTakesRemainderIff` | mcpd/src/methods/input.c:1342-1347 | the last step takes the whole remainder, as the comment says, if and only if that is at most one pixel |
| `Motion.RemainderIsSpread` | mcpd/src/methods/input.c:1342-1347 | ten pixels in four steps go 2, 3, 2, 3 |
| `Input.ReleasesAreLifo` | mcpd/src/methods/input.c:597-611 | modifiers are released last pressed first |
| `Input.ReleasesLetGo` | mcpd/src/methods/input.c:595-613 | the releases take exactly the held keys out of the keys that are down |
| `Input.Inject.constructor` | mcpd/src/methods/input.c:634-640 | a context with nothing pressed and nothing spent |
| `Input.Inject.DelayMs` | mcpd/src/methods/input.c:531-538 | time is spent only when the timer is open |
| `Input.Inject.WriteEvent` | mcpd/src/methods/input.c:543-563 | an event unless a budget is used up, then only the mark |
| `Input.Inject.WriteButton` | mcpd/src/methods/input.c:1472-1490 | a button event together with the record of the button that is down |
| `Input.Inject.PushModifier` | mcpd/src/methods/input.c:584-590 | a modifier is remembered exactly if it was pressed |
| `Input.Inject.ReleaseModifiers` | mcpd/src/methods/input.c:595-613 | every held key is released in reverse order, budgets or not |
| `Input.Inject.ReleaseButtons` | mcpd/src/methods/input.c:615-631 | the held button is released, budgets or not |
| `Input.Inject.Close` | mcpd/src/methods/input.c:721-757 | whatever stopped the call, no button and no pushed modifier is still down; the statistics survive |
| `Input.ChordLetsGo` | mcpd/src/methods/input.c:1023-1056 | after a chord nothing is down, repeated keys included |
| `Input.ShiftedChord` | mcpd/src/methods/input.c:1029-1040 | a shifted chord presses the left shift, raw code 0x60 and qualifier 1, last before its final key and lets go of it first |
| `Input.InputKey` | mcpd/src/methods/input.c:1020-1059 | no budget is ever reached: the device sees exactly the chord, its final key released |
| `Typing.TypeStroke` | mcpd/src/methods/input.c:1183-1197 | a stroke is completed if and only if its up fits the event cap and the time budget; else its key is left down exactly if its down still fitted |
| `Typing.TypeStrokes` | mcpd/src/methods/input.c:1178-1199 | all strokes of a character, or a stop at the first that does not fit, with its place and what was sent before it |
| `Typing.TypeAll` | mcpd/src/methods/input.c:1133-1221 | every character is typed or reported; a stopped run has typed or reported exactly the counted characters and a first part of the next one's events |
| `Typing.InputType` | mcpd/src/methods/input.c:1099-1235 | the typed events, the unmapped characters and the counts; cut short if and only if the last stroke's up does not fit the budgets, a key then left down if and only if the first stroke that does not fit could send its down; refused exactly when empty or over 512 characters; a key left down means that 20000 ms were spent, and without pauses exactly 128 strokes, 256 events, fit |
| `Typing.StrokeFitsInNumbers` | mcpd/src/methods/input.c:1183-1197 | a stroke fits exactly if it is one of the first 128 and the pauses before its up take less than 20000 ms |
| `Typing.OnlyTimeSplitsPair` | mcpd/src/methods/input.c:1183-1197 | the event cap never falls between a key's down and its up; only time does |
| `Typing.CapInNumbers` | mcpd/src/methods/input.c:113-113 | without a timer or a delay typing is cut short exactly beyond 128 strokes, after 256 events, with no key down |
| `Typing.EarlierStrokesFit` | mcpd/src/methods/input.c:1183-1197 | if a stroke fits the budgets all before it do, so there is one place to stop |
| `Typing.SlowTyping` | mcpd/src/methods/input.c:1183-1199 | fourteen letters at the longest delay: the last goes down at 19500 ms, is refused its up at 20000 ms and stays down after closing |
| `Input.StepFits` | mcpd/src/methods/input.c:1346-1354 | the 16-bit casts and the 32-bit products lose nothing |
| `Input.ComputeMove` | mcpd/src/methods/input.c:1346-1354 | one step of the motion in the machine's arithmetic |
| `Input.InterpolateOnce` | mcpd/src/methods/input.c:1346-1356 | one round of the motion loop |
| `Input.Interpolate` | mcpd/src/methods/input.c:1345-1357 | the loop makes all motions exactly if the last one starts within the time budget, else a prefix of them |
| `Input.MouseMove` | mcpd/src/methods/input.c:1330-1364 | relative motion, complete if and only if the pauses before the last motion fit the budget |
| `Input.FinishesInNumbers` | mcpd/src/methods/input.c:119-119 | motion is complete exactly if the pauses between its moves leave the last one under 20000 ms |
| `Input.Click` | mcpd/src/methods/input.c:1455-1501 | no click is ever cut short |
| `Input.ClickOnce` | mcpd/src/methods/input.c:1469-1493 | a press is followed by its release |
| `Input.Drag` | mcpd/src/methods/input.c:1588-1641 | however far a drag gets the button is up afterwards; the exact condition under which it is cut short |
| `Input.DragShape` | mcpd/src/methods/input.c:1600-1640 | a drag goes to its start point, presses, makes its moves and releases |
| `Input.QuickDragsFinish` | mcpd/src/methods/input.c:1615-1630 | with pauses of at most 300 ms no drag is cut short and its motions sum to the distance |
| `ExecArgs.QuoteArg` | mcpd/src/methods/exec.c:59-82 | the quoted argument in a buffer of exactly the computed size |
| `ExecArgs.QuotedIff` | mcpd/src/methods/exec.c:54-81 | an argument stands as it is if and only if it is not empty and holds none of the bytes 9, 10, 32, 34 and 42; else between quotes |
| `ExecArgs.JoinArgs` | mcpd/src/methods/exec.c:158-199 | the command line grown argument by argument |
| `ExecArgs.TokensAppend` | mcpd/src/methods/exec.c:54-58 | text that begins at a token's end adds its own tokens and changes none |
| `ExecArgs.OneToken` | mcpd/src/methods/exec.c:54-82 | a quoted argument is one token with the argument's bytes |
| `ExecArgs.TokensOfCommandLine` | mcpd/src/methods/exec.c:54-199 | tokenising the command line returns the command's tokens and then exactly the argument list |
| `ExecArgs.CommandLineIsInjective` | mcpd/src/methods/exec.c:158-199 | different argument lists make different command lines |
| `Inflate.GrowLeavesRoom` | mcpd/src/methods/fs.c:129-139 | growing leaves room, keeps to 128 MiB, and is refused exactly when all but the last 4095 bytes of the largest buffer are used |
| `Inflate.BuffersInNumbers` | mcpd/src/methods/fs.c:121-139 | the first buffer is four times the input, at least 4096 bytes; it is doubled up to 134217728 when fewer than 4096 are left |
| `Inflate.PayloadFits` | mcpd/src/methods/fs.c:186-205 | a payload that fits a frame decodes to at most 24 MiB |
| `Inflate.Regrow` | mcpd/src/methods/fs.c:141-151 | the bytes already written survive a regrow |
| `Inflate.MakeRoom` | mcpd/src/methods/fs.c:129-153 | a buffer doubled and clamped when fewer than 4096 bytes are left, its contents kept, or the cause of refusal |
| `Inflate.InflateOnce` | mcpd/src/methods/fs.c:154-157 | one call: progress on every Ok, output stored behind what is there |
| `Inflate.InflateGrowing` | mcpd/src/methods/fs.c:121-168 | the result is that of the run's one end; the bytes are a prefix of the stream, the whole of it when the stream ended or is complete; each error has its cause, and with a greedy inflater only 128 MiB of output and more are refused |
| `Inflate.ExceedsCapIff` | mcpd/src/methods/fs.c:128-139 | the output is called too large if and only if the buffer is at the cap with fewer than 4096 bytes left; with a greedy inflater, if and only if 128 MiB were made without the end being reported |
| `Inflate.AcceptsCutIff` | mcpd/src/methods/fs.c:156-168 | an input cut short is accepted if and only if its last byte is used, no end is reported and there is room left |
| `Inflate.LateIsRefused` | mcpd/src/methods/fs.c:128-139 | complete streams of every size from 128 MiB less 4095 bytes to 128 MiB that are refused as too large, at 128 MiB by a greedy inflater |
| `Inflate.CutShortIsAccepted` | mcpd/src/methods/fs.c:156-168 | a stream cut after its first byte is accepted as no data |
| `Transfer.LandsTheSame` | mcpd/src/methods/fs.c:611-649 | writing a chunk after failed or partial attempts leaves the same file as writing it at once |
| `Transfer.FitsIff` | mcpd/src/frame.c:72-108 | n bytes fit in a frame with an envelope of e bytes if and only if n is at most 3 * ((32 MiB - e) / 4) |
| `Transfer.DefaultChunkNeverFits` | host/src/amiga_fleet_mcp/upload.py:38-41 | the base64 text of a default chunk fills the whole frame, so none fits, however short the envelope |
| `Transfer.PackedIsCarried` | mcpd/src/methods/fs.c:175-214 | what the host packs is what the daemon decodes from the base64 text, plain or compressed, unless the stated size is over 128 MiB |
| `Transfer.Remote.WriteAt` | mcpd/src/methods/fs.c:611-643 | made anew at offset 0, written in place elsewhere, refused past the end |
| `Transfer.Remote.WriteChunk` | mcpd/src/methods/fs.c:580-661 | a good reply means the whole chunk landed, and comes if and only if the attempt goes through, the offset can be sought, the request fits in a frame and the size is not too big; any other outcome leaves a state another attempt mends |
| `Transfer.Pack` | host/src/amiga_fleet_mcp/upload.py:98-116 | the compression decision; either way the daemon decodes the chunk |
| `Transfer.AutoZipsIff` | host/src/amiga_fleet_mcp/upload.py:98-108 | the automatic choice compresses if and only if that saves a twentieth |
| `Transfer.SendChunk` | host/src/amiga_fleet_mcp/upload.py:122-151 | the retry loop: landed, or not, exactly if the offset cannot be sought, the chunk cannot be carried or no attempt goes through |
| `Transfer.ReadChunk` | host/src/amiga_fleet_mcp/upload.py:88-96 | reads at the running position find the next piece |
| `Transfer.ChunkSent` | host/src/amiga_fleet_mcp/upload.py:153-158 | chunk after chunk lands as one write |
| `Transfer.ChunkedUpload` | host/src/amiga_fleet_mcp/upload.py:66-167 | the remote file after an upload that returns and after one that fails, for every chunk size, retry count, resume point and fault pattern; with one attempt in every retries+1 going through it fails if and only if the offset cannot be sought or some chunk fits neither frame nor daemon; the chunks, bytes and compressed chunks it reports |
| `Transfer.SmallChunksSendable` | host/src/amiga_fleet_mcp/upload.py:88-116 | unless compression is forced, chunks that fit in a frame uncompressed can all be sent |
| `Transfer.UncompressedSendableIff` | host/src/amiga_fleet_mcp/upload.py:88-116 | uncompressed, all chunks can be sent if and only if the first can |
| `Transfer.DefaultUploadStuck` | host/src/amiga_fleet_mcp/upload.py:38-116 | at the default chunk size a first whole chunk that does not compress can never be sent |
| `Transfer.EqualAfterUploadIff` | host/src/amiga_fleet_mcp/upload.py:88-158 | after an upload that returns the files are equal if and only if something was sent over a matching prefix no longer than the local file, or nothing was and they were equal before |
| `Transfer.ResumeCompletes` | host/src/amiga_fleet_mcp/upload.py:75-96 | resuming a failed upload where it stopped makes the files equal |
| `Download.Source.FsRead` | mcpd/src/methods/fs.c:404-507 | the slice arithmetic, the 32 MiB cap and a reply that may be short but never wrong; it comes if and only if the request is answered and the slice read fits in a frame |
| `Download.DeliversIff` | mcpd/src/methods/fs.c:39-39 | no more than 33554432 bytes are read at once, and no more than fit a frame are sent |
| `Download.ReadPiece` | host/src/amiga_fleet_mcp/upload.py:224-245 | the retry loop of one read gives up if and only if no attempt gets a slice; the slice is empty if and only if an empty reply came |
| `Download.ChunkedDownload` | host/src/amiga_fleet_mcp/upload.py:187-258 | what the local file holds; a transfer that returns reached the end if and only if no reply was empty; with an answer in every retries+1 requests it never stops on slices that fit in a frame, and with full reads it stops if and only if the first slice does not fit |
| `Download.EqualAfterDownloadIff` | host/src/amiga_fleet_mcp/upload.py:219-251 | for a local file no longer than the resume point the files are equal if and only if it was the remote file up to there and no reply was empty; a longer one never is after a whole transfer; resuming at the end changes nothing |
| `Download.EmptyReplyEndsTransfer` | host/src/amiga_fleet_mcp/upload.py:246-251 | a download of two bytes that returns after one empty reply, with a different local file |
| `Download.DefaultDownloadStuck` | host/src/amiga_fleet_mcp/upload.py:181-222 | with a default chunk or more left to read, the first slice at the default size does not fit in a frame |
| `Download.RoundTrip` | host/src/amiga_fleet_mcp/upload.py:66-258 | up and down again gives the original |
| `Decimal.NatTextIsNumber` | host/src/amiga_fleet_mcp/setup_wizard.py:56-57 | decimal text has the number's value and no leading zero |
| `TomlWriter.TomlStr` | host/src/amiga_fleet_mcp/setup_wizard.py:33-50 | the basic string, built part by part |
| `TomlWriter.Writer.EmitTop` | host/src/amiga_fleet_mcp/setup_wizard.py:70-76 | header, pairs and the blank before sub-tables |
| `TomlWriter.Writer.EmitSubTables` | host/src/amiga_fleet_mcp/setup_wizard.py:77-79 | each sub-table's lines and a blank |
| `TomlWriter.Writer.EmitTable` | host/src/amiga_fleet_mcp/setup_wizard.py:67-79 | the lines appended to the shared list, or the TypeError |
| `TomlWriter.RenderToml` | host/src/amiga_fleet_mcp/setup_wizard.py:82-88 | the document, trailing blank lines popped |
| `TomlRoundTrip.ReadStrText` | host/src/amiga_fleet_mcp/setup_wizard.py:33-50 | a string's text reads back as the string (section String of TOML v1.0.0) |
| `TomlRoundTrip.ReadKeyText` | host/src/amiga_fleet_mcp/setup_wizard.py:27-30 | a key's text reads back as the key, by the reader's own alphabet of bare keys |
| `TomlText.KeyIsBareIff` | host/src/amiga_fleet_mcp/setup_wizard.py:22-30 | a key is written bare if and only if it is not empty and all of A-Z a-z 0-9 _ -; else between double quotes |
| `TomlText.CharTextInCodes` | host/src/amiga_fleet_mcp/setup_wizard.py:33-50 | how every character of a string is escaped, in character codes |
| `TomlText.LinesInCodes` | host/src/amiga_fleet_mcp/setup_wizard.py:74-77 | headers and pairs in character codes |
| `TomlText.PathInCodes` | host/src/amiga_fleet_mcp/setup_wizard.py:74-74 | a path's keys are joined by dots |
| `TomlText.ValuesInCodes` | host/src/amiga_fleet_mcp/setup_wizard.py:53-57 | true, false and the sign of a number in character codes |
| `TomlText.DigitsInCodes` | host/src/amiga_fleet_mcp/setup_wizard.py:56-57 | the decimal digits and their values |
| `TomlText.AllowedInCodes` | host/src/amiga_fleet_mcp/setup_wizard.py:33-50 | the characters the reader allows in a document: tab, newline, and all from blank up but DEL |
| `TomlRoundTrip.ReadPathText` | host/src/amiga_fleet_mcp/setup_wizard.py:72 | a header's dotted path reads back as the path |
| `TomlRoundTrip.ReadValueText` | host/src/amiga_fleet_mcp/setup_wizard.py:53-64 | a value's text reads back as the value, lists nested to any depth included |
| `TomlRoundTrip.ReadAssignLine` | host/src/amiga_fleet_mcp/setup_wizard.py:73-74 | a pair's line reads back as the pair |
| `TomlRoundTrip.ReadHeaderLine` | host/src/amiga_fleet_mcp/setup_wizard.py:71-72 | a header line reads back as the header |
| `TomlChars.RefusesExactlyUnsupported` | host/src/amiga_fleet_mcp/setup_wizard.py:53-64 | rendering raises TypeError if and only if some value, at some level, has no TOML form |
| `TomlChars.TableLinesEmit` | host/src/amiga_fleet_mcp/setup_wizard.py:67-79 | a table's lines hold a DEL exactly if a key or string in it does |
| `TomlChars.LinesAreLines` | host/src/amiga_fleet_mcp/setup_wizard.py:33-79 | no emitted line holds a raw newline or any control character but DEL |
| `TomlDocument.PartsOfDict` | host/src/amiga_fleet_mcp/setup_wizard.py:68-69 | a dictionary is its scalars and its tables together |
| `TomlDocument.RunTable` | host/src/amiga_fleet_mcp/setup_wizard.py:67-79 | a sub-table's lines, read in order, make one entry of the table it is in (section Table) |
| `TomlDocument.RunDocument` | host/src/amiga_fleet_mcp/setup_wizard.py:67-79 | all lines of a document build the dictionary's nested map |
| `TomlDocument.LinesOfUnlines` | host/src/amiga_fleet_mcp/setup_wizard.py:88 | splitting the text gives back the lines |
| `TomlDocument.ParseRendered` | host/src/amiga_fleet_mcp/setup_wizard.py:27-88 | parsing a rendered dictionary gives back the same nested map, or, if it holds a DEL, is refused |
| `TomlDocument.RoundTripsIff` | host/src/amiga_fleet_mcp/setup_wizard.py:27-88 | the round trip holds if and only if no key and no string holds a DEL |
| `Jobs.OutPathIsInjective` | mcpd/src/jobs.c:244-245 | different ids have different output files, and no path is cut short in its 40 bytes |
| `Jobs.OutPathOfSeven` | mcpd/src/jobs.c:245-246 | the file of job 7 is T:mcpd_job_7.out |
| `Jobs.JobTable.constructor` | mcpd/src/jobs.c:137-156 | an empty table |
| `Jobs.JobTable.Drain` | mcpd/src/jobs.c:98-106 | exactly the records with a message on the port are marked exited |
| `Jobs.JobTable.Find` | mcpd/src/jobs.c:108-113 | a record in use with the id, or none has it |
| `Jobs.JobTable.ClaimSlot` | mcpd/src/jobs.c:200-211 | a free slot, else that of the exited job with the smallest id, whose file goes, else none |
| `Jobs.JobTable.Reserve` | mcpd/src/jobs.c:223-250 | refused exactly when all 32 records run; else a new running record with the next id |
| `Jobs.JobTable.Get` | mcpd/src/jobs.c:312-320 | the record of an id after draining |
| `Jobs.JobTable.Signal` | mcpd/src/jobs.c:350-371 | the record with the id is found, and the break recorded as the table allows; who that reaches is stated by JobRuns.SignalReaches |
| `Jobs.JobTable.DropOutput` | mcpd/src/jobs.c:373-382 | an exited job's file is deleted once |
| `Jobs.JobTable.List` | mcpd/src/jobs.c:384-400 | the sorted records in use, after draining |
| `Jobs.ListingIsComplete` | mcpd/src/jobs.c:384-400 | a listing shows exactly the records in use, newest first |
| `Jobs.SortInPlace` | mcpd/src/jobs.c:395-400 | the in-place insertion sort |
| `Jobs.SortIsSorted` | mcpd/src/jobs.c:395-400 | it puts the newest first and is a permutation |
| `Jobs.JobTable.CountRunning` | mcpd/src/jobs.c:162-170 | zero exactly when no record shows a running job |
| `Jobs.JobTable.DeleteOutputs` | mcpd/src/jobs.c:187-191 | every kept output file is deleted and no other |
| `JobRuns.EnabledIsInBounds` | mcpd/src/jobs.c:84-95 | no worker and no process is ever without its record |
| `JobRuns.CollectKeeps` | mcpd/src/jobs.c:98-106 | draining keeps the invariant |
| `JobRuns.StartKeeps` | mcpd/src/jobs.c:223-250 | claiming a slot, with or without an eviction, keeps the invariant |
| `JobRuns.WorkerKeeps` | mcpd/src/jobs.c:252-300 | the steps of a start outside the semaphore keep the invariant |
| `JobRuns.ProcessKeeps` | mcpd/src/jobs.c:84-95 | a process's writes to the table, at entry and at death, go to its own record |
| `JobRuns.DropKeeps` | mcpd/src/jobs.c:373-382 | dropping an output keeps the invariant |
| `JobRuns.StepKeeps` | mcpd/src/jobs.c:98-382 | every enabled step of every party keeps the invariant |
| `JobRuns.RunKeeps` | mcpd/src/jobs.c:98-382 | it holds in every state of every interleaving with fewer than 2^32 starts |
| `JobRuns.Perform` | mcpd/src/jobs.c:84-382 | every step of every party is taken by the code of the table: from a table that stands for one world it leaves one that stands for the next, and the invariant holds |
| `JobRuns.LiveIdsDiffer` | mcpd/src/jobs.c:236 | no two records in use have the same id |
| `JobRuns.DrainMarksItsOwn` | mcpd/src/jobs.c:98-106 | each drained message marks the record of the job that died, with that process's exit code |
| `JobRuns.OwedRecordStays` | mcpd/src/jobs.c:200-296 | a record that is owed a death message is neither cleared nor reused by any step |
| `JobRuns.StartRecords` | mcpd/src/jobs.c:221-250 | a start records the next id, the priority brought into -20..0 and the sandbox flag, and changes no other record |
| `JobRuns.SettingsStay` | mcpd/src/jobs.c:84-382 | while a record is of one job no step changes its priority or sandbox flag |
| `JobRuns.SignalReaches` | mcpd/src/jobs.c:350-371 | a break is recorded, with exactly its mask and in that one record, if and only if the start is alive once deaths are collected, its entry code has reported a process id other than 0, and the process is listed |
| `JobRuns.PerformSignal` | mcpd/src/jobs.c:350-371 | the answer to the caller says the same |
| `JobRuns.StepMoves` | mcpd/src/jobs.c:98-382 | where one step can take a start: only its own entry sets its process id, and nothing is given up by making room but what is over |
| `JobRuns.FilesAreThoseKept` | mcpd/src/jobs.c:200-295 | outside its start a job's output file exists exactly if its record is in use and not marked deleted |
| `JobRuns.EvictsOldestExited` | mcpd/src/jobs.c:200-211 | a start evicts only when no slot is free, and then the exited job with the smallest id |
| `JobRuns.QuietMeansNothingOwed` | mcpd/src/jobs.c:158-196 | once a look finds nothing running no message is to come and no worker holds a record, so the table can be freed; none of the daemon's files stays behind |
| `JobRuns.NeverBack` | mcpd/src/jobs.c:98-311 | over every run a job goes from running to exited at most once and keeps its exit code, and an id that left the table never comes back |

## Left out

- JobRuns.Next: does not model the wait for the child's process id after a launch (`mcpd/src/jobs.c:302-306`), which reads the record without the semaphore and decides nothing but how long to wait.
- Jobs.JobTable.Signal: takes as a parameter whether the process list still has the process id; the time between scanning and signalling is the system's.
- Jobs.JobTable.Get: leaves out the times, memory figures and the shortened command text that are copied along.
- Jobs.JobTable.constructor: the failure to allocate the table, the semaphore or the port is not modelled.
- JobRuns.QuietMeansNothingOwed: is about one look; a start that follows it is not ruled out by this code but by its caller.
- Transfer.ChunkedUpload: does not state the elapsed time, and takes the local file as unchanging.
- Download.ChunkedDownload: does not state the number of chunks, and says nothing of the local file for a negative resume point, for which the code reads parts of the file twice; the remote file is taken as unchanging.
- Transfer.Remote.WriteChunk: the envelope of a request, the bytes around its base64 text, is taken as of one size throughout a transfer, though offsets and sizes are written in decimal.
- Download.Source.FsRead: likewise the envelope of a reply.
- Transfer.Remote.WriteAt: opening a file for writing either leaves it alone and fails, or succeeds.
- Transfer.PackedIsCarried: the one-shot inflater is an oracle that is right on streams the compressor made; the path without a stated size is `Inflate.InflateGrowing`, which the upload never takes.
- Inflate.InflateGrowing: how zlib decodes a stream is not modelled, only what it promises of each call; a failing InflateInit is not modelled.
- Typing.InputType: the keymap is an oracle of up to three strokes per character; the built-in fallback table, dead-key composition and named keys are not modelled.
- Input.MouseMove: the absolute mode, which is one event, is not modelled, nor is the reported pointer position.
- Input.Inject.Close: closing devices and libraries is not modelled.
- Input.InputKey: takes the chord's keys as resolved.
- Frame.Socket.WriteN: a send failure is taken to be final; the system could let a later send through (`mcpd/src/main.c:280-283` goes on after a failed notification), and what the client then reads is not modelled.
- Connection.HandleConnection: rests on send failures being final, as above; JSON and dispatch are oracles on byte strings; the loop is bounded by a parameter that can be any number.
- Events.Subscription.EmitPending: notification bodies are values; their JSON text is not modelled.
- Discovery.RateLimiter.Allow: the drop log and the parsing of probes are not modelled; time never runs backwards.
- Sha256.Hasher.Final: the digest is stated for messages under 2^61 bytes, for which the standard defines it.
- ExecArgs.JoinArgs: failing allocations are not modelled.
- TomlReader.Parse: reads the part of TOML the writer uses and refuses the rest: comments, literal and multi-line strings, floats, dates, inline tables and arrays of tables.
- TomlWriter.RenderToml: strings are sequences of Unicode scalar values; a lone surrogate in a Python string is not modelled.
- The multi-client bookkeeping of `mcpd/src/main.c` (slots of live workers), the listing, copying and protecting of files, memory, window, debugger and hardware inspection: they would only add easy members or are walks of system structures.
- The host's command line, server registration, prompts, fleet configuration and serial transport.
