# Proxmark3 firmware: verified models of its codecs, sessions and buffers

This project models, in Dafny, the parts of the ARM firmware (`armsrc/`) that compute rather
than drive pins: the Hitag2 cipher and its two session state machines, the ISO 14443-B soft
modem, the FeliCa deframer, the JSON walker and pretty printer, the EM4x50 pulse decoder, the
DESFire block chaining and CMAC, BigBuf with its trace log, the FPGA image loader, and the
iClass and Hitag S tag emulators. Where the firmware changes buffers and fields in place the
model is a class or a method on arrays, proved against a function; the properties are then
proved of that function, for every input and every run.

`dafny verify dfyconfig.toml` checks the whole project.

## What is proved

- **Hitag2.** Against every tag whose key matches, the reader in crypto mode reads all eight
  sectors and ends successfully, and a write session changes exactly one sector; reader and tag
  hold the same cipher state after every authenticated exchange (`Hitag2.ReadSession`,
  `Hitag2.WriteSession`, on octet buffers `Hitag2Devices.ReadTag`, `Hitag2Devices.WriteTag`).
  The cipher gives the sixteen octets of key stream that the source names for its test key, worked
  out clock by clock (`Hitag2Vector.SourceVector`), and the CRC is the remainder of polynomial
  division (`HitagCrc.CrcIsRemainder`). Whatever the tag answers, success is reported only after the echo of the page command.
- **ISO 14443-B.** What the reader lays out, with any SOF and gaps, the tag-side sampler decodes if and
  only if they are in time; what a tag lays out the demodulator recovers in every quadrant, for every
  amplitude above the threshold and for all timings within limits.
- **FeliCa.** The byte-wise deframer refines a bit-wise one: every frame behind any zero preamble
  at any bit offset is received exactly, and on every stream no write leaves the 260 octets.
- **JSON.** The parser terminates on every input; the language it reads is characterised exactly, by
  character codes and down to the tokens, and contains every RFC 8259 value. For a rejected text it
  is known exactly whether some continuation would be accepted, which is what the two error codes are
  about. The path is restored even when it is clamped; what was reported before an error is known too. Pretty printing preserves meaning if and only if keys that hide
  their value hide nothing that is reported and end no object, and no other key ends in `]`.
- **EM4x50.** After every pulse, under any jitter of up to 8 units of 192 ticks, the decoder has emitted
  exactly the bits that the falling edges fix.
- **DESFire.** Chaining is undone by the other end for every row of messages, in both directions
  and both schemes; the CMAC code computes SP 800-38B.
- **BigBuf.** Over every run the live chunks are aligned, disjoint and in bounds; a logged record
  touches one of them if and only if the trace already reaches above the mark; a trace splits back
  into exactly the records accepted if and only if each had its data and a length of 15 bits.
- **FPGA.** The levels of the data pin, taken eight by eight as binary numbers, are exactly section
  `e` of the chosen image, across every refill of the ring buffer, if and only if the sections before it take less than 100 bytes.
- **iClass, Hitag S.** In every reachable state the cached keys, e-purse, cipher states and answer
  agree with memory; locked blocks and protected pages never change. What every received frame does
  and which key a MAC is made with is stated from the octets on the air.

## How it is laid out

| files | part of the firmware |
|---|---|
| `Types`, `Bits`, `Arithmetic` | shared types; bits of octets; products and remainders |
| `ToSend`, `Iso14443bFrame`, `Iso14443bUart`, `Iso14443bDemod` | bit packer, encoders, the two sample decoders |
| `Felica` | deframer |
| `Hitag2Cipher`, `Hitag2`, `Hitag2Devices`, `Hitag2Vector` | cipher, the two state machines on bit frames, both devices on octet buffers, and the source's test vector |
| `HitagCrc` | the two CRC routines and select frames |
| `JsonParse`, `JsonWalk`, `JsonAttempt`, `JsonFrozen` | the parser, the reports, those before an error, and the walker as it runs |
| `JsonGrammar`, `JsonTokens`, `JsonRfc` | the language as concrete texts, its tokens by character codes, and RFC 8259 |
| `JsonPrefix` | the two error codes |
| `JsonPretty`, `JsonHidden`, `JsonMeaning` | the printer, hidden keys, and what the output means |
| `Em4x50` | pulse decoder |
| `DesfireChain`, `DesfireCrypto`, `DesfireNxp`, `DesfireCmac` | chaining, in place, NXP flavour, CMAC |
| `BigBufHeap`, `BigBufTrace`, `BigBuf` | allocator, trace, both in one memory |
| `FpgaImage`, `FpgaLoader` | interleaving and sections, the loader |
| `IclassChip`, `IclassFrames`, `Iclass` | the command state machine, seen from the air, and as it runs |
| `HitagS` | the writing commands |

## Where the code and its promises differ

- A JSON key that is empty or ends in a dot hides its value; a key that ends in `]` is not printed.
  `JsonMeaning.PrettifyPreservesMeaning` says exactly when the pretty print still means the same,
  and `JsonMeaning.HiddenKeyLosesMeaning` gives failing texts for every hiding key.
- The parser takes more than its grammar comments say: commas between items may be missing or follow
  the last one, and numbers may be hexadecimal (`JsonRfc.MoreThanRfc`; `JsonTokens.LanguageIs` is the
  exact language).
- A text that breaks off within `\uXXXX` is called incomplete even when a wrong digit stands there
  already, and one that breaks off right behind a backslash is called invalid although it can be
  completed (`JsonPrefix.Exceptions`; `JsonPrefix.IncompleteIs` and `JsonPrefix.InvalidIs` show that
  there are no other such texts).
- After the SOF the ISO 14443-B sampler allows 20 extra high samples, not the 24 it allows between
  characters (`Iso14443bUart.FrameReceived` gives the exact condition). A low phase of 12 bits is no
  SOF for it, although the limit in the code reads `> 12`.
- The ISO 14443-B demodulator takes a SOF with 8.5 to 14 bits of low phase, where its comments speak of
  9 and 12 (`Iso14443bDemod.SofExact`).
- The branch of the FeliCa hunt for a sync word that is complete before the first bit of an octet
  is kept in the model, and is never taken.
- `BigBuf_malloc` rounds requests above 65532 to nothing. With less than 65536 octets they are
  always refused; with more they would be granted without being reserved
  (`BigBufHeap.LargeRequestOverlaps`).
- `LogTrace` computes the room left in unsigned arithmetic: once an allocation has cut below the
  end of the trace every call is accepted and writes into a live chunk (`BigBuf.LogTouchesLive`,
  and `BigBuf.AllocationCutsTrace` for how to get there).
- `LogTrace` accepts lengths from 32768 on and calls without data, whose records cannot be read back
  (`BigBufTrace.TraceSplits` with `BigBufTrace.LongEntryMisread`).
- The duration of a record is wrong whenever the clock wrapped: it is one tick short, or 0
  (`BigBufTrace.DurationExact`).
- The Hitag S block write weighs the upper half of the page number by 6 where the other commands
  use 16, so it reaches the addressed page only when that half is zero (`HitagS.BlockAddress`).
- `get_word_from_bitstream` does not bound what it writes (`Em4x50.NoBoundOnEntries`). Its result is
  one less than the entries written, so the words its caller accepts are exactly those that filled
  46 entries of an array of 45 (`Em4x50.AcceptedWordOverruns`). An unrecognised pulse leaves the
  entry it skips as it was.

## Model

| member | source | states |
|---|---|---|
| `ToSend.Buffer.StuffBit` | armsrc/BigBuf.c:294-309 | one more bit is packed, most significant bit first, in fresh zero octets |
| `ToSend.Buffer.Reset` | armsrc/BigBuf.c:289-292 | the packer holds no bits |
| `Iso14443bFrame.CodeAsReader` | armsrc/iso14443b.c:1054-1126 | the buffer packs SOF, the characters of the frame in ISO/IEC 14443-3 section 7.1 order, and EOF |
| `Iso14443bFrame.CodeAsTag` | armsrc/iso14443b.c:164-229 | the buffer packs the tag's frame, every bit four times |
| `Iso14443bFrame.StoppedRegister` | armsrc/iso14443b.c:418-445 | after ten bits of a character the shift register shows start and stop bit and exactly its octet |
| `Iso14443bUart.FrameReceived` | armsrc/iso14443b.c:352-472 | for every frame, idle time, SOF and gaps: received exactly and first at the EOF if the low phase of the SOF has 39 to 46 samples (modulo 51, when it is given up and begun again), its high phase at most 26 to 29 by where the low one ended, and gaps at most 24; and never otherwise |
| `Iso14443bUart.StartOfFrame` | armsrc/iso14443b.c:369-404 | the SOFs that are taken for one, exactly |
| `Iso14443bUart.EncoderSamples` | armsrc/iso14443b.c:1054-1126 | the samples that FrameReceived is about, without gaps, are the reader encoder's bits at four samples each |
| `Iso14443bUart.Receiver.HandleSample` | armsrc/iso14443b.c:352-472 | one sample takes the receiver, its output buffer included, to the next state of the decoder |
| `Iso14443bUart.Receiver.Receive` | armsrc/iso14443b.c:352-472 | a row of samples runs the decoder until it reports a frame |
| `Iso14443bDemod.AirDemodulated` | armsrc/iso14443b.c:741-895 | after any silence a frame is recovered exactly and first at its end, whatever quadrant and amplitude the samples have, for every TR1 of at least 9 pairs (modulo 53), SOF of 17 to 28 low and 1 to 13 high pairs, and gaps of up to 12 pairs |
| `Iso14443bDemod.FrameDemodulated` | armsrc/iso14443b.c:741-895 | the same for what the tag's encoder lays out |
| `Iso14443bDemod.SofExact` | armsrc/iso14443b.c:803-829 | 17 low pairs are the fewest and 28 the most that are taken for a SOF |
| `Iso14443bDemod.GuardExact` | armsrc/iso14443b.c:831-850 | the 13th high pair loses a frame, or reports an empty one |
| `Iso14443bDemod.StrongIs` | armsrc/iso14443b.c:760-767 | the subcarrier is detected when one coordinate and half of the other come to more than 8 |
| `Iso14443bDemod.ConstantPhase` | armsrc/iso14443b.c:760-788 | a constant vector above the threshold and its opposite are such samples |
| `Iso14443bDemod.SoftSign` | armsrc/iso14443b.c:745-758 | once trained, the soft decision is positive exactly for logic one, in all four quadrants |
| `Iso14443bDemod.Demodulator.HandleSamples` | armsrc/iso14443b.c:741-895 | one pair of samples takes the demodulator to the next state, also with the buffer exactly full |
| `Iso14443bDemod.Demodulator.Receive` | armsrc/iso14443b.c:741-895 | a row of pairs runs the demodulator until it reports a frame |
| `Iso14443bDemod.Demodulator.ReceiveFrame` | armsrc/iso14443b.c:741-895 | the octets of a frame as the tag encodes it end up in the output buffer |
| `Felica.FrameFound` | armsrc/felica.c:109-188 | behind any zero preamble and at any bit offset a frame is found and collected completely |
| `Felica.RunFromAir` | armsrc/felica.c:109-188 | on every stream, what is collected stands on the air directly behind a sync word |
| `Felica.SyncOctets` | armsrc/felica.c:79-80 | the sync word is B2 4D, most significant bit first |
| `Felica.FelicaFrame.Process18092Byte` | armsrc/felica.c:109-188 | one octet takes the frame buffer, shift register and counters to the bit-wise deframer's next state; every write stays in the 260 octets |
| `Felica.FelicaFrame.ShiftInByte` | armsrc/felica.c:95-107 | eight more bits are realigned into the buffer behind those collected |
| `Felica.FelicaFrame.TrySync` | armsrc/felica.c:119-147 | hunting eight bits finds the sync word where the bit-wise deframer finds it, and keeps the bits behind it |
| `Felica.FelicaFrame.Receive` | armsrc/felica.c:83-188 | a whole stream, up to the octet that completes a frame |
| `Felica.FelicaFrame.FrameReceived` | armsrc/felica.c:95-188 | a well-formed frame ends up in the buffer octet by octet behind the sync word, with its CRC judged |
| `Felica.FelicaFrame.FullIsGenuine` | armsrc/felica.c:143-188 | a full buffer always holds what stood behind a sync word on the air |
| `Hitag2Cipher.RoundIsPermutation` | armsrc/hitag2_crypto.c:55-66 | a clock keeps the state below 2^48 and has an inverse on such states |
| `Hitag2Cipher.FeedbackShifts` | armsrc/hitag2_crypto.c:55-63 | the bit fed back is the exclusive or of the register shifted by 0, 2, 3, 6, 7, 8, 16, 22, 23, 26, 30, 41, 42, 43, 46 and 47 |
| `Hitag2Cipher.AdvanceFits` | armsrc/hitag2_crypto.c:55-66 | every number of clocks keeps the state below 2^48 |
| `Hitag2Cipher.KeySplit` | armsrc/hitag2_crypto.c:113-118 | key stream taken in pieces is key stream taken at once |
| `Hitag2Cipher.NextByte` | armsrc/hitag2_crypto.c:78-84 | eight clocks, the first bit on top |
| `Hitag2Cipher.Transcrypt` | armsrc/hitag2_crypto.c:113-118 | exactly the first 8*bytes+bits bits of the buffer are masked with the next key stream |
| `Hitag2Cipher.Initialise` | armsrc/hitag2_crypto.c:44-53 | the loaded state is the specified one and below 2^48 |
| `Hitag2Vector.SourceVector` | armsrc/hitag2_crypto.c:68-75 | for the key, serial number and vector of the source the key stream is D7 23 7F CE 8C D0 37 A9 57 49 C1 E6 48 00 8A B6 |
| `Hitag2Vector.KnownHandshake` | armsrc/hitag2_crypto.c:90-111 | a tag with that key and serial number accepts 65 6E 45 72 28 DC 80 31 and answers with sector 3 masked by 8C D0 37 A9 |
| `Hitag2.CommandUnderstood` | armsrc/hitag2.c:225-272 | a page command the reader codes is decoded to the same kind and page |
| `Hitag2.Served` | armsrc/hitag2.c:195-318 | an encrypted command is served as the command it encodes |
| `Hitag2.Authenticate` | armsrc/hitag2.c:727-838 | after the challenge both cipher states are equal, if the key matches |
| `Hitag2.ReadSession` | armsrc/hitag2.c:727-838 | eleven exchanges read sectors 0 to 7 of every tag, end successfully, keep both ciphers in step and leave the tag unchanged |
| `Hitag2.WriteSession` | armsrc/hitag2.c:613-653 | for every page and data, five exchanges end successfully with exactly that sector changed and both ciphers in step |
| `Hitag2.SuccessOnlyAfterEcho` | armsrc/hitag2.c:613-653 | over every sequence of answers, success implies that the page command was echoed |
| `Hitag2Devices.TagEmulator.HandleReaderCommand` | armsrc/hitag2.c:195-318 | the handler on octet buffers does what the tag does on bit frames |
| `Hitag2Devices.TagEmulator.HandlePageCommand` | armsrc/hitag2.c:223-262 | the ten-bit commands: page, complement and kind are taken from the octets |
| `Hitag2Devices.TagEmulator.HandleAuthentication` | armsrc/hitag2.c:285-309 | the 64-bit frame: cipher loaded, authenticator checked, page 3 answered |
| `Hitag2Devices.CryptoReader.HandleAnswer` | armsrc/hitag2.c:727-838 | the reader's handler on octet buffers does what the reader does on bit frames |
| `Hitag2Devices.CryptoReader.HandleWritePage` | armsrc/hitag2.c:613-653 | the three write states on octet buffers |
| `Hitag2Devices.RunSession` | armsrc/hitag2.c:195-318 | both devices connected run the sessions of the bit-frame model |
| `Hitag2Devices.ReadTag` | armsrc/hitag2.c:727-838 | the two devices end with equal cipher states, success, and the tag's sectors in the reader |
| `Hitag2Devices.WriteTag` | armsrc/hitag2.c:613-653 | the two devices end with equal cipher states, success, and exactly one sector written |
| `HitagCrc.HitagCrc` | armsrc/hitag2.c:378-394 | the routine computes the bit-serial CRC-8 of the first `length` bits, the rest being zero: their remainder, eight zeros behind them and all ones added to their head |
| `HitagCrc.CrcIsRemainder` | armsrc/hitagS.c:112-122 | from any preset the CRC is the remainder of long division by x^8 + x^4 + x^3 + x^2 + 1 over GF(2) |
| `HitagCrc.CalcCrc` | armsrc/hitagS.c:112-122 | on a left-aligned group the routine runs the same bit-serial CRC |
| `HitagCrc.CutsDoNotMatter` | armsrc/hitagS.c:112-122 | however a bit string is cut into groups of 1 to 8 bits, the CRC is the same |
| `HitagCrc.Residue` | armsrc/hitag2.c:378-394 | a message with its CRC has CRC zero, from any preset |
| `HitagCrc.SelectFrame2` | armsrc/hitag2.c:437-449 | the octets built are select command, UID and CRC |
| `HitagCrc.SelectFrameS` | armsrc/hitagS.c:622-724 | the bit array and its loops give the UID (every second bit of the answer from the sixth on) and a frame of select command, that UID and CRC |
| `HitagCrc.SpellBits` | armsrc/hitagS.c:628-635 | one array entry per bit of the answer |
| `HitagCrc.TakeUid` | armsrc/hitagS.c:636-642 | the loop that takes every second entry |
| `HitagCrc.LayOut` | armsrc/hitagS.c:695-713 | the entries are five zeros, the UID, the CRC by its masks, and zeros |
| `HitagCrc.PackSix` | armsrc/hitagS.c:714-726 | six octets shifted and joined from the entries |
| `HitagCrc.SelectFramesAgree` | armsrc/hitagS.c:685-726 | both files build the same frame for every UID: five zeros, the UID, the remainder of both, three zeros; and it has residue zero |
| `JsonParse.Value` | armsrc/frozen.c:341-383 | parsing is total; on success a strictly shorter suffix of the text is left |
| `JsonTokens.StringIs` | armsrc/frozen.c:223-258 | a string is read if and only if it is made of octets 32 to 127 other than quote and backslash, lead octets from 128 on with the one to three octets they call for, and the listed escapes, up to its closing quote |
| `JsonTokens.NumberIs` | armsrc/frozen.c:261-292 | a number is read if and only if it is -? (0x hex+ or digit+ (. digit+)? ([eE] [+-]? digit+)?) and what follows does not prolong it |
| `JsonTokens.NumberTokenIs` | armsrc/frozen.c:261-292 | number tokens are exactly those texts |
| `JsonTokens.StringTokenIs` | armsrc/frozen.c:186-258 | string tokens are exactly those pieces |
| `JsonParse.Number` | armsrc/frozen.c:261-292 | an accepted number is exactly the text that was read |
| `JsonGrammar.StringLocal` | armsrc/frozen.c:236-258 | what a string token is does not depend on what follows it |
| `JsonGrammar.NumberLocal` | armsrc/frozen.c:261-292 | nor does a number token, before a text that cannot prolong it |
| `JsonGrammar.Reads` | armsrc/frozen.c:236-431 | every text spelt with the parser's tokens, any white space, optional commas and bare keys is consumed exactly and gives its tree |
| `JsonGrammar.Language` | armsrc/frozen.c:236-431 | a text is accepted with a tree and a rest if and only if it is white space, a spelling of that tree, and the rest |
| `JsonTokens.LanguageIs` | armsrc/frozen.c:186-431 | the same with every token, white space and bare key given by character codes, and no rule of the parser |
| `JsonPrefix.IncompleteIs` | armsrc/frozen.c:134-431 | a text rejected as incomplete begins some accepted text if and only if it does not break off within `\uXXXX` behind a character that is no digit |
| `JsonPrefix.InvalidIs` | armsrc/frozen.c:186-206 | a text rejected as invalid begins some accepted text if and only if it breaks off right behind the backslash of an escape |
| `JsonPrefix.Codes` | armsrc/frozen.c:134-431 | there are no other error codes |
| `JsonPrefix.Exceptions` | armsrc/frozen.c:186-206 | a text of either kind |
| `JsonGrammar.StrictSpells` | armsrc/frozen.c:236-431 | texts with commas and quotes where they belong are such spellings |
| `JsonRfc.RfcAccepted` | armsrc/frozen.c:236-437 | every RFC 8259 value is accepted and exactly that value is consumed |
| `JsonRfc.CharsRead` | armsrc/frozen.c:236-258 | every RFC 8259 section 7 string is a token |
| `JsonRfc.NumberReadsRfc` | armsrc/frozen.c:261-292 | every RFC 8259 section 6 number is a token |
| `JsonRfc.MoreThanRfc` | armsrc/frozen.c:296-321 | [1 0x2,] is accepted as an array of two numbers |
| `JsonRfc.BareKeyAccepted` | armsrc/frozen.c:385-396 | {a:1} is accepted, as the grammar comment says |
| `JsonWalk.PathRestored` | armsrc/frozen.c:116-129 | every walk, with clamped paths too, leaves path and path length as they were and only adds reports |
| `JsonWalk.DecimalSpells` | armsrc/frozen.c:306-308 | array indices in paths are decimal without leading zeros |
| `JsonWalk.WalkReports` | armsrc/frozen.c:96-114 | where paths fit, the buffered walker reports exactly the tree's events with full paths and names, silent under hidden keys, whose name is left over |
| `JsonWalk.DocumentReports` | armsrc/frozen.c:804-819 | the same for a whole document |
| `JsonWalk.PlainReported` | armsrc/frozen.c:96-114 | without hidden keys: one event per scalar and bracket, none lost |
| `JsonAttempt.AttemptParsed` | armsrc/frozen.c:134-143 | the state in which the walker stops is, for an accepted text, that after the walk of its tree |
| `JsonFrozen.Frozen.AppendToPath` | armsrc/frozen.c:116-124 | the text is appended as far as it fits, with its terminator |
| `JsonFrozen.Frozen.Report` | armsrc/frozen.c:96-114 | the callback is called and the name reset, unless the path ends in a dot |
| `JsonFrozen.Frozen.ParseString` | armsrc/frozen.c:236-258 | result, cursor and report are those of the string rule; an error reports nothing |
| `JsonFrozen.Frozen.ParseNumber` | armsrc/frozen.c:261-292 | result, cursor and report are those of the number rule; an error reports nothing |
| `JsonFrozen.Frozen.ParseArray` | armsrc/frozen.c:296-321 | result, cursor, path and reports are those of the array rule, also up to an error |
| `JsonFrozen.Frozen.ExpectWord` | armsrc/frozen.c:324-338 | a literal, or the error at its first wrong character, with nothing reported |
| `JsonFrozen.Frozen.ParsePair` | armsrc/frozen.c:399-414 | key, colon and value; path cut back, or left as it is at an error |
| `JsonFrozen.Frozen.ParseObject` | armsrc/frozen.c:417-431 | result, cursor, path and reports are those of the object rule, also up to an error |
| `JsonFrozen.Frozen.ParseValue` | armsrc/frozen.c:341-383 | result and cursor are the parser function's; path, name and reports those of the attempt, successful or not |
| `JsonFrozen.JsonWalkText` | armsrc/frozen.c:804-819 | the number of characters of the value, or its error code, and the reports made, up to the error if there is one |
| `JsonFrozen.Prettifier.Callback` | armsrc/frozen.c:1310-1345 | one report takes level, last token and output to the printer function's next state |
| `JsonFrozen.Prettifier.PrintKey` | armsrc/frozen.c:1292-1308 | comma, new line, indentation and key before a value |
| `JsonFrozen.JsonPrettify` | armsrc/frozen.c:1348-1351 | the output is the print of the reports made, and means the same exactly under the condition below |
| `JsonPretty.PrintsDocument` | armsrc/frozen.c:1292-1345 | the callback's output is the text of one tree: the document with its hidden members dissolved |
| `JsonPretty.IndentSpaces` | armsrc/frozen.c:1286-1290 | two blanks for every level |
| `JsonPretty.Layout` | armsrc/frozen.c:1292-1345 | the print of {"a": [1, {}]}, character by character |
| `JsonPretty.ValueTokens` | armsrc/frozen.c:236-292 | every raw text in a parsed tree is itself a token |
| `JsonMeaning.PrettifyPreservesMeaning` | armsrc/frozen.c:1292-1351 | for accepted texts with fitting paths: walking the print gives the same events if and only if values under hidden keys report nothing, no object ends with a hidden member, and no other key ends in `]` |
| `JsonMeaning.ReadsPrint` | armsrc/frozen.c:1292-1351 | the print is read back as the dissolved tree, or rejected when a key was not printed |
| `JsonHidden.SameReports` | armsrc/frozen.c:96-114 | a document reports what its dissolved tree reports if and only if hidden keys hide nothing reported and end no object |
| `JsonHidden.SurvivesIs` | armsrc/frozen.c:1292-1308 | the condition splits into that one and the absence of reported keys that end in `]` |
| `JsonMeaning.PrettifyIdempotent` | armsrc/frozen.c:1348-1351 | printing an accepted print changes nothing |
| `JsonMeaning.HiddenKeyLosesMeaning` | armsrc/frozen.c:96-114 | for every hidden key two texts, an object and a number under it, whose prints mean something else |
| `Em4x50.GetWord` | armsrc/em4x50.c:583-665 | the loop over a row of pulses writes the bits of the decoder function |
| `Em4x50.TakePulse` | armsrc/em4x50.c:616-663 | one pulse: bits, index, flag and end of word |
| `Em4x50.ToleranceExact` | armsrc/em4x50.c:353-356 | a pulse passes for a length if and only if it is off by at most 1536 ticks |
| `Em4x50.OtherPulse` | armsrc/em4x50.c:616-663 | a pulse more than that away from 1, 1.5, 2 and 3 periods skips an entry |
| `Em4x50.DecodesManchester` | armsrc/em4x50.c:583-665 | for every bit string and every jitter of up to 8 * 192 ticks, after each pulse exactly the bits fixed by the falling edges so far are out, and the flag tells a 0-0 boundary |
| `Em4x50.ListenWindow` | armsrc/em4x50.c:656-661 | a pulse within 1536 ticks of three periods ends the word and changes no bit |
| `Em4x50.NoBoundOnEntries` | armsrc/em4x50.c:613-663 | after any first pulse, n one-period pulses run past 45 entries exactly when n exceeds what is left |
| `Em4x50.AcceptedWordOverruns` | armsrc/em4x50.c:730-737 | a word gives the result 45 that the caller waits for if and only if it filled 46 entries |
| `DesfireChain.CryptUndone` | armsrc/desfire_crypto.c:743-791 | for single, double and triple keys each operation undoes the other |
| `DesfireChain.KeysCollapse` | armsrc/desfire_crypto.c:743-791 | triple DES with equal keys is DES, and with equal outer keys the two-key form |
| `DesfireChain.KeysInOrder` | armsrc/desfire_crypto.c:773-791 | undoing the third key leaves the second one's decryption of the first one's encryption |
| `DesfireChain.RoundTrip` | armsrc/desfire_crypto.c:733-855 | receiving with the opposite operation undoes sending, and sending undoes receiving, with equal chaining vectors afterwards |
| `DesfireChain.SessionReadBack` | armsrc/desfire_crypto.c:830-855 | any row of messages is read back in order under both schemes |
| `DesfireCrypto.SingleBlock` | armsrc/desfire_crypto.c:733-818 | one block in place, and the chaining vector after it |
| `DesfireCrypto.BlocksChained` | armsrc/desfire_crypto.c:830-855 | all blocks in place; the legacy scheme starts from zero |
| `DesfireNxp.TdesNxpSend` | armsrc/desfire_crypto.c:96-117 | the output is the chained message, the input the masked blocks, also when both are one buffer; odd lengths change nothing |
| `DesfireNxp.TdesNxpReceive` | armsrc/desfire_crypto.c:70-94 | the output is the message unchained, also in place |
| `DesfireNxp.SendAndReceive` | armsrc/desfire_crypto.c:70-117 | receiving what was sent restores the buffer and leaves equal vectors |
| `DesfireCmac.SubkeyIsDerived` | armsrc/desfire_crypto.c:267-281 | the octet code is the shift and conditional R64 of SP 800-38B section 6.1, bit for bit |
| `DesfireCmac.CmacKey.GenerateSubkeys` | armsrc/desfire_crypto.c:255-282 | both subkeys, from the encrypted zero block |
| `DesfireCmac.ShiftLeft` | common/commonutil.c:125-130 | the octets shifted left by one bit, in place |
| `DesfireCmac.ShlBits` | common/commonutil.c:125-130 | that shift drops the first bit and appends a zero |
| `DesfireCmac.PaddedLengthLeast` | armsrc/desfire_crypto.c:347-352 | the smallest positive number of whole blocks that holds the data |
| `DesfireCmac.CmacKey.Prepare` | armsrc/desfire_crypto.c:284-301 | the padded and masked buffer has exactly that length |
| `DesfireCmac.CmacKey.Cmac` | armsrc/desfire_crypto.c:284-307 | the tag from any vector, and the vector left behind |
| `DesfireCmac.TagIsMac` | armsrc/desfire_crypto.c:284-307 | from a zero vector it is the MAC of SP 800-38B section 6.2, for every length, empty included |
| `DesfireCmac.PadBits` | armsrc/desfire_crypto.c:292-297 | the pad is a one bit and zeros |
| `DesfireCmac.ComputeCmac` | armsrc/desfire_crypto.c:255-307 | generated subkeys and zero vector give the standard's CMAC |
| `BigBufHeap.EveryRun` | armsrc/BigBuf.c:86-152 | over every run of calls: chunks aligned, disjoint, in [hi, size), and every set pointer denotes a live chunk |
| `BigBufHeap.MallocKeeps` | armsrc/BigBuf.c:123-131 | an allocation keeps the invariant, gives a live chunk, and fails exactly when too little is left |
| `BigBufHeap.FreeKeeps` | armsrc/BigBuf.c:133-152 | freeing keeps the invariant, and the emulator memory when asked to |
| `BigBufHeap.GettersKeep` | armsrc/BigBuf.c:281-323 | the lazy getters keep the invariant |
| `BigBufHeap.RoundUpExact` | armsrc/BigBuf.c:127-128 | rounding reserves at least the request if and only if it is at most 65532 |
| `BigBufHeap.LargeRequestOverlaps` | armsrc/BigBuf.c:123-131 | above that, a large enough memory hands out one address twice |
| `BigBufTrace.SplitBack` | include/pm3_cmd.h:134-146 | a trace splits into exactly the records it was made of |
| `BigBufTrace.TraceSplits` | armsrc/BigBuf.c:202-256 | after any calls the trace splits into the accepted records in order if and only if each accepted call had its data and a length below 32768 |
| `BigBufTrace.FullStaysFull` | armsrc/BigBuf.c:202-217 | with tracing off nothing more is logged |
| `BigBufTrace.NothingAfterFull` | armsrc/BigBuf.c:202-217 | from the first refused call on, no call of the run is accepted and memory and trace length stay |
| `BigBufTrace.Misread` | armsrc/BigBuf.c:234-244 | a call without its data, or too long for its field, is never read back, whatever follows |
| `BigBufTrace.LongEntryMisread` | armsrc/BigBuf.c:234-244 | 32768 octets are accepted by an empty trace and misread |
| `BigBufTrace.DurationExact` | armsrc/BigBuf.c:218-232 | the duration is right if and only if the clock did not wrap and it fits 16 bits |
| `BigBufTrace.LogAboveAccepts` | armsrc/BigBuf.c:213-217 | above the mark every call is accepted |
| `BigBufTrace.LoggedExactly` | armsrc/BigBuf.c:202-217 | below the mark a call is logged if and only if tracing is on and 8 octets, the data and its parity octets are less than what is left; otherwise only tracing goes off |
| `BigBufTrace.HeaderLayout` | include/pm3_cmd.h:134-146 | the header's octets, little-endian, the response flag on top |
| `BigBufTrace.LogStaysBelow` | armsrc/BigBuf.c:202-256 | below the mark a call stays below it and changes nothing logged or allocated |
| `BigBuf.BigBuf.Malloc` | armsrc/BigBuf.c:123-131 | mark and result are the allocator function's |
| `BigBuf.BigBuf.FreeAll` | armsrc/BigBuf.c:133-141 | everything is free |
| `BigBuf.BigBuf.FreeAllKeepEm` | armsrc/BigBuf.c:143-152 | everything below the emulator memory is free, which stays live |
| `BigBuf.BigBuf.EmAddr` | armsrc/BigBuf.c:87-93 | emulator memory is allocated once |
| `BigBuf.BigBuf.ToSendBuffer` | armsrc/BigBuf.c:281-287 | the ToSend buffer is allocated once |
| `BigBuf.BigBuf.Dma16Buffer` | armsrc/BigBuf.c:311-316 | the 16-bit DMA buffer is allocated once |
| `BigBuf.BigBuf.Dma8Buffer` | armsrc/BigBuf.c:318-323 | the 8-bit DMA buffer is allocated once |
| `BigBuf.BigBuf.ClearKeepEm` | armsrc/BigBuf.c:117-119 | zeros below the mark, no live byte changed |
| `BigBuf.BigBuf.LogTrace` | armsrc/BigBuf.c:202-256 | memory, trace length and tracing are the log function's; below the mark no live byte changes |
| `BigBuf.NextKeepsLive` | armsrc/BigBuf.c:86-256 | every step of allocator, log and clearing keeps the bytes of live chunks |
| `BigBuf.LiveThroughout` | armsrc/BigBuf.c:86-256 | over every run that keeps the trace below the mark, a chunk that stays live keeps every byte |
| `BigBuf.LogTouchesLive` | armsrc/BigBuf.c:202-256 | an accepted call writes into a live chunk if and only if the trace reaches above the mark |
| `BigBuf.AllocationCutsTrace` | armsrc/BigBuf.c:123-131 | one record and one allocation lead there, and then every call writes into that chunk |
| `FpgaImage.CombinedAt` | armsrc/fpgaloader.c:215-230 | byte k of image v is combined byte ((k/288)*N + v-1)*288 + k%288 |
| `FpgaImage.WantedAtPlace` | armsrc/fpgaloader.c:220-224 | the skip loop stops there |
| `FpgaImage.NothingBetween` | armsrc/fpgaloader.c:220-224 | and nowhere between two such bytes |
| `FpgaImage.FindsBitstream` | armsrc/fpgaloader.c:370-415 | section 'e' is found, with its length and position, if and only if what precedes it takes less than 100 bytes |
| `FpgaLoader.Loader.PullCombined` | armsrc/fpgaloader.c:193-213 | the next uncompressed byte, across refills; a failed refill is reported |
| `FpgaLoader.Loader.Pull` | armsrc/fpgaloader.c:220-227 | terminates on every stream, and on a sound one delivers the next byte of the image |
| `FpgaLoader.Loader.ResetStream` | armsrc/fpgaloader.c:232-255 | back to the start; true exactly for the fixed header |
| `FpgaLoader.Loader.FindSection` | armsrc/fpgaloader.c:370-415 | the search on the stream is the search in the image, and leaves the stream at the section |
| `FpgaLoader.ByteWeighed` | armsrc/fpgaloader.c:257-267 | the eight levels of a byte, the first one weighing 128, add up to the byte |
| `FpgaLoader.Loader.DownloadByte` | armsrc/fpgaloader.c:257-267 | eight levels that, the first one weighing most, are the binary number w |
| `FpgaLoader.Loader.Download` | armsrc/fpgaloader.c:340-347 | the levels clocked out, eight by eight as binary numbers, are exactly the next `length` bytes of the image |
| `FpgaLoader.Loader.Load` | armsrc/fpgaloader.c:456-492 | header check, search and download of one image |
| `FpgaLoader.DeliversBitstream` | armsrc/fpgaloader.c:340-415 | the levels clocked out, eight by eight as binary numbers, are exactly the body of section 'e', if and only if the header is below the search limit, and nothing otherwise |
| `IclassChip.RunCoherent` | armsrc/iclass.c:350-387 | in every reachable state keys, e-purse, cipher states and encoded answer agree with blocks 2, 3 and 4 |
| `IclassChip.TurnCoherent` | armsrc/iclass.c:506-871 | every frame keeps that |
| `IclassChip.AnswersFromMemory` | armsrc/iclass.c:642-703 | a nine-octet x5 frame is answered with the MAC computed afresh from memory, x8 02 with block 2; 88 02 chooses the debit key and any other first octet the credit key |
| `IclassFrames.MacUnderChosenKey` | armsrc/iclass.c:642-679 | after 88 02 a check is answered under the key of block 3, after 18 02 under that of block 4, with whatever frames in between, and from what memory then holds |
| `IclassFrames.PurseAnswered` | armsrc/iclass.c:642-663 | x8 02 is answered with block 2 and changes nothing but the choice of key |
| `IclassFrames.ReadAnswered` | armsrc/iclass.c:571-640 | blocks 3 and 4 read as eight times 0xff, every other block as its memory, each with its CRC |
| `IclassFrames.ReadFourAnswered` | armsrc/iclass.c:736-750 | four blocks as they stand in memory |
| `IclassFrames.UpdateAnswered` | armsrc/iclass.c:752-828 | a writable block takes the octets of the frame, a key outside personalization mode their exclusive or; they are sent back, and nothing else changes |
| `IclassFrames.UpdateInEveryRun` | armsrc/iclass.c:752-828 | the same after any frames, with the lock octet and the personalization bit of the start |
| `IclassFrames.WritableIs` | armsrc/iclass.c:763-772 | bit 7 of the lock octet opens the chip, bit k block 6 + k |
| `IclassFrames.SilentUnlessSelected` | armsrc/iclass.c:506-871 | an unselected chip answers ACTALL, IDENTIFY and SELECT only |
| `IclassFrames.SelectedFromStart` | armsrc/iclass.c:520-568 | ACTALL, IDENTIFY and SELECT of the anticollision number select the chip |
| `IclassFrames.AnticollisionRotates` | armsrc/iclass.c:94-98 | the anticollision number is the serial number with its bits moved on by three |
| `IclassFrames.CreditChecksCounted` | armsrc/iclass.c:700-702 | the fourth check under the credit key ends the simulation, checks under the debit key do not count |
| `IclassChip.TurnMemory` | armsrc/iclass.c:755-820 | memory changes only while selected, by an update of one unlocked block, to exactly that content |
| `IclassChip.LockedForever` | armsrc/iclass.c:764-775 | a locked block keeps its content over every run |
| `Iclass.Simulation.constructor` | armsrc/iclass.c:312-387 | the caches are loaded from memory |
| `Iclass.Simulation.Handle` | armsrc/iclass.c:506-871 | one frame takes memory, caches and answer to the state machine's next state |
| `Iclass.Simulation.ApplyUpdate` | armsrc/iclass.c:777-808 | an update of purse, keys or a data block keeps caches and memory together |
| `HitagS.StepKeeps` | armsrc/hitagS.c:482-513 | every frame keeps: the announced page is unprotected, and block_data_left tells the position in an aligned group from page 4 on |
| `HitagS.StepWrites` | armsrc/hitagS.c:482-513 | a frame changes at most the announced page, to the data it carries |
| `HitagS.ProtectedForever` | armsrc/hitagS.c:569-582 | over every run page 1 under LCON and pages 2 and 3 under LKP never change |
| `HitagS.PageWrite` | armsrc/hitagS.c:482-496 | a page write changes that page alone, or nothing when protected |
| `HitagS.NeverOverwritten` | armsrc/hitagS.c:482-597 | whatever octets are received, page 1 under LCON and pages 2 and 3 under LKP stay as they are |
| `HitagS.PageHeard` | armsrc/hitagS.c:569-582 | a frame 1000, page number and a data frame write those four octets to that page and nowhere else, unless it is protected |
| `HitagS.BlockRun` | armsrc/hitagS.c:497-513 | after a block command the first four data frames fill the group in order, whatever refused or other frames come between |
| `HitagS.BlockAddress` | armsrc/hitagS.c:584-597 | the block command reaches the addressed page if and only if its upper half is zero |
| `HitagS.Emulator.HandleReaderCommand` | armsrc/hitagS.c:357-605 | the writing cases of the handler are the state machine's step |

## Left out

- Registers, timers, DMA, SPI, LEDs, delays, and the outer receive and transmit loops: the handlers they call are modelled, joined by a lossless channel or a row of samples.
- Hitag2 logging of authentications (`auth_table`), the password modes, and the Hitag2 attack code.
- The bit reversal of `REV32` and `REV64` is modelled octet by octet, as both devices use it alike; the test vector goes through it.
- ToSend.Buffer.StuffBit: asks that the bit still fits the buffer; the source's guard for a full buffer resets the bit counter and then writes behind the end.
- Felica.FelicaFrame.Process18092Byte: CRC-16 is a parameter; a length octet below 2 is followed as the code does, and the frame theorems are for lengths 2 to 255.
- Iso14443bDemod.Demodulator.HandleSamples: asks for room when a pair completes a character, which the source does not check; the amplitude estimate is modelled in unbounded integers.
- Iso14443bDemod.Demodulator.ReceiveFrame: asks for that room all along the run.
- Em4x50.GetWord: pulse lengths are an input, and the bits array must be long enough for them, which the source does not check.
- JSON: `json_setf`, `json_printf`, `json_scanf`, file helpers, and the bounded `json_printer_buf`; the output text is unbounded.
- JsonFrozen.Frozen.ParseValue: the octet that follows the text is taken to be NUL (the escape check reads it); the text of END tokens, which the printer ignores, is not reported; element counters do not wrap at 2^31; a name that points outside the path buffer, possible only after a NUL inside a key, is empty; the cursor after an error is not stated.
- JsonPrefix.InvalidIs: with the octet that follows the text taken to be NUL.
- JsonFrozen.JsonWalkText: the text is given with its length, so a NULL or negative-length argument does not occur.
- JsonMeaning.PrettifyPreservesMeaning: for documents whose paths fit the buffer and whose keys hold no NUL; a clamped path, or a NUL behind a lead octet, may report keys and cut paths.
- DESFire: the AES branches and the secure-messaging pre- and post-processing; DES itself is an abstract permutation with its inverse.
- DesfireNxp.TdesNxpSend: input and output are one buffer or two separate ones, not overlapping pieces of one.
- DesfireCmac.CmacKey.Cmac: the working buffer is always granted.
- BigBuf.BigBuf.LogTrace: above the mark the octets must still lie in memory, which the source does not check.
- BigBuf: `BigBuf_Clear_ext`, `emlSet`, status printing; the size is below 65536, as `BigBuf_max_traceLen` needs it to be.
- FpgaLoader.Loader.PullCombined: LZ4 is a row of chunks that yield bytes or fail; after a failure every further refill fails, where the source would read from a misplaced pointer; the byte counter does not wrap.
- FpgaLoader.Loader.Load: the guard against loading twice, the FPGA's ready signals, and images whose section 'e' is longer than the image.
- iClass: chips with several pages, MAC-collection modes, the non-secure simulation; the cipher, CRC and ISO 15693 coding are parameters; delays after HALT are not modelled.
- HitagS.Emulator.HandleReaderCommand: UID, select, challenge and read answers are not stated; frames that address pages from 64 on, which the source writes out of bounds, are excluded; the LCK bits of page 1 are ignored, as in the source.
- LEGIC, `appmain.c`, flash, I2C and the other plumbing.
