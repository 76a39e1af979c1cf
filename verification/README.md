# Verified model of the reference radio

This project models the pure-software reference radio under `soapy/js/mock`, and the small protocols around it, and
proves what it promises: that the words a host puts on the feedback bus come out of the receiver unchanged, in exactly
the frames they were scheduled for, and that nothing is lost, doubled or reordered on the way.

`dafny verify dfyconfig.toml` checks everything.

| file | what it models |
|---|---|
| `Words.dfy`, `Seqs.dfy`, `Wrappers.dfy` | 32-bit words as base-4 digits; facts about sequences; an option type |
| `MapMov.dfy`, `BitChain.dfy` | the QPSK mapper, the subcarrier mover, the receiver's slicer and word mangling, and the channel between them |
| `FeedbackBus.dfy`, `FeedbackFraming.dfy` | the feedback-bus parser object, and what it does to whole streams |
| `Schedule.dfy` | the TDMA schedule lookup on wrapping counters, and its prediction |
| `UserData.dfy`, `UserDataRuns.dfy`, `UserDataTiming.dfy` | the timed user-data transmitter: the object, every run, exact timing and the fill report |
| `EndToEnd.dfy` | host frames, parser, mapper, transmitter, channel and receiver in one theorem |
| `CoarseSync.dfy` | the 1280-to-1024 re-blocker of coarse synchronisation |
| `Reblock.dfy` | the byte re-blockers: turnstile, prefix remover, counter |
| `EventQueue.dfy` | events from native threads to JavaScript, under any interleaving |
| `RateKeep.dfy`, `WorkKeeper.dfy` | rate limiting with timers; keeping callers in step |
| `Rpc.dfy` | text over the ringbus |
| `GenericOp.dfy` | the two-half-word operator protocol and its two receivers |
| `XorShift.dfy` | the running hash |
| `Signatures.dfy` | enumerating argument lists with nested loops over one shared array |

Objects that change in place are classes whose methods are proved against functions of the old state; the theorems are
about those functions. Where a theorem speaks of a recurrence of its own, a method ties it to the object
(`Schedule.LookUp`, `UserDataTiming.InStepIsLookedUp`).

## What turned out otherwise than one might expect

- The parser's packets do not depend on how the stream is cut, but a notification whose second type is `undefined` does:
  a lone header word after zeros is notified if the cut falls right behind it (`FeedbackFraming.StraysDependOnChunks`),
  and `FeedbackFraming.StraysExactly` says at which cuts of which streams that happens.
- A bad header stops the parser for good, because every scan looks at the front of the buffer again; nothing else does
  (`FeedbackFraming.PacketsEndForGood`).
- A user-data frame that carries its expanded length is taken whole exactly when its body is a multiple of eight words
  (`FeedbackFraming.MapMovFrameExact`); the library's own `setLength` does not produce that length
  (`FeedbackFraming.BuiltFramesAreLegal`).
- The transmitter's dumping state has no exit, so a late packet blocks all packets after it for good
  (`UserDataRuns.DumpingForever`). A packet with an empty body never finishes either, for 2^32 frames
  (`UserDataRuns.EmptyPacketNeverFinishes`); if it comes in time it sends what lies past its buffer
  (`UserDataRuns.EmptyPacketSends`). A packet that starts sending can finish exactly if it has a chunk
  (`UserDataRuns.FinishesIffChunks`).
- A packet for epoc 0 waits for ever, and one for a timeslot of 50 or more is dumped an epoc later
  (`UserDataTiming.FateOfPacket`).
- The schedule counts frames correctly exactly until the 32-bit counter wraps (`Schedule.EpocCountsFrames`).
- The fill report is exact for epoc differences in -128..127 and for no others (`UserDataTiming.FillReportExact`).
- Coarse synchronisation accepts a frame number of zero or less, and then never ends (`CoarseSync.NoEndWithoutFrames`).
- With a tolerance of zero or less no caller is ever let through (`WorkKeeper.StuckWithoutTolerance`). A peer may join
  late without upsetting the balance exactly if nobody is too far ahead by then: every other peer has at most
  `tolerance` calls, or one more and is held back, and the ids leave no gap (`WorkKeeper.WorkBalance`,
  `WorkKeeper.RunBalance`).
- Text over the ringbus survives exactly if no string is empty and all characters lie in 1..127 (`Rpc.RoundTrip`).
- A generic operation calls back exactly if its type leaves the low 24 bits alone (`GenericOp.OperationRoundTrip`).

## Model

| member | source | states |
|---|---|---|
| EndToEnd.OverTheAir | soapy/js/mock/mockhiggs.js:822-985 | legal frames, written as bytes and cut anywhere between words, reach the parser; all frames of any run of the transmitter go over a mirroring channel that keeps the signs of the data subcarriers' two parts; the words received from the frames that sent a chunk are exactly the first words of the user data that has arrived, eight for each chunk, and all of them once the transmitter is idle |
| EndToEnd.OnTimeOverTheAir | soapy/js/mock/mockhiggs.js:419-575 | under any fixed slot mask, moreover, words 8j..8j+8 of each user-data frame's body are received in our j-th frame from (w6 - 1) * 25600 + 512 * w5, for the words w5 and w6 of its own header, frame after frame, the current one as far as it has got, and no user words at any other time |
| EndToEnd.ParserHandsOn | soapy/js/mock/fbparse.js:357-368 | each user-data frame (header words 0 and 4 equal to 2 and 5), and nothing else, becomes a packet whose timeslot is header word 5, whose epoc is header word 6 and whose data is the body expanded |
| EndToEnd.ChunkConveysGroup | soapy/js/mock/mockhiggs.js:79-86 | the slice of an expanded body that frame j pushes is the expansion of its words 8j..8j+8 alone |
| EndToEnd.GroupsConveyed | soapy/js/mock/mockhiggs.js:419-544 | the whole chunks sent by the end of any run are, one by one, the expansions of the first groups of eight words of the arrived bodies, and of all of them when idle |
| EndToEnd.SourcedIsClean | soapy/js/mock/mockhiggs.js:79-86 | a chunk of an expanded body lies inside its buffer, or its slice is empty |
| EndToEnd.HearsGroups | soapy/js/mock/fbtag.js:166-215 | the receiver treats every frame on its own: among any other frames it hears exactly the group of words that each whole chunk conveys, in the frame that sent it |
| EndToEnd.MapperNeverThrows | soapy/js/mock/fbparse.js:179-188 | on every stream, every user-data body the parser emits is whole groups of eight words, so the mapper never throws on it |
| MapMov.Subcarrier | soapy/js/mock/mapmov.js:44-67 | the k-th enabled subcarrier is enabled and has exactly k enabled ones below it |
| MapMov.SizesAreGaloisConnected | soapy/js/mock/mapmov.js:23-31 | the two size functions are adjoint: Post(n) <= y iff n <= Pre(y), for every y |
| MapMov.PreOfPostRoundsUp | soapy/js/mock/mapmov.js:23-31 | Pre(Post(n)) is n rounded up to a multiple of eight, and n itself only for multiples |
| MapMov.CountsOfPacket | soapy/js/mock/mapmov.js:23-31 | the count for whole groups of eight words is sixteen more than their expansion, and is read back as their number |
| MapMov.AcceptedByGroup | soapy/js/mock/mapmov.js:102-119 | eight words make one frame independently of their neighbours |
| MapMov.Mapper.Reset | soapy/js/mock/mapmov.js:33-84 | the tables are the enabled and pilot subcarriers, 128 of them enabled |
| MapMov.Mapper.MapData | soapy/js/mock/mapmov.js:92-100 | every dibit of every word, low bits first, becomes its QPSK point |
| MapMov.Mapper.MoveFrame | soapy/js/mock/mapmov.js:105-119 | one pass lays 128 points on the enabled subcarriers, or runs out of data |
| MapMov.Mapper.Accept | soapy/js/mock/mapmov.js:86-122 | throws iff the word count is not a multiple of eight, and otherwise returns the frames of the data's dibits |
| BitChain.ReverseMoverIsEnabled | soapy/js/mock/fbtag.js:21-31 | the receiver's subcarrier list is exactly the transmitter's, in the same order |
| BitChain.ReverseMove | soapy/js/mock/fbtag.js:173-190 | keeps exactly the samples whose index mod 1024 is listed |
| BitChain.Slice | soapy/js/mock/fbtag.js:198-215 | sixteen sign pairs make a word; a rest of fewer is dropped |
| BitChain.DemodData | soapy/js/mock/fbtag.js:166-215 | mover and slicer together |
| BitChain.SlicedDibits | soapy/js/mock/fbtag.js:205-212 | the sliced words hold exactly the samples' sign pairs, first one lowest |
| BitChain.SignsOfSample | soapy/js/mock/fbtag.js:205 | for any two signed 16-bit numbers packed in a sample, the two bits taken out of it are set iff the numbers are negative |
| BitChain.SlicedSigns | soapy/js/mock/fbtag.js:198-215 | bit pair k mod 16 of sliced word k / 16 says which of the two signed halves of sample k are negative |
| BitChain.TransformWords128 | soapy/js/mock/mockutils.js:501-507 | reverses indices within their group of eight |
| BitChain.BitMangleSliced | soapy/js/mock/mockutils.js:511-522 | the loop complements, reverses and swaps the sixteen dibits of a word |
| BitChain.MangledWordDibits | soapy/js/mock/mockutils.js:511-522 | the dibits of the mangled word are the flipped dibits in reverse order |
| BitChain.MangleTwice | soapy/js/mock/mockutils.js:511-522 | mangling is its own inverse |
| BitChain.ReorderedAt | soapy/js/mock/mockutils.js:530-537 | word i is taken from the transformed index, or reads as zero past the end |
| BitChain.AirpacketUnmangle | soapy/js/mock/mockutils.js:530-539 | every word reordered and mangled |
| BitChain.GroupUnmangles | soapy/js/mock/mockutils.js:530-539 | on eight words, word reversal and bit reversal make one reversal of all 128 dibits |
| BitChain.QpskSigns | soapy/js/mock/mapmov.js:34-38 | the signs of a QPSK point are its dibit flipped |
| BitChain.QpskPoint | soapy/js/mock/mapmov.js:34-38 | the two parts of a point are 5793 or -5793, the upper positive iff the low bit is set and the lower iff the high bit is |
| BitChain.AcceptedSamples | soapy/js/mock/mapmov.js:44-119 | every sample of an expanded packet, in numbers: on odd subcarriers up to 127 and from 897 the point of the words' bits, two by two from the low end, eight words to a frame; on the even ones there 0x2000; zero between |
| BitChain.MirrorReversesRank | soapy/js/mock/mockhiggs.js:877-968 | mirroring the subcarriers reverses the order of the 128 enabled ones |
| BitChain.RoundTrip | soapy/js/test/test_fbtag.js:187-247 | for every word list of a multiple of eight, mapping, a mirroring channel that keeps the data subcarriers' signs, mover, slicer and unmangling return exactly the list |
| BitChain.Receive | soapy/js/mock/mockutils.js:530-539 | mover, slicer and unmangling in a row |
| BitChain.Loopback | soapy/js/mock/mockhiggs.js:877-968 | mapper object, mirroring channel and receiver in a row return every word list of a multiple of eight, and throw on the others |
| BitChain.StraightChain | soapy/js/mock/fbtag.js:166-215 | without the mirror the same chain reverses the 128 dibits of every frame |
| FeedbackBus.LengthFacts | soapy/js/mock/fbparse.js:163-218 | a legal length is at least a header, a missing length means a lone word, and a user-data body is whole groups of eight |
| FeedbackBus.ToWords | soapy/js/mock/fbparse.js:232-236 | four bytes a word, least significant first |
| FeedbackBus.WordsOfBytes | soapy/js/mock/mockutils.js:6-20 | any words written out low byte first are read back as they were |
| FeedbackBus.Parser.TrimZeros | soapy/js/mock/fbparse.js:268-293 | leading zeros go, unless there is nothing else |
| FeedbackBus.Parser.HandleMapMovPacket | soapy/js/mock/fbparse.js:357-368 | emits the expanded body, or throws iff the body is not whole groups of eight |
| FeedbackBus.Parser.TakeFront | soapy/js/mock/fbparse.js:317-339 | notifies the packet at the front and drops exactly it |
| FeedbackBus.Parser.BufGotLonger | soapy/js/mock/fbparse.js:261-354 | one scan, re-entered until no packet is complete, notifies all that are and leaves the rest; it terminates |
| FeedbackBus.Parser.GotPacket | soapy/js/mock/fbparse.js:221-246 | throws iff the bytes are not whole words, and otherwise scans buffer plus words |
| FeedbackFraming.ParseConcat | soapy/js/mock/fbparse.js:261-354 | parsing a stream can stop anywhere and go on from what was left over |
| FeedbackFraming.ScanIsParse | soapy/js/mock/fbparse.js:261-354 | one scan notifies all complete packets and then exactly the possible stray |
| FeedbackFraming.FeedIsParse | soapy/js/mock/fbparse.js:221-354 | fed in any pieces, the parser notifies the packets of the joined stream |
| FeedbackFraming.ChunkInvariance | soapy/js/mock/fbparse.js:259-354 | two ways of cutting one stream give the same packets and the same words still to parse |
| FeedbackFraming.StraysDependOnChunks | soapy/js/mock/fbparse.js:304-327 | a stream and two cuts, one of which notifies a stray |
| FeedbackFraming.StraysExactly | soapy/js/mock/fbparse.js:259-354 | for every stream and every cutting, strays are notified at exactly those non-empty pieces after which the stream so far leaves sixteen or more unparsed words that are zeros and a lone 1 or 2 |
| FeedbackFraming.BlockedByBadHeader | soapy/js/mock/fbparse.js:304-350 | no further words can make a packet iff the first nonzero words form a header with an illegal type or length |
| FeedbackFraming.PacketsEndForGood | soapy/js/mock/fbparse.js:259-354 | however a stream is cut, no continuation brings another packet iff a bad header heads what is left in the buffer |
| FeedbackFraming.FramingRoundTrip | soapy/js/mock/fbparse.js:46-96 | legal frames of all three kinds, joined by any runs of zeros and cut anywhere, come out once each, in order, with exact bodies |
| FeedbackFraming.TakenIffLegal | soapy/js/mock/fbparse.js:163-218 | a frame, whatever follows it, is taken whole iff its type, sub-type and length word go with its body: for streams and vectors 16 more than its words; for user data eight words to every 1024 above 16; for the ringbus no body and a length of 4 to 16; no other type |
| FeedbackFraming.DeliverFrames | soapy/js/mock/fbparse.js:221-246 | legal frames as bytes, joined by zero words and cut anywhere between words, all come out of the parser object, in order, with exact bodies and user data |
| FeedbackFraming.MapMovFrameExact | soapy/js/mock/fbparse.js:179-188 | a user-data frame with the expanded length is taken whole iff its body is whole groups of eight |
| FeedbackFraming.BuiltFramesAreLegal | soapy/js/mock/fbparse.js:51-57 | headers with their own length are legal iff they are not user data or the body is empty |
| FeedbackFraming.Deliver | soapy/js/mock/fbparse.js:221-246 | a fresh parser object given byte pieces notifies the packets, and the user data, of the whole stream |
| Schedule.ProgressMeaning | soapy/js/mock/mockschedule.js:66-81 | for every counter and offset the wrapping subtractions give the progress within a slot below 50 |
| Schedule.HitMeansCommonBit | soapy/js/mock/mockschedule.js:92-97 | a slot meets a mask iff they have a bit in common |
| Schedule.SlotOfPeer | soapy/js/mock/mockschedule.js:29-41 | a slot meets a peer's mask iff bit peer + 1 of the slot, counted modulo 32, is set |
| Schedule.Table.SetId | soapy/js/mock/mockschedule.js:29-32 | id and mask |
| Schedule.Table.AllOn | soapy/js/mock/mockschedule.js:43-48 | afterwards every slot is ours |
| Schedule.Table.GetTimeslot2 | soapy/js/mock/mockschedule.js:52-109 | the five results in closed form, and the epoc bumped exactly at the start of a period |
| Schedule.LookUp | soapy/js/mock/mockschedule.js:52-109 | n lookups of a fresh table with counters 0, 1, .., wrapping, leave the epoc and accumulated progress of the recurrence |
| Schedule.EpocAfterTurns | soapy/js/mock/mockschedule.js:83-90 | the epoc that LookUp reaches after any number of lookups, through any number of counter wraps, in closed form |
| Schedule.EpocCountsFrames | soapy/js/mock/mockschedule.js:52-109 | the epoc and accumulated progress that LookUp reaches add up to the frames counted iff the counter has not wrapped |
| Schedule.AddFramesToSchedule | soapy/productionjs/jsinc/schedule.js:3-19 | the two loops compute epoc and frame of the sum |
| Schedule.AddFramesComposes | soapy/productionjs/jsinc/schedule.js:3-19 | adding m and then n frames is adding m + n |
| Schedule.TicksReachPrediction | soapy/productionjs/jsinc/schedule.js:3-19 | k more lookups reach exactly the predicted epoc and frame |
| Schedule.PredictionHolds | soapy/productionjs/jsinc/schedule.js:3-19 | the same of the table and the two loops |
| UserData.Receive | soapy/js/mock/mockhiggs.js:346-399 | a packet becomes current or queues, and a queue never stands behind an idle transmitter |
| UserData.Finish | soapy/js/mock/mockhiggs.js:402-417 | the oldest queued packet becomes current, keeping the state consistent |
| UserData.Tick | soapy/js/mock/mockhiggs.js:419-575 | a frame keeps header, buffer and state together and the queue behind a current packet |
| UserData.Cs20.BufferMapmov | soapy/js/mock/mockhiggs.js:333-335 | queues at the end |
| UserData.Cs20.MapmovUserdata | soapy/js/mock/mockhiggs.js:346-399 | the object's fields move as Receive says |
| UserData.Cs20.UnbufferIfNeeded | soapy/js/mock/mockhiggs.js:337-343 | the first queued packet, if any, is received |
| UserData.Cs20.UserDataFinished | soapy/js/mock/mockhiggs.js:402-417 | the object's fields move as Finish says |
| UserData.Cs20.SendFillReport | soapy/js/mock/mockhiggs.js:578-598 | sends the epoc and frame differences, cut to 8 and 16 bits |
| UserData.Cs20.SwitchState | soapy/js/mock/mockhiggs.js:442-496 | the state after the switch and the error word, in every case |
| UserData.Cs20.ChooseFrame | soapy/js/mock/mockhiggs.js:499-531 | which buffer and offset go out, and the chunk index after |
| UserData.Cs20.BeginFrame | soapy/js/mock/mockhiggs.js:427-440 | schedule lookup and the pending fill report |
| UserData.Cs20.Loop | soapy/js/mock/mockhiggs.js:419-575 | one frame of the object: frame out, reports and the whole next state |
| UserDataRuns.EveryRun | soapy/js/mock/mockhiggs.js:333-545 | in every run, for any packets and slot masks: arrived = finished, current, queued; state, header and buffer go together; chunks leave only in our slots and only while sending; those that lie in their buffers go out 0..last of each packet once each, in order; and all of them do if every packet has one |
| UserDataRuns.StepKeeps | soapy/js/mock/mockhiggs.js:333-545 | each arrival, frame and schedule change keeps that |
| UserDataRuns.EveryFrame | soapy/js/mock/mockhiggs.js:499-531 | after any run under any masks, the next frame is silent iff its slot has no bit in common with our mask; one that is no chunk is phase tick mod 512 mod 5 of the counter pattern, or phase 1 iff in mode 7 |
| UserDataRuns.RunTells | soapy/js/mock/mockhiggs.js:437-496 | in every run each packet that becomes current has its fill level reported exactly once, in a word 0x46......, and one error word, 0x44......, is sent iff the current packet has been dumped |
| UserDataRuns.DumpingForever | soapy/js/mock/mockhiggs.js:489-495 | from the dumping state on no chunk goes out and no packet finishes, whatever happens |
| UserDataRuns.EmptyPacketNeverFinishes | soapy/js/mock/mockhiggs.js:539-544 | a packet without chunks that meets an idle transmitter stays current and finishes in no run of fewer than 2^32 frames |
| UserDataRuns.EmptyTick | soapy/js/mock/mockhiggs.js:499-507 | each chunk such a packet sends lies outside its buffer |
| UserDataRuns.EmptyPacketSends | soapy/js/mock/mockhiggs.js:456-507 | a packet without chunks that comes just in time does send one, and is stuck sending |
| UserDataRuns.FinishesIffChunks | soapy/js/mock/mockhiggs.js:456-544 | a packet that starts sending can finish within 2^32 frames iff it has at least one chunk |
| UserDataTiming.RunFollows | soapy/js/mock/mockhiggs.js:419-545 | for any slot mask that stays as it is, what each later frame of a run sends of the current packet, and whether the packet ends finished, is what its header and the mask foretold |
| UserDataTiming.ExactTiming | soapy/js/mock/mockhiggs.js:450-487 | with all slots ours, a packet that is current before tick c for target g sends chunk k at tick g+k, and no chunk goes out before g, if c <= g; it is dumped without sending any if c > g |
| UserDataTiming.OurTickMeaning | soapy/js/mock/mockschedule.js:83-109 | the j-th of our frames from g on is ours, and exactly j of ours lie between |
| UserDataTiming.OurTickUnique | soapy/js/mock/mockschedule.js:83-109 | no other frame is like that |
| UserDataTiming.Timetable | soapy/js/mock/mockhiggs.js:419-575 | under any fixed slot mask, the chunks sent in a whole run and their ticks are, packet by packet in order, chunk j in our j-th frame from the one asked for, for each finished packet, then the current one as far as it has got; nothing else is sent |
| UserDataTiming.TickOfAllOn | soapy/js/mock/mockschedule.js:43-48 | with all slots ours that is one chunk a frame from the one asked for on |
| UserDataTiming.FateOfPacket | soapy/js/mock/mockhiggs.js:450-487 | at the end of any run a packet still waits, is going out or through, or is dumped, exactly as its header, the slot mask and its arrival decide |
| UserDataTiming.ErrorsByTick | soapy/js/mock/mockhiggs.js:450-487 | which error word a waiting packet brings, by the tick: 2 once its epoc is over, 7 once its slot is, 5 once its first frame is, 4 in that frame if the slot is not ours, none otherwise; it is dumped in just these cases |
| UserDataTiming.PlayedFrames | soapy/js/mock/mockhiggs.js:499-531 | what EveryFrame says, of every frame of a run under a fixed mask |
| UserDataTiming.OursShareBit | soapy/js/mock/mockschedule.js:92-97 | a frame counts as ours iff its slot has a bit in common with our mask |
| UserDataTiming.PacketsBegin | soapy/js/mock/mockhiggs.js:346-399 | a packet with at least one chunk that meets an idle transmitter begins at once |
| UserDataTiming.QueuedPacketsBegin | soapy/js/mock/mockhiggs.js:402-417 | a packet that heads the queue begins in the frame that finishes the one before it |
| UserDataTiming.RunStaysInStep | soapy/js/mock/mockhiggs.js:563-567 | in runs shorter than 2^32 frames the epoc field agrees with the frame counter |
| UserDataTiming.InStepIsLookedUp | soapy/js/mock/mockschedule.js:83-90 | then the epoc of the next frame is the one that table lookups from zero reach |
| UserDataTiming.FillReportExact | soapy/js/mock/mockhiggs.js:578-598 | the report sign-decodes to target minus now iff the epoc difference is in -128..127 |
| CoarseSync.CachedExponential | soapy/js/mock/coarsesync.js:130-136 | the cached slice of frame t is the direct one, continues the period of 1280 samples, starts at 1 to 1280 and lies inside the table |
| CoarseSync.CoarseSyncStream.Create | soapy/js/mock/coarsesync.js:92-141 | throws iff the frame number is not divisible by 4 and 5 or the callback is no function |
| CoarseSync.CoarseSyncStream.TriggerCoarse | soapy/js/mock/coarsesync.js:143-148 | sets the pending trigger |
| CoarseSync.CoarseSyncStream.TriggerCoarseAt | soapy/js/mock/coarsesync.js:150-152 | sets the frame to trigger at |
| CoarseSync.BeginsIfAsked | soapy/js/mock/coarsesync.js:167-181 | an idle stream starts a run iff a trigger is pending or was set for this very lifetime frame |
| CoarseSync.CoarseSyncStream.BeginIfTriggered | soapy/js/mock/coarsesync.js:167-181 | when a run begins, and with what state |
| CoarseSync.CoarseSyncStream.CorrelateNext | soapy/js/mock/coarsesync.js:214-285 | one correlation: the blocks and the slice used, the callback at the last, the zeros pushed |
| CoarseSync.CoarseSyncStream.TransformChunk | soapy/js/mock/coarsesync.js:162-299 | throws iff the chunk has the wrong size, and otherwise moves the whole state as the model says |
| CoarseSync.TriggeredRun | soapy/js/mock/coarsesync.js:162-299 | a triggered run ends with chunk 4N/5 and no sooner, with an empty capture, N zero blocks pushed and one callback; correlation t used exactly blocks t-1 and t of the joined input |
| CoarseSync.AskedAfterRun | soapy/js/mock/coarsesync.js:143-181 | at the end of a run exactly the triggers that came during it are pending; what started it is used up |
| CoarseSync.OneTriggerOneRun | soapy/js/mock/coarsesync.js:143-299 | asked once, a stream pushes N zero blocks, calls back once, and passes every later chunk through |
| CoarseSync.LifetimeCounts | soapy/js/mock/coarsesync.js:201-297 | the lifetime frame, by which runs are asked for in advance, counts the blocks pushed |
| CoarseSync.NoEndWithoutFrames | soapy/js/mock/coarsesync.js:97-99 | with a frame number of zero or less a run never ends |
| CoarseSync.PassesThrough | soapy/js/mock/coarsesync.js:290-298 | outside a run, and when none is asked for, the first 1024 samples of a chunk go through and nothing else changes |
| Reblock.PieceAt | soapy/js/mock/streamers.js:159-162 | piece k is bytes k*n up to (k+1)*n |
| Reblock.FindCutoff | soapy/js/mock/streamers.js:156-157 | cutting stops exactly where less than a piece is left |
| Reblock.ByteTurnstileStream.Advance | soapy/js/mock/streamers.js:139-141 | asks for more bytes to be dropped |
| Reblock.ByteTurnstileStream.Trim | soapy/js/mock/streamers.js:148-155 | drops what is pending as far as there is data |
| Reblock.ByteTurnstileStream.OnChunk | soapy/js/mock/streamers.js:143-168 | the pieces pushed, the capture kept and the advance still pending |
| Reblock.ByteTurnstileStream.Erase | soapy/js/mock/streamers.js:169-171 | empties the capture |
| Reblock.Conservation | soapy/js/mock/streamers.js:117-172 | for any piece size, in any run of advances and inputs, the segments pushed and dropped laid end to end with the capture are the whole input; every piece has the size; the capture is shorter, unless the size is zero; dropped = advanced - pending |
| Reblock.ChunkInvariance | soapy/js/mock/streamers.js:143-168 | between advances only the joined input matters |
| Reblock.AdvanceDropsNext | soapy/js/mock/streamers.js:139-155 | an advance removes exactly the next bytes not yet pushed, however they arrive |
| Reblock.RemoveCpStream.OnChunk | soapy/js/mock/streamers.js:186-202 | each piece without its prefix |
| Reblock.RemoveCpStream.Feed | soapy/js/mock/streamers.js:176-207 | only the joined input matters |
| Reblock.CounterCounts | soapy/js/mock/streamers.js:238 | the counter counts pieces modulo 2^32 |
| Reblock.NumberedAt | soapy/js/mock/streamers.js:232-239 | piece k carries the number k places after the first |
| Reblock.AddCounterStream.OnChunk | soapy/js/mock/streamers.js:224-244 | each piece behind its number, and the counter after |
| Reblock.AddCounterStream.Feed | soapy/js/mock/streamers.js:212-249 | only the joined input matters |
| Words.BytesOfWordMean | soapy/js/mock/mockutils.js:445-457 | the four bytes of a number read as it, least significant first |
| Reblock.NumberAndRemove | soapy/js/mock/streamers.js:176-249 | the prefix remover, four bytes wider, undoes the counter stream, however either is fed |
| EventQueue.CatchCustomEvent.OnWord | soapy/productionjs/jsinc/catch_custom_event.js:20-35 | a word is held, or joined to the one held |
| EventQueue.CToJavascript.HasEvent | soapy/src/bindjs/BindCustomEvent.cpp:28-34 | both words, cut to 32 bits, go in together |
| EventQueue.TruncateKeepsWords | soapy/src/bindjs/BindCustomEvent.cpp:28-34 | values that fit in 32 bits arrive as they are, larger ones modulo 2^32 |
| EventQueue.CToJavascript.TakeWork | soapy/src/bindjs/CToJavascript.hpp:79-84 | copies and empties the vector |
| EventQueue.CToJavascript.OnOK | soapy/src/bindjs/CToJavascript.hpp:69-92 | dispatches what was in the vector, in order |
| EventQueue.EveryInterleaving | soapy/src/bindjs/CToJavascript.hpp:33-92 | for any interleaving of producers and drain, the pairs emitted are a beginning of those pushed, in lock order; between batches no half pair is held; when all is empty, all were emitted |
| EventQueue.CatchingUpEmitsAll | soapy/src/bindjs/BindCustomEvent.cpp:49-60 | from any point of any run, dispatching and draining emits everything pushed so far |
| RateKeep.RateKeeper.ResetStart | soapy/js/mock/ratekeep.js:43-46 | start time and count anew |
| RateKeep.RateKeeper.DoQueueMode | soapy/js/mock/ratekeep.js:83-113 | runs at once iff nobody waits and the rate allows it |
| RateKeep.RateKeeper.ServiceBlockedCall | soapy/js/mock/ratekeep.js:119-140 | runs the oldest waiting call iff the rate allows it |
| RateKeep.RateKeeper.ServiceAllBlocked | soapy/js/mock/ratekeep.js:147-171 | catches up, and sets a timer iff more calls wait than timers are out |
| RateKeep.RateKeeper.OnTimer | soapy/js/mock/ratekeep.js:77 | one timer fewer, then catches up |
| RateKeep.EveryRun | soapy/js/mock/ratekeep.js:64-171 | for any clock: callbacks run once each in call order, run plus waiting is submitted, and no call waits without a timer |
| RateKeep.WakeupRunsOldest | soapy/js/mock/ratekeep.js:147-156 | a timer that fires when the rate allows it runs the oldest waiting call |
| RateKeep.WaitsOnlyIfEarly | soapy/js/mock/ratekeep.js:83-171 | a call or timer leaves a call waiting only if some reading of the clock on the way was too early for as many calls as were sent and one more |
| RateKeep.RateHolds | soapy/js/mock/ratekeep.js:94-97 | with a clock that never goes back, calls sent never exceed time since the start times rate |
| RateKeep.SentOrNobodyWaits | soapy/js/mock/ratekeep.js:83-171 | after a call or timer at one moment nobody waits, or exactly as many calls have been sent as time since the start times rate allows, rounded down |
| RateKeep.ResetStartsAnew | soapy/js/mock/ratekeep.js:43-46 | after a reset the calls counted are the callbacks run since, and they keep to the rate for the time since |
| RateKeep.TimersAfterTimer | soapy/js/mock/ratekeep.js:147-171 | a timer that fires is out no longer, and one more is set iff more calls then wait than timers are out |
| RateKeep.TimersAfterCall | soapy/js/mock/ratekeep.js:83-171 | a call sets one timer iff it must wait and finds nobody waiting, or more then wait than timers are out |
| WorkKeeper.Keeper.Peers | soapy/js/mock/workkeeper.js:133-139 | registers the missing peers and changes no other |
| WorkKeeper.Keeper.MaxWork | soapy/js/mock/workkeeper.js:98-131 | the extremes and the first peer at the minimum, or a throw iff an id below the number of peers is missing |
| WorkKeeper.Keeper.RunOthers | soapy/js/mock/workkeeper.js:25-45 | runs exactly the held callbacks that are within tolerance, in peer order |
| WorkKeeper.Keeper.DoWork | soapy/js/mock/workkeeper.js:47-87 | for any id and any peers: registers the peer on its first call, then runs, holds or drops the call, or throws iff there are two peers or more and an id is missing |
| WorkKeeper.DoKeepsBalance | soapy/js/mock/workkeeper.js:47-87 | a call by a peer that waits keeps counts within tolerance and drops nothing |
| WorkKeeper.CallWhileHeld | soapy/js/mock/workkeeper.js:71-82 | a call that comes while its caller's callback is held is counted and dropped, and what is held stays |
| WorkKeeper.CallerFirst | soapy/js/mock/workkeeper.js:25-70 | a call that lets anyone run lets its caller run first, then those who were held, lower ids first |
| WorkKeeper.JoinExactly | soapy/js/mock/workkeeper.js:47-87 | a newcomer's first call keeps the balance iff every other peer has at most tolerance calls, or one more and holds a callback |
| WorkKeeper.WorkBalance | soapy/js/mock/workkeeper.js:47-131 | for a tolerance of at least 1, any call by a waiting peer keeps the balance iff the caller is known, or is the first, or joins without a gap and finds nobody too far ahead; then it does not throw |
| WorkKeeper.RunBalance | soapy/js/mock/workkeeper.js:47-131 | a run stays balanced throughout iff everyone who joins during it joins like that |
| WorkKeeper.BalanceMeans | soapy/js/mock/workkeeper.js:64-81 | balance means max - min <= tolerance, and that a peer holds a callback iff it is exactly at the limit |
| WorkKeeper.WorkDelivers | soapy/js/mock/workkeeper.js:47-87 | one call by a waiting peer is run or held in its turn, unless it throws; nothing is dropped |
| WorkKeeper.EveryRun | soapy/js/mock/workkeeper.js:25-139 | for a tolerance of at least 1, peers registered beforehand or on the way, with any ids: nothing is dropped, and each peer's callbacks run once each in order but for the one it holds and those whose call threw; balanced throughout iff all join well, and then no call throws; nobody joins if all callers were registered |
| WorkKeeper.StuckWithoutTolerance | soapy/js/mock/workkeeper.js:64-70 | with no positive tolerance nothing ever runs |
| Rpc.NullBufferSplit.AddData | soapy/js/mock/nullbuffersplit.js:21-71 | re-scanning the whole buffer delivers what a character-by-character splitter delivers |
| Rpc.NullBufferSplit.OnRing | soapy/js/mock/mockhiggs.js:690-696 | a word is its three low bytes, highest first |
| Rpc.SendToHiggsRpcRaw | soapy/js/mock/mockhiggs.js:729-756 | the words sent are the packing of the text and the ending word |
| Rpc.PackedAreCommands | soapy/js/mock/mockhiggs.js:729-756 | every word of a packed text carries the command 0x23 in its top byte |
| Rpc.UnpackValue | soapy/src/driver/EventDspFsm.cpp:2751-2756 | unpacking a packed word gives its bytes, padded with zeros |
| Rpc.ChunkInvariance | soapy/js/mock/nullbuffersplit.js:21-71 | only the joined data matters |
| Rpc.RoundTrip | soapy/js/mock/mockhiggs.js:729-756 | texts come out as the same list, in any chunking, iff none is empty and all characters are in 1..127 |
| Rpc.PreparedRoundTrip | soapy/js/mock/nullbuffersplit.js:3-8 | the same for a text with a zero byte after it |
| Rpc.Converse | soapy/js/mock/mockhiggs.js:684-756 | the same for sender and receiver joined by the ringbus |
| GenericOp.OpSays | soapy/src/common/GenericOperator.cpp:35-48 | with a type that leaves the low 24 bits alone, the two words decode to the operation, the selector's low four bits and the two halves |
| GenericOp.OperationNamed | soapy/src/common/GenericOperator.cpp:17-33 | both words of zero, add, sub, set and get carry 0, 1, 2, 3 and 4 in bits 16 to 18 |
| GenericOp.DispatchGeneric.GotWord | soapy/src/common/GenericOperator.cpp:54-62 | passes on exactly the words of its type, once a callback is set |
| GenericOp.DispatchGeneric.GotMatchingWord | soapy/src/common/GenericOperator.cpp:64-111 | the stored half and the calls, in every case |
| GenericOp.HandleOok.GotGenericOpRingbus | soapy/productionjs/jsinc/handle_ook.js:296-335 | the stored half and the calls, in every case |
| GenericOp.ReceiversAgree | soapy/productionjs/jsinc/handle_ook.js:296-335 | on every stream both receivers make the same calls |
| GenericOp.CallExactly | soapy/src/common/GenericOperator.cpp:89-110 | a message calls back iff it is the high half of a get whose low half came last, with only high halves of the same get since; the call carries both halves |
| GenericOp.OperationRoundTrip | soapy/src/common/GenericOperator.cpp:17-111 | from any state and with any foreign words between, any operation but zero, add, sub and set calls back once with selector and value iff its type leaves the low 24 bits alone; those four never do |
| XorShift.XorShift32 | soapy/js/mock/mockutils.js:541-552 | the loop computes the hash of the list |
| XorShift.StepMeans | soapy/js/mock/mockutils.js:545-549 | a step on 32 bits adds the word modulo 2^32 and xors in the shifts by 13, 17 and 5, bit by bit |
| XorShift.MixInverse | soapy/js/mock/mockutils.js:547-549 | the three shift steps can be undone, for any width |
| XorShift.StateBijection | soapy/js/mock/mockutils.js:546-549 | for a fixed word a step is a bijection of the states |
| XorShift.WordBijection | soapy/js/mock/mockutils.js:546-549 | for a fixed state a step is a bijection of the words |
| XorShift.OneWordMatters | soapy/js/mock/mockutils.js:541-552 | two lists that differ in exactly one word have different hashes |
| XorShift.LastWordDecides | soapy/js/mock/mockutils.js:541-552 | exactly one last word leads to any given hash |
| Signatures.Generator.CombTarget | soapy/js/helper/generate.js:74-95 | collects the part after leading zeros, one less each, iff that is not empty and has no zero |
| Signatures.Generator.DoCallManyTimes | soapy/js/helper/generate.js:98-107 | the loops call with every tuple in nested order, although all levels write one array |
| Signatures.Generator.CallManyTimes | soapy/js/helper/generate.js:108-110 | from an empty array |
| Signatures.TuplesCount | soapy/js/helper/generate.js:98-107 | the loops visit every tuple within the bounds exactly once |
| Signatures.KeptIsPadded | soapy/js/helper/generate.js:71-95 | a tuple is collected as s iff it is s, one more each, behind zeros |
| Signatures.EachSignatureOnce | soapy/js/helper/generate.js:112-120 | every non-empty sequence of types up to the maximum is collected exactly once, and nothing else |
| Signatures.Combinations | soapy/js/helper/generate.js:112-120 | the same of the program |

## Left out

- Sockets, child processes, the native bindings apart from the two event files, consoles and plotting: input and output.
- Floating-point signal processing: equaliser, gain, noise, angles. The channel is a permutation of subcarriers that
  keeps the signs of the data subcarriers, with all else free; a correlation is the triple of blocks and table slice it
  reads, not a number.
- `_jamming` in the parser: it feeds a console message only.
- Callbacks and listeners are entries in a log; none re-enters the parser, the rate keeper or the work keeper.
- A packet's samples are kept as words; the source stores them as bytes and multiplies the offset by four.
- `frame_counter`, `lifetime_frame_counter`, the epoc read-back and the native transmit chain of the transmitter: they
  do not affect what goes out.
- The exponential and counter tables: only lengths and offsets appear.
- Coarse synchronisation is modelled with a cyclic prefix of 256 samples, the default; other values shift every offset.
- The receiver's subcarrier list is written as the odd numbers 1..127 and 897..1023 rather than element by element.
- EndToEnd.OverTheAir: a frame that sends a chunk past the end of an empty body puts no samples on the air, as slicing
  leaves none; whether the stream goes on reading after that is input and output.
- EndToEnd.OnTimeOverTheAir: the slot mask stays as it is and the run is shorter than 2^32 frames.
- UserDataRuns.EveryRun: a packet has fewer than 2^32 chunks.
- UserDataTiming.ExactTiming: asks for an epoc of at least 1, a timeslot below 50 and fewer than 2^32 frames;
  FateOfPacket, RunFollows and Timetable cover the other headers, and Timetable what is sent after the last chunk.
- The host's decoder of the fill report, `schedule_parse_delta_ringbus`, is not part of this model: its source is not in
  the repository.
- RateKeep.EveryRun: the drop mode, which keeps no queue, is left out; so is the delay given to a timer, because the
  source passes it a callback in place of the time (soapy/js/mock/ratekeep.js:109). A timer fires at any later moment.
- RateKeep.RateHolds: rates are reals; rounding is not modelled.
- WorkKeeper.EveryRun: a peer does not call again while its callback is held; DoWork covers such calls, which are
  dropped.
- CoarseSync.CoarseSyncStream.Create: the cyclic prefix is fixed at 256, the only value the program passes.
- Rpc.SendToHiggsRpcRaw: the native sender packs the same way under another command; only this one is written out.
- GenericOp.ReceiversAgree: the words' type is already checked for the script's receiver, as its ringbus listener does.
- XorShift.XorShift32: states and words are 32-bit patterns; the source shows a state as a signed number and returns the
  initial value unreduced for an empty list.
- Signatures.Combinations: stops at the collected index lists; the generated text is left out.
