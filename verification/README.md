# Doom in the browser: verified models

Dafny models of the engine's self-contained state machines and codecs, one module per file,
each with proofs about every input, every run or every reachable state. `dafny verify
dfyconfig.toml` checks all of them.

| file | models | main results |
|---|---|---|
| `GifBlocks`, `GifLzw`, `GifStream`, `Gifenc` | the GIF encoder: bit packer, sub-blocks, LZW over a heap trie, frame differ | `GifLzw.KeysBack`, `GifLzw.DecodeEncode`, `GifStream.ReadFrame`, `Gifenc.Gif.AddFrame` |
| `GifStopCode` | the stop code written without a width step | `GifStopCode.StopCodeReadIff` |
| `DLoop` | the netgame tic loop and its ring of commands | `DLoop.Loop.TryRunTics`, `DLoop.ActsOnce`, `DLoop.NoDesync` |
| `Canary`, `CanaryNet` | the canary pairing protocol, one page and a network of any number of pages | `CanaryNet.TwoPagesPair`, `CanaryNet.MatchIsReal`, `CanaryNet.DeliveriesEnd`, `CanaryNet.PartnersAgree` |
| `Aes` | the AES counter-mode random number generator | `Aes.Encrypt`, `Aes.Prng.Random` |
| `DehStr` | the DeHackEd string table | `DehStr.Substitutions.AddStringReplacement`, `DehStr.NestsOnce` |
| `OplQueue`, `OplSdl` | the callback heap and the sound callback that schedules with it | `OplSdl.Driver.MixCallback`, `OplSdl.RunConserves` |
| `OplWriteBuf`, `OplResample`, `OplSlot` | the OPL chip emulator's timed writes, resampler, and envelope and waveforms | `OplWriteBuf.AppliedAreSubmitted`, `OplResample.Resampler.GenerateResampled`, `OplSlot.Slot.EnvelopeCalc` |
| `OplVoices` | the music driver's voice allocator, Doom 1.9 form | `OplVoices.Player.ProcessEvent`, `OplVoices.LowerIsGivenUpIff` |
| `Mixer` | sample channels across audio callbacks | `Mixer.Channel.Mix`, `Mixer.WholeSound` |
| `Sha256` | streaming SHA-256 and the demo digest | `Sha256.Context.Final`, `Sha256.DemoCanaryDigest` |
| `Bits`, `Wrappers` | bytes, bit strings, arithmetic and `Option`, shared by the others | |

Objects the source updates in place are classes here: their methods are proved against functions on
values, and what the source promises is proved about those functions or kept by `Valid()`.

## How the environment enters

- Files: `write` appends to a byte sequence. A viewer that follows GIF89a reads it back: it knows the
  size, the colour table and the repetitions, and the pictures shown, each with its delay.
- The network of the tic loop: the server completes tic t only after this client's command for t
  exists, a drone's receive window is no longer than the ring, and a connection only ever ends
  (`DLoop.Loop.CanArrive`). Time, arrivals and hang-ups are an arbitrary sequence of polls; for the
  waiting loop to end, the clock passes the stall limit at some poll, and a drone's server hangs up.
- The canary channel: messages in flight to each page are a multiset, delivered in any order or
  lost. Pages are honest: sessions are fresh, a relaunch supersedes the page's own last session
  (`replaces` in the source), and each page's exits move forward in game time.
- Callbacks of the sound scheduler: what the n-th callback does is an arbitrary list of requests for
  further callbacks and changes of tempo. However many have run, 512 in a row are still to come that
  neither ask to run again at once nor speed up, or the scheduler might never return
  (`OplSdl.Driver.Quiets`).
- A negative number converted to 64 unsigned bits is undefined in C. The driver has it become zero, as
  the WebAssembly build does; the queue is proved for targets where it wraps as well.
- The chip under the resampler is an arbitrary stream of samples; the wiring of operators to channels
  is arbitrary where the mix is bounded.

## Where the code differs from what one would expect

- The GIF stop code is written at the width before the last key (`engine/gifenc/gifenc.c:215-216`). A
  decoder that stops after the last pixel is not affected; one that waits for the stop code runs out
  of data exactly when `GifStopCode.StopCodeCut` holds.
- A code stream that fills whole sub-blocks is followed by an empty one and a terminator, so a reader
  meets a stray zero byte (`engine/gifenc/gifenc.c:171-173`). The viewer here skips it between blocks.
- For a depth of 1 the file announces two colours, but pixels keep two bits (`engine/gifenc/gifenc.c:86-98`):
  2 and 3 have no colour. `Gifenc.ColouredIff` says that this is the only such depth.
- The counter of the string table is not reset when the table grows (`engine/src/deh_str.c:112-143`),
  so a growth can run inside a growth. In every run exactly one does, the one that the 13th new key
  starts (`DehStr.NestsOnce`): it leaves a table of 64.
- A comment says a lower MIDI channel is never discarded for a higher one
  (`engine/src/i_oplmusic.c:740-742`). The code does not look at the new note's channel. A lower one is
  given up exactly when the voices that no second voice follows are all on lower channels
  (`OplVoices.LowerIsGivenUpIff`); `OplVoices.LowestIsGivenUp` shows a case in which a higher channel
  was to be had.
- Two canary pages find each other if nothing is lost and no page is launched again before its arms have
  arrived (`CanaryNet.TwoPagesPair`). The patience is needed: a page launched three times in a row can
  leave the other with a session that no longer runs, for an arm that replaces an unknown session is
  ignored for good (`engine/canary_verdict.js:223-228`, `CanaryNet.ImpatienceStrands`). Which arms are
  taken and which are not is `Canary.ArmReaction`, in both directions.
- A paused sound driver still runs a callback that is due at exactly the current time
  (`engine/opl/opl_sdl.c:120-139`), and nothing else: `OplSdl.Driver.Pass` and
  `OplSdl.Driver.MixCallback` state both directions, `OplSdl.PausedDriverRuns` is a run that does.
- A change of tempo takes offsets from the clock that runs on while paused
  (`engine/opl/opl_sdl.c:461-464`). It scales every wait as it should exactly when the driver was never
  paused (`OplSdl.TempoScalesIff`); `OplSdl.TempoAfterPause` is a run in which a callback is late.
- A change of tempo in a callback can find another callback already due, with a negative offset
  (`engine/opl/opl_queue.c:212-213`). Where the conversion wraps, that callback can be lost for good
  (`OplQueue.LateCallbackIsLost`); `OplQueue.OrderKeptIff` says when the order of two due times survives.
- A full write buffer applies its oldest write before its time (`engine/opl/opl3.c:1344-1351`), so writes
  are applied no later than stamped, and exactly then unless the buffer was full
  (`OplWriteBuf.Chip.WriteRegBuffered`, `OplWriteBuf.Chip.Generate`); `OplWriteBuf.OverflowIsEarly` is a
  run that fills it.

## Model

| member | source | states |
|---|---|---|
| `Bits.OrDisjoint` | engine/gifenc/gifenc.c:149 | or-ing a key above pending bits that stay below its place is addition |
| `Bits.AndMask` | engine/gifenc/gifenc.c:195 | masking with a power of two less one keeps exactly the low bits |
| `GifBlocks.BitsOfPadded` | engine/gifenc/gifenc.c:146-174 | the packed bytes, read back bit by bit, are the code stream followed by fewer than eight zero bits |
| `GifBlocks.PackOfBits` | engine/gifenc/gifenc.c:146-161 | packing inverts the expansion of bytes into bits; an incomplete byte stays pending |
| `GifBlocks.UnframeFull` | engine/gifenc/gifenc.c:151-157 | full 255-byte sub-blocks, read as section 15 of GIF89a says, give back their data, whatever follows |
| `GifBlocks.UnframeImageData` | engine/gifenc/gifenc.c:164-175 | for every code stream the sub-block reader recovers the packed bytes; one zero byte is left over exactly when the stream fills whole sub-blocks |
| `GifLzw.FeedCurrent` | engine/gifenc/gifenc.c:196-212 | feeding a decoder that lags one row the code of the current phrase outputs that phrase, also when the code names the row about to be added, and widens exactly when the encoder does |
| `GifLzw.EmitFollows` | engine/gifenc/gifenc.c:200-204 | after a code is emitted and a trie edge added, decoded output plus phrase in progress are still the pixels seen |
| `GifLzw.ResetFollows` | engine/gifenc/gifenc.c:205-211 | the same across a table reset at 4096 keys, with the clear code read at the width it was written in |
| `GifLzw.AlwaysTracks` | engine/gifenc/gifenc.c:190-214 | for every image, after every pixel: decoder in lock-step, every key fits its width, width at most 12, each code read before the pixel count is reached |
| `GifLzw.KeysBack` | engine/gifenc/gifenc.c:143-162 | any keys that fit their widths, written one after the other, are read back with the same widths, whatever bits follow |
| `GifLzw.KeysThroughBlocks` | engine/gifenc/gifenc.c:143-175 | the same through the byte packer and the sub-blocks, whatever bytes follow |
| `GifLzw.ReadLockstep` | engine/gifenc/gifenc.c:190-216 | a reader that keeps its own code width cuts the bit stream into exactly the codes that were written |
| `GifLzw.DecodeEncode` | engine/gifenc/gifenc.c:190-215 | for depth 2 to 8 and every non-empty image, an Appendix F decoder that stops after the last pixel recovers the pixels, whatever bits follow |
| `GifStopCode.StopCodeReadIff` | engine/gifenc/gifenc.c:215-216 | a decoder that waits for the stop code recovers the image if and only if the last key did not use up the width or a padding bit follows; otherwise it runs out of data |
| `GifStopCode.RampIsCut` | engine/gifenc/gifenc.c:200-216 | a 127-pixel image of depth 7 whose stop code is cut, so the promise fails there |
| `GifStream.PaintRect` | engine/gifenc/gifenc.c:193-195 | painting the row-order pixels of a box makes exactly the inside of the box that of the picture |
| `GifStream.DecodeImageData` | engine/gifenc/gifenc.c:177-219 | sub-blocks, bits and codes of one image together decode to its pixels |
| `GifStream.ReadImageBytes` | engine/gifenc/gifenc.c:177-219 | an image block as written, read per sections 20 and 22 of GIF89a, paints the masked box of the frame onto the canvas and nothing else |
| `GifStream.ReadDelay` | engine/gifenc/gifenc.c:249-255 | read per section 23 of GIF89a, the bytes announce exactly the delay asked for, and nothing when there is none; the canvas does not change |
| `GifStream.PaintCovered` | engine/gifenc/gifenc.c:266-271 | painting only a box that covers all differences gives the whole new frame |
| `GifStream.ReadFrame` | engine/gifenc/gifenc.c:257-274 | one call's bytes make a viewer of the previous frame show the new masked frame next, for the delay asked for |
| `GifStream.ReadHeader` | engine/gifenc/gifenc.c:95-119 | header and colour table of every size are read back as a blank canvas of the right dimensions with those colours |
| `GifStream.ReadLoop` | engine/gifenc/gifenc.c:130-138 | the loop extension announces exactly the number of repetitions asked for |
| `GifStream.ReadFileAppend` | engine/gifenc/gifenc.c:257-279 | a viewer reads appended blocks from where it stopped, so frames compose over any number of calls |
| `Gifenc.NewTrie` | engine/gifenc/gifenc.c:52-61 | the new heap trie stands for the empty dictionary with one node per pixel and two skipped keys |
| `Gifenc.AddChild` | engine/gifenc/gifenc.c:204 | storing the new node extends the trie by exactly one edge, the next key |
| `Gifenc.DefaultTable` | engine/gifenc/gifenc.c:101-119 | without a palette exactly 2^depth colours are written, also through the early exit of the cube loops |
| `Gifenc.ColouredIff` | engine/gifenc/gifenc.c:86-98 | every pixel that is drawn has a colour in the table if and only if the depth asked for is at least 2 |
| `Gifenc.CubeColour` | engine/gifenc/gifenc.c:106-114 | colour 16 + 36 r + 6 g + b of the default table is 51 times r, g and b |
| `Gifenc.Header` | engine/gifenc/gifenc.c:95-122 | the bytes written first, and that a viewer reads them as a blank picture with these colours and repetitions |
| `Gifenc.Gif.constructor` | engine/gifenc/gifenc.c:75-128 | a new file satisfies the invariant: depth at least 2, blank canvas, the colours and repetitions asked for, no picture shown |
| `Gifenc.Gif.PutByte` | engine/gifenc/gifenc.c:151-160 | one byte into the 255-byte buffer, flushed as a sub-block when full; indices stay in range |
| `Gifenc.Gif.PutKey` | engine/gifenc/gifenc.c:143-162 | a key of at most 12 bits is appended to the bit stream; partial stays below 2^(offset mod 8) |
| `Gifenc.Gif.EndKey` | engine/gifenc/gifenc.c:164-175 | the bytes from the start of the image are the framed, padded code stream |
| `Gifenc.Gif.Emit` | engine/gifenc/gifenc.c:199-211 | emit, grow or reset: the heap trie, key counter and width stand for the encoder state after the pixel |
| `Gifenc.Gif.PutPixel` | engine/gifenc/gifenc.c:195-212 | one pass of the inner loop is one pixel of the encoder |
| `Gifenc.Gif.PutRow` | engine/gifenc/gifenc.c:194-213 | one row of the box, masked, enters the encoder in order |
| `Gifenc.Gif.Begin` | engine/gifenc/gifenc.c:190-192 | image start: new trie, clear code |
| `Gifenc.Gif.Finish` | engine/gifenc/gifenc.c:215-217 | last phrase, stop code and terminator complete the framed code stream |
| `Gifenc.Gif.PutCodes` | engine/gifenc/gifenc.c:190-218 | the bytes after the descriptor are the framed LZW codes of the box |
| `Gifenc.Gif.PutImage` | engine/gifenc/gifenc.c:177-219 | the bytes of a whole image block |
| `Gifenc.Gif.SetDelay` | engine/gifenc/gifenc.c:249-255 | the bytes of the graphic control extension |
| `Gifenc.Gif.GetBbox` | engine/gifenc/gifenc.c:221-247 | false exactly when nothing changed; otherwise the smallest box, inside the picture, that covers every changed pixel |
| `Gifenc.Gif.ChooseBox` | engine/gifenc/gifenc.c:265-273 | the whole picture first; then the smallest box around all changes, or one pixel if nothing changed |
| `Gifenc.Gif.AddFrame` | engine/gifenc/gifenc.c:257-279 | in every sequence of calls: the pictures a viewer of the file so far shows are those of the calls before plus the masked frame with its delay, 0 where none is given; it is drawn in exactly the box chosen, and the buffers have traded places |
| `Gifenc.Gif.Close` | engine/gifenc/gifenc.c:281-287 | the closed file is complete and shows all pictures, each for its delay |
| `DLoop.BuildKeeps` | engine/src/d_loop.c:188-193 | storing a local command in the shared ring keeps every pending command and received set, if the builder is less than a ring ahead |
| `DLoop.ReceiveKeeps` | engine/src/d_loop.c:280-294 | storing a received set keeps the local commands and the sets still to run |
| `DLoop.ConsumeKeeps` | engine/src/d_loop.c:770-790 | overwriting the slot just run keeps everything that is still to run |
| `DLoop.NextSet` | engine/src/d_loop.c:770 | the slot of the next tic holds the local command and the received commands of exactly that tic |
| `DLoop.NextOffline` | engine/src/d_loop.c:652-666 | once disconnected, the slot holds the local player's command and nobody else is in the game |
| `DLoop.SquashTwice` | engine/src/d_loop.c:638-650 | squashing again changes nothing, so all duplicates of a tic are alike |
| `DLoop.ActsOnce` | engine/src/d_loop.c:638-650 | in every run, of the game tics a set is run for the first has it whole; all others have the same players and movement, no letter, no special buttons, and the other buttons unless special ones were pressed |
| `DLoop.RunsAs` | engine/src/d_loop.c:777-790 | run i of a set is the game tic it should be, squashed unless it is the first |
| `DLoop.RefinesGrows` | engine/src/d_loop.c:761-794 | what was executed stays explained by the histories as they grow |
| `DLoop.NoDesync` | engine/src/d_loop.c:673-794 | two clients whose received streams echo each other execute the same turns while connected: of what they ran, the shorter is a prefix of the longer |
| `DLoop.RanWhenReady` | engine/src/d_loop.c:736-758 | no tic runs before its local command is built and, while connected, its set received |
| `DLoop.Loop.BuildNewTic` | engine/src/d_loop.c:141-196 | a command is built exactly when the loop is not too far ahead (4, 8 or 2 tics); the ring invariant holds after |
| `DLoop.Loop.ReceiveTic` | engine/src/d_loop.c:269-295 | the received set joins the history; the local player's slot is not overwritten |
| `DLoop.Loop.NetUpdate` | engine/src/d_loop.c:205-248 | exactly the sets that may arrive are received, in order; exactly the commands there is room for are built, in order; a hang-up ends the connection and is fatal only for a drone; nothing happens in singletics mode |
| `DLoop.Loop.GetLowTic` | engine/src/d_loop.c:536-551 | the lower of both counters while connected, the own counter after |
| `DLoop.Loop.RunDuplicates` | engine/src/d_loop.c:777-790 | a set runs exactly ticdup times, and never above lowtic |
| `DLoop.Loop.RunSet` | engine/src/d_loop.c:763-790 | running one set extends the log as the histories prescribe |
| `DLoop.Loop.Counts` | engine/src/d_loop.c:703-733 | at least one set, and never more than are available unless none is; outside new_sync the elapsed tics bound it from both sides, and it is one more than they are while yet more is available |
| `DLoop.Loop.WaitForTics` | engine/src/d_loop.c:736-758 | the wait ends, with enough tics or in a stall; a stall needs a poll past the limit and too few tics; a player with enough tics does not wait; lowtic never falls |
| `DLoop.Loop.RunTics` | engine/src/d_loop.c:761-794 | exactly the given number of sets runs, unless a drone lost its players or its server |
| `DLoop.Loop.FirstUpdate` | engine/src/d_loop.c:692-703 | the low tic after it is the one that room, window, commands and arrivals give; a single tic builds one command |
| `DLoop.Loop.TryRunTics` | engine/src/d_loop.c:673-794 | the invariant holds after every call, so the execution log refines the histories, and chat and special buttons act once, in every run; exactly the counted number of sets runs; a pass stalls only past the limit when not one set can run, and then runs nothing; a player that can run a set runs; neither error on tic order is reachable |
| `Canary.ArmReaction` | engine/canary_verdict.js:213-229 | an unpartnered page takes the first valid arm of another session, a page whose partner it supersedes follows it; the reports go and the page answers with its own arm; no other arm does anything |
| `Canary.PairingKept` | engine/canary_verdict.js:329-396 | every reaction keeps: a held report is from the current partner and addressed to the current session |
| `Canary.MatchMeans` | engine/canary_verdict.js:237-287 | the aggregate is MATCH if and only if both reports are complete with the same exit, lengths and digests |
| `CanaryNet.BroadcastTo` | engine/canary_verdict.js:380-396 | a broadcast reaches every other page and no one else |
| `CanaryNet.EventKeeps` | engine/canary_verdict.js:181-229 | launch, log line, delivery and loss keep the network invariant |
| `CanaryNet.RunKeeps` | engine/canary_verdict.js:181-396 | so does every run |
| `CanaryNet.Provenance` | engine/canary_verdict.js:181-188 | in every run, a report in flight or held was published earlier by a page running that session, armed with the session it names |
| `CanaryNet.MatchIsReal` | engine/canary_verdict.js:251-287 | an aggregate MATCH means another page, as partner of this very session, completed an equal exit report |
| `CanaryNet.AdoptionPays` | engine/canary_verdict.js:213-235 | adopting a partner lowers the page's remaining partner moves; no other reaction changes them |
| `CanaryNet.DeliveryLowers` | engine/canary_verdict.js:329-359 | every delivery and every loss lowers the weight |
| `CanaryNet.DeliveriesEnd` | engine/canary_verdict.js:329-359 | without launches or log lines no run of deliveries is longer than the weight |
| `CanaryNet.PartnerKept` | engine/canary_verdict.js:213-229 | no message makes a page leave its partner, or change its session or report, while the partner still runs the session it was adopted with |
| `CanaryNet.MutualKept` | engine/canary_verdict.js:213-229 | every event but a relaunch of one of the two, or the loss of a message to one of them, keeps both partner links and sessions |
| `CanaryNet.ToldRun` | engine/canary_verdict.js:362-396 | from mutual partnership, a completed exit is on its way or held until superseded by a later one |
| `CanaryNet.PartnersAgree` | engine/canary_verdict.js:251-287 | two mutual partners that completed the same last exit end with the same verdict, never PENDING, and MATCH exactly for equal reports |
| `CanaryNet.TwoPagesPair` | engine/canary_verdict.js:202-229 | two pages, launched any number of times, nothing lost, no page launched again before its arms have arrived: once no arm is on its way they are partners |
| `CanaryNet.OnceIsEnough` | engine/canary_verdict.js:202-229 | two pages, each launched once, nothing lost, nothing in flight: they are partners |
| `CanaryNet.ImpatienceStrands` | engine/canary_verdict.js:223-228 | three launches of one page while its arms are on their way: nothing is lost, nothing is in flight, and the other page follows the second |
| `DehStr.ComputeHash` | engine/src/deh_str.c:41-53 | the loop computes the 32-bit string hash |
| `DehStr.PathReaches` | engine/src/deh_str.c:65-74 | a linear probe visits every slot |
| `DehStr.FreeSlot` | engine/src/deh_str.c:147-157 | a table below its load limit has a free slot, so probing ends |
| `DehStr.ProbeMisses` | engine/src/deh_str.c:65-77 | a probe that meets a free slot has missed no entry of that key |
| `DehStr.InsertKeeps` | engine/src/deh_str.c:154-165 | filling the slot where the probe ended keeps every entry reachable and adds exactly one |
| `DehStr.AddWithoutGrowth` | engine/src/deh_str.c:145-166 | re-adding below the load limit only counts |
| `DehStr.FirstGrowthNests` | engine/src/deh_str.c:112-143 | the counters in which growth nests, 12 entries in a table of 16, and what it leaves: 36 and 64 |
| `DehStr.AheadStays` | engine/src/deh_str.c:112-152 | a table whose counter runs ahead of its entries grows at most once per key, and its counter stays ahead |
| `DehStr.NestsOnce` | engine/src/deh_str.c:112-166 | over every run, growth nests inside growth exactly at the 13th new key |
| `DehStr.Substitutions.SubstitutionForString` | engine/src/deh_str.c:55-78 | finds the entry of a key if and only if there is one |
| `DehStr.Substitutions.DehString` | engine/src/deh_str.c:83-97 | the last replacement, or the string itself |
| `DehStr.Substitutions.InitHashTable` | engine/src/deh_str.c:99-108 | an empty table of 16 |
| `DehStr.Substitutions.IncreaseHashtable` | engine/src/deh_str.c:112-143 | every entry is kept once and reachable, through nested growth of any depth; counters as computed; terminates |
| `DehStr.Substitutions.AddToHashtable` | engine/src/deh_str.c:145-166 | one entry added, all others kept, growing first when the counter says so |
| `DehStr.Substitutions.AddStringReplacement` | engine/src/deh_str.c:168-206 | the table stands for the map updated at the key: the last replacement wins, in place when the key is known; the length more than doubles exactly at the 13th new key |
| `OplQueue.RootIsLeast` | engine/opl/opl_queue.c:192-202 | heap order puts a least time at the root |
| `OplQueue.RiseStep` | engine/opl/opl_queue.c:84-107 | one step of sifting up |
| `OplQueue.SinkStep` | engine/opl/opl_queue.c:143-183 | one step of sifting down, to the child due no later than the other |
| `OplQueue.Queue.Push` | engine/opl/opl_queue.c:65-112 | heap order kept; the multiset gains the entry, and loses it only at 512 entries |
| `OplQueue.Queue.SiftUp` | engine/opl/opl_queue.c:84-107 | shifting entries around a hole leaves a heap with the same entries |
| `OplQueue.Queue.Pop` | engine/opl/opl_queue.c:114-190 | removes exactly one entry, of minimal time; fails only when empty |
| `OplQueue.Queue.SiftDown` | engine/opl/opl_queue.c:139-187 | the same for the hole at the root, with the last entry read in place |
| `OplQueue.Queue.EarlierChild` | engine/opl/opl_queue.c:143-175 | of the children due before the last entry the earlier one; none if there is none |
| `OplQueue.Queue.Peek` | engine/opl/opl_queue.c:192-202 | the least time of the queue, 0 when empty |
| `OplQueue.Queue.Clear` | engine/opl/opl_queue.c:60-63 | empties the queue |
| `OplQueue.Quotient` | engine/opl/opl_queue.c:212-213 | the offset divided by the factor, rounded toward zero: for an offset from 0 up q times the factor is at most the offset and q + 1 times exceeds it, below 0 the mirror image |
| `OplQueue.ScaledInOrder` | engine/opl/opl_queue.c:204-215 | dividing the offsets from any time by a positive factor, rounding toward zero, keeps the order of due times, overdue or not, unless a result wraps below zero |
| `OplQueue.OrderKeptIff` | engine/opl/opl_queue.c:212-213 | where the unsigned conversion wraps, two due times keep their order if and only if not just the earlier one falls below zero |
| `OplQueue.LateCallbackIsLost` | engine/opl/opl_queue.c:212-213 | a callback 21 microseconds late and a factor of one half: with wrapping it is next due near 2^64 |
| `OplQueue.Queue.AdjustCallbacks` | engine/opl/opl_queue.c:204-215 | every wait is replaced in place by the whole number of times the factor fits into it; what is overdue is due at once where conversion saturates; the queue stays a heap if no result wraps below zero |
| `OplSdl.RoundingsCompose` | engine/opl/opl_sdl.c:117-118 | samples rounded up and time rounded down compose to an error in [0, one sample) |
| `OplSdl.RunConserves` | engine/opl/opl_sdl.c:128-139 | over every run of callbacks: what is waiting and what has run is what was waiting and what was asked for, entry by entry while the tempo stays, in number always, but for requests made of a full queue |
| `OplSdl.Driver.SetCallback` | engine/opl/opl_sdl.c:436-441 | adds exactly the requested callback, relative to unpaused time; nothing else changes, and a full queue refuses |
| `OplSdl.MovedIff` | engine/opl/opl_sdl.c:461-464 | that a wait is so divided determines the new due time |
| `OplSdl.Driver.AdjustCallbacks` | engine/opl/opl_sdl.c:461-464 | at any moment, also inside a running callback with others overdue: every wait is divided by the factor, from the clock, the queue stays a heap, and nothing is overdue afterwards |
| `OplSdl.TempoScalesIff` | engine/opl/opl_sdl.c:461-464 | a change of tempo divides the wait of every callback that is not overdue by its factor, rounding down, if and only if the pause offset is zero |
| `OplSdl.TempoAfterPause` | engine/opl/opl_sdl.c:461-464 | a run: after a pause of 44 samples a callback due at once waits 997 microseconds after a change of tempo |
| `OplSdl.Driver.Invoke` | engine/opl/opl_sdl.c:138 | a running callback asks for further callbacks and changes the tempo, in any order |
| `OplSdl.Driver.SetPaused` | engine/opl/opl_sdl.c:456-459 | pausing changes no due time |
| `OplSdl.Driver.FireFirst` | engine/opl/opl_sdl.c:128-138 | the callback due first, and no other, leaves the queue and runs, at this clock and between these samples; the queue then changes by what it does |
| `OplSdl.Driver.RunDue` | engine/opl/opl_sdl.c:128-140 | runs callbacks first come first until none is due, each less than a sample late, at the present clock and sample; the queue changes by their turns and nothing else; terminates |
| `OplSdl.Driver.AdvanceTime` | engine/opl/opl_sdl.c:107-140 | advances clock and pause offset by the time of the samples, then the same at the advanced clock; nothing due is left waiting |
| `OplSdl.Driver.FillBuffer` | engine/opl/opl_sdl.c:144-153 | the next samples of the emulator, in order |
| `OplSdl.Driver.PeekIsWaiting` | engine/opl/opl_sdl.c:187-190 | at the loop head no due time is before the current time, so the unsigned subtraction cannot wrap |
| `OplSdl.Driver.ChunkIsOnTime` | engine/opl/opl_sdl.c:181-206 | the next chunk ends at the next due time, less than a sample late |
| `OplSdl.Driver.Pass` | engine/opl/opl_sdl.c:173-207 | samples up to the next callback or the end of the buffer, then the clock, then the turns of what is due, after those samples; every pass ends the buffer or runs a callback; while paused it runs one only if due at this very moment |
| `OplSdl.MoreInPlace` | engine/opl/opl_sdl.c:201-206 | the callbacks of one more chunk run between the samples that their clock falls between |
| `OplSdl.Driver.MixCallback` | engine/opl/opl_sdl.c:157-208 | exactly the requested samples; the queue changes by the turns of the callbacks that ran and nothing else, each punctual and run between the samples that its clock falls between, less at most a microsecond per earlier callback; nothing due is left; the clock advances by the length of the buffer less at most a microsecond per callback; while paused a callback runs exactly if one is due at this very moment |
| `OplSdl.PausedDriverRuns` | engine/opl/opl_sdl.c:120-139 | a paused driver that runs a callback |
| `OplWriteBuf.TimesRise` | engine/opl/opl3.c:1340-1354 | pending stamps never fall |
| `OplWriteBuf.TakeFirst` | engine/opl/opl3.c:1164-1174 | applying the oldest write leaves the rest pending in order |
| `OplWriteBuf.AddLast` | engine/opl/opl3.c:1354-1366 | storing a write appends it to the pending segment |
| `OplWriteBuf.Chip.ApplyOldest` | engine/opl/opl3.c:1344-1351 | the oldest write of a full ring is applied at the present counter, which then moves on to its stamp |
| `OplWriteBuf.Chip.Store` | engine/opl/opl3.c:1353-1365 | the write goes to the free slot, stamped with the larger of the last stamp plus the delay and the sample counter |
| `OplWriteBuf.Chip.WriteRegBuffered` | engine/opl/opl3.c:1340-1366 | the write is submitted with that stamp; only a full ring first applies its oldest write, before its stamp, and the counter catches up, never back |
| `OplWriteBuf.OverflowIsEarly` | engine/opl/opl3.c:1344-1351 | a run of 1025 writes without a sample: the first is applied at 0 although stamped 2, and the counter moves to 2 |
| `OplWriteBuf.Chip.ApplyFirst` | engine/opl/opl3.c:1164-1173 | the oldest pending write is applied at its stamp |
| `OplWriteBuf.Chip.Generate` | engine/opl/opl3.c:1164-1175 | each sample applies exactly the writes stamped for it |
| `OplWriteBuf.AppliedAreSubmitted` | engine/opl/opl3.c:1340-1366 | in every reachable state writes were applied once, in submission order, no later than their stamps, which are at least two samples apart |
| `OplSlot.Exp` | engine/opl/opl3.c:184-191 | attenuated output lies in [0, 4084] and is 0 from level 0x1000 on |
| `OplSlot.WaveInRange` | engine/opl/opl3.c:193-328 | each of the eight waveforms stays in [-4085, 4084] for every phase and envelope |
| `OplSlot.RangeIsExact` | engine/opl/opl3.c:305-314 | both ends of that range occur |
| `OplSlot.Periodic` | engine/opl/opl3.c:193-328 | only the low ten bits of the phase count |
| `OplSlot.HalfSine` | engine/opl/opl3.c:213-230 | waveform 1 is the positive half of waveform 0 |
| `OplSlot.RectifiedSine` | engine/opl/opl3.c:232-245 | waveform 2 is the rectified waveform 0 |
| `OplSlot.QuarterSine` | engine/opl/opl3.c:247-260 | waveform 3 keeps the rising quarters of waveform 2 |
| `OplSlot.SineSymmetry` | engine/opl/opl3.c:193-211 | waveform 0 is inverted half a period later and mirrored within half a period |
| `OplSlot.DoubleSine` | engine/opl/opl3.c:262-285 | waveform 4 runs the sine at double speed, mirrored and then inverted, in its first half |
| `OplSlot.RectifiedDoubleSine` | engine/opl/opl3.c:262-303 | waveform 5 is waveform 4 rectified; both are silent in the second half |
| `OplSlot.SawAndSquare` | engine/opl/opl3.c:305-328 | waveform 7 runs back inverted, waveform 6 has only its sign |
| `OplSlot.AttackUnmasked` | engine/opl/opl3.c:472-475 | the shifted complement of the attack is a drop between 1 and the level |
| `OplSlot.LevelIs` | engine/opl/opl3.c:448-504 | before the mask, the level that the assignments compute is that of the state machine, and it fits nine bits |
| `OplSlot.LouderOnlyInAttack` | engine/opl/opl3.c:360-505 | attack never raises the level, nothing else lowers it but the instant attack of a key-on, and a moving attack always lowers it |
| `OplSlot.DecayStopsAtSustain` | engine/opl/opl3.c:477-486 | with a fixed sustain level decay never overshoots it, in every run |
| `OplSlot.DecayStep` | engine/opl/opl3.c:477-486 | sustain begins exactly at the sustain level |
| `OplSlot.HeldPhasesAdvance` | engine/opl/opl3.c:465-504 | while a key is held the phases only advance, and a holding sustain is constant |
| `OplSlot.ReleaseDies` | engine/opl/opl3.c:487-504 | after key-off the level never falls and enough moving steps silence the slot |
| `OplSlot.AttackArrives` | engine/opl/opl3.c:467-476 | a held moving attack reaches full level within 511 moving steps |
| `OplSlot.Slot.RateOfPhase` | engine/opl/opl3.c:375-411 | key-on and attack run at the attack rate, decay at the decay rate, release and a sustain that is not held at the release rate: 0 stands still, 15 is the fastest; a held sustain stands still |
| `OplSlot.SlowSteps` | engine/opl/opl3.c:415-434 | in one period of the timer bits it watches, a slow rate moves the level 4 plus its low bits times, at no other time, and the rate 4 higher at half the period |
| `OplSlot.FastSteps` | engine/opl/opl3.c:435-446 | four steps of a fast rate add up to 4 per rate step plus the low bits; rate 15 always shifts by 3 |
| `OplSlot.LowestSet` | engine/opl/opl3.c:1134-1137 | the loop finds the lowest set bit; 36 only if none of the 36 bits is set |
| `OplSlot.Clock.Tick` | engine/opl/opl3.c:1111-1162 | tremolo is the triangle over 210 positions, shifted, vibrato runs over 8, timers advance, eg_add locates the lowest set bit of the envelope timer, and is 0 exactly when the low 13 bits are clear |
| `OplSlot.Channel.WriteA0` | engine/opl/opl3.c:779-797 | the low eight bits of the frequency number are replaced, the others kept; the key-scale value is block and note-select bit |
| `OplSlot.Channel.WriteB0` | engine/opl/opl3.c:799-819 | block and high frequency bits set, low bits kept; the key-scale value follows |
| `OplSlot.Slot.Write20` | engine/opl/opl3.c:615-629 | multiplier and flags hold exactly the bits of the byte; the envelope is untouched |
| `OplSlot.Slot.UpdateKsl` | engine/opl/opl3.c:349-358 | key-scale attenuation clamps at 0 and fits its byte |
| `OplSlot.Slot.Write80` | engine/opl/opl3.c:644-652 | sustain level 15 means 31 |
| `OplSlot.Slot.EnvelopeCalc` | engine/opl/opl3.c:360-505 | the envelope after one step is that of the unmasked state machine: the nine-bit mask never wraps; output level at most 1013 |
| `OplSlot.Slot.Generate` | engine/opl/opl3.c:663-666 | the slot output is the waveform and stays in range |
| `OplSlot.Slot.CalcFeedback` | engine/opl/opl3.c:668-679 | the sum of the last two outputs shifted down by 9 less the setting, 0 for setting 0; it stays in its narrow range |
| `OplSlot.MixSide` | engine/opl/opl3.c:1033-1072 | however channels are wired to slots, the 16-bit channel sums and the 32-bit mix do not wrap, so the sample is the clipped true sum |
| `OplResample.QuotientBounds` | engine/opl/opl3.c:1187-1190 | division rounding toward zero stays between bounds |
| `OplResample.BlendBetween` | engine/opl/opl3.c:1187-1190 | each output lies between the two native samples around it, and the products fit 32 bits |
| `OplResample.BlendIsLinear` | engine/opl/opl3.c:1187-1190 | each output is on the line between them at the weight, but for less than one, and is the first at weight 0 |
| `OplResample.Resampler.GenerateResampled` | engine/opl/opl3.c:1178-1192 | native samples times ratio plus the remainder is always 1024 per output; output n is the interpolation at position 1024 n; the loop ends for every positive ratio |
| `OplResample.NativeRate` | engine/opl/opl3.c:1178-1192 | at ratio 1024 the resampler only delays by one sample |
| `OplVoices.LouderIsLouder` | engine/src/i_oplmusic.c:552-558 | a louder note or channel is attenuated no more; silence by 63, full volume by 0 |
| `OplVoices.AttenuationEnds` | engine/src/i_oplmusic.c:552-558 | note volume 0 is silent on every channel, full volume is not attenuated |
| `OplVoices.Attenuation` | engine/src/i_oplmusic.c:552-558 | carrier attenuation is six bits for all volumes |
| `OplVoices.Wrapped` | engine/src/i_oplmusic.c:827-835 | the note ends in 0 to 95, whole octaves away |
| `OplVoices.WrapNote` | engine/src/i_oplmusic.c:827-835 | the two loops compute it |
| `OplVoices.FreqAt` | engine/src/i_oplmusic.c:847-879 | every frequency-table index is in range and the register value has 13 bits, never 0 |
| `OplVoices.BendIsPitch` | engine/src/i_oplmusic.c:837 | 32 steps of bend are a semitone, within the eight octaves |
| `OplVoices.BendMoves` | engine/src/i_oplmusic.c:837-850 | more bend is as much higher on the frequency curve |
| `OplVoices.OctavesWrap` | engine/src/i_oplmusic.c:827-835 | a note beyond the eight octaves sounds an octave nearer |
| `OplVoices.LowestNote` | engine/src/i_oplmusic.c:837 | the lowest note without bend is at position 64 |
| `OplVoices.SecondIsDetuned` | engine/src/i_oplmusic.c:842-850 | the second voice of the same data is half the fine tuning less 64 higher |
| `OplVoices.OffsetMoves` | engine/src/i_oplmusic.c:820-823 | a fixed pitch ignores the base offset; otherwise it is added to the note |
| `OplVoices.CurveEnds` | engine/src/i_oplmusic.c:855-878 | the first 668 positions are the curve itself; above the eighth octave it repeats |
| `OplVoices.OctaveUp` | engine/src/i_oplmusic.c:852-879 | an octave higher is the same frequency number one block higher, up to block 7 |
| `OplVoices.Player.constructor` | engine/src/i_oplmusic.c:607-630 | all voices free, in order |
| `OplVoices.Player.GetFreeVoice` | engine/src/i_oplmusic.c:382-410 | the oldest free voice moves to the end of the allocated list; fails only when none is free |
| `OplVoices.Player.ReleaseVoice` | engine/src/i_oplmusic.c:416-457 | the voice leaves its place, goes to the end of the free list, and is keyed off; a bad index empties both lists |
| `OplVoices.Player.ReleaseConcerned` | engine/src/i_oplmusic.c:712-723 | the release loop stably splits the allocated list into kept and released voices |
| `OplVoices.Player.KeyOff` | engine/src/i_oplmusic.c:693-724 | no allocated voice of this channel and key is left, no other is released, and all others keep their notes |
| `OplVoices.Player.AllNotesOff` | engine/src/i_oplmusic.c:1164-1179 | no allocated voice of the channel is left, no other is released, and all others keep their notes |
| `OplVoices.Player.StopSong` | engine/src/i_oplmusic.c:1573-1578 | every voice is free and keyed off |
| `OplVoices.Player.SetVoiceInstrument` | engine/src/i_oplmusic.c:491-536 | level registers agree with the loaded instrument, note and channel untouched |
| `OplVoices.Player.SetVoiceVolume` | engine/src/i_oplmusic.c:538-592 | the carrier register holds the attenuation of note and channel volume, key scaling untouched, modulator no louder when not modulating |
| `OplVoices.Player.FrequencyForVoice` | engine/src/i_oplmusic.c:805-879 | the register value of note, offset, bend and fine tuning |
| `OplVoices.Player.UpdateVoiceFrequency` | engine/src/i_oplmusic.c:883-901 | after it the chip sounds the voice at that frequency, keyed on |
| `OplVoices.Player.VoiceKeyOn` | engine/src/i_oplmusic.c:907-959 | takes the oldest free voice and programs it; without one nothing changes |
| `OplVoices.VictimIsCandidate` | engine/src/i_oplmusic.c:736-754 | the scan finds the one voice such that every later one is a first voice on a lower channel, and an earlier one is on a higher channel only if a second voice stands between |
| `OplVoices.Player.FindVictim` | engine/src/i_oplmusic.c:736-754 | the loop computes that scan |
| `OplVoices.Player.ReplaceExistingVoice` | engine/src/i_oplmusic.c:731-757 | that voice is released and goes to the end of the free list |
| `OplVoices.LowerIsGivenUpIff` | engine/src/i_oplmusic.c:736-754 | in every state a note on channel c costs a voice of a lower channel if and only if the voices that no second voice follows are all on lower channels |
| `OplVoices.LowestIsGivenUp` | engine/src/i_oplmusic.c:740-754 | a first voice on channel 5 and a second voice on channel 0: a note on channel 1 takes that of channel 0 |
| `OplVoices.Player.MakeRoom` | engine/src/i_oplmusic.c:1055-1060 | with no voice free the chosen one is given up and is then the only free one; all others keep their notes |
| `OplVoices.Player.KeyOn` | engine/src/i_oplmusic.c:1055-1073 | the first voice of the note sounds on the oldest free voice or else on the one given up, a second one if the instrument is double and two were free; all others keep their order and their notes; with none free a lower channel is the one given up exactly under the condition above |
| `OplVoices.Player.PlayNote` | engine/src/i_oplmusic.c:1062-1070 | a double instrument gets its second voice whenever two are free; voices that were not free are untouched |
| `OplVoices.Player.SetChannelVolume` | engine/src/i_oplmusic.c:1090-1118 | the clipped channel volume, and every sounding voice of the channel follows; nothing but their levels changes |
| `OplVoices.Player.PitchBend` | engine/src/i_oplmusic.c:1222-1262 | voices of the channel move on the frequency curve by the change of bend, sound where they are, and move, in order, behind the others in the list; nothing else changes |
| `OplVoices.Player.PutBack` | engine/src/i_oplmusic.c:1251-1261 | the two loops write both lists back |
| `OplVoices.Player.ProgramChange` | engine/src/i_oplmusic.c:1075-1088 | only later notes are affected |
| `OplVoices.Player.ProcessEvent` | engine/src/i_oplmusic.c:1316-1356 | every channel event keeps: the lists partition the voices, allocated exactly when a channel is set, registers as the channel state says; each does to the allocated list, to the channels and to the notes of the voices exactly what its handler should, and nothing else |
| `OplVoices.Player.PlayAll` | engine/src/i_oplmusic.c:1316-1356 | any run of events, then a stop, leaves all voices quiet |
| `Mixer.Chunk.CheckIntegral` | engine/sdl_mixer/mixer.c:911-919 | drops less than one frame, and nothing from an aligned chunk |
| `Mixer.CyclesSnoc` | engine/sdl_mixer/mixer.c:295-302 | the bytes from the sample pointer continue the repetition of the chunk |
| `Mixer.Channel.Put` | engine/sdl_mixer/mixer.c:963-970 | a fresh play: everything still to come, no fade, and it stops exactly after the time given, if any |
| `Mixer.Channel.Take` | engine/sdl_mixer/mixer.c:288-302 | feeding n bytes keeps conservation and whole frames |
| `Mixer.Channel.Rewind` | engine/sdl_mixer/mixer.c:324-337 | one loop fewer to come, one chunk more |
| `Mixer.Channel.Feed` | engine/sdl_mixer/mixer.c:284-338 | a callback gets exactly what is due: the whole buffer from an infinite loop, otherwise what is left up to the buffer size |
| `Mixer.Channel.Mix` | engine/sdl_mixer/mixer.c:256-339 | the same with pause, expiry and fade-out |
| `Mixer.WholeSound` | engine/sdl_mixer/mixer.c:284-338 | a channel that falls silent without being cut has fed the chunk exactly loops + 1 times |
| `Mixer.CyclesRepeat` | engine/sdl_mixer/mixer.c:284-338 | whole repetitions, byte for byte |
| `Mixer.SplitsAgree` | engine/sdl_mixer/mixer.c:284-338 | how the audio callbacks split the time does not change the bytes |
| `Mixer.Output.PlayChannelTimed` | engine/sdl_mixer/mixer.c:927-977 | errors change no channel; -1 finds the first free unreserved channel; only that channel is touched, and it expires exactly after the time given, if any |
| `Mixer.Output.MixChannels` | engine/sdl_mixer/mixer.c:255-340 | every channel feeds its due exactly once per callback |
| `Sha256.Context.ComputeSchedule` | engine/src/d_democanary.c:67-78 | the message schedule of section 6.2.2 of FIPS 180-4 |
| `Sha256.WordIsBigEndian` | engine/src/d_democanary.c:67-71 | the first octet of a word is the highest, and octets written come back |
| `Sha256.LengthValue` | engine/src/d_democanary.c:146-149 | the eight length octets are the bit count in base 256, most significant first |
| `Sha256.Choose` | engine/src/d_democanary.c:82-93 | Ch takes bits of y where x has ones, and of z elsewhere |
| `Sha256.Majority` | engine/src/d_democanary.c:82-93 | Maj takes what two of the three agree on |
| `Sha256.StepRound` | engine/src/d_democanary.c:82-93 | the eight assignments are one round |
| `Sha256.Context.CompressBlock` | engine/src/d_democanary.c:61-99 | one block folded into the state as section 6.2 says |
| `Sha256.Context.Update` | engine/src/d_democanary.c:111-127 | the message grows by the data, so every way of splitting it gives the same state; bit count modulo 2^64 |
| `Sha256.ZerosLeft` | engine/src/d_democanary.c:140-144 | the padding loop has not passed its end |
| `Sha256.ZerosDone` | engine/src/d_democanary.c:140-144 | it stops exactly after (55 - length) mod 64 zeros |
| `Sha256.Context.AddPadding` | engine/src/d_democanary.c:131-151 | the padding of section 5.1.1 |
| `Sha256.Context.Final` | engine/src/d_democanary.c:129-160 | the digest of everything hashed |
| `Sha256.HexInjective` | engine/src/d_democanary.c:167-175 | different digests print differently |
| `Sha256.DigestToHex` | engine/src/d_democanary.c:167-175 | two lower-case digits per byte |
| `Sha256.DemoCanaryRawDigest` | engine/src/d_democanary.c:177-194 | refuses a short buffer, otherwise the printed digest |
| `Sha256.DemoCanaryDigest` | engine/src/d_democanary.c:196-223 | the raw digest of the prefix with byte 8 zeroed; refuses short anchors and buffers |
| `Sha256.NormalizedAgree` | engine/src/d_democanary.c:196-223 | two recordings are hashed as the same message exactly when they agree up to the anchor, byte 8 aside |
| `Aes.FtWordMixes` | engine/src/aes_prng.c:813-818 | four lookups in the rotated tables are SubBytes, ShiftRows and MixColumns for one column, sections 5.1.1 to 5.1.3 of FIPS 197 |
| `Aes.FlWordSubstitutes` | engine/src/aes_prng.c:828-833 | four last-round lookups substitute one byte each |
| `Aes.RoundConstants` | engine/src/aes_prng.c:108 | the round constants are the powers of x in GF(2^8) |
| `Aes.NextRoundKey` | engine/src/aes_prng.c:667-678 | one pass of the schedule macro computes the next four words of section 5.2 |
| `Aes.Loop4` | engine/src/aes_prng.c:667-678 | the same in place |
| `Aes.ExpandKey` | engine/src/aes_prng.c:736-788 | for every 128-bit key the schedule is KeyExpansion |
| `Aes.NormalRoundInto` | engine/src/aes_prng.c:813-826 | a table round is a full round of the cipher |
| `Aes.LastRoundInto` | engine/src/aes_prng.c:828-840 | the last round is the round without mixing |
| `Aes.Encrypt` | engine/src/aes_prng.c:842-881 | for every key and block the table rounds compute Cipher of section 5.1 |
| `Aes.CounterValue` | engine/src/aes_prng.c:906-925 | the four counter bytes, least significant first, are the counter modulo 2^32 |
| `Aes.StreamRepeats` | engine/src/aes_prng.c:906-933 | the stream has period 2^32 |
| `Aes.Prng.Start` | engine/src/aes_prng.c:891-897 | a start resets the stream of the given key |
| `Aes.Prng.Stop` | engine/src/aes_prng.c:899-902 | a stopped generator is disabled |
| `Aes.Prng.Generate` | engine/src/aes_prng.c:906-933 | the next block is the encryption of the next four counters |
| `Aes.Prng.Random` | engine/src/aes_prng.c:937-955 | draw n since the start is word n mod 4 of the encryption of counters 4 (n div 4) to 4 (n div 4) + 3 modulo 2^32; 0 when disabled |

## Left out

- Integer widths of counters that only grow (file sizes, frame and tic counts, queue times, the string table's counters) are unbounded here; where the source relies on wrap-around it is written out.
- Memory: `calloc` failure, `del_trie`, `Z_Free` and the freeing of old tables; file descriptors and their errors.
- GIF: images that are 0 pixels wide or high, depth above 8, and the Windows branch; local colour tables and interlacing, which the encoder never writes.
- The viewer's tolerance is only as wide as needed: of extensions it reads the delay and the repetitions, it leaves pictures in place, and it refuses other disposals, transparency and waiting for the user.
- Gifenc.Colours: the sixteen VGA colours are those of the source.
- Tic loop: how a clock turns into tics (`GetAdjustedTime`, `lasttime`, `skiptics`, `OldNetSync`), menu and event processing, sending commands; net_client and net_server are not part of this model.
- DLoop.NoDesync: speaks of the sets both clients ran while connected; after a disconnect each plays on alone.
- Canary: parsing of the log text, the labels, the room URL and channel name, and the page around the protocol; an exit is compared as a tuple instead of its joined key.
- CanaryNet.PartnersAgree: starts from mutual partnership and lossless delivery to the two pages, because a report published before the partner reciprocates is dropped.
- CanaryNet.TwoPagesPair: two pages; with more, who pairs with whom depends on the order of arrival. Patience is sufficient, not necessary, for a given order.
- AES keys of 192 and 256 bits and the decryption schedule, which the generator never uses; the tables are given by the rule that generates them from the S-box, whose 256 values are taken from the source.
- DeHackEd: file reading and `DEH_printf` and its relatives with their format checks.
- OplQueue.Queue.AdjustCallbacks: the float factor is a positive real, so float rounding and a factor that is zero, infinite or not a number are not modelled.
- OplSdl.Driver.AdjustCallbacks: takes the conversion of a negative number to be the saturating one; for the wrapping one see `OplQueue.Queue.AdjustCallbacks`.
- OplSdl: SDL setup, the OPL timers, mutexes, and the sound effects mixed around it.
- OplSlot: the phase generator, which alone reads the multiplier and vibrato bits, rhythm noise, four-operator wiring and stereo masks other than on and off; the low bits of phase that a waveform gets are arbitrary.
- OplSlot.Exp: the two lookup tables are those of the source; that they approximate a sine and an exponential is not stated.
- OplSlot.DecayStopsAtSustain: for a sustain level that does not change during decay; a register write can put it below the current level.
- OplSlot.Channel.WriteA0: the paired channel of a four-operator voice, and the call that refreshes the key-scale level of the two slots, `OplSlot.Slot.UpdateKsl`.
- OplSlot.Channel.WriteB0: the same two.
- OplVoices.Player.SetVoiceInstrument: of the registers of the operators only the levels; tremolo, attack, sustain, waveform and feedback are not modelled.
- OplVoices.Player.ProcessEvent: the pan controller, and `I_OPL_PauseSong` (`engine/src/i_oplmusic.c:1522-1546`), which keys the main voices off without releasing them, so that "allocated means keyed on" does not cover a paused song.
- OplVoices: Doom 1.666 drivers, pan, music volume changes and song restart, the percussion log, and registers other than frequency and level; instrument scale and level bytes are two and six bits as the chip's register has them, MIDI data bytes seven bits.
- OplVoices.Player.ReleaseVoice: the recursive release of the second voice belongs to drivers before 1.9.
- Mixer: volumes, effects, music, channel groups and the channel-finished callback, which is not called when a loop ends at a buffer edge; the decoders behind chunks.
- Mixer.SplitsAgree: compares two channels with the same chunk; that a given split feeds a given number of bytes is `Mixer.Channel.Mix`.
- Sha256.StepRound: the rotation amounts and the constants of SHA-256 are the standard's, given once for the standard and the code.
- SHA-256 of messages of 2^61 bytes and more counts bits modulo 2^64, as the source does.
- Positional effects, music decoders, menus, input, rendering and the generated JavaScript.
