# Verified model of RTEMS cpukit components

A Dafny model of several pieces of the RTEMS cpukit, with proofs of what they are for.
`dafny verify dfyconfig.toml` checks everything.

| files | component |
|---|---|
| `FastLzFormat`, `FastLzRoundTrip`, `FastLzCompress`, `FastLz` | the FastLZ compressor and decompressor of the run-time linker, both bitstream levels |
| `ObjCache`, `ObjComp` | the sliding object-file cache, and the compressed stream read through it |
| `DrvSide`, `DrvSystem`, `DrvRun`, `DrvAccount`, `DrvMgr`, `DrvLimits`, `DrvList` | the driver manager's level-by-level initialisation: its lists and relations, its update as a transition system, the account of handlers, the manager itself, what the scheme does not do, and the linked list |
| `DevWalk`, `Translate` | the driver manager's tree walk and its address translation across bridges |
| `FtpAscii`, `FtpPool` | the FTP daemon's ASCII transfers and its pool of session tasks |
| `I2cBus` | ownership of an I2C bus across calls and tasks |
| `Md4Reference`, `Md4`, `Md4Answer` | MD4 as RFC 1320 defines it, the implementation, and a known answer |
| `Sections`, `SymTab` | section placement and the global symbol table of the run-time linker |
| `GdbPacket` | framing of GDB remote packets |

How the model is built:

- Code that works in place is a class or a method with loops over arrays. What it promises is stated against a specification function, and the laws are lemmas about that function.
- Callbacks, POSIX calls and bus operations are nondeterministic; init handlers and bus operations are recorded where they are called, and contracts speak of that record. A parameter `healthy` says that a device reports no errors; nothing is promised after a failure except where stated.
- Concurrency (the session pool, the I2C bus) and the driver manager's update are state machines over atomic steps, with theorems over every run. The same operations are also methods, proved to be sequences of those steps.
- C integers are unbounded here except where wrapping matters: `size_t` subtraction and the read counter, the MD4 words and byte counter, checksums and hashes are written out.

Places where the code does not do what its comments or documentation say (the model follows the code):

- `drvmgr.c` says that children of a failed bus or bridge are always caught later. They are, except when the failure happens in the very last step: `DrvLimits.LastStepFailureIsReached` is a run from the empty manager in which a bus stays active behind a failed bridge, `DrvLimits.LastStepFailureStays` says that nothing but a raised level changes that, and `DrvSystem.OutlivesFailedBridge` says exactly when it is so.
- Nor is a device caught that was initialised before its bus: registered on a bus that still waits for `init[0]`, it may reach level 1 first and stay active when the bus then refuses. `DrvLimits.DeviceOutlivingItsBusIsReached` is such a run, `DrvSystem.OutlivesFailedBus` says exactly when a device of a failed bus is active, and `DrvRun.OrderlyDevicesHaveTheirBus` says that it never happens when devices are registered on buses that are up or coming up.
- The restart logic of `drvmgr_init_update` does not notice registrations made while the bus loop is above level 0 (by bus handlers above `init[0]`, or by another task meanwhile) unless a device is handled afterwards. `DrvLimits.LateRegistrationIsReached` is a run in which a registered device stays behind on list 0, `DrvLimits.LateRegistrationIsMissed` gives such a run from every state at rest at level 2 or above with a device that has not failed, and `DrvRun.UpdateEndsQuiescentExactly` says exactly which updates leave something behind.
- A cache read at the end of the file, or a first read of a file that reaches past its end, never returns. `ObjCache.Cache.Read` is proved to return under the exact complement of that condition, and `ObjCache.Cache.Spin` shows that it does not return otherwise.
- `drvmgr_translate_bus` returns size 0 both for failure and for a successful translation of the last address of a window: `Translate.SizeZeroIsAmbiguous` is an instance and `Translate.NoRoomExactlyAtEdge` the exact condition.
- MD4Update counts more than 512 bits before reporting them as an error, loses 2^32 when the count and the lowest byte of the counter do not fit 32 bits together, and reads the byte behind the last full one even when no bit of it is used; so MD4Final reads one byte through a null pointer (without effect on the result).
- The debugger's receiver takes `{` for an escape and never leaves that state; its sender escapes with `}` but does not escape `}` itself. `GdbPacket.RecoveredExactlyWithoutBrace` and `GdbPacket.EscapeReversibleExactlyWithoutClose` give the exact conditions under which packets and texts survive.
- A stream read of more bytes than are left in the blocks, which end the file, never returns. `ObjComp.Comp.ReadOrSpin` proves both halves: it returns if and only if the length is at most what is left, and otherwise it delivers all that is left and then asks the cache for bytes it never gets.
- Bytes a stream has unpacked but not yet handed out are lost when its cache is flushed or serves another file in between. `ObjComp.KeepsBufferedExactly` is the exact condition and `ObjComp.LosesAByte` an instance.
- `rtems_rtl_sect_align` takes the complement of its mask in the 32 bits of the alignment, so on a 64-bit target an unaligned offset loses its upper half: `Sections.AlignLosesUpperHalf` is an instance and `Sections.AlignIsMaskedExactly` the exact condition.
- The debugger's receiver reads a checksum character that is no digit as all ones, so such a packet can pass: `GdbPacket.NoDigitPasses`; `GdbPacket.DeliveredExactlyOnChecksum` says exactly which do.
- A bus driver whose start or address operation answers with a negative number makes a transfer look like that many bytes moved (`I2cBus.I2c.ReadWrite`); status codes are not negative.
- Level 2 compression of fewer than four bytes produces a level 1 stream, which decompresses all the same.

## Model

| member | source | states |
|---|---|---|
| `FastLzFormat.CopyFrom` | libdl/fastlz.c:478-523 | an overlapping copy appends `len` bytes and keeps all that was there |
| `FastLzFormat.EmitMatch` | libdl/fastlz.c:307-368 | a spelled match opens with a control byte of at least 32 and, near or at least five bytes long, is shorter than what it stands for |
| `FastLzFormat.ParseMatch` | libdl/fastlz.c:431-463 | a parsed match has at least three bytes, a positive distance, and never reads past memory |
| `FastLzFormat.DecodeTurn` | libdl/fastlz.c:429-545 | one token only ever extends the output, never beyond `maxout`, and moves the input forward |
| `FastLzFormat.Decode` | libdl/fastlz.c:140-152 | decompressed data never exceeds `maxout` |
| `FastLzRoundTrip.MatchBytes1` | libdl/fastlz.c:431-463 | what every pair or triple of bytes of a level 1 match means, in numbers |
| `FastLzRoundTrip.MatchBytes2` | libdl/fastlz.c:431-463 | likewise at level 2: 31 and 255 announce distance 256 * h + l + 8192, and a 255 in the length goes on |
| `FastLzRoundTrip.KnownStream` | libdl/fastlz.c:140-152 | a literal stream of each level and what it decompresses to |
| `FastLzRoundTrip.ReadsBackExtension` | libdl/fastlz.c:447-451 | the 255-run length extension is read back for every length |
| `FastLzRoundTrip.ReadsBackLength` | libdl/fastlz.c:442-451 | every length a level can spell is read back |
| `FastLzRoundTrip.ReadsBackDistance` | libdl/fastlz.c:452-462 | near distances never spell the far escape, far ones always do, and both are read back |
| `FastLzRoundTrip.ReadsBackMatch` | libdl/fastlz.c:431-463 | a spelled match parses to its own length, distance and end |
| `FastLzRoundTrip.TurnReadsToken` | libdl/fastlz.c:429-546 | a decoder turn over a spelled token yields the token's meaning, or refuses exactly when it does not fit |
| `FastLzRoundTrip.DecodesFromToken` | libdl/fastlz.c:429-548 | from any token on, decoding yields the expansion of the whole stream or refuses exactly when it does not fit |
| `FastLzRoundTrip.OpensWithCount` | libdl/fastlz.c:199-203 | every stream opens with a literal count below 32, which leaves room for the level tag |
| `FastLzRoundTrip.DecodeInvertsCompressedForm` | libdl/fastlz.c:140-152 | whatever tokens were chosen and whatever follows in memory, decompression returns exactly the input if it fits and 0 otherwise |
| `FastLzCompress.CopyReproduces` | libdl/fastlz.c:261-289 | where the bytes agree at a distance, a match of that distance reproduces the input |
| `FastLzCompress.CloseRun` | libdl/fastlz.c:291-297 | patching the provisional count turns an open literal run into a well-formed token |
| `FastLzCompress.DropEmptyRun` | libdl/fastlz.c:295-297 | stepping back over an unused count leaves a well-formed stream |
| `FastLzCompress.FullRun` | libdl/fastlz.c:386-390 | a run of 32 literals needs no patch and opens the next run |
| `FastLzCompress.AppendMatch` | libdl/fastlz.c:306-369 | appending a match over agreeing bytes keeps the output a spelling of the input so far |
| `FastLzCompress.PutExtension` | libdl/fastlz.c:318-320 | the loop writes exactly the length extension |
| `FastLzCompress.PutLength` | libdl/fastlz.c:310-320 | writes exactly the length bytes of the level |
| `FastLzCompress.PutDistance` | libdl/fastlz.c:321-345 | writes exactly the near or far distance bytes |
| `FastLzCompress.PutMatch` | libdl/fastlz.c:307-346 | writes exactly the spelling of one match |
| `FastLzCompress.EncodeMatch` | libdl/fastlz.c:306-369 | any match length, split into 262-byte pieces at level 1, is spelled correctly in fewer bytes than it covers |
| `FastLzCompress.FindMatch` | libdl/fastlz.c:211-259 | a match is accepted if and only if a run goes on (level 2) or the position the table proposes is near enough and its bytes agree; whatever the table proposes, it is real and its distance has a spelling; the table then holds this position |
| `FastLzCompress.ExtendMatch` | libdl/fastlz.c:261-289 | the extended match agrees byte for byte, ends at the first byte that differs or where comparing stops, and comparing stays inside the input |
| `FastLzCompress.NewTable` | libdl/fastlz.c:196-197 | the table starts out pointing at the first byte |
| `FastLzCompress.Literal` | libdl/fastlz.c:382-390 | one literal more keeps the loop's invariant and its size bound |
| `FastLzCompress.EndRun` | libdl/fastlz.c:291-300 | the run is closed, by patching or by stepping back, without growing the output |
| `FastLzCompress.Turn` | libdl/fastlz.c:206-391 | each turn advances and keeps the output a spelling of the input so far, within n + n/32 bytes; it writes a match exactly when one is offered |
| `FastLzCompress.Leftover` | libdl/fastlz.c:394-404 | all remaining bytes go out as literals |
| `FastLzCompress.Finish` | libdl/fastlz.c:394-417 | the finished and tagged output is a spelling of the whole input |
| `FastLzCompress.CompressShort` | libdl/fastlz.c:180-193 | up to three bytes become one literal run, none become nothing |
| `FastLzCompress.ShortInput` | libdl/fastlz.c:180-193 | the short form is a valid spelling, readable at level 1 |
| `FastLzCompress.Compress` | libdl/fastlz.c:166-418 | for every input and every hash the output is a spelling of the input of at most n + n/32 + 1 bytes, tagged with the level |
| `FastLzCompress.DocumentedBufferSuffices` | libdl/fastlz.h:47-48 | 5 percent more than the input and at least 66 bytes is always enough |
| `FastLz.CopyMatch` | libdl/fastlz.c:478-523 | the in-place copy, a run, by bytes or by words, equals the byte-by-byte meaning and touches nothing after it |
| `FastLz.FillRun` | libdl/fastlz.c:478-487 | filling with the last byte equals copying at distance one |
| `FastLz.CopyBytes` | libdl/fastlz.c:494-523 | copying upwards byte by byte repeats the pattern when source and target overlap |
| `FastLz.CopyWord` | libdl/fastlz.c:508-520 | one 16-bit copy, made only from two bytes back or more, equals two byte copies |
| `FastLz.CopyWords` | libdl/fastlz.c:494-520 | the 16-bit copies with their odd byte equal the byte-by-byte meaning, overlap or not |
| `FastLz.ReadRun` | libdl/fastlz.c:447-451 | the summing loop equals the length extension, or hits the end of memory exactly when that does |
| `FastLz.ReadMatch` | libdl/fastlz.c:431-463 | parsing in the loop equals the specification's parse |
| `FastLz.CopyLiterals` | libdl/fastlz.c:537-539 | literals are copied and nothing after them is touched |
| `FastLz.DecodeToken` | libdl/fastlz.c:429-545 | one token refines the decoder's turn; nothing at or past `maxout` changes |
| `FastLz.DecompressLevel` | libdl/fastlz.c:420-549 | the loop refines the decoder on arbitrary input; nothing at or past `maxout` changes and no copy starts before the output |
| `FastLz.Decompress` | libdl/fastlz.c:140-152 | the level dispatch refines the decoder; unknown levels give 0; it never faults when two bytes (level 1), or a byte other than 255 and three more (level 2), follow the input |
| `FastLz.CompressAuto` | libdl/fastlz.c:130-138 | a spelling of the input within the bound, of level 1 below 65536 bytes and of level 2 from there on |
| `FastLz.CompressLevel` | libdl/fastlz.c:154-162 | levels 1 and 2 compress and tag the output; any other returns 0 and writes nothing |
| `FastLz.RoundTrip` | libdl/fastlz.c:130-162 | compressing at either level, then decompressing, returns every input unchanged, the empty one included |
| `FastLz.StaysInMemory` | libdl/fastlz.c:429-546 | on malformed input the decoder reads at most two bytes past it (level 1), or three past the first byte that ends a run of 255s (level 2) |
| `FastLz.NeverOverruns` | libdl/fastlz.c:140-152 | with that much memory behind it, no call on any input reads outside memory |
| `ObjCache.SizeSub` | libdl/rtl-obj-cache.c:129-130 | unsigned subtraction wraps exactly when it would be negative |
| `ObjCache.PosixRead` | libdl/rtl-obj-cache.c:201-218 | any nonempty fragment of what is there, nothing exactly at the end |
| `ObjCache.Cache.constructor` | libdl/rtl-obj-cache.c:33-48 | a new cache is coherent with any set of files |
| `ObjCache.Cache.Flush` | libdl/rtl-obj-cache.c:62-71 | after a flush, even of a damaged cache, it is coherent |
| `ObjCache.Cache.MoveDown` | libdl/rtl-obj-cache.c:162-162 | the overlapping move brings the right bytes to the front |
| `ObjCache.Cache.Fill` | libdl/rtl-obj-cache.c:185-219 | however reads are fragmented, the buffer continues the file and the level counts what the file had |
| `ObjCache.Cache.Slide` | libdl/rtl-obj-cache.c:116-175 | a hit changes nothing; otherwise the kept bytes are the file's and the request never passes its end |
| `ObjCache.Cache.Pass` | libdl/rtl-obj-cache.c:116-235 | a turn answers exactly when all bytes are there, else it fills the buffer from the offset and binds the file |
| `ObjCache.Cache.Read` | libdl/rtl-obj-cache.c:73-238 | after any history it terminates and returns exactly the file's bytes, cut short only at its end; too long or past-the-end requests fail and change nothing |
| `ObjCache.Cache.Spin` | libdl/rtl-obj-cache.c:116-235 | outside that condition no number of turns ever answers |
| `ObjCache.Cache.ReadByVal` | libdl/rtl-obj-cache.c:240-255 | all bytes or none: on failure the destination is untouched |
| `ObjComp.Comp.constructor` | libdl/rtl-obj-comp.c:33-51 | a new stream is not open |
| `ObjComp.Comp.Set` | libdl/rtl-obj-comp.c:66-79 | opening forgets buffered bytes and resets the counter |
| `ObjComp.Comp.FetchBlock` | libdl/rtl-obj-comp.c:124-148 | the cache delivers exactly the next block's packed bytes |
| `ObjComp.Comp.Unpack` | libdl/rtl-obj-comp.c:150-165 | stored or compressed, the buffer becomes the block's piece |
| `ObjComp.Comp.NextBlock` | libdl/rtl-obj-comp.c:122-175 | the buffer becomes the next piece and the stream stands at the block after it; an unknown type fails |
| `ObjComp.Comp.TakeBuffered` | libdl/rtl-obj-comp.c:105-120 | bytes handed out and bytes kept together are what was buffered |
| `ObjComp.Comp.Deliver` | libdl/rtl-obj-comp.c:99-120 | delivering moves bytes from what remains to what was sent, losing none |
| `ObjComp.Comp.Refill` | libdl/rtl-obj-comp.c:122-175 | fetching a block leaves the rest of the stream the same |
| `ObjComp.Comp.Round` | libdl/rtl-obj-comp.c:99-176 | a turn conserves sent plus remaining bytes and makes progress |
| `ObjComp.Comp.Collect` | libdl/rtl-obj-comp.c:99-178 | the loop terminates with the next `length` bytes of the stream delivered |
| `ObjComp.Comp.CollectTurn` | libdl/rtl-obj-comp.c:99-178 | after each turn, bytes delivered and bytes left make up the stream as it was at the start |
| `ObjComp.Comp.BlocksOrEnd` | libdl/rtl-obj-comp.c:124-137 | with the buffer used up, the cache can answer the next length read if and only if bytes are left |
| `ObjComp.Comp.RoundOrSpin` | libdl/rtl-obj-comp.c:99-176 | a turn conserves sent plus remaining bytes, or finds no block after delivering all of them with more still wanted |
| `ObjComp.Comp.CollectOrSpin` | libdl/rtl-obj-comp.c:99-178 | the loop ends with all bytes exactly when enough are left, and otherwise stops at the end of the file with all of them delivered |
| `ObjComp.Comp.Spins` | libdl/rtl-obj-comp.c:124-131 | at the end of the file no number of turns of the cache's loop answers the next length read |
| `ObjComp.Comp.ReadOrSpin` | libdl/rtl-obj-comp.c:81-179 | for every length: the read returns if and only if that much is left; else everything left is delivered and it never returns |
| `ObjComp.Comp.Read` | libdl/rtl-obj-comp.c:81-179 | a read delivers the next slice of the concatenated pieces and counts exactly its bytes; a stream that is not open fails |
| `ObjComp.FirstBlock` | libdl/rtl-obj-comp.c:133-137 | where the big-endian length and the bytes of the next block lie in the file |
| `ObjComp.Pack` | libdl/fastlz.c:130-138 | every piece whose worst case fits the cache compresses to a block the stream can read |
| `ObjComp.ReadPart` | libdl/rtl-obj-comp.c:81-179 | one read of any length gives that many bytes of the stream |
| `ObjComp.ReadAll` | libdl/rtl-obj-comp.c:81-179 | any sequence of reads gives consecutive slices that, with what is left, make up the concatenated pieces; the counter is their sum |
| `ObjComp.OpensStream` | libdl/rtl-obj-comp.c:66-79 | a stream set to where the blocks begin in a file delivers exactly their pieces and ends where they end |
| `ObjComp.KeepsBufferedExactly` | libdl/rtl-obj-comp.c:94-97 | a read continues with the buffered bytes if and only if the cache still serves this file or nothing is buffered |
| `ObjComp.FlushLosesBuffered` | libdl/rtl-obj-comp.c:94-97 | after a flush of the cache exactly the pieces of the blocks not yet fetched remain |
| `ObjComp.LosesAByte` | libdl/rtl-obj-comp.c:94-97 | two bytes packed, one read and a flush: the second is never delivered |
| `ObjComp.PackAll` | libdl/fastlz.c:130-138 | any pieces become blocks that stand for their concatenation |
| `ObjComp.PackAndRead` | libdl/rtl-obj-comp.c:66-179 | compressor, cache and stream composed: after packing any pieces into a file and opening it, any reads deliver consecutive slices of the pieces from their first byte on, and count them |
| `DrvSide.OnExactlyOneList` | libdrvmgr/drvmgr.c:136-178 | an object not in flight is on exactly one list, an active one on that of its own level |
| `DrvSide.RegisterKeepsPlaced` | libdrvmgr/drvmgr.c:505-568 | registration keeps lists and state fields in agreement |
| `DrvSide.PopKeepsPlaced` | libdrvmgr/drvmgr.c:136-141 | so does taking an object off its list |
| `DrvSide.TakeKeepsPlaced` | libdrvmgr/drvmgr.c:303-312 | so does reaching the next level |
| `DrvSide.DropKeepsPlaced` | libdrvmgr/drvmgr.c:316-321 | so does failing |
| `DrvSide.RegisterKeepsOrder` | libdrvmgr/drvmgr.c:566-566 | registration keeps every list first in, first out |
| `DrvSide.PopKeepsOrder` | libdrvmgr/drvmgr.c:158-168 | so does taking from its front |
| `DrvSide.TakeKeepsOrder` | libdrvmgr/drvmgr.c:303-311 | what reached a level did so in the order it was taken from the level below |
| `DrvSide.DropKeepsOrder` | libdrvmgr/drvmgr.c:316-321 | a failure leaves that order as it is |
| `DrvSystem.DevicesHaveTheirBus` | libdrvmgr/drvmgr.c:255-279 | at rest at level N, after orderly registrations, every device at N has its bus at N, so none sits on a failed bus |
| `DrvSystem.BusesAreUpUnlessFailed` | libdrvmgr/drvmgr.c:196-252 | at rest at level N a bus is at N if and only if it has not failed, however devices were registered on it |
| `DrvSystem.OutlivesFailedBus` | libdrvmgr/drvmgr.c:273-279 | at rest a device of a failed bus is active if and only if N is 1, the device is at level 1 and the bus failed at level 0, and inactive otherwise |
| `DrvSystem.BusesHaveTheirBridge` | libdrvmgr/drvmgr.c:196-224 | at rest an active bus has an active bridge, or one that failed in its last step, or one never initialised |
| `DrvSystem.OutlivesFailedBridge` | libdrvmgr/drvmgr.c:202-224 | at rest a bus with a failed bridge is active if and only if it had reached the manager's level and the bridge failed one level below, and has failed otherwise |
| `DrvSystem.AddDevKeepsValid` | libdrvmgr/drvmgr.c:485-577 | registering a device on any registered bus, or as the root, keeps the whole invariant |
| `DrvSystem.AddBusKeepsValid` | libdrvmgr/drvmgr.c:580-604 | so does registering a bus |
| `DrvSystem.PopBusKeepsValid` | libdrvmgr/drvmgr.c:136-141 | so does taking a bus into flight |
| `DrvSystem.PopDevKeepsValid` | libdrvmgr/drvmgr.c:156-164 | so does taking a device into flight |
| `DrvSystem.TakeBusKeepsValid` | libdrvmgr/drvmgr.c:226-240 | a bus may advance when its bridge has not failed and is not behind |
| `DrvSystem.DropBusKeepsValid` | libdrvmgr/drvmgr.c:242-251 | failing a bus keeps the invariant |
| `DrvSystem.TakeDevKeepsValid` | libdrvmgr/drvmgr.c:302-314 | a device may advance when its bus is ahead of it, and to level 1 in any case |
| `DrvSystem.DropDevKeepsValid` | libdrvmgr/drvmgr.c:316-325 | failing a device keeps the invariant |
| `DrvSystem.StartIsValid` | libdrvmgr/drvmgr.c:76-90 | the empty manager satisfies the invariant |
| `DrvRun.RegisteringKeeps` | libdrvmgr/drvmgr.c:505-568 | whatever a handler registers, the object in flight and the lists above 0 stay as they were |
| `DrvRun.PoppedBusIsReady` | libdrvmgr/drvmgr.c:136-149 | a bus taken up has no active bridge behind it, even with late registrations on list 0 |
| `DrvRun.PoppedDevIsReady` | libdrvmgr/drvmgr.c:156-173 | a device taken up above level 0 has its bus failed or already a level ahead |
| `DrvRun.StepKeepsInv` | libdrvmgr/drvmgr.c:117-193 | every registration, raised level and turn of the update's loops keeps the invariant |
| `DrvRun.RunsKeepInv` | libdrvmgr/drvmgr.c:117-193 | the invariant holds after every sequence of events from the empty manager |
| `DrvRun.RunKeepsInv` | libdrvmgr/drvmgr.c:117-193 | and after every continuation |
| `DrvRun.StepsInStep` | libdrvmgr/drvmgr.c:117-193 | when devices are registered only on buses that are up or coming up, every step keeps each device behind its bus |
| `DrvRun.RunsInStep` | libdrvmgr/drvmgr.c:117-193 | so does every such run |
| `DrvRun.OrderlyDevicesHaveTheirBus` | libdrvmgr/drvmgr.c:117-193 | in every such run from the empty manager, a device at the manager's level at rest has its bus there |
| `DrvRun.EndsQuiescentUnlessLate` | libdrvmgr/drvmgr.c:180-186 | an update that ends has left nothing below the manager's level exactly when no late registration is outstanding, and otherwise it is list 0 that is not empty |
| `DrvRun.LateMeans` | libdrvmgr/drvmgr.c:160-186 | outstanding means: registered active while the bus loop was above level 0, with no device handled since |
| `DrvRun.UpdateEndsQuiescentExactly` | libdrvmgr/drvmgr.c:117-193 | over the events of a whole update: it leaves nothing behind if and only if every such registration was followed by a device being handled |
| `DrvRun.RaisedLevelKeepsValid` | libdrvmgr/drvmgr.c:83-84 | raising the manager's level keeps the invariant |
| `DrvAccount.RunCounted` | libdrvmgr/drvmgr.c:281-300 | calling the handler of the object in flight keeps the account of handlers |
| `DrvAccount.PopCounted` | libdrvmgr/drvmgr.c:136-168 | an object is never taken up for a handler it already ran |
| `DrvAccount.LandBusAccounted` | libdrvmgr/drvmgr.c:202-251 | a bus fails only because its handler refused or its bridge failed |
| `DrvAccount.LandDevAccounted` | libdrvmgr/drvmgr.c:273-325 | a device fails only because its handler refused or its bus failed |
| `DrvAccount.HandlersOfActiveDevice` | libdrvmgr/drvmgr.c:281-286 | at rest at level N an active device has run exactly the handlers it has below N, and none of them refuses |
| `DrvAccount.CauseOfFailure` | libdrvmgr/drvmgr.c:273-299 | a failed device stopped at a handler that refuses, or its bus has failed |
| `DrvAccount.CauseOfBusFailure` | libdrvmgr/drvmgr.c:202-224 | a failed bus stopped at a handler that refuses, or its bridge has failed |
| `DrvMgr.OwedSteps` | libdrvmgr/drvmgr.c:132-186 | every step of the update consumes some of the work owed by registered objects |
| `DrvMgr.Manager.constructor` | libdrvmgr/drvmgr.c:76-90 | the manager starts in the initial configuration, with nothing having happened |
| `DrvMgr.Manager.AddDevice` | libdrvmgr/drvmgr.c:505-568 | the new device ends list 0, or the inactive list without driver or when ignored |
| `DrvMgr.Manager.AddBusOn` | libdrvmgr/drvmgr.c:593-598 | the new bus ends list 0 |
| `DrvMgr.Manager.RegisterDev` | libdrvmgr/drvmgr.c:485-577 | inside an update only the registration happens; outside, with a driver and a parent, everything settles |
| `DrvMgr.Manager.RegisterBus` | libdrvmgr/drvmgr.c:580-604 | likewise for a bus |
| `DrvMgr.Manager.RunHandler` | libdrvmgr/drvmgr.c:281-284 | whatever the handler registers, the invariant holds and existing objects stay as they were; the call is recorded, with what that handler answers |
| `DrvMgr.Manager.RegisterMany` | libdrvmgr/drvmgr.c:281-284 | any finite registrations of unknown code, at any level, keep the invariant |
| `DrvMgr.Manager.CallBusInit` | libdrvmgr/drvmgr.c:210-224 | the record of calls grows by the handler of the bus in flight exactly when it exists; the bus fails exactly when that handler refuses, and stays in flight |
| `DrvMgr.Manager.LandBus` | libdrvmgr/drvmgr.c:226-251 | the bus goes to the end of the next list, or to the inactive list for one of the two reasons; buses at the manager's level stay |
| `DrvMgr.Manager.DoBusInit` | libdrvmgr/drvmgr.c:196-252 | a bus reaches the target level or the inactive list, the latter exactly when its bridge has failed or its handler refuses, and owes less than before |
| `DrvMgr.Manager.CallDevInit` | libdrvmgr/drvmgr.c:281-300 | the record of calls grows by the handler of the device in flight exactly when it exists; the device fails exactly when that handler refuses, and stays in flight |
| `DrvMgr.Manager.LandDev` | libdrvmgr/drvmgr.c:302-325 | the device goes to the end of the next list, or to the inactive list for one of the two reasons |
| `DrvMgr.Manager.DoDevInit` | libdrvmgr/drvmgr.c:255-326 | a device reaches the target level or the inactive list, the latter exactly when its bus has failed or its handler refuses; no late registration is outstanding any more |
| `DrvMgr.Manager.RaiseBuses` | libdrvmgr/drvmgr.c:136-154 | the loop terminates with the level's bus list empty; buses at the manager's level stay |
| `DrvMgr.Manager.RaiseDevices` | libdrvmgr/drvmgr.c:156-179 | the loop terminates; if it did nothing the level is clear, else the owed work has shrunk |
| `DrvMgr.Manager.TakeUpBus` | libdrvmgr/drvmgr.c:136-143 | the first bus of the list is in flight, for a handler it has not run |
| `DrvMgr.Manager.TakeUpDev` | libdrvmgr/drvmgr.c:156-166 | likewise for a device |
| `DrvMgr.Manager.EndUpdate` | libdrvmgr/drvmgr.c:188-189 | what an update that ends promises |
| `DrvMgr.Manager.Update` | libdrvmgr/drvmgr.c:117-193 | despite the restarts it terminates for any finite registrations at any level; every list below the manager's level is empty if and only if no late registration is outstanding, so always when nothing is registered while the bus loop is above level 0; buses at the manager's level stay there |
| `DrvMgr.Manager.InitLevel` | libdrvmgr/drvmgr.c:76-90 | raising the level brings everything up to the new one, on the same terms |
| `DrvMgr.LevelsKeepOrder` | libdrvmgr/drvmgr.c:306-309 | where lists and fields agree, what reached level k+1 earlier reached level k earlier |
| `DrvMgr.RunsKeepOrder` | libdrvmgr/drvmgr.c:117-193 | so after every run from the empty manager, for buses and for devices |
| `DrvLimits.ClimbsToTheEnd` | libdrvmgr/drvmgr.c:132-186 | a bus alone below the manager's level is taken up level by level and may register late in its last handler |
| `DrvLimits.LateRegistrationIsMissed` | libdrvmgr/drvmgr.c:180-186 | from every state at rest at level 2 or above with a device that has not failed, one registration and one update can end with a device left on list 0 |
| `DrvLimits.LateRegistrationIsReached` | libdrvmgr/drvmgr.c:117-193 | a run from the empty manager, of registrations with drivers, that ends at rest at level 2 with a device on list 0 |
| `DrvLimits.StillOutlives` | libdrvmgr/drvmgr.c:117-193 | a bus active behind a failed bridge stays so in every step but a raised level |
| `DrvLimits.LastStepFailureStays` | libdrvmgr/drvmgr.c:284-299 | a bridge that refuses while its bus is at the manager's level leaves it active there after every continuation until the level is raised |
| `DrvLimits.LastStepFailureIsReached` | libdrvmgr/drvmgr.c:117-193 | a run from the empty manager that ends at rest at level 2 with a bus active behind a failed bridge |
| `DrvLimits.DeviceOutlivingItsBusIsReached` | libdrvmgr/drvmgr.c:117-193 | a run from the empty manager that ends at rest at level 1 with a device active on a failed bus |
| `DrvList.List.constructor` | libdrvmgr/drvmgr_list.c:15-19 | a new list is empty |
| `DrvList.List.Empty` | libdrvmgr/drvmgr_list.c:21-24 | emptied |
| `DrvList.List.AddHead` | libdrvmgr/drvmgr_list.c:26-32 | head, tail and next pointers spell out the entry followed by the old list |
| `DrvList.List.AddTail` | libdrvmgr/drvmgr_list.c:34-42 | they spell out the old list followed by the entry |
| `DrvList.List.RemoveHead` | libdrvmgr/drvmgr_list.c:44-49 | they spell out the list without its first entry |
| `DrvList.List.Remove` | libdrvmgr/drvmgr_list.c:51-66 | they spell out the list without that entry, the others in order |
| `DrvList.MoveFirst` | libdrvmgr/drvmgr.c:136-141 | taking the first entry of one list to the end or front of another moves exactly that entry, as the driver manager's model does on sequences |
| `DevWalk.TodoSteps` | libdrvmgr/drvmgr_for_each_dev.c:61-63 | after a device come those below it, then what follows its subtree |
| `DevWalk.ForEachDevDepth` | libdrvmgr/drvmgr_for_each_dev.c:46-78 | the walk terminates and calls the function on the recursive preorder up to the first nonzero result, which it returns |
| `DevWalk.Advance` | libdrvmgr/drvmgr_for_each_dev.c:61-74 | the cursor moves to the next device in preorder |
| `DevWalk.Below` | libdrvmgr/drvmgr_for_each_dev.c:61-62 | the first device below, if there is one |
| `DevWalk.NextDev` | libdrvmgr/drvmgr_for_each_dev.c:64-73 | climbing finds what follows the subtree, or ends at the root exactly when nothing does |
| `DevWalk.EachDeviceOnce` | libdrvmgr/drvmgr_for_each_dev.c:46-78 | links that spell out a tree give each device one place in the preorder |
| `DevWalk.EachCalledOnce` | libdrvmgr/drvmgr_for_each_dev.c:46-78 | so no device is called twice |
| `Translate.LookupFinds` | libdrvmgr/drvmgr_translate.c:96-114 | with disjoint windows the first match is the only one |
| `Translate.CrossBack` | libdrvmgr/drvmgr_translate.c:96-112 | crossing a bridge is undone by its table read the other way, with the same room |
| `Translate.CrossAllBack` | libdrvmgr/drvmgr_translate.c:80-120 | so is crossing any number of bridges, over the reversed path |
| `Translate.CrossAllShifts` | libdrvmgr/drvmgr_translate.c:106-110 | every address up to the reported room moves by the same offset and keeps the rest of the room |
| `Translate.NoRoomExactlyAtEdge` | libdrvmgr/drvmgr_translate.c:108-110 | a successful translation reports size 0 if and only if at some bridge the address arrives as the last one of a window |
| `Translate.SizeZeroIsAmbiguous` | libdrvmgr/drvmgr_translate.c:96-119 | two neighbouring addresses that both report size 0, one translated and one not |
| `Translate.OneBridge` | libdrvmgr/drvmgr_translate.c:80-119 | over one bridge, for each of the four options: which table moves the address, from which side of its windows to which, and how much room is left; no window, no translation |
| `Translate.ManyBridges` | libdrvmgr/drvmgr_translate.c:66-127 | over several, requests towards the root cross the own bus first and requests from the root last; addresses compose and the smallest room counts |
| `Translate.CrossBridge` | libdrvmgr/drvmgr_translate.c:88-119 | scanning the table equals the first covering window, with the size shrunk to its room |
| `Translate.CollectPath` | libdrvmgr/drvmgr_translate.c:66-78 | the path array holds the buses in the order the request meets them, or the buses are found not to be connected |
| `Translate.CrossPath` | libdrvmgr/drvmgr_translate.c:80-120 | the loop is the composition of the bridges, 0 exactly when one has no window (or no room is left) |
| `Translate.TranslateBus` | libdrvmgr/drvmgr_translate.c:32-127 | address and size are those of the composition; paths of 16 levels or more, and a deeper bus not below the other, give 0 |
| `Translate.TranslateDev` | libdrvmgr/drvmgr_translate.c:129-148 | each option selects its path and table direction; size 0 if and only if there is no translation or it meets the edge of a window |
| `Translate.RouteBackwards` | libdrvmgr/drvmgr_translate.c:83-86 | the opposite request meets the same tables in reverse order |
| `Translate.OppositeUndoes` | libdrvmgr/drvmgr.h:660-687 | the paired option undoes a translation with the same room, and the room's addresses move together |
| `FtpAscii.ScanLine` | ftpd/ftpd.c:835-843 | the piece before the next line feed, or the rest |
| `FtpAscii.SendChunk` | ftpd/ftpd.c:830-854 | a chunk goes out encoded; after a failure a prefix of that has gone out |
| `FtpAscii.Retrieve` | ftpd/ftpd.c:822-856 | what arrives is the encoding of the file, however it is read |
| `FtpAscii.EncodeConcat` | ftpd/ftpd.c:825-855 | encoding piece by piece is encoding the whole |
| `FtpAscii.FeedConcat` | ftpd/ftpd.c:1054-1109 | decoding piece by piece is decoding the whole |
| `FtpAscii.EarlyCR` | ftpd/ftpd.c:1061-1070 | writing a held back CR at the start of a chunk changes nothing |
| `FtpAscii.ScanFeeds` | ftpd/ftpd.c:1079-1095 | one byte of the scan is one step of the decoder: it goes on or has found a pair |
| `FtpAscii.ScanPair` | ftpd/ftpd.c:1073-1096 | the scan consumes what the decoder would, up to a CR LF pair or the chunk's end |
| `FtpAscii.StorePiece` | ftpd/ftpd.c:1099-1106 | the write counts are exactly the decoder's output; after a failure the file is a prefix of it |
| `FtpAscii.StorePieces` | ftpd/ftpd.c:1071-1108 | the inner loop decodes its chunk |
| `FtpAscii.StoreChunk` | ftpd/ftpd.c:1056-1108 | a chunk is decoded whatever CR the chunk before left pending |
| `FtpAscii.Store` | ftpd/ftpd.c:1050-1110 | file and bare line feed count depend only on the bytes received, not on the chunks |
| `FtpAscii.StoreOfEncoded` | ftpd/ftpd.c:1050-1110 | decoding an encoded file gives the file, minus one CR exactly when it ends in CR, and no bare line feeds |
| `FtpAscii.SendAndStore` | ftpd/ftpd.c:822-856 | sending and storing, chunked any way on either side, composes to that |
| `FtpPool.StartInv` | ftpd/ftpd.c:440-468 | the new pool has every session free once |
| `FtpPool.DequeueStep` | ftpd/ftpd.c:493-497 | the session handed out was free and held by nobody |
| `FtpPool.EnqueueStep` | ftpd/ftpd.c:517-521 | a release writes to a slot no free session is in |
| `FtpPool.SemStep` | ftpd/ftpd.c:490-490 | semaphore steps leave the ring's contents as they are |
| `FtpPool.RunKeepsInv` | ftpd/ftpd.c:485-523 | in every interleaving free and held sessions partition the pool and the tail is right behind the free ones |
| `FtpPool.NeverTwice` | ftpd/ftpd.c:485-523 | in every interleaving no session is handed out twice and no live slot is overwritten |
| `FtpPool.TaskPool.constructor` | ftpd/ftpd.c:393-470 | initialisation fills the ring with each session |
| `FtpPool.TaskPool.TryTakeSem` | ftpd/ftpd.c:490-491 | refines the semaphore step; fails exactly at zero |
| `FtpPool.TaskPool.DequeueSession` | ftpd/ftpd.c:493-497 | refines the dequeue step |
| `FtpPool.TaskPool.EnqueueSession` | ftpd/ftpd.c:517-521 | refines the enqueue step |
| `FtpPool.TaskPool.GiveSemBack` | ftpd/ftpd.c:522-522 | refines the release of the semaphore |
| `FtpPool.TaskPool.Obtain` | ftpd/ftpd.c:485-500 | a session nobody holds, or none exactly when the semaphore is at zero |
| `FtpPool.TaskPool.Release` | ftpd/ftpd.c:514-523 | the session is no longer held and the semaphore counts it |
| `I2cBus.LocalStep` | libi2c/libi2c.c:482-577 | a step of the owner, or on a free bus, keeps the lock depth in step with where the call is |
| `I2cBus.StepKeepsInv` | libi2c/libi2c.c:472-577 | every step of every task keeps the invariant |
| `I2cBus.OperationsBelongToOwner` | libi2c/libi2c.c:513-577 | only the mutex owner reaches the bus operations, and all but the start only on a started bus |
| `I2cBus.HeldExactlyWhileStarted` | libi2c/libi2c.c:482-528 | outside a call the mutex is held once while the bus is started and not at all otherwise |
| `I2cBus.ReturnReleasesUnlessHolding` | libi2c/libi2c.c:482-681 | a call returns holding the bus exactly after a successful start, use or transfer without stop; failed first starts and failed restarts end with it free |
| `I2cBus.RunKeepsInv` | libi2c/libi2c.c:472-681 | the invariant holds in every state of every interleaving |
| `I2cBus.NobodyElseInterferes` | libi2c/libi2c.c:173-208 | no step of another task changes owner, nesting or started while the bus is held |
| `I2cBus.TestSteps` | libi2c/libi2c.c:472-480 | testing the flag is two steps of the state machine that leave the mutex as it was |
| `I2cBus.I2c.LockBus` | libi2c/libi2c.c:199-201 | one more level of the recursive mutex |
| `I2cBus.I2c.UnlockBus` | libi2c/libi2c.c:203-208 | one less, free at zero |
| `I2cBus.I2c.NotStarted` | libi2c/libi2c.c:472-480 | reports the flag and leaves the mutex as it was |
| `I2cBus.I2c.SendStart` | libi2c/libi2c.c:482-511 | success means started and held once; any failure, first or repeated, leaves the bus free after one cleaning operation; the result is what the start operation answered; uninterrupted, it is a sequence of the state machine's steps |
| `I2cBus.I2c.SendStop` | libi2c/libi2c.c:513-528 | stops and releases one level exactly when the bus was started, and returns what the operation answered; a sequence of the state machine's steps |
| `I2cBus.I2c.Use` | libi2c/libi2c.c:530-577 | on a bus not started an error and no operation; on a started one the operation's answer, and it stays started exactly on success; a sequence of steps |
| `I2cBus.I2c.StartTransfer` | libi2c/libi2c.c:651-681 | the bus is kept exactly when start, address and data all succeed; the operations done, in order, end at the first that failed, and its answer is the status; a sequence of steps |
| `I2cBus.I2c.AddressAndData` | libi2c/libi2c.c:665-681 | likewise for the part after the start |
| `I2cBus.I2c.ReadWrite` | libi2c/libi2c.c:262-320 | after a whole transfer the bus is free, whatever failed; status 0 and the bytes moved when start, address and data succeeded, otherwise the code of the first that failed; zero bytes do nothing; a sequence of steps |
| `Md4.RotIsRotation` | libmd/md4.c:79-79 | the shift pair is a rotation for every amount used |
| `Md4.FFIsOperation` | libmd/md4.c:80-80 | the round 1 macro is the operation of section 3.4 of RFC 1320 |
| `Md4.GGIsOperation` | libmd/md4.c:81-81 | the round 2 macro likewise |
| `Md4.HHIsOperation` | libmd/md4.c:82-82 | the round 3 macro likewise |
| `Md4.FourStepsF` | libmd/md4.c:144-147 | four unrolled assignments are four reference steps with the registers rotating |
| `Md4.FourStepsG` | libmd/md4.c:160-163 | likewise in round 2 |
| `Md4.FourStepsH` | libmd/md4.c:176-179 | likewise in round 3 |
| `Md4.Rounds` | libmd/md4.c:144-191 | the 48 unrolled assignments are the 48 reference steps |
| `Md4.LoadBlock` | libmd/md4.c:133-137 | adding shifted bytes gives the reference's words of the block's bits |
| `Md4.AddCount` | libmd/md4.c:229-236 | the byte-wise carry adds exactly for every count up to 2^32 - 256, and 2^32 less exactly when the first 32-bit sum wraps |
| `Md4.CarryOn` | libmd/md4.c:232-236 | carrying one byte further keeps counter and carry together equal to the sum |
| `Md4.MarkedBits` | libmd/md4.c:258-259 | the mask keeps the message's bits, sets the next and clears the rest |
| `Md4.TailBits` | libmd/md4.c:251-259 | the last block is the remaining bits, a 1 and zeros |
| `Md4.PadsInOne` | libmd/md4.c:261-265 | with the length behind it this is the reference padding when at most 55 bytes are full |
| `Md4.PadsInTwo` | libmd/md4.c:266-272 | otherwise the two blocks together are |
| `Md4.Context.constructor` | libmd/md4.c:105-116 | the initial state is that of the empty message |
| `Md4.Context.Block` | libmd/md4.c:124-196 | one block is the reference compression of its bits |
| `Md4.Context.Tail` | libmd/md4.c:251-259 | builds the padded tail |
| `Md4.Context.PutCount` | libmd/md4.c:263-263 | appends the 64-bit length, low-order byte first |
| `Md4.Context.Finish` | libmd/md4.c:249-275 | ends with the reference digest in both padding cases |
| `Md4.Context.Update` | libmd/md4.c:211-276 | counter and buffer stay those of the message given so far; fewer than 512 bits end it with its digest; errors after the end and above 512, which is counted (with the wrap) all the same |
| `Md4.Context.Final` | libmd/md4.c:281-297 | the bytes of the reference digest, which loaded as a block is loaded give its registers back, whatever the byte at address 0 is |
| `Md4.HashMessage` | libmd/md4.c:198-297 | full blocks and one partial update give the RFC 1320 digest of every message below 2^64 bits, low-order bytes first |
| `Md4Reference.HoldsDigest` | libmd/md4.c:290-296 | the sixteen bytes of a digest, read low-order byte first, are the registers A, B, C, D |
| `Md4Answer.DigestOfNothing` | libmd/md4.c:281-297 | the digest of the empty message is the one section A.5 of RFC 1320 lists |
| `Sections.Align` | libdl/rtl-obj.c:249-255 | the least aligned offset not below, unchanged when already aligned |
| `Sections.MaskIsRemainder` | libdl/rtl-obj.c:249-255 | masking with a power of two less one is the remainder |
| `Sections.ComplementClears` | libdl/rtl-obj.c:249-255 | masking with its complement in w bits clears exactly that remainder and all bits from w up |
| `Sections.AlignIsMaskedExactly` | libdl/rtl-obj.c:249-255 | with an alignment of m bits and offsets of w, for every power of two, the masks compute the least aligned offset if and only if the offset is aligned or its sum with the alignment fits m bits; otherwise the upper bits are lost |
| `Sections.AlignLosesUpperHalf` | libdl/rtl-obj.c:249-255 | with 32 and 64 bits, aligning offset 2^32 + 1 to even gives 2 instead of 2^32 + 2 |
| `Sections.Disjoint` | libdl/rtl-obj.c:751-817 | sections of a kind are aligned, in order, without overlap, inside the computed size |
| `Sections.LastEndsAtSize` | libdl/rtl-obj.c:266-287 | the last one ends exactly at the computed size |
| `Sections.SectionSize` | libdl/rtl-obj.c:266-287 | the sizing pass gives the end of the layout |
| `Sections.LinkOrder` | libdl/rtl-obj.c:722-749 | unlinked sections are numbered by their rank; nothing else changes |
| `Sections.NextInOrder` | libdl/rtl-obj.c:769-774 | the section with the next number is the next of its kind |
| `Sections.NothingLeft` | libdl/rtl-obj.c:765-814 | a scan without the next number means all are placed |
| `Sections.Loader` | libdl/rtl-obj.c:751-817 | terminates despite restarting; succeeds exactly when every section can be filled, and then each is at its layout offset; sections of other kinds are untouched |
| `Sections.PlaceKind` | libdl/rtl-obj.c:722-817 | sizing, numbering and placing agree: aligned, disjoint, and filling the computed size exactly; other kinds are untouched |
| `Sections.WellPlacedKept` | libdl/rtl-obj.c:887-894 | placing one kind keeps the places of another |
| `Sections.NumberNext` | libdl/rtl-obj.c:878-881 | numbering a kind keeps the numbers of those before |
| `Sections.PlaceNext` | libdl/rtl-obj.c:887-894 | placing a kind keeps the numbers of all and the places of those before |
| `Sections.LoadSections` | libdl/rtl-obj.c:875-894 | text, constants, exception handling and data are all well placed, exactly when every one of them can be filled |
| `Sections.AllDisjoint` | libdl/rtl-obj.c:851-894 | with separate memories for the kinds, all sections are pairwise disjoint |
| `SymTab.SymbolHash` | libdl/rtl-sym.c:40-48 | wrapping at every step gives the hash modulo 2^32 |
| `SymTab.FirstInBucket` | libdl/rtl-sym.c:184-197 | the first of a name in its bucket is the first of that name overall, for every bucket count |
| `SymTab.BucketWithout` | libdl/rtl-sym.c:259-261 | extracting from a chain is removing from the insertion order |
| `SymTab.Table.Insert` | libdl/rtl-sym.c:50-57 | the symbol becomes the youngest |
| `SymTab.Table.Find` | libdl/rtl-sym.c:174-200 | exactly what a linear search in insertion order finds |
| `SymTab.FirstIsEarliest` | libdl/rtl-sym.c:188-199 | that is a live symbol of the name with none older, or none exactly when there is none |
| `SymTab.Table.Extract` | libdl/rtl-sym.c:260-261 | that symbol goes, the others keep their order |
| `SymTab.Table.AddObject` | libdl/rtl-sym.c:226-237 | an object's symbols become the youngest, in table order |
| `SymTab.Table.EraseObject` | libdl/rtl-sym.c:251-267 | its symbols go, the others keep their order |
| `SymTab.ErasedMembers` | libdl/rtl-sym.c:251-267 | exactly the object's symbols are gone |
| `GdbPacket.HexPair` | libdebugger/rtems-debugger-server.c:93-112 | two encoded digits decode to the byte |
| `GdbPacket.HexDigits` | libdebugger/rtems-debugger-server.c:93-112 | the sixteen digits in order; capitals are read too, and nothing else is |
| `GdbPacket.PacketInHex` | libdebugger/rtems-debugger-server.c:643-654 | reads digit pairs; a character that is no digit counts as all ones |
| `GdbPacket.HexRoundTrip` | libdebugger/rtems-debugger-server.c:643-715 | bytes appended as digits are read back |
| `GdbPacket.EscapeIsPlain` | libdebugger/rtems-debugger-server.c:680-694 | escaped text has no `#` or `$` |
| `GdbPacket.Remote.Reset` | libdebugger/rtems-debugger-server.c:743-748 | an empty packet is begun |
| `GdbPacket.Remote.AppendByte` | libdebugger/rtems-debugger-server.c:679-694 | one or two bytes, exactly when they fit |
| `GdbPacket.Remote.AppendAll` | libdebugger/rtems-debugger-server.c:673-697 | all of the text or, rolled back, nothing |
| `GdbPacket.Remote.AppendBuffer` | libdebugger/rtems-debugger-server.c:673-697 | the packet stays `$` and a body without `#` and `$`, the body grown by the escaped text or not at all |
| `GdbPacket.Remote.AppendHex` | libdebugger/rtems-debugger-server.c:699-715 | likewise for digits, exactly when they fit |
| `GdbPacket.Remote.SumUp` | libdebugger/rtems-debugger-server.c:779-789 | the sum over the buffer is the body's checksum |
| `GdbPacket.Remote.Send` | libdebugger/rtems-debugger-server.c:776-798 | the framed packet within the buffer, or an error that leaves it unfinished |
| `GdbPacket.FeedConcat` | libdebugger/rtems-debugger-server.c:527-637 | receiving piece by piece is receiving the whole |
| `GdbPacket.PacketIn` | libdebugger/rtems-debugger-server.c:477-641 | the outcome depends only on the bytes received, not on how reads split them, and a packet delivered stands among them with its own checksum |
| `GdbPacket.FramedRecovers` | libdebugger/rtems-debugger-server.c:538-627 | a framed payload without `#`, `$`, `{` is recovered |
| `GdbPacket.FrameIsReceived` | libdebugger/rtems-debugger-server.c:527-626 | after any noise a frame is received whole, and accepted if and only if its digits spell the sum of its body |
| `GdbPacket.FirstSoundIsDelivered` | libdebugger/rtems-debugger-server.c:527-626 | of any frames the first with the right checksum is delivered, whatever follows; without one, none is |
| `GdbPacket.DeliveredExactlyOnChecksum` | libdebugger/rtems-debugger-server.c:606-626 | a single frame, under any split, is delivered if and only if its digits spell the mod-256 sum of its body |
| `GdbPacket.DeliveredStands` | libdebugger/rtems-debugger-server.c:527-626 | for every stream: a delivered packet stands behind a `$` and before a `#` and its own checksum |
| `GdbPacket.InterruptEnds` | libdebugger/rtems-debugger-server.c:568-575 | an interrupt between packets ends the call |
| `GdbPacket.LongBodyFails` | libdebugger/rtems-debugger-server.c:598-602 | one byte more than the buffer holds is an error |
| `GdbPacket.NoDigitPasses` | libdebugger/rtems-debugger-server.c:606-613 | a packet accepted although its checksum characters are no digits |
| `GdbPacket.EscapeSticks` | libdebugger/rtems-debugger-server.c:582-584 | once escaped, the receiver never ends the packet |
| `GdbPacket.BraceLoses` | libdebugger/rtems-debugger-server.c:582-606 | a packet with a `{` is never received |
| `GdbPacket.RecoveredExactlyWithoutBrace` | libdebugger/rtems-debugger-server.c:477-641 | a plain payload that fits is recovered if and only if it has no `{`, under any split |
| `GdbPacket.EscapeReversibleExactlyWithoutClose` | libdebugger/rtems-debugger-server.c:673-697 | the escape can be undone if and only if the text has no `}` |

## Left out

- Pointer overflow near the end of the address space in the decompressor.
- FastLzCompress.Compress: the hash is an arbitrary function of the position, so how good the compression is over a whole input, and the bytes the hash reads, are not stated.
- ObjCache.Cache.Read: nothing is said about the cache after a device error; callers flush it.
- ObjComp.Comp.Read: states the stream of files whose blocks are well formed and fit the buffers, for lengths the blocks can fill; every other length is covered by `ObjComp.Comp.ReadOrSpin` where the blocks end the file, and with other bytes behind them a longer read takes those for a block.
- ObjComp.Comp.Collect: the same lengths as `ObjComp.Comp.Read`; `ObjComp.Comp.CollectOrSpin` covers every length.
- ObjComp.ReadPart: the same lengths as `ObjComp.Comp.Read`.
- ObjComp.ReadAll: the same lengths, added up, because no read follows one that never returns.
- DrvMgr.Manager.RunHandler: what each handler answers is a function of the object and the level, which is no restriction as none is called twice; the number of registrations is finite, and handlers do not touch the manager's lists otherwise.
- DrvSystem.DevicesHaveTheirBus: states orderly registrations; `DrvSystem.BusesAreUpUnlessFailed` and `DrvSystem.OutlivesFailedBus` cover the others.
- DrvMgr.Manager.RegisterDev: a device without a parent has a driver and is not ignored, as the search for a driver and for keys goes through the parent (libdrvmgr/drvmgr_res.c:21-23); inside an update the methods model registrations by the handler of the object in flight, those by other tasks are steps of `DrvRun`.
- DrvMgr.Manager.AddDevice: the same; the search for a driver, the minor number lists and the DEPEND_FAILED flags are not modelled.
- Unregistering devices and drivers, registering drivers after devices, and the breadth-first walk of the driver manager.
- Translate.TranslateBus: requires the two buses to be on one path to the root, or the source to be the deeper one with at most 16 buses up to the root; otherwise the code writes outside its path array.
- FtpAscii.Store: chunks are nonempty (an empty receive ends the transfer); binary transfers, FTP commands, sockets and replies.
- FtpPool.TaskPool.constructor: failures to create semaphores, memory or tasks.
- I2cBus.I2c.LockBus: waiting is a step that is not enabled yet; creating the mutex on the fly, checks of the minor number, device drivers of their own, ioctl and node creation are not modelled.
- Sections.LinkOrder: sections linked to others and sections of several kinds at once are not modelled.
- Sections.Loader: requires sections that are not empty, because rtems_rtl_obj_add_section adds no empty one (libdl/rtl-obj.c:415).
- Sections.LoadSections: the allocator's memories are parameters; BSS sections, which never get a load order, are not modelled.
- Sections.Align: written with remainders, which is what the masks compute as long as an unaligned offset and its alignment add up to less than 2^32 (`Sections.AlignIsMaskedExactly`); the layout is stated with it, so for sections of one kind that stay below that.
- SymTab.Table.Insert: requires a node that is on no chain; chains are sequences rather than linked nodes.
- GdbPacket.PacketIn: acknowledgements, resending, timeouts and debug output.
- DrvList.List.Remove: the driver manager's model keeps its lists as sequences, which are the contents of these linked lists; `DrvList.MoveFirst` is the one operation carried over.
- The rest of the repository (relocations, unresolved symbols, the ELF loader, shells, file systems, the debugger's targets) is not modelled.
