# pi-camera-connect, modelled in Dafny

pi-camera-connect drives the Raspberry Pi camera from Node.js. It runs the
`raspistill` and `raspivid` programs and parses what they write. This
project models the logic of the library that does not depend on the
operating system, and proves properties of it:

- **The argument lists.** These are `getSharedArgs`, the `raspistill`
  arguments of `StillCamera.takeImage` and the `raspivid` arguments of
  `StreamCamera.startCapture`.
  - Each is an array of conditional spreads, `...(cond ? [flag, value] : [])`,
    and is modelled as a table of rows laid out in order (module `CommandLine`).
  - A reader `CommandLine.Read` turns a token list back into the flags it
    sets and their values. It is the partner of every argument builder:
    each list is proved to read back as exactly the entries its switched-on
    rows select, in declaration order, each flag at most once.
- **The MJPEG demultiplexer** in `StreamCamera`'s stdout handler (module
  `MjpegDemux`).
  - It is the `while (true)` loop, as a method (`ExtractFrames`) proved
    against a recursive reference function (`Demux`).
  - The properties proved about `Demux`: leading-byte skipping, buffer
    alignment, the shape of frames, conservation of bytes, termination,
    and chunking independence.
- **The stream camera object** (class `StreamCamera.StreamCamera`).
  - Its fields are the list of open streams, the pending `takeImage`
    requests and the stdout buffer.
  - Its methods update them in place. With the MJPEG codec, its invariant
    `Valid` ties the buffer and the frames emitted so far to one `Demux`
    scan over all bytes received since `startCapture`; with any other codec
    nothing is buffered or emitted.
- **The pure parts of `StillCamera`**: the defaults merge, the JPEG
  signature table keyed by system model, and the remapping of a launch
  error with code `ENOENT`.

Modules:
- `Types` holds the enums, options-field optionality and JavaScript truthiness.
- `CommandLine` holds the flag vocabulary, tables, the reader and the
  generic lemmas about builders.
- `SharedArgs`, `StillCamera` and `StreamCamera` follow the source files
  `shared-args.ts`, `still-camera.ts` and `stream-camera.ts`.

Inputs from outside the model:
- A JavaScript number is a `Types.Number`, which carries its value and the
  text `toString()` gives for it. The constants of the library are written
  with their text: 17000000, 30, the delay 1, the timeout 0.
- The board's model string (from `si.system()`) is a parameter of
  `StillCamera.GetJpegSignature`.
- The outcome of running `raspistill` is a parameter of `StillCamera.TakeImage`.
- What the capture process does first (write data, or fail to start) is a
  parameter of `StreamCamera.CaptureStarted`.

A caller might expect `stopCapture` to settle or reject a `takeImage` that
is still waiting for a frame. The code does not: it ends every open stream
and leaves the `frame` listener of a pending `takeImage` in place, so that
promise settles only when a later frame arrives, for example from data the
stopped process had already written or after another `startCapture`. The
model follows the code: `StreamCamera.StreamCamera.StopCapture` keeps such a
request in `waiting`, and a later `OnData` that emits a frame settles it.

## Model

| member | source | states |
|---|---|---|
| Types.OrDefault | src/lib/still-camera.ts:29-34 | After a defaults merge `{ key: fallback, ...given }` the field is set; a field the caller gave wins, otherwise it is the fallback. |
| MjpegDemux.IndexOf | src/lib/stream-camera.ts:188 | `indexOf(signature, from)` gives -1 or an offset at or after `from` where the 7-byte signature starts. |
| MjpegDemux.IndexOfFirst | src/lib/stream-camera.ts:197 | The search finds the first occurrence at or after its start offset. |
| MjpegDemux.Demux | src/lib/stream-camera.ts:186-205 | Reference definition of what the extraction loop does to one accumulated buffer; its properties are stated by ExtractFrames, DemuxSkipsLeadingBytes, DemuxRestAligned, DemuxFramesAreFrames, DemuxConserves, DemuxFrameCount, DemuxAppend and DemuxChunked. |
| MjpegDemux.ExtractFrames | src/lib/stream-camera.ts:186-205 | The extraction loop emits exactly the frames of the reference scan `Demux` of the accumulated buffer and leaves exactly its kept bytes as the new buffer. |
| MjpegDemux.DemuxSkipsLeadingBytes | src/lib/stream-camera.ts:194-195 | Dropping the bytes before the first signature leaves a buffer that starts with the signature and changes nothing else about the scan. |
| MjpegDemux.DemuxWithoutSignature | src/lib/stream-camera.ts:188-191 | A buffer with no signature anywhere emits no frame and is kept whole, leading junk included. |
| MjpegDemux.DemuxRestAligned | src/lib/stream-camera.ts:186-205 | After a scan the buffer holds no signature except possibly at offset 0, and starts with the signature whenever the input held one. |
| MjpegDemux.DemuxFramesAreFrames | src/lib/stream-camera.ts:197-202 | Every emitted frame starts with the signature and has no other occurrence of it at any later offset. |
| MjpegDemux.FirstFrameIsFrame | src/lib/stream-camera.ts:202 | The slice from the first signature to the next is a frame. |
| MjpegDemux.DemuxConserves | src/lib/stream-camera.ts:183-204 | The emitted frames followed by the kept buffer are exactly the input minus the bytes before its first signature, and those bytes hold no signature start. |
| MjpegDemux.DemuxFrameCount | src/lib/stream-camera.ts:197-204 | Each emitted frame consumes at least 7 bytes of the input, so the loop terminates. |
| MjpegDemux.DemuxAppend | src/lib/stream-camera.ts:183-188 | Scanning `b + c` at once emits the frames of `b`, then those of the buffer `b` leaves followed by `c`, and keeps what the latter keeps. |
| MjpegDemux.DemuxRestStable | src/lib/stream-camera.ts:186-205 | Rescanning a kept buffer emits nothing and keeps it unchanged. |
| MjpegDemux.DemuxChunked | src/lib/stream-camera.ts:176-205 | Feeding the input chunk by chunk into the accumulating buffer emits the same frames and keeps the same buffer as one scan over the whole input, however it is split. |
| MjpegDemux.DemuxOfFrames | src/lib/stream-camera.ts:186-205 | Frames laid back to back and followed by bytes that start with a signature are recovered exactly, one per frame, before whatever those bytes give. |
| MjpegDemux.FrameAcrossChunks | src/lib/stream-camera.ts:183-205 | A frame spread over any number of chunks (its signature split included) and followed by the start of the next one is emitted once and whole; the next start stays buffered. |
| MjpegDemux.ThreeSignaturesOneChunk | src/lib/stream-camera.ts:186-205 | One chunk holding three signatures, each followed by fewer than 7 bytes, gives two frames and keeps the third signature's bytes. |
| MjpegDemux.ShortTail | src/lib/stream-camera.ts:197-200 | A buffer that starts with the signature followed by fewer than 7 bytes cannot hold a second signature and is kept whole. |
| CommandLine.ReadRender | src/lib/shared-args.ts:13-80 | Well-formed entries are read back exactly from their tokens, whatever the value tokens are. |
| CommandLine.BuilderRead | src/lib/shared-args.ts:13-80 | The tokens of an argument table read back as exactly the entries of its switched-on rows. |
| CommandLine.BuilderFlag | src/lib/shared-args.ts:13-80 | In a table in declaration order, a flag appears exactly when its row is switched on, and every occurrence carries the row's value. |
| CommandLine.BuilderOrdered | src/lib/shared-args.ts:13-80 | A table in declaration order gives its flags in that order, each at most once. |
| CommandLine.BuilderLength | src/lib/shared-args.ts:13-80 | A table's token count is one per switched-on flag plus one per value. |
| CommandLine.BuilderThenTail | src/lib/still-camera.ts:56-78 | A table's tokens followed by `--timeout t --nopreview --output -` read back as its entries followed by those three; no flag is given twice. |
| SharedArgs.GetSharedArgs | src/lib/shared-args.ts:12-81 | Definition of `getSharedArgs` as its table of twelve spreads laid out in order; its properties are stated by SharedArgsRead, SharedFlag, NumberFlag, TextFlag, RotationFlag, HFlipFlag, VFlipFlag, SharedArgsOrdered and SharedArgsLength. |
| SharedArgs.SharedArgsRead | src/lib/shared-args.ts:12-80 | `getSharedArgs` reads back as exactly the entries of its switched-on spreads. |
| SharedArgs.SharedFlag | src/lib/shared-args.ts:13-80 | A shared flag appears exactly when its spread is switched on, with the spread's value. |
| SharedArgs.NumberFlag | src/lib/shared-args.ts:18-79 | `--width`, `--height`, `--shutter`, `--ISO`, `--ev`, `--analoggain` and `--digitalgain` appear exactly when their option is set and not 0, each followed by the option's text. |
| SharedArgs.TextFlag | src/lib/shared-args.ts:64-69 | `--exposure` and `--awb` appear exactly when their option is a non-empty string, followed by it. |
| SharedArgs.RotationFlag | src/lib/shared-args.ts:28 | `--rotation` appears exactly for a rotation other than `Rotate0`, followed by its degrees. |
| SharedArgs.HFlipFlag | src/lib/shared-args.ts:33-36 | `--hflip` appears exactly for `Horizontal` or `Both`, with no value. |
| SharedArgs.VFlipFlag | src/lib/shared-args.ts:41-44 | `--vflip` appears exactly for `Vertical` or `Both`, with no value. |
| SharedArgs.NoFlipFlags | src/lib/shared-args.ts:33-44 | `None` or no flip gives neither flip flag. |
| SharedArgs.SharedArgsOrdered | src/lib/shared-args.ts:13-80 | The flags appear in the order width, height, rotation, hflip, vflip, shutter, ISO, ev, exposure, awb, analoggain, digitalgain, each at most once. |
| SharedArgs.SharedArgsLength | src/lib/shared-args.ts:13-80 | The list has two tokens per truthy valued option plus one per flip flag given. |
| SharedArgs.NoSharedArgs | src/lib/shared-args.ts:12-80 | No options give the empty list. |
| StillCamera.WithDefaults | src/lib/still-camera.ts:29-34 | The constructor's merge defaults rotation to `Rotate0`, flip to `None` and delay to 1; every field the caller gave is kept and no other field changes. |
| StillCamera.Create | src/lib/still-camera.ts:28-35 | A camera's options are the caller's options merged with the defaults, so its delay is always set. |
| StillCamera.WithDefaultsIdempotent | src/lib/still-camera.ts:29-34 | A sanity fact about the model, not behaviour the program relies on: merging the defaults twice changes nothing. |
| StillCamera.DefaultOptions | src/lib/still-camera.ts:29-34 | No options give exactly the three defaults. |
| StillCamera.TakeImageArgs | src/lib/still-camera.ts:56-78 | Definition of the `raspistill` argument list; its properties are stated by StillArgsShape, StillArgsRead and PictureOptionsUnused. |
| StillCamera.StillArgsShape | src/lib/still-camera.ts:56-78 | The `raspistill` arguments are the shared arguments followed by `--timeout <delay> --nopreview --output -`. |
| StillCamera.StillArgsRead | src/lib/still-camera.ts:56-78 | The `raspistill` arguments read back as the shared entries followed by the timeout with the delay text, `--nopreview` and `--output -`, with no flag twice. |
| StillCamera.PictureOptionsUnused | src/lib/still-camera.ts:54-78 | `sharpness`, `contrast`, `brightness` and `saturation` never change the arguments. |
| StillCamera.GetJpegSignature | src/lib/still-camera.ts:37-51 | The signature `FF D8 FF E1` is returned exactly for the six listed models; any other model fails with a message naming it. |
| StillCamera.UnknownModelNamed | src/lib/still-camera.ts:48-50 | The failure message contains the model string, which can be recovered from it. |
| StillCamera.RemapLaunchError | src/lib/still-camera.ts:79-87 | An error with code `ENOENT` becomes the "raspistill installed?" error; any other error is rethrown unchanged. |
| StillCamera.RemapIdempotent | src/lib/still-camera.ts:79-87 | A sanity fact about the model, not behaviour the program relies on: a remapped error never has code `ENOENT`, so remapping again changes nothing. |
| StillCamera.TakeImageLaunch | src/lib/still-camera.ts:56 | `takeImage` runs `raspistill` with the still arguments. |
| StillCamera.TakeImage | src/lib/still-camera.ts:54-88 | `takeImage` succeeds with the program's output exactly when the run succeeds, and otherwise fails with the remapped error. |
| StreamCamera.WithStreamDefaults | src/lib/stream-camera.ts:50-58 | The constructor's merge defaults rotation `Rotate0`, flip `None`, bit rate 17000000, fps 30, codec H264 and sensor mode `AutoSelect`; every field the caller gave is kept; the size is never defaulted. |
| StreamCamera.StreamDefaultsIdempotent | src/lib/stream-camera.ts:50-58 | A sanity fact about the model, not behaviour the program relies on: merging the defaults twice changes nothing. |
| StreamCamera.StreamArgs | src/lib/stream-camera.ts:65-162 | Definition of the `raspivid` argument list as its table of nine spreads followed by the fixed tail; its properties are stated by StreamArgsRead, StreamArgsOrdered, the per-flag lemmas, DefaultStreamFlags and DefaultsOmitFlags. |
| StreamCamera.StreamArgsRead | src/lib/stream-camera.ts:65-162 | The `raspivid` arguments read back as the entries of the switched-on spreads followed by `--timeout 0`, `--nopreview` and `--output -`, with no flag twice; so the list always ends with that fixed tail. |
| StreamCamera.StreamArgsOrdered | src/lib/stream-camera.ts:65-143 | The spreads give width, height, rotation, hflip, vflip, bitrate, framerate, codec, mode in this order, each at most once, and no still-only flag. |
| StreamCamera.StreamFlag | src/lib/stream-camera.ts:65-143 | A spread's flag appears exactly when the spread is switched on, with its value. |
| StreamCamera.StreamNumberFlag | src/lib/stream-camera.ts:70-102 | `--width`, `--height`, `--bitrate` and `--framerate` appear exactly when their option is set and not 0, followed by its text. |
| StreamCamera.StreamRotationFlag | src/lib/stream-camera.ts:80 | `--rotation` appears exactly for a rotation other than `Rotate0`. |
| StreamCamera.StreamFlipFlags | src/lib/stream-camera.ts:85-92 | `--hflip` appears exactly for `Horizontal` or `Both`, `--vflip` exactly for `Vertical` or `Both`, neither with a value. |
| StreamCamera.StreamCodecFlag | src/lib/stream-camera.ts:110 | `--codec` appears exactly when a codec is set, followed by its name. |
| StreamCamera.StreamModeFlag | src/lib/stream-camera.ts:143 | `--mode` appears exactly for a sensor mode other than `AutoSelect` (0), followed by its digit. |
| StreamCamera.DefaultStreamFlags | src/lib/stream-camera.ts:53-55 | A left-out bit rate, fps or codec puts `--bitrate 17000000`, `--framerate 30` or `--codec H264` on the command line. |
| StreamCamera.DefaultsOmitFlags | src/lib/stream-camera.ts:50-58 | A left-out size, rotation, flip or sensor mode puts no flag on the command line. |
| StreamCamera.CodecAlwaysGiven | src/lib/stream-camera.ts:55 | Since the merge always sets a codec, `--codec` is always given. |
| StreamCamera.CaptureStarted | src/lib/stream-camera.ts:168-171 | `startCapture` resolves on the first data and rejects with the "raspivid installed?" message on a launch error, whatever that error was. |
| StreamCamera.Readable.Push | src/lib/stream-camera.ts:178 | Pushing a chunk appends it to what the stream has received. |
| StreamCamera.Readable.PushEnd | src/lib/stream-camera.ts:224 | Pushing `null` ends the stream. |
| StreamCamera.ImageRequest.constructor | src/lib/stream-camera.ts:245 | The promise `takeImage` returns starts unsettled; SettleAll settles it with the next frame. |
| StreamCamera.StreamCamera.constructor | src/lib/stream-camera.ts:46-59 | A new camera has the merged options, no capture, no streams, no waiting requests and an empty buffer. |
| StreamCamera.StreamCamera.StartCapture | src/lib/stream-camera.ts:165-173 | `startCapture` runs `raspivid` with the argument list and starts from an empty stdout buffer. |
| StreamCamera.StreamCamera.OnData | src/lib/stream-camera.ts:176-206 | A chunk is pushed to every open stream. With MJPEG, the new buffer and the frames emitted are the scan of old buffer plus chunk, and the first frame settles every waiting `takeImage`. Otherwise no frame is emitted and the buffer is unchanged. |
| StreamCamera.StreamCamera.PushToStreams | src/lib/stream-camera.ts:178 | Every open stream receives the chunk, once, in arrival order. |
| StreamCamera.StreamCamera.ScanChunk | src/lib/stream-camera.ts:183-205 | The chunk is appended to the buffer and the complete frames are cut off, keeping the buffer invariant. |
| StreamCamera.StreamCamera.DeliverFrames | src/lib/stream-camera.ts:183-205 | The frames the chunk completes are cut off; the first of them settles every waiting request. |
| StreamCamera.StreamCamera.SettleAll | src/lib/stream-camera.ts:245 | Each one-shot `frame` listener of `takeImage` resolves with the frame and is then gone. |
| StreamCamera.StreamCamera.StopCapture | src/lib/stream-camera.ts:218-227 | `stopCapture` pushes end-of-data once to every listed stream and empties the list; waiting requests stay waiting. |
| StreamCamera.StreamCamera.CreateStream | src/lib/stream-camera.ts:229-238 | `createStream` appends one new, empty stream, which only sees later chunks. |
| StreamCamera.StreamCamera.TakeImage | src/lib/stream-camera.ts:240-246 | `takeImage` fails with "Codec must be 'MJPEG' to take image" unless the codec is MJPEG; otherwise it adds a new request that waits for the next frame. |
| StreamCamera.ScanStep | src/lib/stream-camera.ts:183 | Scanning the bytes received so far plus one more chunk is the earlier scan, continued on its kept buffer with the chunk appended. |

## Left out

- Spawning, killing and the child-process events are left out: `error` after start, `close`, stderr data and stream `error`. They are operating-system process I/O with asynchronous timing. `stopCapture` does not kill in the model; `process` is only a record of the last launch.
- `spawnPromise` in `src/util.ts` is not part of this model: it accumulates a child process's output around I/O events.
- `si.system()` is a foreign library call; the model string is a parameter of `GetJpegSignature`.
- The internals of Node `Readable` and `EventEmitter` (back pressure, listener bookkeeping) are left out. A stream is the list of chunks pushed plus an ended flag. `frame` events are the frames `OnData` returns. A pending `takeImage` is an `ImageRequest` settled with the next frame.
- Number formatting: `Number.prototype.toString` is not modelled. A number carries its text, and NaN (falsy in JavaScript) is not representable.
- An option explicitly set to `undefined` overrides a default in a JavaScript spread. The model does not tell an explicit `undefined` from a missing key, so a default always applies.
- A second `startCapture` without a `stopCapture` in between: the source spawns a new process and attaches a second `data` handler with its own buffer, while the first keeps running. The model has one buffer and resets it.
- The enums of `src/index.ts` are datatypes; a numeric rotation outside the enum cannot be expressed.
- `SensorMode` is a numeric enum, so the source accepts any number as a sensor mode; the model's `SensorMode` is the subset 0 to 7 and cannot express a value outside it.
- Chunk sharing: `onData` pushes the same `Buffer` object to every stream, so a consumer that mutates a chunk changes what the other streams see. The model gives each stream its own immutable copy of the chunk and does not capture that aliasing.
- The test files need camera hardware. `src/lib/still-camera.test.ts` also refers to a `StillCamera.jpegSignature` that the source does not define.
