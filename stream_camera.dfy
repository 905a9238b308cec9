/** `StreamCamera`: runs `raspivid` and hands its output to readable streams,
    and, with the MJPEG codec, cuts the output into JPEG frames.

    The argument list is a table over the CommandLine builder. The camera
    object is a class: its list of open streams, its pending `takeImage`
    requests and the stdout buffer of the running capture are fields that
    its methods update. The buffer obeys one invariant: it and the frames
    emitted so far are what one demultiplexing scan over all the bytes
    appended to it since `startCapture` gives. */
module StreamCamera {
  import opened Types
  import CL = CommandLine
  import SA = SharedArgs
  import MD = MjpegDemux

  /** `StreamOptions`; every field may be left out. */
  datatype StreamOptions = StreamOptions(
    width: Optional<Number>,
    height: Optional<Number>,
    rotation: Optional<Rotation>,
    flip: Optional<Flip>,
    bitRate: Optional<Number>,
    fps: Optional<Number>,
    codec: Optional<Codec>,
    sensorMode: Optional<SensorMode>)

  /** `new StreamCamera()` with no options. */
  const NoStreamOptions := StreamOptions(
    Undefined, Undefined, Undefined, Undefined, Undefined, Undefined, Undefined, Undefined)

  /** The default bit rate, 17000000, and frame rate, 30. */
  const DefaultBitRate := Number(17000000.0, "17000000")
  const DefaultFrameRate := Number(30.0, "30")

  /** The constructor's `{ rotation: Rotate0, flip: None, bitRate: 17000000,
      fps: 30, codec: H264, sensorMode: AutoSelect, ...options }`: every
      field but the size gets a default, and a field the caller gave is kept. */
  function WithStreamDefaults(given: StreamOptions): (o: StreamOptions)
    ensures o.rotation.Defined? && o.flip.Defined? && o.bitRate.Defined?
    ensures o.fps.Defined? && o.codec.Defined? && o.sensorMode.Defined?
    ensures given.rotation.Defined? ==> o.rotation == given.rotation
    ensures given.flip.Defined? ==> o.flip == given.flip
    ensures given.bitRate.Defined? ==> o.bitRate == given.bitRate
    ensures given.fps.Defined? ==> o.fps == given.fps
    ensures given.codec.Defined? ==> o.codec == given.codec
    ensures given.sensorMode.Defined? ==> o.sensorMode == given.sensorMode
    ensures given.rotation.Undefined? ==> o.rotation == Defined(Rotate0)
    ensures given.flip.Undefined? ==> o.flip == Defined(None)
    ensures given.bitRate.Undefined? ==> o.bitRate == Defined(DefaultBitRate)
    ensures given.fps.Undefined? ==> o.fps == Defined(DefaultFrameRate)
    ensures given.codec.Undefined? ==> o.codec == Defined(H264)
    ensures given.sensorMode.Undefined? ==> o.sensorMode == Defined(AutoSelect)
    ensures o.width == given.width && o.height == given.height
  {
    given.(rotation := OrDefault(given.rotation, Rotate0),
           flip := OrDefault(given.flip, None),
           bitRate := OrDefault(given.bitRate, DefaultBitRate),
           fps := OrDefault(given.fps, DefaultFrameRate),
           codec := OrDefault(given.codec, H264),
           sensorMode := OrDefault(given.sensorMode, AutoSelect))
  }

  /** Merging the defaults a second time changes nothing. */
  lemma StreamDefaultsIdempotent(given: StreamOptions)
    ensures WithStreamDefaults(WithStreamDefaults(given)) == WithStreamDefaults(given)
  {
  }

  // ----- startCapture's argument list -----------------------------------------

  /** The flags of the conditional spreads of `startCapture`'s list, in the
      order it gives them; the list ends with the fixed `CL.RunTail("0")`. */
  const StreamOrder: seq<CL.Flag> := [
    CL.Width, CL.Height, CL.Rotation, CL.HFlip, CL.VFlip,
    CL.BitRate, CL.FrameRate, CL.Codec, CL.Mode ]

  /** A codec is always a non-empty string, so a set codec is always given. */
  function CodecSetting(c: Optional<Codec>): CL.Setting {
    if c.Defined? then CL.OnWith(c.value.Name()) else CL.Off
  }

  /** A sensor mode is given unless it is left out or `AutoSelect` (0). */
  function ModeSetting(m: Optional<SensorMode>): CL.Setting {
    if ModeTruthy(m) then CL.OnWith(ModeText(m.value)) else CL.Off
  }

  /** One spread of the list per flag. */
  function StreamSetting(o: StreamOptions, f: CL.Flag): CL.Setting {
    match f
    case Width => SA.NumberSetting(o.width)
    case Height => SA.NumberSetting(o.height)
    case Rotation => SA.RotationSetting(o.rotation)
    case HFlip => SA.Switch(SA.HFlipped(o.flip))
    case VFlip => SA.Switch(SA.VFlipped(o.flip))
    case BitRate => SA.NumberSetting(o.bitRate)
    case FrameRate => SA.NumberSetting(o.fps)
    case Codec => CodecSetting(o.codec)
    case Mode => ModeSetting(o.sensorMode)
    case _ => CL.Off
  }

  function StreamSettings(o: StreamOptions): CL.Settings {
    map f | f in StreamOrder :: StreamSetting(o, f)
  }

  function StreamTable(o: StreamOptions): seq<CL.Row> {
    CL.Rows(StreamOrder, StreamSettings(o))
  }

  /** The `args` array of `startCapture`: the spreads, then run until
      stopped (timeout 0), no preview, output to stdout. */
  function StreamArgs(o: StreamOptions): seq<string> {
    CL.Layout(StreamTable(o)) + CL.RunTail("0")
  }

  /** The flags and values the spreads set. */
  function StreamEntries(o: StreamOptions): seq<CL.Entry> {
    CL.Select(StreamTable(o))
  }

  lemma GetStream(o: StreamOptions, f: CL.Flag)
    requires f in StreamOrder
    ensures CL.Get(StreamSettings(o), f) == StreamSetting(o, f)
  {
  }

  lemma StreamOrderIncreasing()
    ensures CL.Increasing(StreamOrder)
  {
  }

  lemma StreamSettingFits(o: StreamOptions, f: CL.Flag)
    ensures StreamSetting(o, f) != CL.Off ==> (StreamSetting(o, f).OnWith? <==> CL.TakesValue(f))
  {
  }

  lemma StreamFits(o: StreamOptions)
    ensures CL.FitsFlags(StreamSettings(o))
  {
    forall f | f in StreamSettings(o) && StreamSettings(o)[f] != CL.Off
      ensures StreamSettings(o)[f].OnWith? <==> CL.TakesValue(f)
    {
      StreamSettingFits(o, f);
    }
  }

  /** The list reads back as the entries of the spreads that are switched on,
      followed by `--timeout 0`, `--nopreview` and `--output -`, and no flag
      is given twice. */
  lemma StreamArgsRead(o: StreamOptions)
    ensures var entries := StreamEntries(o) + CL.RunTailEntries("0");
            CL.Read(StreamArgs(o)) == Defined(entries)
            && CL.Distinct(CL.Flags(entries))
  {
    StreamFits(o);
    StreamOrderIncreasing();
    CL.BuilderThenTail(StreamOrder, StreamSettings(o), "0");
  }

  /** The spreads give their flags in the list's order, each at most once,
      and no other flag (in particular none of the still-only exposure flags). */
  lemma StreamArgsOrdered(o: StreamOptions)
    ensures CL.IsSubsequence(CL.Flags(StreamEntries(o)), StreamOrder)
    ensures CL.Distinct(CL.Flags(StreamEntries(o)))
  {
    StreamOrderIncreasing();
    CL.BuilderOrdered(StreamOrder, StreamSettings(o));
  }

  /** A flag of the list is given exactly when its spread is switched on,
      and then with that spread's value. */
  lemma StreamFlag(o: StreamOptions, f: CL.Flag)
    requires f in StreamOrder
    ensures CL.Present(StreamEntries(o), f) <==> StreamSetting(o, f) != CL.Off
    ensures forall k :: 0 <= k < |StreamEntries(o)| && StreamEntries(o)[k].flag == f
              ==> StreamEntries(o)[k].value == CL.ValueOf(StreamSetting(o, f))
  {
    StreamOrderIncreasing();
    CL.BuilderFlag(StreamOrder, StreamSettings(o), f);
    GetStream(o, f);
  }

  /** The four number options that are given with their text when truthy. */
  predicate StreamNumberOption(o: StreamOptions, f: CL.Flag, x: Optional<Number>) {
    (f == CL.Width && x == o.width) || (f == CL.Height && x == o.height)
    || (f == CL.BitRate && x == o.bitRate) || (f == CL.FrameRate && x == o.fps)
  }

  /** `--width`, `--height`, `--bitrate` and `--framerate` are given exactly
      when their option is set and not 0, followed by its text. */
  lemma StreamNumberFlag(o: StreamOptions, f: CL.Flag, x: Optional<Number>)
    requires StreamNumberOption(o, f, x)
    ensures CL.Present(StreamEntries(o), f) <==> NumberTruthy(x)
    ensures forall k :: 0 <= k < |StreamEntries(o)| && StreamEntries(o)[k].flag == f
              ==> NumberTruthy(x) && StreamEntries(o)[k].value == Defined(x.value.text)
  {
    StreamFlag(o, f);
  }

  /** `--rotation` is given exactly for a rotation other than `Rotate0`. */
  lemma StreamRotationFlag(o: StreamOptions)
    ensures CL.Present(StreamEntries(o), CL.Rotation)
            <==> (o.rotation.Defined? && o.rotation.value != Rotate0)
    ensures forall k :: 0 <= k < |StreamEntries(o)| && StreamEntries(o)[k].flag == CL.Rotation
              ==> StreamEntries(o)[k].value == Defined(o.rotation.value.Text())
  {
    StreamFlag(o, CL.Rotation);
  }

  /** `--hflip` is given exactly for `Horizontal` or `Both`, and `--vflip`
      exactly for `Vertical` or `Both`; neither takes a value. */
  lemma StreamFlipFlags(o: StreamOptions)
    ensures CL.Present(StreamEntries(o), CL.HFlip)
            <==> (o.flip == Defined(Horizontal) || o.flip == Defined(Both))
    ensures CL.Present(StreamEntries(o), CL.VFlip)
            <==> (o.flip == Defined(Vertical) || o.flip == Defined(Both))
    ensures forall k :: 0 <= k < |StreamEntries(o)|
              && (StreamEntries(o)[k].flag == CL.HFlip || StreamEntries(o)[k].flag == CL.VFlip)
              ==> StreamEntries(o)[k].value == Undefined
  {
    StreamFlag(o, CL.HFlip);
    StreamFlag(o, CL.VFlip);
  }

  /** `--codec` is given whenever a codec is set, with its name. */
  lemma StreamCodecFlag(o: StreamOptions)
    ensures CL.Present(StreamEntries(o), CL.Codec) <==> o.codec.Defined?
    ensures forall k :: 0 <= k < |StreamEntries(o)| && StreamEntries(o)[k].flag == CL.Codec
              ==> StreamEntries(o)[k].value == Defined(o.codec.value.Name())
  {
    StreamFlag(o, CL.Codec);
  }

  /** `--mode` is given exactly for a sensor mode other than `AutoSelect`. */
  lemma StreamModeFlag(o: StreamOptions)
    ensures CL.Present(StreamEntries(o), CL.Mode) <==> ModeTruthy(o.sensorMode)
    ensures forall k :: 0 <= k < |StreamEntries(o)| && StreamEntries(o)[k].flag == CL.Mode
              ==> StreamEntries(o)[k].value == Defined(ModeText(o.sensorMode.value))
  {
    StreamFlag(o, CL.Mode);
  }

  /** What the defaults put on the command line: a left-out bit rate or
      frame rate gives `--bitrate 17000000` or `--framerate 30`, and a
      left-out codec gives `--codec H264`. */
  lemma DefaultStreamFlags(given: StreamOptions)
    ensures var es := StreamEntries(WithStreamDefaults(given));
            given.bitRate.Undefined? ==>
              CL.Present(es, CL.BitRate)
              && forall k :: 0 <= k < |es| && es[k].flag == CL.BitRate ==> es[k].value == Defined("17000000")
    ensures var es := StreamEntries(WithStreamDefaults(given));
            given.fps.Undefined? ==>
              CL.Present(es, CL.FrameRate)
              && forall k :: 0 <= k < |es| && es[k].flag == CL.FrameRate ==> es[k].value == Defined("30")
    ensures var es := StreamEntries(WithStreamDefaults(given));
            given.codec.Undefined? ==>
              CL.Present(es, CL.Codec)
              && forall k :: 0 <= k < |es| && es[k].flag == CL.Codec ==> es[k].value == Defined("H264")
  {
    var o := WithStreamDefaults(given);
    StreamNumberFlag(o, CL.BitRate, o.bitRate);
    StreamNumberFlag(o, CL.FrameRate, o.fps);
    StreamCodecFlag(o);
  }

  /** A left-out size, rotation, flip or sensor mode gives no flag: the
      defaults `Rotate0`, `None` and `AutoSelect` are all switched off. */
  lemma DefaultsOmitFlags(given: StreamOptions)
    ensures var es := StreamEntries(WithStreamDefaults(given));
            (given.width.Undefined? ==> !CL.Present(es, CL.Width))
            && (given.height.Undefined? ==> !CL.Present(es, CL.Height))
            && (given.rotation.Undefined? ==> !CL.Present(es, CL.Rotation))
            && (given.flip.Undefined? ==> !CL.Present(es, CL.HFlip) && !CL.Present(es, CL.VFlip))
            && (given.sensorMode.Undefined? ==> !CL.Present(es, CL.Mode))
  {
    var o := WithStreamDefaults(given);
    StreamNumberFlag(o, CL.Width, o.width);
    StreamNumberFlag(o, CL.Height, o.height);
    StreamRotationFlag(o);
    StreamFlipFlags(o);
    StreamModeFlag(o);
  }

  /** Whatever the options, the codec flag is always given, since the
      defaults always set a codec. */
  lemma CodecAlwaysGiven(given: StreamOptions)
    ensures CL.Present(StreamEntries(WithStreamDefaults(given)), CL.Codec)
  {
    StreamCodecFlag(WithStreamDefaults(given));
  }

  // ----- the camera object ----------------------------------------------------

  /** The message of `takeImage` when the codec is not MJPEG. */
  const CodecMessage := "Codec must be 'MJPEG' to take image"

  /** The message `startCapture` rejects with when `raspivid` cannot be run. */
  const StartFailureMessage :=
    "Could not start capture with StreamCamera. Are you running on a Raspberry Pi with 'raspivid' installed?"

  /** What the capture process does first: write data, or fail to start. */
  datatype StartEvent = FirstData | LaunchFailed(error: string)

  /** The promise of `startCapture`: it resolves on the first data and
      rejects with a fixed message on a launch error, whatever the error was. */
  function CaptureStarted(first: StartEvent): (r: Result<(), string>)
    ensures r.Ok? <==> first == FirstData
    ensures r.Err? ==> r.error == StartFailureMessage
  {
    match first
    case FirstData => Ok(())
    case LaunchFailed(_) => Err(StartFailureMessage)
  }

  /** A readable stream handed out by `createStream`: the chunks pushed to
      it and whether end-of-stream has been pushed. */
  class Readable {
    var pushed: seq<seq<Byte>>
    var ended: bool

    constructor()
      ensures pushed == [] && !ended
    {
      pushed := [];
      ended := false;
    }

    /** `push(data)`. */
    method Push(data: seq<Byte>)
      modifies this
      ensures pushed == old(pushed) + [data] && ended == old(ended)
    {
      pushed := pushed + [data];
    }

    /** `push(null)`: end of stream. */
    method PushEnd()
      modifies this
      ensures ended && pushed == old(pushed)
    {
      ended := true;
    }
  }

  /** The promise `takeImage` returns; it is settled with the next frame. */
  class ImageRequest {
    var image: Optional<seq<Byte>>

    constructor()
      ensures image == Undefined
    {
      image := Undefined;
    }
  }

  class StreamCamera {
    const options: StreamOptions
    /** The capture started by `startCapture`, if any; stopping does not clear it. */
    var process: Optional<Launch>
    var streams: seq<Readable>
    /** The `takeImage` requests waiting for a frame. */
    var waiting: seq<ImageRequest>
    var stdoutBuffer: seq<Byte>
    /** The chunks appended to the buffer since the capture started, and the
        frames emitted from them. */
    ghost var scanned: seq<seq<Byte>>
    ghost var emitted: seq<seq<Byte>>

    predicate IsMjpeg() {
      options.codec == Defined(MJPEG)
    }

    /** Each open stream is listed once and has not ended; with MJPEG the
        buffer and the emitted frames are one scan over the scanned bytes,
        and otherwise nothing is buffered or emitted. */
    ghost predicate Valid()
      reads this, streams
    {
      (forall i, j :: 0 <= i < j < |streams| ==> streams[i] != streams[j])
      && (forall i :: 0 <= i < |streams| ==> !streams[i].ended)
      && (IsMjpeg() ==> MD.Scan(emitted, stdoutBuffer) == MD.Demux(MD.Flatten(scanned)))
      && (!IsMjpeg() ==> stdoutBuffer == [] && emitted == [])
    }

    /** `new StreamCamera(options)`. */
    constructor(given: StreamOptions)
      ensures options == WithStreamDefaults(given)
      ensures process == Undefined && streams == [] && waiting == []
      ensures stdoutBuffer == [] && scanned == [] && emitted == []
      ensures Valid()
    {
      options := WithStreamDefaults(given);
      process := Undefined;
      streams := [];
      waiting := [];
      stdoutBuffer := [];
      scanned := [];
      emitted := [];
      new;
      EmptyScan();
    }

    /** `startCapture`: runs `raspivid` with the argument list, with a fresh
        stdout buffer. */
    method StartCapture() returns (launch: Launch)
      requires Valid()
      modifies this
      ensures Valid()
      ensures launch == Launch("raspivid", StreamArgs(options)) && process == Defined(launch)
      ensures stdoutBuffer == [] && scanned == [] && emitted == []
      ensures streams == old(streams) && waiting == old(waiting)
    {
      var args := StreamArgs(options);
      launch := Launch("raspivid", args);
      process := Defined(launch);
      stdoutBuffer := [];
      scanned := [];
      emitted := [];
      EmptyScan();
    }

    /** The stdout `data` handler: the chunk is pushed to every open stream;
        then, with MJPEG only, it is appended to the buffer and the complete
        frames are cut off and emitted. The first frame settles every
        waiting `takeImage`. */
    method OnData(chunk: seq<Byte>) returns (frames: seq<seq<Byte>>)
      requires Valid() && process.Defined?
      modifies this, streams, waiting
      ensures Valid()
      ensures process == old(process) && streams == old(streams)
      ensures forall i :: 0 <= i < |streams| ==>
                streams[i].pushed == old(streams[i].pushed) + [chunk] && !streams[i].ended
      ensures !IsMjpeg() ==> frames == [] && stdoutBuffer == old(stdoutBuffer)
      ensures IsMjpeg() ==> MD.Scan(frames, stdoutBuffer) == MD.Demux(old(stdoutBuffer) + chunk)
      ensures IsMjpeg() ==> scanned == old(scanned) + [chunk] && emitted == old(emitted) + frames
      ensures frames == [] ==> waiting == old(waiting) && unchanged(waiting)
      ensures frames != [] ==> waiting == []
      ensures frames != [] ==> forall k :: 0 <= k < |old(waiting)| ==> old(waiting)[k].image == Defined(frames[0])
    {
      PushToStreams(chunk);
      if !IsMjpeg() {
        frames := [];
        return;
      }
      frames := DeliverFrames(chunk);
    }

    /** With MJPEG: the frames the chunk completes are cut off, and the first
        of them settles every waiting request. */
    method DeliverFrames(chunk: seq<Byte>) returns (frames: seq<seq<Byte>>)
      requires Valid() && IsMjpeg()
      modifies this, waiting
      ensures Valid()
      ensures process == old(process) && streams == old(streams)
      ensures MD.Scan(frames, stdoutBuffer) == MD.Demux(old(stdoutBuffer) + chunk)
      ensures scanned == old(scanned) + [chunk] && emitted == old(emitted) + frames
      ensures frames == [] ==> waiting == old(waiting) && unchanged(waiting)
      ensures frames != [] ==> waiting == []
      ensures frames != [] ==> forall k :: 0 <= k < |old(waiting)| ==> old(waiting)[k].image == Defined(frames[0])
    {
      frames := ScanChunk(chunk);
      if frames != [] {
        SettleAll(frames[0]);
      }
    }

    /** Every waiting request is settled with the image and the list of
        waiting requests is emptied. */
    method SettleAll(image: seq<Byte>)
      requires Valid()
      modifies this, waiting
      ensures Valid()
      ensures waiting == []
      ensures forall k :: 0 <= k < |old(waiting)| ==> old(waiting)[k].image == Defined(image)
      ensures process == old(process) && streams == old(streams) && stdoutBuffer == old(stdoutBuffer)
      ensures scanned == old(scanned) && emitted == old(emitted)
    {
      Settle(image);
      waiting := [];
    }

    /** Pushes the chunk to every open stream. */
    method PushToStreams(chunk: seq<Byte>)
      requires Valid()
      modifies streams
      ensures Valid()
      ensures forall i :: 0 <= i < |streams| ==>
                streams[i].pushed == old(streams[i].pushed) + [chunk] && !streams[i].ended
    {
      var i := 0;
      while i < |streams|
        invariant 0 <= i <= |streams|
        invariant forall k :: 0 <= k < i ==> streams[k].pushed == old(streams[k].pushed) + [chunk]
        invariant forall k :: i <= k < |streams| ==> streams[k].pushed == old(streams[k].pushed)
        invariant forall k :: 0 <= k < |streams| ==> streams[k].ended == old(streams[k].ended)
        modifies streams
      {
        streams[i].Push(chunk);
        i := i + 1;
      }
    }

    /** With MJPEG: appends the chunk to the buffer and cuts off the complete
        frames. */
    method ScanChunk(chunk: seq<Byte>) returns (frames: seq<seq<Byte>>)
      requires Valid() && IsMjpeg()
      modifies this
      ensures Valid()
      ensures MD.Scan(frames, stdoutBuffer) == MD.Demux(old(stdoutBuffer) + chunk)
      ensures scanned == old(scanned) + [chunk] && emitted == old(emitted) + frames
      ensures process == old(process) && streams == old(streams) && waiting == old(waiting)
    {
      ScanStep(scanned, chunk);
      var rest;
      frames, rest := MD.ExtractFrames(stdoutBuffer + chunk);
      stdoutBuffer := rest;
      scanned := scanned + [chunk];
      emitted := emitted + frames;
    }

    /** Settles every waiting request with the image. */
    method Settle(image: seq<Byte>)
      modifies waiting
      ensures forall k :: 0 <= k < |waiting| ==> waiting[k].image == Defined(image)
    {
      var k := 0;
      while k < |waiting|
        invariant 0 <= k <= |waiting|
        invariant forall j :: 0 <= j < k ==> waiting[j].image == Defined(image)
        modifies waiting
      {
        waiting[k].image := Defined(image);
        k := k + 1;
      }
    }

    /** `stopCapture`: end-of-stream is pushed to every open stream and the
        list is emptied. Waiting `takeImage` requests stay waiting. */
    method StopCapture()
      requires Valid()
      modifies this, streams
      ensures Valid()
      ensures streams == [] && waiting == old(waiting) && process == old(process)
      ensures stdoutBuffer == old(stdoutBuffer) && scanned == old(scanned) && emitted == old(emitted)
      ensures forall i :: 0 <= i < |old(streams)| ==>
                old(streams)[i].ended && old(streams)[i].pushed == old(streams[i].pushed)
    {
      var i := 0;
      while i < |streams|
        invariant 0 <= i <= |streams|
        invariant forall k :: 0 <= k < i ==> streams[k].ended
        invariant forall k :: 0 <= k < |streams| ==> streams[k].pushed == old(streams[k].pushed)
        modifies streams
      {
        streams[i].PushEnd();
        i := i + 1;
      }
      streams := [];
    }

    /** `createStream`: a new, empty stream, added to the list. */
    method CreateStream() returns (s: Readable)
      requires Valid()
      modifies this
      ensures Valid()
      ensures fresh(s) && s.pushed == [] && !s.ended
      ensures streams == old(streams) + [s]
      ensures waiting == old(waiting) && process == old(process) && stdoutBuffer == old(stdoutBuffer)
      ensures scanned == old(scanned) && emitted == old(emitted)
    {
      s := new Readable();
      streams := streams + [s];
    }

    /** `takeImage`: refused unless the codec is MJPEG; otherwise a new
        request waits for the next frame. */
    method TakeImage() returns (r: Result<ImageRequest, string>)
      requires Valid()
      modifies this
      ensures Valid()
      ensures !IsMjpeg() ==> r == Err(CodecMessage) && waiting == old(waiting)
      ensures IsMjpeg() ==> r.Ok? && fresh(r.value) && r.value.image == Undefined
                            && waiting == old(waiting) + [r.value]
      ensures streams == old(streams) && process == old(process) && stdoutBuffer == old(stdoutBuffer)
      ensures scanned == old(scanned) && emitted == old(emitted)
    {
      if !IsMjpeg() {
        return Err(CodecMessage);
      }
      var request := new ImageRequest();
      waiting := waiting + [request];
      r := Ok(request);
    }
  }

  /** Nothing scanned: nothing emitted and nothing buffered. */
  lemma EmptyScan()
    ensures MD.Demux(MD.Flatten([])) == MD.Scan([], [])
  {
    var b: seq<Byte> := [];
    assert MD.Flatten([]) == b;
    assert MD.IndexOf(b, 0) == -1;
  }

  /** Scanning one more chunk: the buffer left by the chunks so far, with the
      chunk appended, yields the next frames and the next buffer. */
  lemma ScanStep(scanned: seq<seq<Byte>>, chunk: seq<Byte>)
    ensures var before := MD.Demux(MD.Flatten(scanned));
            var step := MD.Demux(before.rest + chunk);
            MD.Demux(MD.Flatten(scanned + [chunk])) == MD.Scan(before.frames + step.frames, step.rest)
  {
    MD.FlattenAppend(scanned, [chunk]);
    assert MD.Flatten([chunk]) == chunk by {
      MD.FlattenCons(chunk, []);
    }
    MD.DemuxAppend(MD.Flatten(scanned), chunk);
  }
}
