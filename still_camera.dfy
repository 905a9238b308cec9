/** `StillCamera`: takes one JPEG picture by running `raspistill` once. What
    is modelled is pure: the defaults merge of the constructor, the argument
    list of `takeImage`, the table of system models whose JPEG signature is
    known, and the replacement of the "program not found" launch error. The
    board's model string and the outcome of running `raspistill` are inputs. */
module StillCamera {
  import opened Types
  import CL = CommandLine
  import SA = SharedArgs

  /** `StillOptions`; every field may be left out. */
  datatype StillOptions = StillOptions(
    width: Optional<Number>,
    height: Optional<Number>,
    rotation: Optional<Rotation>,
    flip: Optional<Flip>,
    delay: Optional<Number>,
    shutter: Optional<Number>,
    sharpness: Optional<Number>,
    contrast: Optional<Number>,
    brightness: Optional<Number>,
    saturation: Optional<Number>,
    iso: Optional<Number>,
    exposureCompensation: Optional<Number>,
    exposureMode: Optional<string>,
    awbMode: Optional<string>,
    analogGain: Optional<Number>,
    digitalGain: Optional<Number>)

  /** `new StillCamera()` with no options. */
  const NoStillOptions := StillOptions(
    Undefined, Undefined, Undefined, Undefined, Undefined, Undefined, Undefined, Undefined,
    Undefined, Undefined, Undefined, Undefined, Undefined, Undefined, Undefined, Undefined)

  /** The default capture delay, 1. */
  const DefaultDelay := Number(1.0, "1")

  /** The constructor's `{ rotation: Rotate0, flip: None, delay: 1, ...options }`:
      the three defaults are filled in where the caller left them out, and
      every field the caller gave is kept as given. */
  function WithDefaults(given: StillOptions): (o: StillOptions)
    ensures o.rotation.Defined? && o.flip.Defined? && o.delay.Defined?
    ensures given.rotation.Defined? ==> o.rotation == given.rotation
    ensures given.flip.Defined? ==> o.flip == given.flip
    ensures given.delay.Defined? ==> o.delay == given.delay
    ensures given.rotation.Undefined? ==> o.rotation == Defined(Rotate0)
    ensures given.flip.Undefined? ==> o.flip == Defined(None)
    ensures given.delay.Undefined? ==> o.delay == Defined(DefaultDelay)
    ensures o.(rotation := given.rotation, flip := given.flip, delay := given.delay) == given
  {
    given.(rotation := OrDefault(given.rotation, Rotate0),
           flip := OrDefault(given.flip, None),
           delay := OrDefault(given.delay, DefaultDelay))
  }

  /** A camera; its options are fixed when it is made. */
  datatype StillCamera = StillCamera(options: StillOptions)

  /** `new StillCamera(options)`. */
  function Create(options: StillOptions): (cam: StillCamera)
    ensures cam.options == WithDefaults(options)
    ensures cam.options.delay.Defined?
  {
    StillCamera(WithDefaults(options))
  }

  /** Merging the defaults a second time changes nothing. */
  lemma WithDefaultsIdempotent(given: StillOptions)
    ensures WithDefaults(WithDefaults(given)) == WithDefaults(given)
  {
  }

  /** No options give exactly the three defaults. */
  lemma DefaultOptions()
    ensures WithDefaults(NoStillOptions)
         == NoStillOptions.(rotation := Defined(Rotate0), flip := Defined(None), delay := Defined(DefaultDelay))
  {
  }

  // ----- takeImage's argument list --------------------------------------------

  /** The fields of the options `getSharedArgs` reads. */
  function SharedPart(o: StillOptions): SA.SharedOptions {
    SA.SharedOptions(o.width, o.height, o.rotation, o.flip, o.shutter, o.iso,
                     o.exposureCompensation, o.exposureMode, o.awbMode,
                     o.analogGain, o.digitalGain)
  }

  /** The arguments `takeImage` passes to `raspistill`: the shared ones, then
      the delay as the timeout, no preview, output to stdout. The source reads
      `delay!`; a camera made by `Create` always has a delay. */
  function TakeImageArgs(cam: StillCamera): seq<string>
    requires cam.options.delay.Defined?
  {
    SA.GetSharedArgs(SharedPart(cam.options)) + CL.RunTail(cam.options.delay.value.text)
  }

  /** The still arguments begin with the shared arguments and end with
      `--timeout <delay> --nopreview --output -`. */
  lemma StillArgsShape(cam: StillCamera)
    requires cam.options.delay.Defined?
    ensures var shared := SA.GetSharedArgs(SharedPart(cam.options));
            var args := TakeImageArgs(cam);
            |args| == |shared| + 5 && args[..|shared|] == shared
            && args[|shared|..] == ["--timeout", cam.options.delay.value.text, "--nopreview", "--output", "-"]
  {
    var shared := SA.GetSharedArgs(SharedPart(cam.options));
    var args := TakeImageArgs(cam);
    assert args[..|shared|] == shared;
    assert args[|shared|..] == CL.RunTail(cam.options.delay.value.text);
  }

  /** The still arguments read back as the shared flags followed by the
      delay, `--nopreview` and the output `-`, and no flag is given twice. */
  lemma StillArgsRead(cam: StillCamera)
    requires cam.options.delay.Defined?
    ensures var entries := SA.SharedEntries(SharedPart(cam.options)) + CL.RunTailEntries(cam.options.delay.value.text);
            CL.Read(TakeImageArgs(cam)) == Defined(entries)
            && CL.Distinct(CL.Flags(entries))
  {
    var o := SharedPart(cam.options);
    SA.SharedTableShape(o);
    CL.BuilderThenTail(SA.SharedOrder, SA.SharedSettings(o), cam.options.delay.value.text);
  }

  /** `sharpness`, `contrast`, `brightness` and `saturation` are accepted but
      never reach the command line: options that differ only in them give
      the same arguments. */
  lemma PictureOptionsUnused(a: StillCamera, b: StillCamera)
    requires a.options.delay.Defined?
    requires b.options == a.options.(sharpness := b.options.sharpness, contrast := b.options.contrast,
                                     brightness := b.options.brightness, saturation := b.options.saturation)
    ensures TakeImageArgs(a) == TakeImageArgs(b)
  {
    assert SharedPart(a.options) == SharedPart(b.options);
  }

  // ----- JPEG signature ---------------------------------------------------------

  /** The start of a JPEG file with an EXIF header: FF D8 FF E1. */
  const JpegSignature: seq<Byte> := [0xFF, 0xD8, 0xFF, 0xE1]

  /** The system models whose JPEG signature is known. */
  const KnownModels: set<string> := {
    "BCM2711",
    "BCM2835 - Pi 3 Model B",
    "BCM2835 - Pi 3 Model B+",
    "BCM2835 - Pi 4 Model B",
    "BCM2835 - Pi Zero",
    "BCM2835 - Pi Zero W"
  }

  /** The message for a model that is not in the table. */
  function UnknownModelMessage(model: string): string {
    "Could not determine JPEG signature. Unknown system model '" + model + "'"
  }

  /** `getJpegSignature`, given the model string the system reports: the
      signature for the six known models, and an error naming the model for
      any other. */
  function GetJpegSignature(model: string): (r: Result<seq<Byte>, string>)
    ensures r.Ok? <==> model in KnownModels
    ensures r.Ok? ==> r.value == JpegSignature
    ensures r.Err? ==> r.error == UnknownModelMessage(model)
  {
    if model == "BCM2711"
       || model == "BCM2835 - Pi 3 Model B"
       || model == "BCM2835 - Pi 3 Model B+"
       || model == "BCM2835 - Pi 4 Model B"
       || model == "BCM2835 - Pi Zero"
       || model == "BCM2835 - Pi Zero W"
    then Ok(JpegSignature)
    else Err(UnknownModelMessage(model))
  }

  /** The model can be recovered from the error message: distinct unknown
      models give distinct messages. */
  lemma UnknownModelNamed(model: string)
    ensures var m := UnknownModelMessage(model);
            var prefix := "Could not determine JPEG signature. Unknown system model '";
            |m| == |prefix| + |model| + 1 && m[|prefix|..|m| - 1] == model
  {
  }

  // ----- launching raspistill -----------------------------------------------------

  /** An error raised while running a program: its `code`, if any, and its
      message. */
  datatype LaunchError = LaunchError(code: Optional<string>, message: string)

  /** The message that replaces a "program not found" error. */
  const NotInstalledMessage :=
    "Could not take image with StillCamera. Are you running on a Raspberry Pi with 'raspistill' installed?"

  /** The `catch` of `takeImage`: an error with code `ENOENT` becomes a new
      error (which has no code) saying `raspistill` may be missing; any other
      error is rethrown unchanged. */
  function RemapLaunchError(e: LaunchError): (r: LaunchError)
    ensures e.code == Defined("ENOENT") ==> r == LaunchError(Undefined, NotInstalledMessage)
    ensures e.code != Defined("ENOENT") ==> r == e
  {
    if e.code == Defined("ENOENT") then LaunchError(Undefined, NotInstalledMessage) else e
  }

  /** A remapped error never has the code `ENOENT`, so remapping again
      changes nothing. */
  lemma RemapIdempotent(e: LaunchError)
    ensures RemapLaunchError(e).code != Defined("ENOENT")
    ensures RemapLaunchError(RemapLaunchError(e)) == RemapLaunchError(e)
  {
  }

  /** What `takeImage` runs. */
  function TakeImageLaunch(cam: StillCamera): (l: Launch)
    requires cam.options.delay.Defined?
    ensures l.program == "raspistill" && l.args == TakeImageArgs(cam)
  {
    Launch("raspistill", TakeImageArgs(cam))
  }

  /** `takeImage`, given the outcome of running `TakeImageLaunch(cam)`: the
      picture bytes on success, otherwise the remapped error. */
  function TakeImage(cam: StillCamera, outcome: Result<seq<Byte>, LaunchError>): (r: Result<seq<Byte>, LaunchError>)
    requires cam.options.delay.Defined?
    ensures r.Ok? <==> outcome.Ok?
    ensures outcome.Ok? ==> r.value == outcome.value
    ensures outcome.Err? ==> r.error == RemapLaunchError(outcome.error)
  {
    match outcome
    case Ok(image) => Ok(image)
    case Err(e) => Err(RemapLaunchError(e))
  }
}
