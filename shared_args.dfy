/** `getSharedArgs`: the command-line arguments common to `raspistill` and
    `raspivid`, built from the camera options by truthiness. */
module SharedArgs {
  import opened Types
  import CL = CommandLine

  /** The options `getSharedArgs` reads (the fields of `StillOptions` and
      `StreamOptions` it looks at). `exposureMode` and `awbMode` are strings. */
  datatype SharedOptions = SharedOptions(
    width: Optional<Number>,
    height: Optional<Number>,
    rotation: Optional<Rotation>,
    flip: Optional<Flip>,
    shutter: Optional<Number>,
    iso: Optional<Number>,
    exposureCompensation: Optional<Number>,
    exposureMode: Optional<string>,
    awbMode: Optional<string>,
    analogGain: Optional<Number>,
    digitalGain: Optional<Number>)

  const NoSharedOptions := SharedOptions(
    Undefined, Undefined, Undefined, Undefined, Undefined, Undefined,
    Undefined, Undefined, Undefined, Undefined, Undefined)

  predicate HFlipped(flip: Optional<Flip>) {
    flip.Defined? && (flip.value == Horizontal || flip.value == Both)
  }

  predicate VFlipped(flip: Optional<Flip>) {
    flip.Defined? && (flip.value == Vertical || flip.value == Both)
  }

  // ----- the argument list -----------------------------------------------------

  /** The flags `getSharedArgs` can give, in the order it gives them. */
  const SharedOrder: seq<CL.Flag> := [
    CL.Width, CL.Height, CL.Rotation, CL.HFlip, CL.VFlip, CL.Shutter,
    CL.Iso, CL.Ev, CL.Exposure, CL.Awb, CL.AnalogGain, CL.DigitalGain]

  /** `options.x ? [flag, options.x.toString()] : []` for a number option. */
  function NumberSetting(x: Optional<Number>): CL.Setting {
    if NumberTruthy(x) then CL.OnWith(x.value.text) else CL.Off
  }

  /** The same for a string option: the string itself is the value. */
  function TextSetting(x: Optional<string>): CL.Setting {
    if TextTruthy(x) then CL.OnWith(x.value) else CL.Off
  }

  /** The same for the rotation, whose value is its number of degrees. */
  function RotationSetting(x: Optional<Rotation>): CL.Setting {
    if RotationTruthy(x) then CL.OnWith(x.value.Text()) else CL.Off
  }

  /** `cond ? [flag] : []`. */
  function Switch(b: bool): CL.Setting {
    if b then CL.On else CL.Off
  }

  /** The conditional spread `getSharedArgs` writes for each of its flags. */
  function SharedSetting(o: SharedOptions, f: CL.Flag): CL.Setting {
    match f
    case Width => NumberSetting(o.width)
    case Height => NumberSetting(o.height)
    case Rotation => RotationSetting(o.rotation)
    case HFlip => Switch(HFlipped(o.flip))
    case VFlip => Switch(VFlipped(o.flip))
    case Shutter => NumberSetting(o.shutter)
    case Iso => NumberSetting(o.iso)
    case Ev => NumberSetting(o.exposureCompensation)
    case Exposure => TextSetting(o.exposureMode)
    case Awb => TextSetting(o.awbMode)
    case AnalogGain => NumberSetting(o.analogGain)
    case DigitalGain => NumberSetting(o.digitalGain)
    case _ => CL.Off
  }

  function SharedSettings(o: SharedOptions): CL.Settings {
    map f | f in SharedOrder :: SharedSetting(o, f)
  }

  /** The array expression of `getSharedArgs` as a table of its spreads. */
  function SharedTable(o: SharedOptions): seq<CL.Row> {
    CL.Rows(SharedOrder, SharedSettings(o))
  }

  /** `getSharedArgs`: the spreads laid out one after the other. */
  function GetSharedArgs(o: SharedOptions): seq<string> {
    CL.Layout(SharedTable(o))
  }

  /** The flags (with their values) the shared arguments set, in order. */
  function SharedEntries(o: SharedOptions): seq<CL.Entry> {
    CL.Select(SharedTable(o))
  }

  // ----- properties ------------------------------------------------------------

  lemma GetShared(o: SharedOptions, f: CL.Flag)
    requires f in SharedOrder
    ensures CL.Get(SharedSettings(o), f) == SharedSetting(o, f)
  {
  }

  /** The shared flags come in declaration order, and each spread gives a
      value exactly when its flag takes one. */
  lemma SharedTableShape(o: SharedOptions)
    ensures CL.Increasing(SharedOrder)
    ensures CL.FitsFlags(SharedSettings(o))
  {
    SharedOrderIncreasing();
    forall f | f in SharedSettings(o) && SharedSettings(o)[f] != CL.Off
      ensures SharedSettings(o)[f].OnWith? <==> CL.TakesValue(f)
    {
      SettingFits(o, f);
    }
  }

  lemma SharedOrderIncreasing()
    ensures CL.Increasing(SharedOrder)
  {
  }

  lemma SettingFits(o: SharedOptions, f: CL.Flag)
    ensures SharedSetting(o, f) != CL.Off ==> (SharedSetting(o, f).OnWith? <==> CL.TakesValue(f))
  {
  }

  /** The argument list is read back as exactly the selected flags and
      values, in order: each flag token is followed by its value token when
      it takes one, and nothing else is on the list. */
  lemma SharedArgsRead(o: SharedOptions)
    ensures GetSharedArgs(o) == CL.Render(SharedEntries(o))
    ensures CL.Read(GetSharedArgs(o)) == Defined(SharedEntries(o))
  {
    SharedTableShape(o);
    CL.BuilderRead(SharedOrder, SharedSettings(o));
  }

  /** A shared flag is given exactly when its spread is switched on, and then
      with the spread's value. */
  lemma SharedFlag(o: SharedOptions, f: CL.Flag)
    requires f in SharedOrder
    ensures CL.Present(SharedEntries(o), f) <==> CL.Get(SharedSettings(o), f) != CL.Off
    ensures forall k :: 0 <= k < |SharedEntries(o)| && SharedEntries(o)[k].flag == f
              ==> SharedEntries(o)[k].value == CL.ValueOf(CL.Get(SharedSettings(o), f))
  {
    SharedTableShape(o);
    CL.BuilderFlag(SharedOrder, SharedSettings(o), f);
  }

  /** The number options and their flags. */
  predicate NumberOption(o: SharedOptions, f: CL.Flag, x: Optional<Number>) {
    || (f == CL.Width && x == o.width)
    || (f == CL.Height && x == o.height)
    || (f == CL.Shutter && x == o.shutter)
    || (f == CL.Iso && x == o.iso)
    || (f == CL.Ev && x == o.exposureCompensation)
    || (f == CL.AnalogGain && x == o.analogGain)
    || (f == CL.DigitalGain && x == o.digitalGain)
  }

  /** A number option gives its flag exactly when it is set and not 0, and
      the flag then carries the number's text. */
  lemma NumberFlag(o: SharedOptions, f: CL.Flag, x: Optional<Number>)
    requires NumberOption(o, f, x)
    ensures CL.Present(SharedEntries(o), f) <==> NumberTruthy(x)
    ensures forall k :: 0 <= k < |SharedEntries(o)| && SharedEntries(o)[k].flag == f
              ==> NumberTruthy(x) && SharedEntries(o)[k].value == Defined(x.value.text)
  {
    GetShared(o, f);
    SharedFlag(o, f);
  }

  /** A string option gives its flag exactly when it is set and not empty,
      with the string as its value. */
  lemma TextFlag(o: SharedOptions, f: CL.Flag, x: Optional<string>)
    requires (f == CL.Exposure && x == o.exposureMode) || (f == CL.Awb && x == o.awbMode)
    ensures CL.Present(SharedEntries(o), f) <==> TextTruthy(x)
    ensures forall k :: 0 <= k < |SharedEntries(o)| && SharedEntries(o)[k].flag == f
              ==> TextTruthy(x) && SharedEntries(o)[k].value == Defined(x.value)
  {
    GetShared(o, f);
    SharedFlag(o, f);
  }

  /** The rotation gives `--rotation` exactly when it is set and not
      `Rotate0`, with its degrees as the value. */
  lemma RotationFlag(o: SharedOptions)
    ensures CL.Present(SharedEntries(o), CL.Rotation)
        <==> o.rotation.Defined? && o.rotation.value != Rotate0
    ensures forall k :: 0 <= k < |SharedEntries(o)| && SharedEntries(o)[k].flag == CL.Rotation
              ==> o.rotation.Defined? && SharedEntries(o)[k].value == Defined(o.rotation.value.Text())
  {
    GetShared(o, CL.Rotation);
    SharedFlag(o, CL.Rotation);
  }

  /** `--hflip` is given exactly for a horizontal or double flip, and never
      with a value. */
  lemma HFlipFlag(o: SharedOptions)
    ensures CL.Present(SharedEntries(o), CL.HFlip)
        <==> o.flip == Defined(Horizontal) || o.flip == Defined(Both)
    ensures forall k :: 0 <= k < |SharedEntries(o)| && SharedEntries(o)[k].flag == CL.HFlip
              ==> SharedEntries(o)[k].value == Undefined
  {
    GetShared(o, CL.HFlip);
    SharedFlag(o, CL.HFlip);
  }

  /** `--vflip` is given exactly for a vertical or double flip, and never
      with a value. */
  lemma VFlipFlag(o: SharedOptions)
    ensures CL.Present(SharedEntries(o), CL.VFlip)
        <==> o.flip == Defined(Vertical) || o.flip == Defined(Both)
    ensures forall k :: 0 <= k < |SharedEntries(o)| && SharedEntries(o)[k].flag == CL.VFlip
              ==> SharedEntries(o)[k].value == Undefined
  {
    GetShared(o, CL.VFlip);
    SharedFlag(o, CL.VFlip);
  }

  /** No flip, or `Flip.None`, gives neither flip flag. */
  lemma NoFlipFlags(o: SharedOptions)
    requires o.flip == Undefined || o.flip == Defined(None)
    ensures !CL.Present(SharedEntries(o), CL.HFlip) && !CL.Present(SharedEntries(o), CL.VFlip)
  {
    HFlipFlag(o);
    VFlipFlag(o);
  }

  /** The flags are given in the fixed order of `SharedOrder`, each at most
      once. */
  lemma SharedArgsOrdered(o: SharedOptions)
    ensures CL.IsSubsequence(CL.Flags(SharedEntries(o)), SharedOrder)
    ensures CL.Distinct(CL.Flags(SharedEntries(o)))
  {
    SharedTableShape(o);
    CL.BuilderOrdered(SharedOrder, SharedSettings(o));
  }

  // ----- length -------------------------------------------------------------------

  /** 1 for a truthy option, 0 otherwise. */
  function Count(b: bool): nat {
    if b then 1 else 0
  }

  /** The number of valued options that are truthy. */
  function ValuedCount(o: SharedOptions): nat {
    Count(NumberTruthy(o.width)) + Count(NumberTruthy(o.height))
    + Count(RotationTruthy(o.rotation)) + Count(NumberTruthy(o.shutter))
    + Count(NumberTruthy(o.iso)) + Count(NumberTruthy(o.exposureCompensation))
    + Count(TextTruthy(o.exposureMode)) + Count(TextTruthy(o.awbMode))
    + Count(NumberTruthy(o.analogGain)) + Count(NumberTruthy(o.digitalGain))
  }

  lemma SharedWeights(o: SharedOptions)
    ensures CL.WeightFrom(SharedOrder, SharedSettings(o), 0)
         == CL.Weight(SharedSetting(o, CL.Width)) + CL.Weight(SharedSetting(o, CL.Height))
         + CL.Weight(SharedSetting(o, CL.Rotation)) + CL.Weight(SharedSetting(o, CL.HFlip))
         + CL.Weight(SharedSetting(o, CL.VFlip)) + CL.Weight(SharedSetting(o, CL.Shutter))
         + CL.Weight(SharedSetting(o, CL.Iso)) + CL.Weight(SharedSetting(o, CL.Ev))
         + CL.Weight(SharedSetting(o, CL.Exposure)) + CL.Weight(SharedSetting(o, CL.Awb))
         + CL.Weight(SharedSetting(o, CL.AnalogGain)) + CL.Weight(SharedSetting(o, CL.DigitalGain))
  {

  }

  /** What each spread contributes to the length. */
  lemma SettingWeights(o: SharedOptions)
    ensures CL.Weight(SharedSetting(o, CL.Width)) == 2 * Count(NumberTruthy(o.width))
    ensures CL.Weight(SharedSetting(o, CL.Height)) == 2 * Count(NumberTruthy(o.height))
    ensures CL.Weight(SharedSetting(o, CL.Rotation)) == 2 * Count(RotationTruthy(o.rotation))
    ensures CL.Weight(SharedSetting(o, CL.HFlip)) == Count(HFlipped(o.flip))
    ensures CL.Weight(SharedSetting(o, CL.VFlip)) == Count(VFlipped(o.flip))
    ensures CL.Weight(SharedSetting(o, CL.Shutter)) == 2 * Count(NumberTruthy(o.shutter))
    ensures CL.Weight(SharedSetting(o, CL.Iso)) == 2 * Count(NumberTruthy(o.iso))
    ensures CL.Weight(SharedSetting(o, CL.Ev)) == 2 * Count(NumberTruthy(o.exposureCompensation))
    ensures CL.Weight(SharedSetting(o, CL.Exposure)) == 2 * Count(TextTruthy(o.exposureMode))
    ensures CL.Weight(SharedSetting(o, CL.Awb)) == 2 * Count(TextTruthy(o.awbMode))
    ensures CL.Weight(SharedSetting(o, CL.AnalogGain)) == 2 * Count(NumberTruthy(o.analogGain))
    ensures CL.Weight(SharedSetting(o, CL.DigitalGain)) == 2 * Count(NumberTruthy(o.digitalGain))
  {
  }

  /** Two tokens per truthy valued option, one per flip flag. */
  lemma SharedArgsLength(o: SharedOptions)
    ensures |GetSharedArgs(o)|
         == 2 * ValuedCount(o) + Count(HFlipped(o.flip)) + Count(VFlipped(o.flip))
  {
    CL.BuilderLength(SharedOrder, SharedSettings(o));
    SharedWeights(o);
    SettingWeights(o);
  }

  /** No options, no arguments. */
  lemma NoSharedArgs()
    ensures GetSharedArgs(NoSharedOptions) == []
  {
    SharedArgsLength(NoSharedOptions);
  }
}
