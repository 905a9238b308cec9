/** Shared value types of the camera library: the JavaScript notion of an
    optional option field, the `Rotation` and `Flip` enums, the stream codec
    and sensor mode, bytes, and the truthiness tests the argument builders use. */
module Types {

  /** One byte of process output. */
  type Byte = bv8

  /** An optional field of an options object: `undefined`, or a value. */
  datatype Optional<T> = Undefined | Defined(value: T)

  datatype Result<T, E> = Ok(value: T) | Err(error: E)

  /** The numeric `Rotation` enum; `Degrees` is its numeric value and `Text`
      what `toString()` gives for it. */
  datatype Rotation = Rotate0 | Rotate90 | Rotate180 | Rotate270 {
    function Degrees(): nat {
      match this
      case Rotate0 => 0
      case Rotate90 => 90
      case Rotate180 => 180
      case Rotate270 => 270
    }

    function Text(): string {
      match this
      case Rotate0 => "0"
      case Rotate90 => "90"
      case Rotate180 => "180"
      case Rotate270 => "270"
    }
  }

  /** The string-valued `Flip` enum ('none', 'horizontal', 'vertical', 'both');
      every member is a non-empty string, so every defined flip is truthy. */
  datatype Flip = None | Horizontal | Vertical | Both

  /** The string-valued `Codec` enum; `Name` is its string value. */
  datatype Codec = H264 | MJPEG {
    function Name(): string {
      match this
      case H264 => "H264"
      case MJPEG => "MJPEG"
    }
  }

  /** The numeric `SensorMode` enum, AutoSelect (0) to Mode7 (7). */
  type SensorMode = m: nat | m <= 7

  const AutoSelect: SensorMode := 0

  /** `toString()` of a sensor mode: its single decimal digit. */
  function ModeText(m: SensorMode): string {
    [['0', '1', '2', '3', '4', '5', '6', '7'][m]]
  }

  /** A JavaScript number option: its value, and the text `toString()` gives
      for it. The formatting itself is not modelled; the constants of the
      library are written with their text. */
  datatype Number = Number(val: real, text: string)

  /** A number option is truthy when it is set and not 0. */
  predicate NumberTruthy(x: Optional<Number>) {
    x.Defined? && x.value.val != 0.0
  }

  /** A string option is truthy when it is set and not empty. */
  predicate TextTruthy(s: Optional<string>) {
    s.Defined? && s.value != ""
  }

  /** A rotation option is truthy when it is set and not `Rotate0` (numeric 0). */
  predicate RotationTruthy(r: Optional<Rotation>) {
    r.Defined? && r.value.Degrees() != 0
  }

  /** A sensor-mode option is truthy when it is set and not `AutoSelect` (0). */
  predicate ModeTruthy(m: Optional<SensorMode>) {
    m.Defined? && m.value != 0
  }

  /** The value of an option after a defaults merge `{ key: fallback, ...caller }`:
      a key the caller sets wins. */
  function OrDefault<T>(given: Optional<T>, fallback: T): (r: Optional<T>)
    ensures r.Defined?
    ensures given.Defined? ==> r == given
    ensures given.Undefined? ==> r.value == fallback
  {
    if given.Defined? then given else Defined(fallback)
  }

  /** A program run: its name and its arguments. */
  datatype Launch = Launch(program: string, args: seq<string>)

  /** Concatenation is associative (stated once, used where a proof regroups). */
  lemma Associate<T>(x: seq<T>, y: seq<T>, z: seq<T>)
    ensures x + (y + z) == (x + y) + z
  {
  }
}
