/** The command-line vocabulary of `raspistill` and `raspivid` as this library
    uses it, with two views of an argument list:

    - argument tables: the argument builders of the two cameras are array
      expressions of conditional spreads, `...(cond ? [flag, value] : [])`;
      each is written here as a table of `Row`s, one per spread and in the
      same order, and `Layout` concatenates what the rows give;
    - a reader, `Read`, that turns a token list back into the flags it sets
      and the value given to each (a flag that takes a value consumes the next
      token, whatever it is).

    The lemmas here relate the two for every table at once: the tokens of a
    table read back as the entries its switched-on rows select, in table
    order, each flag at most once, with a length given by the rows. */
module CommandLine {
  import Types

  datatype Flag =
    | Width | Height | Rotation | HFlip | VFlip
    | Shutter | Iso | Ev | Exposure | Awb | AnalogGain | DigitalGain
    | BitRate | FrameRate | Codec | Mode
    | Timeout | NoPreview | Output

  /** The token that names each flag on the command line. */
  function Spelling(f: Flag): string {
    match f
    case Width => "--width"
    case Height => "--height"
    case Rotation => "--rotation"
    case HFlip => "--hflip"
    case VFlip => "--vflip"
    case Shutter => "--shutter"
    case Iso => "--ISO"
    case Ev => "--ev"
    case Exposure => "--exposure"
    case Awb => "--awb"
    case AnalogGain => "--analoggain"
    case DigitalGain => "--digitalgain"
    case BitRate => "--bitrate"
    case FrameRate => "--framerate"
    case Codec => "--codec"
    case Mode => "--mode"
    case Timeout => "--timeout"
    case NoPreview => "--nopreview"
    case Output => "--output"
  }

  /** Every flag but the two flips and `--nopreview` is followed by a value. */
  predicate TakesValue(f: Flag) {
    !(f == HFlip || f == VFlip || f == NoPreview)
  }

  /** The position of a flag in the declaration above, which lists the flags
      of both argument builders in the order they give them. */
  function Rank(f: Flag): nat {
    match f
    case Width => 0
    case Height => 1
    case Rotation => 2
    case HFlip => 3
    case VFlip => 4
    case Shutter => 5
    case Iso => 6
    case Ev => 7
    case Exposure => 8
    case Awb => 9
    case AnalogGain => 10
    case DigitalGain => 11
    case BitRate => 12
    case FrameRate => 13
    case Codec => 14
    case Mode => 15
    case Timeout => 16
    case NoPreview => 17
    case Output => 18
  }

  /** The flag a token names, if any. */
  function Lookup(token: string): (r: Types.Optional<Flag>)
    ensures r.Defined? ==> Spelling(r.value) == token
    ensures r.Undefined? ==> forall f: Flag :: Spelling(f) != token
  {
    if token == "--width" then Types.Defined(Width)
    else if token == "--height" then Types.Defined(Height)
    else if token == "--rotation" then Types.Defined(Rotation)
    else if token == "--hflip" then Types.Defined(HFlip)
    else if token == "--vflip" then Types.Defined(VFlip)
    else if token == "--shutter" then Types.Defined(Shutter)
    else if token == "--ISO" then Types.Defined(Iso)
    else if token == "--ev" then Types.Defined(Ev)
    else if token == "--exposure" then Types.Defined(Exposure)
    else if token == "--awb" then Types.Defined(Awb)
    else if token == "--analoggain" then Types.Defined(AnalogGain)
    else if token == "--digitalgain" then Types.Defined(DigitalGain)
    else if token == "--bitrate" then Types.Defined(BitRate)
    else if token == "--framerate" then Types.Defined(FrameRate)
    else if token == "--codec" then Types.Defined(Codec)
    else if token == "--mode" then Types.Defined(Mode)
    else if token == "--timeout" then Types.Defined(Timeout)
    else if token == "--nopreview" then Types.Defined(NoPreview)
    else if token == "--output" then Types.Defined(Output)
    else Types.Undefined
  }

  /** Distinct flags have distinct spellings, so a token names at most one flag. */
  lemma LookupSpelling(f: Flag)
    ensures Lookup(Spelling(f)) == Types.Defined(f)
  {
  }

  /** One flag occurrence on a command line, with the value token after it. */
  datatype Entry = Entry(flag: Flag, value: Types.Optional<string>)

  /** An entry carries a value exactly when its flag takes one. */
  predicate WellFormed(e: Entry) {
    e.value.Defined? == TakesValue(e.flag)
  }

  predicate AllWellFormed(es: seq<Entry>) {
    forall k :: 0 <= k < |es| ==> WellFormed(es[k])
  }

  function Tokens(e: Entry): seq<string> {
    if e.value.Defined? then [Spelling(e.flag), e.value.value] else [Spelling(e.flag)]
  }

  /** The token list of a sequence of entries. */
  function Render(es: seq<Entry>): seq<string> {
    if es == [] then [] else Tokens(es[0]) + Render(es[1..])
  }

  /** How a command line is understood: each flag token, followed by its value
      token when the flag takes one. Undefined for an unknown token in flag
      position or a missing value. */
  function Read(ts: seq<string>): Types.Optional<seq<Entry>>
    decreases |ts|
  {
    if ts == [] then Types.Defined([])
    else
      match Lookup(ts[0])
      case Undefined => Types.Undefined
      case Defined(f) =>
        if TakesValue(f) then
          if |ts| < 2 then Types.Undefined
          else
            match Read(ts[2..])
            case Undefined => Types.Undefined
            case Defined(more) => Types.Defined([Entry(f, Types.Defined(ts[1]))] + more)
        else
          match Read(ts[1..])
          case Undefined => Types.Undefined
          case Defined(more) => Types.Defined([Entry(f, Types.Undefined)] + more)
  }

  /** Rendering round trip: every well-formed entry sequence is read back exactly
      from its tokens, whatever the value tokens are. */
  lemma {:induction false} ReadRender(es: seq<Entry>)
    requires AllWellFormed(es)
    ensures Read(Render(es)) == Types.Defined(es)
  {
    if es != [] {
      var e := es[0];
      assert WellFormed(e);
      LookupSpelling(e.flag);
      var ts := Render(es);
      assert ts == Tokens(e) + Render(es[1..]);
      ReadRender(es[1..]);
      if e.value.Defined? {
        assert ts[2..] == Render(es[1..]);
      } else {
        assert ts[1..] == Render(es[1..]);
      }
      assert es == [e] + es[1..];
    }
  }

  lemma RenderAppend(a: seq<Entry>, b: seq<Entry>)
    ensures Render(a + b) == Render(a) + Render(b)
  {
    if a == [] {
      assert a + b == b;
    } else {
      assert (a + b)[0] == a[0];
      assert (a + b)[1..] == a[1..] + b;
      RenderAppend(a[1..], b);
    }
  }

  // ----- the table-driven reference -------------------------------------------

  /** What a table says about one flag: leave it out, give it alone, or give
      it with a value. */
  datatype Setting = Off | On | OnWith(text: string)

  /** One row of an argument table. */
  datatype Row = Row(flag: Flag, setting: Setting)

  /** The entry a row contributes: none, or one. */
  function EntryFor(r: Row): seq<Entry> {
    match r.setting
    case Off => []
    case On => [Entry(r.flag, Types.Undefined)]
    case OnWith(t) => [Entry(r.flag, Types.Defined(t))]
  }

  /** The value an entry for a switched-on flag carries. */
  function ValueOf(s: Setting): Types.Optional<string> {
    if s.OnWith? then Types.Defined(s.text) else Types.Undefined
  }

  /** The entries of the rows that are switched on, in table order. */
  function Select(rows: seq<Row>): seq<Entry> {
    if rows == [] then [] else EntryFor(rows[0]) + Select(rows[1..])
  }

  /** The flags of a table, in order. */
  function Order(rows: seq<Row>): (fs: seq<Flag>)
    ensures |fs| == |rows| && forall k :: 0 <= k < |rows| ==> fs[k] == rows[k].flag
  {
    if rows == [] then [] else [rows[0].flag] + Order(rows[1..])
  }

  /** A table fits the command line when it gives a value exactly to the
      switched-on flags that take one. */
  predicate Fits(rows: seq<Row>) {
    forall k :: 0 <= k < |rows| && rows[k].setting != Off ==>
      (rows[k].setting.OnWith? <==> TakesValue(rows[k].flag))
  }

  predicate Distinct(fs: seq<Flag>) {
    forall i, j :: 0 <= i < j < |fs| ==> fs[i] != fs[j]
  }

  /** Each flag comes later in the declaration than the one before it. */
  predicate Increasing(fs: seq<Flag>) {
    forall i :: 0 < i < |fs| ==> Rank(fs[i - 1]) < Rank(fs[i])
  }

  /** The flags of a sequence of entries, in order: the same projection as
      `Order`, taken over entries instead of rows. */
  function Flags(es: seq<Entry>): (fs: seq<Flag>)
    ensures |fs| == |es| && forall k :: 0 <= k < |es| ==> fs[k] == es[k].flag
  {
    if es == [] then [] else [es[0].flag] + Flags(es[1..])
  }

  /** `a` is `b` with some elements left out, the rest kept in order. */
  predicate IsSubsequence(a: seq<Flag>, b: seq<Flag>)
    decreases |b|
  {
    if a == [] then true
    else if b == [] then false
    else if a[0] == b[0] then IsSubsequence(a[1..], b[1..])
    else IsSubsequence(a, b[1..])
  }

  /** `f` is set somewhere in `es`. */
  ghost predicate Present(es: seq<Entry>, f: Flag) {
    exists k :: 0 <= k < |es| && es[k].flag == f
  }

  lemma PresentAppend(a: seq<Entry>, b: seq<Entry>, f: Flag)
    ensures Present(a + b, f) <==> Present(a, f) || Present(b, f)
  {
    if Present(b, f) {
      var k :| 0 <= k < |b| && b[k].flag == f;
      assert (a + b)[|a| + k] == b[k];
    }
    if Present(a, f) {
      var k :| 0 <= k < |a| && a[k].flag == f;
      assert (a + b)[k] == a[k];
    }
  }

  lemma PresentEntryFor(r: Row, f: Flag)
    ensures Present(EntryFor(r), f) <==> (f == r.flag && r.setting != Off)
  {
    if f == r.flag && r.setting != Off {
      assert EntryFor(r)[0].flag == r.flag;
    }
  }

  /** The setting of the first row naming `f`; `Off` when no row does. */
  function SettingFor(rows: seq<Row>, f: Flag): Setting {
    if rows == [] then Off
    else if rows[0].flag == f then rows[0].setting
    else SettingFor(rows[1..], f)
  }

  /** Over a table in declaration order, a flag is on the command line exactly
      when its row is switched on, and every occurrence carries the row's
      value. */
  lemma {:induction false} SelectFlag(rows: seq<Row>, f: Flag)
    requires Increasing(Order(rows))
    ensures Present(Select(rows), f) <==> SettingFor(rows, f) != Off
    ensures forall k :: 0 <= k < |Select(rows)| && Select(rows)[k].flag == f
              ==> Select(rows)[k].value == ValueOf(SettingFor(rows, f))
  {
    if rows != [] {
      var order := Order(rows);
      var head, tail := EntryFor(rows[0]), Select(rows[1..]);
      assert Select(rows) == head + tail;
      assert order[1..] == Order(rows[1..]);
      IncreasingTail(order);
      PresentAppend(head, tail, f);
      PresentEntryFor(rows[0], f);
      if rows[0].flag == f {
        IncreasingDistinct(order);
        forall g | 0 <= g < |rows[1..]| ensures rows[1..][g].flag != f {
          assert rows[1..][g] == rows[g + 1];
          assert Rank(order[0]) < Rank(order[g + 1]);
        }
        SelectAbsent(rows[1..], f);
      } else {
        SelectFlag(rows[1..], f);
      }
      forall k | 0 <= k < |head + tail| && (head + tail)[k].flag == f
        ensures (head + tail)[k].value == ValueOf(SettingFor(rows, f))
      {
        if k < |head| {
          assert (head + tail)[k] == head[k];
        } else {
          assert (head + tail)[k] == tail[k - |head|];
        }
      }
    }
  }

  /** A flag no row names is not on the command line. */
  lemma {:induction false} SelectAbsent(rows: seq<Row>, f: Flag)
    requires forall g :: 0 <= g < |rows| ==> rows[g].flag != f
    ensures !Present(Select(rows), f)
  {
    if rows != [] {
      SelectAbsent(rows[1..], f);
      PresentAppend(EntryFor(rows[0]), Select(rows[1..]), f);
      PresentEntryFor(rows[0], f);
    }
  }

  /** The selected flags appear in table order: they are a subsequence of it. */
  lemma {:induction false} SelectOrdered(rows: seq<Row>)
    ensures IsSubsequence(Flags(Select(rows)), Order(rows))
  {
    if rows != [] {
      var head, tail := EntryFor(rows[0]), Select(rows[1..]);
      SelectOrdered(rows[1..]);
      assert Select(rows) == head + tail;
      var order := Order(rows);
      assert order[1..] == Order(rows[1..]);
      if head == [] {
        assert head + tail == tail;
        SubsequenceDrop(Flags(tail), order);
      } else {
        var fs := Flags(head + tail);
        assert fs[0] == order[0];
        assert fs[1..] == Flags(tail);
      }
    }
  }

  /** A subsequence of `b[1..]` is a subsequence of `b`. */
  lemma {:induction false} SubsequenceDrop(a: seq<Flag>, b: seq<Flag>)
    requires b != [] && IsSubsequence(a, b[1..])
    ensures IsSubsequence(a, b)
    decreases |b|, 0
  {
    if a != [] && a[0] == b[0] {
      SubsequenceTail(a, b[1..]);
    }
  }

  /** If `a` is a subsequence of `b`, so is `a[1..]`. */
  lemma {:induction false} SubsequenceTail(a: seq<Flag>, b: seq<Flag>)
    requires a != [] && IsSubsequence(a, b)
    ensures IsSubsequence(a[1..], b)
    decreases |b|, 1
  {
    assert b != [];
    if a[0] != b[0] {
      SubsequenceTail(a, b[1..]);
    }
    SubsequenceDrop(a[1..], b);
  }

  /** Every element of a subsequence is an element of the sequence. */
  lemma {:induction false} SubsequenceMembers(a: seq<Flag>, b: seq<Flag>, f: Flag)
    requires IsSubsequence(a, b) && f in a
    ensures f in b
    decreases |b|
  {
    if a[0] == b[0] {
      if f != a[0] {
        SubsequenceMembers(a[1..], b[1..], f);
      }
    } else {
      SubsequenceMembers(a, b[1..], f);
    }
  }

  /** A subsequence of a sequence without repetitions has none either. */
  lemma {:induction false} SubsequenceDistinct(a: seq<Flag>, b: seq<Flag>)
    requires IsSubsequence(a, b) && Distinct(b)
    ensures Distinct(a)
    decreases |b|
  {
    if a != [] {
      assert b != [];
      if a[0] == b[0] {
        SubsequenceDistinct(a[1..], b[1..]);
        forall j | 0 < j < |a| ensures a[0] != a[j] {
          assert a[j] == a[1..][j - 1];
          SubsequenceMembers(a[1..], b[1..], a[j]);
          assert b[0] !in b[1..];
        }
      } else {
        SubsequenceDistinct(a, b[1..]);
      }
    }
  }

  /** Two flag sequences without repeats and without a common flag can be
      concatenated without repeats. */
  lemma DistinctAppend(a: seq<Flag>, b: seq<Flag>)
    requires Distinct(a) && Distinct(b)
    requires forall x :: x in a ==> x !in b
    ensures Distinct(a + b)
  {
    forall i, j | 0 <= i < j < |a + b| ensures (a + b)[i] != (a + b)[j] {
      if i < |a| <= j {
        assert (a + b)[i] == a[i] && a[i] in a;
        assert (a + b)[j] == b[j - |a|] && b[j - |a|] in b;
      }
    }
  }

  /** Over a table whose flags are distinct, every flag is given at most once. */
  lemma SelectDistinct(rows: seq<Row>)
    requires Distinct(Order(rows))
    ensures Distinct(Flags(Select(rows)))
  {
    SelectOrdered(rows);
    SubsequenceDistinct(Flags(Select(rows)), Order(rows));
  }

  lemma IncreasingTail(fs: seq<Flag>)
    requires fs != [] && Increasing(fs)
    ensures Increasing(fs[1..])
  {
    var rest := fs[1..];
    forall i | 0 < i < |rest| ensures Rank(rest[i - 1]) < Rank(rest[i]) {
      assert rest[i - 1] == fs[i] && rest[i] == fs[i + 1];
    }
  }

  /** A sequence of flags in declaration order has no repetitions. */
  lemma {:induction false} IncreasingDistinct(fs: seq<Flag>)
    requires Increasing(fs)
    ensures Distinct(fs)
    ensures forall i, j :: 0 <= i < j < |fs| ==> Rank(fs[i]) < Rank(fs[j])
  {
    if fs != [] {
      var rest := fs[1..];
      IncreasingTail(fs);
      IncreasingDistinct(rest);
      forall i, j | 0 <= i < j < |fs| ensures Rank(fs[i]) < Rank(fs[j]) {
        if i == 0 {
          if j > 1 {
            assert rest[0] == fs[1] && rest[j - 1] == fs[j];
          }
        } else {
          assert rest[i - 1] == fs[i] && rest[j - 1] == fs[j];
        }
      }
    }
  }

  /** A table that fits the command line selects only well-formed entries. */
  lemma {:induction false} SelectWellFormed(rows: seq<Row>)
    requires Fits(rows)
    ensures AllWellFormed(Select(rows))
  {
    if rows != [] {
      var head, tail := EntryFor(rows[0]), Select(rows[1..]);
      assert Fits(rows[1..]) by {
        forall k | 0 <= k < |rows[1..]| ensures rows[1..][k] == rows[k + 1] {
        }
      }
      SelectWellFormed(rows[1..]);
      assert Select(rows) == head + tail;
      forall k | 0 <= k < |head + tail| ensures WellFormed((head + tail)[k]) {
        if k < |head| {
          assert (head + tail)[k] == head[k];
        } else {
          assert (head + tail)[k] == tail[k - |head|];
        }
      }
    }
  }

  /** The table's command line is read back as exactly the selected entries. */
  lemma ReadSelect(rows: seq<Row>)
    requires Fits(rows)
    ensures Read(Render(Select(rows))) == Types.Defined(Select(rows))
  {
    SelectWellFormed(rows);
    ReadRender(Select(rows));
  }

  /** The tokens one row gives. */
  function RowTokens(r: Row): seq<string> {
    match r.setting
    case Off => []
    case On => [Spelling(r.flag)]
    case OnWith(t) => [Spelling(r.flag), t]
  }

  /** The command line of a table, row by row. */
  function Layout(rows: seq<Row>): seq<string> {
    if rows == [] then [] else RowTokens(rows[0]) + Layout(rows[1..])
  }

  /** Rendering the selection is laying out the table row by row. */
  lemma {:induction false} RenderSelect(rows: seq<Row>)
    ensures Render(Select(rows)) == Layout(rows)
  {
    if rows != [] {
      var head := EntryFor(rows[0]);
      RenderSelect(rows[1..]);
      RenderAppend(head, Select(rows[1..]));
      assert Render(head) == RowTokens(rows[0]);
    }
  }

  /** How many tokens a setting contributes. */
  function Weight(s: Setting): nat {
    match s
    case Off => 0
    case On => 1
    case OnWith(_) => 2
  }

  function TotalWeight(rows: seq<Row>): nat {
    if rows == [] then 0 else Weight(rows[0].setting) + TotalWeight(rows[1..])
  }

  lemma {:induction false} LayoutLength(rows: seq<Row>)
    ensures |Layout(rows)| == TotalWeight(rows)
  {
    if rows != [] {
      LayoutLength(rows[1..]);
    }
  }

  // ----- argument builders -----------------------------------------------------

  /** What an argument builder writes for each flag it knows; it never gives
      any other flag. */
  type Settings = map<Flag, Setting>

  function Get(m: Settings, f: Flag): Setting {
    if f in m then m[f] else Off
  }

  /** The table of a builder that goes through the flags `fs` in order. */
  function Rows(fs: seq<Flag>, m: Settings): seq<Row> {
    if fs == [] then [] else [Row(fs[0], Get(m, fs[0]))] + Rows(fs[1..], m)
  }

  /** The settings give a value exactly to the switched-on flags that take one. */
  predicate FitsFlags(m: Settings) {
    forall f :: f in m && m[f] != Off ==> (m[f].OnWith? <==> TakesValue(f))
  }

  lemma {:induction false} RowsOrder(fs: seq<Flag>, m: Settings)
    ensures Order(Rows(fs, m)) == fs
  {
    if fs != [] {
      RowsOrder(fs[1..], m);
    }
  }

  lemma {:induction false} RowsSetting(fs: seq<Flag>, m: Settings, f: Flag)
    ensures SettingFor(Rows(fs, m), f) == if f in fs then Get(m, f) else Off
  {
    if fs != [] {
      var rows := Rows(fs, m);
      assert rows[1..] == Rows(fs[1..], m);
      RowsSetting(fs[1..], m, f);
      assert f in fs <==> f == fs[0] || f in fs[1..];
    }
  }

  lemma {:induction false} RowsFit(fs: seq<Flag>, m: Settings)
    requires FitsFlags(m)
    ensures Fits(Rows(fs, m))
  {
    if fs != [] {
      var rows := Rows(fs, m);
      RowsFit(fs[1..], m);
      forall k | 0 <= k < |rows| && rows[k].setting != Off
        ensures rows[k].setting.OnWith? <==> TakesValue(rows[k].flag)
      {
        if k > 0 {
          assert rows[k] == Rows(fs[1..], m)[k - 1];
        }
      }
    }
  }

  /** The tokens the flags `fs[i..]` give. */
  function WeightFrom(fs: seq<Flag>, m: Settings, i: nat): nat
    decreases |fs| - i
  {
    if i >= |fs| then 0 else Weight(Get(m, fs[i])) + WeightFrom(fs, m, i + 1)
  }

  lemma {:induction false} RowsWeight(fs: seq<Flag>, m: Settings, i: nat)
    requires i <= |fs|
    ensures TotalWeight(Rows(fs[i..], m)) == WeightFrom(fs, m, i)
    decreases |fs| - i
  {
    if i < |fs| {
      assert fs[i..][0] == fs[i];
      assert fs[i..][1..] == fs[i + 1..];
      RowsWeight(fs, m, i + 1);
    }
  }

  /** The builder's command line is read back as exactly the entries its
      switched-on flags select, in order. */
  lemma BuilderRead(fs: seq<Flag>, m: Settings)
    requires FitsFlags(m)
    ensures Layout(Rows(fs, m)) == Render(Select(Rows(fs, m)))
    ensures Read(Layout(Rows(fs, m))) == Types.Defined(Select(Rows(fs, m)))
  {
    RenderSelect(Rows(fs, m));
    RowsFit(fs, m);
    ReadSelect(Rows(fs, m));
  }

  /** A flag of a builder that goes through its flags in declaration order is
      given exactly when its setting switches it on, and then with the
      setting's value. */
  lemma BuilderFlag(fs: seq<Flag>, m: Settings, f: Flag)
    requires Increasing(fs) && f in fs
    ensures Present(Select(Rows(fs, m)), f) <==> Get(m, f) != Off
    ensures forall k :: 0 <= k < |Select(Rows(fs, m))| && Select(Rows(fs, m))[k].flag == f
              ==> Select(Rows(fs, m))[k].value == ValueOf(Get(m, f))
  {
    RowsOrder(fs, m);
    SelectFlag(Rows(fs, m), f);
    RowsSetting(fs, m, f);
  }

  /** Such a builder gives its flags in its order, each at most once. */
  lemma BuilderOrdered(fs: seq<Flag>, m: Settings)
    requires Increasing(fs)
    ensures IsSubsequence(Flags(Select(Rows(fs, m))), fs)
    ensures Distinct(Flags(Select(Rows(fs, m))))
  {
    RowsOrder(fs, m);
    SelectOrdered(Rows(fs, m));
    IncreasingDistinct(fs);
    SelectDistinct(Rows(fs, m));
  }

  /** The length of a builder's command line: one token per switched-on flag
      and one more for each value. */
  lemma BuilderLength(fs: seq<Flag>, m: Settings)
    ensures |Layout(Rows(fs, m))| == WeightFrom(fs, m, 0)
  {
    LayoutLength(Rows(fs, m));
    assert fs[0..] == fs;
    RowsWeight(fs, m, 0);
  }

  // ----- the fixed end of both command lines -------------------------------------

  /** Both cameras end their list with `--timeout <t> --nopreview --output -`:
      run for `t` milliseconds, show no preview, write the image data to stdout. */
  function RunTail(timeout: string): seq<string> {
    ["--timeout", timeout, "--nopreview", "--output", "-"]
  }

  /** The entries of the fixed end. */
  function RunTailEntries(timeout: string): seq<Entry> {
    [Entry(Timeout, Types.Defined(timeout)), Entry(NoPreview, Types.Undefined), Entry(Output, Types.Defined("-"))]
  }

  /** None of the flags of the fixed end is among `fs`. */
  predicate TailFree(fs: seq<Flag>) {
    Timeout !in fs && NoPreview !in fs && Output !in fs
  }

  lemma RunTailRender(timeout: string)
    ensures Render(RunTailEntries(timeout)) == RunTail(timeout)
  {
    var tail := RunTailEntries(timeout);
    var rest := tail[1..];
    var last := rest[1..];
    assert last[1..] == [];
    assert Render(last) == Tokens(last[0]);
    assert Render(rest) == Tokens(rest[0]) + Render(last);
    assert Render(tail) == Tokens(tail[0]) + Render(rest);
  }

  /** Well-formed entries followed by the fixed end are read back from their
      tokens followed by the end's tokens. */
  lemma ReadThenTail(es: seq<Entry>, timeout: string)
    requires AllWellFormed(es)
    ensures Read(Render(es) + RunTail(timeout)) == Types.Defined(es + RunTailEntries(timeout))
  {
    var tail := RunTailEntries(timeout);
    RunTailRender(timeout);
    RenderAppend(es, tail);
    assert AllWellFormed(es + tail) by {
      forall k | 0 <= k < |es + tail| ensures WellFormed((es + tail)[k]) {
        if k < |es| {
          assert (es + tail)[k] == es[k];
        } else {
          assert (es + tail)[k] == tail[k - |es|];
        }
      }
    }
    ReadRender(es + tail);
  }

  /** Flags drawn from `fs` without repeats, followed by the fixed end's
      flags, have no repeats when `fs` does not hold the end's flags. */
  lemma ThenTailDistinct(a: seq<Flag>, fs: seq<Flag>)
    requires IsSubsequence(a, fs) && Distinct(a) && TailFree(fs)
    ensures Distinct(a + [Timeout, NoPreview, Output])
  {
    forall x | x in a ensures x !in [Timeout, NoPreview, Output] {
      SubsequenceMembers(a, fs, x);
    }
    DistinctAppend(a, [Timeout, NoPreview, Output]);
  }

  /** A builder's command line followed by the fixed end reads back as the
      builder's entries followed by the three of the end; when the builder
      does not know the end's flags, no flag is given twice. */
  lemma BuilderThenTail(fs: seq<Flag>, m: Settings, timeout: string)
    requires FitsFlags(m) && Increasing(fs) && TailFree(fs)
    ensures var es := Select(Rows(fs, m)) + RunTailEntries(timeout);
            Read(Layout(Rows(fs, m)) + RunTail(timeout)) == Types.Defined(es)
            && Distinct(Flags(es))
  {
    var head := Select(Rows(fs, m));
    BuilderRead(fs, m);
    RowsFit(fs, m);
    SelectWellFormed(Rows(fs, m));
    ReadThenTail(head, timeout);
    BuilderTailDistinct(fs, m, timeout);
  }

  /** No flag is given twice when a builder that does not know the fixed
      end's flags is followed by the fixed end. */
  lemma BuilderTailDistinct(fs: seq<Flag>, m: Settings, timeout: string)
    requires Increasing(fs) && TailFree(fs)
    ensures Distinct(Flags(Select(Rows(fs, m)) + RunTailEntries(timeout)))
  {
    var head := Select(Rows(fs, m));
    BuilderOrdered(fs, m);
    ThenTailDistinct(Flags(head), fs);
    assert Flags(head + RunTailEntries(timeout)) == Flags(head) + [Timeout, NoPreview, Output];
  }
}
