/** `Log` (src/Celesium/Logging/Log.cs): the static console logger. Its
    static fields become the fields of a `Logger` object whose `State()` is a
    `LogState` value; the pure functions below say what each private step
    does to that state, and the methods of `Logger` are proved to do it.
    The console is a trace of operations, the clock a `now` argument holding
    the `HH:mm:ss` text, and `Environment.NewLine` is "\n". */
module Logging {
  import opened Wrappers
  import opened Text
  import opened Int32Math
  import opened AnsiColors

  /** How lists are printed (Celesium/Logging/ListLogType.cs). */
  datatype ListLogType = Direct | Multiple | Single

  /** How consecutive equal messages are printed
      (Celesium/Logging/DuplicatesLogType.cs). */
  datatype DuplicatesLogType = Nothing | Numbered | IgnoreTime

  /** What the logger does to the console: move the cursor up a line (only
      when it is not already on the top line), blank the current line, or
      write text. */
  datatype ConsoleOp = MoveUp | ClearLine | Emit(text: string)

  /** The `object message` handed to a log call, as far as the logger looks
      at it: null, an object printed through its `ToString()`, an exception,
      a `List<string>`, or another list or array whose items have already
      been turned into their `ToString()` text (`None` for a null item).
      `typeName` is what `ToString()` gives for the list object itself. */
  datatype Message =
    | Null
    | Plain(text: string)
    | Thrown(message: string, location: string, stackTrace: Option<string>)
    | StringList(items: seq<Option<string>>, typeName: string)
    | OtherList(items: seq<Option<string>>, typeName: string)

  /** The static fields of `Log`, and the console output so far. */
  datatype LogState = LogState(
    includeTimestamps: bool,
    simpleExceptions: bool,
    listLogType: ListLogType,
    duplicatesLogType: DuplicatesLogType,
    previousMessage: Option<string>,
    previousMessageCount: Int32,
    output: seq<ConsoleOp>)

  /** The field initialisers. */
  const Initial: LogState := LogState(true, false, Multiple, Nothing, None, 1, [])

  // ---------------------------------------------------------------- Write

  /** The text that `Write` compares with the previous message: the whole
      line for `Numbered`, the line without its leading time text for
      `IgnoreTime`. */
  function DuplicateKey(mode: DuplicatesLogType, message: string, time: string): string
    requires |time| <= |message|
  {
    if mode == IgnoreTime then message[|time|..] else message
  }

  /** The suffix that marks a repeated message. */
  function CountSuffix(count: Int32): (extra: string)
    ensures extra == "" <==> count <= 1
  {
    if count > 1 then " x" + IntToString(count) else ""
  }

  /** `Write(message, time)`: with duplicates off, write the line; otherwise
      count the line against the previous one, move up over it when it
      repeats, blank the line, and write the line with its count suffix. */
  function WriteSpec(s: LogState, message: string, time: string): (r: LogState)
    requires |time| <= |message|
    ensures r.includeTimestamps == s.includeTimestamps && r.simpleExceptions == s.simpleExceptions
    ensures r.listLogType == s.listLogType && r.duplicatesLogType == s.duplicatesLogType
    ensures |r.output| > |s.output| && r.output[..|s.output|] == s.output
  {
    if s.duplicatesLogType == Nothing then
      s.(output := s.output + [Emit(message + Reset + "\n")])
    else
      var key := DuplicateKey(s.duplicatesLogType, message, time);
      var same := s.previousMessage == Some(key);
      var count := if same then Int32Math.Add(s.previousMessageCount, 1) else 1;
      var ops := (if same then [MoveUp] else []) + [ClearLine, Emit(message + Reset + CountSuffix(count) + "\n")];
      assert (s.output + ops)[..|s.output|] == s.output;
      s.(previousMessage := Some(key), previousMessageCount := count, output := s.output + ops)
  }

  // ------------------------------------------------------------ GetResult

  /** A list item as `GetResult` reads it: a null item is "null". */
  function OrNull(item: Option<string>): string
  {
    if item.Some? then item.value else "null"
  }

  /** The items of a list as `GetResult` looks at them: start-trimmed, with
      null read as "null". */
  function TrimmedItems(list: seq<Option<string>>): (items: seq<string>)
    ensures |items| == |list|
  {
    seq(|list|, k requires 0 <= k < |list| => TrimStart(OrNull(list[k])))
  }

  /** Item `i` of `TrimmedItems(list)` is list item `i`, start-trimmed. */
  lemma TrimmedItemAt(list: seq<Option<string>>, i: nat)
    requires i < |list|
    ensures TrimmedItems(list)[i] == TrimStart(OrNull(list[i]))
  {
  }

  /** The text one loop iteration of `GetResult` appends for the trimmed
      item `i`: nothing when it is null or white space, which for a trimmed
      string means empty (`Text.TrimStartBlank`). */
  function Piece(items: seq<string>, i: nat, firstPos: string, firstNeg: string, lastPos: string, lastNeg: string): string
    requires i < |items|
  {
    if items[i] == [] then ""
    else (if i == 0 then firstPos else firstNeg) + items[i] + (if i == |items| - 1 then lastPos else lastNeg)
  }

  /** What `GetResult` has accumulated after the first `n` iterations. */
  function RenderUpTo(items: seq<string>, n: nat, firstPos: string, firstNeg: string, lastPos: string, lastNeg: string): string
    requires n <= |items|
  {
    if n == 0 then ""
    else RenderUpTo(items, n - 1, firstPos, firstNeg, lastPos, lastNeg) + Piece(items, n - 1, firstPos, firstNeg, lastPos, lastNeg)
  }

  /** The result of `GetResult(firstPos, firstNeg, lastPos, lastNeg)` on the
      trimmed items. */
  function Render(items: seq<string>, firstPos: string, firstNeg: string, lastPos: string, lastNeg: string): string
  {
    RenderUpTo(items, |items|, firstPos, firstNeg, lastPos, lastNeg)
  }

  /** The trimmed items `GetResult` prints, in order: the non-empty ones. */
  function Kept(items: seq<string>): (kept: seq<string>)
    ensures |kept| <= |items|
    ensures forall k :: 0 <= k < |kept| ==> kept[k] != []
  {
    if items == [] then []
    else Kept(items[..|items| - 1]) + (if items[|items| - 1] == [] then [] else [items[|items| - 1]])
  }

  /** One iteration of the loop of `GetResult`: unless item `i`, trimmed,
      is null or white space, append it between its opener and closer. */
  method AppendItem(finalResult: string, list: seq<Option<string>>, ghost items: seq<string>, i: nat, firstPos: string, firstNeg: string, lastPos: string, lastNeg: string) returns (r: string)
    requires items == TrimmedItems(list) && i < |list|
    requires finalResult == RenderUpTo(items, i, firstPos, firstNeg, lastPos, lastNeg)
    ensures r == RenderUpTo(items, i + 1, firstPos, firstNeg, lastPos, lastNeg)
  {
    var first := i == 0;
    var last := i == |list| - 1;
    var item := TrimStart(OrNull(list[i]));
    TrimStartBlank(OrNull(list[i]));
    TrimmedItemAt(list, i);
    r := finalResult;
    if !IsBlank(item) {
      r := finalResult + ((if first then firstPos else firstNeg) + item + (if last then lastPos else lastNeg));
    } else {
      assert finalResult + "" == finalResult;
    }
  }

  /** The local function `GetResult` of `LogList`: the items, in order, each
      trimmed and, unless blank, put between the first or the in-between
      opener and the last or the in-between closer. */
  method GetResult(list: seq<Option<string>>, firstPos: string, firstNeg: string, lastPos: string, lastNeg: string) returns (finalResult: string)
    ensures finalResult == Render(TrimmedItems(list), firstPos, firstNeg, lastPos, lastNeg)
  {
    finalResult := "";
    ghost var items := TrimmedItems(list);
    var i := 0;
    while i < |list|
      invariant 0 <= i <= |list|
      invariant finalResult == RenderUpTo(items, i, firstPos, firstNeg, lastPos, lastNeg)
    {
      finalResult := AppendItem(finalResult, list, items, i, firstPos, firstNeg, lastPos, lastNeg);
      i := i + 1;
    }
  }

  // ---------------------------------------------------------- the headers

  /** The time text, or "" without timestamps. */
  function Time(s: LogState, now: string): string
  {
    if s.includeTimestamps then now else ""
  }

  /** The space after the time, or "" without timestamps. */
  function TimeSpacer(s: LogState): string
  {
    if s.includeTimestamps then " " else ""
  }

  /** `timeText`: the time on a light-gray background. */
  function TimeText(s: LogState, now: string): string
  {
    ColorOf(Names.Black) + LightGrayBackground + Time(s, now) + Reset + ColorOf(Names.Black) + TimeSpacer(s)
  }

  /** `prefixText`: the prefix and a colon on the background colour. */
  function PrefixText(backgroundColorName: Names, prefix: string): string
  {
    BackgroundColorOf(backgroundColorName) + prefix + ":" + Reset
  }

  /** The whole line: header, a space, the colour, then the body. */
  function Line(s: LogState, colorName: Names, backgroundColorName: Names, prefix: string, body: string, now: string): (line: string)
    ensures |TimeText(s, now)| <= |line| && line[..|TimeText(s, now)|] == TimeText(s, now)
  {
    var timeText := TimeText(s, now);
    var line := timeText + (PrefixText(backgroundColorName, prefix) + " " + ColorOf(colorName) + body);
    assert line[..|timeText|] == timeText;
    line
  }

  // ------------------------------------------------------- the log paths

  /** The plain path of the private `LogMessage`: one line for the text. */
  function PlainSpec(s: LogState, colorName: Names, backgroundColorName: Names, prefix: string, text: string, now: string): (r: LogState)
    ensures r.listLogType == s.listLogType && r.duplicatesLogType == s.duplicatesLogType
    ensures |r.output| > |s.output| && r.output[..|s.output|] == s.output
  {
    WriteSpec(s, Line(s, colorName, backgroundColorName, prefix, text, now), TimeText(s, now))
  }

  /** `rawPrefixText`: the uncoloured header, whose length is the indent of
      the continuation lines in `Multiple` mode. */
  function RawPrefixText(s: LogState, prefix: string, now: string): string
  {
    Time(s, now) + TimeSpacer(s) + prefix + ": "
  }

  /** The list body `LogList` builds for its mode from the trimmed items. */
  function ListBody(s: LogState, prefix: string, items: seq<string>, now: string): string
    requires s.listLogType != Direct
  {
    if s.listLogType == Multiple then Render(items, "", Spaces(|RawPrefixText(s, prefix, now)|), "", "\n")
    else Render(items, "[", ",", "]", "")
  }

  /** `LogList` as written: the line is written under the current duplicates
      mode, and afterwards the mode is `Nothing` in `Multiple` list mode. */
  function ListSpec(s: LogState, colorName: Names, backgroundColorName: Names, prefix: string, list: seq<Option<string>>, now: string): (r: LogState)
    requires s.listLogType != Direct
    ensures r.listLogType == s.listLogType
    ensures |r.output| > |s.output| && r.output[..|s.output|] == s.output
  {
    var previous := if s.listLogType == Multiple then Nothing else s.duplicatesLogType;
    var written := WriteSpec(s, Line(s, colorName, backgroundColorName, prefix, ListBody(s, prefix, TrimmedItems(list), now), now), TimeText(s, now));
    written.(duplicatesLogType := previous)
  }

  /** The lines `LogException` logs: the message, then either the location
      text (simple exceptions) or an empty line followed by the non-empty
      lines of the stack trace. */
  function ExceptionLines(simpleExceptions: bool, message: string, location: string, stackTrace: Option<string>): (lines: seq<Option<string>>)
    ensures |lines| >= 2 && lines[0] == Some(message)
    ensures simpleExceptions ==> lines == [Some(message), Some(location)]
    ensures !simpleExceptions ==>
      var parts := SplitRemoveEmpty(if stackTrace.Some? then stackTrace.value else "", '\n');
      && lines[1] == Some("") && |lines| == 2 + |parts|
      && forall k :: 0 <= k < |parts| ==> lines[2 + k] == Some(parts[k])
  {
    var trace := if stackTrace.Some? then stackTrace.value else "";
    var parts := SplitRemoveEmpty(trace, '\n');
    [Some(message), Some(if simpleExceptions then location else "")]
      + (if simpleExceptions then [] else seq(|parts|, k requires 0 <= k < |parts| => Some(parts[k])))
  }

  /** `LogException`: the lines logged as a list in `Multiple` mode, then the
      list mode put back. */
  function ExceptionSpec(s: LogState, colorName: Names, backgroundColorName: Names, prefix: string, message: string, location: string, stackTrace: Option<string>, now: string): (r: LogState)
    ensures r.listLogType == s.listLogType
    ensures |r.output| > |s.output| && r.output[..|s.output|] == s.output
  {
    var lines := ExceptionLines(s.simpleExceptions, message, location, stackTrace);
    var logged := ListSpec(s.(listLogType := Multiple), colorName, backgroundColorName, prefix, lines, now);
    logged.(listLogType := s.listLogType)
  }

  /** Items of a non-string list turned into strings, a null item into "null". */
  function Stringified(items: seq<Option<string>>): (r: seq<Option<string>>)
    ensures |r| == |items|
    ensures forall k :: 0 <= k < |r| ==> r[k] == Some(OrNull(items[k]))
  {
    seq(|items|, k requires 0 <= k < |items| => Some(OrNull(items[k])))
  }

  /** The private `LogMessage(colorName, backgroundColorName, prefix, message)`
      with `HandleList` inlined: lists are printed by their type name in
      `Direct` mode and by `LogList` otherwise; exceptions go to
      `LogException`; null is printed as "null"; anything else as its text. */
  function LogMessageSpec(s: LogState, colorName: Names, backgroundColorName: Names, prefix: string, message: Message, now: string): (r: LogState)
    ensures r.listLogType == s.listLogType
    ensures |r.output| > |s.output| && r.output[..|s.output|] == s.output
  {
    match message
    case Null => PlainSpec(s, colorName, backgroundColorName, prefix, "null", now)
    case Plain(text) => PlainSpec(s, colorName, backgroundColorName, prefix, text, now)
    case Thrown(m, location, trace) => ExceptionSpec(s, colorName, backgroundColorName, prefix, m, location, trace, now)
    case StringList(items, typeName) =>
      if s.listLogType == Direct then PlainSpec(s, colorName, backgroundColorName, prefix, typeName, now)
      else ListSpec(s, colorName, backgroundColorName, prefix, items, now)
    case OtherList(items, typeName) =>
      if s.listLogType == Direct then PlainSpec(s, colorName, backgroundColorName, prefix, typeName, now)
      else ListSpec(s, colorName, backgroundColorName, prefix, Stringified(items), now)
  }

  /** The public levels (`Debug`, `Info`, ...); `Warning` is the obsolete
      spelling of `Warn`. */
  datatype Level =
    | Debug | Info | Runtime | Network | Success | Warn | Error | Critical
    | Audit | Trace | Security | UserAction | Performance | Config | Fatal | Exception

  /** The colour each level is printed in. */
  function LevelColor(level: Level): Names
  {
    match level
    case Debug => Names.Gray
    case Info => Names.Cyan
    case Runtime => Names.Magenta
    case Network => Names.Blue
    case Success => Names.BrightGreen
    case Warn => Names.BrightYellow
    case Error => Names.Red
    case Critical => Names.BrightRed
    case Audit => Names.Yellow
    case Trace => Names.LightBlue
    case Security => Names.Purple
    case UserAction => Names.CutePink
    case Performance => Names.Pink
    case Config => Names.LightGray
    case Fatal => Names.DarkRed
    case Exception => Names.Red
  }

  /** The prefix each level prints. */
  function LevelPrefix(level: Level): string
  {
    match level
    case Debug => "Debug"
    case Info => "Information"
    case Runtime => "Runtime"
    case Network => "Network"
    case Success => "Success"
    case Warn => "Warning"
    case Error => "Error"
    case Critical => "Critical"
    case Audit => "Audit"
    case Trace => "Trace"
    case Security => "Security"
    case UserAction => "User Action"
    case Performance => "Performance"
    case Config => "Config"
    case Fatal => "Fatal"
    case Exception => "Exception"
  }

  /** The internal `LogMessage(colorName, prefix, message, shouldLog)`: the
      private one with the colour used for both, or nothing at all. */
  function GatedSpec(s: LogState, colorName: Names, prefix: string, message: Message, shouldLog: bool, now: string): (r: LogState)
    ensures !shouldLog ==> r == s
    ensures shouldLog ==> |r.output| > |s.output| && r.output[..|s.output|] == s.output
  {
    if shouldLog then LogMessageSpec(s, colorName, colorName, prefix, message, now) else s
  }

  // ----------------------------------------------------- what Write does

  /** `n` consecutive writes of the same line. */
  function WriteTimes(s: LogState, message: string, time: string, n: nat): (r: LogState)
    requires |time| <= |message|
    ensures r.duplicatesLogType == s.duplicatesLogType
  {
    if n == 0 then s else WriteSpec(WriteTimes(s, message, time, n - 1), message, time)
  }

  /** With duplicates off, a line is written as it is and the duplicate
      tracking is left alone. */
  lemma WriteWithoutDuplicates(s: LogState, message: string, time: string)
    requires |time| <= |message| && s.duplicatesLogType == Nothing
    ensures var r := WriteSpec(s, message, time);
      && r.output == s.output + [Emit(message + Reset + "\n")]
      && r.previousMessage == s.previousMessage && r.previousMessageCount == s.previousMessageCount
  {
  }

  /** With duplicates on, a line equal (under the mode's key) to the previous
      one moves the cursor back over it, bumps the count, and is rewritten
      with the new count after it. */
  lemma RepeatedLineIsCounted(s: LogState, message: string, time: string)
    requires |time| <= |message| && s.duplicatesLogType != Nothing
    requires s.previousMessage == Some(DuplicateKey(s.duplicatesLogType, message, time))
    requires 1 <= s.previousMessageCount < Int32Math.Max
    ensures var r := WriteSpec(s, message, time);
      && r.previousMessageCount == s.previousMessageCount + 1
      && r.output == s.output + [MoveUp, ClearLine, Emit(message + Reset + " x" + IntToString(s.previousMessageCount + 1) + "\n")]
  {
    var r := WriteSpec(s, message, time);
    assert r.previousMessageCount == s.previousMessageCount + 1;
    assert r.output == s.output + ([MoveUp] + [ClearLine, Emit(message + Reset + CountSuffix(s.previousMessageCount + 1) + "\n")]);
    assert message + Reset + CountSuffix(s.previousMessageCount + 1) + "\n"
        == message + Reset + " x" + IntToString(s.previousMessageCount + 1) + "\n";
  }

  /** With duplicates on, a line that differs from the previous one starts
      a new count at 1 and carries no count. */
  lemma NewLineRestartsCount(s: LogState, message: string, time: string)
    requires |time| <= |message| && s.duplicatesLogType != Nothing
    requires s.previousMessage != Some(DuplicateKey(s.duplicatesLogType, message, time))
    ensures var r := WriteSpec(s, message, time);
      && r.previousMessageCount == 1
      && r.previousMessage == Some(DuplicateKey(s.duplicatesLogType, message, time))
      && r.output == s.output + [ClearLine, Emit(message + Reset + "\n")]
  {
    var r := WriteSpec(s, message, time);
    assert r.output == s.output + ([] + [ClearLine, Emit(message + Reset + "" + "\n")]);
    assert message + Reset + "" + "\n" == message + Reset + "\n";
  }

  /** The count is an `int` that wraps: the line after `int.MaxValue`
      repeats has a negative count, and so is printed without one. */
  lemma CountWrapsAround(s: LogState, message: string, time: string)
    requires |time| <= |message| && s.duplicatesLogType != Nothing
    requires s.previousMessage == Some(DuplicateKey(s.duplicatesLogType, message, time))
    requires s.previousMessageCount == Int32Math.Max
    ensures var r := WriteSpec(s, message, time);
      && r.previousMessageCount == Int32Math.Min
      && r.output == s.output + [MoveUp, ClearLine, Emit(message + Reset + "\n")]
  {
    AddOneToMax();
    var r := WriteSpec(s, message, time);
    assert r.output == s.output + ([MoveUp] + [ClearLine, Emit(message + Reset + "" + "\n")]);
    assert message + Reset + "" + "\n" == message + Reset + "\n";
  }

  /** Writing the same line `n` times after a different one leaves the
      count at `n`, so the last copy is printed with " x<n>" when n > 1. */
  lemma {:induction false} RepeatedWritesCount(s: LogState, message: string, time: string, n: nat)
    requires |time| <= |message| && s.duplicatesLogType != Nothing
    requires s.previousMessage != Some(DuplicateKey(s.duplicatesLogType, message, time))
    requires 1 <= n <= Int32Math.Max
    ensures WriteTimes(s, message, time, n).previousMessage == Some(DuplicateKey(s.duplicatesLogType, message, time))
    ensures WriteTimes(s, message, time, n).previousMessageCount == n
    decreases n
  {
    if n > 1 {
      RepeatedWritesCount(s, message, time, n - 1);
    }
  }

  /** `IgnoreTime` counts two lines that differ only in their time text as
      one; `Numbered` does not. */
  lemma IgnoreTimeDiffersFromNumbered(s: LogState, time1: string, time2: string, rest: string)
    requires |time1| == |time2| && time1 != time2 && s.duplicatesLogType != Nothing
    requires s.previousMessage != Some(DuplicateKey(s.duplicatesLogType, time1 + rest, time1))
    ensures var r := WriteSpec(WriteSpec(s, time1 + rest, time1), time2 + rest, time2);
      r.previousMessageCount == (if s.duplicatesLogType == IgnoreTime then 2 else 1)
  {
    var m1, m2 := time1 + rest, time2 + rest;
    assert m1[|time1|..] == rest && m2[|time2|..] == rest;
    assert m1[..|time1|] == time1 && m2[..|time2|] == time2;
  }

  // ------------------------------------------------ what GetResult builds

  /** A null item is printed as "null". */
  lemma NullItemPrintedAsNull(list: seq<Option<string>>, i: nat)
    requires i < |list| && list[i] == None
    ensures TrimmedItems(list)[i] == "null"
  {
    TrimmedItemAt(list, i);
    assert !IsWhiteSpace("null"[0]);
    TrimStartKeeps("null");
  }

  /** Items whose first one is printed keep at least that one. */
  lemma {:induction false} KeptStartsWithFirst(items: seq<string>)
    requires |items| >= 1 && items[0] != []
    ensures |Kept(items)| >= 1 && Kept(items)[0] == items[0]
    decreases |items|
  {
    if |items| > 1 {
      var front := items[..|items| - 1];
      KeptStartsWithFirst(front);
    } else {
      assert items[..0] == [];
    }
  }

  /** `Kept` of a longer prefix: the shorter prefix's, then the new item if
      it is printed. */
  lemma KeptStep(items: seq<string>, n: nat)
    requires 1 <= n <= |items|
    ensures Kept(items[..n]) == Kept(items[..n - 1]) + (if items[n - 1] == [] then [] else [items[n - 1]])
  {
    assert items[..n][..n - 1] == items[..n - 1];
  }

  /** Appending one more printed item between a closer and an opener. */
  lemma Regroup(opener: string, joined: string, closer: string, nextOpener: string, item: string, lastCloser: string)
    ensures (opener + joined + closer) + (nextOpener + item + lastCloser)
         == opener + (joined + (closer + nextOpener) + item) + lastCloser
  {
  }

  /** Before the last item, `GetResult` has written the first opener, the
      printed items joined by the closer and opener, and a closer. */
  lemma {:induction false} RenderBeforeLast(items: seq<string>, n: nat, firstPos: string, firstNeg: string, lastPos: string, lastNeg: string)
    requires 1 <= n < |items| && items[0] != []
    ensures RenderUpTo(items, n, firstPos, firstNeg, lastPos, lastNeg) == firstPos + Join(Kept(items[..n]), lastNeg + firstNeg) + lastNeg
    decreases n
  {
    KeptStep(items, n);
    if n == 1 {
      assert items[..0] == [];
      var piece := firstPos + items[0] + lastNeg;
      assert "" + piece == piece;
    } else {
      RenderBeforeLast(items, n - 1, firstPos, firstNeg, lastPos, lastNeg);
      var done := RenderUpTo(items, n - 1, firstPos, firstNeg, lastPos, lastNeg);
      if items[n - 1] != [] {
        KeptStartsWithFirst(items[..n - 1]);
        JoinAppend(Kept(items[..n - 1]), items[n - 1], lastNeg + firstNeg);
        Regroup(firstPos, Join(Kept(items[..n - 1]), lastNeg + firstNeg), lastNeg, firstNeg, items[n - 1], lastNeg);
      } else {
        assert done + "" == done;
        assert Kept(items[..n - 1]) + [] == Kept(items[..n - 1]);
      }
    }
  }

  /** When the first and the last items are printed, `GetResult` gives the
      first opener, the printed items joined by the closer followed by the
      opener, and the last closer. */
  lemma RenderWhenEndsPrinted(items: seq<string>, firstPos: string, firstNeg: string, lastPos: string, lastNeg: string)
    requires |items| >= 1 && items[0] != [] && items[|items| - 1] != []
    ensures Render(items, firstPos, firstNeg, lastPos, lastNeg) == firstPos + Join(Kept(items), lastNeg + firstNeg) + lastPos
  {
    var n := |items|;
    KeptStep(items, n);
    assert items[..n] == items;
    if n == 1 {
      assert items[..0] == [];
      var piece := firstPos + items[0] + lastPos;
      assert "" + piece == piece;
      assert Kept(items) == [] + [items[0]] == [items[0]];
      assert Join([items[0]], lastNeg + firstNeg) == items[0];
      assert Render(items, firstPos, firstNeg, lastPos, lastNeg)
          == RenderUpTo(items, 0, firstPos, firstNeg, lastPos, lastNeg) + Piece(items, 0, firstPos, firstNeg, lastPos, lastNeg);
    } else {
      RenderBeforeLast(items, n - 1, firstPos, firstNeg, lastPos, lastNeg);
      KeptStartsWithFirst(items[..n - 1]);
      JoinAppend(Kept(items[..n - 1]), items[n - 1], lastNeg + firstNeg);
      Regroup(firstPos, Join(Kept(items[..n - 1]), lastNeg + firstNeg), lastNeg, firstNeg, items[n - 1], lastPos);
    }
  }

  /** No item is printed exactly when every trimmed item is blank. */
  lemma {:induction false} KeptEmptyIffAllBlank(items: seq<string>)
    ensures Kept(items) == [] <==> forall k :: 0 <= k < |items| ==> items[k] == []
    decreases |items|
  {
    if items != [] {
      var front := items[..|items| - 1];
      KeptEmptyIffAllBlank(front);
      assert forall k :: 0 <= k < |front| ==> front[k] == items[k];
    }
  }

  /** The text `GetResult` builds from the items it printed: nothing when it
      printed none, and otherwise `opener`, the items joined by `sep`, and
      `closer`. */
  function Framed(kept: seq<string>, opener: string, sep: string, closer: string): string
  {
    if kept == [] then "" else opener + Join(kept, sep) + closer
  }

  /** One more printed item after a framed text closed by the in-between
      closer: it takes the framing opener if it is the first printed item
      and the in-between opener otherwise. */
  lemma FramedAppend(kept: seq<string>, opener: string, firstNeg: string, lastNeg: string, item: string, closer: string)
    ensures Framed(kept, opener, lastNeg + firstNeg, lastNeg) + ((if kept == [] then opener else firstNeg) + item + closer)
         == Framed(kept + [item], opener, lastNeg + firstNeg, closer)
  {
    if kept == [] {
      assert [] + [item] == [item];
      assert "" + (opener + item + closer) == opener + Join([item], lastNeg + firstNeg) + closer;
    } else {
      JoinAppend(kept, item, lastNeg + firstNeg);
      Regroup(opener, Join(kept, lastNeg + firstNeg), lastNeg, firstNeg, item, closer);
    }
  }

  /** After `n` iterations `GetResult` holds the items printed so far,
      framed by the opener of the first printed item (the first opener only
      when that item is item 0) and the closer of the last printed one (the
      last closer only when that item is the last of the list). */
  lemma {:induction false} RenderPrefix(items: seq<string>, n: nat, firstPos: string, firstNeg: string, lastPos: string, lastNeg: string)
    requires n <= |items|
    ensures RenderUpTo(items, n, firstPos, firstNeg, lastPos, lastNeg)
         == Framed(Kept(items[..n]), if items != [] && items[0] != [] then firstPos else firstNeg, lastNeg + firstNeg,
                   if n == |items| && n > 0 && items[n - 1] != [] then lastPos else lastNeg)
    decreases n
  {
    if n == 0 {
      assert items[..0] == [];
    } else {
      RenderPrefix(items, n - 1, firstPos, firstNeg, lastPos, lastNeg);
      KeptStep(items, n);
      var before := Kept(items[..n - 1]);
      var opener := if items[0] != [] then firstPos else firstNeg;
      if items[n - 1] == [] {
        assert before + [] == before;
        var done := RenderUpTo(items, n - 1, firstPos, firstNeg, lastPos, lastNeg);
        assert done + "" == done;
      } else {
        if n - 1 > 0 {
          KeptEmptyIffAllBlank(items[..n - 1]);
          assert items[..n - 1][0] == items[0];
        } else {
          assert items[..0] == [];
        }
        assert (if n - 1 == 0 then firstPos else firstNeg) == (if before == [] then opener else firstNeg);
        FramedAppend(before, opener, firstNeg, lastNeg, items[n - 1], if n - 1 == |items| - 1 then lastPos else lastNeg);
      }
    }
  }

  /** `GetResult` for every list: nothing when every item is blank, and
      otherwise the printed items joined by the closer followed by the
      opener, between the opener of item 0 if it is printed (else the
      in-between opener) and the closer of the last item if it is printed
      (else the in-between closer). A blank end item takes its bracket with
      it. */
  lemma RenderClosedForm(items: seq<string>, firstPos: string, firstNeg: string, lastPos: string, lastNeg: string)
    ensures Render(items, firstPos, firstNeg, lastPos, lastNeg)
         == if Kept(items) == [] then ""
            else (if items[0] != [] then firstPos else firstNeg) + Join(Kept(items), lastNeg + firstNeg)
                 + (if items[|items| - 1] != [] then lastPos else lastNeg)
  {
    RenderPrefix(items, |items|, firstPos, firstNeg, lastPos, lastNeg);
    assert items[..|items|] == items;
  }

  /** A list whose trimmed items are all blank renders as nothing. */
  lemma AllBlankRendersEmpty(items: seq<string>, firstPos: string, firstNeg: string, lastPos: string, lastNeg: string)
    requires forall k :: 0 <= k < |items| ==> items[k] == []
    ensures Render(items, firstPos, firstNeg, lastPos, lastNeg) == ""
  {
    KeptEmptyIffAllBlank(items);
    RenderClosedForm(items, firstPos, firstNeg, lastPos, lastNeg);
  }

  /** In `Single` mode the list body is the printed items separated by
      commas, opened by "[" only when item 0 is printed (else by ",") and
      closed by "]" only when the last item is printed; `[a,b,c]` when both
      ends are printed, and nothing when every item is blank. */
  lemma SingleListBody(s: LogState, prefix: string, items: seq<string>, now: string)
    requires s.listLogType == Single
    ensures ListBody(s, prefix, items, now)
         == if Kept(items) == [] then ""
            else (if items[0] != [] then "[" else ",") + Join(Kept(items), ",") + (if items[|items| - 1] != [] then "]" else "")
  {
    assert "" + "," == ",";
    RenderClosedForm(items, "[", ",", "]", "");
    if Kept(items) != [] {
      var opener := if items[0] != [] then "[" else ",";
      var joined := Join(Kept(items), ",");
      if items[|items| - 1] == [] {
        assert opener + joined + "" == opener + joined;
      }
    }
  }

  /** In `Multiple` mode the printed items go on lines of their own, each
      after the first indented by the width of the uncoloured header; a
      blank item 0 leaves the first printed item indented too, and a blank
      last item leaves a trailing line break. */
  lemma MultipleListBody(s: LogState, prefix: string, items: seq<string>, now: string)
    requires s.listLogType == Multiple
    ensures ListBody(s, prefix, items, now)
         == (var indent := Spaces(|RawPrefixText(s, prefix, now)|);
             if Kept(items) == [] then ""
             else (if items[0] != [] then "" else indent) + Join(Kept(items), "\n" + indent) + (if items[|items| - 1] != [] then "" else "\n"))
  {
    var indent := Spaces(|RawPrefixText(s, prefix, now)|);
    RenderClosedForm(items, "", indent, "", "\n");
  }

  /** In `Single` mode a blank first item takes the opening bracket with it:
      `[" ", "a"]` is printed as ",a]". */
  lemma BlankFirstItemLosesBracket()
    ensures Render(TrimmedItems([Some(" "), Some("a")]), "[", ",", "]", "") == ",a]"
  {
    var list := [Some(" "), Some("a")];
    var items := TrimmedItems(list);
    TrimmedItemAt(list, 0);
    TrimmedItemAt(list, 1);
    assert OrNull(list[0]) == " " && OrNull(list[1]) == "a";
    assert IsWhiteSpace(" "[0]) && !IsWhiteSpace("a"[0]);
    TrimStartDrops(" ");
    assert " "[1..] == [];
    TrimStartKeeps([]);
    TrimStartKeeps("a");
    RenderBlankThenPrinted(items, "[", ",", "]", "");
    assert "," + "a" + "]" == ",a]";
  }

  /** In `Single` mode a blank last item takes the closing bracket with it:
      `["a", " "]` is printed as "[a". */
  lemma BlankLastItemLosesBracket()
    ensures Render(TrimmedItems([Some("a"), Some(" ")]), "[", ",", "]", "") == "[a"
  {
    var list := [Some("a"), Some(" ")];
    var items := TrimmedItems(list);
    TrimmedItemAt(list, 0);
    TrimmedItemAt(list, 1);
    assert OrNull(list[0]) == "a" && OrNull(list[1]) == " ";
    assert IsWhiteSpace(" "[0]) && !IsWhiteSpace("a"[0]);
    TrimStartDrops(" ");
    assert " "[1..] == [];
    TrimStartKeeps([]);
    TrimStartKeeps("a");
    assert items == ["a", []];
    assert RenderUpTo(items, 1, "[", ",", "]", "") == "" + ("[" + "a" + "");
    assert "" + ("[" + "a" + "") + "" == "[a";
  }

  /** An exception without a stack trace, logged in full, is the list
      [message, ""]: its blank last line leaves the body ending in a line
      break after the message. */
  lemma ExceptionWithoutTraceEndsInLineBreak(s: LogState, prefix: string, message: string, location: string, now: string)
    requires TrimStart(message) != []
    ensures ListBody(s.(listLogType := Multiple), prefix, TrimmedItems(ExceptionLines(false, message, location, None)), now)
         == TrimStart(message) + "\n"
  {
    var lines := ExceptionLines(false, message, location, None);
    assert SplitRemoveEmpty("", '\n') == [];
    assert lines == [Some(message), Some("")];
    var items := TrimmedItems(lines);
    TrimmedItemAt(lines, 0);
    TrimmedItemAt(lines, 1);
    TrimStartKeeps("");
    assert items == [TrimStart(message), []];
    assert Kept(items) == [TrimStart(message)] by {
      assert items[..1] == [TrimStart(message)];
      assert items[..1][..0] == [];
    }
    MultipleListBody(s.(listLogType := Multiple), prefix, items, now);
  }

  /** Two items, the first blank: only the in-between opener, the second
      item and the last closer are written. */
  lemma RenderBlankThenPrinted(items: seq<string>, firstPos: string, firstNeg: string, lastPos: string, lastNeg: string)
    requires |items| == 2 && items[0] == [] && items[1] != []
    ensures Render(items, firstPos, firstNeg, lastPos, lastNeg) == firstNeg + items[1] + lastPos
  {
    var piece := firstNeg + items[1] + lastPos;
    assert RenderUpTo(items, 1, firstPos, firstNeg, lastPos, lastNeg) == "" + "";
    assert "" + "" + piece == piece;
  }

  /** The `Single` rendering the brackets were meant for: the printed items
      always between "[" and "]". */
  function Bracketed(items: seq<string>): (r: string)
    ensures |r| >= 2 && r[0] == '[' && r[|r| - 1] == ']'
  {
    "[" + Join(Kept(items), ",") + "]"
  }

  /** `Bracketed` agrees with `GetResult("[", ",", "]", "")` whenever the
      first and the last items are printed. */
  lemma BracketedAgreesWhenEndsPrinted(items: seq<string>)
    requires |items| >= 1 && items[0] != [] && items[|items| - 1] != []
    ensures Bracketed(items) == Render(items, "[", ",", "]", "")
  {
    RenderWhenEndsPrinted(items, "[", ",", "]", "");
    assert "" + "," == ",";
  }

  // ----------------------------------------------- what the log paths do

  /** As written, logging a list in `Multiple` mode switches duplicate
      tracking off for good: afterwards two equal lines are both written
      in full, without a count, whatever the mode was before. */
  lemma MultipleListDisablesDuplicates(s: LogState, colorName: Names, backgroundColorName: Names, prefix: string, list: seq<Option<string>>, now: string, message: string, time: string)
    requires s.listLogType == Multiple && |time| <= |message|
    ensures var r := ListSpec(s, colorName, backgroundColorName, prefix, list, now);
      && r.duplicatesLogType == Nothing
      && WriteSpec(WriteSpec(r, message, time), message, time).output
         == r.output + [Emit(message + Reset + "\n"), Emit(message + Reset + "\n")]
  {
    var r := ListSpec(s, colorName, backgroundColorName, prefix, list, now);
    var line := Emit(message + Reset + "\n");
    var once := WriteSpec(r, message, time);
    assert once.duplicatesLogType == Nothing && once.output == r.output + [line];
    assert WriteSpec(once, message, time).output == r.output + [line] + [line];
  }

  /** `LogList` as its documentation describes it: duplicate tracking is
      off only while the list is written, then the mode is put back. */
  function CorrectedListSpec(s: LogState, colorName: Names, backgroundColorName: Names, prefix: string, list: seq<Option<string>>, now: string): (r: LogState)
    requires s.listLogType != Direct
    ensures r.listLogType == s.listLogType && r.duplicatesLogType == s.duplicatesLogType
  {
    var during := if s.listLogType == Multiple then Nothing else s.duplicatesLogType;
    var written := WriteSpec(s.(duplicatesLogType := during), Line(s, colorName, backgroundColorName, prefix, ListBody(s, prefix, TrimmedItems(list), now), now), TimeText(s, now));
    written.(duplicatesLogType := s.duplicatesLogType)
  }

  /** The corrected `LogList` writes a `Multiple` list without touching the
      duplicate tracking, and leaves the mode as it found it, so a line
      repeated afterwards is still counted. */
  lemma CorrectedListKeepsDuplicates(s: LogState, colorName: Names, backgroundColorName: Names, prefix: string, list: seq<Option<string>>, now: string)
    requires s.listLogType == Multiple
    ensures var r := CorrectedListSpec(s, colorName, backgroundColorName, prefix, list, now);
      && r.duplicatesLogType == s.duplicatesLogType
      && r.previousMessage == s.previousMessage && r.previousMessageCount == s.previousMessageCount
      && r.output == s.output + [Emit(Line(s, colorName, backgroundColorName, prefix, ListBody(s, prefix, TrimmedItems(list), now), now) + Reset + "\n")]
  {
  }

  /** An exception is always logged as a `Multiple` list, even in `Direct`
      or `Single` mode, so (as written) it too leaves duplicate tracking off. */
  lemma ExceptionDisablesDuplicates(s: LogState, colorName: Names, backgroundColorName: Names, prefix: string, message: string, location: string, stackTrace: Option<string>, now: string)
    ensures ExceptionSpec(s, colorName, backgroundColorName, prefix, message, location, stackTrace, now).duplicatesLogType == Nothing
  {
  }

  /** A null message is logged as the text "null". */
  lemma NullLoggedAsText(s: LogState, colorName: Names, backgroundColorName: Names, prefix: string, now: string)
    ensures LogMessageSpec(s, colorName, backgroundColorName, prefix, Null, now)
         == LogMessageSpec(s, colorName, backgroundColorName, prefix, Plain("null"), now)
  {
  }

  /** In `Direct` mode a list of either kind is logged as its own text, the
      type name. */
  lemma DirectListLoggedByName(s: LogState, colorName: Names, backgroundColorName: Names, prefix: string, items: seq<Option<string>>, typeName: string, now: string)
    requires s.listLogType == Direct
    ensures LogMessageSpec(s, colorName, backgroundColorName, prefix, StringList(items, typeName), now)
         == LogMessageSpec(s, colorName, backgroundColorName, prefix, Plain(typeName), now)
    ensures LogMessageSpec(s, colorName, backgroundColorName, prefix, OtherList(items, typeName), now)
         == LogMessageSpec(s, colorName, backgroundColorName, prefix, Plain(typeName), now)
  {
  }

  /** Outside `Direct` mode any other list is logged exactly as a string
      list holding the same items would be: its items are turned into
      strings, a null item into "null", which is how `GetResult` reads a
      null string too. */
  lemma OtherListLoggedAsStrings(s: LogState, colorName: Names, backgroundColorName: Names, prefix: string, items: seq<Option<string>>, typeName: string, now: string)
    requires s.listLogType != Direct
    ensures LogMessageSpec(s, colorName, backgroundColorName, prefix, OtherList(items, typeName), now)
         == LogMessageSpec(s, colorName, backgroundColorName, prefix, StringList(items, typeName), now)
  {
    StringifiedPrintsTheSame(items);
    ListSpecReadsTrimmedItems(s, colorName, backgroundColorName, prefix, Stringified(items), items, now);
    ListMessageLoggedAsList(s, colorName, backgroundColorName, prefix, OtherList(items, typeName), now);
    ListMessageLoggedAsList(s, colorName, backgroundColorName, prefix, StringList(items, typeName), now);
  }

  /** Outside `Direct` mode a list message goes to `LogList`, a non-string
      list with its items turned into strings. */
  lemma ListMessageLoggedAsList(s: LogState, colorName: Names, backgroundColorName: Names, prefix: string, message: Message, now: string)
    requires s.listLogType != Direct && (message.StringList? || message.OtherList?)
    ensures LogMessageSpec(s, colorName, backgroundColorName, prefix, message, now)
         == ListSpec(s, colorName, backgroundColorName, prefix, if message.StringList? then message.items else Stringified(message.items), now)
  {
  }

  /** `LogList` looks at the list only through its trimmed items. */
  lemma ListSpecReadsTrimmedItems(s: LogState, colorName: Names, backgroundColorName: Names, prefix: string, list1: seq<Option<string>>, list2: seq<Option<string>>, now: string)
    requires s.listLogType != Direct && TrimmedItems(list1) == TrimmedItems(list2)
    ensures ListSpec(s, colorName, backgroundColorName, prefix, list1, now) == ListSpec(s, colorName, backgroundColorName, prefix, list2, now)
  {
  }

  /** Turning the items into strings first changes nothing in what
      `GetResult` prints: a null item reads as "null" either way. */
  lemma StringifiedPrintsTheSame(items: seq<Option<string>>)
    ensures TrimmedItems(Stringified(items)) == TrimmedItems(items)
  {
    var printed := TrimmedItems(Stringified(items));
    forall k | 0 <= k < |items|
      ensures printed[k] == TrimmedItems(items)[k]
    {
      TrimmedItemAt(Stringified(items), k);
      TrimmedItemAt(items, k);
      assert OrNull(Stringified(items)[k]) == OrNull(items[k]);
    }
  }

  // -------------------------------------------------------------- Logger

  class Logger {
    var includeTimestamps: bool
    var simpleExceptions: bool
    var listLogType: ListLogType
    var duplicatesLogType: DuplicatesLogType
    var previousMessage: Option<string>
    var previousMessageCount: Int32
    var output: seq<ConsoleOp>

    function State(): LogState
      reads this
    {
      LogState(includeTimestamps, simpleExceptions, listLogType, duplicatesLogType, previousMessage, previousMessageCount, output)
    }

    constructor()
      ensures State() == Initial
    {
      includeTimestamps := true;
      simpleExceptions := false;
      listLogType := Multiple;
      duplicatesLogType := Nothing;
      previousMessage := None;
      previousMessageCount := 1;
      output := [];
    }

    /** `Write(message, time)`. */
    method Write(message: string, time: string)
      requires |time| <= |message|
      modifies this
      ensures State() == WriteSpec(old(State()), message, time)
    {
      var extra := "";
      var ops: seq<ConsoleOp> := [];
      if duplicatesLogType != Nothing {
        var msg := if duplicatesLogType == Numbered then message else message[|time|..];
        assert msg == DuplicateKey(duplicatesLogType, message, time);
        var isSame := previousMessage == Some(msg);
        if isSame {
          previousMessageCount := Int32Math.Add(previousMessageCount, 1);
          ops := [MoveUp];
        } else {
          previousMessageCount := 1;
        }
        previousMessage := Some(msg);
        extra := CountSuffix(previousMessageCount);
        ops := ops + [ClearLine];
        assert ops + [Emit(message + Reset + extra + "\n")] == (if isSame then [MoveUp] else []) + [ClearLine, Emit(message + Reset + extra + "\n")];
      }
      ops := ops + [Emit(message + Reset + extra + "\n")];
      assert extra == "" ==> message + Reset + extra + "\n" == message + Reset + "\n";
      output := output + ops;
    }

    /** The tail of the private `LogMessage`: one line for the text. */
    method LogPlain(colorName: Names, backgroundColorName: Names, prefix: string, text: string, now: string)
      modifies this
      ensures State() == PlainSpec(old(State()), colorName, backgroundColorName, prefix, text, now)
    {
      Write(Line(State(), colorName, backgroundColorName, prefix, text, now), TimeText(State(), now));
    }

    /** `LogList`. `Direct` mode never reaches it: lists are printed by type
        name before it is called. */
    method LogList(colorName: Names, backgroundColorName: Names, prefix: string, list: seq<Option<string>>, now: string)
      requires listLogType != Direct
      modifies this
      ensures State() == ListSpec(old(State()), colorName, backgroundColorName, prefix, list, now)
    {
      var rawPrefixText := RawPrefixText(State(), prefix, now);
      var result;
      if listLogType == Multiple {
        result := GetResult(list, "", Spaces(|rawPrefixText|), "", "\n");
      } else {
        result := GetResult(list, "[", ",", "]", "");
      }
      assert result == ListBody(State(), prefix, TrimmedItems(list), now);
      var previous := duplicatesLogType;
      if listLogType == Multiple {
        previous := Nothing;
      }
      LogPlain(colorName, backgroundColorName, prefix, result, now);
      duplicatesLogType := previous;
    }

    /** `LogException`: save the list mode, force `Multiple`, log the lines,
        restore the list mode. */
    method LogException(colorName: Names, backgroundColorName: Names, prefix: string, message: string, location: string, stackTrace: Option<string>, now: string)
      modifies this
      ensures State() == ExceptionSpec(old(State()), colorName, backgroundColorName, prefix, message, location, stackTrace, now)
    {
      ghost var before := State();
      var lines := ExceptionLines(simpleExceptions, message, location, stackTrace);
      var current := listLogType;
      listLogType := Multiple;
      assert State() == before.(listLogType := Multiple);
      LogList(colorName, backgroundColorName, prefix, lines, now);
      ghost var logged := State();
      listLogType := current;
      assert State() == logged.(listLogType := current);
    }

    /** `HandleList` on a list, followed by `LogList` when it passes a string
        list on: in `Direct` mode the list's own text, otherwise its items,
        turned into strings first unless they already are. */
    method HandleList(colorName: Names, backgroundColorName: Names, prefix: string, items: seq<Option<string>>, typeName: string, isStringList: bool, now: string)
      modifies this
      ensures old(listLogType) == Direct ==> State() == PlainSpec(old(State()), colorName, backgroundColorName, prefix, typeName, now)
      ensures old(listLogType) != Direct ==>
                State() == ListSpec(old(State()), colorName, backgroundColorName, prefix, if isStringList then items else Stringified(items), now)
    {
      if listLogType == Direct {
        LogPlain(colorName, backgroundColorName, prefix, typeName, now);
      } else if isStringList {
        LogList(colorName, backgroundColorName, prefix, items, now);
      } else {
        LogList(colorName, backgroundColorName, prefix, Stringified(items), now);
      }
    }

    /** The private `LogMessage(colorName, backgroundColorName, prefix, message)`,
        with `HandleList` inlined. */
    method LogMessageWith(colorName: Names, backgroundColorName: Names, prefix: string, message: Message, now: string)
      modifies this
      ensures State() == LogMessageSpec(old(State()), colorName, backgroundColorName, prefix, message, now)
    {
      match message {
        case Thrown(m, location, trace) =>
          LogException(colorName, backgroundColorName, prefix, m, location, trace, now);
        case StringList(items, typeName) =>
          HandleList(colorName, backgroundColorName, prefix, items, typeName, true, now);
        case OtherList(items, typeName) =>
          HandleList(colorName, backgroundColorName, prefix, items, typeName, false, now);
        case Null =>
          LogPlain(colorName, backgroundColorName, prefix, "null", now);
        case Plain(text) =>
          LogPlain(colorName, backgroundColorName, prefix, text, now);
      }
    }

    /** The internal `LogMessage(colorName, prefix, message, shouldLog)`. */
    method LogMessage(colorName: Names, prefix: string, message: Message, shouldLog: bool, now: string)
      modifies this
      ensures State() == GatedSpec(old(State()), colorName, prefix, message, shouldLog, now)
    {
      if shouldLog {
        LogMessageWith(colorName, colorName, prefix, message, now);
      }
    }

    /** `Debug(message, condition)`, `Info(message, condition)`, and the rest. */
    method LogAt(level: Level, message: Message, condition: bool, now: string)
      modifies this
      ensures State() == GatedSpec(old(State()), LevelColor(level), LevelPrefix(level), message, condition, now)
    {
      LogMessage(LevelColor(level), LevelPrefix(level), message, condition, now);
    }
  }
}
