/**
 * lib/class_profiler/logging.rb: the tabular report every collector prints
 * (`print_report`), the fan-out `MultiLogger`, and the memoised
 * `profiler_logger` a class and its instances share.
 *
 * A `::Logger` is modelled by its level and the messages it has written;
 * devices, formatting of log lines and rotation are not part of the model.
 * Float#to_s and `format('%.6f', ...)` are parameters of the report.
 */
module Logging {
  import opened Core

  // Logger::Severity
  const DEBUG: int := 0
  const INFO: int := 1
  const WARN: int := 2
  const ERROR: int := 3
  const FATAL: int := 4
  const UNKNOWN: int := 5

  // ---------------------------------------------------------------------
  // Loggers
  // ---------------------------------------------------------------------

  /** What a logger at `level` writes for `info(msg)`. */
  function Admitted(level: int, msg: string): seq<string> {
    if level <= INFO then [msg] else []
  }

  /** A `::Logger`: its threshold and the messages it has written so far. */
  class Logger {
    var level: int
    var lines: seq<string>

    constructor(level: int)
      ensures this.level == level && lines == []
    {
      this.level := level;
      lines := [];
    }

    /** `Logger#info`: writes the message only when the level admits INFO. */
    method Info(msg: string)
      modifies this
      ensures level == old(level)
      ensures lines == old(lines) + Admitted(level, msg)
    {
      if level <= INFO {
        lines := lines + [msg];
      }
    }
  }

  /** `loggers.compact`: the non-nil loggers, in order. */
  function Compact(candidates: seq<Logger?>): (r: seq<Logger>)
    ensures forall i :: 0 <= i < |r| ==> r[i] in candidates
    ensures forall i :: 0 <= i < |candidates| && candidates[i] != null ==> candidates[i] in r
    ensures |r| <= |candidates|
  {
    if candidates == [] then []
    else if candidates[0] == null then Compact(candidates[1..])
    else [candidates[0]] + Compact(candidates[1..])
  }

  /** The least level among `loggers`. */
  function MinLevel(loggers: seq<Logger>): (r: int)
    requires loggers != []
    reads set l | l in loggers
    ensures forall l :: l in loggers ==> r <= l.level
    ensures exists l :: l in loggers && r == l.level
  {
    if |loggers| == 1 then loggers[0].level
    else
      var rest := MinLevel(loggers[1..]);
      assert forall l :: l in loggers[1..] ==> l in loggers;
      if loggers[0].level <= rest then loggers[0].level else rest
  }

  /** `ClassMethods::MultiLogger`: a logger that stands for several. */
  class MultiLogger {
    const loggers: seq<Logger>

    /** `initialize(*loggers)` drops the nil arguments. */
    constructor(candidates: seq<Logger?>)
      ensures loggers == Compact(candidates)
    {
      loggers := Compact(candidates);
    }

    /** `level`: the least child level, or INFO when there is no child. */
    function Level(): (r: int)
      reads set l | l in loggers
      ensures loggers == [] ==> r == INFO
      ensures forall l :: l in loggers ==> r <= l.level
      ensures loggers != [] ==> exists l :: l in loggers && r == l.level
    {
      if loggers == [] then INFO else MinLevel(loggers)
    }

    /** `level=`: sets the level of every child and nothing else. */
    method SetLevel(level: int)
      modifies set l | l in loggers
      ensures forall l :: l in loggers ==> l.level == level && l.lines == old(l.lines)
      ensures loggers != [] ==> Level() == level
    {
      var i := 0;
      while i < |loggers|
        invariant 0 <= i <= |loggers|
        invariant forall l :: l in loggers[..i] ==> l.level == level
        invariant forall l :: l in loggers && l !in loggers[..i] ==> l.level == old(l.level)
        invariant forall l :: l in loggers ==> l.lines == old(l.lines)
      {
        assert loggers[..i + 1] == loggers[..i] + [loggers[i]];
        loggers[i].level := level;
        i := i + 1;
      }
      assert loggers[..i] == loggers;
    }

    /**
     * `info(msg)` as the fan-out evidently intends it: every child logs the
     * message at INFO. (The class as written defines no `info`.)
     */
    method Info(msg: string)
      modifies set l | l in loggers
      ensures forall l :: l in loggers ==> l.level == old(l.level)
      ensures Distinct(loggers) ==> forall l :: l in loggers ==> l.lines == old(l.lines) + Admitted(l.level, msg)
    {
      var i := 0;
      while i < |loggers|
        invariant 0 <= i <= |loggers|
        invariant forall l :: l in loggers ==> l.level == old(l.level)
        invariant forall l :: l in loggers && l !in loggers[..i] ==> l.lines == old(l.lines)
        invariant Distinct(loggers) ==> forall j :: 0 <= j < i ==> loggers[j].lines == old(loggers[j].lines) + Admitted(loggers[j].level, msg)
      {
        assert loggers[..i + 1] == loggers[..i] + [loggers[i]];
        loggers[i].Info(msg);
        i := i + 1;
      }
      assert loggers[..i] == loggers;
    }
  }

  /** What `profiler_logger` can hold: a plain logger or a fan-out. */
  datatype Sink = Single(logger: Logger) | Fanout(multi: MultiLogger)

  function SinkLoggers(s: Sink): set<Logger> {
    match s
    case Single(l) => {l}
    case Fanout(m) => set l | l in m.loggers
  }

  /**
   * `profiler_logger.info(text)` as written: `MultiLogger` has no `info`
   * method, so a fan-out raises NoMethodError and logs nothing.
   */
  method InfoAsWritten(s: Sink, msg: string) returns (r: Result<()>)
    modifies SinkLoggers(s)
    ensures s.Fanout? ==> r == Failure(NoMethodError("info"))
    ensures s.Fanout? ==> forall l :: l in s.multi.loggers ==> l.lines == old(l.lines)
    ensures s.Single? ==> r.Success? && s.logger.level == old(s.logger.level)
    ensures s.Single? ==> s.logger.lines == old(s.logger.lines) + Admitted(s.logger.level, msg)
  {
    match s
    case Single(l) =>
      l.Info(msg);
      r := Success(());
    case Fanout(_) =>
      r := Failure(NoMethodError("info"));
  }

  /** `profiler_logger.info(text)` with the fan-out forwarding to its children. */
  method Info(s: Sink, msg: string)
    modifies SinkLoggers(s)
    ensures s.Single? ==> s.logger.level == old(s.logger.level)
    ensures s.Single? ==> s.logger.lines == old(s.logger.lines) + Admitted(s.logger.level, msg)
    ensures s.Fanout? ==> forall l :: l in s.multi.loggers ==> l.level == old(l.level)
    ensures s.Fanout? && Distinct(s.multi.loggers) ==>
      forall l :: l in s.multi.loggers ==> l.lines == old(l.lines) + Admitted(l.level, msg)
  {
    match s
    case Single(l) => l.Info(msg);
    case Fanout(m) => m.Info(msg);
  }

  /** What logging through a slot may change: the slot and the loggers it holds. */
  function Footprint(slot: LoggerSlot): set<object>
    reads slot
  {
    {slot} + if slot.current.Some? then SinkLoggers(slot.current.value) else {}
  }

  /** `@profiler_logger` of a class; its instances read the same slot. */
  class LoggerSlot {
    var current: Option<Sink>

    constructor()
      ensures current == None
    {
      current := None;
    }

    /** `profiler_logger`: the stored logger, or a new INFO logger stored on first use. */
    method ProfilerLogger() returns (s: Sink)
      modifies this
      ensures current == Some(s)
      ensures old(current).Some? ==> s == old(current).value
      ensures old(current).None? ==> s.Single? && fresh(s.logger) && s.logger.level == INFO && s.logger.lines == []
    {
      if current.None? {
        var l := new Logger(INFO);
        current := Some(Single(l));
      }
      s := current.value;
    }

    /** `profiler_logger=`: replaces the logger; nil makes the next read create a default one. */
    method SetProfilerLogger(logger: Option<Sink>)
      modifies this
      ensures current == logger
    {
      current := logger;
    }

    /** `enable_profiler_logging_to_stdout(level:)` */
    method EnableToStdout(level: int := INFO)
      modifies this
      ensures current.Some? && current.value.Single?
      ensures fresh(current.value.logger) && current.value.logger.level == level && current.value.logger.lines == []
    {
      var l := new Logger(level);
      SetProfilerLogger(Some(Single(l)));
    }

    /** `enable_profiler_logging_to_file(path, level:, also_stdout:)`: the file logger, or a fan-out to file and stdout. */
    method EnableToFile(level: int := INFO, alsoStdout: bool := false)
      modifies this
      ensures current.Some?
      ensures !alsoStdout ==> current.value.Single? && fresh(current.value.logger) && current.value.logger.level == level
      ensures alsoStdout ==> current.value.Fanout? && fresh(current.value.multi)
      ensures alsoStdout ==> |current.value.multi.loggers| == 2
      ensures alsoStdout ==> forall l :: l in current.value.multi.loggers ==> fresh(l) && l.level == level && l.lines == []
      ensures alsoStdout ==> current.value.multi.loggers[0] != current.value.multi.loggers[1]
    {
      var fileLogger := new Logger(level);
      if alsoStdout {
        var stdoutLogger := new Logger(level);
        var multi := new MultiLogger([fileLogger, stdoutLogger]);
        assert multi.loggers == [fileLogger, stdoutLogger] by {
          assert [fileLogger, stdoutLogger][1..][1..] == [];
        }
        SetProfilerLogger(Some(Fanout(multi)));
      } else {
        SetProfilerLogger(Some(Single(fileLogger)));
      }
    }
  }

  /**
   * `enable_profiler_logging_to_file(path, also_stdout: true)` followed by
   * any report: as written, the report's `info` call raises NoMethodError.
   */
  method FileAndStdoutInfoAsWritten(msg: string) returns (r: Result<()>)
    ensures r == Failure(NoMethodError("info"))
  {
    var slot := new LoggerSlot();
    slot.EnableToFile(INFO, true);
    var s := slot.ProfilerLogger();
    r := InfoAsWritten(s, msg);
  }

  /** The same sequence with the forwarding `info`: both the file and stdout get the message. */
  method FileAndStdoutInfo(msg: string) returns (fileLines: seq<string>, stdoutLines: seq<string>)
    ensures fileLines == [msg] && stdoutLines == [msg]
  {
    var slot := new LoggerSlot();
    slot.EnableToFile(INFO, true);
    var s := slot.ProfilerLogger();
    var children := s.multi.loggers;
    assert Distinct(children);
    assert children[0] in children && children[1] in children;
    Info(s, msg);
    fileLines := children[0].lines;
    stdoutLines := children[1].lines;
  }

  /** The instance-side `profiler_logger`: delegates to the class's slot. */
  method InstanceProfilerLogger(klass: LoggerSlot) returns (s: Sink)
    modifies klass
    ensures klass.current == Some(s)
    ensures old(klass.current).Some? ==> s == old(klass.current).value
    ensures old(klass.current).None? ==> s.Single? && fresh(s.logger) && s.logger.level == INFO
  {
    s := klass.ProfilerLogger();
  }

  // ---------------------------------------------------------------------
  // print_report
  // ---------------------------------------------------------------------

  /** The values a report row holds: method names, counts, durations, nil. */
  datatype Cell = Sym(name: string) | Int(i: int) | Flt(f: real) | Nil

  type Row = seq<Cell>

  /** `to_s` of a cell; Float#to_s is the parameter. */
  function ToS(c: Cell, floatToS: real -> string): string {
    match c
    case Sym(name) => name
    case Int(i) => IntToString(i)
    case Flt(f) => floatToS(f)
    case Nil => ""
  }

  /** `to_f` of a cell; Symbol has none. */
  function ToF(c: Cell): Result<real> {
    match c
    case Sym(_) => Failure(NoMethodError("to_f"))
    case Int(i) => Success(i as real)
    case Flt(f) => Success(f)
    case Nil => Success(0.0)
  }

  /** `row[index]`: negative indices count from the end, out of range gives nil. */
  function CellAt(row: Row, index: int): Cell {
    if 0 <= index < |row| then row[index]
    else if -|row| <= index < 0 then row[|row| + index]
    else Nil
  }

  /** The filter's test for a row whose second cell converts: `time.to_f > 0.0`. */
  predicate Positive(row: Row) {
    ToF(CellAt(row, 1)).Success? && ToF(CellAt(row, 1)).value > 0.0
  }

  /** `rows.filter! { |(_, time)| include_zero || time.to_f > 0.0 }` */
  function FilterRows(rows: seq<Row>, includeZero: bool): (r: Result<seq<Row>>)
    ensures r.Failure? <==> !includeZero && exists i :: 0 <= i < |rows| && CellAt(rows[i], 1).Sym?
    ensures r.Failure? ==> r.error == NoMethodError("to_f")
    ensures r.Success? ==> forall row :: row in r.value <==> row in rows && (includeZero || Positive(row))
    ensures r.Success? && includeZero ==> r.value == rows
    ensures r.Success? ==> |r.value| <= |rows|
  {
    if rows == [] then Success([])
    else
      var init := rows[..|rows| - 1];
      var last := rows[|rows| - 1];
      assert rows == init + [last];
      match FilterRows(init, includeZero)
      case Failure(e) => Failure(e)
      case Success(kept) =>
        if includeZero then Success(kept + [last])
        else if CellAt(last, 1).Sym? then Failure(NoMethodError("to_f"))
        else if Positive(last) then Success(kept + [last])
        else Success(kept)
  }

  /** The key `sort_by!` compares: a Float compares as a number, anything else by its `to_s`. */
  datatype Key = FKey(f: real) | SKey(s: string)

  function SortKey(row: Row, index: int): Key {
    match CellAt(row, index)
    case Flt(f) => FKey(f)
    case c => SKey(ToS(c, _ => ""))
  }

  /** `<=` on two keys of the same kind; Float and String keys do not compare. */
  predicate KeyLe(a: Key, b: Key) {
    match (a, b)
    case (FKey(x), FKey(y)) => x <= y
    case (SKey(x), SKey(y)) => StrLe(x, y)
    case _ => false
  }

  /** All sort keys are numbers, or all are strings. */
  predicate Comparable(rows: seq<Row>, index: int) {
    forall i :: 0 <= i < |rows| ==> SortKey(rows[i], index).FKey? == SortKey(rows[0], index).FKey?
  }

  predicate SortedOn(rows: seq<Row>, index: int) {
    forall i, j :: 0 <= i < j < |rows| ==> KeyLe(SortKey(rows[i], index), SortKey(rows[j], index))
  }

  lemma KeyLeTotal(a: Key, b: Key)
    requires a.FKey? == b.FKey?
    ensures KeyLe(a, b) || KeyLe(b, a)
  {
    if a.SKey? {
      StrLeTotal(a.s, b.s);
    }
  }

  lemma KeyLeTransitive(a: Key, b: Key, c: Key)
    requires KeyLe(a, b) && KeyLe(b, c)
    ensures KeyLe(a, c)
  {
    if a.SKey? {
      StrLeTransitive(a.s, b.s, c.s);
    }
  }

  /**
   * Integer cells are not Floats, so they sort by their decimal text: a
   * row with 10 in the sort column comes before one with 9.
   */
  lemma IntegersSortAsText()
    ensures SortKey([Sym("a"), Int(10)], 1) == SKey("10")
    ensures SortedOn([[Sym("a"), Int(10)], [Sym("b"), Int(9)]], 1)
    ensures !SortedOn([[Sym("b"), Int(9)], [Sym("a"), Int(10)]], 1)
  {
    assert NatToString(10) == NatToString(1) + [DigitChar(0)] == "10";
    assert NatToString(9) == "9";
    var rows := [[Sym("b"), Int(9)], [Sym("a"), Int(10)]];
    assert SortKey(rows[0], 1) == SKey("9") && SortKey(rows[1], 1) == SKey("10");
    assert !KeyLe(SortKey(rows[0], 1), SortKey(rows[1], 1));
  }

  /** Keys of one kind throughout: what a sort of these rows can compare. */
  predicate OfKind(rows: seq<Row>, index: int, numeric: bool) {
    forall i :: 0 <= i < |rows| ==> SortKey(rows[i], index).FKey? == numeric
  }

  /** In a sorted sequence, everything from the first key greater than `key` on is greater than it. */
  lemma AfterInsertionPoint(sorted: seq<Row>, key: Key, index: int, k: nat)
    requires SortedOn(sorted, index) && k < |sorted|
    requires OfKind(sorted, index, key.FKey?)
    requires !KeyLe(SortKey(sorted[k], index), key)
    ensures forall j :: k <= j < |sorted| ==> KeyLe(key, SortKey(sorted[j], index))
  {
    KeyLeTotal(SortKey(sorted[k], index), key);
    forall j | k < j < |sorted|
      ensures KeyLe(key, SortKey(sorted[j], index))
    {
      KeyLeTransitive(key, SortKey(sorted[k], index), SortKey(sorted[j], index));
    }
  }

  /** Inserting a row between the keys not greater and the keys greater than its own keeps the order. */
  lemma InsertionSorted(sorted: seq<Row>, row: Row, index: int, k: nat)
    requires SortedOn(sorted, index) && k <= |sorted|
    requires forall i :: 0 <= i < k ==> KeyLe(SortKey(sorted[i], index), SortKey(row, index))
    requires forall j :: k <= j < |sorted| ==> KeyLe(SortKey(row, index), SortKey(sorted[j], index))
    ensures SortedOn(sorted[..k] + [row] + sorted[k..], index)
  {
    var r := sorted[..k] + [row] + sorted[k..];
    forall i, j | 0 <= i < j < |r|
      ensures KeyLe(SortKey(r[i], index), SortKey(r[j], index))
    {
      if j == k {
        assert r[i] == sorted[i];
      } else if i == k {
        assert r[j] == sorted[j - 1];
      } else {
        var i' := if i < k then i else i - 1;
        var j' := if j < k then j else j - 1;
        assert r[i] == sorted[i'] && r[j] == sorted[j'];
      }
    }
  }

  /** One insertion step: `row` goes after every row whose key is not greater. */
  method InsertSorted(sorted: seq<Row>, row: Row, index: int) returns (r: seq<Row>)
    requires SortedOn(sorted, index)
    requires OfKind(sorted, index, SortKey(row, index).FKey?)
    ensures SortedOn(r, index)
    ensures multiset(r) == multiset(sorted) + multiset{row}
    ensures OfKind(r, index, SortKey(row, index).FKey?)
  {
    var key := SortKey(row, index);
    var k := 0;
    while k < |sorted| && KeyLe(SortKey(sorted[k], index), key)
      invariant 0 <= k <= |sorted|
      invariant forall i :: 0 <= i < k ==> KeyLe(SortKey(sorted[i], index), key)
    {
      k := k + 1;
    }
    if k < |sorted| {
      AfterInsertionPoint(sorted, key, index, k);
    }
    InsertionSorted(sorted, row, index, k);
    r := sorted[..k] + [row] + sorted[k..];
    assert sorted == sorted[..k] + sorted[k..];
    assert forall i :: 0 <= i < |r| ==> r[i] == row || r[i] in sorted;
  }

  /**
   * `rows.sort_by! { ... }`: a sorted permutation of the rows. A comparison
   * sort of two or more rows compares some Float key with some String key
   * whenever both kinds occur, and Ruby raises ArgumentError for that.
   */
  method SortRows(rows: seq<Row>, index: int) returns (r: Result<seq<Row>>)
    ensures r.Failure? <==> |rows| >= 2 && !Comparable(rows, index)
    ensures r.Failure? ==> r.error.ArgumentError?
    ensures r.Success? ==> multiset(r.value) == multiset(rows) && SortedOn(r.value, index)
  {
    if |rows| >= 2 {
      var i := 1;
      while i < |rows|
        invariant 1 <= i <= |rows|
        invariant forall j :: 0 <= j < i ==> SortKey(rows[j], index).FKey? == SortKey(rows[0], index).FKey?
      {
        if SortKey(rows[i], index).FKey? != SortKey(rows[0], index).FKey? {
          return Failure(ArgumentError("comparison of Float with String failed"));
        }
        i := i + 1;
      }
    }
    var sorted: seq<Row> := [];
    var n := 0;
    while n < |rows|
      invariant 0 <= n <= |rows|
      invariant SortedOn(sorted, index)
      invariant multiset(sorted) == multiset(rows[..n])
      invariant n > 0 ==> OfKind(sorted, index, SortKey(rows[0], index).FKey?)
      invariant n == 0 ==> sorted == []
    {
      assert rows[..n + 1] == rows[..n] + [rows[n]];
      sorted := InsertSorted(sorted, rows[n], index);
      n := n + 1;
    }
    assert rows[..n] == rows;
    r := Success(sorted);
  }

  /** `rows.transpose` succeeds: every row is as long as the header row. */
  predicate Rectangular(headers: seq<string>, rows: seq<Row>) {
    forall i :: 0 <= i < |rows| ==> |rows[i]| == |headers|
  }

  /** `column.map { |value| value.to_s.length }.max` for column k, header included. */
  function ColumnWidth(headers: seq<string>, rows: seq<Row>, k: nat, floatToS: real -> string): (w: nat)
    requires Rectangular(headers, rows) && k < |headers|
    ensures |headers[k]| <= w
    ensures forall i :: 0 <= i < |rows| ==> |ToS(rows[i][k], floatToS)| <= w
    ensures w == |headers[k]| || exists i :: 0 <= i < |rows| && w == |ToS(rows[i][k], floatToS)|
  {
    if rows == [] then |headers[k]|
    else
      var rest := ColumnWidth(headers, rows[..|rows| - 1], k, floatToS);
      var last := |ToS(rows[|rows| - 1][k], floatToS)|;
      assert forall i :: 0 <= i < |rows| - 1 ==> rows[..|rows| - 1][i] == rows[i];
      if rest < last then last else rest
  }

  function Widths(headers: seq<string>, rows: seq<Row>, floatToS: real -> string): (ws: seq<nat>)
    requires Rectangular(headers, rows)
    ensures |ws| == |headers|
    ensures forall k :: 0 <= k < |headers| ==> ws[k] == ColumnWidth(headers, rows, k, floatToS)
  {
    seq(|headers|, k requires 0 <= k < |headers| => ColumnWidth(headers, rows, k, floatToS))
  }

  /** `rows.transpose.map { ... max }`: IndexError for ragged rows, else the column widths. */
  method ColumnWidths(headers: seq<string>, rows: seq<Row>, floatToS: real -> string) returns (r: Result<seq<nat>>)
    ensures r.Failure? <==> !Rectangular(headers, rows)
    ensures r.Failure? ==> r.error == IndexError
    ensures r.Success? ==> r.value == Widths(headers, rows, floatToS)
  {
    var i := 0;
    while i < |rows|
      invariant 0 <= i <= |rows|
      invariant forall j :: 0 <= j < i ==> |rows[j]| == |headers|
    {
      if |rows[i]| != |headers| {
        return Failure(IndexError);
      }
      i := i + 1;
    }
    var widths: seq<nat> := [];
    var k := 0;
    while k < |headers|
      invariant 0 <= k <= |headers|
      invariant |widths| == k
      invariant forall c :: 0 <= c < k ==> widths[c] == ColumnWidth(headers, rows, c, floatToS)
    {
      var w := ColumnMax(headers, rows, k, floatToS);
      widths := widths + [w];
      k := k + 1;
    }
    r := Success(widths);
  }

  /** The running maximum over column k that `max` computes. */
  method ColumnMax(headers: seq<string>, rows: seq<Row>, k: nat, floatToS: real -> string) returns (w: nat)
    requires Rectangular(headers, rows) && k < |headers|
    ensures w == ColumnWidth(headers, rows, k, floatToS)
  {
    w := |headers[k]|;
    var j := 0;
    while j < |rows|
      invariant 0 <= j <= |rows|
      invariant Rectangular(headers, rows[..j])
      invariant w == ColumnWidth(headers, rows[..j], k, floatToS)
    {
      ColumnWidthStep(headers, rows, j, k, floatToS);
      var len := |ToS(rows[j][k], floatToS)|;
      if w < len {
        w := len;
      }
      j := j + 1;
    }
    assert rows[..j] == rows;
  }

  /** One more row widens the column to that row's cell if it is longer. */
  lemma ColumnWidthStep(headers: seq<string>, rows: seq<Row>, j: nat, k: nat, floatToS: real -> string)
    requires Rectangular(headers, rows) && k < |headers| && j < |rows|
    ensures Rectangular(headers, rows[..j]) && Rectangular(headers, rows[..j + 1])
    ensures var before := ColumnWidth(headers, rows[..j], k, floatToS);
      var len := |ToS(rows[j][k], floatToS)|;
      ColumnWidth(headers, rows[..j + 1], k, floatToS) == if before < len then len else before
  {
    assert rows[..j + 1][..j] == rows[..j];
  }

  /** A cell as printed: `format('%.6f', cell)` for a Float, `to_s` otherwise. */
  function Shown(c: Cell, floatToS: real -> string, floatFmt: real -> string): string {
    if c.Flt? then floatFmt(c.f) else ToS(c, floatToS)
  }

  /** Each text padded with `ljust` to its column's width. */
  function Padded(texts: seq<string>, widths: seq<nat>): (r: seq<string>)
    requires |texts| == |widths|
    ensures |r| == |texts|
    ensures forall k :: 0 <= k < |r| ==> r[k] == LJust(texts[k], widths[k])
  {
    if texts == [] then [] else [LJust(texts[0], widths[0])] + Padded(texts[1..], widths[1..])
  }

  /** One report line: the padded cells joined by `" | "`. */
  function LineOf(texts: seq<string>, widths: seq<nat>): string
    requires |texts| == |widths|
  {
    Join(Padded(texts, widths), " | ")
  }

  function RowTexts(row: Row, floatToS: real -> string, floatFmt: real -> string): (r: seq<string>)
    ensures |r| == |row|
    ensures forall k :: 0 <= k < |row| ==> r[k] == Shown(row[k], floatToS, floatFmt)
  {
    seq(|row|, k requires 0 <= k < |row| => Shown(row[k], floatToS, floatFmt))
  }

  /** The lines `print_report` logs: the header line, then one line per row in order. */
  function Layout(headers: seq<string>, rows: seq<Row>, floatToS: real -> string, floatFmt: real -> string): (lines: seq<string>)
    requires Rectangular(headers, rows)
    ensures |lines| == |rows| + 1
    ensures lines[0] == LineOf(headers, Widths(headers, rows, floatToS))
    ensures forall i :: 0 <= i < |rows| ==> lines[i + 1] == LineOf(RowTexts(rows[i], floatToS, floatFmt), Widths(headers, rows, floatToS))
  {
    var widths := Widths(headers, rows, floatToS);
    assert |widths| == |headers|;
    var body := RowLines(rows, widths, floatToS, floatFmt);
    assert forall i :: 0 <= i < |rows| ==> ([LineOf(headers, widths)] + body)[i + 1] == body[i];
    [LineOf(headers, widths)] + body
  }

  /** The line of each row, in order. */
  function RowLines(rows: seq<Row>, widths: seq<nat>, floatToS: real -> string, floatFmt: real -> string): (lines: seq<string>)
    requires forall i :: 0 <= i < |rows| ==> |rows[i]| == |widths|
    ensures |lines| == |rows|
    ensures forall i :: 0 <= i < |rows| ==> lines[i] == LineOf(RowTexts(rows[i], floatToS, floatFmt), widths)
  {
    if rows == [] then []
    else [LineOf(RowTexts(rows[0], floatToS, floatFmt), widths)] + RowLines(rows[1..], widths, floatToS, floatFmt)
  }

  function Sum(ns: seq<nat>): nat {
    if ns == [] then 0 else ns[0] + Sum(ns[1..])
  }

  /** Texts no longer than their widths pad to exactly the widths. */
  lemma {:induction false} PaddedLengths(texts: seq<string>, widths: seq<nat>)
    requires |texts| == |widths|
    requires forall k :: 0 <= k < |texts| ==> |texts[k]| <= widths[k]
    ensures SumLengths(Padded(texts, widths)) == Sum(widths)
  {
    if texts != [] {
      PaddedLengths(texts[1..], widths[1..]);
      assert Padded(texts, widths)[1..] == Padded(texts[1..], widths[1..]);
    }
  }

  /**
   * When no printed cell is wider than its column (no `'%.6f'` text is
   * longer than the Float's `to_s`), the report is aligned: every line has
   * the same length, the widths plus three characters per separator.
   */
  lemma LayoutAligned(headers: seq<string>, rows: seq<Row>, floatToS: real -> string, floatFmt: real -> string)
    requires Rectangular(headers, rows) && headers != []
    requires forall i, k :: 0 <= i < |rows| && 0 <= k < |headers| ==>
      |Shown(rows[i][k], floatToS, floatFmt)| <= |ToS(rows[i][k], floatToS)|
    ensures |Layout(headers, rows, floatToS, floatFmt)| == |rows| + 1
    ensures forall line :: line in Layout(headers, rows, floatToS, floatFmt) ==>
      |line| == Sum(Widths(headers, rows, floatToS)) + 3 * (|headers| - 1)
  {
    var widths := Widths(headers, rows, floatToS);
    var lines := Layout(headers, rows, floatToS, floatFmt);
    forall line | line in lines
      ensures |line| == Sum(widths) + 3 * (|headers| - 1)
    {
      var n :| 0 <= n < |lines| && lines[n] == line;
      if n == 0 {
        LineLength(headers, widths);
      } else {
        var texts := RowTexts(rows[n - 1], floatToS, floatFmt);
        assert line == LineOf(texts, widths);
        forall k | 0 <= k < |texts|
          ensures |texts[k]| <= widths[k]
        {
          assert |ToS(rows[n - 1][k], floatToS)| <= widths[k];
        }
        LineLength(texts, widths);
      }
    }
  }

  /** A line of texts that fit their widths is as long as the widths and separators. */
  lemma LineLength(texts: seq<string>, widths: seq<nat>)
    requires |texts| == |widths| && texts != []
    requires forall k :: 0 <= k < |texts| ==> |texts[k]| <= widths[k]
    ensures |LineOf(texts, widths)| == Sum(widths) + 3 * (|texts| - 1)
  {
    PaddedLengths(texts, widths);
    JoinLength(Padded(texts, widths), " | ");
  }

  /** Every cell is padded to its column's width and never truncated. */
  lemma LineCellsPadded(texts: seq<string>, widths: seq<nat>, k: nat)
    requires |texts| == |widths| && k < |texts|
    ensures Padded(texts, widths)[k][..|texts[k]|] == texts[k]
    ensures |Padded(texts, widths)[k]| == if |texts[k]| < widths[k] then widths[k] else |texts[k]|
  {
  }

  /**
   * Rows whose columns each hold one kind of cell, as long as the headers,
   * with no Symbol in the second column: the filter cannot raise, the sort
   * compares keys of one kind, and the transpose is rectangular.
   */
  lemma UniformRowsPrint(rows: seq<Row>, headers: seq<string>, includeZero: bool, sortIndex: int)
    requires |headers| >= 2
    requires forall i :: 0 <= i < |rows| ==> |rows[i]| == |headers| && !rows[i][1].Sym?
    requires forall i, k :: 0 <= i < |rows| && 0 <= k < |headers| ==> rows[i][k].Flt? == rows[0][k].Flt?
    ensures FilterRows(rows, includeZero).Success?
    ensures Rectangular(headers, FilterRows(rows, includeZero).value)
    ensures Comparable(FilterRows(rows, includeZero).value, sortIndex)
  {
    var kept := FilterRows(rows, includeZero).value;
    forall i | 0 <= i < |kept|
      ensures |kept[i]| == |headers|
      ensures SortKey(kept[i], sortIndex).FKey? == SortKey(kept[0], sortIndex).FKey?
    {
      assert kept[i] in kept && kept[0] in kept;
      var a :| 0 <= a < |rows| && rows[a] == kept[i];
      var b :| 0 <= b < |rows| && rows[b] == kept[0];
      SameKeyKind(rows, headers, a, b, sortIndex);
    }
  }

  /** Rows of one length whose columns each hold one kind give keys of one kind. */
  lemma SameKeyKind(rows: seq<Row>, headers: seq<string>, a: nat, b: nat, index: int)
    requires a < |rows| && b < |rows|
    requires forall i :: 0 <= i < |rows| ==> |rows[i]| == |headers|
    requires forall i, k :: 0 <= i < |rows| && 0 <= k < |headers| ==> rows[i][k].Flt? == rows[0][k].Flt?
    ensures SortKey(rows[a], index).FKey? == SortKey(rows[b], index).FKey?
  {
    var n := |headers|;
    if 0 <= index < n {
      assert rows[a][index].Flt? == rows[0][index].Flt? == rows[b][index].Flt?;
    } else if -n <= index < 0 {
      assert rows[a][n + index].Flt? == rows[0][n + index].Flt? == rows[b][n + index].Flt?;
    }
  }

  /** `rows.filter!` as the loop over the rows it is. */
  method FilterInPlace(rows: seq<Row>, includeZero: bool) returns (r: Result<seq<Row>>)
    ensures r == FilterRows(rows, includeZero)
  {
    var kept: seq<Row> := [];
    var i := 0;
    while i < |rows|
      invariant 0 <= i <= |rows|
      invariant FilterRows(rows[..i], includeZero) == Success(kept)
    {
      assert rows[..i + 1][..i] == rows[..i];
      var row := rows[i];
      if !includeZero {
        var f := ToF(CellAt(row, 1));
        if f.Failure? {
          assert FilterRows(rows[..i + 1], includeZero).Failure?;
          FilterFailureSticks(rows, includeZero, i + 1);
          return Failure(f.error);
        }
        if f.value > 0.0 {
          kept := kept + [row];
        }
      } else {
        kept := kept + [row];
      }
      i := i + 1;
    }
    assert rows[..i] == rows;
    r := Success(kept);
  }

  /** Once a prefix of the rows fails the filter, so do all the rows. */
  lemma {:induction false} FilterFailureSticks(rows: seq<Row>, includeZero: bool, n: nat)
    requires n <= |rows| && FilterRows(rows[..n], includeZero).Failure?
    ensures FilterRows(rows, includeZero) == FilterRows(rows[..n], includeZero)
    decreases |rows| - n
  {
    if n < |rows| {
      assert rows[..n + 1][..n] == rows[..n];
      FilterFailureSticks(rows, includeZero, n + 1);
    } else {
      assert rows[..n] == rows;
    }
  }

  /** `profiler_logger` holds a fan-out, which has no `info`. */
  predicate HoldsFanout(current: Option<Sink>) {
    current.Some? && current.value.Fanout?
  }

  /**
   * `rows.each { |row| ... profiler_logger.info(row_text) }`: logs each line
   * through the slot's logger. A fan-out has no `info`, so the first line
   * raises NoMethodError and nothing is logged.
   */
  method LogLines(slot: LoggerSlot, lines: seq<string>) returns (r: Result<()>)
    modifies Footprint(slot)
    ensures r.Failure? <==> lines != [] && HoldsFanout(old(slot.current))
    ensures r.Failure? ==> r.error == NoMethodError("info")
    ensures lines == [] ==> slot.current == old(slot.current)
    ensures lines != [] ==> slot.current.Some?
    ensures old(slot.current).Some? ==> slot.current == old(slot.current)
    ensures lines != [] && old(slot.current).None? ==>
      slot.current.value.Single? && fresh(slot.current.value.logger) &&
      slot.current.value.logger.level == INFO && slot.current.value.logger.lines == lines
    ensures old(slot.current).Some? && old(slot.current).value.Single? ==>
      var l := old(slot.current).value.logger;
      l.lines == old(l.lines) + (if l.level <= INFO then lines else [])
    ensures HoldsFanout(old(slot.current)) ==>
      forall l :: l in old(slot.current).value.multi.loggers ==> l.lines == old(l.lines)
  {
    r := Success(());
    var n := 0;
    while n < |lines|
      invariant 0 <= n <= |lines|
      invariant r.Success?
      invariant n == 0 ==> slot.current == old(slot.current)
      invariant n > 0 ==> slot.current.Some?
      invariant old(slot.current).Some? ==> slot.current == old(slot.current)
      invariant n > 0 && old(slot.current).None? ==>
        slot.current.value.Single? && fresh(slot.current.value.logger) &&
        slot.current.value.logger.level == INFO && slot.current.value.logger.lines == lines[..n]
      invariant old(slot.current).Some? && old(slot.current).value.Single? ==>
        var l := old(slot.current).value.logger;
        l.level == old(l.level) && l.lines == old(l.lines) + (if l.level <= INFO then lines[..n] else [])
      invariant HoldsFanout(old(slot.current)) ==>
        n == 0 && forall l :: l in old(slot.current).value.multi.loggers ==> l.lines == old(l.lines)
    {
      var sink := slot.ProfilerLogger();
      r := InfoAsWritten(sink, lines[n]);
      if r.Failure? {
        return;
      }
      assert lines[..n + 1] == lines[..n] + [lines[n]];
      n := n + 1;
    }
    assert lines[..n] == lines;
  }

  /**
   * The logging loop of `print_report` with the forwarding fan-out `info`:
   * a fan-out passes every line to each of its loggers.
   */
  method ForwardLines(slot: LoggerSlot, lines: seq<string>)
    modifies Footprint(slot)
    ensures lines == [] ==> slot.current == old(slot.current)
    ensures lines != [] ==> slot.current.Some?
    ensures old(slot.current).Some? ==> slot.current == old(slot.current)
    ensures lines != [] && old(slot.current).None? ==>
      slot.current.value.Single? && fresh(slot.current.value.logger) &&
      slot.current.value.logger.level == INFO && slot.current.value.logger.lines == lines
    ensures old(slot.current).Some? && old(slot.current).value.Single? ==>
      var l := old(slot.current).value.logger;
      l.lines == old(l.lines) + (if l.level <= INFO then lines else [])
    ensures old(slot.current).Some? && old(slot.current).value.Fanout? && Distinct(old(slot.current).value.multi.loggers) ==>
      forall l :: l in old(slot.current).value.multi.loggers ==>
        l.lines == old(l.lines) + (if l.level <= INFO then lines else [])
  {
    var n := 0;
    while n < |lines|
      invariant 0 <= n <= |lines|
      invariant n == 0 ==> slot.current == old(slot.current)
      invariant n > 0 ==> slot.current.Some?
      invariant old(slot.current).Some? ==> slot.current == old(slot.current)
      invariant n > 0 && old(slot.current).None? ==>
        slot.current.value.Single? && fresh(slot.current.value.logger) &&
        slot.current.value.logger.level == INFO && slot.current.value.logger.lines == lines[..n]
      invariant old(slot.current).Some? && old(slot.current).value.Single? ==>
        var l := old(slot.current).value.logger;
        l.level == old(l.level) && l.lines == old(l.lines) + (if l.level <= INFO then lines[..n] else [])
      invariant old(slot.current).Some? && old(slot.current).value.Fanout? && Distinct(old(slot.current).value.multi.loggers) ==>
        forall l :: l in old(slot.current).value.multi.loggers ==>
          l.level == old(l.level) && l.lines == old(l.lines) + (if l.level <= INFO then lines[..n] else [])
    {
      var sink := slot.ProfilerLogger();
      Info(sink, lines[n]);
      assert lines[..n + 1] == lines[..n] + [lines[n]];
      n := n + 1;
    }
    assert lines[..n] == lines;
  }

  /** The filter, the sort and the transpose of `print_report` all succeed on `entries`. */
  predicate Printable(headers: seq<string>, entries: seq<Row>, includeZero: bool, sortIndex: int) {
    && FilterRows(entries, includeZero).Success?
    && (|FilterRows(entries, includeZero).value| >= 2 ==> Comparable(FilterRows(entries, includeZero).value, sortIndex))
    && Rectangular(headers, FilterRows(entries, includeZero).value)
  }

  /**
   * `print_report(entries, headers:, include_zero:, sort_index:)`: filters
   * the rows, sorts them, logs the header line and one line per row through
   * `profiler_logger`, and returns `entries`. `shown` are the rows in the
   * order they were logged, `emitted` the logged lines. A fan-out logger
   * has no `info`, so with one the report raises NoMethodError after the
   * rows are built, and logs nothing.
   */
  method PrintReport(slot: LoggerSlot, floatToS: real -> string, floatFmt: real -> string, entries: seq<Row>,
                     headers: seq<string> := [], includeZero: bool := true, sortIndex: int := 0)
    returns (r: Result<seq<Row>>, shown: seq<Row>, emitted: seq<string>)
    modifies Footprint(slot)
    ensures r.Success? <==> Printable(headers, entries, includeZero, sortIndex) && !HoldsFanout(old(slot.current))
    ensures r.Success? ==> r.value == entries
    ensures FilterRows(entries, includeZero).Failure? ==> r == Failure(NoMethodError("to_f"))
    ensures var kept := FilterRows(entries, includeZero);
      kept.Success? && |kept.value| >= 2 && !Comparable(kept.value, sortIndex) ==> r.Failure? && r.error.ArgumentError?
    ensures var kept := FilterRows(entries, includeZero);
      kept.Success? && Comparable(kept.value, sortIndex) && !Rectangular(headers, kept.value) ==> r == Failure(IndexError)
    ensures Printable(headers, entries, includeZero, sortIndex) && HoldsFanout(old(slot.current)) ==>
      r == Failure(NoMethodError("info"))
    ensures r.Success? ==> multiset(shown) == multiset(FilterRows(entries, includeZero).value)
    ensures r.Success? ==> SortedOn(shown, sortIndex)
    ensures r.Success? ==> Rectangular(headers, shown) && emitted == Layout(headers, shown, floatToS, floatFmt)
    ensures r.Failure? ==> shown == [] && emitted == [] && slot.current == old(slot.current)
    ensures r.Success? ==> slot.current.Some? && (old(slot.current).Some? ==> slot.current == old(slot.current))
    ensures r.Success? && old(slot.current).None? ==>
      slot.current.value.Single? && slot.current.value.logger.level == INFO && slot.current.value.logger.lines == emitted
    ensures old(slot.current).Some? && old(slot.current).value.Single? ==>
      var l := old(slot.current).value.logger;
      l.lines == old(l.lines) + (if l.level <= INFO then emitted else [])
    ensures HoldsFanout(old(slot.current)) ==>
      forall l :: l in old(slot.current).value.multi.loggers ==> l.lines == old(l.lines)
  {
    shown, emitted := [], [];
    var prepared := ReportRows(headers, entries, includeZero, sortIndex, floatToS);
    if prepared.Failure? {
      return Failure(prepared.error), shown, emitted;
    }
    var lines := Layout(headers, prepared.value, floatToS, floatFmt);
    var logged := LogLines(slot, lines);
    if logged.Failure? {
      return Failure(logged.error), shown, emitted;
    }
    shown, emitted := prepared.value, lines;
    r := Success(entries);
  }

  /**
   * `enable_profiler_logging_to_file(path, also_stdout: true)` followed by
   * `print_report` of rows it could print: the report raises NoMethodError
   * at its first `info`, and neither the file nor stdout receives a line.
   */
  method FileAndStdoutPrintReport(floatToS: real -> string, floatFmt: real -> string, entries: seq<Row>,
                                  headers: seq<string>, includeZero: bool, sortIndex: int)
    returns (r: Result<seq<Row>>, fileLines: seq<string>, stdoutLines: seq<string>)
    requires Printable(headers, entries, includeZero, sortIndex)
    ensures r == Failure(NoMethodError("info"))
    ensures fileLines == [] && stdoutLines == []
  {
    var slot := new LoggerSlot();
    slot.EnableToFile(INFO, true);
    var children := slot.current.value.multi.loggers;
    assert children[0] in children && children[1] in children;
    var shown, emitted;
    r, shown, emitted := PrintReport(slot, floatToS, floatFmt, entries, headers, includeZero, sortIndex);
    fileLines := children[0].lines;
    stdoutLines := children[1].lines;
  }

  /**
   * The rows `print_report` logs, in order: the filter, the sort and the
   * width computation, each of which can raise.
   */
  method ReportRows(headers: seq<string>, entries: seq<Row>, includeZero: bool, sortIndex: int, floatToS: real -> string)
    returns (r: Result<seq<Row>>)
    ensures r.Success? <==>
      && FilterRows(entries, includeZero).Success?
      && (|FilterRows(entries, includeZero).value| >= 2 ==> Comparable(FilterRows(entries, includeZero).value, sortIndex))
      && Rectangular(headers, FilterRows(entries, includeZero).value)
    ensures r.Success? ==> multiset(r.value) == multiset(FilterRows(entries, includeZero).value)
    ensures r.Success? ==> SortedOn(r.value, sortIndex) && Rectangular(headers, r.value)
    ensures FilterRows(entries, includeZero).Failure? ==> r == Failure(NoMethodError("to_f"))
    ensures var kept := FilterRows(entries, includeZero);
      kept.Success? && |kept.value| >= 2 && !Comparable(kept.value, sortIndex) ==> r.Failure? && r.error.ArgumentError?
    ensures var kept := FilterRows(entries, includeZero);
      kept.Success? && Comparable(kept.value, sortIndex) && !Rectangular(headers, kept.value) ==> r == Failure(IndexError)
  {
    var kept := FilterInPlace(entries, includeZero);
    if kept.Failure? {
      return Failure(kept.error);
    }
    var sorted := SortRows(kept.value, sortIndex);
    if sorted.Failure? {
      return Failure(sorted.error);
    }
    var rows := sorted.value;
    assert forall row :: row in rows <==> row in kept.value by {
      forall row
        ensures row in rows <==> row in kept.value
      {
        assert row in rows <==> row in multiset(rows);
      }
    }
    var widths := ColumnWidths(headers, rows, floatToS);
    if widths.Failure? {
      assert !Rectangular(headers, kept.value) by {
        var i :| 0 <= i < |rows| && |rows[i]| != |headers|;
        assert rows[i] in kept.value;
      }
      return Failure(widths.error);
    }
    assert Rectangular(headers, kept.value) by {
      forall i | 0 <= i < |kept.value|
        ensures |kept.value[i]| == |headers|
      {
        assert kept.value[i] in rows;
      }
    }
    r := Success(rows);
  }
}
