/**
 * lib/class_profiler/benchmark.rb: records how long the last call of each
 * benchmarked method took, per object for instance methods and per class
 * for class methods, and formats those tables as reports.
 *
 * The two clock readings around a call and what the original
 * implementation did in between are parameters of the wrapper body.
 */
module Benchmark {
  import opened Core
  import opened Hashes
  import opened Methods
  import opened Logging

  /** One call through a benchmark wrapper: its clock readings and whether the original returned. */
  datatype TimedCall = TimedCall(name: string, startTime: real, endTime: real, returned: bool)

  /** The table after one call: `store[name] = end_time - start_time`, written only when the call returned. */
  function Recorded(h: Hash<real>, c: TimedCall): (h': Hash<real>)
    requires h.Valid()
    ensures h'.Valid()
    ensures c.returned ==> c.name in h'.values && h'.values[c.name] == c.endTime - c.startTime
    ensures forall k :: k in h.values && (k != c.name || !c.returned) ==> k in h'.values && h'.values[k] == h.values[k]
  {
    if c.returned then h.Put(c.name, c.endTime - c.startTime) else h
  }

  /** The table after a sequence of calls. */
  function AfterCalls(h: Hash<real>, calls: seq<TimedCall>): (h': Hash<real>)
    requires h.Valid()
    ensures h'.Valid()
  {
    if calls == [] then h else Recorded(AfterCalls(h, calls[..|calls| - 1]), calls[|calls| - 1])
  }

  /** Call i is the last call of `name` that returned. */
  predicate LastReturned(calls: seq<TimedCall>, name: string, i: int) {
    && 0 <= i < |calls| && calls[i].returned && calls[i].name == name
    && forall j :: i < j < |calls| && calls[j].returned ==> calls[j].name != name
  }

  /** A method has an entry exactly when it had one before or one of its calls returned. */
  lemma {:induction false} AfterCallsKeys(h: Hash<real>, calls: seq<TimedCall>, name: string)
    requires h.Valid()
    ensures name in AfterCalls(h, calls).values <==>
      name in h.values || exists i :: 0 <= i < |calls| && calls[i].returned && calls[i].name == name
  {
    if calls != [] {
      var init := calls[..|calls| - 1];
      AfterCallsKeys(h, init, name);
      assert forall i :: 0 <= i < |init| ==> init[i] == calls[i];
    }
  }

  /** Each call that returned overwrites the entry: the last one's duration is what remains. */
  lemma {:induction false} AfterCallsLast(h: Hash<real>, calls: seq<TimedCall>, name: string, i: int)
    requires h.Valid() && LastReturned(calls, name, i)
    ensures name in AfterCalls(h, calls).values
    ensures AfterCalls(h, calls).values[name] == calls[i].endTime - calls[i].startTime
  {
    var init := calls[..|calls| - 1];
    if i < |calls| - 1 {
      assert forall j :: 0 <= j < |init| ==> init[j] == calls[j];
      assert LastReturned(init, name, i);
      AfterCallsLast(h, init, name, i);
    }
  }

  /** Without a returning call of its own, an entry keeps its value. */
  lemma {:induction false} AfterCallsUntouched(h: Hash<real>, calls: seq<TimedCall>, name: string)
    requires h.Valid() && name in h.values
    requires forall i :: 0 <= i < |calls| && calls[i].returned ==> calls[i].name != name
    ensures name in AfterCalls(h, calls).values && AfterCalls(h, calls).values[name] == h.values[name]
  {
    if calls != [] {
      var init := calls[..|calls| - 1];
      assert forall j :: 0 <= j < |init| ==> init[j] == calls[j];
      AfterCallsUntouched(h, init, name);
    }
  }

  /** Keys already present keep their places: a Hash only appends new keys. */
  lemma {:induction false} AfterCallsKeepsOrder(h: Hash<real>, calls: seq<TimedCall>)
    requires h.Valid()
    ensures |h.keys| <= |AfterCalls(h, calls).keys| && AfterCalls(h, calls).keys[..|h.keys|] == h.keys
  {
    if calls != [] {
      var init := calls[..|calls| - 1];
      AfterCallsKeepsOrder(h, init);
      var before := AfterCalls(h, init);
      var last := calls[|calls| - 1];
      if last.returned && last.name !in before.values {
        assert (before.keys + [last.name])[..|h.keys|] == before.keys[..|h.keys|];
      }
    }
  }

  /** The tables start empty, so a method has an entry only once one of its calls returned. */
  lemma EntriesOnlyAfterCalls(calls: seq<TimedCall>, name: string)
    ensures name in AfterCalls(EmptyHash(), calls).values <==>
      exists i :: 0 <= i < |calls| && calls[i].returned && calls[i].name == name
  {
    AfterCallsKeys(EmptyHash(), calls, name);
  }

  /** `@benchmarked` of an object, or `@class_benchmarked` of a class: seconds of each method's last call. */
  class BenchmarkStore {
    var durations: Hash<real>

    ghost predicate Valid()
      reads this
    {
      durations.Valid()
    }

    /** `@benchmarked ||= {}` */
    constructor()
      ensures Valid() && durations == EmptyHash()
    {
      durations := EmptyHash();
    }

    /**
     * The benchmark wrapper around one call of `methodName`: the original
     * ran between the readings `startTime` and `endTime` with outcome
     * `original`. The wrapper returns that outcome and records the
     * duration only if the original returned.
     */
    method Measure<V>(methodName: string, startTime: real, endTime: real, original: Result<V>) returns (r: Result<V>)
      requires Valid()
      modifies this
      ensures Valid()
      ensures r == original
      ensures durations == Recorded(old(durations), TimedCall(methodName, startTime, endTime, original.Success?))
    {
      if original.Failure? {
        return original;
      }
      durations := durations.Put(methodName, endTime - startTime);
      r := original;
    }
  }

  /** `benchmark_methods(*method_names)`: wraps each name with the benchmark wrapper. */
  method BenchmarkMethods(t: MethodTable, methodNames: seq<string>) returns (r: Result<()>)
    modifies t
    ensures (t.impls, r) == WrapAll(InstanceScope, old(t.impls), methodNames, "_", BenchmarkWrapper)
    ensures old(t.Valid()) ==> t.Valid()
  {
    r := WrapEach(t, InstanceScope, methodNames, BenchmarkWrapper);
  }

  /** `benchmark_class_methods(*method_names)`: the same on the singleton class. */
  method BenchmarkClassMethods(singleton: MethodTable, methodNames: seq<string>) returns (r: Result<()>)
    modifies singleton
    ensures (singleton.impls, r) == WrapAll(SingletonScope, old(singleton.impls), methodNames, "_", BenchmarkWrapper)
    ensures old(singleton.Valid()) ==> singleton.Valid()
  {
    r := WrapEach(singleton, SingletonScope, methodNames, BenchmarkWrapper);
  }

  /** `benchmark_all_methods(visibility:)`: the selection with inherited methods. */
  method BenchmarkAllMethods(t: MethodTable, visibility: VisibilityArg := PublicArg) returns (r: Result<()>)
    modifies t
    ensures (t.impls, r) == WrapAll(InstanceScope, old(t.impls), SelectInstanceMethods(t.listing, visibility, true), "_", BenchmarkWrapper)
    ensures old(t.Valid()) ==> r.Success? && t.Valid()
  {
    var names := SelectInstanceMethods(t.listing, visibility, true);
    if t.Valid() {
      SelectionIsFresh(t.listing, t.impls, ReservedInstanceMethods, visibility, true);
      WrapFreshNames(InstanceScope, t.impls, names, BenchmarkWrapper);
    }
    r := BenchmarkMethods(t, names);
  }

  /**
   * `benchmark_instance_methods(visibility:)`: the selection without
   * inherited methods. A method the class only inherits keeps its
   * implementation, so its calls are not benchmarked.
   */
  method BenchmarkInstanceMethods(t: MethodTable, visibility: VisibilityArg := PublicArg) returns (r: Result<()>)
    modifies t
    ensures (t.impls, r) == WrapAll(InstanceScope, old(t.impls), SelectInstanceMethods(t.listing, visibility, false), "_", BenchmarkWrapper)
    ensures old(t.Valid()) ==> r.Success? && t.Valid()
    ensures old(t.Valid()) ==> forall e :: e in t.listing && !e.declaredHere && !StartsWith(e.name, "_") ==>
      e.name in t.impls && t.impls[e.name] == old(t.impls[e.name])
  {
    var names := SelectInstanceMethods(t.listing, visibility, false);
    if t.Valid() {
      SelectionIsFresh(t.listing, t.impls, ReservedInstanceMethods, visibility, false);
      WrapFreshNames(InstanceScope, t.impls, names, BenchmarkWrapper);
      forall e | e in t.listing && !e.declaredHere
        ensures e.name !in names
      {
        InheritedNotSelected(t.listing, ReservedInstanceMethods, visibility, e);
      }
    }
    r := BenchmarkMethods(t, names);
  }

  /** `benchmark_own_class_methods(visibility:)`: class methods the class declares itself. */
  method BenchmarkOwnClassMethods(singleton: MethodTable, visibility: VisibilityArg := PublicArg) returns (r: Result<()>)
    modifies singleton
    ensures (singleton.impls, r) == WrapAll(SingletonScope, old(singleton.impls), SelectClassMethods(singleton.listing, visibility, false), "_", BenchmarkWrapper)
    ensures old(singleton.Valid()) ==> r.Success? && singleton.Valid()
  {
    var names := SelectClassMethods(singleton.listing, visibility, false);
    if singleton.Valid() {
      SelectionIsFresh(singleton.listing, singleton.impls, ReservedSingletonMethods, visibility, false);
      WrapFreshNames(SingletonScope, singleton.impls, names, BenchmarkWrapper);
    }
    r := BenchmarkClassMethods(singleton, names);
  }

  /** `benchmark_all_class_methods(visibility:)`: class methods including inherited ones. */
  method BenchmarkAllClassMethods(singleton: MethodTable, visibility: VisibilityArg := PublicArg) returns (r: Result<()>)
    modifies singleton
    ensures (singleton.impls, r) == WrapAll(SingletonScope, old(singleton.impls), SelectClassMethods(singleton.listing, visibility, true), "_", BenchmarkWrapper)
    ensures old(singleton.Valid()) ==> r.Success? && singleton.Valid()
  {
    var names := SelectClassMethods(singleton.listing, visibility, true);
    if singleton.Valid() {
      SelectionIsFresh(singleton.listing, singleton.impls, ReservedSingletonMethods, visibility, true);
      WrapFreshNames(SingletonScope, singleton.impls, names, BenchmarkWrapper);
    }
    r := BenchmarkClassMethods(singleton, names);
  }

  /** With one entry per name, a method the class only inherits is never selected without inherited methods. */
  lemma InheritedNotSelected(listing: seq<MethodEntry>, reserved: set<string>, visibility: VisibilityArg, e: MethodEntry)
    requires UniqueNames(listing) && e in listing && !e.declaredHere
    ensures e.name !in SelectFrom(listing, reserved, visibility, false)
  {
    SelectionMembership(listing, reserved, visibility, false, e.name);
    forall e' | e' in listing && e'.name == e.name
      ensures !e'.declaredHere
    {
      var i :| 0 <= i < |listing| && listing[i] == e;
      var j :| 0 <= j < |listing| && listing[j] == e';
      assert i == j;
    }
  }

  // ---------------------------------------------------------------------
  // Reports
  // ---------------------------------------------------------------------

  /** `"  #{method}: #{format('%.6f', seconds)}s"` */
  function EntryLine(name: string, seconds: real, floatFmt: real -> string): string {
    "  " + name + ": " + floatFmt(seconds) + "s"
  }

  /** The report lists an entry unless it is not positive and `include_zero` is off. */
  predicate Listed(seconds: real, includeZero: bool) {
    includeZero || seconds > 0.0
  }

  /** The entry lines of a report, in the table's order. */
  function EntryLines(entries: seq<(string, real)>, includeZero: bool, floatFmt: real -> string): (lines: seq<string>)
    ensures |lines| <= |entries|
    ensures forall line :: line in lines <==>
      exists i :: 0 <= i < |entries| && Listed(entries[i].1, includeZero) && line == EntryLine(entries[i].0, entries[i].1, floatFmt)
    ensures includeZero ==> |lines| == |entries| && forall i :: 0 <= i < |entries| ==> lines[i] == EntryLine(entries[i].0, entries[i].1, floatFmt)
  {
    if entries == [] then []
    else
      var init := entries[..|entries| - 1];
      var last := entries[|entries| - 1];
      var lines := EntryLines(init, includeZero, floatFmt);
      assert forall i :: 0 <= i < |init| ==> init[i] == entries[i];
      if Listed(last.1, includeZero) then lines + [EntryLine(last.0, last.1, floatFmt)] else lines
  }

  /**
   * The report text over a table: the header, then one line per listed
   * entry, joined by newlines. The text is logged through the class's
   * `profiler_logger` when the class has one. A class without the Logging
   * mixin raises NameError there, and a fan-out logger NoMethodError (it
   * has no `info`); the report rescues either, warns, and logs nothing.
   * The text is returned either way.
   */
  method Report(header: string, h: Hash<real>, logging: Option<LoggerSlot>, floatFmt: real -> string, includeZero: bool)
    returns (text: string, warning: Option<Error>)
    requires h.Valid()
    modifies if logging.Some? then Footprint(logging.value) else {}
    ensures text == Join([header] + EntryLines(h.Entries(), includeZero, floatFmt), "\n")
    ensures logging.None? ==> warning == Some(NameError("profiler_logger"))
    ensures logging.Some? ==> (warning.Some? <==> HoldsFanout(old(logging.value.current)))
    ensures logging.Some? && HoldsFanout(old(logging.value.current)) ==>
      && warning == Some(NoMethodError("info"))
      && forall l :: l in old(logging.value.current).value.multi.loggers ==> l.lines == old(l.lines)
    ensures logging.Some? ==> logging.value.current.Some?
    ensures logging.Some? && old(logging.value.current).None? ==>
      var l := logging.value.current.value;
      l.Single? && fresh(l.logger) && l.logger.level == INFO && l.logger.lines == [text]
    ensures logging.Some? && old(logging.value.current).Some? && old(logging.value.current).value.Single? ==>
      var l := old(logging.value.current).value.logger;
      l.lines == old(l.lines) + Admitted(l.level, text)
  {
    var entries := h.Entries();
    var lines := [header];
    var i := 0;
    while i < |entries|
      invariant 0 <= i <= |entries|
      invariant lines == [header] + EntryLines(entries[..i], includeZero, floatFmt)
    {
      assert entries[..i + 1][..i] == entries[..i];
      var (name, seconds) := entries[i];
      if includeZero || seconds > 0.0 {
        lines := lines + [EntryLine(name, seconds, floatFmt)];
      }
      i := i + 1;
    }
    assert entries[..i] == entries;
    text := Join(lines, "\n");
    if logging.None? {
      warning := Some(NameError("profiler_logger"));
    } else {
      var logged := LogLines(logging.value, [text]);
      warning := if logged.Failure? then Some(logged.error) else None;
    }
  }

  /** `benchmark_report(include_zero:)` over an object's table. */
  method BenchmarkReport(store: BenchmarkStore, className: string, logging: Option<LoggerSlot>,
                         floatFmt: real -> string, includeZero: bool := false)
    returns (text: string, warning: Option<Error>)
    requires store.Valid()
    modifies if logging.Some? then Footprint(logging.value) else {}
    ensures text == Join(["Benchmark results (" + className + " instance):"]
                         + EntryLines(store.durations.Entries(), includeZero, floatFmt), "\n")
    ensures logging.None? ==> warning == Some(NameError("profiler_logger"))
    ensures logging.Some? ==> (warning.Some? <==> HoldsFanout(old(logging.value.current)))
    ensures logging.Some? && HoldsFanout(old(logging.value.current)) ==>
      && warning == Some(NoMethodError("info"))
      && forall l :: l in old(logging.value.current).value.multi.loggers ==> l.lines == old(l.lines)
    ensures logging.Some? ==> logging.value.current.Some?
    ensures logging.Some? && old(logging.value.current).None? ==>
      var l := logging.value.current.value;
      l.Single? && fresh(l.logger) && l.logger.level == INFO && l.logger.lines == [text]
    ensures logging.Some? && old(logging.value.current).Some? && old(logging.value.current).value.Single? ==>
      var l := old(logging.value.current).value.logger;
      l.lines == old(l.lines) + Admitted(l.level, text)
  {
    text, warning := Report("Benchmark results (" + className + " instance):", store.durations, logging, floatFmt, includeZero);
  }

  /** `benchmark_class_report(include_zero:)` over a class's table. */
  method BenchmarkClassReport(store: BenchmarkStore, className: string, logging: Option<LoggerSlot>,
                              floatFmt: real -> string, includeZero: bool := false)
    returns (text: string, warning: Option<Error>)
    requires store.Valid()
    modifies if logging.Some? then Footprint(logging.value) else {}
    ensures text == Join(["Benchmark results (" + className + " class methods):"]
                         + EntryLines(store.durations.Entries(), includeZero, floatFmt), "\n")
    ensures logging.None? ==> warning == Some(NameError("profiler_logger"))
    ensures logging.Some? ==> (warning.Some? <==> HoldsFanout(old(logging.value.current)))
    ensures logging.Some? && HoldsFanout(old(logging.value.current)) ==>
      && warning == Some(NoMethodError("info"))
      && forall l :: l in old(logging.value.current).value.multi.loggers ==> l.lines == old(l.lines)
    ensures logging.Some? ==> logging.value.current.Some?
    ensures logging.Some? && old(logging.value.current).None? ==>
      var l := logging.value.current.value;
      l.Single? && fresh(l.logger) && l.logger.level == INFO && l.logger.lines == [text]
    ensures logging.Some? && old(logging.value.current).Some? && old(logging.value.current).value.Single? ==>
      var l := old(logging.value.current).value.logger;
      l.lines == old(l.lines) + Admitted(l.level, text)
  {
    text, warning := Report("Benchmark results (" + className + " class methods):", store.durations, logging, floatFmt, includeZero);
  }

  /**
   * `enable_profiler_logging_to_file(path, also_stdout: true)` followed by
   * `benchmark_report`: the report still returns its text, but warns about
   * the fan-out's missing `info`, and neither the file nor stdout receives
   * the text.
   */
  method FileAndStdoutBenchmarkReport(store: BenchmarkStore, className: string, floatFmt: real -> string, includeZero: bool)
    returns (text: string, warning: Option<Error>, fileLines: seq<string>, stdoutLines: seq<string>)
    requires store.Valid()
    ensures text == Join(["Benchmark results (" + className + " instance):"]
                         + EntryLines(store.durations.Entries(), includeZero, floatFmt), "\n")
    ensures warning == Some(NoMethodError("info"))
    ensures fileLines == [] && stdoutLines == []
  {
    var slot := new LoggerSlot();
    slot.EnableToFile(INFO, true);
    var children := slot.current.value.multi.loggers;
    assert children[0] in children && children[1] in children;
    text, warning := BenchmarkReport(store, className, Some(slot), floatFmt, includeZero);
    fileLines := children[0].lines;
    stdoutLines := children[1].lines;
  }
}
