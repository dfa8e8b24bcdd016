/**
 * lib/class_profiler/performance.rb: for every tracked instance method, the
 * duration of its last call and the running total over all its calls, and
 * the report of both.
 */
module Performance {
  import opened Core
  import opened Hashes
  import opened Methods
  import opened Logging

  /**
   * An entry of `performance`: `{ time:, total: }` as the wrapper writes it,
   * or a plain Float some other code stored there.
   */
  datatype PerfValue = Timing(time: real, total: real) | Plain(value: real)

  /**
   * One call's update: `performance[name] ||= { total: 0 }`, then
   * `[:total] += duration` and `[:time] = duration`. A plain Float entry has
   * no `[]`, so the update raises NoMethodError.
   */
  function Accumulate(h: Hash<PerfValue>, name: string, duration: real): (r: Result<Hash<PerfValue>>)
    requires h.Valid()
    ensures r.Failure? <==> name in h.values && h.values[name].Plain?
    ensures r.Failure? ==> r.error == NoMethodError("[]")
    ensures r.Success? ==> r.value.Valid() && name in r.value.values && r.value.values[name].Timing?
    ensures r.Success? ==> r.value.values[name].time == duration
  {
    if name in h.values && h.values[name].Plain? then Failure(NoMethodError("[]"))
    else
      var before := if name in h.values then h.values[name].total else 0.0;
      Success(h.Put(name, Timing(duration, before + duration)))
  }

  /** The table after calls of `name` lasting `durations`, in order. */
  function Accumulated(h: Hash<PerfValue>, name: string, durations: seq<real>): (r: Result<Hash<PerfValue>>)
    requires h.Valid()
    ensures r.Success? ==> r.value.Valid()
  {
    if durations == [] then Success(h)
    else match Accumulated(h, name, durations[..|durations| - 1])
      case Failure(e) => Failure(e)
      case Success(h') => Accumulate(h', name, durations[|durations| - 1])
  }

  function Total(durations: seq<real>): real {
    if durations == [] then 0.0 else Total(durations[..|durations| - 1]) + durations[|durations| - 1]
  }

  /**
   * One call on a timed entry: `:time` becomes the duration, `:total` grows
   * by it, every other entry and the key order stay; a first call starts
   * the total at 0.
   */
  lemma AccumulateStep(h: Hash<PerfValue>, name: string, duration: real)
    requires h.Valid() && (name in h.values ==> h.values[name].Timing?)
    ensures Accumulate(h, name, duration).Success?
    ensures var h' := Accumulate(h, name, duration).value;
      && h'.values[name].time == duration
      && h'.values[name].total == (if name in h.values then h.values[name].total else 0.0) + duration
      && (forall k :: k in h.values && k != name ==> k in h'.values && h'.values[k] == h.values[k])
      && h'.keys[..|h.keys|] == h.keys
  {
  }

  /**
   * From no entry, after calls lasting d1 .. dn the entry is
   * `{ time: dn, total: d1 + ... + dn }`.
   */
  lemma {:induction false} TotalIsSum(h: Hash<PerfValue>, name: string, durations: seq<real>)
    requires h.Valid() && name !in h.values && durations != []
    ensures Accumulated(h, name, durations).Success?
    ensures Accumulated(h, name, durations).value.values[name] == Timing(durations[|durations| - 1], Total(durations))
  {
    var init := durations[..|durations| - 1];
    if init != [] {
      TotalIsSum(h, name, init);
    }
  }

  lemma {:induction false} TotalNonNegative(durations: seq<real>)
    requires forall i :: 0 <= i < |durations| ==> durations[i] >= 0.0
    ensures Total(durations) >= 0.0
  {
    if durations != [] {
      TotalNonNegative(durations[..|durations| - 1]);
    }
  }

  /**
   * With non-negative durations the total never decreases from one call to
   * the next and is never below the last call's time.
   */
  lemma TotalBounds(durations: seq<real>, d: real)
    requires forall i :: 0 <= i < |durations| ==> durations[i] >= 0.0
    requires d >= 0.0
    ensures Total(durations) <= Total(durations + [d])
    ensures Total(durations + [d]) >= d
  {
    TotalNonNegative(durations);
    assert (durations + [d])[..|durations|] == durations;
  }

  /** `performance` of an object. */
  class PerformanceStore {
    var performance: Hash<PerfValue>

    ghost predicate Valid()
      reads this
    {
      performance.Valid()
    }

    /** `@performance ||= {}` */
    constructor()
      ensures Valid() && performance == EmptyHash()
    {
      performance := EmptyHash();
    }

    /**
     * The performance wrapper around one call of `methodName`: the
     * original ran between `startTime` and `endTime` with outcome
     * `original`. A call that raised changes nothing; otherwise the entry
     * is updated and the original's value returned.
     */
    method Measure<V>(methodName: string, startTime: real, endTime: real, original: Result<V>) returns (r: Result<V>)
      requires Valid()
      modifies this
      ensures Valid()
      ensures original.Failure? ==> r == original && performance == old(performance)
      ensures original.Success? ==>
        match Accumulate(old(performance), methodName, endTime - startTime)
        case Success(h) => r == original && performance == h
        case Failure(e) => r == Failure(e) && performance == old(performance)
    {
      if original.Failure? {
        return original;
      }
      var duration := endTime - startTime;
      if methodName !in performance.values {
        performance := performance.Put(methodName, Timing(0.0, 0.0));
      }
      var entry := performance.values[methodName];
      if entry.Plain? {
        return Failure(NoMethodError("[]"));
      }
      performance := performance.Put(methodName, entry.(total := entry.total + duration));
      performance := performance.Put(methodName, performance.values[methodName].(time := duration));
      r := original;
    }
  }

  /**
   * `track_performance(inherited:, public:, protected:, private:)`: wraps
   * the union of the enabled selections with the performance wrapper.
   */
  method TrackPerformance(t: MethodTable, inherited: bool := false, includePublic: bool := true,
                          includeProtected: bool := true, includePrivate: bool := true)
    returns (names: seq<string>, r: Result<()>)
    modifies t
    ensures names == Uniq(EnabledSelections(t.listing, inherited, includePublic, includeProtected, includePrivate))
    ensures (t.impls, r) == WrapAll(InstanceScope, old(t.impls), names, "_", PerformanceWrapper)
    ensures old(t.Valid()) ==> r.Success? && t.Valid()
  {
    names := TrackedNames(t.listing, inherited, includePublic, includeProtected, includePrivate);
    if t.Valid() {
      WrapFreshNames(InstanceScope, t.impls, names, PerformanceWrapper);
    }
    r := WrapEach(t, InstanceScope, names, PerformanceWrapper);
  }

  /**
   * `performance_instance_methods(visibility:)`: selects the class's own
   * methods and passes them to `performance_methods`, which no module
   * defines, so it raises NoMethodError whatever was selected and wraps
   * nothing.
   */
  method PerformanceInstanceMethods(t: MethodTable, visibility: VisibilityArg := PublicArg)
    returns (names: seq<string>, r: Result<()>)
    ensures names == SelectInstanceMethods(t.listing, visibility, false)
    ensures r == Failure(NoMethodError("performance_methods"))
  {
    names := SelectInstanceMethods(t.listing, visibility, false);
    r := Failure(NoMethodError("performance_methods"));
  }

  /** The row of one entry: `[method, time, total]`, or `[method, v, v]` for a plain value. */
  function PerformanceRow(name: string, v: PerfValue): Row {
    match v
    case Timing(time, total) => [Sym(name), Flt(time), Flt(total)]
    case Plain(x) => [Sym(name), Flt(x), Flt(x)]
  }

  /** `performance.map { |method, values| ... }` */
  function PerformanceRows(h: Hash<PerfValue>): (rows: seq<Row>)
    requires h.Valid()
    ensures |rows| == |h.keys|
    ensures forall i :: 0 <= i < |rows| ==> rows[i] == PerformanceRow(h.keys[i], h.values[h.keys[i]])
  {
    seq(|h.keys|, i requires 0 <= i < |h.keys| => PerformanceRow(h.keys[i], h.values[h.keys[i]]))
  }

  const PerformanceHeaders: seq<string> := ["Method", "Time", "Total"]

  /** Every row is `[Symbol, Float, Float]`, so `print_report` can neither filter nor sort them into an error. */
  lemma PerformanceRowsPrint(h: Hash<PerfValue>, includeZero: bool, sortIndex: int)
    requires h.Valid()
    ensures FilterRows(PerformanceRows(h), includeZero).Success?
    ensures Rectangular(PerformanceHeaders, FilterRows(PerformanceRows(h), includeZero).value)
    ensures Comparable(FilterRows(PerformanceRows(h), includeZero).value, sortIndex)
  {
    var rows: seq<Row> := PerformanceRows(h);
    forall i | 0 <= i < |rows|
      ensures |rows[i]| == |PerformanceHeaders| && !rows[i][1].Sym?
      ensures rows[i][0].Sym? && rows[i][1].Flt? && rows[i][2].Flt?
    {
    }
    UniformRowsPrint(rows, PerformanceHeaders, includeZero, sortIndex);
  }

  /**
   * `performance_report(include_zero:, sort_index:)`: prints the table
   * through `print_report`, which only classes with the Logging mixin
   * have. With it, the rows never make the report raise (every row is
   * `[Symbol, Float, Float]`), but a fan-out logger does: it has no `info`.
   */
  method PerformanceReport(store: PerformanceStore, logging: Option<LoggerSlot>, floatToS: real -> string,
                           floatFmt: real -> string, includeZero: bool := false, sortIndex: int := 1)
    returns (r: Result<seq<Row>>, shown: seq<Row>, emitted: seq<string>)
    requires store.Valid()
    modifies if logging.Some? then Footprint(logging.value) else {}
    ensures logging.None? ==> r == Failure(NoMethodError("print_report")) && emitted == []
    ensures logging.Some? ==> (r.Success? <==> !HoldsFanout(old(logging.value.current)))
    ensures logging.Some? && HoldsFanout(old(logging.value.current)) ==>
      && r == Failure(NoMethodError("info")) && emitted == []
      && forall l :: l in old(logging.value.current).value.multi.loggers ==> l.lines == old(l.lines)
    ensures r.Success? ==> r.value == PerformanceRows(old(store.performance))
    ensures r.Success? ==>
      && multiset(shown) == multiset(FilterRows(PerformanceRows(old(store.performance)), includeZero).value)
      && SortedOn(shown, sortIndex)
      && Rectangular(PerformanceHeaders, shown)
      && emitted == Layout(PerformanceHeaders, shown, floatToS, floatFmt)
    ensures logging.Some? && r.Success? ==> logging.value.current.Some?
    ensures logging.Some? && r.Success? && old(logging.value.current).None? ==>
      var l := logging.value.current.value;
      l.Single? && l.logger.level == INFO && l.logger.lines == emitted
    ensures logging.Some? && old(logging.value.current).Some? && old(logging.value.current).value.Single? ==>
      var l := old(logging.value.current).value.logger;
      l.lines == old(l.lines) + (if l.level <= INFO then emitted else [])
  {
    var entries := PerformanceRows(store.performance);
    if logging.None? {
      return Failure(NoMethodError("print_report")), [], [];
    }
    PerformanceRowsPrint(store.performance, includeZero, sortIndex);
    assert Printable(PerformanceHeaders, entries, includeZero, sortIndex);
    r, shown, emitted := PrintReport(logging.value, floatToS, floatFmt, entries, PerformanceHeaders, includeZero, sortIndex);
  }
}
