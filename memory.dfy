/**
 * lib/class_profiler/memory.rb: for every tracked instance method, the
 * allocation counters' growth during its last call, and the report of it.
 */
module Memory {
  import opened Core
  import opened Hashes
  import opened Methods
  import opened Logging

  /**
   * The two readings of `GC.stat` the wrapper takes. The object counter is
   * always there; the malloc counter may be missing, and then reads as 0.
   */
  datatype GCStat = GCStat(totalAllocatedObjects: int, mallocIncreaseBytes: Option<int>) {
    function MallocBytes(): (b: int)
      ensures mallocIncreaseBytes.None? ==> b == 0
      ensures mallocIncreaseBytes.Some? ==> b == mallocIncreaseBytes.value
    {
      match mallocIncreaseBytes
      case None => 0
      case Some(b) => b
    }
  }

  /** An entry of `memory`: `{ allocated_objects:, malloc_increase_bytes: }`. */
  datatype Allocation = Allocation(allocatedObjects: int, mallocIncreaseBytes: int)

  /** The entry a call records from the readings taken before and after it. */
  function Delta(before: GCStat, after: GCStat): (a: Allocation)
    ensures before.totalAllocatedObjects <= after.totalAllocatedObjects ==> a.allocatedObjects >= 0
    ensures before.mallocIncreaseBytes.None? && after.mallocIncreaseBytes.None? ==> a.mallocIncreaseBytes == 0
    ensures a.allocatedObjects + before.totalAllocatedObjects == after.totalAllocatedObjects
    ensures a.mallocIncreaseBytes + before.MallocBytes() == after.MallocBytes()
  {
    Allocation(after.totalAllocatedObjects - before.totalAllocatedObjects, after.MallocBytes() - before.MallocBytes())
  }

  /**
   * The byte delta has no sign: the malloc counter may drop across a call
   * (a collection resets it), and then the recorded bytes are negative.
   */
  lemma BytesMayBeNegative()
    ensures Delta(GCStat(10, Some(500)), GCStat(12, Some(100))).mallocIncreaseBytes < 0
    ensures Delta(GCStat(10, Some(500)), GCStat(12, Some(100))).allocatedObjects == 2
  {
  }

  /** The table after calls of `name` whose readings were `readings`, in order. */
  function Recorded(h: Hash<Allocation>, name: string, readings: seq<(GCStat, GCStat)>): (r: Hash<Allocation>)
    requires h.Valid()
    ensures r.Valid()
    ensures forall k :: k in h.values ==> k in r.values
    ensures readings != [] ==> name in r.values
  {
    if readings == [] then h
    else
      var last := readings[|readings| - 1];
      Recorded(h, name, readings[..|readings| - 1]).Put(name, Delta(last.0, last.1))
  }

  /**
   * Each call replaces the entry, nothing accumulates: after any non-empty
   * series of calls the entry is the last call's delta, and the other
   * entries are those before the calls.
   */
  lemma {:induction false} LastCallWins(h: Hash<Allocation>, name: string, readings: seq<(GCStat, GCStat)>)
    requires h.Valid() && readings != []
    ensures var r := Recorded(h, name, readings);
      && name in r.values
      && r.values[name] == Delta(readings[|readings| - 1].0, readings[|readings| - 1].1)
      && (forall k :: k != name ==> (k in r.values <==> k in h.values))
      && (forall k :: k in h.values && k != name ==> r.values[k] == h.values[k])
  {
    var init := readings[..|readings| - 1];
    if init != [] {
      LastCallWins(h, name, init);
    }
  }

  /** `memory` of an object. */
  class MemoryStore {
    var memory: Hash<Allocation>

    ghost predicate Valid()
      reads this
    {
      memory.Valid()
    }

    /** `@memory ||= {}` */
    constructor()
      ensures Valid() && memory == EmptyHash()
    {
      memory := EmptyHash();
    }

    /**
     * The memory wrapper around one call of `methodName`: `before` and
     * `after` are the counter readings around the original, whose outcome
     * is `original`. A call that raised records nothing; otherwise the
     * entry is replaced and the original's value returned.
     */
    method Measure<V>(methodName: string, before: GCStat, after: GCStat, original: Result<V>) returns (r: Result<V>)
      requires Valid()
      modifies this
      ensures Valid() && r == original
      ensures original.Failure? ==> memory == old(memory)
      ensures original.Success? ==> memory == old(memory).Put(methodName, Delta(before, after))
    {
      r := original;
      if original.Failure? {
        return;
      }
      var beforeObjects := before.totalAllocatedObjects;
      var beforeBytes := before.MallocBytes();
      var afterObjects := after.totalAllocatedObjects;
      var afterBytes := after.MallocBytes();
      memory := memory.Put(methodName, Allocation(afterObjects - beforeObjects, afterBytes - beforeBytes));
    }
  }

  /**
   * `track_memory(inherited:, public:, protected:, private:)`: wraps the
   * union of the enabled selections with the memory wrapper.
   */
  method TrackMemory(t: MethodTable, inherited: bool := false, includePublic: bool := true,
                     includeProtected: bool := true, includePrivate: bool := true)
    returns (names: seq<string>, r: Result<()>)
    modifies t
    ensures names == Uniq(EnabledSelections(t.listing, inherited, includePublic, includeProtected, includePrivate))
    ensures (t.impls, r) == WrapAll(InstanceScope, old(t.impls), names, "_", MemoryWrapper)
    ensures old(t.Valid()) ==> r.Success? && t.Valid()
  {
    names := TrackedNames(t.listing, inherited, includePublic, includeProtected, includePrivate);
    if t.Valid() {
      WrapFreshNames(InstanceScope, t.impls, names, MemoryWrapper);
    }
    r := WrapEach(t, InstanceScope, names, MemoryWrapper);
  }

  /** `[method] + values.values` */
  function MemoryRows(h: Hash<Allocation>): (rows: seq<Row>)
    requires h.Valid()
    ensures |rows| == |h.keys|
    ensures forall i :: 0 <= i < |rows| ==>
      rows[i] == [Sym(h.keys[i]), Int(h.values[h.keys[i]].allocatedObjects), Int(h.values[h.keys[i]].mallocIncreaseBytes)]
  {
    seq(|h.keys|, i requires 0 <= i < |h.keys| =>
      [Sym(h.keys[i]), Int(h.values[h.keys[i]].allocatedObjects), Int(h.values[h.keys[i]].mallocIncreaseBytes)])
  }

  const MemoryHeaders: seq<string> := ["Method", "Objects", "Bytes"]

  /** Every row is `[Symbol, Integer, Integer]`, so `print_report` can neither filter nor sort them into an error. */
  lemma MemoryRowsPrint(h: Hash<Allocation>, includeZero: bool, sortIndex: int)
    requires h.Valid()
    ensures FilterRows(MemoryRows(h), includeZero).Success?
    ensures Rectangular(MemoryHeaders, FilterRows(MemoryRows(h), includeZero).value)
    ensures Comparable(FilterRows(MemoryRows(h), includeZero).value, sortIndex)
  {
    var rows: seq<Row> := MemoryRows(h);
    forall i | 0 <= i < |rows|
      ensures |rows[i]| == |MemoryHeaders| && !rows[i][1].Sym?
      ensures rows[i][0].Sym? && rows[i][1].Int? && rows[i][2].Int?
    {
    }
    UniformRowsPrint(rows, MemoryHeaders, includeZero, sortIndex);
  }

  /**
   * `memory_report(include_zero:, sort_index:)`: prints the table through
   * `print_report`, which the Memory mixin brings in with Logging. The
   * rows never make it raise (every row is `[Symbol, Integer, Integer]`),
   * but a fan-out logger does: it has no `info`.
   */
  method MemoryReport(store: MemoryStore, slot: LoggerSlot, floatToS: real -> string, floatFmt: real -> string,
                      includeZero: bool := true, sortIndex: int := 0)
    returns (r: Result<seq<Row>>, shown: seq<Row>, emitted: seq<string>)
    requires store.Valid()
    modifies Footprint(slot)
    ensures r.Success? <==> !HoldsFanout(old(slot.current))
    ensures HoldsFanout(old(slot.current)) ==>
      && r == Failure(NoMethodError("info")) && emitted == []
      && forall l :: l in old(slot.current).value.multi.loggers ==> l.lines == old(l.lines)
    ensures r.Success? ==> r.value == MemoryRows(old(store.memory))
    ensures r.Success? ==>
      && multiset(shown) == multiset(FilterRows(MemoryRows(old(store.memory)), includeZero).value)
      && SortedOn(shown, sortIndex)
      && Rectangular(MemoryHeaders, shown)
      && emitted == Layout(MemoryHeaders, shown, floatToS, floatFmt)
    ensures r.Success? ==> slot.current.Some?
    ensures r.Success? && old(slot.current).None? ==>
      var l := slot.current.value;
      l.Single? && l.logger.level == INFO && l.logger.lines == emitted
    ensures old(slot.current).Some? && old(slot.current).value.Single? ==>
      var l := old(slot.current).value.logger;
      l.lines == old(l.lines) + (if l.level <= INFO then emitted else [])
  {
    var entries := MemoryRows(store.memory);
    MemoryRowsPrint(store.memory, includeZero, sortIndex);
    assert Printable(MemoryHeaders, entries, includeZero, sortIndex);
    r, shown, emitted := PrintReport(slot, floatToS, floatFmt, entries, MemoryHeaders, includeZero, sortIndex);
  }
}
