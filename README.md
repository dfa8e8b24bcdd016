# class-profiler, modelled in Dafny

class-profiler is a Ruby library that instruments a class's methods.
Mixing one of its collectors into a class lets the class wrap selected
methods. Each call then records a metric on the object: `benchmarked`
holds the duration of the last call, `performance` the last duration and a
running total, and `memory` the growth of the allocation counters during
the last call. Each collector also prints a report of what it recorded.

This project models the library's core in Dafny and proves what that core
promises:

- which methods the selectors pick (`select_instance_methods`, `select_class_methods`);
- how `wrap_method` and `wrap_class_method` rewrite a class's method table, and what a call through a wrapped method returns and records;
- how each collector updates its store, and which names `track_performance` and `track_memory` wrap;
- the reports: the benchmark text report and the tabular `print_report` (filter, sort, column widths, padding);
- the logger plumbing: `profiler_logger`, its memo, `MultiLogger` and the `enable_profiler_logging_*` helpers;
- the two example classes (primes, two-sum), whose algorithms are proved against a specification.

One module per source file:

- `Core` holds Ruby built-ins the core relies on, such as `Array#uniq`, `Array#|`, `String#ljust`, `Array#join`, `Integer#to_s` and string comparison.
- `Hashes` is an insertion-ordered Ruby Hash.
- `Methods`, `Benchmark`, `Performance`, `Memory` and `Logging` follow `lib/class_profiler/`.
- `Primes` and `TwoSum` follow `examples/primes.rb` and `examples/two_sum.rb`.

State that Ruby updates in place becomes classes:

- `Methods.MethodTable` is a class or singleton class: its listing, and the method table that wrapping rewrites.
- `BenchmarkStore`, `PerformanceStore` and `MemoryStore` hold `@benchmarked`/`@class_benchmarked`, `@performance` and `@memory`.
- `Logging.LoggerSlot` is `@profiler_logger`.
- `Logging.Logger` and `Logging.MultiLogger` are the loggers.

Reflection is modelled as data:

- A class's methods are a listing of `MethodEntry(name, visibility, owner, declaredHere)`.
- Its method table is a map from name to `Impl`. An `Impl` is an original implementation, an instance shim that captured the implementation it wraps, or a singleton shim that `send`s to an alias by name.
- `Methods.Call` interprets a call. A depth bound stands for Ruby's stack limit.

The clock readings, `GC.stat` readings and the original method's outcome
are parameters of each wrapper. `Float#to_s` and `format('%.6f', …)` are
function parameters of the reports.

Where the code and its documentation disagree, the model follows the code:

- `sieve_of_eratosthenes` with a limit below -1 raises ArgumentError (`Array.new` with a negative size). It does not return an empty list.
- `print_report` sorts Integer cells by their decimal text, so 10 comes before 9 (`Logging.IntegersSortAsText`). This holds even for the `Objects` and `Bytes` columns of `memory_report`.
- The Performance mixin does not include Logging, so `performance_report` raises NoMethodError (`print_report`) unless the class also includes Logging.
- The Benchmark mixin alone has no `profiler_logger`. The bare call `profiler_logger&.info(text)` then raises NameError; the benchmark reports rescue it, warn, and still return the text.
- `MultiLogger` has no `info` (see Findings). With the fan-out that `enable_profiler_logging_to_file(path, also_stdout: true)` installs, `print_report`, `performance_report` and `memory_report` raise NoMethodError after building their rows, and the benchmark reports warn and log nothing. The reports in this model follow that code; the forwarding fan-out is modelled separately, as the corrected behaviour.
- `include ClassProfiler` brings in Benchmark, Memory and Logging only (lib/class_profiler.rb:14-18), and nothing requires `performance.rb`. So the bare `track_performance` in the class bodies of examples/primes.rb:57 and examples/two_sum.rb:41 raises NameError while the class is defined, and the `track_memory` after it never runs. The model describes what `track_performance` and `track_memory` do in a class that has them.
- The default `profiler_logger` logs at INFO (logging.rb:70), while the test at spec/logging_spec.rb:12 expects WARN. The model follows the code.
- `performance_instance_methods` calls `performance_methods`, which no module defines, so it always raises NoMethodError.
- `wrap_class_method` is not idempotent. Wrapping the same class method twice with the same prefix, or once with an empty prefix, makes every call end in SystemStackError.
- `wrap_method` never forwards the caller's block to the original method; `wrap_class_method` does.

## Model

| member | source | states |
|---|---|---|
| Core.Uniq | lib/class_profiler/methods.rb:50 | `uniq` keeps exactly the members of its input, without duplicates, and never grows |
| Core.ArrayUnion | lib/class_profiler/performance.rb:51-53 | the array union of `a` and `b` contains exactly the members of `a` and `b`, without duplicates |
| Core.UniqOfUniqPrefix | lib/class_profiler/performance.rb:50-53 | a chain of array unions into `names` equals one `uniq` of the concatenation |
| Core.LJust | lib/class_profiler/logging.rb:36 | `ljust` keeps the text as a prefix, pads with spaces up to the width and never truncates |
| Core.JoinLength | lib/class_profiler/logging.rb:37 | a joined line is as long as its parts plus one separator between each pair of neighbours |
| Core.StrLeTotal | lib/class_profiler/logging.rb:23 | any two string sort keys compare one way or the other |
| Core.StrLeTransitive | lib/class_profiler/logging.rb:23 | string key order is transitive |
| Hashes.Hash.Put | lib/class_profiler/benchmark.rb:100 | `h[k] = v` maps k to v; an existing key keeps its place, a new key goes last; the Hash stays well formed |
| Hashes.Hash.Entries | lib/class_profiler/benchmark.rb:52 | `each` yields the pairs in insertion order |
| Hashes.EmptyHash | lib/class_profiler/benchmark.rb:44 | a store starts with no keys |
| Methods.HelperOwners | lib/class_profiler/methods.rb:14-17 | an owner named `ClassProfiler::…` is a helper; no owner, `ClassProfiler` and `Object` are not |
| Methods.NamesWith | lib/class_profiler/methods.rb:47-49 | the reflection listing of one visibility holds a name exactly when a listed method has it, that visibility, and is declared on the class unless inherited methods are asked for; with unique listing names it has no duplicates |
| Methods.RejectExcluded | lib/class_profiler/methods.rb:54 | the rejection keeps exactly the names that are not reserved, do not start with `_` and are not owned by a helper module |
| Methods.AllCandidatesMembership | lib/class_profiler/methods.rb:50 | under `:all` a name is a candidate exactly when it is listed with any visibility |
| Methods.CandidatesMembership | lib/class_profiler/methods.rb:46-52 | a name is a candidate exactly when it is listed with a visibility the argument selects |
| Methods.SelectionMembership | lib/class_profiler/methods.rb:44-55 | a name is selected exactly when it is listed with a selected visibility (declared here unless inherited) and no rejection rule applies; the same rules govern `select_class_methods` (lines 61-74) |
| Methods.SelectFrom | lib/class_profiler/methods.rb:44-55 | a selection holds only listed names, none reserved and none starting with `_` |
| Methods.SelectInstanceMethods | lib/class_profiler/methods.rb:44-55 | `select_instance_methods` never selects a name of the reserved instance list or one starting with `_` |
| Methods.SelectClassMethods | lib/class_profiler/methods.rb:61-74 | `select_class_methods` never selects a name of the reserved singleton list or one starting with `_` |
| Methods.AllIsUnion | lib/class_profiler/methods.rb:50 | `:all` selects exactly the union of the `:public`, `:protected` and `:private` selections, without duplicates |
| Methods.UnknownVisibilityIsPublic | lib/class_profiler/methods.rb:51 | an unrecognised visibility selects the same names as `:public` |
| Methods.NonInheritedSelectsOwnMethods | lib/class_profiler/methods.rb:45-49 | without inherited methods only methods declared on the class are selected, and each is also selected with them |
| Methods.PublicExcludesOthers | lib/class_profiler/methods.rb:47 | `:public` never selects a protected or private method |
| Methods.SelectionDistinct | lib/class_profiler/methods.rb:44-55 | a selection has no duplicates |
| Methods.SelectionIsFresh | lib/class_profiler/methods.rb:54 | a selection names distinct, defined methods, none starting with `_` |
| Methods.Call | lib/class_profiler/methods.rb:84-88 | an original records nothing; a shim whose call returned records itself last, after everything it wrapped (the class shim likewise, lines 96-102) |
| Methods.Dispatch | lib/class_profiler/methods.rb:98 | calling an undefined name raises NoMethodError and records nothing; a defined name runs its implementation |
| Methods.NoRecordOnFailure | lib/class_profiler/benchmark.rb:96-102 | a call that raises records no metric, at any depth of wrapping |
| Methods.CapturedCall | lib/class_profiler/methods.rb:84-88 | an instance-wrapped method returns what its original returns without a block, and on success each layer records once, innermost first |
| Methods.Wrap | lib/class_profiler/methods.rb:81-103 | aliasing an undefined name raises NameError and changes nothing; otherwise the alias holds the old implementation, the name holds the shim, and no other entry changes |
| Methods.InstanceWrapPassesThrough | lib/class_profiler/methods.rb:81-89 | after `wrap_method` a call returns what the unwrapped method returned without a block, and adds one record of the new wrapper |
| Methods.ClassWrapPassesThrough | lib/class_profiler/methods.rb:92-103 | after `wrap_class_method` a call returns what the original returns with the same block, and records once on success |
| Methods.SelfAliasOverflows | lib/class_profiler/methods.rb:98 | a class shim whose alias is itself ends in SystemStackError at every depth |
| Methods.ClassRewrapOverflows | lib/class_profiler/methods.rb:92-103 | wrapping a class method twice with the same prefix makes every call end in SystemStackError |
| Methods.ClassWrapEmptyPrefixOverflows | lib/class_profiler/methods.rb:94-98 | `wrap_class_method` with prefix `""` makes every call end in SystemStackError |
| Methods.InstanceRewrapComposes | lib/class_profiler/methods.rb:81-89 | wrapping an instance method twice nests the shims; calls still return the original's result and record both wrappers, inner first |
| Methods.WrapAll | lib/class_profiler/benchmark.rb:94-104 | wrapping a list never removes a method; when it succeeds every listed name is defined; a failure is the NameError of one of the listed names |
| Methods.WrapAllFresh | lib/class_profiler/benchmark.rb:95-103 | wrapping distinct defined names whose aliases are not among them succeeds: every alias holds the old implementation, every name its shim, every other entry is unchanged |
| Methods.UnderscoreAliasesAreFresh | lib/class_profiler/methods.rb:81-82 | the `_` alias of a name that does not start with `_` is never itself one of those names |
| Methods.WrapMethod | lib/class_profiler/methods.rb:81-89 | the method table after `wrap_method` is `Wrap` of the old one (NameError leaves it unchanged); listed methods stay defined |
| Methods.WrapClassMethod | lib/class_profiler/methods.rb:92-103 | the same for `wrap_class_method`, with the send-by-name shim |
| Methods.WrapEach | lib/class_profiler/benchmark.rb:94-104 | the wrapping loop leaves the table and outcome of `WrapAll`: wraps in order, stops at the first undefined name, keeps earlier wraps |
| Methods.WrapFreshNames | lib/class_profiler/benchmark.rb:94-104 | wrapping distinct defined names that do not start with `_` never fails, and leaves every other name that does not start with `_` unchanged |
| Methods.TrackedNames | lib/class_profiler/performance.rb:50-53 | the chain of array unions into `names` yields the enabled public, protected and private selections in that order without duplicates; a name is in it exactly when an enabled selection has it |
| Logging.Logger.Info | lib/class_profiler/logging.rb:39 | `info` writes the message exactly when the logger's level is at most INFO |
| Logging.Compact | lib/class_profiler/logging.rb:50 | `compact` keeps exactly the non-nil loggers and never grows |
| Logging.MinLevel | lib/class_profiler/logging.rb:62 | the least level is at most every child's level and is one of them |
| Logging.MultiLogger.constructor | lib/class_profiler/logging.rb:49-51 | a fan-out keeps the non-nil loggers it is given |
| Logging.MultiLogger.Level | lib/class_profiler/logging.rb:61-63 | a fan-out's level is the least child level, or INFO with no child |
| Logging.MultiLogger.SetLevel | lib/class_profiler/logging.rb:57-59 | `level=` sets every child's level and logs nothing; afterwards `level` reads it back |
| Logging.MultiLogger.Info | lib/class_profiler/logging.rb:53-55 | the corrected fan-out `info`: every child logs the message as its own level allows |
| Logging.InfoAsWritten | lib/class_profiler/logging.rb:39 | as written, `info` on a fan-out raises NoMethodError and logs nothing; on a plain logger it logs |
| Logging.Info | lib/class_profiler/logging.rb:39 | with the corrected fan-out, `info` reaches the plain logger or every child of the fan-out |
| Logging.FileAndStdoutInfoAsWritten | lib/class_profiler/logging.rb:86-97 | after enabling file logging with `also_stdout: true`, a report's `info` raises NoMethodError |
| Logging.FileAndStdoutInfo | lib/class_profiler/logging.rb:86-97 | with the corrected fan-out the same sequence writes the message to both the file and stdout loggers |
| Logging.LoggerSlot.ProfilerLogger | lib/class_profiler/logging.rb:66-73 | the first read creates and stores a fresh INFO logger; later reads return the stored one |
| Logging.LoggerSlot.SetProfilerLogger | lib/class_profiler/logging.rb:75-77 | the setter replaces the stored logger; nil makes the next read create a default |
| Logging.LoggerSlot.EnableToStdout | lib/class_profiler/logging.rb:80-83 | stores a fresh logger at the given level |
| Logging.LoggerSlot.EnableToFile | lib/class_profiler/logging.rb:86-97 | stores a fresh file logger at the level, or a fan-out of two distinct fresh loggers at that level when `also_stdout` |
| Logging.InstanceProfilerLogger | lib/class_profiler/logging.rb:11-13 | an instance reads and memoises through its class's slot |
| Logging.FilterRows | lib/class_profiler/logging.rb:17 | without `include_zero`, a row whose second cell is a Symbol raises NoMethodError (`to_f`); otherwise the kept rows are exactly the rows with a positive second value, or all rows with `include_zero` |
| Logging.FilterInPlace | lib/class_profiler/logging.rb:17 | the `filter!` loop produces exactly `FilterRows` |
| Logging.KeyLeTotal | lib/class_profiler/logging.rb:18-25 | two sort keys of the same kind always compare |
| Logging.KeyLeTransitive | lib/class_profiler/logging.rb:18-25 | sort key order is transitive |
| Logging.IntegersSortAsText | lib/class_profiler/logging.rb:19-24 | an Integer cell sorts by its decimal text: 10 sorts before 9 |
| Logging.InsertSorted | lib/class_profiler/logging.rb:18-25 | inserting a row into sorted rows of its kind gives a sorted permutation of the rows plus the new one |
| Logging.SortRows | lib/class_profiler/logging.rb:18-25 | `sort_by!` of two or more rows whose keys mix Floats and Strings raises ArgumentError; otherwise it yields a sorted permutation of the rows |
| Logging.ColumnWidth | lib/class_profiler/logging.rb:29-31 | a column's width is the length of its longest text, header included |
| Logging.ColumnMax | lib/class_profiler/logging.rb:30 | the `max` loop over a column computes `ColumnWidth` |
| Logging.ColumnWidths | lib/class_profiler/logging.rb:29-31 | `transpose` raises IndexError exactly when some row is not as long as the headers; otherwise the widths are each column's maximum |
| Logging.Padded | lib/class_profiler/logging.rb:36 | each text is left-justified to its column's width |
| Logging.Layout | lib/class_profiler/logging.rb:27-40 | the logged lines are the header line, then one line per row in order, all padded to the same column widths |
| Logging.PaddedLengths | lib/class_profiler/logging.rb:36 | texts that fit their columns pad to exactly the column widths |
| Logging.LineLength | lib/class_profiler/logging.rb:36-37 | a line of fitting texts is as long as the widths plus three characters per separator |
| Logging.LayoutAligned | lib/class_profiler/logging.rb:29-37 | when no formatted Float is longer than its `to_s`, every report line has the same length |
| Logging.LineCellsPadded | lib/class_profiler/logging.rb:36 | every cell of a line is padded to its column width and never truncated |
| Logging.UniformRowsPrint | lib/class_profiler/logging.rb:17-31 | rows as long as the headers, with one kind of cell per column and no Symbol in the second, pass the filter, sort and transpose without error |
| Logging.ReportRows | lib/class_profiler/logging.rb:16-31 | the rows to print exist exactly when the filter, the sort and the transpose succeed; they are a sorted permutation of the kept rows; otherwise NoMethodError, ArgumentError or IndexError as the failing step raises |
| Logging.LogLines | lib/class_profiler/logging.rb:33-40 | logging lines one by one creates the default logger on first use; a plain logger receives the lines its level admits; a fan-out raises NoMethodError (`info`) at the first line and none of its loggers receives anything |
| Logging.ForwardLines | lib/class_profiler/logging.rb:33-40 | the corrected loop: with a forwarding fan-out of distinct loggers, each of them receives every line its level admits |
| Logging.PrintReport | lib/class_profiler/logging.rb:15-43 | `print_report` returns `entries` exactly when filtering, sorting and transposing succeed and the logger is not a fan-out; it then logs the `Layout` of a sorted permutation of the kept rows to the stored logger, or to a new INFO logger; each failing step raises its own error (NoMethodError `to_f`, ArgumentError, IndexError, NoMethodError `info` for a fan-out) and then nothing is logged |
| Logging.FileAndStdoutPrintReport | lib/class_profiler/logging.rb:86-97 | after enabling file logging with `also_stdout: true`, `print_report` of printable rows raises NoMethodError (`info`), and neither the file nor stdout receives a line |
| Benchmark.Recorded | lib/class_profiler/benchmark.rb:96-102 | a returning call sets its entry to end minus start; every other entry, and every entry after a raising call, is unchanged |
| Benchmark.AfterCallsKeys | lib/class_profiler/benchmark.rb:96-102 | a method has an entry exactly when it had one or one of its calls returned |
| Benchmark.AfterCallsLast | lib/class_profiler/benchmark.rb:100 | the entry holds the duration of the method's last returning call: entries are overwritten, not accumulated |
| Benchmark.AfterCallsUntouched | lib/class_profiler/benchmark.rb:100 | an entry without a returning call of its own keeps its value |
| Benchmark.AfterCallsKeepsOrder | lib/class_profiler/benchmark.rb:100 | keys already in the table keep their order; new keys are appended |
| Benchmark.EntriesOnlyAfterCalls | lib/class_profiler/benchmark.rb:43-45 | starting empty, a method has an entry exactly when one of its calls returned |
| Benchmark.BenchmarkStore.Measure | lib/class_profiler/benchmark.rb:96-102 | the wrapper returns the original's outcome and, only if it returned, sets the method's entry to end minus start (as the class wrapper does, lines 109-113) |
| Benchmark.BenchmarkMethods | lib/class_profiler/benchmark.rb:94-104 | `benchmark_methods` wraps the given names in order, stopping at the first undefined one |
| Benchmark.BenchmarkClassMethods | lib/class_profiler/benchmark.rb:107-115 | `benchmark_class_methods` wraps the given class methods in order |
| Benchmark.BenchmarkAllMethods | lib/class_profiler/benchmark.rb:78-81 | wraps the selection including inherited methods, and on a well-formed class never fails |
| Benchmark.BenchmarkInstanceMethods | lib/class_profiler/benchmark.rb:86-89 | wraps the selection without inherited methods, never fails on a well-formed class, and leaves inherited methods unwrapped |
| Benchmark.BenchmarkOwnClassMethods | lib/class_profiler/benchmark.rb:138-141 | wraps the class's own class methods and never fails on a well-formed singleton class |
| Benchmark.BenchmarkAllClassMethods | lib/class_profiler/benchmark.rb:146-149 | wraps class methods including inherited ones and never fails on a well-formed singleton class |
| Benchmark.InheritedNotSelected | lib/class_profiler/benchmark.rb:86-89 | a method the class only inherits is never selected without inherited methods |
| Benchmark.EntryLines | lib/class_profiler/benchmark.rb:52-56 | a line appears exactly for each entry whose seconds are positive (or every entry with `include_zero`), in table order |
| Benchmark.Report | lib/class_profiler/benchmark.rb:49-64 | the text is the header and the entry lines joined by newlines, returned in every case; without the Logging mixin the NameError is rescued as a warning; a fan-out's NoMethodError (`info`) is rescued as a warning and none of its loggers receives the text; otherwise the stored plain logger, or a new INFO logger, logs the text once as its level admits |
| Benchmark.BenchmarkReport | lib/class_profiler/benchmark.rb:49-64 | the instance report's text under the header `Benchmark results (<class> instance):`, with the warnings and logging of `Report` |
| Benchmark.FileAndStdoutBenchmarkReport | lib/class_profiler/benchmark.rb:58-62 | after enabling file logging with `also_stdout: true`, `benchmark_report` returns its text with a NoMethodError (`info`) warning, and neither the file nor stdout receives it |
| Benchmark.BenchmarkClassReport | lib/class_profiler/benchmark.rb:119-133 | the class report's text under the header `Benchmark results (<class> class methods):`, with the warnings and logging of `Report` |
| Performance.Accumulate | lib/class_profiler/performance.rb:74-77 | one call's update raises NoMethodError (`[]`) exactly when the entry is a plain value; otherwise the entry is a timing whose `:time` is the duration |
| Performance.AccumulateStep | lib/class_profiler/performance.rb:74-77 | a call sets `:time` to its duration and adds it to `:total` (from 0 on the first call); other entries and the key order stay |
| Performance.TotalIsSum | lib/class_profiler/performance.rb:75-77 | after calls lasting d1…dn the entry is `{time: dn, total: d1+…+dn}` |
| Performance.TotalNonNegative | lib/class_profiler/performance.rb:76 | non-negative durations give a non-negative total |
| Performance.TotalBounds | lib/class_profiler/performance.rb:76-77 | with non-negative durations the total never decreases and is never below the last time |
| Performance.PerformanceStore.Measure | lib/class_profiler/performance.rb:70-78 | the wrapper returns the original's outcome and updates the entry; a plain Float entry raises NoMethodError; a raising call changes nothing |
| Performance.TrackPerformance | lib/class_profiler/performance.rb:45-55 | wraps the duplicate-free union of the enabled selections, never failing on a well-formed class |
| Performance.PerformanceInstanceMethods | lib/class_profiler/performance.rb:60-63 | selects the class's own methods, then always raises NoMethodError (`performance_methods`) |
| Performance.PerformanceRows | lib/class_profiler/performance.rb:25-31 | one row per entry in order: `[method, time, total]`, or `[method, v, v]` for a plain value |
| Performance.PerformanceRowsPrint | lib/class_profiler/performance.rb:23-33 | performance rows always pass `print_report`'s filter, sort and transpose |
| Performance.PerformanceReport | lib/class_profiler/performance.rb:23-33 | without the Logging mixin raises NoMethodError (`print_report`); with a fan-out logger raises NoMethodError (`info`) and logs nothing; otherwise returns the entries and logs a sorted permutation of the kept rows to the stored plain logger, or to a new INFO logger |
| Memory.GCStat.MallocBytes | lib/class_profiler/memory.rb:60 | a missing malloc counter reads as 0 |
| Memory.Delta | lib/class_profiler/memory.rb:59-70 | the recorded counts are after minus before; a non-decreasing object counter gives a non-negative count; two missing malloc counters give 0 bytes |
| Memory.BytesMayBeNegative | lib/class_profiler/memory.rb:67-70 | the byte delta can be negative |
| Memory.Recorded | lib/class_profiler/memory.rb:67-70 | calls never remove an entry, and after at least one call the method has an entry |
| Memory.LastCallWins | lib/class_profiler/memory.rb:67-70 | after several calls the entry is the last call's delta, not a sum; other entries are untouched |
| Memory.MemoryStore.Measure | lib/class_profiler/memory.rb:58-73 | the wrapper returns the original's outcome and, only if it returned, replaces the entry with the delta |
| Memory.TrackMemory | lib/class_profiler/memory.rb:38-48 | wraps the same duplicate-free union of enabled selections as `track_performance`, never failing on a well-formed class |
| Memory.MemoryRows | lib/class_profiler/memory.rb:26 | one row `[method, objects, bytes]` per entry, in order |
| Memory.MemoryRowsPrint | lib/class_profiler/memory.rb:24-28 | memory rows always pass `print_report`'s filter, sort and transpose |
| Memory.MemoryReport | lib/class_profiler/memory.rb:24-28 | with a fan-out logger raises NoMethodError (`info`) and logs nothing; otherwise returns the entries and logs a sorted permutation of the kept rows to the stored plain logger, or to a new INFO logger |
| Primes.FloorSqrt | examples/primes.rb:17 | `Math.sqrt(n).to_i` is the r with r² ≤ n < (r+1)² |
| Primes.PrimesUpToMembers | examples/primes.rb:12-29 | the specification list holds exactly the primes in 2..n |
| Primes.PrimesUpToAscending | examples/primes.rb:12-29 | the specification list is strictly ascending |
| Primes.CompositeHasSmallPrimeFactor | examples/primes.rb:17-25 | every composite has a prime factor no greater than its square root |
| Primes.TrialDivision | examples/primes.rb:12-29 | `trial_division` returns exactly the primes up to the limit, ascending |
| Primes.SmallFactorIffComposite | examples/primes.rb:37-47 | below p², having a factor under p is the same as being composite |
| Primes.SieveOfEratosthenes | examples/primes.rb:31-55 | the sieve raises ArgumentError exactly when the limit is below -1, and otherwise returns exactly the primes up to the limit |
| TwoSum.BruteForce | examples/two_sum.rb:13-27 | returns a pair i < j that sums to the target, the lexicographically least one, or nil exactly when none exists |
| TwoSum.Hashmap | examples/two_sum.rb:29-39 | returns a pair with the least possible second index, paired with the last earlier match, or nil exactly when none exists |

## Left out

- Ruby reflection is not modelled: `public_instance_methods`, `instance_method(m).owner`, `alias_method` and `define_method` are replaced by the listing and the method table. The listing is not updated when aliases are added.
- `Time.now` and `GC.stat` are not modelled: clock and counter readings are parameters of each wrapper. `require 'objspace'` has no effect in the model.
- Float arithmetic is not modelled: durations are exact reals. `Float#to_s` and `format('%.6f', …)` are parameters.
- Logger devices, file paths, rotation (`shift_age`, `shift_size`) and log line formatting are not modelled. A logger is its level and the messages it accepted.
- `MultiLogger#add` is not modelled, because it forwards to the standard library's `Logger#add` with a severity, which no report calls.
- The text of `warn` in the benchmark reports is not modelled; only the rescued error is returned.
- `print_report`'s rows are modelled as Symbol, Integer, Float or nil cells. Strings and other objects in entries are not modelled.
- `sort_by!` and `filter!` are modelled on sequences. The model proves a sorted permutation but not Ruby's particular order among equal keys.
- Concurrency is not modelled: the stores and the logger memo are plain state.
- Nested calls from one instrumented method into another are modelled only by the order of records in `Call`, not by interleaved store updates.
- `Math.sqrt` on floats is not modelled; `Primes.FloorSqrt` is the exact integer square root.
- The class bodies' `track_performance` and `track_memory` calls (examples/primes.rb:57-58, examples/two_sum.rb:41-42) and the driver code after the classes are not modelled. As written, the first call raises NameError (see above). The drivers also call `profile_report`, which no module defines.
- Visibility and ownership after wrapping are not modelled. `define_method` in `wrap_method` and `wrap_class_method` installs a public method declared on the class itself. So wrapping a private, protected or inherited method changes what a later selection sees; the model's listing stays as it was.
- Keyword arguments are not modelled: arguments are one sequence. The shims take `*args`, so a keyword argument reaches a wrapped method as a positional Hash, and a method with keyword parameters then raises ArgumentError.
- `lib/class_profiler.rb`, the rakefile and the test files are not part of this model.
- `Performance.Accumulate`: entries holding a Hash without `:total` are not modelled. They can only arise from code outside the library.

## Findings

| source | as written | input that shows it | evidently intended | confidence | as-written member | corrected member |
|---|---|---|---|---|---|---|
| lib/class_profiler/logging.rb:48-64 | `MultiLogger` defines `add`, `level=` and `level` but no `info`, yet `print_report` (line 39) and the benchmark reports (benchmark.rb:59, 128) call `profiler_logger.info(text)` | `enable_profiler_logging_to_file(path, also_stdout: true)`, then any report: `print_report` raises NoMethodError; the benchmark reports only warn and log nothing | a fan-out whose `info` forwards the message to every child logger | not executed | Logging.FileAndStdoutInfoAsWritten | Logging.FileAndStdoutInfo |
| lib/class_profiler/logging.rb:33-40 | `print_report` logs each line with `profiler_logger.info`, which a `MultiLogger` lacks | `enable_profiler_logging_to_file(path, also_stdout: true)`, then `print_report` of any printable rows: it raises NoMethodError, and neither the file nor stdout receives a line | every line reaches both the file and stdout | not executed | Logging.FileAndStdoutPrintReport | Logging.ForwardLines |
| lib/class_profiler/benchmark.rb:58-62 | `benchmark_report` rescues the NoMethodError of `profiler_logger&.info(text)` on a `MultiLogger` | `enable_profiler_logging_to_file(path, also_stdout: true)`, then `benchmark_report`: it warns and returns the text, and neither the file nor stdout receives it | the text reaches both the file and stdout | not executed | Benchmark.FileAndStdoutBenchmarkReport | Logging.FileAndStdoutInfo |
