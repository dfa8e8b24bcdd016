/**
 * lib/class_profiler/methods.rb: choosing which methods of a class to
 * instrument, and replacing a method by a measuring shim.
 *
 * Reflection is modelled by a listing of method entries (what
 * `public_instance_methods` and friends report), and a class's method
 * table by a map from method name to implementation. `alias_method` and
 * `define_method` become updates of that map; a call is interpreted by
 * `Call`, which follows shims down to the original implementation.
 */
module Methods {
  import opened Core

  // ---------------------------------------------------------------------
  // Member selection
  // ---------------------------------------------------------------------

  datatype Visibility = Public | Protected | Private

  /** The `visibility:` argument; `UnknownArg` stands for any other symbol. */
  datatype VisibilityArg = PublicArg | ProtectedArg | PrivateArg | AllArg | UnknownArg

  /**
   * One method as reflection reports it: its name, its visibility, the name
   * of its owner module (None for an anonymous module) and whether the class
   * itself declares it rather than an ancestor.
   */
  datatype MethodEntry = MethodEntry(name: string, visibility: Visibility, owner: Option<string>, declaredHere: bool)

  /** Reflection lists every method name once. */
  ghost predicate UniqueNames(listing: seq<MethodEntry>) {
    forall i, j :: 0 <= i < j < |listing| ==> listing[i].name != listing[j].name
  }

  const HelperPrefix: string := "ClassProfiler::"

  /** `helper_owner_module?`: the owner is one of the profiler's own modules. */
  predicate IsHelperOwner(owner: Option<string>) {
    owner.Some? && StartsWith(owner.value, HelperPrefix)
  }

  lemma HelperOwners(name: string)
    ensures IsHelperOwner(Some(HelperPrefix + name))
    ensures !IsHelperOwner(None)
    ensures !IsHelperOwner(Some("ClassProfiler"))
    ensures !IsHelperOwner(Some("Object"))
  {
    assert (HelperPrefix + name)[..|HelperPrefix|] == HelperPrefix;
  }

  /** Methods never wrapped on instances. */
  const ReservedInstanceMethods: set<string> := {
    "instance_exec", "instance_eval", "send", "__send__", "method", "public_method",
    "respond_to?", "object_id", "__id__", "class", "inspect", "to_s"
  }

  /** Methods never wrapped on the singleton class. */
  const ReservedSingletonMethods: set<string> := {
    "send", "public_send", "method", "singleton_method", "define_singleton_method",
    "instance_eval", "class_eval", "method_missing", "respond_to?", "allocate", "new", "superclass",
    "inspect", "to_s", "name", "ancestors", "inherited", "extend", "include", "prepend",
    "alias_method", "remove_method", "undef_method", "autoload", "autoload?",
    "object_id", "__id__"
  }

  /**
   * `public_instance_methods(inherit)`, `protected_instance_methods(inherit)`,
   * `private_instance_methods(inherit)` and `instance_methods(inherit)`: the
   * names whose visibility is in `vs`, own methods only unless `inherit`.
   */
  function NamesWith(listing: seq<MethodEntry>, vs: set<Visibility>, inherit: bool): (r: seq<string>)
    ensures forall m :: m in r <==>
      exists e :: e in listing && e.name == m && e.visibility in vs && (inherit || e.declaredHere)
    ensures UniqueNames(listing) ==> Distinct(r)
  {
    if listing == [] then []
    else
      var e := listing[0];
      var rest := NamesWith(listing[1..], vs, inherit);
      assert forall x :: x in listing[1..] ==> x in listing;
      assert UniqueNames(listing) ==> UniqueNames(listing[1..]) && e.name !in rest by {
        if UniqueNames(listing) {
          forall x | x in listing[1..]
            ensures x.name != e.name
          {
            var k :| 0 <= k < |listing[1..]| && listing[1..][k] == x;
            assert listing[k + 1] == x;
          }
        }
      }
      (if e.visibility in vs && (inherit || e.declaredHere) then [e.name] else []) + rest
  }

  /** The name lists the `case visibility` of the selectors picks from. */
  function Candidates(listing: seq<MethodEntry>, visibility: VisibilityArg, inherit: bool): seq<string> {
    match visibility
    case PublicArg => NamesWith(listing, {Public}, inherit)
    case ProtectedArg => NamesWith(listing, {Protected}, inherit)
    case PrivateArg => NamesWith(listing, {Private}, inherit)
    case AllArg =>
      Uniq(NamesWith(listing, {Public, Protected}, inherit)
           + NamesWith(listing, {Protected}, inherit)
           + NamesWith(listing, {Private}, inherit))
    case UnknownArg => NamesWith(listing, {Public}, inherit)
  }

  /** The owner of the method `instance_method(m)` resolves to. */
  function OwnerOf(listing: seq<MethodEntry>, m: string): Option<string> {
    if listing == [] then None
    else if listing[0].name == m then listing[0].owner
    else OwnerOf(listing[1..], m)
  }

  /** The three rejection rules of the selectors. */
  predicate Excluded(listing: seq<MethodEntry>, reserved: set<string>, m: string) {
    m in reserved || StartsWith(m, "_") || IsHelperOwner(OwnerOf(listing, m))
  }

  /** `names.reject { ... }`: drops reserved names, `_` names and helper-owned methods. */
  function RejectExcluded(listing: seq<MethodEntry>, reserved: set<string>, names: seq<string>): (r: seq<string>)
    ensures forall m :: m in r <==> m in names && !Excluded(listing, reserved, m)
    ensures forall m :: m in r ==> m !in reserved && !StartsWith(m, "_") && !IsHelperOwner(OwnerOf(listing, m))
    ensures Distinct(names) ==> Distinct(r)
  {
    if names == [] then []
    else
      var rest := RejectExcluded(listing, reserved, names[1..]);
      assert Distinct(names) ==> Distinct(names[1..]) && names[0] !in names[1..];
      if Excluded(listing, reserved, names[0]) then rest else [names[0]] + rest
  }

  function SelectFrom(listing: seq<MethodEntry>, reserved: set<string>, visibility: VisibilityArg, inherit: bool): (r: seq<string>)
    ensures forall m :: m in r ==> m !in reserved && !StartsWith(m, "_")
    ensures forall m :: m in r ==> exists e :: e in listing && e.name == m
  {
    RejectExcluded(listing, reserved, Candidates(listing, visibility, inherit))
  }

  /** `select_instance_methods(visibility: :public, include_inherited: true)` */
  function SelectInstanceMethods(listing: seq<MethodEntry>, visibility: VisibilityArg := PublicArg, includeInherited: bool := true): (r: seq<string>)
    ensures forall m :: m in r ==> m !in ReservedInstanceMethods && !StartsWith(m, "_")
  {
    SelectFrom(listing, ReservedInstanceMethods, visibility, includeInherited)
  }

  /** `select_class_methods`: the same rules over the singleton class's listing. */
  function SelectClassMethods(singletonListing: seq<MethodEntry>, visibility: VisibilityArg := PublicArg, includeInherited: bool := true): (r: seq<string>)
    ensures forall m :: m in r ==> m !in ReservedSingletonMethods && !StartsWith(m, "_")
  {
    SelectFrom(singletonListing, ReservedSingletonMethods, visibility, includeInherited)
  }

  /** Which visibilities a `visibility:` argument selects. */
  function VisibilitiesOf(visibility: VisibilityArg): set<Visibility> {
    match visibility
    case PublicArg => {Public}
    case ProtectedArg => {Protected}
    case PrivateArg => {Private}
    case AllArg => {Public, Protected, Private}
    case UnknownArg => {Public}
  }

  /** Under `:all` the candidates are the names of any visibility. */
  lemma AllCandidatesMembership(listing: seq<MethodEntry>, inherit: bool, m: string)
    ensures m in Candidates(listing, AllArg, inherit) <==>
      exists e :: e in listing && e.name == m && (inherit || e.declaredHere)
  {
    var publicProtected := NamesWith(listing, {Public, Protected}, inherit);
    var protected := NamesWith(listing, {Protected}, inherit);
    var private := NamesWith(listing, {Private}, inherit);
    assert m in Candidates(listing, AllArg, inherit) <==> m in publicProtected || m in protected || m in private;
    if exists e :: e in listing && e.name == m && (inherit || e.declaredHere) {
      var e :| e in listing && e.name == m && (inherit || e.declaredHere);
      if e.visibility == Private {
        assert m in private;
      } else {
        assert m in publicProtected;
      }
    }
  }

  /** The candidates before rejection: the names with a selected visibility. */
  lemma CandidatesMembership(listing: seq<MethodEntry>, visibility: VisibilityArg, inherit: bool, m: string)
    ensures m in Candidates(listing, visibility, inherit) <==>
      exists e :: e in listing && e.name == m && e.visibility in VisibilitiesOf(visibility) && (inherit || e.declaredHere)
  {
    if visibility == AllArg {
      AllCandidatesMembership(listing, inherit, m);
    }
  }

  /**
   * A name is selected exactly when the listing has a method of that name
   * with a selected visibility, declared on the class itself unless
   * inherited methods are included, and no rejection rule applies.
   */
  lemma SelectionMembership(listing: seq<MethodEntry>, reserved: set<string>, visibility: VisibilityArg, inherit: bool, m: string)
    ensures m in SelectFrom(listing, reserved, visibility, inherit) <==>
      && (exists e :: e in listing && e.name == m && e.visibility in VisibilitiesOf(visibility) && (inherit || e.declaredHere))
      && !Excluded(listing, reserved, m)
  {
    CandidatesMembership(listing, visibility, inherit, m);
  }

  /** `:all` is the duplicate-free union of the public, protected and private selections. */
  lemma AllIsUnion(listing: seq<MethodEntry>, reserved: set<string>, inherit: bool)
    ensures Distinct(SelectFrom(listing, reserved, AllArg, inherit))
    ensures forall m :: m in SelectFrom(listing, reserved, AllArg, inherit) <==>
      || m in SelectFrom(listing, reserved, PublicArg, inherit)
      || m in SelectFrom(listing, reserved, ProtectedArg, inherit)
      || m in SelectFrom(listing, reserved, PrivateArg, inherit)
  {
    forall m
      ensures m in SelectFrom(listing, reserved, AllArg, inherit) <==>
        || m in SelectFrom(listing, reserved, PublicArg, inherit)
        || m in SelectFrom(listing, reserved, ProtectedArg, inherit)
        || m in SelectFrom(listing, reserved, PrivateArg, inherit)
    {
      SelectionMembership(listing, reserved, AllArg, inherit, m);
      SelectionMembership(listing, reserved, PublicArg, inherit, m);
      SelectionMembership(listing, reserved, ProtectedArg, inherit, m);
      SelectionMembership(listing, reserved, PrivateArg, inherit, m);
    }
  }

  /** An unrecognised visibility selects what `:public` selects. */
  lemma UnknownVisibilityIsPublic(listing: seq<MethodEntry>, reserved: set<string>, inherit: bool)
    ensures SelectFrom(listing, reserved, UnknownArg, inherit) == SelectFrom(listing, reserved, PublicArg, inherit)
  {
  }

  /**
   * Without inherited methods only methods the class declares itself are
   * selected, and each of them is also selected when inherited methods
   * are included.
   */
  lemma NonInheritedSelectsOwnMethods(listing: seq<MethodEntry>, reserved: set<string>, visibility: VisibilityArg, m: string)
    requires m in SelectFrom(listing, reserved, visibility, false)
    ensures exists e :: e in listing && e.name == m && e.declaredHere && e.visibility in VisibilitiesOf(visibility)
    ensures m in SelectFrom(listing, reserved, visibility, true)
  {
    SelectionMembership(listing, reserved, visibility, false, m);
    SelectionMembership(listing, reserved, visibility, true, m);
  }

  /** With one entry per name, `:public` never selects a protected or private method. */
  lemma PublicExcludesOthers(listing: seq<MethodEntry>, reserved: set<string>, inherit: bool, e: MethodEntry)
    requires UniqueNames(listing) && e in listing && e.visibility != Public
    ensures e.name !in SelectFrom(listing, reserved, PublicArg, inherit)
  {
    SelectionMembership(listing, reserved, PublicArg, inherit, e.name);
    forall e' | e' in listing && e'.name == e.name
      ensures e'.visibility != Public
    {
      var i :| 0 <= i < |listing| && listing[i] == e;
      var j :| 0 <= j < |listing| && listing[j] == e';
      assert i == j;
    }
  }

  /** With one entry per name, every selection is free of duplicates. */
  lemma SelectionDistinct(listing: seq<MethodEntry>, reserved: set<string>, visibility: VisibilityArg, inherit: bool)
    requires UniqueNames(listing)
    ensures Distinct(SelectFrom(listing, reserved, visibility, inherit))
  {
  }

  // ---------------------------------------------------------------------
  // Method tables, wrapping and dispatch
  // ---------------------------------------------------------------------

  /** The measuring blocks the collectors hand to `wrap_method` and `wrap_class_method`. */
  datatype Wrapper = BenchmarkWrapper | PerformanceWrapper | MemoryWrapper

  /**
   * What a method-table entry holds. `InstanceShim` is what `wrap_method`
   * defines: it keeps the implementation it captured at wrap time.
   * `SingletonShim` is what `wrap_class_method` defines: it keeps only the
   * alias name and looks it up (with `send`) at every call.
   */
  datatype Impl =
    | Original(id: nat)
    | InstanceShim(wrapper: Wrapper, name: string, captured: Impl)
    | SingletonShim(wrapper: Wrapper, name: string, aliasName: string)

  /** A metric write made by a wrapper: which wrapper, under which method name. */
  datatype Record = Record(wrapper: Wrapper, name: string)

  datatype Invocation<V> = Invocation(outcome: Result<V>, records: seq<Record>)

  /**
   * Calling `impl` on `args` with an optional block, where `body` gives the
   * behaviour of the original implementations and `depth` bounds the nested
   * `send`s (Ruby's stack limit). Each wrapper calls what it wraps once,
   * records a metric only when that call returned, and returns its result.
   * An instance shim does not pass the block on; a singleton shim does.
   */
  function Call<V>(impls: map<string, Impl>, impl: Impl, args: seq<V>, block: Option<nat>,
                   body: (nat, seq<V>, Option<nat>) -> Result<V>, depth: nat): (r: Invocation<V>)
    ensures impl.Original? ==> r.records == []
    ensures !impl.Original? && r.outcome.Success? ==>
      r.records != [] && r.records[|r.records| - 1] == Record(impl.wrapper, impl.name)
    decreases depth, impl
  {
    match impl
    case Original(id) => Invocation(body(id, args, block), [])
    case InstanceShim(w, name, captured) =>
      var inner := Call(impls, captured, args, None, body, depth);
      if inner.outcome.Success? then Invocation(inner.outcome, inner.records + [Record(w, name)]) else inner
    case SingletonShim(w, name, aliasName) =>
      if depth == 0 then Invocation(Failure(SystemStackError), [])
      else if aliasName !in impls then Invocation(Failure(NoMethodError(aliasName)), [])
      else
        var inner := Call(impls, impls[aliasName], args, block, body, depth - 1);
        if inner.outcome.Success? then Invocation(inner.outcome, inner.records + [Record(w, name)]) else inner
  }

  /** Calling a method by name. */
  function Dispatch<V>(impls: map<string, Impl>, name: string, args: seq<V>, block: Option<nat>,
                       body: (nat, seq<V>, Option<nat>) -> Result<V>, depth: nat): (r: Invocation<V>)
    ensures name !in impls ==> r.outcome == Failure(NoMethodError(name)) && r.records == []
    ensures name in impls ==> r == Call(impls, impls[name], args, block, body, depth)
  {
    if name in impls then Call(impls, impls[name], args, block, body, depth)
    else Invocation(Failure(NoMethodError(name)), [])
  }

  /** An implementation built by instance wrapping alone: no lookups by name. */
  predicate CapturedOnly(impl: Impl) {
    match impl
    case Original(_) => true
    case InstanceShim(_, _, captured) => CapturedOnly(captured)
    case SingletonShim(_, _, _) => false
  }

  /** The shims of an instance-wrapped implementation, innermost first. */
  function Layers(impl: Impl): seq<Record>
    requires CapturedOnly(impl)
  {
    match impl
    case Original(_) => []
    case InstanceShim(w, name, captured) => Layers(captured) + [Record(w, name)]
  }

  /** No metric is recorded for a call that raised. */
  lemma {:induction false} NoRecordOnFailure<V>(impls: map<string, Impl>, impl: Impl, args: seq<V>, block: Option<nat>,
                                                body: (nat, seq<V>, Option<nat>) -> Result<V>, depth: nat)
    ensures Call(impls, impl, args, block, body, depth).outcome.Failure? ==>
            Call(impls, impl, args, block, body, depth).records == []
    decreases depth, impl
  {
    match impl
    case Original(_) =>
    case InstanceShim(_, _, captured) =>
      NoRecordOnFailure(impls, captured, args, None, body, depth);
    case SingletonShim(_, _, aliasName) =>
      if depth > 0 && aliasName in impls {
        NoRecordOnFailure(impls, impls[aliasName], args, block, body, depth - 1);
      }
  }

  /**
   * An instance-wrapped implementation returns what the original returns
   * when called without a block, whatever the table and the depth, and on
   * success every layer records once, innermost first.
   */
  lemma {:induction false} CapturedCall<V>(impls: map<string, Impl>, impl: Impl, args: seq<V>, block: Option<nat>,
                                           body: (nat, seq<V>, Option<nat>) -> Result<V>, depth: nat)
    requires CapturedOnly(impl) && impl.InstanceShim?
    ensures Call(impls, impl, args, block, body, depth).outcome == body(Innermost(impl), args, None)
    ensures body(Innermost(impl), args, None).Success? ==>
            Call(impls, impl, args, block, body, depth).records == Layers(impl)
  {
    match impl
    case InstanceShim(_, _, captured) =>
      if captured.InstanceShim? {
        CapturedCall(impls, captured, args, None, body, depth);
      }
  }

  /** The original implementation at the bottom of an instance-wrapped chain. */
  function Innermost(impl: Impl): nat
    requires CapturedOnly(impl)
  {
    match impl
    case Original(id) => id
    case InstanceShim(_, _, captured) => Innermost(captured)
  }

  /** Instance methods live on the class, class methods on its singleton class. */
  datatype Scope = InstanceScope | SingletonScope

  /**
   * `alias_method prefix+name, name` followed by `define_method(name)`.
   * Aliasing an undefined method raises NameError and changes nothing.
   */
  function Wrap(scope: Scope, impls: map<string, Impl>, name: string, prefix: string, w: Wrapper): (r: Result<map<string, Impl>>)
    ensures r.Failure? <==> name !in impls
    ensures r.Failure? ==> r.error == NameError(name)
    ensures r.Success? ==> r.value.Keys == impls.Keys + {prefix + name}
    ensures r.Success? && prefix != "" ==> r.value[prefix + name] == impls[name]
    ensures r.Success? && scope == InstanceScope ==> r.value[name] == InstanceShim(w, name, impls[name])
    ensures r.Success? && scope == SingletonScope ==> r.value[name] == SingletonShim(w, name, prefix + name)
    ensures r.Success? ==> forall k :: k in impls && k != name && k != prefix + name ==> r.value[k] == impls[k]
  {
    if name !in impls then Failure(NameError(name))
    else
      var aliased := impls[prefix + name := impls[name]];
      Success(aliased[name := ShimFor(scope, w, name, prefix, aliased[prefix + name])])
  }

  /** The shim `define_method` installs, over the implementation the alias holds. */
  function ShimFor(scope: Scope, w: Wrapper, name: string, prefix: string, aliased: Impl): Impl {
    match scope
    case InstanceScope => InstanceShim(w, name, aliased)
    case SingletonScope => SingletonShim(w, name, prefix + name)
  }

  /** The alias names a wrapping loop creates. */
  function Aliases(names: seq<string>, prefix: string): (r: seq<string>)
    ensures forall x :: x in r ==> StartsWith(x, prefix)
  {
    if names == [] then []
    else
      assert (prefix + names[0])[..|prefix|] == prefix;
      [prefix + names[0]] + Aliases(names[1..], prefix)
  }

  /** Wrapping each name in turn; the first undefined name stops the loop, earlier wraps stay. */
  function WrapAll(scope: Scope, impls: map<string, Impl>, names: seq<string>, prefix: string, w: Wrapper): (r: (map<string, Impl>, Result<()>))
    ensures impls.Keys <= r.0.Keys
    ensures r.1.Success? ==> forall n :: n in names ==> n in r.0
    ensures r.1.Failure? ==> r.1.error.NameError? && r.1.error.name in names
    decreases |names|
  {
    if names == [] then (impls, Success(()))
    else match Wrap(scope, impls, names[0], prefix, w)
      case Failure(e) => (impls, Failure(e))
      case Success(t) => WrapAll(scope, t, names[1..], prefix, w)
  }

  /**
   * After `wrap_method`, calling the method with any block returns exactly
   * what calling it before returned without a block, and a successful call
   * adds one record of the new wrapper.
   */
  lemma InstanceWrapPassesThrough<V>(impls: map<string, Impl>, name: string, prefix: string, w: Wrapper,
                                     args: seq<V>, block: Option<nat>, body: (nat, seq<V>, Option<nat>) -> Result<V>, depth: nat)
    requires name in impls && CapturedOnly(impls[name])
    ensures var after := Wrap(InstanceScope, impls, name, prefix, w).value;
      && Dispatch(after, name, args, block, body, depth).outcome == Dispatch(impls, name, args, None, body, depth).outcome
      && (Dispatch(after, name, args, block, body, depth).outcome.Success? ==>
          Dispatch(after, name, args, block, body, depth).records == Dispatch(impls, name, args, None, body, depth).records + [Record(w, name)])
  {
    var after := Wrap(InstanceScope, impls, name, prefix, w).value;
    CapturedCall(after, after[name], args, block, body, depth);
    if impls[name].InstanceShim? {
      CapturedCall(impls, impls[name], args, None, body, depth);
    }
  }

  /**
   * After `wrap_class_method` with a non-empty prefix, calling the method
   * sends to the alias, which holds the previous implementation: the call
   * returns what that implementation returns with the same block.
   */
  lemma ClassWrapPassesThrough<V>(impls: map<string, Impl>, name: string, prefix: string, w: Wrapper,
                                  args: seq<V>, block: Option<nat>, body: (nat, seq<V>, Option<nat>) -> Result<V>, depth: nat)
    requires name in impls && impls[name].Original? && prefix != ""
    ensures var after := Wrap(SingletonScope, impls, name, prefix, w).value;
      Dispatch(after, name, args, block, body, depth + 1) ==
        if body(impls[name].id, args, block).Success?
        then Invocation(body(impls[name].id, args, block), [Record(w, name)])
        else Invocation(body(impls[name].id, args, block), [])
  {
    var after := Wrap(SingletonScope, impls, name, prefix, w).value;
    assert |prefix + name| > |name|;
    assert after[name] == SingletonShim(w, name, prefix + name);
    assert after[prefix + name] == impls[name];
    var inner := Call(after, after[prefix + name], args, block, body, depth);
    assert inner == Invocation(body(impls[name].id, args, block), []);
    assert Dispatch(after, name, args, block, body, depth + 1) == Call(after, after[name], args, block, body, depth + 1);
  }

  /** `Call` on a singleton shim whose alias names itself never returns a value. */
  lemma {:induction false} SelfAliasOverflows<V>(impls: map<string, Impl>, aliasName: string, args: seq<V>, block: Option<nat>,
                                                 body: (nat, seq<V>, Option<nat>) -> Result<V>, depth: nat)
    requires aliasName in impls && impls[aliasName].SingletonShim? && impls[aliasName].aliasName == aliasName
    ensures Call(impls, impls[aliasName], args, block, body, depth).outcome == Failure(SystemStackError)
  {
    if depth > 0 {
      SelfAliasOverflows(impls, aliasName, args, block, body, depth - 1);
    }
  }

  /**
   * `wrap_class_method` twice with the same prefix: the second alias holds
   * the first shim, which sends to that same alias, so every call of the
   * method ends in SystemStackError.
   */
  lemma ClassRewrapOverflows<V>(impls: map<string, Impl>, name: string, prefix: string, w1: Wrapper, w2: Wrapper,
                                args: seq<V>, block: Option<nat>, body: (nat, seq<V>, Option<nat>) -> Result<V>, depth: nat)
    requires name in impls && prefix != ""
    ensures var once := Wrap(SingletonScope, impls, name, prefix, w1).value;
      var twice := Wrap(SingletonScope, once, name, prefix, w2).value;
      Dispatch(twice, name, args, block, body, depth).outcome == Failure(SystemStackError)
  {
    var once := Wrap(SingletonScope, impls, name, prefix, w1).value;
    var twice := Wrap(SingletonScope, once, name, prefix, w2).value;
    if depth > 0 {
      SelfAliasOverflows(twice, prefix + name, args, block, body, depth - 1);
    }
  }

  /** `wrap_class_method` with an empty prefix makes the method send to itself. */
  lemma ClassWrapEmptyPrefixOverflows<V>(impls: map<string, Impl>, name: string, w: Wrapper,
                                         args: seq<V>, block: Option<nat>, body: (nat, seq<V>, Option<nat>) -> Result<V>, depth: nat)
    requires name in impls
    ensures Dispatch(Wrap(SingletonScope, impls, name, "", w).value, name, args, block, body, depth).outcome == Failure(SystemStackError)
  {
    var after := Wrap(SingletonScope, impls, name, "", w).value;
    assert "" + name == name;
    SelfAliasOverflows(after, name, args, block, body, depth);
  }

  /**
   * `wrap_method` twice composes: the second shim captures the first, a
   * call still returns the original's result and records both wrappers.
   */
  lemma InstanceRewrapComposes<V>(impls: map<string, Impl>, name: string, prefix: string, w1: Wrapper, w2: Wrapper,
                                  args: seq<V>, block: Option<nat>, body: (nat, seq<V>, Option<nat>) -> Result<V>, depth: nat)
    requires name in impls && impls[name].Original?
    ensures var once := Wrap(InstanceScope, impls, name, prefix, w1).value;
      var twice := Wrap(InstanceScope, once, name, prefix, w2).value;
      && twice[name] == InstanceShim(w2, name, InstanceShim(w1, name, impls[name]))
      && Dispatch(twice, name, args, block, body, depth).outcome == body(impls[name].id, args, None)
      && (body(impls[name].id, args, None).Success? ==>
          Dispatch(twice, name, args, block, body, depth).records == [Record(w1, name), Record(w2, name)])
  {
    var once := Wrap(InstanceScope, impls, name, prefix, w1).value;
    var twice := Wrap(InstanceScope, once, name, prefix, w2).value;
    assert once[name] == InstanceShim(w1, name, impls[name]);
    assert twice[name] == InstanceShim(w2, name, once[name]);
    CapturedCall(twice, twice[name], args, block, body, depth);
    assert Innermost(once[name]) == impls[name].id;
    assert Innermost(twice[name]) == impls[name].id;
    assert Layers(once[name]) == [Record(w1, name)];
    assert Layers(twice[name]) == Layers(once[name]) + [Record(w2, name)];
  }

  /**
   * Wrapping a list of distinct, defined names none of whose aliases is
   * itself in the list: no error, each alias holds the old implementation,
   * each name the shim over it, and every entry that is neither a wrapped
   * name nor one of their aliases is unchanged.
   */
  lemma {:induction false} WrapAllFresh(scope: Scope, impls: map<string, Impl>, names: seq<string>, prefix: string, w: Wrapper)
    requires prefix != "" && Distinct(names)
    requires forall m :: m in names ==> m in impls && prefix + m !in names
    ensures WrapAll(scope, impls, names, prefix, w).1.Success?
    ensures forall k :: k in impls ==> k in WrapAll(scope, impls, names, prefix, w).0
    ensures forall m :: m in names ==>
      && prefix + m in WrapAll(scope, impls, names, prefix, w).0
      && WrapAll(scope, impls, names, prefix, w).0[prefix + m] == impls[m]
      && WrapAll(scope, impls, names, prefix, w).0[m] == ShimFor(scope, w, m, prefix, impls[m])
    ensures forall k :: k in impls && k !in names && k !in Aliases(names, prefix) ==>
      WrapAll(scope, impls, names, prefix, w).0[k] == impls[k]
    decreases |names|
  {
    if names != [] {
      var m0 := names[0];
      var t := Wrap(scope, impls, m0, prefix, w).value;
      var rest := names[1..];
      WrapFirstFresh(scope, impls, names, prefix, w);
      WrapAllFresh(scope, t, rest, prefix, w);
      var after := WrapAll(scope, t, rest, prefix, w).0;
      assert WrapAll(scope, impls, names, prefix, w) == WrapAll(scope, t, rest, prefix, w);
      assert after[prefix + m0] == t[prefix + m0];
      assert after[m0] == t[m0];
    }
  }

  /**
   * After wrapping the first name, the other names are still defined and
   * unchanged, and neither the first name nor its alias is among the
   * other names or their aliases.
   */
  lemma WrapFirstFresh(scope: Scope, impls: map<string, Impl>, names: seq<string>, prefix: string, w: Wrapper)
    requires prefix != "" && Distinct(names) && names != []
    requires forall m :: m in names ==> m in impls && prefix + m !in names
    ensures Wrap(scope, impls, names[0], prefix, w).Success?
    ensures var t := Wrap(scope, impls, names[0], prefix, w).value;
      && (forall m :: m in names[1..] ==> m in t && t[m] == impls[m] && prefix + m !in names[1..])
      && prefix + names[0] !in Aliases(names[1..], prefix)
      && names[0] !in Aliases(names[1..], prefix)
  {
    var m0 := names[0];
    var rest := names[1..];
    assert |prefix + m0| > |m0|;
    assert forall m :: m in rest ==> m in names && m != m0;
    forall m | m in rest
      ensures prefix + m0 != m && prefix + m != prefix + m0
    {
      assert (prefix + m)[|prefix|..] == m;
      assert (prefix + m0)[|prefix|..] == m0;
    }
    AliasesMembership(rest, prefix, prefix + m0);
    AliasesMembership(rest, prefix, m0);
  }

  lemma {:induction false} AliasesMembership(names: seq<string>, prefix: string, x: string)
    ensures x in Aliases(names, prefix) <==> exists m :: m in names && x == prefix + m
  {
    if names != [] {
      AliasesMembership(names[1..], prefix, x);
      assert forall m :: m in names <==> m == names[0] || m in names[1..];
    }
  }

  /** Aliases with the prefix `_` are never names that do not start with `_`. */
  lemma UnderscoreAliasesAreFresh(names: seq<string>)
    requires forall m :: m in names ==> !StartsWith(m, "_")
    ensures forall m :: m in names ==> "_" + m !in names
  {
    forall m | m in names
      ensures StartsWith("_" + m, "_")
    {
      assert ("_" + m)[..1] == "_";
    }
  }

  /**
   * A Ruby class or singleton class, as far as wrapping is concerned: what
   * reflection lists, and the method table that wrapping rewrites.
   */
  class MethodTable {
    const listing: seq<MethodEntry>
    var impls: map<string, Impl>

    /** Every listed method is defined, once. */
    ghost predicate Valid()
      reads this
    {
      UniqueNames(listing) && forall e :: e in listing ==> e.name in impls
    }

    constructor(listing: seq<MethodEntry>, impls: map<string, Impl>)
      ensures this.listing == listing && this.impls == impls
    {
      this.listing := listing;
      this.impls := impls;
    }
  }

  /** `wrap_method`: alias the current implementation, then define the instance shim. */
  method WrapMethod(t: MethodTable, methodName: string, w: Wrapper, prefix: string := "_") returns (r: Result<()>)
    modifies t
    ensures match Wrap(InstanceScope, old(t.impls), methodName, prefix, w)
      case Success(after) => r.Success? && t.impls == after
      case Failure(e) => r == Failure(e) && t.impls == old(t.impls)
    ensures old(t.Valid()) ==> t.Valid()
  {
    var wrappedName := prefix + methodName;
    if methodName !in t.impls {
      return Failure(NameError(methodName));
    }
    t.impls := t.impls[wrappedName := t.impls[methodName]];
    var wrapped := t.impls[wrappedName];
    t.impls := t.impls[methodName := InstanceShim(w, methodName, wrapped)];
    r := Success(());
  }

  /** `wrap_class_method`: alias on the singleton class, then define a shim that sends to the alias. */
  method WrapClassMethod(singleton: MethodTable, methodName: string, w: Wrapper, prefix: string := "_") returns (r: Result<()>)
    modifies singleton
    ensures match Wrap(SingletonScope, old(singleton.impls), methodName, prefix, w)
      case Success(after) => r.Success? && singleton.impls == after
      case Failure(e) => r == Failure(e) && singleton.impls == old(singleton.impls)
    ensures old(singleton.Valid()) ==> singleton.Valid()
  {
    var wrappedName := prefix + methodName;
    if methodName !in singleton.impls {
      return Failure(NameError(methodName));
    }
    singleton.impls := singleton.impls[wrappedName := singleton.impls[methodName]];
    singleton.impls := singleton.impls[methodName := SingletonShim(w, methodName, wrappedName)];
    r := Success(());
  }

  /**
   * `method_names.each { |m| wrap_method m ... }` and its class-method
   * counterpart: the loop every collector runs over the names it was given.
   */
  method WrapEach(t: MethodTable, scope: Scope, names: seq<string>, w: Wrapper) returns (r: Result<()>)
    modifies t
    ensures (t.impls, r) == WrapAll(scope, old(t.impls), names, "_", w)
    ensures old(t.Valid()) ==> t.Valid()
  {
    var i := 0;
    while i < |names|
      invariant 0 <= i <= |names|
      invariant WrapAll(scope, old(t.impls), names, "_", w) == WrapAll(scope, t.impls, names[i..], "_", w)
      invariant old(t.Valid()) ==> t.Valid()
    {
      assert names[i..][1..] == names[i + 1..];
      var step;
      if scope == InstanceScope {
        step := WrapMethod(t, names[i], w);
      } else {
        step := WrapClassMethod(t, names[i], w);
      }
      if step.Failure? {
        return step;
      }
      i := i + 1;
    }
    r := Success(());
  }

  /** A selection names distinct, defined methods none of which starts with `_`. */
  lemma SelectionIsFresh(listing: seq<MethodEntry>, impls: map<string, Impl>, reserved: set<string>,
                         visibility: VisibilityArg, inherit: bool)
    requires UniqueNames(listing) && forall e :: e in listing ==> e.name in impls
    ensures var names := SelectFrom(listing, reserved, visibility, inherit);
      && Distinct(names)
      && forall m :: m in names ==> m in impls && !StartsWith(m, "_")
  {
    var names := SelectFrom(listing, reserved, visibility, inherit);
    SelectionDistinct(listing, reserved, visibility, inherit);
    forall m | m in names
      ensures m in impls && !StartsWith(m, "_")
    {
      SelectionMembership(listing, reserved, visibility, inherit, m);
      var e :| e in listing && e.name == m;
    }
  }

  /**
   * Wrapping distinct defined names none of which starts with `_`, with the
   * default prefix, never fails and leaves every other name that does not
   * start with `_` as it was.
   */
  lemma WrapFreshNames(scope: Scope, impls: map<string, Impl>, names: seq<string>, w: Wrapper)
    requires Distinct(names)
    requires forall m :: m in names ==> m in impls && !StartsWith(m, "_")
    ensures var (after, r) := WrapAll(scope, impls, names, "_", w);
      && r.Success?
      && (forall m :: m in names ==> "_" + m in after && after["_" + m] == impls[m])
      && (forall m :: m in names ==> m in after && after[m] == ShimFor(scope, w, m, "_", impls[m]))
      && (forall k :: k in impls && k !in names && !StartsWith(k, "_") ==> k in after && after[k] == impls[k])
  {
    UnderscoreAliasesAreFresh(names);
    WrapAllFresh(scope, impls, names, "_", w);
  }

  /**
   * The `names |= select_instance_methods(...) if include_...` chain that
   * `track_performance` and `track_memory` share: the enabled public,
   * protected and private selections, in that order, without duplicates.
   */
  method TrackedNames(listing: seq<MethodEntry>, inherited: bool, includePublic: bool, includeProtected: bool, includePrivate: bool)
    returns (names: seq<string>)
    ensures names == Uniq(EnabledSelections(listing, inherited, includePublic, includeProtected, includePrivate))
    ensures forall m :: m in names <==>
      || (includePublic && m in SelectInstanceMethods(listing, PublicArg, inherited))
      || (includeProtected && m in SelectInstanceMethods(listing, ProtectedArg, inherited))
      || (includePrivate && m in SelectInstanceMethods(listing, PrivateArg, inherited))
    ensures Distinct(names)
    ensures forall m :: m in names ==> !Excluded(listing, ReservedInstanceMethods, m) && exists e :: e in listing && e.name == m
  {
    var pub := if includePublic then SelectInstanceMethods(listing, PublicArg, inherited) else [];
    var prot := if includeProtected then SelectInstanceMethods(listing, ProtectedArg, inherited) else [];
    var priv := if includePrivate then SelectInstanceMethods(listing, PrivateArg, inherited) else [];
    names := [];
    if includePublic {
      names := ArrayUnion(names, pub);
    }
    assert names == Uniq(pub) by {
      assert [] + pub == pub;
      if !includePublic {
        assert pub == [];
      }
    }
    if includeProtected {
      names := ArrayUnion(names, prot);
    }
    assert names == Uniq(pub + prot) by {
      UniqOfUniqPrefix(pub, prot);
      if !includeProtected {
        assert pub + prot == pub;
      }
    }
    if includePrivate {
      names := ArrayUnion(names, priv);
    }
    assert names == Uniq(pub + prot + priv) by {
      UniqOfUniqPrefix(pub + prot, priv);
      if !includePrivate {
        assert pub + prot + priv == pub + prot;
      }
    }
    forall m | m in names
      ensures !Excluded(listing, ReservedInstanceMethods, m) && exists e :: e in listing && e.name == m
    {
      SelectionMembership(listing, ReservedInstanceMethods, PublicArg, inherited, m);
      SelectionMembership(listing, ReservedInstanceMethods, ProtectedArg, inherited, m);
      SelectionMembership(listing, ReservedInstanceMethods, PrivateArg, inherited, m);
    }
  }

  /** The selections the enabled flags contribute, concatenated. */
  function EnabledSelections(listing: seq<MethodEntry>, inherited: bool, includePublic: bool, includeProtected: bool, includePrivate: bool): seq<string> {
    (if includePublic then SelectInstanceMethods(listing, PublicArg, inherited) else [])
    + (if includeProtected then SelectInstanceMethods(listing, ProtectedArg, inherited) else [])
    + (if includePrivate then SelectInstanceMethods(listing, PrivateArg, inherited) else [])
  }
}
