/**
 * The trace registry: the table from trace key to creation frame, the
 * per-argument include cache, and the `register` / `trace` operations.
 */
module Registry {
  import opened Wrappers
  import opened JavaStrings
  import opened Configuration
  import opened TraceKeys
  import opened Frames

  type Traces = map<TraceKey, Frame>

  /** Some entry of `prefixes` is a prefix of `name` (`anyMatch(name::startsWith)`). */
  predicate HasPrefixIn(name: string, prefixes: set<string>) {
    exists p :: p in prefixes && StartsWith(name, p)
  }

  /**
   * What `trace` answers for a lambda class against a table: the stored frame,
   * or empty when the key is null or absent; a name without the lambda marker
   * throws, as `key` does.
   */
  function Lookup(traces: Traces, lambdaClass: JClass): (r: Result<Option<Frame>, JavaException>)
    ensures r.Failure? <==> !Contains(lambdaClass.name, LambdaMarker)
    ensures r.Success? && r.value.Some? ==>
      KeyOf(lambdaClass).value.Some? && Get(traces, KeyOf(lambdaClass).value.value) == r.value
    ensures KeyOf(lambdaClass) == Success(None) ==> r == Success(None)
    ensures KeyOf(lambdaClass).Success? && KeyOf(lambdaClass).value.Some? ==>
      r == Success(Get(traces, KeyOf(lambdaClass).value.value))
  {
    match KeyOf(lambdaClass)
    case Failure(e) => Failure(e)
    case Success(None) => Success(None)
    case Success(Some(k)) => Success(Get(traces, k))
  }

  /** The table and how `register` ended. */
  datatype Recorded = Recorded(traces: Traces, outcome: Outcome)

  /**
   * The part of `register` after inclusion was decided: walk the stack and,
   * if a caller frame is found, put it under `key(lambdaClass)`. A null key
   * makes the concurrent map's `put` throw; a name without the marker makes
   * `key` throw. Either way the table is unchanged.
   */
  function RecordCaller(traces: Traces, lambdaClass: JClass, stack: seq<Frame>): (r: Recorded)
    ensures CallerFrame(stack).None? ==> r == Recorded(traces, Normal)
    ensures r.outcome.Threw? ==> r.traces == traces && CallerFrame(stack).Some?
    ensures r.outcome == Threw(NullPointer) <==> CallerFrame(stack).Some? && KeyOf(lambdaClass) == Success(None)
    ensures r.outcome == Threw(StringIndexOutOfBounds) <==>
      CallerFrame(stack).Some? && !Contains(lambdaClass.name, LambdaMarker)
    ensures forall k :: KeyOf(lambdaClass) != Success(Some(k)) ==> Get(r.traces, k) == Get(traces, k)
    ensures r.outcome.Normal? && CallerFrame(stack).Some? ==>
      Lookup(r.traces, lambdaClass) == Success(Some(CallerFrame(stack).value))
  {
    match CallerFrame(stack)
    case None => Recorded(traces, Normal)
    case Some(f) =>
      match KeyOf(lambdaClass)
      case Failure(e) => Recorded(traces, Threw(e))
      case Success(None) => Recorded(traces, Threw(NullPointer))
      case Success(Some(k)) => Recorded(traces[k := f], Normal)
  }

  /**
   * Recording one lambda class leaves what `trace` answers for every class
   * that does not resolve to the same key as it was,
   * including classes whose key is null or that lack the marker.
   */
  lemma RecordCallerIsolated(traces: Traces, recorded: JClass, queried: JClass, stack: seq<Frame>)
    requires forall k :: KeyOf(recorded) == Success(Some(k)) ==> KeyOf(queried) != Success(Some(k))
    ensures Lookup(RecordCaller(traces, recorded, stack).traces, queried) == Lookup(traces, queried)
  {
    var r := RecordCaller(traces, recorded, stack);
    match KeyOf(queried)
    case Failure(_) =>
    case Success(None) =>
    case Success(Some(k)) =>
      assert Get(r.traces, k) == Get(traces, k);
  }

  /** The process-wide tracer; here an object the caller constructs and passes. */
  class LambdaTracer {
    var traces: Traces
    var argCache: map<string, set<string>>
    const lambdaIncludes: set<string>
    const packageIncludes: set<string>

    /** Every cached argument string maps to its own parse. */
    ghost predicate Valid()
      reads this
    {
      forall args :: args in argCache ==> argCache[args] == ParseIncludes(Some(args))
    }

    /**
     * Merges each override file into the defaults, then parses the two
     * include properties; both tables start empty.
     */
    constructor (defaults: Properties, overrides: seq<Properties>)
      ensures Valid()
      ensures traces == map[] && argCache == map[]
      ensures lambdaIncludes == ParseIncludes(Get(ApplyOverrides(defaults, overrides), LambdaIncludesKey))
      ensures packageIncludes == ParseIncludes(Get(ApplyOverrides(defaults, overrides), PackageIncludesKey))
    {
      var configuration := MergeConfiguration(defaults, overrides);
      lambdaIncludes := ParseIncludes(Get(configuration, LambdaIncludesKey));
      packageIncludes := ParseIncludes(Get(configuration, PackageIncludesKey));
      traces := map[];
      argCache := map[];
    }

    /**
     * The inclusion filter: the owner name has a prefix among the static and
     * the argument's package includes, and the interface name is exactly one
     * of the lambda includes.
     */
    predicate Includes(ownerName: string, lambdaName: string, args: string) {
      HasPrefixIn(ownerName, packageIncludes + ParseIncludes(Some(args))) && lambdaName in lambdaIncludes
    }

    /**
     * `isIncluded`: parses `args` once and caches it (`computeIfAbsent`), then
     * applies the filter. An existing cache entry is kept, and no other entry
     * changes.
     */
    method IsIncluded(owner: JClass, lambda: JClass, args: string) returns (included: bool)
      requires Valid()
      modifies this`argCache
      ensures Valid()
      ensures argCache == old(argCache)[args := ParseIncludes(Some(args))]
      ensures args in old(argCache) ==> argCache == old(argCache)
      ensures included <==> Includes(owner.name, lambda.name, args)
    {
      if args !in argCache {
        argCache := argCache[args := ParseIncludes(Some(args))];
      }
      var includesOwner := HasPrefixIn(owner.name, packageIncludes + argCache[args]);
      var includesLambda := lambda.name in lambdaIncludes;
      included := includesOwner && includesLambda;
    }

    /**
     * `register`: nothing is walked or stored for an excluded lambda;
     * otherwise the caller frame is recorded under the lambda class's key.
     */
    method Register(implClass: JClass, lambdaType: JClass, lambdaClass: JClass, agentArgs: string, stack: seq<Frame>)
      returns (outcome: Outcome)
      requires Valid()
      modifies this
      ensures Valid()
      ensures argCache == old(argCache)[agentArgs := ParseIncludes(Some(agentArgs))]
      ensures !Includes(implClass.name, lambdaType.name, agentArgs) ==>
        traces == old(traces) && outcome == Normal
      ensures Includes(implClass.name, lambdaType.name, agentArgs) ==>
        Recorded(traces, outcome) == RecordCaller(old(traces), lambdaClass, stack)
    {
      var included := IsIncluded(implClass, lambdaType, agentArgs);
      if !included {
        return Normal;
      }
      var caller := CallerFrame(stack);
      outcome := Normal;
      if caller.Some? {
        match KeyOf(lambdaClass)
        case Failure(e) =>
          outcome := Threw(e);
        case Success(None) =>
          outcome := Threw(NullPointer);
        case Success(Some(k)) =>
          traces := traces[k := caller.value];
      }
    }

    /** `trace`: the frame stored for the lambda class, if any; changes nothing. */
    method Trace(lambdaClass: JClass) returns (r: Result<Option<Frame>, JavaException>)
      ensures r == Lookup(traces, lambdaClass)
    {
      var key := KeyOf(lambdaClass);
      if key.Failure? {
        return Failure(key.error);
      }
      r := Success(None);
      if key.value.Some? && key.value.value in traces {
        r := Success(Some(traces[key.value.value]));
      }
    }
  }

  /**
   * A `register` that finds a caller frame for a marked lambda class whose
   * owner loads is seen by the next `trace` of that class.
   */
  method RegisterThenTrace(tracer: LambdaTracer, implClass: JClass, lambdaType: JClass, lambdaClass: JClass,
                           agentArgs: string, stack: seq<Frame>)
    returns (r: Result<Option<Frame>, JavaException>)
    requires tracer.Valid()
    modifies tracer
    ensures tracer.Valid()
    ensures tracer.Includes(implClass.name, lambdaType.name, agentArgs) && CallerFrame(stack).Some?
            && KeyOf(lambdaClass).Success? && KeyOf(lambdaClass).value.Some? ==>
      r == Success(Some(CallerFrame(stack).value))
  {
    var _ := tracer.Register(implClass, lambdaType, lambdaClass, agentArgs, stack);
    r := tracer.Trace(lambdaClass);
  }
}
