/**
 * The interception hook's side of the contract: which declaring classes it
 * never reports, the default it substitutes for absent agent arguments, and
 * that whatever `register` throws is swallowed.
 */
module Agent {
  import opened Wrappers
  import opened JavaStrings
  import opened TraceKeys
  import opened Frames
  import opened Configuration
  import opened Registry

  /** What the hook passes when the agent was started without arguments. */
  const NullArgs: string := ""

  /** Lambdas declared here would recurse into the tracer. */
  const TracerClassName: string := "com.eisgroup.javaagent.LambdaTracer"

  /** The hook ignores lambdas declared by the tracer itself or by platform classes. */
  predicate ExcludedCaller(callerName: string) {
    || StartsWith(callerName, TracerClassName)
    || StartsWith(callerName, "java.")
    || StartsWith(callerName, "jdk.")
    || StartsWith(callerName, "sun.")
  }

  /** `Optional.ofNullable(agentArgs).orElse(NULL_ARGS)`. */
  function ArgsOrDefault(agentArgs: Option<string>): (r: string)
    ensures agentArgs.Some? ==> r == agentArgs.value
    ensures agentArgs.None? ==> r == NullArgs
  {
    match agentArgs
    case Some(a) => a
    case None => NullArgs
  }

  /**
   * The hook run after a lambda class is spun: excluded callers are ignored;
   * otherwise `register` runs with the defaulted arguments and any exception
   * it throws is suppressed.
   */
  method Intercept(tracer: LambdaTracer, implClass: JClass, samBase: JClass, lambdaClass: JClass,
                   agentArgs: Option<string>, stack: seq<Frame>)
    requires tracer.Valid()
    modifies tracer
    ensures tracer.Valid()
    ensures ExcludedCaller(implClass.name) ==>
      tracer.traces == old(tracer.traces) && tracer.argCache == old(tracer.argCache)
    ensures !ExcludedCaller(implClass.name) ==>
      var args := ArgsOrDefault(agentArgs);
      && tracer.argCache == old(tracer.argCache)[args := ParseIncludes(Some(args))]
      && tracer.traces == if tracer.Includes(implClass.name, samBase.name, args)
                          then RecordCaller(old(tracer.traces), lambdaClass, stack).traces
                          else old(tracer.traces)
  {
    if ExcludedCaller(implClass.name) {
      return;
    }
    var _ := tracer.Register(implClass, samBase, lambdaClass, ArgsOrDefault(agentArgs), stack);
  }
}
