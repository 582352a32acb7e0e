# Lambda trace registry

A model of the registry at the core of the lambda-trace Java agent
(`LambdaTracer`). The registry records the stack frame that created a
generated lambda class, but only when four conditions hold:

- the hook does not exclude the lambda's declaring class;
- the lambda passes the two-part include filter;
- a non-runtime frame remains past the first 6 frames;
- the owner class loads.

Later, `trace(lambdaClass)` can answer "where was this lambda created?" for
the lambdas that were recorded.

The model covers these parts:

- **Configuration** (`configuration.dfy`). A default property file is merged
  with each override file in turn. `merge` joins the values of a shared key
  with a comma, and `replaceAll` only rewrites keys the defaults already have.
  The two include properties are then parsed with `parseIncludes`, which
  splits on commas and drops empty segments. Each property file is the
  `map<string, string>` it loads into.
- **Java strings** (`java_strings.dfy`). `startsWith`, `indexOf` and
  `String.split(",")`, including the rule that trailing empty strings are
  removed.
- **Trace keys** (`trace_keys.dfy`). A `TraceKey` pairs the owner class with
  the lambda discriminator. `key` takes the name before the first `$$Lambda`
  as the owner, resolves it through the lambda class's own loader, and keeps
  the rest of the name, marker included, as the id. A loader is a partial map
  from class names to class identities.
- **Stack walk** (`frames.dfy`). The stack is a `seq<Frame>`. `register`
  skips 6 frames, drops leading frames whose class name starts with `java` or
  `net.bytebuddy`, and takes the first frame left.
- **Registry** (`registry.dfy`). The class `LambdaTracer` holds:
  - the `traces` table;
  - the per-argument include cache (`argLinePackageIncludes`, here `argCache`);
  - the two include sets, as constant fields.

  Its methods are `IsIncluded` (the two-part filter plus the memoised parse),
  `Register` and `Trace`.
- **Hook** (`agent.dfy`). The interceptor's part of the contract:
  - it skips lambdas declared by the tracer or by `java.`, `jdk.` and `sun.`
    classes;
  - it passes `""` when the agent was started without arguments;
  - it suppresses whatever `register` throws.

The Java singleton becomes an object that the caller constructs and passes.
Exceptions that escape Java methods are modelled as values (`Result`,
`Outcome`):

- `key` on a name without `$$Lambda` fails in `substring(0, -1)` with
  `StringIndexOutOfBounds`.
- When the owner does not load, `key` returns null. `register` then calls
  `put` with a null key, and the concurrent map throws `NullPointer`.

In both cases the table is unchanged.

Points where the code's behaviour is easy to miss:

- `replaceAll` (`LambdaTracer.java:46`) only visits keys the defaults already
  have, so a key that only an override file sets is dropped
  (`ApplyOverridesKeys`, `ApplyOverridesIncludes`).
- `trace` throws `StringIndexOutOfBounds` for a class whose name has no
  `$$Lambda` (`LambdaTracer.java:107`), rather than returning empty (`Lookup`).
- The lambda id is the whole remainder of the name after the owner prefix,
  marker included (`LambdaTracer.java:109`).
- `register` and `trace` both call the one `key` function.

## Model

| member | source | states |
|---|---|---|
| JavaStrings.StartsWith | src/main/java/com/eisgroup/javaagent/LambdaTracer.java:89-90 | `startsWith` holds exactly when the prefix is no longer than the string and agrees with it character by character |
| JavaStrings.IndexOf | src/main/java/com/eisgroup/javaagent/LambdaTracer.java:107 | the result is -1 exactly when the marker does not occur; otherwise the marker occurs there and at no earlier index |
| JavaStrings.Split | src/main/java/com/eisgroup/javaagent/LambdaTracer.java:125 | `split(",")`, trailing-empty removal included, has the same non-empty elements as the plain comma segments |
| JavaStrings.JoinSegments | src/main/java/com/eisgroup/javaagent/LambdaTracer.java:125 | re-joining the comma segments of a string with commas gives the string back |
| JavaStrings.SegmentsJoin | src/main/java/com/eisgroup/javaagent/LambdaTracer.java:125 | comma-free parts joined with commas split back into exactly those parts |
| JavaStrings.SegmentsConcat | src/main/java/com/eisgroup/javaagent/LambdaTracer.java:137 | the segments of `a + "," + b` are the segments of `a` followed by those of `b` |
| Configuration.ParseIncludes | src/main/java/com/eisgroup/javaagent/LambdaTracer.java:123-128 | null gives the empty set; otherwise the result is exactly the non-empty comma segments, so it never holds "" or a comma |
| Configuration.ParseIncludesDropsEmpty | src/main/java/com/eisgroup/javaagent/LambdaTracer.java:123-128 | `",,a,"` parses to `{"a"}` and `""` to the empty set |
| Configuration.Merge | src/main/java/com/eisgroup/javaagent/LambdaTracer.java:130-138 | the merge is null only when both sides are null |
| Configuration.MergeParsesToUnion | src/main/java/com/eisgroup/javaagent/LambdaTracer.java:130-138 | parsing a merged value gives the union of parsing the two sides |
| Configuration.ReplaceAll | src/main/java/com/eisgroup/javaagent/LambdaTracer.java:46 | keeps exactly the configuration's keys; a key the override lacks keeps its value; otherwise the value is `base + "," + override` |
| Configuration.MergeConfiguration | src/main/java/com/eisgroup/javaagent/LambdaTracer.java:43-47 | the loop over the override files applies each one in order (the fold `ApplyOverrides`) and adds no key |
| Configuration.ApplyOverrides | src/main/java/com/eisgroup/javaagent/LambdaTracer.java:44-47 | the configuration after each override file has been applied with `replaceAll`, in order; its properties are the lemmas below |
| Configuration.ApplyOverridesKeys | src/main/java/com/eisgroup/javaagent/LambdaTracer.java:44-47 | after any number of overrides the keys are exactly those of the defaults |
| Configuration.ApplyOverridesValue | src/main/java/com/eisgroup/javaagent/LambdaTracer.java:44-47 | a default key ends up holding its default value, then every override value, comma-joined in the order the files are applied |
| Configuration.ApplyOverridesUntouched | src/main/java/com/eisgroup/javaagent/LambdaTracer.java:44-47 | a default key that no override sets keeps its default value |
| Configuration.ApplyOverridesIncludes | src/main/java/com/eisgroup/javaagent/LambdaTracer.java:43-49 | the parsed include set is the default's entries united with every override's entries; a key only overrides set parses to the empty set |
| TraceKeys.TraceKey.Equals | src/main/java/com/eisgroup/javaagent/LambdaTracer.java:161-171 | `equals` holds exactly for a non-null key with the same owner and the same lambda id |
| TraceKeys.KeyOf | src/main/java/com/eisgroup/javaagent/LambdaTracer.java:104-113 | throws exactly when the name lacks `$$Lambda`; null exactly when the owner prefix does not load; otherwise the owner is the loaded prefix and the id is the marker-led remainder, which completes the name |
| TraceKeys.KeyOfLambdaName | src/main/java/com/eisgroup/javaagent/LambdaTracer.java:104-113 | for `P + "$$Lambda" + S` with the first marker after `P`, the key is `(load(P), "$$Lambda" + S)`, or null when `P` does not load |
| TraceKeys.KeyOfInjective | src/main/java/com/eisgroup/javaagent/LambdaTracer.java:109 | under one loader that loads distinct names as distinct classes, equal resolved keys come from the same lambda class name |
| Frames.IsRuntimeFrame | src/main/java/com/eisgroup/javaagent/LambdaTracer.java:89-90 | a frame is dropped when its class name starts with `java` or `net.bytebuddy` |
| Frames.Skip | src/main/java/com/eisgroup/javaagent/LambdaTracer.java:88 | `skip(n)` gives nothing for a stack of at most n frames, otherwise the frames from index n on |
| Frames.DropRuntimeFrames | src/main/java/com/eisgroup/javaagent/LambdaTracer.java:89-90 | the result is a suffix of the input; every dropped frame is a `java` or `net.bytebuddy` frame, and the first kept frame is not |
| Frames.FindFirst | src/main/java/com/eisgroup/javaagent/LambdaTracer.java:91 | `findFirst` is empty exactly for no frames, otherwise the first frame |
| Frames.CallerFrame | src/main/java/com/eisgroup/javaagent/LambdaTracer.java:87-91 | there is no frame exactly when every frame past the first 6 is a runtime frame; otherwise the frame is the first such non-runtime frame |
| Frames.CallerFrameAfterRuntime | src/main/java/com/eisgroup/javaagent/LambdaTracer.java:87-91 | with 6 machinery frames, then k runtime frames, then an application frame, the recorded frame is stack index 6 + k |
| Registry.Lookup | src/main/java/com/eisgroup/javaagent/LambdaTracer.java:62-66 | `trace` throws only for names without the marker; it is empty when the key is null; for a resolved key it returns exactly what the table holds under it, so a stored frame is found and any frame returned is stored |
| Registry.RecordCaller | src/main/java/com/eisgroup/javaagent/LambdaTracer.java:87-92 | with no caller frame nothing happens; a throw leaves the table as it was; only the lambda's key can change; afterwards `trace` returns the recorded frame |
| Registry.RecordCallerIsolated | src/main/java/com/eisgroup/javaagent/LambdaTracer.java:92 | recording one lambda class does not change what `trace` answers for any class that does not resolve to the same key, unresolved and unmarked classes included |
| Registry.LambdaTracer.constructor | src/main/java/com/eisgroup/javaagent/LambdaTracer.java:38-53 | both tables start empty, and the include sets are the parses of the merged configuration's two properties |
| Registry.HasPrefixIn | src/main/java/com/eisgroup/javaagent/LambdaTracer.java:99 | `anyMatch(name::startsWith)`: some entry of the set is a prefix of the name |
| Registry.LambdaTracer.Includes | src/main/java/com/eisgroup/javaagent/LambdaTracer.java:97-101 | the filter `IsIncluded` is stated against: a prefix among the static and argument package includes, and the interface name in the lambda includes |
| Registry.LambdaTracer.IsIncluded | src/main/java/com/eisgroup/javaagent/LambdaTracer.java:96-102 | true iff the owner has a prefix among the static and argument package includes AND the interface is in the lambda includes; the cache gains the argument's parse, keeps an existing entry and changes no other |
| Registry.LambdaTracer.Register | src/main/java/com/eisgroup/javaagent/LambdaTracer.java:76-94 | an excluded lambda leaves the table untouched and throws nothing; an included one records its caller frame as `RecordCaller` states |
| Registry.LambdaTracer.Trace | src/main/java/com/eisgroup/javaagent/LambdaTracer.java:62-66 | answers `Lookup` on the current table and modifies nothing |
| Registry.RegisterThenTrace | src/main/java/com/eisgroup/javaagent/LambdaTracer.java:87-92 | a registration that records a frame for a resolvable lambda class makes the next `trace` return that frame |
| Agent.ArgsOrDefault | src/main/java/com/eisgroup/javaagent/LambdaJavaAgent.java:48-49 | absent agent arguments become the empty string; present ones pass through |
| Agent.ExcludedCaller | src/main/java/com/eisgroup/javaagent/LambdaJavaAgent.java:85-89 | the hook ignores lambdas declared by the tracer itself or by `java.`, `jdk.` and `sun.` classes |
| Agent.Intercept | src/main/java/com/eisgroup/javaagent/LambdaJavaAgent.java:79-108 | a lambda declared by the tracer or by a `java.`, `jdk.` or `sun.` class changes nothing; any other lambda is registered with the defaulted arguments, and a throw is ignored |

## Left out

- Resource discovery and property-file loading (`URLClassLoader`, `getResources`, `Properties.load`) are I/O. Each file is given as an already-loaded map, in discovery order. A missing defaults file (a fatal initialisation error) is not modelled.
- `StackWalker` and `StackFrame.toString` are replaced by a given `seq<Frame>`. The `toString` rendering stored beside each frame is not kept, because `trace` returns only the frame.
- Class loaders are partial maps from names to class identities. The bootstrap (null) loader, which would make `key` throw, is not modelled.
- A null `agentArgs` passed to `register` directly is not modelled. The hook always substitutes `""`, and a null key would make `computeIfAbsent` throw.
- Thread safety of the two concurrent maps is not modelled. Operations run one at a time.
- The `lambdaagent.debug` console line is output only.
- `TraceKey.hashCode` is not modelled, because Dafny's value equality needs no hash.
- Agent installation is left out, because it is ByteBuddy class redefinition. The reflective reads of `samBase` and `interfaceClass` are left out too. The hook's interface argument is given directly.
- The `Method` that the hook caches in the system properties is not modelled, because it is reflective plumbing with no effect on the table.
