/**
 * Creation-site frames and the stack walk `register` performs:
 * skip the innermost frames, drop leading runtime frames, take the first.
 */
module Frames {
  import opened Wrappers
  import opened JavaStrings

  /** A `StackFrame`: declaring class, method, and source position if known. */
  datatype Frame = Frame(className: string, methodName: string, fileName: Option<string>, lineNumber: int)

  /** Frames of the interception machinery itself, skipped unconditionally. */
  const SkippedFrames: nat := 6

  /** Frames of the platform library or of the instrumentation library. */
  predicate IsRuntimeFrame(f: Frame) {
    StartsWith(f.className, "java") || StartsWith(f.className, "net.bytebuddy")
  }

  /** `Stream.skip(n)`: nothing when the stream is shorter than `n`. */
  function Skip(frames: seq<Frame>, n: nat): (r: seq<Frame>)
    ensures |frames| <= n ==> r == []
    ensures n < |frames| ==> r == frames[n..]
  {
    if |frames| <= n then [] else frames[n..]
  }

  /** `dropWhile(isRuntimeFrame)`: the suffix after the leading runtime frames. */
  function DropRuntimeFrames(frames: seq<Frame>): (r: seq<Frame>)
    ensures |r| <= |frames| && r == frames[|frames| - |r|..]
    ensures forall j :: 0 <= j < |frames| - |r| ==> IsRuntimeFrame(frames[j])
    ensures r != [] ==> !IsRuntimeFrame(r[0])
    decreases |frames|
  {
    if frames != [] && IsRuntimeFrame(frames[0]) then DropRuntimeFrames(frames[1..]) else frames
  }

  /** `findFirst`. */
  function FindFirst(frames: seq<Frame>): (r: Option<Frame>)
    ensures r.None? <==> |frames| == 0
    ensures r.Some? ==> r.value == frames[0]
  {
    if frames == [] then None else Some(frames[0])
  }

  /**
   * The frame `register` records: the first frame past the skipped ones that
   * is not a runtime frame, or none when there is no such frame.
   */
  function CallerFrame(stack: seq<Frame>): (r: Option<Frame>)
    ensures r.None? <==> forall i :: SkippedFrames <= i < |stack| ==> IsRuntimeFrame(stack[i])
    ensures r.Some? ==> exists i ::
      && SkippedFrames <= i < |stack|
      && stack[i] == r.value
      && !IsRuntimeFrame(stack[i])
      && forall j :: SkippedFrames <= j < i ==> IsRuntimeFrame(stack[j])
  {
    var frames := Skip(stack, SkippedFrames);
    var rest := DropRuntimeFrames(frames);
    assert forall i :: SkippedFrames <= i < |stack| ==> stack[i] == frames[i - SkippedFrames];
    assert rest != [] ==> stack[SkippedFrames + |frames| - |rest|] == rest[0];
    FindFirst(rest)
  }

  /**
   * A stack whose innermost `SkippedFrames` frames are the machinery and whose
   * next `k` frames are runtime frames yields frame `SkippedFrames + k`.
   */
  lemma CallerFrameAfterRuntime(stack: seq<Frame>, k: nat)
    requires SkippedFrames + k < |stack|
    requires forall j :: SkippedFrames <= j < SkippedFrames + k ==> IsRuntimeFrame(stack[j])
    requires !IsRuntimeFrame(stack[SkippedFrames + k])
    ensures CallerFrame(stack) == Some(stack[SkippedFrames + k])
  {
    var r := CallerFrame(stack);
    var i :| SkippedFrames <= i < |stack| && stack[i] == r.value && !IsRuntimeFrame(stack[i])
          && forall j :: SkippedFrames <= j < i ==> IsRuntimeFrame(stack[j]);
    assert i == SkippedFrames + k;
  }
}
