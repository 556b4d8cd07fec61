/**
 * Bounded stack capture (getstacktrace in vld.cpp). The platform stack
 * walker, StackWalk64, is an abstract input: the i-th call it would make
 * returns walk[i], whether it succeeded and the frame pointer and program
 * counter it left in the STACKFRAME64 structure. A walk that has run out
 * of steps fails.
 */
module CallStacks {

  datatype WalkStep = WalkStep(ok: bool, framePointer: nat, pc: nat)

  /** The program counters of the frames, most recent first. */
  type CallStack = seq<nat>

  /** The property a captured stack has, stated once for the function and the method. */
  predicate IsCapture(walk: seq<WalkStep>, maxFrames: nat, cs: CallStack)
  {
    && |cs| <= maxFrames
    && |cs| <= |walk|
    // every pushed frame came from a successful step with a non-zero frame pointer, in walk order
    && (forall i :: 0 <= i < |cs| ==> walk[i].ok && walk[i].framePointer != 0 && cs[i] == walk[i].pc)
    // the capture stops only at the cap, the end of the walk, a failed step or a zero frame pointer
    && (|cs| < maxFrames && |cs| < |walk| ==> !walk[|cs|].ok || walk[|cs|].framePointer == 0)
  }

  /** The stack that walking captures, as a function for the ledger's specification. */
  function Captured(walk: seq<WalkStep>, maxFrames: nat): CallStack
  {
    if maxFrames == 0 || walk == [] || !walk[0].ok || walk[0].framePointer == 0 then []
    else [walk[0].pc] + Captured(walk[1..], maxFrames - 1)
  }

  lemma {:induction false} CapturedIsCapture(walk: seq<WalkStep>, maxFrames: nat)
    ensures IsCapture(walk, maxFrames, Captured(walk, maxFrames))
  {
    if !(maxFrames == 0 || walk == [] || !walk[0].ok || walk[0].framePointer == 0) {
      CapturedIsCapture(walk[1..], maxFrames - 1);
      var rest := Captured(walk[1..], maxFrames - 1);
      assert forall i :: 1 <= i < |rest| + 1 ==> walk[i] == walk[1..][i - 1];
    }
  }

  /** The capture is determined: only one stack has the capture property. */
  lemma {:induction false} CaptureIsUnique(walk: seq<WalkStep>, maxFrames: nat, cs: CallStack)
    requires IsCapture(walk, maxFrames, cs)
    ensures cs == Captured(walk, maxFrames)
  {
    if cs != [] {
      assert walk[0].ok && walk[0].framePointer != 0 && cs[0] == walk[0].pc;
      assert forall i :: 0 <= i < |cs| - 1 ==> cs[1..][i] == cs[i + 1] && walk[1..][i] == walk[i + 1];
      if |cs| - 1 < maxFrames - 1 && |cs| - 1 < |walk| - 1 {
        assert walk[1..][|cs| - 1] == walk[|cs|];
      }
      CaptureIsUnique(walk[1..], maxFrames - 1, cs[1..]);
    }
  }

  /**
   * getstacktrace: at most maxFrames (_VLD_maxtraceframes) steps of the
   * walker are taken; the loop stops at the first failed step or at the
   * first frame whose frame pointer is 0, and that frame is not pushed.
   */
  method GetStackTrace(walk: seq<WalkStep>, maxFrames: nat) returns (callstack: CallStack)
    ensures IsCapture(walk, maxFrames, callstack)
    ensures callstack == Captured(walk, maxFrames)
  {
    callstack := [];
    var count: nat := 0;
    while count < maxFrames
      invariant count <= maxFrames && count <= |walk|
      invariant |callstack| == count
      invariant forall i :: 0 <= i < count ==>
                  walk[i].ok && walk[i].framePointer != 0 && callstack[i] == walk[i].pc
    {
      count := count + 1;
      // The count-th call of StackWalk64.
      if count > |walk| || !walk[count - 1].ok {
        // Couldn't trace back through any more frames.
        break;
      }
      if walk[count - 1].framePointer == 0 {
        // End of stack.
        break;
      }
      callstack := callstack + [walk[count - 1].pc];
    }
    CaptureIsUnique(walk, maxFrames, callstack);
  }
}
