/**
 * The allocation hook and its ledger (allochook, hookmalloc, hookfree and
 * hookrealloc in vld.cpp). The debug heap serialises calls to the hook, so
 * the model is sequential.
 *
 * The ledger m_mallocmap maps allocation request numbers to the call stack
 * captured when the block was allocated. Updating the ledger itself
 * allocates and frees memory inside the CRT; those heap operations re-enter
 * the hook while `inallochook` is set. In the model they are the `internal`
 * events a handler raises, and they go back through AllocHook.
 */
module Detector {
  import opened Common
  import opened CallStacks
  import opened Messages
  import Leaks
  import SearchPath

  // Hook types and the block use the CRT passes to an allocation hook (crtdbg.h).
  const HOOK_ALLOC: int := 1
  const HOOK_REALLOC: int := 2
  const HOOK_FREE: int := 3
  const CRT_BLOCK: int := 2

  /**
   * One call of the allocation hook. `blockRequest` is the request number
   * stored in the header of the block `pdata` points to (meaningful for
   * frees and reallocs); `request` is the hook's own request argument. The
   * file and line arguments are ignored by the hook and left out.
   */
  datatype HookCall = HookCall(hookType: int, blockRequest: int, size: nat, use: int, request: int)

  /** A previously installed hook, as the status it returns for each call. */
  type HookFn = HookCall -> int

  type Ledger = map<int, CallStack>

  /** What a hook call does, in the order it does it. */
  datatype Effect =
    | Recorded(request: int, stack: CallStack)   // m_mallocmap->insert
    | Erased(request: int)                       // m_mallocmap->erase
    | Chained(call: HookCall)                    // m_poldhook(...)

  /** The hook does not track the call: it is re-entrant or it is for a CRT block. */
  predicate Bypassed(inAllocHook: bool, call: HookCall)
  {
    inAllocHook || call.use == CRT_BLOCK
  }

  /** The ledger after a tracked hook call. */
  function Track(ledger: Ledger, call: HookCall, walk: seq<WalkStep>, maxFrames: nat): Ledger
  {
    if call.hookType == HOOK_ALLOC then ledger[call.request := Captured(walk, maxFrames)]
    else if call.hookType == HOOK_FREE then ledger - {call.blockRequest}
    else if call.hookType == HOOK_REALLOC then
      (ledger - {call.blockRequest})[call.blockRequest := Captured(walk, maxFrames)]
    else ledger
  }

  /** The ledger after any hook call, tracked or bypassed. */
  function Step(ledger: Ledger, inAllocHook: bool, call: HookCall, walk: seq<WalkStep>, maxFrames: nat): Ledger
  {
    if Bypassed(inAllocHook, call) then ledger else Track(ledger, call, walk, maxFrames)
  }

  /** The status the hook returns: the old hook's, or true (1) when there is none. */
  function Status(oldHook: Option<HookFn>, call: HookCall): int
  {
    if oldHook.Some? then oldHook.value(call) else 1
  }

  /** The effect of chaining one call to the old hook. */
  function Forward(oldHook: Option<HookFn>, call: HookCall): seq<Effect>
  {
    if oldHook.Some? then [Chained(call)] else []
  }

  /** Chaining a sequence of calls, in order. */
  function ForwardAll(oldHook: Option<HookFn>, calls: seq<HookCall>): seq<Effect>
  {
    if calls == [] then [] else ForwardAll(oldHook, calls[..|calls| - 1]) + Forward(oldHook, calls[|calls| - 1])
  }

  /** The ledger effects of a tracked call, with the internal heap events its update raises. */
  function TrackEffects(oldHook: Option<HookFn>, call: HookCall, stack: CallStack, internal: seq<HookCall>): seq<Effect>
  {
    if call.hookType == HOOK_ALLOC then ForwardAll(oldHook, internal) + [Recorded(call.request, stack)]
    else if call.hookType == HOOK_FREE then ForwardAll(oldHook, internal) + [Erased(call.blockRequest)]
    else if call.hookType == HOOK_REALLOC then
      [Erased(call.blockRequest)] + ForwardAll(oldHook, internal) + [Recorded(call.blockRequest, stack)]
    else []
  }

  /** Everything a hook call does, ending with the one call to the old hook. */
  function HookEffects(oldHook: Option<HookFn>, inAllocHook: bool, call: HookCall,
                       walk: seq<WalkStep>, maxFrames: nat, internal: seq<HookCall>): seq<Effect>
  {
    if Bypassed(inAllocHook, call) then Forward(oldHook, call)
    else TrackEffects(oldHook, call, Captured(walk, maxFrames), internal) + Forward(oldHook, call)
  }

  class VisualLeakDetector {
    /** m_installed */
    var installed: bool
    /** m_mallocmap */
    var ledger: Ledger
    /** m_poldhook */
    var oldHook: Option<HookFn>
    /** allochook's static inallochook */
    var inAllocHook: bool
    /** The ledger updates and chained calls made so far, in order. */
    var trace: seq<Effect>
    /** The report() calls made so far, in order. */
    var output: seq<Message>
    /** _VLD_maxtraceframes */
    const maxTraceFrames: nat

    /**
     * The constructor: with the debug help library linked, the hook is
     * registered (the hook it replaces becomes the old hook) and the
     * installed message reported; otherwise the detector is not installed.
     * `linked` is the outcome of linkdebughelplibrary.
     */
    constructor (linked: bool, previousHook: Option<HookFn>, maxFrames: nat)
      ensures ledger == map[] && !inAllocHook && trace == [] && maxTraceFrames == maxFrames
      ensures installed == linked
      ensures oldHook == (if linked then previousHook else None)
      ensures output == [Text(if linked then Installed else NotInstalled)]
    {
      ledger := map[];
      inAllocHook := false;
      trace := [];
      maxTraceFrames := maxFrames;
      installed := linked;
      oldHook := if linked then previousHook else None;
      output := [Text(if linked then Installed else NotInstalled)];
    }

    /**
     * allochook. `walk` is what the stack walker yields for this call;
     * `internal` lists the heap calls the ledger update makes inside the CRT,
     * which re-enter the hook.
     */
    method AllocHook(call: HookCall, walk: seq<WalkStep>, internal: seq<HookCall>) returns (status: int)
      modifies this
      decreases |internal|, 4
      ensures status == Status(oldHook, call)
      ensures inAllocHook == old(inAllocHook)
      ensures ledger == Step(old(ledger), old(inAllocHook), call, walk, maxTraceFrames)
      ensures trace == old(trace) + HookEffects(oldHook, old(inAllocHook), call, walk, maxTraceFrames, internal)
      ensures output == old(output)
                        + (if Bypassed(old(inAllocHook), call)
                              || call.hookType in {HOOK_ALLOC, HOOK_FREE, HOOK_REALLOC}
                           then [] else [UnhandledAllocType(call.hookType)])
      ensures installed == old(installed) && oldHook == old(oldHook)
    {
      status := 1;
      if inAllocHook || call.use == CRT_BLOCK {
        // Re-entrant or CRT-internal: only forward.
        if oldHook.Some? {
          status := oldHook.value(call);
          trace := trace + [Chained(call)];
        }
        return;
      }
      inAllocHook := true;
      Dispatch(call, walk, internal);
      if oldHook.Some? {
        status := oldHook.value(call);
        trace := trace + [Chained(call)];
      }
      inAllocHook := false;
    }

    /** allochook's switch on the hook type, with the flag set. */
    method Dispatch(call: HookCall, walk: seq<WalkStep>, internal: seq<HookCall>)
      requires inAllocHook
      modifies this
      decreases |internal|, 3
      ensures ledger == Track(old(ledger), call, walk, maxTraceFrames)
      ensures trace == old(trace) + TrackEffects(oldHook, call, Captured(walk, maxTraceFrames), internal)
      ensures output == old(output)
                        + (if call.hookType in {HOOK_ALLOC, HOOK_FREE, HOOK_REALLOC}
                           then [] else [UnhandledAllocType(call.hookType)])
      ensures inAllocHook && installed == old(installed) && oldHook == old(oldHook)
    {
      if call.hookType == HOOK_ALLOC {
        HookMalloc(call.request, walk, internal);
      } else if call.hookType == HOOK_FREE {
        HookFree(call.blockRequest, internal);
      } else if call.hookType == HOOK_REALLOC {
        HookRealloc(call.blockRequest, walk, internal);
      } else {
        output := output + [UnhandledAllocType(call.hookType)];
      }
    }

    /** The internal heap calls of a ledger update, each re-entering the hook. */
    method RaiseInternal(internal: seq<HookCall>)
      requires inAllocHook
      modifies this
      decreases |internal|, 0
      ensures trace == old(trace) + ForwardAll(oldHook, internal)
      ensures ledger == old(ledger) && output == old(output) && inAllocHook
      ensures installed == old(installed) && oldHook == old(oldHook)
    {
      var i := 0;
      while i < |internal|
        invariant 0 <= i <= |internal|
        invariant trace == old(trace) + ForwardAll(oldHook, internal[..i])
        invariant ledger == old(ledger) && output == old(output) && inAllocHook
        invariant installed == old(installed) && oldHook == old(oldHook)
      {
        var _ := AllocHook(internal[i], [], []);
        assert internal[..i + 1][..i] == internal[..i];
        i := i + 1;
      }
      assert internal[..i] == internal;
    }

    /** hookmalloc: the block's request number now maps to the freshly captured stack. */
    method HookMalloc(request: int, walk: seq<WalkStep>, internal: seq<HookCall>)
      requires inAllocHook
      modifies this
      decreases |internal|, 1
      ensures ledger == old(ledger)[request := Captured(walk, maxTraceFrames)]
      ensures trace == old(trace) + ForwardAll(oldHook, internal) + [Recorded(request, Captured(walk, maxTraceFrames))]
      ensures output == old(output) && inAllocHook
      ensures installed == old(installed) && oldHook == old(oldHook)
    {
      var callstack := GetStackTrace(walk, maxTraceFrames);
      RaiseInternal(internal);
      ledger := ledger[request := callstack];
      trace := trace + [Recorded(request, callstack)];
    }

    /** hookfree: the request number in the freed block's header leaves the ledger. */
    method HookFree(blockRequest: int, internal: seq<HookCall>)
      requires inAllocHook
      modifies this
      decreases |internal|, 1
      ensures ledger == old(ledger) - {blockRequest}
      ensures trace == old(trace) + ForwardAll(oldHook, internal) + [Erased(blockRequest)]
      ensures output == old(output) && inAllocHook
      ensures installed == old(installed) && oldHook == old(oldHook)
    {
      RaiseInternal(internal);
      ledger := ledger - {blockRequest};
      trace := trace + [Erased(blockRequest)];
    }

    /**
     * hookrealloc: a free and then a malloc, both under the request number in
     * the reallocated block's header.
     */
    method HookRealloc(blockRequest: int, walk: seq<WalkStep>, internal: seq<HookCall>)
      requires inAllocHook
      modifies this
      decreases |internal|, 2
      ensures ledger == (old(ledger) - {blockRequest})[blockRequest := Captured(walk, maxTraceFrames)]
      ensures trace == old(trace) + [Erased(blockRequest)] + ForwardAll(oldHook, internal)
                       + [Recorded(blockRequest, Captured(walk, maxTraceFrames))]
      ensures output == old(output) && inAllocHook
      ensures installed == old(installed) && oldHook == old(oldHook)
    {
      // The erase's own internal heap calls are folded into `internal`.
      HookFree(blockRequest, []);
      HookMalloc(blockRequest, walk, internal);
    }

    /**
     * The destructor: when installed, deregister the hook (warning when
     * someone else's hook had replaced it), report the leaks, free the
     * ledger, check the allocated list for blocks of the detector's own and
     * say goodbye. `stillHooked` is whether the hook the CRT hands back on
     * deregistration is allochook; `blocks` is the allocated list the report
     * walks and `remaining` the list the self-check walks.
     */
    method Destructor(stillHooked: bool, command: string, env: SearchPath.Environment, sym: Leaks.Symbols,
                      showUseless: bool, maxDataDump: nat, blocks: seq<Leaks.Block>, remaining: seq<Leaks.Block>,
                      symInitError: Option<int>, symCleanupError: Option<int>)
      requires SearchPath.NoNul(command) && SearchPath.EnvironmentNoNul(env)
      modifies this
      ensures !old(installed) ==> ledger == old(ledger) && output == old(output)
      ensures old(installed) ==> ledger == map[]
      ensures old(installed) ==>
                output == old(output)
                          + (if stillHooked then [] else [Text(UnhookedPrematurely)])
                          + Leaks.LeakReport(sym, showUseless, maxDataDump, old(ledger), blocks,
                                             symInitError, symCleanupError)
                          + Leaks.SelfCheckReport(maxDataDump, remaining)
                          + [Text(Exiting)]
      ensures installed == old(installed) && oldHook == old(oldHook)
      ensures inAllocHook == old(inAllocHook) && trace == old(trace)
    {
      if installed {
        var warning: seq<Message> := [];
        if !stillHooked {
          warning := [Text(UnhookedPrematurely)];
        }
        var _, report := Leaks.ReportLeaks(command, env, sym, showUseless, maxDataDump, ledger, blocks,
                                           symInitError, symCleanupError);
        ledger := map[];
        var selfCheck := Leaks.SelfCheck(maxDataDump, remaining);
        output := output + warning + report + selfCheck + [Text(Exiting)];
      }
    }
  }

  // -----------------------------------------------------------------------
  // Properties of one hook call.

  /** A bypassed call leaves the ledger alone and only forwards. */
  lemma BypassOnlyForwards(oldHook: Option<HookFn>, ledger: Ledger, inAllocHook: bool, call: HookCall,
                           walk: seq<WalkStep>, maxFrames: nat, internal: seq<HookCall>)
    requires Bypassed(inAllocHook, call)
    ensures Step(ledger, inAllocHook, call, walk, maxFrames) == ledger
    ensures HookEffects(oldHook, inAllocHook, call, walk, maxFrames, internal)
            == (if oldHook.Some? then [Chained(call)] else [])
  {
  }

  /** Number of calls to the old hook in a trace. */
  function Chains(t: seq<Effect>): nat
  {
    if t == [] then 0 else Chains(t[..|t| - 1]) + (if t[|t| - 1].Chained? then 1 else 0)
  }

  lemma {:induction false} ChainsAppend(a: seq<Effect>, b: seq<Effect>)
    ensures Chains(a + b) == Chains(a) + Chains(b)
    decreases |b|
  {
    if b != [] {
      assert (a + b)[..|a + b| - 1] == a + b[..|b| - 1];
      assert (a + b)[|a + b| - 1] == b[|b| - 1];
      ChainsAppend(a, b[..|b| - 1]);
    } else {
      assert a + b == a;
    }
  }

  lemma ChainsOne(x: Effect)
    ensures Chains([x]) == if x.Chained? then 1 else 0
  {
    assert [x][..0] == [];
  }

  lemma {:induction false} ForwardAllChains(oldHook: Option<HookFn>, calls: seq<HookCall>)
    ensures Chains(ForwardAll(oldHook, calls)) == (if oldHook.Some? then |calls| else 0)
  {
    if calls != [] {
      ForwardAllChains(oldHook, calls[..|calls| - 1]);
      ChainsAppend(ForwardAll(oldHook, calls[..|calls| - 1]), Forward(oldHook, calls[|calls| - 1]));
    }
  }

  /**
   * On the tracking path the old hook is called once for the call itself,
   * last, right after the ledger update; the only other calls to it are the
   * forwarded internal heap events of that update.
   */
  lemma TrackedCallChainsOnceLast(oldHook: Option<HookFn>, call: HookCall, walk: seq<WalkStep>,
                                  maxFrames: nat, internal: seq<HookCall>)
    requires !Bypassed(false, call)
    requires oldHook.Some?
    ensures var e := HookEffects(oldHook, false, call, walk, maxFrames, internal);
            e != [] && e[|e| - 1] == Chained(call)
            && Chains(e) == (if call.hookType in {HOOK_ALLOC, HOOK_FREE, HOOK_REALLOC} then |internal| else 0) + 1
            && (call.hookType in {HOOK_ALLOC, HOOK_REALLOC} ==> e[|e| - 2] == Recorded(
                  if call.hookType == HOOK_ALLOC then call.request else call.blockRequest, Captured(walk, maxFrames)))
            && (call.hookType == HOOK_FREE ==> e[|e| - 2] == Erased(call.blockRequest))
  {
    var stack := Captured(walk, maxFrames);
    var fwd := ForwardAll(oldHook, internal);
    ForwardAllChains(oldHook, internal);
    var t := TrackEffects(oldHook, call, stack, internal);
    if call.hookType == HOOK_ALLOC {
      ChainsAppend(fwd, [Recorded(call.request, stack)]);
      ChainsOne(Recorded(call.request, stack));
    } else if call.hookType == HOOK_FREE {
      ChainsAppend(fwd, [Erased(call.blockRequest)]);
      ChainsOne(Erased(call.blockRequest));
    } else if call.hookType == HOOK_REALLOC {
      ChainsOne(Erased(call.blockRequest));
      ChainsAppend([Erased(call.blockRequest)], fwd);
      ChainsAppend([Erased(call.blockRequest)] + fwd, [Recorded(call.blockRequest, stack)]);
      ChainsOne(Recorded(call.blockRequest, stack));
    } else {
      assert t == [];
    }
    ChainsAppend(t, [Chained(call)]);
    ChainsOne(Chained(call));
  }

  /** hookmalloc, hookfree and hookrealloc change only the key they are about. */
  lemma TrackChangesOneKey(ledger: Ledger, call: HookCall, walk: seq<WalkStep>, maxFrames: nat, r: int)
    ensures var after := Track(ledger, call, walk, maxFrames);
            var key := if call.hookType == HOOK_ALLOC then call.request else call.blockRequest;
            && (call.hookType in {HOOK_ALLOC, HOOK_REALLOC} ==>
                  key in after && after[key] == Captured(walk, maxFrames))
            && (call.hookType == HOOK_FREE ==> key !in after)
            && (r != key || call.hookType !in {HOOK_ALLOC, HOOK_FREE, HOOK_REALLOC} ==>
                  (r in after <==> r in ledger) && (r in ledger ==> after[r] == ledger[r]))
  {
  }

  /** Freeing a block the ledger does not hold leaves the ledger as it was. */
  lemma FreeOfUntrackedIsNoOp(ledger: Ledger, call: HookCall, walk: seq<WalkStep>, maxFrames: nat)
    requires call.hookType == HOOK_FREE && call.blockRequest !in ledger
    ensures Track(ledger, call, walk, maxFrames) == ledger
  {
  }

  // -----------------------------------------------------------------------
  // The ledger over a run of top-level hook calls.

  /** A top-level heap operation: the hook call and the walk its stack capture sees. */
  datatype HeapEvent = HeapEvent(call: HookCall, walk: seq<WalkStep>)

  /** The ledger after a run of top-level hook calls (the flag is clear between them). */
  function Run(ledger: Ledger, events: seq<HeapEvent>, maxFrames: nat): Ledger
  {
    if events == [] then ledger
    else
      var e := events[|events| - 1];
      Step(Run(ledger, events[..|events| - 1], maxFrames), false, e.call, e.walk, maxFrames)
  }

  /** The ledger key a tracked call is about, if any. */
  function KeyOf(call: HookCall): Option<int>
  {
    if call.use == CRT_BLOCK then None
    else if call.hookType == HOOK_ALLOC then Some(call.request)
    else if call.hookType in {HOOK_FREE, HOOK_REALLOC} then Some(call.blockRequest)
    else None
  }

  /** The last event of the run that is about key r. */
  function LastTouch(events: seq<HeapEvent>, r: int): Option<HeapEvent>
  {
    if events == [] then None
    else if KeyOf(events[|events| - 1].call) == Some(r) then Some(events[|events| - 1])
    else LastTouch(events[..|events| - 1], r)
  }

  /**
   * A block is in the ledger after a run exactly when the last event about
   * it allocated or reallocated it (or, with no such event, when it was in
   * the ledger before); it then maps to the stack that event captured.
   */
  lemma {:induction false} RunLedger(ledger: Ledger, events: seq<HeapEvent>, maxFrames: nat, r: int)
    ensures var after := Run(ledger, events, maxFrames);
            match LastTouch(events, r)
            case None => (r in after <==> r in ledger) && (r in ledger ==> after[r] == ledger[r])
            case Some(e) => (r in after <==> e.call.hookType != HOOK_FREE)
                            && (r in after ==> after[r] == Captured(e.walk, maxFrames))
  {
    if events != [] {
      var init := events[..|events| - 1];
      RunLedger(ledger, init, maxFrames, r);
      var e := events[|events| - 1];
      TrackChangesOneKey(Run(ledger, init, maxFrames), e.call, e.walk, maxFrames, r);
    }
  }

  /** Starting from an empty ledger, a run whose every block was last freed leaves nothing to report. */
  lemma AllFreedLeavesNoLeaks(events: seq<HeapEvent>, maxFrames: nat)
    requires forall r :: LastTouch(events, r).Some? ==> LastTouch(events, r).value.call.hookType == HOOK_FREE
    ensures Run(map[], events, maxFrames) == map[]
  {
    forall r | r in Run(map[], events, maxFrames)
      ensures false
    {
      RunLedger(map[], events, maxFrames, r);
    }
  }
}
