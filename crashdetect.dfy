/**
 * The crash reporter's process-wide state and its handlers: the instance
 * registry, the native/public call history, the double-report flag and the
 * log. Each handler is proved to leave the history as it found it and to
 * append exactly the report Diagnostics describes.
 */
module CrashDetect {
  import opened Wrappers
  import opened AmxDebugInfo
  import opened AmxHost
  import opened HistoryWalk
  import opened Diagnostics

  // ----- The instance registry -----

  /** AmxLoad and GetInstance: insert `created` for `amx` only when `amx` has no instance yet. */
  function Loaded(instances: map<Amx, Instance>, amx: Amx, created: Instance): (m: map<Amx, Instance>)
    ensures amx in m
    ensures amx in instances ==> m[amx] == instances[amx]
    ensures amx !in instances ==> m[amx] == created
    ensures m.Keys == instances.Keys + {amx}
    ensures forall a :: a in m && a != amx ==> m[a] == instances[a]
  {
    if amx in instances then instances else instances[amx := created]
  }

  /** AmxUnload: erase `amx`'s instance, if any. */
  function Unloaded(instances: map<Amx, Instance>, amx: Amx): (m: map<Amx, Instance>)
    ensures m.Keys == instances.Keys - {amx}
    ensures forall a :: a in m ==> m[a] == instances[a]
  {
    instances - {amx}
  }

  /** Loading twice is loading once: the second instance is never installed. */
  lemma LoadedIdempotent(instances: map<Amx, Instance>, amx: Amx, first: Instance, second: Instance)
    ensures Loaded(Loaded(instances, amx, first), amx, second) == Loaded(instances, amx, first)
  {
  }

  /** Unloading what was just loaded restores the registry. */
  lemma UnloadedUndoesLoaded(instances: map<Amx, Instance>, amx: Amx, created: Instance)
    requires amx !in instances
    ensures Unloaded(Loaded(instances, amx, created), amx) == instances
  {
  }

  /** An existing instance is kept as it is. */
  lemma LoadedKeepsExisting(instances: map<Amx, Instance>, amx: Amx, created: Instance)
    requires amx in instances
    ensures Loaded(instances, amx, created) == instances
  {
  }

  /** Loading keeps every symbol store queryable and every public entry of the history registered. */
  lemma LoadedKeepsInvariants(history: seq<Call>, instances: map<Amx, Instance>, amx: Amx, created: Instance)
    requires AllQueryable(instances) && created.debugInfo.Queryable()
    ensures Registered(history, instances) ==> Registered(history, Loaded(instances, amx, created))
    ensures AllQueryable(Loaded(instances, amx, created))
  {
  }

  /** No public entry of the history runs in `amx`. */
  predicate NotRunning(history: seq<Call>, amx: Amx) {
    forall i :: 0 <= i < |history| && history[i].kind == Public ==> history[i].amx != amx
  }

  /**
   * Unloading keeps every public entry of the history registered exactly
   * when the unloaded AMX has no public entry on the history.
   */
  lemma UnloadedKeepsRegistered(history: seq<Call>, instances: map<Amx, Instance>, amx: Amx)
    requires Registered(history, instances)
    ensures Registered(history, Unloaded(instances, amx)) <==> NotRunning(history, amx)
  {
    if NotRunning(history, amx) {
      forall i | 0 <= i < |history| && history[i].kind == Public
        ensures history[i].amx in Unloaded(instances, amx)
      {
        assert history[i].amx != amx;
      }
    } else {
      var i :| 0 <= i < |history| && history[i].kind == Public && history[i].amx == amx;
      assert history[i].amx !in Unloaded(instances, amx);
    }
  }

  /** What amx_Error did when it was called: the flag it left and what it logged. */
  datatype ErrorHook = ErrorHook(caught: bool, events: seq<Event>)

  /** The history in effect while the call `index` of `amx`, of the given kind, runs under a hook. */
  function Entered(history: seq<Call>, kind: CallKind, amx: Amx, index: int): seq<Call> {
    history + [Call(kind, amx, index, amx.frm)]
  }

  /**
   * The reporter's state. In the C++ these are static members shared by
   * every per-AMX instance; `host` holds the collaborators and the
   * die_on_error setting.
   */
  class CrashDetect {
    /** The native/public call history; its last element is the top. */
    var npCalls: seq<Call>
    /** Set by the run-time error handler so that the enclosing amx_Exec does not report twice. */
    var errorCaught: bool
    var instances: map<Amx, Instance>
    /** Every log line emitted so far. */
    var log: seq<Event>
    const host: Host

    constructor (host: Host)
      ensures npCalls == [] && !errorCaught && instances == map[] && log == []
      ensures this.host == host
      ensures Valid()
    {
      npCalls := [];
      errorCaught := false;
      instances := map[];
      log := [];
      this.host := host;
    }

    /** Every registered symbol store can be queried. */
    predicate Valid()
      reads this
    {
      AllQueryable(instances)
    }

    /** A backtrace of the current history is defined: every public entry's instance is registered. */
    predicate CanReport()
      reads this
    {
      Valid() && Registered(npCalls, instances)
    }

    // ----- Registry operations -----

    method AmxLoad(amx: Amx, created: Instance) returns (code: int)
      requires Valid() && created.debugInfo.Queryable()
      modifies this`instances
      ensures instances == Loaded(old(instances), amx, created)
      ensures code == AMX_ERR_NONE
      ensures Valid()
      ensures old(Registered(npCalls, instances)) ==> Registered(npCalls, instances)
    {
      LoadedKeepsInvariants(npCalls, instances, amx, created);
      if amx !in instances {
        instances := instances[amx := created];
      }
      code := AMX_ERR_NONE;
    }

    method AmxUnload(amx: Amx) returns (code: int)
      requires Valid()
      modifies this`instances
      ensures instances == Unloaded(old(instances), amx)
      ensures code == AMX_ERR_NONE
      ensures Valid()
      ensures old(Registered(npCalls, instances)) && NotRunning(npCalls, amx) ==> Registered(npCalls, instances)
    {
      if Registered(npCalls, instances) {
        UnloadedKeepsRegistered(npCalls, instances, amx);
      }
      instances := instances - {amx};
      code := AMX_ERR_NONE;
    }

    /** The instance for `amx`, created from `created` (the constructor's outcome) when there is none. */
    method GetInstance(amx: Amx, created: Instance) returns (inst: Instance)
      requires Valid() && created.debugInfo.Queryable()
      modifies this`instances
      ensures instances == Loaded(old(instances), amx, created)
      ensures amx in instances && inst == instances[amx]
      ensures Valid()
      ensures old(Registered(npCalls, instances)) ==> Registered(npCalls, instances)
    {
      LoadedKeepsInvariants(npCalls, instances, amx, created);
      if amx !in instances {
        inst := created;
        instances := instances[amx := inst];
      } else {
        inst := instances[amx];
      }
    }

    // ----- Execution hooks -----

    /**
     * The amx_Exec hook: record a public entry, run the public, and report
     * its error through amx_Error unless a nested handler already did.
     */
    method HandleAmxExec(amx: Amx, index: int, exec: seq<Call> -> HostStep, hook: seq<Call> -> ErrorHook) returns (ret: int)
      requires amx in instances
      modifies this`npCalls, this`errorCaught, this`log
      ensures npCalls == old(npCalls)
      ensures ret == exec(Entered(old(npCalls), Public, amx, index)).ret
      ensures ret != AMX_ERR_NONE && !exec(Entered(old(npCalls), Public, amx, index)).caught ==>
        log == old(log) + exec(Entered(old(npCalls), Public, amx, index)).events +
          [AmxErrorCalled(index, ret)] + hook(Entered(old(npCalls), Public, amx, index)).events &&
        errorCaught == hook(Entered(old(npCalls), Public, amx, index)).caught
      ensures !(ret != AMX_ERR_NONE && !exec(Entered(old(npCalls), Public, amx, index)).caught) ==>
        log == old(log) + exec(Entered(old(npCalls), Public, amx, index)).events && !errorCaught
    {
      npCalls := npCalls + [Call(Public, amx, index, amx.frm)];
      // ::amx_Exec, run with the public entry on the history
      var step := exec(npCalls);
      var retcode := step.ret;
      errorCaught := step.caught;
      log := log + step.events;
      if retcode != AMX_ERR_NONE && !errorCaught {
        // amx_Error, likewise
        var handled := hook(npCalls);
        log := log + [AmxErrorCalled(index, retcode)] + handled.events;
        errorCaught := handled.caught;
      } else {
        errorCaught := false;
      }
      npCalls := npCalls[..|npCalls| - 1];
      ret := retcode;
    }

    /**
     * The native callback hook: record a native entry, run the previous
     * callback with the error cleared, report a native failure it signals,
     * and clear the error again.
     */
    method HandleAmxCallback(amx: Amx, index: int, callback: seq<Call> -> HostStep) returns (ret: int)
      requires Valid() && amx in instances
      requires callback(Entered(npCalls, Native, amx, index)).amxError == AMX_ERR_NATIVE ==> Registered(npCalls, instances)
      modifies this`npCalls, this`errorCaught, this`log, amx`error
      ensures npCalls == old(npCalls)
      ensures ret == callback(Entered(old(npCalls), Native, amx, index)).ret
      ensures amx.error == AMX_ERR_NONE
      ensures errorCaught == callback(Entered(old(npCalls), Native, amx, index)).caught
      ensures callback(Entered(old(npCalls), Native, amx, index)).amxError != AMX_ERR_NATIVE ==>
        log == old(log) + callback(Entered(old(npCalls), Native, amx, index)).events
      ensures callback(Entered(old(npCalls), Native, amx, index)).amxError == AMX_ERR_NATIVE ==>
        Registered(Entered(old(npCalls), Native, amx, index), instances) &&
        log == old(log) + callback(Entered(old(npCalls), Native, amx, index)).events +
          NativeErrorReport(amx, index, Entered(old(npCalls), Native, amx, index), instances, host)
    {
      npCalls := npCalls + [Call(Native, amx, index, amx.frm)];
      amx.error := AMX_ERR_NONE;
      // prevCallback_, run with the native entry on the history
      var step := callback(npCalls);
      var retcode := step.ret;
      amx.error := step.amxError;
      errorCaught := step.caught;
      log := log + step.events;
      if amx.error == AMX_ERR_NATIVE {
        HandleNativeError(amx, index);
      }
      amx.error := AMX_ERR_NONE;
      npCalls := npCalls[..|npCalls| - 1];
      ret := retcode;
    }

    /** Report a failed native (both branches of the C++ log the same line). */
    method HandleNativeError(amx: Amx, index: int)
      requires CanReport() && amx in instances
      modifies this`log
      ensures log == old(log) + NativeErrorReport(amx, index, npCalls, instances, host)
    {
      ghost var start := log;
      ghost var backtrace := BacktraceLines(amx, npCalls, instances, host);
      var name: string;
      match host.nativeName(amx, index) {
        case Some(n) => name := n;
        case None => name := "??";
      }
      log := log + [NativeFailed(name)];
      PrintBacktrace(amx);
      ExitOnError();
      AppendAssociative(start, [NativeFailed(name)], backtrace);
      AppendAssociative(start, [NativeFailed(name)] + backtrace, ExitLines(host));
    }

    /** Report a run-time error of `amx` and flag it as caught. */
    method HandleRuntimeError(amx: Amx, index: int, error: int)
      requires Valid() && amx in instances
      requires !IsSilentError(index, error) ==> Registered(npCalls, instances)
      requires CanReportRuntimeError(amx, index, error)
      modifies this`errorCaught, this`log
      ensures errorCaught
      ensures log == old(log) + RuntimeErrorReport(amx, index, error, npCalls, instances, host)
    {
      errorCaught := true;
      if error == AMX_ERR_INDEX && index == AMX_EXEC_GDK {
        // The GDK entry point does not really exist: fail silently.
      } else {
        ghost var start := log;
        ghost var detail := ErrorDetail(amx, error);
        ghost var backtrace := BacktraceLines(amx, npCalls, instances, host);
        log := log + [RunTimeError(error)];
        PrintErrorDetail(amx, error);
        PrintBacktrace(amx);
        ExitOnError();
        AppendAssociative(start, [RunTimeError(error)], detail);
        AppendAssociative(start, [RunTimeError(error)] + detail, backtrace);
        AppendAssociative(start, [RunTimeError(error)] + detail + backtrace, ExitLines(host));
      }
    }

    /** The error-specific lines of a run-time error report. */
    method PrintErrorDetail(amx: Amx, error: int)
      requires ReadsCellBeforeCip(error) ==> CellBeforeCip(amx) in amx.mem
      modifies this`log
      ensures log == old(log) + ErrorDetail(amx, error)
    {
      if error == AMX_ERR_BOUNDS {
        var bound := amx.mem[CellBeforeCip(amx)];
        var idx := amx.pri;
        if idx < 0 {
          log := log + [NegativeIndex(idx)];
        } else {
          log := log + [PastUpperBound(idx, bound)];
        }
      } else if error == AMX_ERR_NOTFOUND {
        ghost var start := log;
        log := log + [NotRegisteredHeader];
        var natives := amx.natives;
        ghost var listed := log;
        for i := 0 to |natives|
          invariant log == listed + Unregistered(natives[..i])
        {
          assert natives[..i + 1][..i] == natives[..i];
          if natives[i].address == 0 {
            log := log + [NotRegistered(natives[i].name)];
          }
        }
        assert natives[..|natives|] == natives;
        AppendAssociative(start, [NotRegisteredHeader], Unregistered(natives));
      } else if error == AMX_ERR_STACKERR {
        log := log + [StackHeapIndex(amx.stk, amx.hea)];
      } else if error == AMX_ERR_STACKLOW {
        log := log + [StackIndexTop(amx.stk, amx.stp)];
      } else if error == AMX_ERR_HEAPLOW {
        log := log + [HeapIndexBottom(amx.hea, amx.hlw)];
      } else if error == AMX_ERR_INVINSTR {
        var opcode := amx.mem[CellBeforeCip(amx)];
        log := log + [InvalidOpcode(opcode, AsUcell(amx.cip - CELL_SIZE))];
      }
    }

    method HandleCrash(amx: Amx)
      requires CanReport() && amx in instances
      modifies this`log
      ensures log == old(log) + CrashReport(amx, npCalls, instances, host)
    {
      ghost var start := log;
      ghost var backtrace := BacktraceLines(amx, npCalls, instances, host);
      log := log + [CrashedWhile(instances[amx].amxName)];
      PrintBacktrace(amx);
      AppendAssociative(start, [CrashedWhile(instances[amx].amxName)], backtrace);
    }

    method HandleInterrupt(amx: Amx)
      requires CanReport() && amx in instances
      modifies this`log
      ensures log == old(log) + InterruptReport(amx, npCalls, instances, host)
    {
      ghost var start := log;
      ghost var backtrace := BacktraceLines(amx, npCalls, instances, host);
      log := log + [KeyboardInterrupt];
      PrintBacktrace(amx);
      AppendAssociative(start, [KeyboardInterrupt], backtrace);
    }

    /** The abort policy: the process exits after this line when die_on_error is set. */
    method ExitOnError()
      modifies this`log
      ensures log == old(log) + ExitLines(host)
    {
      if host.dieOnError {
        log := log + [Aborting];
      }
    }

    // ----- Static entry points -----

    method AmxExec(amx: Amx, index: int, created: Instance, exec: seq<Call> -> HostStep, hook: seq<Call> -> ErrorHook) returns (ret: int)
      requires Valid() && created.debugInfo.Queryable()
      modifies this`instances, this`npCalls, this`errorCaught, this`log
      ensures instances == Loaded(old(instances), amx, created)
      ensures npCalls == old(npCalls)
      ensures ret == exec(Entered(old(npCalls), Public, amx, index)).ret
      ensures ret != AMX_ERR_NONE && !exec(Entered(old(npCalls), Public, amx, index)).caught ==>
        log == old(log) + exec(Entered(old(npCalls), Public, amx, index)).events +
          [AmxErrorCalled(index, ret)] + hook(Entered(old(npCalls), Public, amx, index)).events &&
        errorCaught == hook(Entered(old(npCalls), Public, amx, index)).caught
      ensures !(ret != AMX_ERR_NONE && !exec(Entered(old(npCalls), Public, amx, index)).caught) ==>
        log == old(log) + exec(Entered(old(npCalls), Public, amx, index)).events && !errorCaught
      ensures Valid()
    {
      var _ := GetInstance(amx, created);
      ret := HandleAmxExec(amx, index, exec, hook);
    }

    method AmxCallback(amx: Amx, index: int, created: Instance, callback: seq<Call> -> HostStep) returns (ret: int)
      requires Valid() && created.debugInfo.Queryable()
      requires callback(Entered(npCalls, Native, amx, index)).amxError == AMX_ERR_NATIVE ==>
        Registered(npCalls, Loaded(instances, amx, created))
      modifies this`instances, this`npCalls, this`errorCaught, this`log, amx`error
      ensures instances == Loaded(old(instances), amx, created)
      ensures npCalls == old(npCalls)
      ensures ret == callback(Entered(old(npCalls), Native, amx, index)).ret
      ensures amx.error == AMX_ERR_NONE
      ensures errorCaught == callback(Entered(old(npCalls), Native, amx, index)).caught
      ensures callback(Entered(old(npCalls), Native, amx, index)).amxError != AMX_ERR_NATIVE ==>
        log == old(log) + callback(Entered(old(npCalls), Native, amx, index)).events
      ensures callback(Entered(old(npCalls), Native, amx, index)).amxError == AMX_ERR_NATIVE ==>
        Registered(Entered(old(npCalls), Native, amx, index), instances) &&
        log == old(log) + callback(Entered(old(npCalls), Native, amx, index)).events +
          NativeErrorReport(amx, index, Entered(old(npCalls), Native, amx, index), instances, host)
      ensures Valid()
      ensures old(Registered(npCalls, instances)) ==> Registered(npCalls, instances)
    {
      var _ := GetInstance(amx, created);
      ret := HandleAmxCallback(amx, index, callback);
    }

    method RuntimeError(amx: Amx, index: int, error: int, created: Instance)
      requires Valid() && created.debugInfo.Queryable()
      requires !IsSilentError(index, error) ==> Registered(npCalls, Loaded(instances, amx, created))
      requires CanReportRuntimeError(amx, index, error)
      modifies this`instances, this`errorCaught, this`log
      ensures instances == Loaded(old(instances), amx, created)
      ensures errorCaught
      ensures log == old(log) + RuntimeErrorReport(amx, index, error, npCalls, instances, host)
      ensures Valid()
      ensures old(Registered(npCalls, instances)) ==> Registered(npCalls, instances)
    {
      var _ := GetInstance(amx, created);
      HandleRuntimeError(amx, index, error);
    }

    /** The crash handler: attribute the crash to the AMX of the most recent call, if there is one. */
    method Crash(created: Instance)
      requires Valid() && created.debugInfo.Queryable()
      requires |npCalls| > 0 ==> Registered(npCalls, Loaded(instances, npCalls[|npCalls| - 1].amx, created))
      modifies this`instances, this`log
      ensures |npCalls| == 0 ==> instances == old(instances) && log == old(log) + [UnknownCrash]
      ensures |npCalls| > 0 ==>
        var amx := npCalls[|npCalls| - 1].amx;
        instances == Loaded(old(instances), amx, created) &&
        log == old(log) + CrashReport(amx, npCalls, instances, host)
      ensures CanReport()
    {
      if |npCalls| > 0 {
        var amx := npCalls[|npCalls| - 1].amx;
        var _ := GetInstance(amx, created);
        HandleCrash(amx);
      } else {
        log := log + [UnknownCrash];
      }
    }

    /** The Ctrl-C handler: like Crash, and the abort policy always applies. */
    method Interrupt(created: Instance)
      requires Valid() && created.debugInfo.Queryable()
      requires |npCalls| > 0 ==> Registered(npCalls, Loaded(instances, npCalls[|npCalls| - 1].amx, created))
      modifies this`instances, this`log
      ensures |npCalls| == 0 ==> instances == old(instances) && log == old(log) + [KeyboardInterrupt] + ExitLines(host)
      ensures |npCalls| > 0 ==>
        var amx := npCalls[|npCalls| - 1].amx;
        instances == Loaded(old(instances), amx, created) &&
        log == old(log) + InterruptReport(amx, npCalls, instances, host) + ExitLines(host)
      ensures CanReport()
    {
      if |npCalls| > 0 {
        var amx := npCalls[|npCalls| - 1].amx;
        var _ := GetInstance(amx, created);
        HandleInterrupt(amx);
      } else {
        log := log + [KeyboardInterrupt];
      }
      ExitOnError();
    }

    // ----- The backtrace -----

    /** Print the backtrace of the current history, walking a copy of it from the top down. */
    method PrintBacktrace(self: Amx)
      requires CanReport() && self in instances
      modifies this`log
      ensures log == old(log) + BacktraceLines(self, npCalls, instances, host)
    {
      if |npCalls| == 0 {
        return;
      }
      var npCallStack := npCalls;
      var frm := AsUcell(self.frm);
      ghost var initial := log;
      log := log + [BacktraceHeader];
      var depth := 0;
      ghost var start := log;

      ghost var r := ReporterFor(self, instances, host);
      ghost var w := EntryWalker(r);
      ghost var frm0 := frm;
      ghost var n := |npCalls|;
      ReadyWalkable(npCalls, r);
      while |npCallStack| > 0
        invariant npCallStack == npCalls[..|npCallStack|]
        invariant frm == FrmBelow(npCalls, |npCallStack|, n, frm0, w)
        invariant depth == Width(npCalls, |npCallStack|, n, frm0, w)
        invariant log == start + Lines(npCalls, |npCallStack|, n, frm0, 0, w)
        decreases |npCallStack|
      {
        var k := |npCallStack|;
        var call := npCallStack[k - 1];
        assert call == npCalls[k - 1];
        assert EntryReady(call, r);
        ghost var before := log;
        var width := PrintEntry(self, call, frm, depth);
        WalkStep(npCalls, k, n, frm0, r);
        AppendAssociative(start, Lines(npCalls, k, n, frm0, 0, w), EntryLines(call, frm, depth, r));
        depth := depth + width;
        frm := AsUcell(call.frm);
        npCallStack := npCallStack[..k - 1];
      }
      AppendAssociative(initial, [BacktraceHeader], Lines(npCalls, 0, n, frm0, 0, w));
    }

    /** The lines for one history entry (the body of PrintBacktrace's loop), and how many "#n" lines they are. */
    method PrintEntry(self: Amx, call: Call, frm: ucell, depth: int) returns (width: nat)
      requires Valid() && self in instances && EntryReady(call, ReporterFor(self, instances, host))
      modifies this`log
      ensures log == old(log) + EntryLines(call, frm, depth, ReporterFor(self, instances, host))
      ensures width == EntryDepth(call, frm, ReporterFor(self, instances, host))
    {
      ghost var r := ReporterFor(self, instances, host);
      if call.kind == Native {
        var line := PrintNative(call, depth);
        log := log + [line];
        width := 1;
      } else {
        var debugInfo := instances[call.amx].debugInfo;
        var frames := host.callStack(call.amx, debugInfo, frm);
        ghost var start := log;
        ghost var corrupted: seq<Event> := if |frames| == 0 then [StackCorrupted] else [];
        if |frames| == 0 {
          log := log + [StackCorrupted];
        }
        PrintFrames(self, call, debugInfo, frames, depth);
        AppendAssociative(start, corrupted, FrameLines(call, debugInfo, frames, 0, depth, r));
        width := |frames|;
      }
    }

    /** The lines for the frames of a public entry, numbered from `depth`. */
    method PrintFrames(self: Amx, call: Call, debugInfo: DebugInfo, frames: seq<Frame>, depth: int)
      requires self in instances && debugInfo.Queryable()
      modifies this`log
      ensures log == old(log) + FrameLines(call, debugInfo, frames, 0, depth, ReporterFor(self, instances, host))
    {
      ghost var r := ReporterFor(self, instances, host);
      ghost var target := log + FrameLines(call, debugInfo, frames, 0, depth, r);
      for i := 0 to |frames|
        invariant log + FrameLines(call, debugInfo, frames, i, depth + i, r) == target
      {
        var line := PrintFrame(self, call, debugInfo, frames, i, depth + i);
        AppendAssociative(log, [line], FrameLines(call, debugInfo, frames, i + 1, depth + i + 1, r));
        log := log + [line];
      }
      assert log + [] == log;
    }

    /** The line for a native entry. */
    method PrintNative(call: Call, depth: int) returns (line: Event)
      ensures line == NativeLine(call, depth, host)
    {
      var address := host.nativeAddress(call.amx, call.index);
      if address == 0 {
        line := NativeUnknown(depth);
      } else {
        var modName := host.moduleName(address);
        if |modName| == 0 {
          modName := "??";
        }
        match host.nativeName(call.amx, call.index) {
          case Some(name) => line := NativeFrame(depth, name, modName);
          case None => line := NativeUnnamed(depth);
        }
      }
    }

    /** The line for frame i of a public entry (the body of PrintBacktrace's frame loop). */
    method PrintFrame(self: Amx, call: Call, debugInfo: DebugInfo, frames: seq<Frame>, i: nat, depth: int) returns (line: Event)
      requires self in instances && i < |frames| && debugInfo.Queryable()
      ensures line == FrameLine(call, debugInfo, frames, i, depth, ReporterFor(self, instances, host))
    {
      var amxName := instances[self].amxName;
      var frame := frames[i];
      if debugInfo.IsLoaded() {
        var t := debugInfo.amxdbg.value;
        if i > 0 {
          var prevFrame := frames[i - 1];
          var number := GetLineNumber(t, prevFrame.callAddress);
          line := SourceFrame(depth, frame.prototype, frame.sourceFileName, number);
        } else {
          var file := GetFileName(t, AsUcell(call.amx.cip));
          var number := GetLineNumber(t, AsUcell(call.amx.cip));
          line := SourceFrame(depth, frame.prototype, file, number);
        }
      } else if i > 0 {
        var prevFrame := frames[i - 1];
        if frame.isPublic {
          line := PublicFrame(depth, frame.functionName, Offset(prevFrame.callAddress, frame.functionAddress), amxName);
        } else if frame.callAddress != 0 {
          line := AddressFrame(depth, frame.functionAddress, Offset(prevFrame.callAddress, frame.functionAddress), amxName);
        } else {
          // This is the entry point.
          var epAddr := host.publicAddress(call.amx, call.index);
          var offset := Offset(prevFrame.callAddress, epAddr);
          match host.publicName(call.amx, call.index)
          case Some(epName) =>
            if call.index == AMX_EXEC_MAIN {
              line := MainFrame(depth, offset, amxName);
            } else {
              line := PublicFrame(depth, epName, offset, amxName);
            }
          case None =>
            line := UnknownFrame(depth, amxName);
        }
      } else {
        var offset := Offset(call.amx.cip, frame.functionAddress);
        if frame.isPublic {
          line := PublicFrame(depth, frame.functionName, offset, amxName);
        } else {
          line := AddressFrame(depth, frame.functionAddress, offset, amxName);
        }
      }
    }
  }
}
