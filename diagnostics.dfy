/**
 * The contents of the crash reporter's diagnostics, as functions of the call
 * history, the instance registry and the VM state: the backtrace walk, the
 * detail lines of a run-time error, and the reports for native failures,
 * crashes and interrupts. The state-changing handlers in CrashDetect are
 * proved to emit exactly these lines; the lemmas here say what they contain.
 */
module Diagnostics {
  import opened Wrappers
  import opened AmxDebugInfo
  import opened AmxHost
  import opened HistoryWalk

  /**
   * What a backtrace consults besides the history: the script name of the
   * reporting instance (used on every address-only frame line), the
   * instance registry (for each public entry's symbol store) and the host.
   */
  datatype Reporter = Reporter(amxName: string, instances: map<Amx, Instance>, host: Host)

  predicate AllQueryable(instances: map<Amx, Instance>) {
    forall a :: a in instances ==> instances[a].debugInfo.Queryable()
  }

  /** Every public entry of the history belongs to a registered AMX (the walk looks its instance up). */
  predicate Registered(history: seq<Call>, instances: map<Amx, Instance>) {
    forall i :: 0 <= i < |history| && history[i].kind == Public ==> history[i].amx in instances
  }

  predicate Ready(stack: seq<Call>, r: Reporter) {
    Registered(stack, r.instances) && AllQueryable(r.instances)
  }

  /** What walking one entry needs: its instance, when it is a public entry. */
  predicate EntryReady(call: Call, r: Reporter) {
    (call.kind == Public ==> call.amx in r.instances) && AllQueryable(r.instances)
  }

  function ReporterFor(self: Amx, instances: map<Amx, Instance>, host: Host): Reporter
    requires self in instances
  {
    Reporter(instances[self].amxName, instances, host)
  }

  /** Unsigned (ucell) subtraction, which wraps modulo 2^32. */
  function Offset(to: int, from: int): (offset: ucell)
    ensures (offset - (to - from)) % UCELL_LIMIT == 0
    ensures 0 <= to - from < UCELL_LIMIT ==> offset == to - from
  {
    AsUcell(to - from)
  }

  // ----- The lines of one history entry -----

  /**
   * The line for a native entry: a "#n" line numbered `depth`, which shows
   * no name exactly when the native has no address, and a module name
   * ("??" at worst) whenever it shows one.
   */
  function NativeLine(call: Call, depth: int, host: Host): (line: Event)
    ensures line.IsFrameLine() && line.depth == depth
    ensures line.NativeUnknown? <==> host.nativeAddress(call.amx, call.index) == 0
    ensures line.NativeFrame? ==> |line.moduleName| > 0
  {
    var address := host.nativeAddress(call.amx, call.index);
    if address == 0 then
      NativeUnknown(depth)
    else
      var found := host.moduleName(address);
      var modName := if |found| == 0 then "??" else found;
      match host.nativeName(call.amx, call.index)
      case Some(name) => NativeFrame(depth, name, modName)
      // The C++ passes the null name where the module name is expected, so
      // no module name is printed on this line.
      case None => NativeUnnamed(depth)
  }

  /** The line for frame i of a public entry's frames. */
  function FrameLine(call: Call, debugInfo: DebugInfo, frames: seq<Frame>, i: nat, depth: int, r: Reporter): Event
    requires i < |frames| && debugInfo.Queryable()
  {
    var frame := frames[i];
    if debugInfo.IsLoaded() then
      var t := debugInfo.amxdbg.value;
      if i > 0 then
        // Blame the call site: the line of the call recorded by the frame below.
        SourceFrame(depth, frame.prototype, frame.sourceFileName, LineNumberAt(t, frames[i - 1].callAddress))
      else
        // The innermost frame is placed by the live instruction pointer.
        SourceFrame(depth, frame.prototype, FileNameAt(t, AsUcell(call.amx.cip)), LineNumberAt(t, AsUcell(call.amx.cip)))
    else if i > 0 then
      var prev := frames[i - 1];
      if frame.isPublic then
        PublicFrame(depth, frame.functionName, Offset(prev.callAddress, frame.functionAddress), r.amxName)
      else if frame.callAddress != 0 then
        AddressFrame(depth, frame.functionAddress, Offset(prev.callAddress, frame.functionAddress), r.amxName)
      else
        // The entry point of this call boundary.
        var offset := Offset(prev.callAddress, r.host.publicAddress(call.amx, call.index));
        match r.host.publicName(call.amx, call.index)
        case Some(epName) =>
          if call.index == AMX_EXEC_MAIN then MainFrame(depth, offset, r.amxName)
          else PublicFrame(depth, epName, offset, r.amxName)
        case None => UnknownFrame(depth, r.amxName)
    else
      var offset := Offset(call.amx.cip, frame.functionAddress);
      if frame.isPublic then PublicFrame(depth, frame.functionName, offset, r.amxName)
      else AddressFrame(depth, frame.functionAddress, offset, r.amxName)
  }

  /**
   * Every frame gives a "#n" line numbered `depth`, which names a source
   * file and line exactly when the entry's AMX has its symbol store loaded.
   */
  lemma FrameLineShape(call: Call, debugInfo: DebugInfo, frames: seq<Frame>, i: nat, depth: int, r: Reporter)
    requires i < |frames| && debugInfo.Queryable()
    ensures FrameLine(call, debugInfo, frames, i, depth, r).IsFrameLine()
    ensures FrameLine(call, debugInfo, frames, i, depth, r).depth == depth
    ensures FrameLine(call, debugInfo, frames, i, depth, r).SourceFrame? <==> debugInfo.IsLoaded()
  {
  }

  /** The lines for frames i.. of a public entry, numbered from `depth`. */
  function FrameLines(call: Call, debugInfo: DebugInfo, frames: seq<Frame>, i: nat, depth: int, r: Reporter): seq<Event>
    requires i <= |frames| && debugInfo.Queryable()
    decreases |frames| - i
  {
    if i == |frames| then []
    else [FrameLine(call, debugInfo, frames, i, depth, r)] + FrameLines(call, debugInfo, frames, i + 1, depth + 1, r)
  }

  /** The frames the walker reconstructs for a public entry, starting from frame pointer `frm`. */
  function EntryFrames(call: Call, frm: ucell, r: Reporter): seq<Frame>
    requires call.amx in r.instances
  {
    r.host.callStack(call.amx, r.instances[call.amx].debugInfo, frm)
  }

  /** The lines for one history entry, numbered from `depth`. */
  function EntryLines(call: Call, frm: ucell, depth: int, r: Reporter): seq<Event>
    requires EntryReady(call, r)
  {
    if call.kind == Native then
      [NativeLine(call, depth, r.host)]
    else
      var frames := EntryFrames(call, frm, r);
      (if |frames| == 0 then [StackCorrupted] else []) +
      FrameLines(call, r.instances[call.amx].debugInfo, frames, 0, depth, r)
  }

  /** How far one entry advances the line number: 1 for a native, one per frame of a public. */
  function EntryDepth(call: Call, frm: ucell, r: Reporter): nat
    requires EntryReady(call, r)
  {
    if call.kind == Native then 1 else |EntryFrames(call, frm, r)|
  }

  // ----- The walk over the history -----

  /** What PrintBacktrace prints for one history entry, as a walker over the history. */
  function EntryWalker(r: Reporter): Walker {
    Walker(
      (call: Call, frm: ucell, depth: int) requires EntryReady(call, r) => EntryLines(call, frm, depth, r),
      (call: Call, frm: ucell) requires EntryReady(call, r) => EntryDepth(call, frm, r),
      (call: Call) => AsUcell(call.frm))
  }

  lemma ReadyWalkable(stack: seq<Call>, r: Reporter)
    requires Ready(stack, r)
    ensures Walkable(stack, EntryWalker(r))
  {
    forall k | 0 <= k < |stack| ensures EntryReady(stack[k], r) {
    }
  }

  /** One step of the walk, stated for the entry printer itself. */
  lemma WalkStep(stack: seq<Call>, k: nat, hi: nat, frm: ucell, r: Reporter)
    requires Ready(stack, r) && 0 < k <= hi <= |stack|
    ensures Walkable(stack, EntryWalker(r))
    ensures Lines(stack, k - 1, hi, frm, 0, EntryWalker(r)) ==
      Lines(stack, k, hi, frm, 0, EntryWalker(r)) +
      EntryLines(stack[k - 1], FrmBelow(stack, k, hi, frm, EntryWalker(r)), Width(stack, k, hi, frm, EntryWalker(r)), r)
    ensures Width(stack, k - 1, hi, frm, EntryWalker(r)) ==
      Width(stack, k, hi, frm, EntryWalker(r)) + EntryDepth(stack[k - 1], FrmBelow(stack, k, hi, frm, EntryWalker(r)), r)
    ensures FrmBelow(stack, k - 1, hi, frm, EntryWalker(r)) == AsUcell(stack[k - 1].frm)
  {
    ReadyWalkable(stack, r);
    Step(stack, k, hi, frm, 0, EntryWalker(r));
  }

  /** The lines of the walk of the whole history, from frame pointer `frm`. */
  function Walk(history: seq<Call>, frm: ucell, r: Reporter): seq<Event>
    requires Ready(history, r)
  {
    ReadyWalkable(history, r);
    Lines(history, 0, |history|, frm, 0, EntryWalker(r))
  }

  /** PrintBacktrace: nothing for an empty history, else a header and the walk of the whole history from the reporting AMX's frame. */
  function BacktraceLines(self: Amx, history: seq<Call>, instances: map<Amx, Instance>, host: Host): seq<Event>
    requires self in instances && Registered(history, instances) && AllQueryable(instances)
  {
    if |history| == 0 then []
    else [BacktraceHeader] + Walk(history, AsUcell(self.frm), ReporterFor(self, instances, host))
  }

  /** A backtrace is empty exactly when the history is, and otherwise opens with the header line. */
  lemma BacktraceLinesShape(self: Amx, history: seq<Call>, instances: map<Amx, Instance>, host: Host)
    requires self in instances && Registered(history, instances) && AllQueryable(instances)
    ensures |BacktraceLines(self, history, instances, host)| == 0 <==> |history| == 0
    ensures |history| > 0 ==> BacktraceLines(self, history, instances, host)[0] == BacktraceHeader
  {
  }

  /**
   * Most recent call first: the top entry is printed first, walked from the
   * reporting AMX's frame and numbered from 0, and the rest of the history
   * follows, walked from the frame pointer the top entry recorded.
   */
  lemma BacktraceTopFirst(self: Amx, history: seq<Call>, instances: map<Amx, Instance>, host: Host)
    requires self in instances && Registered(history, instances) && AllQueryable(instances)
    requires |history| > 0
    ensures EntryReady(history[|history| - 1], ReporterFor(self, instances, host))
    ensures Walkable(history, EntryWalker(ReporterFor(self, instances, host)))
    ensures BacktraceLines(self, history, instances, host) ==
      [BacktraceHeader] +
      EntryLines(history[|history| - 1], AsUcell(self.frm), 0, ReporterFor(self, instances, host)) +
      Lines(history, 0, |history| - 1, AsUcell(history[|history| - 1].frm),
        EntryDepth(history[|history| - 1], AsUcell(self.frm), ReporterFor(self, instances, host)),
        EntryWalker(ReporterFor(self, instances, host)))
  {
    var r := ReporterFor(self, instances, host);
    ReadyWalkable(history, r);
    Top(history, 0, |history|, AsUcell(self.frm), 0, EntryWalker(r));
  }

  /** A public entry whose frame chain cannot be followed yields "Stack corrupted", and the walk goes on below it. */
  lemma WalkPastCorruptedEntry(stack: seq<Call>, lo: nat, hi: nat, frm: ucell, depth: int, r: Reporter)
    requires Ready(stack, r) && lo < hi <= |stack| && stack[hi - 1].kind == Public
    requires |EntryFrames(stack[hi - 1], frm, r)| == 0
    ensures Walkable(stack, EntryWalker(r))
    ensures Lines(stack, lo, hi, frm, depth, EntryWalker(r)) ==
      [StackCorrupted] + Lines(stack, lo, hi - 1, AsUcell(stack[hi - 1].frm), depth, EntryWalker(r))
  {
    ReadyWalkable(stack, r);
    var call := stack[hi - 1];
    assert EntryReady(call, r);
    CorruptedEntry(call, frm, depth, r);
    Top(stack, lo, hi, frm, depth, EntryWalker(r));
  }

  lemma CorruptedEntry(call: Call, frm: ucell, depth: int, r: Reporter)
    requires EntryReady(call, r) && call.kind == Public && |EntryFrames(call, frm, r)| == 0
    ensures EntryLines(call, frm, depth, r) == [StackCorrupted]
    ensures EntryDepth(call, frm, r) == 0
  {
    assert FrameLines(call, r.instances[call.amx].debugInfo, EntryFrames(call, frm, r), 0, depth, r) == [];
  }

  // ----- Line numbering -----

  lemma {:induction false} FrameLinesDepths(call: Call, debugInfo: DebugInfo, frames: seq<Frame>, i: nat, depth: int, r: Reporter)
    requires i <= |frames| && debugInfo.Queryable()
    ensures FrameDepths(FrameLines(call, debugInfo, frames, i, depth, r)) == Consecutive(depth, |frames| - i)
    decreases |frames| - i
  {
    if i < |frames| {
      var line := FrameLine(call, debugInfo, frames, i, depth, r);
      var rest := FrameLines(call, debugInfo, frames, i + 1, depth + 1, r);
      FrameDepthsAppend([line], rest);
      FrameLinesDepths(call, debugInfo, frames, i + 1, depth + 1, r);
      FrameLineShape(call, debugInfo, frames, i, depth, r);
      assert FrameDepths([line]) == [depth];
    }
  }

  /** One entry's "#n" lines are numbered consecutively from `depth`, one per native call or per frame. */
  lemma EntryLinesDepths(call: Call, frm: ucell, depth: int, r: Reporter)
    requires EntryReady(call, r)
    ensures FrameDepths(EntryLines(call, frm, depth, r)) == Consecutive(depth, EntryDepth(call, frm, r))
  {
    if call.kind == Native {
      var line := NativeLine(call, depth, r.host);
      assert line.IsFrameLine() && line.depth == depth;
      assert FrameDepths([line]) == [depth] + FrameDepths([]);
    } else {
      var debugInfo := r.instances[call.amx].debugInfo;
      var frames := EntryFrames(call, frm, r);
      var head: seq<Event> := if |frames| == 0 then [StackCorrupted] else [];
      FrameDepthsAppend(head, FrameLines(call, debugInfo, frames, 0, depth, r));
      FrameLinesDepths(call, debugInfo, frames, 0, depth, r);
      assert FrameDepths(head) == [];
    }
  }

  /** The numbers of a backtrace's "#n" lines, in order. */
  function BacktraceDepths(self: Amx, history: seq<Call>, instances: map<Amx, Instance>, host: Host): seq<int>
    requires self in instances && Registered(history, instances) && AllQueryable(instances)
  {
    FrameDepths(BacktraceLines(self, history, instances, host))
  }

  /**
   * The "#n" lines of a backtrace are numbered 0, 1, 2, ... without gaps:
   * one number per native entry and one per frame of each public entry.
   */
  lemma BacktraceNumbering(self: Amx, history: seq<Call>, instances: map<Amx, Instance>, host: Host)
    requires self in instances && Registered(history, instances) && AllQueryable(instances)
    ensures Walkable(history, EntryWalker(ReporterFor(self, instances, host)))
    ensures |BacktraceDepths(self, history, instances, host)| ==
      Width(history, 0, |history|, AsUcell(self.frm), EntryWalker(ReporterFor(self, instances, host)))
    ensures forall k :: 0 <= k < |BacktraceDepths(self, history, instances, host)| ==>
      BacktraceDepths(self, history, instances, host)[k] == k
  {
    var r := ReporterFor(self, instances, host);
    var w := EntryWalker(r);
    ReadyWalkable(history, r);
    forall k, f: ucell, d: int | 0 <= k < |history|
      ensures EntryNumbered(w, history[k], f, d)
    {
      assert EntryReady(history[k], r);
      EntryLinesDepths(history[k], f, d, r);
    }
    Numbered(history, 0, |history|, AsUcell(self.frm), 0, w);
    if |history| > 0 {
      FrameDepthsAppend([BacktraceHeader], Walk(history, AsUcell(self.frm), r));
      assert FrameDepths([BacktraceHeader]) == [];
    }
    var d := BacktraceDepths(self, history, instances, host);
    forall k | 0 <= k < |d| ensures d[k] == k {
      ConsecutiveAt(0, |d|, k);
    }
  }

  // ----- Degradation without debug information -----

  predicate NoneLoaded(instances: map<Amx, Instance>) {
    forall a :: a in instances ==> !instances[a].debugInfo.IsLoaded()
  }

  lemma {:induction false} FrameLinesWithoutDebugInfo(call: Call, debugInfo: DebugInfo, frames: seq<Frame>, i: nat, depth: int, r: Reporter)
    requires i <= |frames| && debugInfo.Queryable() && !debugInfo.IsLoaded()
    ensures forall e :: e in FrameLines(call, debugInfo, frames, i, depth, r) ==> !e.SourceFrame?
    decreases |frames| - i
  {
    if i < |frames| {
      FrameLinesWithoutDebugInfo(call, debugInfo, frames, i + 1, depth + 1, r);
    }
  }

  /** With no symbol store loaded, no backtrace line names a source file and line; frames are shown by address or public name. */
  lemma BacktraceWithoutDebugInfo(self: Amx, history: seq<Call>, instances: map<Amx, Instance>, host: Host)
    requires self in instances && Registered(history, instances) && AllQueryable(instances)
    requires NoneLoaded(instances)
    ensures forall e :: e in BacktraceLines(self, history, instances, host) ==> !e.SourceFrame?
  {
    var r := ReporterFor(self, instances, host);
    var w := EntryWalker(r);
    ReadyWalkable(history, r);
    forall k, f: ucell, d: int | 0 <= k < |history|
      ensures EntryWithoutSource(w, history[k], f, d)
    {
      var call := history[k];
      assert EntryReady(call, r);
      if call.kind == Public {
        FrameLinesWithoutDebugInfo(call, r.instances[call.amx].debugInfo, EntryFrames(call, f, r), 0, d, r);
      }
    }
    WithoutSource(history, 0, |history|, AsUcell(self.frm), 0, w);
  }

  // ----- Run-time error details -----

  /** The byte offset of the cell just before cip in the code segment (the operand of the failing instruction). */
  function CellBeforeCip(amx: Amx): int {
    amx.cod + amx.cip - CELL_SIZE
  }

  predicate ReadsCellBeforeCip(error: int) {
    error == AMX_ERR_BOUNDS || error == AMX_ERR_INVINSTR
  }

  /** The lines naming the natives not registered, in table order. */
  function Unregistered(natives: seq<NativeStub>): (listed: seq<Event>)
    ensures |listed| <= |natives|
    ensures forall e :: e in listed ==> e.NotRegistered?
  {
    if |natives| == 0 then []
    else
      var last := natives[|natives| - 1];
      Unregistered(natives[..|natives| - 1]) + (if last.address == 0 then [NotRegistered(last.name)] else [])
  }

  /** Table order: the list for a concatenation is the concatenation of the lists. */
  lemma {:induction false} UnregisteredAppend(a: seq<NativeStub>, b: seq<NativeStub>)
    ensures Unregistered(a + b) == Unregistered(a) + Unregistered(b)
    decreases |b|
  {
    if b == [] {
      assert a + b == a;
    } else {
      var init := b[..|b| - 1];
      assert (a + b)[..|a + b| - 1] == a + init;
      assert (a + b)[|a + b| - 1] == b[|b| - 1];
      UnregisteredAppend(a, init);
    }
  }

  /** Exactly the natives whose address is 0 are listed, and nothing but "not registered" lines. */
  lemma {:induction false} UnregisteredExactly(natives: seq<NativeStub>, name: string)
    ensures NotRegistered(name) in Unregistered(natives) <==>
      exists i :: 0 <= i < |natives| && natives[i].address == 0 && natives[i].name == name
    ensures forall e :: e in Unregistered(natives) ==> e.NotRegistered?
    decreases |natives|
  {
    if |natives| > 0 {
      var init := natives[..|natives| - 1];
      UnregisteredExactly(init, name);
      var last := natives[|natives| - 1];
      if exists i :: 0 <= i < |init| && init[i].address == 0 && init[i].name == name {
        var i :| 0 <= i < |init| && init[i].address == 0 && init[i].name == name;
        assert natives[i] == init[i];
      }
      if exists i :: 0 <= i < |natives| && natives[i].address == 0 && natives[i].name == name {
        var i :| 0 <= i < |natives| && natives[i].address == 0 && natives[i].name == name;
        if i < |init| {
          assert init[i] == natives[i];
        }
      }
    }
  }

  /** The error codes a run-time error report explains beyond the error line. */
  predicate HasDetail(error: int) {
    error == AMX_ERR_BOUNDS || error == AMX_ERR_NOTFOUND || error == AMX_ERR_STACKERR ||
    error == AMX_ERR_STACKLOW || error == AMX_ERR_HEAPLOW || error == AMX_ERR_INVINSTR
  }

  /**
   * The code-specific lines of a run-time error report: none for a code
   * without an explanation, one line for each explained code except a
   * missing native, which opens a list of the natives not registered.
   */
  function ErrorDetail(amx: Amx, error: int): (detail: seq<Event>)
    requires ReadsCellBeforeCip(error) ==> CellBeforeCip(amx) in amx.mem
    ensures |detail| > 0 <==> HasDetail(error)
    ensures error != AMX_ERR_NOTFOUND ==> |detail| <= 1
    ensures error == AMX_ERR_NOTFOUND ==> detail[0] == NotRegisteredHeader
  {
    if error == AMX_ERR_BOUNDS then
      var bound := amx.mem[CellBeforeCip(amx)];
      if amx.pri < 0 then [NegativeIndex(amx.pri)] else [PastUpperBound(amx.pri, bound)]
    else if error == AMX_ERR_NOTFOUND then
      [NotRegisteredHeader] + Unregistered(amx.natives)
    else if error == AMX_ERR_STACKERR then
      [StackHeapIndex(amx.stk, amx.hea)]
    else if error == AMX_ERR_STACKLOW then
      [StackIndexTop(amx.stk, amx.stp)]
    else if error == AMX_ERR_HEAPLOW then
      [HeapIndexBottom(amx.hea, amx.hlw)]
    else if error == AMX_ERR_INVINSTR then
      [InvalidOpcode(amx.mem[CellBeforeCip(amx)], AsUcell(amx.cip - CELL_SIZE))]
    else
      []
  }

  // ----- Whole reports -----

  /** ExitOnError: "[debug] Aborting..." (and process exit) when die_on_error is set. */
  function ExitLines(host: Host): (lines: seq<Event>)
    ensures Aborting in lines <==> host.dieOnError
    ensures forall e :: e in lines ==> e == Aborting
  {
    if host.dieOnError then [Aborting] else []
  }

  /** The phantom index error of the GDK entry point, which is ignored. */
  predicate IsSilentError(index: int, error: int) {
    error == AMX_ERR_INDEX && index == AMX_EXEC_GDK
  }

  predicate CanReportRuntimeError(amx: Amx, index: int, error: int) {
    !IsSilentError(index, error) && ReadsCellBeforeCip(error) ==> CellBeforeCip(amx) in amx.mem
  }

  /** HandleRuntimeError's report: nothing at all exactly for the phantom GDK index error. */
  function RuntimeErrorReport(amx: Amx, index: int, error: int, history: seq<Call>, instances: map<Amx, Instance>, host: Host): (report: seq<Event>)
    requires amx in instances && AllQueryable(instances)
    requires !IsSilentError(index, error) ==> Registered(history, instances)
    requires CanReportRuntimeError(amx, index, error)
    ensures |report| == 0 <==> IsSilentError(index, error)
  {
    if IsSilentError(index, error) then []
    else [RunTimeError(error)] + ErrorDetail(amx, error) + BacktraceLines(amx, history, instances, host) + ExitLines(host)
  }

  /**
   * Every reported run-time error opens with the error line followed by the
   * code-specific lines, and ends by applying the abort policy.
   */
  lemma RuntimeErrorReportShape(amx: Amx, index: int, error: int, history: seq<Call>, instances: map<Amx, Instance>, host: Host)
    requires amx in instances && Registered(history, instances) && AllQueryable(instances)
    requires CanReportRuntimeError(amx, index, error) && !IsSilentError(index, error)
    ensures |RuntimeErrorReport(amx, index, error, history, instances, host)| >= 1 + |ErrorDetail(amx, error)| + |ExitLines(host)|
    ensures RuntimeErrorReport(amx, index, error, history, instances, host)[..1 + |ErrorDetail(amx, error)|] ==
      [RunTimeError(error)] + ErrorDetail(amx, error)
    ensures RuntimeErrorReport(amx, index, error, history, instances, host)[
        |RuntimeErrorReport(amx, index, error, history, instances, host)| - |ExitLines(host)|..] == ExitLines(host)
  {
    var detail := ErrorDetail(amx, error);
    var backtrace := BacktraceLines(amx, history, instances, host);
    var report := RuntimeErrorReport(amx, index, error, history, instances, host);
    assert report == ([RunTimeError(error)] + detail) + (backtrace + ExitLines(host));
  }

  /**
   * A bounds error names a negative index exactly when pri is negative, and
   * otherwise the index past the upper bound read before cip.
   */
  lemma BoundsDetail(amx: Amx)
    requires CellBeforeCip(amx) in amx.mem
    ensures amx.pri < 0 ==> ErrorDetail(amx, AMX_ERR_BOUNDS) == [NegativeIndex(amx.pri)]
    ensures amx.pri >= 0 ==> ErrorDetail(amx, AMX_ERR_BOUNDS) == [PastUpperBound(amx.pri, amx.mem[CellBeforeCip(amx)])]
  {
  }

  function NativeErrorReport(amx: Amx, index: int, history: seq<Call>, instances: map<Amx, Instance>, host: Host): seq<Event>
    requires amx in instances && Registered(history, instances) && AllQueryable(instances)
  {
    [NativeFailed(host.nativeName(amx, index).GetOr("??"))] + BacktraceLines(amx, history, instances, host) + ExitLines(host)
  }

  /** HandleCrash: the script that was executing, then the backtrace. */
  function CrashReport(amx: Amx, history: seq<Call>, instances: map<Amx, Instance>, host: Host): seq<Event>
    requires amx in instances && Registered(history, instances) && AllQueryable(instances)
  {
    [CrashedWhile(instances[amx].amxName)] + BacktraceLines(amx, history, instances, host)
  }

  /** HandleInterrupt: the interrupt line, then the backtrace. */
  function InterruptReport(amx: Amx, history: seq<Call>, instances: map<Amx, Instance>, host: Host): seq<Event>
    requires amx in instances && Registered(history, instances) && AllQueryable(instances)
  {
    [KeyboardInterrupt] + BacktraceLines(amx, history, instances, host)
  }
}
