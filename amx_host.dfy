/**
 * What the crash reporter sees of the Pawn virtual machine (an AMX instance)
 * and of the rest of the server: error codes, the VM handle, the call-history
 * entries, the reconstructed frames, the log events it emits, and the host
 * services it only calls.
 */
module AmxHost {
  import opened Wrappers
  import opened AmxDebugInfo

  // Error codes of the Pawn 3.2 abstract machine (amx.h).
  const AMX_ERR_NONE: int := 0
  const AMX_ERR_STACKERR: int := 3
  const AMX_ERR_BOUNDS: int := 4
  const AMX_ERR_INVINSTR: int := 6
  const AMX_ERR_STACKLOW: int := 7
  const AMX_ERR_HEAPLOW: int := 8
  const AMX_ERR_NATIVE: int := 10
  const AMX_ERR_NOTFOUND: int := 19
  const AMX_ERR_INDEX: int := 20

  // Special entry-point indices passed to amx_Exec.
  const AMX_EXEC_MAIN: int := -1
  const AMX_EXEC_GDK: int := -10

  /** The size of a cell in bytes. */
  const CELL_SIZE: int := 4

  /** An entry of the AMX's native-function table. */
  datatype NativeStub = NativeStub(address: int, name: string)

  /**
   * An AMX instance. The registers and the memory image are read, never
   * written, by the crash reporter, so they are constants here; `error` is
   * the one field it resets. `mem` maps byte offsets from the AMX base to
   * the cells stored there.
   */
  class Amx {
    const frm: int
    const cip: int
    const pri: int
    const stk: int
    const hea: int
    const stp: int
    const hlw: int
    const cod: int
    const dat: int
    const natives: seq<NativeStub>
    const mem: map<int, int>
    var error: int
  }

  datatype CallKind = Native | Public

  /** A call-history entry: who was entered, in which AMX, and that AMX's frame at the time. */
  datatype Call = Call(kind: CallKind, amx: Amx, index: int, frm: int)

  /** A logical stack frame, as the (external) call-stack walker reports it. */
  datatype Frame = Frame(
    functionAddress: ucell,
    functionName: string,
    isPublic: bool,
    callAddress: ucell,
    sourceFileName: string,
    prototype: string)

  /** The per-AMX reporter state that outlives construction: the script's name and its symbol store. */
  datatype Instance = Instance(amxName: string, debugInfo: DebugInfo)

  /**
   * One log line, abstracted from its printf text. The frame lines of a
   * backtrace ("#n ...") carry their number `depth`.
   */
  datatype Event =
    | RunTimeError(code: int)
    | NegativeIndex(index: int)
    | PastUpperBound(index: int, bound: int)
    | NotRegisteredHeader
    | NotRegistered(name: string)
    | StackHeapIndex(stk: int, hea: int)
    | StackIndexTop(stk: int, stp: int)
    | HeapIndexBottom(hea: int, hlw: int)
    | InvalidOpcode(opcode: int, address: ucell)
    | NativeFailed(name: string)
    | UnknownCrash
    | CrashedWhile(amxName: string)
    | KeyboardInterrupt
    | Aborting
    | AmxErrorCalled(index: int, code: int)
    | BacktraceHeader
    | StackCorrupted
    | NativeUnknown(depth: int)
    | NativeFrame(depth: int, name: string, moduleName: string)
    | NativeUnnamed(depth: int)
    | SourceFrame(depth: int, prototype: string, file: string, line: int)
    | PublicFrame(depth: int, name: string, offset: ucell, amxName: string)
    | AddressFrame(depth: int, address: ucell, offset: ucell, amxName: string)
    | MainFrame(depth: int, offset: ucell, amxName: string)
    | UnknownFrame(depth: int, amxName: string)
  {
    /** A numbered "#n" line of a backtrace. */
    predicate IsFrameLine() {
      NativeUnknown? || NativeFrame? || NativeUnnamed? || SourceFrame? ||
      PublicFrame? || AddressFrame? || MainFrame? || UnknownFrame?
    }
  }

  /**
   * The collaborators the reporter calls but whose code is not modelled:
   * the frame-chain walker, the OS module lookup, the native and public
   * table accessors, and the "die_on_error" configuration option.
   */
  datatype Host = Host(
    callStack: (Amx, DebugInfo, ucell) -> seq<Frame>,
    moduleName: int -> string,
    nativeAddress: (Amx, int) -> int,
    nativeName: (Amx, int) -> Option<string>,
    publicAddress: (Amx, int) -> ucell,
    publicName: (Amx, int) -> Option<string>,
    dieOnError: bool)

  /**
   * The outcome of a step into code outside the reporter (amx_Exec, or the
   * previously installed native callback): its return code, the AMX error
   * field it leaves, the double-report flag it leaves (nested handlers may
   * set or clear it), and the log lines nested handlers emitted meanwhile.
   */
  datatype HostStep = HostStep(ret: int, amxError: int, caught: bool, events: seq<Event>)
}
