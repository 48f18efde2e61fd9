/**
 * The debug-symbol store of a Pawn (AMX) program: the file, line, symbol and
 * tag tables read from the program's debug information, and the queries the
 * crash reporter makes of them.
 *
 * Each lookup the C++ code runs as an iterator loop is a method with its loop,
 * proved against a specification function; the lemmas state what the
 * specification functions mean on sorted tables.
 */
module AmxDebugInfo {
  import opened Wrappers

  const UCELL_LIMIT: int := 0x1_0000_0000

  /** The AMX's unsigned 32-bit cell. */
  type ucell = x: int | 0 <= x < 0x1_0000_0000

  /** `static_cast<ucell>` of a (possibly negative) cell: reduction modulo 2^32. */
  function AsUcell(x: int): (u: ucell)
    ensures (u - x) % UCELL_LIMIT == 0
  {
    x % UCELL_LIMIT
  }

  /** The implicit `ucell` to `int` conversion: the signed 32-bit value with the same bits. */
  function AsCell(u: ucell): (c: int)
    ensures -0x8000_0000 <= c < 0x8000_0000
    ensures (c - u) % UCELL_LIMIT == 0
    ensures u < 0x8000_0000 ==> c == u
  {
    if u < 0x8000_0000 then u else u - UCELL_LIMIT
  }

  /** Converting to a signed cell and back loses nothing. */
  lemma AsCellRoundTrip(u: ucell)
    ensures AsUcell(AsCell(u)) == u
  {
  }

  /** A file-table entry: the first code address belonging to source file `name`. */
  datatype FileEntry = FileEntry(address: ucell, name: string)

  /** A line-table entry: the first code address of a (zero-based) source line. */
  datatype LineEntry = LineEntry(address: ucell, line: int)

  datatype SymbolKind = Variable | Reference | Array | ArrayRef | Function

  /** One array dimension, as stored after an array symbol's name. */
  datatype SymbolDim = SymbolDim(tag: int, size: ucell)

  /**
   * A symbol-table entry. `dimData` is the dimension metadata stored right
   * after the symbol's name; `numDims` is the symbol's own dimension count.
   */
  datatype Symbol = Symbol(
    address: ucell,
    tag: int,
    codeStart: ucell,
    codeEnd: ucell,
    kind: SymbolKind,
    numDims: int,
    name: string,
    dimData: seq<SymbolDim>)

  datatype Tag = Tag(id: int, name: string)

  /** The tables of a loaded debug-information file, in file order. */
  datatype Tables = Tables(
    files: seq<FileEntry>,
    lines: seq<LineEntry>,
    symbols: seq<Symbol>,
    tags: seq<Tag>)

  /** A symbol store: loaded (holding its tables) or not. */
  datatype DebugInfo = DebugInfo(amxdbg: Option<Tables>) {

    /** AMXDebugInfo::IsLoaded: the store holds tables; a store without them has nothing to dereference. */
    predicate IsLoaded(): (loaded: bool)
      ensures !loaded ==> Queryable()
    {
      amxdbg.Some?
    }

    /**
     * The line and file lookups dereference the first table entry even when
     * nothing matches, so they need non-empty tables.
     */
    predicate Queryable() {
      amxdbg.Some? ==> |amxdbg.value.files| > 0 && |amxdbg.value.lines| > 0
    }
  }

  // ----- Address lookups in the file and line tables -----

  predicate Sorted(addrs: seq<int>) {
    forall i, j :: 0 <= i < j < |addrs| ==> addrs[i] <= addrs[j]
  }

  /**
   * The number of leading entries whose address is at most `a`: the forward
   * scan of GetLine and GetFile stops at the first entry above `a`.
   */
  function ScanLength(addrs: seq<int>, a: int): (n: nat)
    ensures n <= |addrs|
    ensures forall i :: 0 <= i < n ==> addrs[i] <= a
    ensures n < |addrs| ==> addrs[n] > a
  {
    if addrs == [] || addrs[0] > a then 0 else 1 + ScanLength(addrs[1..], a)
  }

  /**
   * The index the scan leaves in `last`: the last entry of that prefix, or
   * the first entry when the prefix is empty (`last` starts at `begin()`).
   */
  function LastIndex(addrs: seq<int>, a: int): (k: nat)
    requires |addrs| > 0
    ensures k < |addrs|
  {
    var n := ScanLength(addrs, a);
    if n == 0 then 0 else n - 1
  }

  /** Any stopping point with the scan's two properties is the scan's. */
  lemma ScanLengthUnique(addrs: seq<int>, a: int, n: nat)
    requires n <= |addrs|
    requires forall i :: 0 <= i < n ==> addrs[i] <= a
    requires n < |addrs| ==> addrs[n] > a
    ensures n == ScanLength(addrs, a)
  {
  }

  /**
   * On a sorted table and an address at or after its first entry, the lookup
   * returns the last entry whose address is at most `a`: every later entry
   * lies above `a`.
   */
  lemma LastIndexIsLastAtOrBelow(addrs: seq<int>, a: int)
    requires |addrs| > 0 && Sorted(addrs) && addrs[0] <= a
    ensures addrs[LastIndex(addrs, a)] <= a
    ensures forall j :: LastIndex(addrs, a) < j < |addrs| ==> addrs[j] > a
  {
    var n := ScanLength(addrs, a);
    assert n > 0;
    if n < |addrs| {
      forall j | n <= j < |addrs| ensures addrs[j] > a {
        assert addrs[n] <= addrs[j];
      }
    }
  }

  /** An address before every entry yields the first entry, not "none". */
  lemma LastIndexBeforeFirst(addrs: seq<int>, a: int)
    requires |addrs| > 0 && a < addrs[0]
    ensures LastIndex(addrs, a) == 0
  {
  }

  /**
   * On a sorted table, any address in [addrs[k], addrs[k + 1]) is resolved to
   * entry k; in particular the exact address of an entry that is not
   * followed by a duplicate address resolves to that entry.
   */
  lemma LastIndexInRange(addrs: seq<int>, k: nat, a: int)
    requires k < |addrs| && Sorted(addrs)
    requires addrs[k] <= a
    requires k + 1 < |addrs| ==> a < addrs[k + 1]
    ensures LastIndex(addrs, a) == k
  {
    forall i | 0 <= i < k + 1 ensures addrs[i] <= a {
      assert addrs[i] <= addrs[k];
    }
    ScanLengthUnique(addrs, a, k + 1);
  }

  /** The addresses of a table's entries, in table order. */
  function Addresses<E>(entries: seq<E>, address: E -> int): (addrs: seq<int>)
    ensures |addrs| == |entries|
    ensures forall i :: 0 <= i < |entries| ==> addrs[i] == address(entries[i])
  {
    seq(|entries|, i requires 0 <= i < |entries| => address(entries[i]))
  }

  function LineAddresses(lines: seq<LineEntry>): seq<int> {
    Addresses(lines, (e: LineEntry) => e.address)
  }

  function FileAddresses(files: seq<FileEntry>): seq<int> {
    Addresses(files, (e: FileEntry) => e.address)
  }

  /** The stored line entry a lookup of `a` settles on. */
  function LineAt(lines: seq<LineEntry>, a: ucell): LineEntry
    requires |lines| > 0
  {
    lines[LastIndex(LineAddresses(lines), a)]
  }

  /** The file entry a lookup of `a` settles on. */
  function FileAt(files: seq<FileEntry>, a: ucell): FileEntry
    requires |files| > 0
  {
    files[LastIndex(FileAddresses(files), a)]
  }

  /** AMXDebugInfo::GetLine: the covering entry, with its line made one-based. */
  method GetLine(lines: seq<LineEntry>, address: ucell) returns (line: LineEntry)
    requires |lines| > 0
    ensures line.address == LineAt(lines, address).address
    ensures line.line == LineAt(lines, address).line + 1
  {
    var it, last := 0, 0;
    while it < |lines| && lines[it].address <= address
      invariant 0 <= it <= |lines|
      invariant last == if it == 0 then 0 else it - 1
      invariant forall i :: 0 <= i < it ==> lines[i].address <= address
    {
      last := it;
      it := it + 1;
    }
    ScanLengthUnique(LineAddresses(lines), address, it);
    line := lines[last];
    line := line.(line := line.line + 1);
  }

  /** AMXDebugInfo::GetFile: the covering file entry. */
  method GetFile(files: seq<FileEntry>, address: ucell) returns (file: FileEntry)
    requires |files| > 0
    ensures file == FileAt(files, address)
  {
    var it, last := 0, 0;
    while it < |files| && files[it].address <= address
      invariant 0 <= it <= |files|
      invariant last == if it == 0 then 0 else it - 1
      invariant forall i :: 0 <= i < it ==> files[i].address <= address
    {
      last := it;
      it := it + 1;
    }
    ScanLengthUnique(FileAddresses(files), address, it);
    file := files[last];
  }

  // ----- Function lookup -----

  /**
   * A compiler defect registers unimplemented forwarded publics as symbols;
   * all of them have names starting with '@'. (An empty C string has '\0'
   * as its first character.)
   */
  predicate IsBuggedForward(s: Symbol): (bugged: bool)
    ensures bugged <==> "@" <= s.name
  {
    |s.name| > 0 && s.name[0] == '@'
  }

  /** `s` is the function whose code range [codeStart, codeEnd) holds `address`. */
  predicate IsFunctionAt(s: Symbol, address: ucell) {
    s.kind == Function && s.codeStart <= address < s.codeEnd && !IsBuggedForward(s)
  }

  /** The index of the first symbol that is the function at `address` (|symbols| if none). */
  function FirstFunctionAt(symbols: seq<Symbol>, address: ucell): (k: nat)
    ensures k <= |symbols|
    ensures forall j :: 0 <= j < k ==> !IsFunctionAt(symbols[j], address)
    ensures k < |symbols| ==> IsFunctionAt(symbols[k], address)
  {
    if symbols == [] then 0
    else if IsFunctionAt(symbols[0], address) then 0
    else 1 + FirstFunctionAt(symbols[1..], address)
  }

  function FunctionAt(symbols: seq<Symbol>, address: ucell): Option<Symbol> {
    var k := FirstFunctionAt(symbols, address);
    if k < |symbols| then Some(symbols[k]) else None
  }

  /**
   * The function lookup finds the first symbol, in table order, that is a
   * function, whose code range holds the address and whose name does not
   * start with '@'; it finds nothing exactly when no symbol is such.
   */
  lemma FunctionAtIsFirstMatch(symbols: seq<Symbol>, address: ucell)
    ensures FunctionAt(symbols, address).None? <==>
      forall j :: 0 <= j < |symbols| ==> !IsFunctionAt(symbols[j], address)
    ensures FunctionAt(symbols, address).Some? ==>
      exists k :: 0 <= k < |symbols| && symbols[k] == FunctionAt(symbols, address).value &&
        IsFunctionAt(symbols[k], address) &&
        forall j :: 0 <= j < k ==> !IsFunctionAt(symbols[j], address)
  {
    var k := FirstFunctionAt(symbols, address);
    if k == |symbols| {
    } else {
      assert IsFunctionAt(symbols[k], address);
    }
  }

  /**
   * Whatever the table holds, the lookup never yields a non-function, a
   * symbol whose name starts with '@', or a function whose range misses the
   * address, even when such a symbol precedes every match.
   */
  lemma FunctionAtFilters(symbols: seq<Symbol>, address: ucell)
    ensures FunctionAt(symbols, address).Some? ==>
      var s := FunctionAt(symbols, address).value;
      s.kind == Function && !IsBuggedForward(s) && s.codeStart <= address < s.codeEnd
  {
  }

  /** AMXDebugInfo::GetFunction: a first-match scan with `continue` and `break`. */
  method GetFunction(symbols: seq<Symbol>, address: ucell) returns (found: Option<Symbol>)
    ensures found == FunctionAt(symbols, address)
  {
    found := None;
    for i := 0 to |symbols|
      invariant found == None
      invariant forall j :: 0 <= j < i ==> !IsFunctionAt(symbols[j], address)
    {
      if symbols[i].kind != Function {
        continue;
      }
      if symbols[i].codeStart > address || symbols[i].codeEnd <= address {
        continue;
      }
      if IsBuggedForward(symbols[i]) {
        continue;
      }
      assert FirstFunctionAt(symbols, address) == i by {
        FirstFunctionAtUnique(symbols, address, i);
      }
      found := Some(symbols[i]);
      break;
    }
    if found == None {
      FirstFunctionAtUnique(symbols, address, |symbols|);
    }
  }

  lemma FirstFunctionAtUnique(symbols: seq<Symbol>, address: ucell, k: nat)
    requires k <= |symbols|
    requires forall j :: 0 <= j < k ==> !IsFunctionAt(symbols[j], address)
    requires k < |symbols| ==> IsFunctionAt(symbols[k], address)
    ensures k == FirstFunctionAt(symbols, address)
  {
  }

  // ----- Tag lookup -----

  /** The index of the first tag with the given id (|tags| if none). */
  function FirstTag(tags: seq<Tag>, id: int): (k: nat)
    ensures k <= |tags|
    ensures forall j :: 0 <= j < k ==> tags[j].id != id
    ensures k < |tags| ==> tags[k].id == id
  {
    if tags == [] then 0
    else if tags[0].id == id then 0
    else 1 + FirstTag(tags[1..], id)
  }

  function TagAt(tags: seq<Tag>, id: int): Option<Tag> {
    var k := FirstTag(tags, id);
    if k < |tags| then Some(tags[k]) else None
  }

  /** The tag lookup finds the first tag with the id, and nothing exactly when no tag has it. */
  lemma TagAtIsFirstMatch(tags: seq<Tag>, id: int)
    ensures TagAt(tags, id).None? <==> forall j :: 0 <= j < |tags| ==> tags[j].id != id
    ensures TagAt(tags, id).Some? ==>
      TagAt(tags, id).value.id == id &&
      exists k :: 0 <= k < |tags| && tags[k] == TagAt(tags, id).value &&
        forall j :: 0 <= j < k ==> tags[j].id != id
  {
    var k := FirstTag(tags, id);
    if k < |tags| {
      assert tags[k] == TagAt(tags, id).value;
    }
  }

  /** AMXDebugInfo::GetTag: a linear search by id. */
  method GetTag(tags: seq<Tag>, id: int) returns (tag: Option<Tag>)
    ensures tag == TagAt(tags, id)
  {
    tag := None;
    var it := 0;
    while it < |tags| && tags[it].id != id
      invariant 0 <= it <= |tags|
      invariant forall j :: 0 <= j < it ==> tags[j].id != id
    {
      it := it + 1;
    }
    if it < |tags| {
      tag := Some(tags[it]);
    }
    assert it == FirstTag(tags, id);
  }

  // ----- The name and number wrappers -----

  /** The (one-based) line number for `address`. */
  function LineNumberAt(t: Tables, address: ucell): int
    requires |t.lines| > 0
  {
    LineAt(t.lines, address).line + 1
  }

  function FileNameAt(t: Tables, address: ucell): string
    requires |t.files| > 0
  {
    FileAt(t.files, address).name
  }

  function FunctionNameAt(t: Tables, address: ucell): string {
    match FunctionAt(t.symbols, address)
    case Some(s) => s.name
    case None => ""
  }

  function TagNameAt(t: Tables, id: int): string {
    match TagAt(t.tags, id)
    case Some(tag) => tag.name
    case None => ""
  }

  /**
   * On a sorted line table, every address from entry k's address up to (not
   * including) the next entry's address has line number `line + 1` of entry k.
   */
  lemma LineNumberInRange(t: Tables, k: nat, address: ucell)
    requires k < |t.lines| && Sorted(LineAddresses(t.lines))
    requires t.lines[k].address <= address
    requires k + 1 < |t.lines| ==> address < t.lines[k + 1].address
    ensures LineNumberAt(t, address) == t.lines[k].line + 1
  {
    LastIndexInRange(LineAddresses(t.lines), k, address);
  }

  /** The same for the file table: the address range of entry k names its file. */
  lemma FileNameInRange(t: Tables, k: nat, address: ucell)
    requires k < |t.files| && Sorted(FileAddresses(t.files))
    requires t.files[k].address <= address
    requires k + 1 < |t.files| ==> address < t.files[k + 1].address
    ensures FileNameAt(t, address) == t.files[k].name
  {
    LastIndexInRange(FileAddresses(t.files), k, address);
  }

  /** The name wrappers give "" exactly when the lookup finds nothing (for a nameless match too). */
  lemma NameWrappersMiss(t: Tables, address: ucell, id: int)
    ensures FunctionAt(t.symbols, address).None? ==> FunctionNameAt(t, address) == ""
    ensures FunctionAt(t.symbols, address).Some? ==>
      FunctionNameAt(t, address) == FunctionAt(t.symbols, address).value.name
    ensures TagAt(t.tags, id).None? ==> TagNameAt(t, id) == ""
    ensures TagAt(t.tags, id).Some? ==> TagNameAt(t, id) == TagAt(t.tags, id).value.name
  {
  }

  /** AMXDebugInfo::GetLineNumber. */
  method GetLineNumber(t: Tables, address: ucell) returns (number: int)
    requires |t.lines| > 0
    ensures number == LineNumberAt(t, address)
  {
    var line := GetLine(t.lines, address);
    number := line.line;
  }

  /** AMXDebugInfo::GetFileName. */
  method GetFileName(t: Tables, address: ucell) returns (name: string)
    requires |t.files| > 0
    ensures name == FileNameAt(t, address)
  {
    var file := GetFile(t.files, address);
    name := file.name;
  }

  /** AMXDebugInfo::GetFunctionName: "" when no function covers the address. */
  method GetFunctionName(t: Tables, address: ucell) returns (name: string)
    ensures name == FunctionNameAt(t, address)
  {
    name := "";
    var found := GetFunction(t.symbols, address);
    if found.Some? {
      name := found.value.name;
    }
  }

  /**
   * AMXDebugInfo::GetTagName: the unsigned address is passed on as a signed
   * tag id; "" when no tag has that id.
   */
  method GetTagName(t: Tables, address: ucell) returns (name: string)
    ensures name == TagNameAt(t, AsCell(address))
  {
    name := "";
    var tag := GetTag(t.tags, AsCell(address));
    if tag.Some? {
      name := tag.value.name;
    }
  }

  // ----- Symbol values and dimensions -----

  predicate HasDims(s: Symbol) {
    (s.kind == Array || s.kind == ArrayRef) && s.numDims > 0
  }

  /** Symbol::GetDims: the declared dimensions of an array symbol, in order. */
  method GetDims(s: Symbol) returns (dims: seq<SymbolDim>)
    requires HasDims(s) ==> s.numDims <= |s.dimData|
    ensures HasDims(s) ==> |dims| == s.numDims && dims == s.dimData[..s.numDims]
    ensures !HasDims(s) ==> dims == []
  {
    dims := [];
    if HasDims(s) {
      var i := 0;
      while i < s.numDims
        invariant 0 <= i <= s.numDims
        invariant dims == s.dimData[..i]
      {
        dims := dims + [s.dimData[i]];
        i := i + 1;
      }
    }
  }

  /**
   * The addresses that neither absolute bucket claims: the code bound itself,
   * and those below the code bound that do not exceed the data bound.
   */
  predicate IsFrameRelative(s: Symbol, cod: int, dat: int) {
    s.address == AsUcell(cod) || (s.address < AsUcell(cod) && s.address <= AsUcell(dat))
  }

  /**
   * The byte offset, from the AMX base, of the cell holding symbol `s`, for
   * header offsets `cod` and `dat`, the AMX's frame register `amxFrm` and the
   * requested frame `frm` (0 meaning the current one).
   */
  function ValueLocation(s: Symbol, cod: int, dat: int, amxFrm: int, frm: ucell): int {
    if s.address > AsUcell(cod) then
      cod + s.address
    else if s.address > AsUcell(dat) && s.address < AsUcell(cod) then
      dat + s.address
    else
      dat + (if frm == 0 then AsUcell(amxFrm) else frm) + s.address
  }

  /**
   * Symbol::GetValue: the raw cell at the symbol's storage location in the
   * AMX memory `mem` (byte offset from the base to cell value). Above the
   * code bound it is code-relative; strictly between the data bound and the
   * code bound it is data-relative; otherwise it is relative to the frame.
   */
  function GetValue(s: Symbol, mem: map<int, int>, cod: int, dat: int, amxFrm: int, frm: ucell): (v: int)
    requires ValueLocation(s, cod, dat, amxFrm, frm) in mem
    ensures s.address > AsUcell(cod) ==> v == mem[cod + s.address]
    ensures AsUcell(dat) < s.address < AsUcell(cod) ==> v == mem[dat + s.address]
    ensures IsFrameRelative(s, cod, dat) && frm != 0 ==> v == mem[dat + frm + s.address]
    ensures IsFrameRelative(s, cod, dat) && frm == 0 ==>
      v == mem[dat + AsUcell(amxFrm) + s.address]
  {
    mem[ValueLocation(s, cod, dat, amxFrm, frm)]
  }

  /** The two absolute buckets do not depend on the frame. */
  lemma AbsoluteValueIgnoresFrame(s: Symbol, cod: int, dat: int, amxFrm1: int, frm1: ucell, amxFrm2: int, frm2: ucell)
    requires s.address > AsUcell(cod) || AsUcell(dat) < s.address < AsUcell(cod)
    ensures ValueLocation(s, cod, dat, amxFrm1, frm1) == ValueLocation(s, cod, dat, amxFrm2, frm2)
  {
  }

  /** A frame argument of 0 stands for the AMX's current frame register. */
  lemma ZeroFrameIsCurrentFrame(s: Symbol, cod: int, dat: int, amxFrm: int)
    ensures ValueLocation(s, cod, dat, amxFrm, 0) == ValueLocation(s, cod, dat, amxFrm, AsUcell(amxFrm))
  {
  }
}
