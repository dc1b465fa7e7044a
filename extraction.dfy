/**
 * The extraction pipeline of src/extract.rs `extract`: configure the
 * engine, parse, mock the imports, instantiate, find the memory, call the
 * accessor of the memory's width, scan, decode. Each stage either fails
 * with its own tag or hands its result to the next.
 */
module Extraction {
  import opened Wrappers
  import opened Wasm
  import opened Failures
  import opened Utf8
  import opened CString
  import opened Linking
  import opened Dispatch

  /** Every import is a function import, and no two share a name. */
  predicate Mockable(imports: seq<Import>) {
    DistinctFuncKeys(imports) && forall i :: 0 <= i < |imports| ==> imports[i].ty.Func?
  }

  /** The stages up to a live instance: engine, parse, mock imports, instantiate. */
  function Instantiate(rt: Runtime): (r: Result<Instance, Failure>)
    ensures r.Err? ==> r.error.EngineFailed? || r.error.ParseFailed? || r.error.MockFailed? || r.error.InstantiateFailed?
  {
    if !rt.engineOk then Err(EngineFailed)
    else if rt.parsed.None? then Err(ParseFailed)
    else
      var m := rt.parsed.value;
      match Mock(map[], m.imports)
      case Err(k) => Err(MockFailed(k.0, k.1))
      case Ok(defs) =>
        if !Links(defs, m.imports) || m.startup.None? then Err(InstantiateFailed)
        else Ok(m.startup.value)
  }

  /** The stages on a live instance: memory lookup, pointer, scan, decode. */
  function Scrape(inst: Instance): (r: Result<string, Failure>)
    ensures r.Err? ==> r.error.MemoryMissing? || r.error.AccessorUnavailable? || r.error.AccessorTrapped?
                       || r.error.ScanOutOfBounds? || r.error.InvalidUtf8?
    ensures r.Ok? ==> '\0' !in r.value
  {
    match GetMemory(inst, MEMORY_EXPORT)
    case None => Err(MemoryMissing)
    case Some(mem) =>
      match Pointer(inst, WidthOf(mem))
      case Err(f) => Err(f)
      case Ok(p) =>
        match StringAt(mem.data, p)
        case None => Err(ScanOutOfBounds)
        case Some(bytes) =>
          match Decode(bytes)
          case None => Err(InvalidUtf8)
          case Some(text) =>
            EncodeDecode(bytes);
            ZeroByteIffNul(text);
            Ok(text)
  }

  /**
   * The whole extraction as a function of the runtime's answers. A text
   * comes back only from a module whose imports are all function imports
   * with distinct names, and it never contains NUL: the terminator ends it.
   */
  function Run(rt: Runtime): (r: Result<string, Failure>)
    ensures r.Ok? ==> rt.engineOk && rt.parsed.Some? && Mockable(rt.parsed.value.imports)
                      && rt.parsed.value.startup.Some?
    ensures r.Ok? ==> Scrape(rt.parsed.value.startup.value) == r && '\0' !in r.value
  {
    match Instantiate(rt)
    case Err(f) => Err(f)
    case Ok(inst) =>
      InstantiateSucceedsIff(rt);
      Scrape(inst)
  }

  /**
   * extract, step by step. `mocked` is what the linker holds at the end:
   * nothing when the engine or the parse failed, and Mock's definitions
   * whenever every import could be mocked, whatever later stage fails.
   */
  method Extract(rt: Runtime) returns (r: Result<string, Failure>, ghost mocked: Definitions)
    ensures r == Run(rt)
    ensures !rt.engineOk || rt.parsed.None? ==> mocked == map[]
    ensures rt.engineOk && rt.parsed.Some? && Mock(map[], rt.parsed.value.imports).Ok? ==>
      mocked == Mock(map[], rt.parsed.value.imports).value
  {
    mocked := map[];
    if !rt.engineOk {
      return Err(EngineFailed), mocked;
    }
    var linker := new Linker();
    if rt.parsed.None? {
      return Err(ParseFailed), linker.defs;
    }
    var wasm := rt.parsed.value;
    var refused := MockImports(linker, wasm.imports);
    mocked := linker.defs;
    if refused.Some? {
      return Err(MockFailed(refused.value.0, refused.value.1)), mocked;
    }
    if !Links(linker.defs, wasm.imports) || wasm.startup.None? {
      return Err(InstantiateFailed), mocked;
    }
    var canister := wasm.startup.value;
    var memory := GetMemory(canister, MEMORY_EXPORT);
    if memory.None? {
      return Err(MemoryMissing), mocked;
    }
    var width := WidthOf(memory.value);
    var accessor := TypedAccessor(canister, width);
    if accessor.None? {
      return Err(AccessorUnavailable(width)), mocked;
    }
    if accessor.value.Traps? {
      return Err(AccessorTrapped), mocked;
    }
    var i := Offset(width, accessor.value.value);
    var bytes;
    ghost var probed;
    bytes, probed := ReadString(memory.value.data, i);
    if bytes.None? {
      return Err(ScanOutOfBounds), mocked;
    }
    var text := Decode(bytes.value);
    if text.None? {
      return Err(InvalidUtf8), mocked;
    }
    return Ok(text.value), mocked;
  }

  /**
   * Instantiation succeeds exactly when every import is a function import,
   * no two share a name, and the runtime's own instantiation succeeds; a
   * table, memory or global import always stops the pipeline.
   */
  lemma InstantiateSucceedsIff(rt: Runtime)
    requires rt.engineOk && rt.parsed.Some?
    ensures Instantiate(rt).Ok? <==> Mockable(rt.parsed.value.imports) && rt.parsed.value.startup.Some?
    ensures Instantiate(rt).Ok? ==> Instantiate(rt).value == rt.parsed.value.startup.value
    ensures Mockable(rt.parsed.value.imports) && rt.parsed.value.startup.None? ==>
      Instantiate(rt) == Err(InstantiateFailed)
  {
    var imports := rt.parsed.value.imports;
    MockSucceedsIff(map[], imports);
    if Mock(map[], imports).Ok? {
      MockedImportsLink(imports);
    }
  }

  /**
   * Mocked function imports never stand in the way: a module whose imports
   * are all function imports extracts exactly as it would with no imports.
   */
  lemma ImportsAreTransparent(rt: Runtime)
    requires rt.parsed.Some? && Mockable(rt.parsed.value.imports)
    ensures Run(rt) == Run(rt.(parsed := Some(rt.parsed.value.(imports := []))))
  {
    if rt.engineOk {
      InstantiateSucceedsIff(rt);
      InstantiateSucceedsIff(rt.(parsed := Some(rt.parsed.value.(imports := []))));
    }
  }

  /** A module with a table, memory or global import never reaches the memory lookup. */
  lemma OtherImportKindsFail(rt: Runtime, i: nat)
    requires rt.engineOk && rt.parsed.Some?
    requires i < |rt.parsed.value.imports| && !rt.parsed.value.imports[i].ty.Func?
    ensures Run(rt).Err? && (Run(rt).error.MockFailed? || Run(rt).error == InstantiateFailed)
  {
    InstantiateSucceedsIff(rt);
  }

  /**
   * On a live instance, extraction succeeds exactly when the scan finds a
   * terminator and the bytes before it are UTF-8, and then the text's
   * bytes are exactly the scanned bytes.
   */
  lemma ScrapeSucceedsIff(inst: Instance, mem: LinearMemory, p: nat)
    requires GetMemory(inst, MEMORY_EXPORT) == Some(mem)
    requires Pointer(inst, WidthOf(mem)) == Ok(p)
    ensures Scrape(inst).Ok? <==> StringAt(mem.data, p).Some? && WellFormed(StringAt(mem.data, p).value)
    ensures Scrape(inst).Ok? ==> Encode(Scrape(inst).value) == StringAt(mem.data, p).value
    ensures Scrape(inst).Err? ==> Scrape(inst).error == (if StringAt(mem.data, p).None? then ScanOutOfBounds else InvalidUtf8)
  {
    if StringAt(mem.data, p).Some? {
      var bytes := StringAt(mem.data, p).value;
      DecodeSucceedsIffWellFormed(bytes);
      if Decode(bytes).Some? {
        EncodeDecode(bytes);
      }
    }
  }

  /**
   * Round trip: text without NUL characters, placed UTF-8 encoded at
   * address p and followed by a zero byte, is extracted unchanged when the
   * accessor of the memory's width returns p.
   */
  lemma ScrapePlacedText(inst: Instance, mem: LinearMemory, p: nat, t: string)
    requires GetMemory(inst, MEMORY_EXPORT) == Some(mem)
    requires p < Bound(WidthOf(mem))
    requires TypedAccessor(inst, WidthOf(mem)) == Some(Returns(Signed(WidthOf(mem), p)))
    requires '\0' !in t
    requires p + |Encode(t)| < |mem.data|
    requires mem.data[p..p + |Encode(t)|] == Encode(t) && mem.data[p + |Encode(t)|] == 0
    ensures Scrape(inst) == Ok(t)
  {
    OffsetOfSigned(WidthOf(mem), p);
    ZeroByteIffNul(t);
    StringAtPlaced(mem.data, p, Encode(t));
    DecodeEncode(t);
  }

  /**
   * The same round trip with the source's own cast: it holds for every
   * 64-bit address, and for a 32-bit memory only below 2 GiB, where the
   * sign-extending cast and the unsigned reading agree.
   */
  lemma ScrapePlacedTextAsWritten(mem: LinearMemory, p: nat, t: string)
    requires p < Bound(WidthOf(mem)) && (WidthOf(mem) == W64 || p < TWO_32 / 2)
    requires '\0' !in t
    requires p + |Encode(t)| < |mem.data|
    requires mem.data[p..p + |Encode(t)|] == Encode(t) && mem.data[p + |Encode(t)|] == 0
    ensures StringAt(mem.data, OffsetAsWritten(WidthOf(mem), Signed(WidthOf(mem), p))) == Some(Encode(t))
    ensures Decode(Encode(t)) == Some(t)
  {
    OffsetAsWrittenOfSigned(WidthOf(mem), p);
    ZeroByteIffNul(t);
    StringAtPlaced(mem.data, p, Encode(t));
    DecodeEncode(t);
  }

  /** The round trip for a whole run whose imports can all be mocked. */
  lemma ExtractsPlacedText(rt: Runtime, inst: Instance, mem: LinearMemory, p: nat, t: string)
    requires rt.engineOk && rt.parsed.Some? && Mockable(rt.parsed.value.imports)
    requires rt.parsed.value.startup == Some(inst)
    requires GetMemory(inst, MEMORY_EXPORT) == Some(mem)
    requires p < Bound(WidthOf(mem))
    requires TypedAccessor(inst, WidthOf(mem)) == Some(Returns(Signed(WidthOf(mem), p)))
    requires '\0' !in t
    requires p + |Encode(t)| < |mem.data|
    requires mem.data[p..p + |Encode(t)|] == Encode(t) && mem.data[p + |Encode(t)|] == 0
    ensures Run(rt) == Ok(t)
  {
    InstantiateSucceedsIff(rt);
    ScrapePlacedText(inst, mem, p, t);
  }

  /**
   * A missing memory export fails before the accessor is looked up: the
   * outcome is the same whatever the instance exports under the accessor's name.
   */
  lemma MissingMemoryFailsFirst(inst: Instance, accessor: Extern)
    requires GetMemory(inst, MEMORY_EXPORT).None?
    ensures Scrape(inst) == Err(MemoryMissing)
    ensures Scrape(Instance(inst.exports[ACCESSOR_EXPORT := accessor])) == Err(MemoryMissing)
  {
    GetMemoryOfUpdate(inst, ACCESSOR_EXPORT, accessor, MEMORY_EXPORT);
  }

  /**
   * The memory's width picks the accessor's signature, and an accessor of
   * the other width's signature is an error: the other width is never tried.
   */
  lemma WrongWidthFails(inst: Instance, mem: LinearMemory, call: Invocation)
    requires GetMemory(inst, MEMORY_EXPORT) == Some(mem)
    requires ACCESSOR_EXPORT in inst.exports
    requires inst.exports[ACCESSOR_EXPORT] == FuncExport(AccessorType(Other(WidthOf(mem))), call)
    ensures Scrape(inst) == Err(AccessorUnavailable(WidthOf(mem)))
  {
    WrongWidthIsUnavailable(inst, WidthOf(mem), call);
  }

  /**
   * Bytes after the terminator never affect the result: replacing the
   * memory's contents by any buffer that agrees through the terminator
   * leaves the outcome unchanged.
   */
  lemma TrailingBytesIgnored(inst: Instance, mem: LinearMemory, p: nat, other: seq<byte>)
    requires GetMemory(inst, MEMORY_EXPORT) == Some(mem)
    requires Pointer(inst, WidthOf(mem)) == Ok(p)
    requires StringAt(mem.data, p).Some?
    requires p + |StringAt(mem.data, p).value| < |other|
    requires other[p..p + |StringAt(mem.data, p).value| + 1] == mem.data[p..p + |StringAt(mem.data, p).value| + 1]
    ensures Scrape(Instance(inst.exports[MEMORY_EXPORT := MemoryExport(mem.(data := other))])) == Scrape(inst)
  {
    var inst' := Instance(inst.exports[MEMORY_EXPORT := MemoryExport(mem.(data := other))]);
    GetMemoryOfUpdate(inst, MEMORY_EXPORT, MemoryExport(mem.(data := other)), MEMORY_EXPORT);
    TypedAccessorOfUpdate(inst, WidthOf(mem), MEMORY_EXPORT, MemoryExport(mem.(data := other)));
    assert Pointer(inst', WidthOf(mem)) == Ok(p);
    StringAtIgnoresTail(mem.data, other, p);
  }

  /** A canister as the tests build it: one memory of width w holding data, and an accessor returning address p. */
  function Canister(imports: seq<Import>, w: Width, data: seq<byte>, p: nat): Runtime
    requires p < Bound(w)
  {
    var exports := map[
      MEMORY_EXPORT := MemoryExport(LinearMemory(w == W64, data)),
      ACCESSOR_EXPORT := FuncExport(AccessorType(w), Returns(Signed(w, p)))];
    Runtime(true, Some(Module(imports, Some(Instance(exports)))))
  }

  /** The round trip for a canister built as the tests build it. */
  lemma CanisterRoundTrip(imports: seq<Import>, w: Width, data: seq<byte>, p: nat, t: string)
    requires Mockable(imports) && p < Bound(w) && '\0' !in t
    requires p + |Encode(t)| < |data|
    requires data[p..p + |Encode(t)|] == Encode(t) && data[p + |Encode(t)|] == 0
    ensures Run(Canister(imports, w, data, p)) == Ok(t)
  {
    var rt := Canister(imports, w, data, p);
    var inst := rt.parsed.value.startup.value;
    assert MEMORY_EXPORT != ACCESSOR_EXPORT;
    ExtractsPlacedText(rt, inst, LinearMemory(w == W64, data), p, t);
  }

  /**
   * A 64-bit memory is handled as a 32-bit one: for the same data and the
   * same address, both widths give the same outcome.
   */
  lemma WidthsAgree(imports: seq<Import>, data: seq<byte>, p: nat)
    requires p < TWO_32
    ensures Run(Canister(imports, W32, data, p)) == Run(Canister(imports, W64, data, p))
  {
    var r32 := Canister(imports, W32, data, p);
    var r64 := Canister(imports, W64, data, p);
    assert MEMORY_EXPORT != ACCESSOR_EXPORT;
    OffsetOfSigned(W32, p);
    OffsetOfSigned(W64, p);
    if r32.engineOk && Instantiate(r32).Ok? {
      assert Pointer(Instantiate(r32).value, W32) == Ok(p);
    }
    if r64.engineOk && Instantiate(r64).Ok? {
      assert Pointer(Instantiate(r64).value, W64) == Ok(p);
    }
  }

  /**
   * With the source's sign-extending cast, an i32 pointer of 2 GiB or more
   * (a negative i32) sends the scan past the end of any 32-bit memory
   * (at most 4 GiB): no byte at or after that offset exists.
   */
  lemma SignExtendedScanFails(data: seq<byte>, v: int)
    requires |data| <= TWO_32 && -TWO_32 / 2 <= v < 0
    ensures StringAt(data, OffsetAsWritten(W32, v)) == None
    ensures StringAt(data, Offset(W32, v)) == StringAt(data, v + TWO_32)
  {
    CastsDisagreeOnHighAddresses(v);
  }
}
