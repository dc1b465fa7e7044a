/**
 * The parts of a WebAssembly module and of its live instance that the
 * extractor inspects. Everything the Wasmtime runtime computes (parsing,
 * instantiation, running the start function, running an export) reaches
 * the model as one of these values: an abstract input, not behaviour.
 */
module Wasm {
  import opened Wrappers

  newtype byte = x: int | 0 <= x < 0x100

  /** Value types of the WebAssembly core specification. */
  datatype ValType = I32 | I64 | F32 | F64 | V128 | FuncRef | ExternRef

  /** A function signature: parameter kinds and result kinds, in order. */
  datatype FuncType = FuncType(params: seq<ValType>, results: seq<ValType>)

  /** The kind of a declared import; only a function import carries a signature here. */
  datatype ExternType = Func(sig: FuncType) | Table | Mem | Global

  /** One entry of the module's import section. */
  datatype Import = Import(namespace: string, name: string, ty: ExternType)

  /** The two-level name under which a linker defines an item. */
  type ImportKey = (string, string)

  function Key(imp: Import): ImportKey {
    (imp.namespace, imp.name)
  }

  /** What happens when an exported function is called: a trap, or the integer it returns. */
  datatype Invocation = Traps | Returns(value: int)

  /**
   * An exported linear memory: its index type and its contents as they
   * stand once the accessor has returned. The extractor takes the memory's
   * handle before calling the accessor but reads the bytes only after the
   * call, which may have stored to the memory or grown it; `data` is that
   * later view.
   */
  datatype LinearMemory = LinearMemory(is64: bool, data: seq<byte>)

  /** An export of a live instance. Tables and globals are not inspected. */
  datatype Extern =
    | FuncExport(sig: FuncType, call: Invocation)
    | MemoryExport(memory: LinearMemory)
    | OtherExport

  datatype Instance = Instance(exports: map<string, Extern>)

  /**
   * A module the runtime parsed: its imports, and what instantiating it
   * yields once every import is linked (None when the start function
   * traps or instantiation fails for a reason the linker does not decide).
   */
  datatype Module = Module(imports: seq<Import>, startup: Option<Instance>)

  /**
   * The runtime's answers for one extraction: whether the engine could be
   * configured (with 64-bit memories enabled) and what parsing the bytes gave.
   */
  datatype Runtime = Runtime(engineOk: bool, parsed: Option<Module>)

  /** Address width of a linear memory. */
  datatype Width = W32 | W64

  const MEMORY_EXPORT: string := "memory"
  const ACCESSOR_EXPORT: string := "get_candid_pointer"

  function WidthOf(m: LinearMemory): Width {
    if m.is64 then W64 else W32
  }

  /** Instance::get_memory: the export of that name, when it is a memory. */
  function GetMemory(inst: Instance, name: string): (r: Option<LinearMemory>)
    ensures r.Some? <==> name in inst.exports && inst.exports[name].MemoryExport?
    ensures r.Some? ==> inst.exports[name] == MemoryExport(r.value)
  {
    if name in inst.exports && inst.exports[name].MemoryExport?
    then Some(inst.exports[name].memory)
    else None
  }

  /**
   * The lookup reads the named export and nothing else: after an export is
   * stored under n, looking up n sees that export, and any other name sees
   * what it saw before.
   */
  lemma GetMemoryOfUpdate(inst: Instance, n: string, e: Extern, name: string)
    ensures GetMemory(Instance(inst.exports[n := e]), name) ==
      if n != name then GetMemory(inst, name)
      else if e.MemoryExport? then Some(e.memory) else None
  {
  }
}
