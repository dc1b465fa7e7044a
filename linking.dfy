/**
 * Satisfying a module's imports with inert stand-ins (src/extract.rs,
 * the `for import in module.imports()` loop) and the linking rule that
 * instantiation then applies.
 */
module Linking {
  import opened Wrappers
  import opened Wasm

  /** What a linker holds: one function definition per two-level name. */
  type Definitions = map<ImportKey, FuncType>

  /**
   * The Wasmtime linker the extractor fills. Like a freshly created
   * Wasmtime Linker (shadowing off), it refuses a second definition under
   * a name it already defines.
   */
  class Linker {
    var defs: Definitions

    constructor ()
      ensures defs == map[]
    {
      defs := map[];
    }

    /** Linker::func_new: define a host function of signature sig under (namespace, name). */
    method FuncNew(namespace: string, name: string, sig: FuncType) returns (ok: bool)
      modifies this
      ensures ok <==> (namespace, name) !in old(defs)
      ensures defs == if ok then old(defs)[(namespace, name) := sig] else old(defs)
    {
      ok := (namespace, name) !in defs;
      if ok {
        defs := defs[(namespace, name) := sig];
      }
    }
  }

  /**
   * One turn of the import loop: after a refusal nothing changes; a
   * function import is defined unless its name already is; any other
   * import is skipped.
   */
  function Define(r: Result<Definitions, ImportKey>, imp: Import): Result<Definitions, ImportKey> {
    match r
    case Err(k) => Err(k)
    case Ok(d) =>
      if !imp.ty.Func? then Ok(d)
      else if Key(imp) in d then Err(Key(imp))
      else Ok(d[Key(imp) := imp.ty.sig])
  }

  /**
   * The definitions after visiting the imports in order and defining a
   * stand-in for each function import, or the name of the first import
   * the linker refused.
   */
  function Mock(defs: Definitions, imports: seq<Import>): (r: Result<Definitions, ImportKey>)
    decreases |imports|
    ensures r.Err? ==> r.error in FuncKeys(imports)
  {
    if imports == [] then Ok(defs)
    else Define(Mock(defs, imports[..|imports| - 1]), imports[|imports| - 1])
  }

  lemma MockAppend(defs: Definitions, imports: seq<Import>, imp: Import)
    ensures Mock(defs, imports + [imp]) == Define(Mock(defs, imports), imp)
  {
    assert (imports + [imp])[..|imports|] == imports;
  }

  /** The names of the function imports. */
  function FuncKeys(imports: seq<Import>): set<ImportKey> {
    set i | 0 <= i < |imports| && imports[i].ty.Func? :: Key(imports[i])
  }

  /** No two function imports share a two-level name. */
  predicate DistinctFuncKeys(imports: seq<Import>) {
    forall i, j :: 0 <= i < j < |imports| && imports[i].ty.Func? && imports[j].ty.Func? ==>
      Key(imports[i]) != Key(imports[j])
  }

  /** The function imports alone, in their order. */
  function FunctionImports(imports: seq<Import>): (r: seq<Import>)
    ensures forall i :: 0 <= i < |r| ==> r[i].ty.Func?
  {
    if imports == [] then []
    else
      var last := imports[|imports| - 1];
      FunctionImports(imports[..|imports| - 1]) + (if last.ty.Func? then [last] else [])
  }

  /** Once an import is refused, the remaining imports change nothing. */
  lemma {:induction false} MockRefusalIsFinal(defs: Definitions, imports: seq<Import>, j: nat)
    requires j <= |imports| && Mock(defs, imports[..j]).Err?
    ensures Mock(defs, imports) == Mock(defs, imports[..j])
    decreases |imports| - j
  {
    if j < |imports| {
      assert imports[..j + 1][..j] == imports[..j];
      MockRefusalIsFinal(defs, imports, j + 1);
    } else {
      assert imports[..j] == imports;
    }
  }

  /** The import-mocking loop: one FuncNew per function import, stopping at the first refusal. */
  method MockImports(linker: Linker, imports: seq<Import>) returns (refused: Option<ImportKey>)
    modifies linker
    ensures refused.None? <==> Mock(old(linker.defs), imports).Ok?
    ensures refused.None? ==> linker.defs == Mock(old(linker.defs), imports).value
    ensures refused.Some? ==> Mock(old(linker.defs), imports) == Err(refused.value)
  {
    ghost var initial := linker.defs;
    var i := 0;
    while i < |imports|
      invariant 0 <= i <= |imports|
      invariant Mock(initial, imports[..i]) == Ok(linker.defs)
    {
      assert imports[..i + 1][..i] == imports[..i];
      var imp := imports[i];
      if imp.ty.Func? {
        var ok := linker.FuncNew(imp.namespace, imp.name, imp.ty.sig);
        if !ok {
          MockRefusalIsFinal(initial, imports, i + 1);
          return Some(Key(imp));
        }
      }
      i := i + 1;
    }
    assert imports[..i] == imports;
    refused := None;
  }

  /**
   * Mocking defines exactly the function imports: every name it adds is a
   * function import's own name, mapped to that import's own signature, and
   * what was defined before is left as it was.
   */
  lemma {:induction false} MockDefinesFunctionImports(defs: Definitions, imports: seq<Import>)
    requires Mock(defs, imports).Ok?
    ensures forall k :: k in Mock(defs, imports).value <==> k in defs || k in FuncKeys(imports)
    ensures forall i :: 0 <= i < |imports| && imports[i].ty.Func? ==>
      Key(imports[i]) in Mock(defs, imports).value &&
      Mock(defs, imports).value[Key(imports[i])] == imports[i].ty.sig
    ensures forall k :: k in defs ==> Mock(defs, imports).value[k] == defs[k]
    decreases |imports|
  {
    if imports != [] {
      var init := imports[..|imports| - 1];
      var last := imports[|imports| - 1];
      MockDefinesFunctionImports(defs, init);
      assert forall i :: 0 <= i < |init| ==> init[i] == imports[i];
      assert FuncKeys(imports) == FuncKeys(init) + (if last.ty.Func? then {Key(last)} else {});
    }
  }

  /**
   * Mocking succeeds exactly when no two function imports share a name and
   * none of them is already defined.
   */
  lemma {:induction false} MockSucceedsIff(defs: Definitions, imports: seq<Import>)
    ensures Mock(defs, imports).Ok? <==>
      DistinctFuncKeys(imports) && forall k :: k in FuncKeys(imports) ==> k !in defs
    decreases |imports|
  {
    if imports != [] {
      var init := imports[..|imports| - 1];
      var last := imports[|imports| - 1];
      MockSucceedsIff(defs, init);
      assert forall i :: 0 <= i < |init| ==> init[i] == imports[i];
      assert FuncKeys(imports) == FuncKeys(init) + (if last.ty.Func? then {Key(last)} else {});
      if Mock(defs, init).Ok? {
        MockDefinesFunctionImports(defs, init);
      }
      if last.ty.Func? && Key(last) in FuncKeys(init) {
        var i :| 0 <= i < |init| && init[i].ty.Func? && Key(init[i]) == Key(last);
        assert !DistinctFuncKeys(imports) by {
          assert Key(imports[i]) == Key(imports[|imports| - 1]);
        }
      }
    }
  }

  /** Table, memory and global imports add nothing: mocking sees only the function imports. */
  lemma {:induction false} MockIgnoresOtherKinds(defs: Definitions, imports: seq<Import>)
    ensures Mock(defs, imports) == Mock(defs, FunctionImports(imports))
    decreases |imports|
  {
    if imports != [] {
      var init := imports[..|imports| - 1];
      var last := imports[|imports| - 1];
      MockIgnoresOtherKinds(defs, init);
      var fs := FunctionImports(init);
      if last.ty.Func? {
        assert FunctionImports(imports) == fs + [last];
        MockAppend(defs, fs, last);
      } else {
        assert FunctionImports(imports) == fs;
      }
    }
  }

  /**
   * Keeping only the function imports changes nothing exactly when every
   * import is a function import.
   */
  lemma {:induction false} FunctionImportsOfFunctions(imports: seq<Import>)
    ensures FunctionImports(imports) == imports <==> forall i :: 0 <= i < |imports| ==> imports[i].ty.Func?
    decreases |imports|
  {
    if imports != [] && forall i :: 0 <= i < |imports| ==> imports[i].ty.Func? {
      var init := imports[..|imports| - 1];
      assert forall i :: 0 <= i < |init| ==> init[i] == imports[i];
      FunctionImportsOfFunctions(init);
      assert imports == init + [imports[|imports| - 1]];
    }
  }

  /**
   * Linker::instantiate: every import is a function import defined under
   * its name with its signature. A module that links has nothing but
   * function imports, and the linker defines each of their names.
   */
  predicate Links(defs: Definitions, imports: seq<Import>)
    ensures Links(defs, imports) ==> FunctionImports(imports) == imports
    ensures Links(defs, imports) ==> forall k :: k in FuncKeys(imports) ==> k in defs
  {
    FunctionImportsOfFunctions(imports);
    forall i :: 0 <= i < |imports| ==>
      imports[i].ty.Func? && Key(imports[i]) in defs && defs[Key(imports[i])] == imports[i].ty.sig
  }

  /**
   * The stand-ins satisfy every function import, and nothing else: a
   * module with a table, memory or global import cannot be linked.
   */
  lemma MockedImportsLink(imports: seq<Import>)
    requires Mock(map[], imports).Ok?
    ensures Links(Mock(map[], imports).value, imports) <==> forall i :: 0 <= i < |imports| ==> imports[i].ty.Func?
  {
    MockDefinesFunctionImports(map[], imports);
  }
}
