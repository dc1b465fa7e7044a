/**
 * The canisters of the unit tests in src/extract.rs, and the negative
 * cases the extractor's error stages stand for, as lemmas about Run.
 */
module ExtractionExamples {
  import opened Wrappers
  import opened Wasm
  import opened Failures
  import opened Utf8
  import opened CString
  import opened Dispatch
  import opened Extraction

  const SERVICE: string := "service : {}"

  /** A memory holding a data segment at address `at`, zero everywhere else. */
  function Layout(at: nat, segment: seq<byte>): seq<byte> {
    seq(at, _ => 0) + segment + [0]
  }

  lemma SegmentAt(at: nat, segment: seq<byte>)
    ensures |Layout(at, segment)| == at + |segment| + 1
    ensures Layout(at, segment)[at..at + |segment|] == segment
  {
  }

  lemma ServiceHasNoNul()
    ensures '\0' !in SERVICE
  {
  }

  /**
   * A text written as a data segment at address `at` of otherwise zeroed
   * memory is what a canister whose accessor returns `at` yields.
   */
  lemma LayoutRoundTrip(imports: seq<Import>, w: Width, at: nat, t: string)
    requires Mockable(imports) && at < TWO_32 && '\0' !in t
    ensures Run(Canister(imports, w, Layout(at, Encode(t)), at)) == Ok(t)
  {
    var data := Layout(at, Encode(t));
    SegmentAt(at, Encode(t));
    CanisterRoundTrip(imports, w, data, at, t);
  }

  /** Test `minimal`: the description at address 0 of a 32-bit memory. */
  lemma Minimal()
    ensures Run(Canister([], W32, Layout(0, Encode(SERVICE)), 0)) == Ok(SERVICE)
  {
    ServiceHasNoNul();
    LayoutRoundTrip([], W32, 0, SERVICE);
  }

  /** Test `import`: an imported `ic0.time : () -> i32` is mocked and does not get in the way. */
  lemma ImportedHostFunction()
    ensures Run(Canister([Import("ic0", "time", Func(FuncType([], [I32])))], W32, Layout(0, Encode(SERVICE)), 0))
         == Ok(SERVICE)
  {
    ServiceHasNoNul();
    LayoutRoundTrip([Import("ic0", "time", Func(FuncType([], [I32])))], W32, 0, SERVICE);
  }

  /** Test `non_zero_pointer`: the description at address 10. */
  lemma NonZeroPointer()
    ensures Run(Canister([], W32, Layout(10, Encode(SERVICE)), 10)) == Ok(SERVICE)
  {
    ServiceHasNoNul();
    LayoutRoundTrip([], W32, 10, SERVICE);
  }

  /** The same, when more bytes follow the terminator in the same data segment. */
  lemma TrailedLayoutRoundTrip(imports: seq<Import>, w: Width, at: nat, t: string, trailer: seq<byte>)
    requires Mockable(imports) && at < TWO_32 && '\0' !in t
    ensures Run(Canister(imports, w, Layout(at, Encode(t) + [0] + trailer), at)) == Ok(t)
  {
    var e := Encode(t);
    var segment := e + [0] + trailer;
    var data := Layout(at, segment);
    SegmentAt(at, segment);
    assert data[at..at + |e|] == data[at..at + |segment|][..|e|] == segment[..|e|] == e;
    assert data[at + |e|] == data[at..at + |segment|][|e|] == segment[|e|] == 0;
    CanisterRoundTrip(imports, w, data, at, t);
  }

  /**
   * Test `end_by_0_byte`: whatever text follows the terminator in the same
   * data segment is not part of the result.
   */
  lemma EndByZeroByte(extra: seq<byte>)
    ensures Run(Canister([], W32, Layout(0, Encode(SERVICE) + [0] + extra), 0)) == Ok(SERVICE)
  {
    ServiceHasNoNul();
    TrailedLayoutRoundTrip([], W32, 0, SERVICE, extra);
  }

  /** Test `memory64`: a 64-bit memory with an accessor returning i64. */
  lemma Memory64()
    ensures Run(Canister([], W64, Layout(0, Encode(SERVICE)), 0)) == Ok(SERVICE)
  {
    ServiceHasNoNul();
    LayoutRoundTrip([], W64, 0, SERVICE);
  }

  /** No export named "memory": the failure names that stage. */
  lemma NoMemoryExport()
    ensures Run(Runtime(true, Some(Module([], Some(Instance(
      map[ACCESSOR_EXPORT := FuncExport(AccessorType(W32), Returns(0))])))))) == Err(MemoryMissing)
  {
    assert MEMORY_EXPORT != ACCESSOR_EXPORT;
  }

  /** No export named "get_candid_pointer": the failure names the width looked for. */
  lemma NoAccessorExport(data: seq<byte>)
    ensures Run(Runtime(true, Some(Module([], Some(Instance(
      map[MEMORY_EXPORT := MemoryExport(LinearMemory(false, data))])))))) == Err(AccessorUnavailable(W32))
  {
    assert MEMORY_EXPORT != ACCESSOR_EXPORT;
  }

  /** An accessor returning the memory's size points past the buffer. */
  lemma PointerAtMemorySize(data: seq<byte>)
    requires |data| < TWO_32
    ensures Run(Canister([], W32, data, |data|)) == Err(ScanOutOfBounds)
  {
    assert MEMORY_EXPORT != ACCESSOR_EXPORT;
    OffsetOfSigned(W32, |data|);
  }

  /** A lone 0xFF byte before the terminator is not UTF-8. */
  lemma InvalidText()
    ensures Run(Canister([], W32, [0xFF, 0], 0)) == Err(InvalidUtf8)
  {
    assert MEMORY_EXPORT != ACCESSOR_EXPORT;
    OffsetOfSigned(W32, 0);
    StringAtPlaced([0xFF, 0], 0, [0xFF]);
  }

  /**
   * The source's i32 cast on a memory just over 2 GiB: the description at
   * address 0x8000_0000 is extracted with the unsigned reading of the
   * pointer, while the sign-extended offset lies past the end of any 32-bit
   * memory, where the source's scan indexes out of bounds.
   */
  lemma HighAddressAsWritten()
    ensures Run(Canister([], W32, Layout(0x8000_0000, Encode(SERVICE)), 0x8000_0000)) == Ok(SERVICE)
    ensures Signed(W32, 0x8000_0000) == -0x8000_0000
    ensures OffsetAsWritten(W32, Signed(W32, 0x8000_0000)) == TWO_64 - 0x8000_0000
    ensures StringAt(Layout(0x8000_0000, Encode(SERVICE)), OffsetAsWritten(W32, Signed(W32, 0x8000_0000))) == None
  {
    ServiceHasNoNul();
    LayoutRoundTrip([], W32, 0x8000_0000, SERVICE);
    EncodeLength(SERVICE);
    SignExtendedScanFails(Layout(0x8000_0000, Encode(SERVICE)), -0x8000_0000);
  }
}
