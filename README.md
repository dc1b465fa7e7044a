# candid-extractor: the extraction core, modelled in Dafny

The extractor recovers the Candid service description that a canister
embeds in its WebAssembly linear memory. It never runs the canister's
real logic. Instead it:

1. configures a Wasmtime engine with 64-bit memories enabled;
2. parses the module;
3. defines an inert stand-in for every imported function, under the
   import's own two-level name and with its own signature;
4. instantiates the module;
5. finds the memory exported as `memory`;
6. calls `get_candid_pointer`, typed `() -> i64` for a 64-bit memory and
   `() -> i32` for a 32-bit one;
7. copies bytes from the returned offset up to the first zero byte;
8. decodes those bytes as UTF-8.

Each stage either fails or hands its result to the next.

The model has one module per concern:

- `Wasm` (wasm.dfy): what the runtime hands back. It covers value types
  and signatures, import descriptors, exports, the instance and linear
  memory, and the `Runtime` record of the runtime's answers for one
  extraction.
- `Failures` (failures.dfy): one tag per failing stage.
- `Utf8` (utf8.dfy): the byte-sequence grammar of section 4 of RFC 3629
  (`CharWidth`, `WellFormed`), a decoder that works from bit patterns
  (`DecodeChar`, `Decode`, the model of `String::from_utf8`), and its
  inverse encoder.
- `CString` (cstring.dfy): the zero-terminated scan. `ReadString` is the
  loop, proved against the specification `StringAt`.
- `Linking` (linking.dfy): the linker as a class whose `defs` map is
  filled by `FuncNew`, the import-mocking loop `MockImports`, and its
  specification `Mock`.
- `Dispatch` (dispatch.dfy): the choice between the `() -> i64` and
  `() -> i32` accessor, and the cast of its result to an offset.
- `Extraction` (extraction.dfy): the staged pipeline. `Run` is the
  specification, `Extract` the step-by-step method, and the lemmas relate
  them to what the extractor promises.
- `ExtractionExamples` (examples.dfy): the canisters of the unit tests
  and the negative cases.

Everything Wasmtime decides is an input, not behaviour:

- whether the engine could be built (`Runtime.engineOk`);
- whether the bytes parsed, and into which imports (`Runtime.parsed`);
- what instantiation yields once every import is linked (`Module.startup`;
  `None` when the start function traps);
- what calling the accessor does (`Invocation`: a trap or an integer).

Two rules of the library are modelled because the extractor depends on
them:

- A fresh Wasmtime `Linker` refuses to define the same two-level name
  twice (`Linker.FuncNew`).
- Instantiation needs every import defined under its name with its own
  signature (`Links`).

The host is taken to have a 64-bit `usize`.

The failure tags are only as fine as the code's errors:

- A wrong-width accessor and a missing accessor give the same failure,
  `AccessorUnavailable(width)`, because the code has one error per width.
- A table, memory or global import fails at instantiation, because the
  code has no earlier check for those import kinds.
- A missing terminator or an out-of-range offset makes the source's
  `memory_buffer[i]` index out of bounds, which panics rather than
  returning `Err`. The model reports it as the `ScanOutOfBounds` tag;
  that tag stands for the panic.

## Model

| member | source | states |
|---|---|---|
| Wasm.GetMemoryOfUpdate | src/extract.rs:39-41 | the memory lookup depends on the named export alone: storing another export never changes it, and storing a memory under the name makes the lookup yield that memory |
| Utf8.DecodeChar | src/extract.rs:71 | the bit-pattern decoder accepts exactly the UTF8-chars of the RFC 3629 section 4 grammar and consumes exactly one of them |
| Utf8.Decode | src/extract.rs:71 | String::from_utf8: a decoded text has between a quarter of the byte count and the byte count in scalar values |
| Utf8.DecodeCharOfEncodeChar | src/extract.rs:71 | decoding the bytes of one scalar value gives it back and consumes exactly its bytes, whatever follows |
| Utf8.EncodeCharOfDecodeChar | src/extract.rs:71 | a decoded scalar value re-encodes to exactly the bytes it was read from |
| Utf8.DecodeSucceedsIffWellFormed | src/extract.rs:71 | String::from_utf8 succeeds exactly on well-formed UTF-8 (RFC 3629 section 4) |
| Utf8.EncodeDecode | src/extract.rs:71 | the bytes of a decoded string are exactly the bytes that were decoded |
| Utf8.DecodeEncode | src/extract.rs:71 | every text decodes back from its own UTF-8 bytes |
| Utf8.EncodeLength | src/extract.rs:71 | a text takes between one and four bytes per scalar value |
| Utf8.ZeroByteIffNul | src/extract.rs:67-71 | the UTF-8 bytes of a text contain a zero byte exactly when the text contains NUL |
| CString.FirstZero | src/extract.rs:67-69 | finds a zero byte at or after the start with no zero before it, or reports that the buffer holds none from there on |
| CString.FirstZeroAt | src/extract.rs:67-69 | the first zero byte at or after the start is unique |
| CString.StringAt | src/extract.rs:65-70 | the scanned string is the buffer's bytes from the offset up to the first zero byte, excluding it, with no zero inside; absent exactly when no zero byte follows the offset in the buffer |
| CString.ReadString | src/extract.rs:65-70 | the loop collects exactly StringAt's bytes; it reads exactly the indices from the offset through the terminator, or through the buffer's last byte when no terminator follows |
| CString.StringAtPlaced | src/extract.rs:65-70 | a zero-free byte string placed at an offset and followed by a zero byte is read back exactly |
| CString.StringAtIgnoresTail | src/extract.rs:67-70 | bytes after the terminator never change the scanned string |
| Linking.Linker.constructor | src/extract.rs:18 | a new linker defines nothing |
| Linking.Linker.FuncNew | src/extract.rs:23-24 | defines the stand-in under the import's name with the import's signature, and refuses a name already defined while leaving the linker unchanged |
| Linking.Mock | src/extract.rs:21-33 | the fold the import loop follows; a refused name is always the name of one of the function imports |
| Linking.MockImports | src/extract.rs:21-33 | the import loop leaves the linker holding exactly Mock's definitions, or reports the first refused import |
| Linking.MockRefusalIsFinal | src/extract.rs:23-31 | once a definition is refused, the later imports change nothing (the `?` returns at once) |
| Linking.MockDefinesFunctionImports | src/extract.rs:21-33 | mocking defines exactly the function imports, each under its own name with its own signature, and keeps earlier definitions |
| Linking.MockSucceedsIff | src/extract.rs:21-33 | mocking succeeds exactly when no two function imports share a name and none is already defined |
| Linking.MockIgnoresOtherKinds | src/extract.rs:22 | table, memory and global imports add nothing: mocking depends only on the function imports |
| Linking.FunctionImportsOfFunctions | src/extract.rs:22 | skipping the non-function imports leaves the import list unchanged exactly when all imports are function imports |
| Linking.Links | src/extract.rs:35-37 | the linking rule instantiation applies; a module that links has only function imports, each of whose names the linker defines |
| Linking.MockedImportsLink | src/extract.rs:35-37 | the stand-ins satisfy the linking check exactly when every import is a function import |
| Dispatch.TypedAccessorOfUpdate | src/extract.rs:44-58 | the accessor lookup depends on the `get_candid_pointer` export alone, and a function stored there is found exactly when its signature is `() -> i64` for a 64-bit memory or `() -> i32` for a 32-bit one |
| Dispatch.Offset | src/extract.rs:62 | the offset is below 2^32 for a 32-bit memory and below 2^64 for a 64-bit one (corrected cast) |
| Dispatch.OffsetAsWritten | src/extract.rs:52 | `as usize` on a 64-bit host: non-negative values are kept, negative ones wrap to value + 2^64 |
| Dispatch.OffsetOfSigned | src/extract.rs:49-52 | an accessor returning address p, as a signed integer of the memory's width, leads the scan to offset p |
| Dispatch.OffsetAsWrittenOfSigned | src/extract.rs:52-62 | the source's cast leads an accessor returning address p to offset p for every 64-bit address and for 32-bit addresses below 2 GiB, agreeing there with the corrected cast |
| Dispatch.Pointer | src/extract.rs:43-63 | the pointer stage fails as unavailable exactly when no accessor of the width's signature exists, as trapped when the call traps, and otherwise yields the cast result |
| Dispatch.WrongWidthIsUnavailable | src/extract.rs:43-63 | an accessor typed for the other width is an error and is never called |
| Dispatch.CastsAgreeOn64 | src/extract.rs:52 | for i64 results the source's cast and the corrected one agree |
| Dispatch.CastsDisagreeOnHighAddresses | src/extract.rs:62 | for i32 results they agree exactly on non-negative values; a negative one is sign-extended to at least 2^64 - 2^31 |
| Extraction.Instantiate | src/extract.rs:15-37 | the stages before the memory lookup can fail only as engine, parse, mock or instantiation failures |
| Extraction.Scrape | src/extract.rs:39-72 | the stages after instantiation can fail only as missing memory, unavailable or trapping accessor, out-of-bounds scan or invalid UTF-8 |
| Extraction.Run | src/extract.rs:14-73 | the whole extraction; a text comes back only from a module whose imports are all distinct function imports and whose instantiation succeeded, and it never contains NUL |
| Extraction.Extract | src/extract.rs:14-73 | the step-by-step extraction returns exactly Run's outcome; when the engine fails nothing is mocked, when the parse fails the new linker holds nothing, and once every import is mocked it holds Mock's definitions whatever fails later |
| Extraction.InstantiateSucceedsIff | src/extract.rs:19-37 | instantiation succeeds exactly when every import is a function import, no two share a name and the runtime's instantiation succeeds |
| Extraction.ImportsAreTransparent | src/extract.rs:21-37 | a module whose imports can all be mocked extracts exactly as it would with no imports |
| Extraction.OtherImportKindsFail | src/extract.rs:21-37 | a module with a table, memory or global import fails at mocking or instantiation, before any export is looked up |
| Extraction.ScrapeSucceedsIff | src/extract.rs:65-72 | on a live instance, extraction succeeds exactly when a terminator follows the offset and the bytes before it are UTF-8; the text's bytes are then the scanned bytes, and otherwise the failure says which of the two went wrong |
| Extraction.ScrapePlacedText | src/extract.rs:43-72 | text without NUL, placed at address p and zero-terminated, is extracted unchanged when the accessor returns p |
| Extraction.ScrapePlacedTextAsWritten | src/extract.rs:52-71 | with the source's own cast, text placed at p is scanned and decoded unchanged for any 64-bit address and for 32-bit addresses below 2 GiB |
| Extraction.ExtractsPlacedText | src/extract.rs:14-73 | the same round trip for a whole run whose imports can all be mocked |
| Extraction.MissingMemoryFailsFirst | src/extract.rs:39-48 | a missing memory export fails before the accessor is looked up, whatever is exported under the accessor's name |
| Extraction.WrongWidthFails | src/extract.rs:43-63 | with an accessor of the other width's signature, extraction fails as unavailable for the memory's own width |
| Extraction.TrailingBytesIgnored | src/extract.rs:65-70 | replacing the memory by any buffer that agrees through the terminator leaves the outcome unchanged |
| Extraction.CanisterRoundTrip | src/extract.rs:79-135 | a canister built like the tests' yields the text written at the accessor's address |
| Extraction.WidthsAgree | src/extract.rs:156-173 | the same data and address give the same outcome with a 64-bit memory as with a 32-bit one |
| Extraction.SignExtendedScanFails | src/extract.rs:59-67 | with the source's cast, a negative i32 pointer makes the scan of any 32-bit memory run off the buffer |
| ExtractionExamples.LayoutRoundTrip | src/extract.rs:79-173 | a text written as a data segment at address `at` is what an accessor returning `at` yields |
| ExtractionExamples.Minimal | src/extract.rs:79-96 | "service : {}" at address 0 is extracted |
| ExtractionExamples.ImportedHostFunction | src/extract.rs:98-116 | an imported `ic0.time : () -> i32` does not prevent extraction |
| ExtractionExamples.NonZeroPointer | src/extract.rs:118-135 | "service : {}" at address 10 is extracted |
| ExtractionExamples.EndByZeroByte | src/extract.rs:137-154 | text after the terminator is not part of the result |
| ExtractionExamples.Memory64 | src/extract.rs:156-173 | a 64-bit memory with an i64 accessor extracts the same text |
| ExtractionExamples.NoMemoryExport | src/extract.rs:39-41 | without a `memory` export the run fails at that stage |
| ExtractionExamples.NoAccessorExport | src/extract.rs:54-58 | without `get_candid_pointer` the run fails as unavailable for the 32-bit accessor |
| ExtractionExamples.PointerAtMemorySize | src/extract.rs:65-67 | an accessor returning the memory's size makes the scan fail out of bounds |
| ExtractionExamples.InvalidText | src/extract.rs:71 | a 0xFF byte before the terminator fails as invalid UTF-8 |
| ExtractionExamples.HighAddressAsWritten | src/extract.rs:59-67 | a description at address 0x8000_0000 is extracted with the corrected cast, while the source's offset 2^64 - 2^31 lies past the buffer |

## Left out

- `extract_from_file` (src/extract.rs:5-12) reads a file and is not part
  of this model.
- Wasmtime's own work is left out: building the engine and store,
  parsing and validating the binary, running the start function, looking
  up exports and running `get_candid_pointer`. Each outcome is an input
  (`Runtime`, `Module.startup`, `Invocation`).
- The bodies of the stand-in closures (`|_, _, _| Ok(())`) are left out.
  What Wasmtime writes into a stand-in's results is library behaviour,
  and no stand-in runs during extraction in the model.
- The `anyhow` context messages are left out. Failures are stage tags;
  only the refused import's name and the accessor's width are kept.
- The WebAssembly text of the unit tests is left out. Each test's
  canister is written directly as a `Runtime` value. Memory is the data
  segment's layout plus a zero byte, not a full 64 KiB page.
- Linear memory is an immutable byte sequence, not a buffer owned by the
  store. The source takes the memory's handle (src/extract.rs:39-41)
  before calling the accessor (:49-51, :59-61), which runs the canister's
  code and may store to the memory or grow it; it reads the bytes only
  afterwards (:65). The model does not represent that write. It takes
  `LinearMemory.data` to be the contents as they stand after the accessor
  returns, so the order of the call and the read is not modelled.
- The model does not track the lifetimes of the store and instance, or
  their release on every exit. No state survives one call in the source,
  so nothing is lost.
- CString.ReadString: where the source's indexing panics, the model
  returns None, and the pipeline reports that as `ScanOutOfBounds`. The
  model does not represent the panic itself.
- Dispatch.Pointer: for a 32-bit memory it uses the corrected unsigned
  cast (see Findings), not the source's sign-extending one.
- Extraction.Scrape and Extraction.Run: they take the pointer from
  Dispatch.Pointer, so they describe the corrected program. For a 32-bit
  memory, the source as written matches them only for addresses below
  2 GiB (Dispatch.OffsetAsWrittenOfSigned). ScrapePlacedText,
  ExtractsPlacedText, CanisterRoundTrip, WidthsAgree and
  ExtractionExamples.LayoutRoundTrip hold as written only in that range.
  Extraction.ScrapePlacedTextAsWritten states the as-written round trip
  there.
- Extraction.Extract: it casts with Dispatch.Offset, the corrected cast,
  so the same restriction to addresses below 2 GiB applies to it.

## Findings

| source | as written | input that shows it | evidently intended | confidence | as-written member | corrected member |
|---|---|---|---|---|---|---|
| src/extract.rs:62 | `candid_pointer as usize` sign-extends the i32 result | a 32-bit memory larger than 2 GiB with the description at address 0x8000_0000, whose accessor returns the i32 -2147483648: the offset becomes 0xFFFF_FFFF_8000_0000, beyond any 32-bit memory, so `memory_buffer[i]` panics (ExtractionExamples.HighAddressAsWritten) | read the i32 as an unsigned 32-bit address, e.g. `candid_pointer as u32 as usize`, so the scan starts at 0x8000_0000 | medium; not executed | Dispatch.OffsetAsWritten | Dispatch.Offset |
