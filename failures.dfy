/** The stage-tagged reasons an extraction can fail; each stage has its own exit. */
module Failures {
  import opened Wasm

  datatype Failure =
    | EngineFailed                              // the engine could not be configured
    | ParseFailed                               // the bytes are not a valid module
    | MockFailed(namespace: string, name: string)  // a stand-in could not be defined
    | InstantiateFailed                         // linking or the start function failed
    | MemoryMissing                             // no memory export named "memory"
    | AccessorUnavailable(width: Width)         // no export "get_candid_pointer" of the width's type
    | AccessorTrapped                           // calling the accessor trapped
    | ScanOutOfBounds                           // no zero byte at or after the offset
    | InvalidUtf8                               // the scanned bytes are not UTF-8
}
