/**
 * Choosing the accessor by the memory's address width and turning its
 * result into a byte offset (src/extract.rs, the `memory.ty(&store).is_64()`
 * branch). The host is taken to have a 64-bit usize.
 */
module Dispatch {
  import opened Wrappers
  import opened Wasm
  import opened Failures

  const TWO_32: int := 0x1_0000_0000
  const TWO_64: int := 0x1_0000_0000_0000_0000

  /** The number of distinct addresses of a memory of width w. */
  function Bound(w: Width): int {
    if w == W64 then TWO_64 else TWO_32
  }

  function Other(w: Width): Width {
    if w == W64 then W32 else W64
  }

  /** The signature get_typed_func::<(), i64> or get_typed_func::<(), i32> demands. */
  function AccessorType(w: Width): FuncType {
    FuncType([], [if w == W64 then I64 else I32])
  }

  /**
   * Instance::get_typed_func: how calling the accessor behaves, provided
   * it is exported as a function of exactly the signature the width demands.
   */
  function TypedAccessor(inst: Instance, w: Width): (r: Option<Invocation>)
    ensures r.Some? ==> ACCESSOR_EXPORT in inst.exports && inst.exports[ACCESSOR_EXPORT] == FuncExport(AccessorType(w), r.value)
    ensures r.None? ==> ACCESSOR_EXPORT !in inst.exports || !inst.exports[ACCESSOR_EXPORT].FuncExport?
                        || inst.exports[ACCESSOR_EXPORT].sig != AccessorType(w)
  {
    if ACCESSOR_EXPORT in inst.exports && inst.exports[ACCESSOR_EXPORT].FuncExport?
       && inst.exports[ACCESSOR_EXPORT].sig == AccessorType(w)
    then Some(inst.exports[ACCESSOR_EXPORT].call)
    else None
  }

  /**
   * The accessor lookup reads only the export named `get_candid_pointer`:
   * storing any other export leaves it unchanged, and storing a function
   * under that name makes it found exactly when its signature is the one
   * the width demands.
   */
  lemma TypedAccessorOfUpdate(inst: Instance, w: Width, n: string, e: Extern)
    ensures TypedAccessor(Instance(inst.exports[n := e]), w) ==
      if n != ACCESSOR_EXPORT then TypedAccessor(inst, w)
      else if e.FuncExport? && e.sig == AccessorType(w) then Some(e.call) else None
  {
  }

  /**
   * The returned integer as a byte offset, reading an i32 result as the
   * unsigned 32-bit address it stands for.
   */
  function Offset(w: Width, v: int): (p: nat)
    ensures p < Bound(w)
  {
    v % Bound(w)
  }

  /**
   * `candid_pointer as usize` as the source writes it: on a 64-bit host an
   * i64 keeps its bits and an i32 is sign-extended, so both come out as the
   * value modulo 2^64.
   */
  function OffsetAsWritten(w: Width, v: int): (p: nat)
    ensures p < TWO_64
    ensures 0 <= v < TWO_64 ==> p == v
    ensures -TWO_64 <= v < 0 ==> p == v + TWO_64
  {
    v % TWO_64
  }

  /** The signed integer of width w whose bit pattern is the address p. */
  function Signed(w: Width, p: nat): (v: int)
    requires p < Bound(w)
    ensures -Bound(w) / 2 <= v < Bound(w) / 2
  {
    if p < Bound(w) / 2 then p else p - Bound(w)
  }

  /** An accessor that returns address p leads the scan to offset p, at either width. */
  lemma OffsetOfSigned(w: Width, p: nat)
    requires p < Bound(w)
    ensures Offset(w, Signed(w, p)) == p
  {
  }

  /**
   * Where the source's cast is right: an accessor returning address p
   * leads the sign-extending cast to offset p for every 64-bit address and
   * for 32-bit addresses below 2 GiB.
   */
  lemma OffsetAsWrittenOfSigned(w: Width, p: nat)
    requires p < Bound(w) && (w == W64 || p < TWO_32 / 2)
    ensures OffsetAsWritten(w, Signed(w, p)) == p
    ensures OffsetAsWritten(w, Signed(w, p)) == Offset(w, Signed(w, p))
  {
    OffsetOfSigned(w, p);
  }

  /**
   * The pointer stage: find the accessor whose result type matches the
   * memory's width, call it, and cast what it returns.
   */
  function Pointer(inst: Instance, w: Width): (r: Result<nat, Failure>)
    ensures r.Err? ==> r.error in {AccessorUnavailable(w), AccessorTrapped}
    ensures r != Err(AccessorUnavailable(w)) <==>
      ACCESSOR_EXPORT in inst.exports && inst.exports[ACCESSOR_EXPORT].FuncExport? &&
      inst.exports[ACCESSOR_EXPORT].sig == AccessorType(w)
    ensures r.Ok? <==> r != Err(AccessorUnavailable(w)) && inst.exports[ACCESSOR_EXPORT].call.Returns?
    ensures r.Ok? ==> r.value == Offset(w, inst.exports[ACCESSOR_EXPORT].call.value)
  {
    match TypedAccessor(inst, w)
    case None => Err(AccessorUnavailable(w))
    case Some(Traps) => Err(AccessorTrapped)
    case Some(Returns(v)) => Ok(Offset(w, v))
  }

  /**
   * No fallback: an accessor of the other width's signature is not found,
   * and it is never called.
   */
  lemma WrongWidthIsUnavailable(inst: Instance, w: Width, call: Invocation)
    requires ACCESSOR_EXPORT in inst.exports
    requires inst.exports[ACCESSOR_EXPORT] == FuncExport(AccessorType(Other(w)), call)
    ensures Pointer(inst, w) == Err(AccessorUnavailable(w))
  {
  }

  /** The two casts agree on every i64 result. */
  lemma CastsAgreeOn64(v: int)
    ensures OffsetAsWritten(W64, v) == Offset(W64, v)
  {
  }

  /**
   * The two casts agree on an i32 result exactly when it is non-negative;
   * a negative one (an address of 2 GiB or more) is sign-extended far past
   * any 32-bit memory.
   */
  lemma CastsDisagreeOnHighAddresses(v: int)
    requires -TWO_32 / 2 <= v < TWO_32 / 2
    ensures OffsetAsWritten(W32, v) == Offset(W32, v) <==> v >= 0
    ensures v < 0 ==> OffsetAsWritten(W32, v) >= TWO_64 - TWO_32 / 2 && Offset(W32, v) == v + TWO_32
  {
  }
}
