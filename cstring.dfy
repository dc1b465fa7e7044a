/**
 * Reading the zero-terminated byte string that the accessor points at
 * (src/extract.rs, the `while memory_buffer[i] != 0` loop).
 */
module CString {
  import opened Wrappers
  import opened Wasm

  /** The index of the first zero byte at or after i, if the buffer holds one. */
  function FirstZero(buf: seq<byte>, i: nat): (z: Option<nat>)
    decreases |buf| - i
    ensures z.Some? ==> i <= z.value < |buf| && buf[z.value] == 0
    ensures z.Some? ==> forall k :: i <= k < z.value ==> buf[k] != 0
    ensures z.None? ==> forall k :: i <= k < |buf| ==> buf[k] != 0
  {
    if i >= |buf| then None
    else if buf[i] == 0 then Some(i)
    else FirstZero(buf, i + 1)
  }

  /** A zero byte with no zero byte between i and it is the one FirstZero finds. */
  lemma {:induction false} FirstZeroAt(buf: seq<byte>, i: nat, z: nat)
    requires i <= z < |buf| && buf[z] == 0
    requires forall k :: i <= k < z ==> buf[k] != 0
    ensures FirstZero(buf, i) == Some(z)
    decreases z - i
  {
    if i < z {
      FirstZeroAt(buf, i + 1, z);
    }
  }

  /**
   * The bytes from offset p up to, and not including, the first zero byte
   * at or after p; None when the buffer ends before such a byte.
   */
  function StringAt(buf: seq<byte>, p: nat): (r: Option<seq<byte>>)
    ensures r.Some? ==> p + |r.value| < |buf| && buf[p + |r.value|] == 0
    ensures r.Some? ==> r.value == buf[p..p + |r.value|] && 0 !in r.value
    ensures r.None? <==> forall k :: p <= k < |buf| ==> buf[k] != 0
  {
    match FirstZero(buf, p)
    case None => None
    case Some(z) => Some(buf[p..z])
  }

  /**
   * The scan loop: copies bytes from offset `start` until the first zero
   * byte. Where the source would index past the end of the buffer (and
   * panic), the scan reports None. `probed` is every index the loop reads:
   * each index from `start` through the terminator, or, when there is no
   * terminator, through the last byte of the buffer.
   */
  method ReadString(buf: seq<byte>, start: nat) returns (r: Option<seq<byte>>, ghost probed: set<nat>)
    ensures r == StringAt(buf, start)
    ensures r.Some? ==> forall k :: k in probed <==> start <= k <= start + |r.value|
    ensures r.None? ==> forall k :: k in probed <==> start <= k < |buf|
  {
    var i := start;
    var bytes: seq<byte> := [];
    probed := {};
    while i < |buf| && buf[i] != 0
      invariant start <= i && |bytes| == i - start
      invariant i == start || i <= |buf|
      invariant forall k :: 0 <= k < |bytes| ==> bytes[k] == buf[start + k] && bytes[k] != 0
      invariant forall k :: k in probed <==> start <= k < i
      decreases |buf| - i
    {
      probed := probed + {i};
      bytes := bytes + [buf[i]];
      i := i + 1;
    }
    assert forall k :: start <= k < i ==> buf[k] == bytes[k - start];
    if i < |buf| {
      probed := probed + {i};
      FirstZeroAt(buf, start, i);
      assert bytes == buf[start..i];
      r := Some(bytes);
    } else {
      r := None;
    }
  }

  /**
   * Round trip of the layout the accessor relies on: a zero-free byte
   * string placed at offset p and followed by a zero byte is read back
   * exactly.
   */
  lemma StringAtPlaced(buf: seq<byte>, p: nat, s: seq<byte>)
    requires 0 !in s && p + |s| < |buf|
    requires buf[p..p + |s|] == s && buf[p + |s|] == 0
    ensures StringAt(buf, p) == Some(s)
  {
    assert forall k :: p <= k < p + |s| ==> buf[k] == s[k - p];
    FirstZeroAt(buf, p, p + |s|);
  }

  /**
   * Bytes after the terminator never matter: any buffer that agrees with
   * buf from p through the terminator reads the same string.
   */
  lemma StringAtIgnoresTail(buf: seq<byte>, other: seq<byte>, p: nat)
    requires StringAt(buf, p).Some?
    requires p + |StringAt(buf, p).value| < |other|
    requires other[p..p + |StringAt(buf, p).value| + 1] == buf[p..p + |StringAt(buf, p).value| + 1]
    ensures StringAt(other, p) == StringAt(buf, p)
  {
    var s := StringAt(buf, p).value;
    assert other[p..p + |s|] == other[p..p + |s| + 1][..|s|];
    assert other[p + |s|] == other[p..p + |s| + 1][|s|];
    StringAtPlaced(other, p, s);
  }
}
