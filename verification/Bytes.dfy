/**
  Bytes, indices into circular storage areas, sequences read backwards, and memcpy.
 */
module Bytes {

  newtype byte = i: int | 0 <= i < 256

  // An index past the end continues at the start of the storage area.
  function Wrap(i: nat, length: nat): (j: nat)
    requires 0 < length && i < 2 * length
    ensures j < length
  {
    if i >= length then i - length else i
  }

  // Last first.
  function Reversed<T>(s: seq<T>): (r: seq<T>)
    ensures |r| == |s| && forall i :: 0 <= i < |r| ==> r[i] == s[|s| - 1 - i]
  {
    seq(|s|, i requires 0 <= i < |s| => s[|s| - 1 - i])
  }

  // The area after a memcpy to index `to`.
  function Overwritten(area: seq<byte>, to: nat, data: seq<byte>): (r: seq<byte>)
    requires to + |data| <= |area|
    ensures |r| == |area|
  {
    area[..to] + data + area[to + |data|..]
  }

  // memcpy into the storage area
  method Memcpy(area: array<byte>, to: nat, data: seq<byte>)
    requires to + |data| <= area.Length
    modifies area
    ensures area[..] == Overwritten(old(area[..]), to, data)
  {
    forall i | 0 <= i < |data| {
      area[to + i] := data[i];
    }
  }
}
