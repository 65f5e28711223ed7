/**
  The functions of stream_buffer.c on the buffer object itself, one call at a time: what each
  call does to the bytes in the buffer, including short buffers and refused messages.
 */
module StreamBuffer {
  import opened Bytes
  import opened StreamProtocol
  import opened MessageProtocol

  function Min(a: nat, b: nat): nat {
    if a < b then a else b
  }

  // The n bytes from index `from` on, continuing at the start of the storage area.
  function Cut(buffer: seq<byte>, from: nat, n: nat): (r: seq<byte>)
    requires from < |buffer|
    ensures |r| == n
    decreases n
  {
    if n == 0 then [] else [buffer[from]] + Cut(buffer, Wrap(from + 1, |buffer|), n - 1)
  }

  lemma {:induction false} CutAt(buffer: seq<byte>, from: nat, n: nat, i: nat)
    requires from < |buffer| && i < n < |buffer|
    ensures Cut(buffer, from, n)[i] == buffer[Wrap(from + i, |buffer|)]
    decreases n
  {
    if i > 0 {
      CutAt(buffer, Wrap(from + 1, |buffer|), n - 1, i - 1);
    }
  }

  // As the two memcpy calls of prvReadBytesFromBuffer fetch them.
  lemma {:induction false} CutSlices(buffer: seq<byte>, from: nat, n: nat)
    requires from < |buffer| && n < |buffer|
    ensures Cut(buffer, from, n) ==
            if from + n <= |buffer| then buffer[from..from + n] else buffer[from..] + buffer[..from + n - |buffer|]
  {
    forall i | 0 <= i < n ensures Cut(buffer, from, n)[i] == buffer[Wrap(from + i, |buffer|)] {
      CutAt(buffer, from, n, i);
    }
  }

  lemma {:induction false} CutSplit(buffer: seq<byte>, from: nat, n: nat, k: nat)
    requires from < |buffer| && k <= n < |buffer|
    ensures Cut(buffer, from, n) == Cut(buffer, from, k) + Cut(buffer, Wrap(from + k, |buffer|), n - k)
    decreases k
  {
    if k > 0 {
      CutSplit(buffer, Wrap(from + 1, |buffer|), n - 1, k - 1);
    }
  }

  // Cut depends on the bytes it covers only.
  lemma {:induction false} CutSame(a: seq<byte>, b: seq<byte>, from: nat, n: nat)
    requires from < |a| == |b| && n < |a|
    requires forall i :: 0 <= i < |a| && (from <= i < from + n || i < from + n - |a|) ==> a[i] == b[i]
    ensures Cut(a, from, n) == Cut(b, from, n)
    decreases n
  {
    if n > 0 {
      CutSame(a, b, Wrap(from + 1, |a|), n - 1);
    }
  }

  lemma {:induction false} CountGrows(length: nat, head: nat, tail: nat, n: nat)
    requires head < length && tail < length && n <= SpacesAvailable(length, head, tail)
    ensures BytesInBuffer(length, Wrap(head + n, length), tail) == BytesInBuffer(length, head, tail) + n
  {
  }

  lemma {:induction false} CountShrinks(length: nat, head: nat, tail: nat, n: nat)
    requires head < length && tail < length && n <= BytesInBuffer(length, head, tail)
    ensures BytesInBuffer(length, head, Wrap(tail + n, length)) == BytesInBuffer(length, head, tail) - n
  {
  }

  // The storage area after the two memcpy calls of prvWriteBytesToBuffer.
  function Pasted(buffer: seq<byte>, to: nat, data: seq<byte>): (r: seq<byte>)
    requires to < |buffer| && |data| < |buffer|
    ensures |r| == |buffer|
  {
    var first := Min(|buffer| - to, |data|);
    var one := Overwritten(buffer, to, data[..first]);
    if |data| > first then Overwritten(one, 0, data[first..]) else one
  }

  lemma {:induction false} CutPasted(buffer: seq<byte>, to: nat, data: seq<byte>)
    requires to < |buffer| && |data| < |buffer|
    ensures Cut(Pasted(buffer, to, data), to, |data|) == data
  {
    var after := Pasted(buffer, to, data);
    CutSlices(after, to, |data|);
    var first := Min(|buffer| - to, |data|);
    if first < |data| {
      assert after[to..] == data[..first] && after[..|data| - first] == data[first..];
    } else {
      assert after[to..to + |data|] == data;
    }
  }

  // Writing behind the n bytes already there appends.
  lemma {:induction false} CutAppend(buffer: seq<byte>, from: nat, n: nat, to: nat, data: seq<byte>)
    requires from < |buffer| && n + |data| < |buffer| && to == Wrap(from + n, |buffer|)
    ensures Cut(Pasted(buffer, to, data), from, n + |data|) == Cut(buffer, from, n) + data
  {
    var after := Pasted(buffer, to, data);
    CutSplit(after, from, n + |data|, n);
    CutPasted(buffer, to, data);
    CutSame(after, buffer, from, n);
  }

  // What a write makes of the unread bytes, in terms of the two indices.
  lemma {:induction false} WrittenBehind(buffer: seq<byte>, head: nat, tail: nat, data: seq<byte>)
    requires head < |buffer| && tail < |buffer| && |data| <= SpacesAvailable(|buffer|, head, tail)
    ensures Cut(Pasted(buffer, head, data), tail, BytesInBuffer(|buffer|, Wrap(head + |data|, |buffer|), tail))
         == Cut(buffer, tail, BytesInBuffer(|buffer|, head, tail)) + data
  {
    CountGrows(|buffer|, head, tail, |data|);
    CutAppend(buffer, tail, BytesInBuffer(|buffer|, head, tail), head, data);
  }

  class StreamBuffer_t {
    var xTail: nat
    var xHead: nat
    const pucBuffer: array<byte> // xLength is its length
    const isMessageBuffer: bool  // sbFLAGS_IS_MESSAGE_BUFFER

    ghost predicate Valid()
      reads this
    {
      1 < pucBuffer.Length < 0x8000_0000 && xHead < pucBuffer.Length && xTail < pucBuffer.Length
    }

    // The bytes that have been written and not read.
    ghost function Contents(): (c: seq<byte>)
      requires Valid()
      reads this, pucBuffer
    {
      Cut(pucBuffer[..], xTail, BytesInBuffer(pucBuffer.Length, xHead, xTail))
    }

    // xStreamBufferGenericCreate: one byte more than asked for, so that all of it can be used.
    constructor (size: nat, message: bool)
      requires HEADER < size < 0x7fff_ffff
      ensures Valid() && Contents() == [] && pucBuffer.Length == size + 1 && isMessageBuffer == message
      ensures fresh(pucBuffer)
    {
      pucBuffer := new byte[size + 1];
      xTail, xHead, isMessageBuffer := 0, 0, message;
    }

    // The copying in prvWriteBytesToBuffer: up to the end of the storage area, then from its start.
    method CopyIn(data: seq<byte>)
      requires Valid() && |data| < pucBuffer.Length
      modifies pucBuffer
      ensures pucBuffer[..] == Pasted(old(pucBuffer[..]), xHead, data)
    {
      var first := Min(pucBuffer.Length - xHead, |data|);
      Memcpy(pucBuffer, xHead, data[..first]);
      if |data| > first {
        Memcpy(pucBuffer, 0, data[first..]);
      }
    }

    // The copying in prvReadBytesFromBuffer.
    method CopyOut(count: nat) returns (data: seq<byte>)
      requires Valid() && count < pucBuffer.Length
      ensures data == Cut(pucBuffer[..], xTail, count)
    {
      CutSlices(pucBuffer[..], xTail, count);
      var first := Min(pucBuffer.Length - xTail, count);
      data := pucBuffer[xTail..xTail + first];
      if count > first {
        data := data + pucBuffer[..count - first];
      }
    }

    // prvWriteBytesToBuffer
    method WriteBytes(data: seq<byte>)
      requires Valid() && 0 < |data|
      requires |data| <= SpacesAvailable(pucBuffer.Length, xHead, xTail)
      modifies this`xHead, pucBuffer
      ensures Valid() && Contents() == old(Contents()) + data
    {
      WrittenBehind(pucBuffer[..], xHead, xTail, data);
      CopyIn(data);
      var next := xHead + |data|;
      if next >= pucBuffer.Length {
        next := next - pucBuffer.Length;
      }
      xHead := next;
    }

    // prvReadBytesFromBuffer: pucData is the result.
    method ReadBytes(maxCount: nat, available: nat) returns (data: seq<byte>)
      requires Valid() && available <= BytesInBuffer(pucBuffer.Length, xHead, xTail)
      modifies this`xTail
      ensures Valid() && data + Contents() == old(Contents()) && |data| == Min(maxCount, available)
    {
      ghost var held := BytesInBuffer(pucBuffer.Length, xHead, xTail);
      var count := Min(available, maxCount);
      CountShrinks(pucBuffer.Length, xHead, xTail, count);
      CutSplit(pucBuffer[..], xTail, held, count);
      data := [];
      if count > 0 {
        data := CopyOut(count);
        var next := xTail + count;
        if next >= pucBuffer.Length {
          next := next - pucBuffer.Length;
        }
        xTail := next;
      }
    }

    // prvWriteMessageToBuffer: a message goes in whole or not at all, a stream as far as it fits.
    method WriteMessage(data: seq<byte>, space: nat, required: nat) returns (written: nat)
      requires Valid() && 0 < |data| <= MAX_LENGTH - HEADER
      requires required == |data| + if isMessageBuffer then HEADER else 0
      requires space <= SpacesAvailable(pucBuffer.Length, xHead, xTail)
      modifies this`xHead, pucBuffer
      ensures Valid()
      ensures isMessageBuffer ==> written == if space >= required then |data| else 0
      ensures isMessageBuffer ==>
                Contents() == old(Contents()) + if space >= required then Frame(data) else []
      ensures !isMessageBuffer ==> written == Min(|data|, space)
      ensures !isMessageBuffer ==> Contents() == old(Contents()) + data[..Min(|data|, space)]
    {
      var send := data;
      var shouldWrite;
      ghost var before := Contents();
      assert before + Header(|data|) + data == before + Frame(data);
      if space == 0 {
        shouldWrite := false;
      } else if !isMessageBuffer {
        shouldWrite := true;
        send := data[..Min(|data|, space)];
      } else if space >= required {
        shouldWrite := true;
        WriteBytes(Header(|data|));
      } else {
        shouldWrite := false;
      }
      if shouldWrite {
        WriteBytes(send);
        written := |send|;
      } else {
        written := 0;
      }
    }

    // prvReadMessageFromBuffer, on at least one byte beyond a header: the next message if the room
    // provided takes it; otherwise nothing is returned and the buffer is left as it was.
    method ReadMessage(room: nat, available: nat) returns (data: seq<byte>)
      requires Valid() && available == BytesInBuffer(pucBuffer.Length, xHead, xTail)
      requires available > if isMessageBuffer then HEADER else 0
      modifies this`xTail
      ensures Valid()
      ensures !isMessageBuffer ==> data + Contents() == old(Contents()) && |data| == Min(room, available)
      ensures isMessageBuffer ==>
                var size := Length(old(Contents())[..HEADER]);
                if size > room then data == [] && Contents() == old(Contents())
                else old(Contents())[..HEADER] + data + Contents() == old(Contents())
                     && |data| == Min(size, available - HEADER)
    {
      var left := available;
      var size := room;
      ghost var header: seq<byte> := [];
      if isMessageBuffer {
        var originalTail := xTail;
        var h := ReadBytes(HEADER, left);
        assert h == old(Contents())[..HEADER];
        header := h;
        size := Length(h);
        left := left - HEADER;
        if size > room {
          xTail := originalTail;
          size := 0;
        }
      }
      data := ReadBytes(size, left);
    }

    // xStreamBufferSend with no block time, up to the wake-up at its end.
    method Send(data: seq<byte>) returns (written: nat)
      requires Valid() && 0 < |data| <= MAX_LENGTH - HEADER
      modifies this`xHead, pucBuffer
      ensures Valid()
      ensures var space := old(SpacesAvailable(pucBuffer.Length, xHead, xTail));
              if isMessageBuffer then
                if |data| + HEADER <= space then written == |data| && Contents() == old(Contents()) + Frame(data)
                else written == 0 && Contents() == old(Contents())
              else written == Min(|data|, space) && Contents() == old(Contents()) + data[..written]
    {
      var required := |data|;
      if isMessageBuffer {
        required := required + HEADER;
      }
      var space := SpacesAvailable(pucBuffer.Length, xHead, xTail);
      written := WriteMessage(data, space, required);
    }

    // xStreamBufferReceive with no block time, up to the wake-up at its end: a message buffer gives
    // back whole messages, and keeps a message that the room does not take.
    method Receive(room: nat) returns (data: seq<byte>)
      requires Valid()
      modifies this`xTail
      ensures Valid()
      ensures !isMessageBuffer ==> data + Contents() == old(Contents()) && |data| == Min(room, |old(Contents())|)
      ensures isMessageBuffer && |old(Contents())| <= HEADER ==> data == [] && Contents() == old(Contents())
      ensures isMessageBuffer ==> forall m: Message, rest: seq<byte> :: old(Contents()) == Frame(m) + rest ==>
                if |m| <= room then data == m && Contents() == rest else data == [] && Contents() == old(Contents())
    {
      var available := BytesInBuffer(pucBuffer.Length, xHead, xTail);
      var before := if isMessageBuffer then HEADER else 0;
      ghost var contents := Contents();
      data := [];
      if available > before {
        data := ReadMessage(room, available);
        if isMessageBuffer {
          forall m: Message, rest: seq<byte> | contents == Frame(m) + rest
            ensures if |m| <= room then data == m && Contents() == rest else data == [] && Contents() == contents
          {
            assert contents[..HEADER] == Header(|m|);
            HeaderRoundTrip(|m|);
            if |m| <= room {
              assert contents[HEADER..HEADER + |m|] == m && contents[HEADER + |m|..] == rest;
            }
          }
        }
      }
    }
  }
}
