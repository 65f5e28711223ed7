/**
  The ring of FreeRTOS/FreeRTOS/stream_buffer.c under its one writer and one reader, with no
  lock around the copies: every byte copied and every index published is a step of its own,
  and the steps of the two sides interleave in any way.
 */
module StreamProtocol {
  import opened Bytes

  // prvBytesInBuffer
  function BytesInBuffer(length: nat, head: nat, tail: nat): (n: nat)
    requires head < length && tail < length
    ensures n < length && Wrap(tail + n, length) == head
  {
    Wrap(length + head - tail, length)
  }

  // xStreamBufferSpacesAvailable
  function SpacesAvailable(length: nat, head: nat, tail: nat): (n: nat)
    requires head < length && tail < length
    ensures n == length - 1 - BytesInBuffer(length, head, tail)
  {
    Wrap(length + tail - head - 1, length)
  }

  // ---------------------------------------------------------------- the machine

  datatype Writer =
    | WriterIdle
    | Writing(data: seq<byte>, done: nat) // inside prvWriteBytesToBuffer, `done` bytes copied

  datatype Reader =
    | ReaderIdle
    | Reading(count: nat, chunk: seq<byte>) // inside prvReadBytesFromBuffer, `chunk` copied out so far

  datatype State = State(
    buffer: seq<byte>,    // pucBuffer; xLength is its length
    head: nat, tail: nat, // xHead and xTail
    writer: Writer,
    space: nat,           // what is left of the writer's xSpace, however long ago it was computed
    reader: Reader,
    avail: nat,           // what is left of the reader's xBytesAvailable
    originalTail: nat,    // the reader's xOriginalTail
    // history
    stream: seq<byte>,    // every byte ever published
    got: seq<byte>,       // every byte the reader has taken out
    mark: nat             // how many bytes had been taken when xOriginalTail was saved
  )

  datatype Label =
    | WriterLook                  // xSpace = xStreamBufferSpacesAvailable(...)
    | WriterBegin(data: seq<byte>)
    | WriterByte
    | WriterPublish               // pxStreamBuffer->xHead = xNextHead
    | ReaderLook                  // xBytesAvailable = prvBytesInBuffer(...)
    | ReaderMark                  // xOriginalTail = pxStreamBuffer->xTail
    | ReaderBegin(count: nat)
    | ReaderByte
    | ReaderPublish               // pxStreamBuffer->xTail = xNextTail
    | ReaderRestore               // pxStreamBuffer->xTail = xOriginalTail

  // Going back to xOriginalTail is safe while what has been published since then and what the writer
  // may still write fit the storage area. RestoreKeepsIff shows that this is exact.
  predicate RestoreSafe(s: State) {
    |s.stream| - s.mark + s.space < |s.buffer|
  }

  predicate SafeStep(s: State, l: Label) {
    l.ReaderRestore? ==> RestoreSafe(s)
  }

  function Restored(s: State): State
    requires InRange(s)
  {
    s.(tail := s.originalTail, got := s.got[..s.mark], avail := 0)
  }

  predicate Enabled(s: State, l: Label) {
    match l
    case WriterLook => s.writer.WriterIdle?
    case WriterBegin(data) => s.writer.WriterIdle? && 0 < |data| <= s.space
    case WriterByte => s.writer.Writing? && s.writer.done < |s.writer.data|
    case WriterPublish => s.writer.Writing? && s.writer.done == |s.writer.data|
    case ReaderLook => s.reader.ReaderIdle?
    case ReaderMark => s.reader.ReaderIdle?
    case ReaderBegin(count) => s.reader.ReaderIdle? && 0 < count <= s.avail
    case ReaderByte => s.reader.Reading? && |s.reader.chunk| < s.reader.count
    case ReaderPublish => s.reader.Reading? && |s.reader.chunk| == s.reader.count
    case ReaderRestore => s.reader.ReaderIdle?
  }

  predicate InRange(s: State) {
    && s.head < |s.buffer| && s.tail < |s.buffer|
    && (s.writer.Writing? ==> s.writer.done <= |s.writer.data| < |s.buffer|)
    && (s.reader.Reading? ==> |s.reader.chunk| <= s.reader.count < |s.buffer|)
    && s.mark <= |s.got|
  }

  function Next(s: State, l: Label): State
    requires InRange(s) && Enabled(s, l)
  {
    var length := |s.buffer|;
    match l
    case WriterLook => s.(space := SpacesAvailable(length, s.head, s.tail))
    case WriterBegin(data) => s.(writer := Writing(data, 0))
    case WriterByte =>
      s.(buffer := s.buffer[Wrap(s.head + s.writer.done, length) := s.writer.data[s.writer.done]],
         writer := s.writer.(done := s.writer.done + 1))
    case WriterPublish =>
      s.(head := Wrap(s.head + |s.writer.data|, length), stream := s.stream + s.writer.data,
         space := if s.space < |s.writer.data| then 0 else s.space - |s.writer.data|, writer := WriterIdle)
    case ReaderLook => s.(avail := BytesInBuffer(length, s.head, s.tail))
    case ReaderMark => s.(originalTail := s.tail, mark := |s.got|)
    case ReaderBegin(count) => s.(reader := Reading(count, []))
    case ReaderByte =>
      s.(reader := s.reader.(chunk := s.reader.chunk + [s.buffer[Wrap(s.tail + |s.reader.chunk|, length)]]))
    case ReaderPublish =>
      s.(tail := Wrap(s.tail + s.reader.count, length), got := s.got + s.reader.chunk,
         avail := if s.avail < s.reader.count then 0 else s.avail - s.reader.count, reader := ReaderIdle)
    case ReaderRestore => Restored(s)
  }

  // ---------------------------------------------------------------- invariant

  // The storage index of the i-th byte ever written: i modulo the length.
  function Slot(i: nat, length: nat): (j: nat)
    requires 0 < length
    ensures j < length
  {
    if i < length then i else Slot(i - length, length)
  }

  // Of n bytes copied into it, the storage area holds the last ones, from this one on.
  function Oldest(n: nat, length: nat): nat {
    if n < length then 0 else n - length
  }

  ghost predicate Indices(s: State) {
    && 1 < |s.buffer|
    && s.head == Slot(|s.stream|, |s.buffer|) && s.tail == Slot(|s.got|, |s.buffer|)
    && s.mark <= |s.got| <= |s.stream|
    && s.originalTail == Slot(s.mark, |s.buffer|)
    && |s.stream| - |s.got| + s.space < |s.buffer|
    && |s.got| + s.avail <= |s.stream|
    && (s.writer.Writing? ==> s.writer.done <= |s.writer.data| <= s.space)
    && (s.reader.Reading? ==> |s.reader.chunk| <= s.reader.count <= s.avail)
  }

  // What the writer has published, followed by what it has copied but not published yet.
  function Copied(s: State): seq<byte> {
    if s.writer.Writing? && s.writer.done <= |s.writer.data| then s.stream + s.writer.data[..s.writer.done]
    else s.stream
  }

  // The last bytes copied are all in their slots.
  ghost predicate Stored(buffer: seq<byte>, copied: seq<byte>)
    requires 0 < |buffer|
  {
    forall i :: Oldest(|copied|, |buffer|) <= i < |copied| ==> buffer[Slot(i, |buffer|)] == copied[i]
  }

  ghost predicate Received(s: State) {
    && s.got <= s.stream
    && (s.reader.Reading? ==> s.got + s.reader.chunk <= s.stream)
  }

  ghost predicate Inv(s: State) {
    Indices(s) && Stored(s.buffer, Copied(s)) && Received(s)
  }

  // ---------------------------------------------------------------- one step

  lemma {:induction false} SlotNext(i: nat, c: nat, length: nat)
    requires 0 < length && c <= length
    ensures Slot(i + c, length) == Wrap(Slot(i, length) + c, length)
    decreases i
  {
    if i >= length {
      SlotNext(i - length, c, length);
    }
  }

  lemma {:induction false} SlotDistinct(i: nat, j: nat, length: nat)
    requires 0 < length && i < j < i + length
    ensures Slot(i, length) != Slot(j, length)
  {
    SlotNext(i, j - i, length);
  }

  lemma {:induction false} CountIsDistance(i: nat, n: nat, length: nat)
    requires n < length
    ensures BytesInBuffer(length, Slot(i + n, length), Slot(i, length)) == n
  {
    SlotNext(i, n, length);
  }

  // One more byte goes to the slot of the oldest.
  lemma {:induction false} StoreOne(buffer: seq<byte>, copied: seq<byte>, b: byte)
    requires 0 < |buffer| && Stored(buffer, copied)
    ensures Stored(buffer[Slot(|copied|, |buffer|) := b], copied + [b])
  {
    var length, w := |buffer|, |copied|;
    forall i | Oldest(w + 1, length) <= i < w ensures Slot(i, length) != Slot(w, length) {
      SlotDistinct(i, w, length);
    }
  }

  lemma {:induction false} CopyOne(stream: seq<byte>, data: seq<byte>, done: nat)
    requires done < |data|
    ensures stream + data[..done + 1] == (stream + data[..done]) + [data[done]]
  {
  }

  lemma {:induction false} WriterByteStores(s: State)
    requires Indices(s) && Stored(s.buffer, Copied(s)) && Enabled(s, WriterByte)
    ensures InRange(s)
    ensures Stored(Next(s, WriterByte).buffer, Copied(Next(s, WriterByte)))
  {
    var data, done, copied := s.writer.data, s.writer.done, Copied(s);
    SlotNext(|s.stream|, done, |s.buffer|);
    CopyOne(s.stream, data, done);
    StoreOne(s.buffer, copied, data[done]);
    var s' := Next(s, WriterByte);
    assert Copied(s') == copied + [data[done]];
    assert s'.buffer == s.buffer[Slot(|copied|, |s.buffer|) := data[done]];
  }

  lemma {:induction false} WriterByteKeeps(s: State)
    requires Inv(s) && Enabled(s, WriterByte)
    ensures InRange(s) && Inv(Next(s, WriterByte))
  {
    WriterByteStores(s);
  }

  lemma {:induction false} WriterPublishIndices(s: State)
    requires Indices(s) && Enabled(s, WriterPublish)
    ensures InRange(s) && Indices(Next(s, WriterPublish))
  {
    SlotNext(|s.stream|, |s.writer.data|, |s.buffer|);
  }

  lemma {:induction false} WriterPublishKeeps(s: State)
    requires Inv(s) && Enabled(s, WriterPublish)
    ensures InRange(s) && Inv(Next(s, WriterPublish))
  {
    WriterPublishIndices(s);
    assert Copied(Next(s, WriterPublish)) == Copied(s);
  }

  // A published byte that has not been taken is where the reader looks for it.
  lemma {:induction false} UnreadByte(s: State, i: nat)
    requires Inv(s) && |s.got| + i < |s.stream|
    ensures i < |s.buffer| && InRange(s)
    ensures s.buffer[Wrap(s.tail + i, |s.buffer|)] == s.stream[|s.got| + i]
  {
    SlotNext(|s.got|, i, |s.buffer|);
    assert Copied(s)[|s.got| + i] == s.stream[|s.got| + i];
  }

  // The byte the reader copies is the next one of the stream.
  lemma {:induction false} ReaderByteKeeps(s: State)
    requires Inv(s) && Enabled(s, ReaderByte)
    ensures InRange(s) && Inv(Next(s, ReaderByte))
  {
    UnreadByte(s, |s.reader.chunk|);
    PrefixExtend(s.got, s.reader.chunk, s.stream);
  }

  lemma {:induction false} PrefixExtend(got: seq<byte>, chunk: seq<byte>, stream: seq<byte>)
    requires got + chunk <= stream && |got + chunk| < |stream|
    ensures got + (chunk + [stream[|got + chunk|]]) <= stream
  {
  }

  lemma {:induction false} ReaderPublishIndices(s: State)
    requires Indices(s) && Enabled(s, ReaderPublish)
    ensures InRange(s) && Indices(Next(s, ReaderPublish))
  {
    SlotNext(|s.got|, s.reader.count, |s.buffer|);
  }

  lemma {:induction false} ReaderPublishKeeps(s: State)
    requires Inv(s) && Enabled(s, ReaderPublish)
    ensures InRange(s) && Inv(Next(s, ReaderPublish))
  {
    ReaderPublishIndices(s);
  }

  lemma {:induction false} LookKeeps(s: State, l: Label)
    requires Inv(s) && Enabled(s, l) && (l.WriterLook? || l.ReaderLook?)
    ensures InRange(s) && Inv(Next(s, l))
    ensures l.WriterLook? ==> Next(s, l).space == |s.buffer| - 1 - (|s.stream| - |s.got|)
    ensures l.ReaderLook? ==> Next(s, l).avail == |s.stream| - |s.got|
  {
    CountIsDistance(|s.got|, |s.stream| - |s.got|, |s.buffer|);
  }

  // Going back keeps the invariant exactly when it is safe.
  lemma {:induction false} RestoreKeepsIff(s: State)
    requires Inv(s) && s.reader.ReaderIdle?
    ensures InRange(s) && (Inv(Restored(s)) <==> RestoreSafe(s))
  {
  }

  lemma {:induction false} StepKeeps(s: State, l: Label)
    requires Inv(s) && Enabled(s, l) && SafeStep(s, l)
    ensures InRange(s) && Inv(Next(s, l))
  {
    match l
    case WriterLook => LookKeeps(s, l);
    case WriterBegin(data) =>
    case WriterByte => WriterByteKeeps(s);
    case WriterPublish => WriterPublishKeeps(s);
    case ReaderLook => LookKeeps(s, l);
    case ReaderMark =>
    case ReaderBegin(count) =>
    case ReaderByte => ReaderByteKeeps(s);
    case ReaderPublish => ReaderPublishKeeps(s);
    case ReaderRestore => RestoreKeepsIff(s);
  }

  // ---------------------------------------------------------------- whole runs

  predicate Initial(s: State) {
    && 1 < |s.buffer| && s.head == s.tail == 0
    && s.writer.WriterIdle? && s.reader.ReaderIdle? && s.space == s.avail == 0
    && s.stream == s.got == [] && s.mark == s.originalTail == 0
  }

  ghost predicate Legal(s: State, ls: seq<Label>)
    decreases |ls|
  {
    ls == [] || (InRange(s) && Enabled(s, ls[0]) && Legal(Next(s, ls[0]), ls[1..]))
  }

  ghost function End(s: State, ls: seq<Label>): State
    requires Legal(s, ls)
    decreases |ls|
  {
    if ls == [] then s else End(Next(s, ls[0]), ls[1..])
  }

  // Whenever the reader of the run goes back it is safe.
  ghost predicate AllSafe(s: State, ls: seq<Label>)
    requires Legal(s, ls)
    decreases |ls|
  {
    ls == [] || (SafeStep(s, ls[0]) && AllSafe(Next(s, ls[0]), ls[1..]))
  }

  lemma {:induction false} RunKeepsInv(s: State, ls: seq<Label>)
    requires Inv(s) && Legal(s, ls) && AllSafe(s, ls)
    ensures Inv(End(s, ls))
    decreases |ls|
  {
    if ls != [] {
      StepKeeps(s, ls[0]);
      RunKeepsInv(Next(s, ls[0]), ls[1..]);
    }
  }

  // The i-th unread byte, where the code reads it.
  function UnreadAt(s: State, i: nat): byte
    requires InRange(s) && i < |s.buffer|
  {
    s.buffer[Wrap(s.tail + i, |s.buffer|)]
  }

  function Unread(s: State): (r: seq<byte>)
    requires InRange(s)
    ensures |r| == BytesInBuffer(|s.buffer|, s.head, s.tail)
    ensures forall i {:trigger r[i]} :: 0 <= i < |r| ==> r[i] == UnreadAt(s, i)
  {
    seq(BytesInBuffer(|s.buffer|, s.head, s.tail),
        i requires 0 <= i < BytesInBuffer(|s.buffer|, s.head, s.tail) => UnreadAt(s, i))
  }

  lemma {:induction false} SameUnread(s: State, bytes: seq<byte>)
    requires InRange(s) && |bytes| == BytesInBuffer(|s.buffer|, s.head, s.tail)
    requires forall i {:trigger UnreadAt(s, i)} :: 0 <= i < |bytes| ==> UnreadAt(s, i) == bytes[i]
    ensures Unread(s) == bytes
  {
  }

  lemma {:induction false} UnreadCount(s: State)
    requires Indices(s)
    ensures InRange(s) && BytesInBuffer(|s.buffer|, s.head, s.tail) == |s.stream| - |s.got|
    ensures s.space <= SpacesAvailable(|s.buffer|, s.head, s.tail)
    ensures s.avail <= BytesInBuffer(|s.buffer|, s.head, s.tail)
  {
    CountIsDistance(|s.got|, |s.stream| - |s.got|, |s.buffer|);
  }

  lemma {:induction false} UnreadBytes(s: State, rest: seq<byte>)
    requires Inv(s) && InRange(s) && rest == s.stream[|s.got|..] && |rest| < |s.buffer|
    ensures forall i {:trigger UnreadAt(s, i)} :: 0 <= i < |rest| ==> UnreadAt(s, i) == rest[i]
  {
    forall i {:trigger UnreadAt(s, i)} | 0 <= i < |rest| ensures UnreadAt(s, i) == rest[i] {
      UnreadByte(s, i);
    }
  }

  lemma {:induction false} UnreadIsRest(s: State)
    requires Inv(s)
    ensures InRange(s) && Unread(s) == s.stream[|s.got|..]
    ensures s.space <= SpacesAvailable(|s.buffer|, s.head, s.tail)
    ensures s.avail <= BytesInBuffer(|s.buffer|, s.head, s.tail)
  {
    UnreadCount(s);
    UnreadBytes(s, s.stream[|s.got|..]);
    SameUnread(s, s.stream[|s.got|..]);
  }

  // The bytes that the writes of a run begin with, in order.
  function Begun(ls: seq<Label>): seq<byte> {
    if ls == [] then [] else (if ls[0].WriterBegin? then ls[0].data else []) + Begun(ls[1..])
  }

  // The bytes of a write that is not published yet.
  function Underway(s: State): seq<byte> {
    if s.writer.Writing? then s.writer.data else []
  }

  // The bytes that the reads of a run return.
  ghost function TakenOut(s: State, ls: seq<Label>): seq<byte>
    requires Legal(s, ls)
    decreases |ls|
  {
    if ls == [] then []
    else
      (if ls[0].ReaderPublish? && s.reader.Reading? then s.reader.chunk else [])
      + TakenOut(Next(s, ls[0]), ls[1..])
  }

  lemma {:induction false} Regroup(a: seq<byte>, b: seq<byte>, c: seq<byte>)
    ensures (a + b) + c == a + (b + c)
    ensures a + [] == [] + a == a
  {
  }

  lemma {:induction false} StreamIsBegun(s: State, ls: seq<Label>)
    requires Legal(s, ls)
    ensures End(s, ls).stream + Underway(End(s, ls)) == (s.stream + Underway(s)) + Begun(ls)
    decreases |ls|
  {
    Regroup(s.stream + Underway(s), [], []);
    if ls != [] {
      var z := Next(s, ls[0]);
      var data := if ls[0].WriterBegin? then ls[0].data else [];
      StreamIsBegun(z, ls[1..]);
      Regroup(s.stream, [], data);
      Regroup(s.stream, Underway(s), []);
      Regroup(z.stream, [], []);
      assert z.stream + Underway(z) == (s.stream + Underway(s)) + data;
      Regroup(s.stream + Underway(s), data, Begun(ls[1..]));
    }
  }

  predicate NeverBack(ls: seq<Label>) {
    forall i :: 0 <= i < |ls| ==> !ls[i].ReaderRestore?
  }

  lemma {:induction false} GotIsTakenOut(s: State, ls: seq<Label>)
    requires Legal(s, ls) && NeverBack(ls)
    ensures End(s, ls).got == s.got + TakenOut(s, ls)
    decreases |ls|
  {
    if ls == [] {
      Regroup(s.got, [], []);
    } else {
      var z := Next(s, ls[0]);
      var chunk := if ls[0].ReaderPublish? && s.reader.Reading? then s.reader.chunk else [];
      assert !ls[0].ReaderRestore?;
      GotIsTakenOut(z, ls[1..]);
      Regroup(s.got, chunk, TakenOut(z, ls[1..]));
      Regroup(s.got, [], []);
    }
  }

  // Under every interleaving the bytes taken out, followed by the bytes in the buffer, are exactly
  // the bytes published; and an xSpace or xBytesAvailable computed long ago is still a lower bound.
  lemma {:induction false} ReadsWhatWasWritten(start: State, ls: seq<Label>)
    requires Initial(start) && Legal(start, ls) && AllSafe(start, ls)
    ensures InRange(End(start, ls)) && 0 < |End(start, ls).buffer|
    ensures End(start, ls).got + Unread(End(start, ls)) == End(start, ls).stream
    ensures var s := End(start, ls);
            && s.space <= SpacesAvailable(|s.buffer|, s.head, s.tail)
            && s.avail <= BytesInBuffer(|s.buffer|, s.head, s.tail)
  {
    RunKeepsInv(start, ls);
    UnreadIsRest(End(start, ls));
  }

  // In the words of the callers: what the reads have returned, what is in the buffer, and what is being
  // written, are together what the writes were given.
  lemma {:induction false} BytesGoThrough(start: State, ls: seq<Label>)
    requires Initial(start) && Legal(start, ls) && NeverBack(ls)
    ensures InRange(End(start, ls))
    ensures var s := End(start, ls); (TakenOut(start, ls) + Unread(s)) + Underway(s) == Begun(ls)
  {
    NeverBackIsSafe(start, ls);
    ReadsWhatWasWritten(start, ls);
    StreamIsBegun(start, ls);
    GotIsTakenOut(start, ls);
    Regroup(Begun(ls), [], []);
    Regroup(TakenOut(start, ls), [], []);
  }

  lemma {:induction false} NeverBackIsSafe(s: State, ls: seq<Label>)
    requires Legal(s, ls) && NeverBack(ls)
    ensures AllSafe(s, ls)
    decreases |ls|
  {
    if ls != [] {
      assert !ls[0].ReaderRestore?;
      NeverBackIsSafe(Next(s, ls[0]), ls[1..]);
    }
  }

  // ---------------------------------------------------------------- going back too late

  // The mark is where the reader stands, so going back at once changes nothing for it.
  lemma {:induction false} MarksItsPlace(s: State)
    requires InRange(s) && Enabled(s, ReaderMark)
    ensures var t := Next(s, ReaderMark);
      && InRange(t) && InRange(Restored(t)) && Restored(t).got == s.got && Unread(Restored(t)) == Unread(s)
      && Restored(t).tail == s.tail && t.stream == s.stream && t.buffer == s.buffer
  {
    var t := Next(s, ReaderMark);
    SameUnread(Restored(t), Unread(s));
  }

  lemma {:induction false} GivenBack(s: State, i: nat)
    requires Inv(s) && s.writer.WriterIdle? && s.mark + i < |s.stream| < s.mark + |s.buffer|
    ensures i < |s.buffer| && s.originalTail < |s.buffer|
    ensures s.buffer[Wrap(s.originalTail + i, |s.buffer|)] == s.stream[s.mark + i]
  {
    SlotNext(s.mark, i, |s.buffer|);
    assert Copied(s)[s.mark + i] == s.stream[s.mark + i];
  }

  // With no write under way, going back gives the reader all bytes from the mark on again exactly when
  // the writer has not published a whole storage area since.
  lemma {:induction false} RestoreGivesBackIff(s: State)
    requires Inv(s) && s.reader.ReaderIdle? && s.writer.WriterIdle?
    ensures InRange(s) && InRange(Restored(s))
    ensures Unread(Restored(s)) == s.stream[s.mark..] <==> |s.stream| - s.mark < |s.buffer|
  {
    if |s.stream| - s.mark < |s.buffer| {
      AllGivenBack(s);
    }
  }

  lemma {:induction false} RestoredCount(s: State)
    requires Indices(s)
    ensures InRange(s) && InRange(Restored(s))
    ensures |s.stream| - s.mark < |s.buffer| ==>
              BytesInBuffer(|s.buffer|, s.head, s.originalTail) == |s.stream| - s.mark
  {
    if |s.stream| - s.mark < |s.buffer| {
      CountIsDistance(s.mark, |s.stream| - s.mark, |s.buffer|);
    }
  }

  lemma {:induction false} AllGivenBack(s: State)
    requires Inv(s) && s.reader.ReaderIdle? && s.writer.WriterIdle? && |s.stream| - s.mark < |s.buffer|
    ensures InRange(s) && InRange(Restored(s)) && Unread(Restored(s)) == s.stream[s.mark..]
  {
    RestoredCount(s);
    SameUnread(Restored(s), s.stream[s.mark..]) by {
      BytesGivenBack(s, Restored(s), s.stream[s.mark..]);
    }
  }

  lemma {:induction false} BytesGivenBack(s: State, r: State, rest: seq<byte>)
    requires Inv(s) && s.writer.WriterIdle? && |s.stream| - s.mark < |s.buffer| && rest == s.stream[s.mark..]
    requires InRange(s) && r == Restored(s) && InRange(r)
    ensures forall i {:trigger UnreadAt(r, i)} :: 0 <= i < |rest| ==> UnreadAt(r, i) == rest[i]
  {
    forall i {:trigger UnreadAt(r, i)} | 0 <= i < |rest| ensures UnreadAt(r, i) == rest[i] {
      GivenBack(s, i);
    }
  }
}
