/**
  Message buffers: stream_buffer.c with length-prefixed frames. The writer publishes the header
  and the payload of a message by two separate updates of xHead, and the reader may look in between.
  The ring below is the machine of module StreamProtocol.
 */
module MessageProtocol {
  import opened Bytes
  import opened StreamProtocol

  const HEADER: nat := 4 // sbBYTES_TO_STORE_MESSAGE_LENGTH, sizeof( size_t )
  const MAX_LENGTH: nat := 0xffff_ffff

  // The bytes of a size_t in memory, least significant first.
  function Header(n: nat): (h: seq<byte>)
    requires n <= MAX_LENGTH
    ensures |h| == HEADER
  {
    [(n % 256) as byte, (n / 256 % 256) as byte, (n / 65536 % 256) as byte, (n / 16777216 % 256) as byte]
  }

  function Length(h: seq<byte>): (n: nat)
    requires |h| == HEADER
    ensures n <= MAX_LENGTH
  {
    h[0] as nat + 256 * (h[1] as nat) + 65536 * (h[2] as nat) + 16777216 * (h[3] as nat)
  }

  lemma {:induction false} HeaderRoundTrip(n: nat)
    requires n <= MAX_LENGTH
    ensures Length(Header(n)) == n
  {
    assert n / 65536 == n / 256 / 256 && n / 16777216 == n / 256 / 256 / 256;
  }

  type Message = m: seq<byte> | 0 < |m| <= MAX_LENGTH witness [0]

  function Frame(m: Message): seq<byte> {
    Header(|m|) + m
  }

  // The byte stream of a sequence of messages.
  function Frames(ms: seq<Message>): seq<byte> {
    if ms == [] then [] else Frames(ms[..|ms| - 1]) + Frame(ms[|ms| - 1])
  }

  // Where message k starts.
  function Start(ms: seq<Message>, k: nat): nat
    requires k <= |ms|
  {
    |Frames(ms[..k])|
  }

  lemma {:induction false} FrameAt(ms: seq<Message>, k: nat)
    requires k < |ms|
    ensures Start(ms, k + 1) == Start(ms, k) + HEADER + |ms[k]| <= |Frames(ms)|
    ensures Frames(ms)[Start(ms, k)..Start(ms, k + 1)] == Frame(ms[k])
    decreases |ms|
  {
    var init, last := ms[..|ms| - 1], ms[|ms| - 1];
    if k == |ms| - 1 {
      assert ms[..k + 1] == ms && ms[..k] == init;
    } else {
      FrameAt(init, k);
      assert init[..k] == ms[..k] && init[..k + 1] == ms[..k + 1] && init[k] == ms[k];
      assert Frames(ms)[Start(ms, k)..Start(ms, k + 1)] == Frames(init)[Start(ms, k)..Start(ms, k + 1)];
    }
  }

  lemma {:induction false} StartsGrow(ms: seq<Message>, i: nat, j: nat)
    requires i <= j <= |ms|
    ensures Start(ms, i) <= Start(ms, j) <= |Frames(ms)|
    ensures i < j ==> Start(ms, i + 1) <= Start(ms, j)
    decreases j - i
  {
    if i < j {
      FrameAt(ms, i);
      StartsGrow(ms, i + 1, j);
    } else if i < |ms| {
      FrameAt(ms, i);
    } else {
      assert ms[..i] == ms;
    }
  }

  // ---------------------------------------------------------------- the machine

  datatype Sending =
    | Between                  // not inside xStreamBufferSend's write
    | WritingHeader(m: Message) // inside the first prvWriteBytesToBuffer
    | HeaderOut(m: Message)    // header published, payload not yet begun
    | WritingBody(m: Message)  // inside the second prvWriteBytesToBuffer

  datatype Receiving =
    | Ready
    | ReadingHeader(room: nat)       // room: xBufferLengthBytes
    | Deciding(room: nat, size: nat) // size: xNextMessageLength
    | ReadingBody(size: nat)

  datatype State = State(
    ring: StreamProtocol.State,
    sending: Sending,
    receiving: Receiving,
    accepted: seq<Message>,   // sends completed, in order
    received: seq<seq<byte>>, // what successful receives returned, in order
    seen: nat                 // how many sends were complete when the reader last looked
  )

  datatype Label =
    | Look                 // the sender computes xSpace
    | Send(m: Message)     // with xSpace >= xRequiredSpace: start writing the header
    | CopyIn
    | Publish
    | BeginBody
    | LookForData          // the receiver computes xBytesAvailable
    | Receive(room: nat)   // with more than a header available: start reading the header
    | CopyOut
    | Take
    | Decide               // compare the length with the room provided

  function RingLabel(s: State, l: Label): StreamProtocol.Label {
    match l
    case Look => WriterLook
    case Send(m) => WriterBegin(Header(|m|))
    case CopyIn => WriterByte
    case Publish => WriterPublish
    case BeginBody => WriterBegin(if s.sending.Between? then [] else s.sending.m)
    case LookForData => ReaderLook
    case Receive(_) => ReaderBegin(HEADER)
    case CopyOut => ReaderByte
    case Take => ReaderPublish
    case Decide =>
      if s.receiving.Deciding? && s.receiving.size <= s.receiving.room
      then ReaderBegin(if s.receiving.size < s.ring.avail then s.receiving.size else s.ring.avail)
      else ReaderRestore
  }

  predicate Guard(s: State, l: Label) {
    match l
    case Look => s.sending.Between?
    case Send(m) => s.sending.Between? && |m| + HEADER <= s.ring.space
    case CopyIn => true
    case Publish => s.sending.WritingHeader? || s.sending.WritingBody?
    case BeginBody => s.sending.HeaderOut?
    case LookForData => s.receiving.Ready?
    case Receive(room) => s.receiving.Ready? && s.ring.avail > HEADER
    case CopyOut => true
    case Take => (s.receiving.ReadingHeader? && s.ring.reader.Reading? && |s.ring.reader.chunk| == HEADER)
                 || s.receiving.ReadingBody?
    case Decide => s.receiving.Deciding?
  }

  // xOriginalTail is saved just before the header is read.
  function Prepared(r: StreamProtocol.State, l: Label): StreamProtocol.State {
    if l.Receive? then r.(originalTail := r.tail, mark := |r.got|) else r
  }

  predicate Enabled(s: State, l: Label) {
    Guard(s, l) && InRange(Prepared(s.ring, l)) && StreamProtocol.Enabled(Prepared(s.ring, l), RingLabel(s, l))
  }

  function Next(s: State, l: Label): State
    requires Enabled(s, l)
  {
    var t := s.(ring := StreamProtocol.Next(Prepared(s.ring, l), RingLabel(s, l)));
    match l
    case Look => t
    case Send(m) => t.(sending := WritingHeader(m))
    case CopyIn => t
    case Publish =>
      if s.sending.WritingHeader? then t.(sending := HeaderOut(s.sending.m))
      else t.(sending := Between, accepted := s.accepted + [s.sending.m])
    case BeginBody => t.(sending := WritingBody(s.sending.m))
    case LookForData => t.(seen := |s.accepted|)
    case Receive(room) => t.(receiving := ReadingHeader(room))
    case CopyOut => t
    case Take =>
      if s.receiving.ReadingHeader?
      then t.(receiving := Deciding(s.receiving.room, Length(s.ring.reader.chunk)))
      else t.(receiving := Ready, received := s.received + [s.ring.reader.chunk])
    case Decide =>
      t.(receiving := if s.receiving.size <= s.receiving.room then ReadingBody(s.receiving.size) else Ready)
  }

  // A message that does not fit the room provided is put back only while that is safe for the ring.
  predicate Safe(s: State, l: Label) {
    SafeStep(Prepared(s.ring, l), RingLabel(s, l))
  }

  // ---------------------------------------------------------------- invariant

  ghost predicate SenderOk(s: State) {
    match s.sending
    case Between => s.ring.writer.WriterIdle? && s.ring.stream == Frames(s.accepted)
    case WritingHeader(m) =>
      s.ring.writer.Writing? && s.ring.writer.data == Header(|m|) && |m| + HEADER <= s.ring.space
      && s.ring.stream == Frames(s.accepted)
    case HeaderOut(m) =>
      s.ring.writer.WriterIdle? && |m| <= s.ring.space && s.ring.stream == Frames(s.accepted) + Header(|m|)
    case WritingBody(m) =>
      s.ring.writer.Writing? && s.ring.writer.data == m && s.ring.stream == Frames(s.accepted) + Header(|m|)
  }

  // The reader's xBytesAvailable ends where some message ends, or at the header after it.
  ghost predicate AtBoundary(s: State) {
    && s.seen <= |s.accepted|
    && (s.ring.avail == 0 ||
        Start(s.accepted, s.seen) <= |s.ring.got| + s.ring.avail <= Start(s.accepted, s.seen) + HEADER)
  }

  ghost predicate ReceiverOk(s: State) {
    var k := |s.received|;
    && k <= |s.accepted| && s.received == s.accepted[..k]
    && AtBoundary(s)
    && match s.receiving
       case Ready => s.ring.reader.ReaderIdle? && |s.ring.got| == Start(s.accepted, k)
       case ReadingHeader(room) =>
         s.ring.reader.Reading? && s.ring.reader.count == HEADER && s.ring.avail > HEADER
         && |s.ring.got| == s.ring.mark == Start(s.accepted, k)
       case Deciding(room, size) =>
         s.ring.reader.ReaderIdle? && k < s.seen && size == |s.accepted[k]| <= s.ring.avail
         && s.ring.mark == Start(s.accepted, k) && |s.ring.got| == Start(s.accepted, k) + HEADER
       case ReadingBody(size) =>
         s.ring.reader.Reading? && k < s.seen && s.ring.reader.count == size == |s.accepted[k]|
         && |s.ring.got| == Start(s.accepted, k) + HEADER
  }

  ghost predicate Inv(s: State) {
    StreamProtocol.Inv(s.ring) && SenderOk(s) && ReceiverOk(s)
  }

  lemma {:induction false} RingKeeps(s: State, l: Label)
    requires Inv(s) && Enabled(s, l) && Safe(s, l)
    ensures StreamProtocol.Inv(Next(s, l).ring)
  {
    if l.Receive? {
      StepKeepsMark(s.ring);
    }
    StreamProtocol.StepKeeps(Prepared(s.ring, l), RingLabel(s, l));
  }

  lemma {:induction false} StepKeepsMark(r: StreamProtocol.State)
    requires StreamProtocol.Inv(r) && r.reader.ReaderIdle?
    ensures StreamProtocol.Inv(r.(originalTail := r.tail, mark := |r.got|))
  {
    StreamProtocol.StepKeeps(r, ReaderMark);
  }

  lemma {:induction false} FramesExtend(ms: seq<Message>, m: Message)
    ensures Frames(ms) + Header(|m|) + m == Frames(ms + [m])
  {
    assert (ms + [m])[..|ms|] == ms;
    assert Frames(ms) + Header(|m|) + m == Frames(ms) + Frame(m);
  }

  lemma {:induction false} StartsExtend(ms: seq<Message>, m: Message, k: nat)
    requires k <= |ms|
    ensures Start(ms + [m], k) == Start(ms, k)
  {
    assert (ms + [m])[..k] == ms[..k];
  }

  lemma {:induction false} PublishKeepsSender(s: State)
    requires SenderOk(s) && Enabled(s, Publish)
    ensures SenderOk(Next(s, Publish))
  {
    if s.sending.WritingBody? {
      FramesExtend(s.accepted, s.sending.m);
    }
  }

  lemma {:induction false} SenderKeeps(s: State, l: Label)
    requires SenderOk(s) && Enabled(s, l)
    ensures SenderOk(Next(s, l))
  {
    match l
    case Look =>
    case Send(m) =>
    case CopyIn =>
    case Publish => PublishKeepsSender(s);
    case BeginBody =>
    case LookForData =>
    case Receive(room) =>
    case CopyOut =>
    case Take =>
    case Decide =>
  }

  // Whatever the writer has published, the complete messages come first.
  lemma {:induction false} FramesLead(s: State)
    requires SenderOk(s)
    ensures Frames(s.accepted) <= s.ring.stream
  {
  }

  // The bytes the reader has copied, when it started inside the stream at `from`.
  lemma {:induction false} ChunkIsSlice(s: State, from: nat)
    requires Received(s.ring) && s.ring.reader.Reading? && |s.ring.got| == from
    ensures from + |s.ring.reader.chunk| <= |s.ring.stream|
    ensures s.ring.reader.chunk == s.ring.stream[from..from + |s.ring.reader.chunk|]
  {
    assert s.ring.got + s.ring.reader.chunk == s.ring.stream[..from + |s.ring.reader.chunk|];
  }

  // More than a header beyond the last message read means that a whole message is there.
  lemma {:induction false} MoreThanHeaderMeansMessage(s: State)
    requires ReceiverOk(s) && s.ring.avail > HEADER && |s.ring.got| == Start(s.accepted, |s.received|)
    ensures |s.received| < s.seen
    ensures HEADER + |s.accepted[|s.received|]| <= s.ring.avail
  {
    var k := |s.received|;
    if s.seen <= k {
      StartsGrow(s.accepted, s.seen, k);
    } else {
      StartsGrow(s.accepted, k, s.seen);
      FrameAt(s.accepted, k);
    }
  }

  lemma {:induction false} TakeHeaderKeeps(s: State)
    requires Received(s.ring) && SenderOk(s) && ReceiverOk(s) && Enabled(s, Take) && s.receiving.ReadingHeader?
    ensures ReceiverOk(Next(s, Take))
  {
    var k := |s.received|;
    MoreThanHeaderMeansMessage(s);
    FramesLead(s);
    FrameAt(s.accepted, k);
    ChunkIsSlice(s, Start(s.accepted, k));
    var frame := Frames(s.accepted)[Start(s.accepted, k)..Start(s.accepted, k + 1)];
    assert s.ring.reader.chunk == frame[..HEADER] == Header(|s.accepted[k]|);
    HeaderRoundTrip(|s.accepted[k]|);
  }

  lemma {:induction false} TakeBodyKeeps(s: State)
    requires Received(s.ring) && SenderOk(s) && ReceiverOk(s) && Enabled(s, Take) && s.receiving.ReadingBody?
    ensures ReceiverOk(Next(s, Take))
  {
    var k := |s.received|;
    FramesLead(s);
    FrameAt(s.accepted, k);
    ChunkIsSlice(s, Start(s.accepted, k) + HEADER);
    var frame := Frames(s.accepted)[Start(s.accepted, k)..Start(s.accepted, k + 1)];
    assert s.ring.reader.chunk == frame[HEADER..] == s.accepted[k];
    assert s.accepted[..k + 1] == s.accepted[..k] + [s.accepted[k]];
  }

  lemma {:induction false} PublishKeepsReceiver(s: State)
    requires SenderOk(s) && ReceiverOk(s) && Enabled(s, Publish)
    ensures ReceiverOk(Next(s, Publish))
  {
    if s.sending.WritingBody? {
      StartsExtend(s.accepted, s.sending.m, |s.received|);
      StartsExtend(s.accepted, s.sending.m, s.seen);
      assert (s.accepted + [s.sending.m])[..|s.received|] == s.accepted[..|s.received|];
    }
  }

  lemma {:induction false} LookKeepsReceiver(s: State)
    requires Inv(s) && Enabled(s, LookForData)
    ensures ReceiverOk(Next(s, LookForData))
  {
    LookKeeps(s.ring, ReaderLook);
    assert s.accepted[..|s.accepted|] == s.accepted;
  }

  lemma {:induction false} DecideKeeps(s: State)
    requires ReceiverOk(s) && Enabled(s, Decide)
    ensures ReceiverOk(Next(s, Decide))
  {
  }

  lemma {:induction false} QuietStepKeeps(s: State, l: Label)
    requires ReceiverOk(s) && Enabled(s, l)
    requires l.Look? || l.Send? || l.CopyIn? || l.BeginBody? || l.Receive? || l.CopyOut?
    ensures ReceiverOk(Next(s, l))
  {
  }

  lemma {:induction false} StepKeeps(s: State, l: Label)
    requires Inv(s) && Enabled(s, l) && Safe(s, l)
    ensures Inv(Next(s, l))
  {
    RingKeeps(s, l);
    SenderKeeps(s, l);
    match l
    case Publish => PublishKeepsReceiver(s);
    case LookForData => LookKeepsReceiver(s);
    case Take => if s.receiving.ReadingHeader? { TakeHeaderKeeps(s); } else { TakeBodyKeeps(s); }
    case Decide => DecideKeeps(s);
    case _ => QuietStepKeeps(s, l);
  }

  // ---------------------------------------------------------------- whole runs

  predicate Initial(s: State) {
    && StreamProtocol.Initial(s.ring) && s.sending.Between? && s.receiving.Ready?
    && s.accepted == [] && s.received == [] && s.seen == 0
  }

  ghost predicate Legal(s: State, ls: seq<Label>)
    decreases |ls|
  {
    ls == [] || (Enabled(s, ls[0]) && Legal(Next(s, ls[0]), ls[1..]))
  }

  ghost function End(s: State, ls: seq<Label>): State
    requires Legal(s, ls)
    decreases |ls|
  {
    if ls == [] then s else End(Next(s, ls[0]), ls[1..])
  }

  // Whenever a message of the run is put back it is safe.
  ghost predicate AllSafe(s: State, ls: seq<Label>)
    requires Legal(s, ls)
    decreases |ls|
  {
    ls == [] || (Safe(s, ls[0]) && AllSafe(Next(s, ls[0]), ls[1..]))
  }

  lemma {:induction false} RunKeepsInv(s: State, ls: seq<Label>)
    requires Inv(s) && Legal(s, ls) && AllSafe(s, ls)
    ensures Inv(End(s, ls))
    decreases |ls|
  {
    if ls != [] {
      StepKeeps(s, ls[0]);
      RunKeepsInv(Next(s, ls[0]), ls[1..]);
    }
  }

  // The messages that the sends of a run were given, in order.
  function Given(ls: seq<Label>): seq<Message> {
    if ls == [] then [] else (if ls[0].Send? then [ls[0].m] else []) + Given(ls[1..])
  }

  function Underway(s: State): seq<Message> {
    if s.sending.Between? then [] else [s.sending.m]
  }

  // What the receives of a run return.
  ghost function Handed(s: State, ls: seq<Label>): seq<seq<byte>>
    requires Legal(s, ls)
    decreases |ls|
  {
    if ls == [] then []
    else
      (if ls[0].Take? && s.receiving.ReadingBody? && s.ring.reader.Reading? then [s.ring.reader.chunk] else [])
      + Handed(Next(s, ls[0]), ls[1..])
  }

  lemma {:induction false} Regroup<T>(a: seq<T>, b: seq<T>, c: seq<T>)
    ensures (a + b) + c == a + (b + c)
    ensures a + [] == [] + a == a
  {
  }

  lemma {:induction false} AcceptedIsGiven(s: State, ls: seq<Label>)
    requires Legal(s, ls)
    ensures End(s, ls).accepted + Underway(End(s, ls)) == (s.accepted + Underway(s)) + Given(ls)
    decreases |ls|
  {
    Regroup(s.accepted + Underway(s), [], []);
    if ls != [] {
      var z := Next(s, ls[0]);
      var m := if ls[0].Send? then [ls[0].m] else [];
      AcceptedIsGiven(z, ls[1..]);
      Regroup(s.accepted, [], m);
      Regroup(z.accepted, [], []);
      assert z.accepted + Underway(z) == (s.accepted + Underway(s)) + m;
      Regroup(s.accepted + Underway(s), m, Given(ls[1..]));
    }
  }

  lemma {:induction false} ReceivedIsHanded(s: State, ls: seq<Label>)
    requires Legal(s, ls)
    ensures End(s, ls).received == s.received + Handed(s, ls)
    decreases |ls|
  {
    if ls == [] {
      Regroup(s.received, [], []);
    } else {
      var z := Next(s, ls[0]);
      var data := if ls[0].Take? && s.receiving.ReadingBody? && s.ring.reader.Reading? then [s.ring.reader.chunk]
                  else [];
      ReceivedIsHanded(z, ls[1..]);
      Regroup(s.received, [], []);
      assert z.received == s.received + data;
      Regroup(s.received, data, Handed(z, ls[1..]));
    }
  }

  // Although header and payload are published separately, every message is received whole: what the
  // receives return is the first of what the sends were given, in order.
  lemma {:induction false} MessagesArriveWhole(start: State, ls: seq<Label>)
    requires Initial(start) && Legal(start, ls) && AllSafe(start, ls)
    ensures End(start, ls).received <= End(start, ls).accepted
    ensures Handed(start, ls) == End(start, ls).received <= Given(ls)
  {
    RunKeepsInv(start, ls);
    AcceptedIsGiven(start, ls);
    ReceivedIsHanded(start, ls);
    Regroup(Given(ls), [], []);
    Regroup(Handed(start, ls), [], []);
    FirstOfFirst(End(start, ls).received, End(start, ls).accepted, Underway(End(start, ls)), Given(ls));
  }

  lemma {:induction false} FirstOfFirst(a: seq<seq<byte>>, b: seq<Message>, c: seq<Message>, all: seq<Message>)
    requires a <= b && b + c == all
    ensures a <= all
  {
    assert all[..|a|] == b[..|a|];
  }

  lemma {:induction false} DecidingState(s: State)
    requires ReceiverOk(s) && InRange(s.ring) && s.receiving.Deciding?
    ensures |s.received| < |s.accepted|
    ensures s.receiving.size == |s.accepted[|s.received|]| <= s.ring.avail
    ensures s.receiving.size <= s.receiving.room ==> Enabled(s, Decide)
  {
    var size := |s.accepted[|s.received|]|;
    assert 0 < size;
  }

  // A reader that has a header never finds part of the payload missing, and a message that fits
  // the room provided is read in full.
  lemma {:induction false} DecisionIsNeverPartial(start: State, ls: seq<Label>)
    requires Initial(start) && Legal(start, ls) && AllSafe(start, ls) && End(start, ls).receiving.Deciding?
    ensures var s := End(start, ls);
            && |s.received| < |s.accepted|
            && s.receiving.size == |s.accepted[|s.received|]| <= s.ring.avail
            && (s.receiving.size <= s.receiving.room ==> Enabled(s, Decide))
  {
    RunKeepsInv(start, ls);
    DecidingState(End(start, ls));
  }

  // ---------------------------------------------------------------- putting a message back

  // When the receiver goes back over a header it has taken, in terms of what is in the stream buffer:
  // the writer may still write its old xSpace, and the header comes back on top of that.
  lemma {:induction false} RollbackSafeIff(s: State)
    requires Inv(s) && s.receiving.Deciding?
    ensures InRange(s.ring)
    ensures Safe(s, Decide) <==>
            || s.receiving.size <= s.receiving.room
            || s.ring.space + HEADER <= SpacesAvailable(|s.ring.buffer|, s.ring.head, s.ring.tail)
  {
    CountIsDistance(|s.ring.got|, |s.ring.stream| - |s.ring.got|, |s.ring.buffer|);
  }

  // That is also exactly when the decision keeps the invariant.
  lemma {:induction false} DecideKeepsIff(s: State)
    requires Inv(s) && s.receiving.Deciding?
    ensures Enabled(s, Decide)
    ensures Inv(Next(s, Decide)) <==>
            || s.receiving.size <= s.receiving.room
            || s.ring.space + HEADER <= SpacesAvailable(|s.ring.buffer|, s.ring.head, s.ring.tail)
  {
    RollbackSafeIff(s);
    DecidingState(s);
    if Safe(s, Decide) {
      StepKeeps(s, Decide);
    } else {
      RestoreKeepsIff(s.ring);
    }
  }

  // With no write under way the receiver gets all bytes from the header on again exactly when a
  // header still fits the stream buffer.
  lemma {:induction false} RollbackGivesBackIff(s: State)
    requires Inv(s) && s.receiving.Deciding? && s.ring.writer.WriterIdle?
    ensures InRange(s.ring) && InRange(Restored(s.ring))
    ensures Unread(Restored(s.ring)) == s.ring.stream[s.ring.mark..] <==>
            HEADER <= SpacesAvailable(|s.ring.buffer|, s.ring.head, s.ring.tail)
  {
    CountIsDistance(|s.ring.got|, |s.ring.stream| - |s.ring.got|, |s.ring.buffer|);
    RestoreGivesBackIff(s.ring);
  }

  ghost predicate Reachable(s: State) {
    exists start, ls :: Initial(start) && Legal(start, ls) && AllSafe(start, ls) && End(start, ls) == s
  }

  lemma {:induction false} LegalOn(s: State, ls: seq<Label>, l: Label)
    requires Legal(s, ls) && AllSafe(s, ls) && Enabled(End(s, ls), l) && Safe(End(s, ls), l)
    ensures Legal(s, ls + [l]) && AllSafe(s, ls + [l]) && End(s, ls + [l]) == Next(End(s, ls), l)
    decreases |ls|
  {
    if ls == [] {
      assert [l][1..] == [] && Legal(Next(s, l), []);
    } else {
      LegalOn(Next(s, ls[0]), ls[1..], l);
      assert (ls + [l])[1..] == ls[1..] + [l];
    }
  }

  lemma {:induction false} ReachInitial(s: State)
    requires Initial(s)
    ensures Reachable(s)
  {
    assert Legal(s, []) && AllSafe(s, []) && End(s, []) == s;
  }

  lemma {:induction false} ReachNext(s: State, l: Label)
    requires Reachable(s) && Enabled(s, l) && !l.Decide?
    ensures Reachable(Next(s, l))
  {
    var start, ls :| Initial(start) && Legal(start, ls) && AllSafe(start, ls) && End(start, ls) == s;
    LegalOn(start, ls, l);
    assert Legal(start, ls + [l]);
  }

  lemma {:induction false} ReachInv(s: State)
    requires Reachable(s)
    ensures Inv(s)
  {
    var start, ls :| Initial(start) && Legal(start, ls) && AllSafe(start, ls) && End(start, ls) == s;
    RunKeepsInv(start, ls);
  }

  lemma {:induction false} ReachRange(s: State)
    requires Reachable(s)
    ensures InRange(s.ring)
    ensures s.sending.Between? || s.sending.HeaderOut? ==> s.ring.writer.WriterIdle?
    ensures s.receiving.Ready? || s.receiving.Deciding? ==> s.ring.reader.ReaderIdle?
    ensures s.sending.HeaderOut? ==> |s.sending.m| <= s.ring.space
  {
    ReachInv(s);
  }

  lemma {:induction false} ReachLook(s: State)
    requires Reachable(s)
    ensures InRange(s.ring) && |s.ring.got| <= |s.ring.stream| < |s.ring.got| + |s.ring.buffer|
    ensures BytesInBuffer(|s.ring.buffer|, s.ring.head, s.ring.tail) == |s.ring.stream| - |s.ring.got|
  {
    ReachInv(s);
    CountIsDistance(|s.ring.got|, |s.ring.stream| - |s.ring.got|, |s.ring.buffer|);
  }

  // The sender copies all bytes of its write.
  lemma {:induction false} CopyAll(s: State) returns (z: State)
    requires Reachable(s) && s.ring.writer.Writing?
    ensures Reachable(z) && |z.ring.buffer| == |s.ring.buffer|
    ensures z == s.(ring := s.ring.(buffer := z.ring.buffer,
                                    writer := Writing(s.ring.writer.data, |s.ring.writer.data|)))
    decreases if s.ring.writer.Writing? then |s.ring.writer.data| - s.ring.writer.done else 0
  {
    ReachRange(s);
    if s.ring.writer.done == |s.ring.writer.data| {
      z := s;
    } else {
      ReachNext(s, CopyIn);
      z := CopyAll(Next(s, CopyIn));
    }
  }

  // The ring as the receiver sees it stays, and n more bytes are published.
  predicate Published(r: StreamProtocol.State, z: StreamProtocol.State, n: nat) {
    && |z.stream| == |r.stream| + n && z.got == r.got && z.mark == r.mark && |z.buffer| == |r.buffer|
  }

  lemma {:induction false} SendHeader(s: State, m: Message) returns (z: State)
    requires Reachable(s) && s.sending.Between?
    requires HEADER + |m| + (|s.ring.stream| - |s.ring.got|) < |s.ring.buffer|
    ensures Reachable(z) && z == s.(ring := z.ring, sending := HeaderOut(m)) && Published(s.ring, z.ring, HEADER)
  {
    ReachRange(s);
    ReachLook(s);
    ReachNext(s, Look);
    var s1 := Next(s, Look);
    ReachNext(s1, Send(m));
    var s2 := CopyAll(Next(s1, Send(m)));
    ReachRange(s2);
    ReachNext(s2, Publish);
    z := Next(s2, Publish);
  }

  lemma {:induction false} SendBody(s: State, m: Message) returns (z: State)
    requires Reachable(s) && s.sending == HeaderOut(m)
    ensures Reachable(z) && z == s.(ring := z.ring, sending := Between, accepted := s.accepted + [m])
    ensures Published(s.ring, z.ring, |m|)
  {
    ReachRange(s);
    ReachNext(s, BeginBody);
    var s1 := CopyAll(Next(s, BeginBody));
    ReachRange(s1);
    ReachNext(s1, Publish);
    z := Next(s1, Publish);
  }

  lemma {:induction false} SendWhole(s: State, m: Message) returns (z: State)
    requires Reachable(s) && s.sending.Between?
    requires HEADER + |m| + (|s.ring.stream| - |s.ring.got|) < |s.ring.buffer|
    ensures Reachable(z) && z == s.(ring := z.ring, accepted := s.accepted + [m])
    ensures Published(s.ring, z.ring, HEADER + |m|)
  {
    var s1 := SendHeader(s, m);
    z := SendBody(s1, m);
  }

  // The receiver copies the bytes of its read.
  lemma {:induction false} CopyOutAll(s: State) returns (z: State)
    requires Reachable(s) && s.ring.reader.Reading?
    ensures Reachable(z) && z.ring.reader.Reading? && |z.ring.reader.chunk| == s.ring.reader.count
    ensures z == s.(ring := s.ring.(reader := Reading(s.ring.reader.count, z.ring.reader.chunk)))
    decreases if s.ring.reader.Reading? then s.ring.reader.count - |s.ring.reader.chunk| else 0
  {
    ReachRange(s);
    if |s.ring.reader.chunk| == s.ring.reader.count {
      z := s;
    } else {
      ReachNext(s, CopyOut);
      z := CopyOutAll(Next(s, CopyOut));
    }
  }

  // A receiver with some room takes the header of the next message.
  lemma {:induction false} TakeHeader(s: State, room: nat) returns (z: State)
    requires Reachable(s) && s.receiving.Ready? && HEADER < |s.ring.stream| - |s.ring.got|
    ensures Reachable(z) && z.receiving.Deciding? && z.receiving.room == room
    ensures z.ring.mark == |s.ring.got| && |z.ring.got| == |s.ring.got| + HEADER
    ensures z.ring.stream == s.ring.stream && |z.ring.buffer| == |s.ring.buffer|
    ensures z.sending == s.sending && z.accepted == s.accepted && z.received == s.received
  {
    ReachRange(s);
    ReachLook(s);
    ReachNext(s, LookForData);
    var s1 := Next(s, LookForData);
    ReachNext(s1, Receive(room));
    var s2 := CopyOutAll(Next(s1, Receive(room)));
    ReachRange(s2);
    ReachNext(s2, Take);
    z := Next(s2, Take);
  }

  // A message is sent, a receive that has not room enough for it takes its header, and a second
  // message is sent into the space that has become free.
  lemma {:induction false} RollbackPending(start: State, m1: Message, m2: Message, room: nat) returns (z: State)
    requires Initial(start) && 5 + |m1| + |m2| <= |start.ring.buffer|
    ensures Reachable(z) && z.receiving.Deciding? && z.receiving.room == room
    ensures z.accepted == [m1, m2] && z.received == [] && z.sending.Between?
    ensures Published(start.ring, z.ring.(got := []), 2 * HEADER + |m1| + |m2|)
  {
    ReachInitial(start);
    var s1 := SendWhole(start, m1);
    var s2 := TakeHeader(s1, room);
    z := SendWhole(s2, m2);
  }

  // If that makes the buffer so full that no header fits, going back over the header loses exactly one
  // storage area of what had been accepted: [1, 2] and [3] in 8 bytes with a room of one, for example.
  lemma {:induction false} RollbackLosesBytes(start: State, m1: Message, m2: Message, room: nat)
    requires Initial(start) && room < |m1|
    requires 5 + |m1| + |m2| <= |start.ring.buffer| <= 8 + |m1| + |m2|
    ensures exists z ::
      && Reachable(z) && z.receiving == Deciding(room, |m1|) && z.accepted == [m1, m2]
      && Enabled(z, Decide) && !Safe(z, Decide) && InRange(z.ring) && InRange(Next(z, Decide).ring)
      && |Unread(Next(z, Decide).ring)| + |start.ring.buffer| == |Frames([m1, m2])| == |z.ring.stream|
  {
    var z := RollbackPending(start, m1, m2, room);
    PendingState(z);
    WrapsOnce(z.ring);
  }

  lemma {:induction false} PendingState(z: State)
    requires Reachable(z) && z.receiving.Deciding? && z.received == []
    ensures StreamProtocol.Inv(z.ring) && z.ring.reader.ReaderIdle?
    ensures z.accepted != [] && z.receiving.size == |z.accepted[0]|
    ensures z.sending.Between? ==> z.ring.stream == Frames(z.accepted)
  {
    ReachInv(z);
  }

  // After going back the indices are as if the first storage area of bytes had never been sent.
  lemma {:induction false} WrapsOnce(r: StreamProtocol.State)
    requires StreamProtocol.Inv(r) && r.reader.ReaderIdle? && r.mark == 0
    requires |r.buffer| <= |r.stream| < 2 * |r.buffer|
    ensures InRange(r) && InRange(Restored(r)) && |Unread(Restored(r))| == |r.stream| - |r.buffer|
  {
    var rest := |r.stream| - |r.buffer|;
    assert r.head == Slot(|r.stream|, |r.buffer|) == Slot(rest, |r.buffer|) == rest;
  }
}
