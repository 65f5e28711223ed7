/**
  A device with registers on the bus of module SoftI2c, as a function of what has been heard, and the
  round trip of i2c_write and i2c_read through it.
 */
module SoftI2cDevice {
  import opened Bytes
  import opened SoftI2c

  // The bytes since the last start condition and whether all of them were acknowledged; the register
  // addressed last; and for each register the bytes of the last acknowledged write to it.
  datatype Memory = Memory(current: seq<byte>, acked: bool, register: byte, blocks: map<byte, seq<byte>>)

  // The first byte after a start condition is an address, the second one of a write to this device
  // addresses a register, and the bytes after it are stored by the stop condition.
  function Remember(hwAddress: byte, m: Memory, u: Unit): Memory {
    match u
    case S => m.(current := [], acked := true)
    case Byte(value, ack) =>
      Memory(m.current + [value], m.acked && ack,
             if |m.current| == 1 && m.current[0] == hwAddress && m.acked && ack then value else m.register, m.blocks)
    case P =>
      Memory([], true, m.register,
             if |m.current| > 2 && m.current[0] == hwAddress && m.acked then m.blocks[m.current[1] := m.current[2..]]
             else m.blocks)
  }

  // After the first n units.
  function MemoryAt(hwAddress: byte, units: seq<Unit>, n: nat): Memory
    requires n <= |units|
  {
    if n == 0 then Memory([], true, 0, map[])
    else Remember(hwAddress, MemoryAt(hwAddress, units, n - 1), units[n - 1])
  }

  function MemoryOf(hwAddress: byte, units: seq<Unit>): Memory {
    MemoryAt(hwAddress, units, |units|)
  }

  // The byte that is next when the device is read: those of the block in order, then nothing but ones.
  function Served(hwAddress: byte, units: seq<Unit>): byte {
    var m := MemoryOf(hwAddress, units);
    if m.register in m.blocks && 0 < |m.current| <= |m.blocks[m.register]| then m.blocks[m.register][|m.current| - 1]
    else 255
  }

  // In situation h the slave puts these bits on the line, one after the other.
  ghost predicate SendsAll(slave: Slave, h: Heard, bits: seq<bool>) {
    forall n :: 0 <= n < |bits| ==> (h.(bits := bits[..n]) in slave) == !bits[n]
  }

  ghost predicate Sends(slave: Slave, h: Heard, b: byte) {
    SendsAll(slave, h, BitsOf(b, 8))
  }

  predicate IsRead(hwAddress: byte, h: Heard) {
    && h.sending && !h.started && h.bits == []
    && var m := MemoryOf(hwAddress, h.units); m.current != [] && m.current[0] == With(hwAddress, READ)
  }

  // Whenever the device is read it sends back what it has stored.
  ghost predicate Replays(slave: Slave, hwAddress: byte) {
    forall h :: IsRead(hwAddress, h) ==> Sends(slave, h, Served(hwAddress, h.units))
  }

  lemma {:induction false} SendsBits(slave: Slave, h: Heard, bits: seq<bool>, n: nat)
    requires SendsAll(slave, h, bits) && n <= |bits|
    ensures SlaveBits(slave, h, n) == bits[..n]
  {
    if n > 0 {
      SendsBits(slave, h, bits, n - 1);
      SlaveBitsOn(slave, h, n - 1);
      assert bits[..n] == bits[..n - 1] + [bits[n - 1]];
    }
  }

  lemma {:induction false} SendsServes(slave: Slave, h: Heard, b: byte)
    requires Sends(slave, h, b)
    ensures ServedByte(slave, h) == b
  {
    SendsBits(slave, h, BitsOf(b, 8), 8);
    assert BitsOf(b, 8)[..8] == BitsOf(b, 8);
    SentIsHeard(b);
  }

  // ---------------------------------------------------------------- what a transfer leaves in the memory

  lemma {:induction false} MemoryOn(hwAddress: byte, units: seq<Unit>, u: Unit)
    ensures MemoryOf(hwAddress, units + [u]) == Remember(hwAddress, MemoryOf(hwAddress, units), u)
  {
    MemoryAtPrefix(hwAddress, units, u, |units|);
  }

  lemma {:induction false} MemoryAtPrefix(hwAddress: byte, units: seq<Unit>, u: Unit, n: nat)
    requires n <= |units|
    ensures MemoryAt(hwAddress, units + [u], n) == MemoryAt(hwAddress, units, n)
  {
    if n > 0 {
      MemoryAtPrefix(hwAddress, units, u, n - 1);
    }
  }

  // What bytes that are heard one after the other make of a memory.
  predicate Appended(hwAddress: byte, m: Memory, body: seq<Unit>, values: seq<byte>, after: Memory) {
    && after.current == m.current + values && after.acked == (m.acked && Acknowledged(body))
    && after.blocks == m.blocks
    && (m.current != [] && m.current[0] != hwAddress ==> after.register == m.register)
  }

  lemma {:induction false} AppendedOn(hwAddress: byte, m: Memory, body: seq<Unit>, values: seq<byte>, after: Memory,
                                    u: Unit)
    requires Appended(hwAddress, m, body, values, after) && u.Byte?
    ensures Appended(hwAddress, m, body + [u], values + [u.value], Remember(hwAddress, after, u))
  {
    AcknowledgedOn(body, u);
    assert m.current + (values + [u.value]) == (m.current + values) + [u.value];
  }

  lemma {:induction false} MemoryAfterBytes(hwAddress: byte, units: seq<Unit>, body: seq<Unit>, values: seq<byte>)
    requires Carries(body, values)
    ensures Appended(hwAddress, MemoryOf(hwAddress, units), body, values, MemoryOf(hwAddress, units + body))
    decreases |body|
  {
    if body == [] {
      assert units + body == units;
    } else {
      var init, vs, u := body[..|body| - 1], values[..|body| - 1], body[|body| - 1];
      MemoryAfterBytes(hwAddress, units, init, vs);
      MemoryOn(hwAddress, units + init, u);
      AppendedOn(hwAddress, MemoryOf(hwAddress, units), init, vs, MemoryOf(hwAddress, units + init), u);
      UnitsOn(units, init, u);
      assert body == init + [u] && values == vs + [u.value];
    }
  }

  function Values(body: seq<Unit>): (values: seq<byte>)
    requires forall i :: 0 <= i < |body| ==> body[i].Byte?
    ensures Carries(body, values)
  {
    seq(|body|, i requires 0 <= i < |body| => body[i].value)
  }

  // A stop condition stores the bytes since the start condition if they were all acknowledged.
  lemma {:induction false} Commits(hwAddress: byte, units: seq<Unit>, body: seq<Unit>, values: seq<byte>)
    requires Carries(body, values) && |values| > 2
    ensures var m := MemoryOf(hwAddress, units);
      MemoryOf(hwAddress, units + [S] + body + [P]).blocks
      == if Acknowledged(body) && values[0] == hwAddress then m.blocks[values[1] := values[2..]] else m.blocks
  {
    MemoryOn(hwAddress, units, S);
    MemoryAfterBytes(hwAddress, units + [S], body, values);
    MemoryOn(hwAddress, units + [S] + body, P);
    assert [] + values == values;
  }

  // An attempt to write stores its data if it was acknowledged as a whole, and nothing otherwise.
  lemma {:induction false} WriteStores(slave: Slave, hwAddress: byte, units: seq<Unit>, to: byte, regAddress: byte,
                                     data: seq<byte>)
    requires Behaves(slave) && data != []
    ensures var a := Once(slave, units, WriteCall(to, regAddress, data));
      var m := MemoryOf(hwAddress, units);
      MemoryOf(hwAddress, units + [S] + a.body + [P]).blocks
      == if a.ok && to == hwAddress then m.blocks[regAddress := Reversed(data)] else m.blocks
  {
    var body := WriteBody(slave, units, to, regAddress, data);
    DecodedAsWrittenIff(slave, units, to, regAddress, data);
    Commits(hwAddress, units, body, Values(body));
    if Acknowledged(body) {
      OneReading(body, Values(body), [to, regAddress] + Reversed(data));
      assert ([to, regAddress] + Reversed(data))[2..] == Reversed(data);
    }
  }

  lemma {:induction false} OneReading(units: seq<Unit>, a: seq<byte>, b: seq<byte>)
    requires Carries(units, a) && Carries(units, b)
    ensures a == b
  {
  }

  // Addressing a device for reading starts the bytes at its register again.
  lemma {:induction false} Addressed(slave: Slave, hwAddress: byte, units: seq<Unit>, from: byte, regAddress: byte)
    requires Behaves(slave) && hwAddress as int % 2 == 0
    ensures var address := ReadAddress(slave, units, from, regAddress);
      var m := MemoryOf(hwAddress, units + [S] + address);
      && m.current == [With(from, READ)] && m.blocks == MemoryOf(hwAddress, units).blocks
      && (from == hwAddress && Acknowledged(address) ==> m.register == regAddress)
  {
    var address := ReadAddress(slave, units, from, regAddress);
    var sent, u := address[..2], address[3];
    WrittenAs(slave, Begun(units + [S] + sent), With(from, READ));
    RegisterSet(hwAddress, units, sent);
    DecodedAsWrittenIff(slave, units, from, regAddress, []);
    assert [With(from, WRITE), regAddress] + Reversed([]) == [With(from, WRITE), regAddress];
    assert sent == WriteBody(slave, units, from, regAddress, []);
    MemoryOn(hwAddress, units + [S] + sent, S);
    MemoryOn(hwAddress, units + [S] + sent + [S], u);
    assert units + [S] + sent + [S] + [u] == units + [S] + address;
    if from == hwAddress && Acknowledged(address) {
      assert address[0].ack && address[1].ack;
    }
  }

  lemma {:induction false} RegisterSet(hwAddress: byte, units: seq<Unit>, sent: seq<Unit>)
    requires |sent| == 2 && sent[0].Byte? && sent[1].Byte?
    ensures var m := MemoryOf(hwAddress, units + [S] + sent);
      && m.blocks == MemoryOf(hwAddress, units).blocks
      && (sent[0] == Byte(hwAddress, true) && sent[1].ack ==> m.register == sent[1].value)
  {
    MemoryOn(hwAddress, units, S);
    MemoryOn(hwAddress, units + [S], sent[0]);
    MemoryOn(hwAddress, units + [S] + [sent[0]], sent[1]);
    assert units + [S] + [sent[0]] + [sent[1]] == units + [S] + sent;
  }

  // Reading changes nothing that is stored, whether it succeeds or not.
  lemma {:induction false} ReadKeeps(slave: Slave, hwAddress: byte, units: seq<Unit>, from: byte, regAddress: byte,
                                   size: nat)
    requires Behaves(slave) && hwAddress as int % 2 == 0
    ensures var body := ReadBody(slave, units, from, regAddress, size);
      MemoryOf(hwAddress, units + [S] + body + [P]).blocks == MemoryOf(hwAddress, units).blocks
  {
    var address := ReadAddress(slave, units, from, regAddress);
    var got := Replies(slave, Reading(units, address), size);
    Addressed(slave, hwAddress, units, from, regAddress);
    Regrouped(units, address, got);
    NothingCommitted(hwAddress, units + [S] + address, got, units + [S] + (address + got) + [P]);
  }

  lemma {:induction false} Regrouped(units: seq<Unit>, address: seq<Unit>, got: seq<Unit>)
    ensures units + [S] + (address + got) + [P] == ((units + [S] + address) + got) + [P]
  {
  }

  // The bytes of another transfer than a write to the device.
  lemma {:induction false} NothingCommitted(hwAddress: byte, units: seq<Unit>, got: seq<Unit>, all: seq<Unit>)
    requires (forall i :: 0 <= i < |got| ==> got[i].Byte?) && all == (units + got) + [P]
    requires MemoryOf(hwAddress, units).current != [] && MemoryOf(hwAddress, units).current[0] != hwAddress
    ensures MemoryOf(hwAddress, all).blocks == MemoryOf(hwAddress, units).blocks
  {
    MemoryAfterBytes(hwAddress, units, got, Values(got));
    MemoryOn(hwAddress, units + got, P);
  }

  lemma {:induction false} ResetKeeps(hwAddress: byte, units: seq<Unit>)
    ensures MemoryOf(hwAddress, units + RESET_UNITS).blocks == MemoryOf(hwAddress, units).blocks
  {
    var started := units + [S];
    var clocked := started + [Byte(255, false)];
    MemoryOn(hwAddress, units, S);
    MemoryOn(hwAddress, started, Byte(255, false));
    MemoryOn(hwAddress, clocked, S);
    ResetSplits(units, started, clocked);
  }

  lemma {:induction false} ResetSplits(units: seq<Unit>, started: seq<Unit>, clocked: seq<Unit>)
    requires started == units + [S] && clocked == started + [Byte(255, false)]
    ensures units + RESET_UNITS == clocked + [S]
  {
  }

  lemma {:induction false} AttemptKeeps(slave: Slave, hwAddress: byte, units: seq<Unit>, c: Call,
                                      before: seq<Attempt>, a: Attempt)
    requires Behaves(slave) && hwAddress as int % 2 == 0 && c.ReadCall?
    requires a.body == ReadBody(slave, units + Sounds(before), c.hwAddress, c.regAddress, c.size)
    ensures MemoryOf(hwAddress, units + Sounds(before + [a])).blocks
         == MemoryOf(hwAddress, units + Sounds(before)).blocks
  {
    var base := units + Sounds(before);
    ReadKeeps(slave, hwAddress, base, c.hwAddress, c.regAddress, c.size);
    SoundsOn(units, before, a);
    ResetKeeps(hwAddress, base + [S] + a.body + [P]);
    assert base + [S] + a.body + [P] + [] == base + [S] + a.body + [P];
  }

  lemma {:induction false} EachInit(slave: Slave, units: seq<Unit>, c: Call, init: seq<Attempt>, a: Attempt)
    requires Each(slave, units, c, init + [a])
    ensures Each(slave, units, c, init) && a == Once(slave, units + Sounds(init), c)
  {
    var all := init + [a];
    assert all[..|init|] == init && all[|init|] == a;
    forall k | 0 <= k < |init| ensures init[k] == Once(slave, units + Sounds(init[..k]), c) {
      assert all[..k] == init[..k] && all[k] == init[k];
    }
  }

  lemma {:induction false} EachSplit(slave: Slave, units: seq<Unit>, c: Call, attempts: seq<Attempt>)
    returns (init: seq<Attempt>, a: Attempt)
    requires Each(slave, units, c, attempts) && attempts != []
    ensures attempts == init + [a] && a == Once(slave, units + Sounds(init), c) && Each(slave, units, c, init)
    ensures a == attempts[|attempts| - 1]
  {
    init, a := attempts[..|attempts| - 1], attempts[|attempts| - 1];
    assert attempts == init + [a];
    EachInit(slave, units, c, init, a);
  }

  // All attempts of a call of i2c_read leave what is stored as it was.
  lemma {:induction false} AttemptsKeep(slave: Slave, hwAddress: byte, units: seq<Unit>, c: Call,
                                      attempts: seq<Attempt>)
    requires Behaves(slave) && hwAddress as int % 2 == 0 && c.ReadCall? && Each(slave, units, c, attempts)
    ensures MemoryOf(hwAddress, units + Sounds(attempts)).blocks == MemoryOf(hwAddress, units).blocks
    decreases |attempts|
  {
    if attempts == [] {
      assert units + [] == units;
    } else {
      var init, a := EachSplit(slave, units, c, attempts);
      AttemptsKeep(slave, hwAddress, units, c, init);
      AttemptKeeps(slave, hwAddress, units, c, init, a);
    }
  }

  // After a call of i2c_write that returns true its data is stored.
  lemma {:induction false} CallStores(slave: Slave, units: seq<Unit>, hwAddress: byte, regAddress: byte,
                                    data: seq<byte>, attempts: seq<Attempt>)
    requires Behaves(slave) && data != []
    requires Called(slave, units, WriteCall(hwAddress, regAddress, data), attempts, true)
    ensures var m := MemoryOf(hwAddress, units + Sounds(attempts));
      regAddress in m.blocks && m.blocks[regAddress] == Reversed(data)
  {
    var init, a := EachSplit(slave, units, WriteCall(hwAddress, regAddress, data), attempts);
    var base := units + Sounds(init);
    WriteStores(slave, hwAddress, base, hwAddress, regAddress, data);
    SoundsOn(units, init, a);
    assert base + [S] + a.body + [P] + [] == base + [S] + a.body + [P];
  }

  // ---------------------------------------------------------------- what a read returns

  lemma {:induction false} TakenAsAsked(slave: Slave, h: Heard, ack: bool)
    requires Behaves(slave) && h.sending
    ensures Taken(slave, h, ack).ack == ack
  {
  }

  // A device that replays sends the bytes of its block from where the reader has come to.
  lemma {:induction false} RepliesGiveBlock(slave: Slave, hwAddress: byte, h: Heard, n: nat, block: seq<byte>)
    requires Behaves(slave) && Replays(slave, hwAddress) && hwAddress as int % 2 == 0 && IsRead(hwAddress, h)
    requires Holds(hwAddress, h.units, block) && |MemoryOf(hwAddress, h.units).current| - 1 + n <= |block|
    ensures var i := |MemoryOf(hwAddress, h.units).current| - 1;
      Carries(Replies(slave, h, n), block[i..i + n])
    decreases n
  {
    if n > 0 {
      var u := Taken(slave, h, n > 1);
      ReplyGivesByte(slave, hwAddress, h, n > 1, block);
      if n > 1 {
        RepliesGiveBlock(slave, hwAddress, Hear(h, u), n - 1, block);
      }
      var rest := Replies(slave, Hear(h, u), n - 1);
      assert Replies(slave, h, n) == [u] + rest;
      Prepended(u, rest, block, |MemoryOf(hwAddress, h.units).current| - 1, n);
    }
  }

  // The register that is being read holds this block.
  predicate Holds(hwAddress: byte, units: seq<Unit>, block: seq<byte>) {
    var m := MemoryOf(hwAddress, units);
    m.register in m.blocks && m.blocks[m.register] == block
  }

  lemma {:induction false} ReplyGivesByte(slave: Slave, hwAddress: byte, h: Heard, ack: bool, block: seq<byte>)
    requires Behaves(slave) && Replays(slave, hwAddress) && hwAddress as int % 2 == 0 && IsRead(hwAddress, h)
    requires Holds(hwAddress, h.units, block) && |MemoryOf(hwAddress, h.units).current| <= |block|
    ensures var u, i := Taken(slave, h, ack), |MemoryOf(hwAddress, h.units).current| - 1;
      && u.value == block[i] && Holds(hwAddress, Hear(h, u).units, block)
      && |MemoryOf(hwAddress, Hear(h, u).units).current| == i + 2 && (ack ==> IsRead(hwAddress, Hear(h, u)))
  {
    var u := Taken(slave, h, ack);
    assert Sends(slave, h, Served(hwAddress, h.units));
    SendsServes(slave, h, Served(hwAddress, h.units));
    TakenAsAsked(slave, h, ack);
    MemoryOn(hwAddress, h.units, u);
  }

  lemma {:induction false} Prepended(u: Unit, rest: seq<Unit>, block: seq<byte>, i: nat, n: nat)
    requires 0 < n && i + n <= |block| && u.Byte? && u.value == block[i]
    requires Carries(rest, block[i + 1..i + n])
    ensures Carries([u] + rest, block[i..i + n])
  {
    assert block[i..i + n] == [block[i]] + block[i + 1..i + n];
  }

  // An acknowledged attempt to read returns the block of the register.
  lemma {:induction false} ReadReturns(slave: Slave, hwAddress: byte, units: seq<Unit>, regAddress: byte, size: nat)
    requires Behaves(slave) && Replays(slave, hwAddress) && hwAddress as int % 2 == 0
    requires var m := MemoryOf(hwAddress, units); regAddress in m.blocks && size <= |m.blocks[regAddress]|
    ensures var a := Once(slave, units, ReadCall(hwAddress, regAddress, size));
      a.ok ==> Carries(a.body[4..], MemoryOf(hwAddress, units).blocks[regAddress][..size])
  {
    var a := Once(slave, units, ReadCall(hwAddress, regAddress, size));
    var address := ReadAddress(slave, units, hwAddress, regAddress);
    var block := MemoryOf(hwAddress, units).blocks[regAddress];
    assert a.body[..4] == address;
    if a.ok {
      Addressed(slave, hwAddress, units, hwAddress, regAddress);
      assert address[3].ack;
      RepliesGiveBlock(slave, hwAddress, Reading(units, address), size, block);
      assert a.body[4..] == Replies(slave, Reading(units, address), size);
    }
  }

  // A call of i2c_read that returns true, when the block of the register is as long as the array.
  lemma {:induction false} CallReturns(slave: Slave, units: seq<Unit>, hwAddress: byte, regAddress: byte,
                                     data: seq<byte>, attempts: seq<Attempt>)
    requires Behaves(slave) && Replays(slave, hwAddress) && hwAddress as int % 2 == 0
    requires Called(slave, units, ReadCall(hwAddress, regAddress, |data|), attempts, true)
    requires LastFilled(attempts, data)
    requires var m := MemoryOf(hwAddress, units); regAddress in m.blocks && |m.blocks[regAddress]| == |data|
    ensures Reversed(data) == MemoryOf(hwAddress, units).blocks[regAddress]
  {
    var c := ReadCall(hwAddress, regAddress, |data|);
    var init, a := EachSplit(slave, units, c, attempts);
    AttemptsKeep(slave, hwAddress, units, c, init);
    ReadReturns(slave, hwAddress, units + Sounds(init), regAddress, |data|);
    SameValues(a.body[4..], Reversed(data), MemoryOf(hwAddress, units).blocks[regAddress]);
  }

  lemma {:induction false} SameValues(units: seq<Unit>, a: seq<byte>, b: seq<byte>)
    requires |a| == |b| && Carries(units, a) && Carries(units, b[..|a|])
    ensures a == b
  {
    assert b[..|a|] == b;
  }

  lemma {:induction false} ReversedTwice(a: seq<byte>, b: seq<byte>)
    requires Reversed(a) == Reversed(b)
    ensures a == b
  {
    forall i | 0 <= i < |a| ensures a[i] == b[i] {
      assert Reversed(a)[|a| - 1 - i] == a[i] && Reversed(b)[|a| - 1 - i] == b[i];
    }
  }

  // ---------------------------------------------------------------- a device that replays

  // It answers to its two addresses, acknowledges what is written to it, and sends what it has stored.
  predicate Pulls(hwAddress: byte, h: Heard) {
    if h.sending then |h.bits| < 8 && !BitsOf(Served(hwAddress, h.units), 8)[|h.bits|]
    else
      && |h.bits| == 8
      && if h.started then h.bits == BitsOf(hwAddress, 8) || h.bits == BitsOf(With(hwAddress, READ), 8)
         else var m := MemoryOf(hwAddress, h.units); m.current != [] && m.current[0] == hwAddress
  }

  ghost function Device(hwAddress: byte): Slave {
    iset h: Heard | Pulls(hwAddress, h)
  }

  // So there are slaves to which the round trip applies, at every address but the reserved one.
  lemma {:induction false} DeviceReplays(hwAddress: byte)
    requires hwAddress as int % 2 == 0 && hwAddress < 254
    ensures Behaves(Device(hwAddress)) && Replays(Device(hwAddress), hwAddress)
  {
    var slave := Device(hwAddress);
    SentIsHeard(hwAddress);
    SentIsHeard(With(hwAddress, READ));
    OnesAre255();
    forall h | IsRead(hwAddress, h) ensures Sends(slave, h, Served(hwAddress, h.units)) {
      DeviceSends(hwAddress, h, BitsOf(Served(hwAddress, h.units), 8));
    }
  }

  lemma {:induction false} DeviceSends(hwAddress: byte, h: Heard, bits: seq<bool>)
    requires h.sending && bits == BitsOf(Served(hwAddress, h.units), 8)
    ensures SendsAll(Device(hwAddress), h, bits)
  {
  }

  // The device acknowledges everything that is written to it.
  lemma {:induction false} DeviceAnswers(hwAddress: byte, h: Heard, values: seq<byte>)
    requires hwAddress as int % 2 == 0 && hwAddress < 254 && !h.sending && !h.started
    requires MemoryOf(hwAddress, h.units).current != [] && MemoryOf(hwAddress, h.units).current[0] == hwAddress
    ensures Acknowledged(Exchange(Device(hwAddress), h, values))
    decreases |values|
  {
    if values != [] {
      var u := Written(Device(hwAddress), h, values[0]);
      MemoryOn(hwAddress, h.units, u);
      DeviceAnswers(hwAddress, Hear(h, u), values[1..]);
    }
  }

  // Addressed for writing or for reading after a start condition.
  lemma {:induction false} DeviceAddressed(hwAddress: byte, units: seq<Unit>, direction: byte)
    requires hwAddress as int % 2 == 0 && hwAddress < 254 && direction <= 1
    ensures var u := Written(Device(hwAddress), Begun(units), With(hwAddress, direction));
      && u == Byte(With(hwAddress, direction), true)
      && MemoryOf(hwAddress, units + [S] + [u]).current == [With(hwAddress, direction)]
  {
    var slave, h := Device(hwAddress), Begun(units);
    var u := Written(slave, h, With(hwAddress, direction));
    DeviceReplays(hwAddress);
    WrittenAs(slave, h, With(hwAddress, direction));
    MixedExact(slave, h, BitsOf(With(hwAddress, direction), 8));
    MemoryOn(hwAddress, units, S);
    MemoryOn(hwAddress, units + [S], u);
  }

  lemma {:induction false} DeviceAcknowledges(hwAddress: byte, units: seq<Unit>, values: seq<byte>)
    requires hwAddress as int % 2 == 0 && hwAddress < 254
    ensures Acknowledged(Exchange(Device(hwAddress), Begun(units), [With(hwAddress, WRITE)] + values))
  {
    var slave, h := Device(hwAddress), Begun(units);
    var u := Written(slave, h, With(hwAddress, WRITE));
    DeviceAddressed(hwAddress, units, WRITE);
    DeviceAnswers(hwAddress, Hear(h, u), values);
    assert ([With(hwAddress, WRITE)] + values)[1..] == values;
  }

  // Every attempt to write to the device or to read from it succeeds.
  lemma {:induction false} DeviceSucceeds(units: seq<Unit>, c: Call)
    requires c.hwAddress as int % 2 == 0 && c.hwAddress < 254
    ensures Once(Device(c.hwAddress), units, c).ok
  {
    var slave := Device(c.hwAddress);
    if c.WriteCall? {
      DeviceAcknowledges(c.hwAddress, units, [c.regAddress] + Reversed(c.data));
      assert [With(c.hwAddress, WRITE)] + ([c.regAddress] + Reversed(c.data))
          == [With(c.hwAddress, WRITE), c.regAddress] + Reversed(c.data);
    } else {
      var sent := Exchange(slave, Begun(units), [With(c.hwAddress, WRITE), c.regAddress]);
      DeviceAcknowledges(c.hwAddress, units, [c.regAddress]);
      assert [With(c.hwAddress, WRITE)] + [c.regAddress] == [With(c.hwAddress, WRITE), c.regAddress];
      DeviceAddressed(c.hwAddress, units + [S] + sent, READ);
      AddressedOn(sent, Byte(With(c.hwAddress, READ), true));
      assert ReadBody(slave, units, c.hwAddress, c.regAddress, c.size)[..4]
          == ReadAddress(slave, units, c.hwAddress, c.regAddress);
    }
  }

  // So the calls report success at the first attempt.
  lemma {:induction false} DeviceServes(units: seq<Unit>, c: Call, attempts: seq<Attempt>, state: bool)
    requires c.hwAddress as int % 2 == 0 && c.hwAddress < 254
    requires Called(Device(c.hwAddress), units, c, attempts, state)
    ensures state && |attempts| == 1
  {
    DeviceSucceeds(units + Sounds(attempts[..0]), c);
    assert attempts[0].ok;
  }

  // ---------------------------------------------------------------- the round trip

  // i2c_write followed by i2c_read of as many bytes. If both report success the array holds what was
  // written, whatever had to be repeated on the way; and with the device above both do.
  method WriteThenRead(bus: Bus, hwAddress: byte, regAddress: byte, data: seq<byte>, buffer: array<byte>)
    returns (wrote: bool, got: bool)
    requires Behaves(bus.slave) && Replays(bus.slave, hwAddress) && bus.Idle()
    requires hwAddress as int % 2 == 0 && 0 < |data| == buffer.Length
    modifies bus, buffer
    ensures bus.Idle() && (wrote && got ==> buffer[..] == data)
    ensures bus.slave == Device(hwAddress) && hwAddress < 254 ==> wrote && got
  {
    ghost var start, tries, again := bus.heard.units, [], [];
    wrote, tries := bus.Write(hwAddress, regAddress, data);
    ghost var units := bus.heard.units;
    got, again := bus.Read(hwAddress, regAddress, buffer);
    if wrote && got {
      CallStores(bus.slave, start, hwAddress, regAddress, data, tries);
      CallReturns(bus.slave, units, hwAddress, regAddress, buffer[..], again);
      ReversedTwice(buffer[..], data);
    }
    if bus.slave == Device(hwAddress) && hwAddress < 254 {
      DeviceServes(start, WriteCall(hwAddress, regAddress, data), tries, wrote);
      DeviceServes(units, ReadCall(hwAddress, regAddress, buffer.Length), again, got);
    }
  }
}
