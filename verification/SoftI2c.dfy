/**
  The bit-banged I2C master of src/soft_i2c.c. SDA and SCL are two wired-AND lines; a listener turns
  their levels into START, STOP and bytes as sections 3.1.3 to 3.1.6 of UM10204 say, and a slave may
  pull SDA low as a function of what the listener has heard. A slave changes SDA only when SCL falls.
 */
module SoftI2c {
  import opened Bytes
  import opened Powers

  // ---------------------------------------------------------------- the listener

  datatype Unit = S | P | Byte(value: byte, ack: bool) // START, STOP, eight bits and an acknowledge bit

  // What has been heard: whole units and the bits since the last one; whether the last unit is a START;
  // and whether the slave is to send: it was addressed for reading and all bytes since were acknowledged.
  datatype Heard = Heard(units: seq<Unit>, bits: seq<bool>, started: bool, sending: bool)

  // The situations in which a slave pulls SDA low.
  type Slave = iset<Heard>

  function Number(v: nat, bits: seq<bool>): nat
    decreases bits
  {
    if bits == [] then v else Number(2 * v + (if bits[0] then 1 else 0), bits[1..])
  }

  lemma {:induction false} NumberBelow(v: nat, bits: seq<bool>)
    ensures Number(v, bits) < (v + 1) * Pow2(|bits|)
    decreases bits
  {
    if bits != [] {
      var w := 2 * v + if bits[0] then 1 else 0;
      NumberBelow(w, bits[1..]);
      Pow2Order(0, |bits| - 1);
      Spread(v, w, Pow2(|bits| - 1));
    }
  }

  lemma {:induction false} Spread(v: nat, w: nat, p: nat)
    requires w <= 2 * v + 1
    ensures (w + 1) * p <= (v + 1) * (2 * p)
  {
    assert (w + 1) * p <= (2 * v + 2) * p == (v + 1) * (2 * p);
  }

  lemma {:induction false} NumberStep(v: nat, bits: seq<bool>, b: bool)
    ensures Number(v, bits + [b]) == 2 * Number(v, bits) + if b then 1 else 0
    decreases bits
  {
    if bits == [] {
      assert [b][1..] == [];
    } else {
      NumberStep(2 * v + (if bits[0] then 1 else 0), bits[1..], b);
      assert (bits + [b])[1..] == bits[1..] + [b];
    }
  }

  lemma {:induction false} NumberFits(bits: seq<bool>, b: bool)
    requires |bits| < 8
    ensures Number(0, bits + [b]) == 2 * Number(0, bits) + (if b then 1 else 0) < 256
  {
    NumberStep(0, bits, b);
    NumberBelow(0, bits + [b]);
    Pow2Order(|bits| + 1, 8);
    assert Pow2(8) == 256;
  }

  // Eight bits, most significant first.
  function ByteOf(bits: seq<bool>): byte
    requires |bits| == 8
  {
    NumberBelow(0, bits);
    assert Pow2(8) == 256;
    Number(0, bits) as byte
  }

  // A start or stop condition drops an unfinished byte.
  function HearStart(h: Heard): Heard { Heard(h.units + [S], [], true, false) }
  function HearStop(h: Heard): Heard { Heard(h.units + [P], [], false, false) }

  function HearByte(h: Heard, value: byte, ack: bool): Heard {
    Heard(h.units + [Byte(value, ack)], [], false, ack && if h.started then value as int % 2 == 1 else h.sending)
  }

  function Hear(h: Heard, u: Unit): Heard {
    match u
    case S => HearStart(h)
    case P => HearStop(h)
    case Byte(value, ack) => HearByte(h, value, ack)
  }

  // SCL rises while SDA has this level.
  function HearBit(h: Heard, level: bool): Heard {
    if |h.bits| == 8 then HearByte(h, ByteOf(h.bits), !level) else h.(bits := h.bits + [level])
  }

  // ---------------------------------------------------------------- bytes and bits

  // a <<= 1 on a uint8_t
  function Double(a: byte): byte {
    ((a as int) * 2 % 256) as byte
  }

  // The levels that n rounds of `a & 0x80` and `a <<= 1` put on SDA.
  function BitsOf(a: byte, n: nat): (bits: seq<bool>)
    ensures |bits| == n
    decreases n, a
  {
    if n == 0 then [] else [a >= 128] + BitsOf(Double(a), n - 1)
  }

  lemma {:induction false} DoubleShifts(a: byte)
    ensures (if a >= 128 then 256 else 0) + Double(a) as int == 2 * (a as int)
  {
  }

  lemma {:induction false} Regroup(x: nat, y: nat, p: nat)
    requires y == 2 * x
    ensures y * p == x * (2 * p)
  {
  }

  lemma {:induction false} BitsShift(v: nat, a: byte, n: nat) returns (rest: nat)
    ensures rest < 256 && Number(v, BitsOf(a, n)) * 256 + rest == (v * 256 + a as int) * Pow2(n)
    decreases n
  {
    if n == 0 {
      rest := a as int;
    } else {
      var w := 2 * v + if a >= 128 then 1 else 0;
      rest := BitsShift(w, Double(a), n - 1);
      DoubleShifts(a);
      assert BitsOf(a, n)[1..] == BitsOf(Double(a), n - 1);
      Regroup(v * 256 + a as int, w * 256 + Double(a) as int, Pow2(n - 1));
    }
  }

  // What is sent bit by bit is heard as the byte.
  lemma {:induction false} SentIsHeard(a: byte)
    ensures ByteOf(BitsOf(a, 8)) == a
  {
    var rest := BitsShift(0, a, 8);
    assert Pow2(8) == 256;
  }

  // What is heard when the master puts these levels on SDA, one after the other: the slave may pull it low.
  function Mixed(slave: Slave, h: Heard, levels: seq<bool>): (bits: seq<bool>)
    ensures |bits| == |levels|
    decreases |levels|
  {
    if levels == [] then []
    else
      var n := |levels| - 1;
      var sent := Mixed(slave, h, levels[..n]);
      sent + [levels[n] && h.(bits := sent) !in slave]
  }

  lemma {:induction false} MixedOn(slave: Slave, h: Heard, levels: seq<bool>, level: bool)
    ensures var sent := Mixed(slave, h, levels);
            Mixed(slave, h, levels + [level]) == sent + [level && h.(bits := sent) !in slave]
  {
    assert (levels + [level])[..|levels|] == levels;
  }

  lemma {:induction false} Join(a: seq<bool>, b: bool, c: seq<bool>)
    ensures a + ([b] + c) == (a + [b]) + c
  {
  }

  function Ones(n: nat): (bits: seq<bool>)
    ensures |bits| == n
  {
    seq(n, _ => true)
  }

  // The first n bits of a byte that the slave sends.
  function SlaveBits(slave: Slave, h: Heard, n: nat): (bits: seq<bool>)
    ensures |bits| == n
  {
    Mixed(slave, h, Ones(n))
  }

  lemma {:induction false} SlaveBitsOn(slave: Slave, h: Heard, n: nat)
    ensures var sent := SlaveBits(slave, h, n);
            SlaveBits(slave, h, n + 1) == sent + [h.(bits := sent) !in slave]
  {
    assert Ones(n) + [true] == Ones(n + 1);
    MixedOn(slave, h, Ones(n), true);
  }

  // A slave that sends drives the eight data bits, any other slave only the acknowledge bit, and no
  // slave answers to the reserved address 0xff (section 3.1.12).
  ghost predicate Behaves(slave: Slave) {
    && (forall h :: h in slave ==> if h.sending then |h.bits| < 8 else |h.bits| == 8)
    && (forall h :: h in slave && h.started ==> h.bits != Ones(8))
  }

  lemma {:induction false} OnesAre255()
    ensures ByteOf(Ones(8)) == 255
  {
    assert Ones(8) == [true, true, true, true, true, true, true, true];
    assert Number(0, [true, true, true, true, true, true, true, true]) == 255;
  }

  // ---------------------------------------------------------------- bytes and transfers as heard

  // The bits heard when the master writes a byte.
  function WrittenBits(slave: Slave, h: Heard, value: byte): (bits: seq<bool>)
    ensures |bits| == 8
  {
    Mixed(slave, h, BitsOf(value, 8))
  }

  // The master writes a byte and the slave answers.
  function Written(slave: Slave, h: Heard, value: byte): (u: Unit)
    ensures u.Byte?
  {
    var bits := WrittenBits(slave, h, value);
    Byte(ByteOf(bits), h.(bits := bits) in slave)
  }

  // The byte that a slave sends when h has been heard.
  function ServedByte(slave: Slave, h: Heard): byte {
    ByteOf(SlaveBits(slave, h, 8))
  }

  // The slave sends a byte and the master answers; a slave that does not send may still pull SDA.
  function Taken(slave: Slave, h: Heard, ack: bool): (u: Unit)
    ensures u.Byte?
  {
    Byte(ServedByte(slave, h), ack || h.(bits := SlaveBits(slave, h, 8)) in slave)
  }

  // The master writes these bytes, one after the other.
  function Exchange(slave: Slave, h: Heard, values: seq<byte>): (units: seq<Unit>)
    ensures |units| == |values| && forall i :: 0 <= i < |units| ==> units[i].Byte?
    decreases |values|
  {
    if values == [] then []
    else
      var u := Written(slave, h, values[0]);
      [u] + Exchange(slave, Hear(h, u), values[1..])
  }

  // The master reads n bytes and acknowledges all but the last.
  function Replies(slave: Slave, h: Heard, n: nat): (units: seq<Unit>)
    ensures |units| == n && forall i :: 0 <= i < n ==> units[i].Byte?
    decreases n
  {
    if n == 0 then []
    else
      var u := Taken(slave, h, n > 1);
      [u] + Replies(slave, Hear(h, u), n - 1)
  }

  const WRITE: byte := 0
  const READ: byte := 1
  const MAX_REPEAT: nat := 3

  // hwAddress | WRITE and hwAddress | READ
  function With(a: byte, direction: byte): byte
    requires direction <= 1
  {
    if a as int % 2 == 0 then a + direction else a
  }

  // After a start condition.
  function Begun(units: seq<Unit>): Heard {
    HearStart(Heard(units, [], false, false))
  }

  // Address, register and data between start and stop condition, when `units` has been heard before.
  // The data goes out last byte first.
  function WriteBody(slave: Slave, units: seq<Unit>, hwAddress: byte, regAddress: byte, data: seq<byte>): seq<Unit> {
    Exchange(slave, Begun(units), [With(hwAddress, WRITE), regAddress] + Reversed(data))
  }

  // Address and register, a second start condition, and the address for reading.
  function ReadAddress(slave: Slave, units: seq<Unit>, hwAddress: byte, regAddress: byte): (body: seq<Unit>)
    ensures |body| == 4
  {
    var sent := Exchange(slave, Begun(units), [With(hwAddress, WRITE), regAddress]);
    sent + [S] + [Written(slave, Begun(units + [S] + sent), With(hwAddress, READ))]
  }

  // From here on the slave sends if it has acknowledged.
  function Reading(units: seq<Unit>, address: seq<Unit>): Heard
    requires |address| == 4 && address[3].Byte?
  {
    Heard(units + [S] + address, [], false, address[3].ack)
  }

  function ReadBody(slave: Slave, units: seq<Unit>, hwAddress: byte, regAddress: byte, size: nat): (body: seq<Unit>)
    ensures |body| == 4 + size
  {
    var address := ReadAddress(slave, units, hwAddress, regAddress);
    address + Replies(slave, Reading(units, address), size)
  }

  // What is heard between the start and the stop condition of an attempt, and whether it succeeded.
  datatype Attempt = Attempt(body: seq<Unit>, ok: bool)

  // A call of i2c_write or of i2c_read.
  datatype Call =
    | WriteCall(hwAddress: byte, regAddress: byte, data: seq<byte>)
    | ReadCall(hwAddress: byte, regAddress: byte, size: nat)

  // One attempt, when `units` has been heard before. A read succeeds with its addressing.
  function Once(slave: Slave, units: seq<Unit>, c: Call): Attempt {
    match c
    case WriteCall(hwAddress, regAddress, data) =>
      var body := WriteBody(slave, units, hwAddress, regAddress, data);
      Attempt(body, Acknowledged(body))
    case ReadCall(hwAddress, regAddress, size) =>
      var body := ReadBody(slave, units, hwAddress, regAddress, size);
      Attempt(body, Acknowledged(body[..4]))
  }

  const RESET_UNITS: seq<Unit> := [S, Byte(255, false), S]

  // What is heard of attempts, with the bus reset after each failed one.
  function Sounds(attempts: seq<Attempt>): seq<Unit> {
    if attempts == [] then []
    else
      var n := |attempts| - 1;
      Sounds(attempts[..n]) + ([S] + attempts[n].body + [P]) + if attempts[n].ok then [] else RESET_UNITS
  }

  // Attempts are repeated until one succeeds, at most three in all, and the result tells whether one did.
  ghost predicate UpToThree(attempts: seq<Attempt>, state: bool) {
    && 1 <= |attempts| <= 3 && state == attempts[|attempts| - 1].ok
    && (forall k :: 0 <= k < |attempts| - 1 ==> !attempts[k].ok) && (!state ==> |attempts| == 3)
  }

  // Every attempt of the call is made after what has been heard by then.
  ghost predicate Each(slave: Slave, units: seq<Unit>, c: Call, attempts: seq<Attempt>) {
    forall k {:trigger attempts[..k]} :: 0 <= k < |attempts| ==>
      attempts[k] == Once(slave, units + Sounds(attempts[..k]), c)
  }

  // The units are these bytes, whoever acknowledged them.
  predicate Carries(units: seq<Unit>, values: seq<byte>) {
    |units| == |values| && forall i :: 0 <= i < |units| ==> units[i].Byte? && units[i].value == values[i]
  }

  predicate Acknowledged(units: seq<Unit>) {
    forall i :: 0 <= i < |units| && units[i].Byte? ==> units[i].ack
  }

  // The data is what was heard after the addressing of a read, last first.
  predicate Filled(a: Attempt, data: seq<byte>) {
    |a.body| == 4 + |data| && Carries(a.body[4..], Reversed(data))
  }

  predicate LastFilled(attempts: seq<Attempt>, data: seq<byte>) {
    attempts != [] && Filled(attempts[|attempts| - 1], data)
  }

  // The last bytes of the data are those of the units, last first.
  predicate Tail(units: seq<Unit>, data: seq<byte>) {
    && |units| <= |data|
    && forall j :: 0 <= j < |units| ==> units[j].Byte? && data[|data| - 1 - j] == units[j].value
  }

  lemma {:induction false} TailOn(before: seq<Unit>, data: seq<byte>, units: seq<Unit>, v: byte)
    requires Tail(before, data) && |before| < |data| && |units| == |before| + 1 && units[..|before|] == before
    requires units[|before|].Byte? && units[|before|].value == v
    ensures Tail(units, data[|data| - |units| := v])
  {
    forall j | 0 <= j < |before| ensures units[j] == before[j] {
      assert units[..|before|][j] == units[j];
    }
  }

  lemma {:induction false} WholeTail(address: seq<Unit>, units: seq<Unit>, data: seq<byte>, ok: bool)
    requires |address| == 4 && |units| == |data| && Tail(units, data)
    ensures Filled(Attempt(address + units, ok), data)
  {
    assert (address + units)[4..] == units;
  }

  lemma {:induction false} AcknowledgedOn(units: seq<Unit>, b: Unit)
    requires b.Byte?
    ensures Acknowledged(units + [b]) == (Acknowledged(units) && b.ack)
  {
    var all := units + [b];
    assert all[|units|] == b;
    if Acknowledged(all) {
      forall i | 0 <= i < |units| && units[i].Byte? ensures units[i].ack {
        assert all[i] == units[i];
      }
    }
  }

  lemma {:induction false} Flatten(base: seq<Unit>, before: seq<Unit>, b: seq<Unit>, r: seq<Unit>)
    ensures base + (before + ([S] + b + [P]) + r) == ((base + before) + [S] + b + [P]) + r
  {
    assert before + ([S] + b + [P]) == before + [S] + b + [P];
    assert base + (before + [S] + b + [P]) == (base + before) + [S] + b + [P];
  }

  lemma {:induction false} SoundsOn(base: seq<Unit>, before: seq<Attempt>, a: Attempt)
    ensures base + Sounds(before + [a])
         == ((base + Sounds(before)) + [S] + a.body + [P]) + if a.ok then [] else RESET_UNITS
  {
    assert (before + [a])[..|before|] == before;
    Flatten(base, Sounds(before), a.body, if a.ok then [] else RESET_UNITS);
  }

  lemma {:induction false} EachOn(slave: Slave, units: seq<Unit>, c: Call, before: seq<Attempt>, a: Attempt)
    requires Each(slave, units, c, before) && a == Once(slave, units + Sounds(before), c)
    ensures Each(slave, units, c, before + [a])
  {
    var all := before + [a];
    forall k | 0 <= k < |all| ensures all[k] == Once(slave, units + Sounds(all[..k]), c) {
      assert all[..k] == before[..k];
      assert before[..|before|] == before;
    }
  }

  // After at most three attempts of the call all of which have failed.
  ghost predicate Failing(slave: Slave, units: seq<Unit>, c: Call, attempts: seq<Attempt>) {
    |attempts| <= MAX_REPEAT && Each(slave, units, c, attempts) && forall k :: 0 <= k < |attempts| ==> !attempts[k].ok
  }

  // The attempts of one call of i2c_write or i2c_read and its result.
  ghost predicate Called(slave: Slave, units: seq<Unit>, c: Call, attempts: seq<Attempt>, state: bool) {
    Each(slave, units, c, attempts) && UpToThree(attempts, state)
  }

  lemma {:induction false} TriedOnce(slave: Slave, units: seq<Unit>, c: Call, before: seq<Attempt>, a: Attempt)
    requires Failing(slave, units, c, before) && |before| < MAX_REPEAT && a == Once(slave, units + Sounds(before), c)
    ensures a.ok ==> Called(slave, units, c, before + [a], true)
    ensures !a.ok ==> Failing(slave, units, c, before + [a])
    ensures !a.ok && |before| + 1 == MAX_REPEAT ==> Called(slave, units, c, before + [a], false)
  {
    EachOn(slave, units, c, before, a);
    assert forall k :: 0 <= k < |before| ==> (before + [a])[k] == before[k];
  }

  lemma {:induction false} AddressedOn(sent: seq<Unit>, u: Unit)
    requires u.Byte?
    ensures Acknowledged(sent + [S] + [u]) == (Acknowledged(sent) && u.ack)
  {
    AcknowledgedOn(sent + [S], u);
    assert forall i :: 0 <= i < |sent| ==> (sent + [S])[i] == sent[i];
  }

  lemma {:induction false} Assembled(units: seq<Unit>, address: seq<Unit>, got: seq<Unit>)
    requires |address| == 4
    ensures (address + got)[..4] == address
    ensures units + [S] + address + got == units + [S] + (address + got)
  {
  }

  lemma {:induction false} UnitsOn(base: seq<Unit>, body: seq<Unit>, u: Unit)
    ensures (base + body) + [u] == base + (body + [u])
  {
  }

  lemma {:induction false} UnitsShift(all: seq<Unit>, body: seq<Unit>, u: Unit, rest: seq<Unit>)
    requires body + ([u] + rest) == all
    ensures (body + [u]) + rest == all
  {
  }

  function ByteFrom(value: nat, bits: seq<bool>): (b: byte)
    requires |bits| == 8 && value == Number(0, bits)
    ensures b == ByteOf(bits)
  {
    NumberBelow(0, bits);
    assert Pow2(8) == 256;
    value as byte
  }

  // ---------------------------------------------------------------- what the slave decodes

  // A slave that does not send leaves the bits alone.
  lemma {:induction false} MixedExact(slave: Slave, h: Heard, levels: seq<bool>)
    requires Behaves(slave) && !h.sending && |levels| <= 8
    ensures Mixed(slave, h, levels) == levels
    decreases |levels|
  {
    if levels != [] {
      var n := |levels| - 1;
      MixedExact(slave, h, levels[..n]);
      assert levels == levels[..n] + [levels[n]];
    }
  }

  lemma {:induction false} NumberInjective(v: nat, w: nat, a: seq<bool>, b: seq<bool>)
    requires |a| == |b| && Number(v, a) == Number(w, b)
    ensures v == w && a == b
    decreases |a|
  {
    if a != [] {
      NumberInjective(2 * v + (if a[0] then 1 else 0), 2 * w + (if b[0] then 1 else 0), a[1..], b[1..]);
      assert a == [a[0]] + a[1..] && b == [b[0]] + b[1..];
    }
  }

  // No one among the bits is pulled low.
  ghost predicate NoneLost(slave: Slave, h: Heard, levels: seq<bool>) {
    forall n {:trigger levels[n]} :: 0 <= n < |levels| && levels[n] ==> h.(bits := levels[..n]) !in slave
  }

  lemma {:induction false} NoneLostOn(slave: Slave, h: Heard, levels: seq<bool>, level: bool)
    ensures NoneLost(slave, h, levels + [level]) <==>
            NoneLost(slave, h, levels) && (level ==> h.(bits := levels) !in slave)
  {
    var all := levels + [level];
    assert all[..|levels|] == levels && all[|levels|] == level;
    forall n | 0 <= n < |levels| ensures all[n] == levels[n] && all[..n] == levels[..n] {
    }
  }

  lemma {:induction false} MixedIff(slave: Slave, h: Heard, levels: seq<bool>)
    ensures Mixed(slave, h, levels) == levels <==> NoneLost(slave, h, levels)
    decreases |levels|
  {
    if levels != [] {
      var init, last := levels[..|levels| - 1], levels[|levels| - 1];
      MixedIff(slave, h, init);
      NoneLostOn(slave, h, init, last);
      MixedOn(slave, h, init, last);
      LastsAgree(Mixed(slave, h, init), init, last && h.(bits := Mixed(slave, h, init)) !in slave, last);
      assert levels == init + [last];
    }
  }

  lemma {:induction false} LastsAgree(a: seq<bool>, b: seq<bool>, x: bool, y: bool)
    requires |a| == |b|
    ensures a + [x] == b + [y] <==> a == b && x == y
  {
    if a + [x] == b + [y] {
      assert (a + [x])[..|a|] == a && (b + [y])[..|b|] == b;
      assert (a + [x])[|a|] == x && (b + [y])[|b|] == y;
    }
  }

  // A byte is decoded as written exactly when none of its one bits is pulled low.
  lemma {:induction false} DecodedIff(slave: Slave, h: Heard, value: byte)
    ensures Written(slave, h, value).value == value <==> NoneLost(slave, h, BitsOf(value, 8))
  {
    MixedIff(slave, h, BitsOf(value, 8));
    SentIsHeard(value);
    if Written(slave, h, value).value == value {
      NumberInjective(0, 0, WrittenBits(slave, h, value), BitsOf(value, 8));
    }
  }

  // A slave that is not sending decodes the byte as written, and one that is does not acknowledge it.
  lemma {:induction false} WrittenAs(slave: Slave, h: Heard, value: byte)
    requires Behaves(slave)
    ensures !h.sending ==> Written(slave, h, value).value == value
    ensures h.sending ==> !Written(slave, h, value).ack
  {
    if !h.sending {
      MixedExact(slave, h, BitsOf(value, 8));
      SentIsHeard(value);
    }
  }

  lemma {:induction false} BeginsToRead(slave: Slave, units: seq<Unit>, sent: seq<Unit>, hwAddress: byte)
    requires Behaves(slave) && |sent| == 2
    ensures var h := Begun(units + [S] + sent);
      var u := Written(slave, h, With(hwAddress, READ));
      Hear(h, u) == Reading(units, sent + [S] + [u])
  {
    var h := Begun(units + [S] + sent);
    var u := Written(slave, h, With(hwAddress, READ));
    WrittenAs(slave, h, With(hwAddress, READ));
    assert units + [S] + sent + [S] + [u] == units + [S] + (sent + [S] + [u]);
  }

  lemma {:induction false} ExchangeExact(slave: Slave, h: Heard, values: seq<byte>)
    requires Behaves(slave) && !h.sending && (h.started && values != [] ==> values[0] as int % 2 == 0)
    ensures Carries(Exchange(slave, h, values), values)
    decreases |values|
  {
    if values != [] {
      WrittenAs(slave, h, values[0]);
      ExchangeExact(slave, Hear(h, Written(slave, h, values[0])), values[1..]);
    }
  }

  // With the direction bit already set in hwAddress a slave that answers begins to send while the master
  // writes the register. The slave decodes all bytes as written if and only if that does not happen or it
  // pulls none of the one bits of the register low; and then the register is not acknowledged.
  lemma {:induction false} DecodedAsWrittenIff(slave: Slave, units: seq<Unit>, hwAddress: byte, regAddress: byte,
                                             data: seq<byte>)
    requires Behaves(slave)
    ensures var body := WriteBody(slave, units, hwAddress, regAddress, data);
      && body[0] == Byte(hwAddress, body[0].ack) && Carries(body[2..], Reversed(data))
      && (Acknowledged(body) ==> Carries(body, [hwAddress, regAddress] + Reversed(data)))
      && (Carries(body, [hwAddress, regAddress] + Reversed(data)) <==>
          || hwAddress as int % 2 == 0 || !body[0].ack
          || NoneLost(slave, Hear(Begun(units), body[0]), BitsOf(regAddress, 8)))
  {
    var values := [hwAddress, regAddress] + Reversed(data);
    var h0 := Begun(units);
    var u0 := Written(slave, h0, hwAddress);
    var h1 := Hear(h0, u0);
    var u1 := Written(slave, h1, regAddress);
    var rest := Exchange(slave, Hear(h1, u1), Reversed(data));
    WrittenAs(slave, h0, hwAddress);
    WrittenAs(slave, h1, regAddress);
    DecodedIff(slave, h1, regAddress);
    ExchangeExact(slave, Hear(h1, u1), Reversed(data));
    Unfolded(slave, h0, hwAddress, regAddress, Reversed(data));
    assert WriteBody(slave, units, hwAddress, regAddress, data) == [u0, u1] + rest;
  }

  lemma {:induction false} Unfolded(slave: Slave, h: Heard, first: byte, second: byte, rest: seq<byte>)
    ensures var u := Written(slave, h, first);
      var v := Written(slave, Hear(h, u), second);
      Exchange(slave, h, [first, second] + rest) == [u, v] + Exchange(slave, Hear(Hear(h, u), v), rest)
  {
    assert ([first, second] + rest)[1..] == [second] + rest;
    assert ([second] + rest)[1..] == rest;
  }

  // ---------------------------------------------------------------- the master

  class Bus {
    const slave: Slave
    var scl: bool
    var sda: bool  // what the master drives
    var pull: bool // what the slave drives
    var heard: Heard

    constructor (slave: Slave)
      ensures this.slave == slave && Idle() && scl && heard == Heard([], [], false, false)
    {
      this.slave := slave;
      scl, sda, pull, heard := true, true, false, Heard([], [], false, false);
    }

    predicate Line()
      reads this
    {
      sda && !pull
    }

    // Both lines released, no unfinished byte, and no slave sending.
    ghost predicate Idle()
      reads this
    {
      sda && !pull && heard.bits == [] && !heard.sending
    }

    // SetHighSDA and SetLowSDA
    method SetSDA(level: bool)
      modifies this`sda, this`heard
      ensures sda == level
      ensures heard == if !scl || Line() == old(Line()) then old(heard)
                       else if Line() then HearStop(old(heard)) else HearStart(old(heard))
    {
      var before := Line();
      sda := level;
      if scl && Line() != before {
        heard := if Line() then HearStop(heard) else HearStart(heard);
      }
    }

    method SetHighSCL()
      modifies this`scl, this`heard
      ensures scl && heard == if old(scl) then old(heard) else HearBit(old(heard), Line())
    {
      if !scl {
        scl := true;
        heard := HearBit(heard, Line());
      }
    }

    // The slave takes the opportunity to change what it drives.
    method SetLowSCL()
      modifies this`scl, this`pull
      ensures !scl && pull == if old(scl) then heard in slave else old(pull)
    {
      if scl {
        scl := false;
        pull := heard in slave;
      }
    }

    // i2c_start, also in the middle of a transfer
    method Start()
      requires Behaves(slave) && sda && !pull && !heard.sending && (scl || |heard.bits| < 8)
      modifies this
      ensures sda && !pull && !scl && heard == HearStart(old(heard))
    {
      SetHighSCL();
      SetSDA(true);
      SetHighSCL();
      SetSDA(false);
      SetLowSCL();
      SetSDA(true);
    }

    // i2c_stop
    method Stop()
      requires Behaves(slave) && Idle() && !scl
      modifies this
      ensures Idle() && scl && heard == HearStop(old(heard))
    {
      SetLowSCL();
      SetSDA(false);
      SetHighSCL();
      SetSDA(false);
      SetHighSCL();
      SetSDA(true);
    }

    // ---------------------------------------------------------------- one byte

    // One turn of the loop of _i2c_write. `levels` is what the master has put on SDA since `h`, and `all`
    // what it puts there in all.
    method SendBit(a: byte, ghost h: Heard, ghost levels: seq<bool>, ghost all: seq<bool>)
      returns (a': byte, ghost levels': seq<bool>)
      requires |levels| < 8 && (!scl ==> pull == (heard in slave)) && levels + BitsOf(a, 8 - |levels|) == all
      requires heard == h.(bits := Mixed(slave, h, levels))
      modifies this
      ensures |levels'| == |levels| + 1 && scl && levels' + BitsOf(a', 8 - |levels'|) == all
      ensures heard == h.(bits := Mixed(slave, h, levels'))
    {
      levels' := levels + [a >= 128];
      MixedOn(slave, h, levels, a >= 128);
      SetLowSCL();
      SetSDA(a >= 128); // a & 0x80
      SetHighSCL();
      a' := Double(a);
      Join(levels, a >= 128, BitsOf(a', 8 - |levels'|));
    }

    // The loop of _i2c_write.
    method SendBits(value: byte)
      requires !scl && heard.bits == [] && pull == (heard in slave)
      modifies this
      ensures scl && heard == old(heard).(bits := WrittenBits(slave, old(heard), value))
    {
      var a := value;
      ghost var h, all, levels := heard, BitsOf(value, 8), [];
      var i := 0;
      while i < 8
        invariant 0 <= i <= 8 && |levels| == i && (!scl ==> pull == (heard in slave)) && (i > 0 ==> scl)
        invariant heard == h.(bits := Mixed(slave, h, levels)) && levels + BitsOf(a, 8 - |levels|) == all
      {
        a, levels := SendBit(a, h, levels, all);
        i := i + 1;
      }
      assert levels == all;
    }

    // _i2c_write: what is heard, and acknowledged exactly when the slave says so.
    method WriteByte(value: byte) returns (ack: bool)
      requires !scl && heard.bits == [] && pull == (heard in slave)
      modifies this
      ensures sda && !scl && heard.bits == [] && pull == (heard in slave)
      ensures heard == Hear(old(heard), Written(slave, old(heard), value))
      ensures ack == Written(slave, old(heard), value).ack
    {
      SendBits(value);
      SetLowSCL();
      SetSDA(true);
      SetHighSCL();
      ack := !Line();
      SetLowSCL();
    }

    // One turn of the loop of _i2c_read.
    method TakeBit(caracter: nat) returns (next: nat)
      requires !scl && sda && |heard.bits| < 8 && pull == (heard in slave) && caracter == Number(0, heard.bits)
      modifies this
      ensures !scl && sda && pull == (heard in slave)
      ensures heard == old(heard).(bits := old(heard).bits + [!old(pull)]) && next == Number(0, heard.bits)
    {
      NumberFits(heard.bits, !pull);
      next := 2 * caracter % 256; // caracter << 1 on a uint8_t
      SetHighSCL();
      if Line() {
        next := (next + 1) % 256;
      }
      SetLowSCL();
    }

    // The loop of _i2c_read.
    method TakeBits() returns (caracter: byte)
      requires !scl && sda && heard.bits == [] && pull == (heard in slave)
      modifies this
      ensures !scl && sda && heard == old(heard).(bits := SlaveBits(slave, old(heard), 8)) && pull == (heard in slave)
      ensures caracter == ByteOf(heard.bits)
    {
      var value: nat := 0;
      var i := 0;
      while i < 8
        invariant 0 <= i <= 8 && !scl && sda && pull == (heard in slave)
        invariant heard == old(heard).(bits := SlaveBits(slave, old(heard), i)) && value == Number(0, heard.bits)
      {
        SlaveBitsOn(slave, old(heard), i);
        value := TakeBit(value);
        i := i + 1;
      }
      caracter := ByteFrom(value, heard.bits);
    }

    // _i2c_read: the byte that the slave puts on the line, with the acknowledge bit asked for.
    method ReadByte(ack: bool) returns (value: byte)
      requires !scl && heard.bits == [] && pull == (heard in slave)
      modifies this
      ensures !scl && sda == !ack && heard.bits == [] && pull == (heard in slave)
      ensures heard == Hear(old(heard), Taken(slave, old(heard), ack))
      ensures value == Taken(slave, old(heard), ack).value
    {
      SetLowSCL();
      SetSDA(true);
      value := TakeBits();
      if ack {
        SetSDA(false);
      }
      SetHighSCL();
      SetLowSCL();
    }

    // ---------------------------------------------------------------- transfers

    // A clock with SDA released.
    method Clock()
      requires Behaves(slave) && sda && !pull && !heard.sending && |heard.bits| <= 8
      requires scl && |heard.bits| == 8 ==> heard !in slave
      modifies this
      ensures scl && sda && !pull && heard == HearBit(old(heard), true)
    {
      SetLowSCL();
      SetHighSCL();
    }

    // I2C2_ResetBus: a start, nine clocks with SDA released, a start. The clocks read as the byte 0xff.
    method ResetBus()
      requires Behaves(slave) && Idle()
      modifies this
      ensures Idle() && !scl && heard.units == old(heard.units) + [S, Byte(255, false), S]
    {
      SetHighSCL();
      SetSDA(true);
      Start();
      ghost var begun := heard;
      OnesAre255();
      var i := 0;
      while i < 9
        invariant 0 <= i <= 9 && sda && !pull && (i > 0 ==> scl)
        invariant heard == if i < 9 then begun.(bits := Ones(i)) else HearByte(begun, 255, false)
      {
        assert Ones(i) + [true] == Ones(i + 1);
        Clock();
        i := i + 1;
      }
      Start();
    }

    // state &= _i2c_write( value ), one of the bytes `values` that are still to be written. `all` is what
    // the slave will have heard of the transfer, `body` what it has heard, `base` what was heard before.
    method WriteNext(value: byte, state: bool,
                     ghost base: seq<Unit>, ghost body: seq<Unit>, ghost values: seq<byte>, ghost all: seq<Unit>)
      returns (state': bool, ghost body': seq<Unit>)
      requires sda && !scl && heard.bits == [] && pull == (heard in slave)
      requires heard.units == base + body && state == Acknowledged(body)
      requires values != [] && values[0] == value && body + Exchange(slave, heard, values) == all
      modifies this
      ensures sda && !scl && heard.bits == [] && pull == (heard in slave)
      ensures heard == Hear(old(heard), Written(slave, old(heard), value))
      ensures heard.units == base + body' && state' == Acknowledged(body')
      ensures body' + Exchange(slave, heard, values[1..]) == all
    {
      ghost var u := Written(slave, heard, value);
      var ack := WriteByte(value);
      state' := state && ack;
      body' := body + [u];
      AcknowledgedOn(body, u);
      UnitsOn(base, body, u);
      UnitsShift(all, body, u, Exchange(slave, heard, values[1..]));
    }

    // A start, the address for writing and the register, the first two of the bytes `values`.
    method Address(hwAddress: byte, regAddress: byte, ghost values: seq<byte>)
      returns (state: bool, ghost body: seq<Unit>)
      requires Behaves(slave) && Idle() && |values| >= 2 && values[..2] == [With(hwAddress, WRITE), regAddress]
      modifies this
      ensures Idle() && !scl && !heard.started && heard.units == old(heard.units) + [S] + body
      ensures state == Acknowledged(body)
      ensures body + Exchange(slave, heard, values[2..]) == Exchange(slave, Begun(old(heard.units)), values)
    {
      ghost var base := heard.units + [S];
      Start();
      ghost var all := Exchange(slave, heard, values);
      assert base + [] == base && [] + all == all && values[1..][1..] == values[2..];
      state, body := WriteNext(With(hwAddress, WRITE), true, base, [], values, all);
      WrittenAs(slave, heard, regAddress);
      state, body := WriteNext(regAddress, state, base, body, values[1..], all);
    }

    // One attempt of i2c_write. The data goes out last byte first.
    method WriteAttempt(hwAddress: byte, regAddress: byte, data: seq<byte>) returns (state: bool, ghost a: Attempt)
      requires Behaves(slave) && Idle()
      modifies this
      ensures Idle() && scl && heard.units == old(heard.units) + [S] + a.body + [P]
      ensures a == Once(slave, old(heard.units), WriteCall(hwAddress, regAddress, data)) && a.ok == state
    {
      ghost var base, values := heard.units + [S], [With(hwAddress, WRITE), regAddress] + Reversed(data);
      ghost var all := WriteBody(slave, heard.units, hwAddress, regAddress, data);
      ghost var body;
      state, body := Address(hwAddress, regAddress, values);
      var i := 0;
      while i < |data|
        invariant 0 <= i <= |data| && Idle() && !scl && !heard.started && heard.units == base + body
        invariant state == Acknowledged(body) && body + Exchange(slave, heard, values[2 + i..]) == all
      {
        assert values[2 + i..][1..] == values[3 + i..];
        state, body := WriteNext(data[|data| - 1 - i], state, base, body, values[2 + i..], all);
        i := i + 1;
      }
      a := Attempt(body, state);
      assert body == all;
      Stop();
    }

    // i2c_write: up to three attempts, with the bus reset after each that was not fully acknowledged.
    method Write(hwAddress: byte, regAddress: byte, data: seq<byte>) returns (state: bool, ghost attempts: seq<Attempt>)
      requires Behaves(slave) && Idle()
      modifies this
      ensures Called(slave, old(heard.units), WriteCall(hwAddress, regAddress, data), attempts, state)
      ensures Idle() && heard.units == old(heard.units) + Sounds(attempts)
    {
      ghost var base, c := heard.units, WriteCall(hwAddress, regAddress, data);
      attempts := [];
      var i := 0;
      state := false;
      while i < MAX_REPEAT
        invariant 0 <= i <= MAX_REPEAT && |attempts| == i && Idle() && !state
        invariant Failing(slave, base, c, attempts) && (i == MAX_REPEAT ==> Called(slave, base, c, attempts, false))
        invariant heard.units == base + Sounds(attempts)
      {
        ghost var a;
        state, a := WriteAttempt(hwAddress, regAddress, data);
        TriedOnce(slave, base, c, attempts, a);
        SoundsOn(base, attempts, a);
        attempts := attempts + [a];
        i := i + 1;
        if state {
          break;
        } else {
          ResetBus();
        }
      }
    }

    // The reading loop of i2c_read: size - 1 bytes with an acknowledge, the last without.
    method ReadBytes(data: array<byte>) returns (ghost got: seq<Unit>)
      requires Behaves(slave) && data.Length >= 1
      requires !scl && !heard.started && heard.bits == [] && pull == (heard in slave)
      modifies this, data
      ensures Idle() && !scl && got == Replies(slave, old(heard), data.Length) && Tail(got, data[..])
      ensures heard.units == old(heard.units) + got
    {
      ghost var base, all := heard.units, Replies(slave, heard, data.Length);
      var size := data.Length;
      got := [];
      assert base + [] == base && [] + all == all;
      var i := 0;
      while i < size - 1
        invariant 0 <= i <= size - 1 && i == |got| && !scl
        invariant !heard.started && heard.bits == [] && pull == (heard in slave)
        invariant heard.units == base + got && got + Replies(slave, heard, size - i) == all && Tail(got, data[..])
      {
        got := StoreNext(true, i, data, base, got, all);
        i := i + 1;
      }
      got := StoreNext(false, size - 1, data, base, got, all);
      assert got == all;
    }

    // data[ size - i - 1 ] = _i2c_read( ack )
    method StoreNext(ack: bool, i: nat, data: array<byte>,
                     ghost base: seq<Unit>, ghost got: seq<Unit>, ghost all: seq<Unit>)
      returns (ghost got': seq<Unit>)
      requires Behaves(slave) && !scl && !heard.started && heard.bits == [] && pull == (heard in slave)
      requires |got| == i < data.Length && ack == (data.Length - i > 1) && heard.units == base + got
      requires Tail(got, data[..]) && got + Replies(slave, heard, data.Length - i) == all
      modifies this, data
      ensures !scl && !heard.started && heard.bits == [] && pull == (heard in slave) && (!ack ==> Idle())
      ensures |got'| == |got| + 1 && heard.units == base + got'
      ensures Tail(got', data[..]) && got' + Replies(slave, heard, data.Length - |got'|) == all
    {
      var v;
      v, got' := ReadNext(ack, base, got, data.Length - i, all);
      TailOn(got, data[..], got', v);
      data[data.Length - i - 1] := v;
    }

    // One byte of the reading loop, when n bytes are still to be read.
    method ReadNext(ack: bool, ghost base: seq<Unit>, ghost got: seq<Unit>, ghost n: nat, ghost all: seq<Unit>)
      returns (value: byte, ghost got': seq<Unit>)
      requires Behaves(slave) && !scl && !heard.started && heard.bits == [] && pull == (heard in slave)
      requires n >= 1 && ack == (n > 1) && heard.units == base + got && got + Replies(slave, heard, n) == all
      modifies this
      ensures !scl && !heard.started && heard.bits == [] && pull == (heard in slave) && (!ack ==> Idle())
      ensures |got'| == |got| + 1 && got'[..|got|] == got && got'[|got|].Byte? && got'[|got|].value == value
      ensures heard.units == base + got' && got' + Replies(slave, heard, n - 1) == all
    {
      ghost var u := Taken(slave, heard, ack);
      value := ReadByte(ack);
      got' := got + [u];
      UnitsOn(base, got, u);
      UnitsShift(all, got, u, Replies(slave, heard, n - 1));
    }

    // Addressing in i2c_read: write the register address, start again, address for reading.
    method StartReading(hwAddress: byte, regAddress: byte) returns (state: bool, ghost address: seq<Unit>)
      requires Behaves(slave) && Idle()
      modifies this
      ensures !scl && pull == (heard in slave) && state == Acknowledged(address)
      ensures address == ReadAddress(slave, old(heard.units), hwAddress, regAddress)
      ensures heard == Reading(old(heard.units), address)
    {
      ghost var sent, values := [], [With(hwAddress, WRITE), regAddress];
      state, sent := Address(hwAddress, regAddress, values);
      assert sent == Exchange(slave, Begun(old(heard.units)), values);
      Start();
      ghost var u := Written(slave, heard, With(hwAddress, READ));
      BeginsToRead(slave, old(heard.units), sent, hwAddress);
      var ack := WriteByte(With(hwAddress, READ));
      state := state && ack;
      address := sent + [S] + [u];
      AddressedOn(sent, u);
    }

    // One attempt of i2c_read.
    method ReadAttempt(hwAddress: byte, regAddress: byte, data: array<byte>) returns (state: bool, ghost a: Attempt)
      requires Behaves(slave) && Idle() && data.Length >= 1
      modifies this, data
      ensures Idle() && heard.units == old(heard.units) + [S] + a.body + [P]
      ensures a == Once(slave, old(heard.units), ReadCall(hwAddress, regAddress, data.Length)) && a.ok == state
      ensures Filled(a, data[..])
    {
      ghost var address, got;
      state, address := StartReading(hwAddress, regAddress);
      got := ReadBytes(data);
      a := Attempt(address + got, state);
      Assembled(old(heard.units), address, got);
      WholeTail(address, got, data[..], state);
      Stop();
    }

    // One turn of the loop of i2c_read.
    method TryRead(hwAddress: byte, regAddress: byte, data: array<byte>,
                   ghost base: seq<Unit>, ghost c: Call, ghost before: seq<Attempt>)
      returns (state: bool, ghost attempts: seq<Attempt>)
      requires Behaves(slave) && Idle() && data.Length >= 1 && heard.units == base + Sounds(before)
      requires c == ReadCall(hwAddress, regAddress, data.Length)
      requires Failing(slave, base, c, before) && |before| < MAX_REPEAT
      modifies this, data
      ensures Idle() && |attempts| == |before| + 1 && heard.units == base + Sounds(attempts)
      ensures LastFilled(attempts, data[..])
      ensures state || |attempts| == MAX_REPEAT ==> Called(slave, base, c, attempts, state)
      ensures !state ==> Failing(slave, base, c, attempts)
    {
      ghost var a;
      state, a := ReadAttempt(hwAddress, regAddress, data);
      TriedOnce(slave, base, c, before, a);
      SoundsOn(base, before, a);
      attempts := before + [a];
      if !state {
        ResetBus();
      }
    }

    // i2c_read: up to three attempts, with the bus reset after each whose addressing was not fully
    // acknowledged. The data is that of the last attempt.
    method Read(hwAddress: byte, regAddress: byte, data: array<byte>)
      returns (state: bool, ghost attempts: seq<Attempt>)
      requires Behaves(slave) && Idle() && data.Length >= 1
      modifies this, data
      ensures Called(slave, old(heard.units), ReadCall(hwAddress, regAddress, data.Length), attempts, state)
      ensures LastFilled(attempts, data[..])
      ensures Idle() && heard.units == old(heard.units) + Sounds(attempts)
    {
      ghost var base, c := heard.units, ReadCall(hwAddress, regAddress, data.Length);
      attempts := [];
      var i := 0;
      state := false;
      while i < MAX_REPEAT
        invariant 0 <= i <= MAX_REPEAT && |attempts| == i && Idle() && !state
        invariant Failing(slave, base, c, attempts) && (i == MAX_REPEAT ==> Called(slave, base, c, attempts, false))
        invariant heard.units == base + Sounds(attempts) && (i > 0 ==> LastFilled(attempts, data[..]))
      {
        state, attempts := TryRead(hwAddress, regAddress, data, base, c, attempts);
        i := i + 1;
        if state {
          break;
        }
      }
    }
  }
}
