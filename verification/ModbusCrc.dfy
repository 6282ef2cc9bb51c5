/** The CRC of Modbus frames: `usModbusRTU_CRC` of `main.c`, the test of `Uart1_input`, and the trailers that
    `module.c` builds. The register and its generating constant are those of section 6.2.2 of "MODBUS over
    Serial Line Specification and Implementation Guide V1.02". */
module ModbusCrc {
  import opened ModbusBits
  import opened ShiftRegister

  const REGISTER_CODE: bv8 := 0xFA

  function Crc(data: seq<bv8>): bv16 {
    Feed(BitStep, Mix, 0xFFFF, data)
  }

  // ---------- one bit ----------

  lemma Laws()
    ensures Injective(BitStep) && Separates(Mix) && Linear(BitStep, Xor)
  {
    forall a: bv16, b: bv16 | BitStep(a) == BitStep(b)
      ensures a == b
    {
      BitInjective(a, b);
    }
    forall a: bv16, c: bv16, b: bv8 | Mix(a, b) == Mix(c, b)
      ensures a == c
    {
      MixSeparates(a, c, b);
    }
    forall a: bv16, b: bv16
      ensures BitStep(Xor(a, b)) == Xor(BitStep(a), BitStep(b))
    {
      BitLinear(a, b);
    }
  }

  // ---------- one byte ----------

  /** Eight steps shift out a register whose low byte is clear. */
  lemma HighByte(h: bv8)
    ensures Iter(BitStep, (h as bv16) << 8, 8) == h as bv16
  {
  }

  /** And only such a register leaves something that fits a byte. */
  lemma OnlyHighByte(x: bv16, h: bv8)
    requires Iter(BitStep, x, 8) == h as bv16
    ensures x == (h as bv16) << 8
  {
    HighByte(h);
    Laws();
    IterInjective(BitStep, x, (h as bv16) << 8, 8);
  }

  lemma CancelsTo(c: bv16, l: bv8, h: bv8)
    requires Mix(c, l) == (h as bv16) << 8
    ensures c == ((h as bv16) << 8) | (l as bv16)
  {
  }

  lemma CancelsFrom(c: bv16, l: bv8, h: bv8)
    requires c == ((h as bv16) << 8) | (l as bv16)
    ensures Mix(c, l) == (h as bv16) << 8
  {
  }

  lemma MixedToZero(c: bv16, h: bv8)
    ensures Mix(c, h) == 0 <==> c == h as bv16
  {
  }

  lemma ZeroStays()
    ensures Iter(BitStep, 0 as bv16, 8) == 0
  {
  }

  lemma OnlyZeroEnds(x: bv16)
    ensures Iter(BitStep, x, 8) == 0 <==> x == 0
  {
    ZeroStays();
    if Iter(BitStep, x, 8) == 0 {
      Laws();
      IterInjective(BitStep, x, 0, 8);
    }
  }

  /** The trailer: low byte first. */
  function Word(l: bv8, h: bv8): bv16 {
    ((h as bv16) << 8) | (l as bv16)
  }

  /** Two more bytes bring the register to 0 exactly when they are its low and its high byte. */
  lemma TrailerClears(c: bv16, l: bv8, h: bv8)
    ensures Iter(BitStep, Mix(Iter(BitStep, Mix(c, l), 8), h), 8) == 0 <==> c == Word(l, h)
  {
    var x := Iter(BitStep, Mix(c, l), 8);
    OnlyZeroEnds(Mix(x, h));
    MixedToZero(x, h);
    if x == h as bv16 {
      OnlyHighByte(Mix(c, l), h);
      CancelsTo(c, l, h);
    }
    if c == Word(l, h) {
      CancelsFrom(c, l, h);
      HighByte(h);
    }
  }

  // ---------- frames ----------

  /** The test in `Uart1_input`. */
  predicate Accepts(frame: seq<bv8>) {
    |frame| >= 2 && Word(frame[|frame| - 2], frame[|frame| - 1]) == Crc(frame[..|frame| - 2])
  }

  lemma LastTwo(frame: seq<bv8>)
    requires |frame| >= 2
    ensures var n := |frame|;
            Crc(frame) == Iter(BitStep, Mix(Iter(BitStep, Mix(Crc(frame[..n - 2]), frame[n - 2]), 8), frame[n - 1]), 8)
  {
    var n := |frame|;
    var p := frame[..n - 2];
    FeedOne(BitStep, Mix, 0xFFFF, p, frame[n - 2]);
    FeedOne(BitStep, Mix, 0xFFFF, p + [frame[n - 2]], frame[n - 1]);
    assert frame == p + [frame[n - 2]] + [frame[n - 1]];
  }

  /** A frame passes exactly when the CRC over all of it, trailer included, is 0. */
  lemma AcceptedIffZero(frame: seq<bv8>)
    requires |frame| >= 2
    ensures Accepts(frame) <==> Crc(frame) == 0
  {
    var n := |frame|;
    LastTwo(frame);
    TrailerClears(Crc(frame[..n - 2]), frame[n - 2], frame[n - 1]);
  }

  function Low(c: bv16): bv8 {
    (c & 0xFF) as bv8
  }

  function High(c: bv16): bv8 {
    (c >> 8) as bv8
  }

  lemma WordOfBytes(c: bv16)
    ensures Word(Low(c), High(c)) == c
  {
  }

  /** Every body with the trailer the module appends to it passes. */
  lemma BuiltFramePasses(body: seq<bv8>)
    ensures Accepts(body + [Low(Crc(body)), High(Crc(body))])
  {
    var frame := body + [Low(Crc(body)), High(Crc(body))];
    assert frame[..|frame| - 2] == body;
    WordOfBytes(Crc(body));
  }

  // ---------- the code ----------

  lemma OneMoreByte(data: seq<bv8>, at: nat, start: bv16, crc: bv16)
    requires at < |data| && start == Crc(data[..at]) && crc == Iter(BitStep, Mix(start, data[at]), 8)
    ensures crc == Crc(data[..at + 1])
  {
    FeedOne(BitStep, Mix, 0xFFFF, data[..at], data[at]);
    assert data[..at + 1] == data[..at] + [data[at]];
  }

  /** One turn of the outer loop of `usModbusRTU_CRC`, with the loop inside it. */
  method MixIn(usCrc: bv16, b: bv8) returns (crc: bv16)
    ensures crc == Iter(BitStep, Mix(usCrc, b), 8)
  {
    var index := 0;
    crc := usCrc ^ (b as bv16);
    ghost var mixed := crc;
    while index < 8
      invariant index <= 8 && Iter(BitStep, crc, 8 - index) == Iter(BitStep, mixed, 8)
    {
      ghost var before := crc;
      if crc & 1 == 1 {
        crc := crc >> 1;
        crc := crc ^ 0xA001;
      } else {
        crc := crc >> 1;
      }
      assert crc == BitStep(before);
      index := index + 1;
    }
  }

  /** `usModbusRTU_CRC`. */
  method ComputeCrc(data: array<bv8>, len: nat) returns (crc: bv16)
    requires len <= data.Length
    ensures crc == Crc(data[..len])
  {
    var at, left := 0, len;
    crc := 0xFFFF;
    while left > 0
      invariant at + left == len && crc == Crc(data[..at])
    {
      ghost var start := crc;
      crc := MixIn(crc, data[at]);
      assert data[..len][..at] == data[..at] && data[..len][..at + 1] == data[..at + 1];
      OneMoreByte(data[..len], at, start, crc);
      at := at + 1;
      left := left - 1;
    }
  }

  /** `Uart1_input`, once a frame of `size` bytes has been read, for the module with address `addr`: a frame that
      begins with neither the registration code nor this address is not for it. */
  method CheckFrame(data: array<bv8>, size: nat, addr: bv8) returns (ok: bool)
    requires size <= data.Length
    ensures ok <==> size >= 2 && (data[0] == REGISTER_CODE || data[0] == addr) && Accepts(data[..size])
  {
    if 2 > size {
      return false;
    }
    if !(REGISTER_CODE == data[0] || addr == data[0]) {
      return false;
    }
    var crc16: bv16 := 0;
    crc16 := crc16 | (data[size - 1] as bv16);
    crc16 := crc16 << 8;
    crc16 := crc16 | (data[size - 2] as bv16);
    var crc := ComputeCrc(data, size - 2);
    assert data[..size][..size - 2] == data[..size - 2];
    TrailerRead(data[size - 2], data[size - 1]);
    ok := crc16 == crc;
  }

  lemma TrailerRead(l: bv8, h: bv8)
    ensures ((0 | (h as bv16)) << 8) | (l as bv16) == Word(l, h)
  {
  }

  /** The last two lines of each frame in `module.c`. */
  method AppendCrc(buf: array<bv8>, n: nat)
    requires n + 2 <= buf.Length
    modifies buf
    ensures buf[..n] == old(buf[..n]) && Accepts(buf[..n + 2])
    ensures buf[n + 2..] == old(buf[n + 2..])
  {
    ghost var body := buf[..n];
    var crc := ComputeCrc(buf, n);
    buf[n] := Low(crc);
    assert buf[..n] == body;
    crc := ComputeCrc(buf, n);
    buf[n + 1] := High(crc);
    BuiltFramePasses(body);
    assert buf[..n + 2] == body + [Low(Crc(body)), High(Crc(body))];
  }

  /** The number of a module, the highest byte first. */
  function NumberBytes(uuid: bv32): (r: seq<bv8>)
    ensures |r| == 4
  {
    [(uuid >> 24) as bv8, ((uuid >> 16) & 0xFF) as bv8, ((uuid >> 8) & 0xFF) as bv8, (uuid & 0xFF) as bv8]
  }

  /** The start of a registration: its code, the address and the type of the module. */
  method WriteStart(data: array<bv8>, addr: bv8)
    requires data.Length >= 15
    modifies data
    ensures data[..9] == [REGISTER_CODE, 0, 0, 0, 0, 0, 6, addr, 0xB4]
  {
    data[0], data[1], data[2], data[3] := REGISTER_CODE, 0, 0, 0;
    data[4], data[5], data[6], data[7] := 0, 0, 6, addr;
    data[8] := 0xB4;
  }

  method WriteNumber(data: array<bv8>, bytes: seq<bv8>)
    requires data.Length >= 15 && |bytes| == 4
    modifies data
    ensures data[..13] == old(data[..9]) + bytes
  {
    data[9], data[10], data[11], data[12] := bytes[0], bytes[1], bytes[2], bytes[3];
  }

  /** `sendRegisterToMaster`. */
  method RegisterFrame(data: array<bv8>, addr: bv8, uuid: bv32)
    requires data.Length >= 15
    modifies data
    ensures Accepts(data[..15]) && data[..13] == [REGISTER_CODE, 0, 0, 0, 0, 0, 6, addr, 0xB4] + NumberBytes(uuid)
  {
    WriteStart(data, addr);
    WriteNumber(data, NumberBytes(uuid));
    AppendCrc(data, 13);
  }

  function ReplyHead(addr: bv8, write: bool, reg: bv16, n: nat): seq<bv8>
    requires n < 0x100
  {
    if write then [addr, 6, High(reg), Low(reg)] else [addr, 3, n as bv8]
  }

  method WriteHead(buf: array<bv8>, addr: bv8, write: bool, reg: bv16, n: nat) returns (head: nat)
    requires n < 0x100 && buf.Length >= 4
    modifies buf
    ensures head == (if write then 4 else 3) && buf[..head] == ReplyHead(addr, write, reg, n)
  {
    buf[0], buf[1] := addr, if write then 6 else 3;
    if write {
      buf[2], buf[3] := High(reg), Low(reg);
      head := 4;
    } else {
      buf[2] := n as bv8;
      head := 3;
    }
  }

  /** `rt_memcpy` of the data behind the head. */
  method CopyData(buf: array<bv8>, head: nat, data: seq<bv8>)
    requires head + |data| <= buf.Length
    modifies buf
    ensures buf[..head + |data|] == old(buf[..head]) + data
  {
    var i := 0;
    while i < |data|
      invariant i <= |data| && buf[..head + i] == old(buf[..head]) + data[..i]
    {
      buf[head + i] := data[i];
      assert data[..i + 1] == data[..i] + [data[i]];
      i := i + 1;
    }
    assert data[..i] == data;
  }

  /** The two replies of `replyDataToMaster`, in a buffer with room for them. */
  method ReplyFrame(buf: array<bv8>, addr: bv8, write: bool, reg: bv16, data: seq<bv8>) returns (size: nat)
    requires |data| < 0x100 && buf.Length >= |data| + if write then 6 else 5
    modifies buf
    ensures size == |data| + (if write then 6 else 5) && Accepts(buf[..size])
    ensures buf[..size - 2] == ReplyHead(addr, write, reg, |data|) + data
  {
    var head := WriteHead(buf, addr, write, reg, |data|);
    CopyData(buf, head, data);
    AppendCrc(buf, head + |data|);
    size := head + |data| + 2;
  }
}
