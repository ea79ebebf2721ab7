/**
 * The Modbus RTU side of the encoder node (encoder/src/main.rs): the CRC loop,
 * the Read Holding Registers request frames, the discovery scan over ids
 * 1..=10, the three register reads that fill one 8-byte record, and one
 * polling sweep over the record table.
 *
 * A record is laid out as id(1), angle(2), circle(1), speed(4).
 * The serial port is not modelled: the outcome of each probe and the bytes
 * each read delivers are given as parameters, and every frame the node writes
 * is returned, in order.
 */
module Encoder {
  import opened Wrappers
  import Crc
  import opened Bytes

  /** One row of the encoder table: `[id, angle_hi, angle_lo, circle, speed0, speed1, speed2, speed3]`. */
  type Record = r: seq<u8> | |r| == 8 witness [0, 0, 0, 0, 0, 0, 0, 0]

  /** Modbus function code 0x03, Read Holding Registers. */
  const ReadHoldingRegisters: u8 := 0x03
  /** Register holding the angle (one register). */
  const AngleRegister: u8 := 0x41
  /** First of the two registers holding the speed. */
  const SpeedRegister: u8 := 0x42
  /** Register holding the turn count. */
  const CircleRegister: u8 := 0x44
  /** Size of the zero-filled buffer each reply is read into. */
  const ResponseCapacity: nat := 256
  /** Discovery probes the ids 1..=ScanLast. */
  const ScanLast: nat := 10

  // ---------------------------------------------------------------- CRC

  /** `crc16_modbus`: the byte loop with its inner 8-step bit loop. */
  method Crc16Modbus(data: seq<u8>) returns (crc: bv16)
    ensures crc == Crc.Crc16(data)
  {
    crc := 0xFFFF;
    for i := 0 to |data|
      invariant crc == Crc.Crc16(data[..i])
    {
      Crc.Crc16Next(data, i);
      crc := crc ^ data[i] as bv16;
      ghost var mixed := crc;
      for j := 0 to 8
        invariant crc == Crc.Steps(mixed, j)
      {
        assert Crc.Steps(mixed, j + 1) == Crc.Step(crc);
        if crc & 0x0001 != 0 {
          crc := (crc >> 1) ^ 0xA001;
        } else {
          crc := crc >> 1;
        }
      }
    }
    assert data[..|data|] == data;
  }

  // ---------------------------------------------------------------- request frames

  /** The first six bytes of a Read Holding Registers request for `count` registers from `register`. */
  function RequestHeader(id: u8, register: u8, count: u8): seq<u8> {
    [id, ReadHoldingRegisters, 0x00, register, 0x00, count]
  }

  /**
   * The 8-byte request frame: the header followed by its CRC, low byte first.
   * The CRC covers bytes 0..5 only, and a receiver's CRC over the whole frame is zero.
   */
  function RequestFrame(id: u8, register: u8, count: u8): (f: seq<u8>)
    ensures |f| == 8 && f[..6] == RequestHeader(id, register, count)
    ensures f[0] == id && f[1] == 0x03 && f[2] == 0x00 && f[3] == register && f[4] == 0x00 && f[5] == count
  {
    var header := RequestHeader(id, register, count);
    assert (header + Crc.CrcBytes(Crc.Crc16(header)))[..6] == header;
    header + Crc.CrcBytes(Crc.Crc16(header))
  }

  /** Bytes 6 and 7 of a request frame are the CRC of bytes 0..5, low byte first, and a receiver's CRC over the whole frame is zero. */
  lemma RequestFrameCrc(id: u8, register: u8, count: u8)
    ensures var f := RequestFrame(id, register, count);
      && ((f[7] as bv16) << 8) | (f[6] as bv16) == Crc.Crc16(f[..6])
      && Crc.Crc16(f) == 0
  {
    var header := RequestHeader(id, register, count);
    Crc.Rebuild(Crc.Crc16(header));
    Crc.FrameResidue(header);
  }

  /**
   * The in-place sealing every builder does: bytes 6 and 7 of `sendData` get
   * the low and the high byte of the CRC of bytes 0..5.
   */
  method SealRequest(sendData: array<u8>)
    requires sendData.Length == 8
    modifies sendData
    ensures sendData[..6] == old(sendData[..6])
    ensures sendData[..] == old(sendData[..6]) + Crc.CrcBytes(Crc.Crc16(old(sendData[..6])))
  {
    var crc := Crc16Modbus(sendData[..6]);
    sendData[6] := Crc.Low(crc);
    sendData[7] := Crc.High(crc);
  }

  /** Builds the request frame for (`id`, `register`, `count`) as the source does: literal, then sealed. */
  method NewRequest(id: u8, register: u8, count: u8) returns (sendData: array<u8>)
    ensures fresh(sendData)
    ensures sendData[..] == RequestFrame(id, register, count)
  {
    sendData := new u8[8] [id, ReadHoldingRegisters, 0x00, register, 0x00, count, 0x00, 0x00];
    assert sendData[..6] == RequestHeader(id, register, count);
    SealRequest(sendData);
  }

  /** A Read Holding Registers request: whom it addresses, the first register, how many registers. */
  datatype Request = Request(id: u8, register: u8, count: u8)

  /** The bytes written for a request. */
  function Frame(r: Request): seq<u8> {
    RequestFrame(r.id, r.register, r.count)
  }

  /** The bytes written for a list of requests, one frame per request, in order. */
  function Frames(reqs: seq<Request>): (r: seq<seq<u8>>)
    ensures |r| == |reqs|
  {
    if reqs == [] then [] else Frames(reqs[..|reqs| - 1]) + [Frame(reqs[|reqs| - 1])]
  }

  /** The k-th frame written is the frame of the k-th request. */
  lemma {:induction false} FramesAt(reqs: seq<Request>, k: nat)
    requires k < |reqs|
    ensures Frames(reqs)[k] == Frame(reqs[k])
  {
    if k < |reqs| - 1 {
      FramesAt(reqs[..|reqs| - 1], k);
    }
  }

  /** The frames of consecutive request lists are written one list after the other. */
  lemma {:induction false} FramesAppend(a: seq<Request>, b: seq<Request>)
    ensures Frames(a + b) == Frames(a) + Frames(b)
    decreases |b|
  {
    if b == [] {
      assert a + b == a;
    } else {
      var init := b[..|b| - 1];
      assert (a + b)[..|a + b| - 1] == a + init;
      FramesAppend(a, init);
    }
  }

  // ---------------------------------------------------------------- discovery

  /** What one probe of one id gave: the write failed, the read returned `Ok(n)`, or the read failed. */
  datatype ProbeOutcome = WriteFailed | ReadOk(n: nat) | ReadFailed

  /** A probed id is online exactly when the write succeeded and the read returned at least one byte. */
  predicate Online(o: ProbeOutcome) {
    o.ReadOk? && o.n > 0
  }

  /** Discovery fails when no id answered. */
  datatype DiscoveryError = NoEncoder

  /** The record discovery creates for an online id: the id, everything else zero. */
  function FreshRecord(id: u8): (r: Record)
    ensures r[0] == id && forall k :: 1 <= k < 8 ==> r[k] == 0
  {
    [id, 0, 0, 0, 0, 0, 0, 0]
  }

  /** The probe discovery sends to `id`: one angle register. */
  function ProbeRequest(id: u8): Request {
    Request(id, AngleRegister, 0x01)
  }

  /**
   * The records found after probing ids 1..=n, where `outcomes[k]` is what the
   * probe of id k+1 gave.
   */
  function Found(outcomes: seq<ProbeOutcome>, n: nat): seq<Record>
    requires n <= |outcomes| && n <= ScanLast
  {
    if n == 0 then []
    else Found(outcomes, n - 1) + (if Online(outcomes[n - 1]) then [FreshRecord(n as u8)] else [])
  }

  /** The probes sent while probing ids 1..=n, one per id in ascending order. */
  function ProbeRequests(n: nat): seq<Request>
    requires n <= ScanLast
  {
    seq(n, k requires 0 <= k < n => ProbeRequest((k + 1) as u8))
  }

  /** Probing one more id writes one more probe frame, for that id. */
  lemma ProbeRequestsStep(n: nat)
    requires 1 <= n <= ScanLast
    ensures Frames(ProbeRequests(n)) == Frames(ProbeRequests(n - 1)) + [Frame(ProbeRequest(n as u8))]
  {
    assert ProbeRequests(n)[..n - 1] == ProbeRequests(n - 1);
  }

  /**
   * The discovery loop: probe ids 1..=10 in ascending order, append a fresh
   * record for each online id, and fail when the table stays empty. The probe
   * frame is written for every id, whatever the outcome.
   */
  method Discover(outcomes: seq<ProbeOutcome>) returns (result: Result<seq<Record>, DiscoveryError>, written: seq<seq<u8>>)
    requires |outcomes| == ScanLast
    ensures written == Frames(ProbeRequests(ScanLast))
    ensures result.Err? <==> Found(outcomes, ScanLast) == []
    ensures result.Ok? ==> result.value == Found(outcomes, ScanLast) && |result.value| >= 1
  {
    var encoderData: seq<Record> := [];
    written := [];
    for scanId := 1 to ScanLast + 1
      invariant encoderData == Found(outcomes, scanId - 1)
      invariant written == Frames(ProbeRequests(scanId - 1))
    {
      var id := scanId as u8;
      var sendData := NewRequest(id, AngleRegister, 0x01);
      ProbeRequestsStep(scanId);
      written := written + [sendData[..]];
      assert Found(outcomes, scanId) == Found(outcomes, scanId - 1) + (if Online(outcomes[scanId - 1]) then [FreshRecord(id)] else []);
      match outcomes[scanId - 1] {
        case WriteFailed =>
        case ReadOk(n) =>
          if n > 0 {
            encoderData := encoderData + [FreshRecord(id)];
          }
        case ReadFailed =>
      }
    }
    if encoderData == [] {
      result := Err(NoEncoder);
    } else {
      result := Ok(encoderData);
    }
  }

  /**
   * The records discovery finds carry ids in 1..=n, strictly increasing, with
   * all telemetry bytes zero.
   */
  lemma {:induction false} FoundShape(outcomes: seq<ProbeOutcome>, n: nat)
    requires n <= |outcomes| && n <= ScanLast
    ensures forall i :: 0 <= i < |Found(outcomes, n)| ==>
      1 <= Found(outcomes, n)[i][0] as int <= n && Found(outcomes, n)[i][1..] == [0, 0, 0, 0, 0, 0, 0]
    ensures forall i, j :: 0 <= i < j < |Found(outcomes, n)| ==> Found(outcomes, n)[i][0] as int < Found(outcomes, n)[j][0] as int
  {
    if n > 0 {
      FoundShape(outcomes, n - 1);
    }
  }

  /** Does some row of `table` carry `id`? */
  predicate HasId(table: seq<Record>, id: u8) {
    exists i :: 0 <= i < |table| && table[i][0] == id
  }

  /** An id is in the discovered table exactly when it is in 1..=n and its probe found it online. */
  lemma {:induction false} FoundMembers(outcomes: seq<ProbeOutcome>, n: nat, id: u8)
    requires n <= |outcomes| && n <= ScanLast
    ensures HasId(Found(outcomes, n), id) <==> 1 <= id as int <= n && Online(outcomes[id as int - 1])
  {
    if n > 0 {
      FoundMembers(outcomes, n - 1, id);
      var f := Found(outcomes, n);
      var prev := Found(outcomes, n - 1);
      assert forall i :: 0 <= i < |prev| ==> f[i] == prev[i];
      if HasId(f, id) {
        var i :| 0 <= i < |f| && f[i][0] == id;
        if i < |prev| {
          assert prev[i][0] == id;
          assert HasId(prev, id);
        } else {
          assert Online(outcomes[n - 1]) && f[i] == FreshRecord(n as u8);
          assert id == n as u8 && id as int == n;
        }
        assert 1 <= id as int <= n && Online(outcomes[id as int - 1]);
      }
      if 1 <= id as int <= n && Online(outcomes[id as int - 1]) {
        if id as int < n {
          var i :| 0 <= i < |prev| && prev[i][0] == id;
          assert f[i][0] == id;
        } else {
          assert id == n as u8;
          assert f[|f| - 1] == FreshRecord(n as u8);
          assert f[|f| - 1][0] == id;
        }
      }
    }
  }

  /** Discovery finds nothing exactly when no probe found its id online. */
  lemma {:induction false} FoundEmpty(outcomes: seq<ProbeOutcome>, n: nat)
    requires n <= |outcomes| && n <= ScanLast
    ensures Found(outcomes, n) == [] <==> forall k :: 0 <= k < n ==> !Online(outcomes[k])
  {
    if n > 0 {
      FoundEmpty(outcomes, n - 1);
    }
  }

  // ---------------------------------------------------------------- register reads

  /**
   * The 256-byte buffer after `read`: the bytes the port delivered, then the
   * zeros the buffer was created with. The byte count `read` returns is not
   * used by the node, so a short reply leaves zeros in the copied slots.
   */
  function ResponseBuffer(reply: seq<u8>): (buf: seq<u8>)
    requires |reply| <= ResponseCapacity
    ensures |buf| == ResponseCapacity
    ensures buf[..|reply|] == reply
    ensures forall k :: |reply| <= k < ResponseCapacity ==> buf[k] == 0
  {
    reply + seq(ResponseCapacity - |reply|, _ => 0)
  }

  /** `read_speed`'s placement: `data[4..=7] = buf[3..=6]`. */
  function PlaceSpeed(rec: Record, buf: seq<u8>): Record
    requires |buf| == ResponseCapacity
  {
    [rec[0], rec[1], rec[2], rec[3], buf[3], buf[4], buf[5], buf[6]]
  }

  /** `read_circle`'s placement: `data[3] = buf[4]`. */
  function PlaceCircle(rec: Record, buf: seq<u8>): Record
    requires |buf| == ResponseCapacity
  {
    rec[3 := buf[4]]
  }

  /** `read_angle`'s placement: `data[1..=2] = buf[3..=4]`. */
  function PlaceAngle(rec: Record, buf: seq<u8>): Record
    requires |buf| == ResponseCapacity
  {
    [rec[0], buf[3], buf[4], rec[3], rec[4], rec[5], rec[6], rec[7]]
  }

  /** Each placement writes only its own slots; none of them touches the id in slot 0. */
  lemma PlacementSlots(rec: Record, buf: seq<u8>)
    requires |buf| == ResponseCapacity
    ensures forall k :: 0 <= k < 8 ==> PlaceSpeed(rec, buf)[k] == if 4 <= k then buf[k - 1] else rec[k]
    ensures forall k :: 0 <= k < 8 ==> PlaceCircle(rec, buf)[k] == if k == 3 then buf[4] else rec[k]
    ensures forall k :: 0 <= k < 8 ==> PlaceAngle(rec, buf)[k] == if 1 <= k <= 2 then buf[k + 2] else rec[k]
  {
  }

  /** `read_speed`: write the speed request, read the reply, copy its bytes 3..=6 into slots 4..=7. */
  method ReadSpeed(id: u8, data: array<u8>, reply: seq<u8>) returns (request: seq<u8>)
    requires data.Length == 8 && |reply| <= ResponseCapacity
    modifies data
    ensures request == RequestFrame(id, SpeedRegister, 0x02)
    ensures data[..] == PlaceSpeed(old(data[..]), ResponseBuffer(reply))
  {
    var sendData := NewRequest(id, SpeedRegister, 0x02);
    request := sendData[..];
    var buf := ResponseBuffer(reply);
    data[4], data[5], data[6], data[7] := buf[3], buf[4], buf[5], buf[6];
  }

  /** `read_circle`: write the turn-count request, read the reply, copy its byte 4 into slot 3. */
  method ReadCircle(id: u8, data: array<u8>, reply: seq<u8>) returns (request: seq<u8>)
    requires data.Length == 8 && |reply| <= ResponseCapacity
    modifies data
    ensures request == RequestFrame(id, CircleRegister, 0x01)
    ensures data[..] == PlaceCircle(old(data[..]), ResponseBuffer(reply))
  {
    var sendData := NewRequest(id, CircleRegister, 0x01);
    request := sendData[..];
    var buf := ResponseBuffer(reply);
    data[3] := buf[4];
  }

  /** `read_angle`: write the angle request, read the reply, copy its bytes 3..=4 into slots 1..=2. */
  method ReadAngle(id: u8, data: array<u8>, reply: seq<u8>) returns (request: seq<u8>)
    requires data.Length == 8 && |reply| <= ResponseCapacity
    modifies data
    ensures request == RequestFrame(id, AngleRegister, 0x01)
    ensures data[..] == PlaceAngle(old(data[..]), ResponseBuffer(reply))
  {
    var sendData := NewRequest(id, AngleRegister, 0x01);
    request := sendData[..];
    var buf := ResponseBuffer(reply);
    data[1], data[2] := buf[3], buf[4];
  }

  // ---------------------------------------------------------------- one sweep

  /** Are the replies fit for a sweep of `n` records: three per record (speed, circle, angle), each at most 256 bytes? */
  predicate SweepReplies(replies: seq<seq<u8>>, n: nat) {
    |replies| == 3 * n && forall k :: 0 <= k < |replies| ==> |replies[k]| <= ResponseCapacity
  }

  /** Byte `k` of the receive buffer after a read that delivered `reply`. */
  function ReplyByte(reply: seq<u8>, k: nat): u8 {
    if k < |reply| then reply[k] else 0
  }

  /**
   * One record after its speed, circle and angle reads, slot by slot: the id,
   * angle reply bytes 3 and 4, circle reply byte 4, speed reply bytes 3 to 6.
   */
  function SweepRow(rec: Record, speed: seq<u8>, circle: seq<u8>, angle: seq<u8>): Record {
    [rec[0], ReplyByte(angle, 3), ReplyByte(angle, 4), ReplyByte(circle, 4),
     ReplyByte(speed, 3), ReplyByte(speed, 4), ReplyByte(speed, 5), ReplyByte(speed, 6)]
  }

  /** The three placements of `read_speed`, `read_circle` and `read_angle`, in that order, build the swept row. */
  lemma SweepRowReads(rec: Record, speed: seq<u8>, circle: seq<u8>, angle: seq<u8>)
    requires |speed| <= ResponseCapacity && |circle| <= ResponseCapacity && |angle| <= ResponseCapacity
    ensures PlaceAngle(PlaceCircle(PlaceSpeed(rec, ResponseBuffer(speed)), ResponseBuffer(circle)), ResponseBuffer(angle))
      == SweepRow(rec, speed, circle, angle)
  {
    var s, c, a := ResponseBuffer(speed), ResponseBuffer(circle), ResponseBuffer(angle);
    ResponseBufferAt(speed, 3); ResponseBufferAt(speed, 4); ResponseBufferAt(speed, 5); ResponseBufferAt(speed, 6);
    ResponseBufferAt(circle, 4);
    ResponseBufferAt(angle, 3); ResponseBufferAt(angle, 4);
    assert PlaceCircle(PlaceSpeed(rec, s), c) == [rec[0], rec[1], rec[2], c[4], s[3], s[4], s[5], s[6]];
  }

  /** The receive buffer holds the reply, then zeros. */
  lemma ResponseBufferAt(reply: seq<u8>, k: nat)
    requires |reply| <= ResponseCapacity && k < ResponseCapacity
    ensures ResponseBuffer(reply)[k] == ReplyByte(reply, k)
  {
    if k < |reply| {
      assert ResponseBuffer(reply)[..|reply|][k] == reply[k];
    }
  }

  /** The table after one sweep: row i takes replies 3i (speed), 3i+1 (circle) and 3i+2 (angle). */
  function SweepTable(table: seq<Record>, replies: seq<seq<u8>>): (r: seq<Record>)
    requires SweepReplies(replies, |table|)
    ensures |r| == |table| && forall i :: 0 <= i < |r| ==> r[i][0] == table[i][0]
  {
    seq(|table|, i requires 0 <= i < |table| =>
      SweepRow(table[i], replies[3 * i], replies[3 * i + 1], replies[3 * i + 2]))
  }

  /** Rows before `i` are swept, rows from `i` on are as they were. */
  ghost predicate SweptUpTo(table: seq<Record>, before: seq<Record>, replies: seq<seq<u8>>, i: nat)
    requires SweepReplies(replies, |before|)
  {
    && |table| == |before| && i <= |before|
    && (forall k :: 0 <= k < i ==> table[k] == SweepTable(before, replies)[k])
    && (forall k :: i <= k < |before| ==> table[k] == before[k])
  }

  /** Refreshing row `i` of a table swept up to `i` sweeps it up to `i + 1`. */
  lemma SweepStep(table: seq<Record>, before: seq<Record>, replies: seq<seq<u8>>, i: nat)
    requires SweepReplies(replies, |before|) && SweptUpTo(table, before, replies, i) && i < |before|
    ensures SweptUpTo(table[i := SweepRow(table[i], replies[3 * i], replies[3 * i + 1], replies[3 * i + 2])], before, replies, i + 1)
  {
  }

  /** A table swept up to its last row is the swept table. */
  lemma SweepDone(table: seq<Record>, before: seq<Record>, replies: seq<seq<u8>>)
    requires SweepReplies(replies, |before|) && SweptUpTo(table, before, replies, |before|)
    ensures table == SweepTable(before, replies)
  {
  }

  /** The frames of a sweep over a prefix of `ids`, extended by one row's frames, are those of the next prefix. */
  lemma SweepFramesStep(ids: seq<u8>, i: nat)
    requires i < |ids|
    ensures Frames(SweepRequests(ids[..i])) + Frames(RowRequests(ids[i])) == Frames(SweepRequests(ids[..i + 1]))
  {
    assert ids[..i + 1][..i] == ids[..i];
    FramesAppend(SweepRequests(ids[..i]), RowRequests(ids[i]));
  }

  /** The three requests of one sweep step for `id`, in the order the node writes them. */
  function RowRequests(id: u8): seq<Request> {
    [Request(id, SpeedRegister, 0x02), Request(id, CircleRegister, 0x01), Request(id, AngleRegister, 0x01)]
  }

  /** One sweep step writes the speed, the circle and the angle request frames, in that order. */
  lemma RowFrames(id: u8)
    ensures Frames(RowRequests(id)) == [RequestFrame(id, SpeedRegister, 0x02),
      RequestFrame(id, CircleRegister, 0x01), RequestFrame(id, AngleRegister, 0x01)]
  {
    var r := RowRequests(id);
    assert r[..1][..0] == [];
    assert Frames(r[..1]) == [Frame(r[0])];
    assert r[..2][..1] == r[..1];
    assert Frames(r[..2]) == Frames(r[..1]) + [Frame(r[1])];
    assert r[..2] == r[..|r| - 1];
  }

  /** The requests of one sweep over the ids `ids`. */
  function SweepRequests(ids: seq<u8>): seq<Request> {
    if ids == [] then [] else SweepRequests(ids[..|ids| - 1]) + RowRequests(ids[|ids| - 1])
  }

  /**
   * After a sweep a row holds its id and exactly the reply bytes the reads
   * copy: nothing of its previous telemetry survives, and a short reply
   * shows up as zeros.
   */
  lemma SweepRowContents(rec: Record, speed: seq<u8>, circle: seq<u8>, angle: seq<u8>)
    requires |speed| <= ResponseCapacity && |circle| <= ResponseCapacity && |angle| <= ResponseCapacity
    ensures SweepRow(rec, speed, circle, angle)
      == [rec[0]] + ResponseBuffer(angle)[3..5] + [ResponseBuffer(circle)[4]] + ResponseBuffer(speed)[3..7]
  {
    var want := [rec[0]] + ResponseBuffer(angle)[3..5] + [ResponseBuffer(circle)[4]] + ResponseBuffer(speed)[3..7];
    forall k | 3 <= k < 7 ensures ResponseBuffer(speed)[k] == ReplyByte(speed, k) {
      ResponseBufferAt(speed, k);
    }
    ResponseBufferAt(circle, 4);
    ResponseBufferAt(angle, 3);
    ResponseBufferAt(angle, 4);
    assert forall k :: 0 <= k < 8 ==> SweepRow(rec, speed, circle, angle)[k] == want[k];
  }

  /** A sweep makes three requests per row, row by row: speed, circle, angle, each to that row's id. */
  lemma {:induction false} SweepRequestsAt(ids: seq<u8>, i: nat)
    requires i < |ids|
    ensures |SweepRequests(ids)| == 3 * |ids|
    ensures SweepRequests(ids)[3 * i..3 * i + 3] == RowRequests(ids[i])
  {
    var n := |ids|;
    var init := ids[..n - 1];
    SweepRequestsLength(ids);
    SweepRequestsLength(init);
    if i < n - 1 {
      SweepRequestsAt(init, i);
      assert init[i] == ids[i];
      assert SweepRequests(ids)[3 * i..3 * i + 3] == SweepRequests(init)[3 * i..3 * i + 3];
    } else {
      assert SweepRequests(ids)[3 * i..3 * i + 3] == SweepRequests(ids)[|SweepRequests(init)|..];
    }
  }

  /** A sweep over n ids makes 3n requests. */
  lemma {:induction false} SweepRequestsLength(ids: seq<u8>)
    ensures |SweepRequests(ids)| == 3 * |ids|
  {
    if ids != [] {
      SweepRequestsLength(ids[..|ids| - 1]);
    }
  }
}
