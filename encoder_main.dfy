/**
 * The state of the encoder node's `main` (encoder/src/main.rs): the record
 * table `encoder_data` that discovery creates and the polling thread
 * refreshes, and the selector state `display_index` / `char_buffer` that the
 * key events change and the publishing thread reads.
 *
 * Each operation is one atomic step; the locks and threads around them are
 * not modelled.
 */
module EncoderMain {
  import opened Wrappers
  import opened Bytes
  import opened Encoder
  import opened Selection

  class EncoderState {
    /** `encoder_num`: the number of encoders discovery found, fixed from then on. */
    const encoderNum: nat
    /** `encoder_data`: one 8-byte record per discovered encoder, in discovery order. */
    var table: seq<Record>
    /** `display_index`: the record the publisher sends. */
    var displayIndex: nat
    /** `char_buffer`: the text typed since the last confirm. */
    var charBuffer: string

    /** At least one record, the table keeps its length, and the index points into it. */
    ghost predicate Valid()
      reads this
    {
      encoderNum >= 1 && |table| == encoderNum && displayIndex < encoderNum
    }

    /** The id column of the table. */
    ghost function Ids(): (ids: seq<u8>)
      reads this
      ensures |ids| == |table| && forall i :: 0 <= i < |table| ==> ids[i] == table[i][0]
    {
      seq(|table|, i requires 0 <= i < |table| reads this => table[i][0])
    }

    /** The selector state. */
    ghost function Sel(): Selector
      reads this
    {
      Selector(displayIndex, charBuffer)
    }

    /** The state right after a successful discovery: the found records, index 0, empty buffer. */
    constructor (records: seq<Record>)
      requires |records| >= 1
      ensures Valid()
      ensures table == records && displayIndex == 0 && charBuffer == []
    {
      encoderNum := |records|;
      table := records;
      displayIndex := 0;
      charBuffer := [];
    }

    /**
     * One pass of the polling thread: for every record in order, read speed,
     * circle and angle from the device whose id the record holds. `replies`
     * are the bytes each read delivers, three per record; the frames written
     * are returned in order.
     */
    method Sweep(replies: seq<seq<u8>>) returns (written: seq<seq<u8>>)
      requires Valid() && SweepReplies(replies, encoderNum)
      modifies this
      ensures Valid() && Sel() == old(Sel())
      ensures table == SweepTable(old(table), replies)
      ensures Ids() == old(Ids())
      ensures written == Frames(SweepRequests(old(Ids())))
    {
      ghost var ids := Ids();
      ghost var before := table;
      written := [];
      for index := 0 to encoderNum
        invariant Valid() && Sel() == old(Sel())
        invariant SweptUpTo(table, before, replies, index)
        invariant written == Frames(SweepRequests(ids[..index]))
      {
        var currentId := table[index][0];
        SweepStep(table, before, replies, index);
        var frames := RefreshRow(index, currentId, replies[3 * index], replies[3 * index + 1], replies[3 * index + 2]);
        SweepFramesStep(ids, index);
        written := written + frames;
      }
      assert ids[..encoderNum] == ids;
      SweepDone(table, before, replies);
    }

    /**
     * One step of the sweep on `encoder_data[index]`: read speed, circle and
     * angle of device `currentId` into the record.
     */
    method RefreshRow(index: nat, currentId: u8, speed: seq<u8>, circle: seq<u8>, angle: seq<u8>)
      returns (frames: seq<seq<u8>>)
      requires Valid() && index < encoderNum
      requires |speed| <= ResponseCapacity && |circle| <= ResponseCapacity && |angle| <= ResponseCapacity
      modifies this
      ensures Valid() && Sel() == old(Sel())
      ensures table == old(table)[index := SweepRow(old(table)[index], speed, circle, angle)]
      ensures frames == Frames(RowRequests(currentId))
    {
      var row := table[index];
      var data := new u8[8](k requires 0 <= k < 8 => row[k]);
      assert data[..] == row;
      var speedRequest := ReadSpeed(currentId, data, speed);
      var circleRequest := ReadCircle(currentId, data, circle);
      var angleRequest := ReadAngle(currentId, data, angle);
      table := table[index := data[..]];
      frames := [speedRequest, circleRequest, angleRequest];
      RowFrames(currentId);
      SweepRowReads(row, speed, circle, angle);
    }

    /** The first row whose id is `num`, as `iter().position` finds it. */
    method Position(num: u8) returns (idx: Option<nat>)
      requires Valid()
      ensures idx == FirstIndexOf(Ids(), num)
    {
      var i := 0;
      while i < |table|
        invariant 0 <= i <= |table|
        invariant forall k :: 0 <= k < i ==> table[k][0] != num
      {
        if table[i][0] == num {
          idx := Some(i);
          FirstIndexOfIs(Ids(), num, i);
          return;
        }
        i := i + 1;
      }
      idx := None;
      assert num !in Ids();
    }

    /** Whether some row's id is `num`, as `iter().any` finds it. */
    method Any(num: u8) returns (found: bool)
      requires Valid()
      ensures found <==> num in Ids()
    {
      found := false;
      var i := 0;
      while i < |table| && !found
        invariant 0 <= i <= |table|
        invariant found ==> num in Ids()
        invariant !found ==> forall k :: 0 <= k < i ==> table[k][0] != num
      {
        if table[i][0] == num {
          found := true;
          assert Ids()[i] == num;
        }
        i := i + 1;
      }
    }

    /**
     * One "key" event: act on the first character of the payload (nothing for
     * an empty payload) and return the buffer the node then publishes.
     */
    method OnKey(message: string) returns (published: string)
      requires Valid()
      modifies this
      ensures Valid() && table == old(table)
      ensures Sel() == OnMessage(old(Ids()), old(Sel()), message)
      ensures published == charBuffer
    {
      if message != [] {
        var ch := message[0];
        if ch == Up {
          if displayIndex < encoderNum - 1 {
            displayIndex := displayIndex + 1;
          } else {
            displayIndex := 0;
          }
        } else if ch == Down {
          if displayIndex > 0 {
            displayIndex := displayIndex - 1;
          } else {
            displayIndex := encoderNum - 1;
          }
        } else if ch == Confirm {
          ConfirmBuffer();
        } else if ch == Erase {
          if charBuffer != [] {
            charBuffer := charBuffer[..|charBuffer| - 1];
          }
        } else {
          charBuffer := charBuffer + [ch];
        }
      }
      published := charBuffer;
    }

    /** The confirm key: jump to the id the buffer names, when some row holds it, and clear the buffer. */
    method ConfirmBuffer()
      requires Valid()
      modifies this
      ensures Valid() && table == old(table)
      ensures Sel() == KeyStep(old(Ids()), old(Sel()), Confirm)
    {
      match ExtractNumber(charBuffer) {
        case Some(num) =>
          var present := Any(num);
          if present {
            var idx := Position(num);
            if idx.Some? {
              displayIndex := idx.value;
            }
          }
        case None =>
      }
      charBuffer := [];
    }

    /** What the publishing thread sends: the row at `display_index`, all 8 bytes. */
    method Publish() returns (payload: seq<u8>)
      requires Valid()
      ensures |payload| == 8
      ensures payload == table[displayIndex]
    {
      payload := table[displayIndex];
    }
  }

  /**
   * Start-up: run discovery and, when it finds at least one encoder, create
   * the state from the records it found.
   */
  method Start(outcomes: seq<ProbeOutcome>) returns (result: Result<EncoderState, DiscoveryError>, written: seq<seq<u8>>)
    requires |outcomes| == ScanLast
    ensures written == Frames(ProbeRequests(ScanLast))
    ensures result.Err? <==> Found(outcomes, ScanLast) == []
    ensures result.Ok? ==> fresh(result.value) && result.value.Valid()
    ensures result.Ok? ==> result.value.table == Found(outcomes, ScanLast)
    ensures result.Ok? ==> result.value.displayIndex == 0 && result.value.charBuffer == []
  {
    var found;
    found, written := Discover(outcomes);
    match found {
      case Ok(records) =>
        var state := new EncoderState(records);
        result := Ok(state);
      case Err(e) =>
        result := Err(e);
    }
  }
}
