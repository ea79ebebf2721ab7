/**
 * The C version of the timing tool (test/count_encoder_fre/main.c): a
 * pointer-and-length `crc16_modbus` with index loops, and the same speed
 * request sealed with `crc & 0xFF` and `(crc >> 8) & 0xFF`.
 */
module FreqTestC {
  import opened Bytes
  import Crc
  import Encoder

  /**
   * `crc16_modbus(data, length)`: reads `data[0]` to `data[length - 1]` in
   * order, and nothing past `length`, and returns their CRC.
   */
  method Crc16Modbus(data: array<u8>, length: nat) returns (crc: bv16)
    requires length <= data.Length
    ensures crc == Crc.Crc16(data[..length])
  {
    crc := 0xFFFF;
    var i := 0;
    while i < length
      invariant 0 <= i <= length
      invariant crc == Crc.Crc16(data[..i])
    {
      ghost var before := crc;
      crc := crc ^ data[i] as bv16;
      ghost var mixed := crc;
      assert Crc.UpdateByte(before, data[i]) == Crc.Steps(mixed, 8);
      assert data[..i + 1] == data[..i] + [data[i]];
      Crc.Crc16Snoc(data[..i], data[i]);
      var j := 0;
      while j < 8
        invariant 0 <= j <= 8
        invariant crc == Crc.Steps(mixed, j)
      {
        assert Crc.Steps(mixed, j + 1) == Crc.Step(crc);
        if crc & 0x0001 != 0 {
          crc := (crc >> 1) ^ 0xA001;
        } else {
          crc := crc >> 1;
        }
        j := j + 1;
      }
      i := i + 1;
    }
  }

  /** One iteration's frame, sealed in place; `& 0xFF` on the high byte changes nothing. */
  method SpeedRequest() returns (sendData: array<u8>)
    ensures fresh(sendData)
    ensures sendData[..] == Encoder.RequestFrame(0x01, Encoder.SpeedRegister, 0x02)
    ensures Crc.Crc16(sendData[..]) == 0
  {
    sendData := new u8[8] [0x01, 0x03, 0x00, 0x42, 0x00, 0x02, 0x00, 0x00];
    var crc := Crc16Modbus(sendData, 6);
    ghost var header := sendData[..6];
    sendData[6] := Crc.Low(crc);
    sendData[7] := Crc.Low(crc >> 8);
    assert sendData[..6] == header == Encoder.RequestHeader(0x01, Encoder.SpeedRegister, 0x02);
    MaskedHigh(crc);
    assert sendData[..] == sendData[..6] + Crc.CrcBytes(crc);
    Encoder.RequestFrameCrc(0x01, Encoder.SpeedRegister, 0x02);
  }

  /** The extra `& 0xFF` on the high byte is a no-op: it selects the same byte as the Rust `>> 8`. */
  lemma MaskedHigh(c: bv16)
    ensures Crc.Low(c >> 8) == Crc.High(c)
  {
    assert (c >> 8) & 0xFF == c >> 8;
  }
}
