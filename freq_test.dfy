/**
 * The round-trip timing tool (test/count_encoder_fre/src/main.rs): every
 * iteration builds the speed request for the encoder at address 1, seals it
 * with its own copy of `crc16_modbus`, writes it and waits for the reply.
 *
 * Its `crc16_modbus` is a verbatim copy of the encoder node's; it is modelled
 * here on its own and proved against the same `Crc.Crc16`.
 */
module FreqTest {
  import opened Bytes
  import Crc
  import Encoder

  /** The tool's own `crc16_modbus`: the byte loop with its inner 8-step bit loop. */
  method Crc16Modbus(data: seq<u8>) returns (crc: bv16)
    ensures crc == Crc.Crc16(data)
  {
    crc := 0xFFFF;
    for i := 0 to |data|
      invariant crc == Crc.Crc16(data[..i])
    {
      Crc.Crc16Next(data, i);
      crc := crc ^ data[i] as bv16;
      ghost var mixed := crc;
      for j := 0 to 8
        invariant crc == Crc.Steps(mixed, j)
      {
        assert Crc.Steps(mixed, j + 1) == Crc.Step(crc);
        if crc & 0x0001 != 0 {
          crc := (crc >> 1) ^ 0xA001;
        } else {
          crc := crc >> 1;
        }
      }
    }
    assert data[..|data|] == data;
  }

  /** The request the tool sends: two speed registers of the encoder at address 1. */
  const SpeedRequestHeader: seq<u8> := [0x01, 0x03, 0x00, 0x42, 0x00, 0x02]

  /**
   * One iteration's frame: the zero-padded 8-byte array, with bytes 6 and 7
   * overwritten by the CRC of the first six, low byte first.
   */
  method SpeedRequest() returns (sendData: array<u8>)
    ensures fresh(sendData)
    ensures sendData[..] == Encoder.RequestFrame(0x01, Encoder.SpeedRegister, 0x02)
    ensures Crc.Crc16(sendData[..]) == 0
  {
    sendData := new u8[8] [0x01, 0x03, 0x00, 0x42, 0x00, 0x02, 0x00, 0x00];
    var crc := Crc16Modbus(sendData[..6]);
    sendData[6] := Crc.Low(crc);
    sendData[7] := Crc.High(crc);
    assert sendData[..6] == Encoder.RequestHeader(0x01, Encoder.SpeedRegister, 0x02);
    assert sendData[..] == sendData[..6] + Crc.CrcBytes(crc);
    Encoder.RequestFrameCrc(0x01, Encoder.SpeedRegister, 0x02);
  }

  /** The bytes on the wire: the CRC of the header is 0x1F64, so the frame ends 0x64, 0x1F. */
  lemma {:induction false} SpeedRequestBytes()
    ensures Encoder.RequestFrame(0x01, Encoder.SpeedRegister, 0x02) == [0x01, 0x03, 0x00, 0x42, 0x00, 0x02, 0x64, 0x1F]
  {
    var s := SpeedRequestHeader;
    Crc.Crc16Snoc(s[..0], s[0]); Crc.StepsEight(0xFFFF ^ 0x01);
    assert s[..1] == s[..0] + [s[0]];
    assert Crc.Crc16(s[..1]) == 0x807E;
    Crc.Crc16Snoc(s[..1], s[1]); Crc.StepsEight(0x807E ^ 0x03);
    assert s[..2] == s[..1] + [s[1]];
    assert Crc.Crc16(s[..2]) == 0x2140;
    Crc.Crc16Snoc(s[..2], s[2]); Crc.StepsEight(0x2140 ^ 0x00);
    assert s[..3] == s[..2] + [s[2]];
    assert Crc.Crc16(s[..3]) == 0xF020;
    Crc.Crc16Snoc(s[..3], s[3]); Crc.StepsEight(0xF020 ^ 0x42);
    assert s[..4] == s[..3] + [s[3]];
    assert Crc.Crc16(s[..4]) == 0xE971;
    Crc.Crc16Snoc(s[..4], s[4]); Crc.StepsEight(0xE971 ^ 0x00);
    assert s[..5] == s[..4] + [s[4]];
    assert Crc.Crc16(s[..5]) == 0x2429;
    Crc.Crc16Snoc(s[..5], s[5]); Crc.StepsEight(0x2429 ^ 0x02);
    assert s[..6] == s[..5] + [s[5]];
    assert Crc.Crc16(s[..6]) == 0x1F64;
    assert s[..6] == s;
    var f := Encoder.RequestFrame(0x01, Encoder.SpeedRegister, 0x02);
    assert f[..6] == s;
    assert f[6] == Crc.Low(0x1F64) && f[7] == Crc.High(0x1F64);
  }
}
