/**
 * The display node (oled_display/src/main.rs): it decodes each 8-byte
 * `encoder_data` record into the id, the turn count, the raw angle and the
 * raw speed, pushes one line per field and the typed prompt into its print
 * buffer, and renders; a `char_buffer` input replaces the prompt text.
 *
 * The record layout, written by the encoder node, is
 * `[id, angle_hi, angle_lo, turns, speed_3, speed_2, speed_1, speed_0]`.
 */
module OledDisplay {
  import opened Wrappers
  import opened Bytes
  import Encoder
  import Selection

  // ---------------------------------------------------------------- decoding

  /** The value of bytes read as one unsigned big-endian number. */
  function BigEndian(b: seq<u8>): (v: nat)
    ensures b != [] ==> v % 256 == b[|b| - 1] as int
    decreases |b|
  {
    if b == [] then 0 else BigEndian(b[..|b| - 1]) * 256 + b[|b| - 1] as int
  }

  /** Two bytes, most significant first. */
  lemma BigEndian2(b: seq<u8>)
    requires |b| == 2
    ensures BigEndian(b) == (b[0] as int) * 0x100 + b[1] as int
  {
    assert b[..1][..0] == [];
    assert BigEndian(b[..1]) == b[0] as int;
  }

  /** Four bytes, most significant first. */
  lemma BigEndian4(b: seq<u8>)
    requires |b| == 4
    ensures BigEndian(b) == (b[0] as int) * 0x100_0000 + (b[1] as int) * 0x1_0000 + (b[2] as int) * 0x100 + b[3] as int
  {
    assert b[..3][..2] == b[..2];
    BigEndian2(b[..2]);
  }

  /** `byte as i8`: the value in -128..127 that is congruent to the byte modulo 256. */
  function AsI8(b: u8): (v: int)
    ensures -0x80 <= v < 0x80 && (v + 0x100) % 0x100 == b as int
  {
    if b as int < 0x80 then b as int else b as int - 0x100
  }

  /** The 32-bit two's-complement reading of an unsigned value below 2^32. */
  function AsI32(u: nat): (v: int)
    requires u < 0x1_0000_0000
    ensures -0x8000_0000 <= v < 0x8000_0000 && (v + 0x1_0000_0000) % 0x1_0000_0000 == u
  {
    if u < 0x8000_0000 then u else u - 0x1_0000_0000
  }

  /** The displayed id: byte 0. */
  function DisplayedId(data: seq<u8>): (id: nat)
    requires |data| >= 8
    ensures id < 0x100
  {
    data[0] as int
  }

  /** The turn count: byte 3 reinterpreted as a signed byte. */
  function TurnCount(data: seq<u8>): (t: int)
    requires |data| >= 8
    ensures -0x80 <= t < 0x80
  {
    AsI8(data[3])
  }

  /** The raw angle: bytes 1 and 2 as one big-endian 16-bit register. */
  function AngleRaw(data: seq<u8>): (a: nat)
    requires |data| >= 8
    ensures a < 0x1_0000 && a / 0x100 == data[1] as int && a % 0x100 == data[2] as int
  {
    (data[1] as int) * 0x100 + data[2] as int
  }

  /** The raw speed (hundredths of RPM): bytes 4 to 7 as a big-endian signed 32-bit value, the shifts and ORs done in `i32`. */
  function SpeedRaw(data: seq<u8>): (v: int)
    requires |data| >= 8
    ensures -0x8000_0000 <= v < 0x8000_0000
    ensures (v + 0x1_0000_0000) % 0x1_0000_0000 == BigEndian(data[4..8])
  {
    BigEndian4(data[4..8]);
    AsI32((data[4] as int) * 0x100_0000 + (data[5] as int) * 0x1_0000 + (data[6] as int) * 0x100 + data[7] as int)
  }

  /** The fields of a record, decoded. */
  datatype Telemetry = Telemetry(id: nat, angle: nat, turns: int, speed: int)

  /** Field ranges a record can carry. */
  predicate InRange(t: Telemetry) {
    && t.id < 0x100 && t.angle < 0x1_0000
    && -0x80 <= t.turns < 0x80 && -0x8000_0000 <= t.speed < 0x8000_0000
  }

  /** What the node reads from a record. */
  function Decode(data: seq<u8>): (t: Telemetry)
    requires |data| >= 8
    ensures InRange(t)
  {
    Telemetry(DisplayedId(data), AngleRaw(data), TurnCount(data), SpeedRaw(data))
  }

  /** The four bytes of a value below 2^32, most significant first. */
  function BigEndian32(u: nat): (b: seq<u8>)
    requires u < 0x1_0000_0000
    ensures |b| == 4 && BigEndian(b) == u
  {
    Split32(u);
    var b := [(u / 0x100_0000) as u8, ((u / 0x1_0000) % 0x100) as u8, ((u / 0x100) % 0x100) as u8, (u % 0x100) as u8];
    BigEndian4(b);
    b
  }

  /** The record that carries the given fields, in the encoder's layout. */
  function Layout(t: Telemetry): (r: Encoder.Record)
    requires InRange(t)
  {
    [t.id as u8, (t.angle / 0x100) as u8, (t.angle % 0x100) as u8, ((t.turns + 0x100) % 0x100) as u8]
      + BigEndian32((t.speed + 0x1_0000_0000) % 0x1_0000_0000)
  }

  /** A value below 2^32 is recovered from its four bytes, most significant first. */
  lemma Split32(u: nat)
    requires u < 0x1_0000_0000
    ensures u / 0x100_0000 < 0x100
    ensures u == (u / 0x100_0000) * 0x100_0000 + ((u / 0x1_0000) % 0x100) * 0x1_0000 + ((u / 0x100) % 0x100) * 0x100 + u % 0x100
  {
    var q1 := u / 0x100;
    var q2 := q1 / 0x100;
    var q3 := q2 / 0x100;
    assert u == q1 * 0x100 + u % 0x100;
    assert q1 == q2 * 0x100 + q1 % 0x100;
    assert q2 == q3 * 0x100 + q2 % 0x100;
    assert q2 == u / 0x1_0000;
    assert q3 == u / 0x100_0000;
  }

  /** Four byte values are recovered, most significant first, from the number they spell. */
  lemma JoinDigits(b0: int, b1: int, b2: int, b3: int)
    requires 0 <= b0 < 0x100 && 0 <= b1 < 0x100 && 0 <= b2 < 0x100 && 0 <= b3 < 0x100
    ensures var u := b0 * 0x100_0000 + b1 * 0x1_0000 + b2 * 0x100 + b3;
      u / 0x100_0000 == b0 && (u / 0x1_0000) % 0x100 == b1 && (u / 0x100) % 0x100 == b2 && u % 0x100 == b3
  {
    var u := b0 * 0x100_0000 + b1 * 0x1_0000 + b2 * 0x100 + b3;
    var q1 := b0 * 0x1_0000 + b1 * 0x100 + b2;
    var q2 := b0 * 0x100 + b1;
    assert u == q1 * 0x100 + b3;
    assert q1 == q2 * 0x100 + b2;
    assert u / 0x100 == q1 && u % 0x100 == b3;
    assert q1 / 0x100 == q2 && q1 % 0x100 == b2;
    assert q2 / 0x100 == b0 && q2 % 0x100 == b1;
    assert u / 0x1_0000 == q2;
    assert u / 0x100_0000 == b0;
  }

  /** Four bytes are recovered from the value they spell, most significant first. */
  lemma Join32(b: seq<u8>)
    requires |b| == 4
    ensures BigEndian(b) < 0x1_0000_0000 && BigEndian32(BigEndian(b)) == b
  {
    var b0, b1, b2, b3 := b[0] as int, b[1] as int, b[2] as int, b[3] as int;
    BigEndian4(b);
    var u := BigEndian(b);
    assert u == b0 * 0x100_0000 + b1 * 0x1_0000 + b2 * 0x100 + b3;
    JoinDigits(b0, b1, b2, b3);
    assert u / 0x100_0000 == b0 && (u / 0x1_0000) % 0x100 == b1;
    assert (u / 0x100) % 0x100 == b2 && u % 0x100 == b3;
    var r := BigEndian32(u);
    assert r == [b0 as u8, b1 as u8, b2 as u8, b3 as u8];
  }

  /** A signed byte survives being stored as a byte and read back as `i8`. */
  lemma I8RoundTrip(v: int)
    requires -0x80 <= v < 0x80
    ensures AsI8(((v + 0x100) % 0x100) as u8) == v
  {
  }

  /** A signed 32-bit value survives being stored modulo 2^32 and read back as `i32`. */
  lemma I32RoundTrip(v: int)
    requires -0x8000_0000 <= v < 0x8000_0000
    ensures AsI32((v + 0x1_0000_0000) % 0x1_0000_0000) == v
  {
  }

  /** Decoding the layout of in-range fields gives the fields back. */
  lemma DecodeLayout(t: Telemetry)
    requires InRange(t)
    ensures Decode(Layout(t)) == t
  {
    var r := Layout(t);
    var speed := (t.speed + 0x1_0000_0000) % 0x1_0000_0000;
    assert r[4..8] == BigEndian32(speed);
    I32RoundTrip(t.speed);
    assert SpeedRaw(r) == t.speed;
    assert t.angle == (t.angle / 0x100) * 0x100 + t.angle % 0x100;
    assert AngleRaw(r) == t.angle;
    I8RoundTrip(t.turns);
    assert TurnCount(r) == t.turns;
  }

  /** Laying out the fields decoded from a record gives the record back: the layout is a bijection. */
  lemma LayoutDecode(data: Encoder.Record)
    ensures Layout(Decode(data)) == data
  {
    var t := Decode(data);
    assert (t.speed + 0x1_0000_0000) % 0x1_0000_0000 == BigEndian(data[4..8]);
    Join32(data[4..8]);
    assert (t.turns + 0x100) % 0x100 == data[3] as int;
    var r := Layout(t);
    assert r[..4] == data[..4];
    assert r[4..] == data[4..8];
    assert r == r[..4] + r[4..];
    assert data == data[..4] + data[4..8];
  }

  /**
   * A record refreshed by a sweep shows the id it had, the first big-endian
   * register of the angle reply, the low byte of the circle register as a
   * signed count, and the two speed registers as one signed 32-bit value.
   */
  lemma DecodeSweptRow(rec: Encoder.Record, speed: seq<u8>, circle: seq<u8>, angle: seq<u8>)
    requires |speed| <= Encoder.ResponseCapacity && |circle| <= Encoder.ResponseCapacity && |angle| <= Encoder.ResponseCapacity
    ensures var t := Decode(Encoder.SweepRow(rec, speed, circle, angle));
      var a := Encoder.ResponseBuffer(angle);
      var c := Encoder.ResponseBuffer(circle);
      var s := Encoder.ResponseBuffer(speed);
      && t.id == rec[0] as int
      && t.angle == BigEndian(a[3..5])
      && t.turns == AsI8(c[4])
      && (t.speed + 0x1_0000_0000) % 0x1_0000_0000 == BigEndian(s[3..7])
  {
    var row := Encoder.SweepRow(rec, speed, circle, angle);
    Encoder.SweepRowContents(rec, speed, circle, angle);
    var a := Encoder.ResponseBuffer(angle);
    var s := Encoder.ResponseBuffer(speed);
    BigEndian2(a[3..5]);
    assert row[4..8] == s[3..7];
  }

  // ---------------------------------------------------------------- lines

  /** Signed decimal notation, as `{}` prints an integer. */
  function Decimal(v: int): (s: string)
    ensures s != []
  {
    if v < 0 then "-" + Selection.Digits(-v) else Selection.Digits(v)
  }

  /** A line of the print buffer; the speed and angle lines keep their raw value, their text is floating point. */
  datatype Line = SpeedLine(speed: int) | AngleLine(angle: nat) | Text(text: string)

  /** "ID: <id>  ". */
  function IdText(id: nat): string {
    "ID: " + Selection.Digits(id) + "  "
  }

  /** The lines pushed for one record, in order, before it is rendered. */
  function RecordLines(data: seq<u8>, prompt: string): (lines: seq<Line>)
    requires |data| >= 8
    ensures |lines| == 5
  {
    [SpeedLine(SpeedRaw(data)), Text("CIRCLE: " + Decimal(TurnCount(data)) + "\n"),
     AngleLine(AngleRaw(data)), Text(IdText(DisplayedId(data))), Text("$ " + prompt)]
  }

  /** The id on the screen is what the selector parses back: typing the shown digits selects that id. */
  lemma ShownIdSelects(data: seq<u8>)
    requires |data| >= 8
    ensures var line := IdText(DisplayedId(data));
      Selection.ExtractNumber(line[4..|line| - 2]) == Some(data[0])
  {
    var line := IdText(DisplayedId(data));
    assert line[4..|line| - 2] == Selection.Digits(data[0] as int);
    Selection.ExtractDigits(data[0]);
  }

  // ---------------------------------------------------------------- the node

  /** An event the node receives. `Other` is an input with another id; `Control` is any non-input event. */
  datatype Incoming = EncoderData(data: seq<u8>) | CharBuffer(text: string) | Other(id: string) | Control

  /** The node's state: the prompt text, every line pushed so far, and what was in the buffer at each render. */
  datatype Screen = Screen(current: string, pushed: seq<Line>, renders: seq<seq<Line>>)

  /** The effect of one event, or None when a record shorter than 8 bytes makes the node panic. */
  function Handle(s: Screen, ev: Incoming): Option<Screen> {
    match ev {
      case EncoderData(data) =>
        if |data| < 8 then None
        else
          var shown := s.pushed + RecordLines(data, s.current);
          Some(Screen(s.current, shown + [Text("\n")], s.renders + [shown]))
      case CharBuffer(text) => Some(s.(current := text))
      case Other(_) => Some(s)
      case Control => Some(s)
    }
  }

  /** The state after a series of events, and whether the node got through all of them. */
  function Replay(s: Screen, events: seq<Incoming>): (Screen, bool)
    decreases |events|
  {
    if events == [] then (s, true)
    else match Handle(s, events[0]) {
      case None => (s, false)
      case Some(next) => Replay(next, events[1..])
    }
  }

  /**
   * A `char_buffer` input followed by a record renders that record with the
   * new text as its prompt, the record's five lines last in the buffer.
   */
  lemma PromptFollowsCharBuffer(s: Screen, text: string, data: seq<u8>)
    requires |data| >= 8
    ensures var r := Replay(s, [CharBuffer(text), EncoderData(data)]);
      && r.1
      && r.0.current == text
      && r.0.renders == s.renders + [s.pushed + RecordLines(data, text)]
      && r.0.renders[|r.0.renders| - 1][|r.0.renders[|r.0.renders| - 1]| - 1] == Text("$ " + text)
  {
    var after := s.(current := text);
    assert Replay(s, [CharBuffer(text), EncoderData(data)]) == Replay(after, [EncoderData(data)]);
    var shown := s.pushed + RecordLines(data, text);
    assert Replay(after, [EncoderData(data)]) == Replay(Screen(text, shown + [Text("\n")], s.renders + [shown]), []);
  }

  /** Every render adds exactly one record's lines and one newline afterwards; renders only grow. */
  lemma {:induction false} ReplayGrows(s: Screen, events: seq<Incoming>)
    ensures var r := Replay(s, events).0;
      && |r.renders| >= |s.renders| && r.renders[..|s.renders|] == s.renders
      && |r.pushed| == |s.pushed| + 6 * (|r.renders| - |s.renders|)
      && r.pushed[..|s.pushed|] == s.pushed
    decreases |events|
  {
    if events != [] {
      match Handle(s, events[0]) {
        case None =>
        case Some(next) =>
          ReplayGrows(next, events[1..]);
      }
    }
  }

  /** The node's state in fields, as `main` holds it in locals. */
  class Display {
    /** `current_buffer`: the prompt text. */
    var current: string
    /** The lines pushed into `print_buf`, oldest first. */
    var pushed: seq<Line>
    /** What `print_buf` held at each `display_buffer` call. */
    var renders: seq<seq<Line>>

    ghost function State(): Screen
      reads this
    {
      Screen(current, pushed, renders)
    }

    /** Start-up: an empty prompt and an empty print buffer. */
    constructor ()
      ensures State() == Screen([], [], [])
    {
      current := [];
      pushed := [];
      renders := [];
    }

    /** An `encoder_data` input of at least 8 bytes: push the five lines, render, push a newline. */
    method OnEncoderData(data: seq<u8>)
      requires |data| >= 8
      modifies this
      ensures Some(State()) == Handle(old(State()), EncoderData(data))
    {
      ghost var lines := RecordLines(data, current);
      pushed := pushed + [SpeedLine(SpeedRaw(data))];
      pushed := pushed + [Text("CIRCLE: " + Decimal(TurnCount(data)) + "\n")];
      pushed := pushed + [AngleLine(AngleRaw(data))];
      pushed := pushed + [Text(IdText(DisplayedId(data)))];
      pushed := pushed + [Text("$ " + current)];
      assert pushed == old(pushed) + lines;
      renders := renders + [pushed];
      pushed := pushed + [Text("\n")];
    }

    /** A `char_buffer` input: the text replaces the prompt wholesale. */
    method OnCharBuffer(text: string)
      modifies this
      ensures Some(State()) == Handle(old(State()), CharBuffer(text))
    {
      current := text;
    }

    /** The event loop; `completed` is false when a short record stopped the node. */
    method Run(events: seq<Incoming>) returns (completed: bool)
      modifies this
      ensures (State(), completed) == Replay(old(State()), events)
    {
      var i := 0;
      while i < |events|
        invariant 0 <= i <= |events|
        invariant Replay(State(), events[i..]) == Replay(old(State()), events)
      {
        assert events[i..][1..] == events[i + 1..];
        match events[i] {
          case EncoderData(data) =>
            if |data| < 8 {
              return false;
            }
            OnEncoderData(data);
          case CharBuffer(text) =>
            OnCharBuffer(text);
          case Other(_) =>
          case Control =>
        }
        i := i + 1;
      }
      completed := true;
    }
  }
}
