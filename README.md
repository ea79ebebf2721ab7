# dora_encoder: the Modbus RTU polling and selection core, in Dafny

The system reads several rotary encoders that share one RS-485 bus. It lets an
operator pick one of them from a keyboard and republishes the picked encoder's
telemetry to a small OLED display. This project models the parts of it that are
pure rules over bytes, integers and characters:

- **The CRC** (module `Crc`). This is the Modbus RTU CRC-16 of section 2.5.1.2
  of the MODBUS over Serial Line Specification V1.02: reflected polynomial
  0xA001, initial value 0xFFFF, no final XOR, low byte sent first. `Crc16` is
  the specification. The three copies of `crc16_modbus` are proved to compute
  it: the encoder node's, the Rust timing tool's (a verbatim copy of the
  encoder's) and the C timing tool's (pointer and length).
- **Request frames** (module `Encoder`). Every request is a Read Holding
  Registers request, function 0x03 of section 6.3 of the MODBUS Application
  Protocol Specification V1.1b3: `[id, 0x03, 0x00, register, 0x00, count,
  crc_lo, crc_hi]`. The CRC covers the first six bytes.
- **Discovery.** The node probes ids 1 to 10 in order. It keeps a zeroed
  8-byte record for each id whose probe was answered, and fails when none
  was.
- **The register reads and one polling sweep.** `read_speed`, `read_circle`
  and `read_angle` copy fixed bytes of a zero-filled 256-byte reply buffer
  into fixed slots of a record `[id, angle_hi, angle_lo, turns, speed_3..0]`.
  A sweep does this for every record in table order.
- **The selector** (module `Selection`, class `EncoderMain.EncoderState`).
  `display_index` moves with the arrow keys and wraps around. `char_buffer`
  collects typed characters. Enter parses the buffer with `extract_number`
  and jumps to the first record with that id.
- **The keyboard node** (module `Keyboard`). It maps Linux key codes to key
  names and sends the UTF-8 bytes of the name on every key press (module
  `Utf8` models the encoding).
- **The display node** (module `OledDisplay`). It decodes a record into id,
  turn count, raw angle and raw speed. It pushes one line per field plus the
  typed prompt, and renders.

The serial port, the dora runtime, the input device and the I2C display are
not modelled as devices. What they deliver is a parameter: the outcome of each
probe, the bytes of each reply, the read results of the keyboard, the events
of the display. What the nodes write to them is a result: the frames written,
the payloads sent, the lines pushed.

## Model

| member | source | states |
|---|---|---|
| Crc.EmptyIsInit | encoder/src/main.rs:202-215 | the CRC of the empty message is the initial value 0xFFFF |
| Crc.Crc16Snoc | encoder/src/main.rs:204-213 | one more byte XORs into the low half of the accumulator and is followed by exactly eight shift/XOR-0xA001 steps |
| Crc.Crc16Next | encoder/src/main.rs:204-213 | the CRC of a prefix one byte longer is eight bit steps of the previous CRC XOR that byte |
| Crc.Crc16Extend | encoder/src/main.rs:204-213 | a known CRC of a message and one byte step give the CRC of the extended message |
| Crc.Halves | encoder/src/main.rs:30-31 | `crc & 0xFF` and `crc >> 8`, stored as bytes and widened back, are the low and the high half of the CRC |
| Crc.Rebuild | encoder/src/main.rs:30-31 | the two transmitted bytes, high shifted over low, recompose the CRC |
| Crc.ResidueStep | encoder/src/main.rs:204-213 | feeding any accumulator its own low then high byte brings it to zero |
| Crc.FrameResidue | encoder/src/main.rs:28-31 | a message followed by its CRC, low byte first, has CRC zero (the receiver's check) |
| Crc.CheckValue | encoder/src/main.rs:202-215 | the CRC of ASCII "123456789" is 0x4B37, the published check value of CRC-16/MODBUS |
| Encoder.Crc16Modbus | encoder/src/main.rs:202-215 | the nested byte and bit loops return exactly `Crc16` of the input |
| FreqTest.Crc16Modbus | test/count_encoder_fre/src/main.rs:64-77 | the timing tool's copy returns `Crc16` of the input, so it agrees with the encoder's on every byte sequence; 0xFFFF for the empty input |
| Encoder.RequestFrame | encoder/src/main.rs:167-170 | a request is 8 bytes: id, 0x03, 0x00, register, 0x00, count, then the two CRC bytes |
| Encoder.RequestFrameCrc | encoder/src/main.rs:168-170 | bytes 6 and 7 recompose the CRC of bytes 0..5 only, and the whole frame has CRC zero |
| Encoder.SealRequest | encoder/src/main.rs:168-170 | sealing keeps bytes 0..5 and writes their CRC, low byte first, into bytes 6 and 7 |
| Encoder.NewRequest | encoder/src/main.rs:179-182 | the literal-then-seal construction yields exactly `RequestFrame` of its id, register and count |
| Encoder.FramesAt | encoder/src/main.rs:32 | the k-th frame written is the frame of the k-th request |
| Encoder.FramesAppend | encoder/src/main.rs:71-76 | the frames of consecutive request lists are written one list after the other |
| Encoder.FreshRecord | encoder/src/main.rs:42 | a discovered record holds its id in slot 0 and zeros everywhere else |
| Encoder.ProbeRequestsStep | encoder/src/main.rs:27-31 | probing one more id writes one more angle-register probe, for that id |
| Encoder.Discover | encoder/src/main.rs:27-55 | one probe frame per id 1..=10 in ascending order whatever the outcome; the result is the records of the ids whose read returned n > 0, in order, or an error exactly when there are none; on success at least one record |
| Encoder.FoundShape | encoder/src/main.rs:27-51 | discovered ids lie in 1..=10 and strictly increase (so they are unique); all telemetry bytes start at zero |
| Encoder.FoundMembers | encoder/src/main.rs:38-50 | an id is in the table exactly when its write succeeded and its read returned at least one byte |
| Encoder.FoundEmpty | encoder/src/main.rs:53-55 | the table is empty, and discovery fails, exactly when no probe got an answer |
| Encoder.ResponseBuffer | encoder/src/main.rs:173-174 | the 256-byte reply buffer holds the delivered bytes, then zeros: the count `read` returns is ignored |
| Encoder.ResponseBufferAt | encoder/src/main.rs:185-187 | byte k of the reply buffer is byte k of the reply, or 0 past its end |
| Encoder.PlacementSlots | encoder/src/main.rs:175 | each placement writes only its own slots (4..=7, 3, 1..=2); slot 0, the id, is never written |
| Encoder.ReadSpeed | encoder/src/main.rs:166-176 | writes the speed request (register 0x42, two registers) and copies reply bytes 3..=6 into slots 4..=7, nothing else |
| Encoder.ReadCircle | encoder/src/main.rs:178-188 | writes the turn-count request (register 0x44, one register) and copies reply byte 4 into slot 3, nothing else |
| Encoder.ReadAngle | encoder/src/main.rs:190-200 | writes the angle request (register 0x41, one register) and copies reply bytes 3..=4 into slots 1..=2, nothing else |
| Encoder.SweepRowReads | encoder/src/main.rs:73-75 | speed, circle and angle reads in that order produce the swept row |
| Encoder.SweepRowContents | encoder/src/main.rs:72-75 | a swept row is its id followed by exactly the copied reply bytes; no previous telemetry survives and short replies show as zeros |
| Encoder.SweepTable | encoder/src/main.rs:70-76 | a sweep keeps the table's length and its id column |
| Encoder.SweepStep | encoder/src/main.rs:71-76 | refreshing row i of a table swept up to i sweeps it up to i + 1 and leaves the later rows alone |
| Encoder.SweepDone | encoder/src/main.rs:71-76 | a table swept up to its last row is the swept table |
| Encoder.RowFrames | encoder/src/main.rs:73-75 | one row's step writes the speed, circle and angle request frames for its id, in that order |
| Encoder.SweepFramesStep | encoder/src/main.rs:71-76 | the frames of a sweep over one more row are the previous frames plus that row's three |
| Encoder.SweepRequestsAt | encoder/src/main.rs:71-76 | a sweep makes 3n requests; requests 3i..3i+2 are the speed, circle and angle requests to row i's id |
| Encoder.SweepRequestsLength | encoder/src/main.rs:71-76 | a sweep over n ids makes 3n requests |
| EncoderMain.Start | encoder/src/main.rs:27-62 | start-up fails exactly when discovery finds nothing; otherwise the table is the discovered records, the index 0 and the buffer empty |
| EncoderMain.EncoderState.constructor | encoder/src/main.rs:56-62 | the initial state: the records, `display_index` 0, an empty `char_buffer` |
| EncoderMain.EncoderState.Sweep | encoder/src/main.rs:70-76 | one sweep leaves the selector alone, makes the table `SweepTable` of the old one and the replies (so ids and length are kept), and writes the frames of `SweepRequests` of the id column |
| EncoderMain.EncoderState.RefreshRow | encoder/src/main.rs:72-75 | only row `index` changes, to its swept value, and the row's three frames are written |
| EncoderMain.EncoderState.Any | encoder/src/main.rs:131 | true exactly when some row's id is `num` |
| EncoderMain.EncoderState.Position | encoder/src/main.rs:132-133 | the first row whose id is `num`, or none |
| EncoderMain.EncoderState.OnKey | encoder/src/main.rs:106-155 | a key event changes the selector exactly as `Selection.OnMessage`, keeps the table and the index bound, and publishes the new buffer |
| EncoderMain.EncoderState.ConfirmBuffer | encoder/src/main.rs:127-142 | Enter acts as `Selection.KeyStep` on the confirm key |
| EncoderMain.EncoderState.Publish | encoder/src/main.rs:85-87 | the publisher sends the whole 8-byte row at `display_index` |
| Selection.ParseU8FromCorrect | encoder/src/main.rs:219 | accumulating the digits after a prefix that denotes a byte fails exactly when the whole string's value exceeds 255, and otherwise gives that value |
| Selection.ParseU8Correct | encoder/src/main.rs:219 | `parse::<u8>` on a digit string fails on the empty string and on a value above 255, and otherwise gives the decimal value |
| Selection.ExtractNumber | encoder/src/main.rs:217-223 | `Some` exactly for a non-empty all-ASCII-digit buffer whose value is at most 255, and then that value |
| Selection.LeadingZero | encoder/src/main.rs:217-223 | a leading zero never changes the result of `extract_number` |
| Selection.ExtractDigits | encoder/src/main.rs:217-223 | the decimal digits of any byte parse back to that byte |
| Selection.NextIndex | encoder/src/main.rs:111-118 | '↑' gives (i + 1) mod n: increment, wrapping to 0 after the last row |
| Selection.PrevIndex | encoder/src/main.rs:119-126 | '↓' gives (i + n - 1) mod n: decrement, wrapping to the last row below 0 |
| Selection.NextPrevInverse | encoder/src/main.rs:111-126 | '↓' undoes '↑' and '↑' undoes '↓' |
| Selection.UpsCycle | encoder/src/main.rs:111-118 | k presses of '↑' from i reach (i + k) mod n, for every k; a multiple of n presses comes back to the start |
| Selection.FirstIndexOf | encoder/src/main.rs:132-133 | the found position holds `num` and no earlier one does; none exactly when no row holds it |
| Selection.FirstIndexOfIs | encoder/src/main.rs:132-133 | a position holding `num` with none before it is what `FirstIndexOf` finds |
| Selection.KeyStep | encoder/src/main.rs:110-148 | every key keeps the index inside the table |
| Selection.OnMessage | encoder/src/main.rs:109 | only the first character of the payload acts; an empty payload changes nothing |
| Selection.ConfirmEffect | encoder/src/main.rs:127-142 | Enter always clears the buffer; it moves to the first row holding the parsed id when there is one, otherwise it keeps the index |
| Selection.EditEffect | encoder/src/main.rs:143-148 | '⌫' drops the last character (nothing when empty); any other non-control key is appended; the arrows keep the buffer |
| Selection.TypeDigits | encoder/src/main.rs:146-148 | typing digits appends them to the buffer and keeps the index |
| Selection.TypeIdAndConfirm | encoder/src/main.rs:127-148 | from an empty buffer, typing an id present in the table and pressing Enter selects the first row with that id and clears the buffer |
| Keyboard.KeyString | keyboard/src/main.rs:36-120 | every code has a non-empty name |
| Keyboard.UnlistedIsQuestionMark | keyboard/src/main.rs:36-120 | a code is named "?" exactly when it is not listed: the map is total and "?" names no listed key |
| Keyboard.DigitKeys | keyboard/src/main.rs:37-46 | codes 2..=10 name "1".."9" and 11 names "0": the digits of (code - 1) mod 10 |
| Keyboard.NavigationKeys | keyboard/src/main.rs:109-114 | exactly code 103 starts with the encoder's '↑' and exactly code 108 with its '↓' |
| Keyboard.EditKeys | keyboard/src/main.rs:49-63 | exactly code 28 starts with '\n' (confirm) and exactly code 14 with '⌫' (erase) |
| Keyboard.EventPayload | keyboard/src/main.rs:33-34 | an event produces a payload exactly when it is a key event (`type_ == 1`) and a press (`value == 1`) |
| Keyboard.PayloadDecodes | keyboard/src/main.rs:122-123 | the payload is the UTF-8 bytes of the key name: decoding it gives the name back |
| Keyboard.NothingAfterDisconnect | keyboard/src/main.rs:135-138 | after end-of-file the node sends nothing more |
| Keyboard.SentArePresses | keyboard/src/main.rs:25-134 | every payload sent came from some key-press event read from the device |
| Keyboard.SentAppend | keyboard/src/main.rs:25-134 | reads with no end-of-file among them send their payloads before those of any later reads |
| Keyboard.PressIsSent | keyboard/src/main.rs:122-130 | every key press read before the first end-of-file is sent, after the payloads of the earlier reads and before those of the later ones |
| Keyboard.SentSource | keyboard/src/main.rs:25-134 | names the read that produced the k-th sent payload |
| Keyboard.Run | keyboard/src/main.rs:25-144 | the loop sends `Sent` of its read results: payloads in order, read errors skipped, stopping at end-of-file |
| Keyboard.PressDrivesSelector | keyboard/src/main.rs:37-114 | received by the encoder, codes 103 and 108 move the index, 28 confirms, 14 erases and a digit key appends its digit |
| Utf8.EncodeChar | keyboard/src/main.rs:123 | one to four bytes per character, one exactly for ASCII, continuation bytes after the first |
| Utf8.Encode | keyboard/src/main.rs:123 | the encoding of a string starts with the encoding of its first character |
| Utf8.DecodeEncodeChar | keyboard/src/main.rs:123 | decoding the first character of an encoding gives it back with its length |
| Utf8.DecodeEncode | encoder/src/main.rs:106-109 | decoding the UTF-8 bytes of any string gives the string back |
| Utf8.DecodeEncodeFirst | encoder/src/main.rs:109 | the first character decoded from a non-empty key name's payload is the key name's first character, the one the encoder dispatches on |
| FreqTest.SpeedRequest | test/count_encoder_fre/src/main.rs:24-27 | the tool's frame is the speed request for address 1, with CRC zero over the whole frame |
| FreqTest.SpeedRequestBytes | test/count_encoder_fre/src/main.rs:24-27 | the frame on the wire is 01 03 00 42 00 02 64 1F |
| FreqTestC.Crc16Modbus | test/count_encoder_fre/main.c:12-31 | reads exactly `data[0..length)` in order and returns their `Crc16`: the same value as the Rust function; 0xFFFF for length 0 |
| FreqTestC.SpeedRequest | test/count_encoder_fre/main.c:99-102 | the C frame, with `(crc >> 8) & 0xFF`, is the same speed request for address 1 |
| FreqTestC.MaskedHigh | test/count_encoder_fre/main.c:102 | the extra `& 0xFF` on the high byte selects the same byte as Rust's `>> 8` |
| OledDisplay.DisplayedId | oled_display/src/main.rs:35 | the displayed id is byte 0 |
| OledDisplay.AsI8 | oled_display/src/main.rs:30 | `as i8` gives the value in -128..127 congruent to the byte |
| OledDisplay.TurnCount | oled_display/src/main.rs:30 | the turn count is byte 3 as a signed byte |
| OledDisplay.AngleRaw | oled_display/src/main.rs:33 | the raw angle is bytes 1 and 2 big-endian, below 65536 |
| OledDisplay.AsI32 | oled_display/src/main.rs:24-27 | the `i32` reading is the value in the signed 32-bit range congruent to the unsigned one |
| OledDisplay.SpeedRaw | oled_display/src/main.rs:24-27 | the raw speed is the two's-complement value of big-endian bytes 4..=7 |
| OledDisplay.Decode | oled_display/src/main.rs:21-35 | the decoded fields lie in the ranges the record can carry |
| OledDisplay.DecodeLayout | oled_display/src/main.rs:21-35 | decoding the encoder's layout of any in-range fields gives the fields back |
| OledDisplay.LayoutDecode | oled_display/src/main.rs:21-35 | laying out the decoded fields of any record gives the record back: the decoding is a bijection |
| OledDisplay.DecodeSweptRow | oled_display/src/main.rs:24-35 | a swept row shows its id, the angle reply's first register, the circle reply's byte 4 as a signed count and the speed reply's two registers as one signed value |
| OledDisplay.RecordLines | oled_display/src/main.rs:22-36 | five lines per record, in the order speed, circle, angle, id, prompt |
| OledDisplay.ShownIdSelects | oled_display/src/main.rs:35 | the digits shown after "ID: " are what `extract_number` parses back to the id |
| OledDisplay.PromptFollowsCharBuffer | oled_display/src/main.rs:36-43 | after a `char_buffer` input the next record renders with "$ " and that text as its last line |
| OledDisplay.ReplayGrows | oled_display/src/main.rs:22-38 | each render adds one record's five lines and then a "\n"; earlier lines and renders are kept |
| OledDisplay.Display.constructor | oled_display/src/main.rs:11-12 | start-up: an empty prompt and an empty print buffer, nothing rendered yet |
| OledDisplay.Display.OnEncoderData | oled_display/src/main.rs:20-39 | the node's fields change as `Handle` says for a record |
| OledDisplay.Display.OnCharBuffer | oled_display/src/main.rs:40-43 | the text replaces the prompt wholesale |
| OledDisplay.Display.Run | oled_display/src/main.rs:13-48 | the event loop follows `Replay`, stopping at the first record shorter than 8 bytes |

## Left out

- The serial port (opening, the 10 ms timeout, termios setup in the C tool) and the bytes it actually carries. Probe outcomes and reply bytes are parameters; a reply longer than the 256-byte buffer cannot be given.
- The `expect` panics of `read_*` and of the timing tools: the model assumes each write and read succeeded.
- Threads and `Arc<Mutex<…>>`: the sweep, a key event and a publish are each one atomic step. Whether a reader can see a half-swept table is not modelled.
- The endless outer polling and publishing loops and the 100 ms sleep: one sweep and one publish are modelled.
- The dora runtime: `init_from_env`, `events.recv`, `into_arrow`, metadata, and a failing `send_output` (the key handler's `?` would end the node).
- `try_into` failures of the key payload and of display inputs, and `from_utf8_lossy`. The key payload is taken as an already decoded string; `Utf8.Decode` is a strict decoder used only to state the round trip.
- Floating point: the speed `/ 100.0` and the angle `* 360.0 / 4096.0`. The speed and angle lines keep their raw integers (`Line.SpeedLine`, `Line.AngleLine`).
- The `/dev/input` read and the `unsafe` cast of the buffer into `InputEvent`: the results of `read_exact` are a parameter, and only `type_`, `code` and `value` are kept.
- The 1-second sleep after a keyboard read error: the error is skipped.
- I2C, `oled::init` and `oled::display_buffer`. `oled::Buffer::new(6)` comes from a crate without source here, so how many lines it keeps is not modelled; the model keeps every pushed line and records what was pushed at each render.
- The timing in both timing tools (`Instant`, `get_time_ms`, the printed interval) and their reply reads.
- EncoderMain.EncoderState.RefreshRow: the source updates the row in place through `&mut encoder_data[index]`; the model copies it into an 8-byte array, runs the three reads on that array and writes it back. No other row can alias it, so the effect is the same.
