/**
 * The keyboard node (keyboard/src/main.rs): it reads Linux input events and,
 * for every key press, sends the UTF-8 bytes of the key's name on its "key"
 * output, which the encoder node reads as selector keys.
 */
module Keyboard {
  import opened Bytes
  import opened Wrappers
  import Utf8
  import Selection

  /** An unsigned 16-bit field. */
  type U16 = x: int | 0 <= x < 0x1_0000
  /** A signed 32-bit field. */
  type I32 = x: int | -0x8000_0000 <= x < 0x8000_0000

  /** The fields of `struct input_event` the node looks at; the time stamp is not used. */
  datatype InputEvent = InputEvent(type_: U16, code: U16, value: I32)

  /** `EV_KEY`: the event type of keys. */
  const KeyEvent: U16 := 1
  /** The `value` of a key press (0 is a release, 2 an autorepeat). */
  const Pressed: I32 := 1

  /** The name the node sends for a key code: a character or a short label, "?" for a code it does not list. */
  function KeyString(code: U16): (s: string)
    ensures s != []
  {
    match code
      case 2 => "1"
      case 3 => "2"
      case 4 => "3"
      case 5 => "4"
      case 6 => "5"
      case 7 => "6"
      case 8 => "7"
      case 9 => "8"
      case 10 => "9"
      case 11 => "0"
      case 12 => "-"
      case 13 => "="
      case 14 => "\U{232B}"
      case 15 => "\t"
      case 16 => "q"
      case 17 => "w"
      case 18 => "e"
      case 19 => "r"
      case 20 => "t"
      case 21 => "y"
      case 22 => "u"
      case 23 => "i"
      case 24 => "o"
      case 25 => "p"
      case 26 => "["
      case 27 => "]"
      case 28 => "\n"
      case 29 => "L_CTRL"
      case 30 => "a"
      case 31 => "s"
      case 32 => "d"
      case 33 => "f"
      case 34 => "g"
      case 35 => "h"
      case 36 => "j"
      case 37 => "k"
      case 38 => "l"
      case 39 => ";"
      case 40 => "\""
      case 41 => "`"
      case 42 => "L_SHIFT"
      case 43 => "\\"
      case 44 => "z"
      case 45 => "x"
      case 46 => "c"
      case 47 => "v"
      case 48 => "b"
      case 49 => "n"
      case 50 => "m"
      case 51 => ","
      case 52 => "."
      case 53 => "/"
      case 54 => "R_SHIFT"
      case 56 => "L_ALT"
      case 57 => " "
      case 58 => "CAPS_LOCK"
      case 59 => "F1"
      case 60 => "F2"
      case 61 => "F3"
      case 62 => "F4"
      case 63 => "F5"
      case 64 => "F6"
      case 65 => "F7"
      case 66 => "F8"
      case 67 => "F9"
      case 68 => "F10"
      case 69 => "F11"
      case 70 => "F12"
      case 71 => "NUM"
      case 97 => "^"
      case 100 => "\U{2387}"
      case 102 => "\U{21F1}"
      case 103 => "\U{2191}"
      case 104 => "\U{21DE}"
      case 105 => "\U{2190}"
      case 106 => "\U{2192}"
      case 107 => "\U{21F2}"
      case 108 => "\U{2193}"
      case 109 => "\U{21DF}"
      case 110 => "\U{2380}"
      case 111 => "\U{2326}"
      case 119 => "\U{23F8}"
      case _ => "?"
  }

  /** The codes the node has a name for. */
  predicate Listed(code: U16) {
    (2 <= code <= 54) || (56 <= code <= 71) || code == 97 || code == 100 || (102 <= code <= 111) || code == 119
  }

  /** Exactly the codes without a name are sent as "?": the map is total and "?" names no listed key. */
  lemma UnlistedIsQuestionMark(code: U16)
    ensures !Listed(code) <==> KeyString(code) == "?"
  {
  }

  /** The digit row: codes 2 to 10 are "1" to "9" and code 11 is "0", the decimal digits of (code - 1) mod 10. */
  lemma DigitKeys(code: U16)
    requires 2 <= code <= 11
    ensures KeyString(code) == Selection.Digits((code - 1) % 10)
    ensures Selection.AllDigits(KeyString(code)) && Selection.DecimalValue(KeyString(code)) == (code - 1) % 10
  {
  }

  /** Only code 103 starts with the encoder's "up" symbol, and only code 108 with its "down" symbol. */
  lemma NavigationKeys(code: U16)
    ensures KeyString(code)[0] == Selection.Up <==> code == 103
    ensures KeyString(code)[0] == Selection.Down <==> code == 108
  {
  }

  /** Only code 28 (Enter) starts with the confirm character, and only code 14 (Backspace) with the erase symbol. */
  lemma EditKeys(code: U16)
    ensures KeyString(code)[0] == Selection.Confirm <==> code == 28
    ensures KeyString(code)[0] == Selection.Erase <==> code == 14
  {
  }

  /** What one event makes the node send: the key name's UTF-8 bytes for a key press, nothing otherwise. */
  function EventPayload(ev: InputEvent): (r: Option<seq<u8>>)
    ensures r.Some? <==> ev.type_ == KeyEvent && ev.value == Pressed
  {
    if ev.type_ == KeyEvent && ev.value == Pressed then Some(Utf8.Encode(KeyString(ev.code))) else None
  }

  /** A sent payload decodes, as UTF-8, to exactly the key's name. */
  lemma PayloadDecodes(ev: InputEvent)
    requires ev.type_ == KeyEvent && ev.value == Pressed
    ensures Utf8.Decode(EventPayload(ev).value) == Some(KeyString(ev.code))
  {
    Utf8.DecodeEncode(KeyString(ev.code));
  }

  /** The result of one `read_exact` on the device. */
  datatype ReadResult = Event(ev: InputEvent) | Disconnected | ReadError

  /**
   * The payloads sent for a series of reads, in order: events contribute
   * their payloads, a read error is skipped, and the first disconnect ends
   * the node.
   */
  function Sent(results: seq<ReadResult>): seq<seq<u8>>
    decreases |results|
  {
    if results == [] then []
    else match results[0] {
      case Disconnected => []
      case ReadError => Sent(results[1..])
      case Event(ev) =>
        (match EventPayload(ev) { case Some(p) => [p] case None => [] }) + Sent(results[1..])
    }
  }

  /** Nothing read after a disconnect is ever sent. */
  lemma {:induction false} NothingAfterDisconnect(before: seq<ReadResult>, after: seq<ReadResult>)
    ensures Sent(before + [Disconnected] + after) == Sent(before)
    decreases |before|
  {
    if before != [] {
      assert (before + [Disconnected] + after)[1..] == before[1..] + [Disconnected] + after;
      NothingAfterDisconnect(before[1..], after);
    }
  }

  /** Every payload the node sends is the encoding of the name of a pressed key. */
  lemma SentArePresses(results: seq<ReadResult>, k: nat)
    requires k < |Sent(results)|
    ensures exists i :: 0 <= i < |results| && results[i].Event? && EventPayload(results[i].ev) == Some(Sent(results)[k])
  {
    var i := SentSource(results, k);
  }

  /** The position of the read that produced the `k`-th sent payload. */
  lemma {:induction false} SentSource(results: seq<ReadResult>, k: nat) returns (i: nat)
    requires k < |Sent(results)|
    ensures i < |results| && results[i].Event? && EventPayload(results[i].ev) == Some(Sent(results)[k])
    decreases |results|
  {
    match results[0] {
      case Disconnected =>
      case ReadError =>
        var j := SentSource(results[1..], k);
        i := j + 1;
      case Event(ev) =>
        var head := match EventPayload(ev) { case Some(p) => [p] case None => [] };
        if k < |head| {
          i := 0;
        } else {
          var j := SentSource(results[1..], k - |head|);
          i := j + 1;
        }
    }
  }

  /** Reads that hold no disconnect contribute their payloads ahead of whatever is read after them. */
  lemma {:induction false} SentAppend(a: seq<ReadResult>, b: seq<ReadResult>)
    requires forall k :: 0 <= k < |a| ==> !a[k].Disconnected?
    ensures Sent(a + b) == Sent(a) + Sent(b)
    decreases |a|
  {
    if a == [] {
      assert a + b == b;
    } else {
      var ab, tail := a + b, a[1..];
      assert ab[0] == a[0] && ab[1..] == tail + b;
      assert forall k :: 0 <= k < |tail| ==> tail[k] == a[k + 1];
      SentAppend(tail, b);
      match a[0] {
        case ReadError =>
          assert Sent(ab) == Sent(tail + b);
        case Event(ev) =>
          var head := match EventPayload(ev) { case Some(p) => [p] case None => [] };
          assert Sent(ab) == head + Sent(tail + b);
          assert Sent(a) == head + Sent(tail);
      }
    }
  }

  /**
   * Every key press read before the first disconnect is sent: its payload
   * comes after those of the earlier reads and before those of the later ones.
   */
  lemma PressIsSent(results: seq<ReadResult>, i: nat)
    requires i < |results| && forall k :: 0 <= k < i ==> !results[k].Disconnected?
    requires results[i].Event? && results[i].ev.type_ == KeyEvent && results[i].ev.value == Pressed
    ensures EventPayload(results[i].ev).Some?
    ensures Sent(results) == Sent(results[..i]) + [EventPayload(results[i].ev).value] + Sent(results[i + 1..])
    ensures EventPayload(results[i].ev).value in Sent(results)
  {
    var before, rest := results[..i], results[i..];
    assert results == before + rest;
    assert forall k :: 0 <= k < |before| ==> before[k] == results[k];
    SentAppend(before, rest);
    assert rest[0] == results[i] && rest[1..] == results[i + 1..];
    assert Sent(rest) == [EventPayload(results[i].ev).value] + Sent(results[i + 1..]);
  }

  /** The node's main loop over the results of its reads; returns the payloads it sends, in order. */
  method Run(results: seq<ReadResult>) returns (sent: seq<seq<u8>>)
    ensures sent == Sent(results)
  {
    sent := [];
    var i := 0;
    while i < |results|
      invariant 0 <= i <= |results|
      invariant sent + Sent(results[i..]) == Sent(results)
    {
      match results[i] {
        case Event(ev) =>
          if ev.type_ == KeyEvent {
            var keyStr := KeyString(ev.code);
            if ev.value == Pressed {
              sent := sent + [Utf8.Encode(keyStr)];
            }
          }
        case Disconnected =>
          break;
        case ReadError =>
      }
      assert results[i..][1..] == results[i + 1..];
      i := i + 1;
    }
  }

  /**
   * What a key press does to the encoder's selector once the payload reaches
   * it: the arrow codes move the index, Enter confirms, Backspace erases,
   * and a digit key appends its digit.
   */
  lemma PressDrivesSelector(ids: seq<u8>, s: Selection.Selector, code: U16)
    requires s.index < |ids|
    ensures code == 103 ==> Selection.OnMessage(ids, s, KeyString(code)) == s.(index := Selection.NextIndex(s.index, |ids|))
    ensures code == 108 ==> Selection.OnMessage(ids, s, KeyString(code)) == s.(index := Selection.PrevIndex(s.index, |ids|))
    ensures code == 28 ==> Selection.OnMessage(ids, s, KeyString(code)) == Selection.KeyStep(ids, s, Selection.Confirm)
    ensures code == 14 ==> Selection.OnMessage(ids, s, KeyString(code)).buffer == if s.buffer == [] then [] else s.buffer[..|s.buffer| - 1]
    ensures 2 <= code <= 11 ==> Selection.OnMessage(ids, s, KeyString(code)) == s.(buffer := s.buffer + KeyString(code))
  {
  }
}
