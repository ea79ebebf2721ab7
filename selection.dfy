/**
 * The encoder node's selector (encoder/src/main.rs): the key handler that
 * moves `display_index` over the record table and edits `char_buffer`, and
 * `extract_number`, which reads the buffer as a device id on confirm.
 *
 * The state is a `Selector` value over the id column `ids` of the table; the
 * class in module EncoderMain holds the same state in fields and is proved to
 * follow `OnMessage`.
 */
module Selection {
  import opened Wrappers
  import opened Bytes

  /** The key symbols the selector reacts to. */
  const Up: char := '\U{2191}'
  const Down: char := '\U{2193}'
  const Confirm: char := '\n'
  const Erase: char := '\U{232B}'

  // ---------------------------------------------------------------- extract_number

  predicate IsAsciiDigit(c: char) {
    '0' <= c <= '9'
  }

  predicate AllDigits(s: string) {
    forall k :: 0 <= k < |s| ==> IsAsciiDigit(s[k])
  }

  function DigitValue(c: char): (d: nat)
    requires IsAsciiDigit(c)
    ensures d < 10
  {
    c as int - '0' as int
  }

  /** The number a digit string denotes in base 10 (0 for the empty string). */
  function DecimalValue(s: string): nat
    requires AllDigits(s)
  {
    if s == [] then 0 else DecimalValue(s[..|s| - 1]) * 10 + DigitValue(s[|s| - 1])
  }

  /**
   * `u8::from_str` on a digit string, from position `i` with the value `acc`
   * of the digits before it: accumulate left to right and fail as soon as the
   * value leaves the range of `u8`.
   */
  function ParseU8From(s: string, i: nat, acc: nat): Option<u8>
    requires AllDigits(s) && i <= |s| && acc < 0x100
    decreases |s| - i
  {
    if i == |s| then Some(acc as u8)
    else
      var next := acc * 10 + DigitValue(s[i]);
      if next >= 0x100 then None else ParseU8From(s, i + 1, next)
  }

  /** A prefix of a digit string denotes at most what the whole string denotes. */
  lemma {:induction false} PrefixValue(s: string, i: nat)
    requires AllDigits(s) && i <= |s|
    ensures DecimalValue(s[..i]) <= DecimalValue(s)
    decreases |s|
  {
    if i < |s| {
      assert s[..|s| - 1][..i] == s[..i];
      PrefixValue(s[..|s| - 1], i);
    } else {
      assert s[..i] == s;
    }
  }

  /** The accumulating parser succeeds exactly when the whole string denotes a byte, and then gives that byte. */
  lemma {:induction false} ParseU8FromCorrect(s: string, i: nat)
    requires AllDigits(s) && i <= |s| && DecimalValue(s[..i]) < 0x100
    ensures ParseU8From(s, i, DecimalValue(s[..i]))
      == if DecimalValue(s) < 0x100 then Some(DecimalValue(s) as u8) else None
    decreases |s| - i
  {
    if i == |s| {
      assert s[..i] == s;
    } else {
      assert s[..i + 1][..i] == s[..i];
      var next := DecimalValue(s[..i]) * 10 + DigitValue(s[i]);
      assert DecimalValue(s[..i + 1]) == next;
      if next >= 0x100 {
        PrefixValue(s, i + 1);
      } else {
        ParseU8FromCorrect(s, i + 1);
      }
    }
  }

  /** `u8::from_str` on a digit string: the empty string is an error, otherwise accumulate from the start. */
  function ParseU8(s: string): Option<u8>
    requires AllDigits(s)
  {
    if s == [] then None else ParseU8From(s, 0, 0)
  }

  /** `parse::<u8>` of a digit string succeeds exactly when it is non-empty and denotes a byte, and then gives that byte. */
  lemma ParseU8Correct(s: string)
    requires AllDigits(s)
    ensures ParseU8(s) == if s != [] && DecimalValue(s) < 0x100 then Some(DecimalValue(s) as u8) else None
  {
    if s != [] {
      assert s[..0] == [];
      ParseU8FromCorrect(s, 0);
    }
  }

  /**
   * `extract_number`: a byte exactly when the buffer is a non-empty string of
   * ASCII digits whose decimal value is at most 255; leading zeros allowed.
   */
  function ExtractNumber(s: string): (r: Option<u8>)
    ensures r.Some? <==> s != [] && AllDigits(s) && DecimalValue(s) <= 255
    ensures r.Some? ==> r.value as int == DecimalValue(s)
  {
    if AllDigits(s) then
      ParseU8Correct(s);
      ParseU8(s)
    else None
  }

  /** Leading zeros do not change the value of a digit string. */
  lemma {:induction false} LeadingZeroValue(s: string)
    requires AllDigits(s)
    ensures AllDigits(['0'] + s) && DecimalValue(['0'] + s) == DecimalValue(s)
    decreases |s|
  {
    if s != [] {
      LeadingZeroValue(s[..|s| - 1]);
      assert (['0'] + s)[..|s|] == ['0'] + s[..|s| - 1];
    }
  }

  /** `extract_number` accepts a leading zero in front of any non-empty buffer. */
  lemma LeadingZero(s: string)
    requires s != []
    ensures ExtractNumber(['0'] + s) == ExtractNumber(s)
  {
    if AllDigits(s) {
      LeadingZeroValue(s);
    } else {
      var k :| 0 <= k < |s| && !IsAsciiDigit(s[k]);
      assert (['0'] + s)[k + 1] == s[k];
    }
  }

  /** The decimal digits of `n`, without leading zeros ("0" for zero). */
  function Digits(n: nat): (s: string)
    ensures s != [] && AllDigits(s)
    decreases n
  {
    var d := ['0' + (n % 10) as char];
    if n < 10 then d else Digits(n / 10) + d
  }

  /** The digits of `n` denote `n`. */
  lemma {:induction false} DigitsValue(n: nat)
    ensures DecimalValue(Digits(n)) == n
    decreases n
  {
    var s := Digits(n);
    if n >= 10 {
      DigitsValue(n / 10);
      assert s[..|s| - 1] == Digits(n / 10);
    }
  }

  /** Typing a byte's decimal digits and reading them back with `extract_number` gives the byte. */
  lemma ExtractDigits(v: u8)
    ensures ExtractNumber(Digits(v as int)) == Some(v)
  {
    DigitsValue(v as int);
  }

  // ---------------------------------------------------------------- navigation

  /** '↑': the next position, wrapping to 0 after the last. */
  function NextIndex(i: nat, n: nat): (r: nat)
    requires i < n
    ensures r < n && r == (i + 1) % n
  {
    if i < n - 1 then i + 1 else 0
  }

  /** '↓': the previous position, wrapping to the last below 0. */
  function PrevIndex(i: nat, n: nat): (r: nat)
    requires i < n
    ensures r < n && r == (i + n - 1) % n
  {
    if i > 0 then i - 1 else n - 1
  }

  /** '↓' undoes '↑' and '↑' undoes '↓'. */
  lemma NextPrevInverse(i: nat, n: nat)
    requires i < n
    ensures PrevIndex(NextIndex(i, n), n) == i
    ensures NextIndex(PrevIndex(i, n), n) == i
  {
  }

  /** The position after `k` presses of '↑' from `i`. */
  function Ups(i: nat, n: nat, k: nat): (r: nat)
    requires i < n
    ensures r < n
  {
    if k == 0 then i else NextIndex(Ups(i, n, k - 1), n)
  }

  /**
   * Up to `n` presses of '↑' advance the position by the number of presses,
   * wrapping once past the end; `n` presses come back to the start.
   */
  lemma {:induction false} UpsCycle(i: nat, n: nat, k: nat)
    requires i < n
    ensures Ups(i, n, k) == (i + k) % n
    ensures k % n == 0 ==> Ups(i, n, k) == i
  {
    if k > 0 {
      UpsCycle(i, n, k - 1);
      WrapStep(i + k - 1, n);
    }
    if k % n == 0 {
      WholeTurns(i, n, k);
    }
  }

  /** Adding a multiple of `n` to a position below `n` leaves it unchanged modulo `n`. */
  lemma WholeTurns(i: nat, n: nat, k: nat)
    requires i < n && k % n == 0
    ensures (i + k) % n == i
  {
    var q := k / n;
    assert k == q * n;
    ModUnique(i + k, n, q, i);
  }

  /** Reducing modulo `n` before or after adding one gives the same position. */
  lemma WrapStep(m: nat, n: nat)
    requires 0 < n
    ensures (m % n + 1) % n == (m + 1) % n
  {
    var q, r := m / n, m % n;
    if r + 1 < n {
      ModUnique(m + 1, n, q, r + 1);
      ModUnique(r + 1, n, 0, r + 1);
    } else {
      assert (q + 1) * n == q * n + n;
      ModUnique(m + 1, n, q + 1, 0);
      ModUnique(r + 1, n, 1, 0);
    }
  }

  /** The remainder is the only `r` in `0..n` with `a == q * n + r`. */
  lemma ModUnique(a: int, n: int, q: int, r: int)
    requires 0 <= r < n && a == q * n + r
    ensures a % n == r
  {
    var q', r' := a / n, a % n;
    assert a == q' * n + r';
    assert (q - q') * n == r' - r;
    if q > q' {
      MulAtLeast(q - q', n);
      assert false;
    } else if q < q' {
      MulAtLeast(q' - q, n);
      assert false;
    }
  }

  lemma MulAtLeast(d: int, n: int)
    requires d >= 1 && n > 0
    ensures d * n >= n
  {
  }

  // ---------------------------------------------------------------- confirm

  /** `iter().position(|arr| arr[0] == num)` on the id column: the first position holding `num`. */
  function FirstIndexOf(ids: seq<u8>, num: u8): (r: Option<nat>)
    ensures r.Some? ==> r.value < |ids| && ids[r.value] == num && forall k :: 0 <= k < r.value ==> ids[k] != num
    ensures r.None? <==> num !in ids
  {
    if ids == [] then None
    else if ids[0] == num then Some(0)
    else match FirstIndexOf(ids[1..], num) {
      case Some(p) => Some(p + 1)
      case None => None
    }
  }

  /** A position holding `num` with no earlier one is what `FirstIndexOf` finds. */
  lemma {:induction false} FirstIndexOfIs(ids: seq<u8>, num: u8, i: nat)
    requires i < |ids| && ids[i] == num && forall k :: 0 <= k < i ==> ids[k] != num
    ensures FirstIndexOf(ids, num) == Some(i)
  {
    if i > 0 {
      assert ids[1..][i - 1] == num;
      FirstIndexOfIs(ids[1..], num, i - 1);
    }
  }

  // ---------------------------------------------------------------- the key handler

  /** The selector's state: `display_index` and `char_buffer`. */
  datatype Selector = Selector(index: nat, buffer: string)

  /** The effect of one key on the selector, over the id column `ids` of the table. */
  function KeyStep(ids: seq<u8>, s: Selector, key: char): (r: Selector)
    requires s.index < |ids|
    ensures r.index < |ids|
  {
    if key == Up then s.(index := NextIndex(s.index, |ids|))
    else if key == Down then s.(index := PrevIndex(s.index, |ids|))
    else if key == Confirm then
      var jump := match ExtractNumber(s.buffer) {
        case Some(num) => if num in ids then FirstIndexOf(ids, num) else None
        case None => None
      };
      Selector(if jump.Some? then jump.value else s.index, [])
    else if key == Erase then s.(buffer := if s.buffer == [] then [] else s.buffer[..|s.buffer| - 1])
    else s.(buffer := s.buffer + [key])
  }

  /** A key payload: only its first character counts; an empty payload changes nothing. */
  function OnMessage(ids: seq<u8>, s: Selector, message: string): (r: Selector)
    requires s.index < |ids|
    ensures r.index < |ids|
  {
    if message == [] then s else KeyStep(ids, s, message[0])
  }

  /**
   * Confirm clears the buffer in every case. It moves the index exactly when
   * the buffer parses to an id present in the table, and then to the first
   * position holding that id.
   */
  lemma ConfirmEffect(ids: seq<u8>, s: Selector)
    requires s.index < |ids|
    ensures KeyStep(ids, s, Confirm).buffer == []
    ensures ExtractNumber(s.buffer).Some? && ExtractNumber(s.buffer).value in ids ==>
      var p := KeyStep(ids, s, Confirm).index;
      ids[p] == ExtractNumber(s.buffer).value && forall k :: 0 <= k < p ==> ids[k] != ids[p]
    ensures !(ExtractNumber(s.buffer).Some? && ExtractNumber(s.buffer).value in ids) ==>
      KeyStep(ids, s, Confirm).index == s.index
  {
  }

  /** Erase drops the last character (nothing when empty); any other key that is not a control symbol is appended. */
  lemma EditEffect(ids: seq<u8>, s: Selector, key: char)
    requires s.index < |ids|
    ensures key == Erase ==> KeyStep(ids, s, key) == Selector(s.index, if s.buffer == [] then [] else s.buffer[..|s.buffer| - 1])
    ensures key !in {Up, Down, Confirm, Erase} ==> KeyStep(ids, s, key) == Selector(s.index, s.buffer + [key])
    ensures key in {Up, Down} ==> KeyStep(ids, s, key).buffer == s.buffer
  {
  }

  /** The state after each character of `keys` is sent as its own payload. */
  function TypeKeys(ids: seq<u8>, s: Selector, keys: string): (r: Selector)
    requires s.index < |ids|
    ensures r.index < |ids|
    decreases |keys|
  {
    if keys == [] then s else TypeKeys(ids, KeyStep(ids, s, keys[0]), keys[1..])
  }

  /** Typing digits appends them to the buffer and leaves the index alone. */
  lemma {:induction false} TypeDigits(ids: seq<u8>, s: Selector, keys: string)
    requires s.index < |ids| && AllDigits(keys)
    ensures TypeKeys(ids, s, keys) == Selector(s.index, s.buffer + keys)
    decreases |keys|
  {
    if keys != [] {
      var c := keys[0];
      assert IsAsciiDigit(c);
      assert c != Up && c != Down && c != Confirm && c != Erase;
      TypeDigits(ids, KeyStep(ids, s, c), keys[1..]);
      assert s.buffer + [c] + keys[1..] == s.buffer + keys;
    }
  }

  /**
   * From an empty buffer, typing the decimal digits of an id that is in the
   * table and confirming jumps to the first position holding that id and
   * clears the buffer.
   */
  lemma TypeIdAndConfirm(ids: seq<u8>, s: Selector, id: u8)
    requires s.index < |ids| && s.buffer == [] && id in ids
    ensures var r := KeyStep(ids, TypeKeys(ids, s, Digits(id as int)), Confirm);
      r.buffer == [] && ids[r.index] == id && forall k :: 0 <= k < r.index ==> ids[k] != id
  {
    var typed := Digits(id as int);
    TypeDigits(ids, s, typed);
    var t := TypeKeys(ids, s, typed);
    assert t == Selector(s.index, typed);
    ExtractDigits(id);
    assert ExtractNumber(t.buffer) == Some(id);
    assert KeyStep(ids, t, Confirm) == Selector(FirstIndexOf(ids, id).value, []);
  }
}
