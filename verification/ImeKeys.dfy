/** The key table of the input method: key codes, slots, and the texts printed on each key. */
module ImeKeys {
  import opened Basics

  datatype Mode = SmartZh | SmartEn | Direct

  // ---------------------------------------------------------------- key codes

  const KEY_NONE: Byte := 0x00
  const KEY_BACK: Byte := 0x12
  const KEY_DEL: Byte := 0x18
  const KEY_MODE: Byte := 0x19
  const KEY_TAB: Byte := 0x1A
  const KEY_SPACE: Byte := 0x1B
  const KEY_SYM1: Byte := 0x1C
  const KEY_SYM2: Byte := 0x1D
  const KEY_UP: Byte := 0x1F
  const KEY_DOWN: Byte := 0x20
  const KEY_LEFT: Byte := 0x21
  const KEY_RIGHT: Byte := 0x22
  const KEY_OK: Byte := 0x23
  const KEY_LIMIT: Byte := 0x40

  const KEY_BASE: Byte := 0x21   // slot i is stored as byte 0x21 + i
  const SLOTS: nat := 20

  /** The slot of an input key: four rows of five keys, each followed by another key. */
  function SlotOf(code: Byte): (slot: Option<nat>)
    ensures slot.Some? ==> slot.value < SLOTS && code != KEY_SYM2 && code != KEY_NONE
  {
    if 0x01 <= code <= 0x05 then Some(code - 0x01)
    else if 0x07 <= code <= 0x0B then Some(code - 0x07 + 5)
    else if 0x0D <= code <= 0x11 then Some(code - 0x0D + 10)
    else if 0x13 <= code <= 0x17 then Some(code - 0x13 + 15)
    else None
  }

  predicate IsDpad(code: Byte) {
    code == KEY_UP || code == KEY_DOWN || code == KEY_LEFT || code == KEY_RIGHT
  }

  function PhonemeCount(slot: nat): nat {
    if slot == 4 then 3 else 2
  }

  predicate HasDigits(slot: nat) {
    slot < 5
  }

  /** The letters on a key: two for L and M, none on the backslash key, else four. */
  function LetterCount(slot: nat): nat {
    if slot < 5 || slot >= 19 then 0 else if slot == 14 || slot == 18 then 2 else 4
  }

  /** What multi-tap cycles through on a key. */
  function LabelCount(code: Byte): nat {
    if code == KEY_SYM2 then 3
    else
      match SlotOf(code)
      case None => 0
      case Some(slot) => if HasDigits(slot) then 2 else LetterCount(slot)
  }

  // ---------------------------------------------------------------- texts, in UTF-8

  const FIRST_LETTERS: seq<Byte> := [0x71, 0x65, 0x74, 0x75, 0x6F, 0x61, 0x64, 0x67, 0x6A, 0x6C, 0x7A, 0x63, 0x62, 0x6D]
  const SECOND_LETTERS: seq<Byte> := [0x77, 0x72, 0x79, 0x69, 0x70, 0x73, 0x66, 0x68, 0x6B, 0x6C, 0x78, 0x76, 0x6E, 0x6D]

  /** Lower case before upper case, both letters of the key in turn. */
  function LetterText(slot: nat, idx: nat): (text: seq<Byte>)
    requires idx < LetterCount(slot)
    ensures |text| == 1
  {
    var two := LetterCount(slot) == 2;
    var lower := if two || idx % 2 == 0 then FIRST_LETTERS[slot - 5] else SECOND_LETTERS[slot - 5];
    [if idx >= (if two then 1 else 2) then lower - 0x20 else lower]
  }

  function DigitText(slot: nat, idx: nat): (text: seq<Byte>)
    requires HasDigits(slot) && idx < 2
    ensures |text| == 1
  {
    [0x30 + (2 * slot + idx + 1) % 10]
  }

  /** Full stop, question mark and exclamation mark: full-width in Chinese. */
  function StopText(zh: bool, idx: nat): (text: seq<Byte>)
    requires idx < 3
    ensures |text| > 0
  {
    if zh then if idx == 0 then [0xE3, 0x80, 0x82] else if idx == 1 then [0xEF, 0xBC, 0x9F] else [0xEF, 0xBC, 0x81]
    else if idx == 0 then [0x2E] else if idx == 1 then [0x3F] else [0x21]
  }

  function LabelText(zh: bool, code: Byte, idx: nat): (text: seq<Byte>)
    requires idx < LabelCount(code)
    ensures |text| > 0
  {
    if code == KEY_SYM2 then StopText(zh, idx)
    else
      var slot := SlotOf(code).value;
      if HasDigits(slot) then DigitText(slot, idx) else LetterText(slot, idx)
  }

  /** The symbols of the long-press picker, row by row. */
  function SymbolText(cell: nat): (text: seq<Byte>)
    requires cell < 16
    ensures |text| == 3
  {
    if cell < 4 then [0xE3, 0x80, 0x8C + cell]
    else if cell < 6 then [0xEF, 0xBC, 0x88 + (cell - 4)]
    else if cell < 8 then [0xE3, 0x80, 0x90 + (cell - 6)]
    else if cell == 8 then [0xEF, 0xBC, 0x8C]
    else if cell == 9 then [0xE3, 0x80, 0x82]
    else if cell == 10 then [0xE3, 0x80, 0x81]
    else if cell == 11 then [0xEF, 0xBC, 0x9B]
    else if cell == 12 then [0xEF, 0xBC, 0x9A]
    else if cell == 13 then [0xEF, 0xBC, 0x9F]
    else if cell == 14 then [0xEF, 0xBC, 0x81]
    else [0xE2, 0x80, 0xA6]
  }

  /** What a short press of the first symbol key sends. */
  function CommaText(mode: Mode): (text: seq<Byte>)
    ensures |text| > 0
  {
    match mode
    case SmartZh => [0xEF, 0xBC, 0x8C]
    case SmartEn => [0x2C, 0x20]
    case Direct => [0x2C]
  }

  // ---------------------------------------------------------------- the pending row

  const FIRST_PHONEMES: seq<Byte> := [
    0x85, 0x80, 0x93, 0x80, 0x9E, 0x86, 0x8D, 0x94, 0xA7, 0x9F, 0x87, 0x8E, 0x95, 0xA8, 0xA0, 0x88, 0x8F, 0x96, 0xA9, 0xA1]
  const SECOND_PHONEMES: seq<Byte> := [
    0x89, 0x80, 0x80, 0x9A, 0xA2, 0x8A, 0x90, 0x97, 0x9B, 0xA3, 0x8B, 0x91, 0x98, 0x9C, 0xA4, 0x8C, 0x92, 0x99, 0x9D, 0xA5]

  /** The phonemes on a key; the tone marks are not in the Bopomofo block. */
  function Phoneme(slot: nat, p: nat): seq<Byte>
    requires slot < SLOTS && p < PhonemeCount(slot)
  {
    if slot == 1 then [0xCB, if p == 0 then 0x87 else 0x8B]
    else if slot == 2 && p == 1 then [0xCB, 0x8A]
    else if slot == 3 && p == 0 then [0xCB, 0x99]
    else if p == 2 then [0xE3, 0x84, 0xA6]
    else [0xE3, 0x84, if p == 0 then FIRST_PHONEMES[slot] else SECOND_PHONEMES[slot]]
  }

  const DISPLAY_MAX: nat := 256
  const SEPARATOR: seq<Byte> := [0x2C, 0x20]
  const TONE_1_MARK: seq<Byte> := [0xCB, 0x89]

  /** A piece that does not fit is left out. */
  function Put(display: seq<Byte>, piece: seq<Byte>): seq<Byte> {
    if |display| + |piece| >= DISPLAY_MAX then display else display + piece
  }

  /** One key in Chinese: the phoneme asked for, or all of them. */
  function PutPhonemes(display: seq<Byte>, slot: nat, hint: Byte): seq<Byte>
    requires slot < SLOTS
  {
    if hint <= 2 then Put(display, Phoneme(slot, Min(hint, PhonemeCount(slot) - 1)))
    else
      var two := Put(Put(display, Phoneme(slot, 0)), Phoneme(slot, 1));
      if PhonemeCount(slot) == 3 then Put(two, Phoneme(slot, 2)) else two
  }

  function PutLetter(display: seq<Byte>, slot: nat): seq<Byte> {
    if LetterCount(slot) > 0 then Put(display, LetterText(slot, 0))
    else if HasDigits(slot) then Put(display, DigitText(slot, 0))
    else display
  }

  /** The pending keys as the user sees them: phonemes with separators in Chinese, letters in English. */
  function Rendered(zh: bool, keys: seq<Byte>, hints: seq<Byte>): seq<Byte>
    requires |hints| == |keys|
  {
    if |keys| == 0 then []
    else
      var n := |keys| - 1;
      var before := Rendered(zh, keys[..n], hints[..n]);
      var spaced := if zh && n > 0 then Put(before, SEPARATOR) else before;
      if keys[n] == 0x20 then Put(spaced, TONE_1_MARK)
      else if !(KEY_BASE <= keys[n] < KEY_BASE + SLOTS) then before
      else if zh then PutPhonemes(spaced, keys[n] - KEY_BASE, hints[n])
      else PutLetter(before, keys[n] - KEY_BASE)
  }
}
