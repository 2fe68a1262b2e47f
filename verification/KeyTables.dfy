/** The key map, which the compiler, the display and the syllable counter each hold a copy of: the three agree,
    except that the counter takes one role for a key where its phonemes have two. */
module KeyTables {
  import opened Basics
  import opened GenDict
  import opened ImeKeys
  import opened TableBuilder
  import Syllables

  /** The consonants, glides, rimes and tone marks of the script. */
  function SoundRole(ph: char): Syllables.Role {
    if 0x3105 <= ph as int <= 0x3119 then Syllables.Initial
    else if 0x3127 <= ph as int <= 0x3129 then Syllables.Medial
    else if 0x311A <= ph as int <= 0x3126 then Syllables.Final
    else if ph == 'ˊ' || ph == 'ˇ' || ph == 'ˋ' || ph == '˙' then Syllables.Tone
    else Syllables.NoRole
  }

  const PHONEMES: seq<seq<char>> := [
    "ㄅㄉ", "ˇˋ", "ㄓˊ", "˙ㄚ", "ㄞㄢㄦ", "ㄆㄊ", "ㄍㄐ", "ㄔㄗ", "ㄧㄛ", "ㄟㄣ",
    "ㄇㄋ", "ㄎㄑ", "ㄕㄘ", "ㄨㄜ", "ㄠㄤ", "ㄈㄌ", "ㄏㄒ", "ㄖㄙ", "ㄩㄝ", "ㄡㄥ"]

  /** Every slot and position that can be shown has its phoneme in the compiler's map, and only one. */
  lemma {:induction false} SlotHasPhoneme(slot: nat, pos: nat)
    requires slot < SLOTS && pos < PhonemeCount(slot)
    ensures pos < |PHONEMES[slot]|
    ensures forall ph :: KeyAndPos(ph) == Some((slot, pos)) <==> ph == PHONEMES[slot][pos]
  {
  }

  lemma {:induction false} CompiledIsListed(ph: char)
    requires KeyAndPos(ph).Some?
    ensures var (slot, pos) := KeyAndPos(ph).value; pos < PhonemeCount(slot) && pos < |PHONEMES[slot]| && PHONEMES[slot][pos] == ph
  {
  }

  lemma {:induction false} Utf8OfSound(c: char)
    requires 0x3100 <= c as int < 0x3140
    ensures Utf8(c) == [0xE3, 0x84, 0x80 + (c as int - 0x3100)]
  {
  }

  lemma {:induction false} Utf8OfTone(c: char)
    requires 0x2C0 <= c as int < 0x300
    ensures Utf8(c) == [0xCB, 0x80 + (c as int - 0x2C0)]
  {
  }

  lemma {:induction false} ShownIsListed(slot: nat, pos: nat)
    requires slot < SLOTS && pos < PhonemeCount(slot)
    ensures pos < |PHONEMES[slot]|
    ensures var c := PHONEMES[slot][pos];
      if c as int < 0x300 then 0x2C0 <= c as int && Phoneme(slot, pos) == [0xCB, 0x80 + (c as int - 0x2C0)]
      else 0x3100 <= c as int < 0x3140 && Phoneme(slot, pos) == [0xE3, 0x84, 0x80 + (c as int - 0x3100)]
  {
  }

  /** What is shown for a slot and position is, in UTF-8, the phoneme compiled to that key and position. */
  lemma {:induction false} ShownIsCompiled(ph: char)
    requires KeyAndPos(ph).Some?
    ensures var (slot, pos) := KeyAndPos(ph).value; pos < PhonemeCount(slot) && Phoneme(slot, pos) == Utf8(ph)
  {
    hide KeyAndPos, Phoneme, Utf8, PHONEMES;
    CompiledIsListed(ph);
    ShownIsListed(KeyAndPos(ph).value.0, KeyAndPos(ph).value.1);
    if ph as int < 0x300 { Utf8OfTone(ph); } else { Utf8OfSound(ph); }
  }

  /** The counter reads a key as its phoneme's role, except for five phonemes that share a key with one of another
      role: the second and the neutral tone, and three rimes on the keys of the glides. */
  lemma {:induction false} RoleIsThePhonemesExactlyWhen(ph: char)
    requires KeyAndPos(ph).Some?
    ensures Syllables.ClassifyByte(KEY_OFFSET + KeyAndPos(ph).value.0) == SoundRole(ph)
      <==> ph !in ['ˊ', '˙', 'ㄛ', 'ㄜ', 'ㄝ']
  {
    hide KeyAndPos, SoundRole, PHONEMES;
    CompiledIsListed(ph);
    RoleOfListed(KeyAndPos(ph).value.0, KeyAndPos(ph).value.1);
  }

  lemma {:induction false} RoleOfListed(slot: nat, pos: nat)
    requires slot < SLOTS && pos < |PHONEMES[slot]|
    ensures Syllables.ClassifyByte(KEY_OFFSET + slot) == SoundRole(PHONEMES[slot][pos])
      <==> PHONEMES[slot][pos] !in ['ˊ', '˙', 'ㄛ', 'ㄜ', 'ㄝ']
  {
  }

  /** A phoneme has a key exactly if it has a role; the first-tone marker is read as a tone. */
  lemma {:induction false} EverySoundHasAKey(ph: char)
    ensures KeyAndPos(ph).Some? <==> SoundRole(ph) != Syllables.NoRole
    ensures Syllables.ClassifyByte(0x20) == Syllables.Tone
  {
  }
}
