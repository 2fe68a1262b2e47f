/** The text of a candidate: a word's characters, cut to the candidate buffer. Over UTF-8 characters two
    different words have the same text exactly when the cut leaves the same characters of both. */
module WordStrings {
  import opened Basics
  import opened Sorting
  import opened Composition
  import opened WordIndex
  import opened IndexedSearch
  import opened TableBuilder

  const TEXT_MAX: nat := CANDIDATE_MAX_BYTES - 1

  /** One character in UTF-8: a lead byte, then only continuation bytes, at most four in all. */
  predicate Utf8Char(b: seq<Byte>) {
    1 <= |b| <= 4 && IsLead(b[0]) && forall i :: 0 < i < |b| ==> !IsLead(b[i])
  }

  ghost predicate CharsOk(chars: seq<CharEntry>) {
    && (forall cid :: 0 <= cid < |chars| ==> Utf8Char(chars[cid].utf8))
    && (forall a, b :: 0 <= a < b < |chars| ==> chars[a].utf8 != chars[b].utf8)
  }

  predicate IdsIn(chars: seq<CharEntry>, ids: seq<nat>) {
    forall i :: 0 <= i < |ids| ==> ids[i] < |chars|
  }

  function Concat(chars: seq<CharEntry>, ids: seq<nat>): seq<Byte>
    requires IdsIn(chars, ids)
  {
    if |ids| == 0 then [] else chars[ids[0]].utf8 + Concat(chars, ids[1..])
  }

  // ---------------------------------------------------------------- decoding is unique

  /** After the first character a text ends or goes on with a lead byte. */
  lemma {:induction false} AfterFirst(chars: seq<CharEntry>, ids: seq<nat>)
    requires CharsOk(chars) && IdsIn(chars, ids) && |ids| > 0
    ensures var s, n := Concat(chars, ids), |chars[ids[0]].utf8|;
      && 1 <= n <= |s| && IsLead(s[0]) && (forall i :: 0 < i < n ==> !IsLead(s[i]))
      && (n < |s| ==> IsLead(s[n]))
      && s[..n] == chars[ids[0]].utf8 && s[n..] == Concat(chars, ids[1..])
  {
    var u, rest := chars[ids[0]].utf8, Concat(chars, ids[1..]);
    assert Utf8Char(u);
    if |ids| > 1 {
      assert Utf8Char(chars[ids[1]].utf8);
      assert ids[1..][0] == ids[1];
      assert rest[0] == chars[ids[1]].utf8[0];
    }
  }

  lemma {:induction false} FirstSame(chars: seq<CharEntry>, a: seq<nat>, b: seq<nat>)
    requires CharsOk(chars) && IdsIn(chars, a) && IdsIn(chars, b) && |a| > 0 && |b| > 0
    requires Concat(chars, a) == Concat(chars, b)
    ensures a[0] == b[0] && Concat(chars, a[1..]) == Concat(chars, b[1..])
  {
    hide Concat;
    AfterFirst(chars, a);
    AfterFirst(chars, b);
    var s := Concat(chars, a);
    var n, m := |chars[a[0]].utf8|, |chars[b[0]].utf8|;
    assert (n < |s| ==> IsLead(s[n])) && (m < |s| ==> IsLead(s[m]));
    assert n == m;
    assert chars[a[0]].utf8 == chars[b[0]].utf8;
  }

  /** The characters can be read back from their text. */
  lemma {:induction false} DecodesOnce(chars: seq<CharEntry>, a: seq<nat>, b: seq<nat>)
    requires CharsOk(chars) && IdsIn(chars, a) && IdsIn(chars, b) && Concat(chars, a) == Concat(chars, b)
    ensures a == b
  {
    hide CharsOk;
    if |a| > 0 { AfterFirst(chars, a); }
    if |b| > 0 { AfterFirst(chars, b); }
    if |a| > 0 && |b| > 0 {
      FirstSame(chars, a, b);
      DecodesOnce(chars, a[1..], b[1..]);
      assert a == [a[0]] + a[1..] && b == [b[0]] + b[1..];
    }
  }

  // ---------------------------------------------------------------- what fits

  /** How many of the word's characters from `ci` on still fit. */
  function FittedFrom(d: CharTable, w: WordView, ci: nat, written: nat): (n: nat)
    requires WordInTable(d, w) && ci <= |w.charIds|
    ensures n <= |w.charIds| - ci
    decreases |w.charIds| - ci
  {
    if ci == |w.charIds| then 0
    else
      var utf8 := d.chars[w.charIds[ci]].utf8;
      if written + |utf8| > TEXT_MAX then 0 else 1 + FittedFrom(d, w, ci + 1, written + |utf8|)
  }

  /** The characters of a word that its text shows. */
  function ShownIds(d: CharTable, w: WordView): (ids: seq<nat>)
    requires WordInTable(d, w)
    ensures ids <= w.charIds && IdsIn(d.chars, ids)
  {
    w.charIds[..FittedFrom(d, w, 0, 0)]
  }

  lemma {:induction false} TextIs(d: CharTable, w: WordView, ci: nat, written: nat)
    requires WordInTable(d, w) && ci <= |w.charIds|
    ensures WordString(d, w, ci, written) == Concat(d.chars, w.charIds[ci..ci + FittedFrom(d, w, ci, written)])
    decreases |w.charIds| - ci
  {
    if ci < |w.charIds| {
      var utf8 := d.chars[w.charIds[ci]].utf8;
      if written + |utf8| <= TEXT_MAX {
        TextIs(d, w, ci + 1, written + |utf8|);
        var ids := w.charIds[ci..ci + FittedFrom(d, w, ci, written)];
        assert ids[0] == w.charIds[ci];
        assert ids[1..] == w.charIds[ci + 1..ci + FittedFrom(d, w, ci, written)];
      }
    }
  }

  /** At least seven characters fit: the cut takes place only when another four bytes might not. */
  lemma {:induction false} SevenFit(d: CharTable, w: WordView, ci: nat, written: nat)
    requires WordInTable(d, w) && CharsOk(d.chars) && ci <= |w.charIds| && written <= 4 * ci && ci <= 7
    ensures FittedFrom(d, w, ci, written) >= Min(|w.charIds|, 7) - ci
    decreases 7 - ci
  {
    if ci < |w.charIds| && ci < 7 {
      assert Utf8Char(d.chars[w.charIds[ci]].utf8);
      SevenFit(d, w, ci + 1, written + |d.chars[w.charIds[ci]].utf8|);
    }
  }

  /** A text that leaves characters out is longer than 27 bytes. */
  lemma {:induction false} CutIsLong(d: CharTable, w: WordView, ci: nat, written: nat)
    requires WordInTable(d, w) && CharsOk(d.chars) && ci <= |w.charIds|
    requires ci + FittedFrom(d, w, ci, written) < |w.charIds|
    ensures written + |WordString(d, w, ci, written)| > TEXT_MAX - 4
    decreases |w.charIds| - ci
  {
    assert Utf8Char(d.chars[w.charIds[ci]].utf8);
    if written + |d.chars[w.charIds[ci]].utf8| <= TEXT_MAX {
      CutIsLong(d, w, ci + 1, written + |d.chars[w.charIds[ci]].utf8|);
    }
  }

  /** Two words have the same text exactly when their texts show the same characters. */
  lemma {:induction false} SameTextExactlyWhen(d: CharTable, v: WordView, w: WordView)
    requires WordInTable(d, v) && WordInTable(d, w) && CharsOk(d.chars)
    ensures WordString(d, v, 0, 0) == WordString(d, w, 0, 0) <==> ShownIds(d, v) == ShownIds(d, w)
  {
    TextIs(d, v, 0, 0);
    TextIs(d, w, 0, 0);
    if WordString(d, v, 0, 0) == WordString(d, w, 0, 0) { DecodesOnce(d.chars, ShownIds(d, v), ShownIds(d, w)); }
  }

  /** Different words share a text only if one of them is cut; then the text is too long for the personal
      cache. */
  lemma {:induction false} SharedTextIsCut(d: CharTable, v: WordView, w: WordView)
    requires WordInTable(d, v) && WordInTable(d, w) && CharsOk(d.chars) && v.charIds != w.charIds
    requires ShownIds(d, v) == ShownIds(d, w)
    ensures |v.charIds| > 7 || |w.charIds| > 7
    ensures |WordString(d, v, 0, 0)| > TEXT_MAX - 4
  {
    SameTextExactlyWhen(d, v, w);
    SevenFit(d, v, 0, 0);
    SevenFit(d, w, 0, 0);
    if |ShownIds(d, v)| < |v.charIds| {
      CutIsLong(d, v, 0, 0);
    } else {
      CutIsLong(d, w, 0, 0);
    }
  }

  /** With three bytes for each character, ten fit. */
  lemma {:induction false} TenFit(d: CharTable, w: WordView, ci: nat)
    requires WordInTable(d, w) && ci <= |w.charIds| && ci <= 10
    requires forall i :: 0 <= i < |w.charIds| ==> |d.chars[w.charIds[i]].utf8| == 3
    ensures FittedFrom(d, w, ci, 3 * ci) == Min(|w.charIds|, 10) - ci
    decreases 10 - ci
  {
    if ci < |w.charIds| && ci < 10 { TenFit(d, w, ci + 1); }
  }

  /** Words of three-byte characters: the texts are the same exactly when the first ten characters are. */
  lemma {:induction false} SameFirstTen(d: CharTable, v: WordView, w: WordView)
    requires WordInTable(d, v) && WordInTable(d, w) && CharsOk(d.chars)
    requires forall i :: 0 <= i < |v.charIds| ==> |d.chars[v.charIds[i]].utf8| == 3
    requires forall i :: 0 <= i < |w.charIds| ==> |d.chars[w.charIds[i]].utf8| == 3
    ensures WordString(d, v, 0, 0) == WordString(d, w, 0, 0)
      <==> v.charIds[..Min(|v.charIds|, 10)] == w.charIds[..Min(|w.charIds|, 10)]
  {
    TenFit(d, v, 0);
    TenFit(d, w, 0);
    SameTextExactlyWhen(d, v, w);
  }

  /** It fails for words of ten and eleven characters: one character ten or eleven times. */
  lemma {:induction false} ElevenShowsTen() returns (d: CharTable, v: WordView, w: WordView)
    ensures CharsOk(d.chars) && WordInTable(d, v) && WordInTable(d, w)
    ensures |v.charIds| == 10 && |w.charIds| == 11
    ensures WordString(d, v, 0, 0) == WordString(d, w, 0, 0)
  {
    d := CharTable([CharEntry([0xE4, 0xB8, 0x80], [])], true);
    v, w := WordView(seq(10, _ => 0), None, 1), WordView(seq(11, _ => 0), None, 1);
    assert v.charIds[..10] == w.charIds[..10];
    SameFirstTen(d, v, w);
  }

  // ---------------------------------------------------------------- what the compiler guarantees

  predicate UniqueWords(words: seq<WordView>) {
    forall i, j :: 0 <= i < j < |words| ==> words[i].charIds != words[j].charIds
  }

  lemma {:induction false} Utf8Encodes(c: char)
    requires IsCjk(c)
    ensures Utf8Char(Utf8(c))
    ensures |Utf8(c)| == 3 <==> (c as int) < 0x1_0000
  {
  }

  lemma {:induction false} Utf8IsInjective(c: char, e: char)
    requires IsCjk(c) && IsCjk(e) && Utf8(c) == Utf8(e)
    ensures c == e
  {
    Utf8Encodes(c);
    Utf8Encodes(e);
    var x, y := c as int, e as int;
    assert Utf8(c)[0] == Utf8(e)[0] && Utf8(c)[1] == Utf8(e)[1] && Utf8(c)[2] == Utf8(e)[2];
    if x < 0x1_0000 {
      SixBits(x);
      SixBits(y);
      SixBits(x / 0x40);
      SixBits(y / 0x40);
      assert x / 0x40 / 0x40 == x / 0x1000 && y / 0x40 / 0x40 == y / 0x1000;
    } else {
      assert Utf8(c)[3] == Utf8(e)[3];
      SixBits(x);
      SixBits(y);
      SixBits(x / 0x40);
      SixBits(y / 0x40);
      SixBits(x / 0x1000);
      SixBits(y / 0x1000);
      assert x / 0x40 / 0x40 == x / 0x1000 && y / 0x40 / 0x40 == y / 0x1000;
      assert x / 0x1000 / 0x40 == x / 0x4_0000 && y / 0x1000 / 0x40 == y / 0x4_0000;
    }
  }

  lemma {:induction false} SixBits(x: int)
    ensures x == 0x40 * (x / 0x40) + x % 0x40
  {
  }

  /** The character table built from source words: distinct UTF-8 characters. */
  lemma {:induction false} BuiltCharsOk(chars: seq<char>, table: seq<seq<Seen>>)
    requires |table| == |chars| && AscendingChars(chars) && AllCjk(chars)
    ensures CharsOk(StoredChars(CharEntries(chars, table)))
  {
    var r := StoredChars(CharEntries(chars, table));
    forall cid | 0 <= cid < |r| ensures Utf8Char(r[cid].utf8) {
      Utf8Encodes(chars[cid]);
    }
    forall a, b | 0 <= a < b < |r| ensures r[a].utf8 != r[b].utf8 {
      if r[a].utf8 == r[b].utf8 { Utf8IsInjective(chars[a], chars[b]); }
    }
  }

  /** Grouping words by length makes no word appear twice. */
  lemma {:induction false} GroupedWordsUnique(words: seq<Word>, flat: seq<Word>, groups: seq<Group>)
    requires Grouped(words, flat, groups)
    requires forall i, j :: 0 <= i < j < |words| ==> words[i].charIds != words[j].charIds
    ensures UniqueWords(StoredWords(flat))
  {
    forall i, j | 0 <= i < j < |flat| ensures flat[i].charIds != flat[j].charIds {
      GroupingConserves(words, flat, groups, flat[i]);
      GroupingConserves(words, flat, groups, flat[j]);
      assert multiset(flat)[flat[i]] > 0 && multiset(flat)[flat[j]] > 0;
      assert flat[i] in words && flat[j] in words;
      AtMostOnce(words, flat[i]);
      AtLeastTwice(flat, i, j);
    }
  }

  lemma {:induction false} SightedInWord(e: Source, n: nat, s: Sighting)
    requires n <= |e.word| == |e.syllables| && s in SightingsIn(e, n)
    ensures s.ch in e.word
  {
    if n > 0 && s in SightingsIn(e, n - 1) { SightedInWord(e, n - 1, s); }
  }

  lemma {:induction false} SightedIsCjk(entries: seq<Source>, s: Sighting)
    requires s in Sightings(entries)
    ensures IsCjk(s.ch)
  {
    var n := |entries| - 1;
    if s in Sightings(entries[..n]) {
      SightedIsCjk(entries[..n], s);
    } else {
      SightedInWord(entries[n], |entries[n].word|, s);
    }
  }

  /** The words as they are given to the grouping. */
  predicate EntriesOf(ws: seq<Word>, words: seq<BuiltWord>) {
    |ws| == |words| && forall k :: 0 <= k < |words| ==> IndexesFit(words[k]) && ws[k] == WordEntry(words[k])
  }

  lemma {:induction false} BuiltCharsAreCjk(entries: seq<Source>, chars: seq<char>, table: seq<seq<Seen>>)
    requires CharTableOf(entries, chars, table)
    ensures AllCjk(chars)
  {
    forall cid | 0 <= cid < |chars| ensures IsCjk(chars[cid]) {
      var seen := table[cid][0];
      SightedIsCjk(entries, Sighting(chars[cid], seen.key, seen.freq));
    }
  }

  lemma {:induction false} BuiltWordsDiffer(entries: seq<Source>, chars: seq<char>, table: seq<seq<Seen>>,
                                            words: seq<BuiltWord>, ws: seq<Word>)
    requires |table| == |chars| && WordTableOf(words, entries, chars, table) && EntriesOf(ws, words)
    ensures forall i, j :: 0 <= i < j < |ws| ==> ws[i].charIds != ws[j].charIds
  {
    hide WordOf, Eligible;
    forall i, j | 0 <= i < j < |ws| ensures ws[i].charIds != ws[j].charIds {
      SameIdsSameWord(words[i], words[j], chars, table);
    }
  }

  /** Tables built from source words have distinct UTF-8 characters and each word once. */
  lemma {:induction false} BuiltTablesOk(
    entries: seq<Source>, chars: seq<char>, table: seq<seq<Seen>>, words: seq<BuiltWord>,
    ws: seq<Word>, flat: seq<Word>, groups: seq<Group>)
    requires CharTableOf(entries, chars, table) && WordTableOf(words, entries, chars, table)
    requires EntriesOf(ws, words) && Grouped(ws, flat, groups)
    ensures CharsOk(StoredChars(CharEntries(chars, table))) && UniqueWords(StoredWords(flat))
  {
    hide WordTableOf, EntriesOf, Grouped, SeenOk, CharsOk, UniqueWords;
    BuiltCharsAreCjk(entries, chars, table);
    BuiltCharsOk(chars, table);
    BuiltWordsDiffer(entries, chars, table, words, ws);
    GroupedWordsUnique(ws, flat, groups);
  }

  lemma {:induction false} SameIdsSameWord(v: BuiltWord, w: BuiltWord, chars: seq<char>, table: seq<seq<Seen>>)
    requires |table| == |chars| && WordOf(v, chars, table) && WordOf(w, chars, table)
    ensures v.charIds == w.charIds ==> v.source.word == w.source.word
  {
    if v.charIds == w.charIds {
      assert forall i :: 0 <= i < |v.charIds| ==> v.source.word[i] == chars[v.charIds[i]] == w.source.word[i];
    }
  }
}
