/** Single characters: what a search for one character returns, said of the stored readings and of the source
    lines, without the comparison the search makes. */
module SingleChars {
  import opened Basics
  import opened Sorting
  import opened Composition
  import opened GenDict
  import opened WordIndex
  import opened IndexedSearch
  import opened TableBuilder
  import opened WordStrings
  import opened V4File
  import opened V4Readers
  import opened EndToEnd

  // ---------------------------------------------------------------- on the table

  /** The keys typed are the first of the reading's, and every hint agrees with them. */
  predicate Begins(d: CharTable, r: Reading, keys: seq<Byte>, hints: Option<seq<Byte>>)
    requires HintsCover(hints, keys)
  {
    Composition.Covers(d, SyllableStrokes(r, Cut(|r.keys|, false)), keys, hints, 0)
  }

  /** The reading is one the input asks for. A marker at the end asks for the first tone; it belongs to no
      reading, and on its own asks for nothing. */
  predicate AskedFor(d: CharTable, r: Reading, keys: seq<Byte>, hints: Option<seq<Byte>>)
    requires HintsCover(hints, keys) && |keys| > 0
  {
    var n := |keys| - 1;
    if keys[n] == SPACE then n > 0 && r.tone == 1 && Begins(d, r, keys[..n], TakeHints(hints, n))
    else Begins(d, r, keys, hints)
  }

  lemma {:induction false} ComparedIsBegun(d: CharTable, r: Reading, keys: seq<Byte>, hints: Option<seq<Byte>>, n: nat)
    requires HintsCover(hints, keys) && n <= |keys|
    ensures n <= |r.keys| && SameKeys(r.keys, keys, 0, n) && PosOk(d, hints, r, 0, n)
      <==> Begins(d, r, keys[..n], TakeHints(hints, n))
  {
    var c := Cut(|r.keys|, false);
    var s, k, h := SyllableStrokes(r, c), keys[..n], TakeHints(hints, n);
    if n <= |r.keys| {
      TryComparesStrokes(d, r, c, keys, hints, 0, n);
      forall j | 0 <= j < n ensures Fits(d, s[j], keys, hints, 0 + j) <==> Fits(d, s[j], k, h, 0 + j) {
      }
    }
  }

  lemma {:induction false} FitsWhatIsAskedFor(d: CharTable, r: Reading, keys: seq<Byte>, hints: Option<seq<Byte>>)
    requires HintsCover(hints, keys) && |keys| > 0 && TypedLength(keys) > 0
    ensures ReadingFits(d, r, keys, hints) <==> AskedFor(d, r, keys, hints)
  {
    hide Begins, SameKeys, PosOk;
    var n := TypedLength(keys);
    ComparedIsBegun(d, r, keys, hints, n);
    if n == |keys| { assert keys[..n] == keys && TakeHints(hints, n) == hints by { AllHints(hints, keys); } }
  }

  lemma {:induction false} AllHints(hints: Option<seq<Byte>>, keys: seq<Byte>)
    requires HintsCover(hints, keys)
    ensures TakeHints(hints, |keys|) == hints
  {
    if hints.Some? { assert hints.value[..|keys|] == hints.value; }
  }

  /** The first reading of a character that the input asks for. */
  ghost predicate FirstAsked(d: CharTable, rs: seq<Reading>, keys: seq<Byte>, hints: Option<seq<Byte>>, i: nat)
    requires HintsCover(hints, keys) && |keys| > 0
  {
    i < |rs| && AskedFor(d, rs[i], keys, hints) && forall j :: 0 <= j < i ==> !AskedFor(d, rs[j], keys, hints)
  }

  lemma {:induction false} SomeFirst(d: CharTable, rs: seq<Reading>, keys: seq<Byte>, hints: Option<seq<Byte>>, k: nat) returns (i: nat)
    requires HintsCover(hints, keys) && |keys| > 0 && k < |rs| && AskedFor(d, rs[k], keys, hints)
    ensures i <= k && FirstAsked(d, rs, keys, hints, i)
  {
    hide AskedFor;
    i := 0;
    while !AskedFor(d, rs[i], keys, hints)
      invariant i <= k && forall j :: 0 <= j < i ==> !AskedFor(d, rs[j], keys, hints)
      decreases k - i
    {
      i := i + 1;
    }
  }

  lemma {:induction false} FirstIsFirstFit(image: Image, keys: seq<Byte>, hints: Option<seq<Byte>>, cid: nat, i: nat)
    requires HintsCover(hints, keys) && |keys| > 0 && cid < |image.table.chars| && TypedLength(keys) > 0
    ensures FirstFit(image, keys, hints, cid, i) <==> FirstAsked(image.table, image.table.chars[cid].readings, keys, hints, i)
  {
    hide ReadingFits, AskedFor, TypedLength;
    var rs := image.table.chars[cid].readings;
    forall j | 0 <= j < |rs| ensures ReadingFits(image.table, rs[j], keys, hints) <==> AskedFor(image.table, rs[j], keys, hints) {
      FitsWhatIsAskedFor(image.table, rs[j], keys, hints);
    }
  }

  lemma {:induction false} LoneMarkerAsksNothing(d: CharTable, r: Reading, keys: seq<Byte>, hints: Option<seq<Byte>>)
    requires HintsCover(hints, keys) && |keys| > 0 && TypedLength(keys) == 0
    ensures !AskedFor(d, r, keys, hints)
  {
  }

  /** A character is a hit exactly when the input asks for one of its readings, and it is shown with the
      frequency and tone of the first such. */
  lemma {:induction false} CharIsHitExactlyWhen(image: Image, keys: seq<Byte>, hints: Option<seq<Byte>>, cid: nat)
    requires HintsCover(hints, keys) && |keys| > 0
    ensures CharHit(image, keys, hints)(cid) <==>
      cid < |image.table.chars|
      && exists i :: 0 <= i < |image.table.chars[cid].readings| && AskedFor(image.table, image.table.chars[cid].readings[i], keys, hints)
    ensures forall i: nat :: cid < |image.table.chars| && FirstAsked(image.table, image.table.chars[cid].readings, keys, hints, i) ==>
      CharCand(image, keys, hints)(cid)
        == Candidate(image.table.chars[cid].utf8[..Min(|image.table.chars[cid].utf8|, 31)],
                     image.table.chars[cid].readings[i].freq, image.table.chars[cid].readings[i].tone)
  {
    hide ReadingFits, AskedFor, TypedLength;
    if cid < |image.table.chars| {
      var rs := image.table.chars[cid].readings;
      if TypedLength(keys) > 0 {
        forall i: nat ensures FirstFit(image, keys, hints, cid, i) <==> FirstAsked(image.table, rs, keys, hints, i) {
          FirstIsFirstFit(image, keys, hints, cid, i);
        }
        if k :| 0 <= k < |rs| && AskedFor(image.table, rs[k], keys, hints) { var i := SomeFirst(image.table, rs, keys, hints, k); }
        forall i: nat | FirstAsked(image.table, rs, keys, hints, i)
          ensures CharCand(image, keys, hints)(cid) == CharCandidate(image.table.chars[cid], rs[i])
        {
          OneFirstFit(image, keys, hints, cid, i);
        }
      } else {
        forall i | 0 <= i < |rs| ensures !AskedFor(image.table, rs[i], keys, hints) {
          LoneMarkerAsksNothing(image.table, rs[i], keys, hints);
        }
      }
    } else {
      NoSuchChar(image, keys, hints, cid);
    }
  }

  lemma {:induction false} NoSuchChar(image: Image, keys: seq<Byte>, hints: Option<seq<Byte>>, cid: nat)
    requires cid >= |image.table.chars|
    ensures !CharHit(image, keys, hints)(cid)
  {
  }

  /** Without hints and marker: the typed keys are the first of the reading's. */
  lemma {:induction false} PlainlyAskedFor(d: CharTable, r: Reading, keys: seq<Byte>)
    requires |keys| > 0 && keys[|keys| - 1] != SPACE
    ensures AskedFor(d, r, keys, None) <==> keys <= r.keys
  {
    ComparedIsBegun(d, r, keys, None, |keys|);
    assert keys[..|keys|] == keys;
    if SameKeysAt(r, keys) { assert forall j :: 0 <= j < |keys| ==> r.keys[j] == keys[0 + j]; }
  }

  predicate SameKeysAt(r: Reading, keys: seq<Byte>) {
    |keys| <= |r.keys| && SameKeys(r.keys, keys, 0, |keys|)
  }

  // ---------------------------------------------------------------- on the sources

  lemma {:induction false} AskedAlike(d: CharTable, e: CharTable, r: Reading, q: Reading, keys: seq<Byte>, hints: Option<seq<Byte>>)
    requires d.hasPos == e.hasPos && Alike(r, q) && HintsCover(hints, keys) && |keys| > 0
    ensures AskedFor(d, r, keys, hints) == AskedFor(e, q, keys, hints)
  {
    var n := |keys| - 1;
    BegunAlike(d, e, r, q, keys, hints);
    BegunAlike(d, e, r, q, keys[..n], TakeHints(hints, n));
  }

  lemma {:induction false} BegunAlike(d: CharTable, e: CharTable, r: Reading, q: Reading, keys: seq<Byte>, hints: Option<seq<Byte>>)
    requires d.hasPos == e.hasPos && Alike(r, q) && HintsCover(hints, keys)
    ensures Begins(d, r, keys, hints) == Begins(e, q, keys, hints)
  {
    var a, b := SyllableStrokes(r, Cut(|r.keys|, false)), SyllableStrokes(q, Cut(|q.keys|, false));
    assert a == b;
    if Begins(d, r, keys, hints) { CoversAlike(d, e, a, keys, hints); }
    if Begins(e, q, keys, hints) { CoversAlike(e, d, a, keys, hints); }
  }

  /** A usable source line has the character at `i`, and its syllable there is one that the input asks for. */
  predicate Asks(e: Source, i: nat, c: char, keys: seq<Byte>, hints: Option<seq<Byte>>)
    requires HintsCover(hints, keys) && |keys| > 0
  {
    Usable(e) && i < |e.word| && e.word[i] == c && KeySeq(e.syllables[i]) != [] && AskedFor(NO_TABLE, SpelledOut(e)[i], keys, hints)
  }

  /** Some source line reads the character so. */
  ghost predicate CharWanted(entries: seq<Source>, c: char, keys: seq<Byte>, hints: Option<seq<Byte>>)
    requires HintsCover(hints, keys) && |keys| > 0
  {
    exists e, i: nat :: e in entries && Asks(e, i, c, keys, hints)
  }

  function SightedFreq(e: Source): nat {
    Min(if e.freq > 1 then e.freq else 1, 0xFFFF)
  }

  /** The line reads the character so, and the candidate has its frequency and the tone of that syllable. */
  predicate Shows(e: Source, i: nat, c: char, keys: seq<Byte>, hints: Option<seq<Byte>>, cand: Candidate)
    requires HintsCover(hints, keys) && |keys| > 0
  {
    Asks(e, i, c, keys, hints) && cand.freq == SightedFreq(e) && cand.tone == SyllableTone(e.syllables[i])
  }

  /** The candidate shows the character, the highest frequency of the lines that read it so, and the tone of one
      that has it. */
  ghost predicate OffersChar(entries: seq<Source>, c: char, keys: seq<Byte>, hints: Option<seq<Byte>>, cand: Candidate)
    requires HintsCover(hints, keys) && |keys| > 0
  {
    && cand.word == Utf8(c)
    && (forall e, i: nat :: e in entries && Asks(e, i, c, keys, hints) ==> SightedFreq(e) <= cand.freq)
    && exists e, i: nat :: e in entries && Shows(e, i, c, keys, hints, cand)
  }

  lemma {:induction false} SightedIn(e: Source, n: nat, s: Sighting) returns (i: nat)
    requires n <= |e.word| == |e.syllables| && s in SightingsIn(e, n)
    ensures i < n && KeySeq(e.syllables[i]) != [] && s == Sighting(e.word[i], KeyOf(e.syllables[i]), if e.freq > 1 then e.freq else 1)
  {
    hide KeyOf;
    if n > 0 && s in SightingsIn(e, n - 1) { i := SightedIn(e, n - 1, s); } else { i := n - 1; }
  }

  lemma {:induction false} SightedBy(entries: seq<Source>, s: Sighting) returns (e: Source, i: nat)
    requires s in Sightings(entries)
    ensures e in entries && Usable(e) && i < |e.word| && KeySeq(e.syllables[i]) != []
    ensures s == Sighting(e.word[i], KeyOf(e.syllables[i]), if e.freq > 1 then e.freq else 1)
  {
    hide KeyOf, SightingsIn;
    var n := |entries| - 1;
    if s in Sightings(entries[..n]) {
      e, i := SightedBy(entries[..n], s);
    } else {
      e := entries[n];
      i := SightedIn(e, |e.word|, s);
    }
  }

  lemma {:induction false} StoredAlike(chars: seq<char>, table: seq<seq<Seen>>, cid: nat, j: nat, e: Source, i: nat)
    requires |table| == |chars| && cid < |chars| && j < |table[cid]| && i < |e.syllables|
    requires table[cid][j].key == KeyOf(e.syllables[i])
    ensures j < |StoredChars(CharEntries(chars, table))[cid].readings|
    ensures Alike(StoredChars(CharEntries(chars, table))[cid].readings[j], SpelledOut(e)[i])
  {
    hide KeySeq, PosSeq, SyllableTone, Packed, PosDigits;
  }

  lemma {:induction false} StoredShape(chars: seq<char>, table: seq<seq<Seen>>, cid: nat)
    requires |table| == |chars| && cid < |chars|
    ensures var c := StoredChars(CharEntries(chars, table))[cid];
      && c.utf8 == Utf8(chars[cid]) && |c.readings| == |table[cid]|
      && forall j :: 0 <= j < |table[cid]| ==>
           c.readings[j].freq == Min(table[cid][j].freq, 0xFFFF) && c.readings[j].tone == table[cid][j].key.tone
  {
  }

  /** Where a reading of a built table comes from. */
  lemma {:induction false} ReadingIsSighted(entries: seq<Source>, chars: seq<char>, table: seq<seq<Seen>>, cid: nat, j: nat)
    returns (e: Source, i: nat)
    requires CharTableOf(entries, chars, table) && cid < |chars| && j < |table[cid]|
    ensures e in entries && Usable(e) && i < |e.word| && KeySeq(e.syllables[i]) != [] && e.word[i] == chars[cid]
    ensures table[cid][j].key == KeyOf(e.syllables[i]) && table[cid][j].freq == if e.freq > 1 then e.freq else 1
  {
    hide Sightings, KeyOf, DistinctKeys;
    assert SeenOk(table[cid], Sightings(entries), chars[cid]);
    e, i := SightedBy(entries, Sighting(chars[cid], table[cid][j].key, table[cid][j].freq));
  }

  /** And where a syllable of a source goes to. */
  lemma {:induction false} SyllableIsStored(entries: seq<Source>, chars: seq<char>, table: seq<seq<Seen>>, cid: nat, e: Source, i: nat)
    returns (j: nat)
    requires CharTableOf(entries, chars, table) && cid < |chars|
    requires e in entries && Usable(e) && i < |e.word| && KeySeq(e.syllables[i]) != [] && e.word[i] == chars[cid]
    ensures j < |table[cid]| && table[cid][j].key == KeyOf(e.syllables[i])
    ensures table[cid][j].freq >= if e.freq > 1 then e.freq else 1
  {
    hide Sightings, KeyOf, DistinctKeys;
    SightingsHas(entries, e, i);
    var freq := if e.freq > 1 then e.freq else 1;
    assert SeenOk(table[cid], Sightings(entries), chars[cid]);
    assert TableBuilder.Covers(table[cid], KeyOf(e.syllables[i]), freq);
    j :| 0 <= j < |table[cid]| && table[cid][j].key == KeyOf(e.syllables[i]) && table[cid][j].freq >= freq;
  }

  /** A reading of a built table is asked for exactly when the syllable behind it is. */
  lemma {:induction false} StoredIsAsked(chars: seq<char>, table: seq<seq<Seen>>, cid: nat, j: nat, e: Source, i: nat,
                                         keys: seq<Byte>, hints: Option<seq<Byte>>)
    requires |table| == |chars| && cid < |chars| && j < |table[cid]| && HintsCover(hints, keys) && |keys| > 0
    requires Usable(e) && i < |e.word| && KeySeq(e.syllables[i]) != [] && table[cid][j].key == KeyOf(e.syllables[i])
    ensures j < |StoredChars(CharEntries(chars, table))[cid].readings|
    ensures AskedFor(CharTable(StoredChars(CharEntries(chars, table)), true), StoredChars(CharEntries(chars, table))[cid].readings[j], keys, hints)
      <==> Asks(e, i, e.word[i], keys, hints)
  {
    hide AskedFor, StoredChars, CharEntries, SpelledOut, KeySeq, KeyOf, Alike;
    StoredAlike(chars, table, cid, j, e, i);
    AskedAlike(CharTable(StoredChars(CharEntries(chars, table)), true), NO_TABLE,
               StoredChars(CharEntries(chars, table))[cid].readings[j], SpelledOut(e)[i], keys, hints);
  }

  lemma {:induction false} WantedIsStored(entries: seq<Source>, chars: seq<char>, table: seq<seq<Seen>>, cid: nat, e: Source, i: nat,
                                          keys: seq<Byte>, hints: Option<seq<Byte>>) returns (j: nat)
    requires CharTableOf(entries, chars, table) && cid < |chars| && HintsCover(hints, keys) && |keys| > 0
    requires e in entries && Asks(e, i, chars[cid], keys, hints)
    ensures j < |table[cid]| == |StoredChars(CharEntries(chars, table))[cid].readings|
    ensures AskedFor(CharTable(StoredChars(CharEntries(chars, table)), true), StoredChars(CharEntries(chars, table))[cid].readings[j], keys, hints)
    ensures Min(table[cid][j].freq, 0xFFFF) >= SightedFreq(e)
  {
    hide AskedFor, KeySeq, KeyOf, AllCjk, SeenOk, Sightings;
    j := SyllableIsStored(entries, chars, table, cid, e, i);
    StoredIsAsked(chars, table, cid, j, e, i, keys, hints);
    StoredShape(chars, table, cid);
  }

  lemma {:induction false} StoredIsWanted(entries: seq<Source>, chars: seq<char>, table: seq<seq<Seen>>, cid: nat, j: nat,
                                          keys: seq<Byte>, hints: Option<seq<Byte>>) returns (e: Source, i: nat)
    requires CharTableOf(entries, chars, table) && cid < |chars| && HintsCover(hints, keys) && |keys| > 0
    requires j < |table[cid]| == |StoredChars(CharEntries(chars, table))[cid].readings|
    requires AskedFor(CharTable(StoredChars(CharEntries(chars, table)), true), StoredChars(CharEntries(chars, table))[cid].readings[j], keys, hints)
    ensures e in entries && Asks(e, i, chars[cid], keys, hints)
    ensures Min(table[cid][j].freq, 0xFFFF) == SightedFreq(e) && table[cid][j].key.tone == SyllableTone(e.syllables[i])
  {
    hide AskedFor, KeySeq, AllCjk, SeenOk, Sightings, SyllableTone, PosSeq;
    e, i := ReadingIsSighted(entries, chars, table, cid, j);
    StoredIsAsked(chars, table, cid, j, e, i, keys, hints);
  }

  /** Over tables built from sources a character is a hit exactly when some source line reads it as typed. */
  lemma {:induction false} CharHitIsWanted(entries: seq<Source>, chars: seq<char>, table: seq<seq<Seen>>, p: Parts,
                                           keys: seq<Byte>, hints: Option<seq<Byte>>, cid: nat)
    requires CharTableOf(entries, chars, table) && p.chars == CharEntries(chars, table)
    requires HintsCover(hints, keys) && |keys| > 0 && cid < |chars|
    ensures CharHit(ImageOf(p), keys, hints)(cid) <==> CharWanted(entries, chars[cid], keys, hints)
  {
    hide AskedFor, CharHit, CharCand, Asks, StoredChars, CharEntries;
    CharIsHitExactlyWhen(ImageOf(p), keys, hints, cid);
    var rs := StoredChars(CharEntries(chars, table))[cid].readings;
    ReadingCount(entries, chars, table, cid);
    if j :| 0 <= j < |rs| && AskedFor(ImageOf(p).table, rs[j], keys, hints) {
      var e, i := StoredIsWanted(entries, chars, table, cid, j, keys, hints);
    }
    if e, i: nat :| e in entries && Asks(e, i, chars[cid], keys, hints) {
      var j := WantedIsStored(entries, chars, table, cid, e, i, keys, hints);
    }
  }

  lemma {:induction false} ReadingCount(entries: seq<Source>, chars: seq<char>, table: seq<seq<Seen>>, cid: nat)
    requires CharTableOf(entries, chars, table) && cid < |chars|
    ensures |table| == |chars| && |StoredChars(CharEntries(chars, table))[cid].readings| == |table[cid]|
  {
    StoredShape(chars, table, cid);
  }

  /** And it is offered with the highest frequency among those lines. */
  lemma {:induction false} CharHitIsOffered(entries: seq<Source>, chars: seq<char>, table: seq<seq<Seen>>, p: Parts,
                                            keys: seq<Byte>, hints: Option<seq<Byte>>, cid: nat)
    requires CharTableOf(entries, chars, table) && p.chars == CharEntries(chars, table)
    requires HintsCover(hints, keys) && |keys| > 0 && cid < |chars| && CharHit(ImageOf(p), keys, hints)(cid)
    ensures OffersChar(entries, chars[cid], keys, hints, CharCand(ImageOf(p), keys, hints)(cid))
  {
    hide AskedFor, CharHit, CharCand, Asks, Shows, StoredChars, CharEntries, SeenOk, Sightings;
    var d := ImageOf(p).table;
    var rs := d.chars[cid].readings;
    CharIsHitExactlyWhen(ImageOf(p), keys, hints, cid);
    var k :| 0 <= k < |rs| && AskedFor(d, rs[k], keys, hints);
    var j := SomeFirst(d, rs, keys, hints, k);
    StoredShape(chars, table, cid);
    BuiltUtf8IsShort(entries, chars, table, cid);
    var cand := CharCand(ImageOf(p), keys, hints)(cid);
    var e, i := StoredIsShown(entries, chars, table, cid, j, keys, hints, cand);
    forall f, l: nat | f in entries && Asks(f, l, chars[cid], keys, hints) ensures SightedFreq(f) <= cand.freq {
      NoLineIsBetter(entries, chars, table, cid, j, f, l, keys, hints);
    }
  }

  lemma {:induction false} StoredIsShown(entries: seq<Source>, chars: seq<char>, table: seq<seq<Seen>>, cid: nat, j: nat,
                                         keys: seq<Byte>, hints: Option<seq<Byte>>, cand: Candidate) returns (e: Source, i: nat)
    requires CharTableOf(entries, chars, table) && cid < |chars| && HintsCover(hints, keys) && |keys| > 0
    requires j < |table[cid]| == |StoredChars(CharEntries(chars, table))[cid].readings|
    requires var r := StoredChars(CharEntries(chars, table))[cid].readings[j];
      && AskedFor(CharTable(StoredChars(CharEntries(chars, table)), true), r, keys, hints)
      && cand.freq == r.freq && cand.tone == r.tone
    ensures e in entries && Shows(e, i, chars[cid], keys, hints, cand)
  {
    hide AskedFor, Asks, StoredChars, CharEntries, SeenOk, Sightings, SyllableTone, CharTableOf;
    ReadingCount(entries, chars, table, cid);
    e, i := StoredIsWanted(entries, chars, table, cid, j, keys, hints);
    StoredShape(chars, table, cid);
  }

  lemma {:induction false} NoLineIsBetter(entries: seq<Source>, chars: seq<char>, table: seq<seq<Seen>>, cid: nat, j: nat,
                                          e: Source, i: nat, keys: seq<Byte>, hints: Option<seq<Byte>>)
    requires CharTableOf(entries, chars, table) && cid < |chars| && HintsCover(hints, keys) && |keys| > 0
    requires FirstAsked(CharTable(StoredChars(CharEntries(chars, table)), true), StoredChars(CharEntries(chars, table))[cid].readings, keys, hints, j)
    requires e in entries && Asks(e, i, chars[cid], keys, hints)
    ensures SightedFreq(e) <= StoredChars(CharEntries(chars, table))[cid].readings[j].freq
  {
    hide AskedFor, Asks, StoredChars, CharEntries, SeenOk, Sightings;
    var m := WantedIsStored(entries, chars, table, cid, e, i, keys, hints);
    assert j <= m;
    StoredShape(chars, table, cid);
    assert TableBuilder.ByFreq()(table[cid][j]) >= TableBuilder.ByFreq()(table[cid][m]);
  }

  lemma {:induction false} BuiltUtf8IsShort(entries: seq<Source>, chars: seq<char>, table: seq<seq<Seen>>, cid: nat)
    requires CharTableOf(entries, chars, table) && cid < |chars|
    ensures Utf8(chars[cid])[..Min(|Utf8(chars[cid])|, 31)] == Utf8(chars[cid])
  {
    hide CharTableOf;
    BuiltCharsAreCjk(entries, chars, table);
    Utf8Encodes(chars[cid]);
  }

  /** The best of the wanted characters: different ones, each offered as the sources read it, most frequent first,
      and one is missing only behind a full list of characters at least as frequent. */
  ghost predicate BestChars(res: seq<Candidate>, entries: seq<Source>, keys: seq<Byte>, hints: Option<seq<Byte>>, max: nat, cs: seq<char>)
    requires HintsCover(hints, keys) && |keys| > 0
  {
    && |cs| == |res| <= max && Distinct(cs) && Descending(res, CandFreq())
    && (forall n :: 0 <= n < |cs| ==> CharWanted(entries, cs[n], keys, hints) && OffersChar(entries, cs[n], keys, hints, res[n]))
    && forall e, i: nat, c :: e in entries && Asks(e, i, c, keys, hints) && c !in cs ==>
         |res| == max && forall n :: 0 <= n < |res| ==> SightedFreq(e) <= res[n].freq
  }

  lemma {:induction false} ResultsAreSourceChars(entries: seq<Source>, chars: seq<char>, table: seq<seq<Seen>>, p: Parts,
                                                 keys: seq<Byte>, hints: Option<seq<Byte>>, max: nat, res: seq<Candidate>, picks: seq<nat>)
    returns (cs: seq<char>)
    requires CharTableOf(entries, chars, table) && p.chars == CharEntries(chars, table) && HintsCover(hints, keys) && |keys| > 0
    requires TopHits(res, picks, max, CharHit(ImageOf(p), keys, hints), CharCand(ImageOf(p), keys, hints))
    ensures BestChars(res, entries, keys, hints, max, cs)
  {
    hide CharHit, CharCand, CharWanted, OffersChar, Asks, StoredChars, CharEntries, SeenOk, Sightings, Descending;
    var hit, f := CharHit(ImageOf(p), keys, hints), CharCand(ImageOf(p), keys, hints);
    forall n | 0 <= n < |picks| ensures picks[n] < |chars| {
      assert picks[n] in picks;
      CharIsHitExactlyWhen(ImageOf(p), keys, hints, picks[n]);
    }
    cs := seq(|picks|, n requires 0 <= n < |picks| => chars[picks[n]]);
    DifferentChars(chars, picks, cs);
    forall n | 0 <= n < |cs| ensures CharWanted(entries, cs[n], keys, hints) && OffersChar(entries, cs[n], keys, hints, res[n]) {
      assert picks[n] in picks;
      CharHitIsWanted(entries, chars, table, p, keys, hints, picks[n]);
      CharHitIsOffered(entries, chars, table, p, keys, hints, picks[n]);
    }
    forall e, i: nat, c | e in entries && Asks(e, i, c, keys, hints) && c !in cs
      ensures |res| == max && forall n :: 0 <= n < |res| ==> SightedFreq(e) <= res[n].freq
    {
      var cid := MissingChar(entries, chars, table, p, keys, hints, e, i, c);
      forall n | 0 <= n < |picks| ensures picks[n] != cid {
        assert cs[n] in cs;
      }
    }
  }

  lemma {:induction false} DifferentChars(chars: seq<char>, picks: seq<nat>, cs: seq<char>)
    requires AscendingChars(chars) && Distinct(picks) && |cs| == |picks|
    requires forall n :: 0 <= n < |picks| ==> picks[n] < |chars| && cs[n] == chars[picks[n]]
    ensures Distinct(cs)
  {
    forall m, n | 0 <= m < n < |cs| ensures cs[m] != cs[n] {
      assert picks[m] < picks[n] || picks[n] < picks[m];
    }
  }

  /** The id of a wanted character: a hit, with at least its line's frequency. */
  lemma {:induction false} MissingChar(entries: seq<Source>, chars: seq<char>, table: seq<seq<Seen>>, p: Parts,
                                       keys: seq<Byte>, hints: Option<seq<Byte>>, e: Source, i: nat, c: char) returns (cid: nat)
    requires CharTableOf(entries, chars, table) && p.chars == CharEntries(chars, table) && HintsCover(hints, keys) && |keys| > 0
    requires e in entries && Asks(e, i, c, keys, hints)
    ensures cid < |chars| && chars[cid] == c && CharHit(ImageOf(p), keys, hints)(cid)
    ensures CharCand(ImageOf(p), keys, hints)(cid).freq >= SightedFreq(e)
  {
    hide CharHit, CharCand, AskedFor, StoredChars, CharEntries, SeenOk, Sightings, KeySeq, KeyOf, AllCjk;
    SightingsHas(entries, e, i);
    assert c in chars;
    cid :| 0 <= cid < |chars| && chars[cid] == c;
    assert CharWanted(entries, chars[cid], keys, hints);
    CharHitIsWanted(entries, chars, table, p, keys, hints, cid);
    CharHitIsOffered(entries, chars, table, p, keys, hints, cid);
  }

  /** The search for single characters over the compiled file: the best of those the sources read as typed. */
  method SearchSourceChars(
    ghost entries: seq<Source>, ghost chars: seq<char>, ghost table: seq<seq<Seen>>, ghost words: seq<BuiltWord>,
    ghost ws: seq<Word>, ghost p: Parts, ghost syllables: seq<seq<char>>,
    image: Image, keys: seq<Byte>, hints: Option<seq<Byte>>, out: array<Candidate>, max: nat) returns (n: nat, ghost cs: seq<char>)
    requires Built(entries, chars, table, words, ws, p, syllables) && image == ImageOf(p)
    requires HintsCover(hints, keys) && |keys| > 0 && max <= out.Length
    modifies out
    ensures n <= max && BestChars(out[..n], entries, keys, hints, Min(max, 256), cs)
  {
    hide BestChars, TopHits, ImageOk, KeyBytesOk, CharTableOf, WordTableOf, FileFits;
    BuiltImageOk(entries, chars, table, words, ws, p, syllables);
    ghost var picks;
    n, picks := Search(image, keys, hints, 1, out, max);
    cs := ResultsAreSourceChars(entries, chars, table, p, keys, hints, Min(max, 256), out[..n], picks);
  }
}
