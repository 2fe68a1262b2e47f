# MokyaLora input engine and inter-core ring: verified model

A Dafny 4 model, with proofs, of the logic that a two-core handheld's firmware relies on:

- **The dictionary engine.** The compiler (`gen_dict.py`) turns word lists into two formats. The v2 index stores every abbreviation of every word; the v4 file stores characters, words and two inverted indexes, and abbreviations are composed while searching. `GenDict`, `TableBuilder`, `WordIndex`, `PrefixTable`, `V4Blob`, `V4File` and `V4Compiler` model the compiler, `Trie` the v2 search, `Composition` and `IndexedSearch` the v4 matcher and search, `V4Readers` the two independent readers of the v4 file. `V4Layout` says byte by byte where each number of that file stands. `DictEquivalence` models the loader of the word list and puts both generations side by side; `TrieResults` says what the v2 search returns of the entries it was compiled from; `EndToEnd` (words) and `SingleChars` (characters) go from source lines to v4 search results.
- **The inter-core ring.** `SpscRing` models one producer and one consumer as atomic loads, stores and slot accesses in any interleaving, with 32-bit indices that wrap; `RingCalls` tells from the steps alone which push calls are published and which messages the pop calls are given.
- **The input method.** `Syllables` (the position counter), `Lru` (the personal word cache), `LegacySearch` (the greedy search), `CandidateMerge` (the in-place splice), `ImeKeys` (the key table and its texts), `SentText` (what has been sent, and the two flags kept about it), `ImeMachine` (the whole state machine as a function of events, with everything it says to its listener), and `ImeLogic` (the class with its fixed buffers and its cache object, proved to take exactly the steps of that function). `LruUses` says what the cache remembers of the words taught, `LegacyMarks` what the greedy search lists for the keys and marks typed, `ImeSearches` what a search lists and in which order, and `SourcesOffered` takes that to the source lines of the compiled dictionary. `ImeLearning` follows a committed word into the cache and back to the head of the list; `ImeLaws` and `ImeKeyLaws` say which way each key goes and which keys undo each other; `KeyTables` compares the three copies of the key map. `ImePending`, `ImeLabels`, `ImeCycle`, `ImeHistory` and `OfferedRows` prove what runs of the machine do to the pending keys, the multi-tap label, the long-press cycle, the text sent and the candidate list; `WordStrings` is about the texts of candidates, and `OfferedTwice` gives a run in which one is offered twice.
- **Stream decoders.** `SerialFrames` (the 0x94/0xC3 frame parser), `NmeaBuffer` (NMEA sentence extraction from a fixed buffer) and `NmeaLines` (the sentences of well-formed lines).

`Basics`, `Bytes` and `Sorting` hold shared vocabulary, little-endian coding, and the stable sort.

How the parts fit: `V4Compiler.CompiledFileIsFaithful` takes the compiler's tables through the file to both of its readers. `EndToEnd.BuiltImageOk` shows that for tables built from source lines the image so served meets every requirement of the search, so that `EndToEnd.SearchSources` can state what `IndexedSearch.Search` returns in terms of the sources alone: the best of the words that the keys, markers and hints may stand for. `Composition.MatcherIsExact` says, without backtracking, what inputs a word accepts, and `EndToEnd.TypesWhatV2Lists` that without markers and hints these are the beginnings of what the v2 dictionary lists it under. `ImeMachine` takes its searches as functions; what it asks of them (no more results than requested) is what `Trie.Search` and `IndexedSearch.Search` promise. `OfferedRows` asks more of the v4 search, namely what `IndexedSearch.Search` ensures over tables that `WordStrings.BuiltTablesOk` shows the compiler builds; `OfferedTwice.FullScanServes` shows that every dictionary has an engine that answers so.

## Results that differ from what the code or its comments suggest

- `GenDict.DictionariesAgreeExactlyWhen`: the v4 matcher tries the prefix lengths n, n-1, 2 and 1 of a syllable of n keys, so for five or more keys it misses cuts the v2 expansion stores. When no syllable but the last has more than four keys the two dictionaries agree on every input (`GenDict.V4AcceptsWhatV2Expands`); for words whose long syllables show where a cut ends, among them all words whose keys are pairwise different (`GenDict.DifferentKeysTell`), they agree only then. `TableBuilder.RetroflexDiffers` gives a source word, with the retroflex ending written into its first syllable, whose stored abbreviation v4 rejects over whatever tables are built with it.
- `DictEquivalence.V2FindsWhatV4Composes`: the v2 index lists a word under every reading the list gives, the v4 table keeps one entry for each word. What v2 finds and v4 does not is listed by another reading of the word.
- `SpscRing.SlotCountMustDivideWrap`: live indices map to distinct slots across the 32-bit wrap if and only if the slot count divides 2^32, which the protocol header's 32 and 16 do.
- `ImeLabels.MultitapSendsItsLabel`: ending a multi-tap sends what the row shows. That is its label in every run unless OK committed a candidate under the multi-tap and its key was not pressed again (`ImeLabels.LabelLost`); then the rendered pending keys are sent instead, or nothing. `ImeLabels.LostLabelIsReachable` gives three key presses and a timeout after which the chosen punctuation was not sent.
- `ImeCycle.CycleEndsExactlyWhen`: comments say that any short tap, other key, DEL, OK, MODE or timeout locks a long-press cycle. It stays on its key under the first-tone marker, TAB, both symbol keys, DEL of another key or of a multi-tap, OK without candidates, any key while the picker is open, and any key when there is no room for it. `ImeCycle.CycleOutlivesOtherKeys` gives four presses from start-up where a long press after a marker and DEL changes the hint of the first key instead of adding a key.
- `ImePending.RowIsHiddenExactlyWhen`: the pending keys stop being shown exactly when a multi-tap over them is sent or given up without a new search. `ImePending.HiddenRowIsReachable`: one key, SYM2 and its timeout leave the key pending and the row empty.
- `OfferedRows.WordsAreOfferedTwiceExactlyWhen`: a word can be offered twice, only by the v4 engine from five positions on, and in a list that is not full exactly when the dictionary has two different words of five or more characters that fit the keys and hints and show the same characters once cut to the 31 bytes of a candidate: for characters of three bytes, when their first ten are the same (`WordStrings.SameFirstTen`). `OfferedTwice.OfferedTwiceIsReachable` is a run of five presses that lists one text twice.
- `SentText.FlagsAreOfTheText`: the flags that space and capitalise English words are updated with each text sent, or computed from the text before the cursor when the caller tells it. They always agree on whether a space ends the text. On whether a sentence begins they part in two cases only, both after blanks sent last: into an empty field (unless several spaces came in one text), and after the end of a sentence when a wide space or a text of several spaces, not both, is among the blanks. `SentText.SpaceFirstDiffers` and `SentText.WideSpaceDiffers` give an input for each, `ImeHistory.FlagsPartInARun` a run.
- `Syllables.TypedSyllableCountsOnce`: a syllable typed in full counts twice exactly when its tone key is read as the next syllable: the second tone after a bare consonant, the neutral tone after a rime (`Syllables.TonesTakenForSyllables`).
- `KeyTables.RoleIsThePhonemesExactlyWhen`: the position counter takes one role for each key, where some keys have phonemes of two roles. It reads a phoneme's key as that phoneme's role except for the second-tone and neutral-tone marks and the rimes ㄛ, ㄜ and ㄝ.
- The comment on the v4 layout gives a 0x30-byte header; the code writes 0x40 bytes, with further offsets after it, and the readers accept files from 0x30 bytes on. The model follows the code.
- The comment on the key index speaks of each character's first reading; the code lists a character under the first key of every reading. The model follows the code.
- The cache header describes eviction by age; the code evicts the entry that minimises last use plus 5000 ms for each use, as `Lru.UpsertKeepsOk` states.

## Model

| member | source | states |
|---|---|---|
| `Composition.MatcherIsExact` | firmware/mie/src/composition_searcher.cpp:257-344 | The backtracking matcher accepts an input if and only if it begins some way of typing the word: every syllable cut to its full keys, all but the last, or the first one or two, a tone-1 syllable optionally closed by SPACE, each position agreeing with the hints. |
| `Composition.RecurseSound` | firmware/mie/src/composition_searcher.cpp:257-344 | From a match it extracts the cuts that explain it. |
| `Composition.RecurseComplete` | firmware/mie/src/composition_searcher.cpp:257-344 | Whatever cuts explain an input, backtracking finds a match, including the greedy consumption of a tone-1 marker. |
| `Composition.MatchClosed` | firmware/mie/src/composition_searcher.cpp:257-354 | A matching word still matches every beginning of the input and any loosening of the hints. |
| `Composition.NoHintsMatch` | firmware/mie/src/composition_searcher.cpp:281-318 | No hints, hints that all say "any", and hints on a dictionary without positions give the same matches. |
| `Composition.TryLengthsAre` | firmware/mie/src/composition_searcher.cpp:285-304 | The deduplicated prefix lengths are exactly those in 1..n that are at least n-1 or at most 2. |
| `GenDict.PhonemesToKeyseqWithPos` | firmware/mie/tools/gen_dict.py:193-211 | The loop computes the key bytes and positions of the phonemes that have a key. |
| `GenDict.PackPhonemePos` | firmware/mie/tools/gen_dict.py:214-224 | Unpacking gives back each of the first four positions, clamped to 0..3, and 0 after them. |
| `GenDict.SyllableChoices` | firmware/mie/tools/gen_dict.py:352-366 | Consecutive-duplicate removal leaves exactly the non-empty prefixes of the syllable's key sequence. |
| `GenDict.AbbreviatedKeyseqs` | firmware/mie/tools/gen_dict.py:331-377 | The variants are exactly the joins of one non-empty prefix per syllable, each once, without the full sequence; none when a syllable has no keys. |
| `GenDict.V4AcceptsTriedLens` | firmware/mie/src/composition_searcher.cpp:257-344 | Without markers and hints, for readings of any length, the matcher accepts exactly the beginnings of joins of tried prefixes. |
| `GenDict.V4AcceptsWhatV2Expands` | firmware/mie/tools/gen_dict.py:331-377 | When no syllable but the last has more than four keys, v4 accepts exactly the beginnings of the full key sequence and of its abbreviations; otherwise never more. |
| `GenDict.LongSyllableDiffers` | firmware/mie/src/composition_searcher.cpp:285-304 | With a longer syllable before the last whose cut can be told from its keys: the input of one key of each syllable before it, three of its own and one more is stored by v2 and rejected by v4. |
| `GenDict.DictionariesAgreeExactlyWhen` | firmware/mie/src/composition_searcher.cpp:285-304 | For words all of whose longer syllables can be told so, the two dictionaries agree on every input if and only if no syllable but the last has more than four keys. |
| `GenDict.DifferentKeysTell` | firmware/mie/src/composition_searcher.cpp:285-304 | Every word whose keys are pairwise different is such a word. |
| `DictEquivalence.LoadRows` | firmware/mie/tools/gen_dict.py:381-441 | The loader's entries are exactly, for each row above the frequency limit, its word under the full key sequence and, within the syllable limit, under every abbreviation. |
| `DictEquivalence.V2FindsWhatIsListed` | firmware/mie/src/trie_searcher.cpp:158-288 | Over the index of those entries the v2 search finds a word only if some row lists it under a key that begins with the input, and always then unless the limit of words per key loses it. |
| `DictEquivalence.V2FindsWhatV4Composes` | firmware/mie/src/trie_searcher.cpp:158-288 | What v4 composes for a row v2 finds, unless the limit loses it; what v2 finds is composed by v4 for that row, or listed by another row of the same word. |
| `TableBuilder.BuildCharTable` | firmware/mie/tools/gen_dict.py:784-858 | Characters in code point order; each one's readings are exactly those sighted in usable entries, once each, with the highest frequency sighted, most frequent first. |
| `TableBuilder.AccumHas` | firmware/mie/tools/gen_dict.py:819-839 | The accumulated dictionary has exactly the sighted characters and readings, with the maximum over their sightings. |
| `TableBuilder.BestEntries` | firmware/mie/tools/gen_dict.py:879-893 | Of the usable entries of each word one of the highest frequency is kept, and each word once. |
| `TableBuilder.FindReading` | firmware/mie/tools/gen_dict.py:904-922 | The exact reading when the table has it, else one with the same keys and tone when there is one. |
| `TableBuilder.BuildWordTable` | firmware/mie/tools/gen_dict.py:861-925 | One entry per eligible word, pointing at its characters and the readings it was written with. |
| `TableBuilder.WordKeepsItsReadings` | firmware/mie/tools/gen_dict.py:784-925 | For tables built from the same sources the stored index of every syllable with keys names exactly its keys, positions and tone. |
| `TableBuilder.StoredWordReadsAs` | firmware/mie/tools/gen_dict.py:861-1022 | Also after the file omits all-zero indices, the stored word reads as the key sequences of its source syllables. |
| `TableBuilder.SourceWordIsComposed` | firmware/mie/src/composition_searcher.cpp:257-354 | From source line to search: over the stored tables the word is accepted exactly for the inputs the v2 expansion would have listed. |
| `TableBuilder.RetroflexDiffers` | firmware/mie/src/composition_searcher.cpp:257-354 | A concrete source word whose abbreviation 31 2E 24 21 v2 stores and the v4 matcher rejects, over whatever tables are built from sources that contain it. |
| `Trie.BuildMied` | firmware/mie/tools/gen_dict.py:575-646 | One index entry per distinct key, in byte order, with that key's words pruned to the most frequent. |
| `Trie.LowerBound` | firmware/mie/src/trie_searcher.cpp:180-187 | The binary search stops at the first key not below the query. |
| `Trie.Search` | firmware/mie/src/trie_searcher.cpp:158-288 | The in-place search equals the running top-N over the words of exactly the keys that extend the query. |
| `Trie.SearchVisitsSurvivors` | firmware/mie/src/trie_searcher.cpp:158-288 | For any limit of words per key, exactly the words that survive it under some key that extends the query are visited. |
| `Trie.PrunedIsTop` | firmware/mie/tools/gen_dict.py:600-625 | Under an overfull key the limit keeps that many words and drops none more frequent than one it keeps. |
| `Trie.CollectOrdered` | firmware/mie/src/trie_searcher.cpp:222-285 | The results are pairwise distinct and frequency-descending, whatever the input. |
| `Trie.CollectIsTopOfSort` | firmware/mie/src/trie_searcher.cpp:222-285 | When a word has one frequency across its keys, the result is the first N of the stable frequency sort of the first occurrences. |
| `TrieResults.VisitedExactlyWhen` | firmware/mie/tools/gen_dict.py:575-646 | The search visits a candidate if and only if it is an entry of 1 to 30 bytes that the limit leaves under some key beginning with the query, with the entry's tone and its frequency saturated at 65535. |
| `TrieResults.LeavesEntries` | firmware/mie/tools/gen_dict.py:600-625 | What the limit leaves under a key was given under it, and everything given is left without a limit or under a key that is not overfull. |
| `TrieResults.ResultsAreListed` | firmware/mie/src/trie_searcher.cpp:158-288 | For any entries, query, limit and room: the results are such entries, each word once, most frequent first; of every such word some entry is returned, with no lower frequency, or is behind a full list of words at least as frequent. |
| `TrieResults.SearchEntries` | firmware/mie/src/trie_searcher.cpp:158-288 | The in-place search over the compiled index returns that, and touches nothing beyond the room given. |
| `Sorting.InsertionSort` | firmware/mie/src/lru_cache.cpp:167-182 | The in-place insertion sort computes the stable sort. |
| `WordIndex.GroupWords` | firmware/mie/tools/gen_dict.py:960-1022 | Words grouped by length, eight groups, each in stable frequency order, with their start and count. |
| `WordIndex.GroupWordsOk` | firmware/mie/tools/gen_dict.py:960-1022 | A word id lies in a group's range if and only if the word has that length, and the groups are adjacent. |
| `WordIndex.GroupingConserves` | firmware/mie/tools/gen_dict.py:960-1022 | Every word of at least one character is in the table exactly as often as in the input, and nothing else is. |
| `WordIndex.PackLists` | firmware/mie/tools/gen_dict.py:1083-1145 | Prefix-sum offsets and the lists back to back. |
| `WordIndex.BuildFirstCharIdx` | firmware/mie/tools/gen_dict.py:1083-1105 | Packs, for each character, the ids of the words it begins, most frequent first. |
| `WordIndex.FirstListsHave` | firmware/mie/tools/gen_dict.py:1083-1105 | Each word id is listed once, under its first character and no other. |
| `WordIndex.BuildKeyToCharIdx` | firmware/mie/tools/gen_dict.py:1108-1145 | Packs, for each key slot, the characters that have a reading beginning with it. |
| `WordIndex.KeyListsHave` | firmware/mie/tools/gen_dict.py:1108-1145 | Each such character is listed once, and no other. |
| `IndexedSearch.CompiledImageOk` | firmware/mie/tools/gen_dict.py:960-1145 | The compiler's tables, as loaded, keep everything the search relies on. |
| `IndexedSearch.EmitMatch` | firmware/mie/src/composition_searcher.cpp:553-578 | One more match: appended while there is room, else in place of a least frequent candidate if it is more frequent, keeping the minimum index right. |
| `IndexedSearch.SearchWords` | firmware/mie/src/composition_searcher.cpp:506-611 | The indexed walk with the group filter meets each matching word of the requested length class once and returns the top of a full scan: distinct words of the table, frequency-descending, none left out that is more frequent than one kept. |
| `IndexedSearch.SearchChars` | firmware/mie/src/composition_searcher.cpp:385-495 | The same for single characters: one candidate per character, from its first fitting reading, tone 1 required after a trailing SPACE. |
| `IndexedSearch.Search` | firmware/mie/src/composition_searcher.cpp:506-611 | The entry point: nothing for empty input, characters for target 1, words otherwise, in both cases the best of a full scan. |
| `SingleChars.CharIsHitExactlyWhen` | firmware/mie/src/composition_searcher.cpp:385-495 | A character is a hit if and only if the whole input, without a trailing marker, is the beginning of the full keys of one of its readings and agrees with the hints, that reading having tone 1 if there was a marker; a marker alone asks for nothing. It is shown with frequency and tone of the first such reading. |
| `IndexedSearch.HitHasFirstKey` | firmware/mie/src/composition_searcher.cpp:522-529 | A match begins with a key of its first character, so the key index loses none. |
| `IndexedSearch.AllowedRange` | firmware/mie/src/composition_searcher.cpp:536-545 | The word-id range of targets -1, 0 and 2..7 contains exactly the words of that length class. |
| `PrefixTable.PackIsInjective` | firmware/mie/src/composition_searcher.cpp:43-49 | Different prefixes have different packed values. |
| `PrefixTable.BuildPrefixTable` | firmware/mie/tools/gen_dict.py:1025-1076 | The sorted table holds exactly the packed one to four key beginnings of the source syllables, or of the stored readings when no source syllable has a key. |
| `PrefixTable.HasReadingPrefix` | firmware/mie/src/composition_searcher.cpp:51-61 | The binary search answers true exactly for the one to four byte beginnings of syllables. |
| `PrefixTable.KnownIsPrefixClosed` | firmware/mie/tools/gen_dict.py:1025-1046 | Every beginning of a known beginning is known. |
| `PrefixTable.CountSyllables` | firmware/mie/src/composition_searcher.cpp:63-86 | The count is that of a parse in which a byte is skipped only if no syllable begins with it, and every other piece is a known beginning that no known beginning extends. |
| `PrefixTable.GreedyIsUnique` | firmware/mie/src/composition_searcher.cpp:63-86 | There is only one such parse. |
| `PrefixTable.OneSyllableCountsOnce` | firmware/mie/src/composition_searcher.cpp:63-86 | The first keys of one syllable count as one. |
| `V4Blob.SerializeCharTable` | firmware/mie/tools/gen_dict.py:928-957 | Writes the records back to back and their offsets. |
| `V4Blob.SerializeWordTable` | firmware/mie/tools/gen_dict.py:960-1022 | Writes the group headers and word records, and offsets from the section start. |
| `V4Blob.CharRoundTrip` | firmware/mie/src/composition_searcher.cpp:188-228 | A character record at any offset parses back, frequencies clamped to 65535. |
| `V4Blob.WordRoundTrip` | firmware/mie/src/composition_searcher.cpp:236-249 | A word record parses back, indices omitted when all are 0, frequency clamped. |
| `V4File.WriteFile` | firmware/mie/tools/gen_dict.py:1148-1237 | The assembled blob is the header and sections in order. |
| `V4File.SectionsStand` | firmware/mie/tools/gen_dict.py:1186-1237 | Every section stands at the offset the header computation gives it. |
| `V4Layout.CharBytes` | firmware/mie/tools/gen_dict.py:928-957 | Where each byte of a character record stands: length, text, number of readings; then for every reading its key count, keys, position byte if the file has them, tone, and saturated frequency, low byte first. |
| `V4Layout.WordBytes` | firmware/mie/tools/gen_dict.py:1001-1022 | The same for a word record: count, flag, frequency, two bytes for each character id, and the reading indices if and only if one is not 0. |
| `V4Layout.HeaderBytes` | firmware/mie/tools/gen_dict.py:1186-1237 | Magic, version, flags and counts at their offsets; each section stands where the header's own numbers say, and the file is as long as it says. |
| `V4Layout.GroupBytes` | firmware/mie/tools/gen_dict.py:992-1000 | The word section begins with count and first id of each group. |
| `V4Readers.ParseHeader` | firmware/mie/src/composition_searcher.cpp:125-185 | Accepts exactly the buffers whose magic, version and offsets are in order, and decodes their fields. |
| `V4Readers.HeaderRoundTrip` | firmware/mie/src/composition_searcher.cpp:125-185 | The header of a written file is accepted and names its sections. |
| `V4Readers.GetReading` | firmware/mie/src/composition_searcher.cpp:202-228 | Walking the records finds the asked reading, or none when the index is out of range. |
| `V4Readers.FileServesImage` | firmware/mie/src/composition_searcher.cpp:125-249 | Through header and offset arrays every character, reading, word and index entry written is read back. |
| `V4Readers.PrefixesServe` | firmware/mie/src/composition_searcher.cpp:166-182 | So is every entry of the syllable-prefix table. |
| `V4Readers.ReadV4` | scripts/verify_mied_v4.py:23-155 | The front-to-back reader, with its error cases, as one expression. |
| `V4Readers.FileReadsBack` | scripts/verify_mied_v4.py:23-155 | Front to back, a written file gives the tables back, frequencies clamped, omitted indices as zeros, each index as its lists. |
| `V4Readers.ReadersAgree` | scripts/verify_mied_v4.py:23-155 | The two readers agree on every character and word of a written file. |
| `V4Compiler.Compile` | firmware/mie/tools/gen_dict.py:1148-1184 | Grouping, both inverted indexes and the prefix table, built together. |
| `V4Compiler.CompiledFileIsFaithful` | firmware/mie/tools/gen_dict.py:1148-1237 | A compiled file serves an image with the indexes the search walks, both readers agree on it, and it holds each word as often as given. |
| `EndToEnd.BuiltKeysOk` | firmware/mie/tools/gen_dict.py:193-211 | Every key stored in a table built from sources is in the key index and is not the marker: what the search and the matcher ask of keys. |
| `EndToEnd.BuiltImageOk` | firmware/mie/tools/gen_dict.py:784-1237 | So the image served from a file built from sources meets every requirement of the search, the matcher and the theorems on offered rows. |
| `EndToEnd.MatchesWhatIsTyped` | firmware/mie/src/composition_searcher.cpp:257-354 | Over the stored tables a source word is accepted for exactly what its syllables let the user type, with every hint and marker. |
| `EndToEnd.TypesWhatV2Lists` | firmware/mie/tools/gen_dict.py:331-377 | Without hints and markers, and with no syllable of more than four keys before the last, that is every beginning of the word's full key sequence or of an abbreviation. |
| `EndToEnd.HitIsWanted` | firmware/mie/src/composition_searcher.cpp:506-578 | Through the file, an id is a hit of a full scan if and only if its source word has the length asked for and may be typed so; its candidate is the source line's text, frequency and last tone. |
| `EndToEnd.ResultsAreSourceWords` | firmware/mie/src/composition_searcher.cpp:506-611 | The best hits are different source words, each wanted and shown as its source line says, most frequent first; a wanted word is missing only behind a full list of words at least as frequent. |
| `EndToEnd.SearchSources` | firmware/mie/src/composition_searcher.cpp:506-611 | The search over the compiled file returns those words for any keys and hints, with every requirement discharged. |
| `SingleChars.CharHitIsWanted` | firmware/mie/src/composition_searcher.cpp:385-495 | Over tables built from sources a character is a hit if and only if some usable source line has a syllable of it that the input asks for. |
| `SingleChars.CharHitIsOffered` | firmware/mie/src/composition_searcher.cpp:385-495 | It is shown with the highest frequency of those lines, and the tone of a line that has it. |
| `SingleChars.ResultsAreSourceChars` | firmware/mie/src/composition_searcher.cpp:385-495 | The best hits are different such characters, most frequent first; one is missing only behind a full list of characters at least as frequent. |
| `SingleChars.SearchSourceChars` | firmware/mie/src/composition_searcher.cpp:385-495 | The search for one character over the compiled file returns those, for any keys and hints. |
| `SpscRing.RunInv` | firmware/shared/ipc/ipc_ringbuf.c:43-121 | The ownership invariant holds in every state of every interleaving. |
| `SpscRing.PoppedIsPrefixOfPushed` | firmware/shared/ipc/ipc_ringbuf.c:43-108 | Popped messages are the first pushed ones, in order and whole; at most the slot count is unread; overflow counts refused pushes modulo 2^32. |
| `RingCalls.RunHistory` | firmware/shared/ipc/ipc_ringbuf.c:43-108 | In every reachable state, told by the sequence of steps: everything in the ring or in the producer's hands is the message its push call was given, and the consumer uses the buffer size its pop call was given. |
| `RingCalls.CallsArePublishedExactlyWhen` | firmware/shared/ipc/ipc_ringbuf.c:43-78 | A push call that is over was published if and only if its payload fitted and the ring was not full when it looked; publications keep the order of the calls, and the overflow count is that of the others. |
| `RingCalls.CallsTakeExactlyWhen` | firmware/shared/ipc/ipc_ringbuf.c:80-108 | A pop call that is over took a message if and only if the ring was not empty when it looked. |
| `RingCalls.TakenAreTheFirstCalls` | firmware/shared/ipc/ipc_ringbuf.c:43-108 | The i-th pop call that takes a message is given id, sequence number, length and payload of the i-th published push call, the payload cut to its own buffer. |
| `SpscRing.WritesOnlyFreeSlots` | firmware/shared/ipc/ipc_shared_layout.h:93-102 | The producer never writes a slot that holds an unread message or that the consumer is reading. |
| `SpscRing.PushFailsOnlyWhenFull` | firmware/shared/ipc/ipc_ringbuf.c:56-64 | A push is refused by the index check exactly when the ring was full at its load of tail. |
| `SpscRing.PopFailsOnlyWhenEmpty` | firmware/shared/ipc/ipc_ringbuf.c:89-94 | A pop reports empty exactly when the ring was empty at its load of head. |
| `SpscRing.PendingInRange` | firmware/shared/ipc/ipc_ringbuf.c:110-116 | Called by either owner between its operations, the pending count is the true one and at most the slot count. |
| `SpscRing.FreeSlotsArePromised` | firmware/shared/ipc/ipc_ringbuf.c:118-121 | The free count seen by the producer is a number of pushes that will succeed. |
| `SpscRing.SlotCountMustDivideWrap` | firmware/shared/ipc/ipc_protocol.h:62-64 | Live indices fall on distinct slots through the wrap if and only if the slot count divides 2^32. |
| `Syllables.CountPositions` | firmware/mie/src/ime_keys.cpp:188-199 | The loop counts the syllables begun. |
| `Syllables.FirstNPositionsBytes` | firmware/mie/src/ime_keys.cpp:201-221 | The loop finds where the first n positions end. |
| `Syllables.BoundaryForgetsThePast` | firmware/mie/src/ime_keys.cpp:135-186 | A key that begins a syllable does so, with the same role and next state, from outside any syllable, byte 0x23 included. |
| `Syllables.CutResynchronises` | firmware/mie/src/ime_keys.cpp:188-221 | The cut takes min(n, all) positions, is never empty, and what is left counts the rest on its own. |
| `Syllables.CutsCompose` | firmware/mie/src/ime_keys.cpp:201-221 | Cutting after a and then after b positions is cutting after a + b. |
| `Syllables.InitialsCountEach` | firmware/mie/src/ime_keys.cpp:124-146 | Initials alone count one each, with 0x23 read as an initial. |
| `Syllables.BodyIsOne` | firmware/mie/src/ime_keys.cpp:148-186 | The keys of a consonant, up to two medial keys and a rime are one position, and what follows is read on from the state they lead to. |
| `Syllables.TypedSyllableCountsOnce` | firmware/mie/src/ime_keys.cpp:124-199 | With any of the four tone keys a full syllable counts once if and only if the key joins it: the second tone needs a vowel before it, the neutral tone must not follow a rime; otherwise it counts twice. |
| `Syllables.TypedSyllableIsCut` | firmware/mie/src/ime_keys.cpp:188-221 | What follows a joined tone is counted on its own, and the first cut ends after the tone; after the neutral tone only a further second-tone key would be taken in. |
| `Syllables.TwoMedialKeysAreOne` | firmware/mie/src/ime_keys.cpp:155-171 | Two medial keys in a row are one syllable; with a tone it counts once unless the tone is the neutral one. |
| `Syllables.TonesTakenForSyllables` | firmware/mie/src/ime_keys.cpp:124-146 | Two concrete syllables whose tone key is counted as another syllable. |
| `KeyTables.ShownIsCompiled` | firmware/mie/tools/gen_dict.py:105-151 | The text shown for a slot and position is the UTF-8 of the phoneme that the compiler stores with that key and position. |
| `KeyTables.SlotHasPhoneme` | firmware/mie/tools/gen_dict.py:105-151 | Every slot and position that can be shown belongs to exactly one phoneme. |
| `KeyTables.RoleIsThePhonemesExactlyWhen` | firmware/mie/src/ime_keys.cpp:66-102 | The position counter reads a phoneme's key as that phoneme's role if and only if it is none of the second-tone and neutral-tone marks and the rimes ㄛ, ㄜ and ㄝ. |
| `KeyTables.EverySoundHasAKey` | firmware/mie/tools/gen_dict.py:105-151 | A character has a key if and only if it is a consonant, glide, rime or one of the four tone marks. |
| `Lru.HintsRoundTrip` | firmware/mie/src/lru_cache.cpp:15-48 | Packed hints unpack to the first four hints and "any" beyond. |
| `Lru.UpsertKeepsOk` | firmware/mie/src/lru_cache.cpp:55-136 | The three cases: a known triple is refreshed in place with one more use; a new one is appended while there is room; on a full miss it replaces an entry of least last use plus 5000 ms per use. Nothing else changes, and a refused triple changes nothing. |
| `Lru.RunKeepsOk` | firmware/mie/src/lru_cache.cpp:50-136 | So after any run of calls from an empty cache. |
| `Lru.LruCache.Upsert` | firmware/mie/src/lru_cache.cpp:105-136 | The method on the fixed array computes that update. |
| `Lru.LruCache.LookupInto` | firmware/mie/src/lru_cache.cpp:138-210 | The in-place lookup computes the specified rows and prefix counts. |
| `Lru.LookupRows` | firmware/mie/src/lru_cache.cpp:138-210 | Every row is a fitting entry, most recent first, each word once, at most the number asked for. |
| `Lru.LookupLosesNothing` | firmware/mie/src/lru_cache.cpp:138-210 | A fitting entry is missing only if its word is listed by an earlier one or the list is full. |
| `LruUses.EntriesAreUses` | firmware/mie/src/lru_cache.cpp:105-136 | After any calls, every entry is the latest call of its keys, hints and word. |
| `LruUses.RowsAreUses` | firmware/mie/src/lru_cache.cpp:138-210 | Every row of a lookup is a word taught by such a call whose keys are the first keys of the input, all of them or at least two, and whose hints the input does not contradict; the row is tagged with exactly those keys, the words are distinct and the more recent come first. |
| `LruUses.UseIsListed` | firmware/mie/src/lru_cache.cpp:138-210 | Conversely the word of such a call is listed, by a call as recent, or behind a full list of words as recent, if the cache still holds it. |
| `LruUses.NothingForgotten` | firmware/mie/src/lru_cache.cpp:70-136 | It does as long as there were no more calls than the capacity. |
| `Lru.LruCache.Serialize` | firmware/mie/src/lru_cache.cpp:212-222 | Writes the header and the records with all their fields, or nothing when the buffer is too small. |
| `Lru.LruCache.Deserialize` | firmware/mie/src/lru_cache.cpp:224-250 | Loads a valid file, rejects a bad header leaving the cache alone, and empties the cache on a bad entry. |
| `Lru.CacheRoundTrip` | firmware/mie/src/lru_cache.cpp:212-250 | Saving and loading gives back the same entries, so every lookup is the same. |
| `CandidateMerge.Splice` | firmware/mie/src/ime_search.cpp:319-373 | The in-place compaction, shift and write over two parallel arrays compute the merge. |
| `CandidateMerge.MergeIsClean` | firmware/mie/src/ime_search.cpp:319-373 | The hits, then the dictionary rows not among them with the prefix counts they had, in order, cut at the capacity; a row is missing only as a duplicate or behind the cut. |
| `CandidateMerge.MergeIsDistinct` | firmware/mie/src/ime_search.cpp:319-373 | No word twice if neither input had one twice. |
| `CandidateMerge.Extend` | firmware/mie/src/ime_search.cpp:164-178 | The deduplicating append over the arrays. |
| `LegacySearch.KeepMatching` | firmware/mie/src/ime_search.cpp:140-157 | Ranks by tone tier and frequency, and with a tone mark keeps only matching candidates unless there are none. |
| `LegacySearch.RankedOrders` | firmware/mie/src/ime_internal.h:76-91 | The ranking permutes, orders by tier, and within a tier by frequency. |
| `LegacySearch.FilterHas` | firmware/mie/src/ime_internal.h:63-91 | With a tone mark some candidate carries, exactly the candidates that carry it are left; else all; never none of some. |
| `LegacySearch.Strip` | firmware/mie/src/ime_search.cpp:71-82 | The input without first-tone markers, and where each key stood. |
| `LegacySearch.RunLegacy` | firmware/mie/src/ime_search.cpp:52-183 | The loop over prefix lengths, longest first, with the skip guard and the early stop, computes the specified rows. |
| `LegacySearch.LegacyIsGreedy` | firmware/mie/src/ime_search.cpp:52-183 | No word twice, matched prefixes non-increasing and counted in keys as typed, each word tagged with the longest tried prefix that gave it after the tone filter, and everything found is listed unless the list is full. |
| `LegacyMarks.RowsAreAnswers` | firmware/mie/src/ime_search.cpp:52-183 | Each row answers the keys it is tagged with and no longer beginning of the input: the dictionary has its word for those keys without markers, with the third or fourth tone if they end with that key, with the first if a marker follows, unless no candidate there has it; a tone key that a final marker takes back is not tried as a prefix's end. No word twice, longer prefixes first, and unless the list is full every answer's word is listed. |
| `LegacyMarks.MatchedIsLongest` | firmware/mie/src/ime_search.cpp:52-183 | The matched keys are those of the longest prefix with an answer, none if there is none. |
| `LegacyMarks.RowsOfOnePrefix` | firmware/mie/src/ime_internal.h:63-91 | Rows of the same prefix stand in this order: the tone asked for first, then single characters, then higher frequency. |
| `ImeMachine.SearchedOk` | firmware/mie/src/ime_search.cpp:26-47 | A search changes only the candidates and the display, and its results are in range. |
| `ImeSearches.BucketsInOrder` | firmware/mie/src/ime_search.cpp:205-258 | For n positions the rows are, each tagged with all keys: the answers for n characters, then those for n+1, n-1, n+2 and n-2 where these are in 1..4, in the order answered, words listed before left out; nothing else, and none of their words missing unless the list is full. |
| `ImeSearches.DictionariesList` | firmware/mie/src/ime_search.cpp:26-311 | Which dictionary answers in which mode: the composition engine by the number of positions, from five on by characters for the first key and then phrases; without it the greedy list; in direct input nothing. |
| `ImeSearches.RememberedComeFirst` | firmware/mie/src/ime_search.cpp:319-373 | In Chinese mode the list begins with the rows of the cache; in the others nothing is added. |
| `ImeSearches.ListedIsOffered` | firmware/mie/src/ime_search.cpp:319-373 | A word the dictionary lists is offered, unless the list is full. |
| `SourcesOffered.SourceWordIsListed` | firmware/mie/src/ime_search.cpp:192-258 | Over a compiled dictionary: a source word of as many characters as positions typed, which may be typed so, is listed, or behind a full list of words at least as frequent. |
| `SourcesOffered.SourceCharIsListed` | firmware/mie/src/ime_search.cpp:192-258 | The same for a character of a source line and one position. |
| `SourcesOffered.FirstCharIsListed` | firmware/mie/src/ime_search.cpp:264-310 | From five positions on, for the characters that a source line begins with the first key. |
| `SourcesOffered.PhraseIsListed` | firmware/mie/src/ime_search.cpp:264-310 | And source words of five or more characters that may be typed so are listed unless the list is full. |
| `SourcesOffered.RowsAreSources` | firmware/mie/src/ime_search.cpp:192-258 | Up to four positions every row is a source word or character that may be typed so, at most two characters longer or shorter than typed, shown as the sources say. |
| `SourcesOffered.SourceWordIsOffered` | firmware/mie/src/ime_search.cpp:26-47 | Such a word is in the list the input method offers, or that list is full. |
| `OfferedRows.DictListsTwiceExactlyWhen` | firmware/mie/src/ime_search.cpp:52-310 | The dictionary's rows list no text twice unless, from five positions on, two different long words of the dictionary fit the keys and show the same characters; in an answer that is not full exactly unless they do. v2 never, v4 up to four positions never. |
| `OfferedRows.WordsAreOfferedTwiceExactlyWhen` | firmware/mie/src/ime_search.cpp:26-47 | The same, under the same condition on dictionary and keys, for the final list with the personal words in front. |
| `OfferedTwice.FullScanServes` | firmware/mie/src/composition_searcher.cpp:506-611 | For every dictionary there is an engine that answers as the search is proved to. |
| `OfferedTwice.OfferedTwiceIsReachable` | firmware/mie/src/ime_search.cpp:264-310 | A dictionary, and a run of five presses from start-up, after which one text is listed twice. |
| `WordStrings.SameTextExactlyWhen` | firmware/mie/src/composition_searcher.cpp:357-370 | Two words have the same candidate text if and only if the cut to 31 bytes leaves the same characters of both. |
| `WordStrings.DecodesOnce` | firmware/mie/src/composition_searcher.cpp:357-370 | Over distinct UTF-8 characters a text can be read back in one way only. |
| `WordStrings.SameFirstTen` | firmware/mie/src/composition_searcher.cpp:357-370 | For three-byte characters that is when the first ten agree. |
| `WordStrings.BuiltTablesOk` | firmware/mie/tools/gen_dict.py:784-1022 | The tables built from source words have distinct UTF-8 characters and each word once, which the theorems on offered rows ask for. |
| `ImeMachine.StepKeepsInv` | firmware/mie/src/ime_logic.cpp:51-384 | Every event keeps the invariant: lengths within capacity, selection and prefix counts in range, hints naming phonemes of their keys, the long-press cycle on a pending key of its slot with its hint, the multi-tap index naming a label, the picker selection in 0..15. |
| `ImeMachine.EveryRunIsSafe` | firmware/mie/src/ime_logic.cpp:51-384 | So does every sequence of key events, ticks, aborts, selections and context changes from start-up. |
| `ImeHistory.EnglishWordsFitTheText` | firmware/mie/src/ime_commit.cpp:15-146 | In every run an English word begins the text before the cursor or follows a space in it, and where that text is empty or ends a sentence it begins with no lower-case letter, unless a text of several spaces came in between. |
| `ImeHistory.FlagsInEveryRun` | firmware/mie/src/ime_commit.cpp:109-144 | In every run, over dictionaries that return whole UTF-8 texts, the flags are those of the text before the cursor if and only if the blanks sent last do not part them; whether a space ends it they always tell. |
| `ImeHistory.StepWhole` | firmware/mie/src/ime_logic.cpp:51-384 | Every event keeps all that is sent, offered and remembered free of texts that begin inside a character. |
| `ImeHistory.EngineIsWhole` | firmware/mie/src/composition_searcher.cpp:357-370 | The v4 engine over well-formed tables returns only such texts. |
| `ImeHistory.FlagsPartInARun` | firmware/mie/src/ime_logic.cpp:229-258 | One press from start-up after which the flags and the text differ. |
| `SentText.FlagsAreOfTheText` | firmware/mie/src/ime_commit.cpp:109-144 | For any history of whole texts the flags kept from text to text are those that set_text_context would compute from the whole text, if and only if it does not end with blanks sent into an empty field without several in one text, nor with blanks after a sentence end that include a wide space or several spaces in one text but not both. |
| `SentText.SentenceEndsWithStop` | firmware/mie/src/ime_commit.cpp:129-143 | A text ends a sentence if and only if it is anything, then one of the six marks, then spaces. |
| `SentText.FindLastShown` | firmware/mie/src/ime_logic.cpp:242-243 | The backward scan over spaces stops at the last position that is not one, or at the first. |
| `SentText.SpaceFirstDiffers` | firmware/mie/src/ime_logic.cpp:229-258 | After a restart and one space the two ways of keeping the flags differ. |
| `SentText.WideSpaceDiffers` | firmware/mie/src/ime_commit.cpp:109-144 | So they do after a full stop and a wide space. |
| `ImePending.StepEdits` | firmware/mie/src/ime_logic.cpp:78-384 | Pending keys and hints change only at their ends, together, or by the hint of the cycled key: nothing is reordered, rewritten or inserted. |
| `ImePending.CommitConserves` | firmware/mie/src/ime_commit.cpp:49-107 | For any prefix count, a commit leaves the same suffix of keys and hints: the prefix (all keys when it is none or too long) is dropped, then exactly the tone marks that follow, and a non-empty input gets shorter. |
| `ImePending.CommitSelectedConserves` | firmware/mie/src/ime_commit.cpp:15-107 | Committing the selected row uses up its keys and says its word, in English spaced and capitalised, and nothing more. |
| `ImePending.CommitsEnd` | firmware/mie/src/ime_commit.cpp:15-107 | Whichever candidates are chosen, committing ends within as many commits as there are pending keys, each leaving fewer. |
| `ImeLearning.StepTeaches` | firmware/mie/src/ime_commit.cpp:49-107 | For every event: the cache changes only if a candidate is committed in Chinese mode with a prefix of the pending keys, and then by one call with exactly those keys, their hints, the row's tone, its word and the time. |
| `ImeLearning.RunTeaches` | firmware/mie/src/ime_commit.cpp:49-107 | So every run from an empty cache leaves the cache that its commits have taught, in order. |
| `ImeLearning.CommitIsRemembered` | firmware/mie/src/ime_commit.cpp:49-76 | After such an event with keys and word of a storable length the cache holds that call's entry, and all other entries unchanged but one evicted. |
| `ImeLearning.CommitIsOfferedAgain` | firmware/mie/src/ime_search.cpp:319-373 | Any later search over that cache whose input those keys and hints answer lists the word, or its hundred rows are full; it comes first, tagged with those keys, if every other fitting entry is older. |
| `ImeLearning.ChosenWordComesFirst` | firmware/mie/src/ime_commit.cpp:49-107 | A run: one key, OK, the same key again; a word of 1 to 24 bytes so chosen comes first, with any dictionary that has a candidate for the key. |
| `ImePending.RowIsHiddenExactlyWhen` | firmware/mie/src/ime_search.cpp:380-446 | The row that shows the pending keys is lost exactly under the events that take a multi-tap away from over them and search nothing. |
| `ImePending.HiddenRowIsReachable` | firmware/mie/src/ime_direct.cpp:120-148 | Two presses and a timeout from start-up, whatever the dictionaries, after which a key is pending and nothing is shown. |
| `ImeLabels.LabelIsShownExactlyWhen` | firmware/mie/src/ime_direct.cpp:89-148 | After any event the active multi-tap's label is shown if and only if OK did not just commit a candidate under it and it was shown before, is new, or its key was pressed again; nothing said is taken back. |
| `ImeLabels.EndedTapIsSent` | firmware/mie/src/ime_direct.cpp:120-148 | Whatever ends a multi-tap, other than DEL or an abort, sends the text shown before anything else, with a space after English punctuation. |
| `ImeLabels.RunShowsLabel` | firmware/mie/src/ime_logic.cpp:78-225 | In every run from start-up the label is shown unless lost, and no label is shown without its multi-tap. |
| `ImeLabels.MultitapSendsItsLabel` | firmware/mie/src/ime_direct.cpp:120-148 | In every run an ended multi-tap sends its label, unless the label was lost; then the pending keys as rendered, or nothing. |
| `ImeLabels.LostLabelIsReachable` | firmware/mie/src/ime_logic.cpp:147-164 | Three key presses and a timeout from start-up after which all that was sent is the candidate's word. |
| `ImeCycle.CycleEndsExactlyWhen` | firmware/mie/src/ime_smart.cpp:86-158 | For every event and every state with an active cycle: it stays on its key if and only if the event is not a key that is added, DEL of the cycled key, OK with candidates, MODE, an abort, or a tick at or after the timeout. |
| `ImeCycle.CycleOutlivesOtherKeys` | firmware/mie/include/mie/ime_logic.h:366-387 | A run from start-up in which the cycle survives a marker and DEL, and a long press changes the first key's hint instead of adding a key. |
| `ImeLaws.ModeGoesRound` | firmware/mie/src/ime_logic.cpp:286-313 | MODE leads from Chinese to English, to direct input, and back, with nothing pending. |
| `ImeLaws.ThreeModesReturn` | firmware/mie/src/ime_logic.cpp:286-313 | Three presses return to the mode they started from, from every state. |
| `ImeLaws.ArrowsSelect` | firmware/mie/src/ime_logic.cpp:315-356 | RIGHT and LEFT move the selection by one and round the ends; without candidates the move is passed on. |
| `ImeLaws.ArrowsUndo` | firmware/mie/src/ime_logic.cpp:315-356 | LEFT undoes RIGHT and RIGHT undoes LEFT, in the whole state. |
| `ImeLaws.TabReachesEveryPage` | firmware/mie/src/ime_smart.cpp:13-84 | k presses of TAB select the first candidate of the k-th next page, counted round, so every page is reached. |
| `ImeLaws.PickerKeys` | firmware/mie/src/ime_logic.cpp:78-188 | The picker's arrows move in a grid of four by four and round its edges; any other key closes it, and only OK sends the symbol selected. |
| `ImeLaws.DelUndoesPress` | firmware/mie/src/ime_logic.cpp:358-384 | DEL after a key press gives back the pending keys and hints and what a search lists for them. |
| `ImeLaws.TimersFireExactlyWhen` | firmware/mie/src/ime_logic.cpp:192-225 | A tick ends a multi-tap and a cycle if and only if 800 ms have passed on the wrapping clock, opens the picker if and only if the key was held 500 ms, and changes nothing pending. |
| `ImeLaws.AbortStartsOver` | firmware/mie/src/ime_logic.cpp:260-282 | An abort leaves the state of start-up, but for the mode, the cache, the time and what was said. |
| `ImeKeyLaws.CodesAreInRows` | firmware/mie/include/mie/keycode.h:44-78 | An input key's code is that of its row of six and column of five. |
| `ImeKeyLaws.LongPressesGoRound` | firmware/mie/src/ime_smart.cpp:86-158 | n + 1 long presses of a key, each within 800 ms of the one before, add the key once and ask for its phoneme n, counted round. |
| `ImeKeyLaws.TapsGoRound` | firmware/mie/src/ime_direct.cpp:89-118 | k + 1 taps on a key show its label k, counted round, and send nothing. |
| `ImeEngine.ImeLogic.DropFront` | firmware/mie/src/ime_commit.cpp:78-84 | The two memmoves drop the same keys and hints, and the terminator moves with the keys. |
| `ImeEngine.ImeLogic.RunSearch` | firmware/mie/src/ime_search.cpp:26-47 | The dispatcher over the in-place candidate arrays computes the specified search. |
| `ImeEngine.ImeLogic.PrependLru` | firmware/mie/src/ime_search.cpp:319-373 | The cache object writes its hits to scratch arrays, and the in-place splice of both pairs of arrays is the merge. |
| `ImeEngine.ImeLogic.RunSearchV4` | firmware/mie/src/ime_search.cpp:192-311 | The position dispatch: the bucket and its neighbours, or single characters and phrases. |
| `ImeEngine.ImeLogic.CommitKeys` | firmware/mie/src/ime_commit.cpp:49-107 | Teach the cache object, send the word, shift both buffers, strip tone marks, reset and search again. |
| `ImeEngine.ImeLogic.CommitSelectedCandidate` | firmware/mie/src/ime_commit.cpp:15-47 | Commits the selected row with its own prefix count, an English word with its space and capital. |
| `ImeEngine.ImeLogic.MultitapPress` | firmware/mie/src/ime_direct.cpp:89-118 | Cycles a multi-tap, or commits one on another key and starts anew, and skips indices without a label. |
| `ImeEngine.ImeLogic.ProcessKey` | firmware/mie/src/ime_logic.cpp:78-188 | The object after a key event, with all buffers, the cache and everything sent, is the specified step, and stays valid. |
| `ImeEngine.ImeLogic.TickAt` | firmware/mie/src/ime_logic.cpp:192-225 | The three timers, on a clock that wraps at 2^32, and what the multi-tap timeout sends. |
| `ImeEngine.ImeLogic.AbortAll` | firmware/mie/src/ime_logic.cpp:260-282 | Everything pending is discarded. |
| `ImeEngine.ImeLogic.SetSelected` | firmware/mie/src/ime_logic.cpp:51-58 | Clamped selection. |
| `ImeEngine.ImeLogic.DidCommit` | firmware/mie/src/ime_commit.cpp:109-144 | After a text is sent, the scan over its end leaves the flags the specification gives; a space alone leaves the sentence as it was. |
| `ImeEngine.ImeLogic.SetTextContext` | firmware/mie/src/ime_logic.cpp:229-258 | The scan over the text told from outside computes both flags, and the object takes the specified step. |
| `SerialFrames.FindMarker` | scripts/bench_raw_serial.py:50-54 | The index of the first marker, or the length when there is none. |
| `SerialFrames.ParseFrames` | scripts/bench_raw_serial.py:47-74 | Whatever arrives later, the frames taken and the bytes kept stand for everything received, and no complete frame is left. |
| `SerialFrames.ReadFrames` | scripts/bench_raw_serial.py:29-84 | However the stream is cut into chunks, the frame and byte counts are those of the whole stream. |
| `SerialFrames.StreamDecodes` | scripts/bench_raw_serial.py:19-27 | Well-formed frames, with any noise between them that contains no marker, decode to exactly their payloads, whatever the payloads contain. |
| `NmeaBuffer.GnssBuffer.AppendByte` | firmware/tools/bringup/bringup_gnss_tft.c:73-89 | Filler skipped; a full buffer cut to its next '$' or emptied; never beyond the buffer. |
| `NmeaBuffer.GnssBuffer.PopSentence` | firmware/tools/bringup/bringup_gnss_tft.c:94-115 | The in-place pop with C string searches computes the specified pop, clipped to the output buffer. |
| `NmeaBuffer.GnssBuffer.Receive` | firmware/tools/bringup/bringup_gnss_tft.c:558-566 | The polling loop delivers the sentences of its chunk-by-chunk run. |
| `NmeaBuffer.ChunksDoNotMatter` | firmware/tools/bringup/bringup_gnss_tft.c:73-115 | Without NULs and overflow, the sentences are those of the whole stream, however it was cut. |
| `NmeaBuffer.ShortLinesAreReceived` | firmware/tools/bringup/bringup_gnss_tft.c:69-115 | Lines of at most n bytes read m at a time never overflow when n + m is at most 511, so every sentence is delivered. |
| `NmeaLines.WireIsRead` | firmware/tools/bringup/bringup_gnss_tft.c:94-115 | Sentences written with '$' before and a line feed after them, with or without a carriage return and with anything but '$' between them, are read back as written. |
| `NmeaLines.LinesAreDelivered` | firmware/tools/bringup/bringup_gnss_tft.c:69-115 | The polling loop delivers exactly those sentences, in order, for lines of at most n bytes read m at a time with n + m at most 511, filler anywhere. |
| `NmeaLines.RoomIsMade` | firmware/tools/bringup/bringup_gnss_tft.c:73-89 | A full buffer loses everything before its next '$' after the first byte, or all. |

## Left out

- Hardware, drivers, rendering, flash and the UI: register access with no model of the device.
- The v2 files' byte layout and the loaders' file access: `Trie` works on the decoded index; opening files is I/O.
- Splitting of reading strings into syllables, CSV loading, English word lists and the Unihan seeding of rare characters: text input, given to `TableBuilder` as already split syllables.
- `IndexedSearch.Search`: the order among equally frequent candidates is that of a stable sort, where the original's `std::sort` leaves it open; what is stated does not depend on it.
- `IndexedSearch.Search`: works on the decoded image; `V4Readers.FileServesImage` connects the image to the bytes. A load that fails, and null pointers, are not modelled.
- `TableBuilder.BuildCharTable`: characters that no source line shows, which the original seeds from the Unihan tables, are not added.
- `V4Readers.ReadV4`: answers None where the script would carry on with a slice cut short at the end of the file, or stop with another error on text that is not UTF-8.
- `EndToEnd.SearchSources`: word lists in which some syllable of a compiled word has no key at all are excluded; the compiler stores another reading of the character for it. Single characters (target 1) are `SingleChars.SearchSourceChars`, which needs no such condition.
- `DictEquivalence.LoadRows`: rows come with their readings split into syllables and their words as UTF-8; the loader of the second word list, which raises every frequency to at least 1 and then does the same, is not written again.
- `V4Readers.ParseHeader`: rejects a file too short for its group headers, where the original would read past the buffer.
- `V4File.WriteFile`: asks for tables within the field widths; outside them the original's packing raises an error.
- `SpscRing.RunInv`: acquire loads and release stores are single steps in program order; weaker hardware orderings are not modelled, nor a null payload with a non-zero length, nor a third task calling `ipc_ring_pending`.
- `Lru.LruCache.LookupInto`: words are compared as whole byte strings; a NUL inside a stored word, possible only in a corrupt file, is not modelled. The method sorts copies of the entries, not indices.
- `ImeEngine.ImeLogic.ProcessKey`: a listener is taken to be attached; its repaint notifications and the Boolean results of the calls are not modelled. The text of the row is computed from what it shows when it is sent, instead of being kept in a display buffer; how much of it is drawn bold is rendering.
- `ImeEngine.ImeLogic.ProcessKey`: loading and saving the cache are `Lru.LruCache.Deserialize` and `Lru.LruCache.Serialize`; the runs start from any well-formed cache.
- `OfferedRows.WordsAreOfferedTwiceExactlyWhen`: when the list is full, colliding words may be cut off behind its end; then only one direction is claimed.
- `ImeEngine.ImeLogic.RunSearchV4`: the prefix counts are written with the candidates instead of in a second loop.
- `SerialFrames.ReadFrames`: deadlines and the early stop after a quiet gap are timing.
- `NmeaBuffer.ChunksDoNotMatter`: a NUL byte cuts C string searches short; the buffer methods model that, the theorem excludes it.
- The debug ring writer, its checksum and the J-Link scripts: simple arithmetic beside the rest.
