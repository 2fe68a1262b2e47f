/** Shared vocabulary: bytes, optional values, duplicate-free sequences. */
module Basics {
  type Byte = b: int | 0 <= b < 0x100

  datatype Option<+T> = None | Some(value: T)

  /** The byte begins a UTF-8 character: it is not a continuation byte. */
  predicate IsLead(b: Byte) {
    b / 64 != 2
  }

  function Min(a: int, b: int): int {
    if a < b then a else b
  }

  ghost predicate Distinct<T>(s: seq<T>) {
    forall i, j :: 0 <= i < j < |s| ==> s[i] != s[j]
  }

  // ---------------------------------------------------------------- search results

  const CANDIDATE_MAX_BYTES: nat := 32   // a candidate's word buffer, terminator included

  datatype Candidate = Candidate(word: seq<Byte>, freq: nat, tone: Byte)

  function CandFreq(): Candidate -> int {
    (c: Candidate) => c.freq
  }

  ghost predicate DistinctWords(s: seq<Candidate>) {
    forall i, j :: 0 <= i < j < |s| ==> s[i].word != s[j].word
  }

  predicate HasWord(s: seq<Candidate>, word: seq<Byte>) {
    exists i :: 0 <= i < |s| && s[i].word == word
  }
}
