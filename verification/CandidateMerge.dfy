/** The splice of personalised hits in front of the dictionary candidates, in place over two parallel
    arrays, and the append that refuses a word already listed. */
module CandidateMerge {
  import opened Basics
  import opened Lru

  // ---------------------------------------------------------------- the merge, on lists

  /** The dictionary rows whose word is not among the hits. */
  function Kept(dict: seq<Hit>, hits: seq<Hit>): (r: seq<Hit>)
    ensures |r| <= |dict|
  {
    if |dict| == 0 then []
    else
      var last := dict[|dict| - 1];
      Kept(dict[..|dict| - 1], hits) + if HasHit(hits, last.cand.word) then [] else [last]
  }

  function Room(hits: seq<Hit>, max: nat): nat {
    if |hits| <= max then max - |hits| else 0
  }

  function Merged(dict: seq<Hit>, hits: seq<Hit>, max: nat): seq<Hit> {
    if |hits| == 0 then dict
    else hits + Kept(dict, hits)[..Min(|Kept(dict, hits)|, Room(hits, max))]
  }

  /** Where each kept row stood. */
  function KeptAt(dict: seq<Hit>, hits: seq<Hit>): (at: seq<nat>)
    ensures |at| == |Kept(dict, hits)|
  {
    if |dict| == 0 then []
    else
      var n := |dict| - 1;
      KeptAt(dict[..n], hits) + if HasHit(hits, dict[n].cand.word) then [] else [n]
  }

  lemma {:induction false} KeptInOrder(dict: seq<Hit>, hits: seq<Hit>)
    ensures var kept, at := Kept(dict, hits), KeptAt(dict, hits);
      && |at| == |kept| <= |dict|
      && (forall r :: 0 <= r < |kept| ==> at[r] < |dict| && kept[r] == dict[at[r]])
      && (forall r, q :: 0 <= r < q < |kept| ==> at[r] < at[q])
      && (forall i :: 0 <= i < |dict| ==> (i in at <==> !HasHit(hits, dict[i].cand.word)))
  {
    KeptPositions(dict, hits);
    forall i | 0 <= i < |dict| ensures i in KeptAt(dict, hits) <==> !HasHit(hits, dict[i].cand.word) {
      KeptIff(dict, hits, i);
    }
  }

  lemma {:induction false} KeptPositions(dict: seq<Hit>, hits: seq<Hit>)
    ensures var kept, at := Kept(dict, hits), KeptAt(dict, hits);
      && |at| == |kept| <= |dict|
      && (forall r :: 0 <= r < |kept| ==> at[r] < |dict| && kept[r] == dict[at[r]])
      && (forall r, q :: 0 <= r < q < |kept| ==> at[r] < at[q])
  {
    hide HasHit;
    if |dict| > 0 { KeptPositions(dict[..|dict| - 1], hits); }
  }

  lemma {:induction false} KeptIff(dict: seq<Hit>, hits: seq<Hit>, i: nat)
    requires i < |dict|
    ensures i in KeptAt(dict, hits) <==> !HasHit(hits, dict[i].cand.word)
    decreases |dict|
  {
    hide HasHit, Kept;
    var n := |dict| - 1;
    KeptPositions(dict[..n], hits);
    assert i in KeptAt(dict[..n], hits) ==> i < n;
    if i < n {
      KeptIff(dict[..n], hits, i);
      assert dict[..n][i] == dict[i];
    }
  }

  /** The merged list is the hits, then dictionary rows not among them, each with the prefix count it
      had, in their old order and cut at `max`; every row that is missing was a duplicate or came after
      the cut. */
  lemma {:induction false} MergeIsClean(dict: seq<Hit>, hits: seq<Hit>, max: nat) returns (at: seq<nat>)
    requires |hits| <= max && |dict| <= max
    ensures var m := Merged(dict, hits, max);
      && |m| == |hits| + |at| <= max && hits <= m
      && (forall r :: 0 <= r < |at| ==> at[r] < |dict| && m[|hits| + r] == dict[at[r]])
      && (forall r, q :: 0 <= r < q < |at| ==> at[r] < at[q])
      && (forall r :: 0 <= r < |at| ==> !HasHit(hits, dict[at[r]].cand.word))
      && (forall i :: 0 <= i < |dict| && !HasHit(hits, dict[i].cand.word) && i !in at ==>
            |m| == max && forall r :: 0 <= r < |at| ==> at[r] < i)
  {
    hide Kept, KeptAt;
    KeptInOrder(dict, hits);
    var kept, all := Kept(dict, hits), KeptAt(dict, hits);
    if |hits| == 0 {
      at := seq(|dict|, i requires 0 <= i < |dict| => i);
      forall i | 0 <= i < |dict| ensures i in at {
        assert at[i] == i;
      }
    } else {
      var k := Min(|kept|, Room(hits, max));
      at := all[..k];
      forall i | 0 <= i < |dict| && !HasHit(hits, dict[i].cand.word) && i !in at
        ensures k == Room(hits, max) && forall r :: 0 <= r < |at| ==> at[r] < i
      {
        AfterCut(all, k, i);
      }
    }
  }

  lemma {:induction false} AfterCut(all: seq<nat>, k: nat, i: nat)
    requires k <= |all| && i in all && i !in all[..k] && forall r, q :: 0 <= r < q < |all| ==> all[r] < all[q]
    ensures k < |all| && forall r :: 0 <= r < k ==> all[..k][r] < i
  {
    assert forall q :: 0 <= q < k ==> all[..k][q] == all[q] && all[q] in all[..k];
    var p :| 0 <= p < |all| && all[p] == i;
  }

  /** No word is listed twice if neither list had one twice. */
  lemma {:induction false} MergeIsDistinct(dict: seq<Hit>, hits: seq<Hit>, max: nat)
    requires DistinctRows(dict) && DistinctRows(hits)
    ensures DistinctRows(Merged(dict, hits, max))
  {
    hide Kept, KeptAt;
    KeptInOrder(dict, hits);
    var m, at, n := Merged(dict, hits, max), KeptAt(dict, hits), |hits|;
    if n > 0 {
      forall r, q | 0 <= r < q < |m| ensures m[r].cand.word != m[q].cand.word {
        if q >= n {
          assert at[q - n] in at;
          assert m[q] == dict[at[q - n]];
          if r >= n {
            assert m[r] == dict[at[r - n]];
          } else {
            assert m[r] == hits[r];
          }
        } else {
          assert m[r] == hits[r] && m[q] == hits[q];
        }
      }
    }
  }

  /** Every row of the merge is a hit or a dictionary row. */
  lemma {:induction false} MergeAddsNothing(dict: seq<Hit>, hits: seq<Hit>, max: nat)
    ensures forall h :: h in Merged(dict, hits, max) ==> h in hits || h in dict
    ensures |hits| <= max && |dict| <= max ==> |Merged(dict, hits, max)| <= max
  {
    KeptInOrder(dict, hits);
  }

  // ---------------------------------------------------------------- in place

  method IsHit(hitCands: array<Candidate>, hitPrefixes: array<nat>, hitCount: nat, word: seq<Byte>, ghost hits: seq<Hit>)
    returns (dup: bool)
    requires HoldRows(hitCands, hitPrefixes, hitCount, hits)
    ensures dup == HasHit(hits, word)
  {
    dup := false;
    for j := 0 to hitCount
      invariant forall i :: 0 <= i < j ==> hits[i].cand.word != word
    {
      assert Hit(hitCands[j], hitPrefixes[j]) == hits[j];
      if hitCands[j].word == word { return true; }
    }
  }

  /** Compact the arrays: rows that repeat a hit are dropped, the others move up. */
  method DropRepeats(cands: array<Candidate>, prefixes: array<nat>, n: nat, hitCands: array<Candidate>,
                     hitPrefixes: array<nat>, hitCount: nat, ghost rows: seq<Hit>, ghost hits: seq<Hit>)
    returns (dst: nat)
    requires HoldRows(cands, prefixes, n, rows) && HoldRows(hitCands, hitPrefixes, hitCount, hits)
    requires cands != hitCands && prefixes != hitPrefixes
    modifies cands, prefixes
    ensures dst <= n && HoldRows(cands, prefixes, dst, Kept(rows, hits))
  {
    dst := 0;
    for i := 0 to n
      invariant dst <= i && HoldRows(cands, prefixes, dst, Kept(rows[..i], hits))
      invariant forall k :: i <= k < n ==> Hit(cands[k], prefixes[k]) == rows[k]
    {
      assert rows[..i + 1][..i] == rows[..i];
      assert Hit(cands[i], prefixes[i]) == rows[i];
      var dup := IsHit(hitCands, hitPrefixes, hitCount, cands[i].word, hits);
      if !dup {
        if dst != i { cands[dst], prefixes[dst] := cands[i], prefixes[i]; }
        dst := dst + 1;
      }
    }
    assert rows[..n] == rows;
  }

  /** Cell `i` of both arrays is this row. */
  predicate CellIs(cands: array<Candidate>, prefixes: array<nat>, i: nat, row: Hit)
    requires i < cands.Length && i < prefixes.Length
    reads cands, prefixes
  {
    cands[i] == row.cand && prefixes[i] == row.prefix
  }

  /** Move the first `n` rows `gap` places down, last row first. */
  method MoveDown(cands: array<Candidate>, prefixes: array<nat>, n: nat, gap: nat, ghost rows: seq<Hit>)
    requires HoldRows(cands, prefixes, n, rows) && gap + n <= cands.Length && gap + n <= prefixes.Length
    modifies cands, prefixes
    ensures forall k {:trigger rows[k]} :: 0 <= k < n ==> CellIs(cands, prefixes, gap + k, rows[k])
  {
    var i := n;
    while i > 0
      invariant 0 <= i <= n == |rows|
      invariant forall k {:trigger rows[k]} :: 0 <= k < i ==> CellIs(cands, prefixes, k, rows[k])
      invariant forall k {:trigger rows[k]} :: i <= k < n ==> CellIs(cands, prefixes, gap + k, rows[k])
    {
      i := i - 1;
      assert CellIs(cands, prefixes, i, rows[i]);
      cands[gap + i], prefixes[gap + i] := cands[i], prefixes[i];
    }
  }

  method WriteFront(cands: array<Candidate>, prefixes: array<nat>, hitCands: array<Candidate>, hitPrefixes: array<nat>,
                    hitCount: nat, ghost hits: seq<Hit>, ghost tail: seq<Hit>)
    requires HoldRows(hitCands, hitPrefixes, hitCount, hits) && cands != hitCands && prefixes != hitPrefixes
    requires |hits| + |tail| <= cands.Length && |hits| + |tail| <= prefixes.Length
    requires forall k {:trigger tail[k]} :: 0 <= k < |tail| ==> CellIs(cands, prefixes, |hits| + k, tail[k])
    modifies cands, prefixes
    ensures HoldRows(cands, prefixes, |hits| + |tail|, hits + tail)
  {
    for i := 0 to hitCount
      invariant forall k {:trigger hits[k]} :: 0 <= k < i ==> CellIs(cands, prefixes, k, hits[k])
      invariant forall k {:trigger tail[k]} :: 0 <= k < |tail| ==> CellIs(cands, prefixes, |hits| + k, tail[k])
    {
      assert Hit(hitCands[i], hitPrefixes[i]) == hits[i];
      cands[i], prefixes[i] := hitCands[i], hitPrefixes[i];
    }
    forall k | 0 <= k < |hits| + |tail| ensures Hit(cands[k], prefixes[k]) == (hits + tail)[k] {
      if k < |hits| {
        assert CellIs(cands, prefixes, k, hits[k]);
      } else {
        assert CellIs(cands, prefixes, |hits| + (k - |hits|), tail[k - |hits|]);
      }
    }
  }

  method Splice(cands: array<Candidate>, prefixes: array<nat>, count: nat, hitCands: array<Candidate>,
                hitPrefixes: array<nat>, hitCount: nat, max: nat, ghost rows: seq<Hit>, ghost hits: seq<Hit>)
    returns (n: nat)
    requires HoldRows(cands, prefixes, count, rows) && HoldRows(hitCands, hitPrefixes, hitCount, hits)
    requires cands != hitCands && prefixes != hitPrefixes
    requires count <= max && hitCount <= max <= cands.Length && max <= prefixes.Length
    modifies cands, prefixes
    ensures HoldRows(cands, prefixes, n, Merged(rows, hits, max))
  {
    if hitCount == 0 { return count; }
    var dictKeep := DropRepeats(cands, prefixes, count, hitCands, hitPrefixes, hitCount, rows, hits);
    var room := max - hitCount;
    if dictKeep > room { dictKeep := room; }
    ghost var tail := Kept(rows, hits)[..dictKeep];
    MoveDown(cands, prefixes, dictKeep, hitCount, tail);
    WriteFront(cands, prefixes, hitCands, hitPrefixes, hitCount, hits, tail);
    n := hitCount + dictKeep;
  }

  // ---------------------------------------------------------------- appending what is new

  /** Append rows until there are `max`, leaving out words already listed. */
  function Extended(rows: seq<Hit>, more: seq<Candidate>, prefix: nat, max: nat): (r: seq<Hit>)
    decreases |more|
  {
    if |more| == 0 then rows
    else
      var so := Extended(rows, more[..|more| - 1], prefix, max);
      var c := more[|more| - 1];
      if |so| >= max || HasHit(so, c.word) then so else so + [Hit(c, prefix)]
  }

  lemma {:induction false} HasHitPrefix(rows: seq<Hit>, r: seq<Hit>, word: seq<Byte>)
    requires rows <= r && HasHit(rows, word)
    ensures HasHit(r, word)
  {
    var i :| 0 <= i < |rows| && rows[i].cand.word == word;
    assert r[i].cand.word == word;
  }

  /** The old rows stay first, and each new row is a new word of `more` tagged with `prefix`. */
  lemma {:induction false} ExtendedHas(rows: seq<Hit>, more: seq<Candidate>, prefix: nat, max: nat)
    ensures var r := Extended(rows, more, prefix, max);
      && rows <= r && (|rows| <= max ==> |r| <= max)
      && (forall i :: |rows| <= i < |r| ==> r[i].prefix == prefix && r[i].cand in more && !HasHit(rows, r[i].cand.word))
    decreases |more|
  {
    hide HasHit;
    if |more| > 0 {
      var n := |more| - 1;
      ExtendedHas(rows, more[..n], prefix, max);
      var so, c := Extended(rows, more[..n], prefix, max), more[n];
      assert more == more[..n] + [c];
      if HasHit(rows, c.word) { HasHitPrefix(rows, so, c.word); }
    }
  }

  lemma {:induction false} ExtendedDistinct(rows: seq<Hit>, more: seq<Candidate>, prefix: nat, max: nat)
    requires DistinctRows(rows)
    ensures DistinctRows(Extended(rows, more, prefix, max))
    decreases |more|
  {
    if |more| > 0 { ExtendedDistinct(rows, more[..|more| - 1], prefix, max); }
  }

  /** Unless the list is full, every word of `more` is listed. */
  lemma {:induction false} ExtendedListsAll(rows: seq<Hit>, more: seq<Candidate>, prefix: nat, max: nat)
    requires |Extended(rows, more, prefix, max)| < max
    ensures forall c :: c in more ==> HasHit(Extended(rows, more, prefix, max), c.word)
    decreases |more|
  {
    hide HasHit;
    if |more| > 0 {
      var n := |more| - 1;
      ExtendedListsAll(rows, more[..n], prefix, max);
      var so, c := Extended(rows, more[..n], prefix, max), more[n];
      assert more == more[..n] + [c];
      forall d | d in more ensures HasHit(Extended(rows, more, prefix, max), d.word) {
        HasHitGrows(so, Hit(c, prefix), d.word);
      }
    }
  }

  method Extend(cands: array<Candidate>, prefixes: array<nat>, count: nat, more: seq<Candidate>, prefix: nat, max: nat,
                ghost rows: seq<Hit>) returns (n: nat)
    requires HoldRows(cands, prefixes, count, rows) && count <= max <= cands.Length && max <= prefixes.Length
    modifies cands, prefixes
    ensures HoldRows(cands, prefixes, n, Extended(rows, more, prefix, max)) && n <= max
  {
    n := count;
    for i := 0 to |more|
      invariant n <= max && HoldRows(cands, prefixes, n, Extended(rows, more[..i], prefix, max))
    {
      assert more[..i + 1][..i] == more[..i];
      if n < max { n := AppendNew(cands, prefixes, n, more[i], prefix, max, Extended(rows, more[..i], prefix, max)); }
    }
    assert more[..|more|] == more;
  }

  method AppendNew(cands: array<Candidate>, prefixes: array<nat>, count: nat, c: Candidate, prefix: nat, max: nat,
                   ghost rows: seq<Hit>) returns (n: nat)
    requires HoldRows(cands, prefixes, count, rows) && count < max <= cands.Length && max <= prefixes.Length
    modifies cands, prefixes
    ensures HoldRows(cands, prefixes, n, if HasHit(rows, c.word) then rows else rows + [Hit(c, prefix)]) && n <= max
  {
    n := count;
    for j := 0 to count
      invariant forall i :: 0 <= i < j ==> rows[i].cand.word != c.word
    {
      assert rows[j].cand == cands[j];
      if cands[j].word == c.word { return; }
    }
    cands[count], prefixes[count] := c, prefix;
    n := count + 1;
  }
}
