/** The personal cache seen from its users: what a lookup returns, told by the words taught before it. */
module LruUses {
  import opened Basics
  import opened Sorting
  import opened Composition
  import opened Lru

  /** No later call taught the same keys, hints and word. */
  predicate LastOfItsKind(uses: seq<Use>, i: nat) {
    i < |uses| && forall j :: i < j < |uses| ==>
      uses[j].keys != uses[i].keys || uses[j].pos != uses[i].pos || uses[j].word != uses[i].word
  }

  /** What upsert accepts. */
  predicate Teaches(u: Use) {
    1 <= |u.keys| <= 8 && 1 <= |u.word| <= 24
  }

  /** The keys taught are the whole input or, from two keys on, its beginning, and no hint of the input contradicts
      the hints taught with the first four. */
  predicate Answers(u: Use, keys: seq<Byte>, hints: Option<seq<Byte>>)
    requires HintsCover(hints, keys)
  {
    && u.keys <= keys && (u.keys == keys || |u.keys| >= 2)
    && forall k :: 0 <= k < |u.keys| && k < 4 ==>
         hints.None? || hints.value[k] == 0xFF || UnpackPos(u.pos, k) == 3 || UnpackPos(u.pos, k) == hints.value[k]
  }

  /** The entry stands for this call. */
  predicate Keeps(e: Entry, u: Use) {
    SameId(e, u.keys, u.pos, u.word) && e.lastUsedMs == u.now && e.tone == u.tone
  }

  ghost predicate KeptFrom(uses: seq<Use>, e: Entry) {
    exists i: nat :: LastOfItsKind(uses, i) && Teaches(uses[i]) && Keeps(e, uses[i])
  }

  lemma {:induction false} EntriesAreUses(uses: seq<Use>)
    ensures forall x :: 0 <= x < |After(uses)| ==> KeptFrom(uses, After(uses)[x])
  {
    if |uses| > 0 {
      var n := |uses| - 1;
      EntriesAreUses(uses[..n]);
      RunKeepsOk(uses[..n]);
      OneMoreUse(uses, After(uses[..n]));
    }
  }

  lemma {:induction false} OneMoreUse(uses: seq<Use>, es: seq<Entry>)
    requires |uses| > 0 && CacheOk(es)
    requires forall x :: 0 <= x < |es| ==> KeptFrom(uses[..|uses| - 1], es[x])
    ensures var u := uses[|uses| - 1];
      forall x :: 0 <= x < |Upserted(es, u.keys, u.pos, u.tone, u.word, u.now)| ==>
        KeptFrom(uses, Upserted(es, u.keys, u.pos, u.tone, u.word, u.now)[x])
  {
    hide CacheOk, Upserted, SameId, LastOfItsKind;
    var u := uses[|uses| - 1];
    var k := UpsertKeepsOk(es, u.keys, u.pos, u.tone, u.word, u.now);
    var es' := Upserted(es, u.keys, u.pos, u.tone, u.word, u.now);
    forall x | 0 <= x < |es'| ensures KeptFrom(uses, es'[x]) {
      if Storable(u.keys, u.word) && x == k {
        NewestIsLast(uses);
        assert Keeps(es'[x], uses[|uses| - 1]);
      } else {
        if Storable(u.keys, u.word) { DifferentIds(es', x, k, u.keys, u.pos, u.word); }
        StillLast(uses, es[x]);
      }
    }
  }

  lemma {:induction false} NewestIsLast(uses: seq<Use>)
    requires |uses| > 0
    ensures LastOfItsKind(uses, |uses| - 1)
  {
  }

  lemma {:induction false} DifferentIds(es: seq<Entry>, x: nat, k: nat, keys: seq<Byte>, pos: Byte, word: seq<Byte>)
    requires CacheOk(es) && x < |es| && k < |es| && x != k && SameId(es[k], keys, pos, word)
    ensures !SameId(es[x], keys, pos, word)
  {
    assert es[x].Valid();
    if x < k { assert !SameId(es[k], es[x].Keys(), es[x].posPacked, es[x].Word()); }
    else { assert !SameId(es[x], es[k].Keys(), es[k].posPacked, es[k].Word()); }
  }

  lemma {:induction false} StillLast(uses: seq<Use>, e: Entry)
    requires |uses| > 0 && KeptFrom(uses[..|uses| - 1], e)
    requires var u := uses[|uses| - 1]; Storable(u.keys, u.word) ==> !SameId(e, u.keys, u.pos, u.word)
    ensures KeptFrom(uses, e)
  {
    var n := |uses| - 1;
    var i: nat :| LastOfItsKind(uses[..n], i) && Teaches(uses[..n][i]) && Keeps(e, uses[..n][i]);
    assert uses[i] == uses[..n][i];
    assert forall j :: 0 <= j < n ==> uses[j] == uses[..n][j];
  }

  /** The comparison the lookup makes on an entry is the one on the call it stands for. */
  lemma {:induction false} FitsWhatAnswers(e: Entry, u: Use, keys: seq<Byte>, hints: Option<seq<Byte>>)
    requires Keeps(e, u) && HintsCover(hints, keys)
    ensures EntryFits(e, keys, hints) <==> Answers(u, keys, hints)
  {
    assert e.Keys() == u.keys && e.klen == |u.keys|;
    if e.klen <= |keys| {
      SamePrefix(e, u, keys);
      forall k | 0 <= k < e.klen
        ensures HintMatches(UnpackHint(e.posPacked, k), if hints.Some? then hints.value[k] else HINT_ANY)
          <==> k >= 4 || hints.None? || hints.value[k] == 0xFF || UnpackPos(u.pos, k) == 3 || UnpackPos(u.pos, k) == hints.value[k]
      {
      }
    }
  }

  lemma {:induction false} SamePrefix(e: Entry, u: Use, keys: seq<Byte>)
    requires Keeps(e, u) && e.klen <= |keys|
    ensures SameKeys(e.kbytes, keys, 0, e.klen) <==> u.keys <= keys
  {
    if SameKeys(e.kbytes, keys, 0, e.klen) {
      forall j | 0 <= j < |u.keys| ensures u.keys[j] == keys[j] {
        assert e.kbytes[j] == keys[0 + j];
      }
    }
    if u.keys <= keys {
      forall j | 0 <= j < e.klen ensures e.kbytes[j] == keys[0 + j] {
        assert e.kbytes[j] == u.keys[j];
      }
    }
  }

  // ---------------------------------------------------------------- what a lookup returns

  /** The row shows the word and tone of the call, and takes up its keys. */
  predicate RowOf(row: Hit, u: Use) {
    row.cand.word == u.word && row.cand.tone == u.tone && row.prefix == |u.keys|
  }

  /** Each row stands for a call that answers the input, the last of its kind; the rows show different words, the
      most recently taught first. */
  ghost predicate RowsAre(rows: seq<Hit>, uses: seq<Use>, keys: seq<Byte>, hints: Option<seq<Byte>>, at: seq<nat>)
    requires HintsCover(hints, keys)
  {
    && |at| == |rows| && DistinctRows(rows)
    && (forall r :: 0 <= r < |rows| ==>
          LastOfItsKind(uses, at[r]) && Answers(uses[at[r]], keys, hints) && RowOf(rows[r], uses[at[r]]))
    && forall r, q :: 0 <= r < q < |rows| ==> uses[at[r]].now >= uses[at[q]].now
  }

  lemma {:induction false} UseBehind(uses: seq<Use>, e: Entry, keys: seq<Byte>, hints: Option<seq<Byte>>) returns (i: nat)
    requires KeptFrom(uses, e) && HintsCover(hints, keys) && e.Valid() && EntryFits(e, keys, hints)
    ensures i < |uses| && LastOfItsKind(uses, i) && Answers(uses[i], keys, hints) && Keeps(e, uses[i]) && RowOf(HitOf(e), uses[i])
  {
    i :| LastOfItsKind(uses, i) && Teaches(uses[i]) && Keeps(e, uses[i]);
    FitsWhatAnswers(e, uses[i], keys, hints);
  }

  lemma {:induction false} RecencyOrders(a: Entry, b: Entry)
    ensures Recency()(a) >= Recency()(b) <==> a.lastUsedMs > b.lastUsedMs || (a.lastUsedMs == b.lastUsedMs && a.useCount >= b.useCount)
  {
  }

  /** A lookup answers with words taught under the keys typed. */
  lemma {:induction false} RowsAreUses(uses: seq<Use>, keys: seq<Byte>, hints: Option<seq<Byte>>, max: nat) returns (at: seq<nat>)
    requires HintsCover(hints, keys) && |keys| > 0
    ensures AllValid(After(uses))
    ensures |Lookup(After(uses), keys, hints, max)| <= max
    ensures RowsAre(Lookup(After(uses), keys, hints, max), uses, keys, hints, at)
    ensures var sources := Sources(After(uses), keys, hints, max);
      |sources| == |at| && forall r :: 0 <= r < |at| ==> at[r] < |uses| && Keeps(sources[r], uses[at[r]])
  {
    hide EntryFits, Answers, KeptFrom, Keeps, RowOf, LastOfItsKind, Sources, Lookup, HitOf;
    var es := After(uses);
    RunKeepsOk(uses);
    EntriesAreUses(uses);
    LookupRows(es, keys, hints, max);
    var rows, sources := Lookup(es, keys, hints, max), Sources(es, keys, hints, max);
    at := UsesBehind(uses, sources, keys, hints);
    forall r | 0 <= r < |rows| ensures RowOf(rows[r], uses[at[r]]) {
      assert rows[r] == HitOf(sources[r]);
    }
    MostRecentFirst(uses, sources, at);
  }

  lemma {:induction false} UsesBehind(uses: seq<Use>, sources: seq<Entry>, keys: seq<Byte>, hints: Option<seq<Byte>>) returns (at: seq<nat>)
    requires HintsCover(hints, keys)
    requires forall x :: 0 <= x < |After(uses)| ==> KeptFrom(uses, After(uses)[x])
    requires forall r :: 0 <= r < |sources| ==> sources[r] in After(uses) && sources[r].Valid() && EntryFits(sources[r], keys, hints)
    ensures |at| == |sources| && forall r :: 0 <= r < |at| ==>
      at[r] < |uses| && LastOfItsKind(uses, at[r]) && Answers(uses[at[r]], keys, hints) && Keeps(sources[r], uses[at[r]])
      && RowOf(HitOf(sources[r]), uses[at[r]])
  {
    hide EntryFits, Answers, KeptFrom, Keeps, RowOf, LastOfItsKind, HitOf, After;
    at := [];
    for n := 0 to |sources|
      invariant |at| == n && forall r :: 0 <= r < n ==>
        at[r] < |uses| && LastOfItsKind(uses, at[r]) && Answers(uses[at[r]], keys, hints) && Keeps(sources[r], uses[at[r]])
        && RowOf(HitOf(sources[r]), uses[at[r]])
    {
      var i := UseBehind(uses, sources[n], keys, hints);
      at := at + [i];
    }
  }

  lemma {:induction false} MostRecentFirst(uses: seq<Use>, sources: seq<Entry>, at: seq<nat>)
    requires Descending(sources, Recency()) && |at| == |sources|
    requires forall r :: 0 <= r < |at| ==> at[r] < |uses| && Keeps(sources[r], uses[at[r]])
    ensures forall r, q :: 0 <= r < q < |at| ==> uses[at[r]].now >= uses[at[q]].now
  {
    forall r, q | 0 <= r < q < |at| ensures uses[at[r]].now >= uses[at[q]].now {
      RecencyOrders(sources[r], sources[q]);
    }
  }

  // ---------------------------------------------------------------- and what it does not lose

  lemma {:induction false} OneEntryForEach(es: seq<Entry>, x: nat, y: nat, keys: seq<Byte>, pos: Byte, word: seq<Byte>)
    requires CacheOk(es) && x < |es| && y < |es| && SameId(es[x], keys, pos, word) && SameId(es[y], keys, pos, word)
    ensures x == y
  {
    if x != y { DifferentIds(es, x, y, keys, pos, word); }
  }

  /** While the cache knows the keys, hints and word of a call that was the last of its kind, its entry stands for
      that call. */
  lemma {:induction false} EntryOfUse(uses: seq<Use>, i: nat) returns (e: Entry)
    requires LastOfItsKind(uses, i) && Known(After(uses), uses[i].keys, uses[i].pos, uses[i].word)
    ensures e in After(uses) && e.Valid() && Keeps(e, uses[i])
  {
    hide Answers;
    EntriesAreUses(uses);
    var u, es := uses[i], After(uses);
    var x :| 0 <= x < |es| && SameId(es[x], u.keys, u.pos, u.word);
    e := es[x];
    var j: nat :| LastOfItsKind(uses, j) && Teaches(uses[j]) && Keeps(e, uses[j]);
    OnlyLast(uses, i, j);
  }

  lemma {:induction false} OnlyLast(uses: seq<Use>, i: nat, j: nat)
    requires LastOfItsKind(uses, i) && LastOfItsKind(uses, j)
    requires uses[i].keys == uses[j].keys && uses[i].pos == uses[j].pos && uses[i].word == uses[j].word
    ensures i == j
  {
  }

  /** A call that answers the input and is still known: its word is listed, by a call as recent, or the list is
      full of words taught as recently. */
  lemma {:induction false} UseIsListed(uses: seq<Use>, keys: seq<Byte>, hints: Option<seq<Byte>>, max: nat, at: seq<nat>, i: nat)
    requires HintsCover(hints, keys) && |keys| > 0 && AllValid(After(uses))
    requires var sources := Sources(After(uses), keys, hints, max);
      |sources| == |at| && forall r :: 0 <= r < |at| ==> at[r] < |uses| && Keeps(sources[r], uses[at[r]])
    requires LastOfItsKind(uses, i) && Answers(uses[i], keys, hints)
    requires Known(After(uses), uses[i].keys, uses[i].pos, uses[i].word)
    ensures var rows := Lookup(After(uses), keys, hints, max);
      && |rows| == |at|
      && ((exists r :: 0 <= r < |rows| && rows[r].cand.word == uses[i].word && uses[at[r]].now >= uses[i].now)
          || (|rows| == max && forall r :: 0 <= r < |rows| ==> uses[at[r]].now >= uses[i].now))
  {
    hide EntryFits, Answers, Lookup, Sources, Known, After;
    var e := EntryOfUse(uses, i);
    FitsWhatAnswers(e, uses[i], keys, hints);
    LookupLosesNothing(After(uses), keys, hints, max, e);
    var sources := Sources(After(uses), keys, hints, max);
    LookupRows(After(uses), keys, hints, max);
    forall r | 0 <= r < |at| && Recency()(sources[r]) >= Recency()(e) ensures uses[at[r]].now >= uses[i].now {
      RecencyOrders(sources[r], e);
    }
  }

  lemma {:induction false} AfterGrows(uses: seq<Use>)
    ensures |After(uses)| <= |uses|
  {
    if |uses| > 0 { AfterGrows(uses[..|uses| - 1]); }
  }

  /** Until the capacity is reached nothing taught is forgotten. */
  lemma {:induction false} NothingForgotten(uses: seq<Use>, i: nat)
    requires |uses| <= CAP && i < |uses| && Teaches(uses[i])
    ensures Known(After(uses), uses[i].keys, uses[i].pos, uses[i].word)
  {
    hide SameId, CacheOk, Upserted;
    var n := |uses| - 1;
    var u, es := uses[n], After(uses[..n]);
    AfterGrows(uses[..n]);
    RunKeepsOk(uses[..n]);
    var k := UpsertKeepsOk(es, u.keys, u.pos, u.tone, u.word, u.now);
    assert After(uses) == Upserted(es, u.keys, u.pos, u.tone, u.word, u.now);
    if i < n {
      NothingForgotten(uses[..n], i);
      var x :| 0 <= x < |es| && SameId(es[x], uses[i].keys, uses[i].pos, uses[i].word);
      KnownAgain(es, After(uses), k, u, x, uses[i]);
    }
  }

  lemma {:induction false} KnownAgain(es: seq<Entry>, es': seq<Entry>, k: nat, u: Use, x: nat, v: Use)
    requires x < |es| <= |es'| && SameId(es[x], v.keys, v.pos, v.word)
    requires x == k || !Storable(u.keys, u.word) ==> x < |es'|
    requires !Storable(u.keys, u.word) ==> es' == es
    requires Storable(u.keys, u.word) ==>
      k < |es'| && SameId(es'[k], u.keys, u.pos, u.word) && (forall i :: 0 <= i < |es| && i != k ==> es'[i] == es[i])
      && (k < |es| ==> SameId(es[k], u.keys, u.pos, u.word))
    ensures Known(es', v.keys, v.pos, v.word)
  {
    assert SameId(es'[x], v.keys, v.pos, v.word);
  }
}
