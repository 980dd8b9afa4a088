/** The track detail dialog: ticking a vocabulary item flips its `learned` flag, the
    completion percentage is recomputed, and an update naming only the vocabulary and
    the percentage is sent. */
module TrackProgress {
  import opened Wrappers
  import opened Entities
  import opened Sequences
  import opened Rounding
  import TrackStore

  /** Flips `learned` on the item at index `i` and on nothing else. */
  function ToggleAt(vocab: seq<VocabularyItem>, i: nat): (r: seq<VocabularyItem>)
    requires i < |vocab|
    ensures |r| == |vocab|
    ensures r[i].learned == !vocab[i].learned
    ensures r[i].word == vocab[i].word && r[i].meaning == vocab[i].meaning
    ensures forall k :: 0 <= k < |vocab| && k != i ==> r[k] == vocab[k]
  {
    vocab[i := vocab[i].(learned := !vocab[i].learned)]
  }

  /** Ticking the same box twice restores the vocabulary. */
  lemma ToggleTwice(vocab: seq<VocabularyItem>, i: nat)
    requires i < |vocab|
    ensures ToggleAt(ToggleAt(vocab, i), i) == vocab
  {
  }

  predicate IsLearned(v: VocabularyItem) {
    v.learned
  }

  /** `vocabulary.filter(v => v.learned).length`. */
  function LearnedCount(vocab: seq<VocabularyItem>): (n: nat)
    ensures n <= |vocab|
  {
    Count(vocab, IsLearned)
  }

  /** A toggle moves the learned count by exactly one, up or down. */
  lemma ToggleChangesLearnedByOne(vocab: seq<VocabularyItem>, i: nat)
    requires i < |vocab|
    ensures LearnedCount(ToggleAt(vocab, i)) == LearnedCount(vocab) + (if vocab[i].learned then -1 else 1)
  {
    var r := ToggleAt(vocab, i);
    assert vocab == vocab[..i] + [vocab[i]] + vocab[i + 1..];
    assert r == vocab[..i] + [r[i]] + vocab[i + 1..];
    CountConcat(vocab[..i] + [vocab[i]], vocab[i + 1..], IsLearned);
    CountConcat(vocab[..i], [vocab[i]], IsLearned);
    CountConcat(vocab[..i] + [r[i]], vocab[i + 1..], IsLearned);
    CountConcat(vocab[..i], [r[i]], IsLearned);
    assert Filter([vocab[i]], IsLearned) == (if vocab[i].learned then [vocab[i]] else []);
    assert Filter([r[i]], IsLearned) == (if r[i].learned then [r[i]] else []);
  }

  /** `totalItems > 0 ? Math.round((learned / totalItems) * 100) : 0`, computed exactly:
      the integer nearest to `100 * learned / total` (a half rounds up), and 0 when there
      is nothing to learn. */
  function Completion(learned: nat, total: nat): (c: int)
    ensures total == 0 ==> c == 0
    ensures total > 0 ==> 200 * learned - total < 2 * total * c <= 200 * learned + total
    ensures learned <= total ==> 0 <= c <= 100
  {
    if total > 0 then
      var c := Round(100 * learned, total);
      assert learned <= total ==> 0 <= c <= 100 by {
        if learned <= total { RoundBetween(100 * learned, total, 0, 100); }
      }
      c
    else 0
  }

  /** Learning more never lowers the percentage. */
  lemma CompletionMonotone(a: nat, b: nat, total: nat)
    requires a <= b
    ensures Completion(a, total) <= Completion(b, total)
  {
    if total > 0 {
      RoundMonotone(100 * a, 100 * b, total);
    }
  }

  /** Nothing learned gives 0. */
  lemma CompletionNothingLearned(total: nat)
    ensures Completion(0, total) == 0
  {
    if total > 0 {
      RoundUnique(0, total, 0);
    }
  }

  /** Everything learned gives exactly 100. */
  lemma CompletionAllLearned(total: nat)
    requires total > 0
    ensures Completion(total, total) == 100
  {
    RoundExact(100, total);
  }

  /** Below 200 items the percentage reads 100 exactly when every item is learned; from 200
      items on, rounding can show 100 with one item still unlearned. */
  lemma CompletionHundredIff(learned: nat, total: nat)
    requires 0 < total < 200 && learned <= total
    ensures Completion(learned, total) == 100 <==> learned == total
  {
    if learned == total {
      CompletionAllLearned(total);
    } else {
      CompletionMonotone(learned, total - 1, total);
      var c' := Completion(total - 1, total);
      assert 2 * total * c' <= 200 * (total - 1) + total;
      if c' >= 100 {
        MulLe(2 * total, 100, c');
      }
    }
  }

  /** The rounding edge: 199 of 200 items learned already reads as 100. */
  lemma CompletionRoundsUpToHundred()
    ensures Completion(199, 200) == 100
  {
    RoundUnique(100 * 199, 200, 100);
  }

  /** The percentage of a vocabulary and grammar list: grammar topics count towards the
      total but are never learned. */
  function TrackCompletion(vocab: seq<VocabularyItem>, topics: seq<string>): (c: int)
    ensures 0 <= c <= 100
  {
    Completion(LearnedCount(vocab), |vocab| + |topics|)
  }

  /** With no grammar topics and every word learned, a non-empty track is complete. */
  lemma AllWordsLearnedNoGrammar(vocab: seq<VocabularyItem>)
    requires |vocab| > 0
    requires forall k :: 0 <= k < |vocab| ==> vocab[k].learned
    ensures TrackCompletion(vocab, []) == 100
  {
    CountAllIff(vocab, IsLearned);
    CompletionAllLearned(|vocab|);
  }

  /** A track with a grammar topic is never complete while its vocabulary items and
      grammar topics together number fewer than 200, however many items are learned. */
  lemma GrammarKeepsTrackOpen(vocab: seq<VocabularyItem>, topics: seq<string>)
    requires |topics| > 0 && |vocab| + |topics| < 200
    ensures TrackCompletion(vocab, topics) < 100
  {
    CompletionHundredIff(LearnedCount(vocab), |vocab| + |topics|);
  }

  /** `toggleVocabulary(index)`: the update sent when the box at `index` is ticked. It names
      the track, the toggled vocabulary and the recomputed percentage, and leaves the unit
      name and grammar topics out. */
  function ToggleVocabulary(t: Track, index: nat): (p: TrackPatch)
    requires index < |t.vocabulary|
    ensures p.id == t.id
    ensures p.unitName.None? && p.grammarTopics.None?
    ensures p.vocabulary == Some(ToggleAt(t.vocabulary, index))
    ensures |p.vocabulary.value| == |t.vocabulary|
    ensures p.vocabulary.value[index].learned != t.vocabulary[index].learned
    ensures forall k :: 0 <= k < |t.vocabulary| && k != index ==> p.vocabulary.value[k] == t.vocabulary[k]
    ensures p.completion.Some? && 0 <= p.completion.value <= 100
    ensures p.completion.value == TrackCompletion(p.vocabulary.value, t.grammarTopics)
  {
    var vocab := ToggleAt(t.vocabulary, index);
    TrackPatch(t.id, None, Some(vocab), None, Some(TrackCompletion(vocab, t.grammarTopics)))
  }

  /** What reaches the backend after a toggle: the toggled list as JSON text and the new
      percentage, and no unit name or grammar topics. */
  lemma ToggleSendsOnlyProgress(t: Track, index: nat)
    requires index < |t.vocabulary|
    ensures var req := TrackStore.UpdateTrack(ToggleVocabulary(t, index));
      && req.id == t.id
      && req.data.unitName.None?
      && req.data.grammarTopics.None?
      && req.data.vocabulary == Some(TrackStore.Stringified(ToggleAt(t.vocabulary, index)))
      && req.data.completion.Some?
  {
  }

  /** The stored track once the backend has written the fields an update carries. */
  function ApplyPatch(t: Track, p: TrackPatch): Track {
    t.(unitName := p.unitName.GetOr(t.unitName),
       vocabulary := p.vocabulary.GetOr(t.vocabulary),
       grammarTopics := p.grammarTopics.GetOr(t.grammarTopics),
       completion := p.completion.GetOr(t.completion))
  }

  /** The stored track after the update for ticking box `i` of `t` has been written: the
      vocabulary is toggled at `i`, the percentage is the one the update carries, and no
      other field changes. */
  function Refreshed(t: Track, i: nat): (u: Track)
    requires i < |t.vocabulary|
    ensures u.vocabulary == ToggleAt(t.vocabulary, i)
    ensures u.completion == ToggleVocabulary(t, i).completion.value
    ensures u == t.(vocabulary := u.vocabulary, completion := u.completion)
  {
    ApplyPatch(t, ToggleVocabulary(t, i))
  }

  /** Every tick in a dialog session names a vocabulary item of `t`. */
  predicate TicksWithin(t: Track, ticks: seq<nat>) {
    forall k :: 0 <= k < |ticks| ==> ticks[k] < |t.vocabulary|
  }

  /** The ticks after the first still name items of any track with as many items. */
  lemma TicksWithinTail(t: Track, u: Track, ticks: seq<nat>)
    requires ticks != [] && TicksWithin(t, ticks) && |u.vocabulary| == |t.vocabulary|
    ensures TicksWithin(u, ticks[1..])
  {
    forall j | 0 <= j < |ticks[1..]| ensures ticks[1..][j] < |u.vocabulary| {
      assert ticks[1..][j] == ticks[j + 1];
    }
  }

  /** The dialog as written: it keeps the track it was opened with (`selectedTrack`), so
      every tick is computed from that snapshot while the stored track moves on. Each
      update overwrites the whole vocabulary, so the last tick decides what is stored. */
  function StaleSession(snapshot: Track, stored: Track, ticks: seq<nat>): (r: Track)
    requires TicksWithin(snapshot, ticks)
    ensures ticks == [] ==> r == stored
    ensures ticks != [] ==> r.vocabulary == ToggleAt(snapshot.vocabulary, ticks[|ticks| - 1])
    decreases |ticks|
  {
    if ticks == [] then stored
    else
      TicksWithinTail(snapshot, snapshot, ticks);
      assert |ticks| > 1 ==> ticks[1..][|ticks[1..]| - 1] == ticks[|ticks| - 1];
      StaleSession(snapshot, ApplyPatch(stored, ToggleVocabulary(snapshot, ticks[0])), ticks[1..])
  }

  /** As written, ticking a box twice sends the same update twice, so the box stays
      flipped instead of returning to its first state. */
  lemma StaleTickTwiceKeepsFlip(t: Track, i: nat)
    requires i < |t.vocabulary|
    ensures StaleSession(t, t, [i, i]).vocabulary == ToggleAt(t.vocabulary, i)
    ensures StaleSession(t, t, [i, i]).vocabulary != t.vocabulary
  {
    var r := StaleSession(t, t, [i, i]);
    assert r.vocabulary[i] != t.vocabulary[i];
  }

  /** As written, ticking one box and then another loses the first tick: the second
      update re-sends the first box as the snapshot had it. */
  lemma StaleSessionLosesEarlierTick(t: Track, i: nat, j: nat)
    requires i < |t.vocabulary| && j < |t.vocabulary| && i != j
    ensures StaleSession(t, t, [i, j]).vocabulary[i] == t.vocabulary[i]
  {
  }

  /** The dialog as intended: each tick reads the track as last stored (the refreshed
      list entry), so ticks accumulate. Each update is taken to succeed before the next
      tick. */
  function FreshSession(t: Track, ticks: seq<nat>): (r: Track)
    requires TicksWithin(t, ticks)
    ensures |r.vocabulary| == |t.vocabulary|
    ensures r.id == t.id && r.unitName == t.unitName && r.grammarTopics == t.grammarTopics
    decreases |ticks|
  {
    if ticks == [] then t
    else
      var u := Refreshed(t, ticks[0]);
      TicksWithinTail(t, u, ticks);
      FreshSession(u, ticks[1..])
  }

  /** With fresh reads, the stored percentage always matches the stored vocabulary. */
  lemma {:induction false} FreshSessionCompletionAgrees(t: Track, ticks: seq<nat>)
    requires TicksWithin(t, ticks) && ticks != []
    ensures var r := FreshSession(t, ticks);
      r.completion == TrackCompletion(r.vocabulary, r.grammarTopics)
    decreases |ticks|
  {
    var u := Refreshed(t, ticks[0]);
    TicksWithinTail(t, u, ticks);
    if |ticks| > 1 {
      FreshSessionCompletionAgrees(u, ticks[1..]);
    }
  }

  /** How many times box `k` is ticked in a session. */
  function TickCount(ticks: seq<nat>, k: nat): nat {
    if ticks == [] then 0 else (if ticks[0] == k then 1 else 0) + TickCount(ticks[1..], k)
  }

  /** Each tick of box `k` flips this flag once. */
  predicate OddTicks(ticks: seq<nat>, k: nat) {
    if ticks == [] then false else (ticks[0] == k) != OddTicks(ticks[1..], k)
  }

  /** The flag says box `k` is ticked an odd number of times. */
  lemma {:induction false} OddTicksIffOddCount(ticks: seq<nat>, k: nat)
    ensures OddTicks(ticks, k) <==> TickCount(ticks, k) % 2 == 1
  {
    if ticks != [] {
      OddTicksIffOddCount(ticks[1..], k);
    }
  }

  /** With fresh reads, each tick flips its box once: a box ends flipped exactly when it
      was ticked an odd number of times. Word and meaning never change. */
  lemma {:induction false} FreshSessionFlipsPerTick(t: Track, ticks: seq<nat>, k: nat)
    requires TicksWithin(t, ticks) && k < |t.vocabulary|
    ensures var v := FreshSession(t, ticks).vocabulary[k];
      && v.word == t.vocabulary[k].word && v.meaning == t.vocabulary[k].meaning
      && v.learned == (t.vocabulary[k].learned != OddTicks(ticks, k))
    decreases |ticks|
  {
    if ticks != [] {
      var u := Refreshed(t, ticks[0]);
      TicksWithinTail(t, u, ticks);
      FreshSessionFlipsPerTick(u, ticks[1..], k);
    }
  }

  /** With fresh reads, ticking a box twice restores the vocabulary. */
  lemma FreshTickTwiceRestores(t: Track, i: nat)
    requires i < |t.vocabulary|
    ensures FreshSession(t, [i, i]).vocabulary == t.vocabulary
  {
    var r := FreshSession(t, [i, i]).vocabulary;
    forall k | 0 <= k < |t.vocabulary| ensures r[k] == t.vocabulary[k] {
      assert [i, i][1..] == [i] && [i][1..] == [];
      assert !OddTicks([], k);
      assert OddTicks([i], k) == (k == i);
      assert !OddTicks([i, i], k);
      FreshSessionFlipsPerTick(t, [i, i], k);
    }
  }

  /** With fresh reads, ticking two different boxes keeps both ticks. */
  lemma FreshSessionKeepsEarlierTick(t: Track, i: nat, j: nat)
    requires i < |t.vocabulary| && j < |t.vocabulary| && i != j
    ensures FreshSession(t, [i, j]).vocabulary[i].learned != t.vocabulary[i].learned
    ensures FreshSession(t, [i, j]).vocabulary[j].learned != t.vocabulary[j].learned
  {
    assert [i, j][1..] == [j] && [j][1..] == [];
    assert !OddTicks([], i) && !OddTicks([], j);
    assert OddTicks([j], j) && !OddTicks([j], i);
    assert OddTicks([i, j], i) && OddTicks([i, j], j);
    FreshSessionFlipsPerTick(t, [i, j], i);
    FreshSessionFlipsPerTick(t, [i, j], j);
  }
}
