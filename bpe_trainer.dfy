/**
 * BPETrainer: learning merge rules from a pretoken frequency table. Each round counts the
 * adjacent symbol pairs weighted by frequency, picks the pair with the largest count (the
 * first such pair in the count table's insertion order), rewrites every pretoken by joining
 * that pair left to right, and adds the joined symbol to the token set; rounds stop when the
 * token set reaches the target size or no pair is left. Ids are then handed out densely:
 * single bytes first in ascending order, merged symbols after them in merge order.
 */
module BpeTrainer {
  import opened Symbols
  import opened Dict

  // ---------------------------------------------------------------------------------
  // _get_pairs and _count_pairs

  /** The pairs of a sequence of two or more symbols are its first pair and the pairs of its tail. */
  lemma AdjacentCons(s: Word)
    requires |s| >= 2
    ensures Adjacent(s) == [(s[0], s[1])] + Adjacent(s[1..])
  {
  }

  /** One (pair, freq) item per pair occurrence: what `pair_counts[p] += freq` adds, in order. */
  function Weighted(pairs: seq<Pair>, freq: int): (r: Table<Pair, int>)
    ensures |r| == |pairs|
    ensures forall i :: 0 <= i < |r| ==> r[i] == (pairs[i], freq)
  {
    seq(|pairs|, i requires 0 <= i < |pairs| => (pairs[i], freq))
  }

  /** Every weighted pair occurrence of every pretoken, in table order. */
  function AllPairs(tokenFreqs: Table<Word, int>): Table<Pair, int>
  {
    if tokenFreqs == [] then []
    else Weighted(Adjacent(tokenFreqs[0].0), tokenFreqs[0].1) + AllPairs(tokenFreqs[1..])
  }

  /** The table _count_pairs builds: each occurrence adds its pretoken's frequency to its pair. */
  function CountPairsF(tokenFreqs: Table<Word, int>): Table<Pair, int>
  {
    AddAll([], AllPairs(tokenFreqs))
  }

  /** _count_pairs(token_freqs) */
  method CountPairs(tokenFreqs: Table<Word, int>) returns (pairCounts: Table<Pair, int>)
    ensures pairCounts == CountPairsF(tokenFreqs)
  {
    pairCounts := [];
    for i := 0 to |tokenFreqs|
      invariant AddAll(pairCounts, AllPairs(tokenFreqs[i..])) == CountPairsF(tokenFreqs)
    {
      var (s, freq) := tokenFreqs[i];
      var pairs := Adjacent(s);
      assert tokenFreqs[i..][1..] == tokenFreqs[i + 1..];
      AddAllAppend(pairCounts, Weighted(pairs, freq), AllPairs(tokenFreqs[i + 1..]));
      assert pairs[0..] == pairs;
      for j := 0 to |pairs|
        invariant AddAll(AddAll(pairCounts, Weighted(pairs[j..], freq)), AllPairs(tokenFreqs[i + 1..]))
                  == CountPairsF(tokenFreqs)
      {
        assert Weighted(pairs[j..], freq)[1..] == Weighted(pairs[j + 1..], freq);
        pairCounts := Add(pairCounts, pairs[j], freq);
      }
    }
  }

  /** How many times p occurs in pairs. */
  function PairOccurrences(pairs: seq<Pair>, p: Pair): nat
  {
    if pairs == [] then 0 else (if pairs[0] == p then 1 else 0) + PairOccurrences(pairs[1..], p)
  }

  /** sum over the pretokens of freq * (occurrences of p among the pretoken's pairs) */
  function PairTotal(tokenFreqs: Table<Word, int>, p: Pair): int
  {
    if tokenFreqs == [] then 0
    else tokenFreqs[0].1 * PairOccurrences(Adjacent(tokenFreqs[0].0), p) + PairTotal(tokenFreqs[1..], p)
  }

  /** p occurs as an adjacent pair in some pretoken of the table. */
  ghost predicate Occurs(tokenFreqs: Table<Word, int>, p: Pair)
  {
    exists i :: 0 <= i < |tokenFreqs| && p in Adjacent(tokenFreqs[i].0)
  }

  lemma {:induction false} SumAtWeighted(pairs: seq<Pair>, freq: int, p: Pair)
    ensures SumAt(Weighted(pairs, freq), p) == freq * PairOccurrences(pairs, p)
  {
    if pairs != [] {
      assert Weighted(pairs, freq)[1..] == Weighted(pairs[1..], freq);
      SumAtWeighted(pairs[1..], freq, p);
      var here := if pairs[0] == p then 1 else 0;
      var later := PairOccurrences(pairs[1..], p);
      assert freq * (here + later) == freq * here + freq * later;
    }
  }

  lemma WeightedKeys(pairs: seq<Pair>, freq: int, p: Pair)
    ensures p in Keys(Weighted(pairs, freq)) <==> p in pairs
  {
    if p in pairs {
      var i :| 0 <= i < |pairs| && pairs[i] == p;
      assert Weighted(pairs, freq)[i].0 == p;
    }
  }

  /** The weights listed for a pair add up to its frequency-weighted number of occurrences. */
  lemma {:induction false} AllPairsSum(tokenFreqs: Table<Word, int>, p: Pair)
    ensures SumAt(AllPairs(tokenFreqs), p) == PairTotal(tokenFreqs, p)
  {
    if tokenFreqs != [] {
      var (s, freq) := tokenFreqs[0];
      var rest := tokenFreqs[1..];
      SumAtAppend(Weighted(Adjacent(s), freq), AllPairs(rest), p);
      SumAtWeighted(Adjacent(s), freq, p);
      AllPairsSum(rest, p);
    }
  }

  /** A pair is listed with some weight exactly when it occurs in some key. */
  lemma {:induction false} AllPairsKeys(tokenFreqs: Table<Word, int>, p: Pair)
    ensures p in Keys(AllPairs(tokenFreqs)) <==> Occurs(tokenFreqs, p)
  {
    if tokenFreqs != [] {
      var (s, freq) := tokenFreqs[0];
      var rest := tokenFreqs[1..];
      WeightedKeys(Adjacent(s), freq, p);
      AllPairsKeys(rest, p);
      KeysAppend(Weighted(Adjacent(s), freq), AllPairs(rest));
      if Occurs(rest, p) {
        var i :| 0 <= i < |rest| && p in Adjacent(rest[i].0);
        assert tokenFreqs[i + 1] == rest[i];
      }
      if Occurs(tokenFreqs, p) && p !in Adjacent(s) {
        var i :| 0 <= i < |tokenFreqs| && p in Adjacent(tokenFreqs[i].0);
        assert rest[i - 1] == tokenFreqs[i];
      }
    }
  }

  /**
   * _count_pairs gives each pair the sum over the pretokens of its frequency times the
   * pair's occurrences in it, and has a key exactly for the pairs that occur somewhere.
   */
  lemma CountPairsCounts(tokenFreqs: Table<Word, int>)
    ensures DistinctKeys(CountPairsF(tokenFreqs))
    ensures forall p :: Count(CountPairsF(tokenFreqs), p) == PairTotal(tokenFreqs, p)
    ensures forall p :: p in Keys(CountPairsF(tokenFreqs)) <==> Occurs(tokenFreqs, p)
  {
    var all := AllPairs(tokenFreqs);
    var empty: Table<Pair, int> := [];
    AddAllDistinct(empty, all);
    AddAllCount(empty, all);
    assert forall p :: Count(empty, p) == 0;
    assert CountPairsF(tokenFreqs) == AddAll(empty, all);
    forall p ensures Count(CountPairsF(tokenFreqs), p) == PairTotal(tokenFreqs, p) {
      AllPairsSum(tokenFreqs, p);
      assert Count(AddAll(empty, all), p) == Count(empty, p) + SumAt(all, p);
    }
    forall p ensures p in Keys(all) <==> Occurs(tokenFreqs, p) {
      AllPairsKeys(tokenFreqs, p);
    }
  }

  // ---------------------------------------------------------------------------------
  // _merge_pair_in_sequence

  /** The left-to-right, non-overlapping replacement of every adjacent (a, b) by a + b. */
  function MergeSeq(s: Word, a: Token, b: Token): Word
  {
    if s == [] then []
    else if |s| >= 2 && s[0] == a && s[1] == b then [a + b] + MergeSeq(s[2..], a, b)
    else [s[0]] + MergeSeq(s[1..], a, b)
  }

  /** _merge_pair_in_sequence(seq, pair_to_merge) */
  method MergePairInSequence(s: Word, pairToMerge: Pair) returns (r: Word)
    ensures r == MergeSeq(s, pairToMerge.0, pairToMerge.1)
  {
    var (a, b) := pairToMerge;
    var newSeq: Word := [];
    var i := 0;
    while i < |s|
      invariant 0 <= i <= |s|
      invariant newSeq + MergeSeq(s[i..], a, b) == MergeSeq(s, a, b)
    {
      assert s[i..][0] == s[i];
      if i < |s| - 1 && s[i] == a && s[i + 1] == b {
        assert s[i..][1] == s[i + 1] && s[i..][2..] == s[i + 2..];
        newSeq := newSeq + [a + b];
        i := i + 2;
      } else {
        assert s[i..][1..] == s[i + 1..];
        newSeq := newSeq + [s[i]];
        i := i + 1;
      }
    }
    assert s[|s|..] == [];
    r := newSeq;
  }

  /** Merging keeps the bytes the sequence stands for. */
  lemma {:induction false} MergeSeqFlatten(s: Word, a: Token, b: Token)
    ensures Flatten(MergeSeq(s, a, b)) == Flatten(s)
  {
    if s != [] {
      if |s| >= 2 && s[0] == a && s[1] == b {
        var rest := MergeSeq(s[2..], a, b);
        MergeSeqFlatten(s[2..], a, b);
        assert MergeSeq(s, a, b) == [a + b] + rest;
        assert ([a + b] + rest)[1..] == rest;
        assert s[1..][1..] == s[2..];
        assert Flatten(s) == a + (b + Flatten(s[2..]));
      } else {
        var rest := MergeSeq(s[1..], a, b);
        MergeSeqFlatten(s[1..], a, b);
        assert MergeSeq(s, a, b) == [s[0]] + rest;
        assert ([s[0]] + rest)[1..] == rest;
      }
    }
  }

  /** Where (a, b) does not occur, merging returns the sequence unchanged. */
  lemma {:induction false} MergeSeqUnchanged(s: Word, a: Token, b: Token)
    requires (a, b) !in Adjacent(s)
    ensures MergeSeq(s, a, b) == s
  {
    if |s| >= 2 {
      AdjacentCons(s);
      assert Adjacent(s[1..]) == Adjacent(s)[1..];
      MergeSeqUnchanged(s[1..], a, b);
    } else if |s| == 1 {
      assert s[1..] == [];
    }
  }

  /** Merging never lengthens a sequence, and shortens it where (a, b) occurs. */
  lemma {:induction false} MergeSeqShorter(s: Word, a: Token, b: Token)
    ensures |MergeSeq(s, a, b)| <= |s|
    ensures (a, b) in Adjacent(s) ==> |MergeSeq(s, a, b)| < |s|
  {
    if |s| >= 2 {
      AdjacentCons(s);
      if s[0] == a && s[1] == b {
        MergeSeqShorter(s[2..], a, b);
      } else {
        MergeSeqShorter(s[1..], a, b);
        assert (a, b) in Adjacent(s) ==> (a, b) in Adjacent(s[1..]);
      }
    }
  }

  /**
   * Merging never lengthens a sequence; it keeps its length exactly when (a, b) does not
   * occur in it, and then returns it unchanged.
   */
  lemma MergeSeqLength(s: Word, a: Token, b: Token)
    ensures |MergeSeq(s, a, b)| <= |s|
    ensures |MergeSeq(s, a, b)| == |s| <==> (a, b) !in Adjacent(s)
    ensures (a, b) !in Adjacent(s) ==> MergeSeq(s, a, b) == s
    ensures |a| > 0 && |b| > 0 ==>
              |s| + multiset(s)[a + b] == |MergeSeq(s, a, b)| + multiset(MergeSeq(s, a, b))[a + b]
  {
    MergeSeqShorter(s, a, b);
    if (a, b) !in Adjacent(s) {
      MergeSeqUnchanged(s, a, b);
    }
    if |a| > 0 && |b| > 0 {
      MergeSeqOccurrences(s, a, b);
      SymbolCountIsMultiplicity(s, a + b);
      SymbolCountIsMultiplicity(MergeSeq(s, a, b), a + b);
    }
  }

  /** The number of positions of s holding y. */
  function SymbolCount(s: Word, y: Token): nat
  {
    if s == [] then 0 else (if s[0] == y then 1 else 0) + SymbolCount(s[1..], y)
  }

  /** Counting positions agrees with the multiplicity in the multiset of s. */
  lemma {:induction false} SymbolCountIsMultiplicity(s: Word, y: Token)
    ensures SymbolCount(s, y) == multiset(s)[y]
  {
    if s != [] {
      SymbolCountIsMultiplicity(s[1..], y);
      assert s == [s[0]] + s[1..];
      assert multiset(s) == multiset{s[0]} + multiset(s[1..]);
    }
  }

  /** Each merge takes one symbol out of the word and puts one more a + b in, counted position by position. */
  lemma {:induction false} MergeSeqOccurrences(s: Word, a: Token, b: Token)
    requires |a| > 0 && |b| > 0
    ensures |s| + SymbolCount(s, a + b) == |MergeSeq(s, a, b)| + SymbolCount(MergeSeq(s, a, b), a + b)
  {
    if s != [] {
      var ab := a + b;
      assert a != ab && b != ab by { assert |ab| == |a| + |b|; }
      if |s| >= 2 && s[0] == a && s[1] == b {
        MergeSeqOccurrences(s[2..], a, b);
        assert s[1..][1..] == s[2..];
      } else {
        MergeSeqOccurrences(s[1..], a, b);
      }
    }
  }

  /** A merged sequence starts with the sequence's first symbol or with the joined symbol. */
  lemma MergeSeqHead(s: Word, a: Token, b: Token)
    requires s != []
    ensures MergeSeq(s, a, b) != []
    ensures MergeSeq(s, a, b)[0] == s[0] || MergeSeq(s, a, b)[0] == a + b
  {
  }

  /** With non-empty symbols, no adjacent (a, b) is left after merging ("replace every (A, B)"). */
  lemma {:induction false} MergeSeqExhaustive(s: Word, a: Token, b: Token)
    requires |a| > 0 && |b| > 0
    ensures (a, b) !in Adjacent(MergeSeq(s, a, b))
  {
    if s != [] {
      var r := MergeSeq(s, a, b);
      var merged := |s| >= 2 && s[0] == a && s[1] == b;
      var tail := if merged then s[2..] else s[1..];
      var rest := MergeSeq(tail, a, b);
      MergeSeqExhaustive(tail, a, b);
      assert r == [r[0]] + rest;
      if rest != [] {
        AdjacentCons(r);
        assert r[1..] == rest;
        MergeSeqHead(tail, a, b);
        assert |a + b| > |a| && |a + b| > |b|;
      }
    }
  }

  // ---------------------------------------------------------------------------------
  // Rewriting the frequency table with one merge

  /** Every pretoken merged, with its frequency, in table order. */
  function Image(tokenFreqs: Table<Word, int>, a: Token, b: Token): (r: Table<Word, int>)
    ensures |r| == |tokenFreqs|
    ensures forall i :: 0 <= i < |r| ==> r[i] == (MergeSeq(tokenFreqs[i].0, a, b), tokenFreqs[i].1)
  {
    seq(|tokenFreqs|, i requires 0 <= i < |tokenFreqs| => (MergeSeq(tokenFreqs[i].0, a, b), tokenFreqs[i].1))
  }

  /**
   * new_token_freqs as train builds it: the merged pretokens in table order, frequencies
   * of pretokens that merge into the same sequence added up.
   */
  function RewriteF(tokenFreqs: Table<Word, int>, pair: Pair): Table<Word, int>
  {
    AddAll([], Image(tokenFreqs, pair.0, pair.1))
  }

  /** The loop of train that builds new_token_freqs. */
  method RewriteAll(tokenFreqs: Table<Word, int>, bestPair: Pair) returns (newTokenFreqs: Table<Word, int>)
    ensures newTokenFreqs == RewriteF(tokenFreqs, bestPair)
  {
    newTokenFreqs := [];
    ghost var image := Image(tokenFreqs, bestPair.0, bestPair.1);
    for i := 0 to |tokenFreqs|
      invariant AddAll(newTokenFreqs, image[i..]) == RewriteF(tokenFreqs, bestPair)
    {
      var (s, freq) := tokenFreqs[i];
      var newSeq := MergePairInSequence(s, bestPair);
      assert image[i..][0] == (newSeq, freq) && image[i..][1..] == image[i + 1..];
      newTokenFreqs := Add(newTokenFreqs, newSeq, freq);
    }
  }

  /** The frequency of every pretoken that becomes w after merging, summed. */
  function MergedFreq(tokenFreqs: Table<Word, int>, pair: Pair, w: Word): int
  {
    if tokenFreqs == [] then 0
    else (if MergeSeq(tokenFreqs[0].0, pair.0, pair.1) == w then tokenFreqs[0].1 else 0)
         + MergedFreq(tokenFreqs[1..], pair, w)
  }

  lemma {:induction false} ImageSum(tokenFreqs: Table<Word, int>, pair: Pair, w: Word)
    ensures SumAt(Image(tokenFreqs, pair.0, pair.1), w) == MergedFreq(tokenFreqs, pair, w)
  {
    if tokenFreqs != [] {
      assert Image(tokenFreqs, pair.0, pair.1)[1..] == Image(tokenFreqs[1..], pair.0, pair.1);
      ImageSum(tokenFreqs[1..], pair, w);
    }
  }

  lemma {:induction false} ImageTotal(tokenFreqs: Table<Word, int>, pair: Pair)
    ensures Total(Image(tokenFreqs, pair.0, pair.1)) == Total(tokenFreqs)
  {
    if tokenFreqs != [] {
      var n := |tokenFreqs| - 1;
      assert Image(tokenFreqs, pair.0, pair.1)[..n] == Image(tokenFreqs[..n], pair.0, pair.1);
      ImageTotal(tokenFreqs[..n], pair);
    }
  }

  /**
   * Rewriting keeps the keys distinct and the total of all frequencies, and gives each
   * merged sequence the summed frequency of the pretokens that merge into it.
   */
  lemma RewriteCounts(tokenFreqs: Table<Word, int>, pair: Pair)
    ensures DistinctKeys(RewriteF(tokenFreqs, pair))
    ensures Total(RewriteF(tokenFreqs, pair)) == Total(tokenFreqs)
    ensures forall w :: Count(RewriteF(tokenFreqs, pair), w) == MergedFreq(tokenFreqs, pair, w)
  {
    var image := Image(tokenFreqs, pair.0, pair.1);
    AddAllDistinct([], image);
    TotalAddAll([], image);
    ImageTotal(tokenFreqs, pair);
    AddAllCount([], image);
    forall w ensures SumAt(image, w) == MergedFreq(tokenFreqs, pair, w) {
      ImageSum(tokenFreqs, pair, w);
    }
  }

  // ---------------------------------------------------------------------------------
  // Termination: the total length of the pretokens

  /** The number of symbols over all keys of the table. */
  function Mass(t: Table<Word, int>): nat
  {
    if t == [] then 0 else Mass(t[..|t| - 1]) + |t[|t| - 1].0|
  }

  lemma {:induction false} MassAppend(a: Table<Word, int>, b: Table<Word, int>)
    ensures Mass(a + b) == Mass(a) + Mass(b)
    decreases |b|
  {
    if b == [] {
      assert a + b == a;
    } else {
      var n := |b| - 1;
      assert (a + b)[..|a + b| - 1] == a + b[..n];
      MassAppend(a, b[..n]);
    }
  }

  /** Tables with the same keys in the same places have the same mass. */
  lemma {:induction false} MassSameKeys(a: Table<Word, int>, b: Table<Word, int>)
    requires |a| == |b| && forall i :: 0 <= i < |a| ==> a[i].0 == b[i].0
    ensures Mass(a) == Mass(b)
  {
    if a != [] {
      MassSameKeys(a[..|a| - 1], b[..|b| - 1]);
    }
  }

  /** Adding to a counter grows its mass by at most the length of the key. */
  lemma MassAdd(t: Table<Word, int>, w: Word, n: int)
    ensures Mass(Add(t, w, n)) <= Mass(t) + |w|
  {
    if w in Keys(t) {
      MassSameKeys(Add(t, w, n), t);
    } else {
      var last: Table<Word, int> := [(w, Count(t, w) + n)];
      MassAppend(t, last);
      assert last[..0] == [];
    }
  }

  lemma {:induction false} MassAddAll(d: Table<Word, int>, local: Table<Word, int>)
    ensures Mass(AddAll(d, local)) <= Mass(d) + Mass(local)
    decreases |local|
  {
    if local != [] {
      MassAdd(d, local[0].0, local[0].1);
      MassAddAll(Add(d, local[0].0, local[0].1), local[1..]);
      var first: Table<Word, int> := [local[0]];
      MassAppend(first, local[1..]);
      assert first + local[1..] == local;
      assert first[..0] == [];
    }
  }

  /** A table whose keys are no longer, place by place, than another's has no more mass. */
  lemma {:induction false} MassLe(a: Table<Word, int>, b: Table<Word, int>)
    requires |a| == |b| && forall j :: 0 <= j < |a| ==> |a[j].0| <= |b[j].0|
    ensures Mass(a) <= Mass(b)
  {
    if a != [] {
      MassLe(a[..|a| - 1], b[..|b| - 1]);
    }
  }

  /** ... and has strictly less when one of its keys is strictly shorter. */
  lemma {:induction false} MassLt(a: Table<Word, int>, b: Table<Word, int>, i: nat)
    requires |a| == |b| && forall j :: 0 <= j < |a| ==> |a[j].0| <= |b[j].0|
    requires i < |a| && |a[i].0| < |b[i].0|
    ensures Mass(a) < Mass(b)
  {
    var n := |a| - 1;
    if i < n {
      MassLt(a[..n], b[..n], i);
    } else {
      MassLe(a[..n], b[..n]);
    }
  }

  /** Merging inside every key never lengthens a key. */
  lemma MassImage(tokenFreqs: Table<Word, int>, a: Token, b: Token)
    ensures Mass(Image(tokenFreqs, a, b)) <= Mass(tokenFreqs)
  {
    forall j | 0 <= j < |tokenFreqs| ensures |MergeSeq(tokenFreqs[j].0, a, b)| <= |tokenFreqs[j].0| {
      MergeSeqLength(tokenFreqs[j].0, a, b);
    }
    MassLe(Image(tokenFreqs, a, b), tokenFreqs);
  }

  /** When (a, b) occurs in key i, merging shortens that key and so the whole table. */
  lemma MassImageStrict(tokenFreqs: Table<Word, int>, a: Token, b: Token, i: nat)
    requires i < |tokenFreqs| && (a, b) in Adjacent(tokenFreqs[i].0)
    ensures Mass(Image(tokenFreqs, a, b)) < Mass(tokenFreqs)
  {
    forall j | 0 <= j < |tokenFreqs| ensures |MergeSeq(tokenFreqs[j].0, a, b)| <= |tokenFreqs[j].0| {
      MergeSeqLength(tokenFreqs[j].0, a, b);
    }
    MergeSeqLength(tokenFreqs[i].0, a, b);
    MassLt(Image(tokenFreqs, a, b), tokenFreqs, i);
  }

  /** Rewriting with a pair that occurs removes at least one symbol: train's loop terminates. */
  lemma MassDecreases(tokenFreqs: Table<Word, int>, pair: Pair)
    requires Occurs(tokenFreqs, pair)
    ensures Mass(RewriteF(tokenFreqs, pair)) < Mass(tokenFreqs)
  {
    var i :| 0 <= i < |tokenFreqs| && pair in Adjacent(tokenFreqs[i].0);
    MassImageStrict(tokenFreqs, pair.0, pair.1, i);
    MassAddAll([], Image(tokenFreqs, pair.0, pair.1));
  }

  // ---------------------------------------------------------------------------------
  // max(pair_counts, key=pair_counts.get)

  /**
   * The position max() takes its result from: it keeps the first item and replaces it only
   * by a strictly larger one, so the first maximal entry in insertion order wins.
   */
  function BestIndex<K>(t: Table<K, int>): (i: nat)
    requires t != []
    ensures i < |t|
    ensures forall j :: 0 <= j < |t| ==> t[j].1 <= t[i].1
    ensures forall j :: 0 <= j < i ==> t[j].1 < t[i].1
  {
    if |t| == 1 then 0
    else
      var n := |t| - 1;
      var k := BestIndex(t[..n]);
      if t[n].1 > t[k].1 then n else k
  }

  /** max(pair_counts, key=pair_counts.get) */
  function BestPair(pairCounts: Table<Pair, int>): Pair
    requires pairCounts != []
  {
    pairCounts[BestIndex(pairCounts)].0
  }

  /**
   * The chosen pair is a key whose count is at least that of every key, and strictly
   * larger than the count of every key inserted before it.
   */
  lemma BestPairMaximal(pairCounts: Table<Pair, int>)
    requires pairCounts != [] && DistinctKeys(pairCounts)
    ensures BestPair(pairCounts) in Keys(pairCounts)
    ensures forall q :: q in Keys(pairCounts) ==> Count(pairCounts, q) <= Count(pairCounts, BestPair(pairCounts))
    ensures forall j :: 0 <= j < IndexOf(pairCounts, BestPair(pairCounts)) ==>
              Count(pairCounts, pairCounts[j].0) < Count(pairCounts, BestPair(pairCounts))
  {
    var i := BestIndex(pairCounts);
    GetAt(pairCounts, i);
    forall q | q in Keys(pairCounts)
      ensures Count(pairCounts, q) <= Count(pairCounts, BestPair(pairCounts))
    {
      var j :| 0 <= j < |pairCounts| && pairCounts[j].0 == q;
      GetAt(pairCounts, j);
    }
    forall j | 0 <= j < IndexOf(pairCounts, BestPair(pairCounts))
      ensures Count(pairCounts, pairCounts[j].0) < Count(pairCounts, BestPair(pairCounts))
    {
      GetAt(pairCounts, j);
    }
  }

  // ---------------------------------------------------------------------------------
  // train

  /** The symbols of the table's keys: the token set train starts from. */
  function InitialTokens(tokenFreqs: Table<Word, int>): set<Token>
  {
    set i, j | 0 <= i < |tokenFreqs| && 0 <= j < |tokenFreqs[i].0| :: tokenFreqs[i].0[j]
  }

  lemma InitialTokensSnoc(tokenFreqs: Table<Word, int>, i: nat)
    requires i < |tokenFreqs|
    ensures InitialTokens(tokenFreqs[..i + 1]) ==
            InitialTokens(tokenFreqs[..i]) + set k | 0 <= k < |tokenFreqs[i].0| :: tokenFreqs[i].0[k]
  {
    var longer := tokenFreqs[..i + 1];
    var shorter := tokenFreqs[..i];
    forall t | t in InitialTokens(longer)
      ensures t in InitialTokens(shorter) + set k | 0 <= k < |tokenFreqs[i].0| :: tokenFreqs[i].0[k]
    {
      var a, b :| 0 <= a < |longer| && 0 <= b < |longer[a].0| && longer[a].0[b] == t;
      if a < i {
        assert shorter[a] == longer[a];
      }
    }
    forall t | t in InitialTokens(shorter)
      ensures t in InitialTokens(longer)
    {
      var a, b :| 0 <= a < |shorter| && 0 <= b < |shorter[a].0| && shorter[a].0[b] == t;
      assert longer[a] == shorter[a];
    }
    forall k | 0 <= k < |tokenFreqs[i].0|
      ensures tokenFreqs[i].0[k] in InitialTokens(longer)
    {
      assert longer[i] == tokenFreqs[i];
    }
  }

  /** The first loop of train: every symbol of every key, added to a set. */
  method CollectTokens(tokenFreqs: Table<Word, int>) returns (tokens: set<Token>)
    ensures tokens == InitialTokens(tokenFreqs)
  {
    tokens := {};
    for i := 0 to |tokenFreqs|
      invariant tokens == InitialTokens(tokenFreqs[..i])
    {
      var s := tokenFreqs[i].0;
      for j := 0 to |s|
        invariant tokens == InitialTokens(tokenFreqs[..i]) + set k | 0 <= k < j :: s[k]
      {
        tokens := tokens + {s[j]};
      }
      InitialTokensSnoc(tokenFreqs, i);
    }
    assert tokenFreqs[..|tokenFreqs|] == tokenFreqs;
  }

  /** The joined symbol of every merge rule. */
  function MergedTokens(merges: seq<Pair>): (r: seq<Token>)
    ensures |r| == |merges|
    ensures forall k :: 0 <= k < |r| ==> r[k] == merges[k].0 + merges[k].1
  {
    seq(|merges|, k requires 0 <= k < |merges| => merges[k].0 + merges[k].1)
  }

  /**
   * What train's loop produces: the final token set, the merges it learned in order, and the
   * frequency table before every round followed by the table it stopped on.
   */
  datatype Run = Run(tokens: set<Token>, merges: seq<Pair>, tables: seq<Table<Word, int>>)

  /** A round rewrites the table with a pair that occurs in it, so the table loses symbols. */
  lemma RoundShrinks(tokenFreqs: Table<Word, int>)
    requires CountPairsF(tokenFreqs) != []
    ensures Mass(RewriteF(tokenFreqs, BestPair(CountPairsF(tokenFreqs)))) < Mass(tokenFreqs)
  {
    var best := BestPair(CountPairsF(tokenFreqs));
    CountPairsCounts(tokenFreqs);
    assert best in Keys(CountPairsF(tokenFreqs));
    MassDecreases(tokenFreqs, best);
  }

  /** One round of train's loop, as seen from outside: the learned pair goes first, the rest follows. */
  lemma TrainFromRound(vocabSize: int, tokens: set<Token>, tokenFreqs: Table<Word, int>)
    requires |tokens| < vocabSize && CountPairsF(tokenFreqs) != []
    ensures var best := BestPair(CountPairsF(tokenFreqs));
            var rest := TrainFrom(vocabSize, tokens + {best.0 + best.1}, RewriteF(tokenFreqs, best));
            TrainFrom(vocabSize, tokens, tokenFreqs).merges == [best] + rest.merges &&
            TrainFrom(vocabSize, tokens, tokenFreqs).tables == [tokenFreqs] + rest.tables &&
            TrainFrom(vocabSize, tokens, tokenFreqs).tokens == rest.tokens
  {
  }

  /** When train's loop condition fails or no pair is left, the run learns nothing more. */
  lemma TrainFromDone(vocabSize: int, tokens: set<Token>, tokenFreqs: Table<Word, int>)
    requires |tokens| >= vocabSize || CountPairsF(tokenFreqs) == []
    ensures TrainFrom(vocabSize, tokens, tokenFreqs).merges == []
    ensures TrainFrom(vocabSize, tokens, tokenFreqs).tables == [tokenFreqs]
    ensures TrainFrom(vocabSize, tokens, tokenFreqs).tokens == tokens
  {
  }

  /** train's loop, from the token set and frequency table of the current round. */
  function TrainFrom(vocabSize: int, tokens: set<Token>, tokenFreqs: Table<Word, int>): (r: Run)
    ensures |r.tables| == |r.merges| + 1 && r.tables[0] == tokenFreqs
    decreases Mass(tokenFreqs)
  {
    if |tokens| >= vocabSize then Run(tokens, [], [tokenFreqs])
    else
      var pairCounts := CountPairsF(tokenFreqs);
      if pairCounts == [] then Run(tokens, [], [tokenFreqs])
      else
        var best := BestPair(pairCounts);
        RoundShrinks(tokenFreqs);
        var rest := TrainFrom(vocabSize, tokens + {best.0 + best.1}, RewriteF(tokenFreqs, best));
        Run(rest.tokens, [best] + rest.merges, [tokenFreqs] + rest.tables)
  }

  /** Round k of a run: there were pairs to count, max() picked merge k, and the table was rewritten with it. */
  ghost predicate Round(r: Run, k: nat)
    requires k < |r.merges| && |r.tables| == |r.merges| + 1
  {
    && CountPairsF(r.tables[k]) != []
    && r.merges[k] == BestPair(CountPairsF(r.tables[k]))
    && r.tables[k + 1] == RewriteF(r.tables[k], r.merges[k])
  }

  /** Every round of a run counted pairs, learned the pair max() picks and rewrote the table with it. */
  lemma {:induction false} TrainRounds(vocabSize: int, tokens: set<Token>, tokenFreqs: Table<Word, int>)
    ensures forall k :: 0 <= k < |TrainFrom(vocabSize, tokens, tokenFreqs).merges| ==>
              Round(TrainFrom(vocabSize, tokens, tokenFreqs), k)
    decreases Mass(tokenFreqs)
  {
    var r := TrainFrom(vocabSize, tokens, tokenFreqs);
    if |tokens| < vocabSize && CountPairsF(tokenFreqs) != [] {
      var best := BestPair(CountPairsF(tokenFreqs));
      RoundShrinks(tokenFreqs);
      TrainFromRound(vocabSize, tokens, tokenFreqs);
      var tokens', next := tokens + {best.0 + best.1}, RewriteF(tokenFreqs, best);
      var rest := TrainFrom(vocabSize, tokens', next);
      TrainRounds(vocabSize, tokens', next);
      assert Round(r, 0);
      forall k | 1 <= k < |r.merges|
        ensures Round(r, k)
      {
        RoundLater(r, rest, k);
      }
    } else {
      TrainFromDone(vocabSize, tokens, tokenFreqs);
    }
  }

  /** Round k - 1 of the rest of a run is round k of the whole run. */
  lemma RoundLater(r: Run, rest: Run, k: nat)
    requires |r.tables| == |r.merges| + 1 && |rest.tables| == |rest.merges| + 1
    requires 1 <= k < |r.merges| && r.merges[1..] == rest.merges && r.tables[1..] == rest.tables
    requires Round(rest, k - 1)
    ensures Round(r, k)
  {
    assert r.merges[k] == rest.merges[k - 1];
    assert r.tables[k] == rest.tables[k - 1] && r.tables[k + 1] == rest.tables[k];
  }

  /** A run's final token set is the start set plus the joined symbol of every merge it learned. */
  lemma {:induction false} TrainTokens(vocabSize: int, tokens: set<Token>, tokenFreqs: Table<Word, int>)
    ensures forall t :: t in TrainFrom(vocabSize, tokens, tokenFreqs).tokens <==>
              t in tokens || t in MergedTokens(TrainFrom(vocabSize, tokens, tokenFreqs).merges)
    decreases Mass(tokenFreqs)
  {
    if |tokens| < vocabSize && CountPairsF(tokenFreqs) != [] {
      var best := BestPair(CountPairsF(tokenFreqs));
      RoundShrinks(tokenFreqs);
      TrainFromRound(vocabSize, tokens, tokenFreqs);
      var tokens', next := tokens + {best.0 + best.1}, RewriteF(tokenFreqs, best);
      TrainTokens(vocabSize, tokens', next);
      MergedTokensCons(best, TrainFrom(vocabSize, tokens', next).merges);
    } else {
      TrainFromDone(vocabSize, tokens, tokenFreqs);
    }
  }

  /** The joined symbols of [p] + ms are p's joined symbol followed by those of ms. */
  lemma MergedTokensCons(p: Pair, ms: seq<Pair>)
    ensures forall t :: t in MergedTokens([p] + ms) <==> t == p.0 + p.1 || t in MergedTokens(ms)
  {
    var all := MergedTokens([p] + ms);
    assert all == [p.0 + p.1] + MergedTokens(ms);
  }

  /** A run stops only when its token set has reached vocab_size or its last table has no pair left. */
  lemma {:induction false} TrainStops(vocabSize: int, tokens: set<Token>, tokenFreqs: Table<Word, int>)
    ensures var r := TrainFrom(vocabSize, tokens, tokenFreqs);
            |r.tokens| >= vocabSize || CountPairsF(r.tables[|r.merges|]) == []
    decreases Mass(tokenFreqs)
  {
    if |tokens| < vocabSize && CountPairsF(tokenFreqs) != [] {
      var best := BestPair(CountPairsF(tokenFreqs));
      RoundShrinks(tokenFreqs);
      TrainFromRound(vocabSize, tokens, tokenFreqs);
      var tokens', next := tokens + {best.0 + best.1}, RewriteF(tokenFreqs, best);
      var rest := TrainFrom(vocabSize, tokens', next);
      TrainStops(vocabSize, tokens', next);
      LastOfCons(tokenFreqs, rest.tables);
    } else {
      TrainFromDone(vocabSize, tokens, tokenFreqs);
    }
  }

  /** The token set when round k of a run begins: the start set plus the joined symbols of the first k merges. */
  ghost function TokensBefore(tokens: set<Token>, merges: seq<Pair>, k: nat): set<Token>
    requires k <= |merges|
  {
    tokens + set t | t in MergedTokens(merges[..k])
  }

  /** Every round of a run began with fewer than vocab_size symbols: train never goes past its target. */
  lemma {:induction false} TrainBelowTarget(vocabSize: int, tokens: set<Token>, tokenFreqs: Table<Word, int>)
    ensures var r := TrainFrom(vocabSize, tokens, tokenFreqs);
            forall k :: 0 <= k < |r.merges| ==> |TokensBefore(tokens, r.merges, k)| < vocabSize
    decreases Mass(tokenFreqs)
  {
    var r := TrainFrom(vocabSize, tokens, tokenFreqs);
    if |tokens| < vocabSize && CountPairsF(tokenFreqs) != [] {
      var best := BestPair(CountPairsF(tokenFreqs));
      RoundShrinks(tokenFreqs);
      TrainFromRound(vocabSize, tokens, tokenFreqs);
      var tokens', next := tokens + {best.0 + best.1}, RewriteF(tokenFreqs, best);
      var rest := TrainFrom(vocabSize, tokens', next);
      TrainBelowTarget(vocabSize, tokens', next);
      forall k | 0 <= k < |r.merges|
        ensures |TokensBefore(tokens, r.merges, k)| < vocabSize
      {
        if k == 0 {
          assert TokensBefore(tokens, r.merges, k) == tokens;
        } else {
          assert r.merges[..k] == [best] + rest.merges[..k - 1];
          MergedTokensCons(best, rest.merges[..k - 1]);
          assert TokensBefore(tokens, r.merges, k) == TokensBefore(tokens', rest.merges, k - 1);
        }
      }
    } else {
      TrainFromDone(vocabSize, tokens, tokenFreqs);
    }
  }

  /** A run that starts below vocab_size ends with at most vocab_size symbols: each round adds at most one. */
  lemma {:induction false} TrainWithinTarget(vocabSize: int, tokens: set<Token>, tokenFreqs: Table<Word, int>)
    requires |tokens| < vocabSize
    ensures |TrainFrom(vocabSize, tokens, tokenFreqs).tokens| <= vocabSize
    decreases Mass(tokenFreqs)
  {
    if CountPairsF(tokenFreqs) != [] {
      var best := BestPair(CountPairsF(tokenFreqs));
      RoundShrinks(tokenFreqs);
      TrainFromRound(vocabSize, tokens, tokenFreqs);
      var tokens', next := tokens + {best.0 + best.1}, RewriteF(tokenFreqs, best);
      assert |tokens'| <= |tokens| + 1;
      if |tokens'| < vocabSize {
        TrainWithinTarget(vocabSize, tokens', next);
      } else {
        TrainFromDone(vocabSize, tokens', next);
      }
    } else {
      TrainFromDone(vocabSize, tokens, tokenFreqs);
    }
  }

  /** The last element of [x] + s is the last element of s. */
  lemma LastOfCons<T>(x: T, s: seq<T>)
    requires s != []
    ensures ([x] + s)[|s|] == s[|s| - 1]
  {
  }

  /**
   * Every pair a run learns occurred in its round's table and had, in that round, a count at
   * least that of every pair, and strictly larger than that of every pair counted before it.
   */
  lemma TrainMaximal(vocabSize: int, tokens: set<Token>, tokenFreqs: Table<Word, int>, k: nat)
    requires k < |TrainFrom(vocabSize, tokens, tokenFreqs).merges|
    ensures var r := TrainFrom(vocabSize, tokens, tokenFreqs);
            var counts := CountPairsF(r.tables[k]);
            && Occurs(r.tables[k], r.merges[k])
            && r.merges[k] in Keys(counts)
            && (forall q :: Count(counts, q) > Count(counts, r.merges[k]) ==> q !in Keys(counts))
            && (forall j :: 0 <= j < IndexOf(counts, r.merges[k]) ==> Count(counts, counts[j].0) < Count(counts, r.merges[k]))
  {
    TrainRounds(vocabSize, tokens, tokenFreqs);
    var r := TrainFrom(vocabSize, tokens, tokenFreqs);
    assert Round(r, k);
    CountPairsCounts(r.tables[k]);
    BestPairMaximal(CountPairsF(r.tables[k]));
  }

  /** Every table of a run has the total frequency of the table it started from. */
  lemma {:induction false} TrainTotals(vocabSize: int, tokens: set<Token>, tokenFreqs: Table<Word, int>)
    ensures var r := TrainFrom(vocabSize, tokens, tokenFreqs);
            forall k :: 0 <= k < |r.tables| ==> Total(r.tables[k]) == Total(tokenFreqs)
    decreases Mass(tokenFreqs)
  {
    if |tokens| < vocabSize && CountPairsF(tokenFreqs) != [] {
      var best := BestPair(CountPairsF(tokenFreqs));
      RoundShrinks(tokenFreqs);
      TrainFromRound(vocabSize, tokens, tokenFreqs);
      var tokens', next := tokens + {best.0 + best.1}, RewriteF(tokenFreqs, best);
      TrainTotals(vocabSize, tokens', next);
      RewriteCounts(tokenFreqs, best);
      TotalsCons(tokenFreqs, TrainFrom(vocabSize, tokens', next).tables);
    } else {
      TrainFromDone(vocabSize, tokens, tokenFreqs);
    }
  }

  /** If every table of ts has the total of t, so has every table of [t] + ts. */
  lemma TotalsCons(t: Table<Word, int>, ts: seq<Table<Word, int>>)
    requires forall k :: 0 <= k < |ts| ==> Total(ts[k]) == Total(t)
    ensures forall k :: 0 <= k < |[t] + ts| ==> Total(([t] + ts)[k]) == Total(t)
  {
  }

  // ---------------------------------------------------------------------------------
  // _build_vocab

  /** The single-byte tokens [b] of the set with b < n, in ascending byte order. */
  function ByteTokensBelow(tokens: set<Token>, n: nat): (r: seq<Token>)
    requires n <= 256
    ensures forall t :: t in r <==> t in tokens && |t| == 1 && t[0] < n
    ensures forall i :: 0 <= i < |r| ==> |r[i]| == 1
    ensures forall i, j :: 0 <= i < j < |r| ==> r[i][0] < r[j][0]
  {
    if n == 0 then []
    else
      var below := ByteTokensBelow(tokens, n - 1);
      var b: Byte := n - 1;
      assert forall t: Token :: |t| == 1 && t[0] == b ==> t == [b];
      if [b] in tokens then
        var r := below + [[b]];
        assert r[|below|] == [b] && forall i :: 0 <= i < |below| ==> r[i] == below[i];
        r
      else below
  }

  /** sorted([v for v in vocab if len(v) == 1]) */
  function ByteTokens(tokens: set<Token>): (r: seq<Token>)
    ensures forall t :: t in r <==> t in tokens && |t| == 1
    ensures forall i :: 0 <= i < |r| ==> |r[i]| == 1
    ensures forall i, j :: 0 <= i < j < |r| ==> r[i][0] < r[j][0]
  {
    ByteTokensBelow(tokens, 256)
  }

  /** for tok in toks: vocab[tok] = idx; idx += 1 */
  function AssignIds(m: map<Token, int>, toks: seq<Token>, idx: int): (map<Token, int>, int)
    decreases |toks|
  {
    if toks == [] then (m, idx) else AssignIds(m[toks[0] := idx], toks[1..], idx + 1)
  }

  /** for tok in toks: if tok not in vocab: vocab[tok] = idx; idx += 1 */
  function AssignNewIds(m: map<Token, int>, toks: seq<Token>, idx: int): (map<Token, int>, int)
    decreases |toks|
  {
    if toks == [] then (m, idx)
    else if toks[0] in m then AssignNewIds(m, toks[1..], idx)
    else AssignNewIds(m[toks[0] := idx], toks[1..], idx + 1)
  }

  /** The vocab _build_vocab leaves, starting from vocab m0, for token set tokens and the merges. */
  function BuildVocabF(m0: map<Token, int>, tokens: set<Token>, merges: seq<Pair>): map<Token, int>
  {
    var bytes := AssignIds(m0, ByteTokens(tokens), 0);
    AssignNewIds(bytes.0, MergedTokens(merges), bytes.1).0
  }

  /** The tokens of toks not in seen, each once, in the order of their first appearance. */
  function FirstAppearances(toks: seq<Token>, seen: set<Token>): (r: seq<Token>)
    ensures forall i :: 0 <= i < |r| ==> r[i] in toks && r[i] !in seen
  {
    if toks == [] then []
    else if toks[0] in seen then FirstAppearances(toks[1..], seen)
    else [toks[0]] + FirstAppearances(toks[1..], seen + {toks[0]})
  }

  /** The position of the first occurrence of t. */
  function FirstIndex(toks: seq<Token>, t: Token): (i: nat)
    requires t in toks
    ensures i < |toks| && toks[i] == t
    ensures forall j :: 0 <= j < i ==> toks[j] != t
  {
    if toks[0] == t then 0 else 1 + FirstIndex(toks[1..], t)
  }

  /** FirstAppearances lists exactly the tokens of toks outside seen. */
  lemma {:induction false} FirstAppearancesMembers(toks: seq<Token>, seen: set<Token>)
    ensures forall t :: t in FirstAppearances(toks, seen) <==> t in toks && t !in seen
  {
    if toks != [] {
      var seen' := if toks[0] in seen then seen else seen + {toks[0]};
      FirstAppearancesMembers(toks[1..], seen');
      assert toks == [toks[0]] + toks[1..];
    }
  }

  /** FirstAppearances lists its tokens ordered by where each first occurs in toks, so without repeats. */
  lemma {:induction false} FirstAppearancesOrder(toks: seq<Token>, seen: set<Token>)
    ensures forall i, j :: 0 <= i < j < |FirstAppearances(toks, seen)| ==>
              FirstIndex(toks, FirstAppearances(toks, seen)[i]) < FirstIndex(toks, FirstAppearances(toks, seen)[j])
  {
    FirstAppearancesMembers(toks, seen);
    if toks != [] {
      var t0 := toks[0];
      var seen' := if t0 in seen then seen else seen + {t0};
      var rest := FirstAppearances(toks[1..], seen');
      FirstAppearancesOrder(toks[1..], seen');
      FirstAppearancesMembers(toks[1..], seen');
      forall x | x in rest
        ensures FirstIndex(toks, x) == 1 + FirstIndex(toks[1..], x)
      {
        assert x != t0;
      }
      var r := FirstAppearances(toks, seen);
      if t0 !in seen {
        assert r == [t0] + rest;
        forall i, j | 0 <= i < j < |r|
          ensures FirstIndex(toks, r[i]) < FirstIndex(toks, r[j])
        {
          assert r[j] == rest[j - 1];
          if i > 0 {
            assert r[i] == rest[i - 1];
          }
        }
      }
    }
  }

  /** m numbers the tokens of order by their positions: order[i] has id i, and m has no other key. */
  ghost predicate IdsAre(m: map<Token, int>, order: seq<Token>)
  {
    && (forall t :: t in m <==> t in order)
    && (forall i :: 0 <= i < |order| ==> m[order[i]] == i)
  }

  /** Giving a new token the next id extends the numbering by that token. */
  lemma IdsAreSnoc(m: map<Token, int>, order: seq<Token>, t: Token)
    requires IdsAre(m, order) && t !in m
    ensures IdsAre(m[t := |order|], order + [t])
  {
    var m', order' := m[t := |order|], order + [t];
    forall i | 0 <= i < |order'| ensures m'[order'[i]] == i {
      if i < |order| {
        assert order'[i] == order[i] && order[i] in order;
      }
    }
  }

  lemma {:induction false} AssignIdsExtends(m: map<Token, int>, order: seq<Token>, toks: seq<Token>)
    requires IdsAre(m, order)
    requires forall i, j :: 0 <= i < j < |toks| ==> toks[i] != toks[j]
    requires forall t :: t in toks ==> t !in order
    ensures AssignIds(m, toks, |order|).1 == |order| + |toks|
    ensures IdsAre(AssignIds(m, toks, |order|).0, order + toks)
    decreases |toks|
  {
    if toks == [] {
      assert order + toks == order;
    } else {
      var m' := m[toks[0] := |order|];
      var order' := order + [toks[0]];
      IdsAreSnoc(m, order, toks[0]);
      forall t | t in toks[1..] ensures t !in order' {
        var j :| 1 <= j < |toks| && toks[j] == t;
      }
      AssignIdsExtends(m', order', toks[1..]);
      assert AssignIds(m, toks, |order|) == AssignIds(m', toks[1..], |order'|);
      assert order' + toks[1..] == order + toks;
    }
  }

  /** The ids handed out by the second loop of _build_vocab: one per first appearance of a token not yet numbered. */
  lemma {:induction false} AssignNewIdsCount(m: map<Token, int>, toks: seq<Token>, seen: set<Token>, idx: int)
    requires forall t :: t in seen <==> t in m
    ensures AssignNewIds(m, toks, idx).1 == idx + |FirstAppearances(toks, seen)|
    decreases |toks|
  {
    if toks != [] {
      if toks[0] in m {
        AssignNewIdsCount(m, toks[1..], seen, idx);
      } else {
        AssignNewIdsCount(m[toks[0] := idx], toks[1..], seen + {toks[0]}, idx + 1);
      }
    }
  }

  lemma {:induction false} AssignNewIdsExtends(m: map<Token, int>, order: seq<Token>, toks: seq<Token>, seen: set<Token>)
    requires IdsAre(m, order)
    requires forall t :: t in seen <==> t in order
    ensures IdsAre(AssignNewIds(m, toks, |order|).0, order + FirstAppearances(toks, seen))
    decreases |toks|
  {
    if toks == [] {
      assert order + [] == order;
    } else if toks[0] in m {
      AssignNewIdsExtends(m, order, toks[1..], seen);
    } else {
      var m' := m[toks[0] := |order|];
      var order' := order + [toks[0]];
      IdsAreSnoc(m, order, toks[0]);
      AssignNewIdsExtends(m', order', toks[1..], seen + {toks[0]});
      assert AssignNewIds(m, toks, |order|) == AssignNewIds(m', toks[1..], |order'|);
      assert FirstAppearances(toks, seen) == [toks[0]] + FirstAppearances(toks[1..], seen + {toks[0]});
      assert order' + FirstAppearances(toks[1..], seen + {toks[0]}) == order + FirstAppearances(toks, seen);
    }
  }

  /**
   * From an empty vocab, _build_vocab numbers the tokens 0, 1, 2, ... along one list without
   * repeats: the set's single bytes in ascending order, then the joined symbols of the merges
   * that are not among them, in the order they first appear in the merges. So the ids are
   * exactly 0..N-1, each used once.
   */
  lemma BuildVocabDense(tokens: set<Token>, merges: seq<Pair>)
    ensures var order := ByteTokens(tokens) + FirstAppearances(MergedTokens(merges), set t | t in ByteTokens(tokens));
            IdsAre(BuildVocabF(map[], tokens, merges), order)
            && (forall i, j :: 0 <= i < j < |order| ==> order[i] != order[j])
  {
    var bytes := ByteTokens(tokens);
    var empty: seq<Token> := [];
    assert IdsAre(map[], empty);
    forall i, j | 0 <= i < j < |bytes| ensures bytes[i] != bytes[j] {
      assert bytes[i][0] < bytes[j][0];
    }
    AssignIdsExtends(map[], empty, bytes);
    assert empty + bytes == bytes;
    var first := AssignIds(map[], bytes, 0);
    assert first.1 == |bytes|;
    var seen := set t | t in bytes;
    AssignNewIdsExtends(first.0, bytes, MergedTokens(merges), seen);
    var order := bytes + FirstAppearances(MergedTokens(merges), seen);
    assert BuildVocabF(map[], tokens, merges) == AssignNewIds(first.0, MergedTokens(merges), |bytes|).0;
    IdsAreDistinct(BuildVocabF(map[], tokens, merges), order);
  }

  /** A numbering by position has no token twice. */
  lemma IdsAreDistinct(m: map<Token, int>, order: seq<Token>)
    requires IdsAre(m, order)
    ensures forall i, j :: 0 <= i < j < |order| ==> order[i] != order[j]
  {
    forall i, j | 0 <= i < j < |order| ensures order[i] != order[j] {
      assert m[order[i]] == i && m[order[j]] == j;
    }
  }

  /** A trainer's state: the target token-set size, the learned merges and the token-to-id vocab. */
  class BPETrainer {
    const vocabSize: int
    var merges: seq<Pair>
    var vocab: map<Token, int>

    constructor (vocabSize: int)
      ensures this.vocabSize == vocabSize && merges == [] && vocab == map[]
    {
      this.vocabSize := vocabSize;
      merges := [];
      vocab := map[];
    }

    /**
     * train(token_freqs): learn merges until the token set reaches vocab_size or no pair is
     * left, append them to merges, then build the vocab.
     */
    method Train(tokenFreqs: Table<Word, int>) returns (learned: seq<Pair>, ids: map<Token, int>)
      modifies this
      ensures var run := TrainFrom(vocabSize, InitialTokens(tokenFreqs), tokenFreqs);
              merges == old(merges) + run.merges && vocab == BuildVocabF(old(vocab), run.tokens, merges)
      ensures learned == merges && ids == vocab
    {
      var tokens := CollectTokens(tokenFreqs);
      ghost var run := TrainFrom(vocabSize, tokens, tokenFreqs);
      var freqs := tokenFreqs;
      while |tokens| < vocabSize
        invariant vocab == old(vocab)
        invariant merges + TrainFrom(vocabSize, tokens, freqs).merges == old(merges) + run.merges
        invariant TrainFrom(vocabSize, tokens, freqs).tokens == run.tokens
        decreases Mass(freqs)
      {
        var pairCounts := CountPairs(freqs);
        if pairCounts == [] {
          TrainFromDone(vocabSize, tokens, freqs);
          break;
        }
        var bestPair := pairCounts[BestIndex(pairCounts)].0;
        RoundShrinks(freqs);
        TrainFromRound(vocabSize, tokens, freqs);
        ghost var later := TrainFrom(vocabSize, tokens + {bestPair.0 + bestPair.1}, RewriteF(freqs, bestPair)).merges;
        assert merges + ([bestPair] + later) == (merges + [bestPair]) + later;
        merges := merges + [bestPair];
        var mergedToken := bestPair.0 + bestPair.1;
        tokens := tokens + {mergedToken};
        freqs := RewriteAll(freqs, bestPair);
      }
      if |tokens| >= vocabSize {
        TrainFromDone(vocabSize, tokens, freqs);
      }
      BuildVocab(tokens);
      learned, ids := merges, vocab;
    }

    /** _build_vocab(vocab): single bytes first in ascending order, then new joined symbols in merge order. */
    method BuildVocab(tokens: set<Token>)
      modifies this
      ensures merges == old(merges)
      ensures vocab == BuildVocabF(old(vocab), tokens, merges)
    {
      var byteTokens := ByteTokens(tokens);
      var idx := 0;
      for t := 0 to |byteTokens|
        invariant idx == t && merges == old(merges)
        invariant AssignIds(vocab, byteTokens[t..], idx) == AssignIds(old(vocab), byteTokens, 0)
      {
        assert byteTokens[t..][1..] == byteTokens[t + 1..];
        vocab := vocab[byteTokens[t] := idx];
        idx := idx + 1;
      }
      ghost var mergedTokens := MergedTokens(merges);
      ghost var afterBytes := AssignIds(old(vocab), byteTokens, 0);
      assert afterBytes == (vocab, idx);
      for k := 0 to |merges|
        invariant merges == old(merges)
        invariant AssignNewIds(vocab, mergedTokens[k..], idx) == AssignNewIds(afterBytes.0, mergedTokens, afterBytes.1)
      {
        var (a, b) := merges[k];
        var tok := a + b;
        assert mergedTokens[k..][0] == tok && mergedTokens[k..][1..] == mergedTokens[k + 1..];
        if tok !in vocab {
          vocab := vocab[tok := idx];
          idx := idx + 1;
        }
      }
    }
  }
}
