/**
 * The rank-driven encoder of cs336_basics/recursive_bpe_tokenizer.py.
 *
 * Each pre-token is split into its UTF-8 bytes and then, round after round, the adjacent
 * pair with the smallest merge rank is joined (the leftmost one when several share that
 * rank), until no adjacent pair is a merge rule. Every final symbol is looked up in the
 * vocab, which fails on the first symbol it does not hold.
 */
module RecursiveTokenizer {
  import opened Results
  import opened Symbols
  import opened Pretokenization

  /** The positions i, ascending, whose pair (s[i], s[i + 1]) is a merge rule, among the first n. */
  function CandidatesBelow(rank: map<Pair, nat>, s: seq<Token>, n: nat): (r: seq<nat>)
    requires n < |s|
    ensures forall x :: x in r ==> x < n
    ensures forall i :: 0 <= i < n ==> (i in r <==> (s[i], s[i + 1]) in rank)
    ensures forall a, b :: 0 <= a < b < |r| ==> r[a] < r[b]
  {
    if n == 0 then []
    else
      var prev := CandidatesBelow(rank, s, n - 1);
      if (s[n - 1], s[n]) in rank then
        var r := prev + [n - 1];
        assert forall a :: 0 <= a < |prev| ==> prev[a] in prev;
        r
      else prev
  }

  /** merge_candidates: every position whose pair is a merge rule, in position order. */
  function Candidates(rank: map<Pair, nat>, s: seq<Token>): (r: seq<nat>)
    ensures forall x :: x in r ==> x + 1 < |s|
    ensures forall i :: 0 <= i < |s| - 1 ==> (i in r <==> (s[i], s[i + 1]) in rank)
    ensures forall a, b :: 0 <= a < b < |r| ==> r[a] < r[b]
  {
    if s == [] then [] else CandidatesBelow(rank, s, |s| - 1)
  }

  /** All the positions in c hold a pair that is a merge rule. */
  ghost predicate Ranked(rank: map<Pair, nat>, s: seq<Token>, c: seq<nat>)
  {
    forall k :: 0 <= k < |c| ==> c[k] + 1 < |s| && (s[c[k]], s[c[k] + 1]) in rank
  }

  /** Position i holds a pair that is a merge rule. */
  ghost predicate RulePair(rank: map<Pair, nat>, s: seq<Token>, i: int)
  {
    0 <= i < |s| - 1 && (s[i], s[i + 1]) in rank
  }

  /** The rank of the pair at position i. */
  function RankAt(rank: map<Pair, nat>, s: seq<Token>, i: nat): nat
    requires i + 1 < |s| && (s[i], s[i + 1]) in rank
  {
    rank[(s[i], s[i + 1])]
  }

  /**
   * min(merge_candidates, key=rank): the index in c of the first candidate whose rank is
   * the smallest; every candidate before it has a larger rank.
   */
  function MinIndex(rank: map<Pair, nat>, s: seq<Token>, c: seq<nat>): (k: nat)
    requires c != [] && Ranked(rank, s, c)
    ensures k < |c|
    ensures forall j :: 0 <= j < |c| ==> RankAt(rank, s, c[k]) <= RankAt(rank, s, c[j])
    ensures forall j :: 0 <= j < k ==> RankAt(rank, s, c[k]) < RankAt(rank, s, c[j])
  {
    var n := |c| - 1;
    if n == 0 then 0
    else
      assert Ranked(rank, s, c[..n]) by {
        forall k | 0 <= k < n ensures c[..n][k] == c[k] { }
      }
      var m := MinIndex(rank, s, c[..n]);
      assert forall j :: 0 <= j < n ==> c[..n][j] == c[j];
      if RankAt(rank, s, c[n]) < RankAt(rank, s, c[m]) then n else m
  }

  /**
   * The position one round of _merge_sequence joins: None when no adjacent pair is a merge
   * rule; otherwise a position whose pair has the smallest rank of all adjacent pairs and
   * whose every earlier ranked pair has a larger rank.
   */
  function Choose(rank: map<Pair, nat>, s: seq<Token>): (r: Option<nat>)
    ensures r.None? <==> forall i :: 0 <= i < |s| - 1 ==> (s[i], s[i + 1]) !in rank
    ensures r.Some? ==> r.value + 1 < |s| && (s[r.value], s[r.value + 1]) in rank
    ensures r.Some? ==> forall j :: 0 <= j < |s| - 1 && (s[j], s[j + 1]) in rank ==>
              RankAt(rank, s, r.value) <= RankAt(rank, s, j) && (j < r.value ==> RankAt(rank, s, r.value) < RankAt(rank, s, j))
  {
    var c := Candidates(rank, s);
    if c == [] then
      NoCandidates(rank, s);
      None
    else
      CandidatesRanked(rank, s);
      var k := MinIndex(rank, s, c);
      BestCandidate(rank, s, c, k);
      Some(c[k])
  }

  lemma NoCandidates(rank: map<Pair, nat>, s: seq<Token>)
    requires Candidates(rank, s) == []
    ensures forall i :: 0 <= i < |s| - 1 ==> (s[i], s[i + 1]) !in rank
  {
    forall i | 0 <= i < |s| - 1 ensures (s[i], s[i + 1]) !in rank {
      assert i !in Candidates(rank, s);
    }
  }

  lemma CandidatesRanked(rank: map<Pair, nat>, s: seq<Token>)
    ensures Ranked(rank, s, Candidates(rank, s))
  {
    var c := Candidates(rank, s);
    forall k | 0 <= k < |c| ensures c[k] + 1 < |s| && (s[c[k]], s[c[k] + 1]) in rank {
      assert c[k] in c;
    }
  }

  /** The first candidate of smallest rank beats every ranked pair, and strictly every earlier one. */
  lemma BestCandidate(rank: map<Pair, nat>, s: seq<Token>, c: seq<nat>, k: nat)
    requires c != [] && Ranked(rank, s, c)
    requires forall i :: RulePair(rank, s, i) ==> i in c
    requires forall a, b :: 0 <= a < b < |c| ==> c[a] < c[b]
    requires k == MinIndex(rank, s, c)
    ensures forall j :: 0 <= j < |s| - 1 && (s[j], s[j + 1]) in rank ==>
              RankAt(rank, s, c[k]) <= RankAt(rank, s, j) && (j < c[k] ==> RankAt(rank, s, c[k]) < RankAt(rank, s, j))
  {
    forall j | 0 <= j < |s| - 1 && (s[j], s[j + 1]) in rank
      ensures RankAt(rank, s, c[k]) <= RankAt(rank, s, j) && (j < c[k] ==> RankAt(rank, s, c[k]) < RankAt(rank, s, j))
    {
      assert RulePair(rank, s, j);
      var kj :| 0 <= kj < |c| && c[kj] == j;
      if j < c[k] {
        assert kj < k;
      }
    }
  }

  /** seq[:i] + [seq[i] + seq[i + 1]] + seq[i + 2:] */
  function Join(s: seq<Token>, i: nat): (r: seq<Token>)
    requires i + 1 < |s|
    ensures |r| == |s| - 1
    ensures Flatten(r) == Flatten(s)
    ensures forall j :: 0 <= j < i ==> r[j] == s[j]
    ensures r[i] == s[i] + s[i + 1]
    ensures forall j :: i < j < |r| ==> r[j] == s[j + 1]
  {
    FlattenJoin(s, i);
    s[..i] + [s[i] + s[i + 1]] + s[i + 2..]
  }

  /** _merge_sequence(seq): join the chosen pair until no adjacent pair is a merge rule. */
  function MergeSequenceF(rank: map<Pair, nat>, s: seq<Token>): seq<Token>
    decreases |s|
  {
    if |s| <= 1 then s
    else
      match Choose(rank, s)
      case None => s
      case Some(i) => MergeSequenceF(rank, Join(s, i))
  }

  /** Sequences of zero or one symbol come back unchanged. */
  lemma MergeSequenceSmall(rank: map<Pair, nat>, s: seq<Token>)
    requires |s| <= 1
    ensures MergeSequenceF(rank, s) == s
  {
  }

  /**
   * Merging keeps the bytes, never lengthens the sequence, and ends with no adjacent pair
   * that is a merge rule.
   */
  lemma {:induction false} MergeSequenceDone(rank: map<Pair, nat>, s: seq<Token>)
    ensures var r := MergeSequenceF(rank, s);
            Flatten(r) == Flatten(s) && |r| <= |s| &&
            forall i :: 0 <= i < |r| - 1 ==> (r[i], r[i + 1]) !in rank
    decreases |s|
  {
    if |s| > 1 {
      match Choose(rank, s)
      case None =>
      case Some(i) => MergeSequenceDone(rank, Join(s, i));
    }
  }

  /** The merged symbols of every pre-token, each merged on its own. */
  function Words(rank: map<Pair, nat>, pretokens: seq<string>): seq<seq<Token>>
  {
    seq(|pretokens|, i requires 0 <= i < |pretokens| => MergeSequenceF(rank, WordToByteTuple(pretokens[i])))
  }

  /** The lists of a list joined end to end: ''.join for strings, sum of lists for symbols. */
  function Joined<T>(parts: seq<seq<T>>): seq<T>
  {
    if parts == [] then [] else Joined(parts[..|parts| - 1]) + parts[|parts| - 1]
  }

  lemma {:induction false} JoinedAppend<T>(a: seq<seq<T>>, b: seq<seq<T>>)
    ensures Joined(a + b) == Joined(a) + Joined(b)
    decreases |b|
  {
    if b == [] {
      assert a + b == a;
    } else {
      var n := |b| - 1;
      assert (a + b)[..|a + b| - 1] == a + b[..n] && (a + b)[|a + b| - 1] == b[n];
      JoinedAppend(a, b[..n]);
    }
  }

  /** The symbols encode looks up: those of every pre-token in turn. */
  function Pieces(rank: map<Pair, nat>, pretokens: seq<string>): seq<Token>
  {
    Joined(Words(rank, pretokens))
  }

  lemma JoinedSnoc<T>(parts: seq<seq<T>>, k: nat)
    requires k < |parts|
    ensures Joined(parts[..k + 1]) == Joined(parts[..k]) + parts[k]
  {
    assert parts[..k + 1][..k] == parts[..k];
  }

  /** The pieces spell out the UTF-8 bytes of the pre-tokens, with no more symbols than bytes. */
  lemma {:induction false} PiecesFlatten(rank: map<Pair, nat>, pretokens: seq<string>)
    ensures Flatten(Pieces(rank, pretokens)) == Utf8(Joined(pretokens))
    ensures |Pieces(rank, pretokens)| <= |Utf8(Joined(pretokens))|
  {
    if pretokens != [] {
      var n := |pretokens| - 1;
      var w := Words(rank, pretokens);
      assert Words(rank, pretokens[..n]) == w[..n];
      PiecesFlatten(rank, pretokens[..n]);
      MergeSequenceDone(rank, WordToByteTuple(pretokens[n]));
      FlattenAppend(Joined(w[..n]), w[n]);
      Utf8Append(Joined(pretokens[..n]), pretokens[n]);
    }
  }

  /** Looking up one more symbol after a prefix whose symbols are all known. */
  lemma LookupSnoc(m: map<Token, int>, toks: seq<Token>, t: Token, ids: seq<int>)
    requires LookupAll(m, toks) == Ok(ids)
    ensures LookupAll(m, toks + [t]) == if t in m then Ok(ids + [m[t]]) else Err(MissingToken(t))
  {
    var r := LookupAll(m, toks + [t]);
    assert (toks + [t])[|toks|] == t;
    assert forall i :: 0 <= i < |toks| ==> (toks + [t])[i] == toks[i];
    if t in m {
      assert r.Ok?;
      assert r.value == ids + [m[t]];
    }
  }

  /** Once a prefix hits an unknown symbol, so does every longer list, with the same error. */
  lemma {:induction false} LookupPrefixError(m: map<Token, int>, toks: seq<Token>, longer: seq<Token>)
    requires toks <= longer && LookupAll(m, toks).Err?
    ensures LookupAll(m, longer) == LookupAll(m, toks)
  {
    assert toks != [];
    assert longer[0] == toks[0];
    if toks[0] in m {
      assert toks[1..] <= longer[1..];
      LookupPrefixError(m, toks[1..], longer[1..]);
    }
  }

  /** A missing symbol in the first k words, followed by the first j symbols of word k, is the error of the whole lookup. */
  lemma MissingStops(m: map<Token, int>, words: seq<seq<Token>>, k: nat, j: nat)
    requires k < |words| && j <= |words[k]|
    requires LookupAll(m, Joined(words[..k]) + words[k][..j]).Err?
    ensures LookupAll(m, Joined(words)) == LookupAll(m, Joined(words[..k]) + words[k][..j])
  {
    var done := Joined(words[..k]);
    assert words[..k + 1][..k] == words[..k];
    assert words == words[..k + 1] + words[k + 1..];
    JoinedAppend(words[..k + 1], words[k + 1..]);
    assert Joined(words) == (done + words[k][..j]) + (words[k][j..] + Joined(words[k + 1..]));
    LookupPrefixError(m, done + words[k][..j], Joined(words));
  }

  /** The ids of the first j symbols of word, in order, after the ids of the symbols done. */
  ghost predicate LookedUp(m: map<Token, int>, done: seq<Token>, word: seq<Token>, j: nat, ids: seq<int>)
  {
    j <= |word| && LookupAll(m, done).Ok? && |ids| == |done| + j &&
    ids[..|done|] == LookupAll(m, done).value &&
    forall i :: 0 <= i < j ==> word[i] in m && ids[|done| + i] == m[word[i]]
  }

  lemma LookedUpStart(m: map<Token, int>, done: seq<Token>, word: seq<Token>, ids: seq<int>)
    requires LookupAll(m, done) == Ok(ids)
    ensures LookedUp(m, done, word, 0, ids)
  {
    assert ids[..|done|] == ids;
  }

  lemma LookedUpStep(m: map<Token, int>, done: seq<Token>, word: seq<Token>, j: nat, ids: seq<int>)
    requires j < |word| && LookedUp(m, done, word, j, ids) && word[j] in m
    ensures LookedUp(m, done, word, j + 1, ids + [m[word[j]]])
  {
    var next := ids + [m[word[j]]];
    assert next[..|done|] == ids[..|done|];
    forall i | 0 <= i < j + 1 ensures word[i] in m && next[|done| + i] == m[word[i]] {
      if i < j {
        assert next[|done| + i] == ids[|done| + i];
      }
    }
  }

  /** Once every symbol of word is looked up, the ids are those of done + word. */
  lemma LookedUpAll(m: map<Token, int>, done: seq<Token>, word: seq<Token>, ids: seq<int>)
    requires LookedUp(m, done, word, |word|, ids)
    ensures LookupAll(m, done + word) == Ok(ids)
  {
    var toks := done + word;
    forall i | 0 <= i < |toks| ensures toks[i] in m && ids[i] == m[toks[i]] {
      if i >= |done| {
        assert toks[i] == word[i - |done|];
      } else {
        assert ids[i] == ids[..|done|][i] && toks[i] == done[i];
      }
    }
    var r := LookupAll(m, toks);
    assert r.Ok?;
    assert r.value == ids;
  }

  /** A symbol of word k missing from the vocab, after known ones, is the KeyError of looking up all the words. */
  lemma WordMissing(m: map<Token, int>, words: seq<seq<Token>>, k: nat, j: nat, ids: seq<int>)
    requires k < |words| && j < |words[k]| && LookedUp(m, Joined(words[..k]), words[k], j, ids) && words[k][j] !in m
    ensures LookupAll(m, Joined(words)) == Err(MissingToken(words[k][j]))
  {
    LookedUpMissing(m, Joined(words[..k]), words[k], j, ids);
    MissingStops(m, words, k, j + 1);
  }

  /** Once every symbol of word k is looked up, the ids are those of the first k + 1 words. */
  lemma WordLookedUp(m: map<Token, int>, words: seq<seq<Token>>, k: nat, ids: seq<int>)
    requires k < |words| && LookedUp(m, Joined(words[..k]), words[k], |words[k]|, ids)
    ensures LookupAll(m, Joined(words[..k + 1])) == Ok(ids)
  {
    LookedUpAll(m, Joined(words[..k]), words[k], ids);
    JoinedSnoc(words, k);
  }

  /** A symbol of word missing from the vocab after known ones is the KeyError of done + word + more. */
  lemma LookedUpMissing(m: map<Token, int>, done: seq<Token>, word: seq<Token>, j: nat, ids: seq<int>)
    requires j < |word| && LookedUp(m, done, word, j, ids) && word[j] !in m
    ensures LookupAll(m, done + word[..j + 1]) == Err(MissingToken(word[j]))
  {
    var toks := done + word[..j + 1];
    assert toks[|done| + j] == word[j];
    forall i | 0 <= i < |toks| && i != |done| + j ensures toks[i] in m {
      if i < |done| {
        assert toks[i] == done[i];
      } else {
        assert toks[i] == word[i - |done|];
      }
    }
  }

  /** The tokenizer: a symbol-to-id vocab and the rank of every merge rule. */
  class RecursiveBPETokenizer {
    const vocab: map<Token, int>
    const mergeRank: map<Pair, nat>

    constructor (merges: seq<Pair>, vocab: map<Token, int>)
      ensures this.vocab == vocab && mergeRank == Ranks(merges)
    {
      this.vocab := vocab;
      this.mergeRank := Ranks(merges);
    }

    /** _merge_sequence(seq) */
    method MergeSequence(start: seq<Token>) returns (s: seq<Token>)
      ensures s == MergeSequenceF(mergeRank, start)
    {
      s := start;
      while true
        invariant MergeSequenceF(mergeRank, s) == MergeSequenceF(mergeRank, start)
        decreases |s|
      {
        if |s| <= 1 {
          break;
        }
        var best := Choose(mergeRank, s);
        if best.None? {
          break;
        }
        s := Join(s, best.value);
      }
    }

    /**
     * encode over the pre-tokens the GPT-2 pattern splits the text into: the ids of all
     * merged symbols in order, or the KeyError of the first symbol the vocab lacks.
     */
    method Encode(pretokens: seq<string>) returns (r: Result<seq<int>, Error>)
      ensures r == LookupAll(vocab, Pieces(mergeRank, pretokens))
    {
      var tokens: seq<int> := [];
      ghost var words := Words(mergeRank, pretokens);
      for k := 0 to |pretokens|
        invariant LookupAll(vocab, Joined(words[..k])) == Ok(tokens)
      {
        var bt := WordToByteTuple(pretokens[k]);
        var merged := MergeSequence(bt);
        assert merged == words[k];
        ghost var done := Joined(words[..k]);
        LookedUpStart(vocab, done, merged, tokens);
        for j := 0 to |merged|
          invariant LookedUp(vocab, done, merged, j, tokens)
        {
          if merged[j] !in vocab {
            WordMissing(vocab, words, k, j, tokens);
            return Err(MissingToken(merged[j]));
          }
          LookedUpStep(vocab, done, merged, j, tokens);
          tokens := tokens + [vocab[merged[j]]];
        }
        WordLookedUp(vocab, words, k, tokens);
      }
      assert words[..|pretokens|] == words;
      r := Ok(tokens);
    }
  }
}
