/**
 * The heap-based encoder and the decoder of cs336_basics/tokenizer.py.
 *
 * `encode` turns a text into its UTF-8 bytes, one single-byte symbol each, and then
 * repeatedly pops the (rank, position) entry of lowest rank from a heap, joins the two
 * symbols at that position when the entry is still current, and queues the two pairs
 * around the new symbol. The heap is modelled as a sequence kept in ascending order of
 * its (rank, position) entries: its head is what `heapq.heappop` returns.
 *
 * Joining two symbols moves every later symbol one place to the left, but the queued
 * entries keep their old positions. MergeLoop takes a flag: without the shift it is the
 * loop as written, which can drop a pair that should be merged; with it, queued
 * positions past the join move left by one as well, and no mergeable pair is left.
 */
module Tokenizer {
  import opened Results
  import opened Symbols
  import opened Dict

  /** A heap entry: (merge rank, position of the pair's first symbol). */
  type Entry = (nat, int)

  /** Python's ordering of (rank, position) tuples. */
  predicate Before(x: Entry, y: Entry)
  {
    x.0 < y.0 || (x.0 == y.0 && x.1 <= y.1)
  }

  /** The entries are in ascending order, so the head is the smallest: what heappop returns. */
  ghost predicate IsHeap(h: seq<Entry>)
  {
    forall i, j :: 0 <= i < j < |h| ==> Before(h[i], h[j])
  }

  /** heapq.heappush(heap, e) */
  function Push(h: seq<Entry>, e: Entry): (r: seq<Entry>)
    ensures |r| == |h| + 1
    ensures forall x :: x in r <==> x in h || x == e
    ensures multiset(r) == multiset(h) + multiset{e}
    ensures IsHeap(h) ==> IsHeap(r)
  {
    if h == [] || Before(e, h[0]) then
      assert IsHeap(h) ==> IsHeap([e] + h) by {
        if IsHeap(h) {
          HeapCons(e, h);
        }
      }
      [e] + h
    else
      var rest := Push(h[1..], e);
      assert h == [h[0]] + h[1..];
      assert IsHeap(h) ==> IsHeap([h[0]] + rest) by {
        if IsHeap(h) {
          HeapTail(h);
          assert rest[0] in h[1..] || rest[0] == e;
          HeapCons(h[0], rest);
        }
      }
      [h[0]] + rest
  }

  /** An entry no later than the head of a heap can go in front of it. */
  lemma HeapCons(x: Entry, h: seq<Entry>)
    requires IsHeap(h) && (h == [] || Before(x, h[0]))
    ensures IsHeap([x] + h)
  {
    var r := [x] + h;
    forall i, j | 0 <= i < j < |r| ensures Before(r[i], r[j]) {
      assert r[j] == h[j - 1];
      if i > 0 {
        assert r[i] == h[i - 1];
      } else if j > 1 {
        assert Before(h[0], h[j - 1]);
      }
    }
  }

  /** heapq.heappop(heap) leaves a heap. */
  lemma HeapTail(h: seq<Entry>)
    requires h != [] && IsHeap(h)
    ensures IsHeap(h[1..])
  {
    forall i, j | 0 <= i < j < |h| - 1 ensures Before(h[1..][i], h[1..][j]) {
      assert h[1..][i] == h[i + 1] && h[1..][j] == h[j + 1];
    }
  }

  /** Every queued position past i moves one place to the left. */
  function Shift(h: seq<Entry>, i: int): (r: seq<Entry>)
    ensures |r| == |h|
    ensures forall k :: 0 <= k < |h| ==> r[k] == (h[k].0, if h[k].1 > i then h[k].1 - 1 else h[k].1)
    ensures IsHeap(h) ==> IsHeap(r)
  {
    seq(|h|, k requires 0 <= k < |h| => (h[k].0, if h[k].1 > i then h[k].1 - 1 else h[k].1))
  }

  /** _valid_merge(a, b): the joined symbol has an id. */
  predicate ValidMerge(byteToId: map<Token, int>, a: Token, b: Token)
  {
    a + b in byteToId
  }

  /**
   * get_rank(i): the rank of the pair at position i, or None when i is not a pair
   * position, the pair is not a merge rule, or its joined symbol has no id.
   */
  function GetRank(ranks: map<Pair, nat>, byteToId: map<Token, int>, tokens: seq<Token>, i: int): (r: Option<nat>)
    ensures r.Some? <==>
              0 <= i < |tokens| - 1 && (tokens[i], tokens[i + 1]) in ranks && ValidMerge(byteToId, tokens[i], tokens[i + 1])
    ensures r.Some? ==> r.value == ranks[(tokens[i], tokens[i + 1])]
  {
    if i < 0 || i >= |tokens| - 1 then None
    else
      var pair := (tokens[i], tokens[i + 1]);
      if pair !in ranks then None
      else if !ValidMerge(byteToId, pair.0, pair.1) then None
      else Some(ranks[pair])
  }

  /** Queue position j with its rank, if it has one. */
  function PushRank(ranks: map<Pair, nat>, byteToId: map<Token, int>, tokens: seq<Token>, h: seq<Entry>, j: int): (r: seq<Entry>)
    ensures forall x :: x in r <==> x in h || (GetRank(ranks, byteToId, tokens, j).Some? && x == (GetRank(ranks, byteToId, tokens, j).value, j))
    ensures GetRank(ranks, byteToId, tokens, j).Some? ==>
              multiset(r) == multiset(h) + multiset{(GetRank(ranks, byteToId, tokens, j).value, j)}
    ensures GetRank(ranks, byteToId, tokens, j).None? ==> multiset(r) == multiset(h)
    ensures IsHeap(h) ==> IsHeap(r)
  {
    match GetRank(ranks, byteToId, tokens, j)
    case Some(rank) => Push(h, (rank, j))
    case None => h
  }

  /** The heap built before the merge loop: positions 0 .. n - 1 pushed in order. */
  function InitialHeap(ranks: map<Pair, nat>, byteToId: map<Token, int>, tokens: seq<Token>, n: nat): (r: seq<Entry>)
    ensures IsHeap(r)
  {
    if n == 0 then [] else PushRank(ranks, byteToId, tokens, InitialHeap(ranks, byteToId, tokens, n - 1), n - 1)
  }

  /**
   * The merge loop from the given symbols and heap. With shift == false it is the loop as
   * written; with shift == true the queued positions past a join are moved left by one.
   */
  function MergeLoop(ranks: map<Pair, nat>, byteToId: map<Token, int>, tokens: seq<Token>, heap: seq<Entry>, shift: bool): seq<Token>
    decreases |tokens|, |heap|
  {
    if heap == [] then tokens
    else
      var (rank, i) := heap[0];
      var rest := heap[1..];
      if i >= |tokens| - 1 then MergeLoop(ranks, byteToId, tokens, rest, shift)
      else if GetRank(ranks, byteToId, tokens, i) != Some(rank) || tokens[i] + tokens[i + 1] !in byteToId then
        MergeLoop(ranks, byteToId, tokens, rest, shift)
      else
        var joined := tokens[..i] + [tokens[i] + tokens[i + 1]] + tokens[i + 2..];
        var queued := if shift then Shift(rest, i) else rest;
        var pushed := PushRank(ranks, byteToId, joined, PushRank(ranks, byteToId, joined, queued, i - 1), i);
        MergeLoop(ranks, byteToId, joined, pushed, shift)
  }

  /** One join of the merge loop: a current entry at the head joins its pair and the loop goes on from there. */
  lemma MergeLoopJoin(ranks: map<Pair, nat>, byteToId: map<Token, int>, tokens: seq<Token>, heap: seq<Entry>, shift: bool)
    requires heap != [] && 0 <= heap[0].1 < |tokens| - 1
    requires GetRank(ranks, byteToId, tokens, heap[0].1) == Some(heap[0].0)
    ensures var i := heap[0].1;
            var joined := tokens[..i] + [tokens[i] + tokens[i + 1]] + tokens[i + 2..];
            var queued := if shift then Shift(heap[1..], i) else heap[1..];
            MergeLoop(ranks, byteToId, tokens, heap, shift) ==
              MergeLoop(ranks, byteToId, joined, PushRank(ranks, byteToId, joined, PushRank(ranks, byteToId, joined, queued, i - 1), i), shift)
  {
  }

  /** The symbols encode ends with for the given UTF-8 bytes: inputs of at most one byte are not merged. */
  function Merged(ranks: map<Pair, nat>, byteToId: map<Token, int>, bytes: seq<Byte>, shift: bool): seq<Token>
  {
    var tokens := SingleBytes(bytes);
    if |tokens| <= 1 then tokens
    else MergeLoop(ranks, byteToId, tokens, InitialHeap(ranks, byteToId, tokens, |tokens| - 1), shift)
  }

  // ---------------------------------------------------------------------------------
  // What the merge loop keeps

  /** Joins only ever combine adjacent symbols: the bytes stay the same and the list gets no longer. */
  lemma {:induction false} MergeLoopFlatten(ranks: map<Pair, nat>, byteToId: map<Token, int>, tokens: seq<Token>, heap: seq<Entry>, shift: bool)
    ensures Flatten(MergeLoop(ranks, byteToId, tokens, heap, shift)) == Flatten(tokens)
    ensures |MergeLoop(ranks, byteToId, tokens, heap, shift)| <= |tokens|
    decreases |tokens|, |heap|
  {
    if heap != [] {
      var (rank, i) := heap[0];
      var rest := heap[1..];
      if i >= |tokens| - 1 || GetRank(ranks, byteToId, tokens, i) != Some(rank) || tokens[i] + tokens[i + 1] !in byteToId {
        MergeLoopFlatten(ranks, byteToId, tokens, rest, shift);
      } else {
        var joined := tokens[..i] + [tokens[i] + tokens[i + 1]] + tokens[i + 2..];
        var queued := if shift then Shift(rest, i) else rest;
        var pushed := PushRank(ranks, byteToId, joined, PushRank(ranks, byteToId, joined, queued, i - 1), i);
        FlattenJoin(tokens, i);
        MergeLoopFlatten(ranks, byteToId, joined, pushed, shift);
      }
    }
  }

  /** encode's symbols spell out exactly the UTF-8 bytes, and there are no more of them than bytes. */
  lemma MergedFlatten(ranks: map<Pair, nat>, byteToId: map<Token, int>, bytes: seq<Byte>, shift: bool)
    ensures Flatten(Merged(ranks, byteToId, bytes, shift)) == bytes
    ensures |Merged(ranks, byteToId, bytes, shift)| <= |bytes|
  {
    var tokens := SingleBytes(bytes);
    FlattenSingleBytes(bytes);
    if |tokens| > 1 {
      MergeLoopFlatten(ranks, byteToId, tokens, InitialHeap(ranks, byteToId, tokens, |tokens| - 1), shift);
    }
  }

  /** Inputs of zero or one byte are mapped directly, without merging. */
  lemma MergedSmall(ranks: map<Pair, nat>, byteToId: map<Token, int>, bytes: seq<Byte>, shift: bool)
    requires |bytes| <= 1
    ensures Merged(ranks, byteToId, bytes, shift) == SingleBytes(bytes)
  {
  }

  /** Every mergeable position of tokens has its current (rank, position) entry queued. */
  ghost predicate HeapCovers(ranks: map<Pair, nat>, byteToId: map<Token, int>, tokens: seq<Token>, heap: seq<Entry>)
  {
    forall p :: GetRank(ranks, byteToId, tokens, p).Some? ==> (GetRank(ranks, byteToId, tokens, p).value, p) in heap
  }

  /** The initial heap queues every mergeable position below n. */
  lemma {:induction false} InitialHeapCovers(ranks: map<Pair, nat>, byteToId: map<Token, int>, tokens: seq<Token>, n: nat)
    ensures forall p :: 0 <= p < n && GetRank(ranks, byteToId, tokens, p).Some? ==>
              (GetRank(ranks, byteToId, tokens, p).value, p) in InitialHeap(ranks, byteToId, tokens, n)
  {
    if n > 0 {
      InitialHeapCovers(ranks, byteToId, tokens, n - 1);
    }
  }

  /** A stale entry can be dropped: it is not the current entry of any mergeable position. */
  lemma DropStale(ranks: map<Pair, nat>, byteToId: map<Token, int>, tokens: seq<Token>, heap: seq<Entry>)
    requires heap != [] && HeapCovers(ranks, byteToId, tokens, heap)
    requires GetRank(ranks, byteToId, tokens, heap[0].1) != Some(heap[0].0)
    ensures HeapCovers(ranks, byteToId, tokens, heap[1..])
  {
    forall p | GetRank(ranks, byteToId, tokens, p).Some?
      ensures (GetRank(ranks, byteToId, tokens, p).value, p) in heap[1..]
    {
      var e := (GetRank(ranks, byteToId, tokens, p).value, p);
      assert e != heap[0];
      var k :| 0 <= k < |heap| && heap[k] == e;
      assert heap[1..][k - 1] == e;
    }
  }

  /**
   * After the join at i and the shift, the pairs away from the join keep their entries:
   * those before i - 1 at the same position, those after i one place further left.
   */
  lemma JoinCovers(ranks: map<Pair, nat>, byteToId: map<Token, int>, tokens: seq<Token>, heap: seq<Entry>)
    requires heap != [] && HeapCovers(ranks, byteToId, tokens, heap)
    requires 0 <= heap[0].1 < |tokens| - 1 && GetRank(ranks, byteToId, tokens, heap[0].1) == Some(heap[0].0)
    ensures var i := heap[0].1;
            var joined := tokens[..i] + [tokens[i] + tokens[i + 1]] + tokens[i + 2..];
            var queued := Shift(heap[1..], i);
            HeapCovers(ranks, byteToId, joined, PushRank(ranks, byteToId, joined, PushRank(ranks, byteToId, joined, queued, i - 1), i))
  {
    var i := heap[0].1;
    var rest := heap[1..];
    var joined := tokens[..i] + [tokens[i] + tokens[i + 1]] + tokens[i + 2..];
    var queued := Shift(rest, i);
    var pushed := PushRank(ranks, byteToId, joined, PushRank(ranks, byteToId, joined, queued, i - 1), i);
    forall p | GetRank(ranks, byteToId, joined, p).Some?
      ensures (GetRank(ranks, byteToId, joined, p).value, p) in pushed
    {
      if p < i - 1 {
        assert joined[p] == tokens[p] && joined[p + 1] == tokens[p + 1];
        InQueue(ranks, byteToId, tokens, heap, p, p);
      } else if p > i {
        assert joined[p] == tokens[p + 1] && joined[p + 1] == tokens[p + 2];
        InQueue(ranks, byteToId, tokens, heap, p + 1, p);
      }
    }
  }

  /** The entry of a mergeable position q other than the popped one survives the shift, moved to p. */
  lemma InQueue(ranks: map<Pair, nat>, byteToId: map<Token, int>, tokens: seq<Token>, heap: seq<Entry>, q: int, p: int)
    requires heap != [] && HeapCovers(ranks, byteToId, tokens, heap)
    requires GetRank(ranks, byteToId, tokens, q).Some? && q != heap[0].1
    requires p == (if q > heap[0].1 then q - 1 else q)
    ensures (GetRank(ranks, byteToId, tokens, q).value, p) in Shift(heap[1..], heap[0].1)
  {
    var e := (GetRank(ranks, byteToId, tokens, q).value, q);
    var k :| 0 <= k < |heap| && heap[k] == e;
    assert k > 0;
    assert Shift(heap[1..], heap[0].1)[k - 1] == (e.0, p);
  }

  /**
   * With the shift, the merge loop ends with no mergeable pair left, as long as every
   * mergeable position was queued when it started.
   */
  lemma {:induction false} NoPairLeft(ranks: map<Pair, nat>, byteToId: map<Token, int>, tokens: seq<Token>, heap: seq<Entry>)
    requires HeapCovers(ranks, byteToId, tokens, heap)
    ensures forall p :: GetRank(ranks, byteToId, MergeLoop(ranks, byteToId, tokens, heap, true), p) == None
    decreases |tokens|, |heap|
  {
    if heap != [] {
      var (rank, i) := heap[0];
      var rest := heap[1..];
      if i >= |tokens| - 1 || GetRank(ranks, byteToId, tokens, i) != Some(rank) || tokens[i] + tokens[i + 1] !in byteToId {
        DropStale(ranks, byteToId, tokens, heap);
        NoPairLeft(ranks, byteToId, tokens, rest);
      } else {
        var joined := tokens[..i] + [tokens[i] + tokens[i + 1]] + tokens[i + 2..];
        var pushed := PushRank(ranks, byteToId, joined, PushRank(ranks, byteToId, joined, Shift(rest, i), i - 1), i);
        JoinCovers(ranks, byteToId, tokens, heap);
        NoPairLeft(ranks, byteToId, joined, pushed);
      }
    }
  }

  /** The corrected encoder leaves no adjacent pair that is a merge rule with a joined symbol in the vocab. */
  lemma CorrectedLeavesNoPair(ranks: map<Pair, nat>, byteToId: map<Token, int>, bytes: seq<Byte>)
    ensures var r := Merged(ranks, byteToId, bytes, true);
            forall p :: 0 <= p < |r| - 1 ==> (r[p], r[p + 1]) !in ranks || !ValidMerge(byteToId, r[p], r[p + 1])
  {
    var tokens := SingleBytes(bytes);
    var r := Merged(ranks, byteToId, bytes, true);
    if |tokens| > 1 {
      var n := |tokens| - 1;
      InitialHeapCovers(ranks, byteToId, tokens, n);
      NoPairLeft(ranks, byteToId, tokens, InitialHeap(ranks, byteToId, tokens, n));
    }
    forall p | 0 <= p < |r| - 1 ensures (r[p], r[p + 1]) !in ranks || !ValidMerge(byteToId, r[p], r[p + 1]) {
      assert GetRank(ranks, byteToId, r, p) == None;
    }
  }

  // The single-byte symbols of "abcd".
  const A: Token := [97]
  const B: Token := [98]
  const C: Token := [99]
  const D: Token := [100]

  /**
   * The loop as written leaves a mergeable pair: with merges [(a, b), (c, d)] and every
   * single byte and both joined symbols in the vocab, "abcd" gives [ab, c, d]. After
   * the join at 0 the queued entry (1, 2) for "cd" points one place too far right, is
   * discarded as out of range, and c d is never merged.
   */
  lemma AsWrittenLeavesPair()
    ensures var ranks := Ranks([(A, B), (C, D)]);
            var byteToId := map[A := 0, B := 1, C := 2, D := 3, A + B := 4, C + D := 5];
            var r := Merged(ranks, byteToId, Utf8("abcd"), false);
            r == [A + B, C, D] && (r[1], r[2]) in ranks && ValidMerge(byteToId, r[1], r[2])
            && Merged(ranks, byteToId, Utf8("abcd"), true) == [A + B, C + D]
  {
    var ranks := Ranks([(A, B), (C, D)]);
    var byteToId := map[A := 0, B := 1, C := 2, D := 3, A + B := 4, C + D := 5];
    var bytes := Utf8("abcd");
    ExampleInputs();
    var tokens := SingleBytes(bytes);
    ExampleHeap(ranks, byteToId, tokens);
    ExampleRuns(ranks, byteToId, tokens);
  }

  /** "abcd" is the bytes 97 to 100, one symbol each, and the two rules rank 0 and 1. */
  lemma ExampleInputs()
    ensures Utf8("abcd") == [97, 98, 99, 100]
    ensures SingleBytes(Utf8("abcd")) == [A, B, C, D]
    ensures Ranks([(A, B), (C, D)]) == map[(A, B) := 0, (C, D) := 1]
  {
    assert Utf8("d") == [100];
    assert Utf8("cd") == [99, 100];
    assert Utf8("bcd") == [98, 99, 100];
  }

  /** The heap encode starts from on "abcd": the entries of "ab" and of "cd". */
  lemma ExampleHeap(ranks: map<Pair, nat>, byteToId: map<Token, int>, tokens: seq<Token>)
    requires ranks == map[(A, B) := 0, (C, D) := 1]
    requires byteToId == map[A := 0, B := 1, C := 2, D := 3, A + B := 4, C + D := 5]
    requires tokens == [A, B, C, D]
    ensures InitialHeap(ranks, byteToId, tokens, 3) == [(0, 0), (1, 2)]
  {
    assert GetRank(ranks, byteToId, tokens, 0) == Some(0);
    assert GetRank(ranks, byteToId, tokens, 1) == None;
    assert GetRank(ranks, byteToId, tokens, 2) == Some(1);
    assert InitialHeap(ranks, byteToId, tokens, 1) == [(0, 0)];
    assert InitialHeap(ranks, byteToId, tokens, 2) == [(0, 0)];
    assert Push([(0, 0)], (1, 2)) == [(0, 0), (1, 2)];
  }

  /** The two merge loops on "abcd", from the heap [(0, 0), (1, 2)]. */
  lemma ExampleRuns(ranks: map<Pair, nat>, byteToId: map<Token, int>, tokens: seq<Token>)
    requires ranks == map[(A, B) := 0, (C, D) := 1]
    requires byteToId == map[A := 0, B := 1, C := 2, D := 3, A + B := 4, C + D := 5]
    requires tokens == [A, B, C, D]
    ensures MergeLoop(ranks, byteToId, tokens, [(0, 0), (1, 2)], false) == [A + B, C, D]
    ensures MergeLoop(ranks, byteToId, tokens, [(0, 0), (1, 2)], true) == [A + B, C + D]
  {
    var joined := [A + B, C, D];
    assert GetRank(ranks, byteToId, tokens, 0) == Some(0);
    assert tokens[..0] + [tokens[0] + tokens[1]] + tokens[2..] == joined;
    assert GetRank(ranks, byteToId, joined, -1) == None;
    assert GetRank(ranks, byteToId, joined, 0) == None;
    // as written: (1, 2) stays at position 2, which is past the last pair of joined
    assert MergeLoop(ranks, byteToId, tokens, [(0, 0), (1, 2)], false) == MergeLoop(ranks, byteToId, joined, [(1, 2)], false);
    assert MergeLoop(ranks, byteToId, joined, [(1, 2)], false) == MergeLoop(ranks, byteToId, joined, [], false);
    // corrected: (1, 2) moves to (1, 1), the current entry of c d
    assert Shift([(1, 2)], 0) == [(1, 1)];
    assert MergeLoop(ranks, byteToId, tokens, [(0, 0), (1, 2)], true) == MergeLoop(ranks, byteToId, joined, [(1, 1)], true);
    ExampleCorrectedTail(ranks, byteToId, joined);
  }

  /** The corrected loop from [ab, c, d] with c d queued at 1 joins it and stops. */
  lemma ExampleCorrectedTail(ranks: map<Pair, nat>, byteToId: map<Token, int>, joined: seq<Token>)
    requires ranks == map[(A, B) := 0, (C, D) := 1]
    requires byteToId == map[A := 0, B := 1, C := 2, D := 3, A + B := 4, C + D := 5]
    requires joined == [A + B, C, D]
    ensures MergeLoop(ranks, byteToId, joined, [(1, 1)], true) == [A + B, C + D]
  {
    assert GetRank(ranks, byteToId, joined, 1) == Some(1);
    var final := [A + B, C + D];
    assert joined[..1] + [joined[1] + joined[2]] + joined[3..] == final;
    assert GetRank(ranks, byteToId, final, 0) == None && GetRank(ranks, byteToId, final, 1) == None;
    assert Shift([], 1) == [];
    assert MergeLoop(ranks, byteToId, joined, [(1, 1)], true) == MergeLoop(ranks, byteToId, final, [], true);
  }

  // ---------------------------------------------------------------------------------
  // Reverse maps and decoding

  /**
   * {v: k for k, v in vocab.items()}: every symbol of the vocab keyed to its id; when two
   * ids share a symbol, the later item wins.
   */
  function Invert(vocab: Table<int, Token>): (r: map<Token, int>)
    ensures forall i :: 0 <= i < |vocab| ==> vocab[i].1 in r
    ensures forall t :: t in r ==> LastWith(vocab, t).Some? && r[t] == vocab[LastWith(vocab, t).value].0
  {
    map t | t in (set i | 0 <= i < |vocab| :: vocab[i].1) :: vocab[LastWith(vocab, t).value].0
  }

  /** The index of the last item of vocab whose symbol is t, if there is one. */
  function LastWith(vocab: Table<int, Token>, t: Token): (r: Option<nat>)
    ensures r.None? <==> forall i :: 0 <= i < |vocab| ==> vocab[i].1 != t
    ensures r.Some? ==> r.value < |vocab| && vocab[r.value].1 == t && forall j :: r.value < j < |vocab| ==> vocab[j].1 != t
  {
    if vocab == [] then None
    else if vocab[|vocab| - 1].1 == t then Some(|vocab| - 1)
    else LastWith(vocab[..|vocab| - 1], t)
  }

  /** No two items of vocab hold the same symbol. */
  ghost predicate DistinctSymbols(vocab: Table<int, Token>)
  {
    forall i, j :: 0 <= i < j < |vocab| ==> vocab[i].1 != vocab[j].1
  }

  /** Looking up the id _byte_to_id gives a symbol in vocab returns that symbol. */
  lemma InvertRoundTrip(vocab: Table<int, Token>)
    requires DistinctKeys(vocab)
    ensures forall t :: t in Invert(vocab) ==> Get(vocab, Invert(vocab)[t]) == Some(t)
  {
    forall t | t in Invert(vocab) ensures Get(vocab, Invert(vocab)[t]) == Some(t) {
      var k := Invert(vocab)[t];
      var i := LastWith(vocab, t).value;
      assert vocab[i] == (k, t);
      assert k in Keys(vocab);
      assert IndexOf(vocab, k) == i;
    }
  }

  /** When no symbol is held twice, _byte_to_id maps each item's symbol back to that item's id. */
  lemma InvertInverse(vocab: Table<int, Token>)
    requires DistinctSymbols(vocab)
    ensures forall i :: 0 <= i < |vocab| ==> Invert(vocab)[vocab[i].1] == vocab[i].0
  {
    forall i | 0 <= i < |vocab| ensures Invert(vocab)[vocab[i].1] == vocab[i].0 {
      var l := LastWith(vocab, vocab[i].1).value;
      assert l == i;
    }
  }

  /** [vocab[id] for id in ids]: the symbol of every id in order, or the KeyError of the first unknown id. */
  function LookupIds(vocab: Table<int, Token>, ids: seq<int>): (r: Result<seq<Token>, Error>)
    ensures r.Ok? <==> forall k :: 0 <= k < |ids| ==> ids[k] in Keys(vocab)
    ensures r.Ok? ==> |r.value| == |ids| && forall k :: 0 <= k < |ids| ==> Get(vocab, ids[k]) == Some(r.value[k])
    ensures r.Err? ==> exists k :: 0 <= k < |ids| && ids[k] !in Keys(vocab) && r.error == MissingId(ids[k])
                                 && forall j :: 0 <= j < k ==> ids[j] in Keys(vocab)
  {
    if ids == [] then Ok([])
    else
      match Get(vocab, ids[0])
      case None => Err(MissingId(ids[0]))
      case Some(t) =>
        match LookupIds(vocab, ids[1..])
        case Ok(rest) =>
          var r := [t] + rest;
          assert forall k :: 1 <= k < |ids| ==> ids[k] == ids[1..][k - 1];
          Ok(r)
        case Err(e) => Err(e)
  }

  /** The byte-level tokenizer: an id-to-symbol vocab, the merge rules, and the two maps built from them. */
  class Tokenizer {
    const vocab: Table<int, Token>
    const merges: seq<Pair>
    const specialTokens: Option<seq<string>>
    const byteToId: map<Token, int>
    const mergeRanks: map<Pair, nat>

    /** The maps __init__ builds, over a vocab that as a dict has no key twice. */
    ghost predicate Valid()
    {
      DistinctKeys(vocab) && byteToId == Invert(vocab) && mergeRanks == Ranks(merges)
    }

    constructor (vocab: Table<int, Token>, merges: seq<Pair>, specialTokens: Option<seq<string>>)
      requires DistinctKeys(vocab)
      ensures this.vocab == vocab && this.merges == merges && this.specialTokens == specialTokens
      ensures Valid()
    {
      this.vocab := vocab;
      this.merges := merges;
      this.specialTokens := specialTokens;
      this.byteToId := Invert(vocab);
      this.mergeRanks := Ranks(merges);
    }

    /**
     * What encode returns for text: the id of every symbol the merge loop leaves, with the
     * loop as written (shift == false) or corrected (shift == true).
     */
    function Encoded(text: string, shift: bool): Result<seq<int>, Error>
    {
      LookupAll(byteToId, Merged(mergeRanks, byteToId, Utf8(text), shift))
    }

    /** The heap and the merge loop of encode (for at least two symbols). */
    method MergeWithHeap(start: seq<Token>, shift: bool) returns (tokens: seq<Token>)
      requires |start| >= 2
      ensures tokens == MergeLoop(mergeRanks, byteToId, start, InitialHeap(mergeRanks, byteToId, start, |start| - 1), shift)
    {
      tokens := start;
      var heap: seq<Entry> := [];
      for i := 0 to |tokens| - 1
        invariant tokens == start
        invariant heap == InitialHeap(mergeRanks, byteToId, tokens, i)
      {
        var r := GetRank(mergeRanks, byteToId, tokens, i);
        if r.Some? {
          heap := Push(heap, (r.value, i));
        }
      }
      ghost var final := MergeLoop(mergeRanks, byteToId, start, heap, shift);
      while heap != []
        invariant IsHeap(heap)
        invariant MergeLoop(mergeRanks, byteToId, tokens, heap, shift) == final
        decreases |tokens|, |heap|
      {
        ghost var before, current := heap, tokens;
        var (rank, i) := heap[0];
        heap := heap[1..];
        HeapTail(before);
        if i >= |tokens| - 1 {
          continue;
        }
        var currentRank := GetRank(mergeRanks, byteToId, tokens, i);
        if currentRank != Some(rank) || tokens[i] + tokens[i + 1] !in byteToId {
          continue;
        }
        var merged := tokens[i] + tokens[i + 1];
        tokens := tokens[..i] + [merged] + tokens[i + 2..];
        if shift {
          heap := Shift(heap, i);
        }
        assert IsHeap(heap);
        ghost var queued := heap;
        var left := GetRank(mergeRanks, byteToId, tokens, i - 1);
        if left.Some? {
          heap := Push(heap, (left.value, i - 1));
        }
        assert heap == PushRank(mergeRanks, byteToId, tokens, queued, i - 1) && IsHeap(heap);
        ghost var once := heap;
        var right := GetRank(mergeRanks, byteToId, tokens, i);
        if right.Some? {
          heap := Push(heap, (right.value, i));
        }
        assert heap == PushRank(mergeRanks, byteToId, tokens, once, i) && IsHeap(heap);
        MergeLoopJoin(mergeRanks, byteToId, current, before, shift);
      }
    }

    /** encode(text), with the merge loop as written (shift == false) or corrected (shift == true). */
    method Encode(text: string, shift: bool) returns (ids: Result<seq<int>, Error>)
      ensures ids == Encoded(text, shift)
    {
      var tokens := SingleBytes(Utf8(text));
      var merged := tokens;
      if |tokens| > 1 {
        merged := MergeWithHeap(tokens, shift);
      }
      assert merged == Merged(mergeRanks, byteToId, Utf8(text), shift);
      ids := LookupAll(byteToId, merged);
    }

    /**
     * encode fails with the KeyError of a symbol exactly when one of its final symbols has
     * no id, and otherwise returns no more ids than the text has UTF-8 bytes.
     */
    lemma EncodeOutcome(text: string, shift: bool)
      ensures var toks := Merged(mergeRanks, byteToId, Utf8(text), shift);
              (Encoded(text, shift).Err? <==> exists k :: 0 <= k < |toks| && toks[k] !in byteToId)
              && (Encoded(text, shift).Ok? ==> |Encoded(text, shift).value| <= |Utf8(text)|)
    {
      MergedFlatten(mergeRanks, byteToId, Utf8(text), shift);
    }

    /** decode(ids) at the byte level: the symbols of the ids joined, or the KeyError of the first unknown id. */
    function Decode(ids: seq<int>): (r: Result<seq<Byte>, Error>)
      ensures r.Ok? <==> forall k :: 0 <= k < |ids| ==> ids[k] in Keys(vocab)
      ensures r.Ok? ==> r.value == Flatten(LookupIds(vocab, ids).value)
      ensures r.Err? ==> exists k :: 0 <= k < |ids| && ids[k] !in Keys(vocab) && r.error == MissingId(ids[k])
                                   && forall j :: 0 <= j < k ==> ids[j] in Keys(vocab)
    {
      match LookupIds(vocab, ids)
      case Ok(pieces) => Ok(Flatten(pieces))
      case Err(e) => Err(e)
    }

    /** Decoding what encode returns gives back the UTF-8 bytes of the text. */
    lemma RoundTrip(text: string, shift: bool)
      requires Valid()
      ensures Encoded(text, shift).Ok? ==> Decode(Encoded(text, shift).value) == Ok(Utf8(text))
    {
      var toks := Merged(mergeRanks, byteToId, Utf8(text), shift);
      MergedFlatten(mergeRanks, byteToId, Utf8(text), shift);
      var r := LookupAll(byteToId, toks);
      assert r == Encoded(text, shift);
      if r.Ok? {
        InvertRoundTrip(vocab);
        var ids := r.value;
        forall k | 0 <= k < |ids| ensures ids[k] in Keys(vocab) && Get(vocab, ids[k]) == Some(toks[k]) {
          assert ids[k] == byteToId[toks[k]];
        }
        var pieces := LookupIds(vocab, ids).value;
        assert pieces == toks;
        assert Decode(ids) == Ok(Flatten(toks));
      }
    }

    /**
     * What encode_iterable yields: the ids of each text in turn, and the KeyError that
     * ends the stream at the first text that cannot be encoded.
     */
    function EncodeStream(texts: seq<string>, shift: bool): (seq<int>, Option<Error>)
    {
      if texts == [] then ([], None)
      else
        match Encoded(texts[0], shift)
        case Err(e) => ([], Some(e))
        case Ok(ids) =>
          var rest := EncodeStream(texts[1..], shift);
          (ids + rest.0, rest.1)
    }

    /** Streaming a + b yields the stream of a and, unless a failed, then the stream of b. */
    lemma {:induction false} EncodeStreamAppend(a: seq<string>, b: seq<string>, shift: bool)
      ensures EncodeStream(a + b, shift) ==
                if EncodeStream(a, shift).1.Some? then EncodeStream(a, shift)
                else (EncodeStream(a, shift).0 + EncodeStream(b, shift).0, EncodeStream(b, shift).1)
    {
      if a == [] {
        assert a + b == b;
        assert EncodeStream(a, shift).0 + EncodeStream(b, shift).0 == EncodeStream(b, shift).0;
      } else {
        var ab := a + b;
        assert ab[0] == a[0] && ab[1..] == a[1..] + b;
        EncodeStreamAppend(a[1..], b, shift);
        var e := Encoded(a[0], shift);
        if e.Ok? {
          AppendAssoc(e.value, EncodeStream(a[1..], shift).0, EncodeStream(b, shift).0);
        }
      }
    }

    /** Appending ids to the emitted prefix before or after the rest of the stream is the same. */
    static lemma AppendAssoc(a: seq<int>, b: seq<int>, c: seq<int>)
      ensures a + (b + c) == (a + b) + c
    {
    }

    /** One step of the stream: the first text's ids, then the rest, or the first text's error. */
    lemma EncodeStreamStep(texts: seq<string>, k: nat, shift: bool, ids: Result<seq<int>, Error>)
      requires k < |texts| && ids == Encoded(texts[k], shift)
      ensures ids.Err? ==> EncodeStream(texts[k..], shift) == ([], Some(ids.error))
      ensures ids.Ok? ==> EncodeStream(texts[k..], shift) ==
                            (ids.value + EncodeStream(texts[k + 1..], shift).0, EncodeStream(texts[k + 1..], shift).1)
    {
      assert texts[k..][0] == texts[k] && texts[k..][1..] == texts[k + 1..];
    }

    /**
     * encode_iterable(texts), as the ids yielded and the error that stopped it, if any; with
     * shift == false each text goes through encode as written, with shift == true the corrected one.
     */
    method EncodeIterable(texts: seq<string>, shift: bool) returns (emitted: seq<int>, failure: Option<Error>)
      ensures (emitted, failure) == EncodeStream(texts, shift)
    {
      emitted, failure := [], None;
      assert texts[0..] == texts;
      assert emitted + EncodeStream(texts, shift).0 == EncodeStream(texts, shift).0;
      for k := 0 to |texts|
        invariant EncodeStream(texts, shift) == (emitted + EncodeStream(texts[k..], shift).0, EncodeStream(texts[k..], shift).1)
      {
        ghost var rest := EncodeStream(texts[k + 1..], shift);
        var ids := Encode(texts[k], shift);
        EncodeStreamStep(texts, k, shift, ids);
        if ids.Err? {
          assert emitted + [] == emitted;
          return emitted, Some(ids.error);
        }
        AppendAssoc(emitted, ids.value, rest.0);
        emitted := emitted + ids.value;
      }
      assert texts[|texts|..] == [];
      assert emitted + [] == emitted;
    }
  }
}
