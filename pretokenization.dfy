/**
 * PretokenizerMP: cutting a corpus into shards at occurrences of the split token,
 * turning matched pretokens into tuples of single-byte symbols, tallying them, and
 * reducing the per-shard tallies into one global frequency table.
 *
 * The corpus file is a byte sequence; reading `n` bytes at offset `pos` is `Window`.
 * The regular expression that finds pretokens, the lossy UTF-8 decoding and the
 * special-token split inside a worker are not modelled: a worker is a given function
 * from a byte range to its tally, and `Tally` takes the matched strings in order.
 */
module Pretokenization {
  import opened Symbols
  import opened Dict
  import opened Sorted

  /** word_to_byte_tuple(word): one single-byte symbol per UTF-8 byte of the word. */
  function WordToByteTuple(word: string): (r: Word)
    ensures |r| == |Utf8(word)|
    ensures forall i :: 0 <= i < |r| ==> |r[i]| == 1
    ensures Flatten(r) == Utf8(word)
  {
    FlattenSingleBytes(Utf8(word));
    SingleBytes(Utf8(word))
  }

  // ---------------------------------------------------------------------------------
  // find_chunk_boundaries

  /** The size of each sequential read while probing for the split token. */
  const MiniChunkSize: nat := 4096

  /** needle occurs in hay starting at j. */
  ghost predicate OccursAt(hay: seq<Byte>, needle: seq<Byte>, j: int)
  {
    0 <= j && j + |needle| <= |hay| && hay[j..j + |needle|] == needle
  }

  /** hay.find(needle, start) */
  function FindFrom(hay: seq<Byte>, needle: seq<Byte>, start: nat): (r: int)
    ensures r == -1 || (start <= r && OccursAt(hay, needle, r))
    ensures forall j :: start <= j && (r == -1 || j < r) ==> !OccursAt(hay, needle, j)
    decreases |hay| - start
  {
    if start + |needle| > |hay| then -1
    else if hay[start..start + |needle|] == needle then start
    else FindFrom(hay, needle, start + 1)
  }

  /** hay.find(needle): the first position where needle occurs in hay, or -1. */
  function Find(hay: seq<Byte>, needle: seq<Byte>): (r: int)
    ensures r == -1 || OccursAt(hay, needle, r)
    ensures forall j :: 0 <= j && (r == -1 || j < r) ==> !OccursAt(hay, needle, j)
  {
    FindFrom(hay, needle, 0)
  }

  /** file.seek(pos); file.read(MiniChunkSize): empty at or past the end of the file. */
  function Window(file: seq<Byte>, pos: nat): (w: seq<Byte>)
    ensures |w| <= MiniChunkSize
    ensures w == [] <==> pos >= |file|
    ensures pos < |file| ==> pos + |w| <= |file| && w == file[pos..pos + |w|]
    ensures pos < |file| ==> |w| == if pos + MiniChunkSize <= |file| then MiniChunkSize else |file| - pos
  {
    if pos >= |file| then []
    else if pos + MiniChunkSize <= |file| then file[pos..pos + MiniChunkSize]
    else file[pos..]
  }

  /**
   * Where one interior boundary lands when the probe starts at pos: the first occurrence
   * of token found inside one of the consecutive windows read from pos, or the end of
   * the file when no window holds one.
   */
  function Snap(file: seq<Byte>, token: seq<Byte>, pos: nat): nat
    decreases |file| - pos
  {
    var mini := Window(file, pos);
    if mini == [] then |file|
    else
      var found := Find(mini, token);
      if found != -1 then pos + found
      else Snap(file, token, pos + MiniChunkSize)
  }

  /** The k-th window read from pos (k = 0 being the one at pos) is not empty and holds the token. */
  ghost predicate WindowHas(file: seq<Byte>, token: seq<Byte>, pos: nat, k: nat)
  {
    HasAt(file, token, Offset(pos, k))
  }

  /** The offset of the k-th window read from pos. */
  function Offset(pos: nat, k: nat): nat
  {
    pos + k * MiniChunkSize
  }

  /** The window read at offset at is not empty and holds the token. */
  ghost predicate HasAt(file: seq<Byte>, token: seq<Byte>, at: nat)
  {
    Window(file, at) != [] && Find(Window(file, at), token) != -1
  }

  /** A boundary probed from pos lies between pos and the end of the file, and short of the end the token starts there. */
  lemma {:induction false} SnapBounds(file: seq<Byte>, token: seq<Byte>, pos: nat)
    ensures Snap(file, token, pos) <= |file|
    ensures pos <= |file| ==> pos <= Snap(file, token, pos)
    ensures Snap(file, token, pos) < |file| ==> OccursAt(file, token, Snap(file, token, pos))
    decreases |file| - pos
  {
    var mini := Window(file, pos);
    if mini != [] {
      var found := Find(mini, token);
      if found != -1 {
        WindowOccurrence(file, token, pos, found);
      } else {
        SnapBounds(file, token, pos + MiniChunkSize);
      }
    }
  }

  /** The token occurs in the file at j, entirely inside the non-empty window read at offset at. */
  ghost predicate InWindow(file: seq<Byte>, token: seq<Byte>, at: nat, j: nat)
  {
    Window(file, at) != [] && at <= j && j + |token| <= at + |Window(file, at)| && OccursAt(file, token, j)
  }

  /**
   * The scan stops at the first occurrence it can see: no later than any occurrence
   * lying inside one of the windows read from pos.
   */
  lemma {:induction false} SnapFirst(file: seq<Byte>, token: seq<Byte>, pos: nat, k: nat, j: nat)
    requires InWindow(file, token, Offset(pos, k), j)
    ensures Snap(file, token, pos) <= j
    decreases k
  {
    if k == 0 {
      SnapFirstHere(file, token, pos, j);
    } else {
      var mini := Window(file, pos);
      assert mini != [];
      var found := Find(mini, token);
      if found == -1 {
        assert Offset(pos + MiniChunkSize, k - 1) == Offset(pos, k);
        SnapFirst(file, token, pos + MiniChunkSize, k - 1, j);
      } else {
        assert pos + found <= pos + |mini| <= Offset(pos, k);
      }
    }
  }

  /** An occurrence inside the first window bounds where the scan stops, by the minimality of find. */
  lemma SnapFirstHere(file: seq<Byte>, token: seq<Byte>, pos: nat, j: nat)
    requires InWindow(file, token, pos, j)
    ensures Snap(file, token, pos) <= j
  {
    var mini := Window(file, pos);
    var d := j - pos;
    assert mini[d..d + |token|] == file[j..j + |token|];
    assert OccursAt(mini, token, d);
  }

  /**
   * Short of the end of the file, the scan stops on an occurrence lying wholly inside one
   * of the windows read from pos: an occurrence straddling two windows is never the stop.
   */
  lemma {:induction false} SnapInWindow(file: seq<Byte>, token: seq<Byte>, pos: nat)
    ensures Snap(file, token, pos) < |file| ==> exists k: nat :: InWindow(file, token, Offset(pos, k), Snap(file, token, pos))
    decreases |file| - pos
  {
    var mini := Window(file, pos);
    if mini != [] {
      var found := Find(mini, token);
      if found != -1 {
        WindowOccurrence(file, token, pos, found);
        assert InWindow(file, token, Offset(pos, 0), pos + found);
      } else {
        var next := pos + MiniChunkSize;
        SnapInWindow(file, token, next);
        if Snap(file, token, next) < |file| {
          var k: nat :| InWindow(file, token, Offset(next, k), Snap(file, token, next));
          assert Offset(next, k) == Offset(pos, k + 1);
        }
      }
    }
  }

  /** An occurrence inside the window read at pos is an occurrence in the file. */
  lemma WindowOccurrence(file: seq<Byte>, token: seq<Byte>, pos: nat, found: int)
    requires Window(file, pos) != [] && OccursAt(Window(file, pos), token, found)
    ensures OccursAt(file, token, pos + found)
  {
    var mini := Window(file, pos);
    var b := pos + found;
    assert mini == file[pos..pos + |mini|];
    assert mini[found..found + |token|] == token;
    forall x | 0 <= x < |token| ensures file[b + x] == token[x] {
      assert mini[found + x] == file[b + x];
    }
    assert file[b..b + |token|] == token;
  }

  /** No window read at or past the end of the file holds anything. */
  lemma {:induction false} WindowsPastEnd(file: seq<Byte>, token: seq<Byte>, pos: nat, k: nat)
    requires pos >= |file|
    ensures !WindowHas(file, token, pos, k)
  {
    assert pos + k * MiniChunkSize >= |file|;
  }

  /** A probe that finds the token in its first window stops short of the end of the file. */
  lemma SnapHere(file: seq<Byte>, token: seq<Byte>, pos: nat)
    requires Window(file, pos) != [] && Find(Window(file, pos), token) != -1
    ensures Snap(file, token, pos) < |file|
    ensures WindowHas(file, token, pos, 0)
  {
    var mini := Window(file, pos);
    var found := Find(mini, token);
    if |token| == 0 {
      assert OccursAt(mini, token, 0);
    }
    assert found < |mini| && pos + |mini| <= |file|;
  }

  /** The windows read from one window further on are the later windows read from pos. */
  lemma WindowShift(file: seq<Byte>, token: seq<Byte>, pos: nat, k: nat)
    ensures WindowHas(file, token, pos + MiniChunkSize, k) == WindowHas(file, token, pos, k + 1)
  {
    assert Offset(pos + MiniChunkSize, k) == Offset(pos, k + 1);
  }

  /** A probe that finds nothing in its first window lands where the probe from the next one does. */
  lemma SnapNext(file: seq<Byte>, token: seq<Byte>, pos: nat, next: nat)
    requires Window(file, pos) != [] && Find(Window(file, pos), token) == -1
    requires next == pos + MiniChunkSize
    requires Snap(file, token, next) < |file| <==> exists k: nat :: WindowHas(file, token, next, k)
    ensures Snap(file, token, pos) < |file| <==> exists k: nat :: WindowHas(file, token, pos, k)
  {
    assert Snap(file, token, pos) == Snap(file, token, next);
    if exists k: nat :: WindowHas(file, token, next, k) {
      var k: nat :| WindowHas(file, token, next, k);
      WindowShift(file, token, pos, k);
    } else {
      forall k: nat ensures !WindowHas(file, token, pos, k) {
        if k > 0 {
          WindowShift(file, token, pos, k - 1);
        }
      }
    }
  }

  /**
   * A boundary probed from pos is the end of the file exactly when none of the windows
   * read from pos holds the token (an occurrence split across two windows is missed).
   */
  lemma {:induction false} SnapEnd(file: seq<Byte>, token: seq<Byte>, pos: nat)
    ensures Snap(file, token, pos) < |file| <==> exists k: nat :: WindowHas(file, token, pos, k)
    decreases |file| - pos
  {
    var mini := Window(file, pos);
    if mini == [] {
      forall k: nat ensures !WindowHas(file, token, pos, k) {
        WindowsPastEnd(file, token, pos, k);
      }
    } else if Find(mini, token) != -1 {
      SnapHere(file, token, pos);
    } else {
      SnapEnd(file, token, pos + MiniChunkSize);
      SnapNext(file, token, pos, pos + MiniChunkSize);
    }
  }

  /** The i-th evenly spaced candidate offset: i * (file_size // desired_num_chunks). */
  function Candidate(fileSize: nat, desiredNumChunks: nat, i: nat): nat
    requires desiredNumChunks >= 1
  {
    i * (fileSize / desiredNumChunks)
  }

  /** Where the i-th interior candidate is moved to. */
  function Snapped(file: seq<Byte>, token: seq<Byte>, desiredNumChunks: nat, i: nat): nat
    requires desiredNumChunks >= 1
  {
    Snap(file, token, Candidate(|file|, desiredNumChunks, i))
  }

  /**
   * The inner loop of find_chunk_boundaries: read consecutive windows from pos until one
   * is empty (the boundary becomes the file size) or holds the token (the boundary is
   * where it starts).
   */
  method Probe(file: seq<Byte>, splitToken: seq<Byte>, start: nat) returns (boundary: nat)
    ensures boundary == Snap(file, splitToken, start)
  {
    var pos := start;
    while true
      invariant Snap(file, splitToken, pos) == Snap(file, splitToken, start)
      decreases |file| + MiniChunkSize - pos
    {
      var mini := Window(file, pos);
      if mini == [] {
        return |file|;
      }
      var found := Find(mini, splitToken);
      if found != -1 {
        return pos + found;
      }
      pos := pos + MiniChunkSize;
    }
  }

  /**
   * find_chunk_boundaries over the file's bytes: the candidates 0, c, 2c, ..., with the
   * last one replaced by the file size, each interior one moved forward to where the
   * window search lands, then sorted with duplicates removed.
   */
  method FindChunkBoundaries(file: seq<Byte>, desiredNumChunks: nat, splitToken: seq<Byte>)
    returns (boundaries: seq<int>)
    requires desiredNumChunks >= 1
    ensures Increasing(boundaries)
    ensures |boundaries| >= 1 && boundaries[0] == 0 && boundaries[|boundaries| - 1] == |file|
    ensures forall b :: b in boundaries <==> IsBoundary(file, splitToken, desiredNumChunks, b)
  {
    var fileSize := |file|;
    var chunkBoundaries := new int[desiredNumChunks + 1](i requires 0 <= i => Candidate(fileSize, desiredNumChunks, i));
    chunkBoundaries[desiredNumChunks] := fileSize;
    for bi := 1 to chunkBoundaries.Length - 1
      invariant Probed(file, splitToken, desiredNumChunks, chunkBoundaries[..], bi)
    {
      var boundary := Probe(file, splitToken, chunkBoundaries[bi]);
      ProbedStep(file, splitToken, desiredNumChunks, chunkBoundaries[..], bi, boundary);
      chunkBoundaries[bi] := boundary;
    }
    boundaries := SortedSet(chunkBoundaries[..]);
    SortedBoundaries(file, splitToken, desiredNumChunks, chunkBoundaries[..]);
  }

  /**
   * The candidate list while the probing loop is at index bi: the ends are 0 and the file
   * size, the entries before bi are probed, the remaining interior ones are still candidates.
   */
  ghost predicate Probed(file: seq<Byte>, token: seq<Byte>, desiredNumChunks: nat, all: seq<int>, bi: nat)
    requires desiredNumChunks >= 1
  {
    && |all| == desiredNumChunks + 1
    && all[0] == 0 && all[desiredNumChunks] == |file|
    && (forall i :: 1 <= i < bi && i < desiredNumChunks ==> all[i] == Snapped(file, token, desiredNumChunks, i))
    && (forall i :: bi <= i < desiredNumChunks ==> all[i] == Candidate(|file|, desiredNumChunks, i))
  }

  /** Probing entry bi and storing the result moves the loop on to bi + 1. */
  lemma ProbedStep(file: seq<Byte>, token: seq<Byte>, desiredNumChunks: nat, all: seq<int>, bi: nat, boundary: int)
    requires desiredNumChunks >= 1 && 1 <= bi < desiredNumChunks
    requires Probed(file, token, desiredNumChunks, all, bi)
    requires all[bi] >= 0 && boundary == Snap(file, token, all[bi])
    ensures Probed(file, token, desiredNumChunks, all[bi := boundary], bi + 1)
  {
  }

  /** A value find_chunk_boundaries may return: 0, the file size, or a moved interior candidate. */
  ghost predicate IsBoundary(file: seq<Byte>, token: seq<Byte>, desiredNumChunks: nat, b: int)
    requires desiredNumChunks >= 1
  {
    b == 0 || b == |file| ||
    exists i :: 1 <= i < desiredNumChunks && b == Snapped(file, token, desiredNumChunks, i)
  }

  /** Sorting the candidate list after the probing loop gives the boundaries in ascending order, from 0 to the file size. */
  lemma SortedBoundaries(file: seq<Byte>, token: seq<Byte>, desiredNumChunks: nat, all: seq<int>)
    requires desiredNumChunks >= 1 && Probed(file, token, desiredNumChunks, all, desiredNumChunks)
    ensures |SortedSet(all)| >= 1 && SortedSet(all)[0] == 0 && SortedSet(all)[|SortedSet(all)| - 1] == |file|
    ensures forall b :: b in SortedSet(all) <==> IsBoundary(file, token, desiredNumChunks, b)
  {
    BoundaryValues(file, token, desiredNumChunks, all);
    Ends(SortedSet(all), 0, |file|);
  }

  /** The candidate list after the probing loop holds exactly the boundaries, all within the file. */
  lemma BoundaryValues(file: seq<Byte>, token: seq<Byte>, desiredNumChunks: nat, all: seq<int>)
    requires desiredNumChunks >= 1 && |all| == desiredNumChunks + 1
    requires all[0] == 0 && all[desiredNumChunks] == |file|
    requires forall i :: 1 <= i < desiredNumChunks ==> all[i] == Snapped(file, token, desiredNumChunks, i)
    ensures forall b :: b in all <==> IsBoundary(file, token, desiredNumChunks, b)
    ensures 0 in all && |file| in all
    ensures forall b :: b in all ==> 0 <= b <= |file|
  {
    forall b | b in all
      ensures 0 <= b <= |file|
    {
      var i :| 0 <= i < |all| && all[i] == b;
      if 1 <= i < desiredNumChunks {
        SnapBounds(file, token, Candidate(|file|, desiredNumChunks, i));
      }
    }
    forall b | IsBoundary(file, token, desiredNumChunks, b)
      ensures b in all
    {
      if b != 0 && b != |file| {
        var i :| 1 <= i < desiredNumChunks && b == Snapped(file, token, desiredNumChunks, i);
        assert all[i] == b;
      }
    }
  }

  /** zip(boundaries[:-1], boundaries[1:]): the byte range each worker reads. */
  function Tasks(boundaries: seq<int>): seq<(int, int)>
  {
    Adjacent(boundaries)
  }

  /** Offset p lies in the range task: start <= p < end. */
  ghost predicate InTask(task: (int, int), p: int)
  {
    task.0 <= p < task.1
  }

  /** Some range of tasks holds offset p. */
  ghost predicate TaskCovers(tasks: seq<(int, int)>, p: int)
  {
    exists i :: 0 <= i < |tasks| && InTask(tasks[i], p)
  }

  /**
   * The worker ranges cover the file exactly: their lengths add up to the file size, and
   * every byte of the file lies in exactly one of them.
   */
  lemma TasksCoverFile(boundaries: seq<int>, fileSize: nat)
    requires Increasing(boundaries) && |boundaries| >= 1
    requires boundaries[0] == 0 && boundaries[|boundaries| - 1] == fileSize
    ensures Covered(Tasks(boundaries)) == fileSize
    ensures forall p :: 0 <= p < fileSize ==> TaskCovers(Tasks(boundaries), p)
    ensures forall p, i, j ::
              0 <= i < |Tasks(boundaries)| && 0 <= j < |Tasks(boundaries)| &&
              InTask(Tasks(boundaries)[i], p) && InTask(Tasks(boundaries)[j], p)
              ==> i == j
  {
    CoveredTelescopes(boundaries);
    forall p | 0 <= p < fileSize
      ensures TaskCovers(Tasks(boundaries), p)
    {
      SpansPartition(boundaries, p);
    }
    forall p, i, j |
      0 <= i < |Tasks(boundaries)| && 0 <= j < |Tasks(boundaries)| &&
      InTask(Tasks(boundaries)[i], p) && InTask(Tasks(boundaries)[j], p)
      ensures i == j
    {
      SpansPartition(boundaries, p);
    }
  }

  // ---------------------------------------------------------------------------------
  // pretokenization: tallying the matched pretokens

  /** How many of the matched strings become the symbol tuple w. */
  function MatchCount(matches: seq<string>, w: Word): nat
  {
    if matches == [] then 0
    else MatchCount(matches[..|matches| - 1], w) + (if WordToByteTuple(matches[|matches| - 1]) == w then 1 else 0)
  }

  /** t is the tally of the matched strings ms. */
  ghost predicate TallyOf(t: Table<Word, int>, ms: seq<string>)
  {
    && DistinctKeys(t)
    && (forall w :: Count(t, w) == MatchCount(ms, w))
    && (forall w :: w in Keys(t) <==> MatchCount(ms, w) > 0)
    && Total(t) == |ms|
  }

  /** Counting one more match keeps the table the tally of the longer list. */
  lemma TallyStep(t: Table<Word, int>, ms: seq<string>, m: string)
    requires TallyOf(t, ms)
    ensures TallyOf(Add(t, WordToByteTuple(m), 1), ms + [m])
  {
    var w := WordToByteTuple(m);
    CountAdd(t, w, 1);
    PutDistinct(t, w, Count(t, w) + 1);
    TotalAdd(t, w, 1);
    assert (ms + [m])[..|ms|] == ms;
  }

  /**
   * The frequency table of pretokenization(text_chunk), given the pattern's matches in
   * order: one key per distinct symbol tuple, counting how many matches produce it.
   */
  method Tally(matches: seq<string>) returns (wordFrequencies: Table<Word, int>)
    ensures DistinctKeys(wordFrequencies)
    ensures forall w :: Count(wordFrequencies, w) == MatchCount(matches, w)
    ensures forall w :: w in Keys(wordFrequencies) <==> MatchCount(matches, w) > 0
    ensures Total(wordFrequencies) == |matches|
  {
    wordFrequencies := [];
    for i := 0 to |matches|
      invariant TallyOf(wordFrequencies, matches[..i])
    {
      var byteTuple := WordToByteTuple(matches[i]);
      TallyStep(wordFrequencies, matches[..i], matches[i]);
      assert matches[..i] + [matches[i]] == matches[..i + 1];
      wordFrequencies := Add(wordFrequencies, byteTuple, 1);
    }
    assert matches[..|matches|] == matches;
  }

  // ---------------------------------------------------------------------------------
  // Reducing shard tallies

  /** Summing local into d adds local's count to d's for every key and unites the keys. */
  lemma MergeCounts(d: Table<Word, int>, local: Table<Word, int>)
    requires DistinctKeys(d) && DistinctKeys(local)
    ensures DistinctKeys(AddAll(d, local))
    ensures Keys(AddAll(d, local)) == Keys(d) + Keys(local)
    ensures forall w :: Count(AddAll(d, local), w) == Count(d, w) + Count(local, w)
  {
    AddAllDistinct(d, local);
    AddAllCount(d, local);
    forall w ensures SumAt(local, w) == Count(local, w) {
      SumAtCount(local, w);
    }
  }

  /** Summing two shards into a table in either order gives equal dicts. */
  lemma MergeOrderIrrelevant(d: Table<Word, int>, a: Table<Word, int>, b: Table<Word, int>)
    requires DistinctKeys(d) && DistinctKeys(a) && DistinctKeys(b)
    ensures SameTable(AddAll(AddAll(d, a), b), AddAll(AddAll(d, b), a))
  {
    MergeCounts(d, a);
    MergeCounts(AddAll(d, a), b);
    MergeCounts(d, b);
    MergeCounts(AddAll(d, b), a);
  }

  /** for local_counts in shard results: _merge(local_counts) */
  function Reduce(d: Table<Word, int>, shards: seq<Table<Word, int>>): Table<Word, int>
    decreases |shards|
  {
    if shards == [] then d else Reduce(AddAll(d, shards[0]), shards[1..])
  }

  /** The count of w summed over all shards. */
  function ShardSum(shards: seq<Table<Word, int>>, w: Word): int
  {
    if shards == [] then 0 else Count(shards[0], w) + ShardSum(shards[1..], w)
  }

  /** The keys of all shards together. */
  function ShardKeys(shards: seq<Table<Word, int>>): set<Word>
  {
    if shards == [] then {} else Keys(shards[0]) + ShardKeys(shards[1..])
  }

  ghost predicate AllDistinct(shards: seq<Table<Word, int>>)
  {
    forall i :: 0 <= i < |shards| ==> DistinctKeys(shards[i])
  }

  /** The reduced table counts, for every key, its old count plus its count in every shard. */
  lemma {:induction false} ReduceCounts(d: Table<Word, int>, shards: seq<Table<Word, int>>)
    requires DistinctKeys(d) && AllDistinct(shards)
    ensures DistinctKeys(Reduce(d, shards))
    ensures Keys(Reduce(d, shards)) == Keys(d) + ShardKeys(shards)
    ensures forall w :: Count(Reduce(d, shards), w) == Count(d, w) + ShardSum(shards, w)
    decreases |shards|
  {
    if shards != [] {
      MergeCounts(d, shards[0]);
      ReduceCounts(AddAll(d, shards[0]), shards[1..]);
    }
  }

  /** Taking shard j out of the list takes its count out of the sum and keeps the rest. */
  lemma {:induction false} ShardRemove(shards: seq<Table<Word, int>>, j: nat)
    requires j < |shards|
    ensures forall w :: ShardSum(shards, w) == Count(shards[j], w) + ShardSum(shards[..j] + shards[j + 1..], w)
    ensures ShardKeys(shards) == Keys(shards[j]) + ShardKeys(shards[..j] + shards[j + 1..])
  {
    if j > 0 {
      var rest := shards[1..];
      ShardRemove(rest, j - 1);
      assert shards[..j] + shards[j + 1..] == [shards[0]] + (rest[..j - 1] + rest[j..]);
    } else {
      assert shards[..j] + shards[j + 1..] == shards[1..];
    }
  }

  /**
   * Shard-order invariance: reducing the same shard tallies in any order (any permutation
   * of the list) yields an equal global table.
   */
  lemma {:induction false} ReduceAnyOrder(d: Table<Word, int>, s1: seq<Table<Word, int>>, s2: seq<Table<Word, int>>)
    requires DistinctKeys(d) && AllDistinct(s1) && AllDistinct(s2)
    requires multiset(s1) == multiset(s2)
    ensures SameTable(Reduce(d, s1), Reduce(d, s2))
  {
    ReduceCounts(d, s1);
    ReduceCounts(d, s2);
    SumsAgree(s1, s2);
  }

  lemma {:induction false} SumsAgree(s1: seq<Table<Word, int>>, s2: seq<Table<Word, int>>)
    requires multiset(s1) == multiset(s2)
    ensures forall w :: ShardSum(s1, w) == ShardSum(s2, w)
    ensures ShardKeys(s1) == ShardKeys(s2)
    decreases |s1|
  {
    if s1 == [] {
      assert s2 == [] by {
        assert |multiset(s2)| == 0;
      }
    } else {
      assert s1[0] in multiset(s2);
      var j :| 0 <= j < |s2| && s2[j] == s1[0];
      var s2' := s2[..j] + s2[j + 1..];
      assert s2 == s2[..j] + [s2[j]] + s2[j + 1..];
      assert multiset(s2) == multiset(s2[..j]) + multiset{s2[j]} + multiset(s2[j + 1..]);
      assert s1 == [s1[0]] + s1[1..];
      assert multiset(s1) == multiset{s1[0]} + multiset(s1[1..]);
      assert multiset(s2') == multiset(s2[..j]) + multiset(s2[j + 1..]);
      forall x ensures multiset(s1[1..])[x] == multiset(s2')[x] {
        assert multiset(s1)[x] == multiset(s2)[x];
      }
      assert multiset(s1[1..]) == multiset(s2');
      SumsAgree(s1[1..], s2');
      ShardRemove(s2, j);
    }
  }

  /**
   * The state of PretokenizerMP that persists across calls: the global frequency table,
   * a defaultdict(int) from symbol tuple to count.
   */
  class Pretokenizer {
    const numProcesses: nat
    const splitSpecialToken: seq<Byte>
    var globalCounts: Table<Word, int>

    constructor (numProcesses: nat, splitSpecialToken: seq<Byte>)
      ensures this.numProcesses == numProcesses && this.splitSpecialToken == splitSpecialToken
      ensures globalCounts == []
    {
      this.numProcesses := numProcesses;
      this.splitSpecialToken := splitSpecialToken;
      globalCounts := [];
    }

    /** _merge(local_counts): global_counts[token] += count for every item, in order. */
    method Merge(localCounts: Table<Word, int>)
      modifies this
      ensures globalCounts == AddAll(old(globalCounts), localCounts)
    {
      var i := 0;
      while i < |localCounts|
        invariant 0 <= i <= |localCounts|
        invariant AddAll(globalCounts, localCounts[i..]) == AddAll(old(globalCounts), localCounts)
      {
        var (token, count) := localCounts[i];
        assert localCounts[i..][1..] == localCounts[i + 1..];
        globalCounts := Add(globalCounts, token, count);
        i := i + 1;
      }
    }

    /**
     * run(): cut the file into worker ranges, let the worker tally each range, and merge
     * the tallies in task order.
     */
    method Run(file: seq<Byte>, worker: ((int, int)) -> Table<Word, int>) returns (counts: Table<Word, int>)
      requires numProcesses >= 1
      modifies this
      ensures exists boundaries ::
                Increasing(boundaries) && |boundaries| >= 1 &&
                boundaries[0] == 0 && boundaries[|boundaries| - 1] == |file| &&
                (forall b :: b in boundaries <==> IsBoundary(file, splitSpecialToken, numProcesses, b)) &&
                counts == Reduce(old(globalCounts), ShardsOf(Tasks(boundaries), worker))
      ensures counts == globalCounts
    {
      var boundaries := FindChunkBoundaries(file, numProcesses, splitSpecialToken);
      var tasks := Tasks(boundaries);
      var shards := ShardsOf(tasks, worker);
      var i := 0;
      while i < |shards|
        invariant 0 <= i <= |shards|
        invariant Reduce(globalCounts, shards[i..]) == Reduce(old(globalCounts), shards)
      {
        assert shards[i..][1..] == shards[i + 1..];
        Merge(shards[i]);
        i := i + 1;
      }
      counts := globalCounts;
    }
  }

  /** pool.starmap(worker, tasks): the worker's tally of each range, in task order. */
  function ShardsOf(tasks: seq<(int, int)>, worker: ((int, int)) -> Table<Word, int>): seq<Table<Word, int>>
  {
    seq(|tasks|, i requires 0 <= i < |tasks| => worker(tasks[i]))
  }
}
