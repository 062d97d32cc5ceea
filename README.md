# Byte-level BPE: pre-tokenization, training and two encoders

This project models the core of a from-scratch byte-level BPE (byte-pair encoding) tokenizer in Dafny and proves properties of the model. The core has four parts:

- **`PretokenizerMP`** (`cs336_basics/pretokenization_multiprocsesing_4.py`). It cuts a file into chunks at occurrences of a special split token, pre-tokenizes every chunk into words of single-byte symbols, and adds the per-chunk word counts into one global count.
- **`BPETrainer`** (`cs336_basics/bpe_trainer.py`). It repeatedly counts adjacent symbol pairs, weighted by word frequency. It learns the most frequent pair, rewrites every word with it, and stops when the symbol set reaches the target size or no pair is left. Finally it numbers the symbols: single bytes first, then merged symbols in merge order.
- **`Tokenizer`** (`cs336_basics/tokenizer.py`). It encodes text with a heap of (rank, position) merge candidates, encodes a stream of texts, and decodes ids back to bytes.
- **`RecursiveBPETokenizer`** (`cs336_basics/recursive_bpe_tokenizer.py`). It encodes each pre-token by joining, round after round, the adjacent pair of smallest merge rank.

Modules:

| module | file | what it holds |
|---|---|---|
| `Results` | `results.dfy` | `Option` and `Result` |
| `Symbols` | `symbols.dfy` | Bytes, symbols (`Token`, a byte string) and words (`Word`, a list of symbols). Also `Flatten`, the UTF-8 encoder `Utf8`, the `KeyError` of a dict lookup (`LookupAll`) and the merge-rank dict (`Ranks`). |
| `Dict` | `dict.dfy` | Python's insertion-ordered dict as a list of (key, value) items, and `defaultdict(int)` counters |
| `Sorted` | `sorted.dfy` | `sorted(set(...))` over integers, and the ranges between consecutive boundaries |
| `Pretokenization` | `pretokenization.dfy` | Byte search, the chunk-boundary scan, the word tally, and the `Pretokenizer` class with `Merge` and `Run` |
| `BpeTrainer` | `bpe_trainer.dfy` | Pair counting and pair rewriting. The training run as a function (`TrainFrom`) and as the imperative `BPETrainer.Train`, plus vocab numbering. |
| `Tokenizer` | `tokenizer.dfy` | The heap encoder as written and corrected, the reverse vocab, `Decode`, and `EncodeIterable` |
| `RecursiveTokenizer` | `recursive_tokenizer.dfy` | The leftmost-smallest-rank merge loop and the `Encode` of the recursive tokenizer |

The imperative parts of the source are Dafny methods with loops. Each is proved equal to a specification function, and the properties are proved about that function. These methods are:

- the boundary scan (over an `array`);
- the tally;
- the pair counting and word rewriting;
- the training loop and vocab numbering;
- the heap loop, `encode`, `encode_iterable`;
- `_merge_sequence` and the recursive `encode`.

Objects whose fields change (`PretokenizerMP.global_counts`, `BPETrainer.merges`/`vocab`) are classes with `modifies` clauses.

Two details of the training code decide the results, and the model keeps them as written:

- **Tie-break.** `max(pair_counts, key=pair_counts.get)` (`cs336_basics/bpe_trainer.py:64`) returns the first pair of maximal count in the dict's insertion order.
- **Vocab.** `_build_vocab` (`cs336_basics/bpe_trainer.py:83-101`) numbers the accumulated symbol set: every initial single byte, then the joined symbol of each merge in merge order. Symbols that no longer appear in the rewritten words keep their ids.

## Model

| member | source | states |
|---|---|---|
| Pretokenization.WordToByteTuple | cs336_basics/pretokenization_multiprocsesing_4.py:21-23 | One single-byte symbol per UTF-8 byte of the word; the symbols joined give back the UTF-8 encoding |
| Pretokenization.Find | cs336_basics/pretokenization_multiprocsesing_4.py:56 | `bytes.find`: -1 when the token does not occur, otherwise an occurrence with none before it |
| Pretokenization.Window | cs336_basics/pretokenization_multiprocsesing_4.py:50-53 | A 4096-byte read at a position: the bytes of the file from that position, exactly 4096 of them or all that are left when fewer remain, and empty exactly when the position is at or past the end |
| Pretokenization.WindowOccurrence | cs336_basics/pretokenization_multiprocsesing_4.py:56-58 | A token found at offset `found` of the window read at `pos` occurs in the file at `pos + found` |
| Pretokenization.SnapBounds | cs336_basics/pretokenization_multiprocsesing_4.py:49-60 | The scan from a guess ends no earlier than the guess and no later than the file size; when it ends before the end, the split token occurs there |
| Pretokenization.SnapFirst | cs336_basics/pretokenization_multiprocsesing_4.py:51-60 | The scan stops at the first occurrence it can see: no later than any occurrence of the split token that lies wholly inside one of the windows read from the guess |
| Pretokenization.SnapInWindow | cs336_basics/pretokenization_multiprocsesing_4.py:51-60 | When the scan stops short of the end of the file, it stops on an occurrence of the split token lying wholly inside one of the windows read from the guess, so a copy straddling two windows is never chosen |
| Pretokenization.SnapEnd | cs336_basics/pretokenization_multiprocsesing_4.py:51-60 | The scan stops before the end of the file exactly when one of the consecutive 4096-byte windows from the guess contains the split token |
| Pretokenization.Probe | cs336_basics/pretokenization_multiprocsesing_4.py:49-60 | The `while True` read loop returns the position the scan specification gives |
| Pretokenization.FindChunkBoundaries | cs336_basics/pretokenization_multiprocsesing_4.py:37-62 | The boundaries are strictly ascending, start at 0 and end at the file size. They are exactly 0, the file size and each evenly spaced guess moved forward to the first split token found inside one of the 4096-byte windows read from it (or to the end). |
| Pretokenization.BoundaryValues | cs336_basics/pretokenization_multiprocsesing_4.py:42-60 | After the probes, the list holds 0, the file size, the moved guesses and nothing else, all within [0, file size] |
| Pretokenization.SortedBoundaries | cs336_basics/pretokenization_multiprocsesing_4.py:62 | `sorted(set(...))` of the probed list starts at 0, ends at the file size and holds the same boundaries |
| Pretokenization.TasksCoverFile | cs336_basics/pretokenization_multiprocsesing_4.py:95 | The (start, end) tasks between consecutive boundaries add up to the file size, and each byte of the file lies in exactly one task |
| Pretokenization.Tally | cs336_basics/pretokenization_multiprocsesing_4.py:26-34 | The word counts are the number of matches with each byte form. Keys are distinct, a word is a key iff it occurs, and the counts sum to the number of matches. |
| Pretokenization.MergeCounts | cs336_basics/pretokenization_multiprocsesing_4.py:87-89 | Adding a local count into the global count adds the two counts word by word, with the union of the words as keys |
| Pretokenization.MergeOrderIrrelevant | cs336_basics/pretokenization_multiprocsesing_4.py:98-100 | Merging two local counts in either order gives the same dict (same keys and counts) |
| Pretokenization.ReduceCounts | cs336_basics/pretokenization_multiprocsesing_4.py:98-100 | Merging all worker results adds every worker's count to the starting count, word by word |
| Pretokenization.ReduceAnyOrder | cs336_basics/pretokenization_multiprocsesing_4.py:98-100 | Merging the same worker results in any order gives the same dict |
| Pretokenization.Pretokenizer.constructor | cs336_basics/pretokenization_multiprocsesing_4.py:10-14 | Stores the process count and the split token; the global count starts empty |
| Pretokenization.Pretokenizer.Merge | cs336_basics/pretokenization_multiprocsesing_4.py:87-89 | `_merge` adds every (word, count) item into the global counts in order |
| Pretokenization.Pretokenizer.Run | cs336_basics/pretokenization_multiprocsesing_4.py:91-103 | The counts `run` returns are the new global counts. They are what the worker gives for the ranges between the boundaries `find_chunk_boundaries` computes for this split token and process count, merged in order. Those boundaries ascend from 0 to the file size. |
| Symbols.Adjacent | cs336_basics/bpe_trainer.py:9-11 | The adjacent pairs of a word, position by position (none for a word of fewer than two symbols); the same zip also turns chunk boundaries into (start, end) ranges |
| BpeTrainer.CountPairs | cs336_basics/bpe_trainer.py:13-20 | The nested counting loops compute the pair-count dict |
| BpeTrainer.CountPairsCounts | cs336_basics/bpe_trainer.py:13-20 | Each pair's count is the sum, over words, of frequency times the pair's occurrences. A pair is a key iff it occurs in some word, and there are no duplicate keys. |
| BpeTrainer.MergePairInSequence | cs336_basics/bpe_trainer.py:22-40 | The left-to-right rewrite loop computes the rewritten word |
| BpeTrainer.MergeSeqFlatten | cs336_basics/bpe_trainer.py:30-40 | Rewriting a word keeps its bytes |
| BpeTrainer.MergeSeqLength | cs336_basics/bpe_trainer.py:33-39 | Rewriting never lengthens a word. It keeps the length exactly when the pair does not occur, and then the word is unchanged. With non-empty symbols, each merge removes one symbol and adds one joined symbol: the length plus the count of the joined symbol is unchanged. |
| BpeTrainer.MergeSeqExhaustive | cs336_basics/bpe_trainer.py:33-39 | For non-empty symbols A and B, the rewritten word holds no adjacent (A, B) |
| BpeTrainer.RewriteAll | cs336_basics/bpe_trainer.py:72-77 | The rewrite loop over all words computes the new frequency dict |
| BpeTrainer.RewriteCounts | cs336_basics/bpe_trainer.py:72-77 | The new dict has distinct keys. Each new word's frequency is the sum over the old words that rewrite to it, and the total frequency is kept. |
| BpeTrainer.MassDecreases | cs336_basics/bpe_trainer.py:54-77 | Rewriting with a pair that occurs strictly lowers the total number of symbols, so the training loop terminates |
| BpeTrainer.BestIndex | cs336_basics/bpe_trainer.py:64 | `max(..., key=get)`: an item of maximal count that no earlier item equals |
| BpeTrainer.BestPairMaximal | cs336_basics/bpe_trainer.py:64 | The learned pair is a key whose count no key exceeds, and every key before it has a strictly smaller count |
| BpeTrainer.CollectTokens | cs336_basics/bpe_trainer.py:48-51 | The nested loops collect exactly the symbols of all words |
| BpeTrainer.TrainRounds | cs336_basics/bpe_trainer.py:54-77 | In every round of a run, the pairs were counted, the round learned the pair `max` picks, and the next table is the rewrite with that pair |
| BpeTrainer.TrainMaximal | cs336_basics/bpe_trainer.py:58-64 | Every learned pair occurs in its round's table and has the maximal count there, strictly above every earlier key |
| BpeTrainer.TrainTokens | cs336_basics/bpe_trainer.py:67-69 | The final symbol set is the initial set plus the joined symbol of every learned pair |
| BpeTrainer.TrainStops | cs336_basics/bpe_trainer.py:54-61 | A run ends only when the symbol set has reached the target size or the last table has no pair |
| BpeTrainer.TrainBelowTarget | cs336_basics/bpe_trainer.py:54 | Every round of a run began with fewer symbols than the target size: the start set plus the symbols joined so far |
| BpeTrainer.TrainWithinTarget | cs336_basics/bpe_trainer.py:54-69 | A run that starts below the target size ends with at most the target size of symbols |
| BpeTrainer.TrainTotals | cs336_basics/bpe_trainer.py:72-77 | Every table of a run has the total frequency of the input |
| BpeTrainer.ByteTokens | cs336_basics/bpe_trainer.py:90 | `sorted([v for v in vocab if len(v) == 1])`: exactly the single-byte symbols, in ascending byte order |
| BpeTrainer.FirstAppearancesMembers | cs336_basics/bpe_trainer.py:98-102 | The merged symbols that get new ids are exactly those not already numbered |
| BpeTrainer.FirstAppearancesOrder | cs336_basics/bpe_trainer.py:98-102 | Those symbols are numbered in the order of their first appearance among the merges |
| BpeTrainer.AssignIdsExtends | cs336_basics/bpe_trainer.py:92-95 | Numbering distinct new symbols from the next free id extends a dense numbering by those symbols |
| BpeTrainer.AssignNewIdsExtends | cs336_basics/bpe_trainer.py:98-102 | Numbering merged symbols, skipping those already present, extends the dense numbering by their first appearances |
| BpeTrainer.BuildVocabDense | cs336_basics/bpe_trainer.py:83-102 | `_build_vocab` gives ids 0, 1, 2, … with no gaps: first the sorted single bytes, then the new merged symbols in merge order. No symbol is numbered twice. |
| BpeTrainer.BPETrainer.constructor | cs336_basics/bpe_trainer.py:4-7 | Stores the target size; merges and vocab start empty |
| BpeTrainer.BPETrainer.Train | cs336_basics/bpe_trainer.py:42-81 | `self.merges` is extended with the pairs of the training run from the words' symbols, and `self.vocab` is built from the run's final symbol set; both are returned |
| BpeTrainer.BPETrainer.BuildVocab | cs336_basics/bpe_trainer.py:83-102 | `_build_vocab` updates `self.vocab` to the numbering specified above and leaves the merges alone |
| Symbols.Ranks | cs336_basics/tokenizer.py:21 | `{pair: i for i, pair in enumerate(merges)}`: the learned pairs are the keys. Each key maps to an index holding it, and no later index holds it (the last duplicate wins). |
| Symbols.RanksOfDistinct | cs336_basics/recursive_bpe_tokenizer.py:9-11 | With no pair learned twice, each pair's rank is its index |
| Symbols.LookupAll | cs336_basics/tokenizer.py:96 | `[d[t] for t in tokens]` succeeds iff every symbol is a key, giving each symbol's id in order; otherwise it is the `KeyError` of the first missing symbol |
| Symbols.FlattenJoin | cs336_basics/recursive_bpe_tokenizer.py:43 | Joining two adjacent symbols keeps the bytes of the sequence |
| Tokenizer.Push | cs336_basics/tokenizer.py:66 | `heappush`: the entries are the old ones plus the new one, counted with duplicates, and the order is kept |
| Tokenizer.GetRank | cs336_basics/tokenizer.py:47-59 | `get_rank(i)` is a rank exactly when i is a pair position, the pair is a merge rule and its joined symbol has an id. That rank is the pair's. |
| Tokenizer.PushRank | cs336_basics/tokenizer.py:90-93 | Pushing position j adds one (rank, j) entry, counted with duplicates, exactly when `get_rank(j)` is a rank, and keeps the order |
| Tokenizer.InitialHeapCovers | cs336_basics/tokenizer.py:62-66 | The initial heap queues the current entry of every mergeable position |
| Tokenizer.DropStale | cs336_basics/tokenizer.py:75-77 | Dropping a popped entry whose rank is no longer current loses no mergeable position's entry |
| Tokenizer.JoinCovers | cs336_basics/tokenizer.py:87-93 | After a join, shifting later entries left and pushing the two neighbours queues every mergeable position again |
| Tokenizer.MergeLoopFlatten | cs336_basics/tokenizer.py:69-93 | The merge loop, as written or corrected, keeps the bytes and never lengthens the symbol list |
| Tokenizer.MergedFlatten | cs336_basics/tokenizer.py:41-93 | `encode`'s final symbols spell out the text's UTF-8 bytes, and there are no more of them than bytes |
| Tokenizer.MergedSmall | cs336_basics/tokenizer.py:43-44 | Texts of at most one byte are looked up byte by byte, unmerged |
| Tokenizer.NoPairLeft | cs336_basics/tokenizer.py:69-93 | The corrected loop, started with every mergeable position queued, ends with no mergeable position |
| Tokenizer.CorrectedLeavesNoPair | cs336_basics/tokenizer.py:69-93 | After the corrected encoder, no adjacent pair is both a merge rule and in the vocab when joined |
| Tokenizer.AsWrittenLeavesPair | cs336_basics/tokenizer.py:87 | On "abcd" with merges [(a, b), (c, d)], the loop as written ends with [ab, c, d]. The corrected loop gives [ab, cd]. |
| Tokenizer.Invert | cs336_basics/tokenizer.py:18 | `{v: k for k, v in vocab.items()}`: every symbol of the vocab is a key, mapped to the id of its last item |
| Tokenizer.InvertRoundTrip | cs336_basics/tokenizer.py:18 | Looking up in the vocab the id the reverse map gives for a symbol returns that symbol |
| Tokenizer.InvertInverse | cs336_basics/tokenizer.py:18 | When no symbol is held twice in the vocab, the reverse map sends each item's symbol back to that item's id, so the two maps are inverse to each other |
| Tokenizer.LookupIds | cs336_basics/tokenizer.py:104 | `[vocab[i] for i in ids]` succeeds iff every id is a key, giving each id's symbol in order; otherwise it is the `KeyError` of the first unknown id |
| Tokenizer.Tokenizer.constructor | cs336_basics/tokenizer.py:7-21 | Stores vocab, merges and special tokens, and builds the reverse map and the merge ranks |
| Tokenizer.Tokenizer.MergeWithHeap | cs336_basics/tokenizer.py:61-93 | The heap-building loop and the `while heap` loop end with the symbols the merge-loop specification gives |
| Tokenizer.Tokenizer.Encode | cs336_basics/tokenizer.py:39-96 | `encode` returns the ids of the final symbols of the merge loop, as written or corrected, or the `KeyError` of the first one without an id |
| Tokenizer.Tokenizer.EncodeOutcome | cs336_basics/tokenizer.py:96 | `encode`, as written and corrected, fails exactly when a final symbol has no id, and otherwise returns no more ids than the text has UTF-8 bytes |
| Tokenizer.Tokenizer.Decode | cs336_basics/tokenizer.py:103-105 | `decode` at the byte level succeeds iff every id is in the vocab, giving the ids' symbols joined; otherwise it is the `KeyError` of the first unknown id |
| Tokenizer.Tokenizer.RoundTrip | cs336_basics/tokenizer.py:39-105 | Decoding what `encode` returns, as written or corrected, gives back the text's UTF-8 bytes |
| Tokenizer.Tokenizer.EncodeStreamAppend | cs336_basics/tokenizer.py:98-101 | Streaming two lists of texts one after the other yields the first stream, then (unless it failed) the second |
| Tokenizer.Tokenizer.EncodeIterable | cs336_basics/tokenizer.py:98-101 | `encode_iterable` over `encode` as written (or corrected) yields every text's ids in turn and stops at the first text whose `encode` fails |
| RecursiveTokenizer.Candidates | cs336_basics/recursive_bpe_tokenizer.py:27-30 | `merge_candidates`: exactly the positions whose pair is a merge rule, in ascending order |
| RecursiveTokenizer.MinIndex | cs336_basics/recursive_bpe_tokenizer.py:36 | `min(..., key=rank)`: a candidate whose rank no candidate undercuts, and whose every earlier candidate has a strictly larger rank |
| RecursiveTokenizer.BestCandidate | cs336_basics/recursive_bpe_tokenizer.py:27-36 | The chosen position's rank is at most that of every ranked pair, and strictly below every ranked pair to its left |
| RecursiveTokenizer.Choose | cs336_basics/recursive_bpe_tokenizer.py:27-36 | One round finds nothing exactly when no adjacent pair is a merge rule. Otherwise it picks the leftmost pair of smallest rank. |
| RecursiveTokenizer.Join | cs336_basics/recursive_bpe_tokenizer.py:39-43 | Rebuilding around position i shortens the list by exactly one and keeps its bytes. Symbols before i stay, the new symbol is the pair joined, and later symbols move one place left. |
| RecursiveTokenizer.MergeSequenceSmall | cs336_basics/recursive_bpe_tokenizer.py:23-24 | Lists of at most one symbol come back unchanged |
| RecursiveTokenizer.MergeSequenceDone | cs336_basics/recursive_bpe_tokenizer.py:18-45 | `_merge_sequence` keeps the bytes, never lengthens the list, and ends with no adjacent pair that is a merge rule |
| RecursiveTokenizer.PiecesFlatten | cs336_basics/recursive_bpe_tokenizer.py:47-61 | The symbols of all pre-tokens spell out the UTF-8 bytes of the pre-tokens joined, with no more symbols than bytes |
| RecursiveTokenizer.RecursiveBPETokenizer.constructor | cs336_basics/recursive_bpe_tokenizer.py:5-11 | Stores the vocab and builds the merge ranks |
| RecursiveTokenizer.RecursiveBPETokenizer.MergeSequence | cs336_basics/recursive_bpe_tokenizer.py:18-45 | The `while True` loop ends with the list the merge specification gives |
| RecursiveTokenizer.RecursiveBPETokenizer.Encode | cs336_basics/recursive_bpe_tokenizer.py:47-63 | The nested loops return the ids of every pre-token's merged symbols in order. On a symbol missing from the vocab they stop with that symbol's `KeyError`, as the lookup of all pieces does. |

## Left out

- The GPT-2 regular expression (`self.pat.finditer`) is not modelled. The pre-tokenizer's tally and the recursive encoder take the list of matches as their input.
- Not modelled in the `worker` method:
  - decoding a chunk with `errors="ignore"`;
  - splitting on the special token;
  - `strip()`.

  `Pretokenizer.Run` takes the worker as a function parameter from a (start, end) task to its local count.
- File I/O (`seek`/`tell`/`read`) is not modelled: the file is a byte sequence. Also left out: `pickle` loading in `Tokenizer.from_files`, the `__main__` block, and `time.perf_counter` (so `run` does not return the elapsed time).
- `multiprocessing.Pool` is not modelled. `starmap` returns results in task order, so the model merges them in that order. `Pretokenization.ReduceAnyOrder` shows that any order gives the same counts.
- `heapq` is modelled as a list kept in ascending (rank, position) order. It pops the same entries in the same order as a binary heap, but its internal array layout is not modelled.
- Tokenizer.Tokenizer.Decode: returns the joined bytes. The final `decode("utf-8", errors="replace")` into a string is not modelled.
- `special_tokens` is stored by `Tokenizer` but never used by its code, so it plays no part in the model.
- The commented-out second `encode` in `cs336_basics/tokenizer.py` (a string literal, never run) is not modelled.
- Python strings containing lone surrogates cannot be represented: Dafny strings are sequences of Unicode scalar values, on which `Utf8` is total.
- Pretokenization.Pretokenizer.Run: requires at least one process, because `find_chunk_boundaries` divides by the process count and fails otherwise.
- Pretokenization.FindChunkBoundaries: requires at least one chunk; with 0 chunks `find_chunk_boundaries` raises ZeroDivisionError when computing the chunk size, and that error path is not modelled.
- `BPETrainer` stores its vocab as a Dafny map, so only the keys and ids of the dict it builds are modelled, not its insertion order.

## Findings

| source | as written | input that shows it | evidently intended | confidence | as-written member | corrected member |
|---|---|---|---|---|---|---|
| cs336_basics/tokenizer.py:87 | `tokens[i:i+2] = [merged]` moves every later symbol one place left, but queued heap entries keep their old positions. A later entry is then checked against the wrong pair, or discarded as out of range. | Merges [(a, b), (c, d)] with a, b, c, d, ab and cd all in the vocab, text "abcd". The pair at 0 is joined, the entry (1, 2) for "cd" now points past the last pair and is dropped, and `encode` ends with [ab, c, d]. | After a join, every queued position past it moves left by one too, so that no pair that is a merge rule with a joined symbol in the vocab is left. | not executed | Tokenizer.AsWrittenLeavesPair | Tokenizer.CorrectedLeavesNoPair |

`Tokenizer.Tokenizer.Encode`, `Encoded`, `EncodeStream`, `EncodeIterable`, `EncodeOutcome` and `RoundTrip` take a flag: `false` is the loop as written, as the program runs it, and `true` is the corrected loop. Everything proved about them holds for both. Only the no-pair-left property (`Tokenizer.CorrectedLeavesNoPair`) needs the correction.
