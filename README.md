# Token packer of `CharDataset`, modelled in Dafny

`CharDataset` (data.py) streams a code corpus, tokenizes it, and yields
next-token-prediction pairs. Its own logic is small. The batch packer
`convert_to_features` flattens the tokenizer's per-record token lists field by
field. It rounds the first field's length down to a multiple of the window
`W = block_size + 1` and cuts every field into consecutive chunks of `W`
tokens, dropping the rest. `__iter__` then turns each `input_ids` chunk into
the pair `(chunk[:-1], chunk[1:])`.

This project models that logic as pure functions over integer sequences and
proves what it guarantees. The modules are:

- `PySeq` (pyseq.dfy): the Python primitives the packer uses, with their
  Python meaning. `sum(lists, [])` is a left fold. Slices clamp their bounds.
  `range` is covered for a positive step.
- `Features` (features.dfy): `convert_to_features`. The tokenizer's output is
  a sequence of `Column`s in the dict's key order, because the packer measures
  the batch on its first key.
- `CharDataset` (char_dataset.dfy): the shift, one batch's pairs, and one pass
  over a sequence of batches (`Epoch`). It also has a reference definition,
  `WindowPairs`, that cuts one window at a time, and lemmas that tie the
  packer and the shift to it.
- `Wrappers` (wrappers.dfy): `Option`. `None` stands for the Python exception
  raised at that point.

data.py does not validate `block_size`, so the model takes `blockSize: nat`,
and `blockSize == 0` is allowed: `W` is 1 and every pair is two empty lists,
as in Python.

## Model

| member | source | states |
|---|---|---|
| PySeq.Concat | data.py:33 | `sum(lists, [])` as a left fold of `+`; specified by `ConcatIsFlatten`, `ConcatLength`, `Placement` and `Order` |
| PySeq.ConcatIsFlatten | data.py:33 | `sum(lists, [])`, folded from the left, equals the right-recursive flattening of the per-record lists |
| PySeq.ConcatAppend | data.py:33 | flattening distributes over appending record lists: the records of a second group follow those of the first |
| PySeq.ConcatLength | data.py:33-34 | the buffer length `total_length` is the sum of the per-record lengths |
| PySeq.ConcatSplit | data.py:33 | the buffer is the records before record k, then record k unchanged, then the records after it |
| PySeq.Placement | data.py:33 | record k occupies exactly positions `Offset(k) .. Offset(k) + len(record k)` of the buffer |
| PySeq.Order | data.py:33 | every token of record k sits at an earlier buffer position than every token of a later record k', and each keeps its value |
| PySeq.Slice | data.py:40 | Python `t[i:j]` with clamping: its length, that element k is `t[i + k]`, and that it is the exact slice when `i <= j <= len(t)` |
| PySeq.Range | data.py:40 | `range(start, stop, step)` for a positive step: element k is `start + k * step`, and every element lies in `[start, stop)` |
| PySeq.RangeReachesStop | data.py:40 | `range` stops only where one step more from its last element reaches or passes `stop` |
| PySeq.RangeOfMultiple | data.py:37-40 | `range(0, n * W, W)` has exactly n elements |
| Features.Chunks | data.py:40 | `[t[i : i + W] for i in range(0, total, W)]`; specified by `ChunksAt` |
| Features.Buffers | data.py:33 | `concatenated_examples`, every field flattened in field order; specified through `ConvertToFeaturesChunks` and `FirstFieldWindows` |
| Features.UsableLength | data.py:37 | the truncated length is a multiple of `W` with the same quotient, and drops fewer than `W` tokens |
| Features.ConvertToFeatures | data.py:30-43 | an error exactly when the dict has no key (IndexError at line 34); otherwise one output field per input field, with the same names in the same order |
| Features.ChunksAt | data.py:39-42 | chunking over `range(0, n * W, W)` gives n chunks, and chunk j is `t[j*W : (j+1)*W]` |
| Features.ConvertToFeaturesChunks | data.py:34-42 | every field gets `T / W` chunks, where T is the length of the first field's buffer, and chunk j of every field is cut at the same boundaries `[j*W, (j+1)*W)` |
| Features.FirstFieldWindows | data.py:33-42 | first field: `T / W` chunks, each exactly `W` tokens (no padding), chunk j is `buffer[j*W .. (j+1)*W]`, and the chunks concatenated are `buffer[.. (T / W) * W]` |
| Features.WindowsConcat | data.py:39-40 | consecutive non-overlapping windows laid end to end give back the buffer's prefix |
| Features.ParallelFieldWindows | data.py:39-42 | a field at least as long as the first (the attention mask) also gets chunks of exactly `W` tokens at the same boundaries |
| Features.ShortBatch | data.py:37-42 | a first buffer shorter than `W` yields zero chunks in every field and no error |
| Features.TwoWindows | data.py:37-42 | a first buffer of exactly `2W` tokens yields the two chunks `[0, W)` and `[W, 2W)` |
| CharDataset.Shift | data.py:59-60 | `(chunk[:-1], chunk[1:])`: both halves are one shorter than a non-empty chunk, `y[i] == x[i+1]`, the last target is the chunk's last token, and an empty chunk gives two empty lists |
| CharDataset.Lookup | data.py:57 | `row["input_ids"]` succeeds exactly when a field of that name exists, and returns that field's rows |
| CharDataset.Iterate | data.py:56-61 | the shift of every row, in row order; specified by `IterateWindows` |
| CharDataset.BatchPairs | data.py:30-61 | the pairs one batch yields, or the exception it raises; specified by `BatchPairsWindows` and `BatchPairsRaises` |
| CharDataset.BatchPairsRaises | data.py:31-57 | a batch raises exactly when the dict has no key (IndexError at line 34), or when it has no `input_ids` field and packs to at least one row (KeyError at line 57); a batch packed to no rows raises nothing |
| CharDataset.NoRowsWhenShort | data.py:34-42 | the packed batch has no rows exactly when the first buffer is shorter than `W` |
| CharDataset.WindowPairsAt | data.py:56-60 | the reference pairs of a buffer of T tokens: `T / W` pairs, pair j being `(buffer[j*W .. j*W+block_size], buffer[j*W+1 .. (j+1)*W])` |
| CharDataset.WindowPairShift | data.py:39-40 | pair j of what follows the first window is pair j + 1 of the whole buffer |
| CharDataset.WindowPairsAligned | data.py:56-60 | every pair has `block_size` inputs and `block_size` targets, `y[i] == x[i+1]`, and the last target is the buffer token right after the pair's inputs |
| CharDataset.WindowPairOfPrefix | data.py:40 | a window pair of a buffer prefix is the same window pair of the whole buffer |
| CharDataset.DroppedRemainder | data.py:35-37 | the pairs depend only on `buffer[.. (T / W) * W]`: the dropped remainder never reaches any pair |
| CharDataset.ShiftWindow | data.py:40-60 | shifting the chunk `buffer[j*W .. (j+1)*W]` gives pair j of the buffer |
| CharDataset.IterateWindows | data.py:56-61 | shifting a buffer's consecutive windows in order gives exactly the buffer's reference pairs |
| CharDataset.BatchPairsWindows | data.py:30-61 | with `input_ids` as the first field, one batch yields exactly the reference pairs of its flattened `input_ids` buffer |
| CharDataset.Epoch | data.py:54-61 | one pass over the batches: their pairs in order, stopped by the first exception; specified by `EpochWindows`, `EpochStops` and `EmptyMappedBatchSkipped` |
| CharDataset.EpochWindows | data.py:54-61 | a pass over well-formed batches raises nothing and yields each batch's reference pairs, batch after batch, with no carry-over between batches |
| CharDataset.EpochStops | data.py:54-61 | a batch that raises ends the pass: the pairs yielded are those of the earlier batches, whatever the later batches hold |
| CharDataset.EmptyMappedBatchSkipped | data.py:56-57 | a batch with no `input_ids` that packs to no rows raises nothing, and the pass goes on to yield the next batch's pairs |

## Left out

- Loading the corpus (`load_dataset` with streaming, `with_format("torch")`, data.py:17-22) is remote or disk I/O. Grouping records into batches is decided inside `ds.map(..., batched=True)` (data.py:46-50). The model takes the batches as given.
- The tokenizer (data.py:24, 31) and `vocab_size` (data.py:63-65) call into an opaque BPE model. The model starts from the token lists the tokenizer returns, in its dict's key order.
- `self.ds.shuffle()` (data.py:55) has an unspecified algorithm. `Epoch` takes the batches in whatever order the dataset yields them.
- `torch.tensor(..., dtype=torch.long)` (data.py:59-60): pairs are plain `seq<int>`, and the 64-bit range of token ids is not modelled.
- Logging verbosity and the `TOKENIZERS_PARALLELISM` variable (data.py:14-15) are process configuration.
- Negative `block_size` is not modelled. `block_size = -1` makes `W = 0`, and line 37 raises ZeroDivisionError. Smaller values make `W` negative, and Python's floor division then leaves `range(0, total, W)` empty.
- The rows of the mapped dataset are modelled by the `input_ids` column alone. `remove_columns=["content"]` (data.py:48) drops only `content`, so any other corpus column stays in the mapped batch with one row per record. Those kept corpus columns, and datasets' check that every column of a mapped batch has the same number of rows, are not modelled. `Features.ConvertToFeaturesChunks` shows only that the packer's own output fields agree with each other.
- The generator's laziness is not modelled. `Epoch` describes everything one pass yields, including the point where an exception stops it.
