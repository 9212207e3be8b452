/**
 The batch packer `convert_to_features` nested in `CharDataset.__init__`:
 the tokenizer's output for one batch, field by field, is flattened, cut down
 to a multiple of the window `block_size + 1` measured on the first field,
 and sliced into consecutive windows of that size.
 */
module Features {
  import opened Wrappers
  import opened PySeq

  /**
   One field of a batch: its name (`input_ids`, `attention_mask`, ...) and one
   list per record. The tokenizer's dict is a sequence of these, in the
   dict's key order, since the packer measures the batch on its first key.
   */
  datatype Column = Column(name: string, rows: seq<seq<int>>)

  /** `(total_length // block_size) * block_size`: the largest multiple of `w` not above `total`. */
  function UsableLength(total: nat, w: nat): (r: nat)
    requires w > 0
    ensures r % w == 0 && r / w == total / w
    ensures r <= total < r + w
  {
    var q := total / w;
    DivUnique(q * w, w, q, 0);
    q * w
  }

  /** `[t[i : i + w] for i in range(0, total, w)]`. */
  function Chunks(t: seq<int>, total: nat, w: nat): (r: seq<seq<int>>)
    requires w > 0
  {
    var starts := Range(0, total, w);
    seq(|starts|, j requires 0 <= j < |starts| => Slice(t, starts[j], starts[j] + w))
  }

  /** The flattened buffer of every field, in field order (`concatenated_examples`). */
  function Buffers(examples: seq<Column>): seq<seq<int>>
  {
    seq(|examples|, k requires 0 <= k < |examples| => Concat(examples[k].rows))
  }

  /**
   `convert_to_features` applied to the tokenizer's output. A dict with no key
   makes `list(examples.keys())[0]` raise IndexError: `None`.
   */
  function ConvertToFeatures(examples: seq<Column>, blockSize: nat): (r: Option<seq<Column>>)
    ensures r.None? <==> |examples| == 0
    ensures r.Some? ==> |r.value| == |examples|
    ensures r.Some? ==> forall k :: 0 <= k < |examples| ==> r.value[k].name == examples[k].name
  {
    if |examples| == 0 then None
    else
      // the window: one token more than the block, so that targets can be shifted
      var w := blockSize + 1;
      var concatenated := Buffers(examples);
      var total := UsableLength(|concatenated[0]|, w);
      Some(seq(|examples|, k requires 0 <= k < |examples| =>
        Column(examples[k].name, Chunks(concatenated[k], total, w))))
  }

  /**
   Chunking over `range(0, n * w, w)` gives `n` chunks, chunk `j` being the
   buffer's slice `[j * w, (j + 1) * w)`.
   */
  lemma ChunksAt(t: seq<int>, n: nat, w: nat)
    requires w > 0
    ensures |Chunks(t, n * w, w)| == n
    ensures forall j :: 0 <= j < n ==> Chunks(t, n * w, w)[j] == Slice(t, j * w, j * w + w)
  {
    var total := n * w;
    RangeOfMultiple(n, w);
    forall j | 0 <= j < n ensures Chunks(t, total, w)[j] == Slice(t, j * w, j * w + w) {
      ChunkAt(t, total, w, j);
    }
  }

  /** The chunk at index `j` of the comprehension starts at `j * w`. */
  lemma ChunkAt(t: seq<int>, total: nat, w: nat, j: nat)
    requires w > 0 && j < |Range(0, total, w)|
    ensures Chunks(t, total, w)[j] == Slice(t, j * w, j * w + w)
  {
    ChunkAtStart(t, total, w, j, Range(0, total, w)[j]);
  }

  lemma ChunkAtStart(t: seq<int>, total: nat, w: nat, j: nat, start: nat)
    requires w > 0 && j < |Range(0, total, w)| && start == Range(0, total, w)[j]
    ensures Chunks(t, total, w)[j] == Slice(t, start, start + w)
  {
  }

  /**
   The whole packer. Every field gets `T / w` chunks, where `T` is the length
   of the first field's buffer; chunk `j` of every field is that field's
   buffer sliced at the same boundaries `[j * w, (j + 1) * w)`.
   */
  lemma ConvertToFeaturesChunks(examples: seq<Column>, blockSize: nat)
    requires |examples| > 0
    ensures var r := ConvertToFeatures(examples, blockSize);
            var w := blockSize + 1;
            var n := |Concat(examples[0].rows)| / w;
            && r.Some?
            && (forall k :: 0 <= k < |examples| ==> |r.value[k].rows| == n)
            && (forall k, j :: 0 <= k < |examples| && 0 <= j < n ==>
                  r.value[k].rows[j] == Slice(Concat(examples[k].rows), j * w, j * w + w))
  {
    var w := blockSize + 1;
    var n := |Concat(examples[0].rows)| / w;
    assert UsableLength(|Concat(examples[0].rows)|, w) == n * w;
    forall k | 0 <= k < |examples| {
      ChunksAt(Concat(examples[k].rows), n, w);
    }
  }

  lemma MulBound(j: nat, n: nat, w: nat)
    requires j < n
    ensures j * w + w <= n * w
  {
    MulLe(j + 1, n, w);
  }

  /**
   The first field is never padded: each of its chunks holds exactly `w`
   tokens, chunk `j` is `buffer[j * w .. (j + 1) * w]`, and the chunks laid end
   to end give back the buffer with only its last `T % w` tokens cut off.
   */
  lemma FirstFieldWindows(examples: seq<Column>, blockSize: nat)
    requires |examples| > 0
    ensures var r := ConvertToFeatures(examples, blockSize);
            var w := blockSize + 1;
            var buffer := Concat(examples[0].rows);
            var n := |buffer| / w;
            && r.Some?
            && |r.value[0].rows| == n
            && (forall j :: 0 <= j < n ==> j * w + w <= |buffer| && r.value[0].rows[j] == buffer[j * w .. j * w + w])
            && Concat(r.value[0].rows) == buffer[..n * w]
  {
    var w := blockSize + 1;
    var buffer := Concat(examples[0].rows);
    var n := |buffer| / w;
    var chunks := ConvertToFeatures(examples, blockSize).value[0].rows;
    ConvertToFeaturesChunks(examples, blockSize);
    forall j | 0 <= j < n ensures j * w + w <= |buffer| && chunks[j] == buffer[j * w .. j * w + w] {
      MulBound(j, n, w);
    }
    WindowsConcat(buffer, chunks, w, n);
  }

  /** Windows `[j * w, (j + 1) * w)` for `j < n`, concatenated, are the first `n * w` elements. */
  lemma {:induction false} WindowsConcat(buffer: seq<int>, chunks: seq<seq<int>>, w: nat, n: nat)
    requires w > 0 && n * w <= |buffer| && |chunks| == n
    requires forall j :: 0 <= j < n ==> j * w + w <= |buffer| && chunks[j] == buffer[j * w .. j * w + w]
    ensures Concat(chunks) == buffer[..n * w]
    decreases n
  {
    if n > 0 {
      MulSucc(n - 1, w);
      WindowsConcat(buffer, chunks[..n - 1], w, n - 1);
      assert buffer[..n * w] == buffer[..(n - 1) * w] + buffer[(n - 1) * w .. n * w];
    }
  }

  /**
   A field whose buffer is at least as long as the first field's (the
   attention mask, which the tokenizer makes parallel to the token ids) is
   not padded either: its chunks also hold exactly `w` tokens each.
   */
  lemma ParallelFieldWindows(examples: seq<Column>, blockSize: nat, k: nat)
    requires k < |examples|
    requires |Concat(examples[k].rows)| >= |Concat(examples[0].rows)|
    ensures var r := ConvertToFeatures(examples, blockSize);
            var w := blockSize + 1;
            var buffer := Concat(examples[k].rows);
            var n := |Concat(examples[0].rows)| / w;
            && r.Some?
            && |r.value[k].rows| == n
            && (forall j :: 0 <= j < n ==> j * w + w <= |buffer| && r.value[k].rows[j] == buffer[j * w .. j * w + w])
  {
    var w := blockSize + 1;
    var n := |Concat(examples[0].rows)| / w;
    ConvertToFeaturesChunks(examples, blockSize);
    forall j | 0 <= j < n ensures j * w + w <= |Concat(examples[k].rows)| {
      MulBound(j, n, w);
    }
  }

  /** A batch whose first buffer is shorter than a window yields no chunk in any field, and no error. */
  lemma ShortBatch(examples: seq<Column>, blockSize: nat)
    requires |examples| > 0 && |Concat(examples[0].rows)| < blockSize + 1
    ensures var r := ConvertToFeatures(examples, blockSize);
            r.Some? && forall k :: 0 <= k < |examples| ==> r.value[k].rows == []
  {
    ConvertToFeaturesChunks(examples, blockSize);
  }

  /** A first buffer of exactly two windows gives two chunks: tokens `[0, w)` and `[w, 2 * w)`. */
  lemma TwoWindows(examples: seq<Column>, blockSize: nat)
    requires |examples| > 0 && |Concat(examples[0].rows)| == 2 * (blockSize + 1)
    ensures var buffer := Concat(examples[0].rows);
            ConvertToFeatures(examples, blockSize).Some? &&
            ConvertToFeatures(examples, blockSize).value[0].rows == [buffer[..blockSize + 1], buffer[blockSize + 1..]]
  {
    var w := blockSize + 1;
    DivUnique(2 * w, w, 2, 0);
    FirstFieldWindows(examples, blockSize);
    var buffer := Concat(examples[0].rows);
    var chunks := ConvertToFeatures(examples, blockSize).value[0].rows;
    assert chunks[0] == buffer[0 * w .. 0 * w + w];
    assert chunks[1] == buffer[1 * w .. 1 * w + w];
    assert |chunks| == 2;
    assert buffer[1 * w .. 1 * w + w] == buffer[w..];
    assert chunks == [chunks[0], chunks[1]];
  }
}
