/**
 `CharDataset.__iter__`: every packed chunk of the `input_ids` field becomes
 an input/target pair, the target being the input moved on by one token.
 The pairs of one pass are those of its batches, batch after batch.
 */
module CharDataset {
  import opened Wrappers
  import opened PySeq
  import opened Features

  /** One training pair: the model reads `x` and is trained to predict `y`. */
  datatype Pair = Pair(x: seq<int>, y: seq<int>)

  /** The one field `__iter__` reads from each row. */
  const InputIds: string := "input_ids"

  /**
   `(chunk[:-1], chunk[1:])`. Python resolves the index `-1` to `len(chunk) - 1`,
   clamped at 0, so an empty chunk gives two empty lists. For a chunk of
   `w` tokens both halves hold `w - 1` tokens, target `i` is input `i + 1`,
   and the last target is the chunk's last token, which no input holds.
   */
  function Shift(chunk: seq<int>): (p: Pair)
    ensures |chunk| == 0 ==> p.x == [] && p.y == []
    ensures |chunk| > 0 ==> |p.x| == |p.y| == |chunk| - 1
    ensures |chunk| > 0 ==> p.x + [chunk[|chunk| - 1]] == chunk && [chunk[0]] + p.y == chunk
    ensures forall i :: 0 <= i < |p.y| - 1 ==> p.y[i] == p.x[i + 1]
    ensures |chunk| > 1 ==> p.y[|p.y| - 1] == chunk[|chunk| - 1]
  {
    var stop := if |chunk| > 0 then |chunk| - 1 else 0;
    Pair(Slice(chunk, 0, stop), Slice(chunk, 1, |chunk|))
  }

  /** `for chunk in self.ds: yield shifted(chunk["input_ids"])`, over the rows of one batch. */
  function Iterate(rows: seq<seq<int>>): seq<Pair>
  {
    seq(|rows|, i requires 0 <= i < |rows| => Shift(rows[i]))
  }

  /** `row[name]` on the mapped dataset: the first field with that name, `None` for a KeyError. */
  function Lookup(features: seq<Column>, name: string): (r: Option<seq<seq<int>>>)
    ensures r.Some? <==> exists k :: 0 <= k < |features| && features[k].name == name
    ensures r.Some? ==> exists k :: 0 <= k < |features| && features[k].name == name && features[k].rows == r.value
  {
    if |features| == 0 then None
    else if features[0].name == name then Some(features[0].rows)
    else
      var r := Lookup(features[1..], name);
      assert forall k :: 1 <= k < |features| ==> features[k] == features[1..][k - 1];
      r
  }

  /**
   The pairs one batch of tokenizer output yields: `convert_to_features`,
   then the shift of every chunk of `input_ids`. `None` when the packer
   raises (a batch with no field), or when the mapped batch has rows but no
   `input_ids` field: `chunk["input_ids"]` runs once per row, so a batch
   packed to no rows raises nothing, whatever its fields. Every packed field
   has the same number of rows, so the first one gives the count.
   */
  function BatchPairs(examples: seq<Column>, blockSize: nat): Option<seq<Pair>>
  {
    match ConvertToFeatures(examples, blockSize)
    case None => None
    case Some(features) =>
      match Lookup(features, InputIds)
      case None => if |features[0].rows| == 0 then Some([]) else None
      case Some(rows) => Some(Iterate(rows))
  }

  /**
   A batch raises exactly when the tokenizer's dict has no key, or when it
   has no `input_ids` field and its first buffer holds at least one window.
   */
  lemma BatchPairsRaises(examples: seq<Column>, blockSize: nat)
    ensures BatchPairs(examples, blockSize).None? <==>
              |examples| == 0 ||
              ((forall k :: 0 <= k < |examples| ==> examples[k].name != InputIds) &&
               |Concat(examples[0].rows)| >= blockSize + 1)
  {
    if |examples| > 0 {
      NoRowsWhenShort(examples, blockSize);
      var features := ConvertToFeatures(examples, blockSize).value;
      assert (forall k :: 0 <= k < |examples| ==> examples[k].name != InputIds) <==>
             (forall k :: 0 <= k < |features| ==> features[k].name != InputIds);
    }
  }

  /** The packed batch has no rows exactly when its first buffer is shorter than a window. */
  lemma NoRowsWhenShort(examples: seq<Column>, blockSize: nat)
    requires |examples| > 0
    ensures ConvertToFeatures(examples, blockSize).Some?
    ensures |ConvertToFeatures(examples, blockSize).value[0].rows| == 0 <==> |Concat(examples[0].rows)| < blockSize + 1
  {
    FirstFieldWindows(examples, blockSize);
    QuotientZero(|Concat(examples[0].rows)|, blockSize + 1);
  }

  /**
   Reference definition of the pairs a buffer yields: cut off one window of
   `blockSize + 1` tokens at a time, and stop when less than a window is left.
   */
  function WindowPairs(buffer: seq<int>, blockSize: nat): seq<Pair>
    decreases |buffer|
  {
    if |buffer| < blockSize + 1 then []
    else [Pair(buffer[..blockSize], buffer[1..blockSize + 1])] + WindowPairs(buffer[blockSize + 1..], blockSize)
  }

  /** Pair `j` of a buffer: the window `[j * w, (j + 1) * w)`, less its last token and less its first. */
  predicate IsWindowPair(p: Pair, buffer: seq<int>, blockSize: nat, j: nat)
  {
    var start := j * (blockSize + 1);
    && start + blockSize + 1 <= |buffer|
    && p == Pair(buffer[start .. start + blockSize], buffer[start + 1 .. start + blockSize + 1])
  }

  /**
   A buffer of `T` tokens yields `T / w` pairs, and pair `j` is
   `(buffer[j * w .. j * w + blockSize], buffer[j * w + 1 .. (j + 1) * w])`.
   */
  lemma {:induction false} WindowPairsAt(buffer: seq<int>, blockSize: nat)
    ensures |WindowPairs(buffer, blockSize)| == |buffer| / (blockSize + 1)
    ensures forall j :: 0 <= j < |WindowPairs(buffer, blockSize)| ==>
              IsWindowPair(WindowPairs(buffer, blockSize)[j], buffer, blockSize, j)
    decreases |buffer|
  {
    var w := blockSize + 1;
    var ps := WindowPairs(buffer, blockSize);
    if |buffer| < w {
      DivUnique(|buffer|, w, 0, |buffer|);
    } else {
      var rest := buffer[w..];
      WindowPairsAt(rest, blockSize);
      var q := |rest| / w;
      DivUnique(|buffer|, w, q + 1, |rest| % w);
      forall j | 0 <= j < |ps| ensures IsWindowPair(ps[j], buffer, blockSize, j) {
        if j > 0 {
          WindowPairShift(ps[j], buffer, blockSize, j - 1);
        }
      }
    }
  }

  /** Pair `j` of what follows the first window is pair `j + 1` of the buffer. */
  lemma WindowPairShift(p: Pair, buffer: seq<int>, blockSize: nat, j: nat)
    requires |buffer| >= blockSize + 1
    requires IsWindowPair(p, buffer[blockSize + 1..], blockSize, j)
    ensures IsWindowPair(p, buffer, blockSize, j + 1)
  {
    var w := blockSize + 1;
    var rest := buffer[w..];
    var start := j * w;
    MulSucc(j, w);
    assert (j + 1) * w == start + w;
    assert rest[start .. start + blockSize] == buffer[start + w .. start + w + blockSize];
    assert rest[start + 1 .. start + w] == buffer[start + w + 1 .. start + w + w];
  }

  /**
   Every pair a buffer yields has `blockSize` inputs and `blockSize`
   targets, target `i` is input `i + 1`, and the last target is the token
   just after the pair's inputs in the buffer.
   */
  lemma WindowPairsAligned(buffer: seq<int>, blockSize: nat, j: nat)
    requires j < |WindowPairs(buffer, blockSize)|
    ensures var p := WindowPairs(buffer, blockSize)[j];
            var start := j * (blockSize + 1);
            && |p.x| == |p.y| == blockSize
            && (forall i :: 0 <= i < blockSize - 1 ==> p.y[i] == p.x[i + 1])
            && start + blockSize < |buffer|
            && (blockSize > 0 ==> p.y[blockSize - 1] == buffer[start + blockSize])
  {
    WindowPairsAt(buffer, blockSize);
    PairAligned(WindowPairs(buffer, blockSize)[j], buffer, blockSize, j * (blockSize + 1));
  }

  lemma PairAligned(p: Pair, buffer: seq<int>, blockSize: nat, start: nat)
    requires start + blockSize + 1 <= |buffer|
    requires p == Pair(buffer[start .. start + blockSize], buffer[start + 1 .. start + blockSize + 1])
    ensures |p.x| == |p.y| == blockSize
    ensures forall i :: 0 <= i < blockSize - 1 ==> p.y[i] == p.x[i + 1]
    ensures blockSize > 0 ==> p.y[blockSize - 1] == buffer[start + blockSize]
  {
  }

  /** A window pair of a prefix of the buffer is the same window pair of the whole buffer. */
  lemma WindowPairOfPrefix(p: Pair, buffer: seq<int>, blockSize: nat, j: nat, m: nat)
    requires m <= |buffer| && IsWindowPair(p, buffer[..m], blockSize, j)
    ensures IsWindowPair(p, buffer, blockSize, j)
  {
    var start := j * (blockSize + 1);
    assert buffer[..m][start .. start + blockSize] == buffer[start .. start + blockSize];
    assert buffer[..m][start + 1 .. start + blockSize + 1] == buffer[start + 1 .. start + blockSize + 1];
  }

  /** The tokens after the last whole window never reach a pair: only `buffer[..(T / w) * w]` is read. */
  lemma DroppedRemainder(buffer: seq<int>, blockSize: nat)
    ensures var usable := UsableLength(|buffer|, blockSize + 1);
            WindowPairs(buffer[..usable], blockSize) == WindowPairs(buffer, blockSize)
  {
    var usable := UsableLength(|buffer|, blockSize + 1);
    var prefix := buffer[..usable];
    WindowPairsAt(buffer, blockSize);
    WindowPairsAt(prefix, blockSize);
    var ps, ps' := WindowPairs(buffer, blockSize), WindowPairs(prefix, blockSize);
    assert |ps'| == |ps|;
    forall j | 0 <= j < |ps| ensures ps'[j] == ps[j] {
      WindowPairOfPrefix(ps'[j], buffer, blockSize, j, usable);
    }
  }

  /** Shifting the chunk `buffer[j * w .. (j + 1) * w]` gives pair `j` of the buffer. */
  lemma ShiftWindow(chunk: seq<int>, buffer: seq<int>, blockSize: nat, j: nat)
    requires j * (blockSize + 1) + blockSize + 1 <= |buffer|
    requires chunk == buffer[j * (blockSize + 1) .. j * (blockSize + 1) + blockSize + 1]
    ensures IsWindowPair(Shift(chunk), buffer, blockSize, j)
  {
    var start := j * (blockSize + 1);
    assert chunk[..blockSize] == buffer[start .. start + blockSize];
    assert chunk[1..] == buffer[start + 1 .. start + blockSize + 1];
  }

  /** Shifting the consecutive windows of a buffer, in order, gives the buffer's reference pairs. */
  lemma IterateWindows(chunks: seq<seq<int>>, buffer: seq<int>, blockSize: nat)
    requires |chunks| == |buffer| / (blockSize + 1)
    requires forall j :: 0 <= j < |chunks| ==>
               j * (blockSize + 1) + blockSize + 1 <= |buffer| &&
               chunks[j] == buffer[j * (blockSize + 1) .. j * (blockSize + 1) + blockSize + 1]
    ensures Iterate(chunks) == WindowPairs(buffer, blockSize)
  {
    WindowPairsAt(buffer, blockSize);
    var ps, ref := Iterate(chunks), WindowPairs(buffer, blockSize);
    forall j | 0 <= j < |ps| ensures ps[j] == ref[j] {
      ShiftWindow(chunks[j], buffer, blockSize, j);
    }
  }

  /**
   When `input_ids` is the tokenizer's first field (as the tokenizer lays
   out its output), one batch yields exactly the reference pairs of its
   flattened `input_ids` buffer.
   */
  lemma BatchPairsWindows(examples: seq<Column>, blockSize: nat)
    requires |examples| > 0 && examples[0].name == InputIds
    ensures BatchPairs(examples, blockSize) == Some(WindowPairs(Concat(examples[0].rows), blockSize))
  {
    var features := ConvertToFeatures(examples, blockSize).value;
    assert Lookup(features, InputIds) == Some(features[0].rows) by {
      assert features[0].name == InputIds;
    }
    FirstFieldWindows(examples, blockSize);
    IterateWindows(features[0].rows, Concat(examples[0].rows), blockSize);
  }

  /** What one pass over the batches has yielded, and whether it stopped on an exception. */
  datatype Stream = Stream(pairs: seq<Pair>, failed: bool)

  /**
   One pass of `__iter__` over the batches, in the order the dataset gives
   them. Each batch is packed on its own; an exception ends the pass, and the
   pairs yielded before it stay yielded.
   */
  function Epoch(batches: seq<seq<Column>>, blockSize: nat): Stream
  {
    if |batches| == 0 then Stream([], false)
    else
      var before := Epoch(batches[..|batches| - 1], blockSize);
      if before.failed then before
      else match BatchPairs(batches[|batches| - 1], blockSize)
        case None => Stream(before.pairs, true)
        case Some(ps) => Stream(before.pairs + ps, false)
  }

  /** The tokenizer's output for a batch, with `input_ids` as its first field. */
  predicate WellFormed(batch: seq<Column>)
  {
    |batch| > 0 && batch[0].name == InputIds
  }

  /** The flattened `input_ids` of a well-formed batch. */
  function InputBuffer(batch: seq<Column>): seq<int>
    requires WellFormed(batch)
  {
    Concat(batch[0].rows)
  }

  /** The reference pairs of every batch, batch by batch. */
  function BatchWindows(batches: seq<seq<Column>>, blockSize: nat): seq<seq<Pair>>
    requires forall b :: 0 <= b < |batches| ==> WellFormed(batches[b])
  {
    seq(|batches|, b requires 0 <= b < |batches| => WindowPairs(InputBuffer(batches[b]), blockSize))
  }

  /**
   A pass over well-formed batches raises nothing and yields the reference
   pairs of the first batch, then those of the second, and so on: no token
   left over in one batch is carried into the next.
   */
  lemma {:induction false} EpochWindows(batches: seq<seq<Column>>, blockSize: nat)
    requires forall b :: 0 <= b < |batches| ==> WellFormed(batches[b])
    ensures Epoch(batches, blockSize) == Stream(Concat(BatchWindows(batches, blockSize)), false)
    decreases |batches|
  {
    if |batches| > 0 {
      var init := batches[..|batches| - 1];
      EpochWindows(init, blockSize);
      BatchPairsWindows(batches[|batches| - 1], blockSize);
      assert BatchWindows(batches, blockSize)[..|batches| - 1] == BatchWindows(init, blockSize);
    }
  }

  /**
   A batch that raises ends the pass: what was yielded is what the batches
   before it yielded, whatever the batches after it hold.
   */
  lemma {:induction false} EpochStops(batches: seq<seq<Column>>, blockSize: nat, b: nat)
    requires b < |batches| && BatchPairs(batches[b], blockSize).None?
    requires !Epoch(batches[..b], blockSize).failed
    ensures Epoch(batches, blockSize) == Stream(Epoch(batches[..b], blockSize).pairs, true)
    decreases |batches|
  {
    if |batches| > b + 1 {
      var init := batches[..|batches| - 1];
      assert init[..b] == batches[..b];
      EpochStops(init, blockSize, b);
    } else {
      assert batches[..|batches| - 1] == batches[..b];
    }
  }

  /**
   A batch with no `input_ids` that packs to no rows raises nothing: the pass
   goes on to the next batch. Here the first batch holds one token, less
   than a window of two, and the second yields the pair `([1], [2])`.
   */
  lemma EmptyMappedBatchSkipped()
    ensures Epoch([[Column("attention_mask", [[1]])], [Column(InputIds, [[1, 2]])]], 1)
            == Stream([Pair([1], [2])], false)
  {
    var first, second := [Column("attention_mask", [[1]])], [Column(InputIds, [[1, 2]])];
    var batches := [first, second];
    ShortBatch(first, 1);
    assert BatchPairs(first, 1) == Some([]) by {
      var features := ConvertToFeatures(first, 1).value;
      assert Lookup(features, InputIds) == None;
    }
    assert Concat(second[0].rows) == [1, 2] by {
      assert Concat([[1, 2]]) == Concat([[1, 2]][..0]) + [1, 2];
    }
    BatchPairsWindows(second, 1);
    assert WindowPairs([1, 2], 1) == [Pair([1], [2])];
    assert batches[..1] == [first];
    assert [first][..0] == [];
    assert Epoch([], 1) == Stream([], false);
    assert Epoch([first], 1) == Stream([], false);
    assert Epoch(batches, 1) == Stream([] + [Pair([1], [2])], false);
  }
}
