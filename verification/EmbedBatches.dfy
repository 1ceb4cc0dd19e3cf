/** LlamaEmbedder::Impl::embed_many (llama_embedder.cpp): packing token lists into batches, filling the
    batch arrays, and reading one vector back for each input. Tokenizer and model are arbitrary. */
module EmbedBatches {
  import opened Base

  type Token = int
  type Embedding = seq<u32>

  /** One entry of the batch arrays: a token, its position in its input, the number of sequences it
      belongs to, the one sequence, and whether its output is wanted. */
  datatype Slot = Slot(token: Token, pos: nat, sequences: nat, sequence: nat, logits: bool)

  /** The foreign code: tokenizer (None: it fails), evaluation of a batch, the vector of a slot and of
      a pooled sequence (None: null), and normalization. `pooled` is the pooling type: only
      the read it selects is ever made. */
  datatype Model = Model(
    prefix: string,
    pooled: bool,
    tokenize: string -> Option<seq<Token>>,
    evaluate: seq<Slot> -> bool,
    slotVector: (seq<Slot>, nat) -> Option<Embedding>,
    sequenceVector: (seq<Slot>, nat) -> Option<Embedding>,
    normalize: Embedding -> Outcome<Embedding>)

  type Lists = seq<seq<Token>>

  // ---------------------------------------------------------------- packing

  function Total(lists: Lists, first: nat, last: nat): nat
    requires last <= |lists|
  {
    if last <= first then 0 else Total(lists, first, last - 1) + |lists[last - 1]|
  }

  lemma {:induction false} TotalSplits(lists: Lists, first: nat, mid: nat, last: nat)
    requires first <= mid <= last <= |lists|
    ensures Total(lists, first, last) == Total(lists, first, mid) + Total(lists, mid, last)
    decreases last
  {
    if mid < last { TotalSplits(lists, first, mid, last - 1); }
  }

  /** With `TotalSplits`: the total is the sum of the lengths from first to last. */
  lemma {:induction false} TotalOfOne(lists: Lists, i: nat)
    requires i < |lists|
    ensures Total(lists, i, i) == 0 && Total(lists, i, i + 1) == |lists[i]|
  {
    assert Total(lists, i, i) == 0;
  }

  predicate AllFit(lists: Lists, batchSize: nat) {
    forall i :: 0 <= i < |lists| ==> 0 < |lists[i]| <= batchSize
  }

  /** The inner loop: take inputs while they fit. */
  function GreedyEnd(lists: Lists, first: nat, last: nat, batchSize: nat): (end: nat)
    requires first <= last <= |lists| && Total(lists, first, last) <= batchSize
    ensures last <= end <= |lists| && Total(lists, first, end) <= batchSize
    ensures end < |lists| ==> Total(lists, first, end + 1) > batchSize
    decreases |lists| - last
  {
    if last < |lists| && Total(lists, first, last) + |lists[last]| <= batchSize
    then GreedyEnd(lists, first, last + 1, batchSize) else last
  }

  lemma {:induction false} GreedyMoves(lists: Lists, first: nat, batchSize: nat)
    requires AllFit(lists, batchSize) && first < |lists|
    ensures GreedyEnd(lists, first, first, batchSize) > first
  {
    assert Total(lists, first, first + 1) == |lists[first]|;
  }

  /** Inputs first up to but not including last. */
  datatype Batch = Batch(first: nat, last: nat)

  /** The outer loop. */
  function Greedy(lists: Lists, first: nat, batchSize: nat): seq<Batch>
    requires AllFit(lists, batchSize) && first <= |lists|
    decreases |lists| - first
  {
    if first == |lists| then []
    else
      GreedyMoves(lists, first, batchSize);
      var last := GreedyEnd(lists, first, first, batchSize);
      [Batch(first, last)] + Greedy(lists, last, batchSize)
  }

  /** A contiguous in-order partition of the inputs from `first` on into batches within the size. */
  predicate Partition(batches: seq<Batch>, lists: Lists, first: nat, batchSize: nat) {
    if batches == [] then first == |lists|
    else
      && batches[0].first == first <= batches[0].last <= |lists|
      && Total(lists, first, batches[0].last) <= batchSize
      && Partition(batches[1..], lists, batches[0].last, batchSize)
  }

  lemma {:induction false} GreedyIsPartition(lists: Lists, first: nat, batchSize: nat)
    requires AllFit(lists, batchSize) && first <= |lists|
    ensures Partition(Greedy(lists, first, batchSize), lists, first, batchSize)
    decreases |lists| - first
  {
    if first < |lists| {
      GreedyMoves(lists, first, batchSize);
      GreedyIsPartition(lists, GreedyEnd(lists, first, first, batchSize), batchSize);
    }
  }

  lemma {:induction false} GreedyReachesFurthest(lists: Lists, early: nat, late: nat, end: nat, batchSize: nat)
    requires early <= late <= |lists| && early <= end <= |lists| && Total(lists, early, end) <= batchSize
    ensures GreedyEnd(lists, late, late, batchSize) >= end
  {
    var reach := GreedyEnd(lists, late, late, batchSize);
    if late <= reach < end {
      TotalSplits(lists, early, late, end);
      TotalSplits(lists, late, reach + 1, end);
    }
  }

  /** Starting no earlier than any partition, the greedy packing needs no more batches than it. */
  lemma {:induction false} FewestFrom(lists: Lists, batches: seq<Batch>, first: nat, late: nat, batchSize: nat)
    requires AllFit(lists, batchSize) && Partition(batches, lists, first, batchSize) && first <= late <= |lists|
    ensures |Greedy(lists, late, batchSize)| <= |batches|
    decreases |batches|
  {
    if late < |lists| {
      GreedyMoves(lists, late, batchSize);
      GreedyReachesFurthest(lists, first, late, batches[0].last, batchSize);
      FewestFrom(lists, batches[1..], batches[0].last, GreedyEnd(lists, late, late, batchSize), batchSize);
    }
  }

  /** The number of batches is the minimum over all contiguous partitions. */
  lemma {:induction false} FewestBatches(lists: Lists, batches: seq<Batch>, batchSize: nat)
    requires AllFit(lists, batchSize) && Partition(batches, lists, 0, batchSize)
    ensures Partition(Greedy(lists, 0, batchSize), lists, 0, batchSize)
    ensures |Greedy(lists, 0, batchSize)| <= |batches|
  {
    GreedyIsPartition(lists, 0, batchSize);
    FewestFrom(lists, batches, 0, 0, batchSize);
  }

  // ---------------------------------------------------------------- batch contents

  /** What the filling loop writes: one sequence for each slot, every slot an output. */
  function SlotOf(token: Token, position: nat, sequence: nat): Slot {
    Slot(token, position, 1, sequence, true)
  }

  function Row(tokens: seq<Token>, sequence: nat): (row: seq<Slot>)
    ensures |row| == |tokens|
  {
    seq(|tokens|, p requires 0 <= p < |tokens| => SlotOf(tokens[p], p, sequence))
  }

  /** The batch holding inputs first..last: their tokens one after the other. */
  function Layout(lists: Lists, first: nat, last: nat): (slots: seq<Slot>)
    requires first <= last <= |lists|
    ensures |slots| == Total(lists, first, last)
  {
    if last == first then [] else Layout(lists, first, last - 1) + Row(lists[last - 1], last - 1 - first)
  }

  /** The slots of one sequence, in slot order, as they would stand in a batch of their own. */
  function Own(slots: seq<Slot>, sequence: nat): seq<Slot> {
    if slots == [] then []
    else
      var n := |slots| - 1;
      Own(slots[..n], sequence) + if slots[n].sequence == sequence then [slots[n].(sequence := 0)] else []
  }

  /** The tokens the batch holds for one sequence, in slot order. */
  function TokensOf(slots: seq<Slot>, sequence: nat): seq<Token> {
    Tokens(Own(slots, sequence))
  }

  function Tokens(slots: seq<Slot>): seq<Token> {
    seq(|slots|, p requires 0 <= p < |slots| => slots[p].token)
  }

  lemma {:induction false} OwnOfRow(slots: seq<Slot>, tokens: seq<Token>, q: nat, sequence: nat)
    ensures Own(slots + Row(tokens, q), sequence) ==
            Own(slots, sequence) + if q == sequence then Row(tokens, 0) else []
    decreases |tokens|
  {
    if tokens == [] {
      assert slots + Row(tokens, q) == slots;
    } else {
      var n := |tokens| - 1;
      var all := slots + Row(tokens, q);
      assert all[..|all| - 1] == slots + Row(tokens[..n], q);
      assert all[|all| - 1] == SlotOf(tokens[n], n, q);
      OwnOfRow(slots, tokens[..n], q, sequence);
      assert Row(tokens, 0) == Row(tokens[..n], 0) + [SlotOf(tokens[n], n, 0)];
    }
  }

  lemma {:induction false} OneInputMore(lists: Lists, first: nat, last: nat, sequence: nat)
    requires first < last <= |lists|
    ensures var before := Own(Layout(lists, first, last - 1), sequence);
            var after := Own(Layout(lists, first, last), sequence);
            && (sequence != last - 1 - first ==> after == before)
            && (sequence == last - 1 - first && before == [] ==> after == Row(lists[last - 1], 0))
  {
    OwnOfRow(Layout(lists, first, last - 1), lists[last - 1], last - 1 - first, sequence);
  }

  /** Nothing stands under the id of an input that is not in the batch. */
  lemma {:induction false} NoSlotsYet(lists: Lists, first: nat, last: nat, sequence: nat)
    requires first <= last <= |lists| && last - first <= sequence
    ensures Own(Layout(lists, first, last), sequence) == []
    decreases last
  {
    if first < last {
      OneInputMore(lists, first, last, sequence);
      NoSlotsYet(lists, first, last - 1, sequence);
    }
  }

  /** A batch holds, for each of its inputs, exactly the slots the input has alone, under its own sequence
      id: its tokens in order. */
  lemma {:induction false} LayoutKeepsInputs(lists: Lists, first: nat, last: nat, i: nat)
    requires first <= i < last <= |lists|
    ensures Own(Layout(lists, first, last), i - first) == Row(lists[i], 0)
    ensures TokensOf(Layout(lists, first, last), i - first) == lists[i]
  {
    OwnInLayout(lists, first, last, i);
    TokensOfRow(lists[i]);
  }

  lemma {:induction false} OwnInLayout(lists: Lists, first: nat, last: nat, i: nat)
    requires first <= i < last <= |lists|
    ensures Own(Layout(lists, first, last), i - first) == Row(lists[i], 0)
    decreases last
  {
    OneInputMore(lists, first, last, i - first);
    if i < last - 1 {
      OwnInLayout(lists, first, last - 1, i);
    } else {
      NoSlotsYet(lists, first, last - 1, i - first);
    }
  }

  /** The slots of the batch, one by one: token p of input i stands p places behind the tokens of the inputs
      before it, at position p, under the input's number in the batch, alone in its sequence, as an output. */
  lemma {:induction false} LayoutMeans(lists: Lists, first: nat, last: nat, i: nat, p: nat)
    requires first <= i < last <= |lists| && p < |lists[i]|
    ensures Total(lists, first, i) + p < |Layout(lists, first, last)|
    ensures Layout(lists, first, last)[Total(lists, first, i) + p] == Slot(lists[i][p], p, 1, i - first, true)
    decreases last
  {
    if i < last - 1 {
      LayoutMeans(lists, first, last - 1, i, p);
    }
  }

  lemma {:induction false} TokensOfRow(tokens: seq<Token>)
    ensures Tokens(Row(tokens, 0)) == tokens
  {
  }

  /** The slot read back for input i. */
  function LastSlot(lists: Lists, first: nat, i: nat): int
    requires first <= i < |lists|
  {
    Total(lists, first, i) + |lists[i]| - 1
  }

  ghost predicate EndsSequence(slots: seq<Slot>, at: nat) {
    at < |slots| && forall j :: at < j < |slots| ==> slots[j].sequence != slots[at].sequence
  }

  lemma {:induction false} LayoutPrefix(lists: Lists, first: nat, mid: nat, last: nat)
    requires first <= mid <= last <= |lists|
    ensures Layout(lists, first, mid) <= Layout(lists, first, last)
    ensures forall j :: Total(lists, first, mid) <= j < |Layout(lists, first, last)| ==>
              Layout(lists, first, last)[j].sequence >= mid - first
    decreases last
  {
    if mid < last { LayoutPrefix(lists, first, mid, last - 1); }
  }

  /** The slot read back is where the input's last token was written, with its position and sequence
      id, and no later slot belongs to that input. */
  lemma {:induction false} LastSlotIsTheInputs(lists: Lists, first: nat, last: nat, i: nat)
    requires first <= i < last <= |lists| && lists[i] != []
    ensures var slots, at := Layout(lists, first, last), LastSlot(lists, first, i);
            && 0 <= at < |slots|
            && slots[at] == SlotOf(lists[i][|lists[i]| - 1], |lists[i]| - 1, i - first)
            && EndsSequence(slots, at)
  {
    var slots, at := Layout(lists, first, last), LastSlot(lists, first, i);
    LayoutPrefix(lists, first, i + 1, last);
    LayoutEnd(lists, first, i);
    assert slots[at] == Layout(lists, first, i + 1)[at];
  }

  lemma {:induction false} LayoutEnd(lists: Lists, first: nat, i: nat)
    requires first <= i < |lists| && lists[i] != []
    ensures var slots, at := Layout(lists, first, i + 1), LastSlot(lists, first, i);
            && at == |slots| - 1 && slots[at] == SlotOf(lists[i][|lists[i]| - 1], |lists[i]| - 1, i - first)
  {
    var row := Row(lists[i], i - first);
    assert Layout(lists, first, i + 1) == Layout(lists, first, i) + row;
    assert row[|row| - 1] == SlotOf(lists[i][|lists[i]| - 1], |lists[i]| - 1, i - first);
  }

  // ---------------------------------------------------------------- results

  /** Normalization of what a read gave; null throws. */
  function Normalized(m: Model, values: Option<Embedding>): Outcome<Embedding> {
    match values
    case None => Threw(RuntimeError)
    case Some(v) => m.normalize(v)
  }

  function ReadVector(m: Model, slots: seq<Slot>, slot: nat, sequence: nat): Outcome<Embedding> {
    Normalized(m, if m.pooled then m.sequenceVector(slots, sequence) else m.slotVector(slots, slot))
  }

  /** The vector of input i when it is evaluated in the given batch, or the exception. */
  function VectorIn(m: Model, lists: Lists, batch: Batch, i: nat): Outcome<Embedding> {
    if batch.first <= i < batch.last <= |lists| && lists[i] != [] then
      var slots := Layout(lists, batch.first, batch.last);
      if !m.evaluate(slots) then Threw(RuntimeError)
      else ReadVector(m, slots, LastSlot(lists, batch.first, i), i - batch.first)
    else Threw(InvalidArgument)
  }

  predicate BatchRead(m: Model, lists: Lists, batch: Batch, vectors: seq<Embedding>) {
    forall i :: batch.first <= i < batch.last && i < |vectors| ==>
      VectorIn(m, lists, batch, i) == Returned(vectors[i])
  }

  /** One vector for each input, each read from the batch that holds the input. */
  predicate AllRead(m: Model, lists: Lists, batches: seq<Batch>, vectors: seq<Embedding>) {
    && |vectors| == |lists|
    && forall b :: 0 <= b < |batches| ==> BatchRead(m, lists, batches[b], vectors)
  }

  /** The inputs of the batch before `n` yield vectors. */
  predicate YieldsUpTo(m: Model, lists: Lists, batch: Batch, n: nat) {
    forall i :: batch.first <= i < n ==> VectorIn(m, lists, batch, i).Returned?
  }

  /** Input i of batch b is the first that fails, with exception e. */
  ghost predicate FirstFailure(m: Model, lists: Lists, batches: seq<Batch>, b: nat, i: nat, e: Error) {
    && b < |batches| && batches[b].first <= i < batches[b].last
    && VectorIn(m, lists, batches[b], i) == Threw(e) && YieldsUpTo(m, lists, batches[b], i)
    && forall c :: 0 <= c < b ==> YieldsUpTo(m, lists, batches[c], batches[c].last)
  }

  ghost predicate FailsWith(m: Model, lists: Lists, batches: seq<Batch>, e: Error) {
    exists b, i :: FirstFailure(m, lists, batches, b, i, e)
  }

  /** The slots are such as the filling loop writes: those of each sequence, wherever they stand, have the
      positions 0, 1, 2, ..., belong to one sequence and are outputs. */
  ghost predicate Regular(slots: seq<Slot>) {
    forall q: nat :: Own(slots, q) == Row(TokensOf(slots, q), 0)
  }

  /** The model treats the sequences of a batch independently: what the read selected by its pooling type
      returns for one of them is what it returns for the slots of that sequence alone. Nothing is asked
      of batches the filling loop cannot write or that do not evaluate, nor of how the vector depends
      on the slots of its sequence. */
  ghost predicate Independent(m: Model) {
    if m.pooled then
      forall slots: seq<Slot>, q: nat {:trigger Evaluated(m, slots, q)} ::
        Evaluated(m, slots, q) ==> m.sequenceVector(slots, q) == m.sequenceVector(Own(slots, q), 0)
    else
      forall slots: seq<Slot>, at: nat {:trigger EndsSequence(slots, at)} ::
        EndsSequence(slots, at) && Evaluated(m, slots, slots[at].sequence) ==>
          m.slotVector(slots, at)
          == m.slotVector(Own(slots, slots[at].sequence), |Own(slots, slots[at].sequence)| - 1)
  }

  /** A regular batch that holds the sequence evaluates, and so does the sequence alone. */
  ghost predicate Evaluated(m: Model, slots: seq<Slot>, q: nat) {
    Regular(slots) && Own(slots, q) != [] && m.evaluate(slots) && m.evaluate(Own(slots, q))
  }

  /** What the input yields as the only one of its batch: a vector or an exception. */
  function Alone(m: Model, tokens: seq<Token>): Outcome<Embedding> {
    VectorIn(m, [tokens], Batch(0, 1), 0)
  }

  /** The input evaluates as the only one of its batch. */
  predicate EvaluatesAlone(m: Model, tokens: seq<Token>) {
    m.evaluate(Row(tokens, 0))
  }

  /** Batching is invisible: result i is the vector of input i evaluated alone, whatever the batches. */
  lemma {:induction false} BatchingIsInvisible(m: Model, lists: Lists, batches: seq<Batch>,
                                               vectors: seq<Embedding>, batchSize: nat, i: nat)
    requires AllFit(lists, batchSize) && Partition(batches, lists, 0, batchSize)
    requires AllRead(m, lists, batches, vectors) && Independent(m)
    requires i < |lists| && EvaluatesAlone(m, lists[i])
    ensures Alone(m, lists[i]) == Returned(vectors[i])
  {
    var b := BatchOf(lists, batches, 0, batchSize, i);
    assert BatchRead(m, lists, batches[b], vectors);
    VectorAlone(m, lists, batches[b], i);
  }

  /** How the inputs are cut into batches does not matter: any two ways give the same vectors. */
  lemma {:induction false} BatchesDoNotMatter(m: Model, lists: Lists, batches: seq<Batch>, vectors: seq<Embedding>,
                                              batchSize: nat, others: seq<Batch>, vectors': seq<Embedding>,
                                              batchSize': nat)
    requires AllFit(lists, batchSize) && Partition(batches, lists, 0, batchSize)
    requires AllFit(lists, batchSize') && Partition(others, lists, 0, batchSize')
    requires AllRead(m, lists, batches, vectors) && AllRead(m, lists, others, vectors') && Independent(m)
    requires forall i :: 0 <= i < |lists| ==> EvaluatesAlone(m, lists[i])
    ensures vectors == vectors'
  {
    forall i | 0 <= i < |lists| ensures vectors[i] == vectors'[i] {
      BatchingIsInvisible(m, lists, batches, vectors, batchSize, i);
      BatchingIsInvisible(m, lists, others, vectors', batchSize', i);
    }
  }

  /** A batch of one input is that input's own slots. */
  lemma {:induction false} AloneIsABatch(m: Model, tokens: seq<Token>)
    requires tokens != [] && EvaluatesAlone(m, tokens)
    ensures Alone(m, tokens) == ReadVector(m, Row(tokens, 0), |tokens| - 1, 0)
  {
    assert Layout([tokens], 0, 0) == [];
    assert Layout([tokens], 0, 1) == Row(tokens, 0);
    assert Total([tokens], 0, 0) == 0;
  }

  lemma {:induction false} LayoutIsRegular(lists: Lists, first: nat, last: nat)
    requires first <= last <= |lists|
    ensures Regular(Layout(lists, first, last))
  {
    forall q: nat
      ensures Own(Layout(lists, first, last), q) == Row(TokensOf(Layout(lists, first, last), q), 0)
    {
      if first + q < last { LayoutKeepsInputs(lists, first, last, first + q); }
      else { NoSlotsYet(lists, first, last, q); }
    }
  }

  /** In any batch that evaluates, input i gets the vector, or the exception, it gets alone. */
  lemma {:induction false} VectorAlone(m: Model, lists: Lists, batch: Batch, i: nat)
    requires batch.first <= i < batch.last <= |lists| && lists[i] != [] && Independent(m)
    ensures m.evaluate(Layout(lists, batch.first, batch.last)) && EvaluatesAlone(m, lists[i]) ==>
              VectorIn(m, lists, batch, i) == Alone(m, lists[i])
  {
    var slots := Layout(lists, batch.first, batch.last);
    var at := LastSlot(lists, batch.first, i);
    if m.evaluate(slots) && EvaluatesAlone(m, lists[i]) {
      LastSlotIsTheInputs(lists, batch.first, batch.last, i);
      OwnInLayout(lists, batch.first, batch.last, i);
      AloneIsABatch(m, lists[i]);
      assert Evaluated(m, slots, i - batch.first) by { LayoutIsRegular(lists, batch.first, batch.last); }
      SameRead(m, slots, at, i - batch.first);
    }
  }

  lemma {:induction false} SameRead(m: Model, slots: seq<Slot>, at: nat, q: nat)
    requires Independent(m) && EndsSequence(slots, at) && slots[at].sequence == q && Evaluated(m, slots, q)
    ensures ReadVector(m, slots, at, q) == ReadVector(m, Own(slots, q), |Own(slots, q)| - 1, 0)
  {
  }

  /** The vector of a sequence is the given function of its own slots; that of a slot, of those up to it. */
  ghost predicate ReadsOwnSlots(m: Model, f: seq<Slot> -> Option<Embedding>) {
    && (forall slots: seq<Slot>, q: nat {:trigger m.sequenceVector(slots, q)} ::
          m.sequenceVector(slots, q) == f(Own(slots, q)))
    && (forall slots: seq<Slot>, at: nat {:trigger m.slotVector(slots, at)} ::
          at < |slots| ==> m.slotVector(slots, at) == f(Own(slots[..at + 1], slots[at].sequence)))
  }

  /** Independence leaves room for every dependence on tokens, positions and flags: any function of the
      sequence's own slots will do. */
  lemma {:induction false} OwnSlotsSuffice(m: Model, f: seq<Slot> -> Option<Embedding>)
    requires ReadsOwnSlots(m, f)
    ensures Independent(m)
  {
    forall slots: seq<Slot>, q: nat | Own(slots, q) != []
      ensures m.sequenceVector(slots, q) == m.sequenceVector(Own(slots, q), 0)
    {
      OwnTwice(slots, q);
    }
    forall slots: seq<Slot>, at: nat | EndsSequence(slots, at) && Own(slots, slots[at].sequence) != []
      ensures m.slotVector(slots, at)
              == m.slotVector(Own(slots, slots[at].sequence), |Own(slots, slots[at].sequence)| - 1)
    {
      LastOwnSlot(m, f, slots, at);
    }
  }

  lemma {:induction false} LastOwnSlot(m: Model, f: seq<Slot> -> Option<Embedding>, slots: seq<Slot>, at: nat)
    requires ReadsOwnSlots(m, f) && EndsSequence(slots, at) && Own(slots, slots[at].sequence) != []
    ensures m.slotVector(slots, at)
            == m.slotVector(Own(slots, slots[at].sequence), |Own(slots, slots[at].sequence)| - 1)
  {
    var own := Own(slots, slots[at].sequence);
    VectorOfLast(m, f, slots, at);
    OwnTwice(slots, slots[at].sequence);
    VectorOfLast(m, f, own, |own| - 1);
  }

  lemma {:induction false} VectorOfLast(m: Model, f: seq<Slot> -> Option<Embedding>, slots: seq<Slot>, at: nat)
    requires ReadsOwnSlots(m, f) && EndsSequence(slots, at)
    ensures m.slotVector(slots, at) == f(Own(slots, slots[at].sequence))
  {
    NothingAfter(slots, at);
  }

  lemma {:induction false} OwnTwice(slots: seq<Slot>, q: nat)
    ensures Own(Own(slots, q), 0) == Own(slots, q) && forall s :: s in Own(slots, q) ==> s.sequence == 0
    decreases |slots|
  {
    if slots != [] {
      var n := |slots| - 1;
      OwnTwice(slots[..n], q);
      var own := Own(slots, q);
      if slots[n].sequence == q {
        assert own[..|own| - 1] == Own(slots[..n], q);
      } else {
        assert own == Own(slots[..n], q);
      }
    }
  }

  lemma {:induction false} NothingAfter(slots: seq<Slot>, at: nat)
    requires EndsSequence(slots, at)
    ensures Own(slots[..at + 1], slots[at].sequence) == Own(slots, slots[at].sequence)
    decreases |slots|
  {
    if at + 1 == |slots| {
      assert slots[..at + 1] == slots;
    } else {
      var n := |slots| - 1;
      NothingAfter(slots[..n], at);
      assert slots[..n][..at + 1] == slots[..at + 1];
    }
  }

  lemma {:induction false} BatchOf(lists: Lists, batches: seq<Batch>, first: nat, batchSize: nat, i: nat)
      returns (b: nat)
    requires Partition(batches, lists, first, batchSize) && first <= i < |lists|
    ensures b < |batches| && batches[b].first <= i < batches[b].last <= |lists|
    decreases |batches|
  {
    if i < batches[0].last {
      b := 0;
    } else {
      var rest := BatchOf(lists, batches[1..], batches[0].last, batchSize, i);
      b := rest + 1;
    }
  }

  /** The vectors of the model have the given number of components. */
  ghost predicate HasDimension(m: Model, dimension: nat) {
    && (forall slots, q :: m.sequenceVector(slots, q).Some? ==> |m.sequenceVector(slots, q).value| == dimension)
    && (forall slots, at :: m.slotVector(slots, at).Some? ==> |m.slotVector(slots, at).value| == dimension)
  }

  /** Every result is what normalization made of a vector of the model. */
  lemma {:induction false} ReadIsNormalized(m: Model, dimension: nat, lists: Lists, batchSize: nat,
                                            vectors: seq<Embedding>, i: nat) returns (v: Embedding)
    requires HasDimension(m, dimension) && AllFit(lists, batchSize)
    requires AllRead(m, lists, Greedy(lists, 0, batchSize), vectors) && i < |vectors|
    ensures |v| == dimension && m.normalize(v) == Returned(vectors[i])
  {
    var batches := Greedy(lists, 0, batchSize);
    GreedyIsPartition(lists, 0, batchSize);
    var b := BatchOf(lists, batches, 0, batchSize, i);
    assert BatchRead(m, lists, batches[b], vectors);
    assert VectorIn(m, lists, batches[b], i) == Returned(vectors[i]);
    var slots := Layout(lists, batches[b].first, batches[b].last);
    if m.pooled { v := m.sequenceVector(slots, i - batches[b].first).value; }
    else { v := m.slotVector(slots, LastSlot(lists, batches[b].first, i)).value; }
  }

  /** Token p of input q stands p places behind the tokens of the inputs before it. */
  ghost predicate HoldsToken(lists: Lists, b: Batch, slots: seq<Slot>, q: nat, p: nat)
    requires b.first <= q < b.last <= |lists| && p < |lists[q]|
  {
    && Total(lists, b.first, q) + p < |slots|
    && slots[Total(lists, b.first, q) + p] == Slot(lists[q][p], p, 1, q - b.first, true)
  }

  ghost predicate HoldsTokens(lists: Lists, b: Batch, slots: seq<Slot>)
    requires b.last <= |lists|
  {
    forall q: nat, p: nat :: b.first <= q < b.last && p < |lists[q]| ==> HoldsToken(lists, b, slots, q, p)
  }

  /** What result i is: some batch of consecutive inputs was evaluated that holds input i, and normalization made
      the result of what the model gave there for the input's sequence, or for the last slot of it if the model
      does not pool. */
  lemma {:induction false} ResultMeans(m: Model, lists: Lists, batchSize: nat, vectors: seq<Embedding>, i: nat)
    returns (b: Batch, slots: seq<Slot>, at: nat, v: Embedding)
    requires AllFit(lists, batchSize) && AllRead(m, lists, Greedy(lists, 0, batchSize), vectors) && i < |lists|
    ensures b.first <= i < b.last <= |lists| && b in Greedy(lists, 0, batchSize)
    ensures HoldsTokens(lists, b, slots) && |slots| == Total(lists, b.first, b.last) && m.evaluate(slots)
    ensures at < |slots| && slots[at].sequence == i - b.first
    ensures forall j :: at < j < |slots| ==> slots[j].sequence != i - b.first
    ensures Some(v) == if m.pooled then m.sequenceVector(slots, i - b.first) else m.slotVector(slots, at)
    ensures m.normalize(v) == Returned(vectors[i])
  {
    var batches := Greedy(lists, 0, batchSize);
    GreedyIsPartition(lists, 0, batchSize);
    var k := BatchOf(lists, batches, 0, batchSize, i);
    b, slots := batches[k], Layout(lists, batches[k].first, batches[k].last);
    assert BatchRead(m, lists, b, vectors);
    assert VectorIn(m, lists, b, i) == Returned(vectors[i]);
    LastSlotIsTheInputs(lists, b.first, b.last, i);
    at := LastSlot(lists, b.first, i);
    v := if m.pooled then m.sequenceVector(slots, i - b.first).value else m.slotVector(slots, at).value;
    forall q: nat, p: nat | b.first <= q < b.last && p < |lists[q]| ensures HoldsToken(lists, b, slots, q, p) {
      LayoutMeans(lists, b.first, b.last, q, p);
    }
  }

  // ---------------------------------------------------------------- the loops

  /** The largest size the tokenizer's interface can be told, in bytes. */
  const MAX_TEXT: nat := 0x7FFF_FFFF

  /** Tokenization of one input, with every reason to refuse it. */
  function TokensFor(m: Model, text: string, contextSize: nat, batchSize: nat): Outcome<seq<Token>> {
    if text == "" || |m.prefix + text| > MAX_TEXT then Threw(InvalidArgument)
    else
      match m.tokenize(m.prefix + text)
      case None => Threw(RuntimeError)
      case Some(tokens) =>
        if tokens == [] then Threw(RuntimeError)
        else if |tokens| > contextSize || |tokens| > batchSize then Threw(InvalidArgument)
        else Returned(tokens)
  }

  /** The token lists of all inputs, or the refusal of the first one refused. */
  function TokenLists(m: Model, texts: seq<string>, contextSize: nat, batchSize: nat): (r: Outcome<Lists>)
    ensures r.Returned? ==> |r.value| == |texts| && AllFit(r.value, batchSize)
  {
    if texts == [] then Returned([])
    else
      match TokenLists(m, texts[..|texts| - 1], contextSize, batchSize)
      case Threw(e) => Threw(e)
      case Returned(lists) =>
        match TokensFor(m, texts[|texts| - 1], contextSize, batchSize)
        case Threw(e) => Threw(e)
        case Returned(tokens) => Returned(lists + [tokens])
  }

  /** The prefixed text is tokenized, into at least one token and no more than context and batch hold. */
  ghost predicate Tokenized(m: Model, text: string, contextSize: nat, batchSize: nat, tokens: seq<Token>) {
    && text != "" && |m.prefix + text| <= 0x7FFF_FFFF && m.tokenize(m.prefix + text) == Some(tokens)
    && 0 < |tokens| <= contextSize && |tokens| <= batchSize
  }

  /** Why an input is refused: it is empty or too long or has too many tokens, or tokenization fails or gives
      no token. */
  ghost predicate RefusedWith(m: Model, text: string, contextSize: nat, batchSize: nat, e: Error) {
    if text == "" || |m.prefix + text| > 0x7FFF_FFFF then e == InvalidArgument
    else
      match m.tokenize(m.prefix + text)
      case None => e == RuntimeError
      case Some(tokens) =>
        if tokens == [] then e == RuntimeError
        else (|tokens| > contextSize || |tokens| > batchSize) && e == InvalidArgument
  }

  lemma {:induction false} TokensForMeans(m: Model, text: string, contextSize: nat, batchSize: nat)
    ensures match TokensFor(m, text, contextSize, batchSize)
            case Returned(tokens) => Tokenized(m, text, contextSize, batchSize, tokens)
            case Threw(e) => RefusedWith(m, text, contextSize, batchSize, e)
  {
  }

  /** Each input has its own list, what the tokenizer makes of the prefixed text; a refusal is that of the first
      refused input. */
  lemma {:induction false} TokenListsMeans(m: Model, texts: seq<string>, contextSize: nat, batchSize: nat)
    ensures match TokenLists(m, texts, contextSize, batchSize)
            case Returned(lists) =>
              && |lists| == |texts|
              && forall i :: 0 <= i < |texts| ==> Tokenized(m, texts[i], contextSize, batchSize, lists[i])
            case Threw(e) =>
              exists i :: 0 <= i < |texts| && RefusedWith(m, texts[i], contextSize, batchSize, e)
                          && forall j :: 0 <= j < i ==> TokenizedSomehow(m, texts[j], contextSize, batchSize)
    decreases |texts|
  {
    if texts != [] {
      var init, last := texts[..|texts| - 1], texts[|texts| - 1];
      TokenListsMeans(m, init, contextSize, batchSize);
      TokensForMeans(m, last, contextSize, batchSize);
      assert forall i :: 0 <= i < |init| ==> init[i] == texts[i];
      match TokenLists(m, init, contextSize, batchSize)
      case Threw(e) =>
        var i :| 0 <= i < |init| && RefusedWith(m, init[i], contextSize, batchSize, e)
                 && forall j :: 0 <= j < i ==> TokenizedSomehow(m, init[j], contextSize, batchSize);
        assert RefusedWith(m, texts[i], contextSize, batchSize, e);
      case Returned(lists) =>
        forall j | 0 <= j < |init| ensures TokenizedSomehow(m, texts[j], contextSize, batchSize) {
          assert Tokenized(m, init[j], contextSize, batchSize, lists[j]);
        }
    }
  }

  /** The input is not refused. */
  ghost predicate TokenizedSomehow(m: Model, text: string, contextSize: nat, batchSize: nat) {
    m.tokenize(m.prefix + text).Some?
    && Tokenized(m, text, contextSize, batchSize, m.tokenize(m.prefix + text).value)
  }

  lemma {:induction false} RefusedIsNotTokenized(m: Model, text: string, contextSize: nat, batchSize: nat, e: Error)
    requires RefusedWith(m, text, contextSize, batchSize, e)
    ensures !TokenizedSomehow(m, text, contextSize, batchSize)
    ensures forall tokens :: !Tokenized(m, text, contextSize, batchSize, tokens)
    ensures forall f :: RefusedWith(m, text, contextSize, batchSize, f) ==> f == e
  {
  }

  /** One refused input is enough, and the first one decides which exception it is. */
  lemma {:induction false} FirstRefusalDecides(m: Model, texts: seq<string>, contextSize: nat, batchSize: nat, i: nat,
                                               e: Error)
    requires i < |texts| && RefusedWith(m, texts[i], contextSize, batchSize, e)
    requires forall j :: 0 <= j < i ==> TokenizedSomehow(m, texts[j], contextSize, batchSize)
    ensures TokenLists(m, texts, contextSize, batchSize) == Threw(e)
  {
    TokenListsMeans(m, texts, contextSize, batchSize);
    RefusedIsNotTokenized(m, texts[i], contextSize, batchSize, e);
    var r := TokenLists(m, texts, contextSize, batchSize);
    if r.Threw? {
      var k :| 0 <= k < |texts| && RefusedWith(m, texts[k], contextSize, batchSize, r.error)
               && forall j :: 0 <= j < k ==> TokenizedSomehow(m, texts[j], contextSize, batchSize);
      RefusedIsNotTokenized(m, texts[k], contextSize, batchSize, r.error);
    }
  }

  /** The first loop: all token lists, or the first refusal. */
  method TokenizeAll(m: Model, texts: seq<string>, contextSize: nat, batchSize: nat) returns (r: Outcome<Lists>)
    ensures r == TokenLists(m, texts, contextSize, batchSize)
  {
    var lists: Lists := [];
    var i := 0;
    while i < |texts|
      invariant 0 <= i <= |texts| && TokenLists(m, texts[..i], contextSize, batchSize) == Returned(lists)
    {
      assert texts[..i + 1][..i] == texts[..i];
      var tokens := TokensFor(m, texts[i], contextSize, batchSize);
      if tokens.Threw? {
        RefusalStays(m, texts, contextSize, batchSize, i + 1);
        return Threw(tokens.error);
      }
      lists := lists + [tokens.value];
      i := i + 1;
    }
    assert texts[..i] == texts;
    r := Returned(lists);
  }

  lemma {:induction false} RefusalStays(m: Model, texts: seq<string>, contextSize: nat, batchSize: nat, n: nat)
    requires n <= |texts| && TokenLists(m, texts[..n], contextSize, batchSize).Threw?
    ensures TokenLists(m, texts, contextSize, batchSize) == TokenLists(m, texts[..n], contextSize, batchSize)
    decreases |texts| - n
  {
    if n == |texts| {
      assert texts[..n] == texts;
    } else {
      assert texts[..n + 1][..n] == texts[..n];
      RefusalStays(m, texts, contextSize, batchSize, n + 1);
    }
  }

  /** The packing loop. The source throws when no input fits; that cannot happen. */
  method PackBatch(lists: Lists, first: nat, batchSize: nat) returns (last: nat, tokenCount: nat)
    requires AllFit(lists, batchSize) && first < |lists|
    ensures last == GreedyEnd(lists, first, first, batchSize) && first < last <= |lists|
    ensures tokenCount == Total(lists, first, last) <= batchSize
  {
    GreedyMoves(lists, first, batchSize);
    last, tokenCount := first, 0;
    while last < |lists| && tokenCount + |lists[last]| <= batchSize
      invariant first <= last <= |lists| && tokenCount == Total(lists, first, last) <= batchSize
      invariant GreedyEnd(lists, first, last, batchSize) == GreedyEnd(lists, first, first, batchSize)
    {
      tokenCount := tokenCount + |lists[last]|;
      last := last + 1;
    }
  }

  /** The arrays of the batch. */
  datatype Arrays = Arrays(token: array<Token>, pos: array<nat>, sequences: array<nat>,
                           sequence: array<nat>, logits: array<bool>)

  /** The arrays are of one length and do not overlap. */
  ghost predicate Separate(a: Arrays, length: nat) {
    && a.token.Length == a.pos.Length == a.sequences.Length == a.sequence.Length == a.logits.Length == length
    && a.pos != a.sequences && a.pos != a.sequence && a.sequences != a.sequence
  }

  /** The arrays begin with these slots. */
  ghost predicate Filled(a: Arrays, slots: seq<Slot>)
    requires Separate(a, a.token.Length)
    reads a.token, a.pos, a.sequences, a.sequence, a.logits
  {
    && |slots| <= a.token.Length
    && forall j :: 0 <= j < |slots| ==>
         Slot(a.token[j], a.pos[j], a.sequences[j], a.sequence[j], a.logits[j]) == slots[j]
  }

  /** The slot-filling loops over the arrays of the batch. */
  method FillBatch(lists: Lists, first: nat, last: nat, tokenCount: nat) returns (slots: seq<Slot>)
    requires first <= last <= |lists| && tokenCount == Total(lists, first, last)
    ensures slots == Layout(lists, first, last)
  {
    var token, pos, sequences := new Token[tokenCount], new nat[tokenCount], new nat[tokenCount];
    var sequenceId, logits := new nat[tokenCount], new bool[tokenCount];
    var a := Arrays(token, pos, sequences, sequenceId, logits);
    var batchIndex := 0;
    var sequence := first;
    while sequence < last
      invariant first <= sequence <= last && batchIndex == Total(lists, first, sequence) <= tokenCount
      invariant Filled(a, Layout(lists, first, sequence))
    {
      TotalSplits(lists, first, sequence + 1, last);
      batchIndex := FillRow(a, batchIndex, lists[sequence], sequence - first, Layout(lists, first, sequence));
      sequence := sequence + 1;
    }
    slots := seq(tokenCount, i requires 0 <= i < tokenCount reads token, pos, sequences, sequenceId, logits =>
      Slot(token[i], pos[i], sequences[i], sequenceId[i], logits[i]));
  }

  /** The inner loop: one input's tokens behind the slots already filled. */
  method FillRow(a: Arrays, start: nat, tokens: seq<Token>, sequence: nat, ghost before: seq<Slot>)
    returns (batchIndex: nat)
    requires Separate(a, a.token.Length) && Filled(a, before)
    requires start == |before| && start + |tokens| <= a.token.Length
    modifies a.token, a.pos, a.sequences, a.sequence, a.logits
    ensures batchIndex == start + |tokens|
    ensures Filled(a, before + Row(tokens, sequence))
  {
    batchIndex := start;
    var position := 0;
    ghost var row := Row(tokens, sequence);
    while position < |tokens|
      invariant 0 <= position <= |tokens| && batchIndex == start + position
      invariant Filled(a, before + row[..position])
    {
      a.token[batchIndex] := tokens[position];
      a.pos[batchIndex] := position;
      a.sequences[batchIndex] := 1;
      a.sequence[batchIndex] := sequence;
      a.logits[batchIndex] := true;
      assert before + row[..position + 1] == before + row[..position] + [row[position]];
      batchIndex := batchIndex + 1;
      position := position + 1;
    }
    assert row[..position] == row;
  }

  /** The reading loop of one batch. */
  method ReadBatch(m: Model, lists: Lists, first: nat, last: nat, slots: seq<Slot>) returns (r: Outcome<seq<Embedding>>)
    requires first < last <= |lists| && slots == Layout(lists, first, last) && m.evaluate(slots)
    requires forall i :: 0 <= i < |lists| ==> lists[i] != []
    ensures r.Returned? ==>
              && |r.value| == last - first
              && forall i :: first <= i < last ==>
                   VectorIn(m, lists, Batch(first, last), i) == Returned(r.value[i - first])
    ensures r.Threw? ==>
              exists i :: first <= i < last && VectorIn(m, lists, Batch(first, last), i) == Threw(r.error)
                          && YieldsUpTo(m, lists, Batch(first, last), i)
  {
    var vectors: seq<Embedding> := [];
    var tokenOffset := 0;
    var sequence := first;
    while sequence < last
      invariant first <= sequence <= last && |vectors| == sequence - first
      invariant tokenOffset == Total(lists, first, sequence)
      invariant forall i :: first <= i < sequence ==>
                  VectorIn(m, lists, Batch(first, last), i) == Returned(vectors[i - first])
    {
      var values := ReadVector(m, slots, tokenOffset + |lists[sequence]| - 1, sequence - first);
      assert values == VectorIn(m, lists, Batch(first, last), sequence);
      if values.Threw? {
        assert YieldsUpTo(m, lists, Batch(first, last), sequence);
        return Threw(values.error);
      }
      vectors := vectors + [values.value];
      tokenOffset := tokenOffset + |lists[sequence]|;
      sequence := sequence + 1;
    }
    r := Returned(vectors);
  }

  /** What the outer loop knows of the batches behind it. */
  predicate Behind(m: Model, lists: Lists, done: seq<Batch>, result: seq<Embedding>) {
    forall b :: 0 <= b < |done| ==>
      done[b].last <= |result| && BatchRead(m, lists, done[b], result) && YieldsUpTo(m, lists, done[b], done[b].last)
  }

  /** The outer loop over the batches. */
  method EmbedLists(m: Model, lists: Lists, batchSize: nat) returns (r: Outcome<seq<Embedding>>)
    requires AllFit(lists, batchSize)
    ensures r.Returned? ==> AllRead(m, lists, Greedy(lists, 0, batchSize), r.value)
    ensures r.Threw? ==> FailsWith(m, lists, Greedy(lists, 0, batchSize), r.error)
    ensures r.Returned? ==> forall e :: !FailsWith(m, lists, Greedy(lists, 0, batchSize), e)
  {
    var result: seq<Embedding> := [];
    var first := 0;
    ghost var all, done := Greedy(lists, 0, batchSize), [];
    while first < |lists|
      invariant 0 <= first <= |lists| && |result| == first
      invariant all == done + Greedy(lists, first, batchSize) && Behind(m, lists, done, result)
      decreases |lists| - first
    {
      var last, tokenCount := PackBatch(lists, first, batchSize);
      ghost var batch := Batch(first, last);
      ghost var rest := Greedy(lists, last, batchSize);
      assert all == (done + [batch]) + rest;
      var slots := FillBatch(lists, first, last, tokenCount);
      if !m.evaluate(slots) {
        StopsHere(m, lists, done, result, batch, rest, first, RuntimeError);
        return Threw(RuntimeError);
      }
      var vectors := ReadBatch(m, lists, first, last, slots);
      if vectors.Threw? {
        ghost var i :| first <= i < last && VectorIn(m, lists, batch, i) == Threw(vectors.error)
                       && YieldsUpTo(m, lists, batch, i);
        StopsHere(m, lists, done, result, batch, rest, i, vectors.error);
        return Threw(vectors.error);
      }
      ResultGrows(m, lists, done, batch, result, vectors.value);
      result := result + vectors.value;
      done := done + [batch];
      first := last;
    }
    assert all == done;
    NothingFailed(m, lists, all, result);
    r := Returned(result);
  }

  lemma {:induction false} StopsHere(m: Model, lists: Lists, done: seq<Batch>, result: seq<Embedding>, batch: Batch,
                                     rest: seq<Batch>, i: nat, e: Error)
    requires Behind(m, lists, done, result) && batch.first <= i < batch.last
    requires VectorIn(m, lists, batch, i) == Threw(e) && YieldsUpTo(m, lists, batch, i)
    ensures FailsWith(m, lists, (done + [batch]) + rest, e)
  {
    var all := (done + [batch]) + rest;
    assert all[|done|] == batch && forall b :: 0 <= b < |done| ==> all[b] == done[b];
    assert FirstFailure(m, lists, all, |done|, i, e);
  }

  lemma {:induction false} NothingFailed(m: Model, lists: Lists, all: seq<Batch>, result: seq<Embedding>)
    requires Behind(m, lists, all, result) && |result| == |lists|
    ensures AllRead(m, lists, all, result) && forall e :: !FailsWith(m, lists, all, e)
  {
  }

  lemma {:induction false} ResultGrows(m: Model, lists: Lists, done: seq<Batch>, batch: Batch,
                                       result: seq<Embedding>, vectors: seq<Embedding>)
    requires |result| == batch.first <= batch.last && |vectors| == batch.last - batch.first
    requires Behind(m, lists, done, result)
    requires forall i :: batch.first <= i < batch.last ==>
               VectorIn(m, lists, batch, i) == Returned(vectors[i - batch.first])
    ensures Behind(m, lists, done + [batch], result + vectors)
  {
  }

  /** All inputs embedded, one vector each, or the exception of the first refusal or failure; result i
      belongs to input i. */
  method EmbedMany(m: Model, texts: seq<string>, contextSize: nat, batchSize: nat) returns (r: Outcome<seq<Embedding>>)
    ensures r.Returned? ==>
              && |r.value| == |texts|
              && forall i :: 0 <= i < |texts| ==>
                   && texts[i] != "" && |m.prefix + texts[i]| <= 0x7FFF_FFFF
                   && m.tokenize(m.prefix + texts[i]).Some?
                   && 0 < |m.tokenize(m.prefix + texts[i]).value| <= contextSize
                   && |m.tokenize(m.prefix + texts[i]).value| <= batchSize
    ensures match TokenLists(m, texts, contextSize, batchSize)
            case Threw(e) => r == Threw(e)
            case Returned(lists) =>
              && (forall i :: 0 <= i < |texts| ==> m.tokenize(m.prefix + texts[i]) == Some(lists[i]))
              && (r.Returned? ==> AllRead(m, lists, Greedy(lists, 0, batchSize), r.value))
              && (r.Returned? ==> forall e :: !FailsWith(m, lists, Greedy(lists, 0, batchSize), e))
              && (r.Threw? ==> FailsWith(m, lists, Greedy(lists, 0, batchSize), r.error))
  {
    TokenListsMeans(m, texts, contextSize, batchSize);
    var tokens := TokenizeAll(m, texts, contextSize, batchSize);
    if tokens.Threw? {
      return Threw(tokens.error);
    }
    assert forall i :: 0 <= i < |texts| ==> Tokenized(m, texts[i], contextSize, batchSize, tokens.value[i]);
    r := EmbedLists(m, tokens.value, batchSize);
  }
}
