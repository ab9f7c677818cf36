/**
 * readMbox: the reader that pulls message slots from the mailbox stream and
 * cuts them into batches of a fixed size for the indexing workers.
 *
 * The stream is a sequence of slots; reading at or past its end yields end
 * of file. A slot that fails to read becomes a nil message (None) that is
 * still appended to the batch.
 */
module MboxReader {
  import opened Wrappers
  import opened NetMail

  /** What one NextMessage + ReadMessage pair yields. */
  datatype Slot = EndOfFile | ReadError | Read(message: Message)

  /** The slot at position `i`; the stream ends in end of file for good. */
  function SlotAt(stream: seq<Slot>, i: nat): Slot {
    if i < |stream| then stream[i] else EndOfFile
  }

  /** The position of the first end of file: every slot before it is a message slot. */
  function FirstEof(stream: seq<Slot>): (n: nat)
    ensures n <= |stream|
    ensures forall i :: 0 <= i < n ==> !stream[i].EndOfFile?
    ensures SlotAt(stream, n).EndOfFile?
  {
    if stream == [] || stream[0].EndOfFile? then 0 else 1 + FirstEof(stream[1..])
  }

  /** The message a slot contributes to its batch: nil for a failed read. */
  function AsMessage(slot: Slot): Option<Message> {
    if slot.Read? then Some(slot.message) else None
  }

  /** The messages before the first end of file, one per slot, failed ones included. */
  function Messages(stream: seq<Slot>): (ms: seq<Option<Message>>)
    ensures |ms| == FirstEof(stream)
    ensures forall i :: 0 <= i < |ms| ==> ms[i] == AsMessage(stream[i])
  {
    if stream == [] || stream[0].EndOfFile? then [] else [AsMessage(stream[0])] + Messages(stream[1..])
  }

  /** Consecutive batches of `size` elements, the last one possibly shorter. */
  function Batches<T>(xs: seq<T>, size: nat): seq<seq<T>>
    requires size > 0
    decreases |xs|
  {
    if |xs| == 0 then []
    else if |xs| <= size then [xs]
    else [xs[..size]] + Batches(xs[size..], size)
  }

  /** Every batch holds exactly `size` elements. */
  predicate WholeBatches<T>(batches: seq<seq<T>>, size: nat) {
    forall i :: 0 <= i < |batches| ==> |batches[i]| == size
  }

  /** The batches concatenated in order. */
  function Flatten<T>(batches: seq<seq<T>>): seq<T> {
    if batches == [] then [] else batches[0] + Flatten(batches[1..])
  }

  /**
   * The inner loop of readMbox (main.go:140-157): up to `size` calls of
   * NextMessage from position `pos`. It stops early, with `done`, at the end
   * of file; otherwise it reads exactly `size` slots. With size 0 it reads
   * nothing and never reports the end, so the outer loop cannot finish.
   */
  method ReadBatch(stream: seq<Slot>, pos: nat, size: nat)
    returns (batch: seq<Option<Message>>, next: nat, done: bool)
    requires pos <= FirstEof(stream)
    ensures done <==> FirstEof(stream) - pos < size
    ensures done ==> next == FirstEof(stream) + 1 && batch == Messages(stream)[pos..]
    ensures !done ==> next == pos + size && batch == Messages(stream)[pos..next]
    ensures size == 0 ==> !done && batch == [] && next == pos
  {
    batch, next, done := [], pos, false;
    ghost var ms, eof := Messages(stream), FirstEof(stream);
    var idx := 0;
    while idx < size
      invariant 0 <= idx <= size
      invariant next == pos + idx <= eof
      invariant batch == ms[pos..next]
    {
      var slot := SlotAt(stream, next);
      if slot.EndOfFile? {
        assert next == eof;
        next := next + 1;
        done := true;
        break;
      }
      assert ms[pos..next + 1] == ms[pos..next] + [AsMessage(slot)];
      next := next + 1;
      batch := batch + [AsMessage(slot)];
      idx := idx + 1;
    }
  }

  /**
   * readMbox (main.go:132-165): batches are cut until the end of file; a
   * non-empty batch is sent (the `sent` sequence stands for the channel) and
   * the `processed` counter grows by its length. The sent batches are the
   * messages of the stream in batches of `size`, the counter ends up
   * `processed0` plus the number of message slots, and exactly the slots up
   * to and including the first end of file are consumed.
   */
  method ReadMbox(stream: seq<Slot>, size: nat, processed0: nat)
    returns (sent: seq<seq<Option<Message>>>, processed: nat, consumed: nat)
    requires size > 0
    ensures sent == Batches(Messages(stream), size)
    ensures processed == processed0 + |Messages(stream)|
    ensures consumed == FirstEof(stream) + 1
  {
    var done := false;
    sent, processed, consumed := [], processed0, 0;
    while !done
      invariant consumed <= FirstEof(stream) + 1
      invariant !done ==> consumed <= FirstEof(stream) && WholeBatches(sent, size)
      invariant !done ==> sent == Batches(Messages(stream)[..consumed], size)
      invariant !done ==> processed == processed0 + consumed
      invariant done ==> consumed == FirstEof(stream) + 1
      invariant done ==> sent == Batches(Messages(stream), size)
      invariant done ==> processed == processed0 + |Messages(stream)|
      decreases !done, FirstEof(stream) + 1 - consumed
    {
      ghost var before := Messages(stream)[..consumed];
      var messages, next, eof := ReadBatch(stream, consumed, size);
      ghost var after := if eof then Messages(stream) else Messages(stream)[..next];
      assert after == before + messages;
      if |messages| > 0 {
        BatchesAppend(before, messages, size);
        sent := sent + [messages];
        assert !eof ==> WholeBatches(sent, size);
        processed := processed + |messages|;
      } else {
        assert after == before;
      }
      consumed, done := next, eof;
    }
  }

  /** A batch of 1..size elements after whole batches becomes one more batch. */
  lemma {:induction false} BatchesAppend<T>(xs: seq<T>, batch: seq<T>, size: nat)
    requires size > 0 && WholeBatches(Batches(xs, size), size)
    requires 1 <= |batch| <= size
    ensures Batches(xs + batch, size) == Batches(xs, size) + [batch]
    decreases |xs|
  {
    if |xs| == 0 {
      assert xs + batch == batch;
    } else {
      assert |Batches(xs, size)[0]| == size;
      assert (xs + batch)[..size] == xs[..size];
      assert (xs + batch)[size..] == xs[size..] + batch;
      if |xs| == size {
        assert xs[size..] + batch == batch;
      } else {
        var rest := Batches(xs[size..], size);
        assert forall i :: 0 <= i < |rest| ==> rest[i] == Batches(xs, size)[i + 1];
        BatchesAppend(xs[size..], batch, size);
      }
    }
  }

  /** Concatenating the batches in order gives back exactly the input. */
  lemma {:induction false} BatchesFlatten<T>(xs: seq<T>, size: nat)
    requires size > 0
    ensures Flatten(Batches(xs, size)) == xs
    decreases |xs|
  {
    if |xs| > size {
      BatchesFlatten(xs[size..], size);
      assert ([xs[..size]] + Batches(xs[size..], size))[1..] == Batches(xs[size..], size);
      assert xs == xs[..size] + xs[size..];
    } else if |xs| > 0 {
      assert [xs][1..] == [];
      assert xs + [] == xs;
    }
  }

  /**
   * The shape of the batches: ceil(|xs| / size) of them (no fewer than
   * needed to hold |xs| elements, and not one more), none empty, every one
   * but the last exactly `size` long, the last holding the remainder.
   */
  lemma {:induction false} BatchesShape<T>(xs: seq<T>, size: nat)
    requires size > 0
    ensures var bs := Batches(xs, size);
            && (|bs| - 1) * size < |xs| <= |bs| * size
            && (forall i :: 0 <= i < |bs| ==> 1 <= |bs[i]| <= size)
            && (forall i :: 0 <= i < |bs| - 1 ==> |bs[i]| == size)
            && (|bs| > 0 ==> |bs[|bs| - 1]| == |xs| - (|bs| - 1) * size)
    decreases |xs|
  {
    var bs := Batches(xs, size);
    if |xs| > size {
      var rest := Batches(xs[size..], size);
      BatchesShape(xs[size..], size);
      assert bs == [xs[..size]] + rest;
      assert (|rest| + 1) * size == |rest| * size + size;
      assert |rest| * size == (|rest| - 1) * size + size;
      forall i | 0 <= i < |bs|
        ensures 1 <= |bs[i]| <= size
        ensures i < |bs| - 1 ==> |bs[i]| == size
      {
        if i > 0 { assert bs[i] == rest[i - 1]; }
      }
    }
  }

  /** The batch count is the ceiling of |xs| / size. */
  lemma BatchCount<T>(xs: seq<T>, size: nat)
    requires size > 0
    ensures |Batches(xs, size)| == (|xs| + size - 1) / size
  {
    var n := |Batches(xs, size)|;
    BatchesShape(xs, size);
    DivOfRange(|xs| + size - 1, size, n);
  }

  /** A number in [n * size, n * size + size) has quotient n. */
  lemma DivOfRange(x: int, size: int, n: int)
    requires size > 0 && n * size <= x < n * size + size
    ensures x / size == n
  {
    var q := x / size;
    assert x == q * size + x % size;
    if q < n {
      MulLess(q + 1, n, size);
    } else if q > n {
      MulLess(n + 1, q, size);
    }
  }

  /** Multiplication by a positive number keeps <=. */
  lemma MulLess(a: int, b: int, size: int)
    requires a <= b && size > 0
    ensures a * size <= b * size
  {
  }

  /** The slots after the first end of file play no part in what is read. */
  lemma {:induction false} MessagesIgnoreTail(stream: seq<Slot>, rest: seq<Slot>)
    ensures Messages(stream[..FirstEof(stream)] + [EndOfFile] + rest) == Messages(stream)
    ensures FirstEof(stream[..FirstEof(stream)] + [EndOfFile] + rest) == FirstEof(stream)
  {
    var n := FirstEof(stream);
    var s := stream[..n] + [EndOfFile] + rest;
    if n > 0 {
      assert s[1..] == stream[1..][..FirstEof(stream[1..])] + [EndOfFile] + rest;
      MessagesIgnoreTail(stream[1..], rest);
    }
  }

  /**
   * What readMbox sends, in the terms the reader promises: ceil(M / size)
   * batches for M message slots; every batch non-empty and at most `size`
   * long, all but the last exactly `size`; concatenated, they are the
   * message of every slot before the first end of file, nil for each failed
   * read, in stream order.
   */
  lemma ReaderOutput(stream: seq<Slot>, size: nat)
    requires size > 0
    ensures var bs := Batches(Messages(stream), size);
            var m := FirstEof(stream);
            && |bs| == (m + size - 1) / size
            && (|bs| > 0 ==> |bs[|bs| - 1]| == m - (|bs| - 1) * size)
            && (forall i :: 0 <= i < |bs| ==> 1 <= |bs[i]| <= size)
            && (forall i :: 0 <= i < |bs| - 1 ==> |bs[i]| == size)
            && |Flatten(bs)| == m
            && (forall i :: 0 <= i < m ==> Flatten(bs)[i] == AsMessage(stream[i]))
  {
    BatchesShape(Messages(stream), size);
    BatchCount(Messages(stream), size);
    BatchesFlatten(Messages(stream), size);
  }
}
