/**
 * The threshold batcher shared by src/utils/Tracker/TrackingTransmitter.ts and
 * src/utils/Tracker/trackingTransmitter.ts: payloads collect in a staging queue, and
 * when it reaches the threshold its contents move, as one batch, to the send queue.
 */
module Batching {
  import opened ObjectStore

  /** A tracking payload: an object of fields. */
  type Payload = Record

  /** `THRESHOLD` */
  const Threshold := 30
  /** `RETRY_COUNT`: declared, not yet read by any code. */
  const RetryCount := 3

  /** `SendBatchType`: the id is `Date.now().toString()`, supplied by the caller. */
  datatype SendBatch = SendBatch(id: string, attempts: nat, data: seq<Payload>)

  /** The two queues: `ThresholdQueue` and `SendQueue`. */
  datatype Buffers = Buffers(thresholdQueue: seq<Payload>, sendQueue: seq<SendBatch>)

  function Flatten(batches: seq<SendBatch>): seq<Payload>
  {
    if batches == [] then [] else batches[0].data + Flatten(batches[1..])
  }

  /** Every payload held, oldest first: the batches in order, then the staging queue. */
  function Pending(b: Buffers): seq<Payload>
  {
    Flatten(b.sendQueue) + b.thresholdQueue
  }

  /** The staging queue is below the threshold and every batch is a fresh, full one. */
  predicate BuffersValid(b: Buffers)
  {
    |b.thresholdQueue| < Threshold &&
    forall i :: 0 <= i < |b.sendQueue| ==> |b.sendQueue[i].data| == Threshold && b.sendQueue[i].attempts == 0
  }

  /** `add(data)` */
  function AddItem(b: Buffers, data: Payload, id: string): Buffers
  {
    var staged := b.thresholdQueue + [data];
    if |staged| >= Threshold then Buffers([], b.sendQueue + [SendBatch(id, 0, staged)])
    else Buffers(staged, b.sendQueue)
  }

  lemma {:induction false} FlattenAppend(a: seq<SendBatch>, b: seq<SendBatch>)
    ensures Flatten(a + b) == Flatten(a) + Flatten(b)
  {
    if a == [] {
      assert a + b == b;
    } else {
      FlattenAppend(a[1..], b);
      assert (a + b)[0] == a[0] && (a + b)[1..] == a[1..] + b;
      assert Flatten(a + b) == a[0].data + (Flatten(a[1..]) + Flatten(b));
    }
  }

  /**
   * `add` keeps the buffers valid, loses and reorders nothing, only ever appends to the
   * send queue, and cuts a batch exactly when the staging queue fills up.
   */
  lemma AddItemEffect(b: Buffers, data: Payload, id: string)
    requires BuffersValid(b)
    ensures var b' := AddItem(b, data, id);
      BuffersValid(b') &&
      Pending(b') == Pending(b) + [data] &&
      b.sendQueue <= b'.sendQueue &&
      (|b.thresholdQueue| == Threshold - 1 ==>
        b'.thresholdQueue == [] && b'.sendQueue == b.sendQueue + [SendBatch(id, 0, b.thresholdQueue + [data])]) &&
      (|b.thresholdQueue| < Threshold - 1 ==>
        b'.thresholdQueue == b.thresholdQueue + [data] && b'.sendQueue == b.sendQueue)
  {
    var staged := b.thresholdQueue + [data];
    if |staged| >= Threshold {
      FlattenAppend(b.sendQueue, [SendBatch(id, 0, staged)]);
      assert Flatten([SendBatch(id, 0, staged)]) == staged;
    }
  }

  /** `add` applied to each payload in turn, the i-th call getting id `ids[i]`. */
  function AddItems(b: Buffers, ds: seq<Payload>, ids: seq<string>): Buffers
    requires |ids| == |ds|
    decreases ds
  {
    if ds == [] then b else AddItems(AddItem(b, ds[0], ids[0]), ds[1..], ids[1..])
  }

  /**
   * After `n` adds to valid queues already staging `t` payloads, every payload is held
   * in order, `(t + n) / 30` new batches have been cut and `(t + n) % 30` payloads are staged.
   */
  lemma {:induction false} AddItemsCounts(b: Buffers, ds: seq<Payload>, ids: seq<string>)
    requires |ids| == |ds| && BuffersValid(b)
    ensures var b' := AddItems(b, ds, ids);
      BuffersValid(b') && Pending(b') == Pending(b) + ds && b.sendQueue <= b'.sendQueue &&
      |b'.sendQueue| == |b.sendQueue| + (|b.thresholdQueue| + |ds|) / Threshold &&
      |b'.thresholdQueue| == (|b.thresholdQueue| + |ds|) % Threshold
    decreases ds
  {
    if ds != [] {
      var next := AddItem(b, ds[0], ids[0]);
      AddItemEffect(b, ds[0], ids[0]);
      AddItemsCounts(next, ds[1..], ids[1..]);
      assert Pending(b) + [ds[0]] + ds[1..] == Pending(b) + ds;
      var t := |b.thresholdQueue|;
      if t == Threshold - 1 {
        assert (t + |ds|) / Threshold == 1 + (|ds| - 1) / Threshold;
        assert (t + |ds|) % Threshold == (|ds| - 1) % Threshold;
      }
    }
  }
}
