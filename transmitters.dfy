/**
 * The tracking transmitter of src/utils/Tracker/TrackingTransmitter.ts: the threshold
 * batcher, subscribed to the network tracker so that coming back online flushes the
 * send queue. `flush` has no body; that it is called is what the model reports.
 */
module NetworkedTransmitter {
  import opened Batching
  import opened Network

  class TrackingTransmitter {
    var thresholdQueue: seq<Payload>
    var sendQueue: seq<SendBatch>
    const tracker: NetworkTracker
    /** The identity of the callback the constructor subscribes. */
    const listener: Listener
    /** Every payload passed to `add`, in order. */
    ghost var added: seq<Payload>

    ghost predicate Valid()
      reads this
    {
      BuffersValid(Buffers(thresholdQueue, sendQueue)) && Pending(Buffers(thresholdQueue, sendQueue)) == added
    }

    /** Starts with empty queues and subscribes its callback to the tracker. */
    constructor(tracker: NetworkTracker, listener: Listener)
      requires tracker.Valid()
      modifies tracker
      ensures this.tracker == tracker && this.listener == listener
      ensures thresholdQueue == [] && sendQueue == [] && added == [] && Valid()
      ensures tracker.Valid() && tracker.listeners == Added(old(tracker.listeners), listener)
      ensures tracker.state == old(tracker.state) && tracker.notified == old(tracker.notified)
    {
      this.tracker := tracker;
      this.listener := listener;
      thresholdQueue := [];
      sendQueue := [];
      added := [];
      new;
      var _ := tracker.Subscribe(listener);
    }

    /** `add(data)`: stage the payload; a full staging queue becomes one batch with no attempts yet. */
    method Add(data: Payload, id: string)
      requires Valid()
      modifies this
      ensures Valid() && added == old(added) + [data]
      ensures Buffers(thresholdQueue, sendQueue) == AddItem(Buffers(old(thresholdQueue), old(sendQueue)), data, id)
    {
      AddItemEffect(Buffers(thresholdQueue, sendQueue), data, id);
      thresholdQueue := thresholdQueue + [data];
      if |thresholdQueue| >= Threshold {
        sendQueue := sendQueue + [SendBatch(id, 0, thresholdQueue)];
        thresholdQueue := [];
      }
      added := added + [data];
    }

    /** `tryFlush()`: flushes exactly when the tracker reports "online". */
    method TryFlush() returns (flushed: bool)
      ensures flushed <==> tracker.CurrentState() == Online
    {
      flushed := tracker.CurrentState() == Online;
    }

    /** The subscribed callback: a notification of "online" flushes when batches are waiting. */
    method OnNetworkState(state: NetworkState) returns (flushed: bool)
      ensures flushed <==> state == Online && |sendQueue| > 0
    {
      flushed := state == Online && |sendQueue| > 0;
    }
  }
}

/**
 * The tracking transmitter of src/utils/Tracker/trackingTransmitter.ts: the same
 * threshold batcher, with no network hook.
 */
module PlainTransmitter {
  import opened Batching

  class TrackingTransmitter {
    var thresholdQueue: seq<Payload>
    var sendQueue: seq<SendBatch>
    /** Every payload passed to `add`, in order. */
    ghost var added: seq<Payload>

    ghost predicate Valid()
      reads this
    {
      BuffersValid(Buffers(thresholdQueue, sendQueue)) && Pending(Buffers(thresholdQueue, sendQueue)) == added
    }

    constructor()
      ensures thresholdQueue == [] && sendQueue == [] && added == [] && Valid()
    {
      thresholdQueue := [];
      sendQueue := [];
      added := [];
    }

    /** `add(data)`: stage the payload; a full staging queue becomes one batch with no attempts yet. */
    method Add(data: Payload, id: string)
      requires Valid()
      modifies this
      ensures Valid() && added == old(added) + [data]
      ensures Buffers(thresholdQueue, sendQueue) == AddItem(Buffers(old(thresholdQueue), old(sendQueue)), data, id)
    {
      AddItemEffect(Buffers(thresholdQueue, sendQueue), data, id);
      thresholdQueue := thresholdQueue + [data];
      if |thresholdQueue| >= Threshold {
        sendQueue := sendQueue + [SendBatch(id, 0, thresholdQueue)];
        thresholdQueue := [];
      }
      added := added + [data];
    }
  }
}
