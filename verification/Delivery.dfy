/** The two delivery loops: the analyzer's consumer requeues what fails, the collector's drops it. */
module Delivery {
  /** What the broker does with a delivery; an unsettled one is delivered again when the channel closes. */
  datatype Status = Unsettled | Acked | Requeued | Dropped

  /** The broker's side of a channel: settling fails when `works` is false, and counts only once. */
  class Channel {
    var deliveries: seq<Status>

    constructor (n: nat)
      ensures deliveries == seq(n, _ => Unsettled)
    {
      deliveries := seq(n, _ => Unsettled);
    }

    method Settle(i: nat, status: Status, works: bool) returns (ok: bool)
      requires i < |deliveries|
      modifies this
      ensures ok == works
      ensures deliveries ==
        if works && old(deliveries)[i] == Unsettled then old(deliveries)[i := status] else old(deliveries)
    {
      if works && deliveries[i] == Unsettled {
        deliveries := deliveries[i := status];
      }
      ok := works;
    }
  }

  /** How the handler and the channel behave for each delivery. */
  datatype Behaviour = Behaviour(handlerOk: nat -> bool, ackWorks: nat -> bool, nackWorks: nat -> bool) {
    function AnalyzerOutcome(k: nat): Status {
      if handlerOk(k) && ackWorks(k) then Acked else if nackWorks(k) then Requeued else Unsettled
    }

    function CollectorOutcome(k: nat): Status {
      if handlerOk(k) then (if ackWorks(k) then Acked else Unsettled)
      else if nackWorks(k) then Dropped else Unsettled
    }
  }

  class Consumer {
    var consumedMessages: bool

    constructor ()
      ensures !consumedMessages
    {
      consumedMessages := false;
    }

    /** The loop of `ConsumeMessage` over the deliveries that arrive before the context is done. */
    method ConsumeMessage(ch: Channel, b: Behaviour)
      requires forall i | 0 <= i < |ch.deliveries| :: ch.deliveries[i] == Unsettled
      modifies this, ch
      ensures |ch.deliveries| == old(|ch.deliveries|)
      ensures forall i | 0 <= i < |ch.deliveries| ::
        && (ch.deliveries[i] == Acked <==> b.handlerOk(i) && b.ackWorks(i))
        && (ch.deliveries[i] == Requeued <==> ch.deliveries[i] != Acked && b.nackWorks(i))
        && ch.deliveries[i] != Dropped
      ensures consumedMessages <==>
        old(consumedMessages) || exists i | 0 <= i < |ch.deliveries| :: ch.deliveries[i] == Acked
    {
      for i := 0 to |ch.deliveries|
        invariant |ch.deliveries| == old(|ch.deliveries|)
        invariant forall k | i <= k < |ch.deliveries| :: ch.deliveries[k] == Unsettled
        invariant forall k | 0 <= k < i :: ch.deliveries[k] == b.AnalyzerOutcome(k)
        invariant consumedMessages <==> old(consumedMessages) || exists k | 0 <= k < i :: ch.deliveries[k] == Acked
      {
        if !b.handlerOk(i) {
          var nacked := ch.Settle(i, Requeued, b.nackWorks(i));
          continue;
        }
        var acked := ch.Settle(i, Acked, b.ackWorks(i));
        if !acked {
          var nacked := ch.Settle(i, Requeued, b.nackWorks(i));
          continue;
        }
        consumedMessages := true;
      }
    }
  }

  /** The collector's `Start` and `processMessage`: a failed message is rejected without requeueing. */
  method ProcessMessages(ch: Channel, b: Behaviour)
    requires forall i | 0 <= i < |ch.deliveries| :: ch.deliveries[i] == Unsettled
    modifies ch
    ensures |ch.deliveries| == old(|ch.deliveries|)
    ensures forall i | 0 <= i < |ch.deliveries| ::
      && (ch.deliveries[i] == Acked <==> b.handlerOk(i) && b.ackWorks(i))
      && (ch.deliveries[i] == Dropped <==> !b.handlerOk(i) && b.nackWorks(i))
      && ch.deliveries[i] != Requeued
  {
    for i := 0 to |ch.deliveries|
      invariant |ch.deliveries| == old(|ch.deliveries|)
      invariant forall k | i <= k < |ch.deliveries| :: ch.deliveries[k] == Unsettled
      invariant forall k | 0 <= k < i :: ch.deliveries[k] == b.CollectorOutcome(k)
    {
      if !b.handlerOk(i) {
        var nacked := ch.Settle(i, Dropped, b.nackWorks(i));
        continue;
      }
      var acked := ch.Settle(i, Acked, b.ackWorks(i));
    }
  }
}
