/** NetConnection's queue of packets waiting to be dispatched, and what dispatching them
    tells the peer. */
module PendingPackets {
  import opened AckProtocol

  /** A received packet joins the queue: every readable one, taken in or not, repeated and
      overtaken ones included, except one that is acceptable and meets a flush. */
  predicate Queued(before: Peer, h: Header) {
    Readable(h) && !(Accepts(before, h) && Receive(before, h).IsWaiting())
  }

  class PendingDispatch {
    /** InPacketId runs along with the count of the packet taken in last. */
    var Notify: Peer
    var PendingDispatchPacketReaders: seq<nat>
    ghost var DispatchedPackets: seq<nat>

    constructor ()
      ensures Notify == START && PendingDispatchPacketReaders == [] && DispatchedPackets == []
    {
      Notify, PendingDispatchPacketReaders, DispatchedPackets := START, [], [];
    }

    /** Only an unreadable header and a flush return early; a packet that the notifications
        do not accept moves nothing on but joins the queue. */
    method ReceivedPacket(h: Header)
      modifies this`Notify, this`PendingDispatchPacketReaders
      ensures Notify == Receive(old(Notify), h)
      ensures PendingDispatchPacketReaders == old(PendingDispatchPacketReaders)
                + (if Queued(old(Notify), h) then [h.seqNo] else [])
    {
      if !Readable(h) {
        return;
      }
      if Accepts(Notify, h) {
        Notify := Receive(Notify, h);
        if Notify.IsWaiting() {
          return;
        }
      }
      PendingDispatchPacketReaders := PendingDispatchPacketReaders + [h.seqNo];
    }

    /** Every packet in the queue is dispatched; after each the one taken in last is
        acknowledged. */
    method DispatchPendingPacket()
      modifies this
      ensures PendingDispatchPacketReaders == []
      ensures DispatchedPackets == old(DispatchedPackets) + old(PendingDispatchPacketReaders)
      ensures Notify == if old(PendingDispatchPacketReaders) == [] then old(Notify) else Dispatched(old(Notify), true)
    {
      while PendingDispatchPacketReaders != []
        invariant DispatchedPackets + PendingDispatchPacketReaders
               == old(DispatchedPackets) + old(PendingDispatchPacketReaders)
        invariant |PendingDispatchPacketReaders| <= |old(PendingDispatchPacketReaders)|
        invariant Notify == if |PendingDispatchPacketReaders| == |old(PendingDispatchPacketReaders)| then old(Notify)
                            else Dispatched(old(Notify), true)
        decreases |PendingDispatchPacketReaders|
      {
        DispatchedPackets := DispatchedPackets + [PendingDispatchPacketReaders[0]];
        Notify := Dispatched(Notify, true);
        PendingDispatchPacketReaders := PendingDispatchPacketReaders[1..];
      }
    }
  }

  /** Recorded as arrived. */
  predicate Arrived(p: Peer, k: nat) {
    k < |p.log| && p.log[k]
  }

  /** Dispatching whatever the queue holds records one packet as arrived and no other: the
      one taken in last, unless it is recorded already. */
  lemma RecordedIff(p: Peer, k: nat)
    ensures Arrived(Dispatched(p, true), k) <==> Arrived(p, k) || (k == p.inSeq && p.InAck() < p.inSeq)
  {
  }

  /** The record is right for all packets of a queue exactly when each of them is the one
      taken in last, not recorded yet, or is recorded as arrived already. */
  lemma AllRecordedIff(p: Peer, pending: seq<nat>)
    ensures (forall k | k in pending :: Arrived(Dispatched(p, true), k))
            <==> (forall k | k in pending :: Arrived(p, k) || (k == p.inSeq && p.InAck() < p.inSeq))
  {
    forall k | k in pending
      ensures Arrived(Dispatched(p, true), k) <==> Arrived(p, k) || (k == p.inSeq && p.InAck() < p.inSeq)
    {
      RecordedIff(p, k);
    }
  }
}
