/** The pool of channels on a connection: allocation of identifiers, the limit on active
    channels, and the three tables that must agree. */
module ChannelPools {
  import opened Prelude

  const MAX_ID: nat := 0xFFFF_FFFF

  type AgentId = string

  datatype ChannelState = Opening | Open | Closing | Closed {

    predicate IsUsable() { Open? }

    predicate IsTerminal() { Closed? }
  }

  datatype ChannelError =
    | NotOpen(channelId: nat, state: ChannelState)
    | PoolExhausted(max: nat)

  /** The queues of one channel, shared by the channel and its writers; `ChannelProtocol`
      says what closing does to them. */
  class Queues {
    const capacity: nat
    var open: bool

    constructor (capacity: nat)
      ensures open && this.capacity == capacity
    {
      this.capacity, open := capacity, true;
    }

    method Close()
      modifies this
      ensures !open
    {
      open := false;
    }
  }

  datatype InboundWriter = InboundWriter(channelId: nat, queues: Queues)

  datatype Receiver = Receiver(queues: Queues)

  datatype Channel = Channel(
    id: nat, source: AgentId, target: AgentId, streamId: nat, state: ChannelState, queues: Queues)
  {
    /** Application data may be sent only on an open channel, control frames on any that is
        not closed. */
    function Refusal(control: bool): (r: Option<ChannelError>)
      ensures r.None? <==> state.Open? || (control && !state.Closed?)
    {
      if control then (if state.IsTerminal() then Some(NotOpen(id, state)) else None)
      else if !state.IsUsable() then Some(NotOpen(id, state)) else None
    }
  }

  /** The tables agree on the active channels, which are issued ones, each with its own
      queues; identifiers are issued in order, from 1 on. */
  ghost predicate TablesAgree(active: set<nat>, issued: map<nat, Queues>, next: nat, writers: map<nat, InboundWriter>,
                              receivers: map<nat, Receiver>, streams: map<nat, nat>)
  {
    && 1 <= next <= MAX_ID && (forall id :: id in issued ==> 1 <= id < next)
    && WritersAgree(active, issued, writers) && StreamsAgree(active, streams)
    && ReceiversAgree(active, issued, receivers)
  }

  ghost predicate WritersAgree(active: set<nat>, issued: map<nat, Queues>, writers: map<nat, InboundWriter>) {
    && active <= issued.Keys && writers.Keys == active
    && forall id :: id in active ==> writers[id] == InboundWriter(id, issued[id])
  }

  ghost predicate StreamsAgree(active: set<nat>, streams: map<nat, nat>) {
    streams.Keys == active && forall s :: s in streams ==> streams[s] == s
  }

  ghost predicate ReceiversAgree(active: set<nat>, issued: map<nat, Queues>, receivers: map<nat, Receiver>) {
    forall id :: id in receivers ==> id in active && id in issued && receivers[id] == Receiver(issued[id])
  }

  lemma WritersGrow(
      active: set<nat>, issued: map<nat, Queues>, writers: map<nat, InboundWriter>, id: nat, queues: Queues)
    requires WritersAgree(active, issued, writers) && id !in issued
    ensures WritersAgree(active + {id}, issued[id := queues], writers[id := InboundWriter(id, queues)])
    ensures id !in writers && |writers[id := InboundWriter(id, queues)]| == |writers| + 1
  {
    var w := writers[id := InboundWriter(id, queues)];
    assert w.Keys == writers.Keys + {id} && |w| == |w.Keys|;
  }

  lemma WritersShrink(active: set<nat>, issued: map<nat, Queues>, writers: map<nat, InboundWriter>, id: nat)
    requires WritersAgree(active, issued, writers)
    ensures WritersAgree(active - {id}, issued, writers - {id}) && |writers - {id}| <= |writers|
  {
    assert (writers - {id}).Keys == writers.Keys - {id};
    SubsetCardinality(writers.Keys - {id}, writers.Keys);
  }

  lemma StreamsChange(active: set<nat>, streams: map<nat, nat>, id: nat)
    requires StreamsAgree(active, streams)
    ensures StreamsAgree(active + {id}, streams[id := id])
    ensures StreamsAgree(active - {id}, map s | s in streams && streams[s] != id :: streams[s])
  {
    assert streams[id := id].Keys == active + {id};
    assert (map s | s in streams && streams[s] != id :: streams[s]).Keys == active - {id};
  }

  lemma ReceiversChange(
      active: set<nat>, issued: map<nat, Queues>, receivers: map<nat, Receiver>, id: nat, queues: Queues)
    requires ReceiversAgree(active, issued, receivers)
    ensures id !in issued ==> ReceiversAgree(active + {id}, issued[id := queues], receivers[id := Receiver(queues)])
  {
  }

  lemma ReceiversShrink(active: set<nat>, issued: map<nat, Queues>, receivers: map<nat, Receiver>, id: nat)
    requires ReceiversAgree(active, issued, receivers)
    ensures ReceiversAgree(active - {id}, issued, receivers - {id})
  {
  }

  ghost predicate SeparateQueues(issued: map<nat, Queues>, capacity: nat, repr: set<Queues>) {
    && (forall id :: id in issued ==> issued[id] in repr)
    && (forall i, j :: i in issued && j in issued && i != j ==> issued[i] != issued[j])
    && forall id :: id in issued ==> issued[id].capacity == capacity
  }

  lemma TablesGrow(active: set<nat>, issued: map<nat, Queues>, next: nat, writers: map<nat, InboundWriter>,
                   receivers: map<nat, Receiver>, streams: map<nat, nat>, queues: Queues)
    requires TablesAgree(active, issued, next, writers, receivers, streams) && next < MAX_ID
    ensures next !in issued && next !in writers && |writers[next := InboundWriter(next, queues)]| == |writers| + 1
    ensures TablesAgree(active + {next}, issued[next := queues], next + 1, writers[next := InboundWriter(next, queues)],
                        receivers[next := Receiver(queues)], streams[next := next])
  {
    hide WritersAgree, StreamsAgree, ReceiversAgree;
    assert next !in issued;
    WritersGrow(active, issued, writers, next, queues);
    StreamsChange(active, streams, next);
    ReceiversChange(active, issued, receivers, next, queues);
  }

  lemma NextIsFresh(active: set<nat>, issued: map<nat, Queues>, next: nat, writers: map<nat, InboundWriter>,
                    receivers: map<nat, Receiver>, streams: map<nat, nat>)
    requires TablesAgree(active, issued, next, writers, receivers, streams)
    ensures next !in issued && 1 <= next <= MAX_ID
  {
  }

  lemma SeparateGrow(issued: map<nat, Queues>, capacity: nat, repr: set<Queues>, id: nat, queues: Queues)
    requires SeparateQueues(issued, capacity, repr) && queues !in repr && queues.capacity == capacity
    ensures SeparateQueues(issued[id := queues], capacity, repr + {queues})
    ensures forall i :: i in issued ==> issued[i] in repr
  {
  }

  lemma WriterIsIssued(active: set<nat>, issued: map<nat, Queues>, next: nat, writers: map<nat, InboundWriter>,
                       receivers: map<nat, Receiver>, streams: map<nat, nat>, id: nat)
    requires TablesAgree(active, issued, next, writers, receivers, streams) && id in writers
    ensures id in active && id in issued && writers[id].queues == issued[id]
  {
  }

  lemma OthersAreUnlisted(active: set<nat>, issued: map<nat, Queues>, next: nat, writers: map<nat, InboundWriter>,
                          receivers: map<nat, Receiver>, streams: map<nat, nat>, id: nat)
    requires TablesAgree(active, issued, next, writers, receivers, streams) && id !in writers
    ensures id !in active && writers - {id} == writers && receivers - {id} == receivers
  {
  }

  lemma OthersAreSeparate(issued: map<nat, Queues>, capacity: nat, repr: set<Queues>, id: nat)
    requires SeparateQueues(issued, capacity, repr) && id in issued
    ensures issued[id] in repr
    ensures forall i :: i in issued && i != id ==> issued[i] != issued[id]
  {
  }

  lemma TablesShrink(active: set<nat>, issued: map<nat, Queues>, next: nat, writers: map<nat, InboundWriter>,
                     receivers: map<nat, Receiver>, streams: map<nat, nat>, id: nat)
    requires TablesAgree(active, issued, next, writers, receivers, streams)
    ensures |writers - {id}| <= |writers|
    ensures TablesAgree(active - {id}, issued, next, writers - {id}, receivers - {id},
                        map s | s in streams && streams[s] != id :: streams[s])
  {
    hide WritersAgree, StreamsAgree, ReceiversAgree;
    WritersShrink(active, issued, writers, id);
    StreamsChange(active, streams, id);
    ReceiversShrink(active, issued, receivers, id);
  }

  class ChannelPool {
    var inboundWriters: map<nat, InboundWriter>
    var outboundReceivers: map<nat, Receiver>
    var streamToChannel: map<nat, nat>
    var nextChannelId: nat
    const bufferSize: nat
    const maxChannels: nat
    /** The queues of every channel ever opened, by identifier. */
    ghost var issued: map<nat, Queues>
    ghost var Repr: set<Queues>

    /** The channels opened and not closed: those whose queues are open. */
    ghost var active: set<nat>

    ghost predicate Valid()
      reads this, Repr
    {
      && TablesAgree(active, issued, nextChannelId, inboundWriters, outboundReceivers, streamToChannel)
      && SeparateQueues(issued, bufferSize, Repr) && bufferSize >= 1
      && (forall id :: id in issued && issued[id] in Repr ==> (issued[id].open <==> id in active))
      && |inboundWriters| <= maxChannels
    }

    constructor (bufferSize: nat, maxChannels: nat)
      ensures Valid() && Repr == {} && issued == map[] && inboundWriters == map[]
      ensures this.maxChannels == maxChannels && this.bufferSize == if bufferSize < 1 then 1 else bufferSize
    {
      inboundWriters, outboundReceivers, streamToChannel := map[], map[], map[];
      nextChannelId := 1;
      this.bufferSize := if bufferSize < 1 then 1 else bufferSize;
      this.maxChannels := maxChannels;
      issued, Repr, active := map[], {}, {};
    }

    function ActiveCount(): nat
      reads this
    {
      |inboundWriters|
    }

    /** Opens a channel under a fresh identifier, unless the limit is reached or the
        identifiers are used up; then nothing changes. */
    method Open(source: AgentId, target: AgentId) returns (r: Result<Channel, ChannelError>)
      requires Valid()
      modifies this
      ensures Valid() && fresh(Repr - old(Repr))
      ensures r.Err? <==> old(ActiveCount()) >= maxChannels || old(nextChannelId) == MAX_ID
      ensures r.Err? ==> r.error == PoolExhausted(maxChannels)
      ensures nextChannelId == old(nextChannelId) + if r.Ok? then 1 else 0
      ensures r.Err? ==>
                && issued == old(issued) && inboundWriters == old(inboundWriters)
                && outboundReceivers == old(outboundReceivers)
      ensures r.Ok? ==> var c := r.value;
                && c.id == old(nextChannelId) && c.id !in old(issued) && c.id != 0 && c.id == c.streamId
                && c.source == source && c.target == target
                && c.state == Opening && fresh(c.queues) && c.queues.open && c.queues.capacity == bufferSize
                && c.Refusal(false) == Some(NotOpen(c.id, Opening)) && c.Refusal(true).None?
                && issued == old(issued)[c.id := c.queues]
                && inboundWriters == old(inboundWriters)[c.id := InboundWriter(c.id, c.queues)]
                && outboundReceivers == old(outboundReceivers)[c.id := Receiver(c.queues)]
    {
      if ActiveCount() >= maxChannels {
        return Err(PoolExhausted(maxChannels));
      }
      var id := nextChannelId;
      if id == MAX_ID {
        return Err(PoolExhausted(maxChannels));
      }
      NextIsFresh(active, issued, id, inboundWriters, outboundReceivers, streamToChannel);
      hide TablesAgree, SeparateQueues;
      var queues := new Queues(bufferSize);
      Register(id, queues);
      r := Ok(Channel(id, source, target, id, Opening, queues));
    }

    /** Enters the queues of a new channel in all tables. */
    method Register(id: nat, queues: Queues)
      requires Valid() && id == nextChannelId && id < MAX_ID && |inboundWriters| < maxChannels
      requires queues.open && queues.capacity == bufferSize && queues !in Repr
      modifies this
      ensures nextChannelId == id + 1
      ensures Valid() && Repr == old(Repr) + {queues} && issued == old(issued)[id := queues]
      ensures inboundWriters == old(inboundWriters)[id := InboundWriter(id, queues)]
      ensures outboundReceivers == old(outboundReceivers)[id := Receiver(queues)]
    {
      hide TablesAgree, SeparateQueues;
      TablesGrow(active, issued, id, inboundWriters, outboundReceivers, streamToChannel, queues);
      SeparateGrow(issued, bufferSize, Repr, id, queues);
      nextChannelId, issued, Repr := id + 1, issued[id := queues], Repr + {queues};
      outboundReceivers, inboundWriters, streamToChannel :=
        outboundReceivers[id := Receiver(queues)], inboundWriters[id := InboundWriter(id, queues)],
          streamToChannel[id := id];
      active := active + {id};
    }

    /** The writer for a stream: that of the active channel with this identifier. */
    method WriterForStream(streamId: nat) returns (r: Option<InboundWriter>)
      requires Valid()
      ensures r ==
              if streamId in issued && issued[streamId].open then Some(InboundWriter(streamId, issued[streamId]))
              else None
    {
      if streamId !in streamToChannel {
        return None;
      }
      var channelId := streamToChannel[streamId];
      if channelId !in inboundWriters {
        return None;
      }
      r := Some(inboundWriters[channelId]);
    }

    /** Hands out the outbound receiver of a channel, once. */
    method TakeOutboundReceiver(channelId: nat) returns (r: Option<Receiver>)
      requires Valid()
      modifies this
      ensures Valid() && Repr == old(Repr) && nextChannelId == old(nextChannelId) && issued == old(issued)
      ensures inboundWriters == old(inboundWriters)
      ensures r == if channelId in old(outboundReceivers) then Some(Receiver(issued[channelId])) else None
      ensures outboundReceivers == old(outboundReceivers) - {channelId}
    {
      r := None;
      if channelId in outboundReceivers {
        r := Some(outboundReceivers[channelId]);
      }
      outboundReceivers := outboundReceivers - {channelId};
    }

    /** Closes an active channel: its queues are closed for good and it leaves all tables.
        Every other channel stays as it is; an inactive or unknown one is not touched. */
    method Close(channelId: nat)
      requires Valid()
      modifies this, Repr
      ensures Valid() && Repr == old(Repr) && nextChannelId == old(nextChannelId) && issued == old(issued)
      ensures inboundWriters == old(inboundWriters) - {channelId}
      ensures outboundReceivers == old(outboundReceivers) - {channelId}
      ensures forall id :: id in issued ==> issued[id].open == (old(issued[id].open) && id != channelId)
    {
      hide TablesAgree;
      if channelId in inboundWriters {
        WriterIsIssued(active, issued, nextChannelId, inboundWriters, outboundReceivers, streamToChannel, channelId);
        OthersAreSeparate(issued, bufferSize, Repr, channelId);
        Unregister(channelId);
      } else {
        OthersAreUnlisted(
          active, issued, nextChannelId, inboundWriters, outboundReceivers, streamToChannel, channelId);
      }
    }

    method Unregister(channelId: nat)
      requires Valid() && channelId in issued && channelId in inboundWriters
      requires inboundWriters[channelId].queues == issued[channelId]
      modifies this, issued[channelId]
      ensures Valid() && Repr == old(Repr) && nextChannelId == old(nextChannelId) && issued == old(issued)
      ensures inboundWriters == old(inboundWriters) - {channelId}
      ensures outboundReceivers == old(outboundReceivers) - {channelId}
      ensures !issued[channelId].open
    {
      hide TablesAgree, SeparateQueues;
      TablesShrink(active, issued, nextChannelId, inboundWriters, outboundReceivers, streamToChannel, channelId);
      OthersAreSeparate(issued, bufferSize, Repr, channelId);
      var writer := inboundWriters[channelId];
      writer.queues.Close();
      inboundWriters, outboundReceivers, streamToChannel :=
        inboundWriters - {channelId}, outboundReceivers - {channelId},
        map s | s in streamToChannel && streamToChannel[s] != channelId :: streamToChannel[s];
      active := active - {channelId};
    }

    /** Dropping the pool closes the queues of every channel. */
    method Drop()
      requires Valid()
      modifies this, Repr
      ensures issued == old(issued) && forall id :: id in issued ==> !issued[id].open
    {
      var left := inboundWriters.Keys;
      while left != {}
        invariant issued == old(issued) && inboundWriters == old(inboundWriters) && left <= inboundWriters.Keys
        invariant forall id :: id in issued && issued[id].open ==> id in left
        decreases left
      {
        var id :| id in left;
        inboundWriters[id].queues.Close();
        left := left - {id};
      }
    }
  }
}
