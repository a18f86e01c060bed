/** ConnectionChannelRecord: which channels every packet in flight carries, as one flat
    queue of tagged entries. */
module ChannelRecord {

  /** One entry: a packet id or a channel, in 31 bits, and which of the two it is. */
  datatype Entry = Entry(value: nat, isSequence: bool)

  const VALUE_LIMIT := 0x8000_0000

  const UINT32_MAX := 0xFFFF_FFFF

  /** What a stretch of the queue means: a packet id and the channels written into it. */
  datatype Group = Group(packetId: nat, channels: seq<nat>)

  function ChannelEntries(channels: seq<nat>): seq<Entry> {
    seq(|channels|, i requires 0 <= i < |channels| => Entry(channels[i], false))
  }

  function Flatten(groups: seq<Group>): seq<Entry> {
    if groups == [] then []
    else [Entry(groups[0].packetId, true)] + ChannelEntries(groups[0].channels) + Flatten(groups[1..])
  }

  /** A record starts with a packet id, or is empty. */
  predicate Headed(entries: seq<Entry>) {
    entries == [] || entries[0].isSequence
  }

  /** Reads the groups back; a queue that does not start with a packet id means nothing. */
  function Decode(entries: seq<Entry>): (groups: seq<Group>)
    decreases |entries|
  {
    if entries == [] then []
    else if entries[0].isSequence then
      var n := ChannelsFrom(entries[1..]);
      [Group(entries[0].value, seq(n, i requires 0 <= i < n => entries[1 + i].value))] + Decode(entries[1 + n..])
    else []
  }

  /** The number of channel entries at the front. */
  function ChannelsFrom(entries: seq<Entry>): (n: nat)
    ensures n <= |entries|
  {
    if entries == [] || entries[0].isSequence then 0 else 1 + ChannelsFrom(entries[1..])
  }

  lemma {:induction false} ChannelsFromEntries(channels: seq<nat>, tail: seq<Entry>)
    requires tail == [] || tail[0].isSequence
    ensures ChannelsFrom(ChannelEntries(channels) + tail) == |channels|
    decreases |channels|
  {
    var all := ChannelEntries(channels) + tail;
    if channels == [] {
      assert all == tail;
    } else {
      assert all[1..] == ChannelEntries(channels[1..]) + tail;
      ChannelsFromEntries(channels[1..], tail);
    }
  }

  /** The flat queue loses nothing: it decodes to the groups it was made of. */
  lemma {:induction false} DecodeFlatten(groups: seq<Group>)
    ensures Decode(Flatten(groups)) == groups
    decreases |groups|
  {
    if groups != [] {
      var g, rest := groups[0], Flatten(groups[1..]);
      DecodeFlatten(groups[1..]);
      FlattenHeaded(groups[1..]);
      DecodeFirst(g, rest);
      assert [g] + groups[1..] == groups;
    }
  }

  lemma FlattenHeaded(groups: seq<Group>)
    ensures Headed(Flatten(groups))
  {
  }

  lemma DecodeFirst(g: Group, rest: seq<Entry>)
    requires Headed(rest)
    ensures Decode([Entry(g.packetId, true)] + ChannelEntries(g.channels) + rest) == [g] + Decode(rest)
  {
    var entries := [Entry(g.packetId, true)] + ChannelEntries(g.channels) + rest;
    var n := |g.channels|;
    assert entries[1..] == ChannelEntries(g.channels) + rest;
    ChannelsFromEntries(g.channels, rest);
    assert entries[1 + n..] == rest;
    assert seq(n, i requires 0 <= i < n => entries[1 + i].value) == g.channels;
  }

  lemma {:induction false} FlattenAppend(groups: seq<Group>, more: seq<Group>)
    ensures Flatten(groups + more) == Flatten(groups) + Flatten(more)
    decreases |groups|
  {
    if groups == [] {
      assert groups + more == more;
    } else {
      assert (groups + more)[1..] == groups[1..] + more;
      FlattenAppend(groups[1..], more);
    }
  }

  // ----- the operations on groups -----

  function PushPacket(groups: seq<Group>, last: int, packetId: nat): seq<Group> {
    if packetId == last then groups else groups + [Group(packetId, [])]
  }

  function AddChannel(groups: seq<Group>, channel: nat): seq<Group>
    requires groups != []
  {
    var n := |groups| - 1;
    groups[..n] + [groups[n].(channels := groups[n].channels + [channel])]
  }

  lemma FlattenAddChannel(groups: seq<Group>, channel: nat)
    requires groups != []
    ensures Flatten(AddChannel(groups, channel)) == Flatten(groups) + [Entry(channel, false)]
  {
    var n := |groups| - 1;
    var g := groups[n];
    var h := g.(channels := g.channels + [channel]);
    FlattenAppend(groups[..n], [g]);
    FlattenAppend(groups[..n], [h]);
    assert groups == groups[..n] + [g];
    assert ChannelEntries(h.channels) == ChannelEntries(g.channels) + [Entry(channel, false)];
    assert [g][1..] == [] && [h][1..] == [];
  }

  /** The channels with each run of equal neighbours reported once. */
  function Collapse(channels: seq<nat>, previous: nat): seq<nat> {
    if channels == [] then []
    else if channels[0] == previous then Collapse(channels[1..], previous)
    else [channels[0]] + Collapse(channels[1..], channels[0])
  }

  /** Every channel written is reported, and nothing else. */
  lemma {:induction false} CollapseCovers(channels: seq<nat>, previous: nat, c: nat)
    ensures c in Collapse(channels, previous) ==> c in channels
    ensures c in channels && c != previous ==> c in Collapse(channels, previous)
    decreases |channels|
  {
    if channels != [] {
      CollapseCovers(channels[1..], channels[0], c);
      assert channels == [channels[0]] + channels[1..];
    }
  }

  /** No two calls in a row report the same channel. */
  lemma {:induction false} CollapseAlternates(channels: seq<nat>, previous: nat, i: nat)
    requires i < |Collapse(channels, previous)|
    ensures Collapse(channels, previous)[i] != if i == 0 then previous else Collapse(channels, previous)[i - 1]
    decreases |channels|
  {
    if channels[0] == previous {
      CollapseAlternates(channels[1..], previous, i);
    } else if i > 0 {
      CollapseAlternates(channels[1..], channels[0], i - 1);
    }
  }

  /** One entry more makes one call more, unless it repeats the one before it. */
  lemma {:induction false} CollapseNext(channels: seq<nat>, c: nat, previous: nat)
    ensures Collapse(channels + [c], previous)
         == Collapse(channels, previous)
            + (if c == (if channels == [] then previous else channels[|channels| - 1]) then [] else [c])
    decreases |channels|
  {
    if channels == [] {
      assert [] + [c] == [c] && [c][1..] == [];
    } else {
      assert (channels + [c])[1..] == channels[1..] + [c];
      CollapseNext(channels[1..], c, channels[0]);
    }
  }

  /** Packet ids increase up to the last one pushed; every value fits its 31 bits. */
  ghost predicate Increasing(groups: seq<Group>, last: int) {
    && (forall i | 0 <= i < |groups| :: Fits(groups[i]))
    && (forall i | 0 <= i < |groups| - 1 :: groups[i].packetId < groups[i + 1].packetId)
    && (groups != [] ==> groups[|groups| - 1].packetId == last)
  }

  ghost predicate Fits(g: Group) {
    g.packetId < VALUE_LIMIT && forall c | c in g.channels :: c < VALUE_LIMIT
  }

  lemma PushKeeps(groups: seq<Group>, last: int, packetId: nat)
    requires Increasing(groups, last) && last <= packetId < VALUE_LIMIT
    ensures Increasing(PushPacket(groups, last, packetId), packetId)
  {
  }

  lemma AddChannelKeeps(groups: seq<Group>, last: int, channel: nat)
    requires Increasing(groups, last) && groups != [] && channel < VALUE_LIMIT
    ensures Increasing(AddChannel(groups, channel), last)
  {
    var n := |groups| - 1;
    assert Fits(groups[n]) && Fits(AddChannel(groups, channel)[n]);
  }

  class ConnectionChannelRecord {
    var EntryRecord: seq<Entry>
    var LastPacketId: int
    ghost var Groups: seq<Group>

    /** The queue is the flat form of its groups, whose ids increase up to LastPacketId. */
    ghost predicate Valid()
      reads this
    {
      EntryRecord == Flatten(Groups) && Increasing(Groups, LastPacketId)
    }

    constructor ()
      ensures Valid() && Groups == [] && LastPacketId == -1
    {
      EntryRecord, LastPacketId, Groups := [], -1, [];
    }

    method PushPacketId(packetId: nat)
      requires Valid() && LastPacketId <= packetId < VALUE_LIMIT
      modifies this
      ensures Valid() && LastPacketId == packetId
      ensures Groups == PushPacket(old(Groups), old(LastPacketId), packetId)
      ensures EntryRecord == old(EntryRecord) + (if packetId == old(LastPacketId) then [] else [Entry(packetId, true)])
    {
      hide Increasing;
      PushKeeps(Groups, LastPacketId, packetId);
      if packetId != LastPacketId {
        EntryRecord := EntryRecord + [Entry(packetId, true)];
        LastPacketId := packetId;
        FlattenAppend(Groups, [Group(packetId, [])]);
        assert Flatten([Group(packetId, [])]) == [Entry(packetId, true)];
        Groups := Groups + [Group(packetId, [])];
      }
    }

    /** The channel joins the packet's group.  A packet that is the last one pushed and has
        been consumed has no group any more: then the queue is broken, see OrphanIff. */
    method PushChannelRecord(packetId: nat, channelIndex: nat)
      requires Valid() && LastPacketId <= packetId < VALUE_LIMIT && channelIndex < VALUE_LIMIT
      modifies this
      ensures EntryRecord == PushRaw(old(EntryRecord), old(LastPacketId), packetId, channelIndex)
      ensures LastPacketId == packetId
      ensures packetId != old(LastPacketId) || old(Groups) != [] ==>
                Valid() && Groups == AddChannel(PushPacket(old(Groups), old(LastPacketId), packetId), channelIndex)
    {
      hide Increasing;
      PushPacketId(packetId);
      EntryRecord := EntryRecord + [Entry(channelIndex, false)];
      if Groups != [] {
        AddChannelKeeps(Groups, packetId, channelIndex);
        FlattenAddChannel(Groups, channelIndex);
        Groups := AddChannel(Groups, channelIndex);
      }
    }

    /** Removes the front group when it is the given packet's and reports its channels to
        Func; an empty record is fine, any other packet is refused and changes nothing. */
    method Consume(packetId: nat) returns (ok: bool, calls: seq<nat>)
      requires Valid()
      modifies this
      ensures Valid() && LastPacketId == old(LastPacketId)
      ensures ok == (old(Groups) == [] || old(Groups)[0].packetId == packetId)
      ensures if ok && old(Groups) != []
              then Groups == old(Groups)[1..] && calls == Collapse(old(Groups)[0].channels, UINT32_MAX)
              else Groups == old(Groups) && EntryRecord == old(EntryRecord) && calls == []
    {
      calls := [];
      if EntryRecord == [] {
        return true, [];
      }
      var packetEntry := EntryRecord[0];
      if !packetEntry.isSequence || packetEntry.value != packetId {
        return false, [];
      }
      EntryRecord := EntryRecord[1..];
      ghost var channels, rest := Groups[0].channels, Flatten(Groups[1..]);
      assert EntryRecord == ChannelEntries(channels) + rest;
      var previous: nat := UINT32_MAX;
      ghost var i := 0;
      while EntryRecord != [] && !EntryRecord[0].isSequence
        invariant i <= |channels| && EntryRecord == ChannelEntries(channels[i..]) + rest
        invariant calls + Collapse(channels[i..], previous) == Collapse(channels, UINT32_MAX)
        invariant LastPacketId == old(LastPacketId) && Groups == old(Groups)
        decreases |EntryRecord|
      {
        assert i < |channels|;
        assert ChannelEntries(channels[i..])[1..] == ChannelEntries(channels[i + 1..])
               && channels[i..][1..] == channels[i + 1..];
        var channelIndex := EntryRecord[0].value;
        EntryRecord := EntryRecord[1..];
        if channelIndex != previous {
          calls := calls + [channelIndex];
          previous := channelIndex;
        }
        i := i + 1;
      }
      assert i == |channels|;
      Groups := Groups[1..];
      ok := true;
    }
  }

  /** The push on the raw queue, without any promise of the caller. */
  function PushRaw(entries: seq<Entry>, last: int, packetId: nat, channel: nat): seq<Entry> {
    (if packetId == last then entries else entries + [Entry(packetId, true)]) + [Entry(channel, false)]
  }

  /** ConsumeChannelRecordsForPacket goes ahead. */
  predicate Accepts(entries: seq<Entry>, packetId: nat) {
    entries == [] || (entries[0].isSequence && entries[0].value == packetId)
  }

  /** Recording one more channel for a packet breaks the queue exactly when that packet is
      the last one pushed and everything has been consumed.  A broken queue refuses every
      packet, and appending never repairs it. */
  lemma OrphanIff(entries: seq<Entry>, last: int, packetId: nat, channel: nat)
    requires Headed(entries)
    ensures var after := PushRaw(entries, last, packetId, channel);
            && (Headed(after) <==> packetId != last || entries != [])
            && (!Headed(after) ==> forall more: seq<Entry>, p: nat :: !Accepts(after + more, p))
  {
  }
}
