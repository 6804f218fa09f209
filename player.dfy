/** The part of the host player the plugin talks to: its playlists, each
    with a native play queue of entry indices, an entry count and a
    position, plus the active playlist, the playing playlist, whether
    playback runs, and the "stop after current song" setting. Besides its
    effect on that state, every call that changes the host is recorded in
    a log, so that "no call" and "a call that changed nothing" can be told
    apart. */
module Player {
  import opened Seqs

  /** A call the plugin makes that changes the host. */
  datatype HostCall =
    | Activated(playlist: int)
    | PositionSet(playlist: int, entry: int)
    | SlotRemoved(playlist: int, slot: int)
    | PlaybackStarted(playlist: int)
    | PlaybackStopped
    | StopAfterSet(value: bool)

  class Host {
    /** Per playlist, the entry indices in its native queue, in queue order. */
    var nativeQueues: seq<seq<int>>
    /** Per playlist, its number of entries. */
    var entryCounts: seq<nat>
    /** Per playlist, its current position (-1 when it has none). */
    var positions: seq<int>
    /** The playlist shown as active in the interface. */
    var activePlaylist: int
    /** The index of the playing playlist, -1 when no playlist plays. */
    var playingPlaylist: int
    var playing: bool
    /** The "stop_after_current_song" setting. */
    var stopAfterCurrentSong: bool
    /** Every changing call made to the host so far, oldest first. */
    ghost var calls: seq<HostCall>

    /** One queue, count and position per playlist; the host never queues
        an entry twice in one playlist. */
    ghost predicate Valid()
      reads this
    {
      && |entryCounts| == |nativeQueues|
      && |positions| == |nativeQueues|
      && forall p :: 0 <= p < |nativeQueues| ==> Distinct(nativeQueues[p])
    }

    constructor (queues: seq<seq<int>>, counts: seq<nat>, pos: seq<int>)
      requires |counts| == |queues| && |pos| == |queues|
      requires forall p :: 0 <= p < |queues| ==> Distinct(queues[p])
      ensures Valid()
      ensures nativeQueues == queues && entryCounts == counts && positions == pos
      ensures activePlaylist == 0 && playingPlaylist == -1 && !playing && !stopAfterCurrentSong
      ensures calls == []
    {
      nativeQueues, entryCounts, positions := queues, counts, pos;
      activePlaylist, playingPlaylist := 0, -1;
      playing, stopAfterCurrentSong := false, false;
      calls := [];
    }

    /** The number of playlists: one native queue each. */
    function NPlaylists(): (n: nat)
      reads this
      ensures n == |nativeQueues|
    {
      |nativeQueues|
    }

    /** The length of playlist `p`'s native queue; a playlist that does not
        exist has none. */
    function NQueued(p: int): (n: nat)
      reads this
      ensures n == 0 <==> !(0 <= p < |nativeQueues|) || nativeQueues[p] == []
    {
      if 0 <= p < |nativeQueues| then |nativeQueues[p]| else 0
    }

    /** The entry index in slot `slot` of playlist `p`'s native queue. */
    function QueueGetEntry(p: int, slot: int): (x: int)
      reads this
      requires 0 <= p < |nativeQueues| && 0 <= slot < |nativeQueues[p]|
      ensures x in nativeQueues[p]
    {
      nativeQueues[p][slot]
    }

    /** The number of entries of playlist `p`; 0 for a playlist that does
        not exist. */
    function NEntries(p: int): (n: nat)
      reads this
      requires Valid()
      ensures !(0 <= p < |nativeQueues|) ==> n == 0
    {
      if 0 <= p < |nativeQueues| then entryCounts[p] else 0
    }

    /** The position of the playing playlist; -1 when none plays. */
    function PlayingPosition(): (pos: int)
      reads this
      requires Valid()
      ensures !(0 <= playingPlaylist < |nativeQueues|) ==> pos == -1
    {
      if 0 <= playingPlaylist < |nativeQueues| then positions[playingPlaylist] else -1
    }

    /** Takes slot `slot` out of playlist `p`'s native queue. */
    method QueueRemove(p: int, slot: int)
      requires Valid()
      requires 0 <= p < |nativeQueues| && 0 <= slot < |nativeQueues[p]|
      modifies this`nativeQueues, this`calls
      ensures Valid()
      ensures nativeQueues == old(nativeQueues)[p := old(nativeQueues[p][..slot] + nativeQueues[p][slot + 1..])]
      ensures calls == old(calls) + [SlotRemoved(p, slot)]
    {
      calls := calls + [SlotRemoved(p, slot)];
      DistinctRemoveSlot(nativeQueues[p], slot);
      nativeQueues := nativeQueues[p := nativeQueues[p][..slot] + nativeQueues[p][slot + 1..]];
    }

    method Activate(p: int)
      modifies this`activePlaylist, this`calls
      ensures activePlaylist == p
      ensures calls == old(calls) + [Activated(p)]
    {
      calls := calls + [Activated(p)];
      activePlaylist := p;
    }

    /** Moves playlist `p` to entry `pos`. */
    method SetPosition(p: int, pos: int)
      requires Valid() && 0 <= p < |nativeQueues|
      modifies this`positions, this`calls
      ensures Valid()
      ensures positions == old(positions)[p := pos]
      ensures calls == old(calls) + [PositionSet(p, pos)]
    {
      calls := calls + [PositionSet(p, pos)];
      positions := positions[p := pos];
    }

    /** Starts playing playlist `p` from its position. */
    method StartPlayback(p: int)
      modifies this`playingPlaylist, this`playing, this`calls
      ensures playingPlaylist == p && playing
      ensures calls == old(calls) + [PlaybackStarted(p)]
    {
      calls := calls + [PlaybackStarted(p)];
      playingPlaylist, playing := p, true;
    }

    method Stop()
      modifies this`playing, this`calls
      ensures !playing
      ensures calls == old(calls) + [PlaybackStopped]
    {
      calls := calls + [PlaybackStopped];
      playing := false;
    }

    method SetStopAfterCurrentSong(b: bool)
      modifies this`stopAfterCurrentSong, this`calls
      ensures stopAfterCurrentSong == b
      ensures calls == old(calls) + [StopAfterSet(b)]
    {
      calls := calls + [StopAfterSet(b)];
      stopAfterCurrentSong := b;
    }
  }
}
