/** Sequences of notifications as the host delivers them, and what the
    plugin makes of each sequence as a whole. */
module Scenarios {
  import opened Seqs
  import opened QueueSync
  import opened Player
  import opened Plugin

  /** The player moves on by itself while a song is queued. The plugin
      stops that song and arms the jump; the jump plays the head of the
      queue; the host then announces the head, which is consumed. At the
      end the head has left the queue and its playlist's native queue, it
      plays, and it is where playback was last seen. The host sees one stop,
      the jump's calls, and no second removal of the native slot. */
  method Hijack(pc: PlaybackControl, host: Host)
    requires pc.Valid() && host.Valid()
    requires pc.globalQueue != [] && pc.globalQueue[0].playlistId < host.NPlaylists()
    requires IsLinearAdvance(host.playingPlaylist, host.PlayingPosition(), pc.lastPlayingPlaylist,
                             pc.lastPlayingIndex, host.NEntries(host.playingPlaylist))
    requires pc.globalQueue[0] != QueueEntry(host.playingPlaylist, host.PlayingPosition())
    modifies pc`globalQueue, pc`lastPlayingPlaylist, pc`lastPlayingIndex, pc`jumpPending
    modifies host`activePlaylist, host`positions, host`nativeQueues
    modifies host`playingPlaylist, host`playing, host`stopAfterCurrentSong, host`calls
    ensures pc.Valid() && host.Valid()
    ensures var e := old(pc.globalQueue[0]);
            && pc.globalQueue == old(pc.globalQueue[1..]) && !pc.jumpPending
            && pc.lastPlayingPlaylist == e.playlistId && pc.lastPlayingIndex == e.entryIdx
            && host.activePlaylist == e.playlistId && host.playingPlaylist == e.playlistId && host.playing
            && host.positions == old(host.positions)[e.playlistId := e.entryIdx]
            && host.nativeQueues == WithoutQueued(old(host.nativeQueues), e.playlistId, e.entryIdx)
            && host.stopAfterCurrentSong == (!pc.stopAfterQueueActive && old(host.stopAfterCurrentSong))
            && host.calls == old(host.calls) + [PlaybackStopped, Activated(e.playlistId), PositionSet(e.playlistId, e.entryIdx)]
                             + RemovalCalls(old(host.nativeQueues), e.playlistId, e.entryIdx)
                             + [PlaybackStarted(e.playlistId)]
                             + (if pc.stopAfterQueueActive then [StopAfterSet(false)] else [])
  {
    ghost var e := pc.globalQueue[0];
    ghost var queues, calls0 := host.nativeQueues, host.calls;
    pc.OnPlaybackReady(host);
    ghost var calls1 := host.calls;
    pc.JumpTimerFires(host);
    ghost var afterJump, calls2 := host.nativeQueues, host.calls;
    pc.OnPlaybackReady(host);
    RemoveFirstTwice(queues[e.playlistId], e.entryIdx);
    assert afterJump[e.playlistId] == RemoveFirst(queues[e.playlistId], e.entryIdx);
    RemoveFirstGone(queues[e.playlistId], e.entryIdx);
    assert RemovalCalls(afterJump, e.playlistId, e.entryIdx) == [];
    assert host.calls == calls2;
    assert calls1 + [Activated(e.playlistId), PositionSet(e.playlistId, e.entryIdx)]
        == calls0 + [PlaybackStopped, Activated(e.playlistId), PositionSet(e.playlistId, e.entryIdx)];
  }

  /** The jump is armed, and then every queued song is taken out of the
      native queues before it fires. The playlist update empties the queue,
      and the firing leaves the player exactly as it was: the only call the
      host sees is the stop rule's write after the update. */
  method RaceTolerance(pc: PlaybackControl, host: Host)
    requires pc.Valid() && host.Valid() && pc.jumpPending
    requires forall p :: 0 <= p < host.NPlaylists() ==> host.nativeQueues[p] == []
    requires forall k :: 0 <= k < |pc.globalQueue| ==> pc.globalQueue[k].playlistId < host.NPlaylists()
    modifies pc`globalQueue, pc`localSnapshots, pc`jumpPending
    modifies host`activePlaylist, host`positions, host`nativeQueues
    modifies host`playingPlaylist, host`playing, host`stopAfterCurrentSong, host`calls
    ensures pc.Valid() && pc.globalQueue == [] && !pc.jumpPending
    ensures host.nativeQueues == old(host.nativeQueues) && host.positions == old(host.positions)
    ensures host.activePlaylist == old(host.activePlaylist) && host.playingPlaylist == old(host.playingPlaylist)
    ensures host.playing == old(host.playing)
    ensures host.stopAfterCurrentSong == pc.stopAfterQueueActive
    ensures host.calls == old(host.calls) + [StopAfterSet(pc.stopAfterQueueActive)]
  {
    assert forall k :: 0 <= k < |pc.globalQueue| ==> 0 <= pc.globalQueue[k].playlistId;
    SyncOfEmptyQueues(pc.globalQueue, pc.localSnapshots, host.nativeQueues);
    pc.OnPlaylistUpdate(host);
    pc.JumpTimerFires(host);
  }

  /** Two playlist updates with no change to the native queues between
      them: the second changes nothing the first produced. */
  method UpdateTwice(pc: PlaybackControl, host: Host)
    requires pc.Valid() && host.Valid()
    modifies pc`globalQueue, pc`localSnapshots, host`stopAfterCurrentSong, host`calls
    ensures pc.Valid()
    ensures pc.globalQueue == SyncFrom(old(pc.globalQueue), old(pc.localSnapshots), host.nativeQueues, 0)
    ensures pc.localSnapshots == SnapshotsFrom(old(pc.localSnapshots), host.nativeQueues, 0)
    ensures host.stopAfterCurrentSong == (pc.stopAfterQueueActive && pc.globalQueue == [])
    ensures var b := pc.stopAfterQueueActive && pc.globalQueue == [];
            host.calls == old(host.calls) + [StopAfterSet(b), StopAfterSet(b)]
  {
    SyncIdempotent(pc.globalQueue, pc.localSnapshots, host.nativeQueues);
    pc.OnPlaylistUpdate(host);
    pc.OnPlaylistUpdate(host);
  }
}
