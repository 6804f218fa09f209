/** The plugin: a play queue spanning all playlists, kept in step with the
    host's per-playlist native queues, which takes over the player's own
    "next song" advance so that queued songs play first, in the order they
    were queued, and which can stop playback once that queue runs dry. */
module Plugin {
  import opened Seqs
  import opened QueueSync
  import opened Player

  /** Whether the song about to play, entry `candidate` of playlist
      `current`, is the player's own move to the next song after entry
      `lastIndex` of playlist `lastPlaylist`: the following entry, or the
      first one after the last of a playlist of `nEntries` entries. */
  predicate IsLinearAdvance(current: int, candidate: int, lastPlaylist: int, lastIndex: int, nEntries: int): (r: bool)
    ensures r ==> current == lastPlaylist && (candidate == lastIndex + 1 || candidate == 0)
  {
    current == lastPlaylist && (candidate == lastIndex + 1 || (lastIndex == nEntries - 1 && candidate == 0))
  }

  /** Between entries of the playlist, a linear advance is exactly a move
      to the cyclic successor of the last entry. */
  lemma LinearAdvanceIsSuccessor(current: int, candidate: int, lastPlaylist: int, lastIndex: int, nEntries: int)
    requires 0 <= lastIndex < nEntries && 0 <= candidate < nEntries
    ensures IsLinearAdvance(current, candidate, lastPlaylist, lastIndex, nEntries)
        <==> current == lastPlaylist && candidate == (lastIndex + 1) % nEntries
  {
    if lastIndex + 1 < nEntries {
      assert (lastIndex + 1) % nEntries == lastIndex + 1;
    } else {
      assert (lastIndex + 1) % nEntries == 0;
    }
  }

  /** The native queues after the first slot holding `x` is taken out of
      playlist `p`'s queue; a playlist that does not exist is left alone. */
  function WithoutQueued(queues: seq<seq<int>>, p: int, x: int): (r: seq<seq<int>>)
    ensures |r| == |queues|
  {
    if 0 <= p < |queues| then queues[p := RemoveFirst(queues[p], x)] else queues
  }

  /** The host calls that taking `x` out of playlist `p`'s native queue
      makes: one removal of the first slot holding `x`, when there is one.
      A call is made exactly when the native queues change. */
  function RemovalCalls(queues: seq<seq<int>>, p: int, x: int): (r: seq<HostCall>)
    ensures r == [] <==> WithoutQueued(queues, p, x) == queues
  {
    if 0 <= p < |queues| && x in queues[p] then [SlotRemoved(p, IndexOf(queues[p], x))]
    else if 0 <= p < |queues| then RemoveFirstAbsent(queues[p], x); []
    else []
  }

  /** Linear search, as the plugin's inner loops do it. */
  method Contains(s: seq<int>, x: int) returns (found: bool)
    ensures found <==> x in s
  {
    found := false;
    var j := 0;
    while j < |s|
      invariant 0 <= j <= |s|
      invariant x !in s[..j]
    {
      if s[j] == x {
        found := true;
        return;
      }
      assert s[..j + 1] == s[..j] + [s[j]];
      j := j + 1;
    }
    assert s[..j] == s;
  }

  /** Scans playlist `p`'s native queue and removes the first slot holding
      `x`, if any. */
  method RemoveFromNativeQueue(host: Host, p: int, x: int)
    requires host.Valid()
    modifies host`nativeQueues, host`calls
    ensures host.Valid()
    ensures host.nativeQueues == WithoutQueued(old(host.nativeQueues), p, x)
    ensures host.calls == old(host.calls) + RemovalCalls(old(host.nativeQueues), p, x)
  {
    var nQueued := host.NQueued(p);
    var slot := 0;
    while slot < nQueued
      invariant 0 <= slot <= nQueued
      invariant host.nativeQueues == old(host.nativeQueues) && host.calls == old(host.calls)
      invariant 0 <= p < |host.nativeQueues| ==> forall j :: 0 <= j < slot ==> host.nativeQueues[p][j] != x
    {
      if host.QueueGetEntry(p, slot) == x {
        RemoveFirstAt(host.nativeQueues[p], slot, x);
        host.QueueRemove(p, slot);
        return;
      }
      slot := slot + 1;
    }
    if 0 <= p < |host.nativeQueues| {
      RemoveFirstAbsent(host.nativeQueues[p], x);
    }
  }

  class PlaybackControl {
    /** The "stop after queue" toggle. */
    var stopAfterQueueActive: bool
    /** The play queue across all playlists, head first. */
    var globalQueue: seq<QueueEntry>
    /** Per playlist, its native queue as last seen. */
    var localSnapshots: map<int, seq<int>>
    /** Where playback was last seen: playlist and entry. */
    var lastPlayingPlaylist: int
    var lastPlayingIndex: int
    /** Whether the deferred jump timer is armed. */
    var jumpPending: bool

    /** Every queued entry is recorded in its playlist's snapshot, no entry
        is queued twice, and snapshots belong to real playlist indices. So
        the head of the queue names a playlist index that is not negative,
        and checking it against the playlist count is enough. */
    ghost predicate Valid()
      reads this
      ensures Valid() && globalQueue != [] ==> 0 <= globalQueue[0].playlistId
    {
      && Recorded(globalQueue, localSnapshots)
      && Distinct(globalQueue)
      && forall p :: p in localSnapshots ==> 0 <= p
    }

    /** The plugin's state when it is loaded. */
    constructor ()
      ensures Valid()
      ensures stopAfterQueueActive && globalQueue == [] && localSnapshots == map[]
      ensures lastPlayingPlaylist == -1 && lastPlayingIndex == -1 && !jumpPending
    {
      stopAfterQueueActive := true;
      globalQueue, localSnapshots := [], map[];
      lastPlayingPlaylist, lastPlayingIndex := -1, -1;
      jumpPending := false;
    }

    /** Brings the queue in line with the host's native queues, playlist
        by playlist. */
    method SyncGlobalQueue(host: Host)
      requires Valid() && host.Valid()
      modifies this`globalQueue, this`localSnapshots
      ensures Valid()
      ensures globalQueue == SyncFrom(old(globalQueue), old(localSnapshots), host.nativeQueues, 0)
      ensures localSnapshots == SnapshotsFrom(old(localSnapshots), host.nativeQueues, 0)
    {
      ghost var q0, s0, queues := globalQueue, localSnapshots, host.nativeQueues;
      var nPlaylists := host.NPlaylists();
      var i := 0;
      while i < nPlaylists
        invariant 0 <= i <= nPlaylists
        invariant SyncFrom(globalQueue, localSnapshots, queues, i) == SyncFrom(q0, s0, queues, 0)
        invariant SnapshotsFrom(localSnapshots, queues, i) == SnapshotsFrom(s0, queues, 0)
      {
        SyncFromStep(globalQueue, localSnapshots, queues, i);
        SyncPlaylist(host, i);
        i := i + 1;
      }
      SyncKeepsInvariant(q0, s0, queues, 0);
      SnapshotsContents(s0, queues, 0);
    }

    /** One iteration of the synchronisation loop: reads playlist `i`'s
        native queue, runs the addition and removal passes against its
        snapshot and records the new snapshot. */
    method SyncPlaylist(host: Host, i: int)
      requires 0 <= i < host.NPlaylists()
      modifies this`globalQueue, this`localSnapshots
      ensures globalQueue == SyncStep(old(globalQueue), i, host.nativeQueues[i], Last(old(localSnapshots), i))
      ensures localSnapshots == old(localSnapshots)[i := host.nativeQueues[i]]
    {
      var nQueued := host.NQueued(i);
      var currentLocal: seq<int> := [];
      var q := 0;
      while q < nQueued
        invariant 0 <= q <= nQueued
        invariant currentLocal == host.nativeQueues[i][..q]
      {
        currentLocal := currentLocal + [host.QueueGetEntry(i, q)];
        q := q + 1;
      }
      assert currentLocal == host.nativeQueues[i];
      var lastLocal := Last(localSnapshots, i);
      AppendNew(i, currentLocal, lastLocal);
      EraseMissing(i, currentLocal);
      localSnapshots := localSnapshots[i := currentLocal];
    }

    /** The addition pass: queues, at the tail and in native-queue order,
        every index of `current` the snapshot `last` lacks. */
    method AppendNew(i: int, current: seq<int>, last: seq<int>)
      modifies this`globalQueue
      ensures globalQueue == old(globalQueue) + Appended(i, current, last)
    {
      ghost var q0 := globalQueue;
      var j := 0;
      while j < |current|
        invariant 0 <= j <= |current|
        invariant globalQueue == q0 + Appended(i, current[..j], last)
      {
        var songIdx := current[j];
        var found := Contains(last, songIdx);
        if !found {
          globalQueue := globalQueue + [QueueEntry(i, songIdx)];
        }
        AppendedSnoc(i, current[..j], songIdx, last);
        assert current[..j + 1] == current[..j] + [songIdx];
        j := j + 1;
      }
      assert current[..j] == current;
    }

    /** The removal pass: erases, wherever they sit, the entries of
        playlist `i` whose index is no longer in `current`. */
    method EraseMissing(i: int, current: seq<int>)
      modifies this`globalQueue
      ensures globalQueue == Pruned(old(globalQueue), i, current)
    {
      ghost var q0 := globalQueue;
      ghost var k := 0;
      var it := 0;
      while it < |globalQueue|
        invariant 0 <= it <= |globalQueue| && 0 <= k <= |q0|
        invariant globalQueue[..it] == Pruned(q0[..k], i, current)
        invariant globalQueue[it..] == q0[k..]
        decreases |globalQueue| - it
      {
        var e := globalQueue[it];
        assert q0[k] == e by {
          assert globalQueue[it..][0] == q0[k..][0];
        }
        PrunedSnoc(q0[..k], e, i, current);
        assert q0[..k + 1] == q0[..k] + [e];
        ghost var before := globalQueue;
        if e.playlistId == i {
          var stillExists := Contains(current, e.entryIdx);
          if !stillExists {
            globalQueue := globalQueue[..it] + globalQueue[it + 1..];
            assert globalQueue[..it] == before[..it];
            assert globalQueue[it..] == before[it + 1..];
          } else {
            assert before[..it + 1] == before[..it] + [e];
            it := it + 1;
          }
        } else {
          assert before[..it + 1] == before[..it] + [e];
          it := it + 1;
        }
        k := k + 1;
      }
      assert q0[..k] == q0;
    }

    /** Sets the host's "stop after current song" from the toggle and the
        queue: stop only once the queue is empty, never with the toggle off. */
    method UpdateStopRule(host: Host)
      modifies host`stopAfterCurrentSong, host`calls
      ensures host.stopAfterCurrentSong == (stopAfterQueueActive && globalQueue == [])
      ensures host.calls == old(host.calls) + [StopAfterSet(stopAfterQueueActive && globalQueue == [])]
    {
      if !stopAfterQueueActive {
        host.SetStopAfterCurrentSong(false);
        return;
      }
      var shouldStop := globalQueue == [];
      host.SetStopAfterCurrentSong(shouldStop);
    }

    /** Plays the head of the queue: activates its playlist, moves it to
        the queued entry, takes that entry out of the native queue and
        starts playback. The head stays queued; it is consumed when the
        song starts. A head naming no existing playlist does nothing. */
    method PerformJump(host: Host)
      requires Valid() && host.Valid()
      modifies host`activePlaylist, host`positions, host`nativeQueues
      modifies host`playingPlaylist, host`playing, host`stopAfterCurrentSong, host`calls
      ensures host.Valid()
      ensures globalQueue == [] || globalQueue[0].playlistId >= old(host.NPlaylists()) ==> unchanged(host)
      ensures globalQueue != [] && globalQueue[0].playlistId < old(host.NPlaylists()) ==>
                var e := globalQueue[0];
                && host.activePlaylist == e.playlistId
                && host.positions == old(host.positions)[e.playlistId := e.entryIdx]
                && host.nativeQueues == WithoutQueued(old(host.nativeQueues), e.playlistId, e.entryIdx)
                && host.playingPlaylist == e.playlistId && host.playing
                && host.stopAfterCurrentSong == (!stopAfterQueueActive && old(host.stopAfterCurrentSong))
                && host.calls == old(host.calls) + [Activated(e.playlistId), PositionSet(e.playlistId, e.entryIdx)]
                                 + RemovalCalls(old(host.nativeQueues), e.playlistId, e.entryIdx)
                                 + [PlaybackStarted(e.playlistId)]
                                 + (if stopAfterQueueActive then [StopAfterSet(false)] else [])
    {
      if globalQueue == [] {
        return;
      }
      var next := globalQueue[0];
      if next.playlistId >= host.NPlaylists() {
        return;
      }
      ghost var calls0 := host.calls;
      host.Activate(next.playlistId);
      host.SetPosition(next.playlistId, next.entryIdx);
      assert host.calls == calls0 + [Activated(next.playlistId), PositionSet(next.playlistId, next.entryIdx)];
      RemoveFromNativeQueue(host, next.playlistId, next.entryIdx);
      host.StartPlayback(next.playlistId);
      if stopAfterQueueActive {
        host.SetStopAfterCurrentSong(false);
      }
    }

    /** The armed timer fires: it disarms itself and jumps. */
    method JumpTimerFires(host: Host)
      requires Valid() && host.Valid() && jumpPending
      modifies this`jumpPending
      modifies host`activePlaylist, host`positions, host`nativeQueues
      modifies host`playingPlaylist, host`playing, host`stopAfterCurrentSong, host`calls
      ensures host.Valid() && !jumpPending
      ensures globalQueue == [] || globalQueue[0].playlistId >= old(host.NPlaylists()) ==> unchanged(host)
      ensures globalQueue != [] && globalQueue[0].playlistId < old(host.NPlaylists()) ==>
                var e := globalQueue[0];
                && host.activePlaylist == e.playlistId
                && host.positions == old(host.positions)[e.playlistId := e.entryIdx]
                && host.nativeQueues == WithoutQueued(old(host.nativeQueues), e.playlistId, e.entryIdx)
                && host.playingPlaylist == e.playlistId && host.playing
                && host.stopAfterCurrentSong == (!stopAfterQueueActive && old(host.stopAfterCurrentSong))
                && host.calls == old(host.calls) + [Activated(e.playlistId), PositionSet(e.playlistId, e.entryIdx)]
                                 + RemovalCalls(old(host.nativeQueues), e.playlistId, e.entryIdx)
                                 + [PlaybackStarted(e.playlistId)]
                                 + (if stopAfterQueueActive then [StopAfterSet(false)] else [])
    {
      jumpPending := false;
      PerformJump(host);
    }

    /** A playlist changed: resynchronise, then re-derive the stop rule. */
    method OnPlaylistUpdate(host: Host)
      requires Valid() && host.Valid()
      modifies this`globalQueue, this`localSnapshots, host`stopAfterCurrentSong, host`calls
      ensures Valid()
      ensures globalQueue == SyncFrom(old(globalQueue), old(localSnapshots), host.nativeQueues, 0)
      ensures localSnapshots == SnapshotsFrom(old(localSnapshots), host.nativeQueues, 0)
      ensures host.stopAfterCurrentSong == (stopAfterQueueActive && globalQueue == [])
      ensures host.calls == old(host.calls) + [StopAfterSet(stopAfterQueueActive && globalQueue == [])]
    {
      SyncGlobalQueue(host);
      UpdateStopRule(host);
    }

    /** A song ended by itself: arm the jump when something is queued. */
    method OnPlaybackEnd()
      modifies this`jumpPending
      ensures jumpPending == (old(jumpPending) || globalQueue != [])
    {
      if globalQueue != [] {
        jumpPending := true;
      }
    }

    /** A song is about to play. If it is the queue head, the head is
        consumed; if it is the player's own advance past the last song,
        playback stops and the jump to the head is armed; otherwise the
        song is where playback now is. */
    method OnPlaybackReady(host: Host)
      requires Valid() && host.Valid()
      modifies this`globalQueue, this`lastPlayingPlaylist, this`lastPlayingIndex, this`jumpPending
      modifies host`nativeQueues, host`playing, host`calls
      ensures Valid() && host.Valid()
      ensures var current, candidate := old(host.playingPlaylist), old(host.PlayingPosition());
              if old(globalQueue) == [] then
                && globalQueue == [] && jumpPending == old(jumpPending) && unchanged(host)
                && lastPlayingPlaylist == current && lastPlayingIndex == candidate
              else if old(globalQueue[0]) == QueueEntry(current, candidate) then
                && globalQueue == old(globalQueue[1..]) && jumpPending == old(jumpPending)
                && host.nativeQueues == WithoutQueued(old(host.nativeQueues), current, candidate)
                && host.playing == old(host.playing)
                && host.calls == old(host.calls) + RemovalCalls(old(host.nativeQueues), current, candidate)
                && lastPlayingPlaylist == current && lastPlayingIndex == candidate
              else if IsLinearAdvance(current, candidate, old(lastPlayingPlaylist), old(lastPlayingIndex),
                                      old(host.NEntries(current))) then
                && globalQueue == old(globalQueue) && jumpPending
                && host.nativeQueues == old(host.nativeQueues) && !host.playing
                && host.calls == old(host.calls) + [PlaybackStopped]
                && lastPlayingPlaylist == old(lastPlayingPlaylist) && lastPlayingIndex == old(lastPlayingIndex)
              else
                && globalQueue == old(globalQueue) && jumpPending == old(jumpPending) && unchanged(host)
                && lastPlayingPlaylist == current && lastPlayingIndex == candidate
    {
      var currentPl := host.playingPlaylist;
      var candidatePos := host.PlayingPosition();

      if globalQueue == [] {
        lastPlayingPlaylist, lastPlayingIndex := currentPl, candidatePos;
        return;
      }

      var nextQ := globalQueue[0];
      if currentPl == nextQ.playlistId && candidatePos == nextQ.entryIdx {
        PopKeepsInvariant(globalQueue, localSnapshots);
        globalQueue := globalQueue[1..];
        RemoveFromNativeQueue(host, currentPl, candidatePos);
        lastPlayingPlaylist, lastPlayingIndex := currentPl, candidatePos;
        return;
      }

      var isLinearAdvance := false;
      if currentPl == lastPlayingPlaylist {
        if candidatePos == lastPlayingIndex + 1 {
          isLinearAdvance := true;
        }
        if lastPlayingIndex == host.NEntries(currentPl) - 1 && candidatePos == 0 {
          isLinearAdvance := true;
        }
      }

      if isLinearAdvance {
        host.Stop();
        jumpPending := true;
        return;
      }

      lastPlayingPlaylist, lastPlayingIndex := currentPl, candidatePos;
    }

    /** The menu entry flips the toggle and re-derives the stop rule. */
    method ToggleStopAfterQueue(host: Host)
      modifies this`stopAfterQueueActive, host`stopAfterCurrentSong, host`calls
      ensures stopAfterQueueActive == !old(stopAfterQueueActive)
      ensures host.stopAfterCurrentSong == (stopAfterQueueActive && globalQueue == [])
      ensures host.calls == old(host.calls) + [StopAfterSet(stopAfterQueueActive && globalQueue == [])]
    {
      stopAfterQueueActive := !stopAfterQueueActive;
      UpdateStopRule(host);
    }

    /** Loading the plugin: forget the queue and the snapshots, seed the
        queue from every native queue in playlist order, and derive the
        stop rule. The toggle and the cursor keep their values. */
    method Init(host: Host) returns (ok: bool)
      requires host.Valid()
      modifies this`globalQueue, this`localSnapshots, host`stopAfterCurrentSong, host`calls
      ensures ok && Valid()
      ensures globalQueue == Seed(host.nativeQueues, host.NPlaylists())
      ensures localSnapshots == map p | 0 <= p < host.NPlaylists() :: host.nativeQueues[p]
      ensures host.stopAfterCurrentSong == (stopAfterQueueActive && globalQueue == [])
      ensures host.calls == old(host.calls) + [StopAfterSet(stopAfterQueueActive && globalQueue == [])]
    {
      globalQueue := [];
      localSnapshots := map[];
      SyncGlobalQueue(host);
      SyncFromNothing(host.nativeQueues);
      SnapshotsContents(map[], host.nativeQueues, 0);
      UpdateStopRule(host);
      return true;
    }

    /** Unloading the plugin: disarm the timer, release the stop flag if
        the toggle held it, switch the toggle off and forget the queue. */
    method Cleanup(host: Host)
      modifies this`jumpPending, this`stopAfterQueueActive, this`globalQueue, this`localSnapshots
      modifies host`stopAfterCurrentSong, host`calls
      ensures Valid()
      ensures !jumpPending && !stopAfterQueueActive && globalQueue == [] && localSnapshots == map[]
      ensures host.stopAfterCurrentSong == (!old(stopAfterQueueActive) && old(host.stopAfterCurrentSong))
      ensures host.calls == old(host.calls) + (if old(stopAfterQueueActive) then [StopAfterSet(false)] else [])
    {
      jumpPending := false;
      if stopAfterQueueActive {
        host.SetStopAfterCurrentSong(false);
      }
      stopAfterQueueActive := false;
      globalQueue := [];
      localSnapshots := map[];
    }
  }
}
