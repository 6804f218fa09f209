# playback-control: a cross-playlist play queue for Audacious

This project is a verified Dafny model of `playback-control.cc`, an Audacious plugin. The plugin keeps one play queue across all
playlists and makes queued songs play first, in the order they were
queued. It keeps that queue in step with the host's native per-playlist
queues. When the player advances by itself past a song while something is
queued, the plugin hijacks the advance. When the toggle is on, it stops
playback once the queue has run dry.

The model has five modules:

- `Seqs` (`seqs.dfy`): sequence helpers. These are an order-preserving
  `Filter`, `Distinct`, and `RemoveFirst`. `RemoveFirst` is what the
  plugin's "scan the native queue and remove the first slot holding x"
  loops compute.
- `QueueSync` (`queue_sync.dfy`): the queue entry and the synchronisation
  pass, stated on values. `QueueEntry` (playback-control.cc:21-28) is a
  datatype of a playlist index and an entry index with structural
  equality.
  - `SyncStep` is one iteration of the loop in `sync_global_queue`.
  - `SyncFrom` and `SnapshotsFrom` are the pass from a given playlist on.
  - The lemmas prove what the pass means: per-playlist contents,
    consistency with the native queues, idempotence, FIFO order, seeding
    from nothing, and the plugin's invariant.
- `Player` (`player.dfy`): the part of the host the plugin drives. It is a
  class whose fields are the native queues, entry counts, positions, the
  active and playing playlist, the transport state and the "stop after
  current song" setting. A ghost log `calls` records every call that
  changes the host: activation, position, native-slot removal, start,
  stop and the setting's write. So a contract can say that a handler
  made no call at all, not merely that the host's state came out the same.
- `Plugin` (`playback_control.dfy`): the plugin's state as a class with the
  source's globals as fields. Each handler is a method with the source's
  loops and branches. Each method is proved against the `QueueSync`
  functions or against the new host state.
- `Scenarios` (`scenarios.dfy`): sequences of notifications and what the
  plugin does across each of them. The sequences are a hijack end to end,
  a jump armed and then the queue emptied before it fires, and two updates
  in a row.

The plugin invariant `Plugin.PlaybackControl.Valid` has three parts:
- every queued entry is recorded in its playlist's snapshot;
- no entry is queued twice;
- snapshot keys are non-negative.

Every handler keeps it.

The model follows the code in these points, where a reader might expect
otherwise:
- After a jump, the code does not re-derive the stop rule. It clears the
  host's "stop after current song" only when the toggle is on; with the
  toggle off the setting keeps its value (`PerformJump`).
- Teardown clears that setting only when the toggle is on (`Cleanup`).
- Loading resets the queue and the snapshots but neither the toggle nor
  the playback cursor (`Init`).
- An entry whose playlist index is at or beyond the playlist count is
  never removed by a pass. If such an entry is at the head, the jump is
  skipped every time and the head stays queued (`SyncPerPlaylist`,
  `PerformJump`).

## Model

| member | source | states |
|---|---|---|
| Plugin.PlaybackControl.constructor | playback-control.cc:32-38 | the plugin starts with the toggle on, an empty queue, no snapshots, the cursor at (-1, -1) and no jump armed, and the invariant holds |
| Plugin.PlaybackControl.SyncGlobalQueue | playback-control.cc:51-102 | the loop over playlists 0 .. n-1 leaves exactly the queue `SyncFrom` and the snapshots `SnapshotsFrom` describe, and keeps the invariant |
| Plugin.PlaybackControl.SyncPlaylist | playback-control.cc:55-100 | one iteration copies the native queue slot by slot, runs the addition and removal passes against the old snapshot (empty when none) and records the native queue as the new snapshot |
| Plugin.PlaybackControl.AppendNew | playback-control.cc:65-77 | the addition loop appends, at the tail and in native-queue order, exactly the indices of the native queue missing from the snapshot |
| Plugin.PlaybackControl.EraseMissing | playback-control.cc:79-98 | the in-place erase loop removes, wherever they sit, exactly the entries of the playlist whose index is no longer natively queued, and keeps every other entry in order |
| Plugin.WithoutQueued | playback-control.cc:126-132 | the native queues after removing the first slot holding an index from one playlist's queue: one queue per playlist still, others untouched, a playlist that does not exist left alone |
| Plugin.RemovalCalls | playback-control.cc:126-132 | the calls that removal makes, one removal of the first slot holding the index: a call is made exactly when the native queues change |
| Plugin.Contains | playback-control.cc:66-73 | the inner linear search reports found exactly when the value occurs |
| Plugin.RemoveFromNativeQueue | playback-control.cc:126-132 | the slot scan removes the first slot holding the index and nothing else, and makes exactly that one removal call; when no slot holds it the queue is unchanged and no call is made |
| Plugin.PlaybackControl.UpdateStopRule | playback-control.cc:104-112 | the host's "stop after current song" becomes true exactly when the toggle is on and the queue is empty, written by exactly one call |
| Plugin.PlaybackControl.Valid | playback-control.cc:114-120 | the plugin invariant (every entry recorded in its playlist's snapshot, no entry twice, snapshot keys not negative) implies that the head of a non-empty queue names a non-negative playlist index, so the jump's one-sided check against the count is enough |
| Plugin.PlaybackControl.PerformJump | playback-control.cc:114-140 | with an empty queue or a head whose playlist is at or beyond the count the host is untouched and receives no call; otherwise the calls are, in order, activate the head's playlist, set its position to the head's entry, remove that entry's first native slot if there is one, start playback, and clear the setting only when the toggle is on; the head stays queued |
| Plugin.PlaybackControl.JumpTimerFires | playback-control.cc:142-145 | the timer disarms itself and then has exactly the jump's effect and makes exactly the jump's calls |
| Plugin.PlaybackControl.OnPlaylistUpdate | playback-control.cc:149-152 | a playlist change runs the whole pass, which makes no host call, and then writes the stop setting once, as toggle-and-queue-empty of the new queue |
| Plugin.PlaybackControl.OnPlaybackEnd | playback-control.cc:154-159 | the jump is armed exactly when the queue is non-empty, and an armed jump stays armed |
| Plugin.PlaybackControl.OnPlaybackReady | playback-control.cc:162-216 | four outcomes in source order: an empty queue records the cursor and makes no host call; a song equal to the head pops the head, removes it from its native queue with at most that one call, and records the cursor; a linear advance makes exactly one stop call and arms the jump, leaving queue and cursor alone; anything else records the cursor and makes no host call |
| Plugin.LinearAdvanceIsSuccessor | playback-control.cc:190-200 | for entries inside the playlist, the linear-advance test holds exactly when the song is the cyclic successor of the cursor in the same playlist |
| Plugin.IsLinearAdvance | playback-control.cc:191-200 | the linear-advance test of the source; it holds only for a song of the playlist last seen that is the entry after the last one seen or entry 0 |
| Plugin.PlaybackControl.ToggleStopAfterQueue | playback-control.cc:220-224 | the toggle flips and the stop setting is written once from the new toggle, so switching off always clears it |
| Plugin.PlaybackControl.Init | playback-control.cc:237-250 | loading seeds the queue with every native queue in playlist order, records every native queue as its snapshot, writes the stop setting once and establishes the invariant |
| Plugin.PlaybackControl.Cleanup | playback-control.cc:252-267 | unloading disarms the timer, writes the stop setting (to false) only if the toggle was on and otherwise makes no call, switches the toggle off and forgets queue and snapshots |
| QueueSync.Appended | playback-control.cc:65-77 | the additions of one playlist are never more than its native queue's entries |
| QueueSync.AppendedMembers | playback-control.cc:65-77 | an entry is added for playlist i exactly when its index is natively queued and absent from the snapshot, so an index removed and re-added between two passes is not added again |
| QueueSync.AppendedDistinct | playback-control.cc:65-77 | a native queue without repeats yields additions without repeats |
| QueueSync.AppendedSnoc | playback-control.cc:66-77 | one more native index adds one entry exactly when the snapshot lacks it, behind the earlier additions |
| QueueSync.Pruned | playback-control.cc:79-98 | the removal pass never lengthens the queue |
| QueueSync.PrunedMembers | playback-control.cc:79-98 | the removal pass keeps exactly the entries of other playlists and those of playlist i still natively queued |
| QueueSync.PrunedSnoc | playback-control.cc:80-98 | one more queue entry survives the removal pass exactly when it is of another playlist or still natively queued |
| QueueSync.Tag | playback-control.cc:75 | a native queue's indices as queue entries of its playlist, one entry per index |
| QueueSync.SyncStep | playback-control.cc:63-100 | one iteration of the loop for playlist i: additions on the tail, then the removal pass; the queue grows by at most the native queue's length |
| QueueSync.Last | playback-control.cc:63 | the old snapshot of playlist i; a playlist never seen has an empty one, as the default inserted by the map lookup |
| QueueSync.SnapshotsFrom | playback-control.cc:63-100 | the snapshots after the loop handles playlists i .. n-1; no snapshot is ever dropped |
| QueueSync.SnapshotsContents | playback-control.cc:63-100 | after a pass every visited playlist's snapshot equals its native queue, every other snapshot keeps its value, and no other key appears |
| QueueSync.StepMembers | playback-control.cc:65-98 | after one step an entry of playlist i is natively queued and any other entry was already queued |
| QueueSync.StepSplits | playback-control.cc:65-98 | additions survive the removal pass of their own step, so a step is the surviving old entries followed by the additions |
| QueueSync.StepKeepsOthers | playback-control.cc:79-98 | one step leaves the entries of every other playlist as they were and in the same order |
| QueueSync.StepOnPlaylist | playback-control.cc:65-98 | after one step playlist i holds its old entries still natively queued, then its new ones |
| QueueSync.StepKeepsPlaylist | playback-control.cc:54-100 | the step for playlist i does not change the entries of any other playlist |
| QueueSync.SyncPerPlaylist | playback-control.cc:51-102 | after a pass each existing playlist holds, in order, its old entries still natively queued and then its newly queued indices; entries of playlists beyond the count are untouched |
| QueueSync.SyncConsistent | playback-control.cc:51-102 | after a pass every entry of an existing playlist is in that playlist's native queue |
| QueueSync.StepFixed | playback-control.cc:65-100 | a step over a consistent queue whose snapshot equals the native queue changes nothing |
| QueueSync.SyncFixed | playback-control.cc:51-102 | a pass over a consistent queue whose snapshots already equal the native queues changes nothing |
| QueueSync.SnapshotsFixed | playback-control.cc:63-100 | a pass leaves snapshots that already record the native queues as they are |
| QueueSync.SyncIdempotent | playback-control.cc:51-102 | a second pass over unchanged native queues changes neither the queue nor the snapshots |
| QueueSync.SeedBelow | playback-control.cc:237-240 | the queue seeded from playlists 0 .. n-1 holds entries of those playlists only |
| QueueSync.Seed | playback-control.cc:237-240 | the queue a pass builds from nothing over playlists 0 .. n-1: every native queue in turn, as many entries as indices natively queued |
| QueueSync.SeedStep | playback-control.cc:54-100 | with no snapshot, the step for playlist i appends its whole native queue to the seed of the playlists before it |
| QueueSync.SeedFrom | playback-control.cc:51-102 | a pass over the seed of the first i playlists, with no snapshot from i on, yields the seed of all playlists |
| QueueSync.SyncFromNothing | playback-control.cc:237-240 | from an empty queue and no snapshots a pass queues every native queue in playlist order |
| QueueSync.StepKeepsInvariant | playback-control.cc:54-100 | one step keeps every entry recorded in its snapshot and the queue free of duplicates |
| QueueSync.SyncKeepsInvariant | playback-control.cc:51-102 | a whole pass keeps the invariant when no native queue repeats an index |
| QueueSync.PopKeepsInvariant | playback-control.cc:176 | popping the head keeps the invariant |
| QueueSync.KeptStep | playback-control.cc:79-98 | the removal pass for playlist i and those after it keep what the removals from i on keep |
| QueueSync.AppendedKept | playback-control.cc:65-98 | the additions for playlist i survive the removal passes of the later playlists |
| QueueSync.SplitsStep | playback-control.cc:54-100 | a step followed by the later removals keeps the surviving old entries and then the step's additions |
| QueueSync.SyncSplits | playback-control.cc:51-102 | a pass keeps the surviving old entries in their old order and then appends the new indices playlist by playlist, so an entry queued earlier never falls behind one queued later |
| QueueSync.AppendedOfEmpty | playback-control.cc:65-77 | an empty native queue adds nothing |
| QueueSync.AdditionsOfEmpty | playback-control.cc:51-102 | when every native queue is empty a pass adds nothing |
| QueueSync.SyncOfEmptyQueues | playback-control.cc:51-102 | when every native queue is empty a pass empties a queue whose entries all name existing playlists |
| Seqs.RemoveFirst | playback-control.cc:124-132 | removing the first occurrence shortens the queue by one exactly when the index occurs |
| Seqs.RemoveFirstAt | playback-control.cc:126-131 | removing the slot where the scan stops, the first slot holding the index, is removing its first occurrence |
| Seqs.RemoveFirstAbsent | playback-control.cc:124-132 | a scan that finds no slot holding the index leaves the queue unchanged |
| Seqs.RemoveFirstMultiset | playback-control.cc:124-132 | the removal takes exactly one copy of the index out of the native queue, if there is one |
| Seqs.RemoveFirstTwice | playback-control.cc:178-183 | in a native queue without repeats, a second removal of the same index, as the exact-match branch does after a jump, changes nothing |
| Seqs.DistinctRemoveSlot | playback-control.cc:129 | removing a slot keeps a native queue free of repeats |
| Seqs.IndexOf | playback-control.cc:127-129 | the slot where the scan stops: it holds the index and no earlier slot does |
| Seqs.RemoveFirstGone | playback-control.cc:178-183 | in a native queue without repeats nothing of the index is left after the removal, so a later scan for it finds no slot |
| Player.Host.NPlaylists | playback-control.cc:52 | the playlist count: one native queue per playlist |
| Player.Host.NQueued | playback-control.cc:56 | the native queue's length, zero exactly when the playlist does not exist or queues nothing |
| Player.Host.QueueGetEntry | playback-control.cc:60 | the entry index in a slot of a native queue, which is an index queued in that playlist |
| Player.Host.NEntries | playback-control.cc:199 | a playlist's entry count, zero for a playlist that does not exist |
| Player.Host.PlayingPosition | playback-control.cc:164 | the playing playlist's position, -1 when no existing playlist plays |
| Player.Host.QueueRemove | playback-control.cc:129 | the host's queue removal takes out exactly the given slot of the given playlist and logs that one call |
| Player.Host.Activate | playback-control.cc:122 | activation makes the given playlist the active one and logs that one call |
| Player.Host.SetPosition | playback-control.cc:123 | the given playlist's position becomes the given entry, no other position changes, and that one call is logged |
| Player.Host.StartPlayback | playback-control.cc:134 | the given playlist plays, and that one call is logged |
| Player.Host.Stop | playback-control.cc:206 | playback stops, and that one call is logged |
| Player.Host.SetStopAfterCurrentSong | playback-control.cc:110 | the "stop after current song" setting takes the given value, and that one call is logged |
| Scenarios.Hijack | playback-control.cc:162-216 | after a linear advance past a queued head, the jump firing and the host announcing the head: the head is gone from the queue and from its native queue, it plays, it is the cursor, and no jump is armed; the host saw one stop, then the jump's calls, and no second removal |
| Scenarios.RaceTolerance | playback-control.cc:114-152 | a jump armed and then overtaken by a playlist update that empties every native queue: the queue is empty, and the only host call is the update's stop-setting write, so the firing makes no playlist or transport call |
| Scenarios.UpdateTwice | playback-control.cc:149-152 | two playlist updates in a row without a native change leave what a single update leaves; the host sees the same stop-setting write twice |

## Left out

- The menu entry's text and icon (`update_menu_text`, lines 226-233) and its registration. These are interface side effects; only the toggle's effect on the stop setting is modelled.
- Hook registration and removal in `init` and `cleanup`. The handlers are methods the caller invokes in the order the host would deliver the notifications.
- The timer is a flag, `jumpPending`. Its 30 Hz rate and delay are not modelled. Arming it while it is already armed is modelled as leaving it armed, so a second firing is not modelled.
- The host call log records only the calls that change the host. The read calls (playlist count, queue length, queue slot, position, entry count, playing playlist) are not logged, nor are the timer and menu calls. Reads change nothing, and the timer is the plugin's own `jumpPending` flag.
- Re-entrant notifications fired by the host from inside a handler (for example, while playback stops) are not modelled. Each handler runs to completion.
- Host internals beyond the calls the plugin makes are not modelled: how the host reorders playlists, renumbers entries, picks the next song or persists settings. A playlist that does not exist reads as having no queue, no entries and position -1.
- Entry indices are never renumbered when a playlist is edited. The model keeps this limitation of the source.
- `playback-control.h` (the plugin class declaration) is not part of this model.
- `Plugin.PlaybackControl.SyncPlaylist`: `local_snapshots[i]` inserts an empty snapshot when none exists, and the next line overwrites it. The model reads the missing snapshot as empty (`QueueSync.Last`) and then stores the new one, which gives the same map.
- `Plugin.PlaybackControl.OnPlaybackReady`: integers are unbounded, so the `last_playing_index + 1` comparison does not model 32-bit overflow. The source's index is never near that bound.
