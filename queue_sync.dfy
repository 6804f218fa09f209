/** The global play queue and what one synchronisation pass does to it,
    stated on values. The plugin class runs the same pass with the loops of
    sync_global_queue and is proved equal to SyncFrom and SnapshotsFrom
    below. */
module QueueSync {
  import opened Seqs

  /** One queued song: a playlist index and an entry index within it, as
      they were when the song was queued. Equality is structural. */
  datatype QueueEntry = QueueEntry(playlistId: int, entryIdx: int)

  /** Selects the entries of playlist `p`. */
  function OnPlaylist(p: int): QueueEntry -> bool
  {
    (e: QueueEntry) => e.playlistId == p
  }

  /** Selects the entries of every playlist but `p`. */
  function OffPlaylist(p: int): QueueEntry -> bool
  {
    (e: QueueEntry) => e.playlistId != p
  }

  /** Selects the entries that survive the removal pass for playlist `i`:
      those of other playlists, and those of `i` still natively queued. */
  function StillQueued(i: int, current: seq<int>): QueueEntry -> bool
  {
    (e: QueueEntry) => e.playlistId != i || e.entryIdx in current
  }

  /** Selects the entries whose index is absent from `last`. */
  function NotIn(last: seq<int>): QueueEntry -> bool
  {
    (e: QueueEntry) => e.entryIdx !in last
  }

  /** The indices `idxs` of playlist `i` as queue entries, in order. */
  function Tag(i: int, idxs: seq<int>): (r: seq<QueueEntry>)
    ensures |r| == |idxs|
  {
    seq(|idxs|, k requires 0 <= k < |idxs| => QueueEntry(i, idxs[k]))
  }

  lemma TagMembers(i: int, idxs: seq<int>)
    ensures forall e :: e in Tag(i, idxs) <==> e.playlistId == i && e.entryIdx in idxs
  {
    var r := Tag(i, idxs);
    forall e: QueueEntry | e.playlistId == i && e.entryIdx in idxs
      ensures e in r
    {
      var k :| 0 <= k < |idxs| && idxs[k] == e.entryIdx;
      assert r[k] == e;
    }
  }

  lemma TagDistinct(i: int, idxs: seq<int>)
    requires Distinct(idxs)
    ensures Distinct(Tag(i, idxs))
  {
  }

  /** What the addition pass appends for playlist `i`: every index of its
      native queue `current` that the old snapshot `last` lacks, in
      native-queue order. */
  function Appended(i: int, current: seq<int>, last: seq<int>): (r: seq<QueueEntry>)
    ensures |r| <= |current|
  {
    Filter(Tag(i, current), NotIn(last))
  }

  /** The additions are the indices of `current` missing from `last`. */
  lemma AppendedMembers(i: int, current: seq<int>, last: seq<int>)
    ensures forall e :: e in Appended(i, current, last) <==>
              e.playlistId == i && e.entryIdx in current && e.entryIdx !in last
  {
    TagMembers(i, current);
    FilterMembers(Tag(i, current), NotIn(last));
  }

  /** A native queue without repeats yields additions without repeats. */
  lemma AppendedDistinct(i: int, current: seq<int>, last: seq<int>)
    requires Distinct(current)
    ensures Distinct(Appended(i, current, last))
  {
    TagDistinct(i, current);
    FilterDistinct(Tag(i, current), NotIn(last));
  }

  lemma {:induction false} AppendedSnoc(i: int, s: seq<int>, x: int, last: seq<int>)
    ensures Appended(i, s + [x], last)
         == Appended(i, s, last) + (if x in last then [] else [QueueEntry(i, x)])
  {
    assert Tag(i, s + [x]) == Tag(i, s) + [QueueEntry(i, x)];
    FilterConcat(Tag(i, s), [QueueEntry(i, x)], NotIn(last));
    assert Filter([QueueEntry(i, x)], NotIn(last)) == if x in last then [] else [QueueEntry(i, x)] by {
      assert [QueueEntry(i, x)][1..] == [];
    }
  }

  /** What the removal pass for playlist `i` leaves of the queue `q`. */
  function Pruned(q: seq<QueueEntry>, i: int, current: seq<int>): (r: seq<QueueEntry>)
    ensures |r| <= |q|
  {
    Filter(q, StillQueued(i, current))
  }

  /** The removal pass keeps exactly the entries of other playlists and the
      entries of playlist `i` still in `current`. */
  lemma PrunedMembers(q: seq<QueueEntry>, i: int, current: seq<int>)
    ensures forall e :: e in Pruned(q, i, current) <==>
              e in q && (e.playlistId != i || e.entryIdx in current)
  {
    FilterMembers(q, StillQueued(i, current));
  }

  lemma {:induction false} PrunedSnoc(q: seq<QueueEntry>, e: QueueEntry, i: int, current: seq<int>)
    ensures Pruned(q + [e], i, current)
         == Pruned(q, i, current) + (if e.playlistId != i || e.entryIdx in current then [e] else [])
  {
    FilterConcat(q, [e], StillQueued(i, current));
    assert [e][1..] == [];
  }

  /** One iteration of the synchronisation loop, for playlist `i` whose
      native queue is `current` and whose snapshot was `last`: additions go
      on the tail, then the removal pass runs over the whole queue. */
  function SyncStep(q: seq<QueueEntry>, i: int, current: seq<int>, last: seq<int>): (r: seq<QueueEntry>)
    ensures |r| <= |q| + |current|
  {
    Pruned(q + Appended(i, current, last), i, current)
  }

  /** The snapshot of playlist `i`; a playlist never seen has an empty one. */
  function Last(snapshots: map<int, seq<int>>, i: int): (r: seq<int>)
    ensures i !in snapshots ==> r == []
  {
    if i in snapshots then snapshots[i] else []
  }

  /** The number of indices natively queued in playlists 0 .. n-1. */
  function QueuedBelow(queues: seq<seq<int>>, n: int): nat
    requires 0 <= n <= |queues|
  {
    if n == 0 then 0 else QueuedBelow(queues, n - 1) + |queues[n - 1]|
  }

  // ---------------------------------------------------------------------
  // The pass, one playlist after another

  /** The queue once the loop has handled playlists `i` .. |queues|-1,
      starting from the queue `q` and the snapshots `snapshots` it has when
      it reaches playlist `i`; `queues` holds the native queues. The whole
      pass is SyncFrom(q, snapshots, queues, 0). */
  function SyncFrom(q: seq<QueueEntry>, snapshots: map<int, seq<int>>, queues: seq<seq<int>>, i: int): seq<QueueEntry>
    requires 0 <= i <= |queues|
    decreases |queues| - i
  {
    if i == |queues| then q
    else SyncFrom(SyncStep(q, i, queues[i], Last(snapshots, i)), snapshots[i := queues[i]], queues, i + 1)
  }

  /** The snapshots once the loop has handled playlists `i` .. |queues|-1:
      each of them records its native queue. */
  function SnapshotsFrom(snapshots: map<int, seq<int>>, queues: seq<seq<int>>, i: int): (r: map<int, seq<int>>)
    requires 0 <= i <= |queues|
    ensures snapshots.Keys <= r.Keys
    decreases |queues| - i
  {
    if i == |queues| then snapshots
    else SnapshotsFrom(snapshots[i := queues[i]], queues, i + 1)
  }

  /** The pass from playlist `i` is the step for `i`, then the pass from
      `i + 1`. */
  lemma SyncFromStep(q: seq<QueueEntry>, snapshots: map<int, seq<int>>, queues: seq<seq<int>>, i: int)
    requires 0 <= i < |queues|
    ensures SyncFrom(SyncStep(q, i, queues[i], Last(snapshots, i)), snapshots[i := queues[i]], queues, i + 1)
         == SyncFrom(q, snapshots, queues, i)
    ensures SnapshotsFrom(snapshots[i := queues[i]], queues, i + 1) == SnapshotsFrom(snapshots, queues, i)
  {
  }

  /** A pass records every native queue it visits and keeps the snapshots
      of every other playlist, including those beyond the playlist count. */
  lemma {:induction false} SnapshotsContents(snapshots: map<int, seq<int>>, queues: seq<seq<int>>, i: int)
    requires 0 <= i <= |queues|
    ensures forall k :: i <= k < |queues| ==>
              k in SnapshotsFrom(snapshots, queues, i) && SnapshotsFrom(snapshots, queues, i)[k] == queues[k]
    ensures forall k :: k in snapshots && !(i <= k < |queues|) ==>
              k in SnapshotsFrom(snapshots, queues, i) && SnapshotsFrom(snapshots, queues, i)[k] == snapshots[k]
    ensures forall k :: k in SnapshotsFrom(snapshots, queues, i) ==> k in snapshots || i <= k < |queues|
    decreases |queues| - i
  {
    if i < |queues| {
      SnapshotsContents(snapshots[i := queues[i]], queues, i + 1);
    }
  }

  /** Every queued entry is recorded in its playlist's snapshot. Between
      notifications this is what "the queue mirrors the native queues"
      amounts to: the snapshot is the last native queue the plugin saw. */
  ghost predicate Recorded(q: seq<QueueEntry>, snapshots: map<int, seq<int>>)
  {
    forall k :: 0 <= k < |q| ==> q[k].playlistId in snapshots && q[k].entryIdx in snapshots[q[k].playlistId]
  }

  /** Every entry of an existing playlist is in that playlist's native
      queue. */
  ghost predicate Consistent(q: seq<QueueEntry>, queues: seq<seq<int>>)
  {
    forall k :: 0 <= k < |q| && 0 <= q[k].playlistId < |queues| ==> q[k].entryIdx in queues[q[k].playlistId]
  }

  // ---------------------------------------------------------------------
  // One step

  /** Where an entry after a step comes from: an entry of playlist `i` is
      in its native queue, any other entry was there before. */
  lemma StepMembers(q: seq<QueueEntry>, i: int, current: seq<int>, last: seq<int>, e: QueueEntry)
    requires e in SyncStep(q, i, current, last)
    ensures e.playlistId == i ==> e.entryIdx in current
    ensures e.playlistId != i ==> e in q
  {
    AppendedMembers(i, current, last);
    PrunedMembers(q + Appended(i, current, last), i, current);
  }

  /** Additions survive the removal pass of the same step, so a step keeps
      the surviving old entries in their order and puts the new ones after
      them. */
  lemma StepSplits(q: seq<QueueEntry>, i: int, current: seq<int>, last: seq<int>)
    ensures SyncStep(q, i, current, last) == Pruned(q, i, current) + Appended(i, current, last)
  {
    var added := Appended(i, current, last);
    FilterConcat(q, added, StillQueued(i, current));
    AppendedMembers(i, current, last);
    assert forall k :: 0 <= k < |added| ==> added[k] in added;
    FilterAll(added, StillQueued(i, current));
  }

  /** A step leaves the entries of every other playlist, including
      playlists at or beyond the playlist count, exactly as they were and
      in the same order. */
  lemma StepKeepsOthers(q: seq<QueueEntry>, i: int, current: seq<int>, last: seq<int>)
    ensures Filter(SyncStep(q, i, current, last), OffPlaylist(i)) == Filter(q, OffPlaylist(i))
  {
    var added := Appended(i, current, last);
    StepSplits(q, i, current, last);
    FilterConcat(Pruned(q, i, current), added, OffPlaylist(i));
    AppendedMembers(i, current, last);
    assert forall k :: 0 <= k < |added| ==> added[k] in added;
    FilterNone(added, OffPlaylist(i));
    FilterAbsorb(q, StillQueued(i, current), OffPlaylist(i));
  }

  /** A step leaves, of playlist `i`, the old entries still natively queued
      followed by the newly queued ones. */
  lemma StepOnPlaylist(q: seq<QueueEntry>, i: int, current: seq<int>, last: seq<int>)
    ensures Filter(SyncStep(q, i, current, last), OnPlaylist(i))
         == Filter(Filter(q, OnPlaylist(i)), StillQueued(i, current)) + Appended(i, current, last)
  {
    var added := Appended(i, current, last);
    StepSplits(q, i, current, last);
    FilterConcat(Pruned(q, i, current), added, OnPlaylist(i));
    AppendedMembers(i, current, last);
    assert forall k :: 0 <= k < |added| ==> added[k] in added;
    FilterAll(added, OnPlaylist(i));
    FilterCommute(q, StillQueued(i, current), OnPlaylist(i));
  }

  /** A step for playlist `i` does not change the entries of playlist `p != i`. */
  lemma StepKeepsPlaylist(q: seq<QueueEntry>, i: int, current: seq<int>, last: seq<int>, p: int)
    requires p != i
    ensures Filter(SyncStep(q, i, current, last), OnPlaylist(p)) == Filter(q, OnPlaylist(p))
  {
    var r := SyncStep(q, i, current, last);
    StepKeepsOthers(q, i, current, last);
    FilterAbsorb(r, OffPlaylist(i), OnPlaylist(p));
    FilterAbsorb(q, OffPlaylist(i), OnPlaylist(p));
  }

  // ---------------------------------------------------------------------
  // The whole pass

  /** After the steps for playlists `i` .. |queues|-1, each of those
      playlists `p` holds, in order, its old entries still in its native
      queue followed by the indices newly queued since its snapshot; every
      other playlist's entries, including those of playlists beyond the
      count, are as they were. */
  lemma {:induction false} SyncPerPlaylist(q: seq<QueueEntry>, snapshots: map<int, seq<int>>,
                                            queues: seq<seq<int>>, i: int, p: int)
    requires 0 <= i <= |queues|
    ensures Filter(SyncFrom(q, snapshots, queues, i), OnPlaylist(p))
         == if i <= p < |queues|
            then Filter(Filter(q, OnPlaylist(p)), StillQueued(p, queues[p])) + Appended(p, queues[p], Last(snapshots, p))
            else Filter(q, OnPlaylist(p))
    decreases |queues| - i
  {
    if i < |queues| {
      var last := Last(snapshots, i);
      var q', s' := SyncStep(q, i, queues[i], last), snapshots[i := queues[i]];
      SyncPerPlaylist(q', s', queues, i + 1, p);
      if p == i {
        StepOnPlaylist(q, i, queues[i], last);
      } else {
        StepKeepsPlaylist(q, i, queues[i], last, p);
        assert Last(s', p) == Last(snapshots, p);
      }
    }
  }

  /** An entry of playlist `p` in a queue whose entries of `p` are the
      old ones still in `current` followed by the additions from `current`
      is in `current`. */
  lemma EntryInNative(r: seq<QueueEntry>, q: seq<QueueEntry>, p: int, current: seq<int>, last: seq<int>, e: QueueEntry)
    requires Filter(r, OnPlaylist(p))
          == Filter(Filter(q, OnPlaylist(p)), StillQueued(p, current)) + Appended(p, current, last)
    requires e in r && e.playlistId == p
    ensures e.entryIdx in current
  {
    FilterMembers(r, OnPlaylist(p));
    FilterMembers(Filter(q, OnPlaylist(p)), StillQueued(p, current));
    AppendedMembers(p, current, last);
  }

  /** After a pass every entry of an existing playlist is in that
      playlist's native queue. */
  lemma SyncConsistent(q: seq<QueueEntry>, snapshots: map<int, seq<int>>, queues: seq<seq<int>>)
    ensures Consistent(SyncFrom(q, snapshots, queues, 0), queues)
  {
    var r := SyncFrom(q, snapshots, queues, 0);
    forall k | 0 <= k < |r| && 0 <= r[k].playlistId < |queues|
      ensures r[k].entryIdx in queues[r[k].playlistId]
    {
      var p := r[k].playlistId;
      SyncPerPlaylist(q, snapshots, queues, 0, p);
      EntryInNative(r, q, p, queues[p], Last(snapshots, p), r[k]);
    }
  }

  /** A step over a queue consistent with the native queue of playlist
      `i`, from the snapshot that equals that native queue, changes
      nothing. */
  lemma StepFixed(q: seq<QueueEntry>, queues: seq<seq<int>>, i: int)
    requires Consistent(q, queues) && 0 <= i < |queues|
    ensures SyncStep(q, i, queues[i], queues[i]) == q
  {
    FilterNone(Tag(i, queues[i]), NotIn(queues[i]));
    assert q + [] == q;
    FilterAll(q, StillQueued(i, queues[i]));
  }

  /** A pass over a queue that is already consistent with the native
      queues, from snapshots that already equal them, changes nothing. */
  lemma {:induction false} SyncFixed(q: seq<QueueEntry>, snapshots: map<int, seq<int>>,
                                      queues: seq<seq<int>>, i: int)
    requires 0 <= i <= |queues|
    requires Consistent(q, queues)
    requires forall k :: i <= k < |queues| ==> Last(snapshots, k) == queues[k]
    ensures SyncFrom(q, snapshots, queues, i) == q
    decreases |queues| - i
  {
    if i < |queues| {
      StepFixed(q, queues, i);
      SyncFixed(q, snapshots[i := queues[i]], queues, i + 1);
    }
  }

  /** A pass over snapshots that already record the native queues leaves
      them as they are. */
  lemma {:induction false} SnapshotsFixed(snapshots: map<int, seq<int>>, queues: seq<seq<int>>, i: int)
    requires 0 <= i <= |queues|
    requires forall k :: i <= k < |queues| ==> k in snapshots && snapshots[k] == queues[k]
    ensures SnapshotsFrom(snapshots, queues, i) == snapshots
    decreases |queues| - i
  {
    if i < |queues| {
      assert snapshots[i := queues[i]] == snapshots;
      SnapshotsFixed(snapshots, queues, i + 1);
    }
  }

  /** Synchronisation is idempotent: a second pass over unchanged native
      queues changes neither the queue nor the snapshots. */
  lemma SyncIdempotent(q: seq<QueueEntry>, snapshots: map<int, seq<int>>, queues: seq<seq<int>>)
    ensures var q1, s1 := SyncFrom(q, snapshots, queues, 0), SnapshotsFrom(snapshots, queues, 0);
            SyncFrom(q1, s1, queues, 0) == q1 && SnapshotsFrom(s1, queues, 0) == s1
  {
    var q1, s1 := SyncFrom(q, snapshots, queues, 0), SnapshotsFrom(snapshots, queues, 0);
    SyncConsistent(q, snapshots, queues);
    SnapshotsContents(snapshots, queues, 0);
    SyncFixed(q1, s1, queues, 0);
    SnapshotsFixed(s1, queues, 0);
  }

  /** The queue a pass builds from nothing: each playlist's native queue in
      turn, in playlist order, for playlists 0 .. n-1. */
  function Seed(queues: seq<seq<int>>, n: int): (r: seq<QueueEntry>)
    requires 0 <= n <= |queues|
    ensures |r| == QueuedBelow(queues, n)
  {
    if n == 0 then []
    else Seed(queues, n - 1) + Tag(n - 1, queues[n - 1])
  }

  /** The seed of playlists 0 .. n-1 holds entries of those playlists only. */
  lemma {:induction false} SeedBelow(queues: seq<seq<int>>, n: int)
    requires 0 <= n <= |queues|
    ensures forall k :: 0 <= k < |Seed(queues, n)| ==> 0 <= Seed(queues, n)[k].playlistId < n
  {
    if n > 0 {
      SeedBelow(queues, n - 1);
      var a: seq<QueueEntry>, t: seq<QueueEntry> := Seed(queues, n - 1), Tag(n - 1, queues[n - 1]);
      forall k | 0 <= k < |a + t|
        ensures 0 <= (a + t)[k].playlistId < n
      {
        if k >= |a| {
          assert (a + t)[k] == t[k - |a|];
        }
      }
    }
  }

  /** The step for playlist `i` from an empty snapshot appends its whole
      native queue to the seed of the playlists before it. */
  lemma SeedStep(queues: seq<seq<int>>, i: int)
    requires 0 <= i < |queues|
    ensures SyncStep(Seed(queues, i), i, queues[i], []) == Seed(queues, i + 1)
  {
    var q, t := Seed(queues, i), Tag(i, queues[i]);
    SeedBelow(queues, i);
    FilterAll(t, NotIn([]));
    var s := q + t;
    forall k | 0 <= k < |s|
      ensures StillQueued(i, queues[i])(s[k])
    {
      if k >= |q| {
        assert s[k] == t[k - |q|];
      }
    }
    FilterAll(s, StillQueued(i, queues[i]));
  }

  /** Starting from an empty queue and no snapshots, a pass seeds the queue
      with every native queue, playlist by playlist. */
  lemma SyncFromNothing(queues: seq<seq<int>>)
    ensures SyncFrom([], map[], queues, 0) == Seed(queues, |queues|)
  {
    SeedFrom(queues, map[], 0);
  }

  /** From playlist `i` on, with no snapshot for any playlist from `i` on,
      the pass appends the remaining native queues to the seed. */
  lemma {:induction false} SeedFrom(queues: seq<seq<int>>, snapshots: map<int, seq<int>>, i: int)
    requires 0 <= i <= |queues|
    requires forall k :: k in snapshots ==> k < i
    ensures SyncFrom(Seed(queues, i), snapshots, queues, i) == Seed(queues, |queues|)
    decreases |queues| - i
  {
    if i < |queues| {
      SeedStep(queues, i);
      SeedFrom(queues, snapshots[i := queues[i]], i + 1);
    }
  }

  /** One step keeps the plugin's invariant: entries recorded in their
      snapshots, and no entry twice. */
  lemma StepKeepsInvariant(q: seq<QueueEntry>, snapshots: map<int, seq<int>>, i: int, current: seq<int>)
    requires Recorded(q, snapshots) && Distinct(q) && Distinct(current)
    ensures Recorded(SyncStep(q, i, current, Last(snapshots, i)), snapshots[i := current])
    ensures Distinct(SyncStep(q, i, current, Last(snapshots, i)))
  {
    var last := Last(snapshots, i);
    var kept, added := Pruned(q, i, current), Appended(i, current, last);
    var r := kept + added;
    StepSplits(q, i, current, last);
    PrunedMembers(q, i, current);
    AppendedMembers(i, current, last);
    FilterDistinct(q, StillQueued(i, current));
    AppendedDistinct(i, current, last);
    forall a, b | 0 <= a < |kept| && 0 <= b < |added|
      ensures kept[a] != added[b]
    {
      assert kept[a] in kept && added[b] in added;
      if kept[a].playlistId == i {
        var j :| 0 <= j < |q| && q[j] == kept[a];
        assert kept[a].entryIdx in last;
      }
    }
    DistinctConcat(kept, added);
    var s := snapshots[i := current];
    forall k | 0 <= k < |r|
      ensures r[k].playlistId in s && r[k].entryIdx in s[r[k].playlistId]
    {
      if k < |kept| {
        assert r[k] in kept;
        var j :| 0 <= j < |q| && q[j] == r[k];
      } else {
        assert r[k] == added[k - |kept|];
        assert r[k] in added;
      }
    }
  }

  /** A pass from playlist `i` on keeps the plugin's invariant, provided
      no native queue holds an index twice. */
  lemma {:induction false} SyncKeepsInvariant(q: seq<QueueEntry>, snapshots: map<int, seq<int>>,
                                               queues: seq<seq<int>>, i: int)
    requires 0 <= i <= |queues|
    requires Recorded(q, snapshots) && Distinct(q)
    requires forall k :: i <= k < |queues| ==> Distinct(queues[k])
    ensures Recorded(SyncFrom(q, snapshots, queues, i), SnapshotsFrom(snapshots, queues, i))
    ensures Distinct(SyncFrom(q, snapshots, queues, i))
    decreases |queues| - i
  {
    if i < |queues| {
      StepKeepsInvariant(q, snapshots, i, queues[i]);
      SyncKeepsInvariant(SyncStep(q, i, queues[i], Last(snapshots, i)), snapshots[i := queues[i]], queues, i + 1);
    }
  }

  /** Taking the head off the queue keeps the plugin's invariant. */
  lemma PopKeepsInvariant(q: seq<QueueEntry>, snapshots: map<int, seq<int>>)
    requires q != [] && Recorded(q, snapshots) && Distinct(q)
    ensures Recorded(q[1..], snapshots) && Distinct(q[1..])
  {
    assert forall k :: 0 <= k < |q[1..]| ==> q[1..][k] == q[k + 1];
  }

  // ---------------------------------------------------------------------
  // The whole pass at once

  /** Selects the entries the steps for playlists `i` .. |queues|-1 keep:
      those of other playlists, and those still natively queued. */
  function KeptFrom(queues: seq<seq<int>>, i: int): QueueEntry -> bool
    requires 0 <= i <= |queues|
  {
    (e: QueueEntry) => !(i <= e.playlistId < |queues|) || e.entryIdx in queues[e.playlistId]
  }

  /** Everything the steps for playlists `i` .. |queues|-1 append,
      playlist by playlist. */
  function AdditionsFrom(snapshots: map<int, seq<int>>, queues: seq<seq<int>>, i: int): seq<QueueEntry>
    requires 0 <= i <= |queues|
    decreases |queues| - i
  {
    if i == |queues| then []
    else Appended(i, queues[i], Last(snapshots, i)) + AdditionsFrom(snapshots[i := queues[i]], queues, i + 1)
  }

  /** The removal pass for playlist `i`, then the steps after it, keep
      what the steps from `i` keep. */
  lemma KeptStep(q: seq<QueueEntry>, queues: seq<seq<int>>, i: int)
    requires 0 <= i < |queues|
    ensures Filter(Pruned(q, i, queues[i]), KeptFrom(queues, i + 1)) == Filter(q, KeptFrom(queues, i))
  {
    FilterAnd(q, StillQueued(i, queues[i]), KeptFrom(queues, i + 1), KeptFrom(queues, i));
  }

  /** The additions for playlist `i` survive the steps after it. */
  lemma AppendedKept(queues: seq<seq<int>>, i: int, last: seq<int>)
    requires 0 <= i < |queues|
    ensures Filter(Appended(i, queues[i], last), KeptFrom(queues, i + 1)) == Appended(i, queues[i], last)
  {
    var a := Appended(i, queues[i], last);
    AppendedMembers(i, queues[i], last);
    assert forall k :: 0 <= k < |a| ==> a[k] in a;
    FilterAll(a, KeptFrom(queues, i + 1));
  }

  /** The step for playlist `i` followed by the removals of the steps
      after it keeps what the steps from `i` keep, then what it appends. */
  lemma SplitsStep(q: seq<QueueEntry>, queues: seq<seq<int>>, i: int, last: seq<int>)
    requires 0 <= i < |queues|
    ensures Filter(SyncStep(q, i, queues[i], last), KeptFrom(queues, i + 1))
         == Filter(q, KeptFrom(queues, i)) + Appended(i, queues[i], last)
  {
    var kept, added := Pruned(q, i, queues[i]), Appended(i, queues[i], last);
    StepSplits(q, i, queues[i], last);
    FilterConcat(kept, added, KeptFrom(queues, i + 1));
    KeptStep(q, queues, i);
    AppendedKept(queues, i, last);
  }

  /** A pass keeps, in their old order, the old entries still natively
      queued and those of playlists beyond the count, then appends the new
      indices playlist by playlist: an entry queued earlier is never
      behind one queued later. */
  lemma {:induction false} SyncSplits(q: seq<QueueEntry>, snapshots: map<int, seq<int>>, queues: seq<seq<int>>, i: int)
    requires 0 <= i <= |queues|
    ensures SyncFrom(q, snapshots, queues, i) == Filter(q, KeptFrom(queues, i)) + AdditionsFrom(snapshots, queues, i)
    decreases |queues| - i
  {
    if i == |queues| {
      FilterAll(q, KeptFrom(queues, i));
    } else {
      var last := Last(snapshots, i);
      var s' := snapshots[i := queues[i]];
      SyncSplits(SyncStep(q, i, queues[i], last), s', queues, i + 1);
      SplitsStep(q, queues, i, last);
      ConcatAssoc(Filter(q, KeptFrom(queues, i)), Appended(i, queues[i], last), AdditionsFrom(s', queues, i + 1));
    }
  }

  /** Native queues that are all empty add nothing. */
  lemma {:induction false} AdditionsOfEmpty(snapshots: map<int, seq<int>>, queues: seq<seq<int>>, i: int)
    requires 0 <= i <= |queues|
    requires forall p :: 0 <= p < |queues| ==> queues[p] == []
    ensures AdditionsFrom(snapshots, queues, i) == []
    decreases |queues| - i
  {
    if i < |queues| {
      AppendedOfEmpty(i, queues[i], Last(snapshots, i));
      AdditionsOfEmpty(snapshots[i := queues[i]], queues, i + 1);
    }
  }

  /** Nothing is appended for an empty native queue. */
  lemma AppendedOfEmpty(i: int, current: seq<int>, last: seq<int>)
    requires current == []
    ensures Appended(i, current, last) == []
  {
    assert Tag(i, current) == [];
  }

  /** With every native queue empty, a pass empties a queue whose entries
      all name existing playlists. */
  lemma SyncOfEmptyQueues(q: seq<QueueEntry>, snapshots: map<int, seq<int>>, queues: seq<seq<int>>)
    requires forall p :: 0 <= p < |queues| ==> queues[p] == []
    requires forall k :: 0 <= k < |q| ==> 0 <= q[k].playlistId < |queues|
    ensures SyncFrom(q, snapshots, queues, 0) == []
  {
    SyncSplits(q, snapshots, queues, 0);
    FilterNone(q, KeptFrom(queues, 0));
    AdditionsOfEmpty(snapshots, queues, 0);
  }
}
