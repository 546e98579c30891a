/** compute_tombstone_gc_cutoff and gc_tombstones. */
module SyncGc {
  import opened Options
  import opened SyncTypes

  /** A row of sync_markers: `device` made it when it had synced with `peer`. */
  datatype SyncMarker = SyncMarker(hash: string, createdAt: Time, device: string, peer: Option<string>)

  predicate Concerns(m: SyncMarker, peer: string) {
    m.device == peer || m.peer == Some(peer)
  }

  /** `t` is the time of the last sync with this peer. */
  ghost predicate IsLastSync(markers: seq<SyncMarker>, peer: string, t: Time) {
    && (exists i :: 0 <= i < |markers| && Concerns(markers[i], peer) && markers[i].createdAt == t)
    && (forall i :: 0 <= i < |markers| && Concerns(markers[i], peer) ==> markers[i].createdAt <= t)
  }

  ghost predicate NeverSynced(markers: seq<SyncMarker>, peer: string) {
    forall i :: 0 <= i < |markers| ==> !Concerns(markers[i], peer)
  }

  /** The last sync with this peer was at `t` or later. */
  ghost predicate SyncedSince(markers: seq<SyncMarker>, peer: string, t: Time) {
    exists last :: IsLastSync(markers, peer, last) && t <= last
  }

  method LastSync(markers: seq<SyncMarker>, peer: string) returns (last: Option<Time>)
    ensures last.None? <==> NeverSynced(markers, peer)
    ensures last.Some? ==> IsLastSync(markers, peer, last.value)
  {
    last := None;
    for i := 0 to |markers|
      invariant last.None? <==> forall j :: 0 <= j < i ==> !Concerns(markers[j], peer)
      invariant last.Some? ==>
                  && (exists j :: 0 <= j < i && Concerns(markers[j], peer) && markers[j].createdAt == last.value)
                  && (forall j :: 0 <= j < i && Concerns(markers[j], peer) ==> markers[j].createdAt <= last.value)
    {
      if Concerns(markers[i], peer) && (last.None? || last.value < markers[i].createdAt) {
        last := Some(markers[i].createdAt);
      }
    }
  }

  /** With paired peers the cutoff is the oldest of their last syncs, and there is none as soon as
      one of them never synced; without peers it is the age limit. */
  method ComputeCutoff(markers: seq<SyncMarker>, paired: seq<string>, ageLimit: Time) returns (cutoff: Option<Time>)
    ensures paired == [] ==> cutoff == Some(ageLimit)
    ensures paired != [] ==> (cutoff.None? <==> exists i :: 0 <= i < |paired| && NeverSynced(markers, paired[i]))
    ensures paired != [] && cutoff.Some? ==>
              && (exists i :: 0 <= i < |paired| && IsLastSync(markers, paired[i], cutoff.value))
              && (forall i :: 0 <= i < |paired| ==> SyncedSince(markers, paired[i], cutoff.value))
  {
    if paired == [] {
      return Some(ageLimit);
    }
    cutoff := None;
    for i := 0 to |paired|
      invariant i == 0 <==> cutoff.None?
      invariant forall j :: 0 <= j < i ==> !NeverSynced(markers, paired[j])
      invariant cutoff.Some? ==>
                  && (exists j :: 0 <= j < i && IsLastSync(markers, paired[j], cutoff.value))
                  && (forall j :: 0 <= j < i ==> SyncedSince(markers, paired[j], cutoff.value))
    {
      var last := LastSync(markers, paired[i]);
      if last.None? {
        return None;
      }
      assert SyncedSince(markers, paired[i], last.value);
      if cutoff.None? || last.value < cutoff.value {
        cutoff := last;
      }
    }
  }

  /** A deletion is forgotten once every paired peer has synced after it; without peers, past the age limit. */
  ghost predicate Forgotten(t: Tombstone, markers: seq<SyncMarker>, paired: seq<string>, ageLimit: Time) {
    if paired == [] then t.deletedAt < ageLimit
    else forall i :: 0 <= i < |paired| ==> SyncedAfter(markers, paired[i], t.deletedAt)
  }

  ghost predicate SyncedAfter(markers: seq<SyncMarker>, peer: string, t: Time) {
    exists i :: 0 <= i < |markers| && Concerns(markers[i], peer) && t < markers[i].createdAt
  }

  /** What the collection leaves. */
  ghost function Remembered(tombs: set<Tombstone>, markers: seq<SyncMarker>, paired: seq<string>, ageLimit: Time):
    set<Tombstone>
  {
    set t | t in tombs && !Forgotten(t, markers, paired, ageLimit)
  }

  /** No marker of a sync with this peer is newer than `t`. */
  ghost predicate NotSyncedAfter(markers: seq<SyncMarker>, peer: string, t: Time) {
    forall i :: 0 <= i < |markers| && (markers[i].device == peer || markers[i].peer == Some(peer)) ==>
      markers[i].createdAt <= t
  }

  /** A deletion stays exactly if some paired peer has not synced since, one at the very time of a marker included, and
      without peers exactly if it is not past the age limit. */
  lemma RememberedIff(tombs: set<Tombstone>, markers: seq<SyncMarker>, paired: seq<string>, ageLimit: Time,
                      t: Tombstone)
    ensures t in Remembered(tombs, markers, paired, ageLimit) <==>
              && t in tombs
              && if paired == [] then t.deletedAt >= ageLimit
                 else exists i :: 0 <= i < |paired| && NotSyncedAfter(markers, paired[i], t.deletedAt)
  {
    if paired != [] && t in Remembered(tombs, markers, paired, ageLimit) {
      var i :| 0 <= i < |paired| && !SyncedAfter(markers, paired[i], t.deletedAt);
      assert NotSyncedAfter(markers, paired[i], t.deletedAt);
    }
    if i :| 0 <= i < |paired| && NotSyncedAfter(markers, paired[i], t.deletedAt) {
      assert !SyncedAfter(markers, paired[i], t.deletedAt);
    }
  }

  /** Exactly those deletions go. */
  method GcTombstones(tombs: set<Tombstone>, markers: seq<SyncMarker>, paired: seq<string>, ageLimit: Time)
    returns (kept: set<Tombstone>)
    ensures kept == Remembered(tombs, markers, paired, ageLimit)
  {
    var cutoff := ComputeCutoff(markers, paired, ageLimit);
    if cutoff.None? {
      NeverForgotten(tombs, markers, paired, ageLimit);
      return tombs;
    }
    kept := set t | t in tombs && t.deletedAt >= cutoff.value;
    forall t | t in tombs ensures t.deletedAt < cutoff.value <==> Forgotten(t, markers, paired, ageLimit) {
      ForgottenIff(t, markers, paired, ageLimit, cutoff.value);
    }
  }

  /** A peer that never synced keeps everything remembered. */
  lemma NeverForgotten(tombs: set<Tombstone>, markers: seq<SyncMarker>, paired: seq<string>, ageLimit: Time)
    requires exists i :: 0 <= i < |paired| && NeverSynced(markers, paired[i])
    ensures Remembered(tombs, markers, paired, ageLimit) == tombs
  {
    var i :| 0 <= i < |paired| && NeverSynced(markers, paired[i]);
    forall t | t in tombs ensures !Forgotten(t, markers, paired, ageLimit) {
      assert !SyncedAfter(markers, paired[i], t.deletedAt);
    }
  }

  lemma ForgottenIff(t: Tombstone, markers: seq<SyncMarker>, paired: seq<string>, ageLimit: Time, cutoff: Time)
    requires paired == [] ==> cutoff == ageLimit
    requires paired != [] ==>
               && (exists i :: 0 <= i < |paired| && IsLastSync(markers, paired[i], cutoff))
               && (forall i :: 0 <= i < |paired| ==> SyncedSince(markers, paired[i], cutoff))
    ensures t.deletedAt < cutoff <==> Forgotten(t, markers, paired, ageLimit)
  {
    if paired != [] && t.deletedAt < cutoff {
      forall i | 0 <= i < |paired| ensures SyncedAfter(markers, paired[i], t.deletedAt) {
        assert SyncedSince(markers, paired[i], cutoff);
      }
    }
  }
}
