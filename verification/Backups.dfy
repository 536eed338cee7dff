/** The backup scheduler and the backup controller of one cluster: the stages of their reconciles, and
    the controllers as classes proved to compute them. */

module Backups {
  import opened Wrappers
  import opened Api
  import opened Topology

  /** The schedule of a cluster, and the object store's path of the cluster's backups. */
  datatype Schedule = Schedule(name: string, creationPeriod: int, retentionPeriod: int, path: string)

  /** A Backup that carries the cluster's label. finished is zero until the upload is recorded.
      scheduled records history: whether the scheduler made it. No code reads it. */
  datatype Backup = Backup(uid: nat, name: string, created: Time, retention: int,
                           finished: Time, url: string, scheduled: bool)

  /** Seconds between Go's zero time and the Unix epoch. */
  const UNIX_EPOCH: Time := 62135596800

  function BackupName(s: Schedule, now: Time): string {
    s.name + "-" + Decimal(now - UNIX_EPOCH)
  }

  function Key(s: Schedule, name: string): string {
    s.path + "/" + name
  }

  lemma KeyInjective(s: Schedule, a: string, b: string)
    requires Key(s, a) == Key(s, b)
    ensures a == b
  {
    assert Key(s, a)[|s.path| + 1..] == a && Key(s, b)[|s.path| + 1..] == b;
  }

  /** The Backup resources in order of creation, and the keys of the stored objects. */
  datatype Storage = Storage(backups: seq<Backup>, objects: set<string>, nextUid: nat, now: Time)

  predicate Named(backups: seq<Backup>, name: string) {
    exists k :: 0 <= k < |backups| && backups[k].name == name
  }

  // ----- scheduler

  predicate InProgress(backups: seq<Backup>) {
    exists k :: 0 <= k < |backups| && backups[k].finished == ZERO_TIME
  }

  function Latest(backups: seq<Backup>): (t: Time)
    ensures t >= ZERO_TIME
    ensures forall k :: 0 <= k < |backups| ==> backups[k].finished <= t
    ensures t == ZERO_TIME || exists k :: 0 <= k < |backups| && backups[k].finished == t
  {
    if backups == [] then ZERO_TIME else
      var last := |backups| - 1;
      var before := Latest(backups[..last]);
      assert forall k :: 0 <= k < last ==> backups[..last][k] == backups[k];
      if backups[last].finished > before then backups[last].finished else before
  }

  /** The decision of one look at the backups. */
  predicate Due(s: Schedule, backups: seq<Backup>, now: Time) {
    !InProgress(backups) && Latest(backups) + s.creationPeriod < now
  }

  function Created(st: Storage, name: string, retention: int, scheduled: bool): Storage {
    if Named(st.backups, name) then st
    else st.(backups := st.backups + [Backup(st.nextUid, name, st.now, retention, ZERO_TIME, "", scheduled)],
             nextUid := st.nextUid + 1)
  }

  function RunSchedule(s: Schedule, st: Storage): Storage {
    if Due(s, st.backups, st.now) then Created(st, BackupName(s, st.now), s.retentionPeriod, true) else st
  }

  // ----- backup

  /** What a snapshot with its upload comes to: stored, the cluster is gone, or an error. */
  datatype Snapshot = Stored(location: string) | NoCluster | Broken

  function Lookup(backups: seq<Backup>, name: string): (r: Option<Backup>)
    ensures r.Some? ==> r.value in backups && r.value.name == name
    ensures r.None? <==> !Named(backups, name)
  {
    if backups == [] then None
    else if backups[0].name == name then Some(backups[0])
    else
      assert forall k :: 0 < k < |backups| ==> backups[1..][k - 1] == backups[k];
      Lookup(backups[1..], name)
  }

  function RemoveNamed(backups: seq<Backup>, name: string): (r: seq<Backup>)
    ensures forall b :: b in r <==> b in backups && b.name != name
  {
    if backups == [] then [] else
      var last := |backups| - 1;
      RemoveNamed(backups[..last], name) + if backups[last].name == name then [] else [backups[last]]
  }

  function SaveStatus(backups: seq<Backup>, b: Backup): (r: seq<Backup>)
    ensures |r| == |backups|
  {
    seq(|backups|, k requires 0 <= k < |backups| =>
      if backups[k].uid == b.uid then backups[k].(finished := b.finished, url := b.url) else backups[k])
  }

  predicate Stale(b: Backup, now: Time) {
    b.created + b.retention < now
  }

  /** The working copy and the objects after an upload. */
  function Upload(s: Schedule, b: Backup, objects: set<string>, snapshot: Snapshot, now: Time): (Backup, set<string>) {
    if snapshot.Stored? then (b.(finished := now, url := snapshot.location), objects + {Key(s, b.name)})
    else (b, objects)
  }

  /** An uninterrupted reconcile of the backup with this name. */
  function RunBackup(s: Schedule, st: Storage, name: string, snapshot: Snapshot): Storage {
    var found := Lookup(st.backups, name);
    if found.None? then st else
      var (b, objects) :=
        if found.value.finished == ZERO_TIME then Upload(s, found.value, st.objects, snapshot, st.now)
        else (found.value, st.objects);
      if Stale(b, st.now) && !(found.value.finished == ZERO_TIME && snapshot.Broken?) then
        st.(objects := objects - {Key(s, name)}, backups := SaveStatus(RemoveNamed(st.backups, name), b))
      else
        st.(objects := objects, backups := SaveStatus(st.backups, b))
  }

  // ----- the controllers

  class BackupStore {
    var backups: seq<Backup>
    var objects: set<string>
    var nextUid: nat
    var now: Time

    constructor (st: Storage)
      ensures Value() == st
    {
      backups, objects, nextUid, now := st.backups, st.objects, st.nextUid, st.now;
    }

    function Value(): Storage
      reads this
    {
      Storage(backups, objects, nextUid, now)
    }
  }

  class ScheduleReconciler {
    const store: BackupStore

    constructor (store: BackupStore)
      ensures this.store == store
    {
      this.store := store;
    }

    method Reconcile(s: Schedule)
      modifies store`backups, store`nextUid
      ensures store.Value() == RunSchedule(s, old(store.Value()))
    {
      var latestBackupTime := ZERO_TIME;
      var inProgress := false;
      for k := 0 to |store.backups|
        invariant inProgress <==> InProgress(store.backups[..k])
        invariant latestBackupTime == Latest(store.backups[..k])
      {
        var backup := store.backups[k];
        assert store.backups[..k + 1] == store.backups[..k] + [backup];
        assert store.backups[..k + 1][..k] == store.backups[..k];
        if backup.finished == ZERO_TIME {
          assert store.backups[..k + 1][k].finished == ZERO_TIME;
          inProgress := true;
        }
        if backup.finished > latestBackupTime {
          latestBackupTime := backup.finished;
        }
        assert InProgress(store.backups[..k]) ==> InProgress(store.backups[..k + 1]) by {
          assert forall j :: 0 <= j < k ==> store.backups[..k][j] == store.backups[..k + 1][j];
        }
      }
      assert store.backups[..|store.backups|] == store.backups;
      if inProgress {
        return;
      }
      if latestBackupTime + s.creationPeriod < store.now {
        Create(BackupName(s, store.now), s.retentionPeriod);
      }
    }

    method Create(name: string, retention: int)
      modifies store`backups, store`nextUid
      ensures store.Value() == Created(old(store.Value()), name, retention, true)
    {
      if Named(store.backups, name) {
        return;
      }
      store.backups := store.backups + [Backup(store.nextUid, name, store.now, retention, ZERO_TIME, "", true)];
      store.nextUid := store.nextUid + 1;
    }
  }

  /** Working copy of a Backup. */
  class BackupObject {
    const uid: nat
    const name: string
    const created: Time
    const retention: int
    const scheduled: bool
    var finished: Time
    var url: string

    constructor (b: Backup)
      ensures Value() == b
    {
      uid, name, created, retention, scheduled := b.uid, b.name, b.created, b.retention, b.scheduled;
      finished, url := b.finished, b.url;
    }

    function Value(): Backup
      reads this
    {
      Backup(uid, name, created, retention, finished, url, scheduled)
    }
  }

  class BackupReconciler {
    const store: BackupStore

    constructor (store: BackupStore)
      ensures this.store == store
    {
      this.store := store;
    }

    method Reconcile(s: Schedule, name: string, snapshot: Snapshot)
      modifies store`backups, store`objects
      ensures store.Value() == RunBackup(s, old(store.Value()), name, snapshot)
    {
      var found := Lookup(store.backups, name);
      if found.None? {
        return;
      }
      var backup := new BackupObject(found.value);
      var failed := false;
      if backup.finished == ZERO_TIME {
        failed := UploadBackup(s, backup, snapshot);
      }
      if !failed {
        RemoveStale(s, backup);
      }
      store.backups := SaveStatus(store.backups, backup.Value());
    }

    method UploadBackup(s: Schedule, backup: BackupObject, snapshot: Snapshot) returns (failed: bool)
      modifies store`objects, backup`finished, backup`url
      ensures failed <==> snapshot.Broken?
      ensures (backup.Value(), store.objects)
              == Upload(s, old(backup.Value()), old(store.objects), snapshot, store.now)
    {
      if snapshot.Broken? || snapshot.NoCluster? {
        return snapshot.Broken?;
      }
      store.objects := store.objects + {Key(s, backup.name)};
      backup.url := snapshot.location;
      backup.finished := store.now;
      return false;
    }

    method RemoveStale(s: Schedule, backup: BackupObject)
      modifies store`objects, store`backups
      ensures var stale := Stale(backup.Value(), store.now);
              store.objects == (if stale then old(store.objects) - {Key(s, backup.name)} else old(store.objects))
              && store.backups == (if stale then RemoveNamed(old(store.backups), backup.name) else old(store.backups))
    {
      var retentionTime := backup.created + backup.retention;
      if retentionTime < store.now {
        store.objects := store.objects - {Key(s, backup.name)};
        store.backups := RemoveNamed(store.backups, backup.name);
      }
    }
  }
}
