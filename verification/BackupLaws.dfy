/** What the backup controllers do, said of the Backup resources and the stored objects alone: when a backup is
    created, what an upload leaves, and how long a backup is kept. */

module BackupLaws {
  import opened Wrappers
  import opened Api
  import opened Topology
  import opened Backups
  import opened BackupRuns

  // ----- the scheduler

  /** Every existing backup is finished, and the period since then is over. With none it is. */
  predicate TimeForOne(backups: seq<Backup>, period: int, now: Time) {
    period < now
    && forall k :: 0 <= k < |backups| ==> backups[k].finished != 0 && backups[k].finished + period < now
  }

  /** The name of a backup made now: the schedule's name and the seconds since 1970. */
  function NameNow(s: Schedule, now: Time): string {
    s.name + "-" + Decimal(now - 62135596800)
  }

  /** A look creates exactly one backup if the time has come: unfinished, created now, with the schedule's
      retention; and none otherwise, or when its name is taken. */
  lemma CreatesWhenDue(s: Schedule, st: Storage)
    ensures RunSchedule(s, st)
            == if TimeForOne(st.backups, s.creationPeriod, st.now)
                  && !exists k :: 0 <= k < |st.backups| && st.backups[k].name == NameNow(s, st.now)
               then
                 var backup := Backup(st.nextUid, NameNow(s, st.now), st.now, s.retentionPeriod, 0, "", true);
                 Storage(st.backups + [backup], st.objects, st.nextUid + 1, st.now)
               else st
  {
  }

  // ----- one backup

  /** b is the only backup with its name and its uid, at place k. */
  predicate Only(backups: seq<Backup>, k: nat, b: Backup) {
    k < |backups| && backups[k] == b
    && forall j :: 0 <= j < |backups| && j != k ==> backups[j].name != b.name && backups[j].uid != b.uid
  }

  lemma {:induction false} OnlyFound(backups: seq<Backup>, k: nat, b: Backup)
    requires Only(backups, k, b)
    ensures Lookup(backups, b.name) == Some(b)
  {
    if k > 0 {
      OnlyFound(backups[1..], k - 1, b);
    }
  }

  lemma RemovedLast(before: seq<Backup>, last: Backup, name: string)
    ensures RemoveNamed(before + [last], name) == RemoveNamed(before, name) + if last.name == name then [] else [last]
  {
    var all := before + [last];
    assert all[..|all| - 1] == before;
  }

  lemma {:induction false} OthersStay(backups: seq<Backup>, name: string)
    requires forall j :: 0 <= j < |backups| ==> backups[j].name != name
    ensures RemoveNamed(backups, name) == backups
  {
    if backups != [] {
      var before, last := backups[..|backups| - 1], backups[|backups| - 1];
      assert backups == before + [last];
      RemovedLast(before, last, name);
      OthersStay(before, name);
    }
  }

  lemma SkipLast<T>(before: seq<T>, last: T, k: nat)
    requires k < |before|
    ensures var all := before + [last];
            all[..k] + all[k + 1..] == (before[..k] + before[k + 1..]) + [last]
  {
  }

  lemma {:induction false} OnlyRemoved(backups: seq<Backup>, k: nat, b: Backup)
    requires Only(backups, k, b)
    ensures RemoveNamed(backups, b.name) == backups[..k] + backups[k + 1..]
  {
    var before, last := backups[..|backups| - 1], backups[|backups| - 1];
    assert backups == before + [last];
    RemovedLast(before, last, b.name);
    if k < |before| {
      OnlyRemoved(before, k, b);
      SkipLast(before, last, k);
    } else {
      OthersStay(before, b.name);
      assert backups[k + 1..] == [] && backups[..k] == before;
    }
  }

  lemma SavedAt(backups: seq<Backup>, k: nat, b: Backup, c: Backup)
    requires Only(backups, k, b) && c == b.(finished := c.finished, url := c.url)
    ensures SaveStatus(backups, c) == backups[k := c]
    ensures SaveStatus(backups[..k] + backups[k + 1..], c) == backups[..k] + backups[k + 1..]
  {
  }

  /** A name without a backup is ignored. */
  lemma AbsentIgnored(s: Schedule, st: Storage, name: string, snapshot: Snapshot)
    requires forall k :: 0 <= k < |st.backups| ==> st.backups[k].name != name
    ensures RunBackup(s, st, name, snapshot) == st
  {
  }

  /** Within its retention an unfinished backup whose snapshot is stored at a location is finished now, with that
      location, and its object is there. */
  lemma Uploads(s: Schedule, st: Storage, k: nat, b: Backup, location: string)
    requires Only(st.backups, k, b) && b.finished == 0 && b.created + b.retention >= st.now
    ensures RunBackup(s, st, b.name, Stored(location))
            == st.(backups := st.backups[k := b.(finished := st.now, url := location)],
                   objects := st.objects + {s.path + "/" + b.name})
  {
    OnlyFound(st.backups, k, b);
    SavedAt(st.backups, k, b, b.(finished := st.now, url := location));
  }

  /** Within its retention a finished backup is left alone, and so is an unfinished one whose cluster is gone. */
  lemma Keeps(s: Schedule, st: Storage, k: nat, b: Backup, snapshot: Snapshot)
    requires Only(st.backups, k, b) && b.created + b.retention >= st.now
    requires b.finished != 0 || snapshot == NoCluster
    ensures RunBackup(s, st, b.name, snapshot) == st
  {
    OnlyFound(st.backups, k, b);
    SavedAt(st.backups, k, b, b);
  }

  /** A failed snapshot or upload ends the reconcile: nothing changes, whatever the backup's age. */
  lemma FailedUpload(s: Schedule, st: Storage, k: nat, b: Backup)
    requires Only(st.backups, k, b) && b.finished == 0
    ensures RunBackup(s, st, b.name, Broken) == st
  {
    OnlyFound(st.backups, k, b);
    SavedAt(st.backups, k, b, b);
  }

  /** Past its retention a backup goes together with its object, finished or not, unless its upload fails. */
  lemma Removes(s: Schedule, st: Storage, k: nat, b: Backup, snapshot: Snapshot)
    requires Only(st.backups, k, b) && b.created + b.retention < st.now
    requires b.finished != 0 || snapshot != Broken
    ensures RunBackup(s, st, b.name, snapshot)
            == st.(backups := st.backups[..k] + st.backups[k + 1..], objects := st.objects - {s.path + "/" + b.name})
  {
    OnlyFound(st.backups, k, b);
    OnlyRemoved(st.backups, k, b);
    SavedAt(st.backups, k, b, b);
    if b.finished == 0 && snapshot.Stored? {
      var c := b.(finished := st.now, url := snapshot.location);
      SavedAt(st.backups, k, b, c);
      assert st.objects + {Key(s, b.name)} - {Key(s, b.name)} == st.objects - {Key(s, b.name)};
    }
  }

  // ----- runs

  predicate Gone(b: Backup, backups: seq<Backup>) {
    forall j :: 0 <= j < |backups| ==> backups[j].uid != b.uid
  }

  /** As long as users delete no Backup, a step takes a backup or its object away only when the backup is past its
      retention. */
  lemma KeptWithinRetention(s: Schedule, now: Time, steps: seq<Step>, step: Step, k: nat)
    requires now > ZERO_TIME && NoUserDeletes(steps) && !step.UserDelete?
    requires k < |Run(s, Start(now), steps).st.backups|
    ensures var a, b := Run(s, Start(now), steps).st, Apply(s, Run(s, Start(now), steps), step).st;
            var backup := a.backups[k];
            var key := s.path + "/" + backup.name;
            Gone(backup, b.backups) || (key in a.objects && key !in b.objects) ==>
              backup.created + backup.retention < a.now
  {
    RunAgrees(s, now, steps);
    var y := Run(s, Start(now), steps);
    if step.BackupCall? && step.name in y.procs {
      CallKeeps(s, y, step.name, step.snapshot, k);
    } else {
      assert k < |Apply(s, y, step).st.backups| && Apply(s, y, step).st.backups[k] == y.st.backups[k];
    }
  }

  lemma CallKeeps(s: Schedule, y: BackupSys, name: string, snapshot: Snapshot, k: nat)
    requires AgreeInv(s, y) && name in y.procs && k < |y.st.backups|
    ensures var b := Called(s, y, name, snapshot).st;
            var backup := y.st.backups[k];
            Gone(backup, b.backups) || (Key(s, backup.name) in y.st.objects && Key(s, backup.name) !in b.objects) ==>
              backup.created + backup.retention < y.st.now
  {
    var b := Called(s, y, name, snapshot).st;
    var p := y.procs[name];
    if p.pc.DropObject? || p.pc.DropResource? {
      assert WorkerOk(s, y.st, name, p);
      var own := OwnBackup(s, y, name);
      if k != own {
        if Key(s, y.st.backups[k].name) == Key(s, name) {
          KeyInjective(s, y.st.backups[k].name, name);
        }
        if p.pc.DropResource? {
          var j := Survives(y.st.backups, name, k);
        }
      }
    } else {
      assert b.backups[k].uid == y.st.backups[k].uid;
    }
  }

  /** A new schedule gets its first backup, and the backup its object: a run that ends with both. */
  lemma FirstBackup(s: Schedule, now: Time, location: string) returns (steps: seq<Step>)
    requires now > ZERO_TIME && s.creationPeriod < now && s.retentionPeriod >= 0
    ensures var name := NameNow(s, now);
            Run(s, Start(now), steps).st
            == Storage([Backup(0, name, now, s.retentionPeriod, now, location, true)], {s.path + "/" + name}, 1, now)
  {
    var name := NameNow(s, now);
    var first := [SchedulerLook, SchedulerCreate];
    ScheduleAlone(s, Start(now));
    CreatesWhenDue(s, Start(now).st);
    var y := Run(s, Start(now), first);
    var b := Backup(0, name, now, s.retentionPeriod, 0, "", true);
    assert y.st == Storage([b], {}, 1, now) && y.procs == map[];
    var rest := BackupAlone(s, y, name, Stored(location));
    Uploads(s, y.st, 0, b, location);
    RunAppend(s, Start(now), first, rest);
    steps := first + rest;
  }

  lemma {:induction false} RunAppend(s: Schedule, y: BackupSys, a: seq<Step>, b: seq<Step>)
    ensures Run(s, y, a + b) == Run(s, Run(s, y, a), b)
  {
    hide Apply;
    if b == [] {
      assert a + b == a;
    } else {
      var before, step := b[..|b| - 1], b[|b| - 1];
      RunAppend(s, y, a, before);
      var all := a + b;
      assert all[..|all| - 1] == a + before && all[|all| - 1] == step;
    }
  }
}
