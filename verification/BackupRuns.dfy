/** Every run of the backup scheduler and the backup workers, one remote call at a time, with workers
    that may fail or be lost between any two calls. */

module BackupRuns {
  import opened Api
  import opened Backups

  datatype BackupPc = UploadCall | DropObject | DropResource | Save

  /** One worker for each name; the queue never hands one name to two workers. */
  datatype BackupProc = Working(pc: BackupPc, b: Backup)

  datatype SchedulerProc = SchedulerIdle | ToCreate(name: string)

  datatype BackupSys = BackupSys(st: Storage, scheduler: SchedulerProc, procs: map<string, BackupProc>)

  datatype Step =
    | SchedulerLook | SchedulerCreate | SchedulerCrash
    | BackupStart(name: string) | BackupCall(name: string, snapshot: Snapshot)
    | BackupFail(name: string) | BackupCrash(name: string)
    | Tick(seconds: nat) | UserCreate(name: string, retention: int) | UserDelete(name: string)

  function StaleNext(b: Backup, now: Time): BackupProc {
    Working(if Stale(b, now) then DropObject else Save, b)
  }

  function Without(procs: map<string, BackupProc>, name: string): map<string, BackupProc> {
    procs - {name}
  }

  function Called(s: Schedule, y: BackupSys, name: string, snapshot: Snapshot): BackupSys
    requires name in y.procs
  {
    var b := y.procs[name].b;
    match y.procs[name].pc
    case UploadCall =>
      if snapshot.Broken? then y.(procs := y.procs[name := Working(Save, b)])
      else
        var (uploaded, objects) := Upload(s, b, y.st.objects, snapshot, y.st.now);
        y.(st := y.st.(objects := objects), procs := y.procs[name := StaleNext(uploaded, y.st.now)])
    case DropObject =>
      y.(st := y.st.(objects := y.st.objects - {Key(s, name)}), procs := y.procs[name := Working(DropResource, b)])
    case DropResource =>
      y.(st := y.st.(backups := RemoveNamed(y.st.backups, name)), procs := y.procs[name := Working(Save, b)])
    case Save =>
      y.(st := y.st.(backups := SaveStatus(y.st.backups, b)), procs := Without(y.procs, name))
  }

  function Apply(s: Schedule, y: BackupSys, step: Step): BackupSys {
    match step
    case SchedulerLook =>
      if y.scheduler.SchedulerIdle? && Due(s, y.st.backups, y.st.now) then
        y.(scheduler := ToCreate(BackupName(s, y.st.now)))
      else y
    case SchedulerCreate =>
      if y.scheduler.ToCreate? then
        y.(st := Created(y.st, y.scheduler.name, s.retentionPeriod, true), scheduler := SchedulerIdle)
      else y
    case SchedulerCrash => y.(scheduler := SchedulerIdle)
    case BackupStart(name) =>
      var found := Lookup(y.st.backups, name);
      if name in y.procs || found.None? then y
      else
        var b := found.value;
        y.(procs := y.procs[name := if b.finished == ZERO_TIME then Working(UploadCall, b) else StaleNext(b, y.st.now)])
    case BackupCall(name, snapshot) => if name in y.procs then Called(s, y, name, snapshot) else y
    case BackupFail(name) => if name in y.procs then y.(procs := y.procs[name := Working(Save, y.procs[name].b)]) else y
    case BackupCrash(name) => y.(procs := Without(y.procs, name))
    case Tick(seconds) => y.(st := y.st.(now := y.st.now + seconds))
    case UserCreate(name, retention) => y.(st := Created(y.st, name, retention, false))
    case UserDelete(name) => y.(st := y.st.(backups := RemoveNamed(y.st.backups, name)))
  }

  function Run(s: Schedule, y: BackupSys, steps: seq<Step>): BackupSys {
    if steps == [] then y else Apply(s, Run(s, y, steps[..|steps| - 1]), steps[|steps| - 1])
  }

  function Start(now: Time): BackupSys {
    BackupSys(Storage([], {}, 0, now), SchedulerIdle, map[])
  }

  // ----- spacing

  predicate UidsGrow(backups: seq<Backup>, nextUid: nat) {
    (forall a, b :: 0 <= a < b < |backups| ==> backups[a].uid < backups[b].uid)
    && forall k :: 0 <= k < |backups| ==> backups[k].uid < nextUid
  }

  predicate TimesOk(b: Backup, now: Time) {
    ZERO_TIME < b.created <= now && (b.finished == ZERO_TIME || b.created <= b.finished <= now)
  }

  /** The scheduler made b only when a was finished and the period since then was over. */
  predicate Spaced(a: Backup, b: Backup, period: int) {
    a.scheduled && b.scheduled ==> a.finished != ZERO_TIME && a.finished + period < b.created
  }

  predicate AllSpaced(backups: seq<Backup>, period: int) {
    forall a, b :: 0 <= a < b < |backups| ==> Spaced(backups[a], backups[b], period)
  }

  predicate AllOver(backups: seq<Backup>, period: int, now: Time) {
    forall k :: 0 <= k < |backups| && backups[k].scheduled ==>
      backups[k].finished != ZERO_TIME && backups[k].finished + period < now
  }

  /** What a worker still knows of the stored backup it was started for. */
  predicate CopyOk(stored: Backup, b: Backup, now: Time) {
    stored.uid == b.uid ==>
      stored.name == b.name && stored.created == b.created && stored.retention == b.retention
      && (stored.finished == b.finished || (stored.finished == ZERO_TIME && b.created <= b.finished <= now))
  }

  predicate CopiesOk(st: Storage, procs: map<string, BackupProc>) {
    forall name :: name in procs ==>
      procs[name].b.name == name && procs[name].b.uid < st.nextUid && ZERO_TIME < procs[name].b.created <= st.now
      && (procs[name].pc.UploadCall? ==> procs[name].b.finished == ZERO_TIME)
      && forall k :: 0 <= k < |st.backups| ==> CopyOk(st.backups[k], procs[name].b, st.now)
  }

  predicate Inv(s: Schedule, y: BackupSys) {
    && y.st.now > ZERO_TIME
    && UidsGrow(y.st.backups, y.st.nextUid)
    && (forall k :: 0 <= k < |y.st.backups| ==>
          TimesOk(y.st.backups[k], y.st.now)
          && (y.st.backups[k].scheduled ==> y.st.backups[k].retention == s.retentionPeriod))
    && AllSpaced(y.st.backups, s.creationPeriod)
    && (y.scheduler.ToCreate? ==> AllOver(y.st.backups, s.creationPeriod, y.st.now))
    && CopiesOk(y.st, y.procs)
  }

  /** A sub-list keeps everything that is said of pairs in order. */
  lemma {:induction false} RemoveKeeps(backups: seq<Backup>, name: string, nextUid: nat, period: int)
    requires UidsGrow(backups, nextUid) && AllSpaced(backups, period)
    ensures UidsGrow(RemoveNamed(backups, name), nextUid) && AllSpaced(RemoveNamed(backups, name), period)
  {
    if backups != [] {
      var last := |backups| - 1;
      RemoveKeeps(backups[..last], name, nextUid, period);
      var before, r := RemoveNamed(backups[..last], name), RemoveNamed(backups, name);
      forall k | 0 <= k < |before|
        ensures before[k].uid < backups[last].uid && Spaced(before[k], backups[last], period)
      {
        assert before[k] in before;
        var j :| 0 <= j < last && backups[..last][j] == before[k];
        assert backups[j] == before[k];
      }
      assert r == before || r == before + [backups[last]];
    }
  }

  lemma RemoveInv(s: Schedule, y: BackupSys, name: string)
    requires Inv(s, y)
    ensures Inv(s, y.(st := y.st.(backups := RemoveNamed(y.st.backups, name))))
  {
    RemoveKeeps(y.st.backups, name, y.st.nextUid, s.creationPeriod);
    var r := RemoveNamed(y.st.backups, name);
    assert forall k :: 0 <= k < |r| ==> r[k] in r && r[k] in y.st.backups;
  }

  lemma SaveInv(s: Schedule, y: BackupSys, name: string)
    requires Inv(s, y) && name in y.procs
    ensures Inv(s, y.(st := y.st.(backups := SaveStatus(y.st.backups, y.procs[name].b)),
                      procs := Without(y.procs, name)))
  {
    var b := y.procs[name].b;
    var r := SaveStatus(y.st.backups, b);
    forall k | 0 <= k < |r|
      ensures r[k].uid == y.st.backups[k].uid && r[k].created == y.st.backups[k].created
      ensures r[k].name == y.st.backups[k].name && r[k].retention == y.st.backups[k].retention
      ensures r[k].scheduled == y.st.backups[k].scheduled
      ensures r[k].finished == y.st.backups[k].finished
              || (y.st.backups[k].finished == ZERO_TIME && r[k].created <= r[k].finished <= y.st.now
                  && r[k].name == name)
    {
      assert CopyOk(y.st.backups[k], b, y.st.now);
    }
  }

  lemma CreatedInv(s: Schedule, y: BackupSys, name: string, retention: int, scheduled: bool)
    requires Inv(s, y)
    requires scheduled ==> AllOver(y.st.backups, s.creationPeriod, y.st.now) && retention == s.retentionPeriod
    ensures Inv(s, y.(st := Created(y.st, name, retention, scheduled),
                      scheduler := if scheduled then SchedulerIdle else y.scheduler))
  {
  }

  lemma LookupAt(backups: seq<Backup>, name: string) returns (k: nat)
    requires Lookup(backups, name).Some?
    ensures k < |backups| && backups[k] == Lookup(backups, name).value && backups[k].name == name
  {
    k :| 0 <= k < |backups| && backups[k] == Lookup(backups, name).value;
  }

  lemma StartInv(s: Schedule, y: BackupSys, name: string)
    requires Inv(s, y)
    ensures Inv(s, Apply(s, y, BackupStart(name)))
  {
    if Lookup(y.st.backups, name).Some? {
      var k := LookupAt(y.st.backups, name);
      assert TimesOk(y.st.backups[k], y.st.now);
      forall j | 0 <= j < |y.st.backups|
        ensures CopyOk(y.st.backups[j], y.st.backups[k], y.st.now)
      {
        if j != k {
          assert y.st.backups[j].uid != y.st.backups[k].uid;
        }
      }
    }
  }

  lemma LatestOver(backups: seq<Backup>, period: int, now: Time)
    requires !InProgress(backups) && Latest(backups) + period < now
    ensures AllOver(backups, period, now)
  {
  }

  /** A call that changes objects and the worker's own copy only. */
  lemma WorkInv(s: Schedule, y: BackupSys, name: string, objects: set<string>, p: BackupProc)
    requires Inv(s, y) && name in y.procs && !p.pc.UploadCall?
    requires p.b == y.procs[name].b
             || (y.procs[name].pc.UploadCall? && p.b == y.procs[name].b.(finished := y.st.now, url := p.b.url))
    ensures Inv(s, y.(st := y.st.(objects := objects), procs := y.procs[name := p]))
  {
  }

  lemma CallInv(s: Schedule, y: BackupSys, name: string, snapshot: Snapshot)
    requires Inv(s, y) && name in y.procs
    ensures Inv(s, Called(s, y, name, snapshot))
  {
    var t := Called(s, y, name, snapshot);
    if y.procs[name].pc.DropResource? {
      RemoveInv(s, y, name);
      WorkInv(s, y.(st := t.st), name, t.st.objects, t.procs[name]);
    } else if y.procs[name].pc.Save? {
      SaveInv(s, y, name);
    } else {
      WorkInv(s, y, name, t.st.objects, t.procs[name]);
    }
  }

  lemma StepInv(s: Schedule, y: BackupSys, step: Step)
    requires Inv(s, y)
    ensures Inv(s, Apply(s, y, step))
  {
    match step
    case SchedulerLook =>
      if Due(s, y.st.backups, y.st.now) {
        LatestOver(y.st.backups, s.creationPeriod, y.st.now);
      }
    case SchedulerCreate =>
      if y.scheduler.ToCreate? {
        CreatedInv(s, y, y.scheduler.name, s.retentionPeriod, true);
      }
    case BackupStart(name) => StartInv(s, y, name);
    case BackupCall(name, snapshot) =>
      if name in y.procs {
        CallInv(s, y, name, snapshot);
      }
    case BackupFail(name) =>
      if name in y.procs {
        WorkInv(s, y, name, y.st.objects, Working(Save, y.procs[name].b));
      }
    case UserCreate(name, retention) => CreatedInv(s, y, name, retention, false);
    case UserDelete(name) => RemoveInv(s, y, name);
    case _ =>
  }

  lemma {:induction false} RunInv(s: Schedule, now: Time, steps: seq<Step>)
    requires now > ZERO_TIME
    ensures Inv(s, Run(s, Start(now), steps))
  {
    if steps != [] {
      RunInv(s, now, steps[..|steps| - 1]);
      StepInv(s, Run(s, Start(now), steps[..|steps| - 1]), steps[|steps| - 1]);
    }
  }

  function Abs(x: int): int {
    if x < 0 then -x else x
  }

  /** Two backups of the schedule that exist together were created more than the period apart, and at most
      one of those that exist is unfinished, whatever retention, the user or a lost worker does. */
  lemma CoexistingSpaced(s: Schedule, now: Time, steps: seq<Step>, i: nat, j: nat)
    requires now > ZERO_TIME
    ensures var backups := Run(s, Start(now), steps).st.backups;
            i < |backups| && j < |backups| && i != j && backups[i].scheduled && backups[j].scheduled ==>
              Abs(backups[i].created - backups[j].created) > s.creationPeriod
              && (backups[i].finished != ZERO_TIME || backups[j].finished != ZERO_TIME)
  {
    RunInv(s, now, steps);
    var backups := Run(s, Start(now), steps).st.backups;
    if i < |backups| && j < |backups| && i != j && backups[i].scheduled && backups[j].scheduled {
      var a, b := if i < j then i else j, if i < j then j else i;
      assert Spaced(backups[a], backups[b], s.creationPeriod);
    }
  }

  // ----- the retention bound

  predicate Kept(backups: seq<Backup>, k: nat, now: Time) {
    k < |backups| && backups[k].scheduled && backups[k].created + backups[k].retention >= now
  }

  /** Backups in order of creation: the first and the last of m are more than m - 1 periods apart. */
  lemma {:induction false} Span(backups: seq<Backup>, picked: seq<nat>, period: int, now: Time)
    requires AllSpaced(backups, period) && |picked| >= 2
    requires forall k :: 0 <= k < |picked| ==> picked[k] < |backups| && backups[picked[k]].scheduled
                                               && TimesOk(backups[picked[k]], now)
    requires forall a, b :: 0 <= a < b < |picked| ==> picked[a] < picked[b]
    ensures backups[picked[|picked| - 1]].created - backups[picked[0]].created > (|picked| - 1) * period
  {
    var last := |picked| - 1;
    assert Spaced(backups[picked[last - 1]], backups[picked[last]], period);
    if last > 1 {
      Span(backups, picked[..last], period, now);
      assert picked[..last][last - 1] == picked[last - 1];
      assert last * period == (last - 1) * period + period;
    }
  }

  /** With a positive period P and retention R, m >= 2 backups of the schedule that are not past retention
      fit into the retention time: (m - 1) * P < R. */
  lemma RetentionBound(s: Schedule, now: Time, steps: seq<Step>, picked: seq<nat>)
    requires now > ZERO_TIME && s.creationPeriod > 0 && |picked| >= 2
    requires forall a, b :: 0 <= a < b < |picked| ==> picked[a] < picked[b]
    requires var st := Run(s, Start(now), steps).st;
             forall k :: 0 <= k < |picked| ==> Kept(st.backups, picked[k], st.now)
    ensures (|picked| - 1) * s.creationPeriod < s.retentionPeriod
  {
    RunInv(s, now, steps);
    var st := Run(s, Start(now), steps).st;
    Span(st.backups, picked, s.creationPeriod, st.now);
    assert Kept(st.backups, picked[0], st.now) && Kept(st.backups, picked[|picked| - 1], st.now);
    assert TimesOk(st.backups[picked[|picked| - 1]], st.now);
  }

  // ----- backups and stored objects

  predicate HasObject(s: Schedule, st: Storage, b: Backup) {
    Key(s, b.name) in st.objects
  }

  predicate NamesDistinct(backups: seq<Backup>) {
    forall a, b :: 0 <= a < b < |backups| ==> backups[a].name != backups[b].name
  }

  /** The worker's backup is still there, or it has deleted it itself and is about to stop. */
  predicate WorkerOk(s: Schedule, st: Storage, name: string, p: BackupProc) {
    && (!p.pc.Save? ==>
          exists k :: 0 <= k < |st.backups| && st.backups[k].uid == p.b.uid && st.backups[k].name == name)
    && (p.pc.DropObject? || p.pc.DropResource? ==> Stale(p.b, st.now))
    && (p.pc.DropResource? ==> Key(s, name) !in st.objects)
    && (p.pc.Save? && p.b.finished != ZERO_TIME ==>
          Stale(p.b, st.now) || Key(s, name) in st.objects
          || forall k :: 0 <= k < |st.backups| ==> st.backups[k].uid != p.b.uid)
  }

  predicate Agree(s: Schedule, y: BackupSys) {
    && NamesDistinct(y.st.backups)
    && (forall key :: key in y.st.objects ==>
          exists k :: 0 <= k < |y.st.backups| && Key(s, y.st.backups[k].name) == key)
    && (forall k :: 0 <= k < |y.st.backups|
                    && y.st.backups[k].finished != ZERO_TIME && !Stale(y.st.backups[k], y.st.now) ==>
          HasObject(s, y.st, y.st.backups[k]))
    && forall name :: name in y.procs ==> WorkerOk(s, y.st, name, y.procs[name])
  }

  ghost predicate AgreeInv(s: Schedule, y: BackupSys) {
    Inv(s, y) && Agree(s, y)
  }

  /** The stored backup that a worker, which has not deleted it, works on. */
  lemma OwnBackup(s: Schedule, y: BackupSys, name: string) returns (k: nat)
    requires AgreeInv(s, y) && name in y.procs && !y.procs[name].pc.Save?
    ensures k < |y.st.backups| && y.st.backups[k].uid == y.procs[name].b.uid && y.st.backups[k].name == name
    ensures CopyOk(y.st.backups[k], y.procs[name].b, y.st.now)
    ensures forall j :: 0 <= j < |y.st.backups| && y.st.backups[j].name == name ==> j == k
  {
    assert WorkerOk(s, y.st, name, y.procs[name]);
    k :| 0 <= k < |y.st.backups| && y.st.backups[k].uid == y.procs[name].b.uid && y.st.backups[k].name == name;
  }

  lemma UploadAgrees(s: Schedule, y: BackupSys, name: string, snapshot: Snapshot)
    requires AgreeInv(s, y) && name in y.procs && y.procs[name].pc.UploadCall?
    ensures Agree(s, Called(s, y, name, snapshot))
  {
    var t := Called(s, y, name, snapshot);
    var k := OwnBackup(s, y, name);
    assert Key(s, t.st.backups[k].name) == Key(s, name);
    forall other | other in t.procs
      ensures WorkerOk(s, t.st, other, t.procs[other])
    {
      if other != name {
        assert WorkerOk(s, y.st, other, y.procs[other]);
        if Key(s, other) == Key(s, name) {
          KeyInjective(s, other, name);
        }
      } else {
        assert WorkerOk(s, y.st, name, y.procs[name]);
      }
    }
  }

  lemma DropObjectAgrees(s: Schedule, y: BackupSys, name: string, snapshot: Snapshot)
    requires AgreeInv(s, y) && name in y.procs && y.procs[name].pc.DropObject?
    ensures Agree(s, Called(s, y, name, snapshot))
  {
    var t := Called(s, y, name, snapshot);
    var k := OwnBackup(s, y, name);
    assert WorkerOk(s, y.st, name, y.procs[name]);
    forall j | 0 <= j < |t.st.backups| && t.st.backups[j].finished != ZERO_TIME && !Stale(t.st.backups[j], t.st.now)
      ensures HasObject(s, t.st, t.st.backups[j])
    {
      assert j != k;
      if Key(s, t.st.backups[j].name) == Key(s, name) {
        KeyInjective(s, t.st.backups[j].name, name);
      }
    }
    forall other | other in t.procs
      ensures WorkerOk(s, t.st, other, t.procs[other])
    {
      if other != name {
        assert WorkerOk(s, y.st, other, y.procs[other]);
        if Key(s, other) == Key(s, name) {
          KeyInjective(s, other, name);
        }
      }
    }
  }

  lemma {:induction false} RemoveDistinct(backups: seq<Backup>, name: string)
    requires NamesDistinct(backups)
    ensures NamesDistinct(RemoveNamed(backups, name))
  {
    if backups != [] {
      var last := |backups| - 1;
      RemoveDistinct(backups[..last], name);
      var before := RemoveNamed(backups[..last], name);
      forall k | 0 <= k < |before|
        ensures before[k].name != backups[last].name
      {
        assert before[k] in before;
        var j :| 0 <= j < last && backups[..last][j] == before[k];
        assert backups[j] == before[k];
      }
      assert RemoveNamed(backups, name) == before || RemoveNamed(backups, name) == before + [backups[last]];
    }
  }

  lemma Survives(backups: seq<Backup>, name: string, k: nat) returns (j: nat)
    requires k < |backups| && backups[k].name != name
    ensures j < |RemoveNamed(backups, name)| && RemoveNamed(backups, name)[j] == backups[k]
  {
    assert backups[k] in RemoveNamed(backups, name);
    j :| 0 <= j < |RemoveNamed(backups, name)| && RemoveNamed(backups, name)[j] == backups[k];
  }

  lemma Origin(backups: seq<Backup>, name: string, j: nat) returns (k: nat)
    requires j < |RemoveNamed(backups, name)|
    ensures k < |backups| && backups[k] == RemoveNamed(backups, name)[j] && backups[k].name != name
  {
    assert RemoveNamed(backups, name)[j] in backups;
    k :| 0 <= k < |backups| && backups[k] == RemoveNamed(backups, name)[j];
  }

  lemma RemoveObjects(s: Schedule, st: Storage, name: string, key: string)
    requires exists k :: 0 <= k < |st.backups| && Key(s, st.backups[k].name) == key
    requires key != Key(s, name)
    ensures var r := RemoveNamed(st.backups, name);
            exists k :: 0 <= k < |r| && Key(s, r[k].name) == key
  {
    var k :| 0 <= k < |st.backups| && Key(s, st.backups[k].name) == key;
    var j := Survives(st.backups, name, k);
    assert Key(s, RemoveNamed(st.backups, name)[j].name) == key;
  }

  lemma RemoveOther(s: Schedule, st: Storage, name: string, other: string, p: BackupProc)
    requires WorkerOk(s, st, other, p) && other != name
    ensures WorkerOk(s, st.(backups := RemoveNamed(st.backups, name)), other, p)
  {
  }

  lemma DropResourceAgrees(s: Schedule, y: BackupSys, name: string, snapshot: Snapshot)
    requires AgreeInv(s, y) && name in y.procs && y.procs[name].pc.DropResource?
    ensures Agree(s, Called(s, y, name, snapshot))
  {
    var t := Called(s, y, name, snapshot);
    var b := t.st.backups;
    RemoveDistinct(y.st.backups, name);
    assert WorkerOk(s, y.st, name, y.procs[name]);
    forall key | key in t.st.objects
      ensures exists k :: 0 <= k < |b| && Key(s, b[k].name) == key
    {
      RemoveObjects(s, y.st, name, key);
    }
    forall j | 0 <= j < |b|
      ensures b[j].uid != y.procs[name].b.uid
      ensures b[j].finished != ZERO_TIME && !Stale(b[j], t.st.now) ==> HasObject(s, t.st, b[j])
    {
      var k := Origin(y.st.backups, name, j);
      assert CopyOk(y.st.backups[k], y.procs[name].b, y.st.now);
    }
    forall other | other in t.procs
      ensures WorkerOk(s, t.st, other, t.procs[other])
    {
      if other != name {
        RemoveOther(s, y.st, name, other, y.procs[other]);
      }
    }
  }

  lemma SaveAgrees(s: Schedule, y: BackupSys, name: string, snapshot: Snapshot)
    requires AgreeInv(s, y) && name in y.procs && y.procs[name].pc.Save?
    ensures Agree(s, Called(s, y, name, snapshot))
  {
    var t := Called(s, y, name, snapshot);
    var a, b, p := y.st.backups, t.st.backups, y.procs[name];
    assert forall k :: 0 <= k < |b| ==> b[k].uid == a[k].uid && b[k].name == a[k].name
                                        && b[k].created == a[k].created && b[k].retention == a[k].retention;
    assert WorkerOk(s, y.st, name, p);
    forall k | 0 <= k < |b| && b[k].finished != ZERO_TIME && !Stale(b[k], t.st.now)
      ensures HasObject(s, t.st, b[k])
    {
      assert CopyOk(a[k], p.b, y.st.now);
    }
    forall key | key in t.st.objects
      ensures exists k :: 0 <= k < |b| && Key(s, b[k].name) == key
    {
      var k :| 0 <= k < |a| && Key(s, a[k].name) == key;
      assert Key(s, b[k].name) == key;
    }
    forall other | other in t.procs
      ensures WorkerOk(s, t.st, other, t.procs[other])
    {
      assert WorkerOk(s, y.st, other, y.procs[other]);
      if !y.procs[other].pc.Save? {
        var k :| 0 <= k < |a| && a[k].uid == y.procs[other].b.uid && a[k].name == other;
        assert b[k].uid == y.procs[other].b.uid;
      }
    }
  }

  lemma CreatedAgrees(s: Schedule, y: BackupSys, name: string, retention: int, scheduled: bool)
    requires AgreeInv(s, y)
    ensures Agree(s, y.(st := Created(y.st, name, retention, scheduled)))
  {
    var a, b := y.st.backups, Created(y.st, name, retention, scheduled).backups;
    assert forall k :: 0 <= k < |a| ==> b[k] == a[k];
    forall key | key in y.st.objects
      ensures exists k :: 0 <= k < |b| && Key(s, b[k].name) == key
    {
      var k :| 0 <= k < |a| && Key(s, a[k].name) == key;
      assert Key(s, b[k].name) == key;
    }
    forall other | other in y.procs
      ensures WorkerOk(s, Created(y.st, name, retention, scheduled), other, y.procs[other])
    {
      assert WorkerOk(s, y.st, other, y.procs[other]);
      if !y.procs[other].pc.Save? {
        var k :| 0 <= k < |a| && a[k].uid == y.procs[other].b.uid && a[k].name == other;
        assert b[k].uid == y.procs[other].b.uid;
      }
    }
  }

  lemma StartAgrees(s: Schedule, y: BackupSys, name: string)
    requires AgreeInv(s, y)
    ensures Agree(s, Apply(s, y, BackupStart(name)))
  {
  }

  lemma StepAgrees(s: Schedule, y: BackupSys, step: Step)
    requires AgreeInv(s, y) && !step.UserDelete?
    ensures AgreeInv(s, Apply(s, y, step))
  {
    StepInv(s, y, step);
    match step
    case SchedulerCreate =>
      if y.scheduler.ToCreate? {
        CreatedAgrees(s, y, y.scheduler.name, s.retentionPeriod, true);
      }
    case BackupStart(name) => StartAgrees(s, y, name);
    case BackupCall(name, snapshot) =>
      if name in y.procs {
        match y.procs[name].pc
        case UploadCall => UploadAgrees(s, y, name, snapshot);
        case DropObject => DropObjectAgrees(s, y, name, snapshot);
        case DropResource => DropResourceAgrees(s, y, name, snapshot);
        case Save => SaveAgrees(s, y, name, snapshot);
      }
    case UserCreate(name, retention) => CreatedAgrees(s, y, name, retention, false);
    case _ =>
  }

  ghost predicate NoUserDeletes(steps: seq<Step>) {
    forall k :: 0 <= k < |steps| ==> !steps[k].UserDelete?
  }

  lemma {:induction false} RunAgrees(s: Schedule, now: Time, steps: seq<Step>)
    requires now > ZERO_TIME && NoUserDeletes(steps)
    ensures AgreeInv(s, Run(s, Start(now), steps))
  {
    if steps != [] {
      RunAgrees(s, now, steps[..|steps| - 1]);
      StepAgrees(s, Run(s, Start(now), steps[..|steps| - 1]), steps[|steps| - 1]);
    }
  }

  /** As long as users delete no Backup, nothing in the object store is orphaned, and every finished Backup
      within its retention has its object, also when a worker is lost after an upload and before its
      status is written, or between the two deletes. */
  lemma BackupsAndObjects(s: Schedule, now: Time, steps: seq<Step>)
    requires now > ZERO_TIME && NoUserDeletes(steps)
    ensures var st := Run(s, Start(now), steps).st;
            && (forall key :: key in st.objects ==>
                  exists k :: 0 <= k < |st.backups| && key == s.path + "/" + st.backups[k].name)
            && forall k :: 0 <= k < |st.backups|
                           && st.backups[k].finished != 0
                           && st.backups[k].created + st.backups[k].retention >= st.now ==>
                 s.path + "/" + st.backups[k].name in st.objects
  {
    RunAgrees(s, now, steps);
    var st := Run(s, Start(now), steps).st;
    forall k | 0 <= k < |st.backups|
      ensures Key(s, st.backups[k].name) == s.path + "/" + st.backups[k].name
      ensures st.backups[k].finished != 0 && st.backups[k].created + st.backups[k].retention >= st.now ==>
                HasObject(s, st, st.backups[k])
    {
    }
  }

  // ----- uninterrupted reconciles

  lemma RunTwo(s: Schedule, y: BackupSys, a: Step, b: Step)
    ensures Run(s, y, [a]) == Apply(s, y, a)
    ensures Run(s, y, [a, b]) == Apply(s, Apply(s, y, a), b)
  {
  }

  /** A look and a create with nothing in between are the scheduler's reconcile. */
  lemma ScheduleAlone(s: Schedule, y: BackupSys)
    requires y.scheduler.SchedulerIdle?
    ensures Run(s, y, [SchedulerLook, SchedulerCreate]) == y.(st := RunSchedule(s, y.st))
  {
    RunTwo(s, y, SchedulerLook, SchedulerCreate);
  }

  lemma {:induction false} DriveBackup(s: Schedule, y: BackupSys, name: string, snapshot: Snapshot)
      returns (steps: seq<Step>)
    requires name in y.procs && y.procs[name].b.name == name
    ensures var t := Run(s, y, steps);
            var b := y.procs[name].b;
            match y.procs[name].pc
            case Save => t.st == y.st.(backups := SaveStatus(y.st.backups, b))
            case DropResource => t.st == y.st.(backups := SaveStatus(RemoveNamed(y.st.backups, name), b))
            case DropObject => t.st == y.st.(objects := y.st.objects - {Key(s, name)},
                                             backups := SaveStatus(RemoveNamed(y.st.backups, name), b))
            case UploadCall =>
              var (u, objects) := Upload(s, b, y.st.objects, snapshot, y.st.now);
              t.st == if Stale(u, y.st.now) && !snapshot.Broken? then
                        y.st.(objects := objects - {Key(s, name)},
                              backups := SaveStatus(RemoveNamed(y.st.backups, name), u))
                      else y.st.(objects := objects, backups := SaveStatus(y.st.backups, u))
    decreases y.procs[name].pc.UploadCall?, y.procs[name].pc.DropObject?, y.procs[name].pc.DropResource?
  {
    var step := BackupCall(name, snapshot);
    RunTwo(s, y, step, step);
    if y.procs[name].pc.Save? {
      steps := [step];
    } else {
      var rest := DriveBackup(s, Called(s, y, name, snapshot), name, snapshot);
      RunFirst(s, y, step, rest);
      steps := [step] + rest;
    }
  }

  lemma {:induction false} RunFirst(s: Schedule, y: BackupSys, step: Step, steps: seq<Step>)
    ensures Run(s, y, [step] + steps) == Run(s, Apply(s, y, step), steps)
  {
    if steps == [] {
      assert [step] + steps == [step];
      RunTwo(s, y, step, step);
    } else {
      var last := |steps| - 1;
      var whole := [step] + steps;
      assert whole[..last + 1] == [step] + steps[..last] && whole[last + 1] == steps[last];
      RunFirst(s, y, step, steps[..last]);
      assert Run(s, y, whole) == Apply(s, Run(s, y, whole[..last + 1]), steps[last]);
    }
  }

  /** The calls of one backup worker with nothing in between are the backup's reconcile. */
  lemma BackupAlone(s: Schedule, y: BackupSys, name: string, snapshot: Snapshot) returns (steps: seq<Step>)
    requires name !in y.procs
    ensures Run(s, y, steps).st == RunBackup(s, y.st, name, snapshot)
  {
    if Lookup(y.st.backups, name).None? {
      steps := [];
    } else {
      var t := Apply(s, y, BackupStart(name));
      var rest := DriveBackup(s, t, name, snapshot);
      RunFirst(s, y, BackupStart(name), rest);
      steps := [BackupStart(name)] + rest;
    }
  }
}
