/** Runs of newly admitted clusters into the states from which a promise fails. */

module Witnesses {
  import opened Wrappers
  import opened Api
  import opened Etcd
  import opened Objects
  import opened Topology
  import opened MemberController
  import opened ClusterController
  import opened Interleaving
  import opened Invariant
  import opened Rollouts
  import opened AtomicRuns
  import opened Termination
  import opened Uninterrupted
  import opened Limits
  import opened Startup
  import opened Breakdowns
  import opened LostRepairs
  import opened Images
  import opened Rotation
  import opened Requests

  lemma UpIsQuiet(w: World, n: nat, k: nat)
    requires Fresh(w) && n == Count(w.cluster.spec.size) && k < n
    ensures Quiet(UpWorld(w, n).slots[k], w.now)
    ensures UpWorld(w, n).slots[k] == UpSlot(GetMember(w.cluster, k), w.now)
  {
    assert GetPod(GetMember(w.cluster, k), w.now).(containerStatuses := [true]).Ready();
  }

  lemma BootstrapOk(n: nat)
    ensures ListOk(Bootstrap(n), n) && !Nameless(Bootstrap(n).entries, 0)
  {
  }

  // ----- a version that is reported though nobody runs it

  /** The first member fails, the user asks for another version, the member is marked broken and repaired. */
  function EditAndRepair(n: nat, spec: ClusterSpec): seq<Act> {
    (BringUp(n) + FailFirst()) + ([EnvAct(UserEdit(spec))] + ((Mark() + TearDown()) + Rejoin()))
  }

  lemma QuietWaits(s: Slot, v: string, now: Time)
    requires Quiet(s, now) && s.member.spec.version != v
    ensures Waiting(s, v) && RollingSlot(s, v, now)
  {
  }

  lemma AfterRepair(w: World, x: World, v: string, n: nat) returns (t: World)
    requires Fresh(w) && w.cluster.spec.size >= 3 && n == Count(w.cluster.spec.size)
    requires x == World(x.cluster, UpWorld(w, n).slots[0 := FailedSlot(UpWorld(w, n).slots[0], w.now)], w.etcd, w.now)
    requires x.cluster.spec == w.cluster.spec.(version := v) && v != w.cluster.spec.version
    ensures t == RunActs(x, (Mark() + TearDown()) + Rejoin())
    ensures Rolling(t, v) && t.cluster.status.version == v && |t.slots| == n
    ensures forall k :: 0 <= k < |t.slots| ==> Waiting(t.slots[k], v)
  {
    forall k | 0 <= k < n
      ensures Quiet(UpWorld(w, n).slots[k], w.now) && UpWorld(w, n).slots[k] == UpSlot(GetMember(w.cluster, k), w.now)
    {
      UpIsQuiet(w, n, k);
    }
    var gone := FirstGone(x);
    BootstrapOk(n);
    Rejoined(gone, n);
    ActsAppend(x, Mark() + TearDown(), Rejoin());
    t := RunActs(gone, Rejoin());
    forall k | 0 <= k < n
      ensures Waiting(t.slots[k], v) && RollingSlot(t.slots[k], v, t.now)
    {
      QuietWaits(t.slots[k], v, t.now);
    }
  }

  /** The first member of a cluster that has come up fails. */
  function FirstDown(w: World): World
    requires w.cluster.spec.size > 0
  {
    var up := UpWorld(w, Count(w.cluster.spec.size));
    With(up, 0, FailedSlot(up.slots[0], w.now))
  }

  lemma FailsFirst(w: World)
    requires Fresh(w) && w.cluster.spec.size > 0
    ensures RunActs(w, BringUp(Count(w.cluster.spec.size)) + FailFirst()) == FirstDown(w)
  {
    var n := Count(w.cluster.spec.size);
    ComesUp(w, n);
    UpIsQuiet(w, n, 0);
    FirstFails(UpWorld(w, n));
    ActsAppend(w, BringUp(n), FailFirst());
  }

  lemma ActBetween(w: World, a: seq<Act>, act: Act, b: seq<Act>)
    ensures RunActs(w, a + ([act] + b)) == RunActs(ApplyAct(RunActs(w, a), act), b)
  {
    ActsAppend(w, a, [act] + b);
    ActsFromFirst(RunActs(w, a), act, b);
  }

  /** Only the version is edited, and the cluster is not Updating. */
  lemma Edited(w: World, spec: ClusterSpec) returns (t: World)
    requires w.cluster.status.phase != ClusterUpdating && spec == w.cluster.spec.(version := spec.version)
    ensures t == ApplyAct(w, EnvAct(UserEdit(spec)))
    ensures t == w.(cluster := t.cluster) && t.cluster.spec == spec && t.cluster.status == w.cluster.status
  {
    t := Env(w, UserEdit(spec));
  }

  /** From every newly admitted cluster of three members or more, for every other version: all members serve and run
      the old version, and the new one is reported. By Termination.StuckForGood nobody is ever told about it. */
  lemma ReportedUnrolled(w: World, v: string)
    requires Fresh(w) && w.cluster.spec.size >= 3 && v != w.cluster.spec.version
    ensures var t := RunActs(w, EditAndRepair(Count(w.cluster.spec.size), w.cluster.spec.(version := v)));
            Rolling(t, v) && t.cluster.status.version == v && |t.slots| == Count(w.cluster.spec.size)
            && forall k :: 0 <= k < |t.slots| ==> Waiting(t.slots[k], v)
  {
    var n := Count(w.cluster.spec.size);
    var spec := w.cluster.spec.(version := v);
    FailsFirst(w);
    var x := Edited(FirstDown(w), spec);
    ActBetween(w, BringUp(n) + FailFirst(), EnvAct(UserEdit(spec)), (Mark() + TearDown()) + Rejoin());
    var t := AfterRepair(w, x, v, n);
  }

  // ----- a repair that is lost after the add

  /** The start of the first member's reconcile and k calls of its worker. */
  function WorkerSteps(k: nat): seq<Step> {
    if k == 0 then [MemberStart(0)] else WorkerSteps(k - 1) + [MemberCall(0)]
  }

  lemma StepAfter(s: Sys, steps: seq<Step>, step: Step)
    ensures Run(s, steps + [step]) == Apply(Run(s, steps), step)
  {
    RunAppend(s, steps, [step]);
    RunOne(Run(s, steps), step);
  }

  lemma WorkerStarts(g: World)
    requires |g.slots| > 0
    ensures Run(Start(g), WorkerSteps(0)) == Working(g, MemberBegin(g.slots[0].member).pc, g.etcd)
  {
    RunOne(Start(g), MemberStart(0));
  }

  /** The first member's worker is about to make the given call, with a current copy. */
  function Working(g: World, pc: MemberPc, etcd: Membership): Sys
    requires |g.slots| > 0
  {
    Sys(g.(etcd := etcd), ClusterIdle, Start(g).procs[0 := Busy(pc, g.slots[0].member)])
  }

  lemma NextCall(g: World, k: nat, pc: MemberPc, etcd: Membership, next: MemberPc, after: Membership)
    requires |g.slots| > 0 && Run(Start(g), WorkerSteps(k)) == Working(g, pc, etcd)
    requires MemberCallAt(0, pc, View(g.slots[0].member, g.slots[0], etcd), g.now)
             == Moved(Busy(next, g.slots[0].member), g.slots[0], after)
    ensures Run(Start(g), WorkerSteps(k + 1)) == Working(g, next, after)
  {
    StepAfter(Start(g), WorkerSteps(k), MemberCall(0));
    assert g.slots[0 := g.slots[0]] == g.slots;
    assert Start(g).procs[0 := Busy(pc, g.slots[0].member)][0 := Busy(next, g.slots[0].member)]
        == Start(g).procs[0 := Busy(next, g.slots[0].member)];
  }

  lemma FirstListed(n: nat)
    requires n > 0
    ensures var entries := Bootstrap(n).entries;
            NamedIds(entries, 0) == [0] && HasId(entries, 0) && !HasPeer(Without(entries, 0), 0)
  {
    var entries := Bootstrap(n).entries;
    assert entries[0].id == 0 && entries[0].name == Some(0);
    NamedIdsOf(entries, 0);
    assert 0 in NamedIds(entries, 0);
    RemovedPeer(entries, 0, 0);
  }

  lemma Listed(g: World, n: nat)
    requires n > 0 && |g.slots| > 0 && g.etcd == Bootstrap(n)
    requires g.slots[0].member.spec.broken && g.slots[0].pod.None? && g.slots[0].pvc.None?
    ensures Run(Start(g), WorkerSteps(3)) == Working(g, EtcdRemove([0]), g.etcd)
  {
    FirstListed(n);
    WorkerStarts(g);
    NextCall(g, 0, RepairPod, g.etcd, RepairPvc, g.etcd);
    NextCall(g, 1, RepairPvc, g.etcd, EtcdList, g.etcd);
    NextCall(g, 2, EtcdList, g.etcd, EtcdRemove([0]), g.etcd);
  }

  lemma Added(g: World, n: nat) returns (etcd: Membership)
    requires n > 0 && |g.slots| > 0 && g.etcd == Bootstrap(n)
    requires g.slots[0].member.spec.broken && g.slots[0].pod.None? && g.slots[0].pvc.None?
    ensures Run(Start(g), WorkerSteps(5)) == Working(g, SetRecreating, etcd)
    ensures Nameless(etcd.entries, 0)
  {
    FirstListed(n);
    Listed(g, n);
    var removed := g.etcd.(entries := Without(g.etcd.entries, 0));
    etcd := Add(removed, 0);
    assert etcd.entries[|removed.entries|] == Entry(removed.nextId, None, 0);
    NextCall(g, 3, EtcdRemove([0]), g.etcd, EtcdAdd, removed);
    NextCall(g, 4, EtcdAdd, removed, SetRecreating, etcd);
  }

  /** The acts after which the first member has been marked and nothing is left of its old life. */
  function BreakFirst(n: nat): seq<Act> {
    (BringUp(n) + FailFirst()) + (Mark() + TearDown())
  }

  lemma FirstBroken(w: World) returns (g: World)
    requires Fresh(w) && w.cluster.spec.size >= 3
    ensures g == RunActs(w, BreakFirst(Count(w.cluster.spec.size)))
    ensures |g.slots| == Count(w.cluster.spec.size) && g.etcd == Bootstrap(Count(w.cluster.spec.size))
    ensures var s := g.slots[0];
            s.member.spec.broken && s.member.status.phase == Failed && s.pod.None? && s.pvc.None? && s.Issued()
  {
    var n := Count(w.cluster.spec.size);
    forall k | 0 <= k < n
      ensures UpWorld(w, n).slots[k] == UpSlot(GetMember(w.cluster, k), w.now)
    {
      UpIsQuiet(w, n, k);
    }
    FailsFirst(w);
    g := FirstGone(FirstDown(w));
    ActsAppend(w, BringUp(n) + FailFirst(), Mark() + TearDown());
  }

  /** Every newly admitted cluster of three members or more can come to the point after the add. */
  lemma AddReached(w: World) returns (steps: seq<Step>, g: World, etcd: Membership)
    requires Fresh(w) && w.cluster.spec.size >= 3
    ensures |g.slots| == Count(w.cluster.spec.size) && Run(Start(w), steps) == Working(g, SetRecreating, etcd)
    ensures Nameless(etcd.entries, 0)
    ensures var s := g.slots[0];
            s.member.spec.broken && s.member.status.phase == Failed && s.pod.None? && s.pvc.None? && s.Issued()
  {
    var n := Count(w.cluster.spec.size);
    g := FirstBroken(w);
    var first := AtomicIsInterleaved(w, BreakFirst(n));
    etcd := Added(g, n);
    RunAppend(Start(w), first, WorkerSteps(5));
    steps := first + WorkerSteps(5);
  }

  /** There the worker can be lost. LostRepairs.NeverFinished then holds from here on. */
  lemma LostAfterAdd(w: World) returns (steps: seq<Step>)
    requires Fresh(w) && w.cluster.spec.size >= 3
    ensures var s := Run(Start(w), steps);
            AddedOnly(s, 0) && |s.procs| > 0 && s.procs[0].Idle?
    ensures Inv(Run(Start(w), steps), w.cluster.spec.size)
  {
    var before, g, etcd := AddReached(w);
    steps := before + [MemberCrash(0)];
    StepAfter(Start(w), before, MemberCrash(0));
    StartInv(w);
    RunInv(Start(w), steps, w.cluster.spec.size);
  }

  /** Or its next call, the status write, can fail without a conflict, and a pod without a volume is made. */
  lemma LosesStatusWrite(w: World) returns (steps: seq<Step>)
    requires Fresh(w) && w.cluster.spec.size >= 3
    ensures var s := Run(Start(w), steps);
            && |s.procs| == |s.w.slots| && |s.procs| > 0
            && s.procs[0].Busy? && s.procs[0].pc.SetRecreating?
            && var r := StatusWriteLost(View(s.procs[0].mem, s.w.slots[0], s.w.etcd), s.w.now);
               r.pod.Some? && r.pvc.None? && r.pod.value.state == New
  {
    var g: World, etcd: Membership;
    steps, g, etcd := AddReached(w);
    StartInv(w);
    RunInv(Start(w), steps, w.cluster.spec.size);
    var s := Run(Start(w), steps);
    assert SlotOk(s.w.slots[0]) && ProcOk(s.w.slots[0], s.procs[0]);
    LostStatusWrite(View(s.procs[0].mem, s.w.slots[0], s.w.etcd), s.w.now);
  }

  // ----- a pod of a version that is not promised

  /** All members are up at another version than the one the cluster asks for. */
  ghost predicate Outdated(x: World, v: string) {
    && x.cluster.spec.version == v != x.cluster.status.version && |x.slots| == Count(x.cluster.spec.size) > 0
    && (forall k :: 0 <= k < |x.slots| ==> Quiet(x.slots[k], x.now) && x.slots[k].member.spec.version != v)
    && AllTrue(x.slots)
  }

  lemma ComesUpOutdated(w: World, v: string) returns (x: World)
    requires Fresh(w) && w.cluster.spec.size > 0 && v != w.cluster.spec.version
    ensures x == RunActs(w, BringUp(Count(w.cluster.spec.size)) + [EnvAct(UserEdit(w.cluster.spec.(version := v)))])
    ensures Outdated(x, v)
  {
    var n := Count(w.cluster.spec.size);
    var edit := UserEdit(w.cluster.spec.(version := v));
    ComesUp(w, n);
    LastAct(w, BringUp(n), EnvAct(edit));
    x := Edited(UpWorld(w, n), w.cluster.spec.(version := v));
    forall k | 0 <= k < n
      ensures Quiet(UpWorld(w, n).slots[k], w.now) && UpWorld(w, n).slots[k] == UpSlot(GetMember(w.cluster, k), w.now)
    {
      UpIsQuiet(w, n, k);
    }
  }

  lemma AllQuiet(x: World)
    requires |x.slots| == Count(x.cluster.spec.size) && forall k :: 0 <= k < |x.slots| ==> Quiet(x.slots[k], x.now)
    ensures Assess(Opened(x.cluster), Members(x.slots)).status
            == ClusterStatus(ClusterRunning, x.cluster.status.version, false)
  {
    NoneCounted(Members(x.slots));
  }

  lemma TellsFirst(x: World, v: string)
    requires Outdated(x, v)
    ensures ReconcileCluster(x, true).slots == x.slots[0 := BumpVersion(x.slots[0], v)]
    ensures ReconcileCluster(x, true).etcd == x.etcd && ReconcileCluster(x, true).now == x.now
  {
    EnsureAll(Opened(x.cluster), x.slots);
    assert x.slots[..Count(x.cluster.spec.size)] == x.slots;
    AllQuiet(x);
  }

  /** Bumped, and the old pod gone. */
  function ToldSlot(s: Slot, v: string): Slot {
    BumpVersion(s, v).(pod := None)
  }

  lemma FirstReplaced(x: World, v: string) returns (g: World)
    requires Outdated(x, v)
    ensures g == RunActs(x, [ClusterAct(true)] + [MemberAct(0), EnvAct(PodGone(0))])
    ensures g == World(g.cluster, x.slots[0 := ToldSlot(x.slots[0], v)], x.etcd, x.now)
  {
    TellsFirst(x, v);
    var told := ReconcileCluster(x, true);
    var s := told.slots[0];
    ActsFromFirst(x, ClusterAct(true), [MemberAct(0), EnvAct(PodGone(0))]);
    TwoActs(told, MemberAct(0), EnvAct(PodGone(0)));
    assert With(told, 0, s) == told;
    var going := s.(pod := Some(s.pod.value.(terminating := true)));
    MemberSets(told, 0, s, going);
    EnvSets(told, PodGone(0), going);
    g := With(told, 0, s.(pod := None));
  }

  predicate Told(s: Slot) {
    s.member.status.phase == Running && s.member.spec.version != s.member.status.version && !s.member.spec.broken
    && s.Issued() && s.pod.None?
  }

  /** From the start of its reconcile to the call that makes the new pod. */
  lemma ReplacementDue(g: World)
    requires |g.slots| > 0 && Told(g.slots[0])
    ensures Run(Start(g), WorkerSteps(4))
            == Sys(g, ClusterIdle, Start(g).procs[0 := Busy(CheckPod, WithPhase(g.slots[0].member, Updating))])
  {
    WorkerStarts(g);
    NextCall(g, 0, Certificates, g.etcd, Expiry, g.etcd);
    NextCall(g, 1, Expiry, g.etcd, Claim, g.etcd);
    NextCall(g, 2, Claim, g.etcd, ReplacePod, g.etcd);
    LastCall(g);
    StepAfter(Start(g), WorkerSteps(3), MemberCall(0));
  }

  lemma LastCall(g: World)
    requires |g.slots| > 0 && Told(g.slots[0])
    ensures Apply(Working(g, ReplacePod, g.etcd), MemberCall(0))
            == Sys(g, ClusterIdle, Start(g).procs[0 := Busy(CheckPod, WithPhase(g.slots[0].member, Updating))])
  {
    var m := g.slots[0].member;
    assert g.slots[0 := g.slots[0]] == g.slots;
    assert Start(g).procs[0 := Busy(ReplacePod, m)][0 := Busy(CheckPod, WithPhase(m, Updating))]
        == Start(g).procs[0 := Busy(CheckPod, WithPhase(m, Updating))];
  }

  function TellAndReplace(n: nat, spec: ClusterSpec): seq<Act> {
    (BringUp(n) + [EnvAct(UserEdit(spec))]) + ([ClusterAct(true)] + [MemberAct(0), EnvAct(PodGone(0))])
  }

  lemma ToldReached(w: World, v: string) returns (g: World)
    requires Fresh(w) && w.cluster.spec.size > 0 && v != w.cluster.spec.version
    ensures g == RunActs(w, TellAndReplace(Count(w.cluster.spec.size), w.cluster.spec.(version := v)))
    ensures |g.slots| > 0 && Told(g.slots[0]) && TrueVersion(g.slots[0])
  {
    var x := ComesUpOutdated(w, v);
    g := FirstReplaced(x, v);
    ActsAppend(w, BringUp(Count(w.cluster.spec.size)) + [EnvAct(UserEdit(w.cluster.spec.(version := v)))],
               [ClusterAct(true)] + [MemberAct(0), EnvAct(PodGone(0))]);
  }

  /** Every newly admitted cluster can come to the first of the two calls: the pod of an updated member is made
      before the status write that announces the update. If the worker is lost right after it the pod runs a
      version that is not reported until the next reconcile replaces the pod. */
  lemma MakesBeforeReport(w: World, v: string) returns (steps: seq<Step>)
    requires Fresh(w) && w.cluster.spec.size > 0 && v != w.cluster.spec.version
    ensures var s := Run(Start(w), steps);
            && |s.w.slots| > 0 && TrueVersion(s.w.slots[0]) && BreaksImage(s, MemberCall(0), 0)
  {
    var g := ToldReached(w, v);
    var first := AtomicIsInterleaved(w, TellAndReplace(Count(w.cluster.spec.size), w.cluster.spec.(version := v)));
    RunAppend(Start(w), first, WorkerSteps(4));
    steps := first + WorkerSteps(4);
    ReplacementDue(g);
  }

  // ----- the other of the two calls

  /** Reading members that are all there. */
  lemma {:induction false} ReadsAll(s: Sys, c: Cluster, j: nat) returns (steps: seq<Step>)
    requires |s.w.slots| == Count(c.spec.size) && j <= |s.w.slots|
    requires s.cluster == EnsureNext(c, Members(s.w.slots[..j]), s.w.now)
    ensures Run(s, steps) == s.(cluster := EnsureNext(c, Members(s.w.slots), s.w.now))
    decreases |s.w.slots| - j
  {
    if j == |s.w.slots| {
      assert s.w.slots[..j] == s.w.slots;
      steps := [];
    } else {
      PresentEnsured(s, c, j);
      PrefixMembers(s.w.slots, j);
      RunOne(s, ClusterCall);
      var rest := ReadsAll(ClusterCalled(s), c, j + 1);
      RunAppend(s, [ClusterCall], rest);
      steps := [ClusterCall] + rest;
    }
  }

  /** The cluster controller has found all members serving and is about to read the first in its loop. */
  lemma LoopReached(x: World, v: string) returns (steps: seq<Step>, c: Cluster)
    requires Outdated(x, v)
    ensures Run(Start(x), steps) == Start(x).(cluster := UpdatePass(c, 0)) && c.spec == x.cluster.spec
  {
    var begun := Apply(Start(x), ClusterStart(true));
    RunOne(Start(x), ClusterStart(true));
    var c0 := Opened(x.cluster);
    assert x.slots[..0] == [] && Members([]) == [];
    var rest := ReadsAll(begun, c0, 0);
    AllQuiet(x);
    c := Assess(c0, Members(x.slots));
    RunAppend(Start(x), [ClusterStart(true)], rest);
    steps := [ClusterStart(true)] + rest;
  }

  /** Meanwhile the first member fails, in one whole reconcile. */
  lemma FailsMeanwhile(s: Sys) returns (steps: seq<Step>)
    requires |s.w.slots| > 0 && |s.procs| > 0 && s.procs[0].Idle? && Quiet(s.w.slots[0], s.w.now)
    ensures Run(s, steps) == s.(w := With(s.w, 0, FailedSlot(s.w.slots[0], s.w.now)))
  {
    var down := Apply(s, Environment(PodReports(0, [false])));
    RunOne(s, Environment(PodReports(0, [false])));
    var rest := MemberAlone(down, 0);
    FailedStage(s.w.slots[0], s.w.etcd, s.w.now);
    assert s.w.slots[0 := WithReports(s.w.slots[0], [false])][0 := FailedSlot(s.w.slots[0], s.w.now)]
        == s.w.slots[0 := FailedSlot(s.w.slots[0], s.w.now)];
    RunAppend(s, [Environment(PodReports(0, [false]))], rest);
    steps := [Environment(PodReports(0, [false]))] + rest;
  }

  /** The first member has failed since the pass, and the loop is about to tell it about the version. */
  function TellsFailed(x: World, c: Cluster): Sys
    requires |x.slots| > 0
  {
    var failed := FailedSlot(x.slots[0], x.now);
    Sys(With(x, 0, failed), VersionWrite(WithClusterPhase(c, ClusterUpdating), 0, failed.member), Start(x).procs)
  }

  lemma FailedRead(x: World, v: string) returns (steps: seq<Step>, c: Cluster)
    requires Outdated(x, v)
    ensures Run(Start(x), steps) == TellsFailed(x, c) && c.spec == x.cluster.spec
  {
    var loop: seq<Step>;
    loop, c := LoopReached(x, v);
    var s := Start(x).(cluster := UpdatePass(c, 0));
    var fails := FailsMeanwhile(s);
    RunAppend(Start(x), loop, fails);
    var failed := s.(w := With(s.w, 0, FailedSlot(s.w.slots[0], s.w.now)));
    PresentEnsured(failed, c, 0);
    StepAfter(Start(x), loop + fails, ClusterCall);
    steps := (loop + fails) + [ClusterCall];
  }

  /** Every newly admitted cluster can come to the second of the two calls, with no worker lost. */
  lemma BumpsAfterFailure(w: World, v: string) returns (steps: seq<Step>, x: World, c: Cluster)
    requires Fresh(w) && w.cluster.spec.size > 0 && v != w.cluster.spec.version
    ensures Outdated(x, v) && c.spec == x.cluster.spec && Run(Start(w), steps) == TellsFailed(x, c)
    ensures var s := Run(Start(w), steps);
            |s.w.slots| > 0 && TrueVersion(s.w.slots[0]) && BreaksImage(s, ClusterCall, 0)
  {
    x := ComesUpOutdated(w, v);
    var edit := EnvAct(UserEdit(w.cluster.spec.(version := v)));
    var first := AtomicIsInterleaved(w, BringUp(Count(w.cluster.spec.size)) + [edit]);
    var rest: seq<Step>;
    rest, c := FailedRead(x, v);
    RunAppend(Start(w), first, rest);
    steps := first + rest;
    assert TrueVersion(x.slots[0]) && Quiet(x.slots[0], x.now);
  }

  /** The write is made, the pod is ready again, and the member's next reconcile runs undisturbed. */
  lemma ReadyAgain(s: Sys, v: string) returns (steps: seq<Step>)
    requires |s.w.slots| > 0 && |s.procs| > 0 && s.procs[0].Idle?
    requires var slot := s.w.slots[0];
             slot.member.status.phase == Failed && !slot.member.spec.broken && slot.Issued() && slot.pod.Some?
             && slot.pod.value.containers == 1 && slot.member.spec.version == v
    ensures var t := Run(s, steps);
            |t.w.slots| == |s.w.slots| && t.w.slots[0].pod.Some?
            && t.w.slots[0].pod.value.version == s.w.slots[0].pod.value.version
            && t.w.slots[0].member.status.phase == Running && AtVersion(t.w.slots[0].member, v)
  {
    var up := Apply(s, Environment(PodReports(0, [true])));
    RunOne(s, Environment(PodReports(0, [true])));
    assert up.w.slots[0].pod.value.Ready();
    WrongImageReported(0, up.w.slots[0], up.w.etcd, up.w.now);
    var rest := MemberAlone(up, 0);
    RunAppend(s, [Environment(PodReports(0, [true]))], rest);
    steps := [Environment(PodReports(0, [true]))] + rest;
  }

  /** And goes on to a member that is Running, asks for v, reports v, and runs the old image. */
  lemma WrongImageReached(w: World, v: string) returns (steps: seq<Step>)
    requires Fresh(w) && w.cluster.spec.size > 0 && v != w.cluster.spec.version
    ensures var slots := Run(Start(w), steps).w.slots;
            && |slots| > 0 && slots[0].member.status.phase == Running && AtVersion(slots[0].member, v)
            && slots[0].pod.Some? && slots[0].pod.value.version != v
  {
    var before, x, c := BumpsAfterFailure(w, v);
    var s := ClusterCalled(TellsFailed(x, c));
    assert Quiet(x.slots[0], x.now) && TrueVersion(x.slots[0]);
    StepAfter(Start(w), before, ClusterCall);
    var rest := ReadyAgain(s, v);
    RunAppend(Start(w), before + [ClusterCall], rest);
    steps := (before + [ClusterCall]) + rest;
  }

  // ----- two certificate requests

  function RenewTwo(): seq<Act> {
    [EnvAct(Tick(1)), EnvAct(CertIssued(0, true))] + [EnvAct(CertIssued(1, true))]
  }

  /** The peer certificates of the first two members, and no others, are renewed. */
  predicate OnlyTwoRenewed(slots: seq<Slot>) {
    |slots| > 1 && (forall k :: 0 <= k < |slots| ==> !ClientNewer(slots[k]) && (PeerNewer(slots[k]) <==> k < 2))
  }

  /** Every newly admitted cluster of three members or more can come to rest with two renewals that nobody has
      noticed, from where by Requests.OneAtATimeExactly two requests can be pending at once. */
  lemma OverlapReached(w: World) returns (x: World)
    requires Fresh(w) && w.cluster.spec.size >= 3
    ensures x == RunActs(w, BringUp(Count(w.cluster.spec.size)) + RenewTwo())
    ensures Inv(Start(x), w.cluster.spec.size) && AllHealthy(x) && Overlapping(x.slots, 0, 1)
    ensures OnlyTwoRenewed(x.slots) && x.cluster.spec == w.cluster.spec
  {
    var n := Count(w.cluster.spec.size);
    ComesUp(w, n);
    var up := UpWorld(w, n);
    ActsAppend(w, BringUp(n), RenewTwo());
    x := Renewed(w, up);
    var steps := AtomicIsInterleaved(w, BringUp(n) + RenewTwo());
    StartInv(w);
    RunInv(Start(w), steps, w.cluster.spec.size);
  }

  lemma BothNotice(w: World) returns (x: World)
    requires AllHealthy(w) && OnlyTwoRenewed(w.slots)
    ensures x == RunActs(w, [MemberAct(0), MemberAct(1)])
    ensures x == With(With(w, 0, Flagged(w.slots[0], true)), 1, Flagged(w.slots[1], true))
  {
    var v := w.cluster.spec.version;
    FullCheck(0, w.slots[0], w.etcd, v, w.now);
    FullCheck(1, w.slots[1], w.etcd, v, w.now);
    TwoActs(w, MemberAct(0), MemberAct(1));
    var one := With(w, 0, Flagged(w.slots[0], true));
    assert With(w, 0, w.slots[0]) == w && With(one, 1, w.slots[1]) == one;
    MemberSets(w, 0, w.slots[0], Flagged(w.slots[0], true));
    MemberSets(one, 1, w.slots[1], Flagged(w.slots[1], true));
    x := With(one, 1, Flagged(w.slots[1], true));
  }

  /** And to one in which both have been noticed, but are of one certificate only. */
  lemma NoticedOverlapReached(w: World) returns (x: World)
    requires Fresh(w) && w.cluster.spec.size >= 3
    ensures x == RunActs(w, (BringUp(Count(w.cluster.spec.size)) + RenewTwo()) + [MemberAct(0), MemberAct(1)])
    ensures AllHealthy(x) && Overlapping(x.slots, 0, 1)
    ensures forall k :: 0 <= k < |x.slots| && Expired(x.slots[k]) ==> x.slots[k].member.status.certificateExpires
  {
    hide RunActs, ApplyAct;
    var renewed := OverlapReached(w);
    x := BothNotice(renewed);
    ActsAppend(w, BringUp(Count(w.cluster.spec.size)) + RenewTwo(), [MemberAct(0), MemberAct(1)]);
  }

  lemma Renewed(w: World, up: World) returns (x: World)
    requires Fresh(w) && w.cluster.spec.size >= 3 && up == UpWorld(w, Count(w.cluster.spec.size))
    ensures x == RunActs(up, RenewTwo())
    ensures AllHealthy(x) && Overlapping(x.slots, 0, 1)
    ensures OnlyTwoRenewed(x.slots) && x.cluster.spec == w.cluster.spec
  {
    var n := Count(w.cluster.spec.size);
    forall k | 0 <= k < n
      ensures Quiet(up.slots[k], w.now) && up.slots[k] == UpSlot(GetMember(w.cluster, k), w.now)
    {
      UpIsQuiet(w, n, k);
    }
    TwoActs(up, EnvAct(Tick(1)), EnvAct(CertIssued(0, true)));
    LastAct(up, [EnvAct(Tick(1)), EnvAct(CertIssued(0, true))], EnvAct(CertIssued(1, true)));
    x := RunActs(up, RenewTwo());
  }
}
