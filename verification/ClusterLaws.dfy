/** What one reconcile of the cluster does, said of the stored members alone: which members it creates, which
    phase, version and flag it stores, whom it marks broken, and whom it tells about a version or asks for a
    new certificate. */

module ClusterLaws {
  import opened Wrappers
  import opened Api
  import opened Objects
  import opened Topology
  import opened ClusterController
  import opened AtomicRuns

  // ----- members in words of their own

  predicate IsNew(m: Member) {
    m.status.phase in {NoPhase, Creating, Recreating}
  }

  predicate HasFailed(m: Member) {
    m.status.phase == Failed
  }

  predicate Serves(m: Member) {
    m.status.phase in {Running, Updating}
  }

  predicate SomeoneFailed(ms: seq<Member>) {
    exists k :: 0 <= k < |ms| && HasFailed(ms[k])
  }

  predicate SomeoneNew(ms: seq<Member>) {
    exists k :: 0 <= k < |ms| && IsNew(ms[k])
  }

  predicate AllServe(ms: seq<Member>) {
    forall k :: 0 <= k < |ms| ==> Serves(ms[k])
  }

  predicate SomeFlag(ms: seq<Member>) {
    exists k :: 0 <= k < |ms| && (ms[k].status.certificateExpires || ms[k].spec.certificateUpdate)
  }

  /** How many serve. */
  function Servers(ms: seq<Member>): set<nat> {
    set k: nat | k < |ms| && Serves(ms[k])
  }

  lemma {:induction false} ServersCounted(ms: seq<Member>)
    ensures |Servers(ms)| == CountServing(ms)
  {
    if ms != [] {
      var before, last := ms[..|ms| - 1], |ms| - 1;
      ServersCounted(before);
      assert Servers(ms) == if Serves(ms[last]) then Servers(before) + {last} else Servers(before);
    }
  }

  predicate Majority(ms: seq<Member>) {
    |Servers(ms)| * 2 > |ms|
  }

  // ----- the phase

  lemma PhaseFound(c: Cluster, ms: seq<Member>)
    requires |ms| == Count(c.spec.size)
    ensures Assess(c, ms).status.phase
            == if AllServe(ms) then ClusterRunning
               else if !SomeoneFailed(ms) then ClusterCreating
               else if Majority(ms) then ClusterMinorFailure
               else ClusterFailed
    ensures Assess(c, ms).status.certificateExpires == SomeFlag(ms)
    ensures Assess(c, ms).status.version == c.status.version && Assess(c, ms).spec == c.spec
    ensures Assess(c, ms).resourceVersion == c.resourceVersion
  {
    PhaseMeans(c, ms);
    ServersCounted(ms);
    assert SomeoneNew(ms) <==> exists k :: 0 <= k < |ms| && ms[k].IsCreating();
  }

  /** What a reconcile finds: the stored members, and a new one for every ordinal that is missing. */
  function Found(w: World): (ms: seq<Member>) {
    Members(Present(w)[..Count(w.cluster.spec.size)])
  }

  /** A missing member is created with the cluster's version, backup, name and uid, the names of all members, no
      marks and no status; what is there is left alone. */
  lemma CreatesMissing(w: World, k: nat)
    ensures |Present(w)| == if |w.slots| < Count(w.cluster.spec.size) then Count(w.cluster.spec.size) else |w.slots|
    ensures k < |w.slots| ==> Present(w)[k] == w.slots[k]
    ensures |w.slots| <= k < |Present(w)| ==>
      var c := w.cluster;
      var names := seq(Count(c.spec.size), j requires 0 <= j => c.name + "-" + Itoa(j));
      var spec := MemberSpec(c.spec.version, c.spec.backup, c.name, c.uid, names, false, false);
      Present(w)[k] == Slot(Member(c.name + "-" + Itoa(k), c.namespace, 1, spec, MemberStatus("", NoPhase, 0, false)),
                            None, None, None, None)
  {
    if k < |Present(w)| {
      PresentAt(w, k);
      var c := w.cluster;
      assert MemberNames(c.name, Count(c.spec.size))
          == seq(Count(c.spec.size), j requires 0 <= j => c.name + "-" + Itoa(j));
    }
  }

  /** The stored cluster with this status. */
  function Stored(c: Cluster, phase: ClusterPhase, version: string, flag: bool): Cluster {
    if c.status == ClusterStatus(phase, version, flag) then c
    else Cluster(c.name, c.namespace, c.uid, c.resourceVersion + 1, c.spec, ClusterStatus(phase, version, flag))
  }

  /** Before the members can be dealt with only the first phase is stored. */
  lemma Unprepared(w: World)
    ensures ReconcileCluster(w, false)
            == w.(cluster := if w.cluster.status.phase != NoClusterPhase then w.cluster
                             else Stored(w.cluster, ClusterCreating, w.cluster.status.version,
                                         w.cluster.status.certificateExpires))
  {
  }

  // ----- a cluster that does not serve as a whole

  /** While members are created, and when too many have failed, no existing member is touched and the version is
      reported. */
  lemma CreatingOrFailed(w: World)
    requires !AllServe(Found(w)) && (SomeoneFailed(Found(w)) ==> !Majority(Found(w)))
    ensures var phase := if SomeoneFailed(Found(w)) then ClusterFailed else ClusterCreating;
            ReconcileCluster(w, true)
            == w.(cluster := Stored(w.cluster, phase, w.cluster.spec.version, SomeFlag(Found(w))), slots := Present(w))
  {
    PhaseFound(Opened(w.cluster), Found(w));
  }

  /** k failed more than five minutes ago, before everybody else who has failed, the first on ties. */
  predicate FailedLongest(ms: seq<Member>, k: nat, now: Time) {
    k < |ms| && HasFailed(ms[k]) && ms[k].status.failedTime + 300 < now
    && forall j :: 0 <= j < |ms| && HasFailed(ms[j]) ==>
         ms[k].status.failedTime < ms[j].status.failedTime
         || (ms[k].status.failedTime == ms[j].status.failedTime && k <= j)
  }

  predicate NobodyInTheWay(ms: seq<Member>) {
    forall k :: 0 <= k < |ms| ==> !IsNew(ms[k]) && !ms[k].spec.broken
  }

  lemma LongestIsOldest(ms: seq<Member>, now: Time, k: nat)
    ensures Oldest(ms, now - MINOR_FAILED_TIMEOUT) == Some(k) <==> FailedLongest(ms, k, now)
    ensures Oldest(ms, now - MINOR_FAILED_TIMEOUT).None? ==> !FailedLongest(ms, k, now)
  {
    OldestIsLongestFailed(ms, now - MINOR_FAILED_TIMEOUT);
    if FailedLongest(ms, k, now) {
      assert IsLongestFailed(ms, now - MINOR_FAILED_TIMEOUT, k);
    }
  }

  /** The slot with this spec stored. */
  function Told(s: Slot, spec: MemberSpec): Slot {
    if s.member.spec == spec then s
    else s.(member := Member(s.member.name, s.member.namespace, s.member.resourceVersion + 1, spec, s.member.status))
  }

  lemma FewHaveFailed(ms: seq<Member>)
    requires Majority(ms)
    ensures CountFailed(ms) * 2 <= |ms|
  {
    ServersCounted(ms);
    EveryoneCounted(ms);
  }

  lemma RepairsOne(slots: seq<Slot>, size: int, now: Time, k: nat)
    requires Count(size) <= |slots|
    requires var ms := Members(slots[..Count(size)]);
             Majority(ms) && NobodyInTheWay(ms) && FailedLongest(ms, k, now)
    ensures RepairMembers(slots, size, now)
            == (slots[k := Told(slots[k], slots[k].member.spec.(broken := true))], false)
  {
    var ms := Members(slots[..Count(size)]);
    LongestIsOldest(ms, now, k);
    FewHaveFailed(ms);
    assert forall j :: 0 <= j < |ms| ==> !Blocks(ms[j]);
  }

  /** When those that serve are a minority nobody is marked, and the reconcile goes on. */
  lemma RepairsNoMinority(slots: seq<Slot>, size: int, now: Time, k: nat)
    requires Count(size) <= |slots|
    requires var ms := Members(slots[..Count(size)]);
             |Servers(ms)| * 2 < |ms| && NobodyInTheWay(ms) && FailedLongest(ms, k, now)
    ensures RepairMembers(slots, size, now) == (slots, false)
  {
    var ms := Members(slots[..Count(size)]);
    LongestIsOldest(ms, now, k);
    ServersCounted(ms);
    EveryoneCounted(ms);
    NoneCreating(ms);
    assert forall j :: 0 <= j < |ms| ==> !Blocks(ms[j]);
  }

  lemma RepairsNobody(slots: seq<Slot>, size: int, now: Time)
    requires Count(size) <= |slots|
    requires var ms := Members(slots[..Count(size)]);
             NobodyInTheWay(ms) ==> forall k: nat :: !FailedLongest(ms, k, now)
    ensures RepairMembers(slots, size, now) == (slots, true)
  {
    var ms := Members(slots[..Count(size)]);
    var best := Oldest(ms, now - MINOR_FAILED_TIMEOUT);
    if best.Some? {
      LongestIsOldest(ms, now, best.value);
      var k :| 0 <= k < |ms| && (IsNew(ms[k]) || ms[k].spec.broken);
      assert Blocks(ms[k]);
    }
  }

  /** In a minor failure the member that failed longest is marked, and the version reported, if nobody is being
      created or repaired and the five minutes are over. */
  lemma MinorFailureRepairs(w: World, k: nat)
    requires SomeoneFailed(Found(w)) && Majority(Found(w))
    requires NobodyInTheWay(Found(w)) && FailedLongest(Found(w), k, w.now)
    ensures k < |Present(w)|
    ensures var s := Present(w)[k];
            ReconcileCluster(w, true)
            == w.(cluster := Stored(w.cluster, ClusterMinorFailure, w.cluster.spec.version, SomeFlag(Found(w))),
                  slots := Present(w)[k := Told(s, s.member.spec.(broken := true))])
  {
    PhaseFound(Opened(w.cluster), Found(w));
    RepairsOne(Present(w), w.cluster.spec.size, w.now, k);
    assert HasFailed(Found(w)[k]);
  }

  /** Otherwise it waits: nobody is marked, and nothing new is reported. */
  lemma MinorFailureWaits(w: World)
    requires SomeoneFailed(Found(w)) && Majority(Found(w))
    requires NobodyInTheWay(Found(w)) ==> forall k: nat :: !FailedLongest(Found(w), k, w.now)
    ensures ReconcileCluster(w, true)
            == w.(cluster := Stored(w.cluster, ClusterMinorFailure, w.cluster.status.version, SomeFlag(Found(w))),
                  slots := Present(w))
  {
    PhaseFound(Opened(w.cluster), Found(w));
    RepairsNobody(Present(w), w.cluster.spec.size, w.now);
    var k :| 0 <= k < |Found(w)| && HasFailed(Found(w)[k]);
    assert !Serves(Found(w)[k]);
  }

  // ----- a cluster that serves as a whole

  function WithRequest(s: Slot, request: bool): Slot {
    Told(s, s.member.spec.(certificateUpdate := request))
  }

  /** The loop goes past a member that is neither new nor Updating, has reached the version, and is not asked, or
      about to be asked, with its flag up. */
  predicate Passes(c: Cluster, m: Member) {
    !IsNew(m) && m.status.phase != Updating
    && m.spec.version == c.spec.version && m.status.version == c.spec.version
    && !(m.status.certificateExpires && (c.status.certificateExpires || m.spec.certificateUpdate))
  }

  /** What becomes of the first member that it does not go past: a new or Updating one is waited for, one that asks for
      another version is told, one with its flag up is asked for a new certificate, and one that has not reached
      the version yet is waited for. */
  function FirstTold(c: Cluster, s: Slot): Slot {
    if IsNew(s.member) || s.member.status.phase == Updating then s
    else if s.member.spec.version != c.spec.version then Told(s, s.member.spec.(version := c.spec.version))
    else if c.status.certificateExpires || s.member.spec.certificateUpdate then
      WithRequest(s, s.member.status.certificateExpires)
    else s
  }

  /** Whether that member is told or asked anything. */
  predicate TellsFirst(c: Cluster, m: Member) {
    !IsNew(m) && m.status.phase != Updating
    && (m.spec.version != c.spec.version
        || (m.status.certificateExpires && (c.status.certificateExpires || m.spec.certificateUpdate)))
  }

  lemma PassStep(c: Cluster, slots: seq<Slot>, lo: nat)
    requires lo < Count(c.spec.size) <= |slots| && Passes(c, slots[lo].member)
    ensures UpdateFrom(c, slots, lo) == UpdateFrom(c, slots[lo := WithRequest(slots[lo], false)], lo + 1)
  {
    var rotated := slots[lo := WithRequest(slots[lo], false)];
    assert rotated[lo] == slots[lo] ==> rotated == slots;
    assert !slots[lo].member.status.certificateExpires ==> Rotate(slots[lo]) == rotated[lo];
  }

  lemma StopStep(c: Cluster, slots: seq<Slot>, i: nat)
    requires i < Count(c.spec.size) <= |slots| && !Passes(c, slots[i].member)
    ensures UpdateFrom(c, slots, i)
            == Rollout(if TellsFirst(c, slots[i].member) then WithClusterPhase(c, ClusterUpdating) else c,
                       slots[i := FirstTold(c, slots[i])], true)
  {
    assert slots[i := slots[i]] == slots;
  }

  /** The loop over the members from lo takes back the requests of those it goes past, and stops at the first that it
      does not go past. */
  lemma {:induction false} LoopStops(c: Cluster, slots: seq<Slot>, lo: nat, i: nat)
    requires lo <= i < Count(c.spec.size) <= |slots|
    requires forall k :: lo <= k < i ==> Passes(c, slots[k].member)
    requires !Passes(c, slots[i].member)
    ensures var r := UpdateFrom(c, slots, lo);
            && r.stop && |r.slots| == |slots|
            && r.cluster == (if TellsFirst(c, slots[i].member) then WithClusterPhase(c, ClusterUpdating) else c)
            && forall j :: 0 <= j < |slots| ==>
                 r.slots[j] == if lo <= j < i then WithRequest(slots[j], false)
                               else if j == i then FirstTold(c, slots[i]) else slots[j]
    decreases i - lo
  {
    if lo < i {
      PassStep(c, slots, lo);
      LoopStops(c, slots[lo := WithRequest(slots[lo], false)], lo + 1, i);
    } else {
      StopStep(c, slots, i);
    }
  }

  /** Or it goes past all of them. */
  lemma {:induction false} LoopRunsOut(c: Cluster, slots: seq<Slot>, lo: nat)
    requires lo <= Count(c.spec.size) <= |slots|
    requires forall k :: lo <= k < Count(c.spec.size) ==> Passes(c, slots[k].member)
    ensures var r := UpdateFrom(c, slots, lo);
            && !r.stop && |r.slots| == |slots|
            && r.cluster == c.(status := ClusterStatus(ClusterRunning, c.status.version, false))
            && forall j :: 0 <= j < |slots| ==>
                 r.slots[j] == if lo <= j < Count(c.spec.size) then WithRequest(slots[j], false) else slots[j]
    decreases Count(c.spec.size) - lo
  {
    if lo < Count(c.spec.size) {
      PassStep(c, slots, lo);
      LoopRunsOut(c, slots[lo := WithRequest(slots[lo], false)], lo + 1);
    }
  }

  lemma MissingIsNew(w: World)
    requires |w.slots| < Count(w.cluster.spec.size)
    ensures !AllServe(Found(w))
  {
    CreatesMissing(w, |w.slots|);
    assert Found(w)[|w.slots|].status.phase == NoPhase;
  }

  lemma AllPresent(w: World)
    requires AllServe(Found(w))
    ensures Present(w) == w.slots && |w.slots| >= Count(w.cluster.spec.size)
    ensures Found(w) == Members(w.slots[..Count(w.cluster.spec.size)])
  {
    var n := Count(w.cluster.spec.size);
    CreatesMissing(w, |w.slots|);
    if |w.slots| < n {
      MissingIsNew(w);
    }
    forall k | 0 <= k < |w.slots|
      ensures Present(w)[k] == w.slots[k]
    {
      CreatesMissing(w, k);
    }
  }

  lemma LoopStarts(w: World)
    requires AllServe(Found(w))
    ensures Assessed(w).status == ClusterStatus(ClusterRunning, w.cluster.status.version, SomeFlag(Found(w)))
    ensures Assessed(w).spec == w.cluster.spec && Assessed(w).resourceVersion == w.cluster.resourceVersion
    ensures Present(w) == w.slots && |Found(w)| == Count(w.cluster.spec.size) <= |w.slots|
    ensures forall k :: 0 <= k < |Found(w)| ==>
              w.slots[k].member == Found(w)[k]
              && (Passes(Assessed(w), Found(w)[k]) <==> ReachedVersion(Found(w)[k], w.cluster.spec.version))
  {
    AllPresent(w);
    PhaseFound(Opened(w.cluster), Found(w));
    forall k | 0 <= k < |Found(w)|
      ensures w.slots[k].member == Found(w)[k] && Serves(Found(w)[k])
      ensures Found(w)[k].status.certificateExpires ==> SomeFlag(Found(w))
    {
    }
  }

  /** Nothing to report and no certificate business: nothing happens. */
  lemma NothingToDo(w: World)
    requires AllServe(Found(w)) && w.cluster.status.version == w.cluster.spec.version && !SomeFlag(Found(w))
    ensures ReconcileCluster(w, true)
            == w.(cluster := Stored(w.cluster, ClusterRunning, w.cluster.spec.version, false))
  {
    LoopStarts(w);
  }

  /** Everybody is Running at the version with the flag down: all requests are taken back and the version reported. */
  lemma AllReached(w: World)
    requires AllServe(Found(w))
    requires forall k :: 0 <= k < |Found(w)| ==> ReachedVersion(Found(w)[k], w.cluster.spec.version)
    ensures var t := ReconcileCluster(w, true);
            && t == w.(cluster := Stored(w.cluster, ClusterRunning, w.cluster.spec.version, false), slots := t.slots)
            && |t.slots| == |w.slots|
            && forall j :: 0 <= j < |w.slots| ==>
                 t.slots[j] == if j < Count(w.cluster.spec.size) then WithRequest(w.slots[j], false) else w.slots[j]
  {
    LoopStarts(w);
    forall k | 0 <= k < |Found(w)|
      ensures Passes(Assessed(w), w.slots[k].member)
      ensures !SomeFlag(Found(w)) ==> WithRequest(w.slots[k], false) == w.slots[k]
    {
      assert Found(w)[k] == w.slots[k].member;
    }
    LoopRunsOut(Assessed(w), w.slots, 0);
  }

  /** Otherwise the first member that has not got there is told, asked or waited for, those below it have their requests
      taken back, nobody above it is touched, and no version is reported. */
  lemma FirstNotReached(w: World, i: nat)
    requires AllServe(Found(w)) && i < |Found(w)|
    requires w.cluster.status.version != w.cluster.spec.version || SomeFlag(Found(w))
    requires forall k :: 0 <= k < i ==> ReachedVersion(Found(w)[k], w.cluster.spec.version)
    requires !ReachedVersion(Found(w)[i], w.cluster.spec.version)
    ensures i < |w.slots|
    ensures var t := ReconcileCluster(w, true);
            var v, flag, m := w.cluster.spec.version, SomeFlag(Found(w)), w.slots[i].member;
            var asked := m.status.phase == Running && (m.spec.version != v || m.status.certificateExpires);
            && t.cluster == Stored(w.cluster, if asked then ClusterUpdating else ClusterRunning,
                                   w.cluster.status.version, flag)
            && t.etcd == w.etcd && t.now == w.now && |t.slots| == |w.slots|
            && forall j :: 0 <= j < |w.slots| ==>
                 t.slots[j] ==
                 if j < i then WithRequest(w.slots[j], false)
                 else if j > i || m.status.phase == Updating then w.slots[j]
                 else if m.spec.version != v then Told(w.slots[i], m.spec.(version := v))
                 else WithRequest(w.slots[i], m.status.certificateExpires)
  {
    LoopStarts(w);
    assert Serves(Found(w)[i]);
    NoFlagNoRequest(w, i);
    LoopStops(Assessed(w), w.slots, 0, i);
  }

  lemma NoFlagNoRequest(w: World, i: nat)
    requires i < |Found(w)|
    ensures SomeFlag(Found(w)) || (!Found(w)[i].status.certificateExpires && !Found(w)[i].spec.certificateUpdate)
  {
  }
}
