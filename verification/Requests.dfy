/** When certificate requests are one at a time: the exact condition on a healthy cluster. */

module Requests {
  import opened Wrappers
  import opened Api
  import opened Etcd
  import opened Objects
  import opened MemberController
  import opened ClusterController
  import opened Interleaving
  import opened Invariant
  import opened Rotation
  import opened AtomicRuns
  import opened Uninterrupted
  import opened Startup

  // ----- what a reconcile of the cluster asks

  predicate Healthy(s: Slot, v: string) {
    s.member.status.phase == Running && s.member.spec.version == v && s.member.status.version == v
    && !s.member.spec.broken && !s.member.spec.certificateUpdate
    && s.PodReady() && s.Issued()
  }

  lemma {:induction false} LoopAsks(c: Cluster, slots: seq<Slot>, i: nat, k: nat)
    requires |slots| == Count(c.spec.size) && i <= k < |slots| && c.status.certificateExpires
    requires forall j :: i <= j <= k ==>
      slots[j].member.status.phase == Running && slots[j].member.spec.version == c.spec.version
      && slots[j].member.status.version == c.spec.version && !slots[j].member.spec.certificateUpdate
    requires forall j :: i <= j < k ==> !slots[j].member.status.certificateExpires
    requires slots[k].member.status.certificateExpires
    ensures UpdateFrom(c, slots, i).slots == slots[k := Rotate(slots[k])]
    decreases k - i
  {
    if i < k {
      assert Rotate(slots[i]) == slots[i];
      assert slots[i := slots[i]] == slots;
      LoopAsks(c, slots, i + 1, k);
    }
  }

  lemma ClusterAsks(w: World, k: nat)
    requires k < |w.slots| == Count(w.cluster.spec.size)
    requires forall j :: 0 <= j < |w.slots| ==>
      w.slots[j].member.status.phase == Running && w.slots[j].member.spec.version == w.cluster.spec.version
      && w.slots[j].member.status.version == w.cluster.spec.version
    requires forall j :: 0 <= j <= k ==> !w.slots[j].member.spec.certificateUpdate
    requires forall j :: 0 <= j < k ==> !w.slots[j].member.status.certificateExpires
    requires w.slots[k].member.status.certificateExpires
    ensures var t := ReconcileCluster(w, true);
            t.slots == w.slots[k := Rotate(w.slots[k])] && t.etcd == w.etcd && t.now == w.now
            && t.cluster.spec == w.cluster.spec
  {
    var c0 := Opened(w.cluster);
    var n := Count(c0.spec.size);
    forall j | 0 <= j < n
      ensures EnsureSlots(c0, w.slots, n)[j] == w.slots[j]
    {
      EnsureSlotsAt(c0, w.slots, n, j);
    }
    assert EnsureSlots(c0, w.slots, n) == w.slots && w.slots[..n] == w.slots;
    RunningServes(c0, w.slots);
    var ms := Members(w.slots);
    assert ms[k].status.certificateExpires;
    LoopAsks(Assess(c0, ms), w.slots, 0, k);
  }

  // ----- one check of a member's certificates

  /** No certificate is issued. */
  predicate NoIssue(steps: seq<Step>) {
    forall k :: 0 <= k < |steps| && steps[k].Environment? ==> !steps[k].e.CertIssued?
  }

  /** A run from rest to rest in which no certificate is issued. */
  predicate Leads(w: World, steps: seq<Step>, t: World) {
    Run(Start(w), steps) == Start(t) && NoIssue(steps)
  }

  lemma LeadsOn(w: World, a: seq<Step>, x: World, b: seq<Step>, t: World)
    requires Leads(w, a, x) && Leads(x, b, t)
    ensures Leads(w, a + b, t)
  {
    RunAppend(Start(w), a, b);
  }

  function Flagged(s: Slot, expires: bool): Slot {
    s.(member := PutStatus(s.member, WithExpiry(s.member, expires).status))
  }

  lemma FullCheck(i: nat, s: Slot, etcd: Membership, v: string, now: Time)
    requires Healthy(s, v)
    ensures Reconcile(i, s, etcd, now) == (Flagged(s, PeerNewer(s)), etcd)
  {
  }

  /** The three calls of a check whose last read fails: the client's certificate decides. */
  lemma HalfCheck(i: nat, s: Slot, etcd: Membership, v: string, now: Time)
    requires Healthy(s, v)
    ensures var view := View(s.member, s, etcd);
            && MemberCallAt(i, Certificates, view, now) == At(view, Expiry)
            && HalfCallAt(Expiry, view) == At(view.(mem := WithExpiry(s.member, ClientNewer(s))), FinalStatus)
            && MemberCallAt(i, FinalStatus, view.(mem := WithExpiry(s.member, ClientNewer(s))), now)
               == Moved(Idle, Flagged(s, ClientNewer(s)), etcd)
  {
  }

  lemma HalfChecked(w: World, i: nat, v: string) returns (steps: seq<Step>)
    requires i < |w.slots| && Healthy(w.slots[i], v)
    ensures Leads(w, steps, With(w, i, Flagged(w.slots[i], ClientNewer(w.slots[i]))))
  {
    var s := w.slots[i];
    var m := WithExpiry(s.member, ClientNewer(s));
    HalfCheck(i, s, w.etcd, v, w.now);
    assert w.slots[i := s] == w.slots;
    var procs := Start(w).procs;
    var a := Sys(w, ClusterIdle, procs[i := Busy(Certificates, s.member)]);
    var b := Sys(w, ClusterIdle, procs[i := Busy(Expiry, s.member)]);
    var c := Sys(w, ClusterIdle, procs[i := Busy(FinalStatus, m)]);
    assert Apply(Start(w), MemberStart(i)) == a;
    assert Apply(a, MemberCall(i)) == b;
    assert Apply(b, MemberHalf(i)) == c;
    assert Apply(c, MemberCall(i)) == Start(With(w, i, Flagged(s, ClientNewer(s))));
    steps := FourSteps(Start(w), MemberStart(i), MemberCall(i), MemberHalf(i), MemberCall(i));
  }

  lemma FourSteps(s: Sys, a: Step, b: Step, c: Step, d: Step) returns (steps: seq<Step>)
    ensures steps == [a] + [b] + [c] + [d]
    ensures Run(s, steps) == Apply(Apply(Apply(Apply(s, a), b), c), d)
  {
    RunOne(s, a);
    RunAppend(s, [a], [b]);
    RunOne(Run(s, [a]), b);
    RunAppend(s, [a] + [b], [c]);
    RunOne(Run(s, [a] + [b]), c);
    RunAppend(s, [a] + [b] + [c], [d]);
    RunOne(Run(s, [a] + [b] + [c]), d);
    steps := [a] + [b] + [c] + [d];
  }

  lemma FullyChecked(w: World, i: nat, v: string) returns (steps: seq<Step>)
    requires i < |w.slots| && Healthy(w.slots[i], v)
    ensures Leads(w, steps, With(w, i, Flagged(w.slots[i], PeerNewer(w.slots[i]))))
  {
    FullCheck(i, w.slots[i], w.etcd, v, w.now);
    steps := MemberAlone(Start(w), i);
  }

  /** What one of the two certificates says can become the flag. */
  lemma Checked(w: World, i: nat, v: string, expires: bool) returns (steps: seq<Step>)
    requires i < |w.slots| && Healthy(w.slots[i], v)
    requires ClientNewer(w.slots[i]) == expires || PeerNewer(w.slots[i]) == expires
    ensures Leads(w, steps, With(w, i, Flagged(w.slots[i], expires)))
  {
    if PeerNewer(w.slots[i]) == expires {
      steps := FullyChecked(w, i, v);
    } else {
      steps := HalfChecked(w, i, v);
    }
  }

  // ----- from every overlap to two requests

  /** All members serve at the version and no request is pending. */
  predicate AllHealthy(w: World) {
    |w.slots| == Count(w.cluster.spec.size)
    && forall k :: 0 <= k < |w.slots| ==>
         Healthy(w.slots[k], w.cluster.spec.version) && FromPast(w.slots[k], w.now)
  }

  /** A renewal that has not been noticed, or that not every check would notice again. */
  predicate Unsettled(s: Slot) {
    Expired(s) && !(s.member.status.certificateExpires && Both(s))
  }

  /** Member i has an unsettled renewal, and a higher member k has a renewal or its flag up. */
  predicate Overlapping(slots: seq<Slot>, i: nat, k: nat) {
    i < k < |slots| && Unsettled(slots[i])
    && (Expired(slots[k]) || slots[k].member.status.certificateExpires)
  }

  /** The pod vanishes and is made again, so that the certificate is older than the pod. */
  function Refresh(f: nat): seq<Act> {
    [EnvAct(PodGone(f)), MemberAct(f), EnvAct(PodReports(f, [true])), MemberAct(f)]
  }

  lemma RefreshStages(f: nat, s: Slot, etcd: Membership, v: string, now: Time) returns (down: Slot, r: Slot)
    requires Healthy(s, v) && FromPast(s, now)
    ensures Reconcile(f, s.(pod := None), etcd, now) == (down, etcd)
    ensures Reconcile(f, WithReports(down, [true]), etcd, now) == (r, etcd)
    ensures Healthy(r, v) && !r.member.status.certificateExpires && FromPast(r, now)
  {
    down := Reconcile(f, s.(pod := None), etcd, now).0;
    assert down.pod == Some(GetPod(s.member, now));
    assert GetPod(s.member, now).(containerStatuses := [true]).Ready();
    r := Reconcile(f, WithReports(down, [true]), etcd, now).0;
  }

  lemma Refreshed(w: World, f: nat, v: string)
    requires f < |w.slots| && Healthy(w.slots[f], v) && FromPast(w.slots[f], w.now)
    ensures var t := RunActs(w, Refresh(f));
            && |t.slots| == |w.slots| && t == With(w, f, t.slots[f])
            && Healthy(t.slots[f], v) && !t.slots[f].member.status.certificateExpires
            && FromPast(t.slots[f], w.now)
  {
    var s := w.slots[f];
    var down, r := RefreshStages(f, s, w.etcd, v, w.now);
    FourActs(w, EnvAct(PodGone(f)), MemberAct(f), EnvAct(PodReports(f, [true])), MemberAct(f));
    assert With(w, f, s) == w;
    EnvSets(w, PodGone(f), s);
    MemberSets(w, f, s.(pod := None), down);
    EnvSets(w, PodReports(f, [true]), down);
    MemberSets(w, f, WithReports(down, [true]), r);
  }

  /** All flags below k are down, except that of i. */
  predicate Cleared(w: World, t: World, k: nat, i: nat) {
    AllHealthy(t) && |t.slots| == |w.slots| && t == w.(slots := t.slots)
    && forall j :: 0 <= j < |w.slots| ==>
         if j < k && j != i then !t.slots[j].member.status.certificateExpires else t.slots[j] == w.slots[j]
  }

  /** No certificate is issued. */
  predicate NoIssueActs(acts: seq<Act>) {
    forall k :: 0 <= k < |acts| && acts[k].EnvAct? ==> !acts[k].e.CertIssued?
  }

  lemma ClearsOneMore(w: World, t: World, k: nat, i: nat) returns (acts: seq<Act>)
    requires AllHealthy(w) && k < |w.slots| && k != i && Cleared(w, t, k, i)
    ensures NoIssueActs(acts) && Cleared(w, RunActs(t, acts), k + 1, i)
  {
    Refreshed(t, k, w.cluster.spec.version);
    acts := Refresh(k);
  }

  lemma {:induction false} ClearsBelow(w: World, k: nat, i: nat) returns (acts: seq<Act>)
    requires AllHealthy(w) && k <= |w.slots|
    ensures NoIssueActs(acts) && Cleared(w, RunActs(w, acts), k, i)
  {
    acts := [];
    if k > 0 {
      acts := ClearsBelow(w, k - 1, i);
      if k - 1 != i {
        var more := ClearsOneMore(w, RunActs(w, acts), k - 1, i);
        ActsAppend(w, acts, more);
        acts := acts + more;
      }
    }
  }

  lemma ClearedBelow(w: World, k: nat, i: nat) returns (steps: seq<Step>, t: World)
    requires AllHealthy(w) && k <= |w.slots|
    ensures Leads(w, steps, t) && Cleared(w, t, k, i)
  {
    var acts := ClearsBelow(w, k, i);
    steps := AtomicIsInterleaved(w, acts);
    t := RunActs(w, acts);
    forall x | 0 <= x < |steps| && steps[x].Environment?
      ensures !steps[x].e.CertIssued?
    {
      var j :| 0 <= j < |acts| && acts[j] == EnvAct(steps[x].e);
    }
  }

  /** A check gives the flag of member j the wanted value, unless it has it. */
  lemma Flags(w: World, j: nat, expires: bool) returns (steps: seq<Step>, t: World)
    requires AllHealthy(w) && j < |w.slots|
    requires w.slots[j].member.status.certificateExpires == expires
             || ClientNewer(w.slots[j]) == expires || PeerNewer(w.slots[j]) == expires
    ensures Leads(w, steps, t) && AllHealthy(t) && t == With(w, j, Flagged(w.slots[j], expires))
  {
    t := With(w, j, Flagged(w.slots[j], expires));
    if w.slots[j].member.status.certificateExpires == expires {
      steps := [];
      assert t == w;
    } else {
      steps := Checked(w, j, w.cluster.spec.version, expires);
    }
  }

  /** A healthy cluster in which k is the first member with its expiry flag up, and a check of a lower member i
      can find a renewal. */
  predicate Unnoticed(w: World, i: nat, k: nat) {
    && AllHealthy(w) && i < k < |w.slots| && Expired(w.slots[i])
    && (forall j :: 0 <= j < k ==> !w.slots[j].member.status.certificateExpires)
    && w.slots[k].member.status.certificateExpires
  }

  lemma OverlapUnnoticed(w: World, i: nat, k: nat) returns (steps: seq<Step>, t: World)
    requires AllHealthy(w) && Overlapping(w.slots, i, k)
    ensures Leads(w, steps, t) && Unnoticed(t, i, k) && |t.slots| == |w.slots|
  {
    var clear, x := ClearedBelow(w, k, i);
    var lower, y := Flags(x, i, false);
    var raise, z := Flags(y, k, true);
    LeadsOn(w, clear, x, lower, y);
    LeadsOn(w, clear + lower, y, raise, z);
    steps, t := clear + lower + raise, z;
  }

  lemma AsksAlone(w: World, k: nat) returns (steps: seq<Step>, t: World)
    requires k < |w.slots| == Count(w.cluster.spec.size)
    requires forall j :: 0 <= j < |w.slots| ==>
      w.slots[j].member.status.phase == Running && w.slots[j].member.spec.version == w.cluster.spec.version
      && w.slots[j].member.status.version == w.cluster.spec.version
    requires forall j :: 0 <= j <= k ==> !w.slots[j].member.spec.certificateUpdate
    requires forall j :: 0 <= j < k ==> !w.slots[j].member.status.certificateExpires
    requires w.slots[k].member.status.certificateExpires
    ensures Leads(w, steps, t) && t.slots == w.slots[k := Rotate(w.slots[k])] && t.cluster.spec == w.cluster.spec
  {
    ClusterAsks(w, k);
    steps := ActAlone(w, ClusterAct(true));
    t := ReconcileCluster(w, true);
  }

  /** From every such state two members are asked at the same time: one that has its flag up, then a lower one. */
  lemma TwoRequests(w: World, i: nat, k: nat) returns (steps: seq<Step>, t: World)
    requires Unnoticed(w, i, k)
    ensures Leads(w, steps, t) && |t.slots| == |w.slots|
    ensures t.slots[i].member.spec.certificateUpdate && t.slots[k].member.spec.certificateUpdate
  {
    var v := w.cluster.spec.version;
    var ask, x := AsksAlone(w, k);
    var check := Checked(x, i, v, true);
    var y := With(x, i, Flagged(x.slots[i], true));
    var again, z := AsksAlone(y, i);
    LeadsOn(w, ask, x, check, y);
    LeadsOn(w, ask + check, y, again, z);
    steps, t := ask + check + again, z;
  }

  lemma OverlapAsksTwo(w: World, i: nat, k: nat) returns (steps: seq<Step>, t: World)
    requires AllHealthy(w) && Overlapping(w.slots, i, k)
    ensures Leads(w, steps, t) && |t.slots| == |w.slots|
    ensures t.slots[i].member.spec.certificateUpdate && t.slots[k].member.spec.certificateUpdate
  {
    var first, x := OverlapUnnoticed(w, i, k);
    var rest: seq<Step>;
    rest, t := TwoRequests(x, i, k);
    LeadsOn(w, first, x, rest, t);
    steps := first + rest;
  }

  // ----- the condition

  predicate OneAsked(slots: seq<Slot>) {
    forall i, j :: 0 <= i < j < |slots| ==>
      !slots[i].member.spec.certificateUpdate || !slots[j].member.spec.certificateUpdate
  }

  lemma CalmUnlessOverlapping(w: World, size: int) returns (u: nat)
    requires Inv(Start(w), size) && AllHealthy(w) && forall i: nat, k: nat :: !Overlapping(w.slots, i, k)
    ensures Calm(Start(w), u)
  {
    u := |w.slots|;
    if x :| 0 <= x < |w.slots| && Unsettled(w.slots[x]) {
      u := x;
    }
    forall k | 0 <= k < |w.slots| && k != u
      ensures Expired(w.slots[k]) ==> w.slots[k].member.status.certificateExpires && Both(w.slots[k])
      ensures k > u ==> !Expired(w.slots[k]) && !w.slots[k].member.status.certificateExpires
    {
      assert !Overlapping(w.slots, u, k) && !Overlapping(w.slots, k, u);
    }
  }

  /** From a healthy cluster at rest every interleaved run without renewals asks at most one member at a time, if
      and only if no member with an unsettled renewal has a renewed or flagged member above it. */
  lemma OneAtATimeExactly(w: World, size: int)
    requires Inv(Start(w), size) && AllHealthy(w)
    ensures (forall steps :: NoRenewals(Start(w), steps) ==> OneAsked(Run(Start(w), steps).w.slots))
            <==> !exists i: nat, k: nat :: Overlapping(w.slots, i, k)
  {
    if i: nat, k: nat :| Overlapping(w.slots, i, k) {
      var steps, t := OverlapAsksTwo(w, i, k);
      assert NoRenewals(Start(w), steps);
      assert !OneAsked(t.slots);
    } else {
      var u := CalmUnlessOverlapping(w, size);
      forall steps | NoRenewals(Start(w), steps)
        ensures OneAsked(Run(Start(w), steps).w.slots)
      {
        var slots := Run(Start(w), steps).w.slots;
        forall i, j | 0 <= i < j < |slots|
          ensures !slots[i].member.spec.certificateUpdate || !slots[j].member.spec.certificateUpdate
        {
          OneRequest(Start(w), steps, size, u, i, j);
        }
      }
    }
  }
}
