/** Exact conditions under which a repair completes, and under which a lost status write of a repair does harm. */

module Limits {
  import opened Wrappers
  import opened Api
  import opened Etcd
  import opened Objects
  import opened MemberController
  import opened Interleaving
  import opened Invariant
  import opened AtomicRuns

  // ----- a repair completes exactly when etcd does not list the URL under no name

  predicate Nameless(entries: seq<Entry>, i: nat) {
    exists k :: 0 <= k < |entries| && entries[k].peer == i && entries[k].name.None?
  }

  lemma {:induction false} NamedIdsOf(entries: seq<Entry>, i: nat)
    requires AllDistinct(entries)
    requires forall k :: 0 <= k < |entries| && entries[k].name == Some(i) ==> entries[k].peer == i
    ensures |NamedIds(entries, i)| <= 1
  {
    if entries != [] {
      var rest := entries[1..];
      assert forall k :: 0 <= k < |rest| ==> rest[k] == entries[k + 1];
      NamedIdsOf(rest, i);
      if entries[0].name == Some(i) && NamedIds(rest, i) != [] {
        assert NamedIds(rest, i)[0] in NamedIds(rest, i);
      }
    }
  }

  lemma {:induction false} NoneNamed(entries: seq<Entry>, i: nat)
    requires forall k :: 0 <= k < |entries| ==> entries[k].name != Some(i)
    ensures NamedIds(entries, i) == []
  {
    if entries != [] {
      NoneNamed(entries[1..], i);
    }
  }

  lemma NamelessListed(m: Membership, n: nat, i: nat)
    requires ListOk(m, n) && Nameless(m.entries, i)
    ensures HasPeer(m.entries, i) && NamedIds(m.entries, i) == []
  {
    var k :| 0 <= k < |m.entries| && m.entries[k].peer == i && m.entries[k].name.None?;
    assert forall j :: 0 <= j < |m.entries| && j != k ==> m.entries[j].peer != i;
    NoneNamed(m.entries, i);
  }

  lemma NobodyNamed(m: Membership, n: nat, i: nat)
    requires ListOk(m, n) && NamedIds(m.entries, i) == []
    ensures HasPeer(m.entries, i) <==> Nameless(m.entries, i)
  {
    assert forall k :: 0 <= k < |m.entries| && m.entries[k].name == Some(i) ==>
      m.entries[k].id in NamedIds(m.entries, i);
  }

  lemma SolePeer(m: Membership, n: nat, i: nat, id: nat) returns (k: nat)
    requires ListOk(m, n) && id in NamedIds(m.entries, i)
    ensures k < |m.entries| && m.entries[k].id == id && m.entries[k].name == Some(i)
    ensures forall j :: 0 <= j < |m.entries| && m.entries[j].peer == i ==> j == k
  {
    k :| 0 <= k < |m.entries| && m.entries[k].id == id && m.entries[k].name == Some(i);
    assert m.entries[k].peer == i;
  }

  lemma RemovedPeer(entries: seq<Entry>, i: nat, k: nat)
    requires k < |entries| && entries[k].name == Some(i)
    requires forall j :: 0 <= j < |entries| && entries[j].peer == i ==> j == k
    ensures HasId(entries, entries[k].id) && !Nameless(entries, i) && !HasPeer(Without(entries, entries[k].id), i)
  {
  }

  lemma ReaddsUnlessNameless(m: Membership, n: nat, i: nat)
    requires ListOk(m, n)
    ensures var (entries, ok) := RemoveAll(m.entries, NamedIds(m.entries, i));
            ok && (HasPeer(entries, i) <==> Nameless(m.entries, i))
  {
    NamedIdsOf(m.entries, i);
    var ids := NamedIds(m.entries, i);
    if ids == [] {
      NobodyNamed(m, n, i);
    } else {
      assert ids == [ids[0]] && ids[0] in ids;
      var k := SolePeer(m, n, i, ids[0]);
      RemovedPeer(m.entries, i, k);
      assert RemoveAll(Without(m.entries, ids[0]), ids[1..]) == (Without(m.entries, ids[0]), true);
    }
  }

  /** A reconcile of a broken member takes the mark away if and only if pod and volume are gone and etcd does
      not list the member's URL without a name. */
  lemma RepairCompletes(i: nat, slot: Slot, etcd: Membership, n: nat, now: Time)
    requires slot.member.spec.broken && ListOk(etcd, n)
    ensures !Reconcile(i, slot, etcd, now).0.member.spec.broken
            <==> slot.pod.None? && slot.pvc.None? && !Nameless(etcd.entries, i)
  {
    var v := View(slot.member, slot, etcd);
    ReaddsUnlessNameless(etcd, n, i);
    RepairUpToDate(i, v);
    StagesUpToDate(i, v, now);
    if !Repair(i, v).stop {
      ForwardKeepsSpec(Repair(i, v).view, now);
    }
  }

  // ----- a repair whose status write is lost

  /** What the rest of the reconcile leaves when the status write of a repair fails without a conflict and the
      write that clears the mark succeeds: that write reloads the copy, and with it the old phase. */
  function StatusWriteLost(v: View, now: Time): Slot {
    var recreating := v.mem.(status := v.mem.status.(phase := Recreating, failedTime := ZERO_TIME));
    Forward(ClearBroken(v.(mem := recreating)), now).slot
  }

  /** Then a pod without a volume is made unless an earlier attempt had stored Recreating already, or the
      certificates are missing. The pod bootstraps a new cluster, or restores the backup. The model lets
      these two writes fail on conflicts only. */
  lemma LostStatusWrite(v: View, now: Time)
    requires SlotOk(v.slot) && RepairOk(v.slot, SetRecreating, v.mem)
    ensures var r := StatusWriteLost(v, now);
            && ((r.pod.Some? ==> r.pvc.Some?) <==> v.mem.status.phase == Recreating || !v.slot.Issued())
            && (r.pod.Some? ==>
                  r.pod.value.state == New && (r.pod.value.restore <==> v.mem.spec.backup != "")
                  && r.member.status.phase == Failed && !r.member.spec.broken)
  {
  }

  // ----- a repair whose mark is not cleared

  /** What the rest of the reconcile leaves when the write that clears the mark fails without a conflict. */
  function MarkWriteLost(v: View, now: Time): Slot {
    WriteStatus(Forward(v.(mem := v.mem.(spec := v.mem.spec.(broken := false))), now)).slot
  }

  /** Then the marked member is left without a pod, and with a volume claim exactly when its certificates are
      issued. The next reconcile tears the claim down again, and LostRepairs.RepairCanFinish says what becomes
      of the mark. */
  lemma LostMarkWrite(v: View, now: Time)
    requires SlotOk(v.slot) && RepairOk(v.slot, UnsetBroken, v.mem)
    ensures var r := MarkWriteLost(v, now);
            && r.member == v.slot.member && r.member.spec.broken && r.pod.None?
            && (r.pvc.Some? <==> v.slot.Issued())
  {
  }
}
