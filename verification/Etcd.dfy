/** etcd's membership list, as the calls MemberList, MemberRemove and MemberAdd see it.

    Names and peer URLs are given by the ordinal of the member they belong to;
    Topology.NamesDistinct and Topology.PeerURLsDistinct say that this loses nothing. */

module Etcd {
  import opened Wrappers

  /** An entry that was added and whose process has not started yet has no name. */
  datatype Entry = Entry(id: nat, name: Option<nat>, peer: nat)

  datatype Membership = Membership(entries: seq<Entry>, nextId: nat)

  predicate HasId(entries: seq<Entry>, id: nat) {
    exists k :: 0 <= k < |entries| && entries[k].id == id
  }

  predicate HasPeer(entries: seq<Entry>, peer: nat) {
    exists k :: 0 <= k < |entries| && entries[k].peer == peer
  }

  /** Ids of the entries with the given name, in list order. */
  function NamedIds(entries: seq<Entry>, name: nat): (ids: seq<nat>)
    ensures forall id :: id in ids <==>
              exists k :: 0 <= k < |entries| && entries[k].id == id && entries[k].name == Some(name)
  {
    if entries == [] then [] else
      var ids := NamedIds(entries[1..], name);
      assert forall k :: 0 < k < |entries| ==> entries[k] == entries[1..][k - 1];
      if entries[0].name == Some(name) then [entries[0].id] + ids else ids
  }

  function Without(entries: seq<Entry>, id: nat): (r: seq<Entry>)
    ensures forall e :: e in r <==> e in entries && e.id != id
  {
    if entries == [] then [] else
      var last := |entries| - 1;
      Without(entries[..last], id) + if entries[last].id == id then [] else [entries[last]]
  }

  /** MemberRemove for each id in turn. The calls stop at the first id that etcd does not know. */
  function RemoveAll(entries: seq<Entry>, ids: seq<nat>): (r: (seq<Entry>, bool))
    decreases |ids|
  {
    if ids == [] then (entries, true)
    else if !HasId(entries, ids[0]) then (entries, false)
    else RemoveAll(Without(entries, ids[0]), ids[1..])
  }

  function Add(m: Membership, peer: nat): Membership {
    Membership(m.entries + [Entry(m.nextId, None, peer)], m.nextId + 1)
  }

  /** A started process publishes its name. */
  function Publish(entries: seq<Entry>, peer: nat): (r: seq<Entry>)
    ensures |r| == |entries|
  {
    seq(|entries|, k requires 0 <= k < |entries| =>
      if entries[k].peer == peer then entries[k].(name := Some(peer)) else entries[k])
  }

  /** The list that --initial-cluster bootstraps. */
  function Bootstrap(n: nat): Membership {
    Membership(seq(n, k requires 0 <= k < n => Entry(k, Some(k), k)), n)
  }

  // ----- counting

  ghost predicate PeersDistinct(entries: seq<Entry>) {
    forall a, b :: 0 <= a < b < |entries| ==> entries[a].peer != entries[b].peer
  }

  ghost function Peers(entries: seq<Entry>): (s: set<nat>)
    ensures forall p: nat :: p in s <==> HasPeer(entries, p)
  {
    set k | 0 <= k < |entries| :: entries[k].peer
  }

  lemma {:induction false} PeersCount(entries: seq<Entry>)
    requires PeersDistinct(entries)
    ensures |Peers(entries)| == |entries|
  {
    if entries != [] {
      var last := |entries| - 1;
      PeersCount(entries[..last]);
      assert entries == entries[..last] + [entries[last]];
      assert Peers(entries) == Peers(entries[..last]) + {entries[last].peer};
      assert !HasPeer(entries[..last], entries[last].peer);
    }
  }

  ghost function Below(n: nat): (s: set<nat>)
    ensures |s| == n && forall k: nat :: k in s <==> k < n
  {
    if n == 0 then {} else Below(n - 1) + {n - 1}
  }

  lemma AtMostOne(s: set<nat>)
    requires forall a, b :: a in s && b in s ==> a == b
    ensures |s| <= 1
  {
    if s != {} {
      var a :| a in s;
      assert s == {a};
    }
  }

  /** Distinct URLs below n of which at most one is missing: n - 1 or n entries. */
  lemma SizeOfList(entries: seq<Entry>, n: nat)
    requires PeersDistinct(entries)
    requires forall k :: 0 <= k < |entries| ==> entries[k].peer < n
    requires forall a: nat, b: nat :: a < n && b < n && !HasPeer(entries, a) && !HasPeer(entries, b) ==> a == b
    ensures n - 1 <= |entries| <= n
  {
    PeersCount(entries);
    var all, peers := Below(n), Peers(entries);
    var missing := all - peers;
    AtMostOne(missing);
    assert peers <= all;
    assert all == peers + missing;
    assert |all| == |peers| + |missing|;
  }
}
