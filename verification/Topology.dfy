/** Names and URLs of a cluster's members, and the two strings of them that every
    etcd process and every etcd client is given. */

module Topology {
  import opened Api

  // ----- fmt.Sprintf("%d") on a member's ordinal

  function Digit(d: nat): (c: char)
    requires d < 10
  {
    "0123456789"[d]
  }

  function Itoa(n: nat): (s: string)
    ensures |s| > 0
    ensures forall k :: 0 <= k < |s| ==> '0' <= s[k] <= '9'
  {
    if n < 10 then [Digit(n)] else Itoa(n / 10) + [Digit(n % 10)]
  }

  lemma {:induction false} ItoaInjective(a: nat, b: nat)
    requires Itoa(a) == Itoa(b)
    ensures a == b
  {
    var s, t := Itoa(a), Itoa(b);
    if a < 10 || b < 10 {
      assert s[0] == t[0];
    } else {
      assert s[..|s| - 1] == Itoa(a / 10) && t[..|t| - 1] == Itoa(b / 10);
      assert s[|s| - 1] == Digit(a % 10) && t[|t| - 1] == Digit(b % 10);
      ItoaInjective(a / 10, b / 10);
    }
  }

  /** What the digits say, read from the left. */
  function Value(s: string): int {
    if s == "" then 0 else 10 * Value(s[..|s| - 1]) + (s[|s| - 1] as int - '0' as int)
  }

  /** The digits say n, and none of them is a leading zero. */
  lemma {:induction false} ItoaReads(n: nat)
    ensures Value(Itoa(n)) == n && (Itoa(n)[0] == '0' ==> n == 0)
  {
    var s := Itoa(n);
    if n < 10 {
      assert s[..|s| - 1] == "";
    } else {
      ItoaReads(n / 10);
      assert s[..|s| - 1] == Itoa(n / 10) && s[0] == Itoa(n / 10)[0];
    }
  }

  function Decimal(n: int): string {
    if n < 0 then "-" + Itoa(-n) else Itoa(n)
  }

  // ----- names and URLs

  function MemberName(cluster: string, num: nat): string {
    cluster + "-" + Itoa(num)
  }

  function MemberFQDN(name: string, namespace: string, service: string): string {
    name + "." + service + "." + namespace + ".svc.cluster.local"
  }

  function AdvertisePeerURL(name: string, namespace: string, service: string): string {
    "https://" + MemberFQDN(name, namespace, service) + ":2380"
  }

  function AdvertiseClientURL(name: string, namespace: string, service: string): string {
    "https://" + MemberFQDN(name, namespace, service) + ":2379"
  }

  function MemberNames(cluster: string, n: nat): (names: seq<string>)
    ensures |names| == n
  {
    seq(n, k requires 0 <= k < n => MemberName(cluster, k))
  }

  /** The member resource that the cluster controller asks for. */
  function GetMember(c: Cluster, num: nat): Member {
    Member(MemberName(c.name, num), c.namespace, 1,
           MemberSpec(c.spec.version, c.spec.backup, c.name, c.uid,
                      MemberNames(c.name, Count(c.spec.size)), false, false),
           NO_STATUS)
  }

  method BuildMember(c: Cluster, num: nat) returns (m: Member)
    ensures m == GetMember(c, num)
  {
    var members: seq<string> := [];
    var k := 0;
    while k < c.spec.size
      invariant 0 <= k <= Count(c.spec.size)
      invariant members == MemberNames(c.name, Count(c.spec.size))[..k]
    {
      members := members + [MemberName(c.name, k)];
      k := k + 1;
    }
    m := Member(MemberName(c.name, num), c.namespace, 1,
                MemberSpec(c.spec.version, c.spec.backup, c.name, c.uid, members, false, false), NO_STATUS);
  }

  function EndpointsOf(names: seq<string>, namespace: string, service: string): (endpoints: seq<string>)
    ensures |endpoints| == |names|
  {
    seq(|names|, k requires 0 <= k < |names| => AdvertiseClientURL(names[k], namespace, service))
  }

  method ClusterEndpoints(c: Cluster) returns (endpoints: seq<string>)
    ensures endpoints == EndpointsOf(MemberNames(c.name, Count(c.spec.size)), c.namespace, c.name)
  {
    endpoints := [];
    var num := 0;
    while num < c.spec.size
      invariant 0 <= num <= Count(c.spec.size)
      invariant endpoints == EndpointsOf(MemberNames(c.name, Count(c.spec.size)), c.namespace, c.name)[..num]
    {
      endpoints := endpoints + [AdvertiseClientURL(MemberName(c.name, num), c.namespace, c.name)];
      num := num + 1;
    }
  }

  method MemberEndpoints(m: Member) returns (endpoints: seq<string>)
    ensures endpoints == EndpointsOf(m.spec.members, m.namespace, m.spec.clusterName)
  {
    endpoints := [];
    for num := 0 to |m.spec.members|
      invariant endpoints == EndpointsOf(m.spec.members, m.namespace, m.spec.clusterName)[..num]
    {
      endpoints := endpoints + [AdvertiseClientURL(m.spec.members[num], m.namespace, m.spec.clusterName)];
    }
  }

  /** strings.Join */
  function Join(parts: seq<string>, sep: char): string {
    if parts == [] then "" else if |parts| == 1 then parts[0] else parts[0] + [sep] + Join(parts[1..], sep)
  }

  function PeerEntry(name: string, namespace: string, service: string): string {
    name + "=" + AdvertisePeerURL(name, namespace, service)
  }

  function PeerEntries(m: Member): (entries: seq<string>)
    ensures |entries| == |m.spec.members|
  {
    seq(|m.spec.members|, k requires 0 <= k < |m.spec.members| =>
      PeerEntry(m.spec.members[k], m.namespace, m.spec.clusterName))
  }

  /** The value of --initial-cluster. */
  method InitialCluster(m: Member) returns (s: string)
    ensures s == Join(PeerEntries(m), ',')
  {
    var urls: seq<string> := [];
    for num := 0 to |m.spec.members|
      invariant urls == PeerEntries(m)[..num]
    {
      urls := urls + [PeerEntry(m.spec.members[num], m.namespace, m.spec.clusterName)];
    }
    assert urls == PeerEntries(m);
    s := Join(urls, ',');
  }

  // ----- how etcd reads the string back: split on every ',', then on the first '='

  predicate Free(s: string, c: char) {
    c !in s
  }

  /** Length of the longest prefix without c. */
  function Find(s: string, c: char): (k: nat)
    ensures k <= |s| && Free(s[..k], c) && (k < |s| ==> s[k] == c)
  {
    if s == "" || s[0] == c then 0 else
      var k := 1 + Find(s[1..], c);
      assert s[..k] == [s[0]] + s[1..][..k - 1];
      k
  }

  function Split(s: string, sep: char): (parts: seq<string>)
    ensures |parts| > 0
    decreases |s|
  {
    var k := Find(s, sep);
    if k == |s| then [s] else [s[..k]] + Split(s[k + 1..], sep)
  }

  lemma FindFirst(prefix: string, c: char, rest: string)
    requires Free(prefix, c)
    ensures Find(prefix, c) == |prefix|
    ensures Find(prefix + [c] + rest, c) == |prefix|
  {
    var s := prefix + [c] + rest;
    assert forall k :: 0 <= k < |prefix| ==> s[k] == prefix[k];
    assert s[|prefix|] == c && c in s[..|prefix| + 1];
    assert forall k :: |prefix| < k <= |s| ==> s[..k][|prefix|] == c;
  }

  lemma {:induction false} SplitJoin(parts: seq<string>, sep: char)
    requires parts != [] && forall p :: p in parts ==> Free(p, sep)
    ensures Split(Join(parts, sep), sep) == parts
  {
    assert parts[0] in parts;
    if |parts| == 1 {
      FindFirst(parts[0], sep, "");
    } else {
      var rest := Join(parts[1..], sep);
      var s := Join(parts, sep);
      assert s == parts[0] + [sep] + rest;
      FindFirst(parts[0], sep, rest);
      assert s[..|parts[0]|] == parts[0] && s[|parts[0]| + 1..] == rest;
      SplitJoin(parts[1..], sep);
      assert parts == [parts[0]] + parts[1..];
    }
  }

  /** "name=url" as a pair, cut at the first '='. */
  function Cut(s: string): (string, string) {
    var k := Find(s, '=');
    if k == |s| then (s, "") else (s[..k], s[k + 1..])
  }

  // ----- results

  lemma NamesDistinct(cluster: string, a: nat, b: nat)
    requires MemberName(cluster, a) == MemberName(cluster, b)
    ensures a == b
  {
    var s, t := MemberName(cluster, a), MemberName(cluster, b);
    assert s[|cluster| + 1..] == Itoa(a) && t[|cluster| + 1..] == Itoa(b);
    ItoaInjective(a, b);
  }

  lemma PeerURLsDistinct(cluster: string, namespace: string, a: nat, b: nat)
    requires AdvertisePeerURL(MemberName(cluster, a), namespace, cluster)
             == AdvertisePeerURL(MemberName(cluster, b), namespace, cluster)
    ensures a == b
  {
    var x, y := MemberName(cluster, a), MemberName(cluster, b);
    var tail := "." + cluster + "." + namespace + ".svc.cluster.local:2380";
    var s := AdvertisePeerURL(x, namespace, cluster);
    assert s == "https://" + x + tail == "https://" + y + tail;
    assert |x| == |y|;
    assert s[8..8 + |x|] == x && s[8..8 + |y|] == y;
    NamesDistinct(cluster, a, b);
  }

  predicate Plain(s: string) {
    Free(s, ',') && Free(s, '=')
  }

  lemma PlainNames(cluster: string, namespace: string, num: nat)
    requires Plain(cluster) && Plain(namespace)
    ensures Plain(MemberName(cluster, num))
    ensures Free(PeerEntry(MemberName(cluster, num), namespace, cluster), ',')
  {
    var digits := Itoa(num);
    assert Plain(digits) by {
      forall ch | ch in digits
        ensures '0' <= ch <= '9'
      {
        var k :| 0 <= k < |digits| && digits[k] == ch;
      }
    }
    var name := MemberName(cluster, num);
    assert Plain(name);
    assert Free(MemberFQDN(name, namespace, cluster), ',');
    assert Free(AdvertisePeerURL(name, namespace, cluster), ',');
  }

  /** The stable DNS name of member k behind the cluster's headless service. */
  function HostOf(c: Cluster, k: nat): string {
    c.name + "-" + Itoa(k) + "." + c.name + "." + c.namespace + ".svc.cluster.local"
  }

  /** Every member is started with the same topology, and an etcd process that splits
      its --initial-cluster gets back exactly the members' names and peer URLs in order. */
  lemma OneTopology(c: Cluster, i: nat, j: nat)
    requires Plain(c.name) && Plain(c.namespace)
    requires c.spec.size > 0
    ensures Join(PeerEntries(GetMember(c, i)), ',') == Join(PeerEntries(GetMember(c, j)), ',')
    ensures var parts := Split(Join(PeerEntries(GetMember(c, i)), ','), ',');
            |parts| == c.spec.size
            && forall k :: 0 <= k < |parts| ==>
                 Cut(parts[k]) == (c.name + "-" + Itoa(k), "https://" + HostOf(c, k) + ":2380")
  {
    var m := GetMember(c, i);
    var entries := PeerEntries(m);
    forall k | 0 <= k < |entries|
      ensures Free(entries[k], ',')
      ensures Cut(entries[k]) == (MemberName(c.name, k), AdvertisePeerURL(MemberName(c.name, k), c.namespace, c.name))
    {
      PlainNames(c.name, c.namespace, k);
      var name, url := MemberName(c.name, k), AdvertisePeerURL(MemberName(c.name, k), c.namespace, c.name);
      var entry := entries[k];
      assert entry == name + ['='] + url;
      FindFirst(name, '=', url);
      assert entry[..|name|] == name && entry[|name| + 1..] == url;
    }
    forall k | 0 <= k < |entries|
      ensures AdvertisePeerURL(MemberName(c.name, k), c.namespace, c.name) == "https://" + HostOf(c, k) + ":2380"
      ensures MemberName(c.name, k) == c.name + "-" + Itoa(k)
    {
    }
    SplitJoin(entries, ',');
    assert PeerEntries(GetMember(c, j)) == entries;
  }

  lemma ClientURLsDistinct(cluster: string, namespace: string, a: nat, b: nat)
    requires AdvertiseClientURL(MemberName(cluster, a), namespace, cluster)
             == AdvertiseClientURL(MemberName(cluster, b), namespace, cluster)
    ensures a == b
  {
    var x, y := MemberName(cluster, a), MemberName(cluster, b);
    var tail := "." + cluster + "." + namespace + ".svc.cluster.local:2379";
    var s := AdvertiseClientURL(x, namespace, cluster);
    assert s == "https://" + x + tail == "https://" + y + tail;
    assert |x| == |y|;
    assert s[8..8 + |x|] == x && s[8..8 + |y|] == y;
    NamesDistinct(cluster, a, b);
  }

  /** The etcd clients built for a repair and for a snapshot get the same endpoints,
      one for each member and all different. */
  lemma SameEndpoints(c: Cluster, i: nat)
    ensures var m := GetMember(c, i);
            EndpointsOf(m.spec.members, m.namespace, m.spec.clusterName)
            == EndpointsOf(MemberNames(c.name, Count(c.spec.size)), c.namespace, c.name)
    ensures var endpoints := EndpointsOf(MemberNames(c.name, Count(c.spec.size)), c.namespace, c.name);
            |endpoints| == Count(c.spec.size)
            && (forall k :: 0 <= k < |endpoints| ==> endpoints[k] == "https://" + HostOf(c, k) + ":2379")
            && forall a, b :: 0 <= a < b < |endpoints| ==> endpoints[a] != endpoints[b]
  {
    var endpoints := EndpointsOf(MemberNames(c.name, Count(c.spec.size)), c.namespace, c.name);
    forall a, b | 0 <= a < b < |endpoints|
      ensures endpoints[a] != endpoints[b]
    {
      if endpoints[a] == endpoints[b] {
        ClientURLsDistinct(c.name, c.namespace, a, b);
      }
    }
  }
}
