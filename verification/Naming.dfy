/**
 Names of the objects a cluster owns, what the operator reads back out of them, and the
 peer lists and MySQL server ids derived from them.
 */
module Naming {
  import opened GoStrings

  const XENON_PORT: nat := 8801
  const SERVER_ID_OFFSET: int := 100
  const SERVER_ID_OFFSET_INC: int := 100

  // Names and addresses of the cluster called `cluster`.

  function StatefulSetName(cluster: string): string { cluster + "-mysql" }

  function HeadlessServiceName(cluster: string): string { cluster + "-mysql" }

  function ReadOnlyName(cluster: string): string { cluster + "-ro" }

  function PodName(cluster: string, i: nat): string { StatefulSetName(cluster) + "-" + Itoa(i) }

  function ReadOnlyPodName(cluster: string, i: nat): string { ReadOnlyName(cluster) + "-" + Itoa(i) }

  /** Claims of a StatefulSet are called template-pod; the data template is `data`. */
  function PvcName(cluster: string, i: nat): string {
    "data-" + StatefulSetName(cluster) + "-" + Itoa(i)
  }

  function PodHostName(cluster: string, namespace: string, i: nat): string {
    PodName(cluster, i) + "." + HeadlessServiceName(cluster) + "." + namespace
  }

  /** The Xenon address of one pod. */
  function Peer(cluster: string, namespace: string, i: nat): string {
    PodHostName(cluster, namespace, i) + ":" + Itoa(XENON_PORT)
  }

  /** The addresses of pods 0, 1, ..., n-1. */
  function Peers(cluster: string, namespace: string, n: nat): seq<string> {
    seq(n, i requires 0 <= i < n => Peer(cluster, namespace, i))
  }

  // Reading an ordinal back from a name.

  /** strings.LastIndexAny(name, "-"). */
  function LastDash(name: string): (idx: int)
    ensures -1 <= idx < |name|
    ensures idx >= 0 ==> name[idx] == '-'
  {
    if name == "" then -1
    else if name[|name| - 1] == '-' then |name| - 1
    else LastDash(name[..|name| - 1])
  }

  function GetOrdinal(name: string): Option<int> {
    var idx := LastDash(name);
    if idx == -1 then None else Atoi(name[idx + 1..])
  }

  lemma {:induction false} LastDashAfter(prefix: string, tail: string)
    requires '-' !in tail
    ensures LastDash(prefix + "-" + tail) == |prefix|
  {
    var name := prefix + "-" + tail;
    if tail != "" {
      LastDashAfter(prefix, tail[..|tail| - 1]);
      assert name[..|name| - 1] == prefix + "-" + tail[..|tail| - 1];
    }
  }

  /** Whatever the prefix, an ordinal appended after a dash is read back. */
  lemma GetOrdinalInverts(prefix: string, i: nat)
    requires i <= MAX_INT
    ensures GetOrdinal(prefix + "-" + Itoa(i)) == Some(i)
  {
    LastDashAfter(prefix, Itoa(i));
    AtoiItoa(i);
    assert (prefix + "-" + Itoa(i))[|prefix| + 1..] == Itoa(i);
  }

  /** A name has an ordinal only if it has a dash and a number behind the last one. */
  lemma {:induction false} NoDashNoOrdinal(name: string)
    requires '-' !in name
    ensures LastDash(name) == -1 && GetOrdinal(name) == None
  {
    if name != "" {
      assert name[|name| - 1] in name;
      NoDashNoOrdinal(name[..|name| - 1]);
    }
  }

  /** Pods, read-only pods and volume claims all carry their ordinal. */
  lemma ClusterOrdinals(cluster: string, i: nat)
    requires i <= MAX_INT
    ensures GetOrdinal(PodName(cluster, i)) == Some(i)
    ensures GetOrdinal(ReadOnlyPodName(cluster, i)) == Some(i)
    ensures GetOrdinal(PvcName(cluster, i)) == Some(i)
  {
    GetOrdinalInverts(StatefulSetName(cluster), i);
    GetOrdinalInverts(ReadOnlyName(cluster), i);
    GetOrdinalInverts("data-" + StatefulSetName(cluster), i);
  }

  // Removal of surplus volume claims.

  datatype Pvc = Pvc(name: string, deleting: bool)

  predicate Surplus(p: Pvc, replicas: nat) {
    !p.deleting && var o := GetOrdinal(p.name); o.Some? && o.value >= replicas
  }

  /** The claims whose deletion a complete pass requests, in list order. */
  function SurplusNames(pvcs: seq<Pvc>, replicas: nat): seq<string> {
    if pvcs == [] then []
    else
      var last := pvcs[|pvcs| - 1];
      SurplusNames(pvcs[..|pvcs| - 1], replicas) + if Surplus(last, replicas) then [last.name] else []
  }

  /**
   One pass over the listed claims. `refused` is the set of names whose delete call fails.
   The result is the list of delete calls made and whether the pass ended without error.
   */
  method UpdatePvc(pvcs: seq<Pvc>, replicas: nat, refused: set<string>)
    returns (deleted: seq<string>, ok: bool)
    ensures replicas == 0 ==> ok && deleted == []
    ensures replicas > 0 ==> deleted <= SurplusNames(pvcs, replicas)
    ensures replicas > 0 && ok ==>
              deleted == SurplusNames(pvcs, replicas) && forall n | n in deleted :: n !in refused
    ensures !ok ==> deleted != [] && deleted[|deleted| - 1] in refused &&
                    forall n | n in deleted[..|deleted| - 1] :: n !in refused
  {
    deleted, ok := [], true;
    if replicas == 0 { return; }
    for i := 0 to |pvcs|
      invariant deleted == SurplusNames(pvcs[..i], replicas)
      invariant forall n | n in deleted :: n !in refused
    {
      assert pvcs[..i + 1][..i] == pvcs[..i];
      var item := pvcs[i];
      if item.deleting { continue; }
      var ordinal := GetOrdinal(item.name);
      if ordinal.None? { continue; }
      if ordinal.value >= replicas {
        deleted := deleted + [item.name];
        if item.name in refused {
          SurplusPrefix(pvcs, i + 1, replicas);
          return deleted, false;
        }
      }
    }
    assert pvcs[..|pvcs|] == pvcs;
  }

  lemma {:induction false} SurplusPrefix(pvcs: seq<Pvc>, i: nat, replicas: nat)
    requires i <= |pvcs|
    ensures SurplusNames(pvcs[..i], replicas) <= SurplusNames(pvcs, replicas)
    decreases |pvcs|
  {
    if i == |pvcs| {
      assert pvcs[..i] == pvcs;
    } else {
      SurplusPrefix(pvcs[..|pvcs| - 1], i, replicas);
      assert pvcs[..|pvcs| - 1][..i] == pvcs[..i];
    }
  }

  lemma {:induction false} SurplusNamesComplete(pvcs: seq<Pvc>, replicas: nat, n: string)
    ensures n in SurplusNames(pvcs, replicas) <==> exists p :: p in pvcs && p.name == n && Surplus(p, replicas)
  {
    if pvcs != [] {
      var init, last := pvcs[..|pvcs| - 1], pvcs[|pvcs| - 1];
      SurplusNamesComplete(init, replicas, n);
      assert pvcs == init + [last];
    }
  }

  /** A claim is selected only if it is not being deleted and its name ends in an ordinal out of range. */
  lemma SurplusExactly(p: Pvc, replicas: nat, prefix: string, tail: string)
    requires p.name == prefix + "-" + tail && '-' !in tail
    ensures Surplus(p, replicas) <==> !p.deleting && Atoi(tail).Some? && Atoi(tail).value >= replicas
  {
    LastDashAfter(prefix, tail);
    assert p.name[|prefix| + 1..] == tail;
  }

  /** Of the cluster's own claims exactly those at or above `replicas` are ever selected. */
  lemma PvcSelection(cluster: string, pvcs: seq<Pvc>, replicas: nat, i: nat)
    requires i <= MAX_INT
    requires Pvc(PvcName(cluster, i), false) in pvcs
    ensures PvcName(cluster, i) in SurplusNames(pvcs, replicas) <==> i >= replicas
  {
    ClusterOrdinals(cluster, i);
    SurplusNamesComplete(pvcs, replicas, PvcName(cluster, i));
    if i >= replicas {
      assert Surplus(Pvc(PvcName(cluster, i), false), replicas);
    }
  }

  // Peer lists.

  lemma PeersSnoc(cluster: string, namespace: string, n: nat)
    ensures Peers(cluster, namespace, n + 1) == Peers(cluster, namespace, n) + [Peer(cluster, namespace, n)]
    ensures |Peers(cluster, namespace, n)| == n
  {
  }

  /** The comma-separated peer string handed to Xenon at start-up. */
  method CreatePeers(cluster: string, namespace: string, replicas: nat) returns (s: string)
    ensures s == Join(Peers(cluster, namespace, replicas), ',')
  {
    s := "";
    for i := 0 to replicas
      invariant s == Join(Peers(cluster, namespace, i), ',')
    {
      hide Join, PodHostName, Itoa;
      PeersSnoc(cluster, namespace, i);
      JoinSnoc(Peers(cluster, namespace, i), Peer(cluster, namespace, i), ',');
      if i > 0 { s := s + ","; }
      s := s + (PodHostName(cluster, namespace, i) + ":" + Itoa(XENON_PORT));
    }
  }

  /** The peer list of the metadata file, and the expected list of the status syncer. */
  method BuildXenonPeers(cluster: string, namespace: string, n: nat) returns (peers: seq<string>)
    ensures peers == Peers(cluster, namespace, n)
  {
    peers := [];
    for i := 0 to n
      invariant peers == Peers(cluster, namespace, i)
    {
      peers := peers + [StatefulSetName(cluster) + "-" + Itoa(i) + "." + HeadlessServiceName(cluster) + "." +
                        namespace + ":" + Itoa(XENON_PORT)];
    }
  }

  lemma PeerDistinct(cluster: string, namespace: string, i: nat, j: nat)
    requires Peer(cluster, namespace, i) == Peer(cluster, namespace, j)
    ensures i == j
  {
    var pre := StatefulSetName(cluster) + "-";
    var post := "." + HeadlessServiceName(cluster) + "." + namespace + ":" + Itoa(XENON_PORT);
    var p, q := Peer(cluster, namespace, i), Peer(cluster, namespace, j);
    assert p == pre + Itoa(i) + post && q == pre + Itoa(j) + post;
    assert p[|pre|..|p| - |post|] == Itoa(i);
    assert q[|pre|..|q| - |post|] == Itoa(j);
    ItoaInjective(i, j);
  }

  lemma CommaInPeer(cluster: string, namespace: string, i: nat)
    ensures ',' in Peer(cluster, namespace, i) <==> ',' in cluster || ',' in namespace
  {
    var digits := Itoa(i);
    var p := cluster + "-mysql-" + digits + "." + cluster + "-mysql." + namespace + ":" + Itoa(XENON_PORT);
    assert Peer(cluster, namespace, i) == p;
    assert ',' !in digits && ',' !in Itoa(XENON_PORT);
  }

  /**
   The start-up string splits back into the expected peer list exactly when there is at least one
   replica and neither name contains a comma.
   */
  lemma PeersAgree(cluster: string, namespace: string, n: nat)
    ensures Split(Join(Peers(cluster, namespace, n), ','), ',') == Peers(cluster, namespace, n) <==>
            n > 0 && ',' !in cluster && ',' !in namespace
  {
    var peers := Peers(cluster, namespace, n);
    if n > 0 {
      CommaInPeer(cluster, namespace, 0);
      forall p | p in peers
        ensures ',' in p <==> ',' in cluster || ',' in namespace
      {
        var i :| 0 <= i < n && p == peers[i];
        CommaInPeer(cluster, namespace, i);
      }
      if ',' !in cluster && ',' !in namespace {
        SplitJoin(peers, ',');
      } else {
        SplitPartsClean(Join(peers, ','), ',');
        assert peers[0] in peers;
      }
    }
  }

  // MySQL server ids.

  /**
   The server id of the pod called `hostName`. `offset` is the configured start (0 when it is
   absent or not a number); `remote` says that the cluster replicates from another one.
   */
  method ServerId(hostName: string, offset: int, remote: bool) returns (id: Option<int>)
    ensures id == ServerIdOf(hostName, offset, remote)
  {
    var startIndex := if offset <= 0 then SERVER_ID_OFFSET else offset;
    var ordinal := GetOrdinal(hostName);
    var arr := Split(hostName, '-');
    if remote && offset <= 0 {
      startIndex := startIndex + SERVER_ID_OFFSET_INC;
    }
    if |arr| >= 3 && arr[|arr| - 2] == "ro" {
      startIndex := startIndex + SERVER_ID_OFFSET_INC;
    }
    if ordinal.None? { return None; }
    return Some(startIndex + ordinal.value);
  }

  function FirstServerId(offset: int, remote: bool): int {
    if offset > 0 then offset else if remote then SERVER_ID_OFFSET + SERVER_ID_OFFSET_INC else SERVER_ID_OFFSET
  }

  predicate LooksReadOnly(hostName: string) {
    var arr := Split(hostName, '-');
    |arr| >= 3 && arr[|arr| - 2] == "ro"
  }

  function ServerIdOf(hostName: string, offset: int, remote: bool): Option<int> {
    match GetOrdinal(hostName)
    case None => None
    case Some(o) =>
      Some(FirstServerId(offset, remote) + (if LooksReadOnly(hostName) then SERVER_ID_OFFSET_INC else 0) + o)
  }

  lemma SplitPodName(cluster: string, kind: string, i: nat)
    requires '-' !in kind
    ensures Split(cluster + ['-'] + (kind + ['-'] + Itoa(i)), '-') == Split(cluster, '-') + [kind] + [Itoa(i)]
  {
    SplitConcat(cluster, kind + ['-'] + Itoa(i), '-');
    SplitConcat(kind, Itoa(i), '-');
    SplitWhole(kind, '-');
    SplitWhole(Itoa(i), '-');
  }

  lemma RoleOfPodName(cluster: string, i: nat)
    ensures !LooksReadOnly(PodName(cluster, i))
    ensures LooksReadOnly(ReadOnlyPodName(cluster, i))
  {
    SplitPodName(cluster, "mysql", i);
    SplitPodName(cluster, "ro", i);
    assert PodName(cluster, i) == cluster + ['-'] + ("mysql" + ['-'] + Itoa(i));
    assert ReadOnlyPodName(cluster, i) == cluster + ['-'] + ("ro" + ['-'] + Itoa(i));
  }

  /**
   The ids of a cluster start at the configured offset, if it is positive; otherwise at 100, and at 200 if the
   cluster replicates from another one.
   */
  lemma FirstServerIdExactly(offset: int, remote: bool)
    ensures FirstServerId(offset, remote) == if offset > 0 then offset else if remote then 200 else 100
  {
  }

  /** Server ids of the regular and read-only pods, in closed form. */
  lemma ServerIdsOfCluster(cluster: string, offset: int, remote: bool, i: nat)
    requires i <= MAX_INT
    ensures ServerIdOf(PodName(cluster, i), offset, remote) == Some(FirstServerId(offset, remote) + i)
    ensures ServerIdOf(ReadOnlyPodName(cluster, i), offset, remote) ==
            Some(FirstServerId(offset, remote) + SERVER_ID_OFFSET_INC + i)
  {
    hide PodName, ReadOnlyPodName, GetOrdinal, LooksReadOnly, FirstServerId;
    ClusterOrdinals(cluster, i);
    RoleOfPodName(cluster, i);
  }

  /** All pods of a cluster in one row: the regular ones, then the read-only ones. */
  function NthPodName(cluster: string, replicas: nat, a: nat): string {
    if a < replicas then PodName(cluster, a) else ReadOnlyPodName(cluster, a - replicas)
  }

  function NthServerId(replicas: nat, offset: int, remote: bool, a: nat): int {
    FirstServerId(offset, remote) + if a < replicas then a else SERVER_ID_OFFSET_INC + a - replicas
  }

  lemma ServerIdAt(cluster: string, replicas: nat, offset: int, remote: bool, a: nat)
    requires replicas <= MAX_INT && a - replicas <= MAX_INT
    ensures ServerIdOf(NthPodName(cluster, replicas, a), offset, remote) ==
            Some(NthServerId(replicas, offset, remote, a))
  {
    hide ServerIdOf, PodName, ReadOnlyPodName;
    ServerIdsOfCluster(cluster, offset, remote, if a < replicas then a else a - replicas);
  }

  ghost predicate DistinctServerIds(cluster: string, replicas: nat, readOnly: nat, offset: int, remote: bool) {
    forall a: nat, b: nat | a < b < replicas + readOnly ::
      ServerIdOf(NthPodName(cluster, replicas, a), offset, remote) !=
      ServerIdOf(NthPodName(cluster, replicas, b), offset, remote)
  }

  /**
   The ids of one cluster are pairwise distinct exactly when it has no read-only pods or at most
   100 replicas: the read-only block starts 100 above the regular one.
   */
  lemma ServerIdsDistinct(cluster: string, replicas: nat, readOnly: nat, offset: int, remote: bool)
    requires replicas <= MAX_INT && readOnly <= MAX_INT
    ensures DistinctServerIds(cluster, replicas, readOnly, offset, remote) <==>
            readOnly == 0 || replicas <= SERVER_ID_OFFSET_INC
  {
    if readOnly == 0 || replicas <= SERVER_ID_OFFSET_INC {
      forall a: nat, b: nat | a < b < replicas + readOnly
        ensures ServerIdOf(NthPodName(cluster, replicas, a), offset, remote) !=
                ServerIdOf(NthPodName(cluster, replicas, b), offset, remote)
      {
        ServerIdAt(cluster, replicas, offset, remote, a);
        ServerIdAt(cluster, replicas, offset, remote, b);
      }
    } else {
      ServerIdAt(cluster, replicas, offset, remote, SERVER_ID_OFFSET_INC);
      ServerIdAt(cluster, replicas, offset, remote, replicas);
    }
  }
}
