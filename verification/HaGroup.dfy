/** The values that one HA group shares, computed from its pods (buildGroupHAConfig and
    createDNSList of pkg/manager/ha_manager.go). */
module HaGroup {
  import opened Wrappers
  import opened Text
  import opened PodNames
  import opened HaManager

  const MASTER_SLAVE := "master-slave"
  const REPLICA := "replica"

  datatype Pod = Pod(name: string, hostname: string, groupType: Option<string>)

  /** The service names of the StatefulSets that can be fetched. */
  type StatefulSets = map<string, string>

  datatype GroupHAConfig = GroupHAConfig(values: GroupConfig, modes: map<string, HAMode>)

  function ModeOf(pod: Pod): Option<HAMode> {
    if pod.groupType == Some(MASTER_SLAVE) then Some(On)
    else if pod.groupType == Some(REPLICA) then Some(Replica)
    else None
  }

  function PodsOf(pods: seq<Pod>, mode: HAMode): seq<Pod> {
    if pods == [] then []
    else if ModeOf(pods[|pods| - 1]) == Some(mode) then PodsOf(pods[..|pods| - 1], mode) + [pods[|pods| - 1]]
    else PodsOf(pods[..|pods| - 1], mode)
  }

  function ModesOf(pods: seq<Pod>): map<string, HAMode> {
    if pods == [] then map[]
    else
      var earlier, pod := ModesOf(pods[..|pods| - 1]), pods[|pods| - 1];
      if ModeOf(pod).Some? then earlier[pod.name := ModeOf(pod).value] else earlier
  }

  /** The short DNS name of a pod, when its StatefulSet is known. */
  function DnsName(pod: Pod, sets: StatefulSets): Option<string> {
    var set_ := StatefulSetName(pod.name);
    if set_ == "" || set_ !in sets then None
    else Some((if pod.hostname == "" then pod.name else pod.hostname) + "." + sets[set_])
  }

  function DnsList(pods: seq<Pod>, sets: StatefulSets): seq<string> {
    if pods == [] then []
    else
      var earlier, dns := DnsList(pods[..|pods| - 1], sets), DnsName(pods[|pods| - 1], sets);
      if dns.Some? then earlier + [dns.value] else earlier
  }

  method CreateDNSList(pods: seq<Pod>, sets: StatefulSets) returns (dnsList: seq<string>)
    ensures dnsList == DnsList(pods, sets)
  {
    dnsList := [];
    for i := 0 to |pods|
      invariant dnsList == DnsList(pods[..i], sets)
    {
      assert pods[..i + 1][..i] == pods[..i];
      var hostname := pods[i].hostname;
      if hostname == "" {
        hostname := pods[i].name;
      }
      var statefulSetName := StatefulSetName(pods[i].name);
      if statefulSetName == "" || statefulSetName !in sets {
        continue;
      }
      dnsList := dnsList + [hostname + "." + sets[statefulSetName]];
    }
    assert pods[..|pods|] == pods;
  }

  /** strings.Repeat */
  function Repeat(s: string, n: nat): string { if n == 0 then "" else s + Repeat(s, n - 1) }

  /** strings.TrimSuffix(s, ":") */
  function TrimColon(s: string): string {
    if s != "" && s[|s| - 1] == ':' then s[..|s| - 1] else s
  }

  function NodeListValue(dns: seq<string>): string { "cubrid@" + Join(dns, ':') }

  function CopySyncValue(n: nat): string { TrimColon(Repeat("sync:", n)) }

  function GroupConfigOf(pods: seq<Pod>, sets: StatefulSets): GroupHAConfig {
    var masters, replicas := PodsOf(pods, On), PodsOf(pods, Replica);
    var dns := DnsList(masters, sets);
    GroupHAConfig(
      GroupConfig(if masters == [] then "" else NodeListValue(dns),
                  if masters == [] then "" else CopySyncValue(|dns|),
                  if replicas == [] then "" else NodeListValue(DnsList(replicas, sets))),
      ModesOf(pods))
  }

  method BuildGroupHAConfig(pods: seq<Pod>, sets: StatefulSets) returns (config: GroupHAConfig)
    ensures config == GroupConfigOf(pods, sets)
  {
    var modes: map<string, HAMode> := map[];
    var masterSlavePods: seq<Pod>, replicaPods: seq<Pod> := [], [];
    for i := 0 to |pods|
      invariant modes == ModesOf(pods[..i])
      invariant masterSlavePods == PodsOf(pods[..i], On) && replicaPods == PodsOf(pods[..i], Replica)
    {
      assert pods[..i + 1][..i] == pods[..i];
      var pod := pods[i];
      if pod.groupType.None? {
        continue;
      }
      if pod.groupType.value == MASTER_SLAVE {
        masterSlavePods := masterSlavePods + [pod];
        modes := modes[pod.name := On];
      } else if pod.groupType.value == REPLICA {
        replicaPods := replicaPods + [pod];
        modes := modes[pod.name := Replica];
      }
    }
    assert pods[..|pods|] == pods;
    var haNodeList, haCopySyncMode, haReplicaList := "", "", "";
    if |masterSlavePods| > 0 {
      var dns := CreateDNSList(masterSlavePods, sets);
      haNodeList, haCopySyncMode := NodeListValue(dns), CopySyncValue(|dns|);
    }
    if |replicaPods| > 0 {
      var dns := CreateDNSList(replicaPods, sets);
      haReplicaList := NodeListValue(dns);
    }
    config := GroupHAConfig(GroupConfig(haNodeList, haCopySyncMode, haReplicaList), modes);
  }

  // ---------------------------------------------------------------- the values fit together

  lemma {:induction false} CopySyncIsJoin(n: nat)
    requires n > 0
    ensures CopySyncValue(n) == Join(seq(n, i => "sync"), ':')
    ensures Repeat("sync:", n) == CopySyncValue(n) + ":"
  {
    var parts := seq(n, i => "sync");
    var all := Repeat("sync:", n);
    if n == 1 {
      assert all == "sync" + ":";
      assert parts == ["sync"];
    } else {
      CopySyncIsJoin(n - 1);
      assert all == "sync:" + (CopySyncValue(n - 1) + ":");
      assert all[..|all| - 1] == "sync" + ":" + CopySyncValue(n - 1);
      assert parts[1..] == seq(n - 1, i => "sync");
    }
  }

  /** ha_copy_sync_mode has one `sync` for every host of ha_node_list; without a host the list is the
      bare `cubrid@` and the mode is empty. */
  lemma SyncModesMatchNodes(dns: seq<string>)
    requires forall d <- dns :: ':' !in d
    ensures dns == [] ==> NodeListValue(dns) == "cubrid@" && CopySyncValue(|dns|) == ""
    ensures dns != [] ==>
              && Split(CopySyncValue(|dns|), ':') == seq(|dns|, i => "sync")
              && Split(NodeListValue(dns), ':') == ["cubrid@" + dns[0]] + dns[1..]
  {
    if dns != [] {
      CopySyncIsJoin(|dns|);
      SplitJoin(seq(|dns|, i => "sync"), ':');
      var hosts := ["cubrid@" + dns[0]] + dns[1..];
      assert hosts[1..] == dns[1..];
      assert Join(hosts, ':') == NodeListValue(dns) by {
        if |dns| > 1 {
          assert ("cubrid@" + dns[0]) + ":" + Join(dns[1..], ':') == "cubrid@" + (dns[0] + ":" + Join(dns[1..], ':'));
        }
      }
      SplitJoin(hosts, ':');
    }
  }

  lemma {:induction false} DnsListHasHost(pods: seq<Pod>, sets: StatefulSets)
    ensures DnsList(pods, sets) != [] <==> exists pod <- pods :: DnsName(pod, sets).Some?
    ensures forall d <- DnsList(pods, sets) :: d != ""
  {
    if pods != [] {
      DnsListHasHost(pods[..|pods| - 1], sets);
      assert pods == pods[..|pods| - 1] + [pods[|pods| - 1]];
    }
  }

  /** The DNS names of the pods with this group-type label, in their order: host name, or the pod's own
      name when it has none, a dot and the service of its StatefulSet. */
  function HostsOf(pods: seq<Pod>, kind: string, sets: StatefulSets): seq<string> {
    if pods == [] then []
    else
      var pod, base := pods[0], StatefulSetName(pods[0].name);
      (if pod.groupType == Some(kind) && base != "" && base in sets
       then [(if pod.hostname == "" then pod.name else pod.hostname) + "." + sets[base]] else [])
      + HostsOf(pods[1..], kind, sets)
  }

  lemma {:induction false} HostsOfMore(pods: seq<Pod>, pod: Pod, kind: string, sets: StatefulSets)
    ensures HostsOf(pods + [pod], kind, sets) == HostsOf(pods, kind, sets) + HostsOf([pod], kind, sets)
  {
    if pods == [] {
      assert pods + [pod] == [pod];
    } else {
      assert (pods + [pod])[1..] == pods[1..] + [pod];
      HostsOfMore(pods[1..], pod, kind, sets);
    }
  }

  lemma DnsOfOne(pod: Pod, kind: string, sets: StatefulSets)
    ensures HostsOf([pod], kind, sets)
            == if pod.groupType == Some(kind) && DnsName(pod, sets).Some? then [DnsName(pod, sets).value] else []
  {
    assert [pod][1..] == [];
  }

  lemma DnsOfMore(pods: seq<Pod>, pod: Pod, sets: StatefulSets)
    ensures DnsList(pods + [pod], sets)
            == DnsList(pods, sets) + if DnsName(pod, sets).Some? then [DnsName(pod, sets).value] else []
  {
    assert (pods + [pod])[..|pods|] == pods;
  }

  lemma {:induction false} DnsOfMode(pods: seq<Pod>, mode: HAMode, kind: string, sets: StatefulSets)
    requires forall pod <- pods :: ModeOf(pod) == Some(mode) <==> pod.groupType == Some(kind)
    ensures DnsList(PodsOf(pods, mode), sets) == HostsOf(pods, kind, sets)
  {
    if pods != [] {
      var init, last := pods[..|pods| - 1], pods[|pods| - 1];
      assert pods == init + [last] && last in pods && forall pod <- init :: pod in pods;
      DnsOfMode(init, mode, kind, sets);
      HostsOfMore(init, last, kind, sets);
      DnsOfOne(last, kind, sets);
      DnsOfMore(PodsOf(init, mode), last, sets);
    }
  }

  lemma LabelsAreModes(pod: Pod)
    ensures ModeOf(pod) == Some(On) <==> pod.groupType == Some("master-slave")
    ensures ModeOf(pod) == Some(Replica) <==> pod.groupType == Some("replica")
  {
    assert |"master-slave"| == 12 && |"replica"| == 7;
  }

  /** The shared values of a group: the node list holds the hosts of the pods labelled master-slave, and
      the replica list those of the pods labelled replica; neither is there without such a pod. */
  lemma GroupIsItsLabels(pods: seq<Pod>, sets: StatefulSets)
    ensures var values := GroupConfigOf(pods, sets).values;
            && values.haNodeList == (if exists pod <- pods :: pod.groupType == Some("master-slave")
                                     then "cubrid@" + Join(HostsOf(pods, "master-slave", sets), ':') else "")
            && values.haCopySyncMode == (if exists pod <- pods :: pod.groupType == Some("master-slave")
                                         then Join(seq(|HostsOf(pods, "master-slave", sets)|, i => "sync"), ':') else "")
            && values.haReplicaList == (if exists pod <- pods :: pod.groupType == Some("replica")
                                        then "cubrid@" + Join(HostsOf(pods, "replica", sets), ':') else "")
  {
    forall pod: Pod
      ensures ModeOf(pod) == Some(On) <==> pod.groupType == Some("master-slave")
      ensures ModeOf(pod) == Some(Replica) <==> pod.groupType == Some("replica")
    {
      LabelsAreModes(pod);
    }
    DnsOfMode(pods, On, "master-slave", sets);
    DnsOfMode(pods, Replica, "replica", sets);
    PodsExist(pods, On);
    PodsExist(pods, Replica);
    var n := |HostsOf(pods, "master-slave", sets)|;
    if n > 0 {
      CopySyncIsJoin(n);
    } else {
      assert seq(n, i => "sync") == [];
    }
  }

  lemma PodsExist(pods: seq<Pod>, mode: HAMode)
    ensures PodsOf(pods, mode) != [] <==> exists pod <- pods :: ModeOf(pod) == Some(mode)
  {
    forall pod: Pod ensures pod in PodsOf(pods, mode) <==> pod in pods && ModeOf(pod) == Some(mode) {
      PodsOfMode(pods, mode, pod);
    }
    assert PodsOf(pods, mode) != [] ==> PodsOf(pods, mode)[0] in PodsOf(pods, mode);
  }

  /** A pod of a group runs in the mode of its label, when pod names are distinct; other pods are left
      alone. */
  lemma {:induction false} PodHasItsMode(pods: seq<Pod>, pod: Pod)
    requires pod in pods && forall i, j | 0 <= i < j < |pods| :: pods[i].name != pods[j].name
    ensures var modes := ModesOf(pods);
            && (pod.groupType == Some("master-slave") <==> pod.name in modes && modes[pod.name] == On)
            && (pod.groupType == Some("replica") <==> pod.name in modes && modes[pod.name] == Replica)
  {
    var init, last := pods[..|pods| - 1], pods[|pods| - 1];
    assert pods == init + [last];
    LabelsAreModes(pod);
    if pod == last {
      NoMode(init, pod.name);
    } else {
      assert pod in init;
      var i :| 0 <= i < |init| && init[i] == pod;
      assert pods[i].name != last.name;
      PodHasItsMode(init, pod);
    }
  }

  lemma {:induction false} NoMode(pods: seq<Pod>, name: string)
    requires forall pod <- pods :: pod.name != name
    ensures name !in ModesOf(pods)
  {
    if pods != [] {
      assert pods[|pods| - 1] in pods && forall pod <- pods[..|pods| - 1] :: pod in pods;
      NoMode(pods[..|pods| - 1], name);
    }
  }

  lemma {:induction false} PodsOfMode(pods: seq<Pod>, mode: HAMode, pod: Pod)
    ensures pod in PodsOf(pods, mode) <==> pod in pods && ModeOf(pod) == Some(mode)
  {
    if pods != [] {
      PodsOfMode(pods[..|pods| - 1], mode, pod);
      assert pods == pods[..|pods| - 1] + [pods[|pods| - 1]];
    }
  }

  /** A list names a host exactly when some pod of its mode has a StatefulSet that can be fetched;
      otherwise a group with pods of that mode is given the bare `cubrid@`, and no sync mode. */
  lemma ListNamesHost(pods: seq<Pod>, sets: StatefulSets)
    ensures var values := GroupConfigOf(pods, sets).values;
            && (values.haCopySyncMode != "" <==>
                  exists pod <- pods :: ModeOf(pod) == Some(On) && DnsName(pod, sets).Some?)
            && (values.haNodeList == "cubrid@" <==>
                  (exists pod <- pods :: ModeOf(pod) == Some(On)) && values.haCopySyncMode == "")
            && (values.haReplicaList == "cubrid@" <==>
                  && (exists pod <- pods :: ModeOf(pod) == Some(Replica))
                  && forall pod <- pods :: ModeOf(pod) == Some(Replica) ==> DnsName(pod, sets).None?)
  {
    var masters, replicas := PodsOf(pods, On), PodsOf(pods, Replica);
    forall pod: Pod ensures pod in masters <==> pod in pods && ModeOf(pod) == Some(On) {
      PodsOfMode(pods, On, pod);
    }
    forall pod: Pod ensures pod in replicas <==> pod in pods && ModeOf(pod) == Some(Replica) {
      PodsOfMode(pods, Replica, pod);
    }
    assert masters != [] ==> masters[0] in masters;
    assert replicas != [] ==> replicas[0] in replicas;
    DnsListHasHost(masters, sets);
    DnsListHasHost(replicas, sets);
    HostsMakeValues(DnsList(masters, sets));
    HostsMakeValues(DnsList(replicas, sets));
  }

  lemma HostsMakeValues(dns: seq<string>)
    requires forall d <- dns :: d != ""
    ensures NodeListValue(dns) == "cubrid@" <==> dns == []
    ensures CopySyncValue(|dns|) == "" <==> dns == []
  {
    if dns != [] {
      assert dns[0] in dns;
      CopySyncIsJoin(|dns|);
      assert |Join(dns, ':')| >= |dns[0]|;
      assert |Repeat("sync:", |dns|)| >= 5;
    }
  }

  lemma {:induction false} ModeHasPod(pods: seq<Pod>, name: string)
    requires name in ModesOf(pods)
    ensures PodsOf(pods, ModesOf(pods)[name]) != []
  {
    var earlier, pod := pods[..|pods| - 1], pods[|pods| - 1];
    if !(ModeOf(pod).Some? && pod.name == name) {
      ModeHasPod(earlier, name);
    }
  }

  /** A pod in a mode means that the group has that mode's list, if only the bare `cubrid@`, so both
      rounds of commands of one pod set the same value. */
  lemma ListsAreNeverEmpty(pods: seq<Pod>, sets: StatefulSets, name: string)
    requires name in GroupConfigOf(pods, sets).modes
    ensures var config := GroupConfigOf(pods, sets);
            && (config.modes[name] == On ==> config.values.haNodeList != "")
            && (config.modes[name] == Replica ==> config.values.haReplicaList != "")
    ensures var config := GroupConfigOf(pods, sets);
            forall c | c in CubridConfCommands(config.modes[name], config.values) && HaEdits(c) != [] ::
              c in HaConfCommands(config.values)
  {
    ModeHasPod(pods, name);
  }
}
