/** The admission rules of a CubridDB written out in the fields that are given, with the constants of
    api/v1/cubriddb_webhook.go and api/v1/cubriddb_types.go, and what the webhooks accept by them. */
module AdmissionRules {
  import opened Wrappers
  import opened Admission

  // ---------------------------------------------------------------- what is given

  /** Replication is enabled; without the section it is not. */
  predicate GivenEnable(s: Spec) { s.replication.Some? && s.replication.value.enable }

  /** The HA type that is given, or the empty one. */
  function GivenType(s: Spec): string {
    if s.replication.Some? && s.replication.value.haModeType.Some? then s.replication.value.haModeType.value.kind else ""
  }

  /** The HA type that is meant: master-slave when none is given. */
  function MeantType(s: Spec): string { if GivenType(s) == "" then "master-slave" else GivenType(s) }

  /** The name of the referenced master, or the empty one. */
  function GivenMaster(s: Spec): string {
    if s.replication.Some? && s.replication.value.haModeType.Some? && s.replication.value.haModeType.value.cubridRef.Some?
    then s.replication.value.haModeType.value.cubridRef.value.name else ""
  }

  lemma ReadsGiven(s: Spec)
    ensures Enabled(s) <==> GivenEnable(s)
    ensures HaType(s) == MeantType(s) && RefName(s) == GivenMaster(s)
  {}

  // ---------------------------------------------------------------- rules

  /** Without replication at most one replica is asked for. */
  predicate OneReplica(s: Spec) {
    s.replication.Some? && !s.replication.value.enable ==> s.replication.value.replicas <= 1
  }

  /** An enabled replica names a master, and no other object names the same one. */
  predicate NamesFreeMaster(s: Spec, name: string, peers: seq<Peer>) {
    GivenEnable(s) && GivenType(s) == "replica" ==>
      GivenMaster(s) != "" && forall p <- peers :: p.name == name || p.refName != GivenMaster(s)
  }

  /** A CMS service is of type NodePort, the default, or Ingress; the ports of a NodePort one are in their
      ranges. */
  predicate CMSRule(s: Spec) {
    s.cms.Some? ==>
      var c := s.cms.value;
      && (c.kind.Some? ==> c.kind.value == "NodePort" || c.kind.value == "Ingress")
      && (c.kind.None? || c.kind.value == "NodePort" ==>
            && (c.startPort.Some? ==> 30000 <= c.startPort.value <= 32767)
            && (c.port.Some? ==> 1 <= c.port.value <= 65535))
  }

  predicate BrokerPortRule(b: Broker) {
    b.serviceType == "NodePort" ==> b.servicePort == 0 || 30000 <= b.servicePort <= 32767
  }

  ghost predicate BrokerRule(s: Spec) {
    forall b <- s.broker :: (b.serviceType == "ClusterIP" || b.serviceType == "NodePort") && BrokerPortRule(b)
  }

  predicate HAPortRule(s: Spec) {
    GivenEnable(s) && s.replication.value.haPort.Some? ==> 1 <= s.replication.value.haPort.value <= 65535
  }

  /** A claim template without a storage class is for a volume that a selector finds, and then the storage
      names no class itself. */
  predicate StorageRule(x: Storage) {
    && x.name != "" && x.mountPath != "" && x.mountPath[0] == '/'
    && (x.size.Some? ==> x.size.value > 0)
    && (x.template.Some? ==>
          var c := x.template.value;
          && c.accessModes != [] && "storage" in c.requests && c.requests["storage"] > 0
          && (c.storageClassName == None || c.storageClassName == Some("") ==> c.hasSelector && x.storageClassName == ""))
  }

  ghost predicate StorageRules(s: Spec) {
    && (forall x <- s.storage :: StorageRule(x))
    && forall i, j | 0 <= i < j < |s.storage| :: s.storage[i].name != s.storage[j].name
  }

  // ---------------------------------------------------------------- what the webhooks accept

  lemma HARules(u: Spec, name: string, peers: seq<Peer>)
    ensures HAOk(u) <==> OneReplica(u)
    ensures RefOk(u, name, peers) <==> NamesFreeMaster(u, name, peers)
    ensures HAPortOk(u) <==> HAPortRule(u)
  {
    ReadsGiven(u);
    assert REPLICA == "replica" && MASTER_SLAVE == "master-slave";
  }

  lemma ServiceRules(u: Spec)
    ensures GivenCMSOk(u) <==> CMSRule(u)
    ensures BrokerPortsOk(u) && TypesOk(u) <==> BrokerRule(u)
    ensures BrokerPortsOk(u) <==> forall b <- u.broker :: BrokerPortRule(b)
  {}

  lemma OneStorage(x: Storage)
    ensures StorageOk(x) <==> StorageRule(x)
  {}

  lemma StorageRulesAre(u: Spec)
    ensures StoragesOk(u) <==> StorageRules(u)
  {
    forall x: Storage ensures StorageOk(x) <==> StorageRule(x) {
      OneStorage(x);
    }
    assert forall i | 0 <= i < |u.storage| :: u.storage[i] in u.storage;
  }

  /** A creation is accepted, after defaulting, exactly when what was given meets the rules. */
  lemma CreationRules(u: Spec, name: string, peers: seq<Peer>)
    ensures CreateOk(Defaulted(u), name, peers) <==>
              && OneReplica(u) && NamesFreeMaster(u, name, peers) && CMSRule(u) && BrokerRule(u) && HAPortRule(u)
              && StorageRules(u)
  {
    DefaultsAreAdmitted(u, name, peers);
    HARules(u, name, peers);
    ServiceRules(u);
    StorageRulesAre(u);
  }

  /** What an update may not change, and the rules of the mode. */
  predicate UpdateRule(before: Spec, s: Spec)
    requires Complete(before) && Complete(s)
  {
    && s.cms.value.kind == before.cms.value.kind && s.cms.value.startPort == before.cms.value.startPort
    && s.storage == before.storage
    && s.replication.value.enable == before.replication.value.enable
    && if s.replication.value.enable then
         && MeantType(s) == MeantType(before)
         && (MeantType(s) == "master-slave" || MeantType(s) == "replica")
         && (MeantType(s) == "replica" ==> GivenMaster(s) != "")
         && s.affinity == Some(true)
       else s.replication.value.replicas == 1
  }

  /** An update from one stored object to another is accepted exactly when it changes nothing that is
      fixed, keeps the rules of its mode, and its NodePort broker ports and storages are valid. */
  lemma UpdateRules(before: Spec, s: Spec)
    requires Complete(before) && Complete(s)
    ensures UpdateOk(before, s) <==>
              UpdateRule(before, s) && (forall b <- s.broker :: BrokerPortRule(b)) && StorageRules(s)
  {
    ReadsGiven(before);
    ReadsGiven(s);
    ServiceRules(s);
    StorageRulesAre(s);
    UpdateRuleIs(before, s);
  }

  lemma UpdateRuleIs(before: Spec, s: Spec)
    requires Complete(before) && Complete(s)
    ensures CMSKept(before, s) && UpdateHAOk(before, s) && s.storage == before.storage <==> UpdateRule(before, s)
  {
    ReadsGiven(before);
    ReadsGiven(s);
    assert Stable(s).affinity == s.affinity && Stable(s).replication.value.replicas == s.replication.value.replicas;
  }

  /** Over every admitted history: replication, the storage list, the CMS type and start port and, when
      enabled, the HA type stay those of the first object; the start port of a NodePort service is a
      NodePort; without replication there is exactly one replica; an enabled replica names a master;
      storage names are unique. */
  lemma HistoriesKeepRules(h: seq<Spec>, name: string, peers: seq<Peer>, i: nat)
    requires Admitted(h, name, peers) && i < |h|
    ensures var s, first := h[i], h[0];
            && Complete(s) && Complete(first)
            && s.replication.value.enable == first.replication.value.enable && s.storage == first.storage
            && s.cms.value.kind == first.cms.value.kind && s.cms.value.startPort == first.cms.value.startPort
            && (s.replication.value.enable ==> MeantType(s) == MeantType(first))
            && (s.cms.value.kind == Some("NodePort") ==> 30000 <= s.cms.value.startPort.value <= 32767)
            && (!s.replication.value.enable ==> s.replication.value.replicas == 1)
            && (s.replication.value.enable && MeantType(s) == "replica" ==> GivenMaster(s) != "")
            && forall j, k | 0 <= j < k < |s.storage| :: s.storage[j].name != s.storage[k].name
  {
    AdmittedHistoriesKeep(h, name, peers, i);
    ReadsGiven(h[i]);
    ReadsGiven(h[0]);
    StoredIsComplete(h, name, peers, i);
    StoredIsComplete(h, name, peers, 0);
  }

  lemma StoredIsComplete(h: seq<Spec>, name: string, peers: seq<Peer>, i: nat)
    requires Admitted(h, name, peers) && i < |h|
    ensures Complete(h[i])
  {
    var u :| h[i] == Defaulted(u);
    DefaultedIsComplete(u);
  }

  // ---------------------------------------------------------------- the defaults

  /** The value of every field that is not given. */
  lemma DefaultValues(u: Spec)
    ensures var d := Defaulted(u);
            && (u.image == "" ==> d.image == "cubrid/cubrid:latest")
            && (u.initImage == "" ==> d.initImage == "busybox:latest")
            && (u.cms.None? ==> d.cms == Some(CMSService(Some("NodePort"), Some(31000), Some(8001))))
            && (u.cms.Some? && u.cms.value.kind.None? ==> d.cms.value.kind == Some("NodePort"))
            && (u.cms.Some? && u.cms.value.startPort.None? ==> d.cms.value.startPort == Some(31000))
            && (u.cms.Some? && u.cms.value.port.None? ==> d.cms.value.port == Some(8001))
  {}

  lemma DefaultReplicationIs(u: Spec)
    ensures var r := Defaulted(u).replication.value;
            && r.enable == GivenEnable(u)
            && (u.replication.None? || u.replication.value.replicas <= 0 ==> r.replicas == 1)
            && (u.replication.None? || u.replication.value.haPort.None? ==> r.haPort == Some(59901))
  {}

  lemma DefaultModeIs(u: Spec)
    ensures MeantType(Defaulted(u)) == MeantType(u) && GivenMaster(Defaulted(u)) == GivenMaster(u)
  {
    DefaultedReplicationIsOk(u, "", []);
    ReadsGiven(u);
    ReadsGiven(Defaulted(u));
  }

  lemma DefaultAffinityIs(u: Spec)
    ensures Defaulted(u).affinity == Some(if u.affinity.Some? then u.affinity.value else GivenEnable(u))
  {}

  lemma DefaultBrokersAre(u: Spec)
    requires u.broker == []
    ensures Defaulted(u).broker == [Broker("cubrid-query-editor", 30000, "ClusterIP", 30000),
                                    Broker("cubrid-broker1", 33000, "ClusterIP", 31000)]
  {}

  /** Four storages of 2 GiB in the class `standard`, one for each part of the database. */
  lemma DefaultStoragesAre(u: Spec)
    requires u.storage == []
    ensures var d := Defaulted(u).storage;
            && |d| == 4
            && d[0].name == "database-storage" && d[0].kind == "database-storage-type" && d[0].mountPath == "/home/cubrid/CUBRID/databases"
            && d[1].name == "logs-storage" && d[1].kind == "logs-storage-type" && d[1].mountPath == "/home/cubrid/CUBRID/log"
            && d[2].name == "backupdb-storage" && d[2].kind == "backup-storage-type" && d[2].mountPath == "/home/cubrid/CUBRID/backupdb"
            && d[3].name == "conf-storage" && d[3].kind == "conf-storage-type" && d[3].mountPath == "/home/cubrid/CUBRID/conf"
            && forall i | 0 <= i < 4 ::
                 d[i].size == Some(2 * 1024 * 1024 * 1024) && d[i].storageClassName == "standard"
                 && d[i].volumeName == "" && d[i].template.None?
  {}
}
