/** Admission of CubridDB objects (api/v1/cubriddb_webhook.go, api/v1/cubriddb_types.go): the
    mutating webhook fills in defaults, then the validating webhook accepts or refuses. The
    validators work on a decoded copy, which they may fill in further; what is stored is the
    defaulted object. */
module Admission {
  import opened Wrappers

  // ---------------------------------------------------------------- the object

  datatype CubridRef = CubridRef(name: string, namespace: string)

  datatype HAmodeType = HAmodeType(kind: string, cubridRef: Option<CubridRef>)

  datatype Replication = Replication(enable: bool, replicas: int, haModeType: Option<HAmodeType>, haPort: Option<int>)

  datatype CMSService = CMSService(kind: Option<string>, startPort: Option<int>, port: Option<int>)

  datatype Broker = Broker(name: string, port: int, serviceType: string, servicePort: int)

  datatype VolumeClaimTemplate =
    VolumeClaimTemplate(accessModes: seq<string>, requests: map<string, int>, hasSelector: bool,
                        storageClassName: Option<string>)

  datatype Storage =
    Storage(name: string, mountPath: string, kind: string, size: Option<int>, storageClassName: string,
            volumeName: string, template: Option<VolumeClaimTemplate>)

  datatype Spec =
    Spec(replication: Option<Replication>, affinity: Option<bool>, broker: seq<Broker>, cms: Option<CMSService>,
         image: string, initImage: string, storage: seq<Storage>)

  const MASTER_SLAVE := "master-slave"
  const REPLICA := "replica"
  const NODE_PORT := "NodePort"
  const INGRESS := "Ingress"
  const CLUSTER_IP := "ClusterIP"

  // ---------------------------------------------------------------- defaults

  /** FillWithDefaults: a missing HA mode stays without a type; a present one gets master-slave. */
  function FillMode(h: Option<HAmodeType>): HAmodeType {
    var kind := if h.None? then "" else if h.value.kind == "" then MASTER_SLAVE else h.value.kind;
    var ref := if h.None? then None else h.value.cubridRef;
    HAmodeType(kind,
      Some(if ref.None? then CubridRef("", "")
           else if ref.value.namespace == "" then ref.value.(namespace := "default") else ref.value))
  }

  /** Replication() */
  function Fill(r: Option<Replication>): Replication {
    var base := if r.None? then Replication(false, 1, None, None)
                else if r.value.replicas <= 0 then r.value.(replicas := 1) else r.value;
    base.(haModeType := Some(FillMode(base.haModeType)))
  }

  function Filled(s: Spec): Spec { s.(replication := Some(Fill(s.replication))) }

  function DefaultBrokers(given: seq<Broker>): seq<Broker> {
    if given != [] then given
    else [Broker("cubrid-query-editor", 30000, CLUSTER_IP, 30000), Broker("cubrid-broker1", 33000, CLUSTER_IP, 31000)]
  }

  const IMAGE := "cubrid/cubrid:latest"
  const INIT_IMAGE := "busybox:latest"

  function DefaultStorage(name: string, kind: string, mountPath: string): Storage {
    Storage(name, mountPath, kind, Some(0x8000_0000), "standard", "", None)
  }

  function DefaultStorages(given: seq<Storage>): seq<Storage> {
    if given != [] then given
    else [DefaultStorage("database-storage", "database-storage-type", "/home/cubrid/CUBRID/databases"),
          DefaultStorage("logs-storage", "logs-storage-type", "/home/cubrid/CUBRID/log"),
          DefaultStorage("backupdb-storage", "backup-storage-type", "/home/cubrid/CUBRID/backupdb"),
          DefaultStorage("conf-storage", "conf-storage-type", "/home/cubrid/CUBRID/conf")]
  }

  function DefaultCMS(given: Option<CMSService>): CMSService {
    if given.None? then CMSService(Some(NODE_PORT), Some(31000), Some(8001))
    else
      var c := given.value;
      CMSService(if c.kind.None? then Some(NODE_PORT) else c.kind,
                 if c.startPort.None? then Some(31000) else c.startPort,
                 if c.port.None? then Some(8001) else c.port)
  }

  function WithAffinity(s: Spec): Spec {
    if s.affinity.Some? then s else Filled(s).(affinity := Some(Fill(s.replication).enable))
  }

  /** The replication after the mutating webhook: a missing affinity makes it fill in twice. */
  function DefaultReplication(s: Spec): Replication {
    var r := if s.affinity.Some? then Fill(s.replication) else Fill(Some(Fill(s.replication)));
    r.(haPort := if r.haPort.None? then Some(59901) else r.haPort)
  }

  /** The object that the mutating webhook makes of an object. */
  function Defaulted(s: Spec): Spec {
    Spec(Some(DefaultReplication(s)),
         Some(if s.affinity.Some? then s.affinity.value else Fill(s.replication).enable),
         DefaultBrokers(s.broker), Some(DefaultCMS(s.cms)),
         if s.image == "" then IMAGE else s.image, if s.initImage == "" then INIT_IMAGE else s.initImage,
         DefaultStorages(s.storage))
  }

  /** The object as the validators see it in the end: filled in until nothing changes. */
  function Stable(s: Spec): Spec {
    var r := Fill(Some(Fill(s.replication)));
    s.(replication := Some(r), affinity := Some(if s.affinity.Some? then s.affinity.value else r.enable))
  }

  function HaType(s: Spec): string { Stable(s).replication.value.haModeType.value.kind }

  function RefName(s: Spec): string { Stable(s).replication.value.haModeType.value.cubridRef.value.name }

  function Enabled(s: Spec): bool { Stable(s).replication.value.enable }

  lemma FillSettles(s: Spec)
    ensures Stable(Filled(s)) == Stable(s) && Stable(WithAffinity(s)) == Stable(s)
    ensures HaType(s) != "" && Stable(s).replication.value.replicas >= 1
  {}

  // ---------------------------------------------------------------- what the validators accept

  predicate IsStaticProvisioning(t: VolumeClaimTemplate) {
    t.storageClassName.None? || t.storageClassName.value == ""
  }

  /** Storage.ValidateStorage */
  predicate ValidStorage(s: Storage) {
    var dynamicProvisioning := s.storageClassName != "";
    var staticProvisioning := s.template.Some? && IsStaticProvisioning(s.template.value);
    !(dynamicProvisioning && staticProvisioning) && (staticProvisioning ==> s.template.value.hasSelector)
  }

  predicate ValidTemplate(t: VolumeClaimTemplate) {
    && t.accessModes != [] && |t.requests| != 0
    && "storage" in t.requests && t.requests["storage"] > 0
  }

  predicate StorageOk(s: Storage) {
    && ValidStorage(s)
    && s.name != ""
    && s.mountPath != "" && s.mountPath[0] == '/'
    && (s.size.Some? ==> s.size.value > 0)
    && (s.template.Some? ==> ValidTemplate(s.template.value))
  }

  ghost predicate UniqueNames(storage: seq<Storage>) {
    forall i, j | 0 <= i < j < |storage| && storage[i].name != "" :: storage[i].name != storage[j].name
  }

  ghost predicate StoragesOk(s: Spec) {
    (forall x <- s.storage :: StorageOk(x)) && UniqueNames(s.storage)
  }

  predicate InNodePortRange(port: int) { 30000 <= port <= 32767 }

  predicate InPortRange(port: int) { 1 <= port <= 65535 }

  predicate BrokerPortOk(b: Broker) {
    b.serviceType == NODE_PORT && b.servicePort != 0 ==> InNodePortRange(b.servicePort)
  }

  ghost predicate BrokerPortsOk(s: Spec) { forall b <- s.broker :: BrokerPortOk(b) }

  predicate CMSOk(s: Spec) {
    s.cms.Some? && s.cms.value.kind.Some? ==>
      var c := s.cms.value;
      && (c.kind.value == NODE_PORT || c.kind.value == INGRESS)
      && (c.kind.value == NODE_PORT ==>
            && (c.startPort.Some? ==> InNodePortRange(c.startPort.value))
            && (c.port.Some? ==> InPortRange(c.port.value)))
  }

  predicate HAOk(s: Spec) { !Enabled(s) ==> Stable(s).replication.value.replicas == 1 }

  /** Another CubridDB of the namespace and the name it refers to. */
  datatype Peer = Peer(name: string, refName: string)

  predicate RefOk(s: Spec, name: string, peers: seq<Peer>) {
    Enabled(s) && HaType(s) == REPLICA ==>
      RefName(s) != "" && forall p <- peers :: p.name == name || p.refName != RefName(s)
  }

  predicate HAPortOk(s: Spec) {
    s.replication.Some? && s.replication.value.enable && s.replication.value.haPort.Some? ==>
      InPortRange(s.replication.value.haPort.value)
  }

  ghost predicate TypesOk(s: Spec) {
    forall b <- s.broker :: b.serviceType == CLUSTER_IP || b.serviceType == NODE_PORT
  }

  ghost predicate CreateOk(s: Spec, name: string, peers: seq<Peer>) {
    && HAOk(s) && RefOk(s, name, peers) && CMSOk(s) && BrokerPortsOk(s)
    && TypesOk(s) && s.image != "" && HAPortOk(s) && StoragesOk(s)
  }

  predicate SameIfBoth<T(==)>(a: Option<T>, b: Option<T>) { a.Some? && b.Some? ==> a == b }

  predicate CMSKept(before: Spec, s: Spec) {
    before.cms.Some? && s.cms.Some? ==>
      && SameIfBoth(before.cms.value.kind, s.cms.value.kind)
      && SameIfBoth(before.cms.value.startPort, s.cms.value.startPort)
  }

  predicate UpdateHAOk(before: Spec, s: Spec) {
    && Enabled(s) == Enabled(before)
    && if Enabled(s) then
         && HaType(s) == HaType(before)
         && (HaType(s) == MASTER_SLAVE || HaType(s) == REPLICA)
         && (HaType(s) == REPLICA ==> RefName(s) != "")
         && Stable(s).affinity.value
       else Stable(s).replication.value.replicas == 1
  }

  /** The same on the replications of both objects, filled to the end. */
  lemma UpdateHAByFill(s: Spec, before: Spec, r: Replication, b: Replication)
    requires r == Stable(s).replication.value && b == Stable(before).replication.value
    ensures UpdateHAOk(before, s) <==>
              && r.enable == b.enable
              && var mode := r.haModeType.value;
                 if r.enable then
                   && mode.kind == b.haModeType.value.kind
                   && (mode.kind == MASTER_SLAVE || mode.kind == REPLICA)
                   && (mode.kind == REPLICA ==> mode.cubridRef.value.name != "")
                   && Stable(s).affinity.value
                 else r.replicas == 1
  {}

  ghost predicate UpdateOk(before: Spec, s: Spec) {
    && CMSKept(before, s) && UpdateHAOk(before, s) && s.storage == before.storage
    && BrokerPortsOk(s) && StoragesOk(s)
  }

  // ---------------------------------------------------------------- admitted histories

  /** The stored objects of one CubridDB: a create and then updates, each defaulted and accepted. */
  ghost predicate Admitted(h: seq<Spec>, name: string, peers: seq<Peer>) {
    && h != []
    && (forall i | 0 <= i < |h| :: exists u :: h[i] == Defaulted(u))
    && CreateOk(h[0], name, peers)
    && forall i | 0 < i < |h| :: UpdateOk(h[i - 1], h[i])
  }

  /** What every stored object has in common with the first one, and what holds of each. */
  ghost predicate Kept(first: Spec, s: Spec) {
    // complete
    && s.replication.Some? && s.cms.Some? && s.cms.value.kind.Some? && s.cms.value.startPort.Some?
    && first.cms.Some? && first.cms.value.kind.Some?
    // never changed
    && Enabled(s) == Enabled(first)
    && s.storage == first.storage
    && s.cms.value.kind == first.cms.value.kind
    && s.cms.value.startPort == first.cms.value.startPort
    && (Enabled(s) ==> HaType(s) == HaType(first))
    // always valid
    && (s.cms.value.kind.value == NODE_PORT ==> InNodePortRange(s.cms.value.startPort.value))
    && (!Enabled(s) ==> s.replication.value.replicas == 1)
    && (Enabled(s) && HaType(s) == REPLICA ==> RefName(s) != "")
    && (forall i, j | 0 <= i < j < |s.storage| :: s.storage[i].name != s.storage[j].name)
  }

  lemma DefaultedIsComplete(u: Spec)
    ensures var d := Defaulted(u);
            && Complete(d)
            && Stable(d).replication.value.replicas == d.replication.value.replicas
  {}

  lemma DefaultedInSteps(s: Spec)
    ensures var a := Filled(s).(broker := DefaultBrokers(s.broker),
                                image := if s.image == "" then IMAGE else s.image,
                                initImage := if s.initImage == "" then INIT_IMAGE else s.initImage,
                                storage := DefaultStorages(s.storage));
            var b := WithAffinity(a).(cms := Some(DefaultCMS(s.cms)));
            var r := b.replication.value;
            Defaulted(s) == b.(replication := Some(r.(haPort := if r.haPort.None? then Some(59901) else r.haPort)))
  {}

  lemma DefaultedKeepsGiven(u: Spec)
    ensures KeepsGiven(u, Defaulted(u))
  {
    var d := Defaulted(u);
    DefaultReplicationSettles(u);
    assert HaType(d) == HaType(u) && RefName(d) == RefName(u);
  }

  lemma UniqueOfStorages(s: Spec)
    requires StoragesOk(s)
    ensures forall i, j | 0 <= i < j < |s.storage| :: s.storage[i].name != s.storage[j].name
  {
    forall i, j | 0 <= i < j < |s.storage| ensures s.storage[i].name != s.storage[j].name {
      assert s.storage[i] in s.storage;
    }
  }

  lemma CreateKeeps(s: Spec, name: string, peers: seq<Peer>)
    requires (exists u :: s == Defaulted(u)) && CreateOk(s, name, peers)
    ensures Kept(s, s)
  {
    var u :| s == Defaulted(u);
    DefaultedIsComplete(u);
    UniqueOfStorages(s);
  }

  lemma UpdateKeeps(first: Spec, before: Spec, s: Spec)
    requires Kept(first, before) && (exists u :: s == Defaulted(u)) && UpdateOk(before, s)
    ensures Kept(first, s)
  {
    var u :| s == Defaulted(u);
    DefaultedIsComplete(u);
  }

  /** Over every admitted history: replication enable, the storage list, the CMS type, the CMS start
      port and, when enabled, the HA type never change; the start port of a NodePort service, which
      only the creation checks, stays in range; disabled replication has exactly 1 replica; an
      enabled replica names a master; storage names are unique. */
  lemma {:induction false} AdmittedHistoriesKeep(h: seq<Spec>, name: string, peers: seq<Peer>, i: nat)
    requires Admitted(h, name, peers) && i < |h|
    ensures Kept(h[0], h[i])
  {
    if i == 0 {
      CreateKeeps(h[0], name, peers);
    } else {
      AdmittedHistoriesKeep(h, name, peers, i - 1);
      UpdateKeeps(h[0], h[i - 1], h[i]);
    }
  }

  // ---------------------------------------------------------------- what defaulting does

  /** Every field that was given stays as it is. */
  predicate KeepsGiven(u: Spec, d: Spec) {
    && (u.broker != [] ==> d.broker == u.broker)
    && (u.image != "" ==> d.image == u.image) && (u.initImage != "" ==> d.initImage == u.initImage)
    && (u.storage != [] ==> d.storage == u.storage)
    && (u.affinity.Some? ==> d.affinity == u.affinity)
    && (u.cms.Some? ==>
          && d.cms.Some? && (u.cms.value.kind.Some? ==> d.cms.value.kind == u.cms.value.kind)
          && (u.cms.value.startPort.Some? ==> d.cms.value.startPort == u.cms.value.startPort)
          && (u.cms.value.port.Some? ==> d.cms.value.port == u.cms.value.port))
    && (u.replication.Some? ==>
          var r := u.replication.value;
          && d.replication.Some? && d.replication.value.enable == r.enable
          && (r.replicas > 0 ==> d.replication.value.replicas == r.replicas)
          && (r.haPort.Some? ==> d.replication.value.haPort == r.haPort)
          && (r.haModeType.Some? ==>
                && d.replication.value.haModeType.Some?
                && (r.haModeType.value.kind != "" ==> HaType(d) == r.haModeType.value.kind)
                && (r.haModeType.value.cubridRef.Some? ==> RefName(d) == r.haModeType.value.cubridRef.value.name)))
  }

  /** No field is missing. */
  predicate Complete(d: Spec) {
    && d.broker != [] && d.image != "" && d.initImage != "" && d.storage != [] && d.affinity.Some?
    && d.cms.Some? && d.cms.value.kind.Some? && d.cms.value.startPort.Some? && d.cms.value.port.Some?
    && d.replication.Some? && d.replication.value.replicas >= 1 && d.replication.value.haPort.Some?
    && d.replication.value.haModeType.Some? && d.replication.value.haModeType.value.cubridRef.Some?
  }

  /** The CMS service that was given, a missing type being NodePort. */
  predicate GivenCMSOk(s: Spec) {
    s.cms.Some? ==>
      CMSOk(s.(cms := Some(s.cms.value.(kind := if s.cms.value.kind.None? then Some(NODE_PORT) else s.cms.value.kind))))
  }

  lemma DefaultStoragesAreOk(name0: string, name1: string, name2: string, name3: string,
                             path0: string, path1: string, path2: string, path3: string, kinds: seq<string>)
    requires |name0| == 16 && |name1| == |name3| == 12 && |name2| == 16 && name0[0] != name2[0] && name1[0] != name3[0]
    requires path0 != "" && path1 != "" && path2 != "" && path3 != ""
    requires path0[0] == path1[0] == path2[0] == path3[0] == '/' && |kinds| == 4
    ensures var all := [DefaultStorage(name0, kinds[0], path0), DefaultStorage(name1, kinds[1], path1),
                        DefaultStorage(name2, kinds[2], path2), DefaultStorage(name3, kinds[3], path3)];
            (forall x <- all :: StorageOk(x)) && UniqueNames(all)
  {
    var all := [DefaultStorage(name0, kinds[0], path0), DefaultStorage(name1, kinds[1], path1),
                DefaultStorage(name2, kinds[2], path2), DefaultStorage(name3, kinds[3], path3)];
    assert |all| == 4 && all[0].name == name0 && all[1].name == name1 && all[2].name == name2 && all[3].name == name3;
    assert "standard" != "";
  }

  lemma DefaultedStoragesAreOk(u: Spec)
    ensures StoragesOk(Defaulted(u)) <==> StoragesOk(u)
  {
    if u.storage == [] {
      DefaultStoragesAreOk("database-storage", "logs-storage", "backupdb-storage", "conf-storage",
                           "/home/cubrid/CUBRID/databases", "/home/cubrid/CUBRID/log", "/home/cubrid/CUBRID/backupdb",
                           "/home/cubrid/CUBRID/conf",
                           ["database-storage-type", "logs-storage-type", "backup-storage-type", "conf-storage-type"]);
    }
  }

  lemma DefaultReplicationSettles(s: Spec)
    ensures var r := Fill(Some(Fill(s.replication)));
            && Fill(Some(Fill(Some(DefaultReplication(s))))) == r.(haPort := DefaultReplication(s).haPort)
            && DefaultReplication(s).enable == r.enable && DefaultReplication(s).replicas == r.replicas
  {}

  lemma DefaultedReplicationIsOk(u: Spec, name: string, peers: seq<Peer>)
    ensures var d := Defaulted(u); Enabled(d) == Enabled(u) && HaType(d) == HaType(u) && RefName(d) == RefName(u)
    ensures HAOk(Defaulted(u)) <==> HAOk(u)
    ensures RefOk(Defaulted(u), name, peers) <==> RefOk(u, name, peers)
    ensures HAPortOk(Defaulted(u)) <==> HAPortOk(u)
  {
    DefaultReplicationSettles(u);
    var d := Defaulted(u);
    assert Stable(d).replication.value == Stable(u).replication.value.(haPort := DefaultReplication(u).haPort);
  }

  lemma DefaultedCMSIsOk(u: Spec)
    ensures CMSOk(Defaulted(u)) <==> GivenCMSOk(u)
  {
    var d := Defaulted(u);
    assert d.cms == Some(DefaultCMS(u.cms));
  }

  lemma DefaultedBrokersAreOk(u: Spec)
    ensures BrokerPortsOk(Defaulted(u)) <==> BrokerPortsOk(u)
    ensures TypesOk(Defaulted(u)) <==> TypesOk(u)
  {}

  /** A creation is refused for what was given, never for a default. */
  lemma DefaultsAreAdmitted(u: Spec, name: string, peers: seq<Peer>)
    ensures CreateOk(Defaulted(u), name, peers) <==>
              && HAOk(u) && RefOk(u, name, peers) && GivenCMSOk(u) && BrokerPortsOk(u) && TypesOk(u)
              && HAPortOk(u) && StoragesOk(u)
  {
    DefaultedReplicationIsOk(u, name, peers);
    DefaultedCMSIsOk(u);
    DefaultedBrokersAreOk(u);
    DefaultedStoragesAreOk(u);
    assert Defaulted(u).image != "";
  }

  /** Defaulting is idempotent exactly when no affinity is given, which makes it fill in the replication
      twice, or when the reference is there: otherwise the second application completes what the
      first one left open, an HA mode without a type and a reference without a namespace. */
  lemma DefaultingIsIdempotent(u: Spec)
    ensures Defaulted(Defaulted(u)) == Defaulted(u) <==>
              || u.affinity.None?
              || (u.replication.Some? && u.replication.value.haModeType.Some?
                  && u.replication.value.haModeType.value.cubridRef.Some?)
  {
    var d := Defaulted(u);
    assert Defaulted(d) == d.(replication := Some(DefaultReplication(d)));
    assert DefaultReplication(d) == Fill(d.replication);
    assert Fill(d.replication) == d.replication.value.(haModeType := Some(FillMode(d.replication.value.haModeType)));
  }

  /** Two applications always settle. */
  lemma DefaultingSettles(u: Spec)
    ensures Defaulted(Defaulted(Defaulted(u))) == Defaulted(Defaulted(u))
  {
    DefaultingIsIdempotent(Defaulted(u));
  }

  /** An object with an affinity and no HA mode gets its HA type at the second application only. */
  lemma SecondDefaultChangesType(u: Spec)
    requires u.affinity.Some? && (u.replication.None? || u.replication.value.haModeType.None?)
    ensures Defaulted(u).replication.value.haModeType.value.kind == ""
    ensures Defaulted(Defaulted(u)).replication.value.haModeType.value.kind == MASTER_SLAVE
  {}

  // ---------------------------------------------------------------- unknown HA types

  function WithKind(s: Spec, kind: string): Spec
    requires s.replication.Some? && s.replication.value.haModeType.Some?
  {
    var r := s.replication.value;
    s.(replication := Some(r.(haModeType := Some(r.haModeType.value.(kind := kind)))))
  }

  /** The HA type itself is checked only on update: a creation answers the same for all types other
      than a replica's. */
  lemma HaTypeIsNotCheckedAtCreation(s: Spec, one: string, two: string, name: string, peers: seq<Peer>)
    requires s.replication.Some? && s.replication.value.haModeType.Some?
    requires one != "" && one != REPLICA && two != "" && two != REPLICA
    ensures CreateOk(WithKind(s, one), name, peers) <==> CreateOk(WithKind(s, two), name, peers)
    ensures HaType(WithKind(s, one)) == one && HaType(WithKind(s, two)) == two
  {}

  ghost predicate CanBeUpdated(before: Spec) { exists u :: UpdateOk(before, Defaulted(u)) }

  lemma AffinityUpdateIsOk(before: Spec)
    requires Complete(before) && BrokerPortsOk(before) && StoragesOk(before)
    requires !Enabled(before) ==> before.replication.value.replicas == 1
    requires Enabled(before) ==> HaType(before) == MASTER_SLAVE || HaType(before) == REPLICA
    requires Enabled(before) && HaType(before) == REPLICA ==> RefName(before) != ""
    ensures CanBeUpdated(before)
  {
    var u := before.(affinity := Some(true));
    DefaultReplicationSettles(u);
    assert Defaulted(u).cms == before.cms && Defaulted(u).affinity == Some(true);
    assert UpdateHAOk(before, Defaulted(u));
    assert UpdateOk(before, Defaulted(u));
  }

  lemma LastIsComplete(h: seq<Spec>, name: string, peers: seq<Peer>)
    requires Admitted(h, name, peers)
    ensures var last := h[|h| - 1];
            && Complete(last) && BrokerPortsOk(last) && StoragesOk(last)
            && (!Enabled(last) ==> last.replication.value.replicas == 1)
            && (Enabled(last) && HaType(last) == REPLICA ==> RefName(last) != "")
  {
    var last := h[|h| - 1];
    AdmittedHistoriesKeep(h, name, peers, |h| - 1);
    var u :| last == Defaulted(u);
    DefaultedIsComplete(u);
    if |h| > 1 {
      assert UpdateOk(h[|h| - 2], last);
    }
  }

  /** At any point of an admitted history some update is still accepted exactly when replication is
      disabled or its HA type is a known one: an object of unknown type is frozen for ever. */
  lemma UnknownTypeIsFrozen(h: seq<Spec>, name: string, peers: seq<Peer>)
    requires Admitted(h, name, peers)
    ensures var last := h[|h| - 1];
            CanBeUpdated(last) <==> !Enabled(last) || HaType(last) == MASTER_SLAVE || HaType(last) == REPLICA
  {
    var last := h[|h| - 1];
    LastIsComplete(h, name, peers);
    if !Enabled(last) || HaType(last) == MASTER_SLAVE || HaType(last) == REPLICA {
      AffinityUpdateIsOk(last);
    }
  }

  /** Such an object: enabled, of an unknown type, and nothing else given. */
  lemma UnknownTypeIsAdmitted(kind: string, name: string, peers: seq<Peer>) returns (s: Spec)
    requires kind != "" && kind != MASTER_SLAVE && kind != REPLICA
    ensures Admitted([s], name, peers) && Enabled(s) && HaType(s) == kind && !CanBeUpdated(s)
  {
    var u := Spec(Some(Replication(true, 1, Some(HAmodeType(kind, None)), None)), None, [], None, "", "", []);
    s := Defaulted(u);
    DefaultsAreAdmitted(u, name, peers);
    UnknownTypeIsFrozen([s], name, peers);
  }

  // ---------------------------------------------------------------- the webhook methods

  datatype Field = Replicas | Enable | HaModeType | RefNameField | AntiAffinity | CMSType | CMSStartPort | CMSPort
                 | BrokerPort(i: nat) | BrokerType(i: nat) | Image | HAPort | StorageAt(i: nat) | Storages

  /** Two views of an object that differ only in how far it is filled in. */
  predicate SameObject(a: Spec, b: Spec) { Stable(a) == Stable(b) }

  class CubridDB {
    const name: string
    var spec: Spec

    constructor (name: string, spec: Spec)
      ensures this.name == name && this.spec == spec
    {
      this.name, this.spec := name, spec;
    }

    method FillWithDefaults()
      requires spec.replication.Some?
      modifies this
      ensures spec == old(spec).(replication := Some(old(spec).replication.value.(haModeType :=
                        Some(FillMode(old(spec).replication.value.haModeType)))))
    {
      var r := spec.replication.value;
      if r.haModeType.None? {
        r := r.(haModeType := Some(HAmodeType("", None)));
      } else if r.haModeType.value.kind == "" {
        r := r.(haModeType := Some(r.haModeType.value.(kind := MASTER_SLAVE)));
      }
      var ref := r.haModeType.value.cubridRef;
      if ref.None? {
        ref := Some(CubridRef("", ""));
      } else if ref.value.namespace == "" {
        ref := Some(ref.value.(namespace := "default"));
      }
      r := r.(haModeType := Some(r.haModeType.value.(cubridRef := ref)));
      spec := spec.(replication := Some(r));
    }

    /** CubridDB.Replication() */
    method FillReplication() returns (r: Replication)
      modifies this
      ensures spec == Filled(old(spec)) && spec.replication == Some(r)
      ensures SameObject(spec, old(spec))
    {
      FillSettles(spec);
      if spec.replication.None? {
        spec := spec.(replication := Some(Replication(false, 1, None, None)));
      } else if spec.replication.value.replicas <= 0 {
        spec := spec.(replication := Some(spec.replication.value.(replicas := 1)));
      }
      FillWithDefaults();
      r := spec.replication.value;
    }

    method InitAffinity()
      modifies this
      ensures spec == WithAffinity(old(spec)) && spec.affinity.Some? && SameObject(spec, old(spec))
    {
      FillSettles(spec);
      if spec.affinity.Some? {
        return;
      }
      spec := spec.(affinity := Some(false));
      var r := FillReplication();
      spec := spec.(affinity := Some(r.enable));
    }

    method InitBroker()
      modifies this
      ensures spec == old(spec).(broker := DefaultBrokers(old(spec).broker))
    {
      if |spec.broker| > 0 {
        return;
      }
      spec := spec.(broker := [Broker("cubrid-query-editor", 30000, CLUSTER_IP, 30000),
                               Broker("cubrid-broker1", 33000, CLUSTER_IP, 31000)]);
    }

    method InitImage()
      modifies this
      ensures spec == old(spec).(image := if old(spec).image == "" then IMAGE else old(spec).image,
                                 initImage := if old(spec).initImage == "" then INIT_IMAGE else old(spec).initImage)
    {
      if spec.image == "" {
        spec := spec.(image := IMAGE);
      }
      if spec.initImage == "" {
        spec := spec.(initImage := INIT_IMAGE);
      }
    }

    method InitStorages()
      modifies this
      ensures spec == old(spec).(storage := DefaultStorages(old(spec).storage))
    {
      if |spec.storage| > 0 {
        return;
      }
      spec := spec.(storage := DefaultStorages([]));
    }

    method InitCMSService()
      modifies this
      ensures spec == old(spec).(cms := Some(DefaultCMS(old(spec).cms)))
    {
      var c := if spec.cms.None? then CMSService(None, None, None) else spec.cms.value;
      if c.kind.None? {
        c := c.(kind := Some(NODE_PORT));
      }
      if c.startPort.None? {
        c := c.(startPort := Some(31000));
      }
      if c.port.None? {
        c := c.(port := Some(8001));
      }
      spec := spec.(cms := Some(c));
    }

    method InitHAPort()
      modifies this
      ensures var r := if old(spec).replication.None? then Replication(false, 0, None, None) else old(spec).replication.value;
              spec == old(spec).(replication := Some(r.(haPort := if r.haPort.None? then Some(59901) else r.haPort)))
    {
      if spec.replication.None? {
        spec := spec.(replication := Some(Replication(false, 0, None, None)));
      }
      if spec.replication.value.haPort.None? {
        spec := spec.(replication := Some(spec.replication.value.(haPort := Some(59901))));
      }
    }

    /** The initialisers in turn; every given field stays and none is missing in the end. */
    method Default()
      modifies this
      ensures KeepsGiven(old(spec), spec) && Complete(spec)
      ensures spec == Defaulted(old(spec))
    {
      var _ := FillReplication();
      InitBroker();
      InitImage();
      InitStorages();
      InitAffinity();
      InitCMSService();
      InitHAPort();
      DefaultedInSteps(old(spec));
      DefaultedIsComplete(old(spec));
      DefaultedKeepsGiven(old(spec));
    }

    method ValidateHA() returns (errs: seq<Field>)
      modifies this
      ensures SameObject(spec, old(spec)) && exists u :: spec == Filled(u)
      ensures errs == [] <==> HAOk(old(spec))
    {
      errs := [];
      var r := FillReplication();
      if !r.enable {
        r := FillReplication();
        if r.replicas != 1 {
          errs := errs + [Replicas];
        }
      }
    }

    /** It follows another call of Replication(), so that two fills settle the HA type. */
    method ValidateCubridDBByRefName(peers: seq<Peer>) returns (errs: seq<Field>)
      requires exists u :: spec == Filled(u)
      modifies this
      ensures SameObject(spec, old(spec))
      ensures errs == [] <==> RefOk(old(spec), name, peers)
    {
      errs := [];
      var r := FillReplication();
      if !r.enable {
        return;
      }
      var mode := spec.replication.value.haModeType.value;
      assert mode == Stable(spec).replication.value.haModeType.value;
      var refName := mode.cubridRef.value.name;
      if mode.kind == REPLICA && refName == "" {
        return [RefNameField];
      }
      if mode.kind == REPLICA {
        for i := 0 to |peers|
          invariant forall j | 0 <= j < i :: peers[j].name == name || peers[j].refName != refName
        {
          if peers[i].name != name && peers[i].refName == refName {
            assert peers[i] in peers;
            return [RefNameField];
          }
        }
      }
    }

    method ValidateCMSService() returns (errs: seq<Field>)
      ensures errs == [] <==> CMSOk(spec)
    {
      errs := [];
      if spec.cms.Some? {
        var c := spec.cms.value;
        if c.kind.Some? {
          if c.kind.value != NODE_PORT && c.kind.value != INGRESS {
            errs := errs + [CMSType];
          }
          if c.kind.value == NODE_PORT {
            if c.startPort.Some? && !InNodePortRange(c.startPort.value) {
              errs := errs + [CMSStartPort];
            }
            if c.port.Some? && !InPortRange(c.port.value) {
              errs := errs + [CMSPort];
            }
          }
        }
      }
    }

    method ValidateBrokerServicePort() returns (errs: seq<Field>)
      ensures errs == [] <==> BrokerPortsOk(spec)
    {
      errs := [];
      for i := 0 to |spec.broker|
        invariant errs == [] <==> forall j | 0 <= j < i :: BrokerPortOk(spec.broker[j])
      {
        if !BrokerPortOk(spec.broker[i]) {
          errs := errs + [BrokerPort(i)];
        }
      }
    }

    method ValidateBrokerServiceType() returns (errs: seq<Field>)
      ensures errs == [] <==> TypesOk(spec)
    {
      errs := [];
      for i := 0 to |spec.broker|
        invariant errs == [] <==> forall j | 0 <= j < i ::
                    spec.broker[j].serviceType == CLUSTER_IP || spec.broker[j].serviceType == NODE_PORT
      {
        if spec.broker[i].serviceType != CLUSTER_IP && spec.broker[i].serviceType != NODE_PORT {
          errs := errs + [BrokerType(i)];
        }
      }
    }

    method ValidateUniqueStorageNames() returns (ok: bool)
      ensures ok <==> UniqueNames(spec.storage)
    {
      var names: set<string> := {};
      var storage := spec.storage;
      for i := 0 to |storage|
        invariant forall n :: n in names <==> n != "" && exists j :: 0 <= j < i && storage[j].name == n
        invariant UniqueNames(storage[..i])
      {
        assert storage[..i + 1] == storage[..i] + [storage[i]];
        if storage[i].name != "" {
          if storage[i].name in names {
            return false;
          }
          names := names + {storage[i].name};
        }
      }
      assert storage[..|storage|] == storage;
      return true;
    }

    method ValidateStorageConfiguration() returns (errs: seq<Field>)
      ensures errs == [] <==> StoragesOk(spec)
    {
      errs := [];
      for i := 0 to |spec.storage|
        invariant errs == [] <==> forall j | 0 <= j < i :: StorageOk(spec.storage[j])
      {
        if !StorageOk(spec.storage[i]) {
          errs := errs + [StorageAt(i)];
        }
      }
      var unique := ValidateUniqueStorageNames();
      if !unique {
        errs := errs + [Storages];
      }
    }

    /** The validators run in turn and the first errors end the validation. */
    method ValidateCreate(peers: seq<Peer>) returns (errs: seq<Field>)
      modifies this
      ensures errs == [] <==> CreateOk(old(spec), name, peers)
    {
      ghost var was := spec;
      errs := ValidateHA();
      if errs != [] {
        return;
      }
      errs := ValidateCubridDBByRefName(peers);
      if errs != [] {
        return;
      }
      errs := ValidateCMSService();
      if errs != [] {
        return;
      }
      errs := ValidateBrokerServicePort();
      if errs != [] {
        return;
      }
      errs := ValidateBrokerServiceType();
      if errs != [] {
        return;
      }
      if spec.image == "" {
        return [Image];
      }
      if !HAPortOk(spec) {
        return [HAPort];
      }
      errs := ValidateStorageConfiguration();
    }

    /** validateImmutableFields: the CMS type, and the class and volume of every storage. */
    method ValidateImmutableFields(before: CubridDB) returns (errs: seq<Field>)
      ensures errs == [] <==>
                && (before.spec.cms.Some? && spec.cms.Some? ==>
                      SameIfBoth(before.spec.cms.value.kind, spec.cms.value.kind))
                && |before.spec.storage| == |spec.storage|
                && forall i | 0 <= i < |spec.storage| ::
                     && before.spec.storage[i].storageClassName == spec.storage[i].storageClassName
                     && before.spec.storage[i].volumeName == spec.storage[i].volumeName
    {
      errs := [];
      if before.spec.cms.Some? && spec.cms.Some? && before.spec.cms.value.kind.Some? && spec.cms.value.kind.Some? {
        if before.spec.cms.value.kind != spec.cms.value.kind {
          errs := errs + [CMSType];
        }
      }
      var fine := errs == [];
      if |before.spec.storage| != |spec.storage| {
        errs := errs + [Storages];
      } else {
        for i := 0 to |spec.storage|
          invariant errs == [] <==> fine && forall j | 0 <= j < i ::
                      && before.spec.storage[j].storageClassName == spec.storage[j].storageClassName
                      && before.spec.storage[j].volumeName == spec.storage[j].volumeName
        {
          if before.spec.storage[i].storageClassName != spec.storage[i].storageClassName {
            errs := errs + [StorageAt(i)];
          }
          if before.spec.storage[i].volumeName != spec.storage[i].volumeName {
            errs := errs + [StorageAt(i)];
          }
        }
      }
    }

    method ValidateUpdateHA(before: CubridDB) returns (errs: seq<Field>)
      requires before != this
      modifies this, before
      ensures SameObject(spec, old(spec)) && SameObject(before.spec, old(before.spec))
      ensures errs == [] <==> UpdateHAOk(old(before.spec), old(spec))
    {
      errs := [];
      var r := FillReplication();
      var b := before.FillReplication();
      if r.enable != b.enable {
        errs := errs + [Enable];
      }
      r := FillReplication();
      b := before.FillReplication();
      if r.enable != b.enable {
        errs := errs + [Enable];
      }
      r := FillReplication();
      assert r == Stable(spec).replication.value && b == Stable(before.spec).replication.value;
      UpdateHAByFill(old(spec), old(before.spec), r, b);
      var mode := r.haModeType.value;
      if r.enable {
        if mode.kind != b.haModeType.value.kind {
          errs := errs + [HaModeType];
        }
        if mode.kind != MASTER_SLAVE && mode.kind != REPLICA {
          errs := errs + [HaModeType];
        }
        if mode.kind == REPLICA && mode.cubridRef.value.name == "" {
          errs := errs + [RefNameField];
        }
        InitAffinity();
        assert spec.affinity == Stable(spec).affinity;
        if !spec.affinity.value {
          errs := errs + [AntiAffinity];
        }
      } else if r.replicas != 1 {
        errs := errs + [Replicas];
      }
    }

    method ValidateUpdateStartPort(before: CubridDB) returns (errs: seq<Field>)
      ensures errs == [] <==>
                (before.spec.cms.Some? && spec.cms.Some? ==>
                   SameIfBoth(before.spec.cms.value.startPort, spec.cms.value.startPort))
    {
      errs := [];
      if before.spec.cms.Some? && spec.cms.Some? {
        if before.spec.cms.value.startPort.Some? && spec.cms.value.startPort.Some? {
          if before.spec.cms.value.startPort.value != spec.cms.value.startPort.value {
            errs := errs + [CMSStartPort];
          }
        }
      }
    }

    method ValidateUpdate(before: CubridDB) returns (errs: seq<Field>)
      requires before != this
      modifies this, before
      ensures errs == [] <==> UpdateOk(old(before.spec), old(spec))
    {
      errs := ValidateImmutableFields(before);
      if errs != [] {
        return;
      }
      errs := ValidateUpdateHA(before);
      if errs != [] {
        return;
      }
      if spec.storage != before.spec.storage {
        return [Storages];
      }
      errs := ValidateUpdateStartPort(before);
      if errs != [] {
        return;
      }
      errs := ValidateBrokerServicePort();
      if errs != [] {
        return;
      }
      errs := ValidateStorageConfiguration();
    }
  }
}
