/** The ingress CMS services of pkg/manager/ingress_manager.go: one service per replica index, and
    the clean-up of services whose replica is gone, which has to read the pod name back from the
    service name. The store holds the services of the database's namespace. */
module IngressServices {
  import opened Wrappers
  import opened Text
  import opened PodNames

  datatype CubridDB = CubridDB(name: string, namespace: string, replicas: int, cmsPort: int)

  datatype Owner = Owner(kind: string, name: string)

  /** A headless ClusterIP service that selects one pod. */
  datatype Service = Service(podName: string, port: int, labels: map<string, string>, owners: set<Owner>)

  type Services = map<string, Service>

  // ---------------------------------------------------------------- names

  /** <pod-name>-<namespace>-cms-svc */
  function ServiceName(podName: string, namespace: string): string { podName + "-" + namespace + "-cms-svc" }

  predicate IsIngressCMSService(name: string) {
    |name| >= 8 && name[|name| - 8..] == "-cms-svc"
  }

  /** The pod name that the clean-up reads from a service name: all but the last three parts. */
  function PodOf(name: string): Option<string> {
    var parts := Split(name, '-');
    var namespaceIndex := |parts| - 3;
    if |parts| >= 4 && namespaceIndex > 0 then Some(Join(parts[..namespaceIndex], '-')) else None
  }

  lemma ServiceNameIsIngress(podName: string, namespace: string)
    ensures IsIngressCMSService(ServiceName(podName, namespace))
  {
    var name := ServiceName(podName, namespace);
    assert name[|name| - 8..] == "-cms-svc";
  }

  lemma ServiceNameTail(podName: string, namespace: string) returns (tail: string)
    ensures ServiceName(podName, namespace) == podName + ['-'] + (namespace + ['-'] + tail)
    ensures |Split(tail, '-')| == 2
  {
    tail := "cms" + ['-'] + "svc";
    assert '-' !in "cms" && '-' !in "svc";
    SplitFree("cms", '-');
    SplitFree("svc", '-');
    SplitConcat("cms", "svc", '-');
  }

  lemma PartsOfName(name: string, podName: string, namespace: string, tail: string)
    requires name == podName + ['-'] + (namespace + ['-'] + tail)
    ensures Split(name, '-') == Split(podName, '-') + Split(namespace, '-') + Split(tail, '-')
  {
    SplitConcat(namespace, tail, '-');
    SplitConcat(podName, namespace + ['-'] + tail, '-');
  }

  lemma PodOfSplit(name: string, podName: string, ns: seq<string>, last: seq<string>)
    requires Split(name, '-') == Split(podName, '-') + ns + last && ns != [] && |last| == 2
    ensures PodOf(name) == Some(if |ns| == 1 then podName else podName + "-" + Join(ns[..|ns| - 1], '-'))
  {
    PodOfParts(name, Split(podName, '-'), ns, last);
    JoinPodAndNamespace(podName, ns);
  }

  lemma PodOfParts(name: string, p: seq<string>, ns: seq<string>, last: seq<string>)
    requires Split(name, '-') == p + ns + last && p != [] && ns != [] && |last| == 2
    ensures PodOf(name) == Some(Join(p + ns[..|ns| - 1], '-'))
  {
    var parts := p + ns + last;
    assert parts[..|parts| - 3] == p + ns[..|ns| - 1];
  }

  lemma JoinPodAndNamespace(podName: string, ns: seq<string>)
    requires ns != []
    ensures Join(Split(podName, '-') + ns[..|ns| - 1], '-')
            == if |ns| == 1 then podName else podName + "-" + Join(ns[..|ns| - 1], '-')
  {
    var p := Split(podName, '-');
    JoinSplit(podName, '-');
    if |ns| == 1 {
      assert p + ns[..0] == p;
    } else {
      JoinConcat(p, ns[..|ns| - 1], '-');
    }
  }

  /** What the clean-up reads back: the pod name, followed by all but the last dash-separated part
      of the namespace. */
  lemma PodOfServiceName(podName: string, namespace: string)
    ensures var ns := Split(namespace, '-');
            PodOf(ServiceName(podName, namespace))
            == Some(if |ns| == 1 then podName else podName + "-" + Join(ns[..|ns| - 1], '-'))
  {
    var tail := ServiceNameTail(podName, namespace);
    PodOfName(ServiceName(podName, namespace), podName, namespace, tail);
  }

  lemma PodOfName(name: string, podName: string, namespace: string, tail: string)
    requires name == podName + ['-'] + (namespace + ['-'] + tail) && |Split(tail, '-')| == 2
    ensures var ns := Split(namespace, '-');
            PodOf(name) == Some(if |ns| == 1 then podName else podName + "-" + Join(ns[..|ns| - 1], '-'))
  {
    PartsOfName(name, podName, namespace, tail);
    PodOfSplit(name, podName, Split(namespace, '-'), Split(tail, '-'));
  }

  /** Decoding inverts encoding exactly for dash-free namespaces, whatever dashes the pod name has. */
  lemma DecodeEncode(podName: string, namespace: string)
    ensures PodOf(ServiceName(podName, namespace)) == Some(podName) <==> '-' !in namespace
  {
    PodOfServiceName(podName, namespace);
    SplitIsOne(namespace, '-');
  }

  // ---------------------------------------------------------------- the store

  function Desired(db: CubridDB, podName: string): Service {
    Service(podName, db.cmsPort, map["app" := "cubrid"], {Owner("CubridDB", db.name)})
  }

  /** An existing service keeps its owners. */
  function Put(services: Services, name: string, desired: Service): Services {
    if name in services then services[name := desired.(owners := services[name].owners)]
    else services[name := desired]
  }

  function ReplicaService(db: CubridDB, i: nat): string { ServiceName(PodName(db.name, i), db.namespace) }

  function CreateAll(services: Services, db: CubridDB, n: nat): Services {
    if n == 0 then services
    else Put(CreateAll(services, db, n - 1), ReplicaService(db, n - 1), Desired(db, PodName(db.name, n - 1)))
  }

  predicate Owned(s: Service, db: CubridDB) { Owner("CubridDB", db.name) in s.owners }

  ghost predicate IsReplica(db: CubridDB, podName: string) {
    exists i: nat :: i < db.replicas && podName == PodName(db.name, i)
  }

  ghost predicate Orphaned(name: string, s: Service, db: CubridDB) {
    && IsIngressCMSService(name) && PodOf(name).Some? && Owned(s, db)
    && !IsReplica(db, PodOf(name).value)
  }

  ghost function Cleaned(services: Services, db: CubridDB): Services {
    map name | name in services && !Orphaned(name, services[name], db) :: services[name]
  }

  ghost function Reconcile(services: Services, db: CubridDB): Services {
    Cleaned(CreateAll(services, db, if db.replicas < 0 then 0 else db.replicas), db)
  }

  class IngressManager {
    var services: Services

    method CreateOrUpdateService(name: string, desired: Service)
      modifies this
      ensures services == Put(old(services), name, desired)
    {
      if name !in services {
        services := services[name := desired];
        return;
      }
      var existing := services[name];
      if existing.podName == desired.podName && existing.port == desired.port && existing.labels == desired.labels {
        assert services == services[name := existing];
        return;
      }
      services := services[name := desired.(owners := existing.owners)];
    }

    method CleanupOrphanedIngressCMSServices(db: CubridDB)
      modifies this
      ensures services == Cleaned(old(services), db)
    {
      var expectedReplicaNames: set<string> := {};
      var i: nat := 0;
      while i < db.replicas
        invariant forall p :: p in expectedReplicaNames <==> exists j: nat :: j < i && p == PodName(db.name, j)
        invariant i == 0 || i <= db.replicas
        invariant services == old(services)
      {
        expectedReplicaNames := expectedReplicaNames + {PodName(db.name, i)};
        i := i + 1;
      }
      assert forall p :: p in expectedReplicaNames <==> IsReplica(db, p);
      var items := services.Keys;
      while items != {}
        invariant items <= old(services).Keys
        invariant forall n :: n in services <==> n in old(services) && (n in items || !Orphaned(n, old(services)[n], db))
        invariant forall n <- services :: services[n] == old(services)[n]
        decreases items
      {
        var name :| name in items;
        items := items - {name};
        if IsIngressCMSService(name) {
          var podName := PodOf(name);
          if podName.Some? {
            if Owned(services[name], db) {
              if podName.value !in expectedReplicaNames {
                services := services - {name};
              }
            }
          }
        }
      }
    }

    method ReconcileIngressCMSServices(db: CubridDB)
      modifies this
      ensures services == Reconcile(old(services), db)
    {
      var i: nat := 0;
      while i < db.replicas
        invariant i == 0 || i <= db.replicas
        invariant services == CreateAll(old(services), db, i)
      {
        var podName := PodName(db.name, i);
        CreateOrUpdateService(ServiceName(podName, db.namespace), Desired(db, podName));
        i := i + 1;
      }
      CleanupOrphanedIngressCMSServices(db);
    }
  }

  // ---------------------------------------------------------------- what a reconcile leaves

  lemma ReplicaServicesDiffer(db: CubridDB, i: nat, j: nat)
    requires ReplicaService(db, i) == ReplicaService(db, j)
    ensures i == j
  {
    var tail := "-" + db.namespace + "-cms-svc";
    var a, b := ReplicaService(db, i), ReplicaService(db, j);
    assert a == PodName(db.name, i) + tail && b == PodName(db.name, j) + tail;
    assert a[..|a| - |tail|] == PodName(db.name, i) && b[..|b| - |tail|] == PodName(db.name, j);
    assert PodName(db.name, i)[|db.name| + 1..] == Itoa(i);
    assert PodName(db.name, j)[|db.name| + 1..] == Itoa(j);
    ItoaInjective(i, j);
  }

  /** The store after the creations, service by service. */
  lemma {:induction false} CreateAllElsewhere(services: Services, db: CubridDB, n: nat, name: string)
    requires forall i: nat | i < n :: name != ReplicaService(db, i)
    ensures var after := CreateAll(services, db, n);
            (name in after <==> name in services) && (name in after ==> after[name] == services[name])
  {
    if n > 0 {
      CreateAllElsewhere(services, db, n - 1, name);
    }
  }

  lemma {:induction false} CreateAllHere(services: Services, db: CubridDB, n: nat, i: nat)
    requires i < n
    ensures var after, name := CreateAll(services, db, n), ReplicaService(db, i);
            && name in after
            && after[name] == Desired(db, PodName(db.name, i)).(owners :=
                 if name in services then services[name].owners else {Owner("CubridDB", db.name)})
  {
    var name := ReplicaService(db, i);
    forall j: nat | j < n && name == ReplicaService(db, j) ensures j == i {
      ReplicaServicesDiffer(db, i, j);
    }
    if i < n - 1 {
      CreateAllHere(services, db, n - 1, i);
    } else {
      CreateAllElsewhere(services, db, n - 1, name);
    }
  }

  lemma CreateAllAt(services: Services, db: CubridDB, n: nat, name: string)
    ensures var after := CreateAll(services, db, n);
            && ((forall i: nat | i < n :: name != ReplicaService(db, i)) ==>
                  (name in after <==> name in services) && (name in after ==> after[name] == services[name]))
            && (forall i: nat | i < n && name == ReplicaService(db, i) ::
                  && name in after
                  && after[name] == Desired(db, PodName(db.name, i)).(owners :=
                       if name in services then services[name].owners else {Owner("CubridDB", db.name)}))
  {
    if i: nat :| i < n && name == ReplicaService(db, i) {
      CreateAllHere(services, db, n, i);
      forall j: nat | j < n && name == ReplicaService(db, j) ensures j == i {
        ReplicaServicesDiffer(db, i, j);
      }
    } else {
      CreateAllElsewhere(services, db, n, name);
    }
  }

  /** A pod name followed by more dashed parts is not the name of a replica. */
  lemma LongerIsNoReplica(db: CubridDB, i: nat, more: string)
    ensures !IsReplica(db, PodName(db.name, i) + "-" + more)
  {
    var longer := PodName(db.name, i) + "-" + more;
    var k := |db.name| + 1 + |Itoa(i)|;
    assert longer[k] == '-';
    forall j: nat ensures longer != PodName(db.name, j) {
      var other := PodName(db.name, j);
      if k < |other| {
        assert other[k] == Itoa(j)[|Itoa(i)|] && IsDigit(other[k]);
      }
    }
  }

  lemma ReplicaIsReadBack(db: CubridDB, i: nat)
    requires i < db.replicas
    ensures var name := ReplicaService(db, i);
            && IsIngressCMSService(name) && PodOf(name).Some?
            && (IsReplica(db, PodOf(name).value) <==> '-' !in db.namespace)
  {
    var pod := PodName(db.name, i);
    ServiceNameIsIngress(pod, db.namespace);
    PodOfServiceName(pod, db.namespace);
    SplitIsOne(db.namespace, '-');
    var ns := Split(db.namespace, '-');
    if |ns| == 1 {
      assert IsReplica(db, pod);
    } else {
      LongerIsNoReplica(db, i, Join(ns[..|ns| - 1], '-'));
    }
  }

  /** The clean-up spares the service of a live replica exactly in dash-free namespaces, or when it
      was there before and is not owned; in a namespace with a dash each reconcile deletes the services
      it has just created. */
  lemma LiveServiceIsSpared(services: Services, db: CubridDB, i: nat)
    requires i < db.replicas
    ensures var name := ReplicaService(db, i);
            name in Reconcile(services, db) <==>
              '-' !in db.namespace || (name in services && !Owned(services[name], db))
  {
    CreateAllAt(services, db, db.replicas, ReplicaService(db, i));
    ReplicaIsReadBack(db, i);
  }

  /** The owned service of this name is that of a current replica; one that was there before had to be
      owned, since an update does not add an owner. */
  ghost predicate IsOwnedReplica(services: Services, db: CubridDB, name: string) {
    && (exists i: nat :: i < db.replicas && name == ReplicaService(db, i))
    && (name in services ==> Owned(services[name], db))
  }

  /** Clean-up is exact: in a dash-free namespace, whatever replica count the services come from and
      whatever else is there, a service with the name of some pod's service is there and owned after
      a reconcile exactly when it is that of a current replica. */
  lemma CleanupIsExact(services: Services, db: CubridDB, pod: string)
    requires '-' !in db.namespace
    ensures var name, after := ServiceName(pod, db.namespace), Reconcile(services, db);
            name in after && Owned(after[name], db) <==> IsOwnedReplica(services, db, name)
  {
    var n: nat := if db.replicas < 0 then 0 else db.replicas;
    var name, after := ServiceName(pod, db.namespace), Reconcile(services, db);
    CreateAllAt(services, db, n, name);
    ServiceNameIsIngress(pod, db.namespace);
    DecodeEncode(pod, db.namespace);
    if i: nat :| i < db.replicas && name == ReplicaService(db, i) {
      LiveServiceIsSpared(services, db, i);
    }
    if name in after && Owned(after[name], db) {
      var i: nat :| i < db.replicas && pod == PodName(db.name, i);
      assert name == ReplicaService(db, i);
    }
  }

  /** An owned service whose name is not that of any pod's service stays for ever exactly when it has
      too few parts to be read, or reads as the name of a current replica. */
  lemma ForeignNameIsKept(services: Services, db: CubridDB, name: string)
    requires name in services && Owned(services[name], db) && IsIngressCMSService(name)
    requires forall i: nat | i < db.replicas :: name != ReplicaService(db, i)
    ensures name in Reconcile(services, db) <==> PodOf(name).None? || IsReplica(db, PodOf(name).value)
  {
    CreateAllAt(services, db, if db.replicas < 0 then 0 else db.replicas, name);
  }

  /** Services that are not owned and do not bear a replica's name are unchanged, in any namespace,
      and the services of live replicas select their pods. */
  lemma OthersAreUntouched(services: Services, db: CubridDB, name: string)
    requires forall i: nat | i < db.replicas :: name != ReplicaService(db, i)
    requires name in services ==> !Owned(services[name], db)
    ensures var after := Reconcile(services, db);
            (name in after <==> name in services) && (name in services ==> after[name] == services[name])
  {
    CreateAllAt(services, db, if db.replicas < 0 then 0 else db.replicas, name);
  }

  lemma LiveServiceSelectsPod(services: Services, db: CubridDB, i: nat)
    requires i < db.replicas && '-' !in db.namespace
    ensures var after := Reconcile(services, db);
            var pod := db.name + "-" + Itoa(i);
            var name := pod + "-" + db.namespace + "-cms-svc";
            && name in after
            && after[name].podName == pod && after[name].port == db.cmsPort && after[name].labels == map["app" := "cubrid"]
            && (name !in services ==> after[name].owners == {Owner("CubridDB", db.name)})
            && (name in services ==> after[name].owners == services[name].owners)
  {
    LiveServiceIsSpared(services, db, i);
    CreateAllAt(services, db, db.replicas, ReplicaService(db, i));
  }
}
