/** The CMS NodePort services of pkg/manager/service_manager.go, over a store that holds every
    service of the cluster. A created service is visible to the next list. */
module ServiceManager {
  import opened Wrappers
  import opened Text
  import opened NodePorts

  datatype CubridDB = CubridDB(name: string, namespace: string, replicas: int, startPort: Option<int>,
                               cmsPort: int)

  const DEFAULT_START_PORT := 31000

  function StartPort(db: CubridDB): int {
    if db.startPort.Some? then db.startPort.value else DEFAULT_START_PORT
  }

  function PodKey(db: CubridDB, i: nat): Key { Key(db.namespace, db.name + "-" + Itoa(i)) }

  /** <cubriddb-name>-<namespace>-cms-<pod-index> */
  function CmsServiceName(name: string, namespace: string, i: nat): string {
    name + "-" + namespace + "-cms-" + Itoa(i)
  }

  function ServiceKey(db: CubridDB, i: nat): Key {
    Key(db.namespace, CmsServiceName(db.name, db.namespace, i))
  }

  function Desired(db: CubridDB, i: nat, nodePort: int): Service {
    Service(NodePort, [ServicePort("cms", db.cmsPort, nodePort)],
            map["statefulset.kubernetes.io/pod-name" := PodKey(db, i).name],
            map["app" := db.name, "service" := "cms"],
            PodKey(db, i).name)
  }

  function WithNodePort(s: Service, port: int): Service {
    if s.ports == [] then s else s.(ports := s.ports[0 := s.ports[0].(nodePort := port)])
  }

  // ---------------------------------------------------------------- one service

  /** The store after an operation, whether it succeeded, and its creates and updates. */
  datatype Outcome = Outcome(services: Services, ok: bool, writes: int)

  /** The port a new service gets: the requested one when unused, else the next available. */
  ghost function Allocated(services: Services, requested: int, exclude: string): Option<int> {
    if InUse(services, requested, exclude) then FindNext(services, requested, exclude) else Some(requested)
  }

  /** A new service gets the smallest port from the requested one up that no other service holds, and
      is refused exactly when the requested port and every one above it in the range are held. A
      request beyond the range is only granted when it is free as it stands. */
  lemma AllocatedIsLeastFree(services: Services, requested: int, exclude: string)
    requires requested >= NODE_PORT_MIN
    ensures var r := Allocated(services, requested, exclude);
            && (r.Some? ==> && requested <= r.value && !InUse(services, r.value, exclude)
                            && (r.value == requested || r.value <= NODE_PORT_MAX)
                            && forall q | requested <= q < r.value :: InUse(services, q, exclude))
            && (r.None? <==> && InUse(services, requested, exclude)
                             && forall q | requested <= q <= NODE_PORT_MAX :: InUse(services, q, exclude))
  {
    LeastFreeIsLeast(services, requested, exclude);
  }

  predicate Matches(existing: Service, want: Service) {
    && existing.kind == want.kind && existing.ports == want.ports
    && existing.selector == want.selector && existing.labels == want.labels
  }

  /** What reconcileNodePortService does to the store. */
  ghost function ReconcileService(services: Services, key: Key, desired: Service, start: int): Outcome {
    if key in services then
      var existing := services[key];
      var port := if existing.ports != [] then existing.ports[0].nodePort else start;
      var want := WithNodePort(desired, port);
      if Matches(existing, want) then Outcome(services, true, 0)
      else Outcome(services[key := want.(owner := existing.owner)], true, 1)
    else
      var port := Allocated(services, start, key.name);
      if port.None? then Outcome(services, false, 0)
      else Outcome(services[key := WithNodePort(desired, port.value)], true, 1)
  }

  // ---------------------------------------------------------------- one pass over the replicas

  /** reconcileNodePortCMSServices from replica i on, with the port the next service asks for. */
  ghost function ReconcileFrom(services: Services, pods: set<Key>, db: CubridDB, i: nat, port: int): Outcome
    decreases db.replicas - i
  {
    if i >= db.replicas then Outcome(services, true, 0)
    else if PodKey(db, i) !in pods then ReconcileFrom(services, pods, db, i + 1, port)
    else
      var one := ReconcileService(services, ServiceKey(db, i), Desired(db, i, port), port);
      if !one.ok then one
      else
        var rest := ReconcileFrom(one.services, pods, db, i + 1, port + 1);
        Outcome(rest.services, rest.ok, one.writes + rest.writes)
  }

  ghost function Reconcile(services: Services, pods: set<Key>, db: CubridDB): Outcome {
    if !ValidNodePort(StartPort(db)) then Outcome(services, false, 0)
    else ReconcileFrom(services, pods, db, 0, StartPort(db))
  }

  /** The manager and the store it works on. `writes` counts its create and update calls. */
  class Manager {
    var services: Services
    var pods: set<Key>
    var writes: int

    method ReconcileNodePortService(key: Key, desired: Service, startNodePort: int) returns (ok: bool)
      modifies this`services, this`writes
      ensures Outcome(services, ok, writes - old(writes))
           == ReconcileService(old(services), key, desired, startNodePort)
    {
      var port := startNodePort;
      if key !in services {
        var inUse := IsPortInUse(services, port, key.name);
        if inUse {
          var next := FindNextAvailablePort(services, port, key.name);
          if next.None? {
            return false;
          }
          port := next.value;
        }
        services := services[key := WithNodePort(desired, port)];
        writes := writes + 1;
        return true;
      }
      var existing := services[key];
      if |existing.ports| > 0 {
        port := existing.ports[0].nodePort;
      }
      var want := WithNodePort(desired, port);
      if !Matches(existing, want) {
        services := services[key := want.(owner := existing.owner)];
        writes := writes + 1;
      }
      return true;
    }

    method ReconcileNodePortCMSServices(db: CubridDB) returns (ok: bool)
      modifies this`services, this`writes
      ensures Outcome(services, ok, writes - old(writes)) == Reconcile(old(services), pods, db)
    {
      var startNodePort := StartPort(db);
      if !ValidNodePort(startNodePort) {
        return false;
      }
      var i := 0;
      ghost var all := ReconcileFrom(services, pods, db, 0, startNodePort);
      while i < db.replicas
        invariant i >= 0 && pods == old(pods)
        invariant var rest := ReconcileFrom(services, pods, db, i, startNodePort);
                  all == Outcome(rest.services, rest.ok, writes - old(writes) + rest.writes)
        decreases db.replicas - i
      {
        if PodKey(db, i) in pods {
          var done := ReconcileNodePortService(ServiceKey(db, i), Desired(db, i, startNodePort), startNodePort);
          if !done {
            return false;
          }
          startNodePort := startNodePort + 1;
        }
        i := i + 1;
      }
      return true;
    }
  }

  // ---------------------------------------------------------------- uniqueness

  /** Non-zero NodePorts are pairwise distinct. */
  ghost predicate Distinct(services: Services) {
    forall k, l, i, j |
      && k in services && l in services
      && 0 <= i < |services[k].ports| && 0 <= j < |services[l].ports|
      && services[k].ports[i].nodePort == services[l].ports[j].nodePort != 0
      :: k == l && i == j
  }

  /** Another service of the cluster holds the port. */
  ghost predicate HeldElsewhere(services: Services, key: Key, port: int) {
    exists k :: k in services && k != key && HasPort(services[k], port)
  }

  /** No service in another namespace has this name: the allocator excludes by name only. */
  ghost predicate NameIsLocal(services: Services, key: Key) {
    forall k <- services :: k.name == key.name ==> k == key
  }

  /** A service at this key has a port; the reconcile takes the port of an existing service as it is. */
  ghost predicate NotPortless(services: Services, key: Key) {
    key in services ==> services[key].ports != []
  }

  /** The reconcile may use the key: no other service has its name, and a service there has a port. */
  ghost predicate KeyIsSafe(services: Services, key: Key) { NameIsLocal(services, key) && NotPortless(services, key) }

  /** The NodePort that one service holds after it was reconciled. */
  ghost function ChosenPort(services: Services, key: Key, start: int): Option<int> {
    if key !in services then Allocated(services, start, key.name)
    else if services[key].ports != [] then Some(services[key].ports[0].nodePort)
    else Some(start)
  }

  lemma PutIsDistinct(services: Services, key: Key, s: Service)
    requires Distinct(services) && |s.ports| == 1
    ensures var port := s.ports[0].nodePort;
            Distinct(services[key := s]) <==> port == 0 || !HeldElsewhere(services, key, port)
  {
    var port := s.ports[0].nodePort;
    var after := services[key := s];
    assert forall l, j | l in services && 0 <= j < |services[l].ports| ::
             HasPort(services[l], services[l].ports[j].nodePort);
    if port == 0 || !HeldElsewhere(services, key, port) {
      forall k, l, i, j |
        && k in after && l in after
        && 0 <= i < |after[k].ports| && 0 <= j < |after[l].ports|
        && after[k].ports[i].nodePort == after[l].ports[j].nodePort != 0
        ensures k == l && i == j
      {}
    } else {
      var k :| k in services && k != key && HasPort(services[k], port);
      var i :| 0 <= i < |services[k].ports| && services[k].ports[i].nodePort == port;
      assert after[k].ports[i].nodePort == after[key].ports[0].nodePort;
    }
  }

  lemma DistinctByChosenPort(services: Services, key: Key, desired: Service, start: int)
    requires Distinct(services) && |desired.ports| == 1 && start != 0
    ensures var one := ReconcileService(services, key, desired, start);
            var port := ChosenPort(services, key, start);
            && one.ok == port.Some?
            && (one.ok ==>
                 (Distinct(one.services) <==> port.value == 0 || !HeldElsewhere(services, key, port.value)))
  {
    var one := ReconcileService(services, key, desired, start);
    var port := ChosenPort(services, key, start);
    if one.ok {
      var s := one.services[key];
      assert s.ports == [desired.ports[0].(nodePort := port.value)];
      assert one.services == services[key := s];
      PutIsDistinct(services, key, s);
    }
  }

  /** A service of the same name in another namespace holds the port. */
  ghost predicate HeldByNamesake(services: Services, key: Key, port: int) {
    exists k :: k in services && k != key && k.name == key.name && HasPort(services[k], port)
  }

  /** The port is held by a namesake only, and every port from the requested one to it is held under
      other names. */
  ghost predicate BlindSpot(services: Services, key: Key, start: int, port: int) {
    && start <= port && (port == start || port <= NODE_PORT_MAX)
    && HeldByNamesake(services, key, port) && !InUse(services, port, key.name)
    && forall q | start <= q < port :: InUse(services, q, key.name)
  }

  /** What a store must look like for the reconcile of one service to give out a port twice. */
  ghost predicate Clashes(services: Services, key: Key, start: int) {
    if key !in services then exists port :: BlindSpot(services, key, start, port)
    else services[key].ports == [] && HeldElsewhere(services, key, start)
  }

  lemma BlindSpotIsAllocated(services: Services, key: Key, start: int, port: int)
    requires start >= NODE_PORT_MIN && key !in services && BlindSpot(services, key, start, port)
    ensures Allocated(services, start, key.name) == Some(port) && HeldElsewhere(services, key, port)
  {
    AllocatedIsLeastFree(services, start, key.name);
    var r := Allocated(services, start, key.name);
    assert r.Some? && !(r.value < port) && !(port < r.value);
  }

  /** Exactly when reconciling one service keeps the ports distinct: an existing service with ports
      always does; one without ports does unless another service holds the requested port; a new
      one does unless the first port from the requested one up that no differently named service
      holds is held by a namesake. */
  lemma DistinctAfterOne(services: Services, key: Key, desired: Service, start: int)
    requires Distinct(services) && |desired.ports| == 1 && start >= NODE_PORT_MIN
    ensures Distinct(ReconcileService(services, key, desired, start).services) <==> !Clashes(services, key, start)
  {
    DistinctByChosenPort(services, key, desired, start);
    if key in services {
      if services[key].ports != [] {
        OwnPortIsOwn(services, key);
      }
    } else {
      AllocatedIsLeastFree(services, start, key.name);
      if port :| BlindSpot(services, key, start, port) {
        BlindSpotIsAllocated(services, key, start, port);
      } else if Allocated(services, start, key.name).Some? {
        var port := Allocated(services, start, key.name).value;
        if k :| k in services && k != key && HasPort(services[k], port) {
          assert k.name == key.name;
          assert BlindSpot(services, key, start, port);
        }
      }
    }
  }

  lemma OwnPortIsOwn(services: Services, key: Key)
    requires Distinct(services) && key in services && services[key].ports != []
    ensures var port := services[key].ports[0].nodePort; port == 0 || !HeldElsewhere(services, key, port)
  {}

  /** With a local name and a port on the service that may be there, reconciling one service always
      keeps the ports distinct. */
  lemma OneKeepsDistinct(services: Services, key: Key, desired: Service, start: int)
    requires Distinct(services) && KeyIsSafe(services, key)
    requires |desired.ports| == 1 && start >= NODE_PORT_MIN
    ensures Distinct(ReconcileService(services, key, desired, start).services)
  {
    DistinctAfterOne(services, key, desired, start);
  }

  lemma OneKeepsSafe(services: Services, key: Key, desired: Service, start: int, other: Key)
    requires KeyIsSafe(services, other) && |desired.ports| == 1 && (other.name == key.name ==> other == key)
    ensures KeyIsSafe(ReconcileService(services, key, desired, start).services, other)
  {}

  lemma ServiceKeysDiffer(db: CubridDB, i: nat, j: nat)
    requires ServiceKey(db, i).name == ServiceKey(db, j).name
    ensures i == j
  {
    var prefix := db.name + "-" + db.namespace + "-cms-";
    assert (prefix + Itoa(i))[|prefix|..] == Itoa(i);
    assert (prefix + Itoa(j))[|prefix|..] == Itoa(j);
    ItoaInjective(i, j);
  }

  /** The keys that a pass uses from replica i on. */
  ghost predicate KeysAreSafe(services: Services, db: CubridDB, i: nat) {
    forall j: nat | i <= j < db.replicas :: KeyIsSafe(services, ServiceKey(db, j))
  }

  lemma {:induction false} PassKeepsDistinct(services: Services, pods: set<Key>, db: CubridDB, i: nat, port: int)
    requires Distinct(services) && KeysAreSafe(services, db, i) && port >= NODE_PORT_MIN
    ensures var after := ReconcileFrom(services, pods, db, i, port).services;
            && Distinct(after)
            && forall k <- after :: k in services || exists j: nat :: i <= j < db.replicas && k == ServiceKey(db, j)
    decreases db.replicas - i
  {
    if i < db.replicas {
      if PodKey(db, i) !in pods {
        PassKeepsDistinct(services, pods, db, i + 1, port);
      } else {
        var key, desired := ServiceKey(db, i), Desired(db, i, port);
        var one := ReconcileService(services, key, desired, port);
        assert KeyIsSafe(services, key);
        OneKeepsDistinct(services, key, desired, port);
        if one.ok {
          forall j: nat | i + 1 <= j < db.replicas ensures KeyIsSafe(one.services, ServiceKey(db, j)) {
            if ServiceKey(db, j).name == key.name {
              ServiceKeysDiffer(db, i, j);
            }
            OneKeepsSafe(services, key, desired, port, ServiceKey(db, j));
          }
          PassKeepsDistinct(one.services, pods, db, i + 1, port + 1);
        }
      }
    }
  }

  /** One exclusion by name is not enough: two databases whose CMS services share a name in
      different namespaces are given the same port. */
  lemma NameClashBreaksDistinct()
    ensures var first := CubridDB("a-b", "c", 1, None, 8001);
            var second := CubridDB("a", "b-c", 1, None, 8001);
            var pods := {PodKey(first, 0), PodKey(second, 0)};
            var one := Reconcile(map[], pods, first);
            var two := Reconcile(one.services, pods, second);
            one.ok && two.ok && Distinct(one.services) && !Distinct(two.services)
  {
    var first := CubridDB("a-b", "c", 1, None, 8001);
    var second := CubridDB("a", "b-c", 1, None, 8001);
    assert ServiceKey(first, 0).name == "a-b-c-cms-0" && ServiceKey(second, 0).name == "a-b-c-cms-0";
    NamesakesClash({PodKey(first, 0), PodKey(second, 0)}, first, second);
  }

  /** One replica with a pod, on a store without its service, with the start port free. */
  lemma OnlyReplica(services: Services, pods: set<Key>, db: CubridDB)
    requires db.replicas == 1 && db.startPort.None? && PodKey(db, 0) in pods && ServiceKey(db, 0) !in services
    requires !InUse(services, DEFAULT_START_PORT, ServiceKey(db, 0).name)
    ensures Reconcile(services, pods, db)
            == Outcome(services[ServiceKey(db, 0) := Desired(db, 0, DEFAULT_START_PORT)], true, 1)
  {
    var start := DEFAULT_START_PORT;
    var one := Outcome(services[ServiceKey(db, 0) := Desired(db, 0, start)], true, 1);
    assert WithNodePort(Desired(db, 0, start), start) == Desired(db, 0, start);
    assert ReconcileService(services, ServiceKey(db, 0), Desired(db, 0, start), start) == one;
    assert ReconcileFrom(one.services, pods, db, 1, start + 1) == Outcome(one.services, true, 0);
  }

  /** Any two databases in different namespaces whose services share a name are given the same port. */
  lemma NamesakesClash(pods: set<Key>, first: CubridDB, second: CubridDB)
    requires first.replicas == second.replicas == 1 && first.startPort.None? && second.startPort.None?
    requires PodKey(first, 0) in pods && PodKey(second, 0) in pods
    requires ServiceKey(first, 0).name == ServiceKey(second, 0).name && first.namespace != second.namespace
    ensures var one := Reconcile(map[], pods, first);
            var two := Reconcile(one.services, pods, second);
            one.ok && two.ok && Distinct(one.services) && !Distinct(two.services)
  {
    var j, k := ServiceKey(first, 0), ServiceKey(second, 0);
    OnlyReplica(map[], pods, first);
    var stored: Services := map[][j := Desired(first, 0, DEFAULT_START_PORT)];
    OnlyReplica(stored, pods, second);
    var both := stored[k := Desired(second, 0, DEFAULT_START_PORT)];
    assert both[j].ports[0].nodePort == both[k].ports[0].nodePort == DEFAULT_START_PORT;
  }

  /** A portless service at a CMS name is given the requested port without a search. */
  lemma PortlessServiceBreaksDistinct(key: Key, other: Key, desired: Service, s: Service, start: int)
    requires key != other && |desired.ports| == 1 && start >= NODE_PORT_MIN && s.ports == []
    ensures var services := map[key := s, other := WithNodePort(desired, start)];
            Distinct(services) && !Distinct(ReconcileService(services, key, desired, start).services)
  {
    var services := map[key := s, other := WithNodePort(desired, start)];
    assert HasPort(services[other], start) by {
      assert services[other].ports[0].nodePort == start;
    }
    assert Distinct(services);
    DistinctAfterOne(services, key, desired, start);
    assert HeldElsewhere(services, key, start);
  }
}
