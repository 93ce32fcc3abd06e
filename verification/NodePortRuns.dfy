/** What whole passes and whole runs of the NodePort CMS reconcile keep. */
module NodePortRuns {
  import opened Text
  import opened NodePorts
  import opened ServiceManager

  // ---------------------------------------------------------------- range and capacity

  /** Every port that a pass gives to a service it creates is a NodePort, when the last port that
      can be requested is one. */
  lemma {:induction false} CreatedPortsAreInRange(services: Services, pods: set<Key>, db: CubridDB, i: nat, port: int)
    requires NODE_PORT_MIN <= port && port + (db.replicas - i) - 1 <= NODE_PORT_MAX
    ensures CreatedInRange(services, ReconcileFrom(services, pods, db, i, port).services)
    decreases db.replicas - i
  {
    if i < db.replicas {
      if PodKey(db, i) !in pods {
        CreatedPortsAreInRange(services, pods, db, i + 1, port);
      } else {
        var one := ReconcileService(services, ServiceKey(db, i), Desired(db, i, port), port);
        if one.ok {
          CreatedPortsAreInRange(one.services, pods, db, i + 1, port + 1);
          OneIsInRange(services, pods, db, i, port);
        }
      }
    }
  }

  lemma OneIsInRange(services: Services, pods: set<Key>, db: CubridDB, i: nat, port: int)
    requires NODE_PORT_MIN <= port <= NODE_PORT_MAX
    requires ReconcileService(services, ServiceKey(db, i), Desired(db, i, port), port).ok
    ensures var one := ReconcileService(services, ServiceKey(db, i), Desired(db, i, port), port).services;
            var after := ReconcileFrom(one, pods, db, i + 1, port + 1).services;
            CreatedInRange(one, after) ==> CreatedInRange(services, after)
  {
    var key := ServiceKey(db, i);
    var one := ReconcileService(services, key, Desired(db, i, port), port).services;
    AllocatedIsLeastFree(services, port, key.name);
    TurnKeys(services, db, i, port);
    PassKeepsKeys(one, pods, db, i + 1, port + 1, key);
    if key !in services {
      PassKeepsPorts(one, pods, db, i + 1, port + 1, key);
    }
    CreatedAfterTurn(services, one, ReconcileFrom(one, pods, db, i + 1, port + 1).services, key);
  }

  /** How many of the replicas from i to below j have a pod. */
  function PodCount(pods: set<Key>, db: CubridDB, i: nat, j: int): nat
    decreases j - i
  {
    if i >= j then 0 else (if PodKey(db, i) in pods then 1 else 0) + PodCount(pods, db, i + 1, j)
  }

  /** The store has no service yet for the replicas from i on, and no port from this one up is held. */
  ghost predicate Unserved(services: Services, db: CubridDB, i: nat, port: int) {
    && (forall j: nat | i <= j < db.replicas :: ServiceKey(db, j) !in services)
    && forall p | p >= port :: !IsHeld(services, p)
  }

  /** The first turn of such a pass takes the requested port. */
  lemma FirstTurn(services: Services, db: CubridDB, i: nat, port: int)
    requires Unserved(services, db, i, port) && i < db.replicas
    ensures var one := ReconcileService(services, ServiceKey(db, i), Desired(db, i, port), port);
            && one.ok && ServiceKey(db, i) !in services
            && one.services == services[ServiceKey(db, i) := Desired(db, i, port)]
            && Unserved(one.services, db, i + 1, port + 1)
  {
    var key := ServiceKey(db, i);
    assert !IsHeld(services, port);
    assert !InUse(services, port, key.name);
    assert WithNodePort(Desired(db, i, port), port) == Desired(db, i, port);
    var after := services[key := Desired(db, i, port)];
    forall j: nat | i + 1 <= j < db.replicas ensures ServiceKey(db, j) !in after {
      if ServiceKey(db, j) == key {
        ServiceKeysDiffer(db, i, j);
      }
    }
    forall k, p | k in after && p >= port + 1 ensures !HasPort(after[k], p) {
      assert !IsHeld(services, p);
    }
  }

  ghost predicate CreatedInRange(before: Services, after: Services) {
    forall k <- after :: k in before || (|after[k].ports| == 1 && ValidNodePort(after[k].ports[0].nodePort))
  }

  lemma {:induction false} FirstPassFrom(services: Services, pods: set<Key>, db: CubridDB, i: nat, port: int)
    requires port >= NODE_PORT_MIN && Unserved(services, db, i, port)
    ensures CreatedInRange(services, ReconcileFrom(services, pods, db, i, port).services)
            <==> PodCount(pods, db, i, db.replicas) == 0 || port + PodCount(pods, db, i, db.replicas) - 1 <= NODE_PORT_MAX
    decreases db.replicas - i
  {
    if i < db.replicas {
      if PodKey(db, i) !in pods {
        FirstPassFrom(services, pods, db, i + 1, port);
      } else {
        var one := services[ServiceKey(db, i) := Desired(db, i, port)];
        FirstTurn(services, db, i, port);
        FirstPassFrom(one, pods, db, i + 1, port + 1);
        CreatedInFirst(services, one, ReconcileFrom(one, pods, db, i + 1, port + 1).services, db, i, port, pods);
      }
    }
  }

  lemma CreatedInFirst(services: Services, one: Services, after: Services, db: CubridDB, i: nat, port: int, pods: set<Key>)
    requires port >= NODE_PORT_MIN && ServiceKey(db, i) !in services && one == services[ServiceKey(db, i) := Desired(db, i, port)]
    requires after == ReconcileFrom(one, pods, db, i + 1, port + 1).services
    ensures CreatedInRange(services, after) <==> CreatedInRange(one, after) && port <= NODE_PORT_MAX
  {
    PassKeepsPorts(one, pods, db, i + 1, port + 1, ServiceKey(db, i));
    CreatedAfterTurn(services, one, after, ServiceKey(db, i));
  }

  /** The reconcile never checks the end of the range: a first pass, from a store without services
      of this database and without a port held from the start up, stays inside the range exactly
      when the start plus the number of existing pods does. */
  lemma FirstPassInRange(services: Services, pods: set<Key>, db: CubridDB)
    requires ValidNodePort(StartPort(db)) && Unserved(services, db, 0, StartPort(db))
    ensures CreatedInRange(services, Reconcile(services, pods, db).services)
            <==> ValidNodePortRange(StartPort(db), PodCount(pods, db, 0, db.replicas))
  {
    FirstPassFrom(services, pods, db, 0, StartPort(db));
  }

  /** Beyond the range, no port from this one up is held. */
  ghost predicate RoomBeyond(services: Services, port: int) {
    forall p | p > NODE_PORT_MAX && p >= port :: !IsHeld(services, p)
  }

  lemma TurnKeepsRoom(services: Services, db: CubridDB, i: nat, port: int)
    requires port >= NODE_PORT_MIN && RoomBeyond(services, port)
    ensures var one := ReconcileService(services, ServiceKey(db, i), Desired(db, i, port), port);
            && RoomBeyond(one.services, port + 1)
            && (port > NODE_PORT_MAX ==> one.ok)
            && (one.ok && ServiceKey(db, i) !in services ==>
                  var s := one.services[ServiceKey(db, i)];
                  |s.ports| == 1 && (ValidNodePort(s.ports[0].nodePort) <==> port <= NODE_PORT_MAX))
  {
    var key := ServiceKey(db, i);
    var one := ReconcileService(services, key, Desired(db, i, port), port);
    AllocatedIsLeastFree(services, port, key.name);
    if port > NODE_PORT_MAX {
      assert !IsHeld(services, port);
      assert !InUse(services, port, key.name);
    }
    if one.services != services {
      var s := one.services[key];
      assert s.ports == [ServicePort("cms", db.cmsPort, s.ports[0].nodePort)];
    }
    forall k, p | k in one.services && p > NODE_PORT_MAX && p >= port + 1 ensures !HasPort(one.services[k], p) {
      assert !IsHeld(services, p);
    }
  }

  /** Every new service of an existing pod, from replica i on, asks for a port in the range. */
  ghost predicate AsksInRange(services: Services, pods: set<Key>, db: CubridDB, i: nat, port: int) {
    forall j: nat | i <= j < db.replicas && PodKey(db, j) in pods && ServiceKey(db, j) !in services ::
      port + PodCount(pods, db, i, j) <= NODE_PORT_MAX
  }

  lemma AsksAfterTurn(services: Services, after: Services, pods: set<Key>, db: CubridDB, i: nat, port: int)
    requires i < db.replicas && PodKey(db, i) in pods
    requires forall k :: k in after <==> k in services || k == ServiceKey(db, i)
    ensures AsksInRange(services, pods, db, i, port) <==>
              && AsksInRange(after, pods, db, i + 1, port + 1)
              && (ServiceKey(db, i) !in services ==> port <= NODE_PORT_MAX)
  {
    assert PodCount(pods, db, i, i) == 0;
    forall j: nat | i < j < db.replicas
      ensures PodCount(pods, db, i, j) == 1 + PodCount(pods, db, i + 1, j)
      ensures ServiceKey(db, j) in after <==> ServiceKey(db, j) in services
    {
      if ServiceKey(db, i) == ServiceKey(db, j) {
        ServiceKeysDiffer(db, i, j);
      }
    }
  }

  lemma AsksAfterSkip(services: Services, pods: set<Key>, db: CubridDB, i: nat, port: int)
    requires i < db.replicas && PodKey(db, i) !in pods
    ensures AsksInRange(services, pods, db, i, port) <==> AsksInRange(services, pods, db, i + 1, port)
  {
    forall j: nat | i < j < db.replicas ensures PodCount(pods, db, i, j) == PodCount(pods, db, i + 1, j) {}
  }

  lemma CreatedAfterTurn(services: Services, one: Services, after: Services, key: Key)
    requires forall k :: k in one <==> k in services || k == key
    requires key in after
    ensures CreatedInRange(services, after) <==>
              && CreatedInRange(one, after)
              && (key !in services ==> |after[key].ports| == 1 && ValidNodePort(after[key].ports[0].nodePort))
  {}

  /** What a pass from replica i on creates is in the range exactly when it fails or asks in range. */
  ghost predicate RangeIsExact(services: Services, pods: set<Key>, db: CubridDB, i: nat, port: int) {
    var all := ReconcileFrom(services, pods, db, i, port);
    && (port > NODE_PORT_MAX ==> all.ok)
    && (CreatedInRange(services, all.services) <==> !all.ok || AsksInRange(services, pods, db, i, port))
  }

  lemma TurnKeys(services: Services, db: CubridDB, i: nat, port: int)
    requires ReconcileService(services, ServiceKey(db, i), Desired(db, i, port), port).ok
    ensures var one := ReconcileService(services, ServiceKey(db, i), Desired(db, i, port), port).services;
            forall k :: k in one <==> k in services || k == ServiceKey(db, i)
  {}

  /** The service of this turn at the end of the pass. */
  lemma TurnInRange(services: Services, pods: set<Key>, db: CubridDB, i: nat, port: int)
    requires port >= NODE_PORT_MIN && RoomBeyond(services, port)
    requires ReconcileService(services, ServiceKey(db, i), Desired(db, i, port), port).ok
    ensures var one := ReconcileService(services, ServiceKey(db, i), Desired(db, i, port), port).services;
            var after := ReconcileFrom(one, pods, db, i + 1, port + 1).services;
            var key := ServiceKey(db, i);
            && key in after
            && (key !in services ==>
                  (|after[key].ports| == 1 && ValidNodePort(after[key].ports[0].nodePort) <==> port <= NODE_PORT_MAX))
  {
    var key := ServiceKey(db, i);
    var one := ReconcileService(services, key, Desired(db, i, port), port).services;
    TurnKeepsRoom(services, db, i, port);
    PassKeepsKeys(one, pods, db, i + 1, port + 1, key);
    if key !in services {
      PassKeepsPorts(one, pods, db, i + 1, port + 1, key);
    }
  }

  lemma TurnIsExact(services: Services, pods: set<Key>, db: CubridDB, i: nat, port: int)
    requires port >= NODE_PORT_MIN && RoomBeyond(services, port) && i < db.replicas && PodKey(db, i) in pods
    requires ReconcileService(services, ServiceKey(db, i), Desired(db, i, port), port).ok
    requires RangeIsExact(ReconcileService(services, ServiceKey(db, i), Desired(db, i, port), port).services,
                          pods, db, i + 1, port + 1)
    ensures RangeIsExact(services, pods, db, i, port)
  {
    var one := ReconcileService(services, ServiceKey(db, i), Desired(db, i, port), port).services;
    var rest := ReconcileFrom(one, pods, db, i + 1, port + 1);
    var all := ReconcileFrom(services, pods, db, i, port);
    assert all.services == rest.services && all.ok == rest.ok;
    TurnKeys(services, db, i, port);
    TurnInRange(services, pods, db, i, port);
    AsksAfterTurn(services, one, pods, db, i, port);
    CreatedAfterTurn(services, one, rest.services, ServiceKey(db, i));
  }

  lemma {:induction false} PassInRangeFrom(services: Services, pods: set<Key>, db: CubridDB, i: nat, port: int)
    requires port >= NODE_PORT_MIN && RoomBeyond(services, port)
    ensures RangeIsExact(services, pods, db, i, port)
    decreases db.replicas - i
  {
    if i < db.replicas {
      if PodKey(db, i) !in pods {
        AsksAfterSkip(services, pods, db, i, port);
        PassInRangeFrom(services, pods, db, i + 1, port);
      } else {
        var one := ReconcileService(services, ServiceKey(db, i), Desired(db, i, port), port);
        TurnKeepsRoom(services, db, i, port);
        if one.ok {
          PassInRangeFrom(one.services, pods, db, i + 1, port + 1);
          TurnIsExact(services, pods, db, i, port);
        }
      }
    }
  }

  lemma {:induction false} PassKeepsKeys(services: Services, pods: set<Key>, db: CubridDB, i: nat, port: int, k: Key)
    requires k in services
    ensures k in ReconcileFrom(services, pods, db, i, port).services
    decreases db.replicas - i
  {
    if i < db.replicas {
      if PodKey(db, i) !in pods {
        PassKeepsKeys(services, pods, db, i + 1, port, k);
      } else {
        var one := ReconcileService(services, ServiceKey(db, i), Desired(db, i, port), port);
        if one.ok {
          PassKeepsKeys(one.services, pods, db, i + 1, port + 1, k);
        }
      }
    }
  }

  /** Any pass, whatever services the database already has: with no port held beyond the range, what it
      creates is in the range exactly when it fails for lack of a port, or every existing pod without a
      service asks for a port in the range, that is, the start plus the number of existing pods
      before it. */
  lemma PassInRange(services: Services, pods: set<Key>, db: CubridDB)
    requires ValidNodePort(StartPort(db)) && RoomBeyond(services, NODE_PORT_MAX)
    ensures var all := Reconcile(services, pods, db);
            CreatedInRange(services, all.services) <==> !all.ok || AsksInRange(services, pods, db, 0, StartPort(db))
  {
    PassInRangeFrom(services, pods, db, 0, StartPort(db));
  }

  /** A first pass numbers the services of the existing pods consecutively. */
  lemma {:induction false} FirstPassNumbers(services: Services, pods: set<Key>, db: CubridDB, i: nat, port: int, j: nat)
    requires Unserved(services, db, i, port) && i <= j < db.replicas && PodKey(db, j) in pods
    ensures var after := ReconcileFrom(services, pods, db, i, port).services;
            && ServiceKey(db, j) in after && after[ServiceKey(db, j)].ports != []
            && after[ServiceKey(db, j)].ports[0].nodePort == port + PodCount(pods, db, i, j)
    decreases db.replicas - i
  {
    if PodKey(db, i) !in pods {
      FirstPassNumbers(services, pods, db, i + 1, port, j);
    } else {
      var one := ReconcileService(services, ServiceKey(db, i), Desired(db, i, port), port);
      FirstTurn(services, db, i, port);
      if i < j {
        FirstPassNumbers(one.services, pods, db, i + 1, port + 1, j);
      } else {
        PassKeepsPorts(one.services, pods, db, i + 1, port + 1, ServiceKey(db, i));
      }
    }
  }

  /** A service with ports keeps its NodePort through every pass. */
  lemma {:induction false} PassKeepsPorts(services: Services, pods: set<Key>, db: CubridDB, i: nat, port: int, k: Key)
    requires k in services && services[k].ports != []
    ensures var after := ReconcileFrom(services, pods, db, i, port).services;
            && k in after && after[k].ports != []
            && after[k].ports[0].nodePort == services[k].ports[0].nodePort
            && (|services[k].ports| == 1 ==> |after[k].ports| == 1)
    decreases db.replicas - i
  {
    if i < db.replicas {
      if PodKey(db, i) !in pods {
        PassKeepsPorts(services, pods, db, i + 1, port, k);
      } else {
        var one := ReconcileService(services, ServiceKey(db, i), Desired(db, i, port), port);
        if one.ok {
          PassKeepsPorts(one.services, pods, db, i + 1, port + 1, k);
        }
      }
    }
  }

  ghost predicate IsHeld(services: Services, port: int) {
    exists k :: k in services && HasPort(services[k], port)
  }

  /** The distinct NodePorts held from a port up to the maximum. */
  ghost function Held(services: Services, start: int): set<int> {
    set p | start <= p <= NODE_PORT_MAX && IsHeld(services, p)
  }

  lemma {:induction false} IntervalSize(s: set<int>, lo: int, hi: int)
    requires lo <= hi + 1
    requires forall p :: p in s <==> lo <= p <= hi
    ensures |s| == hi + 1 - lo
    decreases hi - lo
  {
    if lo <= hi {
      IntervalSize(s - {lo}, lo + 1, hi);
    } else {
      assert s == {};
    }
  }

  lemma SubsetSize(a: set<int>, b: set<int>)
    requires a <= b
    ensures |a| <= |b|
  {
    assert b == a + (b - a);
  }

  /** A service is only refused a port when every port from the requested one up is held. */
  lemma EnoughPortsForOne(services: Services, start: int, key: Key, desired: Service, port: int)
    requires NODE_PORT_MIN <= start <= port && |desired.ports| == 1
    requires |Held(services, start)| + (port - start) <= NODE_PORT_MAX - start
    ensures var one := ReconcileService(services, key, desired, port);
            one.ok && |Held(one.services, start)| <= |Held(services, start)| + 1
  {
    var one := ReconcileService(services, key, desired, port);
    LeastFreeIsLeast(services, port, key.name);
    if !one.ok {
      var held := Held(services, port);
      forall p | port <= p <= NODE_PORT_MAX ensures p in held {
        assert InUse(services, p, key.name);
      }
      IntervalSize(held, port, NODE_PORT_MAX);
      SubsetSize(held, Held(services, start));
    }
    var chosen := one.services[key].ports[0].nodePort;
    forall p | p in Held(one.services, start) ensures p in Held(services, start) + {chosen} {
      var k :| k in one.services && HasPort(one.services[k], p);
      var i :| 0 <= i < |one.services[k].ports| && one.services[k].ports[i].nodePort == p;
      if k != key {
        assert k in services && HasPort(services[k], p);
      }
    }
    SubsetSize(Held(one.services, start), Held(services, start) + {chosen});
  }

  /** Capacity: a pass over r replicas cannot run out of ports when the ports held from the start
      port up, plus 2(r - 1), do not exceed the room above the start port. */
  lemma {:induction false} EnoughPorts(services: Services, pods: set<Key>, db: CubridDB, start: int, i: nat, port: int)
    requires NODE_PORT_MIN <= start <= port
    requires i < db.replicas ==>
               |Held(services, start)| + (port - start) + 2 * (db.replicas - 1 - i) <= NODE_PORT_MAX - start
    ensures ReconcileFrom(services, pods, db, i, port).ok
    decreases db.replicas - i
  {
    if i < db.replicas {
      if PodKey(db, i) !in pods {
        EnoughPorts(services, pods, db, start, i + 1, port);
      } else {
        var desired := Desired(db, i, port);
        EnoughPortsForOne(services, start, ServiceKey(db, i), desired, port);
        EnoughPorts(ReconcileService(services, ServiceKey(db, i), desired, port).services, pods, db, start, i + 1, port + 1);
      }
    }
  }

  lemma PassHasCapacity(services: Services, pods: set<Key>, db: CubridDB)
    requires ValidNodePort(StartPort(db))
    requires |Held(services, StartPort(db))| + 2 * (db.replicas - 1) <= NODE_PORT_MAX - StartPort(db)
    ensures Reconcile(services, pods, db).ok
  {
    EnoughPorts(services, pods, db, StartPort(db), 0, StartPort(db));
  }

  // ---------------------------------------------------------------- idempotence

  /** <database>-<i> */
  function PodNameOf(db: CubridDB, i: nat): string { db.name + "-" + Itoa(i) }

  /** <database>-<namespace>-cms-<i>, in the namespace of the database. */
  function CmsKey(db: CubridDB, i: nat): Key { Key(db.namespace, db.name + "-" + db.namespace + "-cms-" + Itoa(i)) }

  /** A NodePort service with one port, named cms, on the CMS port of the database, that selects the
      pod and carries the labels of the database's CMS services. */
  ghost predicate ServesPod(s: Service, db: CubridDB, i: nat) {
    && s.kind.NodePort?
    && |s.ports| == 1 && s.ports[0].name == "cms" && s.ports[0].port == db.cmsPort
    && s.selector == map["statefulset.kubernetes.io/pod-name" := PodNameOf(db, i)]
    && s.labels == map["app" := db.name, "service" := "cms"]
  }

  /** Replica i needs no change: it has no pod, or the service of its pod. */
  ghost predicate Settled(services: Services, pods: set<Key>, db: CubridDB, i: nat) {
    Key(db.namespace, PodNameOf(db, i)) in pods ==>
      CmsKey(db, i) in services && ServesPod(services[CmsKey(db, i)], db, i)
  }

  lemma MatchesIsServes(s: Service, db: CubridDB, i: nat)
    ensures s.ports != [] && Matches(s, Desired(db, i, s.ports[0].nodePort)) <==> ServesPod(s, db, i)
  {
    if ServesPod(s, db, i) {
      assert s.ports == [ServicePort("cms", db.cmsPort, s.ports[0].nodePort)];
    }
  }

  lemma OneSettles(services: Services, pods: set<Key>, db: CubridDB, i: nat, port: int)
    requires ReconcileService(services, ServiceKey(db, i), Desired(db, i, port), port).ok
    ensures var one := ReconcileService(services, ServiceKey(db, i), Desired(db, i, port), port);
            Settled(one.services, pods, db, i)
  {
    var one := ReconcileService(services, ServiceKey(db, i), Desired(db, i, port), port);
    var s := one.services[ServiceKey(db, i)];
    assert s.ports == [ServicePort("cms", db.cmsPort, s.ports[0].nodePort)];
    MatchesIsServes(s, db, i);
  }

  lemma {:induction false} PassLeavesSettled(services: Services, pods: set<Key>, db: CubridDB, i: nat, port: int, j: nat)
    requires Settled(services, pods, db, j) && j < i
    ensures Settled(ReconcileFrom(services, pods, db, i, port).services, pods, db, j)
    decreases db.replicas - i
  {
    if i < db.replicas {
      if PodKey(db, i) !in pods {
        PassLeavesSettled(services, pods, db, i + 1, port, j);
      } else {
        if ServiceKey(db, i) == ServiceKey(db, j) {
          ServiceKeysDiffer(db, i, j);
        }
        var one := ReconcileService(services, ServiceKey(db, i), Desired(db, i, port), port);
        if one.ok {
          PassLeavesSettled(one.services, pods, db, i + 1, port + 1, j);
        }
      }
    }
  }

  lemma {:induction false} PassSettles(services: Services, pods: set<Key>, db: CubridDB, i: nat, port: int, j: nat)
    requires ReconcileFrom(services, pods, db, i, port).ok && i <= j < db.replicas
    ensures Settled(ReconcileFrom(services, pods, db, i, port).services, pods, db, j)
    decreases db.replicas - i
  {
    if PodKey(db, i) !in pods {
      if i < j {
        PassSettles(services, pods, db, i + 1, port, j);
      }
    } else {
      var one := ReconcileService(services, ServiceKey(db, i), Desired(db, i, port), port);
      if i < j {
        PassSettles(one.services, pods, db, i + 1, port + 1, j);
      } else {
        OneSettles(services, pods, db, i, port);
        PassLeavesSettled(one.services, pods, db, i + 1, port + 1, i);
      }
    }
  }

  lemma {:induction false} SettledPassWritesNothing(services: Services, pods: set<Key>, db: CubridDB, i: nat, port: int)
    requires forall j: nat | i <= j < db.replicas :: Settled(services, pods, db, j)
    ensures ReconcileFrom(services, pods, db, i, port) == Outcome(services, true, 0)
    decreases db.replicas - i
  {
    if i < db.replicas {
      assert Settled(services, pods, db, i);
      if PodKey(db, i) !in pods {
        SettledPassWritesNothing(services, pods, db, i + 1, port);
      } else {
        MatchesIsServes(services[ServiceKey(db, i)], db, i);
        var own := services[ServiceKey(db, i)].ports[0].nodePort;
        assert WithNodePort(Desired(db, i, port), own) == Desired(db, i, own);
        SettledPassWritesNothing(services, pods, db, i + 1, port + 1);
      }
    }
  }

  /** After a successful pass each existing pod below the replica count has its service, and a second
      pass creates and updates nothing. */
  lemma ReconcileIsIdempotent(services: Services, pods: set<Key>, db: CubridDB)
    requires Reconcile(services, pods, db).ok
    ensures var after := Reconcile(services, pods, db).services;
            && Reconcile(after, pods, db) == Outcome(after, true, 0)
            && forall j: nat | j < db.replicas :: Settled(after, pods, db, j)
  {
    var after := Reconcile(services, pods, db).services;
    forall j: nat | j < db.replicas ensures Settled(after, pods, db, j) {
      PassSettles(services, pods, db, 0, StartPort(db), j);
    }
    SettledPassWritesNothing(after, pods, db, 0, StartPort(db));
  }

  /** A pass succeeds without a write exactly when every existing pod has its service already. */
  lemma NothingToWrite(services: Services, pods: set<Key>, db: CubridDB)
    requires ValidNodePort(StartPort(db))
    ensures Reconcile(services, pods, db) == Outcome(services, true, 0)
            <==> forall j: nat | j < db.replicas :: Settled(services, pods, db, j)
  {
    if Reconcile(services, pods, db) == Outcome(services, true, 0) {
      ReconcileIsIdempotent(services, pods, db);
    }
    if forall j: nat | j < db.replicas :: Settled(services, pods, db, j) {
      SettledPassWritesNothing(services, pods, db, 0, StartPort(db));
    }
  }

  /** A pass touches the services of its own existing pods only. */
  lemma {:induction false} PassTouchesOwn(services: Services, pods: set<Key>, db: CubridDB, i: nat, port: int, k: Key)
    requires forall j: nat | i <= j < db.replicas && Key(db.namespace, PodNameOf(db, j)) in pods :: k != CmsKey(db, j)
    ensures var after := ReconcileFrom(services, pods, db, i, port).services;
            (k in after <==> k in services) && (k in services ==> after[k] == services[k])
    decreases db.replicas - i
  {
    if i < db.replicas {
      if PodKey(db, i) !in pods {
        PassTouchesOwn(services, pods, db, i + 1, port, k);
      } else {
        var one := ReconcileService(services, ServiceKey(db, i), Desired(db, i, port), port);
        assert k != CmsKey(db, i);
        if one.ok {
          PassTouchesOwn(one.services, pods, db, i + 1, port + 1, k);
        }
      }
    }
  }

  /** A service keeps its owner through a pass, and a new one is owned by its pod. */
  lemma {:induction false} PassKeepsOwners(services: Services, pods: set<Key>, db: CubridDB, i: nat, port: int, k: Key)
    ensures var after := ReconcileFrom(services, pods, db, i, port).services;
            && (k in services ==> k in after && after[k].owner == services[k].owner)
            && (forall j: nat | i <= j < db.replicas && k == CmsKey(db, j) && k !in services && k in after ::
                  after[k].owner == PodNameOf(db, j))
    decreases db.replicas - i
  {
    if i < db.replicas {
      if PodKey(db, i) !in pods {
        PassKeepsOwners(services, pods, db, i + 1, port, k);
        if CmsKey(db, i) !in services {
          SkippedIsNotCreated(services, pods, db, i, port);
        }
      } else {
        var one := ReconcileService(services, ServiceKey(db, i), Desired(db, i, port), port);
        if one.ok {
          PassKeepsOwners(one.services, pods, db, i + 1, port + 1, k);
          if k == CmsKey(db, i) {
            forall j: nat | i <= j < db.replicas && k == CmsKey(db, j) ensures j == i {
              ServiceKeysDiffer(db, i, j);
            }
          }
        }
      }
    }
  }

  lemma SkippedIsNotCreated(services: Services, pods: set<Key>, db: CubridDB, i: nat, port: int)
    requires CmsKey(db, i) !in services
    ensures CmsKey(db, i) !in ReconcileFrom(services, pods, db, i + 1, port).services
  {
    forall j: nat | i + 1 <= j < db.replicas ensures CmsKey(db, i) != CmsKey(db, j) {
      if CmsKey(db, i) == CmsKey(db, j) {
        ServiceKeysDiffer(db, i, j);
      }
    }
    PassTouchesOwn(services, pods, db, i + 1, port, CmsKey(db, i));
  }

  /** The start port is that of the database, or 31000, and outside 30000-32767 the pass does nothing. */
  lemma StartPortIsChecked(services: Services, pods: set<Key>, db: CubridDB)
    ensures StartPort(db) == if db.startPort.None? then 31000 else db.startPort.value
    ensures !(30000 <= StartPort(db) <= 32767) ==> Reconcile(services, pods, db) == Outcome(services, false, 0)
    ensures 30000 <= StartPort(db) <= 32767 <==> ValidNodePort(StartPort(db))
  {}

  // ---------------------------------------------------------------- runs

  datatype Cluster = Cluster(services: Services, pods: set<Key>)

  /** CmsStep is one replica's turn inside a pass, so that other events can fall between the turns
      of a pass; its port is whatever the pass asks for by then. */
  datatype Event =
    | CmsPass(db: CubridDB)
    | CmsStep(db: CubridDB, i: nat, port: int)
    | PodArrives(pod: Key)
    | PodLeaves(pod: Key)
    | ServiceAdded(key: Key, service: Service)
    | ServiceDeleted(key: Key)

  ghost function Apply(c: Cluster, e: Event): Cluster {
    match e
    case CmsPass(db) => c.(services := Reconcile(c.services, c.pods, db).services)
    case CmsStep(db, i, port) =>
      c.(services := ReconcileService(c.services, ServiceKey(db, i), Desired(db, i, port), port).services)
    case PodArrives(pod) => c.(pods := c.pods + {pod})
    case PodLeaves(pod) => c.(pods := c.pods - {pod})
    case ServiceAdded(key, service) => c.(services := c.services[key := service])
    case ServiceDeleted(key) => c.(services := c.services - {key})
  }

  /** Unrelated services come without ports, or with ports of their own that nobody holds. */
  ghost predicate OnUnusedPorts(services: Services, s: Service) {
    && (forall i | 0 <= i < |s.ports| :: s.ports[i].nodePort != 0 ==> !IsHeld(services, s.ports[i].nodePort))
    && (forall i, j | 0 <= i < j < |s.ports| :: s.ports[i].nodePort == s.ports[j].nodePort ==> s.ports[i].nodePort == 0)
  }

  ghost predicate Allowed(c: Cluster, e: Event) {
    match e
    case CmsPass(db) => KeysAreSafe(c.services, db, 0)
    case CmsStep(db, i, port) => KeyIsSafe(c.services, ServiceKey(db, i)) && port >= NODE_PORT_MIN
    case ServiceAdded(key, service) => key !in c.services && OnUnusedPorts(c.services, service)
    case _ => true
  }

  ghost function Run(c: Cluster, events: seq<Event>): Cluster
    decreases |events|
  {
    if events == [] then c else Run(Apply(c, events[0]), events[1..])
  }

  ghost predicate AllAllowed(c: Cluster, events: seq<Event>)
    decreases |events|
  {
    events == [] || (Allowed(c, events[0]) && AllAllowed(Apply(c, events[0]), events[1..]))
  }

  lemma AddedKeepsDistinct(services: Services, key: Key, s: Service)
    requires Distinct(services) && key !in services && OnUnusedPorts(services, s)
    ensures Distinct(services[key := s])
  {
    var after := services[key := s];
    assert forall l, j | l in services && 0 <= j < |services[l].ports| ::
             HasPort(services[l], services[l].ports[j].nodePort);
    assert forall l, j | l in services && 0 <= j < |services[l].ports| ::
             IsHeld(services, services[l].ports[j].nodePort);
    forall k, l, i, j |
      && k in after && l in after
      && 0 <= i < |after[k].ports| && 0 <= j < |after[l].ports|
      && after[k].ports[i].nodePort == after[l].ports[j].nodePort != 0
      ensures k == l && i == j
    {}
  }

  lemma EventKeepsDistinct(c: Cluster, e: Event)
    requires Distinct(c.services) && Allowed(c, e)
    ensures Distinct(Apply(c, e).services)
  {
    match e
    case CmsPass(db) =>
      if ValidNodePort(StartPort(db)) {
        PassKeepsDistinct(c.services, c.pods, db, 0, StartPort(db));
      }
    case CmsStep(db, i, port) =>
      OneKeepsDistinct(c.services, ServiceKey(db, i), Desired(db, i, port), port);
    case ServiceAdded(key, service) =>
      AddedKeepsDistinct(c.services, key, service);
    case _ =>
  }

  /** Uniqueness over whole runs: passes and single turns of any number of databases, pods that
      come and go, unrelated services on unused ports and deletions never make two services hold
      the same NodePort, as long as the keys that the reconciles use are safe. */
  lemma {:induction false} RunsKeepDistinct(c: Cluster, events: seq<Event>)
    requires Distinct(c.services) && AllAllowed(c, events)
    ensures Distinct(Run(c, events).services)
    decreases |events|
  {
    if events != [] {
      EventKeepsDistinct(c, events[0]);
      RunsKeepDistinct(Apply(c, events[0]), events[1..]);
    }
  }

  /** A service is only added where there is none. */
  ghost predicate AddsNew(c: Cluster, events: seq<Event>)
    decreases |events|
  {
    events == [] || ((events[0].ServiceAdded? ==> events[0].key !in c.services) && AddsNew(Apply(c, events[0]), events[1..]))
  }

  /** Stickiness over whole runs: until it is deleted, a service keeps its NodePort. */
  lemma {:induction false} RunsKeepPorts(c: Cluster, events: seq<Event>, k: Key)
    requires k in c.services && c.services[k].ports != [] && AddsNew(c, events)
    requires ServiceDeleted(k) !in events
    ensures var after := Run(c, events).services;
            k in after && after[k].ports != [] && after[k].ports[0].nodePort == c.services[k].ports[0].nodePort
    decreases |events|
  {
    if events != [] {
      var e := events[0];
      assert e in events;
      if e.CmsPass? && ValidNodePort(StartPort(e.db)) {
        PassKeepsPorts(c.services, c.pods, e.db, 0, StartPort(e.db), k);
      }
      RunsKeepPorts(Apply(c, e), events[1..], k);
    }
  }

  // ---------------------------------------------------------------- names

  /** In dash-free namespaces two CMS services have the same name only if they are the same
      replica of the same database, so the name exclusion never misses a clash between them. */
  lemma CmsServiceNamesDiffer(name: string, namespace: string, i: nat, name': string, namespace': string, i': nat)
    requires '-' !in namespace && '-' !in namespace'
    requires CmsServiceName(name, namespace, i) == CmsServiceName(name', namespace', i')
    ensures name == name' && namespace == namespace' && i == i'
  {
    SplitName(name, namespace, i);
    SplitName(name', namespace', i');
    var p, p' := Split(name, '-'), Split(name', '-');
    var parts := p + [namespace, "cms", Itoa(i)];
    assert parts == p' + [namespace', "cms", Itoa(i')];
    assert parts[|parts| - 1] == Itoa(i) == Itoa(i');
    ItoaInjective(i, i');
    assert parts[|parts| - 3] == namespace == namespace';
    assert p == parts[..|parts| - 3] == p';
    JoinSplit(name, '-');
    JoinSplit(name', '-');
  }

  lemma SplitName(name: string, namespace: string, i: nat)
    requires '-' !in namespace
    ensures Split(CmsServiceName(name, namespace, i), '-') == Split(name, '-') + [namespace, "cms", Itoa(i)]
  {
    var number := Itoa(i);
    assert '-' !in number;
    assert '-' !in "cms";
    assert CmsServiceName(name, namespace, i) == name + ['-'] + (namespace + ['-'] + ("cms" + ['-'] + number));
    SplitFree(number, '-');
    SplitFree("cms", '-');
    SplitFree(namespace, '-');
    SplitConcat("cms", number, '-');
    SplitConcat(namespace, "cms" + ['-'] + number, '-');
    SplitConcat(name, namespace + ['-'] + ("cms" + ['-'] + number), '-');
  }

  // ---------------------------------------------------------------- runs in dash-free namespaces

  /** A service with the CMS name of a dash-free namespace lives in that namespace and has a port. */
  ghost predicate Orderly(key: Key, s: Service) {
    forall name, namespace, i | '-' !in namespace && key.name == CmsServiceName(name, namespace, i) ::
      key.namespace == namespace && s.ports != []
  }

  ghost predicate AllOrderly(services: Services) { forall k <- services :: Orderly(k, services[k]) }

  /** What can be checked of an event by itself; an added service also has to be new and on unused
      ports, as the API server demands. */
  ghost predicate DashFree(c: Cluster, e: Event) {
    match e
    case CmsPass(db) => '-' !in db.namespace
    case CmsStep(db, i, port) => '-' !in db.namespace && port >= NODE_PORT_MIN
    case ServiceAdded(key, service) =>
      Orderly(key, service) && key !in c.services && OnUnusedPorts(c.services, service)
    case _ => true
  }

  ghost predicate AllDashFree(c: Cluster, events: seq<Event>)
    decreases |events|
  {
    events == [] || (DashFree(c, events[0]) && AllDashFree(Apply(c, events[0]), events[1..]))
  }

  lemma OrderlyIsSafe(services: Services, db: CubridDB, i: nat)
    requires AllOrderly(services) && '-' !in db.namespace
    ensures KeyIsSafe(services, ServiceKey(db, i))
  {
    var key := ServiceKey(db, i);
    forall k <- services | k.name == key.name ensures k == key && services[k].ports != [] {
      assert Orderly(k, services[k]);
      assert k.name == CmsServiceName(db.name, db.namespace, i);
    }
  }

  lemma TurnKeepsOrderly(services: Services, db: CubridDB, i: nat, port: int)
    requires AllOrderly(services) && '-' !in db.namespace
    ensures AllOrderly(ReconcileService(services, ServiceKey(db, i), Desired(db, i, port), port).services)
  {
    var key := ServiceKey(db, i);
    var after := ReconcileService(services, key, Desired(db, i, port), port).services;
    forall k <- after ensures Orderly(k, after[k]) {
      if k == key {
        OrderlyIsSafe(services, db, i);
        assert after[key].ports != [];
        forall name, namespace, j | '-' !in namespace && key.name == CmsServiceName(name, namespace, j)
          ensures key.namespace == namespace
        {
          CmsServiceNamesDiffer(db.name, db.namespace, i, name, namespace, j);
        }
      } else {
        assert Orderly(k, services[k]);
      }
    }
  }

  lemma {:induction false} PassKeepsOrderly(services: Services, pods: set<Key>, db: CubridDB, i: nat, port: int)
    requires AllOrderly(services) && '-' !in db.namespace
    ensures AllOrderly(ReconcileFrom(services, pods, db, i, port).services)
    decreases db.replicas - i
  {
    if i < db.replicas {
      if PodKey(db, i) !in pods {
        PassKeepsOrderly(services, pods, db, i + 1, port);
      } else {
        TurnKeepsOrderly(services, db, i, port);
        var one := ReconcileService(services, ServiceKey(db, i), Desired(db, i, port), port);
        if one.ok {
          PassKeepsOrderly(one.services, pods, db, i + 1, port + 1);
        }
      }
    }
  }

  lemma DashFreeIsAllowed(c: Cluster, e: Event)
    requires AllOrderly(c.services) && DashFree(c, e)
    ensures Allowed(c, e) && AllOrderly(Apply(c, e).services)
  {
    match e
    case CmsPass(db) =>
      forall j: nat | j < db.replicas ensures KeyIsSafe(c.services, ServiceKey(db, j)) {
        OrderlyIsSafe(c.services, db, j);
      }
      if ValidNodePort(StartPort(db)) {
        PassKeepsOrderly(c.services, c.pods, db, 0, StartPort(db));
      }
    case CmsStep(db, i, port) =>
      OrderlyIsSafe(c.services, db, i);
      TurnKeepsOrderly(c.services, db, i, port);
    case _ =>
  }

  /** Uniqueness over whole runs, from what can be checked beforehand: databases in dash-free
      namespaces, and no other service under a CMS name of such a namespace in a wrong place or
      without a port. */
  lemma {:induction false} DashFreeRunsKeepDistinct(c: Cluster, events: seq<Event>)
    requires Distinct(c.services) && AllOrderly(c.services) && AllDashFree(c, events)
    ensures Distinct(Run(c, events).services) && AllOrderly(Run(c, events).services)
    decreases |events|
  {
    if events != [] {
      DashFreeIsAllowed(c, events[0]);
      EventKeepsDistinct(c, events[0]);
      DashFreeRunsKeepDistinct(Apply(c, events[0]), events[1..]);
    }
  }
}
