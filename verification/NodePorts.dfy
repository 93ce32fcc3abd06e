/** Services of the cluster and the NodePort allocator of pkg/resources/service.go. */
module NodePorts {
  import opened Wrappers

  const NODE_PORT_MIN := 30000
  const NODE_PORT_MAX := 32767

  datatype Key = Key(namespace: string, name: string)

  datatype ServicePort = ServicePort(name: string, port: int, nodePort: int)

  datatype ServiceKind = ClusterIP | NodePort

  datatype Service = Service(kind: ServiceKind, ports: seq<ServicePort>, selector: map<string, string>,
                             labels: map<string, string>, owner: string)

  type Services = map<Key, Service>

  ghost predicate HasPort(s: Service, port: int) {
    exists i :: 0 <= i < |s.ports| && s.ports[i].nodePort == port
  }

  /** Some service with a name other than the excluded one holds the port. */
  ghost predicate InUse(services: Services, port: int, exclude: string) {
    exists k :: k in services && k.name != exclude && HasPort(services[k], port)
  }

  predicate ValidNodePort(port: int) { NODE_PORT_MIN <= port <= NODE_PORT_MAX }

  /** ValidateNodePortRange; the reconcile itself only validates the start port. */
  predicate ValidNodePortRange(start: int, count: int) {
    ValidNodePort(start) && start + count - 1 <= NODE_PORT_MAX
  }

  method IsPortInUse(services: Services, port: int, exclude: string) returns (inUse: bool)
    ensures inUse <==> InUse(services, port, exclude)
  {
    var keys := services.Keys;
    while keys != {}
      invariant keys <= services.Keys
      invariant forall k <- services.Keys - keys :: k.name == exclude || !HasPort(services[k], port)
      decreases keys
    {
      var k :| k in keys;
      keys := keys - {k};
      if k.name == exclude {
        continue;
      }
      var ports := services[k].ports;
      for i := 0 to |ports|
        invariant forall j | 0 <= j < i :: ports[j].nodePort != port
      {
        if ports[i].nodePort == port {
          return true;
        }
      }
    }
    return false;
  }

  /** The ports that FindNextAvailablePort treats as taken. */
  method UsedPorts(services: Services, exclude: string) returns (used: set<int>)
    ensures forall p :: p in used <==> p != 0 && InUse(services, p, exclude)
  {
    used := {};
    var keys := services.Keys;
    while keys != {}
      invariant keys <= services.Keys
      invariant forall p <- used :: p != 0 && InUse(services, p, exclude)
      invariant forall k, p | k in services.Keys - keys && k.name != exclude && p != 0 && HasPort(services[k], p) ::
                  p in used
      decreases keys
    {
      var k :| k in keys;
      if k.name != exclude {
        var ports := services[k].ports;
        ghost var before := used;
        for i := 0 to |ports|
          invariant before <= used
          invariant forall p <- used :: p in before || HasPort(services[k], p)
          invariant forall p <- used :: p != 0
          invariant forall j | 0 <= j < i :: ports[j].nodePort == 0 || ports[j].nodePort in used
        {
          if ports[i].nodePort != 0 {
            used := used + {ports[i].nodePort};
          }
        }
      }
      keys := keys - {k};
    }
  }

  /** The smallest port from `port` up to the maximum that is not in use. */
  ghost function LeastFree(services: Services, port: int, exclude: string): Option<int>
    decreases NODE_PORT_MAX + 1 - port
  {
    if port > NODE_PORT_MAX then None
    else if InUse(services, port, exclude) then LeastFree(services, port + 1, exclude)
    else Some(port)
  }

  /** Least, free, and absent exactly when every port up to the maximum is taken. */
  lemma {:induction false} LeastFreeIsLeast(services: Services, port: int, exclude: string)
    ensures var r := LeastFree(services, port, exclude);
            && (r.Some? ==> && port <= r.value <= NODE_PORT_MAX
                            && !InUse(services, r.value, exclude)
                            && forall q | port <= q < r.value :: InUse(services, q, exclude))
            && (r.None? <==> forall q | port <= q <= NODE_PORT_MAX :: InUse(services, q, exclude))
    decreases NODE_PORT_MAX + 1 - port
  {
    if port <= NODE_PORT_MAX && InUse(services, port, exclude) {
      LeastFreeIsLeast(services, port + 1, exclude);
    }
  }

  ghost function FindNext(services: Services, start: int, exclude: string): Option<int> {
    if !ValidNodePort(start) then None else LeastFree(services, start, exclude)
  }

  /** The search in the terms of the range: a start outside 30000-32767 is refused, and the answer is the
      first port from the start up to 32767 that no other service holds. */
  lemma FindNextIsFirst(services: Services, start: int, exclude: string, port: int)
    ensures FindNext(services, start, exclude) == Some(port) <==>
              && 30000 <= start <= port <= 32767 && !InUse(services, port, exclude)
              && forall q | start <= q < port :: InUse(services, q, exclude)
    ensures FindNext(services, start, exclude) == None <==>
              || !(30000 <= start <= 32767) || forall q | start <= q <= 32767 :: InUse(services, q, exclude)
  {
    LeastFreeIsLeast(services, start, exclude);
  }

  method FindNextAvailablePort(services: Services, startPort: int, exclude: string) returns (r: Option<int>)
    ensures r == FindNext(services, startPort, exclude)
  {
    if !ValidNodePort(startPort) {
      return None;
    }
    var used := UsedPorts(services, exclude);
    if startPort !in used {
      return Some(startPort);
    }
    var port := startPort + 1;
    while port <= NODE_PORT_MAX && port in used
      invariant startPort < port <= NODE_PORT_MAX + 1
      invariant LeastFree(services, startPort, exclude) == LeastFree(services, port, exclude)
      decreases NODE_PORT_MAX + 1 - port
    {
      port := port + 1;
    }
    if port > NODE_PORT_MAX {
      return None;
    }
    return Some(port);
  }
}
