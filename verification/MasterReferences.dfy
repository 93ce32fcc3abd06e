/** The CubridDBs of one namespace and the masters that their replicas name (api/v1/cubriddb_webhook.go):
    a creation is compared with all other objects, an update with its own earlier version only. */
module MasterReferences {
  import opened Wrappers
  import opened Admission

  /** The stored objects of the namespace by name. */
  type Fleet = map<string, Spec>

  predicate IsReplica(s: Spec) { Enabled(s) && HaType(s) == REPLICA }

  /** No two replicas name the same master. */
  ghost predicate MastersDistinct(fleet: Fleet) {
    forall a, b | a in fleet && b in fleet && IsReplica(fleet[a]) && IsReplica(fleet[b])
                  && RefName(fleet[a]) == RefName(fleet[b]) :: a == b
  }

  /** Another replica names this master. */
  ghost predicate Taken(fleet: Fleet, name: string, master: string) {
    exists n :: n in fleet && n != name && IsReplica(fleet[n]) && RefName(fleet[n]) == master
  }

  /** The list that a creation is compared with holds every object of the namespace. */
  ghost predicate Listed(fleet: Fleet, peers: seq<Peer>) {
    && (forall n <- fleet :: Peer(n, RefName(fleet[n])) in peers)
    && forall p <- peers :: p.name in fleet && p.refName == RefName(fleet[p.name])
  }

  datatype Event = Create(name: string, s: Spec, peers: seq<Peer>) | Update(name: string, s: Spec) | Delete(name: string)

  ghost function After(fleet: Fleet, e: Event): Fleet {
    match e
    case Create(name, s, _) => fleet[name := s]
    case Update(name, s) => fleet[name := s]
    case Delete(name) => fleet - {name}
  }

  /** The API server and the webhooks let the event through. */
  ghost predicate Admits(fleet: Fleet, e: Event) {
    match e
    case Create(name, s, peers) =>
      name !in fleet && (exists u :: s == Defaulted(u)) && Listed(fleet, peers) && CreateOk(s, name, peers)
    case Update(name, s) => name in fleet && (exists u :: s == Defaulted(u)) && UpdateOk(fleet[name], s)
    case Delete(name) => true
  }

  /** The update points a replica at another master, one that another replica names. */
  ghost predicate Steals(fleet: Fleet, e: Event) {
    && e.Update? && e.name in fleet && IsReplica(fleet[e.name])
    && RefName(e.s) != RefName(fleet[e.name]) && Taken(fleet, e.name, RefName(e.s))
  }

  lemma PutKeepsDistinct(fleet: Fleet, name: string, s: Spec)
    requires MastersDistinct(fleet)
    ensures MastersDistinct(fleet[name := s]) <==> !(IsReplica(s) && Taken(fleet, name, RefName(s)))
  {
    var after := fleet[name := s];
    if IsReplica(s) && Taken(fleet, name, RefName(s)) {
      var n :| n in fleet && n != name && IsReplica(fleet[n]) && RefName(fleet[n]) == RefName(s);
      assert after[n] == fleet[n] && after[name] == s;
    }
  }

  lemma CreationDoesNotSteal(fleet: Fleet, name: string, s: Spec, peers: seq<Peer>)
    requires Listed(fleet, peers) && RefOk(s, name, peers) && IsReplica(s)
    ensures !Taken(fleet, name, RefName(s))
  {
    forall n | n in fleet && n != name ensures RefName(fleet[n]) != RefName(s) {
      assert Peer(n, RefName(fleet[n])) in peers;
    }
  }

  /** An admitted event breaks the rule exactly when it is an update that steals a master: creations
      are checked against all objects, updates against none. */
  lemma StealingBreaksDistinct(fleet: Fleet, e: Event)
    requires MastersDistinct(fleet) && Admits(fleet, e)
    ensures MastersDistinct(After(fleet, e)) <==> !Steals(fleet, e)
  {
    match e
    case Create(name, s, peers) =>
      PutKeepsDistinct(fleet, name, s);
      if IsReplica(s) {
        CreationDoesNotSteal(fleet, name, s, peers);
      }
    case Update(name, s) =>
      PutKeepsDistinct(fleet, name, s);
      assert IsReplica(s) <==> IsReplica(fleet[name]);
    case Delete(name) =>
  }

  ghost function AfterAll(fleet: Fleet, events: seq<Event>): Fleet
    decreases |events|
  {
    if events == [] then fleet else AfterAll(After(fleet, events[0]), events[1..])
  }

  ghost predicate AllAdmitted(fleet: Fleet, events: seq<Event>)
    decreases |events|
  {
    events == [] || (Admits(fleet, events[0]) && AllAdmitted(After(fleet, events[0]), events[1..]))
  }

  ghost predicate SomeSteals(fleet: Fleet, events: seq<Event>)
    decreases |events|
  {
    events != [] && (Steals(fleet, events[0]) || SomeSteals(After(fleet, events[0]), events[1..]))
  }

  /** Over every admitted history of all objects without such an update, no two replicas name the same
      master. */
  lemma {:induction false} RunsKeepMasters(fleet: Fleet, events: seq<Event>)
    requires MastersDistinct(fleet) && AllAdmitted(fleet, events) && !SomeSteals(fleet, events)
    ensures MastersDistinct(AfterAll(fleet, events))
    decreases |events|
  {
    if events != [] {
      StealingBreaksDistinct(fleet, events[0]);
      RunsKeepMasters(After(fleet, events[0]), events[1..]);
    }
  }

  function WithRef(s: Spec, master: string): Spec
    requires Complete(s)
  {
    var r := s.replication.value;
    var ref := r.haModeType.value.cubridRef.value;
    s.(affinity := Some(true),
       replication := Some(r.(haModeType := Some(r.haModeType.value.(cubridRef := Some(ref.(name := master)))))))
  }

  /** Such updates exist: an admitted replica can be pointed at the master of any other replica. */
  lemma StealingIsAdmitted(fleet: Fleet, h: seq<Spec>, name: string, peers: seq<Peer>, master: string)
    requires Admitted(h, name, peers) && name in fleet && fleet[name] == h[|h| - 1] && IsReplica(fleet[name])
    requires master != "" && master != RefName(fleet[name]) && Taken(fleet, name, master)
    ensures exists s :: Admits(fleet, Update(name, s)) && Steals(fleet, Update(name, s))
  {
    LastIsComplete(h, name, peers);
    var s := Defaulted(WithRef(fleet[name], master));
    RepointIsOk(fleet[name], master);
    assert Admits(fleet, Update(name, s)) && Steals(fleet, Update(name, s));
  }

  lemma RepointIsOk(last: Spec, master: string)
    requires Complete(last) && BrokerPortsOk(last) && StoragesOk(last) && IsReplica(last) && master != ""
    ensures var s := Defaulted(WithRef(last, master)); UpdateOk(last, s) && IsReplica(s) && RefName(s) == master
  {
    var u := WithRef(last, master);
    DefaultReplicationSettles(u);
    assert Defaulted(u).cms == last.cms && Defaulted(u).affinity == Some(true);
    assert HaType(u) == HaType(last) && RefName(u) == master && Enabled(u) == Enabled(last);
    assert HaType(Defaulted(u)) == HaType(u) && RefName(Defaulted(u)) == RefName(u);
    assert UpdateHAOk(last, Defaulted(u));
  }
}
