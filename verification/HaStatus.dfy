/** The HA status of a CubridDB (internal/controller/cubriddb_controller_status.go): the node list
    read from a CMS response, whose map Go iterates in arbitrary order, and the current master. */
module HaStatus {
  import opened Wrappers
  import opened Text

  datatype Json = Str(s: string) | Other

  type Response = map<string, Json>

  type Nodes = map<string, string>

  // ---------------------------------------------------------------- nodes of a response

  predicate HasSuffix(s: string, suffix: string) {
    |s| >= |suffix| && s[|s| - |suffix|..] == suffix
  }

  datatype Node = Node(name: string, state: string)

  /** The node that a key of the response describes, if any: its short name and its state. */
  function NodeAt(r: Response, key: string): Option<Node>
    requires key in r
  {
    if "node" <= key && !HasSuffix(key, "_state") && r[key].Str? then
      var stateKey := key + "_state";
      if stateKey in r && r[stateKey].Str? then Some(Node(Split(r[key].s, '.')[0], r[stateKey].s)) else None
    else None
  }

  /** The nodes after visiting the keys in this order: a later node replaces one of the same name. */
  function Collect(r: Response, order: seq<string>): Nodes
    requires forall k <- order :: k in r
  {
    if order == [] then map[]
    else
      var before, node := Collect(r, order[..|order| - 1]), NodeAt(r, order[|order| - 1]);
      if node.Some? then before[node.value.name := node.value.state] else before
  }

  /** The order visits every key once. */
  ghost predicate Visits(r: Response, order: seq<string>) {
    && (forall k :: k in order <==> k in r)
    && forall i, j | 0 <= i < j < |order| :: order[i] != order[j]
  }

  /** The key describes a node of this short name. */
  ghost predicate Names(r: Response, key: string, name: string) {
    key in r && NodeAt(r, key).Some? && NodeAt(r, key).value.name == name
  }

  /** A collected name has the state of one of the keys that describe it. */
  lemma {:induction false} CollectedHasKey(r: Response, order: seq<string>, name: string)
    requires forall k <- order :: k in r
    ensures name in Collect(r, order) <==> exists k :: k in order && Names(r, k, name)
    ensures name in Collect(r, order) ==>
              exists k :: k in order && Names(r, k, name) && NodeAt(r, k).value.state == Collect(r, order)[name]
  {
    if order != [] {
      var init, last := order[..|order| - 1], order[|order| - 1];
      assert order == init + [last] && forall k <- init :: k in order;
      CollectedHasKey(r, init, name);
      if Names(r, last, name) {
        assert last in order;
      }
    }
  }

  /** Nodes with the same short name have the same state. */
  ghost predicate Consistent(r: Response) {
    forall j, k, name | Names(r, j, name) && Names(r, k, name) :: NodeAt(r, j) == NodeAt(r, k)
  }

  /** With distinct (or at least consistent) short names the nodes do not depend on the order in
      which Go visits the response. */
  lemma CollectIsOrderIndependent(r: Response, one: seq<string>, two: seq<string>)
    requires Consistent(r) && Visits(r, one) && Visits(r, two)
    ensures Collect(r, one) == Collect(r, two)
  {
    var a, b := Collect(r, one), Collect(r, two);
    forall name ensures (name in a <==> name in b) && (name in a ==> a[name] == b[name]) {
      CollectedHasKey(r, one, name);
      CollectedHasKey(r, two, name);
    }
    assert a.Keys == b.Keys;
  }

  // ---------------------------------------------------------------- order of names

  /** Byte order of strings, which is code-point order. */
  predicate Below(a: string, b: string) {
    if b == "" then false
    else if a == "" then true
    else a[0] < b[0] || (a[0] == b[0] && Below(a[1..], b[1..]))
  }

  lemma {:induction false} BelowIsTotal(a: string, b: string)
    ensures Below(a, b) || Below(b, a) || a == b
    ensures !(Below(a, b) && Below(b, a)) && !Below(a, a)
  {
    if a != "" && b != "" {
      BelowIsTotal(a[1..], b[1..]);
      BelowIsTotal(a[1..], a[1..]);
      assert a == [a[0]] + a[1..] && b == [b[0]] + b[1..];
    } else if a != "" {
      BelowIsTotal(a[1..], a[1..]);
    }
  }

  lemma {:induction false} BelowIsTransitive(a: string, b: string, c: string)
    requires Below(a, b) && Below(b, c)
    ensures Below(a, c)
  {
    if a != "" {
      if a[0] == b[0] == c[0] {
        BelowIsTransitive(a[1..], b[1..], c[1..]);
      }
    }
  }

  // ---------------------------------------------------------------- roles

  const MASTER := "master"
  const SLAVE := "slave"
  const REPLICA := "replica"

  /** Simple case folding onto the lower-case ASCII letters. */
  function FoldChar(c: char): char {
    if 'A' <= c <= 'Z' then c - 'A' + 'a'
    else if c == '\U{17F}' then 's'
    else if c == '\U{212A}' then 'k'
    else c
  }

  /** strings.EqualFold with a lower-case ASCII role. */
  predicate EqualFold(state: string, role: string) {
    |state| == |role| && forall i | 0 <= i < |role| :: FoldChar(state[i]) == role[i]
  }

  /** Masters before slaves before replicas; None for any other state. */
  function Rank(state: string): Option<nat> {
    if EqualFold(state, MASTER) then Some(0)
    else if EqualFold(state, SLAVE) then Some(1)
    else if EqualFold(state, REPLICA) then Some(2)
    else None
  }

  function Role(rank: nat): string
    requires rank < 3
  {
    [MASTER, SLAVE, REPLICA][rank]
  }

  lemma RolesDiffer(state: string, rank: nat)
    requires rank < 3
    ensures EqualFold(state, Role(rank)) <==> Rank(state) == Some(rank)
  {
    assert |MASTER| == 6 && |SLAVE| == 5 && |REPLICA| == 7;
  }

  // ---------------------------------------------------------------- the canonical list

  ghost predicate Ahead(nodes: Nodes, a: string, b: string)
    requires a in nodes && b in nodes && Rank(nodes[a]).Some? && Rank(nodes[b]).Some?
  {
    Rank(nodes[a]).value < Rank(nodes[b]).value || (Rank(nodes[a]) == Rank(nodes[b]) && Below(a, b))
  }

  /** A character in either case; s and k have a third form. */
  predicate Spelling(c: char, lower: char)
    requires 'a' <= lower <= 'z'
  {
    c == lower || c == lower - 'a' + 'A' || (lower == 's' && c == '\U{17F}') || (lower == 'k' && c == '\U{212A}')
  }

  /** The role in any case. */
  predicate Spelled(state: string, role: string)
    requires forall i | 0 <= i < |role| :: 'a' <= role[i] <= 'z'
  {
    |state| == |role| && forall i | 0 <= i < |role| :: Spelling(state[i], role[i])
  }

  lemma FoldIsSpelling(c: char, lower: char)
    requires 'a' <= lower <= 'z'
    ensures FoldChar(c) == lower <==> Spelling(c, lower)
  {}

  lemma EqualFoldIsSpelled(state: string, role: string)
    requires forall i | 0 <= i < |role| :: 'a' <= role[i] <= 'z'
    ensures EqualFold(state, role) <==> Spelled(state, role)
  {
    forall i | 0 <= i < |role| && |state| == |role| ensures FoldChar(state[i]) == role[i] <==> Spelling(state[i], role[i]) {
      FoldIsSpelling(state[i], role[i]);
    }
  }

  /** Masters, slaves and replicas, in any case, have the ranks 0, 1 and 2. */
  lemma RankIsRole(state: string)
    ensures Rank(state) == Some(0) <==> Spelled(state, "master")
    ensures Rank(state) == Some(1) <==> Spelled(state, "slave")
    ensures Rank(state) == Some(2) <==> Spelled(state, "replica")
  {
    EqualFoldIsSpelled(state, "master");
    EqualFoldIsSpelled(state, "slave");
    EqualFoldIsSpelled(state, "replica");
    assert |"master"| == 6 && |"slave"| == 5 && |"replica"| == 7;
  }

  lemma {:induction false} FirstDifference(a: string, b: string) returns (i: nat)
    requires a != b
    ensures i <= |a| && i <= |b| && a[..i] == b[..i] && (i == |a| || i == |b| || a[i] != b[i])
  {
    i := 0;
    if a != "" && b != "" && a[0] == b[0] {
      i := FirstDifference(a[1..], b[1..]);
      i := i + 1;
      assert a[..i] == [a[0]] + a[1..][..i - 1] && b[..i] == [b[0]] + b[1..][..i - 1];
    }
  }

  lemma {:induction false} BelowAtDifference(a: string, b: string, i: nat)
    requires i <= |a| && i <= |b| && a[..i] == b[..i] && (i == |a| || i == |b| || a[i] != b[i])
    ensures Below(a, b) <==> i < |b| && (i == |a| || a[i] < b[i])
  {
    if i > 0 {
      assert a[..i][0] == a[0] && b[..i][0] == b[0];
      assert a[1..][..i - 1] == a[..i][1..] && b[1..][..i - 1] == b[..i][1..];
      BelowAtDifference(a[1..], b[1..], i - 1);
    }
  }

  /** A name is below another when it is a proper beginning of it, or smaller at the first difference. */
  lemma BelowIsByteOrder(a: string, b: string)
    ensures Below(a, b) <==> exists i :: 0 <= i <= |a| && i < |b| && a[..i] == b[..i] && (i == |a| || a[i] < b[i])
  {
    if a == b {
      BelowIsTotal(a, b);
    } else {
      var i := FirstDifference(a, b);
      BelowAtDifference(a, b, i);
    }
    if i :| 0 <= i <= |a| && i < |b| && a[..i] == b[..i] && (i == |a| || a[i] < b[i]) {
      BelowAtDifference(a, b, i);
    }
  }

  /** Every node with a known role exactly once, by role and then by name. */
  ghost predicate Canonical(nodes: Nodes, names: seq<string>) {
    && (forall n <- names :: n in nodes && Rank(nodes[n]).Some?)
    && (forall n <- nodes :: Rank(nodes[n]).Some? ==> n in names)
    && forall i, j | 0 <= i < j < |names| :: Ahead(nodes, names[i], names[j])
  }

  lemma AheadIsStrict(nodes: Nodes, a: string, b: string)
    requires a in nodes && b in nodes && Rank(nodes[a]).Some? && Rank(nodes[b]).Some?
    ensures !(Ahead(nodes, a, b) && Ahead(nodes, b, a)) && !Ahead(nodes, a, a)
  {
    BelowIsTotal(a, b);
    BelowIsTotal(a, a);
  }

  /** There is only one canonical list. */
  lemma {:induction false} CanonicalIsUnique(nodes: Nodes, a: seq<string>, b: seq<string>)
    requires Canonical(nodes, a) && Canonical(nodes, b)
    ensures a == b
    decreases |a|
  {
    assert forall n :: n in a <==> n in b;
    assert b != [] ==> b[0] in b;
    if a != [] {
      assert a[0] in a;
      var i :| 0 <= i < |b| && b[i] == a[0];
      var j :| 0 <= j < |a| && a[j] == b[0];
      AheadIsStrict(nodes, a[0], b[0]);
      assert a[0] == b[0];
      var less := nodes - {a[0]};
      CanonicalTail(nodes, a);
      CanonicalTail(nodes, b);
      CanonicalIsUnique(less, a[1..], b[1..]);
      assert a == [a[0]] + a[1..] && b == [b[0]] + b[1..];
    }
  }

  lemma CanonicalTail(nodes: Nodes, a: seq<string>)
    requires Canonical(nodes, a) && a != []
    ensures Canonical(nodes - {a[0]}, a[1..])
  {
    forall n <- a[1..] ensures n in nodes - {a[0]} && Rank(nodes[n]).Some? {
      var i :| 0 <= i < |a[1..]| && a[1..][i] == n;
      assert a[i + 1] == n && n in a;
      AheadIsStrict(nodes, a[0], n);
    }
  }

  function Lines(nodes: Nodes, names: seq<string>): seq<string>
    requires forall n <- names :: n in nodes
  {
    if names == [] then [] else [names[0] + ": " + nodes[names[0]]] + Lines(nodes, names[1..])
  }

  lemma {:induction false} LinesConcat(nodes: Nodes, a: seq<string>, b: seq<string>)
    requires (forall n <- a :: n in nodes) && (forall n <- b :: n in nodes)
    ensures forall n <- a + b :: n in nodes
    ensures Lines(nodes, a + b) == Lines(nodes, a) + Lines(nodes, b)
  {
    if a == [] {
      assert a + b == b;
    } else {
      assert (a + b)[1..] == a[1..] + b;
      LinesConcat(nodes, a[1..], b);
    }
  }

  // ---------------------------------------------------------------- sorting by role

  ghost predicate Ascending(s: seq<string>) {
    forall i, j | 0 <= i < j < |s| :: Below(s[i], s[j])
  }

  /** sort.Strings, by insertion. */
  function Insert(x: string, s: seq<string>): seq<string> {
    if s == [] || Below(x, s[0]) then [x] + s else [s[0]] + Insert(x, s[1..])
  }

  function Sort(s: seq<string>): seq<string> {
    if s == [] then [] else Insert(s[|s| - 1], Sort(s[..|s| - 1]))
  }

  lemma {:induction false} InsertAscends(x: string, s: seq<string>)
    requires Ascending(s) && x !in s
    ensures Ascending(Insert(x, s))
    ensures forall y :: y in Insert(x, s) <==> y == x || y in s
  {
    if s != [] {
      if Below(x, s[0]) {
        forall j | 0 <= j < |s| ensures Below(x, s[j]) {
          if j > 0 {
            BelowIsTransitive(x, s[0], s[j]);
          }
        }
      } else {
        assert s[0] in s;
        BelowIsTotal(x, s[0]);
        InsertAscends(x, s[1..]);
        var rest := Insert(x, s[1..]);
        forall j | 0 <= j < |rest| ensures Below(s[0], rest[j]) {
          assert rest[j] in rest;
          if rest[j] != x {
            var i :| 0 <= i < |s[1..]| && s[1..][i] == rest[j];
            assert s[i + 1] == rest[j];
          }
        }
        assert s == [s[0]] + s[1..];
      }
    }
  }

  lemma {:induction false} SortAscends(s: seq<string>)
    requires forall i, j | 0 <= i < j < |s| :: s[i] != s[j]
    ensures Ascending(Sort(s))
    ensures forall y :: y in Sort(s) <==> y in s
  {
    if s != [] {
      var init, last := s[..|s| - 1], s[|s| - 1];
      SortAscends(init);
      assert last !in init;
      InsertAscends(last, Sort(init));
      assert s == init + [last];
    }
  }

  method GetSortedNodesByRole(nodes: Nodes, rank: nat) returns (names: seq<string>)
    requires rank < 3
    ensures Ascending(names)
    ensures forall n :: n in names <==> n in nodes && Rank(nodes[n]) == Some(rank)
  {
    var roleNodes: seq<string> := [];
    var keys := nodes.Keys;
    while keys != {}
      invariant keys <= nodes.Keys
      invariant forall n :: n in roleNodes <==> n in nodes && n !in keys && EqualFold(nodes[n], Role(rank))
      invariant forall i, j | 0 <= i < j < |roleNodes| :: roleNodes[i] != roleNodes[j]
      decreases keys
    {
      var node :| node in keys;
      keys := keys - {node};
      if EqualFold(nodes[node], Role(rank)) {
        roleNodes := roleNodes + [node];
      }
    }
    SortAscends(roleNodes);
    names := Sort(roleNodes);
    forall n ensures n in names <==> n in nodes && Rank(nodes[n]) == Some(rank) {
      if n in nodes {
        RolesDiffer(nodes[n], rank);
      }
    }
  }

  lemma RolesAreCanonical(nodes: Nodes, a: seq<string>, b: seq<string>, c: seq<string>)
    requires Ascending(a) && Ascending(b) && Ascending(c)
    requires forall n :: n in a <==> n in nodes && Rank(nodes[n]) == Some(0)
    requires forall n :: n in b <==> n in nodes && Rank(nodes[n]) == Some(1)
    requires forall n :: n in c <==> n in nodes && Rank(nodes[n]) == Some(2)
    ensures Canonical(nodes, a + b + c)
  {
    var all := a + b + c;
    forall i | 0 <= i < |all|
      ensures all[i] in nodes && Rank(nodes[all[i]])
              == Some(if i < |a| then 0 else if i < |a| + |b| then 1 else 2)
    {
      assert all[i] in (if i < |a| then a else if i < |a| + |b| then b else c);
    }
    forall n <- nodes | Rank(nodes[n]).Some? ensures n in all {
      assert n in a || n in b || n in c;
    }
  }

  /** The list is that of the canonical names, for some order in which the response is visited. */
  ghost predicate ListOf(r: Response, list: seq<string>) {
    exists order, names :: Visits(r, order) && Canonical(Collect(r, order), names) && list == Lines(Collect(r, order), names)
  }

  lemma RolesGiveList(r: Response, order: seq<string>, a: seq<string>, b: seq<string>, c: seq<string>)
    requires Visits(r, order) && Ascending(a) && Ascending(b) && Ascending(c)
    requires forall n :: n in a <==> n in Collect(r, order) && Rank(Collect(r, order)[n]) == Some(0)
    requires forall n :: n in b <==> n in Collect(r, order) && Rank(Collect(r, order)[n]) == Some(1)
    requires forall n :: n in c <==> n in Collect(r, order) && Rank(Collect(r, order)[n]) == Some(2)
    ensures var nodes := Collect(r, order); ListOf(r, Lines(nodes, a) + Lines(nodes, b) + Lines(nodes, c))
  {
    var nodes := Collect(r, order);
    RolesAreCanonical(nodes, a, b, c);
    LinesConcat(nodes, a, b);
    LinesConcat(nodes, a + b, c);
  }

  /** parseHANodesStatus */
  method ParseHANodesStatus(r: Response) returns (orderedNodes: seq<string>)
    ensures ListOf(r, orderedNodes)
  {
    var nodes: Nodes := map[];
    var keys := r.Keys;
    ghost var order: seq<string> := [];
    while keys != {}
      invariant Visiting(r, order, keys) && nodes == Collect(r, order)
      decreases keys
    {
      var key :| key in keys;
      VisitNext(r, order, keys, key);
      keys := keys - {key};
      order := order + [key];
      var node := NodeAt(r, key);
      if node.Some? {
        nodes := nodes[node.value.name := node.value.state];
      }
    }
    var masters := GetSortedNodesByRole(nodes, 0);
    var slaves := GetSortedNodesByRole(nodes, 1);
    var replicas := GetSortedNodesByRole(nodes, 2);
    RolesGiveList(r, order, masters, slaves, replicas);
    orderedNodes := Lines(nodes, masters) + Lines(nodes, slaves) + Lines(nodes, replicas);
  }

  /** The keys not in `keys` were visited once each. */
  ghost predicate Visiting(r: Response, order: seq<string>, keys: set<string>) {
    && keys <= r.Keys
    && (forall k :: k in order <==> k in r && k !in keys)
    && forall i, j | 0 <= i < j < |order| :: order[i] != order[j]
  }

  lemma VisitNext(r: Response, order: seq<string>, keys: set<string>, key: string)
    requires Visiting(r, order, keys) && key in keys
    ensures Visiting(r, order + [key], keys - {key})
    ensures var node := NodeAt(r, key);
            Collect(r, order + [key])
            == if node.Some? then Collect(r, order)[node.value.name := node.value.state] else Collect(r, order)
  {
    assert (order + [key])[..|order|] == order;
    assert forall k :: k in order + [key] <==> k in order || k == key;
  }

  // ---------------------------------------------------------------- the list in the terms of the response

  /** A key that starts with node and does not end in _state, with a string value that begins with the
      host up to its first dot, and with a string under its _state key. */
  ghost predicate Describes(r: Response, key: string, host: string, state: string) {
    && key in r && |key| >= 4 && key[..4] == "node" && !(|key| >= 6 && key[|key| - 6..] == "_state")
    && r[key].Str? && key + "_state" in r && r[key + "_state"] == Str(state)
    && '.' !in host && exists rest :: r[key].s == host + rest && (rest == "" || rest[0] == '.')
  }

  lemma NodeIsDescribed(r: Response, key: string, host: string, state: string)
    ensures key in r && NodeAt(r, key) == Some(Node(host, state)) <==> Describes(r, key, host, state)
  {
    assert |"node"| == 4 && |"_state"| == 6;
    assert "node" <= key <==> |key| >= 4 && key[..4] == "node";
    if key in r && r[key].Str? {
      SplitHead(r[key].s, '.', host);
    }
  }

  /** Each host is described by one key. */
  ghost predicate DistinctHosts(r: Response) {
    forall j, k, host, s, s' | Describes(r, j, host, s) && Describes(r, k, host, s') :: j == k
  }

  predicate KnownRole(state: string) {
    Spelled(state, "master") || Spelled(state, "slave") || Spelled(state, "replica")
  }

  lemma CollectedIsDescribed(r: Response, order: seq<string>, host: string, state: string)
    requires DistinctHosts(r) && Visits(r, order)
    ensures host in Collect(r, order) && Collect(r, order)[host] == state <==> exists key :: Describes(r, key, host, state)
  {
    CollectedHasKey(r, order, host);
    if host in Collect(r, order) && Collect(r, order)[host] == state {
      var k :| k in order && Names(r, k, host) && NodeAt(r, k).value.state == Collect(r, order)[host];
      NodeIsDescribed(r, k, host, state);
    }
    if key :| Describes(r, key, host, state) {
      NodeIsDescribed(r, key, host, state);
      assert Names(r, key, host);
      var k :| k in order && Names(r, k, host) && NodeAt(r, k).value.state == Collect(r, order)[host];
      NodeIsDescribed(r, k, host, Collect(r, order)[host]);
    }
  }

  lemma {:induction false} LinesMember(nodes: Nodes, names: seq<string>, line: string)
    requires forall n <- names :: n in nodes
    ensures line in Lines(nodes, names) <==> exists n :: n in names && line == n + ": " + nodes[n]
  {
    if names != [] {
      LinesMember(nodes, names[1..], line);
      assert names == [names[0]] + names[1..];
    }
  }

  /** A line is in the list exactly when some key describes a host in one of the three roles, in any
      case, and the line is the host and its state. */
  lemma ListIsDescribed(r: Response, list: seq<string>, line: string)
    requires DistinctHosts(r) && ListOf(r, list)
    ensures line in list <==>
            exists key, host, state :: Describes(r, key, host, state) && KnownRole(state) && line == host + ": " + state
  {
    var order, names :| Visits(r, order) && Canonical(Collect(r, order), names) && list == Lines(Collect(r, order), names);
    var nodes := Collect(r, order);
    LinesMember(nodes, names, line);
    if line in list {
      var n :| n in names && line == n + ": " + nodes[n];
      CollectedIsDescribed(r, order, n, nodes[n]);
      RankIsRole(nodes[n]);
      var key :| Describes(r, key, n, nodes[n]);
      assert KnownRole(nodes[n]) by { RankBelowThree(nodes[n]); }
    }
    if key, host, state :| Describes(r, key, host, state) && KnownRole(state) && line == host + ": " + state {
      CollectedIsDescribed(r, order, host, state);
      RankIsRole(state);
      assert host in names;
    }
  }

  lemma RankBelowThree(state: string)
    ensures Rank(state).Some? ==> Rank(state).value < 3
  {}

  /** The list is sorted: masters first, then slaves, then replicas, and by name among equals. */
  lemma ListIsSorted(r: Response, list: seq<string>) returns (hosts: seq<string>, nodes: Nodes)
    requires ListOf(r, list)
    ensures |hosts| == |list| && forall i | 0 <= i < |list| :: hosts[i] in nodes && list[i] == hosts[i] + ": " + nodes[hosts[i]]
    ensures forall i | 0 <= i < |list| :: Rank(nodes[hosts[i]]).Some?
    ensures forall i, j | 0 <= i < j < |list| :: Ahead(nodes, hosts[i], hosts[j])
  {
    var order, names :| Visits(r, order) && Canonical(Collect(r, order), names) && list == Lines(Collect(r, order), names);
    hosts, nodes := names, Collect(r, order);
    LinesLength(nodes, names);
    forall i | 0 <= i < |names| ensures names[i] in nodes && Rank(nodes[names[i]]).Some? && list[i] == names[i] + ": " + nodes[names[i]] {
      assert names[i] in names;
      LineAt(nodes, names, i);
    }
  }

  // ---------------------------------------------------------------- when the list is determined

  /** Nodes with the same short name have the same state, or both an unknown role. */
  ghost predicate RolesAgree(r: Response) {
    forall j, k, name | Names(r, j, name) && Names(r, k, name) ::
      NodeAt(r, j) == NodeAt(r, k)
      || (Rank(NodeAt(r, j).value.state).None? && Rank(NodeAt(r, k).value.state).None?)
  }

  /** The nodes with a known role are the same in both. */
  ghost predicate SameKnown(a: Nodes, b: Nodes) {
    forall n :: (n in a && Rank(a[n]).Some?) || (n in b && Rank(b[n]).Some?) ==> n in a && n in b && a[n] == b[n]
  }

  lemma RolesAgreeIsSameKnown(r: Response, one: seq<string>, two: seq<string>)
    requires RolesAgree(r) && Visits(r, one) && Visits(r, two)
    ensures SameKnown(Collect(r, one), Collect(r, two))
  {
    var a, b := Collect(r, one), Collect(r, two);
    forall n | (n in a && Rank(a[n]).Some?) || (n in b && Rank(b[n]).Some?) ensures n in a && n in b && a[n] == b[n] {
      CollectedHasKey(r, one, n);
      CollectedHasKey(r, two, n);
      assert n in a <==> n in b;
      var j :| j in one && Names(r, j, n) && NodeAt(r, j).value.state == a[n];
      var k :| k in two && Names(r, k, n) && NodeAt(r, k).value.state == b[n];
    }
  }

  lemma SameKnownSameCanonical(a: Nodes, b: Nodes, names: seq<string>)
    requires SameKnown(a, b) && Canonical(a, names)
    ensures Canonical(b, names)
  {}

  lemma {:induction false} SameStatesSameLines(a: Nodes, b: Nodes, names: seq<string>)
    requires forall n <- names :: n in a && n in b && a[n] == b[n]
    ensures Lines(a, names) == Lines(b, names)
  {
    if names != [] {
      SameStatesSameLines(a, b, names[1..]);
    }
  }

  /** The node list is canonical: whatever the orders in which Go visits the response, the list is the
      same. */
  lemma StatusIsCanonical(r: Response, a: seq<string>, b: seq<string>)
    requires RolesAgree(r) && ListOf(r, a) && ListOf(r, b)
    ensures a == b
  {
    var one, names :| Visits(r, one) && Canonical(Collect(r, one), names) && a == Lines(Collect(r, one), names);
    var two, names' :| Visits(r, two) && Canonical(Collect(r, two), names') && b == Lines(Collect(r, two), names');
    RolesAgreeIsSameKnown(r, one, two);
    SameKnownSameCanonical(Collect(r, one), Collect(r, two), names);
    CanonicalIsUnique(Collect(r, two), names, names');
    SameStatesSameLines(Collect(r, one), Collect(r, two), names);
  }

  lemma {:induction false} Enumerate(s: set<string>) returns (q: seq<string>)
    ensures (forall x :: x in q <==> x in s) && forall i, j | 0 <= i < j < |q| :: q[i] != q[j]
  {
    q := [];
    if s != {} {
      var x :| x in s;
      var rest := Enumerate(s - {x});
      q := [x] + rest;
    }
  }

  lemma WithRole(nodes: Nodes, rank: nat) returns (names: seq<string>)
    ensures Ascending(names)
    ensures forall n :: n in names <==> n in nodes && Rank(nodes[n]) == Some(rank)
  {
    var q := Enumerate(set n | n in nodes && Rank(nodes[n]) == Some(rank));
    SortAscends(q);
    names := Sort(q);
  }

  lemma CanonicalExists(nodes: Nodes) returns (names: seq<string>)
    ensures Canonical(nodes, names)
  {
    var a := WithRole(nodes, 0);
    var b := WithRole(nodes, 1);
    var c := WithRole(nodes, 2);
    RolesAreCanonical(nodes, a, b, c);
    names := a + b + c;
  }

  /** Taking one name out of a canonical list. */
  lemma CanonicalWithout(nodes: Nodes, p: seq<string>, name: string, q: seq<string>)
    requires Canonical(nodes, p + [name] + q)
    ensures (forall n <- p :: n in nodes) && (forall n <- q :: n in nodes) && name in nodes
    ensures Canonical(nodes - {name}, p + q)
  {
    var all := p + [name] + q;
    forall n | n in all ensures n in p || n == name || n in q {}
    forall i | 0 <= i < |p + q|
      ensures (p + q)[i] == all[if i < |p| then i else i + 1] && (p + q)[i] in all && (p + q)[i] != name
    {
      OthersDiffer(nodes, p, name, q, if i < |p| then i else i + 1);
    }
    forall i, j | 0 <= i < j < |p + q|
      ensures (p + q)[i] in nodes && (p + q)[j] in nodes
      ensures Rank(nodes[(p + q)[i]]).Some? && Rank(nodes[(p + q)[j]]).Some? && Ahead(nodes, (p + q)[i], (p + q)[j])
    {
      assert Ahead(nodes, all[if i < |p| then i else i + 1], all[if j < |p| then j else j + 1]);
    }
    forall n <- p + q ensures n in nodes - {name} && Rank(nodes[n]).Some? {
      var i :| 0 <= i < |p + q| && (p + q)[i] == n;
    }
  }

  lemma OthersDiffer(nodes: Nodes, p: seq<string>, name: string, q: seq<string>, i: nat)
    requires Canonical(nodes, p + [name] + q) && i < |p| + 1 + |q| && i != |p|
    ensures (p + [name] + q)[i] in (p + [name] + q) && (p + [name] + q)[i] != name
  {
    var all := p + [name] + q;
    assert all[|p|] == name && all[|p|] in all && all[i] in all;
    if i < |p| {
      assert Ahead(nodes, all[i], all[|p|]);
    } else {
      assert Ahead(nodes, all[|p|], all[i]);
    }
    AheadIsStrict(nodes, name, all[i]);
  }

  /** The lines of a canonical list are, in some order, that of one name and those of the rest. */
  lemma LinesWithout(nodes: Nodes, names: seq<string>, name: string) returns (rest: seq<string>)
    requires Canonical(nodes, names) && name in nodes && Rank(nodes[name]).Some?
    ensures Canonical(nodes - {name}, rest)
    ensures multiset(Lines(nodes, names)) == multiset(Lines(nodes - {name}, rest)) + multiset{name + ": " + nodes[name]}
  {
    assert name in names;
    var i :| 0 <= i < |names| && names[i] == name;
    var p, q := names[..i], names[i + 1..];
    assert names == p + [name] + q;
    CanonicalWithout(nodes, p, name, q);
    rest := p + q;
    LinesInParts(nodes, p, name, q);
    SameStatesSameLines(nodes, nodes - {name}, rest);
  }

  lemma LinesInParts(nodes: Nodes, p: seq<string>, name: string, q: seq<string>)
    requires (forall n <- p :: n in nodes) && (forall n <- q :: n in nodes) && name in nodes
    ensures (forall n <- p + q :: n in nodes) && (forall n <- p + [name] + q :: n in nodes)
    ensures multiset(Lines(nodes, p + [name] + q)) == multiset(Lines(nodes, p + q)) + multiset{name + ": " + nodes[name]}
  {
    LinesConcat(nodes, p, [name]);
    LinesConcat(nodes, p + [name], q);
    LinesConcat(nodes, p, q);
    assert Lines(nodes, [name]) == [name + ": " + nodes[name]];
  }

  /** Two node maps that differ only in the state of one name, known in the first, have different
      lists. */
  lemma ListsDiffer(a: Nodes, b: Nodes, name: string, one: seq<string>, two: seq<string>)
    requires name in a && name in b && a - {name} == b - {name} && a[name] != b[name] && Rank(a[name]).Some?
    requires Canonical(a, one) && Canonical(b, two)
    ensures Lines(a, one) != Lines(b, two)
  {
    var less := a - {name};
    var rest := LinesWithout(a, one, name);
    var line, line' := name + ": " + a[name], name + ": " + b[name];
    assert line[|name| + 2..] == a[name] && line'[|name| + 2..] == b[name];
    if Rank(b[name]).Some? {
      var rest' := LinesWithout(b, two, name);
      CanonicalIsUnique(less, rest, rest');
      var others := multiset(Lines(less, rest));
      assert (others + multiset{line})[line] != (others + multiset{line'})[line];
    } else {
      assert SameKnown(b, less) by {
        assert forall n :: n in less <==> n in b && n != name;
        assert forall n <- less :: less[n] == b[n];
      }
      SameKnownSameCanonical(b, less, two);
      CanonicalIsUnique(less, rest, two);
      SameStatesSameLines(b, less, two);
      assert |multiset(Lines(a, one))| == |multiset(Lines(b, two))| + 1;
    }
  }

  /** An order that ends with two keys of one short name keeps the state of the last one. */
  lemma CollectEndingWith(r: Response, rest: seq<string>, j: string, k: string, name: string)
    requires Names(r, j, name) && Names(r, k, name) && forall x <- rest :: x in r
    ensures var order := rest + [k, j];
            && (forall x <- order :: x in r)
            && Collect(r, order) == Collect(r, rest)[name := NodeAt(r, j).value.state]
  {
    var order := rest + [k, j];
    assert order[..|order| - 1] == rest + [k] && (rest + [k])[..|rest|] == rest;
    var nodes := Collect(r, rest);
    assert Collect(r, rest + [k]) == nodes[name := NodeAt(r, k).value.state];
  }

  lemma VisitsEndingWith(r: Response, rest: seq<string>, j: string, k: string)
    requires j in r && k in r && j != k
    requires (forall x :: x in rest <==> x in r.Keys - {j, k}) && forall i, l | 0 <= i < l < |rest| :: rest[i] != rest[l]
    ensures Visits(r, rest + [k, j])
  {
    var order, n := rest + [k, j], |rest|;
    forall x ensures x in order <==> x in r {
      assert x in order <==> x in rest || x == k || x == j;
    }
    assert order[n] == k && order[n + 1] == j && forall i | 0 <= i < n :: order[i] == rest[i] && rest[i] in rest;
    forall a, b | 0 <= a < b < |order| ensures order[a] != order[b] {
      if b < n {
        assert rest[a] != rest[b];
      } else if a < n {
        assert rest[a] != j && rest[a] != k;
      }
    }
  }

  /** Two orders that end with the two clashing keys give different lists. */
  lemma ClashIsOrderDependent(r: Response, j: string, k: string, name: string) returns (a: seq<string>, b: seq<string>)
    requires Names(r, j, name) && Names(r, k, name) && NodeAt(r, j) != NodeAt(r, k)
    requires Rank(NodeAt(r, j).value.state).Some?
    ensures ListOf(r, a) && ListOf(r, b) && a != b
  {
    var rest := Enumerate(r.Keys - {j, k});
    var names, names';
    a, names := ListEndingWith(r, rest, j, k, name);
    b, names' := ListEndingWith(r, rest, k, j, name);
    var nodes := Collect(r, rest);
    ListsDiffer(nodes[name := NodeAt(r, j).value.state], nodes[name := NodeAt(r, k).value.state], name, names, names');
  }

  /** The list of the order that ends with k and j. */
  lemma ListEndingWith(r: Response, rest: seq<string>, j: string, k: string, name: string)
    returns (list: seq<string>, names: seq<string>)
    requires Names(r, j, name) && Names(r, k, name) && j != k
    requires (forall x :: x in rest <==> x in r.Keys - {j, k}) && forall i, l | 0 <= i < l < |rest| :: rest[i] != rest[l]
    ensures ListOf(r, list)
    ensures var nodes := Collect(r, rest)[name := NodeAt(r, j).value.state];
            Canonical(nodes, names) && list == Lines(nodes, names)
  {
    VisitsEndingWith(r, rest, j, k);
    CollectEndingWith(r, rest, j, k, name);
    names := CanonicalExists(Collect(r, rest + [k, j]));
    list := Lines(Collect(r, rest + [k, j]), names);
  }

  /** A response determines its node list, whatever the order in which Go visits it, exactly when
      nodes with the same short name have equal states or both an unknown role. */
  lemma ListIsDetermined(r: Response)
    ensures (forall a, b | ListOf(r, a) && ListOf(r, b) :: a == b) <==> RolesAgree(r)
  {
    if RolesAgree(r) {
      forall a, b | ListOf(r, a) && ListOf(r, b) ensures a == b {
        StatusIsCanonical(r, a, b);
      }
    } else {
      var j, k, name :|
        Names(r, j, name) && Names(r, k, name) && NodeAt(r, j) != NodeAt(r, k)
        && (Rank(NodeAt(r, j).value.state).Some? || Rank(NodeAt(r, k).value.state).Some?);
      var a, b;
      if Rank(NodeAt(r, j).value.state).Some? {
        a, b := ClashIsOrderDependent(r, j, k, name);
      } else {
        a, b := ClashIsOrderDependent(r, k, j, name);
      }
    }
  }

  // ---------------------------------------------------------------- the current master

  /** strings.Split(s, ": ") */
  function SplitColon(s: string): (parts: seq<string>)
    ensures |parts| >= 1
    decreases |s|
  {
    if s == "" then [""]
    else if ": " <= s then [""] + SplitColon(s[2..])
    else
      var rest := SplitColon(s[1..]);
      [[s[0]] + rest[0]] + rest[1..]
  }

  /** The text has no ": " in it. */
  predicate ColonFree(s: string) { forall i | 0 <= i < |s| - 1 :: !(s[i] == ':' && s[i + 1] == ' ') }

  lemma {:induction false} SplitColonFree(s: string)
    requires ColonFree(s)
    ensures SplitColon(s) == [s]
  {
    if s != "" {
      forall i | 0 <= i < |s[1..]| - 1 ensures !(s[1..][i] == ':' && s[1..][i + 1] == ' ') {
        assert s[1..][i] == s[i + 1];
      }
      SplitColonFree(s[1..]);
      assert [s[0]] + s[1..] == s;
    }
  }

  lemma SplitLine(name: string, state: string)
    requires ColonFree(name) && ColonFree(state)
    ensures SplitColon(name + ": " + state) == [name, state]
  {
    SplitAtSeparator(name, state);
    SplitColonFree(state);
  }

  predicate IsMasterLine(line: string) {
    var parts := SplitColon(line);
    |parts| == 2 && parts[1] == MASTER
  }

  /** The name on the first master line if there is one, else the name from before. */
  ghost predicate MasterOf(list: seq<string>, before: string, chosen: string) {
    && (forall i | 0 <= i < |list| && IsMasterLine(list[i]) && (forall j | 0 <= j < i :: !IsMasterLine(list[j])) ::
          chosen == SplitColon(list[i])[0])
    && ((forall i | 0 <= i < |list| :: !IsMasterLine(list[i])) ==> chosen == before)
  }

  /** The loop that picks the current master. */
  method CurrentMaster(listStatus: seq<string>, before: string) returns (currentMaster: string)
    ensures MasterOf(listStatus, before, currentMaster)
  {
    for i := 0 to |listStatus|
      invariant forall j | 0 <= j < i :: !IsMasterLine(listStatus[j])
    {
      var parts := SplitColon(listStatus[i]);
      if |parts| == 2 && parts[1] == MASTER {
        return parts[0];
      }
    }
    return before;
  }

  lemma {:induction false} LineAt(nodes: Nodes, names: seq<string>, i: nat)
    requires (forall n <- names :: n in nodes) && i < |names|
    ensures |Lines(nodes, names)| == |names|
    ensures names[i] in nodes && Lines(nodes, names)[i] == names[i] + ": " + nodes[names[i]]
  {
    if i > 0 {
      LineAt(nodes, names[1..], i - 1);
    } else if |names| > 1 {
      LineAt(nodes, names[1..], 0);
    }
  }

  lemma {:induction false} SplitAtSeparator(x: string, y: string)
    requires ColonFree(x)
    ensures SplitColon(x + ": " + y) == [x] + SplitColon(y)
  {
    var line := x + ": " + y;
    if x == "" {
      assert line[2..] == y;
    } else {
      var rest := x[1..];
      assert line[1..] == rest + ": " + y;
      forall i | 0 <= i < |rest| - 1 ensures !(rest[i] == ':' && rest[i + 1] == ' ') {
        assert rest[i] == x[i + 1] && rest[i + 1] == x[i + 2];
      }
      SplitAtSeparator(rest, y);
      assert !(": " <= line) by {
        assert |x| > 1 ==> line[1] == x[1];
        assert |x| == 1 ==> line[1] == ':';
      }
      assert [x[0]] + rest == x;
    }
  }

  lemma {:induction false} SplitColonOne(s: string)
    ensures |SplitColon(s)| == 1 ==> SplitColon(s) == [s]
  {
    if s != "" && !(": " <= s) {
      SplitColonOne(s[1..]);
      assert [s[0]] + s[1..] == s;
    }
  }

  lemma {:induction false} SplitHasTwo(x: string, y: string)
    ensures |SplitColon(x + ": " + y)| >= 2
    decreases |x|
  {
    var line := x + ": " + y;
    if x == "" {
      assert line[2..] == y;
    } else if ": " <= line {
      assert |SplitColon(line[2..])| >= 1;
    } else {
      assert line[1..] == x[1..] + ": " + y;
      SplitHasTwo(x[1..], y);
    }
  }

  lemma {:induction false} SplitHasThree(x: string, y: string)
    requires !ColonFree(x)
    ensures |SplitColon(x + ": " + y)| >= 3
    decreases |x|
  {
    var line := x + ": " + y;
    var i :| 0 <= i < |x| - 1 && x[i] == ':' && x[i + 1] == ' ';
    if ": " <= x {
      assert line[2..] == x[2..] + ": " + y;
      SplitHasTwo(x[2..], y);
    } else {
      assert x[1..][i - 1] == ':' && x[1..][i] == ' ';
      assert line[1..] == x[1..] + ": " + y;
      assert line[0] == x[0] && line[1] == x[1];
      SplitHasThree(x[1..], y);
    }
  }

  /** A line names the master exactly when its state is the literal `master` and its name has no
      separator in it. */
  lemma MasterLineIff(name: string, state: string)
    ensures IsMasterLine(name + ": " + state) <==> ColonFree(name) && state == MASTER
    ensures ColonFree(name) ==> SplitColon(name + ": " + state)[0] == name
  {
    if ColonFree(name) {
      SplitAtSeparator(name, state);
      SplitColonOne(state);
      if state == MASTER {
        assert forall i | 0 <= i < |MASTER| :: MASTER[i] != ':';
        SplitColonFree(MASTER);
      }
    } else {
      SplitHasThree(name, state);
    }
  }

  /** The node can be chosen. */
  predicate Electable(nodes: Nodes, n: string)
    requires n in nodes
  {
    nodes[n] == MASTER && ColonFree(n)
  }

  lemma ElectableIsMaster(nodes: Nodes, n: string)
    requires n in nodes && Electable(nodes, n)
    ensures Rank(nodes[n]) == Some(0)
  {
    assert EqualFold(MASTER, MASTER);
  }

  lemma ElectableLine(nodes: Nodes, names: seq<string>, i: nat)
    requires Canonical(nodes, names) && i < |names|
    ensures |Lines(nodes, names)| == |names| && names[i] in nodes
    ensures IsMasterLine(Lines(nodes, names)[i]) <==> Electable(nodes, names[i])
    ensures Electable(nodes, names[i]) ==> SplitColon(Lines(nodes, names)[i])[0] == names[i]
  {
    assert names[i] in names;
    LineAt(nodes, names, i);
    MasterLineIff(names[i], nodes[names[i]]);
  }

  lemma FirstElectable(nodes: Nodes, names: seq<string>, k: nat) returns (i: nat)
    requires Canonical(nodes, names) && k < |names| && names[k] in nodes && Electable(nodes, names[k])
    ensures i < |names| && names[i] in nodes && Electable(nodes, names[i])
    ensures forall j | 0 <= j < i :: names[j] in nodes && !Electable(nodes, names[j])
  {
    if j: nat :| j < k && names[j] in nodes && Electable(nodes, names[j]) {
      i := FirstElectable(nodes, names, j);
    } else {
      i := k;
      assert forall j | 0 <= j < i :: names[j] in names;
    }
  }

  /** No electable node is below this one. */
  ghost predicate FirstOfElectable(nodes: Nodes, n: string)
    requires n in nodes
  {
    Electable(nodes, n) && forall m <- nodes :: Electable(nodes, m) ==> m == n || Below(n, m)
  }

  lemma FirstInListIsFirst(nodes: Nodes, names: seq<string>, i: nat)
    requires Canonical(nodes, names) && i < |names| && names[i] in nodes && Electable(nodes, names[i])
    requires forall j | 0 <= j < i :: names[j] in nodes && !Electable(nodes, names[j])
    ensures FirstOfElectable(nodes, names[i])
  {
    ElectableIsMaster(nodes, names[i]);
    forall m <- nodes | Electable(nodes, m) ensures m == names[i] || Below(names[i], m) {
      ElectableIsMaster(nodes, m);
      assert m in names;
      var l :| 0 <= l < |names| && names[l] == m;
      assert l > i ==> Ahead(nodes, names[i], names[l]);
    }
  }

  /** The chosen master is the alphabetically first node whose state is the literal `master`, although
      the list names masters in any case; without such a node the old value stays. */
  lemma MasterIsFirst(nodes: Nodes, names: seq<string>, before: string, chosen: string)
    requires Canonical(nodes, names) && MasterOf(Lines(nodes, names), before, chosen)
    ensures (exists n :: n in nodes && Electable(nodes, n)) ==> chosen in nodes && FirstOfElectable(nodes, chosen)
    ensures (forall n <- nodes :: !Electable(nodes, n)) ==> chosen == before
  {
    if n :| n in nodes && Electable(nodes, n) {
      ElectableIsChosen(nodes, names, before, chosen, n);
    } else {
      LinesLength(nodes, names);
      forall i | 0 <= i < |names| ensures !IsMasterLine(Lines(nodes, names)[i]) {
        ElectableLine(nodes, names, i);
      }
    }
  }

  lemma ElectableIsChosen(nodes: Nodes, names: seq<string>, before: string, chosen: string, n: string)
    requires Canonical(nodes, names) && MasterOf(Lines(nodes, names), before, chosen)
    requires n in nodes && Electable(nodes, n)
    ensures chosen in nodes && FirstOfElectable(nodes, chosen)
  {
    ElectableIsMaster(nodes, n);
    assert n in names;
    var k :| 0 <= k < |names| && names[k] == n;
    var i := FirstElectable(nodes, names, k);
    FirstInListIsFirst(nodes, names, i);
    ElectableLine(nodes, names, i);
    forall j | 0 <= j < i ensures !IsMasterLine(Lines(nodes, names)[j]) {
      ElectableLine(nodes, names, j);
    }
  }

  lemma LinesLength(nodes: Nodes, names: seq<string>)
    requires forall n <- names :: n in nodes
    ensures |Lines(nodes, names)| == |names|
  {
    if names != [] {
      LineAt(nodes, names, 0);
    }
  }

  /** Hence, with some electable node, the choice is the first master of the list exactly when that
      master is electable: spelled `master`, and without a separator in its name. */
  lemma ChoiceIsFirstMaster(nodes: Nodes, names: seq<string>, before: string, chosen: string)
    requires Canonical(nodes, names) && MasterOf(Lines(nodes, names), before, chosen)
    requires exists n :: n in nodes && Electable(nodes, n)
    ensures names != [] && names[0] in nodes && Rank(nodes[names[0]]) == Some(0)
    ensures chosen == names[0] <==> Electable(nodes, names[0])
  {
    MasterIsFirst(nodes, names, before, chosen);
    ElectableIsMaster(nodes, chosen);
    assert chosen in names;
    var k :| 0 <= k < |names| && names[k] == chosen;
    assert names[0] in names;
    assert k > 0 ==> Ahead(nodes, names[0], names[k]);
    if Electable(nodes, names[0]) && chosen != names[0] {
      BelowIsTotal(chosen, names[0]);
    }
  }

  // ---------------------------------------------------------------- the stored status

  const HA_ON := "ON"
  const HA_OFF := "OFF"
  const STANDALONE := "STANDALONE"
  const UNKNOWN := "Unkonw"

  /** The stored status; its node list may be missing. */
  datatype Status = Status(haMode: string, nodeLists: Option<seq<string>>, currentMaster: string, lastUpdated: nat)

  /** What a reconcile finds: HA disabled, no pod addresses, no CMS that answers, or an answer. */
  datatype Observation = Disabled | NoAddresses | Unreachable | Answer(response: Response)

  /** The status without its time, a missing node list being an empty one. */
  datatype View = View(haMode: string, nodeLists: seq<string>, currentMaster: string)

  function ViewOf(s: Status): View {
    View(s.haMode, if s.nodeLists.Some? then s.nodeLists.value else [], s.currentMaster)
  }

  /** The view that an observation leads to. */
  ghost predicate Observed(name: string, o: Observation, before: View, after: View) {
    match o
    case Disabled => after == View("OFF", ["STANDALONE"], name)
    case NoAddresses => after == View("ON", [], before.currentMaster)
    case Unreachable => after == View("ON", [name + ": " + "Unkonw"], "Unkonw")
    case Answer(r) =>
      && after.haMode == "ON" && ListOf(r, after.nodeLists)
      && MasterOf(after.nodeLists, before.currentMaster, after.currentMaster)
  }

  /** The host can be chosen: its state is `master`, and its name has no separator. */
  ghost predicate Elected(r: Response, host: string) {
    ColonFree(host) && exists key :: Describes(r, key, host, "master")
  }

  /** After an answer with distinct hosts: the lines of the described hosts, and as current master the
      alphabetically first host that can be chosen; without such a host the old one. */
  lemma AnswerIsDescribed(name: string, r: Response, before: View, after: View)
    requires Observed(name, Answer(r), before, after) && DistinctHosts(r)
    ensures after.haMode == "ON"
    ensures forall line :: line in after.nodeLists <==>
              exists key, host, state :: Describes(r, key, host, state) && KnownRole(state) && line == host + ": " + state
    ensures (exists host :: Elected(r, host)) ==>
              && Elected(r, after.currentMaster)
              && forall host | Elected(r, host) :: host == after.currentMaster || Below(after.currentMaster, host)
    ensures (forall host :: !Elected(r, host)) ==> after.currentMaster == before.currentMaster
  {
    forall line ensures line in after.nodeLists <==>
      exists key, host, state :: Describes(r, key, host, state) && KnownRole(state) && line == host + ": " + state
    {
      ListIsDescribed(r, after.nodeLists, line);
    }
    ChosenIsElected(r, after.nodeLists, before.currentMaster, after.currentMaster);
  }

  lemma ChosenIsElected(r: Response, list: seq<string>, before: string, chosen: string)
    requires ListOf(r, list) && MasterOf(list, before, chosen) && DistinctHosts(r)
    ensures (exists host :: Elected(r, host)) ==>
              Elected(r, chosen) && forall host | Elected(r, host) :: host == chosen || Below(chosen, host)
    ensures (forall host :: !Elected(r, host)) ==> chosen == before
  {
    var order, names :| Visits(r, order) && Canonical(Collect(r, order), names) && list == Lines(Collect(r, order), names);
    var nodes := Collect(r, order);
    MasterIsFirst(nodes, names, before, chosen);
    forall host: string ensures Elected(r, host) <==> host in nodes && Electable(nodes, host) {
      CollectedIsDescribed(r, order, host, "master");
    }
  }

  lemma MasterOfIsDetermined(list: seq<string>, before: string, one: string, two: string)
    requires MasterOf(list, before, one) && MasterOf(list, one, two)
    ensures one == two
  {
    if k :| 0 <= k < |list| && IsMasterLine(list[k]) {
      var i := FirstMasterLine(list, k);
    }
  }

  lemma FirstMasterLine(list: seq<string>, k: nat) returns (i: nat)
    requires k < |list| && IsMasterLine(list[k])
    ensures i <= k && IsMasterLine(list[i]) && forall j | 0 <= j < i :: !IsMasterLine(list[j])
  {
    if j: nat :| j < k && IsMasterLine(list[j]) {
      i := FirstMasterLine(list, j);
    } else {
      i := k;
    }
  }

  /** Making the same observation again changes nothing, although Go may visit the response in
      another order. */
  lemma ObservingTwiceChangesNothing(name: string, o: Observation, before: View, one: View, two: View)
    requires o.Answer? ==> RolesAgree(o.response)
    requires Observed(name, o, before, one) && Observed(name, o, one, two)
    ensures one == two
  {
    if o.Answer? {
      StatusIsCanonical(o.response, one.nodeLists, two.nodeLists);
      MasterOfIsDetermined(one.nodeLists, before.currentMaster, one.currentMaster, two.currentMaster);
    }
  }

  class CubridDBReconciler {
    const name: string
    var status: Status
    var writes: nat

    constructor (name: string, status: Status)
      ensures this.name == name && this.status == status && writes == 0
    {
      this.name, this.status, writes := name, status, 0;
    }

    /** UpdateCubridDBStatus: the status is stored, with the time, exactly when it changed apart
        from the time, and only then an unreachable CMS is reported. */
    method UpdateCubridDBStatus(o: Observation, now: nat) returns (ok: bool)
      modifies this
      ensures Observed(name, o, ViewOf(old(status)), ViewOf(status))
      ensures var changed := ViewOf(status) != ViewOf(old(status));
              && writes == old(writes) + (if changed then 1 else 0)
              && (if changed then status.lastUpdated == now else status == old(status))
              && (ok <==> !(changed && o.Unreachable?))
    {
      var next := status;
      match o {
        case Disabled =>
          next := Status(HA_OFF, Some([STANDALONE]), name, next.lastUpdated);
        case NoAddresses =>
          next := Status(HA_ON, Some([]), next.currentMaster, next.lastUpdated);
        case Unreachable =>
          next := Status(HA_ON, Some([name + ": " + UNKNOWN]), UNKNOWN, next.lastUpdated);
        case Answer(r) =>
          var listStatus := ParseHANodesStatus(r);
          var currentMaster := CurrentMaster(listStatus, next.currentMaster);
          next := Status(HA_ON, Some(listStatus), currentMaster, next.lastUpdated);
      }
      if ViewOf(next) == ViewOf(status) {
        return true;
      }
      status := next.(lastUpdated := now);
      writes := writes + 1;
      return !o.Unreachable?;
    }
  }
}
