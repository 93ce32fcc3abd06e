/** What the configuration commands of one pod do to its two files (applyCubridHAConf and
    applyCubridConf of pkg/manager/ha_manager.go): each of the two command maps is executed in the
    arbitrary order in which Go visits it. */
module HaConfiguration {
  import opened Wrappers
  import opened OperatorConf
  import opened HaManager
  import opened LogArchives

  /** The order visits every command of the map once. */
  ghost predicate Visits(commands: set<Command>, order: seq<Command>) {
    && (forall c :: c in order <==> c in commands)
    && forall i, j | 0 <= i < j < |order| :: order[i] != order[j]
  }

  /** The orders of the two maps. */
  datatype Order = Order(ha: seq<Command>, cubrid: seq<Command>)

  ghost predicate Possible(mode: HAMode, g: GroupConfig, o: Order) {
    Visits(HaConfCommands(g), o.ha) && Visits(CubridConfCommands(mode, g), o.cubrid)
  }

  function Configure(o: Order, files: Files): Files { Execute(o.cubrid, Execute(o.ha, files)) }

  // ---------------------------------------------------------------- the edits of the commands

  lemma CommandEdits(mode: HAMode, g: GroupConfig, c: Command, e: Edit)
    requires c in HaConfCommands(g) + CubridConfCommands(mode, g)
    ensures e in CubridEdits(c) ==> e in CubridEditSet(mode)
    ensures e in HaEdits(c) ==> e in HaEditSet(g)
    ensures c in HaConfCommands(g) ==> (e in CubridEdits(c) <==> c == LogMaxArchives && e == CubridEdits(LogMaxArchives)[0])
  {
    assert |CubridEdits(c)| <= 1;
    assert !c.CommonConfig? ==> |HaEdits(c)| <= 1;
  }

  lemma EditHasCommand(mode: HAMode, g: GroupConfig, e: Edit) returns (c: Command)
    requires e in CubridEditSet(mode)
    ensures c in CubridConfCommands(mode, g) && e in CubridEdits(c)
  {
    var m := if mode.On? then HaMode else HaReplicaMode;
    c := if e == CubridEdits(m)[0] then m
         else if e == CubridEdits(LogMaxArchives)[0] then LogMaxArchives else ForceRemoveLogArchives;
    assert CubridEdits(c)[0] == e;
  }

  const LIMIT: Edit := CubridEdits(LogMaxArchives)[0]

  /** The first round runs set_log_max_archives on cubrid.conf and nothing else. */
  lemma FirstRound(mode: HAMode, g: GroupConfig, order: seq<Command>, e: Edit)
    requires Visits(HaConfCommands(g), order)
    ensures e in AllCubridEdits(order) <==> e == LIMIT
  {
    EditsOfCommands(order, e);
    forall c | c in order ensures e in CubridEdits(c) <==> c == LogMaxArchives && e == LIMIT {
      CommandEdits(mode, g, c, e);
    }
    assert LogMaxArchives in order;
  }

  /** The second round runs every edit of cubrid.conf. */
  lemma SecondRound(mode: HAMode, g: GroupConfig, order: seq<Command>, e: Edit)
    requires Visits(CubridConfCommands(mode, g), order)
    ensures e in AllCubridEdits(order) <==> e in CubridEditSet(mode)
  {
    EditsOfCommands(order, e);
    forall c | c in order ensures e in CubridEdits(c) ==> e in CubridEditSet(mode) {
      CommandEdits(mode, g, c, e);
    }
    if e in CubridEditSet(mode) {
      var c := EditHasCommand(mode, g, e);
      assert c in order;
    }
  }

  lemma LimitIsIn(mode: HAMode)
    ensures LIMIT in CubridEditSet(mode) && LIMIT.Archives? && PlainValue(LIMIT.value)
    ensures HasArchives(CubridEditSet(mode))
  {}

  lemma {:induction false} RepeatedEdit(e: Edit, order: seq<Edit>, lines: seq<string>)
    requires WellFormed(e) && order != [] && forall f <- order :: f == e
    ensures ApplyAll(order, lines) == Apply(e, lines)
    decreases |order|
  {
    assert order[0] in order && forall f <- order[1..] :: f in order;
    if order[1..] != [] {
      RepeatedEdit(e, order[1..], Apply(e, lines));
      ApplySettles(e, lines);
      SettledIsFixed(e, Apply(e, lines));
    }
  }

  lemma LimitFirst(mode: HAMode, g: GroupConfig, order: seq<Command>, lines: seq<string>)
    requires Visits(HaConfCommands(g), order)
    ensures ApplyAll(AllCubridEdits(order), lines) == Apply(LIMIT, lines)
  {
    LimitIsIn(mode);
    forall e ensures e in AllCubridEdits(order) <==> e == LIMIT {
      FirstRound(mode, g, order, e);
    }
    assert LIMIT in AllCubridEdits(order);
    RepeatedEdit(LIMIT, AllCubridEdits(order), lines);
  }

  lemma CubridInRounds(o: Order, files: Files)
    ensures Configure(o, files).cubrid == ApplyAll(AllCubridEdits(o.cubrid), ApplyAll(AllCubridEdits(o.ha), files.cubrid))
  {
    ExecuteIsApplyAll(o.ha, files);
    ExecuteIsApplyAll(o.cubrid, Execute(o.ha, files));
  }

  /** cubrid.conf after both rounds. */
  lemma CubridInTwo(mode: HAMode, g: GroupConfig, o: Order, files: Files)
    requires Possible(mode, g, o)
    ensures Configure(o, files).cubrid == ApplyAll(AllCubridEdits(o.cubrid), Apply(LIMIT, files.cubrid))
  {
    CubridInRounds(o, files);
    LimitFirst(mode, g, o.ha, files.cubrid);
  }

  /** cubrid_ha.conf after both rounds. */
  lemma HaInOne(o: Order, files: Files)
    ensures Configure(o, files).ha == ApplyAll(AllHaEdits(o.ha) + AllHaEdits(o.cubrid), files.ha)
  {
    ExecuteIsApplyAll(o.ha, files);
    ExecuteIsApplyAll(o.cubrid, Execute(o.ha, files));
    ApplyAllConcat(AllHaEdits(o.ha), AllHaEdits(o.cubrid), files.ha);
  }

  // ---------------------------------------------------------------- the order of the commands

  lemma CubridAgrees(mode: HAMode, g: GroupConfig, one: Order, two: Order, files: Files, key: string)
    requires Possible(mode, g, one) && Possible(mode, g, two) && KeyName(key)
    requires NotMasked(CubridEditSet(mode), files.cubrid)
    ensures Values(Configure(one, files).cubrid, key) == Values(Configure(two, files).cubrid, key)
  {
    var es, prepared := CubridEditSet(mode), Apply(LIMIT, files.cubrid);
    var a, b := AllCubridEdits(one.cubrid), AllCubridEdits(two.cubrid);
    CubridInTwo(mode, g, one, files);
    CubridInTwo(mode, g, two, files);
    CubridEditSetIsCompatible(mode);
    LimitIsIn(mode);
    FirstRunPrepares(es, LIMIT, files.cubrid);
    forall e ensures (e in a <==> e in es) && (e in b <==> e in es) {
      SecondRound(mode, g, one.cubrid, e);
      SecondRound(mode, g, two.cubrid, e);
    }
    PreparedIsUnmasked(es, a, prepared);
    PreparedIsUnmasked(es, b, prepared);
    EditsAgreeOnValues(es, a, b, Unmasked(es, prepared), key);
  }

  function Sets(mode: HAMode): seq<Edit> {
    match mode
    case On => [CubridEdits(HaMode)[0], CubridEdits(ForceRemoveLogArchives)[0]]
    case Replica => [CubridEdits(HaReplicaMode)[0]]
  }

  lemma SetsAreSets(mode: HAMode, e: Edit)
    ensures e in Sets(mode) <==> e in CubridEditSet(mode) && e.Set?
  {}

  function HaOrder(g: GroupConfig): seq<Command> {
    [CommonConfig, LogMaxArchives]
    + (if g.haNodeList != "" then [NodeList(g.haNodeList), CopySyncMode(g.haCopySyncMode)] else [])
    + (if g.haReplicaList != "" then [ReplicaList(g.haReplicaList)] else [])
  }

  /** The second round with set_log_max_archives first, and with it last. */
  function Early(mode: HAMode, g: GroupConfig): seq<Command> {
    match mode
    case On => [LogMaxArchives, HaMode, ForceRemoveLogArchives, CommonConfig, NodeList(g.haNodeList),
                CopySyncMode(g.haCopySyncMode)]
    case Replica => [LogMaxArchives, HaReplicaMode, CommonConfig, ReplicaList(g.haReplicaList)]
  }

  function Late(mode: HAMode, g: GroupConfig): seq<Command> {
    match mode
    case On => [HaMode, ForceRemoveLogArchives, LogMaxArchives, CommonConfig, NodeList(g.haNodeList),
                CopySyncMode(g.haCopySyncMode)]
    case Replica => [HaReplicaMode, LogMaxArchives, CommonConfig, ReplicaList(g.haReplicaList)]
  }

  lemma HaOrderVisits(g: GroupConfig)
    ensures Visits(HaConfCommands(g), HaOrder(g))
  {
    var order := HaOrder(g);
    assert |order| >= 2 && order[0] == CommonConfig && order[1] == LogMaxArchives;
    if g.haNodeList != "" {
      assert order[2] == NodeList(g.haNodeList) && order[3] == CopySyncMode(g.haCopySyncMode);
    }
    if g.haReplicaList != "" {
      assert order[|order| - 1] == ReplicaList(g.haReplicaList);
    }
  }

  lemma EarlyVisits(mode: HAMode, g: GroupConfig)
    ensures Visits(CubridConfCommands(mode, g), Early(mode, g))
  {}

  lemma LateVisits(mode: HAMode, g: GroupConfig)
    ensures Visits(CubridConfCommands(mode, g), Late(mode, g))
  {}

  lemma OrdersArePossible(mode: HAMode, g: GroupConfig)
    ensures Possible(mode, g, Order(HaOrder(g), Early(mode, g))) && Possible(mode, g, Order(HaOrder(g), Late(mode, g)))
  {
    HaOrderVisits(g);
    EarlyVisits(mode, g);
    LateVisits(mode, g);
  }

  lemma {:induction false} NoCubridEdits(order: seq<Command>)
    requires forall c <- order :: CubridEdits(c) == []
    ensures AllCubridEdits(order) == []
  {
    if order != [] {
      assert order[0] in order && forall c <- order[1..] :: c in order;
      NoCubridEdits(order[1..]);
    }
  }

  lemma EditsBefore(c: Command, order: seq<Command>)
    ensures AllCubridEdits([c] + order) == CubridEdits(c) + AllCubridEdits(order)
  {
    assert ([c] + order)[1..] == order;
  }

  lemma EditsOfThree(a: Command, b: Command, c: Command, e: Edit, f: Edit, h: Edit, rest: seq<Command>)
    requires CubridEdits(a) == [e] && CubridEdits(b) == [f] && CubridEdits(c) == [h]
    requires forall x <- rest :: CubridEdits(x) == []
    ensures AllCubridEdits([a, b, c] + rest) == [e, f, h]
  {
    NoCubridEdits(rest);
    EditsBefore(c, rest);
    EditsBefore(b, [c] + rest);
    EditsBefore(a, [b, c] + rest);
    assert [b, c] + rest == [b] + ([c] + rest);
    assert [a, b, c] + rest == [a] + ([b, c] + rest);
  }

  lemma EditsOfTwo(a: Command, b: Command, e: Edit, f: Edit, rest: seq<Command>)
    requires CubridEdits(a) == [e] && CubridEdits(b) == [f]
    requires forall x <- rest :: CubridEdits(x) == []
    ensures AllCubridEdits([a, b] + rest) == [e, f]
  {
    NoCubridEdits(rest);
    EditsBefore(b, rest);
    EditsBefore(a, [b] + rest);
    assert [a, b] + rest == [a] + ([b] + rest);
  }

  lemma EditsOfOrders(mode: HAMode, g: GroupConfig)
    ensures AllCubridEdits(Early(mode, g)) == [LIMIT] + Sets(mode)
    ensures AllCubridEdits(Late(mode, g)) == Sets(mode) + [LIMIT]
  {
    match mode
    case On => EditsOfOn(g);
    case Replica => EditsOfReplica(g);
  }

  lemma EditsOfOn(g: GroupConfig)
    ensures AllCubridEdits(Early(On, g)) == [LIMIT] + Sets(On)
    ensures AllCubridEdits(Late(On, g)) == Sets(On) + [LIMIT]
  {
    var m, f := CubridEdits(HaMode)[0], CubridEdits(ForceRemoveLogArchives)[0];
    var rest := [CommonConfig, NodeList(g.haNodeList), CopySyncMode(g.haCopySyncMode)];
    EditsOfThree(LogMaxArchives, HaMode, ForceRemoveLogArchives, LIMIT, m, f, rest);
    EditsOfThree(HaMode, ForceRemoveLogArchives, LogMaxArchives, m, f, LIMIT, rest);
    assert Early(On, g) == [LogMaxArchives, HaMode, ForceRemoveLogArchives] + rest;
    assert Late(On, g) == [HaMode, ForceRemoveLogArchives, LogMaxArchives] + rest;
  }

  lemma EditsOfReplica(g: GroupConfig)
    ensures AllCubridEdits(Early(Replica, g)) == [LIMIT] + Sets(Replica)
    ensures AllCubridEdits(Late(Replica, g)) == Sets(Replica) + [LIMIT]
  {
    var m := CubridEdits(HaReplicaMode)[0];
    var rest := [CommonConfig, ReplicaList(g.haReplicaList)];
    EditsOfTwo(LogMaxArchives, HaReplicaMode, LIMIT, m, rest);
    EditsOfTwo(HaReplicaMode, LogMaxArchives, m, LIMIT, rest);
    assert Early(Replica, g) == [LogMaxArchives, HaReplicaMode] + rest;
    assert Late(Replica, g) == [HaReplicaMode, LogMaxArchives] + rest;
  }

  lemma ApplyOnce(e: Edit, lines: seq<string>)
    ensures ApplyAll([e], lines) == Apply(e, lines)
  {
    assert [e][1..] == [];
  }

  /** With only masked lines the early order leaves log_max_archives without a value, and the late one
      gives it one. */
  lemma MaskedBreaks(mode: HAMode, g: GroupConfig, files: Files)
    requires !NotMasked(CubridEditSet(mode), files.cubrid)
    ensures Values(Configure(Order(HaOrder(g), Early(mode, g)), files).cubrid, ARCHIVES) == []
    ensures forall line <- Configure(Order(HaOrder(g), Early(mode, g)), files).cubrid :: !NamesArchives(line)
    ensures Values(Configure(Order(HaOrder(g), Late(mode, g)), files).cubrid, ARCHIVES) == [LIMIT.value]
  {
    var es, lines, sets := CubridEditSet(mode), files.cubrid, Sets(mode);
    OrdersArePossible(mode, g);
    EditsOfOrders(mode, g);
    CubridEditSetIsCompatible(mode);
    LimitIsIn(mode);
    forall e ensures e in sets <==> e in es && e.Set? {
      SetsAreSets(mode, e);
    }
    MaskedIsOrderDependent(es, LIMIT, sets, lines);
    CubridInTwo(mode, g, Order(HaOrder(g), Early(mode, g)), files);
    CubridInTwo(mode, g, Order(HaOrder(g), Late(mode, g)), files);
    ApplyAllConcat([LIMIT], sets, lines);
    ApplyAllConcat(sets, [LIMIT], lines);
    ApplyOnce(LIMIT, lines);
    ApplyOnce(LIMIT, ApplyAll(sets, lines));
  }

  /** The commands of a pod give every key of cubrid.conf the same values in every order exactly when
      the file, if it names log_max_archives before a comment at all, does so on a line other than a
      line for ha_mode or force_remove_log_archives whose value happens to name it. */
  lemma ConfigurationIsOrderIndependent(mode: HAMode, g: GroupConfig, files: Files)
    ensures (forall one, two, key | Possible(mode, g, one) && Possible(mode, g, two) && KeyName(key) ::
               Values(Configure(one, files).cubrid, key) == Values(Configure(two, files).cubrid, key))
            <==> NotMasked(CubridEditSet(mode), files.cubrid)
  {
    if NotMasked(CubridEditSet(mode), files.cubrid) {
      forall one, two, key | Possible(mode, g, one) && Possible(mode, g, two) && KeyName(key)
        ensures Values(Configure(one, files).cubrid, key) == Values(Configure(two, files).cubrid, key)
      {
        CubridAgrees(mode, g, one, two, files, key);
      }
    } else {
      MaskedBreaks(mode, g, files);
      OrdersArePossible(mode, g);
      ArchivesIsKeyName();
      var early, late := Order(HaOrder(g), Early(mode, g)), Order(HaOrder(g), Late(mode, g));
      assert Values(Configure(early, files).cubrid, ARCHIVES) != Values(Configure(late, files).cubrid, ARCHIVES);
    }
  }

  // ---------------------------------------------------------------- repeating the commands

  lemma CubridIsSettled(mode: HAMode, g: GroupConfig, one: Order, two: Order, files: Files)
    requires Possible(mode, g, one) && Possible(mode, g, two) && NotMasked(CubridEditSet(mode), files.cubrid)
    ensures Configure(two, Configure(one, files)).cubrid == Configure(one, files).cubrid
  {
    var es, prepared := CubridEditSet(mode), Apply(LIMIT, files.cubrid);
    var a, b := AllCubridEdits(one.cubrid), AllCubridEdits(two.cubrid);
    CubridInTwo(mode, g, one, files);
    CubridInTwo(mode, g, two, Configure(one, files));
    CubridEditSetIsCompatible(mode);
    LimitIsIn(mode);
    FirstRunPrepares(es, LIMIT, files.cubrid);
    forall e ensures (e in a <==> e in es) && (e in b <==> e in es) {
      SecondRound(mode, g, one.cubrid, e);
      SecondRound(mode, g, two.cubrid, e);
    }
    PreparedIsUnmasked(es, a, prepared);
    EditsAgree(es, a, b, Unmasked(es, prepared));
    SettledIsFixed(LIMIT, Configure(one, files).cubrid);
  }

  lemma MaskedIsRepeated(mode: HAMode, g: GroupConfig, files: Files)
    requires !NotMasked(CubridEditSet(mode), files.cubrid)
    ensures var early := Order(HaOrder(g), Early(mode, g));
            && Possible(mode, g, early)
            && Configure(early, Configure(early, files)).cubrid != Configure(early, files).cubrid
  {
    var early := Order(HaOrder(g), Early(mode, g));
    var once := Configure(early, files);
    MaskedBreaks(mode, g, files);
    OrdersArePossible(mode, g);
    CubridInTwo(mode, g, early, once);
    LimitIsIn(mode);
    UnnamedGrows(LIMIT, AllCubridEdits(early.cubrid), once.cubrid);
  }

  /** A second execution, in any order, changes nothing in cubrid.conf, for all orders exactly under the
      same condition. */
  lemma ConfigurationIsIdempotent(mode: HAMode, g: GroupConfig, files: Files)
    ensures (forall one, two | Possible(mode, g, one) && Possible(mode, g, two) ::
               Configure(two, Configure(one, files)).cubrid == Configure(one, files).cubrid)
            <==> NotMasked(CubridEditSet(mode), files.cubrid)
  {
    if NotMasked(CubridEditSet(mode), files.cubrid) {
      forall one, two | Possible(mode, g, one) && Possible(mode, g, two)
        ensures Configure(two, Configure(one, files)).cubrid == Configure(one, files).cubrid
      {
        CubridIsSettled(mode, g, one, two, files);
      }
    } else {
      MaskedIsRepeated(mode, g, files);
    }
  }

  // ---------------------------------------------------------------- cubrid_ha.conf

  /** All edits of cubrid_ha.conf, of both rounds. */
  function HaEditsOf(o: Order): seq<Edit> { AllHaEdits(o.ha) + AllHaEdits(o.cubrid) }

  lemma HaEditsAre(mode: HAMode, g: GroupConfig, o: Order, e: Edit)
    requires Possible(mode, g, o)
    ensures e in HaEditsOf(o) ==> e in HaEditSet(g)
    ensures e in HaEditsOf(o) <==> exists c :: c in HaConfCommands(g) + CubridConfCommands(mode, g) && e in HaEdits(c)
  {
    EditsOfCommands(o.ha, e);
    EditsOfCommands(o.cubrid, e);
    assert forall c :: c in o.ha || c in o.cubrid <==> c in HaConfCommands(g) + CubridConfCommands(mode, g);
    if c :| c in HaConfCommands(g) + CubridConfCommands(mode, g) && e in HaEdits(c) {
      CommandEdits(mode, g, c, e);
    }
  }

  lemma NoArchives(g: GroupConfig)
    ensures !HasArchives(HaEditSet(g))
  {}

  lemma SubsetIsCompatible(es: set<Edit>, sub: set<Edit>)
    requires Compatible(es) && sub <= es
    ensures Compatible(sub)
  {}

  lemma HaEditsAreSeparate(mode: HAMode, g: GroupConfig, o: Order) returns (es: set<Edit>)
    requires Possible(mode, g, o)
    ensures Compatible(es) && es <= HaEditSet(g) && (forall e :: e in HaEditsOf(o) <==> e in es)
    ensures forall line :: OneOwner(es, line)
  {
    es := Elements(HaEditsOf(o));
    forall e | e in es ensures e in HaEditSet(g) {
      HaEditsAre(mode, g, o, e);
    }
    HaEditSetIsCompatible(g);
    NoArchives(g);
    SubsetIsCompatible(HaEditSet(g), es);
    forall line: string ensures OneOwner(es, line) {
      TidyHasOneOwner(es, line);
    }
  }

  /** The commands of a pod give every key of cubrid_ha.conf the same values in every order, whatever
      the file, and a second execution changes nothing. */
  lemma HaFileIsOrderIndependent(mode: HAMode, g: GroupConfig, one: Order, two: Order, files: Files, key: string)
    requires Possible(mode, g, one) && Possible(mode, g, two) && KeyName(key)
    ensures Values(Configure(one, files).ha, key) == Values(Configure(two, files).ha, key)
    ensures Configure(two, Configure(one, files)).ha == Configure(one, files).ha
  {
    var es := HaEditsAreSeparate(mode, g, one);
    forall e ensures e in HaEditsOf(two) <==> e in es {
      HaEditsAre(mode, g, one, e);
      HaEditsAre(mode, g, two, e);
    }
    HaInOne(one, files);
    HaInOne(two, files);
    HaInOne(two, Configure(one, files));
    EditsAgreeOnValues(es, HaEditsOf(one), HaEditsOf(two), files.ha, key);
    EditsAgree(es, HaEditsOf(one), HaEditsOf(two), files.ha);
  }

  // ---------------------------------------------------------------- other lines and other keys

  /** No line is touched that is no line of a managed key; nor is its place changed among those. */
  lemma OtherLinesAreUntouched(mode: HAMode, g: GroupConfig, o: Order, files: Files)
    requires Possible(mode, g, o)
    ensures Rest(CubridEditSet(mode), Configure(o, files).cubrid) == Rest(CubridEditSet(mode), files.cubrid)
    ensures Rest(HaEditSet(g), Configure(o, files).ha) == Rest(HaEditSet(g), files.ha)
  {
    CubridRestIsUntouched(mode, g, o, files);
    HaEditSetIsCompatible(g);
    HaInOne(o, files);
    forall e | e in HaEditsOf(o) ensures e in HaEditSet(g) {
      HaEditsAre(mode, g, o, e);
    }
    AllOffRest(HaEditSet(g), HaEditsOf(o), files.ha);
  }

  lemma CubridRestIsUntouched(mode: HAMode, g: GroupConfig, o: Order, files: Files)
    requires Possible(mode, g, o)
    ensures Rest(CubridEditSet(mode), Configure(o, files).cubrid) == Rest(CubridEditSet(mode), files.cubrid)
  {
    CubridEditSetIsCompatible(mode);
    CubridInTwo(mode, g, o, files);
    LimitIsIn(mode);
    forall e | e in AllCubridEdits(o.cubrid) ensures e in CubridEditSet(mode) {
      SecondRound(mode, g, o.cubrid, e);
    }
    ApplyOffRest(CubridEditSet(mode), LIMIT, files.cubrid);
    AllOffRest(CubridEditSet(mode), AllCubridEdits(o.cubrid), Apply(LIMIT, files.cubrid));
  }

  lemma UnmanagedIsNotArchives(mode: HAMode, key: string)
    requires forall e <- CubridEditSet(mode) :: KeyOf(e) != Some(key)
    ensures key != ARCHIVES
  {
    LimitIsIn(mode);
    assert KeyOf(LIMIT) == Some(ARCHIVES);
  }

  /** The values of a key of cubrid.conf that no command manages stay as they are exactly when no line
      that set_log_max_archives overwrites is an active line of that key. */
  lemma OtherKeysAreSpared(mode: HAMode, g: GroupConfig, o: Order, files: Files, key: string)
    requires Possible(mode, g, o) && KeyName(key) && forall e <- CubridEditSet(mode) :: KeyOf(e) != Some(key)
    ensures Values(Configure(o, files).cubrid, key) == Values(files.cubrid, key) <==>
              forall line <- files.cubrid :: Overwritten(line) ==> ActiveValue(line, key).None?
  {
    var first := Apply(LIMIT, files.cubrid);
    CubridInTwo(mode, g, o, files);
    CubridEditSetIsCompatible(mode);
    LimitIsIn(mode);
    UnmanagedIsNotArchives(mode, key);
    OtherKeyIsSpared(LIMIT.value, files.cubrid, key);
    forall e | e in AllCubridEdits(o.cubrid) ensures e in CubridEditSet(mode) {
      SecondRound(mode, g, o.cubrid, e);
    }
    FirstLeavesNoHarm(LIMIT, files.cubrid, key);
    HarmlessEditsSpare(CubridEditSet(mode), AllCubridEdits(o.cubrid), first, key);
  }

  /** The values of a key of cubrid_ha.conf that no command manages always stay as they are. */
  lemma OtherHaKeysAreSpared(mode: HAMode, g: GroupConfig, o: Order, files: Files, key: string)
    requires Possible(mode, g, o) && KeyName(key) && forall e <- HaEditSet(g) :: KeyOf(e) != Some(key)
    ensures Values(Configure(o, files).ha, key) == Values(files.ha, key)
  {
    HaEditSetIsCompatible(g);
    NoArchives(g);
    OtherLinesAreUntouched(mode, g, o, files);
    ValuesOfRest(HaEditSet(g), Configure(o, files).ha, key);
    ValuesOfRest(HaEditSet(g), files.ha, key);
  }

  // ---------------------------------------------------------------- effect

  /** After the commands of a pod ran in any order, on any file, every value that a command sets is the
      one that its key has. */
  lemma CommandTakesEffect(mode: HAMode, g: GroupConfig, o: Order, files: Files, c: Command, key: string, value: string)
    requires Possible(mode, g, o) && c in HaConfCommands(g) + CubridConfCommands(mode, g)
    ensures Set(key, value) in CubridEdits(c) ==> Binds(Configure(o, files).cubrid, key, value)
    ensures Set(key, value) in HaEdits(c) ==> Binds(Configure(o, files).ha, key, value)
  {
    var e := Set(key, value);
    if e in CubridEdits(c) {
      CommandEdits(mode, g, c, e);
      CubridInTwo(mode, g, o, files);
      CubridEditSetIsCompatible(mode);
      forall f ensures f in AllCubridEdits(o.cubrid) <==> f in CubridEditSet(mode) {
        SecondRound(mode, g, o.cubrid, f);
      }
      ConfigurationTakesEffect(CubridEditSet(mode), AllCubridEdits(o.cubrid), Apply(LIMIT, files.cubrid), key, value);
    }
    if e in HaEdits(c) {
      var es := HaEditsAreSeparate(mode, g, o);
      HaEditsAre(mode, g, o, e);
      HaInOne(o, files);
      ConfigurationTakesEffect(es, HaEditsOf(o), files.ha, key, value);
    }
  }

  /** cubrid.conf after the second round, in any order, has the values for log_max_archives that it had
      after the first, if it had any. */
  lemma LimitStays(mode: HAMode, g: GroupConfig, o: Order, files: Files)
    requires Possible(mode, g, o) && Values(Apply(LIMIT, files.cubrid), ARCHIVES) != []
    ensures Values(Configure(o, files).cubrid, ARCHIVES) == Values(Apply(LIMIT, files.cubrid), ARCHIVES)
  {
    CubridInTwo(mode, g, o, files);
    CubridEditSetIsCompatible(mode);
    LimitIsIn(mode);
    AppliedIsQuiet(LIMIT, files.cubrid);
    forall e | e in AllCubridEdits(o.cubrid) ensures e in CubridEditSet(mode) {
      SecondRound(mode, g, o.cubrid, e);
    }
    ValuesStay(CubridEditSet(mode), LIMIT, AllCubridEdits(o.cubrid), Apply(LIMIT, files.cubrid));
  }

  /** If the first round leaves none, the early order leaves none. */
  lemma LimitStaysOut(mode: HAMode, g: GroupConfig, files: Files)
    requires Values(Apply(LIMIT, files.cubrid), ARCHIVES) == []
    ensures Values(Configure(Order(HaOrder(g), Early(mode, g)), files).cubrid, ARCHIVES) == []
  {
    var first := Apply(LIMIT, files.cubrid);
    OrdersArePossible(mode, g);
    CubridInTwo(mode, g, Order(HaOrder(g), Early(mode, g)), files);
    EditsOfOrders(mode, g);
    LimitIsIn(mode);
    ApplySettles(LIMIT, files.cubrid);
    SettledIsFixed(LIMIT, first);
    ApplyAllConcat([LIMIT], Sets(mode), first);
    ApplyOnce(LIMIT, first);
    CubridEditSetIsCompatible(mode);
    AppliedIsQuiet(LIMIT, files.cubrid);
    forall e ensures e in Sets(mode) ==> e in CubridEditSet(mode) && e != LIMIT {
      SetsAreSets(mode, e);
    }
    ValuesStay(CubridEditSet(mode), LIMIT, Sets(mode), first);
  }

  /** After the commands of a pod, in every possible order, log_max_archives has its limit and no other
      value exactly when every active line of the key in the file heeds the edit, and the key is named
      by no line, or by one that is overwritten or active. */
  lemma LimitTakesEffect(mode: HAMode, g: GroupConfig, files: Files)
    ensures (forall o | Possible(mode, g, o) :: HasOnly(Configure(o, files).cubrid, "900"))
            <==> Heeding(files.cubrid, "900")
  {
    assert LIMIT.value == "900";
    LimitIsExact(mode, g, files);
  }

  lemma LimitIsExact(mode: HAMode, g: GroupConfig, files: Files)
    ensures (forall o | Possible(mode, g, o) :: HasOnly(Configure(o, files).cubrid, LIMIT.value))
            <==> Heeding(files.cubrid, LIMIT.value)
  {
    LimitIsIn(mode);
    ArchivesTakesEffect(LIMIT.value, files.cubrid);
    assert LIMIT == Archives(LIMIT.value);
    var early := Order(HaOrder(g), Early(mode, g));
    OrdersArePossible(mode, g);
    if Values(Apply(LIMIT, files.cubrid), ARCHIVES) == [] {
      LimitStaysOut(mode, g, files);
      assert !HasOnly(Configure(early, files).cubrid, LIMIT.value);
    } else {
      forall o | Possible(mode, g, o)
        ensures HasOnly(Configure(o, files).cubrid, LIMIT.value) <==> HasOnly(Apply(LIMIT, files.cubrid), LIMIT.value)
      {
        LimitStays(mode, g, o, files);
      }
      assert Possible(mode, g, early);
    }
  }
}
