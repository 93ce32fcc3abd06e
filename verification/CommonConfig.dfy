/** What ha_common_config does to cubrid_ha.conf, and the configuration that a pod ends up with. */
module CommonConfig {
  import opened Wrappers
  import opened OperatorConf
  import opened HaManager
  import opened LogArchives
  import opened HaConfiguration

  // ---------------------------------------------------------------- uncommenting a key

  /** The line, commented out or not, gives the key a usable value. */
  predicate GivesUsable(line: string, key: string, numeric: bool) {
    var rest := AfterKey(StripHash(line), key);
    rest.Some? && Usable(rest.value, numeric)
  }

  /** The value that the line gives: its own when it is active, and that behind the comment when the line
      is commented out and the value is usable. */
  function Given(line: string, key: string, numeric: bool): Option<string> {
    if ActiveValue(line, key).Some? then ActiveValue(line, key)
    else if GivesUsable(line, key, numeric) then Some(BeforeHash(StripSpace(AfterKey(StripHash(line), key).value)))
    else None
  }

  function GivenAll(lines: seq<string>, key: string, numeric: bool): seq<string> {
    if lines == [] then []
    else
      var v := Given(lines[0], key, numeric);
      if v.Some? then [v.value] + GivenAll(lines[1..], key, numeric) else GivenAll(lines[1..], key, numeric)
  }

  lemma UncommentLine(key: string, numeric: bool, default: string, line: string)
    requires KeyName(key)
    ensures ActiveValue(Sed(Uncomment(key, numeric, default), line), key) == Given(line, key, numeric)
  {
    var e, t := Uncomment(key, numeric, default), StripHash(line);
    if Grep(e, line) {
      StripHashStops(line);
      assert StripSpace(t) == t;
    }
    if ActiveValue(line, key).Some? {
      ActiveIsMentioned(line, key);
    }
  }

  lemma {:induction false} UncommentAll(key: string, numeric: bool, default: string, lines: seq<string>)
    requires KeyName(key)
    ensures Values(SedAll(Uncomment(key, numeric, default), lines), key) == GivenAll(lines, key, numeric)
  {
    var e := Uncomment(key, numeric, default);
    if lines != [] {
      UncommentLine(key, numeric, default, lines[0]);
      UncommentAll(key, numeric, default, lines[1..]);
      assert SedAll(e, lines)[1..] == SedAll(e, lines[1..]);
    }
  }

  /** The values of the key after the edit: those that the lines gave, in order, and the default exactly
      when no line, commented out or not, gave a usable one. */
  ghost predicate Uncommented(before: seq<string>, after: seq<string>, key: string, numeric: bool, default: string) {
    Values(after, key)
    == GivenAll(before, key, numeric) + (if exists line <- before :: GivesUsable(line, key, numeric) then [] else [default])
  }

  lemma UncommentEffect(key: string, numeric: bool, default: string, lines: seq<string>)
    requires KeyName(key) && BeforeHash(StripSpace(default)) == default
    ensures Uncommented(lines, Apply(Uncomment(key, numeric, default), lines), key, numeric, default)
  {
    var e := Uncomment(key, numeric, default);
    UncommentAll(key, numeric, default, lines);
    if !AnyMatch(e, lines) {
      UnmatchedIsUnchanged(e, lines, key);
      KeyLine(key, default);
      var last := Appended(e);
      assert StripSpace(last) == last by { assert last[0] == key[0]; }
      assert ActiveValue(last, key) == Some(default);
      ValuesConcat(lines, [last], key);
      assert [last][1..] == [];
    }
  }

  lemma UnmatchedIsUnchanged(e: Edit, lines: seq<string>, key: string)
    requires e.Uncomment? && !AnyMatch(e, lines)
    ensures SedAll(e, lines) == lines
  {
    assert forall i | 0 <= i < |lines| :: lines[i] in lines;
  }

  /** Among other compatible edits, in any order, the values of an edit's key are as after the edit
      alone. */
  lemma KeyAsAlone(es: set<Edit>, order: seq<Edit>, lines: seq<string>, e: Edit, key: string)
    requires Compatible(es) && (forall line <- lines :: OneOwner(es, line)) && (forall f <- order :: f in es)
    requires e in order && KeyOf(e) == Some(key) && KeyName(key)
    ensures Values(ApplyAll(order, lines), key) == Values(Apply(e, lines), key)
  {
    CompatibleIsSeparate(es, lines);
    AllOnOwned(es, order, lines, e);
    ApplyOnOwned(e, lines);
    ValuesOfOwned(e, ApplyAll(order, lines), key);
    ValuesOfOwned(e, Apply(e, lines), key);
  }

  lemma HaKeyAsAlone(mode: HAMode, g: GroupConfig, o: Order, files: Files, e: Edit, key: string)
    requires Possible(mode, g, o) && e in HaEdits(CommonConfig) && KeyOf(e) == Some(key) && KeyName(key)
    ensures Values(Configure(o, files).ha, key) == Values(Apply(e, files.ha), key)
  {
    var es := HaEditsAreSeparate(mode, g, o);
    HaEditsAre(mode, g, o, e);
    assert CommonConfig in HaConfCommands(g);
    HaInOne(o, files);
    KeyAsAlone(es, HaEditsOf(o), files.ha, e, key);
  }

  lemma UncommentedAfter(mode: HAMode, g: GroupConfig, o: Order, files: Files, key: string, numeric: bool, default: string)
    requires Possible(mode, g, o) && Uncomment(key, numeric, default) in HaEdits(CommonConfig)
    requires KeyName(key) && BeforeHash(StripSpace(default)) == default
    ensures Uncommented(files.ha, Configure(o, files).ha, key, numeric, default)
  {
    HaKeyAsAlone(mode, g, o, files, Uncomment(key, numeric, default), key);
    UncommentEffect(key, numeric, default, files.ha);
  }

  lemma PlainIsItself(s: string)
    requires s != "" && !IsSpace(s[0]) && '#' !in s
    ensures BeforeHash(StripSpace(s)) == s
  {
    CutAtHash(s, "");
    assert s + "" == s;
  }

  /** After the commands of a pod, in every order: each of the four common keys has the values that the
      file gave it, in order, a usable value behind a comment included, and its default exactly when
      the file gave no usable one. */
  lemma CommonKeysTakeEffect(mode: HAMode, g: GroupConfig, o: Order, files: Files)
    requires Possible(mode, g, o)
    ensures var after := Configure(o, files).ha;
            && Uncommented(files.ha, after, "ha_port_id", true, "59901")
            && Uncommented(files.ha, after, "ha_db_list", false, "demodb")
            && Uncommented(files.ha, after, "ha_apply_max_mem_size", true, "300")
            && Uncommented(files.ha, after, "ha_copy_log_max_archives", true, "1")
  {
    PortTakesEffect(mode, g, o, files);
    DbListTakesEffect(mode, g, o, files);
    MemSizeTakesEffect(mode, g, o, files);
    CopyLimitTakesEffect(mode, g, o, files);
  }

  lemma PortTakesEffect(mode: HAMode, g: GroupConfig, o: Order, files: Files)
    requires Possible(mode, g, o)
    ensures Uncommented(files.ha, Configure(o, files).ha, "ha_port_id", true, "59901")
  {
    CommonKeyNames();
    PlainIsItself("59901");
    assert HaEdits(CommonConfig)[1] == Uncomment("ha_port_id", true, "59901");
    UncommentedAfter(mode, g, o, files, "ha_port_id", true, "59901");
  }

  lemma DbListTakesEffect(mode: HAMode, g: GroupConfig, o: Order, files: Files)
    requires Possible(mode, g, o)
    ensures Uncommented(files.ha, Configure(o, files).ha, "ha_db_list", false, "demodb")
  {
    CommonKeyNames();
    PlainIsItself("demodb");
    assert HaEdits(CommonConfig)[2] == Uncomment("ha_db_list", false, "demodb");
    UncommentedAfter(mode, g, o, files, "ha_db_list", false, "demodb");
  }

  lemma MemSizeTakesEffect(mode: HAMode, g: GroupConfig, o: Order, files: Files)
    requires Possible(mode, g, o)
    ensures Uncommented(files.ha, Configure(o, files).ha, "ha_apply_max_mem_size", true, "300")
  {
    LimitKeyNames();
    PlainIsItself("300");
    assert HaEdits(CommonConfig)[3] == Uncomment("ha_apply_max_mem_size", true, "300");
    UncommentedAfter(mode, g, o, files, "ha_apply_max_mem_size", true, "300");
  }

  lemma CopyLimitTakesEffect(mode: HAMode, g: GroupConfig, o: Order, files: Files)
    requires Possible(mode, g, o)
    ensures Uncommented(files.ha, Configure(o, files).ha, "ha_copy_log_max_archives", true, "1")
  {
    LimitKeyNames();
    PlainIsItself("1");
    assert HaEdits(CommonConfig)[4] == Uncomment("ha_copy_log_max_archives", true, "1");
    UncommentedAfter(mode, g, o, files, "ha_copy_log_max_archives", true, "1");
  }

  // ---------------------------------------------------------------- the header

  /** Each header line, commented out or not, became the plain header with its own rest; without one there
      is a new one. */
  ghost predicate HeadersActive(before: seq<string>, after: seq<string>) {
    var was, now := Owned(Header, before), Owned(Header, after);
    if was == [] then now == ["[common]"]
    else
      && |now| == |was|
      && forall i | 0 <= i < |was| :: AfterHeader(was[i]).Some? && now[i] == "[common]" + AfterHeader(was[i]).value
  }

  lemma HeaderEffect(lines: seq<string>)
    ensures HeadersActive(lines, Apply(Header, lines))
  {
    var was := Owned(Header, lines);
    ApplyOnOwned(Header, lines);
    forall i | 0 <= i < |was| ensures was[i] in was && AfterHeader(was[i]).Some? {}
    if was != [] {
      assert was[0] in was;
    }
  }

  /** After the commands of a pod, in every order, the header lines of the file are active, and one was
      added exactly when there was none. */
  lemma HeaderTakesEffect(mode: HAMode, g: GroupConfig, o: Order, files: Files)
    requires Possible(mode, g, o)
    ensures HeadersActive(files.ha, Configure(o, files).ha)
  {
    var es := HaEditsAreSeparate(mode, g, o);
    assert HaEdits(CommonConfig)[0] == Header;
    assert CommonConfig in HaConfCommands(g);
    HaEditsAre(mode, g, o, Header);
    HaInOne(o, files);
    CompatibleIsSeparate(es, files.ha);
    AllOnOwned(es, HaEditsOf(o), files.ha, Header);
    ApplyOnOwned(Header, files.ha);
    HeaderEffect(files.ha);
  }

  // ---------------------------------------------------------------- the configuration of a pod

  lemma SetTakesEffect(mode: HAMode, g: GroupConfig, o: Order, files: Files, c: Command, key: string, value: string)
    requires Possible(mode, g, o) && c in HaConfCommands(g) + CubridConfCommands(mode, g)
    ensures CubridEdits(c) == [Set(key, value)] ==> Binds(Configure(o, files).cubrid, key, value)
    ensures HaEdits(c) == [Set(key, value)] ==> Binds(Configure(o, files).ha, key, value)
  {
    CommandTakesEffect(mode, g, o, files, c, key, value);
    assert Set(key, value) in [Set(key, value)];
  }

  /** A pod of the master-slave group runs in HA mode on the node list of the group. */
  lemma MasterIsConfigured(g: GroupConfig, o: Order, files: Files)
    requires Possible(On, g, o)
    ensures var after := Configure(o, files);
            && Binds(after.cubrid, "ha_mode", "on") && Binds(after.cubrid, "force_remove_log_archives", "on")
            && Binds(after.ha, "ha_node_list", g.haNodeList) && Binds(after.ha, "ha_copy_sync_mode", g.haCopySyncMode)
            && (g.haReplicaList != "" ==> Binds(after.ha, "ha_replica_list", g.haReplicaList))
  {
    SetTakesEffect(On, g, o, files, HaMode, "ha_mode", "on");
    SetTakesEffect(On, g, o, files, ForceRemoveLogArchives, "force_remove_log_archives", "on");
    SetTakesEffect(On, g, o, files, NodeList(g.haNodeList), "ha_node_list", g.haNodeList);
    SetTakesEffect(On, g, o, files, CopySyncMode(g.haCopySyncMode), "ha_copy_sync_mode", g.haCopySyncMode);
    if g.haReplicaList != "" {
      SetTakesEffect(On, g, o, files, ReplicaList(g.haReplicaList), "ha_replica_list", g.haReplicaList);
    }
  }

  /** A pod of a replica group runs in replica mode on the replica list, and knows the node list of the
      group if there is one. */
  lemma ReplicaIsConfigured(g: GroupConfig, o: Order, files: Files)
    requires Possible(Replica, g, o)
    ensures var after := Configure(o, files);
            && Binds(after.cubrid, "ha_mode", "replica")
            && Binds(after.ha, "ha_replica_list", g.haReplicaList)
            && (g.haNodeList != "" ==>
                  && Binds(after.ha, "ha_node_list", g.haNodeList)
                  && Binds(after.ha, "ha_copy_sync_mode", g.haCopySyncMode))
  {
    SetTakesEffect(Replica, g, o, files, HaReplicaMode, "ha_mode", "replica");
    SetTakesEffect(Replica, g, o, files, ReplicaList(g.haReplicaList), "ha_replica_list", g.haReplicaList);
    if g.haNodeList != "" {
      SetTakesEffect(Replica, g, o, files, NodeList(g.haNodeList), "ha_node_list", g.haNodeList);
      SetTakesEffect(Replica, g, o, files, CopySyncMode(g.haCopySyncMode), "ha_copy_sync_mode", g.haCopySyncMode);
    }
  }
}
