/** The HA configuration of a group of pods (pkg/manager/ha_manager.go): the script commands built
    from the values of the group, and the edits that they make, in any order. */
module HaManager {
  import opened Wrappers
  import opened OperatorConf

  // ---------------------------------------------------------------- key and value reading

  /** The value that an active (not commented out) line gives to a key; a `#` ends it. */
  function ActiveValue(line: string, key: string): Option<string> {
    var v := AfterKey(StripSpace(line), key);
    if v.None? then None else Some(BeforeHash(StripSpace(v.value)))
  }

  /** All values a file gives to a key, in file order. */
  function Values(lines: seq<string>, key: string): seq<string> {
    if lines == [] then []
    else
      var v := ActiveValue(lines[0], key);
      if v.Some? then [v.value] + Values(lines[1..], key) else Values(lines[1..], key)
  }

  /** The key that an edit manages. */
  function KeyOf(e: Edit): Option<string> {
    match e
    case Set(key, _) => Some(key)
    case Uncomment(key, _, _) => Some(key)
    case Header => None
    case Archives(_) => Some(ARCHIVES)
  }

  /** A line that names log_max_archives before any comment is a line for that key. */
  predicate TidyLine(line: string) {
    Contains(BeforeHash(line), ARCHIVES) ==> Mentions(line, ARCHIVES)
  }

  ghost predicate HasArchives(es: set<Edit>) { exists e :: e in es && e.Archives? }

  /** The line that a Set edit writes does not name log_max_archives. */
  predicate OffArchives(e: Edit) { e.Set? && !Contains(BeforeHash(Appended(e)), ARCHIVES) }

  /** Edits of distinct keys; next to the Archives edit only Set edits whose own lines do not name
      log_max_archives. */
  ghost predicate Compatible(es: set<Edit>) {
    && (forall e <- es :: WellFormed(e))
    && (forall e, f | e in es && f in es && KeyOf(e) == KeyOf(f) :: e == f)
    && (HasArchives(es) ==>
          forall e <- es :: e.Archives? || OffArchives(e))
  }

  ghost predicate Tidy(es: set<Edit>, lines: seq<string>) {
    HasArchives(es) ==> forall line <- lines :: TidyLine(line)
  }

  lemma {:induction false} SpaceHasNoName(s: string)
    requires StripHash(s) != StripSpace(s)
    ensures !Contains(BeforeHash(s), ARCHIVES)
  {
    assert s != "";
    if s[0] == '#' {
      assert !(ARCHIVES <= "");
    } else {
      SpaceHasNoName(s[1..]);
      assert BeforeHash(s)[1..] == BeforeHash(s[1..]);
    }
  }

  lemma {:induction false} ContainsAfterSpace(s: string, part: string)
    requires Contains(BeforeHash(StripSpace(s)), part)
    ensures Contains(BeforeHash(s), part)
  {
    if s != "" && IsSpace(s[0]) {
      ContainsAfterSpace(s[1..], part);
      assert BeforeHash(s)[1..] == BeforeHash(s[1..]);
    }
  }

  lemma {:induction false} PrefixBeforeHash(key: string, s: string)
    requires key <= s && '#' !in key
    ensures key <= BeforeHash(s)
  {
    if key != "" {
      PrefixBeforeHash(key[1..], s[1..]);
      assert key == [key[0]] + key[1..];
    }
  }

  lemma {:induction false} ActiveIsMentioned(line: string, key: string)
    requires KeyName(key) && ActiveValue(line, key).Some?
    ensures Mentions(line, key) && StripHash(line) == StripSpace(line)
  {
    if line != "" && IsSpace(line[0]) {
      ActiveIsMentioned(line[1..], key);
    } else {
      assert line[0] == key[0];
    }
  }

  /** An active line for the key of an edit belongs to the edit. */
  lemma ActiveIsOwned(e: Edit, line: string, key: string)
    requires WellFormed(e) && KeyOf(e) == Some(key) && KeyName(key) && ActiveValue(line, key).Some?
    ensures Owns(e, line)
  {
    ActiveIsMentioned(line, key);
    if e.Archives? {
      assert '#' !in ARCHIVES;
      PrefixBeforeHash(ARCHIVES, StripSpace(line));
      ContainsAfterSpace(line, ARCHIVES);
    }
  }

  /** A line that an edit owns gives no value to any other key. */
  lemma OwnedBindsOnlyItsKey(e: Edit, line: string, key: string)
    requires WellFormed(e) && KeyName(key) && KeyOf(e) != Some(key) && Owns(e, line)
    requires e.Archives? ==> TidyLine(line)
    ensures ActiveValue(line, key).None?
  {
    if ActiveValue(line, key).Some? {
      ActiveIsMentioned(line, key);
      OwnedMentionsOnlyItsKey(e, line, key);
    }
  }

  lemma OwnedMentionsOnlyItsKey(e: Edit, line: string, key: string)
    requires WellFormed(e) && KeyName(key) && KeyOf(e) != Some(key) && Owns(e, line)
    requires e.Archives? ==> TidyLine(line)
    ensures !Mentions(line, key)
  {
    if e.Header? {
      HeaderMentionsNothing(line, key);
    } else if Mentions(line, key) {
      OwnedIsMentioned(e, line);
      OneKeyPerLine(line, key, KeyOf(e).value);
    }
  }

  lemma {:induction false} ValuesOfOwned(e: Edit, lines: seq<string>, key: string)
    requires WellFormed(e) && KeyOf(e) == Some(key) && KeyName(key)
    ensures Values(lines, key) == Values(Owned(e, lines), key)
  {
    if lines != [] {
      ValuesOfOwned(e, lines[1..], key);
      if ActiveValue(lines[0], key).Some? {
        ActiveIsOwned(e, lines[0], key);
      }
    }
  }

  lemma {:induction false} ValuesOfRest(es: set<Edit>, lines: seq<string>, key: string)
    requires KeyName(key) && Tidy(es, lines)
    requires forall e <- es :: WellFormed(e) && KeyOf(e) != Some(key)
    ensures Values(lines, key) == Values(Rest(es, lines), key)
  {
    if lines != [] {
      assert lines[0] in lines && forall line <- lines[1..] :: line in lines;
      ValuesOfRest(es, lines[1..], key);
      if HasOwner(es, lines[0]) {
        var e :| e in es && Owns(e, lines[0]);
        OwnedBindsOnlyItsKey(e, lines[0], key);
      }
    }
  }

  // ---------------------------------------------------------------- compatible edits are separate

  lemma OwnedIsMentioned(e: Edit, line: string)
    requires WellFormed(e) && Owns(e, line) && (e.Archives? ==> TidyLine(line))
    ensures if e.Header? then AfterHeader(line).Some?
            else KeyName(KeyOf(e).value) && Mentions(line, KeyOf(e).value)
  {}

  lemma OwnersShareKey(e: Edit, f: Edit, line: string)
    requires WellFormed(e) && Owns(e, line) && (e.Archives? ==> TidyLine(line))
    requires WellFormed(f) && Owns(f, line) && (f.Archives? ==> TidyLine(line))
    ensures KeyOf(e) == KeyOf(f)
  {
    OwnedIsMentioned(e, line);
    OwnedIsMentioned(f, line);
    if e.Header? && !f.Header? {
      HeaderMentionsNothing(line, KeyOf(f).value);
    } else if f.Header? && !e.Header? {
      HeaderMentionsNothing(line, KeyOf(e).value);
    } else if !e.Header? {
      OneKeyPerLine(line, KeyOf(e).value, KeyOf(f).value);
    }
  }

  lemma TidyHasOneOwner(es: set<Edit>, line: string)
    requires Compatible(es) && (HasArchives(es) ==> TidyLine(line))
    ensures OneOwner(es, line)
  {
    forall e, f | e in es && f in es && Owns(e, line) && Owns(f, line) ensures e == f {
      assert e.Archives? || f.Archives? ==> HasArchives(es);
      OwnersShareKey(e, f, line);
    }
  }

  lemma SedIsTidy(es: set<Edit>, e: Edit, line: string)
    requires Compatible(es) && e in es && (HasArchives(es) ==> TidyLine(line))
    ensures HasArchives(es) ==> TidyLine(Sed(e, line)) && TidyLine(Appended(e))
  {
    if e.Archives? {
      FromHashStarts(line);
      ArchivesLine(e.value, FromHash(line));
      ArchivesLine(e.value, "");
      assert ARCHIVES + "=" + e.value + "" == Appended(e);
    }
  }

  lemma AppendedHasOneOwner(es: set<Edit>, e: Edit)
    requires Compatible(es) && e in es
    ensures OneOwner(es, Appended(e))
  {
    SedIsTidy(es, e, "");
    TidyHasOneOwner(es, Appended(e));
  }

  /** What an edit rewrites belongs to it alone, whoever owned it before. */
  lemma ChangedHasOneOwner(es: set<Edit>, e: Edit, line: string)
    requires Compatible(es) && e in es && Sed(e, line) != line
    ensures OneOwner(es, Sed(e, line)) && Owns(e, Sed(e, line))
  {
    SedSettles(e, line);
    if e.Archives? {
      FromHashStarts(line);
      ArchivesLine(e.value, FromHash(line));
    }
    TidyHasOneOwner(es, Sed(e, line));
  }

  /** Compatible edits are separate on every file in which no line has two owners. */
  lemma CompatibleIsSeparate(es: set<Edit>, lines: seq<string>)
    requires Compatible(es) && forall line <- lines :: OneOwner(es, line)
    ensures Separate(es, lines)
  {
    forall e <- es ensures OneOwner(es, Appended(e)) {
      AppendedHasOneOwner(es, e);
    }
    forall e, line | e in es && Owns(e, line) && OneOwner(es, line) ensures OneOwner(es, Sed(e, line)) {
      if Sed(e, line) != line {
        ChangedHasOneOwner(es, e, line);
      }
    }
  }

  // ---------------------------------------------------------------- order independence

  /** Two files agree: the same lines for every edit, and the same other lines, each in order. */
  ghost predicate Agree(es: set<Edit>, a: seq<string>, b: seq<string>) {
    Rest(es, a) == Rest(es, b) && forall e <- es :: Owned(e, a) == Owned(e, b)
  }

  lemma AgreeOnValues(es: set<Edit>, a: seq<string>, b: seq<string>, key: string)
    requires Compatible(es) && Tidy(es, a) && Tidy(es, b) && Agree(es, a, b) && KeyName(key)
    ensures Values(a, key) == Values(b, key)
  {
    if e :| e in es && KeyOf(e) == Some(key) {
      ValuesOfOwned(e, a, key);
      ValuesOfOwned(e, b, key);
    } else {
      ValuesOfRest(es, a, key);
      ValuesOfRest(es, b, key);
    }
  }

  lemma {:induction false} ValuesConcat(a: seq<string>, b: seq<string>, key: string)
    ensures Values(a + b, key) == Values(a, key) + Values(b, key)
  {
    if a == [] {
      assert a + b == b;
    } else {
      assert (a + b)[1..] == a[1..] + b;
      ValuesConcat(a[1..], b, key);
    }
  }

  /** Files that agree and begin with the same lines agree in what follows. */
  lemma TailsAgree(es: set<Edit>, start: seq<string>, a: seq<string>, b: seq<string>)
    requires Agree(es, start + a, start + b)
    ensures Agree(es, a, b)
  {
    RestConcat(es, start, a);
    RestConcat(es, start, b);
    Cancel(Rest(es, start), Rest(es, a), Rest(es, b));
    forall e <- es ensures Owned(e, a) == Owned(e, b) {
      OwnedConcat(e, start, a);
      OwnedConcat(e, start, b);
      assert Owned(e, start + a) == Owned(e, start + b);
      Cancel(Owned(e, start), Owned(e, a), Owned(e, b));
    }
  }

  lemma Cancel(start: seq<string>, a: seq<string>, b: seq<string>)
    requires start + a == start + b
    ensures a == b
  {
    assert a == (start + a)[|start|..] && b == (start + b)[|start|..];
  }

  lemma TailIsTidy(es: set<Edit>, order: seq<Edit>, lines: seq<string>)
    requires Compatible(es) && Separate(es, lines) && forall f <- order :: f in es
    ensures |lines| <= |ApplyAll(order, lines)| && Tidy(es, ApplyAll(order, lines)[|lines|..])
  {
    var all := ApplyAll(order, lines);
    AllKeepLength(order, lines);
    forall line <- all[|lines|..] ensures HasArchives(es) ==> TidyLine(line) {
      var i :| 0 <= i < |all[|lines|..]| && all[|lines|..][i] == line;
      TailIsAppended(es, order, lines, |lines| + i);
      var f :| f in es && all[|lines| + i] == Appended(f);
      SedIsTidy(es, f, "");
    }
  }

  lemma {:induction false} AllKeepLength(order: seq<Edit>, lines: seq<string>)
    ensures |lines| <= |ApplyAll(order, lines)|
    decreases |order|
  {
    if order != [] {
      AllKeepLength(order[1..], Apply(order[0], lines));
    }
  }

  /** Compatible edits on a file in which no line has two owners: any two orders agree, and a further
      execution in any order changes nothing. */
  lemma EditsAgree(es: set<Edit>, one: seq<Edit>, two: seq<Edit>, lines: seq<string>)
    requires Compatible(es) && forall line <- lines :: OneOwner(es, line)
    requires (forall e :: e in one <==> e in es) && (forall e :: e in two <==> e in es)
    ensures var a, b := ApplyAll(one, lines), ApplyAll(two, lines);
            Agree(es, a, b) && ApplyAll(two, a) == a && Separate(es, a)
    ensures forall e <- es :: OperatorConf.Settled(e, ApplyAll(one, lines))
  {
    var a, b := ApplyAll(one, lines), ApplyAll(two, lines);
    CompatibleIsSeparate(es, lines);
    AllOffRest(es, one, lines);
    AllOffRest(es, two, lines);
    AllStaySeparate(es, one, lines);
    forall e <- es ensures Owned(e, a) == Owned(e, b) {
      AllOnOwned(es, one, lines, e);
      AllOnOwned(es, two, lines, e);
    }
    forall e <- es ensures OperatorConf.Settled(e, a) {
      AllSettles(es, one, lines, e);
    }
    SecondRunChangesNothing(es, two, a);
  }

  /** Any two orders leave the same lines in the places that the file had. */
  lemma PlacesAgree(es: set<Edit>, one: seq<Edit>, two: seq<Edit>, lines: seq<string>)
    requires Compatible(es) && forall line <- lines :: OneOwner(es, line)
    requires (forall e :: e in one <==> e in es) && (forall e :: e in two <==> e in es)
    ensures var a, b := ApplyAll(one, lines), ApplyAll(two, lines);
            |lines| <= |a| && |lines| <= |b| && a[..|lines|] == b[..|lines|]
  {
    CompatibleIsSeparate(es, lines);
    AllKeepLength(one, lines);
    AllKeepLength(two, lines);
    forall i | 0 <= i < |lines| ensures ApplyAll(one, lines)[i] == ApplyAll(two, lines)[i] {
      SameLinesInAnyOrder(es, one, two, lines, i);
    }
  }

  lemma AgreeOnValuesAfter(es: set<Edit>, start: seq<string>, a: seq<string>, b: seq<string>, key: string)
    requires Compatible(es) && Tidy(es, a) && Tidy(es, b) && Agree(es, start + a, start + b) && KeyName(key)
    ensures Values(start + a, key) == Values(start + b, key)
  {
    TailsAgree(es, start, a, b);
    AgreeOnValues(es, a, b, key);
    ValuesConcat(start, a, key);
    ValuesConcat(start, b, key);
  }

  lemma FilesInParts(es: set<Edit>, one: seq<Edit>, two: seq<Edit>, lines: seq<string>)
    returns (start: seq<string>, a: seq<string>, b: seq<string>)
    requires Compatible(es) && Separate(es, lines) && forall line <- lines :: OneOwner(es, line)
    requires (forall e :: e in one <==> e in es) && (forall e :: e in two <==> e in es)
    ensures ApplyAll(one, lines) == start + a && ApplyAll(two, lines) == start + b
    ensures Tidy(es, a) && Tidy(es, b)
  {
    var n := |lines|;
    PlacesAgree(es, one, two, lines);
    TailIsTidy(es, one, lines);
    TailIsTidy(es, two, lines);
    start, a, b := ApplyAll(one, lines)[..n], ApplyAll(one, lines)[n..], ApplyAll(two, lines)[n..];
  }

  /** Any two orders leave the same values of every key, managed by an edit or not. */
  lemma EditsAgreeOnValues(es: set<Edit>, one: seq<Edit>, two: seq<Edit>, lines: seq<string>, key: string)
    requires Compatible(es) && (forall line <- lines :: OneOwner(es, line)) && KeyName(key)
    requires (forall e :: e in one <==> e in es) && (forall e :: e in two <==> e in es)
    ensures Values(ApplyAll(one, lines), key) == Values(ApplyAll(two, lines), key)
  {
    EditsAgree(es, one, two, lines);
    CompatibleIsSeparate(es, lines);
    var start, a, b := FilesInParts(es, one, two, lines);
    AgreeOnValuesAfter(es, start, a, b, key);
  }

  // ---------------------------------------------------------------- commands

  datatype Command =
    | HaMode
    | HaReplicaMode
    | LogMaxArchives
    | ForceRemoveLogArchives
    | CommonConfig
    | NodeList(value: string)
    | CopySyncMode(value: string)
    | ReplicaList(value: string)

  /** What a command does to cubrid.conf. */
  function CubridEdits(c: Command): seq<Edit> {
    match c
    case HaMode => [Set("ha_mode", "on")]
    case HaReplicaMode => [Set("ha_mode", "replica")]
    case LogMaxArchives => [Archives("900")]
    case ForceRemoveLogArchives => [Set("force_remove_log_archives", "on")]
    case _ => []
  }

  /** What a command does to cubrid_ha.conf. */
  function HaEdits(c: Command): seq<Edit> {
    match c
    case CommonConfig =>
      [Header,
       Uncomment("ha_port_id", true, "59901"),
       Uncomment("ha_db_list", false, "demodb"),
       Uncomment("ha_apply_max_mem_size", true, "300"),
       Uncomment("ha_copy_log_max_archives", true, "1")]
    case NodeList(value) => [Set("ha_node_list", value)]
    case CopySyncMode(value) => [Set("ha_copy_sync_mode", value)]
    case ReplicaList(value) => [Set("ha_replica_list", value)]
    case _ => []
  }

  /** The two files of a pod. */
  datatype Files = Files(cubrid: seq<string>, ha: seq<string>)

  function Execute(order: seq<Command>, files: Files): Files {
    if order == [] then files
    else Execute(order[1..], Files(ApplyAll(CubridEdits(order[0]), files.cubrid), ApplyAll(HaEdits(order[0]), files.ha)))
  }

  function AllCubridEdits(order: seq<Command>): seq<Edit> {
    if order == [] then [] else CubridEdits(order[0]) + AllCubridEdits(order[1..])
  }

  function AllHaEdits(order: seq<Command>): seq<Edit> {
    if order == [] then [] else HaEdits(order[0]) + AllHaEdits(order[1..])
  }

  lemma {:induction false} ApplyAllConcat(a: seq<Edit>, b: seq<Edit>, lines: seq<string>)
    ensures ApplyAll(a + b, lines) == ApplyAll(b, ApplyAll(a, lines))
    decreases |a|
  {
    if a == [] {
      assert a + b == b;
    } else {
      assert (a + b)[1..] == a[1..] + b;
      ApplyAllConcat(a[1..], b, Apply(a[0], lines));
    }
  }

  lemma {:induction false} ExecuteIsApplyAll(order: seq<Command>, files: Files)
    ensures Execute(order, files)
            == Files(ApplyAll(AllCubridEdits(order), files.cubrid), ApplyAll(AllHaEdits(order), files.ha))
    decreases |order|
  {
    if order != [] {
      var c := order[0];
      ExecuteIsApplyAll(order[1..], Files(ApplyAll(CubridEdits(c), files.cubrid), ApplyAll(HaEdits(c), files.ha)));
      ApplyAllConcat(CubridEdits(c), AllCubridEdits(order[1..]), files.cubrid);
      ApplyAllConcat(HaEdits(c), AllHaEdits(order[1..]), files.ha);
    }
  }

  lemma {:induction false} EditsOfCommands(order: seq<Command>, e: Edit)
    ensures e in AllCubridEdits(order) <==> exists c :: c in order && e in CubridEdits(c)
    ensures e in AllHaEdits(order) <==> exists c :: c in order && e in HaEdits(c)
  {
    if order != [] {
      EditsOfCommands(order[1..], e);
      assert forall c :: c in order <==> c == order[0] || c in order[1..];
    }
  }

  // ---------------------------------------------------------------- the commands of a group

  /** The values shared by the group; HAMode is the pod's own. */
  datatype GroupConfig = GroupConfig(haNodeList: string, haCopySyncMode: string, haReplicaList: string)

  datatype HAMode = On | Replica

  function HaConfCommands(g: GroupConfig): set<Command> {
    {CommonConfig, LogMaxArchives}
    + (if g.haNodeList != "" then {NodeList(g.haNodeList), CopySyncMode(g.haCopySyncMode)} else {})
    + (if g.haReplicaList != "" then {ReplicaList(g.haReplicaList)} else {})
  }

  function CubridConfCommands(mode: HAMode, g: GroupConfig): set<Command> {
    match mode
    case On => {HaMode, CommonConfig, NodeList(g.haNodeList), ForceRemoveLogArchives,
                CopySyncMode(g.haCopySyncMode), LogMaxArchives}
    case Replica => {HaReplicaMode, CommonConfig, ReplicaList(g.haReplicaList), LogMaxArchives}
  }

  /** The edits that the commands of a pod make to cubrid.conf. */
  ghost function CubridEditSet(mode: HAMode): set<Edit> {
    match mode
    case On => {CubridEdits(HaMode)[0], CubridEdits(ForceRemoveLogArchives)[0], CubridEdits(LogMaxArchives)[0]}
    case Replica => {CubridEdits(HaReplicaMode)[0], CubridEdits(LogMaxArchives)[0]}
  }

  lemma {:induction false} ContainedChars(s: string, part: string, c: char)
    requires Contains(s, part) && c in part
    ensures c in s
  {
    if !(part <= s) {
      ContainedChars(s[1..], part, c);
    }
  }

  lemma NotArchives(line: string)
    requires '#' !in line && 'x' !in line
    ensures !Contains(BeforeHash(line), ARCHIVES)
  {
    CutAtHash(line, "");
    assert line + "" == line;
    if Contains(line, ARCHIVES) {
      ContainedChars(line, ARCHIVES, 'x');
    }
  }

  predicate Clean(s: string) { forall i | 0 <= i < |s| :: s[i] != '#' && s[i] != 'x' }

  lemma CleanIsNotArchives(e: Edit)
    requires e.Set? && KeyName(e.key) && Clean(e.key) && Clean(e.value)
    ensures WellFormed(e) && !Contains(BeforeHash(Appended(e)), ARCHIVES)
  {
    NotArchives(Appended(e));
  }

  lemma SetIsClean(key: string, value: string)
    requires KeyName(key) && Clean(key) && Clean(value) && |key| != |ARCHIVES|
    ensures var e := Set(key, value); WellFormed(e) && OffArchives(e) && KeyOf(e) != Some(ARCHIVES)
  {
    CleanIsNotArchives(Set(key, value));
  }

  /** One or two clean keys next to log_max_archives. */
  lemma TwoAreCompatible(key: string, value: string, n: string)
    requires KeyName(key) && Clean(key) && Clean(value) && |key| != |ARCHIVES| && Clean(n)
    ensures Compatible({Set(key, value), Archives(n)})
  {
    SetIsClean(key, value);
  }

  lemma ThreeAreCompatible(key: string, value: string, other: string, setting: string, n: string)
    requires KeyName(key) && Clean(key) && Clean(value) && |key| != |ARCHIVES| && Clean(n)
    requires KeyName(other) && Clean(other) && Clean(setting) && |other| != |ARCHIVES| && |key| != |other|
    ensures Compatible({Set(key, value), Set(other, setting), Archives(n)})
  {
    SetIsClean(key, value);
    SetIsClean(other, setting);
  }

  lemma CubridEditSetIsCompatible(mode: HAMode)
    ensures Compatible(CubridEditSet(mode))
  {
    match mode
    case On => ThreeAreCompatible("ha_mode", "on", "force_remove_log_archives", "on", "900");
    case Replica => TwoAreCompatible("ha_mode", "replica", "900");
  }

  ghost function Elements(order: seq<Edit>): set<Edit> { set e | e in order }

  /** All edits that the commands of a group can make to cubrid_ha.conf. */
  ghost function HaEditSet(g: GroupConfig): set<Edit> {
    Elements(HaEdits(CommonConfig)) + {HaEdits(NodeList(g.haNodeList))[0],
      HaEdits(CopySyncMode(g.haCopySyncMode))[0], HaEdits(ReplicaList(g.haReplicaList))[0]}
  }

  lemma HaKeysAreDistinct(port: string, db: string, mem: string, archives: string, nodes: string, sync: string,
                          replicas: string, d0: string, d1: string, d2: string, d3: string, g: GroupConfig, e: Edit, f: Edit)
    requires |port| == |db| == 10 && port[3] != db[3]
    requires |mem| == 21 && |archives| == 24 && |nodes| == 12 && |sync| == 17 && |replicas| == 15
    requires e in HaKeys(port, db, mem, archives, nodes, sync, replicas, d0, d1, d2, d3, g)
    requires f in HaKeys(port, db, mem, archives, nodes, sync, replicas, d0, d1, d2, d3, g)
    requires KeyOf(e) == KeyOf(f)
    ensures e == f
  {
    if KeyOf(e).Some? {
      assert |KeyOf(e).value| == |KeyOf(f).value|;
      assert |KeyOf(e).value| == 10 ==> KeyOf(e).value[3] == KeyOf(f).value[3];
    }
  }

  ghost function HaKeys(port: string, db: string, mem: string, archives: string, nodes: string, sync: string,
                        replicas: string, d0: string, d1: string, d2: string, d3: string, g: GroupConfig): set<Edit>
  {
    {Header, Uncomment(port, true, d0), Uncomment(db, false, d1), Uncomment(mem, true, d2), Uncomment(archives, true, d3),
     Set(nodes, g.haNodeList), Set(sync, g.haCopySyncMode), Set(replicas, g.haReplicaList)}
  }

  lemma HaKeysAreWellFormed(port: string, db: string, mem: string, archives: string, nodes: string, sync: string,
                            replicas: string, d0: string, d1: string, d2: string, d3: string, g: GroupConfig, e: Edit)
    requires KeyName(port) && KeyName(db) && KeyName(mem) && KeyName(archives)
    requires KeyName(nodes) && KeyName(sync) && KeyName(replicas)
    requires Usable(d0, true) && Usable(d1, false) && Usable(d2, true) && Usable(d3, true)
    requires e in HaKeys(port, db, mem, archives, nodes, sync, replicas, d0, d1, d2, d3, g)
    ensures WellFormed(e) && !e.Archives?
  {}

  lemma HaKeysAreCompatible(port: string, db: string, mem: string, archives: string, nodes: string, sync: string,
                            replicas: string, d0: string, d1: string, d2: string, d3: string, g: GroupConfig)
    requires KeyName(port) && KeyName(db) && KeyName(mem) && KeyName(archives)
    requires KeyName(nodes) && KeyName(sync) && KeyName(replicas)
    requires |port| == |db| == 10 && port[3] != db[3]
    requires |mem| == 21 && |archives| == 24 && |nodes| == 12 && |sync| == 17 && |replicas| == 15
    requires Usable(d0, true) && Usable(d1, false) && Usable(d2, true) && Usable(d3, true)
    ensures Compatible(HaKeys(port, db, mem, archives, nodes, sync, replicas, d0, d1, d2, d3, g))
  {
    var es := HaKeys(port, db, mem, archives, nodes, sync, replicas, d0, d1, d2, d3, g);
    forall e <- es ensures WellFormed(e) && !e.Archives? {
      HaKeysAreWellFormed(port, db, mem, archives, nodes, sync, replicas, d0, d1, d2, d3, g, e);
    }
    forall e, f | e in es && f in es && KeyOf(e) == KeyOf(f) ensures e == f {
      HaKeysAreDistinct(port, db, mem, archives, nodes, sync, replicas, d0, d1, d2, d3, g, e, f);
    }
  }

  lemma CommonKeyNames()
    ensures KeyName("ha_port_id") && KeyName("ha_db_list")
    ensures |"ha_port_id"| == |"ha_db_list"| == 10 && "ha_port_id"[3] != "ha_db_list"[3]
  {}

  lemma LimitKeyNames()
    ensures KeyName("ha_apply_max_mem_size") && |"ha_apply_max_mem_size"| == 21
    ensures KeyName("ha_copy_log_max_archives") && |"ha_copy_log_max_archives"| == 24
  {}

  lemma ListKeyNames()
    ensures KeyName("ha_node_list") && |"ha_node_list"| == 12
    ensures KeyName("ha_copy_sync_mode") && |"ha_copy_sync_mode"| == 17
    ensures KeyName("ha_replica_list") && |"ha_replica_list"| == 15
  {}

  lemma DefaultsAreUsable()
    ensures Usable("59901", true) && Usable("demodb", false) && Usable("300", true) && Usable("1", true)
  {}

  lemma HaEditSetIsCompatible(g: GroupConfig)
    ensures Compatible(HaEditSet(g))
  {
    CommonKeyNames();
    LimitKeyNames();
    ListKeyNames();
    DefaultsAreUsable();
    HaKeysAreCompatible("ha_port_id", "ha_db_list", "ha_apply_max_mem_size", "ha_copy_log_max_archives",
                        "ha_node_list", "ha_copy_sync_mode", "ha_replica_list", "59901", "demodb", "300", "1", g);
  }

  // ---------------------------------------------------------------- effect

  /** A Set edit that is settled gives its key its value and no other. */
  lemma {:induction false} SettledSetBinds(key: string, value: string, lines: seq<string>)
    requires KeyName(key) && (forall line <- lines :: Sed(Set(key, value), line) == line)
    ensures forall v <- Values(lines, key) :: v == BeforeHash(StripSpace(value))
    ensures (exists line <- lines :: Mentions(line, key)) ==> Values(lines, key) != []
  {
    if lines != [] {
      var line := lines[0];
      assert line in lines && forall l <- lines[1..] :: l in lines;
      SettledSetBinds(key, value, lines[1..]);
      if ActiveValue(line, key).Some? {
        ActiveIsMentioned(line, key);
      }
      if Mentions(line, key) {
        KeyLine(key, value);
        assert line == key + "=" + value && StripSpace(line) == line;
      }
      assert forall l :: l in lines <==> l == line || l in lines[1..];
    }
  }

  /** The file gives the key this value, and no other. */
  predicate Binds(lines: seq<string>, key: string, value: string) {
    Values(lines, key) != [] && forall v <- Values(lines, key) :: v == BeforeHash(StripSpace(value))
  }

  /** What a Set edit has written is left alone by every other edit, whatever else they rewrite. */
  lemma SetStaysOnLine(es: set<Edit>, e: Edit, f: Edit, line: string)
    requires Compatible(es) && e in es && f in es && e.Set? && e != f && Sed(e, line) == line
    ensures Sed(e, Sed(f, line)) == Sed(f, line)
    ensures Grep(e, line) ==> Grep(e, Sed(f, line))
  {
    if Grep(e, line) {
      WrittenIsLeft(es, e, f);
    } else if Sed(f, line) != line {
      ChangedIsNotOwned(es, e, f, line);
    }
  }

  lemma WrittenIsLeft(es: set<Edit>, e: Edit, f: Edit)
    requires Compatible(es) && e in es && f in es && e != f
    ensures Sed(f, Appended(e)) == Appended(e)
  {
    AppendedHasOneOwner(es, e);
    AppendedSettles(e);
    SedSettles(f, Appended(e));
  }

  lemma ChangedIsNotOwned(es: set<Edit>, e: Edit, f: Edit, line: string)
    requires Compatible(es) && e in es && f in es && e != f && Sed(f, line) != line
    ensures Sed(e, Sed(f, line)) == Sed(f, line)
  {
    ChangedHasOneOwner(es, f, line);
    SedSettles(e, Sed(f, line));
  }

  lemma SetStaysSettled(es: set<Edit>, e: Edit, f: Edit, lines: seq<string>)
    requires Compatible(es) && e in es && f in es && e.Set? && OperatorConf.Settled(e, lines)
    ensures OperatorConf.Settled(e, Apply(f, lines))
  {
    var after := Apply(f, lines);
    if e == f {
      SettledIsFixed(e, lines);
    } else {
      var l :| l in lines && Grep(e, l);
      var k :| 0 <= k < |lines| && lines[k] == l;
      if AnyMatch(f, lines) {
        SetStaysOnLine(es, e, f, l);
        assert after[k] in after && Grep(e, after[k]);
        forall line <- after ensures Sed(e, line) == line {
          var i :| 0 <= i < |after| && after[i] == line;
          assert lines[i] in lines;
          SetStaysOnLine(es, e, f, lines[i]);
        }
      } else {
        AppendedHasOneOwner(es, f);
        AppendedSettles(f);
        assert after[k] in after && Grep(e, after[k]);
        SedSettles(e, Appended(f));
      }
    }
  }

  lemma {:induction false} SetStaysThrough(es: set<Edit>, e: Edit, order: seq<Edit>, lines: seq<string>)
    requires Compatible(es) && e in es && e.Set? && (forall f <- order :: f in es)
    requires OperatorConf.Settled(e, lines) || e in order
    ensures OperatorConf.Settled(e, ApplyAll(order, lines))
    decreases |order|
  {
    if order != [] {
      var f := order[0];
      assert f in order && forall g <- order[1..] :: g in order;
      if OperatorConf.Settled(e, lines) {
        SetStaysSettled(es, e, f, lines);
      } else if e == f {
        ApplySettles(e, lines);
      } else {
        assert e in order[1..];
      }
      SetStaysThrough(es, e, order[1..], Apply(f, lines));
    }
  }

  /** After compatible edits ran in any order, on any file, each Set key among them has exactly its
      value. */
  lemma ConfigurationTakesEffect(es: set<Edit>, order: seq<Edit>, lines: seq<string>, key: string, value: string)
    requires Compatible(es) && (forall e <- order :: e in es) && Set(key, value) in order
    ensures Binds(ApplyAll(order, lines), key, value)
  {
    SetStaysThrough(es, Set(key, value), order, lines);
    SettledSetBinds(key, value, ApplyAll(order, lines));
  }
}
