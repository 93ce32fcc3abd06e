/** set_log_max_archives (config/scripts/operator_conf.sh), whose pattern is looser than those of the
    other functions: it also hits keys that end in the same words and values that name the key, and
    it misses a blank before `=`. */
module LogArchives {
  import opened Wrappers
  import opened OperatorConf
  import opened HaManager

  /** The line names log_max_archives before any comment. */
  predicate NamesArchives(line: string) { Contains(BeforeHash(line), ARCHIVES) }

  /** The line is one that set_log_max_archives overwrites. */
  predicate Overwritten(line: string) { Contains(BeforeHash(line), ARCHIVES + "=") }

  predicate PlainValue(value: string) { '#' !in value && (value == "" || !IsSpace(value[0])) }

  lemma OverwrittenIsNamed(line: string)
    requires Overwritten(line)
    ensures NamesArchives(line)
  {
    ContainsPrefix(BeforeHash(line), ARCHIVES, "=");
  }

  lemma ArchivesIsKeyName()
    ensures KeyName(ARCHIVES)
  {}

  lemma MentionBindsNoOther(line: string, key: string)
    requires Mentions(line, ARCHIVES) && KeyName(key) && key != ARCHIVES
    ensures !Mentions(line, key) && ActiveValue(line, key).None?
  {
    ArchivesIsKeyName();
    if Mentions(line, key) {
      OneKeyPerLine(line, ARCHIVES, key);
    }
    if ActiveValue(line, key).Some? {
      ActiveIsMentioned(line, key);
    }
  }

  lemma OverwrittenBindsArchives(value: string, line: string)
    requires '#' !in value && Overwritten(line)
    ensures var after := Sed(Archives(value), line);
            Mentions(after, ARCHIVES) && Overwritten(after) && NamesArchives(after)
  {
    FromHashStarts(line);
    ArchivesLine(value, FromHash(line));
  }

  // ---------------------------------------------------------------- other keys

  lemma {:induction false} SedSparesOtherKey(value: string, lines: seq<string>, key: string)
    requires '#' !in value && KeyName(key) && key != ARCHIVES
    ensures |Values(SedAll(Archives(value), lines), key)| <= |Values(lines, key)|
    ensures Values(SedAll(Archives(value), lines), key) == Values(lines, key) <==>
              forall line <- lines :: Overwritten(line) ==> ActiveValue(line, key).None?
  {
    if lines != [] {
      var line, e := lines[0], Archives(value);
      SedSparesOtherKey(value, lines[1..], key);
      assert SedAll(e, lines)[1..] == SedAll(e, lines[1..]);
      if Overwritten(line) {
        OverwrittenBindsArchives(value, line);
        MentionBindsNoOther(Sed(e, line), key);
      }
      assert forall l :: l in lines <==> l == line || l in lines[1..];
      if Overwritten(line) && ActiveValue(line, key).Some? {
        assert |Values(SedAll(e, lines), key)| < |Values(lines, key)|;
      } else {
        var v, rest, rest' := ActiveValue(line, key), Values(lines[1..], key), Values(SedAll(e, lines[1..]), key);
        assert v.Some? ==> ([v.value] + rest == [v.value] + rest' <==> rest == rest') by {
          assert v.Some? ==> ([v.value] + rest)[1..] == rest && ([v.value] + rest')[1..] == rest';
        }
      }
    }
  }

  /** set_log_max_archives spares the values of another key exactly when no line that it overwrites is
      an active line of that key. */
  lemma OtherKeyIsSpared(value: string, lines: seq<string>, key: string)
    requires '#' !in value && KeyName(key) && key != ARCHIVES
    ensures Values(Apply(Archives(value), lines), key) == Values(lines, key) <==>
              forall line <- lines :: Overwritten(line) ==> ActiveValue(line, key).None?
  {
    var e := Archives(value);
    if AnyMatch(e, lines) {
      SedSparesOtherKey(value, lines, key);
    } else {
      forall line <- lines ensures !Overwritten(line) {
        if Overwritten(line) {
          OverwrittenIsNamed(line);
        }
      }
      AppendedBindsOnlyItsKey(e, key);
      ValuesConcat(lines, [Appended(e)], key);
      assert [Appended(e)][1..] == [];
    }
  }

  lemma AppendedBindsOnlyItsKey(e: Edit, key: string)
    requires WellFormed(e) && KeyName(key) && KeyOf(e) != Some(key)
    ensures ActiveValue(Appended(e), key).None?
  {
    AppendedSettles(e);
    if e.Archives? {
      ArchivesLine(e.value, "");
      assert ARCHIVES + "=" + e.value + "" == Appended(e);
    }
    OwnedBindsOnlyItsKey(e, Appended(e), key);
  }

  /** No line is left that the edit overwrites and that gives the other key a value. */
  ghost predicate Harmless(lines: seq<string>, key: string) {
    forall line <- lines :: Overwritten(line) ==> ActiveValue(line, key).None?
  }

  lemma FirstLeavesNoHarm(e: Edit, lines: seq<string>, key: string)
    requires e.Archives? && WellFormed(e) && KeyName(key) && key != ARCHIVES
    ensures Harmless(Apply(e, lines), key)
  {
    var after := Apply(e, lines);
    forall line | line in after && Overwritten(line) ensures ActiveValue(line, key).None? {
      if AnyMatch(e, lines) {
        var i :| 0 <= i < |lines| && after[i] == line;
        if Overwritten(lines[i]) {
          OverwrittenBindsArchives(e.value, lines[i]);
          MentionBindsNoOther(line, key);
        }
      } else if line in lines {
        OverwrittenIsNamed(line);
      } else {
        AppendedBindsOnlyItsKey(e, key);
      }
    }
  }

  /** A Set edit of another key. */
  lemma SetSparesOtherLine(e: Edit, line: string, key: string)
    requires e.Set? && WellFormed(e) && KeyName(key) && e.key != key && OffArchives(e)
    ensures ActiveValue(Sed(e, line), key) == ActiveValue(line, key)
    ensures Overwritten(Sed(e, line)) && ActiveValue(Sed(e, line), key).Some? ==> Overwritten(line)
  {
    if Grep(e, line) {
      OwnedBindsOnlyItsKey(e, line, key);
      AppendedBindsOnlyItsKey(e, key);
    }
  }

  lemma {:induction false} SetSparesOtherKey(e: Edit, lines: seq<string>, key: string)
    requires e.Set? && WellFormed(e) && KeyName(key) && e.key != key && OffArchives(e)
    ensures Values(SedAll(e, lines), key) == Values(lines, key)
  {
    if lines != [] {
      SetSparesOtherLine(e, lines[0], key);
      SetSparesOtherKey(e, lines[1..], key);
      assert SedAll(e, lines)[1..] == SedAll(e, lines[1..]);
    }
  }

  lemma SetKeepsHarmless(e: Edit, lines: seq<string>, key: string)
    requires e.Set? && WellFormed(e) && KeyName(key) && e.key != key && OffArchives(e) && Harmless(lines, key)
    ensures Harmless(Apply(e, lines), key) && Values(Apply(e, lines), key) == Values(lines, key)
  {
    SetSparesValues(e, lines, key);
    if AnyMatch(e, lines) {
      forall line | line in SedAll(e, lines) && Overwritten(line) ensures ActiveValue(line, key).None? {
        var i :| 0 <= i < |lines| && SedAll(e, lines)[i] == line;
        assert lines[i] in lines;
        SetSparesOtherLine(e, lines[i], key);
      }
    } else {
      AppendedBindsOnlyItsKey(e, key);
    }
  }

  lemma SetSparesValues(e: Edit, lines: seq<string>, key: string)
    requires e.Set? && WellFormed(e) && KeyName(key) && e.key != key && OffArchives(e)
    ensures Values(Apply(e, lines), key) == Values(lines, key)
  {
    if AnyMatch(e, lines) {
      SetSparesOtherKey(e, lines, key);
    } else {
      AppendedBindsOnlyItsKey(e, key);
      ValuesConcat(lines, [Appended(e)], key);
      assert [Appended(e)][1..] == [];
    }
  }

  lemma {:induction false} HarmlessEditsSpare(es: set<Edit>, order: seq<Edit>, lines: seq<string>, key: string)
    requires Compatible(es) && HasArchives(es) && (forall f <- order :: f in es) && KeyName(key) && key != ARCHIVES
    requires (forall e <- es :: KeyOf(e) != Some(key)) && Harmless(lines, key)
    ensures Values(ApplyAll(order, lines), key) == Values(lines, key)
    decreases |order|
  {
    if order != [] {
      var f := order[0];
      assert f in order && forall g <- order[1..] :: g in order;
      if f.Archives? {
        OtherKeyIsSpared(f.value, lines, key);
        FirstLeavesNoHarm(f, lines, key);
      } else {
        assert OffArchives(f) && KeyOf(f) == Some(f.key);
        SetKeepsHarmless(f, lines, key);
      }
      HarmlessEditsSpare(es, order[1..], Apply(f, lines), key);
    }
  }

  /** For instance it overwrites the line of ha_copy_log_max_archives, and of every other key that ends
      in the same words. */
  lemma LongerKeyIsOverwritten(prefix: string, setting: string, value: string)
    requires prefix != "" && '#' !in prefix && KeyName(prefix + ARCHIVES) && '#' !in setting && '#' !in value
    ensures var key := prefix + ARCHIVES;
            var line := key + "=" + setting;
            Values([line], key) != [] && Values(Apply(Archives(value), [line]), key) == []
  {
    var key := prefix + ARCHIVES;
    var line := key + "=" + setting;
    KeyLine(key, setting);
    assert StripSpace(line) == line by { assert line[0] == key[0] && KeyChar(key[0]); }
    assert line == prefix + ((ARCHIVES + "=") + setting);
    FindsAfter(prefix, ARCHIVES + "=", setting);
    assert '#' !in line by { assert '#' !in ARCHIVES; }
    CutAtHash(line, "");
    assert line + "" == line;
    assert |key| > |ARCHIVES|;
    assert line in [line];
    OverwrittenIsNamed(line);
    OverwrittenBindsArchives(value, line);
    MentionBindsNoOther(Sed(Archives(value), line), key);
    assert Apply(Archives(value), [line]) == [Sed(Archives(value), line)];
  }

  lemma {:induction false} FindsAfter(before: string, part: string, rest: string)
    ensures Contains(before + (part + rest), part)
  {
    var s := before + (part + rest);
    if before == "" {
      assert s == part + rest;
    } else {
      assert s[1..] == before[1..] + (part + rest);
      FindsAfter(before[1..], part, rest);
    }
  }

  // ---------------------------------------------------------------- the key itself

  lemma {:induction false} ValuesMember(lines: seq<string>, key: string, v: string)
    ensures v in Values(lines, key) <==> exists line :: line in lines && ActiveValue(line, key) == Some(v)
  {
    if lines != [] {
      ValuesMember(lines[1..], key, v);
      assert forall line :: line in lines <==> line == lines[0] || line in lines[1..];
    }
  }

  lemma {:induction false} NoActiveNoValues(lines: seq<string>, key: string)
    ensures Values(lines, key) == [] <==> forall line <- lines :: ActiveValue(line, key).None?
  {
    if lines != [] {
      NoActiveNoValues(lines[1..], key);
      assert forall line :: line in lines <==> line == lines[0] || line in lines[1..];
    }
  }

  lemma ArchivesLineValue(value: string, tail: string)
    requires PlainValue(value) && (tail == "" || tail[0] == '#')
    ensures ActiveValue(ARCHIVES + "=" + value + tail, ARCHIVES) == Some(value)
  {
    var line := ARCHIVES + "=" + value + tail;
    assert line == ARCHIVES + "=" + (value + tail);
    KeyLine(ARCHIVES, value + tail);
    assert StripSpace(line) == line;
    assert StripSpace(value + tail) == value + tail;
    CutAtHash(value, tail);
  }

  lemma ActiveIsNamed(line: string)
    requires ActiveValue(line, ARCHIVES).Some?
    ensures NamesArchives(line)
  {
    assert KeyName(ARCHIVES);
    ActiveIsOwned(Archives(""), line, ARCHIVES);
  }

  /** The value that a line gives to log_max_archives after the edit. */
  lemma ArchivesSedValue(value: string, line: string)
    requires PlainValue(value)
    ensures ActiveValue(Sed(Archives(value), line), ARCHIVES)
            == if Overwritten(line) then Some(value) else ActiveValue(line, ARCHIVES)
  {
    FromHashStarts(line);
    ArchivesLineValue(value, FromHash(line));
  }

  /** The line is no active line of the key, or has its `=` right after the name, or already gives
      the value. */
  predicate Heeds(line: string, value: string) {
    || ActiveValue(line, ARCHIVES).None?
    || Overwritten(line)
    || ActiveValue(line, ARCHIVES) == Some(value)
  }

  ghost predicate OnlyValue(lines: seq<string>, value: string) {
    forall v <- Values(lines, ARCHIVES) :: v == value
  }

  lemma OnlyValueByLine(lines: seq<string>, value: string)
    ensures OnlyValue(lines, value) <==>
            forall line <- lines :: ActiveValue(line, ARCHIVES).Some? ==> ActiveValue(line, ARCHIVES) == Some(value)
  {
    if OnlyValue(lines, value) {
      forall line <- lines
        ensures ActiveValue(line, ARCHIVES).Some? ==> ActiveValue(line, ARCHIVES) == Some(value)
      {
        if ActiveValue(line, ARCHIVES).Some? {
          ValuesMember(lines, ARCHIVES, ActiveValue(line, ARCHIVES).value);
        }
      }
    } else {
      var v :| v in Values(lines, ARCHIVES) && v != value;
      ValuesMember(lines, ARCHIVES, v);
    }
  }

  lemma ArchivesSedEffect(value: string, lines: seq<string>)
    requires PlainValue(value)
    ensures OnlyValue(SedAll(Archives(value), lines), value) <==> forall line <- lines :: Heeds(line, value)
    ensures Values(SedAll(Archives(value), lines), ARCHIVES) != [] <==>
            exists line <- lines :: Overwritten(line) || ActiveValue(line, ARCHIVES).Some?
  {
    var after := SedAll(Archives(value), lines);
    OnlyValueByLine(after, value);
    NoActiveNoValues(after, ARCHIVES);
    forall i | 0 <= i < |lines|
      ensures after[i] in after && lines[i] in lines
      ensures ActiveValue(after[i], ARCHIVES) == if Overwritten(lines[i]) then Some(value) else ActiveValue(lines[i], ARCHIVES)
    {
      ArchivesSedValue(value, lines[i]);
    }
    assert (forall line <- after :: ActiveValue(line, ARCHIVES).Some? ==> ActiveValue(line, ARCHIVES) == Some(value))
      <==> forall i | 0 <= i < |lines| :: Heeds(lines[i], value);
    assert (forall line <- lines :: Heeds(line, value)) <==> forall i | 0 <= i < |lines| :: Heeds(lines[i], value);
  }

  lemma ArchivesUnmatched(value: string, lines: seq<string>)
    requires PlainValue(value) && !AnyMatch(Archives(value), lines)
    ensures Values(Apply(Archives(value), lines), ARCHIVES) == [value]
    ensures forall line <- lines :: Heeds(line, value) && !NamesArchives(line)
  {
    forall line <- lines ensures ActiveValue(line, ARCHIVES).None? && !NamesArchives(line) {
      if ActiveValue(line, ARCHIVES).Some? {
        ActiveIsNamed(line);
      }
    }
    NoActiveNoValues(lines, ARCHIVES);
    var last := Appended(Archives(value));
    ArchivesLineValue(value, "");
    assert ARCHIVES + "=" + value + "" == last;
    ValuesConcat(lines, [last], ARCHIVES);
    assert [last][1..] == [];
  }

  /** set_log_max_archives gives the key its value alone exactly when every active line of the key has
      its `=` right after the name or already gives the value, and the key is given a value at all
      exactly when no line names it, or some line is overwritten or active. */
  lemma ArchivesTakesEffect(value: string, lines: seq<string>)
    requires PlainValue(value)
    ensures OnlyValue(Apply(Archives(value), lines), value) <==> forall line <- lines :: Heeds(line, value)
    ensures Values(Apply(Archives(value), lines), ARCHIVES) != [] <==>
              || (forall line <- lines :: !NamesArchives(line))
              || exists line <- lines :: Overwritten(line) || ActiveValue(line, ARCHIVES).Some?
    ensures HasOnly(Apply(Archives(value), lines), value) <==> Heeding(lines, value)
  {
    if AnyMatch(Archives(value), lines) {
      ArchivesSedEffect(value, lines);
    } else {
      ArchivesUnmatched(value, lines);
    }
  }

  /** The key has the value and no other. */
  ghost predicate HasOnly(lines: seq<string>, value: string) {
    Values(lines, ARCHIVES) != [] && OnlyValue(lines, value)
  }

  /** The file can be given the value: every active line heeds the edit, and the key is named by no
      line, or by one that is overwritten or active. */
  ghost predicate Heeding(lines: seq<string>, value: string) {
    && (forall line <- lines :: Heeds(line, value))
    && ((forall line <- lines :: !NamesArchives(line))
        || exists line <- lines :: Overwritten(line) || ActiveValue(line, ARCHIVES).Some?)
  }

  /** The edit has nothing to rewrite. */
  ghost predicate Quiet(e: Edit, lines: seq<string>) { forall line <- lines :: Sed(e, line) == line }

  lemma AppliedIsQuiet(e: Edit, lines: seq<string>)
    requires e.Archives? && WellFormed(e)
    ensures Quiet(e, Apply(e, lines))
  {
    ApplySettles(e, lines);
  }

  lemma SetKeepsQuiet(e: Edit, f: Edit, lines: seq<string>)
    requires e.Archives? && f.Set? && WellFormed(f) && OffArchives(f) && Quiet(e, lines)
    ensures Quiet(e, Apply(f, lines))
  {
    assert Sed(e, Appended(f)) == Appended(f) by {
      if Overwritten(Appended(f)) {
        OverwrittenIsNamed(Appended(f));
      }
    }
    forall line <- Apply(f, lines) ensures Sed(e, line) == line {
      if AnyMatch(f, lines) {
        var i :| 0 <= i < |lines| && Apply(f, lines)[i] == line;
        assert lines[i] in lines;
      }
    }
  }

  lemma QuietIsFixed(e: Edit, lines: seq<string>)
    requires e.Archives? && Quiet(e, lines) && AnyMatch(e, lines)
    ensures Apply(e, lines) == lines
  {
    assert forall i | 0 <= i < |lines| :: lines[i] in lines;
  }

  lemma ActiveMatches(e: Edit, lines: seq<string>)
    requires e.Archives? && Values(lines, ARCHIVES) != []
    ensures AnyMatch(e, lines)
  {
    NoActiveNoValues(lines, ARCHIVES);
    var line :| line in lines && ActiveValue(line, ARCHIVES).Some?;
    ActiveIsNamed(line);
  }

  /** Once the edit ran and the key has a value, no further edit changes its values. */
  lemma {:induction false} ValuesStay(es: set<Edit>, e: Edit, order: seq<Edit>, lines: seq<string>)
    requires Compatible(es) && e in es && e.Archives? && (forall f <- order :: f in es)
    requires Quiet(e, lines) && (Values(lines, ARCHIVES) != [] || e !in order)
    ensures Values(ApplyAll(order, lines), ARCHIVES) == Values(lines, ARCHIVES)
    decreases |order|
  {
    if order != [] {
      var f := order[0];
      assert f in order && forall g <- order[1..] :: g in order;
      if f.Archives? {
        assert KeyOf(f) == KeyOf(e);
        ActiveMatches(e, lines);
        QuietIsFixed(e, lines);
      } else {
        assert HasArchives(es) && OffArchives(f) && KeyOf(f) != KeyOf(e);
        ArchivesIsKeyName();
        SetSparesValues(f, lines, ARCHIVES);
        SetKeepsQuiet(e, f, lines);
      }
      ValuesStay(es, e, order[1..], Apply(f, lines));
    }
  }

  // ---------------------------------------------------------------- the order of edits

  /** The line is one for the key of a Set edit. */
  ghost predicate SetOwned(es: set<Edit>, line: string) { exists e :: e in es && e.Set? && Owns(e, line) }

  /** The line names log_max_archives, is not overwritten, and is one that a Set edit rewrites. */
  ghost predicate Masked(es: set<Edit>, line: string) {
    NamesArchives(line) && !Overwritten(line) && SetOwned(es, line)
  }

  /** If the file names log_max_archives at all, then on a line that is not masked. */
  ghost predicate NotMasked(es: set<Edit>, lines: seq<string>) {
    (exists line <- lines :: NamesArchives(line)) ==> exists line <- lines :: NamesArchives(line) && !Masked(es, line)
  }

  /** After one run of set_log_max_archives: no line of a Set edit is overwritten, and if a line is
      masked another one names the key for good. */
  ghost predicate Prepared(es: set<Edit>, lines: seq<string>) {
    && (forall line <- lines :: SetOwned(es, line) ==> !Overwritten(line))
    && ((exists line <- lines :: Masked(es, line)) ==> exists line <- lines :: Anchors(es, line))
  }

  ghost predicate Anchors(es: set<Edit>, line: string) { NamesArchives(line) && !SetOwned(es, line) }

  lemma MentionsArchivesIsNotSetOwned(es: set<Edit>, line: string)
    requires Compatible(es) && HasArchives(es) && Mentions(line, ARCHIVES)
    ensures !SetOwned(es, line)
  {
    var a :| a in es && a.Archives?;
    forall e | e in es && e.Set? ensures !Owns(e, line) {
      assert KeyOf(a) != KeyOf(e);
      ArchivesIsKeyName();
      if Owns(e, line) {
        OneKeyPerLine(line, e.key, ARCHIVES);
      }
    }
  }

  lemma SedAnchors(es: set<Edit>, e: Edit, line: string)
    requires Compatible(es) && e in es && e.Archives? && NamesArchives(line) && !Masked(es, line)
    ensures Anchors(es, Sed(e, line))
  {
    if Overwritten(line) {
      OverwrittenBindsArchives(e.value, line);
      MentionsArchivesIsNotSetOwned(es, Sed(e, line));
    }
  }

  lemma FirstRunPrepares(es: set<Edit>, e: Edit, lines: seq<string>)
    requires Compatible(es) && e in es && e.Archives? && NotMasked(es, lines)
    ensures Prepared(es, Apply(e, lines))
  {
    var after := Apply(e, lines);
    if AnyMatch(e, lines) {
      var line :| line in lines && NamesArchives(line) && !Masked(es, line);
      var i :| 0 <= i < |lines| && lines[i] == line;
      SedAnchors(es, e, line);
      assert after[i] in after;
      forall l <- after ensures SetOwned(es, l) ==> !Overwritten(l) {
        var j :| 0 <= j < |after| && after[j] == l;
        if Overwritten(lines[j]) {
          OverwrittenBindsArchives(e.value, lines[j]);
          MentionsArchivesIsNotSetOwned(es, l);
        }
      }
    } else {
      AppendedIsFree(es, e);
      forall l <- lines ensures !NamesArchives(l) && !Overwritten(l) {
        if Overwritten(l) {
          OverwrittenIsNamed(l);
        }
      }
    }
  }

  lemma AppendedIsFree(es: set<Edit>, e: Edit)
    requires Compatible(es) && e in es && e.Archives?
    ensures !SetOwned(es, Appended(e)) && NamesArchives(Appended(e))
  {
    ArchivesLine(e.value, "");
    assert ARCHIVES + "=" + e.value + "" == Appended(e);
    MentionsArchivesIsNotSetOwned(es, Appended(e));
  }

  // A masked line may be replaced by what its Set edit will write: no edit can tell.

  /** y is what the edit that rewrites the masked line x, and is still to come, will write. */
  ghost predicate Shadow(order: seq<Edit>, x: string, y: string) {
    NamesArchives(x) && !Overwritten(x) && exists e :: e in order && e.Set? && Owns(e, x) && y == Appended(e)
  }

  ghost predicate Shadows(es: set<Edit>, order: seq<Edit>, a: seq<string>, b: seq<string>) {
    && |a| == |b|
    && (forall i | 0 <= i < |a| :: a[i] == b[i] || Shadow(order, a[i], b[i]))
    && (a == b || exists i :: 0 <= i < |a| && a[i] == b[i] && Anchors(es, a[i]))
  }

  lemma ShadowThroughSet(es: set<Edit>, order: seq<Edit>, x: string, y: string)
    requires Compatible(es) && HasArchives(es) && order != [] && order[0].Set? && forall f <- order :: f in es
    requires Shadow(order, x, y)
    ensures Grep(order[0], x) == Grep(order[0], y)
    ensures var f := order[0]; Sed(f, x) == Sed(f, y) || Shadow(order[1..], Sed(f, x), Sed(f, y))
  {
    var f := order[0];
    var e :| e in order && e.Set? && Owns(e, x) && y == Appended(e);
    assert f in order;
    AppendedSettles(e);
    if e != f {
      assert e in order[1..];
      if Owns(f, x) {
        OneKeyPerLine(x, e.key, f.key);
      }
      if Owns(f, y) {
        OneKeyPerLine(y, e.key, f.key);
      }
    }
  }

  lemma ShadowThroughArchives(es: set<Edit>, order: seq<Edit>, x: string, y: string)
    requires Compatible(es) && order != [] && order[0].Archives? && forall f <- order :: f in es
    requires Shadow(order, x, y)
    ensures var f := order[0]; Shadow(order[1..], Sed(f, x), Sed(f, y)) && Grep(f, x)
  {
    var f := order[0];
    var e :| e in order && e.Set? && Owns(e, x) && y == Appended(e);
    assert f in order && HasArchives(es);
    assert OffArchives(e) && e in order[1..];
    if Overwritten(y) {
      OverwrittenIsNamed(y);
    }
  }

  lemma AnchorStays(es: set<Edit>, f: Edit, line: string)
    requires Compatible(es) && HasArchives(es) && f in es && Anchors(es, line)
    ensures Anchors(es, Sed(f, line)) && (f.Set? ==> !Grep(f, line)) && (f.Archives? ==> Grep(f, line))
  {
    if f.Archives? {
      SedAnchors(es, f, line);
    } else {
      assert f.Set?;
      SedSettles(f, line);
    }
  }

  lemma SetMatches(es: set<Edit>, order: seq<Edit>, a: seq<string>, b: seq<string>)
    requires Compatible(es) && HasArchives(es) && order != [] && order[0].Set? && (forall f <- order :: f in es)
    requires Shadows(es, order, a, b)
    ensures AnyMatch(order[0], a) <==> AnyMatch(order[0], b)
  {
    var f := order[0];
    forall i | 0 <= i < |a| ensures Grep(f, a[i]) == Grep(f, b[i]) {
      if a[i] != b[i] {
        ShadowThroughSet(es, order, a[i], b[i]);
      }
    }
    if line :| line in a && Grep(f, line) {
      var i :| 0 <= i < |a| && a[i] == line;
      assert b[i] in b;
    }
    if line :| line in b && Grep(f, line) {
      var i :| 0 <= i < |b| && b[i] == line;
      assert a[i] in a;
    }
  }

  lemma ShadowsMatch(es: set<Edit>, order: seq<Edit>, a: seq<string>, b: seq<string>)
    requires Compatible(es) && HasArchives(es) && order != [] && (forall f <- order :: f in es)
    requires Shadows(es, order, a, b)
    ensures AnyMatch(order[0], a) <==> AnyMatch(order[0], b)
  {
    var f := order[0];
    assert f in order;
    if f.Set? {
      SetMatches(es, order, a, b);
    } else if a != b {
      var k :| 0 <= k < |a| && a[k] == b[k] && Anchors(es, a[k]);
      AnchorStays(es, f, a[k]);
      assert a[k] in a && b[k] in b;
    }
  }

  lemma ShadowsThroughSed(es: set<Edit>, order: seq<Edit>, a: seq<string>, b: seq<string>)
    requires Compatible(es) && HasArchives(es) && order != [] && (forall f <- order :: f in es)
    requires Shadows(es, order, a, b)
    ensures Shadows(es, order[1..], SedAll(order[0], a), SedAll(order[0], b))
  {
    var f, a', b' := order[0], SedAll(order[0], a), SedAll(order[0], b);
    assert f in order;
    forall i | 0 <= i < |a'| ensures a'[i] == b'[i] || Shadow(order[1..], a'[i], b'[i]) {
      if a[i] != b[i] {
        if f.Set? {
          ShadowThroughSet(es, order, a[i], b[i]);
        } else {
          ShadowThroughArchives(es, order, a[i], b[i]);
        }
      }
    }
    if a != b {
      var k :| 0 <= k < |a| && a[k] == b[k] && Anchors(es, a[k]);
      AnchorStays(es, f, a[k]);
      assert a'[k] == b'[k] && Anchors(es, a'[k]);
    }
  }

  lemma UnmatchedIsUnchanged(e: Edit, lines: seq<string>)
    requires WellFormed(e) && !AnyMatch(e, lines)
    ensures SedAll(e, lines) == lines
  {
    forall i | 0 <= i < |lines| ensures SedAll(e, lines)[i] == lines[i] {
      assert lines[i] in lines;
      SedSettles(e, lines[i]);
    }
  }

  lemma ShadowsWith(es: set<Edit>, order: seq<Edit>, a: seq<string>, b: seq<string>, line: string)
    requires Shadows(es, order, a, b)
    ensures Shadows(es, order, a + [line], b + [line])
  {
    if a != b {
      var k :| 0 <= k < |a| && a[k] == b[k] && Anchors(es, a[k]);
      assert (a + [line])[k] == (b + [line])[k] && Anchors(es, (a + [line])[k]);
    }
  }

  lemma ShadowsThroughAppend(es: set<Edit>, order: seq<Edit>, a: seq<string>, b: seq<string>)
    requires Compatible(es) && HasArchives(es) && order != [] && (forall f <- order :: f in es)
    requires Shadows(es, order, a, b) && !AnyMatch(order[0], a) && !AnyMatch(order[0], b)
    ensures Shadows(es, order[1..], a + [Appended(order[0])], b + [Appended(order[0])])
  {
    assert order[0] in order;
    ShadowsThroughSed(es, order, a, b);
    UnmatchedIsUnchanged(order[0], a);
    UnmatchedIsUnchanged(order[0], b);
    ShadowsWith(es, order[1..], a, b, Appended(order[0]));
  }

  lemma {:induction false} ShadowsMeet(es: set<Edit>, order: seq<Edit>, a: seq<string>, b: seq<string>)
    requires Compatible(es) && HasArchives(es) && (forall f <- order :: f in es)
    requires Shadows(es, order, a, b)
    ensures ApplyAll(order, a) == ApplyAll(order, b)
    decreases |order|
  {
    if order != [] {
      assert forall f <- order[1..] :: f in order;
      ShadowsMatch(es, order, a, b);
      if AnyMatch(order[0], a) {
        ShadowsThroughSed(es, order, a, b);
      } else {
        ShadowsThroughAppend(es, order, a, b);
      }
      ShadowsMeet(es, order[1..], Apply(order[0], a), Apply(order[0], b));
    }
  }

  /** The file with the masked lines replaced. */
  ghost function Unmasked(es: set<Edit>, lines: seq<string>): (r: seq<string>)
    ensures |r| == |lines|
  {
    if lines == [] then []
    else
      [if Masked(es, lines[0]) then var e :| e in es && e.Set? && Owns(e, lines[0]); Appended(e) else lines[0]]
      + Unmasked(es, lines[1..])
  }

  lemma {:induction false} UnmaskedAt(es: set<Edit>, lines: seq<string>, i: nat)
    requires i < |lines|
    ensures var x, y := lines[i], Unmasked(es, lines)[i];
            if Masked(es, x) then exists e :: e in es && e.Set? && Owns(e, x) && y == Appended(e) else y == x
  {
    if i > 0 {
      UnmaskedAt(es, lines[1..], i - 1);
    }
  }

  lemma NotMaskedHasOneOwner(es: set<Edit>, line: string)
    requires Compatible(es) && HasArchives(es) && !Masked(es, line) && (SetOwned(es, line) ==> !Overwritten(line))
    ensures OneOwner(es, line)
  {
    assert SetOwned(es, line) ==> !NamesArchives(line);
    forall e, f | e in es && f in es && Owns(e, line) && Owns(f, line) ensures e == f {
      if e.Set? && f.Set? {
        OneKeyPerLine(line, e.key, f.key);
      }
      assert e.Set? || (e.Archives? && NamesArchives(line));
      assert f.Set? || (f.Archives? && NamesArchives(line));
      assert KeyOf(e) == KeyOf(f);
    }
  }

  lemma UnmaskedHasOneOwner(es: set<Edit>, lines: seq<string>, i: nat)
    requires Compatible(es) && HasArchives(es) && Prepared(es, lines) && i < |lines|
    ensures OneOwner(es, Unmasked(es, lines)[i])
  {
    UnmaskedAt(es, lines, i);
    var x := lines[i];
    assert x in lines;
    if Masked(es, x) {
      var e :| e in es && e.Set? && Owns(e, x) && Unmasked(es, lines)[i] == Appended(e);
      AppendedHasOneOwner(es, e);
    } else {
      NotMaskedHasOneOwner(es, x);
    }
  }

  /** On a prepared file the edits, in any order, do what they do on a file without double owners. */
  lemma PreparedIsUnmasked(es: set<Edit>, order: seq<Edit>, lines: seq<string>)
    requires Compatible(es) && HasArchives(es) && Prepared(es, lines) && forall e :: e in order <==> e in es
    ensures ApplyAll(order, lines) == ApplyAll(order, Unmasked(es, lines))
    ensures forall line <- Unmasked(es, lines) :: OneOwner(es, line)
  {
    var clean := Unmasked(es, lines);
    forall i | 0 <= i < |lines|
      ensures lines[i] == clean[i] || Shadow(order, lines[i], clean[i])
      ensures Anchors(es, lines[i]) ==> lines[i] == clean[i]
      ensures OneOwner(es, clean[i])
    {
      UnmaskedAt(es, lines, i);
      UnmaskedHasOneOwner(es, lines, i);
    }
    if lines != clean {
      var i :| 0 <= i < |lines| && lines[i] != clean[i];
      UnmaskedAt(es, lines, i);
      assert lines[i] in lines && Masked(es, lines[i]);
      var line :| line in lines && Anchors(es, line);
      var k :| 0 <= k < |lines| && lines[k] == line;
    }
    ShadowsMeet(es, order, lines, clean);
  }

  // ---------------------------------------------------------------- where the order matters

  lemma {:induction false} SetsHideMasked(es: set<Edit>, sets: seq<Edit>, lines: seq<string>, i: nat)
    requires Compatible(es) && HasArchives(es) && (forall e :: e in sets <==> e in es && e.Set?)
    requires i < |ApplyAll(sets, lines)| && forall line <- lines :: NamesArchives(line) ==> SetOwned(es, line)
    ensures !NamesArchives(ApplyAll(sets, lines)[i])
  {
    var some := set e | e in es && e.Set?;
    assert forall e <- sets :: e in some;
    forall line: string ensures OneOwner(some, line) {
      TidyHasOneOwner(some, line);
    }
    CompatibleIsSeparate(some, lines);
    if i < |lines| {
      AllOnLine(sets, lines, i);
      SeparateLine(some, lines, lines[i]);
      SedThroughIsOwner(some, sets, lines[i]);
      assert lines[i] in lines;
      if e :| e in some && Owns(e, lines[i]) {
        assert e in sets && SedThrough(sets, lines[i]) == Sed(e, lines[i]) == Appended(e);
        assert OffArchives(e);
      }
    } else {
      TailIsAppended(some, sets, lines, i);
      var f :| f in some && ApplyAll(sets, lines)[i] == Appended(f);
      assert OffArchives(f);
    }
  }

  /** On a file whose only lines that name the key are masked, set_log_max_archives before the other
      edits leaves the key without a value, and after them it gives it one. */
  lemma MaskedIsOrderDependent(es: set<Edit>, e: Edit, sets: seq<Edit>, lines: seq<string>)
    requires Compatible(es) && e in es && e.Archives? && PlainValue(e.value)
    requires (forall f :: f in sets <==> f in es && f.Set?) && !NotMasked(es, lines)
    ensures Apply(e, lines) == lines
    ensures Values(ApplyAll(sets, lines), ARCHIVES) == [] && forall l <- ApplyAll(sets, lines) :: !NamesArchives(l)
    ensures Values(Apply(e, ApplyAll(sets, lines)), ARCHIVES) == [e.value]
  {
    assert forall line <- lines :: NamesArchives(line) ==> Masked(es, line);
    MaskedIsUnchanged(es, e, lines);
    var after := ApplyAll(sets, lines);
    forall l <- after ensures !NamesArchives(l) {
      var i :| 0 <= i < |after| && after[i] == l;
      SetsHideMasked(es, sets, lines, i);
    }
    UnnamedHasNoValues(after);
    ArchivesUnmatched(e.value, after);
  }

  lemma MaskedIsUnchanged(es: set<Edit>, e: Edit, lines: seq<string>)
    requires e.Archives? && !NotMasked(es, lines) && forall line <- lines :: NamesArchives(line) ==> Masked(es, line)
    ensures Apply(e, lines) == lines
  {
    forall line <- lines ensures Sed(e, line) == line {
      if Overwritten(line) {
        OverwrittenIsNamed(line);
      }
    }
    var line :| line in lines && NamesArchives(line);
    assert forall i | 0 <= i < |lines| :: lines[i] in lines;
  }

  lemma UnnamedHasNoValues(lines: seq<string>)
    requires forall line <- lines :: !NamesArchives(line)
    ensures Values(lines, ARCHIVES) == []
  {
    forall line <- lines ensures ActiveValue(line, ARCHIVES).None? {
      if ActiveValue(line, ARCHIVES).Some? {
        ActiveIsNamed(line);
      }
    }
    NoActiveNoValues(lines, ARCHIVES);
  }

  /** A file in which no line names the key grows. */
  lemma UnnamedGrows(e: Edit, order: seq<Edit>, lines: seq<string>)
    requires e.Archives? && forall line <- lines :: !NamesArchives(line)
    ensures |ApplyAll(order, Apply(e, lines))| > |lines|
  {
    assert !AnyMatch(e, lines);
    AllKeepLength(order, Apply(e, lines));
  }
}
