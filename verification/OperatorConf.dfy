/** config/scripts/operator_conf.sh: in-place edits of a configuration file, line by line.

    Every function of the script tests the file with grep and then either rewrites the matching
    lines with sed or appends one line. Its later grep tests are narrower than the first one, so
    they cannot hold when the first one fails. Values carry no sed metacharacters. */
module OperatorConf {
  import opened Wrappers
  import opened Text

  // ---------------------------------------------------------------- patterns

  predicate IsSpace(c: char) { c == ' ' || '\t' <= c <= '\r' }

  /** The text after `^[#[:space:]]*`. */
  function StripHash(s: string): string {
    if s != "" && (s[0] == '#' || IsSpace(s[0])) then StripHash(s[1..]) else s
  }

  /** The text after `[[:space:]]*`. */
  function StripSpace(s: string): string {
    if s != "" && IsSpace(s[0]) then StripSpace(s[1..]) else s
  }

  /** The text after `key[[:space:]]*=`. */
  function AfterKey(s: string, key: string): Option<string> {
    if key <= s then
      var rest := StripSpace(s[|key|..]);
      if rest != "" && rest[0] == '=' then Some(rest[1..]) else None
    else None
  }

  /** The line matches `^[#[:space:]]*key[[:space:]]*=`. */
  predicate Mentions(line: string, key: string) { AfterKey(StripHash(line), key).Some? }

  /** The text after `^[#[:space:]]*\[\s*common\s*\]`. */
  function AfterHeader(line: string): Option<string> {
    var t := StripHash(line);
    if t == "" || t[0] != '[' then None
    else
      var u := StripSpace(t[1..]);
      if !("common" <= u) then None
      else
        var v := StripSpace(u[6..]);
        if v != "" && v[0] == ']' then Some(v[1..]) else None
  }

  predicate IsLetter(c: char) { 'a' <= c <= 'z' || 'A' <= c <= 'Z' }

  /** A configuration key, as the script's own keys are. */
  predicate KeyName(key: string) {
    key != "" && forall i | 0 <= i < |key| :: IsLetter(key[i]) || IsDigit(key[i]) || key[i] == '_'
  }

  function BeforeHash(s: string): string {
    if s == "" || s[0] == '#' then "" else [s[0]] + BeforeHash(s[1..])
  }

  function FromHash(s: string): string {
    if s == "" || s[0] == '#' then s else FromHash(s[1..])
  }

  predicate Contains(s: string, part: string) {
    part <= s || (s != "" && Contains(s[1..], part))
  }

  // ---------------------------------------------------------------- edits

  const ARCHIVES := "log_max_archives"

  /** One grep-and-sed of the script. Set writes a key whether or not it was commented out,
      Uncomment activates a key that has a usable value, Header activates the [common] line, and
      Archives is the looser pattern of set_log_max_archives. */
  datatype Edit =
    | Set(key: string, value: string)
    | Uncomment(key: string, numeric: bool, default: string)
    | Header
    | Archives(value: string)

  /** The value starts with a digit, or with a letter or underscore. */
  predicate Usable(rest: string, numeric: bool) {
    var v := StripSpace(rest);
    v != "" && if numeric then IsDigit(v[0]) else IsLetter(v[0]) || v[0] == '_'
  }

  predicate Grep(e: Edit, line: string) {
    match e
    case Set(key, _) => Mentions(line, key)
    case Uncomment(key, numeric, _) =>
      var rest := AfterKey(StripHash(line), key);
      rest.Some? && Usable(rest.value, numeric)
    case Header => AfterHeader(line).Some?
    case Archives(_) => Contains(BeforeHash(line), ARCHIVES)
  }

  function Sed(e: Edit, line: string): string {
    match e
    case Set(key, value) => if Grep(e, line) then key + "=" + value else line
    case Uncomment(_, _, _) => if Grep(e, line) then StripHash(line) else line
    case Header => if Grep(e, line) then "[common]" + AfterHeader(line).value else line
    case Archives(value) =>
      if Contains(BeforeHash(line), ARCHIVES + "=") then ARCHIVES + "=" + value + FromHash(line) else line
  }

  function Appended(e: Edit): string {
    match e
    case Set(key, value) => key + "=" + value
    case Uncomment(key, _, default) => key + "=" + default
    case Header => "[common]"
    case Archives(value) => ARCHIVES + "=" + value
  }

  predicate AnyMatch(e: Edit, lines: seq<string>) { exists line :: line in lines && Grep(e, line) }

  function SedAll(e: Edit, lines: seq<string>): (r: seq<string>)
    ensures |r| == |lines| && forall i | 0 <= i < |r| :: r[i] == Sed(e, lines[i])
  {
    if lines == [] then [] else [Sed(e, lines[0])] + SedAll(e, lines[1..])
  }

  /** The file after an edit. */
  function Apply(e: Edit, lines: seq<string>): seq<string> {
    if AnyMatch(e, lines) then SedAll(e, lines) else lines + [Appended(e)]
  }

  function ApplyAll(es: seq<Edit>, lines: seq<string>): seq<string> {
    if es == [] then lines else ApplyAll(es[1..], Apply(es[0], lines))
  }

  class ConfFile {
    var lines: seq<string>

    method GrepFile(e: Edit) returns (found: bool)
      ensures found == AnyMatch(e, lines)
    {
      for i := 0 to |lines|
        invariant forall j | 0 <= j < i :: !Grep(e, lines[j])
      {
        if Grep(e, lines[i]) {
          return true;
        }
      }
      return false;
    }

    /** sed -i: rewrites the file in place. */
    method SedFile(e: Edit)
      modifies this
      ensures lines == SedAll(e, old(lines))
    {
      for i := 0 to |lines|
        invariant |lines| == |old(lines)|
        invariant forall j | 0 <= j < i :: lines[j] == Sed(e, old(lines)[j])
        invariant forall j | i <= j < |lines| :: lines[j] == old(lines)[j]
      {
        lines := lines[i := Sed(e, lines[i])];
      }
    }

    method Run(e: Edit)
      modifies this
      ensures lines == Apply(e, old(lines))
    {
      var found := GrepFile(e);
      if found {
        SedFile(e);
      } else {
        lines := lines + [Appended(e)];
      }
    }
  }

  // ---------------------------------------------------------------- the lines of an edit

  /** The lines that an edit may read or rewrite. */
  predicate Owns(e: Edit, line: string) {
    match e
    case Set(key, _) => Mentions(line, key)
    case Uncomment(key, _, _) => Mentions(line, key)
    case Header => AfterHeader(line).Some?
    case Archives(_) => Contains(BeforeHash(line), ARCHIVES)
  }

  predicate WellFormed(e: Edit) {
    match e
    case Set(key, _) => KeyName(key)
    case Uncomment(key, numeric, default) => KeyName(key) && Usable(default, numeric)
    case Header => true
    case Archives(value) => '#' !in value
  }

  lemma {:induction false} StripHashStops(s: string)
    ensures var t := StripHash(s); t == "" || !(t[0] == '#' || IsSpace(t[0]))
    ensures StripHash(StripHash(s)) == StripHash(s)
  {
    if s != "" && (s[0] == '#' || IsSpace(s[0])) {
      StripHashStops(s[1..]);
    }
  }

  lemma KeyLine(key: string, value: string)
    requires KeyName(key)
    ensures StripHash(key + "=" + value) == key + "=" + value
    ensures AfterKey(key + "=" + value, key) == Some(value)
  {
    var line := key + "=" + value;
    assert line[0] == key[0];
    assert line[|key|..] == "=" + value;
    assert ("=" + value)[1..] == value;
  }

  lemma HeaderLine(rest: string)
    ensures AfterHeader("[common]" + rest) == Some(rest)
  {
    var line := "[common]" + rest;
    assert line[1..] == "common]" + rest;
    assert ("common]" + rest)[6..] == "]" + rest;
    assert ("]" + rest)[1..] == rest;
  }

  lemma {:induction false} CutAtHash(s: string, tail: string)
    requires '#' !in s && (tail == "" || tail[0] == '#')
    ensures BeforeHash(s + tail) == s && FromHash(s + tail) == tail
  {
    if s == "" {
      assert s + tail == tail;
    } else {
      assert (s + tail)[1..] == s[1..] + tail;
      CutAtHash(s[1..], tail);
    }
  }

  lemma {:induction false} FromHashStarts(s: string)
    ensures FromHash(s) == "" || FromHash(s)[0] == '#'
  {
    if s != "" && s[0] != '#' {
      FromHashStarts(s[1..]);
    }
  }

  lemma ArchivesLine(value: string, tail: string)
    requires '#' !in value && (tail == "" || tail[0] == '#')
    ensures var line := ARCHIVES + "=" + value + tail;
            && Contains(BeforeHash(line), ARCHIVES) && Contains(BeforeHash(line), ARCHIVES + "=")
            && FromHash(line) == tail
            && Mentions(line, ARCHIVES)
  {
    var s := ARCHIVES + "=" + value;
    assert '#' !in s;
    CutAtHash(s, tail);
    assert ARCHIVES <= s && ARCHIVES + "=" <= s;
    KeyLine(ARCHIVES, value + tail);
    assert s + tail == ARCHIVES + "=" + (value + tail);
  }

  /** What an edit leaves behind is settled: still owned, matched, and a fixed point of the edit. */
  lemma SedSettles(e: Edit, line: string)
    requires WellFormed(e)
    ensures Owns(e, line) ==> Owns(e, Sed(e, line))
    ensures Grep(e, line) ==> Grep(e, Sed(e, line)) && Owns(e, line)
    ensures !Grep(e, line) ==> Sed(e, line) == line
    ensures Sed(e, Sed(e, line)) == Sed(e, line)
  {
    match e
    case Set(key, value) => KeyLine(key, value);
    case Uncomment(key, _, _) => StripHashStops(line);
    case Header =>
      if Grep(e, line) {
        HeaderLine(AfterHeader(line).value);
      }
    case Archives(value) =>
      FromHashStarts(line);
      ArchivesLine(value, FromHash(line));
      if Contains(BeforeHash(line), ARCHIVES + "=") {
        ContainsPrefix(BeforeHash(line), ARCHIVES, "=");
      }
  }

  lemma {:induction false} ContainsPrefix(s: string, part: string, more: string)
    requires Contains(s, part + more)
    ensures Contains(s, part)
  {
    if part + more <= s {
      assert part <= s;
    } else {
      ContainsPrefix(s[1..], part, more);
    }
  }

  lemma AppendedSettles(e: Edit)
    requires WellFormed(e)
    ensures Owns(e, Appended(e)) && Grep(e, Appended(e)) && Sed(e, Appended(e)) == Appended(e)
  {
    match e
    case Set(key, value) => KeyLine(key, value);
    case Uncomment(key, _, default) => KeyLine(key, default);
    case Header =>
      HeaderLine("");
      assert "[common]" + "" == "[common]";
    case Archives(value) =>
      ArchivesLine(value, "");
      assert ARCHIVES + "=" + value + "" == ARCHIVES + "=" + value;
  }

  predicate KeyChar(c: char) { IsLetter(c) || IsDigit(c) || c == '_' }

  lemma KeyEnds(line: string, key: string)
    requires KeyName(key) && Mentions(line, key)
    ensures var t := StripHash(line);
            |key| < |t| && t[..|key|] == key && !KeyChar(t[|key|]) && forall i | 0 <= i < |key| :: KeyChar(t[i])
  {
    var t := StripHash(line);
    assert t[|key|..] != "" && t[|key|..][0] == t[|key|];
  }

  /** A line mentions at most one key. */
  lemma OneKeyPerLine(line: string, k: string, l: string)
    requires KeyName(k) && KeyName(l) && Mentions(line, k) && Mentions(line, l)
    ensures k == l
  {
    KeyEnds(line, k);
    KeyEnds(line, l);
    assert |k| == |l|;
  }

  lemma HeaderMentionsNothing(line: string, key: string)
    requires KeyName(key) && AfterHeader(line).Some?
    ensures !Mentions(line, key)
  {
    assert KeyChar(key[0]) && !KeyChar(StripHash(line)[0]);
  }

  // ---------------------------------------------------------------- edits of different lines

  ghost predicate HasOwner(es: set<Edit>, line: string) { exists e :: e in es && Owns(e, line) }

  /** At most one of the edits owns the line. */
  ghost predicate OneOwner(es: set<Edit>, line: string) {
    forall e, f | e in es && f in es && Owns(e, line) && Owns(f, line) :: e == f
  }

  /** Edits that do not get in each other's way on this file, nor on what they write. */
  ghost predicate Separate(es: set<Edit>, lines: seq<string>) {
    && (forall e <- es :: WellFormed(e) && OneOwner(es, Appended(e)))
    && (forall line <- lines :: OneOwner(es, line))
    && (forall e, line | e in es && Owns(e, line) && OneOwner(es, line) :: OneOwner(es, Sed(e, line)))
  }

  /** The lines that an edit owns, in file order. */
  function Owned(e: Edit, lines: seq<string>): (r: seq<string>)
    ensures forall line <- r :: line in lines && Owns(e, line)
  {
    if lines == [] then []
    else if Owns(e, lines[0]) then [lines[0]] + Owned(e, lines[1..])
    else Owned(e, lines[1..])
  }

  /** The lines that none of the edits owns, in file order. */
  ghost function Rest(es: set<Edit>, lines: seq<string>): seq<string> {
    if lines == [] then []
    else if HasOwner(es, lines[0]) then Rest(es, lines[1..])
    else [lines[0]] + Rest(es, lines[1..])
  }

  lemma {:induction false} OwnedConcat(e: Edit, a: seq<string>, b: seq<string>)
    ensures Owned(e, a + b) == Owned(e, a) + Owned(e, b)
  {
    if a == [] {
      assert a + b == b;
    } else {
      assert (a + b)[1..] == a[1..] + b;
      OwnedConcat(e, a[1..], b);
    }
  }

  lemma {:induction false} RestConcat(es: set<Edit>, a: seq<string>, b: seq<string>)
    ensures Rest(es, a + b) == Rest(es, a) + Rest(es, b)
  {
    if a == [] {
      assert a + b == b;
    } else {
      assert (a + b)[1..] == a[1..] + b;
      RestConcat(es, a[1..], b);
    }
  }

  lemma {:induction false} OwnedMember(e: Edit, lines: seq<string>, line: string)
    requires line in lines && Owns(e, line)
    ensures line in Owned(e, lines)
  {
    if lines[0] != line {
      OwnedMember(e, lines[1..], line);
    }
  }

  lemma {:induction false} SedOnOwned(e: Edit, lines: seq<string>)
    requires WellFormed(e)
    ensures Owned(e, SedAll(e, lines)) == SedAll(e, Owned(e, lines))
  {
    if lines != [] {
      SedSettles(e, lines[0]);
      SedOnOwned(e, lines[1..]);
      assert SedAll(e, lines)[1..] == SedAll(e, lines[1..]);
      if Owns(e, lines[0]) {
        var owned := Owned(e, lines);
        assert owned[1..] == Owned(e, lines[1..]);
      }
    }
  }

  lemma SedOffLine(es: set<Edit>, e: Edit, f: Edit, line: string)
    requires e in es && f in es && e != f && WellFormed(e)
    requires OneOwner(es, line) && (Owns(e, line) ==> OneOwner(es, Sed(e, line)))
    ensures Owns(f, line) ==> Sed(e, line) == line
    ensures Owns(f, Sed(e, line)) == Owns(f, line)
    ensures HasOwner(es, Sed(e, line)) == HasOwner(es, line)
    ensures !HasOwner(es, line) ==> Sed(e, line) == line
  {
    SedSettles(e, line);
  }

  lemma {:induction false} SedOffOthers(es: set<Edit>, e: Edit, f: Edit, lines: seq<string>)
    requires e in es && f in es && e != f && Separate(es, lines)
    ensures Owned(f, SedAll(e, lines)) == Owned(f, lines)
    decreases |lines|
  {
    if lines != [] {
      assert lines[0] in lines;
      SedOffLine(es, e, f, lines[0]);
      SedOffOthers(es, e, f, lines[1..]);
      assert SedAll(e, lines)[1..] == SedAll(e, lines[1..]);
    }
  }

  lemma {:induction false} SedOffRest(es: set<Edit>, e: Edit, lines: seq<string>)
    requires e in es && WellFormed(e)
    ensures Rest(es, SedAll(e, lines)) == Rest(es, lines)
  {
    if lines != [] {
      SedSettles(e, lines[0]);
      SedOffRest(es, e, lines[1..]);
      assert SedAll(e, lines)[1..] == SedAll(e, lines[1..]);
      assert Owns(e, lines[0]) ==> HasOwner(es, lines[0]) && HasOwner(es, Sed(e, lines[0]));
    }
  }

  // ---------------------------------------------------------------- one edit on the whole file

  lemma MatchesAreOwned(e: Edit, lines: seq<string>)
    requires WellFormed(e)
    ensures AnyMatch(e, lines) <==> AnyMatch(e, Owned(e, lines))
  {
    if line :| line in lines && Grep(e, line) {
      SedSettles(e, line);
      OwnedMember(e, lines, line);
    }
  }

  /** An edit acts on its own lines as if the others were not there. */
  lemma ApplyOnOwned(e: Edit, lines: seq<string>)
    requires WellFormed(e)
    ensures Owned(e, Apply(e, lines)) == Apply(e, Owned(e, lines))
  {
    MatchesAreOwned(e, lines);
    SedOnOwned(e, lines);
    AppendedSettles(e);
    OwnedConcat(e, lines, [Appended(e)]);
  }

  lemma ApplyOffOthers(es: set<Edit>, e: Edit, f: Edit, lines: seq<string>)
    requires e in es && f in es && e != f && Separate(es, lines)
    ensures Owned(f, Apply(e, lines)) == Owned(f, lines)
  {
    SedOffOthers(es, e, f, lines);
    AppendedSettles(e);
    OwnedConcat(f, lines, [Appended(e)]);
    assert Owned(f, [Appended(e)]) == [];
  }

  lemma ApplyOffRest(es: set<Edit>, e: Edit, lines: seq<string>)
    requires e in es && WellFormed(e)
    ensures Rest(es, Apply(e, lines)) == Rest(es, lines)
  {
    SedOffRest(es, e, lines);
    AppendedSettles(e);
    RestConcat(es, lines, [Appended(e)]);
    assert HasOwner(es, Appended(e));
    assert Rest(es, [Appended(e)]) == [];
  }

  lemma ApplyStaysSeparate(es: set<Edit>, e: Edit, lines: seq<string>)
    requires e in es && Separate(es, lines)
    ensures Separate(es, Apply(e, lines))
  {
    forall line <- Apply(e, lines) ensures OneOwner(es, line) {
      if AnyMatch(e, lines) {
        var i :| 0 <= i < |lines| && SedAll(e, lines)[i] == line;
        assert lines[i] in lines;
        SedSettles(e, lines[i]);
      } else if line !in lines {
        assert line == Appended(e);
      }
    }
  }

  /** The edit has nothing left to do on the file. */
  ghost predicate Settled(e: Edit, lines: seq<string>) {
    AnyMatch(e, lines) && forall line <- lines :: Sed(e, line) == line
  }

  lemma SettledIsFixed(e: Edit, lines: seq<string>)
    requires Settled(e, lines)
    ensures Apply(e, lines) == lines
  {}

  lemma ApplySettles(e: Edit, lines: seq<string>)
    requires WellFormed(e)
    ensures Settled(e, Apply(e, lines))
  {
    var after := Apply(e, lines);
    if AnyMatch(e, lines) {
      var line :| line in lines && Grep(e, line);
      var i :| 0 <= i < |lines| && lines[i] == line;
      SedSettles(e, line);
      assert after[i] in after && Grep(e, after[i]);
      forall l <- after ensures Sed(e, l) == l {
        var j :| 0 <= j < |after| && after[j] == l;
        SedSettles(e, lines[j]);
      }
    } else {
      AppendedSettles(e);
      assert after[|lines|] in after;
      forall l <- lines ensures Sed(e, l) == l {
        SedSettles(e, l);
      }
    }
  }

  lemma SettledByOwned(e: Edit, lines: seq<string>)
    requires WellFormed(e)
    ensures Settled(e, lines) <==> Settled(e, Owned(e, lines))
  {
    MatchesAreOwned(e, lines);
    forall line <- lines ensures Sed(e, line) == line || line in Owned(e, lines) {
      SedSettles(e, line);
      if Owns(e, line) {
        OwnedMember(e, lines, line);
      }
    }
  }

  // ---------------------------------------------------------------- any sequence of edits

  /** Whatever the order and however often, each edit of a sequence has acted once on its own
      lines. */
  lemma {:induction false} AllOnOwned(es: set<Edit>, order: seq<Edit>, lines: seq<string>, e: Edit)
    requires Separate(es, lines) && e in es && forall f <- order :: f in es
    ensures Owned(e, ApplyAll(order, lines)) == if e in order then Apply(e, Owned(e, lines)) else Owned(e, lines)
    decreases |order|
  {
    if order != [] {
      var f := order[0];
      var next := Apply(f, lines);
      assert f in order && forall g <- order[1..] :: g in order;
      ApplyStaysSeparate(es, f, lines);
      AllOnOwned(es, order[1..], next, e);
      if f == e {
        ApplyOnOwned(e, lines);
        ApplySettles(e, Owned(e, lines));
        SettledIsFixed(e, Apply(e, Owned(e, lines)));
      } else {
        ApplyOffOthers(es, f, e, lines);
        assert e in order ==> e in order[1..];
      }
    }
  }

  lemma {:induction false} AllStaySeparate(es: set<Edit>, order: seq<Edit>, lines: seq<string>)
    requires Separate(es, lines) && forall f <- order :: f in es
    ensures Separate(es, ApplyAll(order, lines))
    decreases |order|
  {
    if order != [] {
      assert order[0] in order && forall g <- order[1..] :: g in order;
      ApplyStaysSeparate(es, order[0], lines);
      AllStaySeparate(es, order[1..], Apply(order[0], lines));
    }
  }

  /** Lines that none of the edits owns are untouched by any sequence of them. */
  lemma {:induction false} AllOffRest(es: set<Edit>, order: seq<Edit>, lines: seq<string>)
    requires forall f <- order :: f in es && WellFormed(f)
    ensures Rest(es, ApplyAll(order, lines)) == Rest(es, lines)
    decreases |order|
  {
    if order != [] {
      assert order[0] in order && forall g <- order[1..] :: g in order;
      ApplyOffRest(es, order[0], lines);
      AllOffRest(es, order[1..], Apply(order[0], lines));
    }
  }

  /** What a sequence of edits makes of one line. */
  function SedThrough(order: seq<Edit>, line: string): string
    decreases |order|
  {
    if order == [] then line else SedThrough(order[1..], Sed(order[0], line))
  }

  /** The lines of the file keep their places; appended lines come after them. */
  lemma {:induction false} AllOnLine(order: seq<Edit>, lines: seq<string>, i: nat)
    requires i < |lines| && forall f <- order :: WellFormed(f)
    ensures i < |ApplyAll(order, lines)| && ApplyAll(order, lines)[i] == SedThrough(order, lines[i])
    decreases |order|
  {
    if order != [] {
      var f := order[0];
      assert f in order && forall g <- order[1..] :: g in order;
      assert lines[i] in lines;
      SedSettles(f, lines[i]);
      assert i < |Apply(f, lines)| && Apply(f, lines)[i] == Sed(f, lines[i]);
      AllOnLine(order[1..], Apply(f, lines), i);
    }
  }

  /** A line of one owner ends up as its owner makes it. */
  lemma {:induction false} SedThroughIsOwner(es: set<Edit>, order: seq<Edit>, line: string)
    requires Separate(es, [line]) && forall f <- order :: f in es
    ensures forall e | e in order && Owns(e, line) :: SedThrough(order, line) == Sed(e, line)
    ensures (forall e <- order :: !Owns(e, line)) ==> SedThrough(order, line) == line
    decreases |order|
  {
    if order != [] {
      var f, rest := order[0], order[1..];
      assert f in order && forall g <- rest :: g in order;
      assert line in [line];
      SedSettles(f, line);
      var next := Sed(f, line);
      assert Separate(es, [next]) by { assert forall l <- [next] :: l == next; }
      SedThroughIsOwner(es, rest, next);
      forall e | e in order && Owns(e, line) ensures SedThrough(order, line) == Sed(e, line) {
        if e == f {
          assert Owns(f, next);
          assert forall g <- rest :: Owns(g, next) ==> g == f;
        } else {
          assert !Owns(f, line) && e in rest;
        }
      }
    }
  }

  lemma SeparateLine(es: set<Edit>, lines: seq<string>, line: string)
    requires Separate(es, lines) && line in lines
    ensures Separate(es, [line])
  {}

  /** The places that the file had read the same after any two orders. */
  lemma SameLinesInAnyOrder(es: set<Edit>, one: seq<Edit>, two: seq<Edit>, lines: seq<string>, i: nat)
    requires Separate(es, lines) && i < |lines|
    requires (forall e :: e in one <==> e in es) && (forall e :: e in two <==> e in es)
    ensures i < |ApplyAll(one, lines)| && i < |ApplyAll(two, lines)|
    ensures ApplyAll(one, lines)[i] == ApplyAll(two, lines)[i]
  {
    AllOnLine(one, lines, i);
    AllOnLine(two, lines, i);
    SeparateLine(es, lines, lines[i]);
    SedThroughIsOwner(es, one, lines[i]);
    SedThroughIsOwner(es, two, lines[i]);
    if e :| e in es && Owns(e, lines[i]) {
      assert SedThrough(one, lines[i]) == Sed(e, lines[i]);
    }
  }

  /** Every line after those places is one that some edit appended. */
  lemma {:induction false} TailIsAppended(es: set<Edit>, order: seq<Edit>, lines: seq<string>, i: nat)
    requires Separate(es, lines) && forall f <- order :: f in es
    requires |lines| <= i < |ApplyAll(order, lines)|
    ensures exists f :: f in es && ApplyAll(order, lines)[i] == Appended(f)
    decreases |order|
  {
    var f, rest := order[0], order[1..];
    var next := Apply(f, lines);
    assert f in order && forall g <- rest :: g in order;
    ApplyStaysSeparate(es, f, lines);
    if i < |next| {
      AllOnLine(rest, next, i);
      assert next[i] == Appended(f);
      SeparateLine(es, next, next[i]);
      SedThroughIsOwner(es, rest, next[i]);
      AppendedSettles(f);
      assert forall g <- rest :: Owns(g, next[i]) ==> g == f;
    } else {
      TailIsAppended(es, rest, next, i);
    }
  }

  /** A second execution, in any order, changes nothing in the file. */
  lemma {:induction false} SecondRunChangesNothing(es: set<Edit>, again: seq<Edit>, lines: seq<string>)
    requires Separate(es, lines) && forall f <- again :: f in es && Settled(f, lines)
    ensures ApplyAll(again, lines) == lines
    decreases |again|
  {
    if again != [] {
      assert again[0] in again && forall g <- again[1..] :: g in again;
      SettledIsFixed(again[0], lines);
      SecondRunChangesNothing(es, again[1..], lines);
    }
  }

  lemma AllSettles(es: set<Edit>, order: seq<Edit>, lines: seq<string>, e: Edit)
    requires Separate(es, lines) && e in order && forall f <- order :: f in es
    ensures Settled(e, ApplyAll(order, lines))
  {
    AllOnOwned(es, order, lines, e);
    ApplySettles(e, Owned(e, lines));
    SettledByOwned(e, ApplyAll(order, lines));
  }
}
