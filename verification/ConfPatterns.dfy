/** The regular expressions of config/scripts/operator_conf.sh, written out: what each grep and sed of
    the line model matches, as text put together from its parts. */
module ConfPatterns {
  import opened Wrappers
  import opened Text
  import opened OperatorConf
  import opened HaManager
  import opened LogArchives

  /** `[[:space:]]*` */
  predicate Blank(s: string) { forall i | 0 <= i < |s| :: s[i] in " \t\n\r" || s[i] == '\U{0B}' || s[i] == '\U{0C}' }

  /** `[#[:space:]]*` */
  predicate HashBlank(s: string) { forall i | 0 <= i < |s| :: s[i] == '#' || Blank([s[i]]) }

  lemma BlankIsSpace(c: char)
    ensures Blank([c]) <==> IsSpace(c)
  {
    assert [c][0] == c;
    assert c in " \t\n\r" <==> c == ' ' || c == '\t' || c == '\n' || c == '\r';
  }

  lemma {:induction false} BlankBefore(s: string) returns (pre: string)
    ensures Blank(pre) && s == pre + StripSpace(s)
    ensures StripSpace(s) == "" || !IsSpace(StripSpace(s)[0])
  {
    pre := "";
    if s != "" && IsSpace(s[0]) {
      var more := BlankBefore(s[1..]);
      BlankIsSpace(s[0]);
      assert Blank([s[0]]) && [s[0]][0] == s[0];
      pre := [s[0]] + more;
    }
  }

  lemma {:induction false} StripBlank(pre: string, s: string)
    requires Blank(pre) && (s == "" || !IsSpace(s[0]))
    ensures StripSpace(pre + s) == s
  {
    if pre == "" {
      assert pre + s == s;
    } else {
      BlankIsSpace(pre[0]);
      assert [pre[0]][0] == pre[0];
      assert (pre + s)[1..] == pre[1..] + s;
      StripBlank(pre[1..], s);
    }
  }

  lemma {:induction false} HashBlankBefore(s: string) returns (pre: string)
    ensures HashBlank(pre) && s == pre + StripHash(s)
  {
    pre := "";
    if s != "" && (s[0] == '#' || IsSpace(s[0])) {
      var more := HashBlankBefore(s[1..]);
      BlankIsSpace(s[0]);
      pre := [s[0]] + more;
    }
  }

  lemma {:induction false} StripHashBlank(pre: string, s: string)
    requires HashBlank(pre) && (s == "" || !(s[0] == '#' || IsSpace(s[0])))
    ensures StripHash(pre + s) == s
  {
    if pre == "" {
      assert pre + s == s;
    } else {
      BlankIsSpace(pre[0]);
      assert (pre + s)[1..] == pre[1..] + s;
      StripHashBlank(pre[1..], s);
    }
  }

  // ---------------------------------------------------------------- keys

  /** `^[#[:space:]]*key[[:space:]]*=`, followed by the rest. */
  ghost predicate KeyPattern(line: string, key: string, rest: string) {
    exists pre, blank :: HashBlank(pre) && Blank(blank) && line == pre + (key + (blank + ("=" + rest)))
  }

  lemma AfterKeyIs(t: string, key: string, rest: string)
    ensures AfterKey(t, key) == Some(rest) <==> exists blank :: Blank(blank) && t == key + (blank + ("=" + rest))
  {
    if AfterKey(t, key) == Some(rest) {
      var u := t[|key|..];
      var blank := BlankBefore(u);
      assert StripSpace(u) == "=" + rest;
      assert t == key + (blank + ("=" + rest));
    }
    if blank :| Blank(blank) && t == key + (blank + ("=" + rest)) {
      assert t[|key|..] == blank + ("=" + rest);
      StripBlank(blank, "=" + rest);
      assert ("=" + rest)[1..] == rest;
    }
  }

  /** A line mentions a key exactly when it matches the pattern. */
  lemma MentionIsPattern(line: string, key: string, rest: string)
    requires KeyName(key)
    ensures AfterKey(StripHash(line), key) == Some(rest) <==> KeyPattern(line, key, rest)
  {
    AfterKeyIs(StripHash(line), key, rest);
    if AfterKey(StripHash(line), key) == Some(rest) {
      var pre := HashBlankBefore(line);
    }
    if KeyPattern(line, key, rest) {
      var pre, blank :| HashBlank(pre) && Blank(blank) && line == pre + (key + (blank + ("=" + rest)));
      var t := key + (blank + ("=" + rest));
      assert t[0] == key[0];
      StripHashBlank(pre, t);
    }
  }

  predicate ValueStart(c: char, numeric: bool) {
    if numeric then '0' <= c <= '9' else 'a' <= c <= 'z' || 'A' <= c <= 'Z' || c == '_'
  }

  /** `[[:space:]]*[0-9]\+` or `[[:space:]]*[a-zA-Z_]\+`: a blank and at least one such character. */
  lemma UsableIsPattern(rest: string, numeric: bool)
    ensures Usable(rest, numeric) <==>
              exists blank, c, more :: Blank(blank) && rest == blank + ([c] + more) && ValueStart(c, numeric)
  {
    if Usable(rest, numeric) {
      var blank := BlankBefore(rest);
      var v := StripSpace(rest);
      assert v == [v[0]] + v[1..];
    }
    if blank, c, more :| Blank(blank) && rest == blank + ([c] + more) && ValueStart(c, numeric) {
      UsableAfterBlank(blank, [c] + more, numeric);
    }
  }

  lemma UsableAfterBlank(blank: string, v: string, numeric: bool)
    requires Blank(blank) && v != "" && ValueStart(v[0], numeric)
    ensures Usable(blank + v, numeric)
  {
    StripBlank(blank, v);
  }

  // ---------------------------------------------------------------- the header

  /** `^[#[:space:]]*\[\s*common\s*\]`, followed by the rest. */
  ghost predicate HeaderPattern(line: string, rest: string) {
    exists pre, a, b :: HashBlank(pre) && Blank(a) && Blank(b)
                        && line == pre + ("[" + (a + ("common" + (b + ("]" + rest)))))
  }

  lemma HeaderIs(t: string, rest: string)
    requires t == "" || !(t[0] == '#' || IsSpace(t[0]))
    ensures AfterHeader(t) == Some(rest) <==>
              exists a, b :: Blank(a) && Blank(b) && t == "[" + (a + ("common" + (b + ("]" + rest))))
  {
    if AfterHeader(t) == Some(rest) {
      var a, b := HeaderParts(t, rest);
    }
    if a, b :| Blank(a) && Blank(b) && t == "[" + (a + ("common" + (b + ("]" + rest)))) {
      HeaderOfParts(t, a, b, rest);
    }
  }

  lemma HeaderParts(t: string, rest: string) returns (a: string, b: string)
    requires (t == "" || !(t[0] == '#' || IsSpace(t[0]))) && AfterHeader(t) == Some(rest)
    ensures Blank(a) && Blank(b) && t == "[" + (a + ("common" + (b + ("]" + rest))))
  {
    assert StripHash(t) == t;
    a := BlankBefore(t[1..]);
    var u := StripSpace(t[1..]);
    b := BlankBefore(u[6..]);
    assert u == "common" + u[6..];
    assert StripSpace(u[6..]) == "]" + rest;
    assert t == "[" + t[1..];
  }

  lemma HeaderOfParts(t: string, a: string, b: string, rest: string)
    requires Blank(a) && Blank(b) && t == "[" + (a + ("common" + (b + ("]" + rest))))
    ensures AfterHeader(t) == Some(rest)
  {
    var v := "]" + rest;
    var u := "common" + (b + v);
    assert StripHash(t) == t && t[1..] == a + u;
    StripBlank(a, u);
    assert "common" <= u && u[6..] == b + v;
    StripBlank(b, v);
    assert v[1..] == rest;
  }

  lemma HeaderIsPattern(line: string, rest: string)
    ensures AfterHeader(line) == Some(rest) <==> HeaderPattern(line, rest)
  {
    var t := StripHash(line);
    StripHashStops(line);
    HeaderIs(t, rest);
    assert AfterHeader(line) == AfterHeader(t);
    if AfterHeader(line) == Some(rest) {
      var pre := HashBlankBefore(line);
    }
    if HeaderPattern(line, rest) {
      var pre, a, b :| HashBlank(pre) && Blank(a) && Blank(b) && line == pre + ("[" + (a + ("common" + (b + ("]" + rest)))));
      StripHashBlank(pre, "[" + (a + ("common" + (b + ("]" + rest)))));
    }
  }

  // ---------------------------------------------------------------- log_max_archives

  lemma {:induction false} ContainsIs(s: string, part: string)
    ensures Contains(s, part) <==> exists a, b :: s == a + (part + b)
  {
    if Contains(s, part) {
      if part <= s {
        assert s == "" + (part + s[|part|..]);
      } else {
        ContainsIs(s[1..], part);
        var a, b :| s[1..] == a + (part + b);
        assert s == ([s[0]] + a) + (part + b);
      }
    }
    if a, b :| s == a + (part + b) {
      FindsAfter(a, part, b);
    }
  }

  lemma {:induction false} HashSplits(s: string)
    ensures s == BeforeHash(s) + FromHash(s) && '#' !in BeforeHash(s)
    ensures FromHash(s) == "" || FromHash(s)[0] == '#'
  {
    if s != "" && s[0] != '#' {
      HashSplits(s[1..]);
    }
  }

  /** `^[^#]*part`, for a part without a hash. */
  lemma BeforeCommentIsPattern(line: string, part: string)
    requires '#' !in part
    ensures Contains(BeforeHash(line), part) <==> exists pre, more :: '#' !in pre && line == pre + (part + more)
  {
    if Contains(BeforeHash(line), part) {
      var pre, more := FoundBeforeHash(line, part);
    }
    if pre, more :| '#' !in pre && line == pre + (part + more) {
      FindBeforeHash(line, pre, part, more);
    }
  }

  lemma FoundBeforeHash(line: string, part: string) returns (pre: string, more: string)
    requires Contains(BeforeHash(line), part)
    ensures '#' !in pre && line == pre + (part + more)
  {
    HashSplits(line);
    ContainsIs(BeforeHash(line), part);
    var a, b :| BeforeHash(line) == a + (part + b);
    pre, more := a, b + FromHash(line);
  }

  lemma FindBeforeHash(line: string, pre: string, part: string, more: string)
    requires '#' !in pre && '#' !in part && line == pre + (part + more)
    ensures Contains(BeforeHash(line), part)
  {
    PrefixBeforeHash(pre + part, line);
    var h := BeforeHash(line);
    assert h == pre + (part + h[|pre + part|..]);
    FindsAfter(pre, part, h[|pre + part|..]);
  }

  /** set_log_max_archives finds the lines with `log_max_archives` before any hash, and rewrites those
      with `log_max_archives=` there: everything up to the first hash becomes the new setting. */
  lemma ArchivesIsPattern(value: string, line: string)
    ensures NamesArchives(line) <==> exists pre, more :: '#' !in pre && line == pre + ("log_max_archives" + more)
    ensures Overwritten(line) <==> exists pre, more :: '#' !in pre && line == pre + ("log_max_archives=" + more)
    ensures Overwritten(line) ==>
              exists head, tail :: line == head + tail && '#' !in head && (tail == "" || tail[0] == '#')
                && Sed(Archives(value), line) == "log_max_archives=" + value + tail
  {
    NoHash();
    BeforeCommentIsPattern(line, ARCHIVES);
    BeforeCommentIsPattern(line, ARCHIVES + "=");
    HashSplits(line);
    assert ARCHIVES + "=" == "log_max_archives=";
  }

  lemma NoHash()
    ensures '#' !in ARCHIVES && '#' !in ARCHIVES + "="
  {}
}
