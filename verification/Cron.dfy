/** The two validators of a backup schedule: the admission webhook (api/v1/backupdb_webhook.go) and
    the controller's regular expression (internal/controller/backupdb_controller.go). */
module Cron {
  import opened Wrappers
  import opened Text

  // ---------------------------------------------------------------- fields of a schedule

  /** unicode.IsSpace */
  predicate IsSpace(c: char) {
    || c == ' ' || '\t' <= c <= '\r' || c == '\U{85}' || c == '\U{A0}' || c == '\U{1680}'
    || '\U{2000}' <= c <= '\U{200A}' || c == '\U{2028}' || c == '\U{2029}' || c == '\U{202F}'
    || c == '\U{205F}' || c == '\U{3000}'
  }

  /** The longest prefix without white space. */
  function Word(s: string): (w: string)
    ensures w <= s
  {
    if s == "" || IsSpace(s[0]) then "" else [s[0]] + Word(s[1..])
  }

  /** strings.Fields */
  function Fields(s: string): seq<string>
    decreases |s|
  {
    if s == "" then []
    else if IsSpace(s[0]) then Fields(s[1..])
    else [Word(s)] + Fields(s[|Word(s)|..])
  }

  // ---------------------------------------------------------------- the webhook

  const FIELD_COUNT := 5

  const LOW := [0, 0, 1, 1, 0]
  const HIGH := [59, 23, 31, 12, 6]
  const STEP_HIGH := [59, 23, 31, 12, 6]

  predicate IsValidStepValue(step: int, i: nat) { i < FIELD_COUNT && 1 <= step <= STEP_HIGH[i] }

  predicate IsValidRangeValue(start: int, end: int, i: nat) {
    start <= end && i < FIELD_COUNT && LOW[i] <= start && end <= HIGH[i]
  }

  predicate IsValidSingleValue(value: int, i: nat) { i < FIELD_COUNT && LOW[i] <= value <= HIGH[i] }

  /** strconv.Atoi on a 64-bit platform. */
  function Atoi(s: string): Option<int> { ParseInt(s, -0x8000_0000_0000_0000, 0x7FFF_FFFF_FFFF_FFFF) }

  predicate IsValidCronField(field: string, i: nat) {
    if field == "*" then true
    else if '/' in field then
      var parts := Split(field, '/');
      |parts| == 2 && parts[0] == "*" && Atoi(parts[1]).Some? && IsValidStepValue(Atoi(parts[1]).value, i)
    else if '-' in field then
      var parts := Split(field, '-');
      && |parts| == 2 && Atoi(parts[0]).Some? && Atoi(parts[1]).Some?
      && IsValidRangeValue(Atoi(parts[0]).value, Atoi(parts[1]).value, i)
    else if ',' in field then
      forall part <- Split(field, ',') ::
        part == "*" || (Atoi(part).Some? && IsValidSingleValue(Atoi(part).value, i))
    else
      Atoi(field).Some? && IsValidSingleValue(Atoi(field).value, i)
  }

  predicate IsValidCronSchedule(schedule: string) {
    var fields := Fields(schedule);
    |fields| == FIELD_COUNT && forall i | 0 <= i < FIELD_COUNT :: IsValidCronField(fields[i], i)
  }

  // ---------------------------------------------------------------- the webhook's language

  lemma TwoParts(s: string, sep: char, a: string, b: string)
    ensures Split(s, sep) == [a, b] <==> sep !in a && sep !in b && s == a + [sep] + b
  {
    if Split(s, sep) == [a, b] {
      JoinSplit(s, sep);
      assert [a, b][1..] == [b] && a in Split(s, sep) && b in Split(s, sep);
      assert s == Join([a, b], sep);
    }
    if sep !in a && sep !in b && s == a + [sep] + b {
      SplitFree(a, sep);
      SplitFree(b, sep);
      SplitConcat(a, b, sep);
    }
  }

  /** The number of the text lies in the field's range: minutes 0-59, hours 0-23, days 1-31, months 1-12,
      weekdays 0-6. */
  ghost predicate InRange(text: string, i: nat) {
    i < 5 && exists v: int :: Decimal(text, v) && [0, 0, 1, 1, 0][i] <= v <= [59, 23, 31, 12, 6][i]
  }

  /** A step behind a star. */
  ghost predicate StepText(f: string, i: nat) {
    i < 5 && exists n, v: int :: '/' !in n && f == "*/" + n && Decimal(n, v) && 1 <= v <= [59, 23, 31, 12, 6][i]
  }

  /** Two numbers in order, inside the range, around one dash. */
  ghost predicate RangeText(f: string, i: nat) {
    i < 5 && exists a, b, x: int, y: int ::
      && '-' !in a && '-' !in b && f == a + "-" + b && Decimal(a, x) && Decimal(b, y)
      && [0, 0, 1, 1, 0][i] <= x <= y <= [59, 23, 31, 12, 6][i]
  }

  /** Two or more parts around commas, each a star or a number in the range. */
  ghost predicate ListText(f: string, i: nat) {
    exists parts :: && |parts| >= 2 && (forall part <- parts :: ',' !in part) && f == Join(parts, ',')
                    && forall part <- parts :: part == "*" || InRange(part, i)
  }

  lemma AtoiInRange(text: string, i: nat)
    requires i < FIELD_COUNT
    ensures InRange(text, i) <==> Atoi(text).Some? && IsValidSingleValue(Atoi(text).value, i)
  {
    forall v: int | -0x8000_0000_0000_0000 <= v <= 0x7FFF_FFFF_FFFF_FFFF ensures Atoi(text) == Some(v) <==> Decimal(text, v) {
      ParseIntIsDecimal(text, -0x8000_0000_0000_0000, 0x7FFF_FFFF_FFFF_FFFF, v);
    }
    if Atoi(text).Some? {
      ParseIntIsDecimal(text, -0x8000_0000_0000_0000, 0x7FFF_FFFF_FFFF_FFFF, Atoi(text).value);
    }
  }

  lemma AtoiIsDecimal(text: string, v: int)
    requires 0 <= v <= 59
    ensures Atoi(text) == Some(v) <==> Decimal(text, v)
  {
    ParseIntIsDecimal(text, -0x8000_0000_0000_0000, 0x7FFF_FFFF_FFFF_FFFF, v);
  }

  lemma StepIsText(f: string, i: nat)
    requires i < FIELD_COUNT && '/' in f
    ensures IsValidCronField(f, i) <==> StepText(f, i)
  {
    if IsValidCronField(f, i) {
      var parts := Split(f, '/');
      assert parts == ["*", parts[1]];
      TwoParts(f, '/', "*", parts[1]);
      AtoiIsDecimal(parts[1], Atoi(parts[1]).value);
      assert f == "*/" + parts[1];
    }
    if StepText(f, i) {
      var n, v: int :| '/' !in n && f == "*/" + n && Decimal(n, v) && 1 <= v <= [59, 23, 31, 12, 6][i];
      assert f == "*" + ['/'] + n;
      TwoParts(f, '/', "*", n);
      AtoiIsDecimal(n, v);
    }
  }

  lemma RangeIsText(f: string, i: nat)
    requires i < FIELD_COUNT && '/' !in f && '-' in f
    ensures IsValidCronField(f, i) <==> RangeText(f, i)
  {
    if IsValidCronField(f, i) {
      FieldIsRange(f, i);
    }
    if RangeText(f, i) {
      var a, b, x: int, y: int :|
        && '-' !in a && '-' !in b && f == a + "-" + b && Decimal(a, x) && Decimal(b, y)
        && [0, 0, 1, 1, 0][i] <= x <= y <= [59, 23, 31, 12, 6][i];
      RangeIsField(f, i, a, b, x, y);
    }
  }

  lemma FieldIsRange(f: string, i: nat)
    requires i < FIELD_COUNT && '/' !in f && '-' in f && IsValidCronField(f, i)
    ensures RangeText(f, i)
  {
    var parts := Split(f, '-');
    var a, b := parts[0], parts[1];
    assert parts == [a, b];
    TwoParts(f, '-', a, b);
    AtoiIsDecimal(a, Atoi(a).value);
    AtoiIsDecimal(b, Atoi(b).value);
    assert f == a + "-" + b;
  }

  lemma RangeIsField(f: string, i: nat, a: string, b: string, x: int, y: int)
    requires i < FIELD_COUNT && '/' !in f && '-' !in a && '-' !in b && f == a + "-" + b
    requires Decimal(a, x) && Decimal(b, y) && [0, 0, 1, 1, 0][i] <= x <= y <= [59, 23, 31, 12, 6][i]
    ensures IsValidCronField(f, i)
  {
    assert f == a + ['-'] + b && f[|a|] == '-' && (|f| == 1 ==> |a| == 0);
    TwoParts(f, '-', a, b);
    AtoiIsDecimal(a, x);
    AtoiIsDecimal(b, y);
  }

  lemma ListIsText(f: string, i: nat)
    requires i < FIELD_COUNT && '/' !in f && '-' !in f && ',' in f
    ensures IsValidCronField(f, i) <==> ListText(f, i)
  {
    var parts := Split(f, ',');
    JoinSplit(f, ',');
    forall part <- parts ensures InRange(part, i) <==> Atoi(part).Some? && IsValidSingleValue(Atoi(part).value, i) {
      AtoiInRange(part, i);
    }
    SplitIsOne(f, ',');
    if ListText(f, i) {
      var q :| && |q| >= 2 && (forall part <- q :: ',' !in part) && f == Join(q, ',')
               && forall part <- q :: part == "*" || InRange(part, i);
      SplitJoin(q, ',');
    }
  }

  /** A star, a star with a step, a range, a list, or one number. */
  ghost predicate FieldText(f: string, i: nat) {
    if f == "*" then true
    else if '/' in f then StepText(f, i)
    else if '-' in f then RangeText(f, i)
    else if ',' in f then ListText(f, i)
    else InRange(f, i)
  }

  /** The fields that the webhook admits. */
  lemma WebhookLanguage(f: string, i: nat)
    requires i < FIELD_COUNT
    ensures IsValidCronField(f, i) <==> FieldText(f, i)
  {
    if f != "*" {
      if '/' in f {
        StepIsText(f, i);
      } else if '-' in f {
        RangeIsText(f, i);
      } else if ',' in f {
        ListIsText(f, i);
      } else {
        AtoiInRange(f, i);
      }
    }
  }

  // ---------------------------------------------------------------- the controller

  predicate IsNumber(s: string) { s != "" && AllDigits(s) }

  predicate IsStep(s: string) { |s| > 2 && s[0] == '*' && s[1] == '/' && AllDigits(s[2..]) }

  /** `\*|(\d+|(\*\/\d+))` */
  predicate Token(s: string) { s == "*" || IsNumber(s) || IsStep(s) }

  /** The regular expression: five tokens with one space between them. */
  ghost predicate MatchesRegex(expr: string) {
    exists tokens :: |tokens| == FIELD_COUNT && (forall t <- tokens :: Token(t)) && expr == Join(tokens, ' ')
  }

  predicate IsValidCronExpression(expr: string) {
    var parts := Split(expr, ' ');
    |parts| == FIELD_COUNT && forall t <- parts :: Token(t)
  }

  lemma TokenHasNoSpace(t: string)
    requires Token(t)
    ensures t != "" && forall i | 0 <= i < |t| :: !IsSpace(t[i])
  {
    if IsStep(t) {
      forall i | 0 <= i < |t| ensures !IsSpace(t[i]) {
        if i >= 2 {
          assert t[i] == t[2..][i - 2];
        }
      }
    }
  }

  lemma ExpressionIsRegex(expr: string)
    ensures IsValidCronExpression(expr) <==> MatchesRegex(expr)
  {
    JoinSplit(expr, ' ');
    if MatchesRegex(expr) {
      var tokens :| |tokens| == FIELD_COUNT && (forall t <- tokens :: Token(t)) && expr == Join(tokens, ' ');
      forall t <- tokens ensures ' ' !in t {
        TokenHasNoSpace(t);
      }
      SplitJoin(tokens, ' ');
    }
  }

  // ---------------------------------------------------------------- the joint language

  /** A field of the joint language: `*`, a number in the field's range, or `*` with a step in the
      field's step range. */
  predicate StandardField(s: string, i: nat)
    requires i < FIELD_COUNT
  {
    || s == "*"
    || (IsNumber(s) && LOW[i] <= Value(s) <= HIGH[i])
    || (IsStep(s) && 1 <= Value(s[2..]) <= STEP_HIGH[i])
  }

  ghost predicate Standard(schedule: string) {
    exists fields :: && |fields| == FIELD_COUNT && schedule == Join(fields, ' ')
                     && forall i | 0 <= i < FIELD_COUNT :: StandardField(fields[i], i)
  }

  lemma {:induction false} WordOfFree(w: string, tail: string)
    requires (forall i | 0 <= i < |w| :: !IsSpace(w[i])) && (tail == "" || IsSpace(tail[0]))
    ensures Word(w + tail) == w
  {
    if w == "" {
      assert w + tail == tail;
    } else {
      assert (w + tail)[1..] == w[1..] + tail;
      WordOfFree(w[1..], tail);
    }
  }

  lemma FieldsOfMore(first: string, tail: string)
    requires first != "" && (forall i | 0 <= i < |first| :: !IsSpace(first[i])) && (tail == "" || tail[0] == ' ')
    ensures Fields(first + tail) == [first] + if tail == "" then [] else Fields(tail[1..])
  {
    var s := first + tail;
    assert s[0] == first[0];
    WordOfFree(first, tail);
    assert s[|first|..] == tail;
  }

  lemma {:induction false} FieldsOfJoin(parts: seq<string>)
    requires forall p <- parts :: p != "" && forall i | 0 <= i < |p| :: !IsSpace(p[i])
    ensures Fields(Join(parts, ' ')) == parts
  {
    if parts != [] {
      var first, rest := parts[0], parts[1..];
      assert first in parts && forall p <- rest :: p in parts;
      var tail := if rest == [] then "" else " " + Join(rest, ' ');
      assert Join(parts, ' ') == first + tail;
      FieldsOfMore(first, tail);
      FieldsOfJoin(rest);
      if rest != [] {
        assert tail[1..] == Join(rest, ' ');
      }
    }
  }

  lemma NumberParses(s: string)
    requires IsNumber(s)
    ensures Atoi(s) == if Value(s) <= 0x7FFF_FFFF_FFFF_FFFF then Some(Value(s)) else None
  {
    assert IsDigit(s[0]);
  }

  lemma NumberIsPlain(s: string)
    requires IsNumber(s)
    ensures '/' !in s && '-' !in s && ',' !in s && s != "*"
  {
    assert IsDigit(s[0]);
  }

  /** Words with single spaces between them are admitted exactly when they are five fields. */
  lemma WebhookSchedules(words: seq<string>)
    requires forall w <- words :: w != "" && forall i | 0 <= i < |w| :: !IsSpace(w[i])
    ensures IsValidCronSchedule(Join(words, ' ')) <==> |words| == 5 && forall i | 0 <= i < 5 :: FieldText(words[i], i)
  {
    SchedulesByField(words);
    if |words| == 5 {
      FieldsByText(words);
    }
  }

  lemma SchedulesByField(words: seq<string>)
    requires forall w <- words :: w != "" && forall i | 0 <= i < |w| :: !IsSpace(w[i])
    ensures IsValidCronSchedule(Join(words, ' ')) <==> |words| == 5 && forall i | 0 <= i < 5 :: IsValidCronField(words[i], i)
  {
    FieldsOfJoin(words);
  }

  lemma FieldsByText(words: seq<string>)
    requires |words| == 5
    ensures (forall i | 0 <= i < 5 :: IsValidCronField(words[i], i)) <==> forall i | 0 <= i < 5 :: FieldText(words[i], i)
  {
    forall i, f: string | i == 0 || i == 1 || i == 2 || i == 3 || i == 4 ensures IsValidCronField(f, i) <==> FieldText(f, i) {
      WebhookLanguage(f, i);
    }
  }

  /** The webhook takes any run of white space for one gap, also at the ends. */
  lemma {:induction false} SpaceSeparates(a: string, c: char, b: string)
    requires c in " \t\n\r"
    ensures Fields(a + [c] + b) == Fields(a) + Fields(b)
    decreases |a|
  {
    var s := a + [c] + b;
    if a == "" {
      assert s[0] == c && s[1..] == b;
    } else if IsSpace(a[0]) {
      assert s[1..] == a[1..] + [c] + b;
      SpaceSeparates(a[1..], c, b);
    } else {
      var w := Word(a);
      WordStops(a, [c] + b);
      assert s == a + ([c] + b);
      assert s[|w|..] == a[|w|..] + [c] + b;
      SpaceSeparates(a[|w|..], c, b);
    }
  }

  lemma {:induction false} WordStops(a: string, tail: string)
    requires tail != "" && IsSpace(tail[0])
    ensures Word(a + tail) == Word(a)
  {
    if a == "" {
      assert a + tail == tail;
    } else {
      assert (a + tail)[1..] == a[1..] + tail;
      WordStops(a[1..], tail);
    }
  }

  /** On the controller's tokens the webhook checks exactly the ranges. */
  lemma TokenFieldIsStandard(t: string, i: nat)
    requires Token(t) && i < FIELD_COUNT
    ensures IsValidCronField(t, i) <==> StandardField(t, i)
  {
    if IsNumber(t) {
      NumberIsPlain(t);
      NumberParses(t);
    } else if IsStep(t) {
      StepParts(t);
      NumberParses(t[2..]);
    }
  }

  lemma StepParts(t: string)
    requires IsStep(t)
    ensures '/' in t && t != "*" && Split(t, '/') == ["*", t[2..]] && IsNumber(t[2..])
  {
    var d := t[2..];
    NumberIsPlain(d);
    assert t == "*" + ['/'] + d && t[1] == '/';
    SplitFree("*", '/');
    SplitFree(d, '/');
    SplitConcat("*", d, '/');
  }

  /** Both validators accept a schedule exactly when it is five standard fields with single spaces
      between them. */
  lemma JointLanguage(schedule: string)
    ensures IsValidCronSchedule(schedule) && IsValidCronExpression(schedule) <==> Standard(schedule)
  {
    if Standard(schedule) {
      StandardIsExpression(schedule);
    }
    if IsValidCronExpression(schedule) {
      ExpressionFields(schedule);
      assert IsValidCronSchedule(schedule) <==>
             forall i | 0 <= i < FIELD_COUNT :: StandardField(Split(schedule, ' ')[i], i);
    }
  }

  /** The webhook's fields of an expression are its tokens, and it checks the ranges. */
  lemma ExpressionFields(expr: string)
    requires IsValidCronExpression(expr)
    ensures var parts := Split(expr, ' ');
            && Fields(expr) == parts && expr == Join(parts, ' ')
            && forall i | 0 <= i < FIELD_COUNT :: IsValidCronField(parts[i], i) <==> StandardField(parts[i], i)
  {
    var parts := Split(expr, ' ');
    JoinSplit(expr, ' ');
    forall t <- parts ensures t != "" && forall i | 0 <= i < |t| :: !IsSpace(t[i]) {
      TokenHasNoSpace(t);
    }
    FieldsOfJoin(parts);
    forall i | 0 <= i < FIELD_COUNT ensures IsValidCronField(parts[i], i) <==> StandardField(parts[i], i) {
      TokenFieldIsStandard(parts[i], i);
    }
  }

  lemma StandardIsExpression(schedule: string)
    requires Standard(schedule)
    ensures IsValidCronExpression(schedule)
    ensures forall i | 0 <= i < FIELD_COUNT :: StandardField(Split(schedule, ' ')[i], i)
  {
    var fields :| && |fields| == FIELD_COUNT && schedule == Join(fields, ' ')
                  && forall i | 0 <= i < FIELD_COUNT :: StandardField(fields[i], i);
    forall t <- fields ensures Token(t) && ' ' !in t {
      var i :| 0 <= i < FIELD_COUNT && fields[i] == t;
      TokenHasNoSpace(t);
    }
    SplitJoin(fields, ' ');
  }

  /** The field selects the time v of its range. */
  predicate Selects(s: string, i: nat, v: int)
    requires i < FIELD_COUNT && StandardField(s, i)
  {
    || s == "*"
    || (IsNumber(s) && v == Value(s))
    || (IsStep(s) && (v - LOW[i]) % Value(s[2..]) == 0)
  }

  ghost function Denotes(s: string, i: nat): set<int>
    requires i < FIELD_COUNT && StandardField(s, i)
  {
    set v | LOW[i] <= v <= HIGH[i] && Selects(s, i, v)
  }

  /** A standard field selects at least one time, and only times of its range. */
  lemma DenotesTimes(s: string, i: nat)
    requires i < FIELD_COUNT && StandardField(s, i)
    ensures Denotes(s, i) != {} && forall v <- Denotes(s, i) :: LOW[i] <= v <= HIGH[i]
  {
    var v := if IsNumber(s) then Value(s) else LOW[i];
    assert LOW[i] <= v <= HIGH[i];
    assert Selects(s, i, v) by {
      assert IsNumber(s) || s == "*" || IsStep(s);
    }
    assert v in Denotes(s, i);
  }

  // ---------------------------------------------------------------- where the validators differ

  /** A range such as 1-5 is admitted and then refused by the controller at every reconcile. */
  lemma RangeIsAdmittedButRefused(a: string, b: string, i: nat)
    requires IsNumber(a) && IsNumber(b) && i < FIELD_COUNT && LOW[i] <= Value(a) <= Value(b) <= HIGH[i]
    ensures IsValidCronField(a + "-" + b, i) && !Token(a + "-" + b)
  {
    RangeParts(a, b);
    NumberParses(a);
    NumberParses(b);
  }

  lemma RangeParts(a: string, b: string)
    requires IsNumber(a) && IsNumber(b)
    ensures var field := a + "-" + b;
            && field != "*" && '/' !in field && '-' in field && !Token(field)
            && Split(field, '-') == [a, b]
  {
    var field := a + "-" + b;
    assert field[|a|] == '-' && field[0] == a[0] && IsDigit(field[0]);
    NumberIsPlain(a);
    NumberIsPlain(b);
    SplitFree(a, '-');
    SplitFree(b, '-');
    SplitConcat(a, b, '-');
  }

  /** Hence a schedule with a range in one field, and standard fields otherwise, is admitted and
      refused. */
  lemma RangeScheduleIsRefused(fields: seq<string>, a: string, b: string, i: nat)
    requires |fields| == FIELD_COUNT && forall j | 0 <= j < FIELD_COUNT :: StandardField(fields[j], j)
    requires IsNumber(a) && IsNumber(b) && i < FIELD_COUNT && LOW[i] <= Value(a) <= Value(b) <= HIGH[i]
    ensures var schedule := Join(fields[i := a + "-" + b], ' ');
            IsValidCronSchedule(schedule) && !IsValidCronExpression(schedule)
  {
    var parts := fields[i := a + "-" + b];
    RangeIsAdmittedButRefused(a, b, i);
    forall j | 0 <= j < FIELD_COUNT
      ensures parts[j] != "" && (forall k | 0 <= k < |parts[j]| :: !IsSpace(parts[j][k])) && IsValidCronField(parts[j], j)
    {
      if j == i {
        RangeHasNoSpace(a, b);
      } else {
        TokenHasNoSpace(fields[j]);
        TokenFieldIsStandard(fields[j], j);
      }
    }
    assert forall part <- parts :: part != "" && forall k | 0 <= k < |part| :: !IsSpace(part[k]);
    FieldsOfJoin(parts);
    assert forall part <- parts :: ' ' !in part;
    SplitJoin(parts, ' ');
    assert parts[i] in parts;
  }

  lemma RangeHasNoSpace(a: string, b: string)
    requires IsNumber(a) && IsNumber(b)
    ensures var r := a + "-" + b; r != "" && forall k | 0 <= k < |r| :: !IsSpace(r[k])
  {
    var r := a + "-" + b;
    forall k | 0 <= k < |r| ensures !IsSpace(r[k]) {
      if k < |a| {
        assert IsDigit(a[k]) && r[k] == a[k];
      } else if k > |a| {
        assert IsDigit(b[k - |a| - 1]) && r[k] == b[k - |a| - 1];
      }
    }
  }

  /** A backup at two on every weekday, 0 2 * * 1-5, is such a schedule. */
  lemma WeekdaysAreRefused()
    ensures var schedule := Join(["0", "2", "*", "*", "1-5"], ' ');
            IsValidCronSchedule(schedule) && !IsValidCronExpression(schedule)
  {
    var fields := ["0", "2", "*", "*", "*"];
    assert Value("0"[..0]) == 0 && Value("0") == 0 && Value("2") == 2 && Value("1") == 1 && Value("5") == 5;
    RangeScheduleIsRefused(fields, "1", "5", 4);
    assert "1" + "-" + "5" == "1-5";
    assert fields[4 := "1-5"] == ["0", "2", "*", "*", "1-5"];
  }

  /** A number beyond the field's range matches the controller's expression and is not admitted. */
  lemma LargeNumberIsNotAdmitted(a: string, i: nat)
    requires IsNumber(a) && i < FIELD_COUNT && Value(a) > HIGH[i]
    ensures Token(a) && !IsValidCronField(a, i)
  {
    NumberIsPlain(a);
    NumberParses(a);
  }
}
