/** Optional values. */
module Wrappers {
  datatype Option<+T> = None | Some(value: T)
}

/** The string operations the operator relies on: strings.Split, strings.Join with a
    one-character separator, decimal formatting and decimal parsing. */
module Text {
  import opened Wrappers

  // ---------------------------------------------------------------- split and join

  function Split(s: string, sep: char): (parts: seq<string>)
    ensures |parts| >= 1
    ensures forall p <- parts :: sep !in p
  {
    if s == [] then [""]
    else
      var rest := Split(s[1..], sep);
      if s[0] == sep then [""] + rest else [[s[0]] + rest[0]] + rest[1..]
  }

  function Join(parts: seq<string>, sep: char): string {
    if |parts| == 0 then ""
    else if |parts| == 1 then parts[0]
    else parts[0] + [sep] + Join(parts[1..], sep)
  }

  lemma {:induction false} JoinSplit(s: string, sep: char)
    ensures Join(Split(s, sep), sep) == s
  {
    if s != [] {
      JoinSplit(s[1..], sep);
      var rest := Split(s[1..], sep);
      if s[0] == sep {
        assert ([""] + rest)[1..] == rest;
      } else {
        var parts := [[s[0]] + rest[0]] + rest[1..];
        assert parts[1..] == rest[1..];
        assert s == [s[0]] + s[1..];
      }
    }
  }

  lemma {:induction false} SplitFree(s: string, sep: char)
    requires sep !in s
    ensures Split(s, sep) == [s]
  {
    if s != [] {
      SplitFree(s[1..], sep);
      assert [s[0]] + s[1..] == s;
    }
  }

  lemma {:induction false} SplitIsOne(s: string, sep: char)
    ensures |Split(s, sep)| == 1 <==> sep !in s
  {
    if s != "" {
      SplitIsOne(s[1..], sep);
      assert s == [s[0]] + s[1..];
    }
  }

  lemma {:induction false} SplitConcat(a: string, b: string, sep: char)
    ensures Split(a + [sep] + b, sep) == Split(a, sep) + Split(b, sep)
  {
    var s := a + [sep] + b;
    if a == [] {
      assert s[1..] == b;
    } else {
      assert s[1..] == a[1..] + [sep] + b;
      SplitConcat(a[1..], b, sep);
    }
  }

  lemma {:induction false} SplitJoin(parts: seq<string>, sep: char)
    requires |parts| >= 1
    requires forall p <- parts :: sep !in p
    ensures Split(Join(parts, sep), sep) == parts
  {
    SplitFree(parts[0], sep);
    if |parts| == 1 {
      assert parts == [parts[0]];
    } else {
      SplitJoin(parts[1..], sep);
      SplitConcat(parts[0], Join(parts[1..], sep), sep);
      assert parts == [parts[0]] + parts[1..];
    }
  }

  lemma {:induction false} JoinConcat(a: seq<string>, b: seq<string>, sep: char)
    requires a != [] && b != []
    ensures Join(a + b, sep) == Join(a, sep) + [sep] + Join(b, sep)
  {
    if |a| == 1 {
      assert (a + b)[1..] == b;
    } else {
      assert (a + b)[1..] == a[1..] + b;
      JoinConcat(a[1..], b, sep);
    }
  }

  // ---------------------------------------------------------------- decimal numbers

  predicate IsDigit(c: char) { '0' <= c <= '9' }

  predicate AllDigits(s: string) { forall i | 0 <= i < |s| :: IsDigit(s[i]) }

  function Itoa(n: nat): (s: string)
    ensures |s| > 0 && AllDigits(s)
    ensures n > 0 ==> s[0] != '0'
  {
    if n < 10 then ['0' + n as char] else Itoa(n / 10) + ['0' + (n % 10) as char]
  }

  function Value(s: string): nat
    requires AllDigits(s)
  {
    if s == [] then 0
    else 10 * Value(s[..|s| - 1]) + (s[|s| - 1] - '0') as nat
  }

  lemma {:induction false} ValueItoa(n: nat)
    ensures Value(Itoa(n)) == n
  {
    if n >= 10 {
      ValueItoa(n / 10);
      var s := Itoa(n);
      assert s[..|s| - 1] == Itoa(n / 10);
    } else {
      assert Itoa(n)[..0] == "";
    }
  }

  lemma ItoaInjective(m: nat, n: nat)
    requires Itoa(m) == Itoa(n)
    ensures m == n
  {
    ValueItoa(m);
    ValueItoa(n);
  }

  function ParseDigits(digits: string, negative: bool, lo: int, hi: int): Option<int> {
    if digits == "" || !AllDigits(digits) then None
    else
      var n := if negative then -(Value(digits) as int) else Value(digits);
      if lo <= n <= hi then Some(n) else None
  }

  /** strconv.ParseInt(s, 10, _) with the result limited to [lo, hi]: an optional sign,
      then at least one digit; anything else, or a number outside the limits, is an error. */
  function ParseInt(s: string, lo: int, hi: int): Option<int> {
    if s != "" && (s[0] == '-' || s[0] == '+') then ParseDigits(s[1..], s[0] == '-', lo, hi)
    else ParseDigits(s, false, lo, hi)
  }

  /** strconv.FormatInt(n, 10). */
  function FormatInt(n: int): string {
    if n < 0 then "-" + Itoa(-n) else Itoa(n)
  }

  lemma ParseFormat(n: int, lo: int, hi: int)
    requires lo <= n <= hi
    ensures ParseInt(FormatInt(n), lo, hi) == Some(n)
    ensures FormatInt(n) != ""
  {
    if n < 0 {
      var digits := Itoa(-n);
      ValueItoa(-n);
      var s := "-" + digits;
      assert s[0] == '-' && s[1..] == digits;
    } else {
      var digits := Itoa(n);
      ValueItoa(n);
      assert IsDigit(digits[0]);
    }
  }

  /** The text is an optional sign and at least one decimal digit, and denotes the number. */
  ghost predicate Decimal(s: string, n: int) {
    exists d :: d != "" && AllDigits(d) && ((n == Value(d) && (s == d || s == "+" + d)) || (n == -(Value(d) as int) && s == "-" + d))
  }

  /** What is parsed is exactly the decimal texts of the numbers within the limits. */
  lemma ParseIntIsDecimal(s: string, lo: int, hi: int, n: int)
    ensures ParseInt(s, lo, hi) == Some(n) <==> lo <= n <= hi && Decimal(s, n)
  {
    if ParseInt(s, lo, hi) == Some(n) {
      var d := if s[0] == '-' || s[0] == '+' then s[1..] else s;
      assert d != "" && AllDigits(d);
      assert s == d || s == "+" + d || s == "-" + d;
    }
    if Decimal(s, n) {
      var d :| d != "" && AllDigits(d)
               && ((n == Value(d) && (s == d || s == "+" + d)) || (n == -(Value(d) as int) && s == "-" + d));
      assert IsDigit(d[0]);
      assert s != d ==> s[1..] == d;
    }
  }

  lemma FormatIsDecimal(n: int)
    ensures Decimal(FormatInt(n), n)
  {
    ParseFormat(n, n, n);
    ParseIntIsDecimal(FormatInt(n), n, n, n);
  }

  lemma {:induction false} HeadOf(s: string, sep: char) returns (rest: string)
    ensures s == Split(s, sep)[0] + rest && (rest == "" || rest[0] == sep)
  {
    if s == "" || s[0] == sep {
      rest := s;
      assert Split(s, sep)[0] == "";
    } else {
      var head := Split(s[1..], sep)[0];
      rest := HeadOf(s[1..], sep);
      assert Split(s, sep)[0] == [s[0]] + head;
      assert s == [s[0]] + (head + rest);
    }
  }

  /** What comes before the first separator. */
  lemma SplitHead(s: string, sep: char, head: string)
    ensures Split(s, sep)[0] == head <==>
            sep !in head && exists rest :: s == head + rest && (rest == "" || rest[0] == sep)
  {
    var tail := HeadOf(s, sep);
    assert sep !in Split(s, sep)[0];
    if rest :| sep !in head && s == head + rest && (rest == "" || rest[0] == sep) {
      SplitFree(head, sep);
      if rest == "" {
        assert s == head;
      } else {
        assert s == head + [sep] + rest[1..];
        SplitConcat(head, rest[1..], sep);
      }
    }
  }
}
