/** The pseudo-constructor text the charting library reads for dates:
    `"Date(y, m, d)"` and `"Date(y, m, d, H, M, S)"`, where the month counts
    from zero (the encoder's `tt[1] -= 1`).  Integers are written in decimal
    as `str.format` writes a non-negative int; a parser for that text is the
    inverse used to show that the encoding loses nothing. */
module DateFormat {
  import opened Python

  function DigitChar(d: nat): (c: char)
    requires d < 10
    ensures '0' <= c <= '9' && (c as int) - ('0' as int) == d
  {
    (('0' as int) + d) as char
  }

  predicate IsDigit(c: char) { '0' <= c <= '9' }

  predicate AllDigits(s: string) { forall i :: 0 <= i < |s| ==> IsDigit(s[i]) }

  function DigitOf(c: char): (d: nat)
    requires IsDigit(c)
    ensures d < 10 && DigitChar(d) == c
  {
    (c as int) - ('0' as int)
  }

  /** `"{0}".format(n)` for a non-negative int. */
  function Decimal(n: nat): (s: string)
    ensures |s| >= 1 && AllDigits(s)
    decreases n
  {
    if n < 10 then [DigitChar(n)] else Decimal(n / 10) + [DigitChar(n % 10)]
  }

  /** The number a string of digits denotes. */
  function DigitsValue(s: string): nat
    requires AllDigits(s)
    decreases |s|
  {
    if s == [] then 0
    else DigitsValue(s[..|s| - 1]) * 10 + DigitOf(s[|s| - 1])
  }

  /** Reading back the decimal text of `n` gives `n`. */
  lemma {:induction false} DecimalValue(n: nat)
    ensures DigitsValue(Decimal(n)) == n
    decreases n
  {
    if n >= 10 {
      DecimalValue(n / 10);
      var s := Decimal(n);
      assert s[..|s| - 1] == Decimal(n / 10);
    }
  }

  /** The length of the run of digits that starts `s`. */
  function DigitRun(s: string): (k: nat)
    ensures k <= |s| && forall i :: 0 <= i < k ==> IsDigit(s[i])
    ensures k < |s| ==> !IsDigit(s[k])
    decreases |s|
  {
    if s == [] || !IsDigit(s[0]) then 0 else 1 + DigitRun(s[1..])
  }

  /** The digit run of a decimal followed by a non-digit is that decimal. */
  lemma {:induction false} DigitRunOfDecimal(d: string, t: string)
    requires AllDigits(d)
    requires t == [] || !IsDigit(t[0])
    ensures DigitRun(d + t) == |d|
    decreases |d|
  {
    if d != [] {
      assert (d + t)[1..] == d[1..] + t;
      DigitRunOfDecimal(d[1..], t);
    } else {
      assert d + t == t;
    }
  }

  /** The argument list `"a, b, c"` of the pseudo-constructor. */
  function JoinArgs(ns: seq<nat>): string
    requires |ns| >= 1
    decreases |ns|
  {
    if |ns| == 1 then Decimal(ns[0]) else Decimal(ns[0]) + ", " + JoinArgs(ns[1..])
  }

  /** A digit run as `str.format` writes it: a single digit, or no leading
      zero. */
  predicate Canonical(d: string) { |d| == 1 || (|d| > 1 && d[0] != '0') }

  /** The decimal text of a positive number does not start with `0`. */
  lemma {:induction false} DecimalLeadsNonZero(n: nat)
    requires n >= 1
    ensures Decimal(n)[0] != '0'
    decreases n
  {
    if n >= 10 {
      DecimalLeadsNonZero(n / 10);
      assert Decimal(n)[0] == Decimal(n / 10)[0];
    }
  }

  /** Every decimal text is canonical: one digit, or no leading zero. */
  lemma DecimalCanonical(n: nat)
    ensures Canonical(Decimal(n))
  {
    if n >= 10 {
      DecimalLeadsNonZero(n);
    }
  }

  /** A digit text led by a non-zero digit denotes a positive number. */
  lemma {:induction false} LeadingDigitPositive(d: string)
    requires AllDigits(d) && |d| >= 1 && d[0] != '0'
    ensures DigitsValue(d) >= 1
    decreases |d|
  {
    if |d| > 1 {
      LeadingDigitPositive(d[..|d| - 1]);
    }
  }

  /** A canonical digit text is the decimal text of the number it denotes:
      `Decimal` and `DigitsValue` are inverse on canonical texts. */
  lemma {:induction false} CanonicalIsDecimal(d: string)
    requires AllDigits(d) && Canonical(d)
    ensures Decimal(DigitsValue(d)) == d
    decreases |d|
  {
    var p := d[..|d| - 1];
    if |d| == 1 {
      assert p == [];
      assert [d[0]] == d;
    } else {
      LeadingDigitPositive(p);
      CanonicalIsDecimal(p);
      var n := DigitsValue(d);
      assert n / 10 == DigitsValue(p) && n % 10 == DigitOf(d[|d| - 1]);
      assert p + [d[|d| - 1]] == d;
    }
  }

  /** Reads `"a, b, c)"`: decimal numbers without leading zeros, separated by
      `", "` and closed by `)`; None for any other text. */
  function ParseArgs(s: string): (r: Option<seq<nat>>)
    ensures r.Some? ==> |r.value| >= 1
    decreases |s|
  {
    var k := DigitRun(s);
    if k == 0 || !Canonical(s[..k]) then None
    else
      var n := DigitsValue(s[..k]);
      var rest := s[k..];
      if rest == ")" then Some([n])
      else if |rest| >= 2 && rest[..2] == ", " then
        match ParseArgs(rest[2..])
        case Some(ns) => Some([n] + ns)
        case None => None
      else None
  }

  /** The first number of an argument list is read as the decimal that
      starts it, and parsing resumes after it. */
  lemma ParseArgsHead(n: nat, tail: string)
    requires tail == [] || !IsDigit(tail[0])
    ensures var s := Decimal(n) + tail;
      && DigitRun(s) == |Decimal(n)| && s[..|Decimal(n)|] == Decimal(n) && Canonical(Decimal(n))
      && DigitsValue(Decimal(n)) == n && s[|Decimal(n)|..] == tail
  {
    var d := Decimal(n);
    var s := d + tail;
    DigitRunOfDecimal(d, tail);
    assert s[..|d|] == d;
    DecimalValue(n);
    DecimalCanonical(n);
  }

  /** A decimal closed by `)` is the list of that one number. */
  lemma ParseArgsLast(n: nat)
    ensures ParseArgs(Decimal(n) + ")") == Some([n])
  {
    ParseArgsHead(n, ")");
  }

  /** A decimal followed by a separator is that number in front of what the
      rest reads as. */
  lemma ParseArgsSep(n: nat, rest: string)
    ensures ParseArgs(Decimal(n) + (", " + rest))
         == if ParseArgs(rest).Some? then Some([n] + ParseArgs(rest).value) else None
  {
    Separator(rest);
    ParseArgsHead(n, ", " + rest);
  }

  /** A separator in front of the rest of a list is read off as such. */
  lemma Separator(rest: string)
    ensures var t := ", " + rest;
      !IsDigit(t[0]) && t != ")" && |t| >= 2 && t[..2] == ", " && t[2..] == rest
  {
  }

  /** A list of two or more arguments is its first decimal, then a separator
      and the rest. */
  lemma JoinArgsSplit(ns: seq<nat>)
    requires |ns| >= 2
    ensures JoinArgs(ns) + ")" == Decimal(ns[0]) + (", " + (JoinArgs(ns[1..]) + ")"))
  {
    Regroup(Decimal(ns[0]), ", ", JoinArgs(ns[1..]), ")");
  }

  lemma Regroup<T>(a: seq<T>, b: seq<T>, c: seq<T>, d: seq<T>)
    ensures a + b + c + d == a + (b + (c + d))
  {
  }

  /** Reading back a joined argument list gives the arguments. */
  lemma {:induction false} ParseJoinArgs(ns: seq<nat>)
    requires |ns| >= 1
    ensures ParseArgs(JoinArgs(ns) + ")") == Some(ns)
    decreases |ns|
  {
    if |ns| == 1 {
      ParseArgsLast(ns[0]);
      assert [ns[0]] == ns;
    } else {
      ParseJoinArgs(ns[1..]);
      JoinArgsSplit(ns);
      ParseArgsSep(ns[0], JoinArgs(ns[1..]) + ")");
      assert [ns[0]] + ns[1..] == ns;
    }
  }

  /** The pseudo-constructor call around an argument list. */
  function Call(ns: seq<nat>): string
    requires |ns| >= 1
  {
    "Date(" + JoinArgs(ns) + ")"
  }

  /** Reads `"Date(...)"`. */
  function ParseCall(s: string): Option<seq<nat>> {
    if |s| >= 5 && s[..5] == "Date(" then ParseArgs(s[5..]) else None
  }

  /** `ParseCall` inverts `Call`. */
  lemma CallRoundTrip(ns: seq<nat>)
    requires |ns| >= 1
    ensures ParseCall(Call(ns)) == Some(ns)
  {
    var s := Call(ns);
    assert s[..5] == "Date(";
    assert s[5..] == JoinArgs(ns) + ")";
    ParseJoinArgs(ns);
  }

  /** Whatever `ParseArgs` reads is a joined argument list: the parser
      accepts no text other than the ones `JoinArgs` writes. */
  lemma {:induction false} ParseArgsInverse(s: string)
    requires ParseArgs(s).Some?
    ensures s == JoinArgs(ParseArgs(s).value) + ")"
    decreases |s|
  {
    var k := DigitRun(s);
    ParseArgsSplit(s);
    if s[k..] != ")" {
      var tail := s[k..][2..];
      ParseArgsInverse(tail);
      InverseStep(s, k, ParseArgs(tail).value);
    } else {
      assert s == s[..k] + s[k..];
    }
  }

  /** One step of `ParseArgsInverse`: a decimal, a separator and a joined
      list closed by `)` make the longer joined list closed by `)`. */
  lemma InverseStep(s: string, k: nat, ns: seq<nat>)
    requires k <= |s| && AllDigits(s[..k]) && Decimal(DigitsValue(s[..k])) == s[..k]
    requires |s[k..]| >= 2 && s[k..][..2] == ", "
    requires |ns| >= 1 && s[k..][2..] == JoinArgs(ns) + ")"
    ensures s == JoinArgs([DigitsValue(s[..k])] + ns) + ")"
  {
    var d := s[..k];
    var rest := s[k..];
    var tail := rest[2..];
    assert rest == rest[..2] + tail;
    assert s == d + rest;
    JoinArgsCons(DigitsValue(d), ns);
    Regroup(d, ", ", JoinArgs(ns), ")");
  }

  /** What a successful `ParseArgs` consumed: a canonical decimal, then
      either the closing `)` or a separator and a list read the same way. */
  lemma ParseArgsSplit(s: string)
    requires ParseArgs(s).Some?
    ensures var k := DigitRun(s);
      && 0 < k && Canonical(s[..k]) && Decimal(DigitsValue(s[..k])) == s[..k]
      && (if s[k..] == ")" then ParseArgs(s).value == [DigitsValue(s[..k])]
          else |s[k..]| >= 2 && s[k..][..2] == ", " && ParseArgs(s[k..][2..]).Some?
               && ParseArgs(s).value == [DigitsValue(s[..k])] + ParseArgs(s[k..][2..]).value)
  {
    CanonicalIsDecimal(s[..DigitRun(s)]);
  }

  /** A text reads as a pseudo-constructor call exactly when it is the call
      written for that non-empty argument list. */
  lemma ParseCallExact(s: string, ns: seq<nat>)
    ensures ParseCall(s) == Some(ns) <==> |ns| >= 1 && s == Call(ns)
  {
    if ParseCall(s) == Some(ns) {
      ParseArgsInverse(s[5..]);
      assert s == s[..5] + s[5..];
    }
    if |ns| >= 1 && s == Call(ns) {
      CallRoundTrip(ns);
    }
  }

  /** `"Date({0}, {1}, {2})".format(*tt)` with the month shifted. */
  function FormatDate(d: DateRec): string {
    Call([d.year as nat, (d.month - 1) as nat, d.day as nat])
  }

  /** `"Date({0}, {1}, {2}, {3}, {4}, {5})".format(*tt)` with the month
      shifted. */
  function FormatDateTime(t: DateTimeRec): string {
    Call([t.year as nat, (t.month - 1) as nat, t.day as nat, t.hour as nat, t.minute as nat, t.second as nat])
  }

  /** A date's text reads back as its year, its month less one and its
      day. */
  lemma DateRoundTrip(d: DateRec)
    ensures ParseCall(FormatDate(d)) == Some([d.year as nat, (d.month - 1) as nat, d.day as nat])
  {
    CallRoundTrip([d.year as nat, (d.month - 1) as nat, d.day as nat]);
  }

  /** A datetime's text reads back as its six fields, of which only the
      month is changed (less one). */
  lemma DateTimeRoundTrip(t: DateTimeRec)
    ensures ParseCall(FormatDateTime(t)) == Some([t.year as nat, (t.month - 1) as nat, t.day as nat,
                                                  t.hour as nat, t.minute as nat, t.second as nat])
  {
    CallRoundTrip([t.year as nat, (t.month - 1) as nat, t.day as nat, t.hour as nat, t.minute as nat, t.second as nat]);
  }

  /** Distinct dates get distinct texts, and a date's text is never a
      datetime's (three arguments against six). */
  lemma FormatsInjective(d: DateRec, d': DateRec, t: DateTimeRec, t': DateTimeRec)
    ensures FormatDate(d) == FormatDate(d') ==> d == d'
    ensures FormatDateTime(t) == FormatDateTime(t') ==> t == t'
    ensures FormatDate(d) != FormatDateTime(t)
  {
    DateRoundTrip(d);
    DateRoundTrip(d');
    DateTimeRoundTrip(t);
    DateTimeRoundTrip(t');
    if FormatDate(d) == FormatDate(d') {
      assert [d.year as nat, (d.month - 1) as nat, d.day as nat] == [d'.year as nat, (d'.month - 1) as nat, d'.day as nat];
    }
    if FormatDateTime(t) == FormatDateTime(t') {
      var a := [t.year as nat, (t.month - 1) as nat, t.day as nat, t.hour as nat, t.minute as nat, t.second as nat];
      var b := [t'.year as nat, (t'.month - 1) as nat, t'.day as nat, t'.hour as nat, t'.minute as nat, t'.second as nat];
      assert a == b;
      assert a[0] == b[0] && a[1] == b[1] && a[2] == b[2] && a[3] == b[3] && a[4] == b[4] && a[5] == b[5];
    }
    assert |ParseCall(FormatDate(d)).value| != |ParseCall(FormatDateTime(t)).value|;
  }

  /** `date(2012, 1, 31)` is written `"Date(2012, 0, 31)"`. */
  lemma DateExample()
    ensures FormatDate(DateRec(2012, 1, 31)) == "Date(2012, 0, 31)"
  {
    Decimal2012();
    assert Decimal(31) == "31" by {
      assert Decimal(3) == "3";
    }
    assert Decimal(0) == "0";
    var ns: seq<nat> := [2012, 0, 31];
    assert ns[1..] == [0, 31] && ns[1..][1..] == [31];
    assert JoinArgs([31]) == "31";
    assert JoinArgs([0, 31]) == "0, 31";
    assert JoinArgs(ns) == "2012, 0, 31";
    DateCallText();
    assert FormatDate(DateRec(2012, 1, 31)) == Call(ns);
  }

  lemma DateCallText()
    ensures "Date(" + "2012, 0, 31" + ")" == "Date(2012, 0, 31)"
  {
  }

  lemma Decimal2012()
    ensures Decimal(2012) == "2012"
  {
    assert Decimal(2) == "2";
    assert Decimal(20) == "20";
    assert Decimal(201) == "201";
  }

  lemma ClockText()
    ensures JoinArgs([12, 30, 45]) == "12, 30, 45"
  {
    assert Decimal(12) == "12" by {
      assert Decimal(1) == "1";
    }
    assert Decimal(30) == "30" by {
      assert Decimal(3) == "3";
    }
    assert Decimal(45) == "45" by {
      assert Decimal(4) == "4";
    }
    assert [12, 30, 45][1..] == [30, 45];
    assert [30, 45][1..] == [45];
    assert JoinArgs([45]) == "45";
    assert JoinArgs([30, 45]) == "30, 45";
  }

  lemma DayAndClockText()
    ensures JoinArgs([31, 12, 30, 45]) == "31, 12, 30, 45"
  {
    ClockText();
    assert Decimal(31) == "31" by {
      assert Decimal(3) == "3";
    }
    assert [31, 12, 30, 45][1..] == [12, 30, 45];
  }

  lemma JoinArgsCons(n: nat, ns: seq<nat>)
    requires |ns| >= 1
    ensures JoinArgs([n] + ns) == Decimal(n) + ", " + JoinArgs(ns)
  {
    assert ([n] + ns)[1..] == ns;
  }

  lemma MonthDayAndClockText()
    ensures JoinArgs([0, 31, 12, 30, 45]) == "0, 31, 12, 30, 45"
  {
    DayAndClockText();
    JoinArgsCons(0, [31, 12, 30, 45]);
    assert [0] + [31, 12, 30, 45] == [0, 31, 12, 30, 45];
    assert Decimal(0) == "0";
    MonthGlue();
  }

  lemma MonthGlue()
    ensures "0" + ", " + "31, 12, 30, 45" == "0, 31, 12, 30, 45"
  {
  }

  lemma YearGlue()
    ensures "2012" + ", " + "0, 31, 12, 30, 45" == "2012, 0, 31, 12, 30, 45"
  {
  }

  lemma DateTimeArgsText()
    ensures JoinArgs([2012, 0, 31, 12, 30, 45]) == "2012, 0, 31, 12, 30, 45"
  {
    MonthDayAndClockText();
    JoinArgsCons(2012, [0, 31, 12, 30, 45]);
    assert [2012] + [0, 31, 12, 30, 45] == [2012, 0, 31, 12, 30, 45];
    Decimal2012();
    YearGlue();
  }

  /** `datetime(2012, 1, 31, 12, 30, 45)` is written
      `"Date(2012, 0, 31, 12, 30, 45)"`. */
  lemma DateTimeExample()
    ensures FormatDateTime(DateTimeRec(2012, 1, 31, 12, 30, 45)) == "Date(2012, 0, 31, 12, 30, 45)"
  {
    DateTimeArgsText();
    DateTimeCallText();
  }

  lemma DateTimeCallText()
    ensures "Date(" + "2012, 0, 31, 12, 30, 45" + ")" == "Date(2012, 0, 31, 12, 30, 45)"
  {
  }
}
