/**
 * `normalizeRows` (src/utils/dataCleaner.js): every raw record becomes a
 * canonical `Row` (text fields tidied by `tr`, numbers parsed by `num`, the
 * date parsed by `parseDateFlexible`), then rows are deduplicated by order
 * identifier, the first occurrence winning.
 */
module DataCleaner {
  import opened Outcomes
  import opened JsNumber
  import opened JsText
  import opened Records

  // ------------------------------------------------------------------ tr

  /** No two white-space characters in a row, and every white-space character a plain space. */
  predicate SingleSpaced(t: string) {
    && (forall i :: 0 <= i < |t| - 1 ==> !(IsSpace(t[i]) && IsSpace(t[i + 1])))
    && (forall i :: 0 <= i < |t| && IsSpace(t[i]) ==> t[i] == ' ')
  }

  /** `s.replace(/\s+/g, ' ')`: every run of white space becomes one space. */
  function Collapse(s: string): (r: string)
    ensures |r| <= |s|
    ensures r == [] <==> s == []
    ensures r != [] ==> (IsSpace(r[0]) <==> IsSpace(s[0]))
    decreases |s|
  {
    if s == [] then []
    else if IsSpace(s[0]) then
      assert TrimStart(s) == TrimStart(s[1..]);
      [' '] + Collapse(TrimStart(s))
    else [s[0]] + Collapse(s[1..])
  }

  /** A character put before a single-spaced text keeps it single-spaced unless it makes a second space. */
  lemma ConsSpaced(c: char, r: string)
    requires SingleSpaced(r)
    requires IsSpace(c) ==> c == ' ' && (r == [] || !IsSpace(r[0]))
    ensures SingleSpaced([c] + r)
  {
    var t := [c] + r;
    assert forall i :: 1 <= i < |t| ==> t[i] == r[i - 1];
  }

  /** After the collapse no two white-space characters touch, and each is a plain space. */
  lemma {:induction false} CollapseSpaced(s: string)
    ensures SingleSpaced(Collapse(s))
    decreases |s|
  {
    if s != [] {
      if IsSpace(s[0]) {
        var u := TrimStart(s);
        assert u == TrimStart(s[1..]);
        CollapseSpaced(u);
        ConsSpaced(' ', Collapse(u));
      } else {
        CollapseSpaced(s[1..]);
        ConsSpaced(s[0], Collapse(s[1..]));
      }
    }
  }

  /** The shape `tr` gives every text field: single-spaced, with no white space at either end. */
  predicate Tidy(t: string) {
    && (t == [] || (!IsSpace(t[0]) && !IsSpace(t[|t| - 1])))
    && SingleSpaced(t)
  }

  /** Every slice of a single-spaced text is single-spaced. */
  lemma SliceSingleSpaced(c: string, lo: nat, hi: nat)
    requires lo <= hi <= |c| && SingleSpaced(c)
    ensures SingleSpaced(c[lo..hi])
  {
    var t := c[lo..hi];
    assert forall i :: 0 <= i < |t| ==> t[i] == c[lo + i];
  }

  /** `tr(s)`: `null`/`undefined` become '', otherwise runs collapse and the ends are trimmed. */
  function Tr(s: Option<string>): (t: string)
    ensures Tidy(t)
    ensures s.None? ==> t == ""
  {
    if s.None? then ""
    else
      CollapseSpaced(s.value);
      TrimTidy(Collapse(s.value));
      Trim(Collapse(s.value))
  }

  lemma DropTake(c: string, a: nat, k: nat)
    requires a + k <= |c|
    ensures c[a..][..k] == c[a..a + k]
  {
  }

  /** Trimming a single-spaced text makes it tidy. */
  lemma TrimTidy(c: string)
    requires SingleSpaced(c)
    ensures Tidy(Trim(c))
  {
    var a := TrimIsSlice(c);
    SliceTidy(c, Trim(c), a);
  }

  /** A slice of a single-spaced text that has no white space at its ends is tidy. */
  lemma SliceTidy(c: string, t: string, a: nat)
    requires SingleSpaced(c) && a + |t| <= |c| && t == c[a..a + |t|]
    requires t == [] || (!IsSpace(t[0]) && !IsSpace(t[|t| - 1]))
    ensures Tidy(t)
  {
    SliceSingleSpaced(c, a, a + |t|);
  }

  /** `trim` keeps a contiguous slice of its input. */
  lemma TrimIsSlice(c: string) returns (a: nat)
    ensures a + |Trim(c)| <= |c| && Trim(c) == c[a..a + |Trim(c)|]
  {
    var u, t := TrimStart(c), Trim(c);
    a := |c| - |u|;
    assert u == c[a..] && t == u[..|t|];
    DropTake(c, a, |t|);
  }

  /** A text not starting with white space is its own `trimStart`. */
  lemma TrimStartNone(s: string)
    requires s == [] || !IsSpace(s[0])
    ensures TrimStart(s) == s
  {
  }

  /** A single-spaced text is a fixed point of the run collapse. */
  lemma {:induction false} CollapseSingleSpaced(t: string)
    requires SingleSpaced(t)
    ensures Collapse(t) == t
    decreases |t|
  {
    if t != [] {
      SliceSingleSpaced(t, 1, |t|);
      CollapseSingleSpaced(t[1..]);
      if IsSpace(t[0]) {
        assert t[1..] == [] || !IsSpace(t[1..][0]);
        TrimStartNone(t[1..]);
        assert TrimStart(t) == TrimStart(t[1..]);
        assert Collapse(t) == [' '] + Collapse(t[1..]);
      } else {
        assert Collapse(t) == [t[0]] + Collapse(t[1..]);
      }
      assert t == [t[0]] + t[1..];
    }
  }

  /** `tr` is idempotent: tidying a tidied text changes nothing. */
  lemma TrIdempotent(s: Option<string>)
    ensures Tr(Some(Tr(s))) == Tr(s)
  {
    var t := Tr(s);
    CollapseSingleSpaced(t);
    TrimOfTrimmed(t);
  }

  // ------------------------------------------------------------------ num

  predicate AllDigits(s: string) {
    forall i :: 0 <= i < |s| ==> IsDigit(s[i])
  }

  /** The longest prefix of `s` made of decimal digits. */
  function LeadingDigits(s: string): (d: string)
    ensures |d| <= |s| && d == s[..|d|]
    ensures forall i :: 0 <= i < |d| ==> IsDigit(d[i])
    ensures |d| < |s| ==> !IsDigit(s[|d|])
  {
    if s != [] && IsDigit(s[0]) then [s[0]] + LeadingDigits(s[1..]) else []
  }

  /** The value of a string of decimal digits. */
  function DigitsValue(d: string): nat
    requires forall i :: 0 <= i < |d| ==> IsDigit(d[i])
  {
    if d == [] then 0 else DigitsValue(d[..|d| - 1]) * 10 + DigitValue(d[|d| - 1])
  }

  function DigitValue(c: char): (n: nat)
    requires IsDigit(c)
    ensures n < 10
  {
    c as int - '0' as int
  }

  /** `10^e` for an integer exponent. */
  function Scale10(e: int): (r: real)
    ensures r > 0.0
  {
    if e >= 0 then Pow10(e) as real else 1.0 / Pow10(-e) as real
  }

  /** The optional sign of a numeric literal: is it `-`, and what follows the sign. */
  function SignAndRest(t: string): (bool, string) {
    if t != [] && (t[0] == '-' || t[0] == '+') then (t[0] == '-', t[1..]) else (false, t)
  }

  /** The exponent part `e[+-]digits` at the head of `s`, or 0 when there is none. */
  function ExponentOf(s: string): int {
    if s != [] && (s[0] == 'e' || s[0] == 'E') then
      var (neg, v) := SignAndRest(s[1..]);
      var ds := LeadingDigits(v);
      if neg then -(DigitsValue(ds) as int) else DigitsValue(ds)
    else 0
  }

  /**
   * `parseFloat(s)` as `num` sees it: leading white space is skipped and the
   * longest prefix `[+-] digits [. digits] [e [+-] digits]` with at least one
   * mantissa digit is read; without one the result is NaN. (The literal
   * `Infinity` is not finite, so `num` turns it into NaN as well.)
   */
  function ParseFloat(s: string): Num {
    var (neg, u) := SignAndRest(TrimStart(s));
    match Unsigned(u)
    case None => NaN
    case Some(m) => Fin(if neg then -m else m)
  }

  /** The unsigned decimal literal at the head of `u`, if it has a mantissa digit. */
  function Unsigned(u: string): (m: Option<real>)
    ensures m.Some? ==> m.value >= 0.0
  {
    var ip := LeadingDigits(u);
    var rest := u[|ip|..];
    var fp := Fraction(rest);
    if |ip| + |fp| == 0 then None
    else
      var x, y := Mantissa(ip, fp), Scale10(ExponentOf(AfterFraction(rest)));
      ProductNonNegative(x, y);
      Some(x * y)
  }

  lemma ProductNonNegative(x: real, y: real)
    requires x >= 0.0 && y > 0.0
    ensures x * y >= 0.0
  {}

  /** The fraction digits after a leading '.', if any. */
  function Fraction(rest: string): (fp: string)
    ensures AllDigits(fp)
  {
    if rest != [] && rest[0] == '.' then LeadingDigits(rest[1..]) else ""
  }

  /** What follows the fraction: where an exponent may start. */
  function AfterFraction(rest: string): string {
    if rest != [] && rest[0] == '.' then rest[1 + |Fraction(rest)|..] else rest
  }

  /** The value of integer digits `ip` and fraction digits `fp`. */
  function Mantissa(ip: string, fp: string): (m: real)
    requires AllDigits(ip) && AllDigits(fp)
    ensures m >= 0.0
  {
    DigitsValue(ip) as real + DigitsValue(fp) as real / Pow10(|fp|) as real
  }

  /** `num(s)`: the first ',' becomes '.', then the text is parsed; `undefined` gives NaN. */
  function Num(s: Option<string>): Num {
    if s.None? then NaN else ParseFloat(ReplaceFirst(s.value, ',', '.'))
  }

  /** A text without any decimal digit. */
  predicate NoDigit(s: string) {
    forall i :: 0 <= i < |s| ==> !IsDigit(s[i])
  }

  lemma NoDigitSuffix(s: string, k: nat)
    requires NoDigit(s) && k <= |s|
    ensures NoDigit(s[k..])
  {
    assert forall i :: 0 <= i < |s| - k ==> s[k..][i] == s[k + i];
  }

  /** Without any digit there is no mantissa digit. */
  lemma NoDigitUnsigned(u: string)
    requires NoDigit(u)
    ensures Unsigned(u) == None
  {
    assert LeadingDigits(u) == [];
    assert u[0..] == u;
    if u != [] && u[0] == '.' {
      NoDigitSuffix(u, 1);
      assert LeadingDigits(u[1..]) == [];
    }
  }

  /** Text without any decimal digit parses to NaN. */
  lemma NoDigitParse(s: string)
    requires NoDigit(s)
    ensures ParseFloat(s) == NaN
  {
    var t := TrimStart(s);
    NoDigitSuffix(s, |s| - |t|);
    var (neg, u) := SignAndRest(t);
    if u != t {
      NoDigitSuffix(t, 1);
    }
    NoDigitUnsigned(u);
  }

  /** Unparsable text becomes NaN, never 0: a text without any digit is NaN. */
  lemma NoDigitNaN(s: string)
    requires forall i :: 0 <= i < |s| ==> !IsDigit(s[i])
    ensures Num(Some(s)) == NaN
  {
    NoDigitParse(ReplaceFirst(s, ',', '.'));
  }

  /** Digits followed by a non-digit: the digits are the leading run. */
  lemma {:induction false} LeadingDigitsOf(d: string, t: string)
    requires AllDigits(d) && (t == [] || !IsDigit(t[0]))
    ensures LeadingDigits(d + t) == d
    decreases |d|
  {
    if d != [] {
      assert (d + t)[1..] == d[1..] + t;
      LeadingDigitsOf(d[1..], t);
    }
  }

  /** White space before a text that starts with something else is skipped. */
  lemma {:induction false} TrimStartOf(ws: string, t: string)
    requires forall i :: 0 <= i < |ws| ==> IsSpace(ws[i])
    requires t == [] || !IsSpace(t[0])
    ensures TrimStart(ws + t) == t
    decreases |ws|
  {
    if ws != [] {
      assert (ws + t)[1..] == ws[1..] + t;
      TrimStartOf(ws[1..], t);
    }
  }

  /** Only the first ',' is replaced: the text before it is left alone. */
  lemma {:induction false} ReplaceFirstAt(a: string, b: string, from: char, to: char)
    requires from !in a
    ensures ReplaceFirst(a + [from] + b, from, to) == a + [to] + b
    decreases |a|
  {
    if a != [] {
      assert (a + [from] + b)[1..] == a[1..] + [from] + b;
      ReplaceFirstAt(a[1..], b, from, to);
    }
  }

  /**
   * The decimal comma: `num` reads optional white space, integer digits, a ','
   * and fraction digits as the decimal number they spell.
   */
  lemma CommaDecimal(ws: string, ip: string, fp: string)
    requires forall i :: 0 <= i < |ws| ==> IsSpace(ws[i])
    requires ip != [] && AllDigits(ip) && AllDigits(fp)
    ensures Num(Some(ws + ip + "," + fp)) == Fin(Mantissa(ip, fp))
  {
    assert ',' !in ws + ip by {
      assert forall i :: 0 <= i < |ws + ip| ==> (ws + ip)[i] != ',';
    }
    ReplaceFirstAt(ws + ip, fp, ',', '.');
    assert ws + ip + "," + fp == (ws + ip) + [','] + fp;
    assert ws + ip + "." + fp == ws + (ip + "." + fp);
    PointDecimal(ws, ip, fp);
  }

  lemma PointDecimal(ws: string, ip: string, fp: string)
    requires forall i :: 0 <= i < |ws| ==> IsSpace(ws[i])
    requires ip != [] && AllDigits(ip) && AllDigits(fp)
    ensures ParseFloat(ws + (ip + "." + fp)) == Fin(Mantissa(ip, fp))
  {
    var u := ip + "." + fp;
    TrimStartOf(ws, u);
    assert SignAndRest(u) == (false, u);
    UnsignedDecimal(ip, fp);
  }

  lemma UnsignedDecimal(ip: string, fp: string)
    requires ip != [] && AllDigits(ip) && AllDigits(fp)
    ensures Unsigned(ip + "." + fp) == Some(Mantissa(ip, fp))
  {
    var u := ip + "." + fp;
    assert u == ip + ("." + fp);
    LeadingDigitsOf(ip, "." + fp);
    assert u[|ip|..] == "." + fp;
    LeadingDigitsOf(fp, []);
    assert fp + [] == fp;
    assert ("." + fp)[1..] == fp;
    assert Fraction("." + fp) == fp;
    assert AfterFraction("." + fp) == [];
    assert ExponentOf([]) == 0 && Scale10(0) == 1.0;
  }

  /** A plain integer text is read as that integer. */
  lemma IntegerText(ip: string)
    requires ip != [] && AllDigits(ip)
    ensures Num(Some(ip)) == Fin(DigitsValue(ip) as real)
  {
    assert ReplaceFirst(ip, ',', '.') == ip by {
      var r := ReplaceFirst(ip, ',', '.');
      assert forall i :: 0 <= i < |ip| ==> ip[i] != ',';
      assert forall i :: 0 <= i < |ip| ==> r[i] == ip[i];
    }
    assert TrimStart(ip) == ip;
    assert SignAndRest(ip) == (false, ip);
    UnsignedInteger(ip);
  }

  lemma UnsignedInteger(ip: string)
    requires ip != [] && AllDigits(ip)
    ensures Unsigned(ip) == Some(DigitsValue(ip) as real)
  {
    UnsignedWhole(ip);
    MantissaWhole(ip);
  }

  /** Integer digits alone: no fraction and no exponent. */
  lemma UnsignedWhole(ip: string)
    requires ip != [] && AllDigits(ip)
    ensures Unsigned(ip) == Some(Mantissa(ip, []))
  {
    assert LeadingDigits(ip) == ip by {
      LeadingDigitsOf(ip, []);
      assert ip + [] == ip;
    }
    var rest := ip[|ip|..];
    assert rest == [];
    assert Fraction(rest) == [] && AfterFraction(rest) == [];
    assert ExponentOf([]) == 0 && Scale10(0) == 1.0;
  }

  /** With no fraction digits the mantissa is the integer's value. */
  lemma MantissaWhole(ip: string)
    requires AllDigits(ip)
    ensures Mantissa(ip, []) == DigitsValue(ip) as real
  {
    assert DigitsValue([]) == 0 && Pow10(0) == 1;
  }

  // ------------------------------------------------------------------ dates

  /**
   * The environment's date handling, which the model does not interpret:
   * `new Date(text)` (None for an Invalid Date), `new Date(y, monthIndex, d, H, M)`
   * in local time, and `toISOString()`. Instants are milliseconds.
   */
  datatype Calendar = Calendar(
    parse: string -> Option<int>,
    local: (int, int, int, int, int) -> Option<int>,
    iso: int -> IsoText)

  datatype DateParts = DateParts(day: nat, month: nat, year: nat, hour: nat, minute: nat)

  /**
   * A match of `/^(\d{1,2})\/(\d{1,2})\/(\d{4})(?:\s+(\d{2}):(\d{2}))?$/`;
   * hours and minutes default to '00'.
   */
  function MatchDayMonthYear(t: string): Option<DateParts> {
    var dd := LeadingDigits(t);
    if !(1 <= |dd| <= 2) || |t| == |dd| || t[|dd|] != '/' then None
    else MatchMonthYear(DigitsValue(dd), t[|dd| + 1..])
  }

  /** The `M/YYYY` and optional time that follow `D/`. */
  function MatchMonthYear(day: nat, r1: string): Option<DateParts> {
    var mm := LeadingDigits(r1);
    if !(1 <= |mm| <= 2) || |r1| == |mm| || r1[|mm|] != '/' then None
    else MatchYearTime(day, DigitsValue(mm), r1[|mm| + 1..])
  }

  /** The `YYYY` and optional time that follow `D/M/`. */
  function MatchYearTime(day: nat, month: nat, r2: string): Option<DateParts> {
    if |r2| < 4 || !AllDigits(r2[..4]) then None
    else
      var parts := DateParts(day, month, DigitsValue(r2[..4]), 0, 0);
      if |r2| == 4 then Some(parts)
      else
        match MatchTime(r2[4..])
        case None => None
        case Some(hm) => Some(parts.(hour := hm.0, minute := hm.1))
  }

  /** ` HH:MM`: at least one white-space character, then exactly two digits, ':' and two digits. */
  function MatchTime(tail: string): Option<(nat, nat)> {
    var u := TrimStart(tail);
    if |u| == |tail| || |u| != 5 || u[2] != ':' || !AllDigits(u[..2]) || !AllDigits(u[3..]) then None
    else Some((DigitsValue(u[..2]), DigitsValue(u[3..])))
  }

  /**
   * `parseDateFlexible(s)`: nothing for an absent or empty text; otherwise the
   * native parse of the trimmed text, and only when that fails the D/M/YYYY
   * [HH:MM] pattern, built as a local date.
   */
  function ParseDateFlexible(s: Option<string>, cal: Calendar): (d: Option<int>)
    ensures s.None? || s == Some("") ==> d.None?
    ensures s.Some? && s.value != "" && cal.parse(Trim(s.value)).Some? ==> d == cal.parse(Trim(s.value))
    ensures d.Some? && cal.parse(Trim(s.value)).None? ==> MatchDayMonthYear(Trim(s.value)).Some?
  {
    if s.None? || s.value == "" then None
    else
      var t := Trim(s.value);
      match cal.parse(t)
      case Some(d) => Some(d)
      case None =>
        match MatchDayMonthYear(t)
        case None => None
        case Some(p) => LocalDate(cal, p)
  }

  /** `new Date(year, month - 1, day, hour, minute)` in local time. */
  function LocalDate(cal: Calendar, p: DateParts): Option<int> {
    cal.local(p.year, p.month - 1, p.day, p.hour, p.minute)
  }

  /** The fallback pattern reads a `D/M/YYYY` day first, at midnight. */
  lemma DayMonthYearDate(dd: string, mm: string, yyyy: string)
    requires 1 <= |dd| <= 2 && 1 <= |mm| <= 2 && |yyyy| == 4
    requires AllDigits(dd) && AllDigits(mm) && AllDigits(yyyy)
    ensures MatchDayMonthYear(dd + "/" + mm + "/" + yyyy)
      == Some(DateParts(DigitsValue(dd), DigitsValue(mm), DigitsValue(yyyy), 0, 0))
  {
    DateHead(dd, mm, yyyy, []);
    assert yyyy[..4] == yyyy;
    assert yyyy + [] == yyyy;
    assert dd + "/" + mm + "/" + yyyy + [] == dd + "/" + mm + "/" + yyyy;
  }

  /**
   * When the native parse fails on `D/M/YYYY`, the result is the local date
   * `new Date(yyyy, mm - 1, dd, 0, 0)`: day first, months counted from 0.
   */
  lemma FallbackDate(dd: string, mm: string, yyyy: string, cal: Calendar)
    requires 1 <= |dd| <= 2 && 1 <= |mm| <= 2 && |yyyy| == 4
    requires AllDigits(dd) && AllDigits(mm) && AllDigits(yyyy)
    requires cal.parse(dd + "/" + mm + "/" + yyyy).None?
    ensures ParseDateFlexible(Some(dd + "/" + mm + "/" + yyyy), cal)
      == LocalDate(cal, DateParts(DigitsValue(dd), DigitsValue(mm), DigitsValue(yyyy), 0, 0))
  {
    var t := dd + "/" + mm + "/" + yyyy;
    DigitEnds(t, dd[0], yyyy[3]);
    DayMonthYearDate(dd, mm, yyyy);
    FallbackOf(t, cal, DateParts(DigitsValue(dd), DigitsValue(mm), DigitsValue(yyyy), 0, 0));
  }

  /**
   * The same with a time: `D/M/YYYY HH:MM` gives the local date
   * `new Date(yyyy, mm - 1, dd, HH, MM)`.
   */
  lemma FallbackDateTime(dd: string, mm: string, yyyy: string, ws: string, hh: string, mi: string, cal: Calendar)
    requires 1 <= |dd| <= 2 && 1 <= |mm| <= 2 && |yyyy| == 4 && |hh| == 2 && |mi| == 2
    requires AllDigits(dd) && AllDigits(mm) && AllDigits(yyyy) && AllDigits(hh) && AllDigits(mi)
    requires ws != [] && forall i :: 0 <= i < |ws| ==> IsSpace(ws[i])
    requires cal.parse(dd + "/" + mm + "/" + yyyy + (ws + hh + ":" + mi)).None?
    ensures ParseDateFlexible(Some(dd + "/" + mm + "/" + yyyy + (ws + hh + ":" + mi)), cal)
      == LocalDate(cal, DateParts(DigitsValue(dd), DigitsValue(mm), DigitsValue(yyyy), DigitsValue(hh), DigitsValue(mi)))
  {
    var t := dd + "/" + mm + "/" + yyyy + (ws + hh + ":" + mi);
    var p := DateParts(DigitsValue(dd), DigitsValue(mm), DigitsValue(yyyy), DigitsValue(hh), DigitsValue(mi));
    assert t != "" && !IsSpace(t[0]) && !IsSpace(t[|t| - 1]) by { TimedEnds(dd, mm, yyyy, ws, hh, mi); }
    assert MatchDayMonthYear(t) == Some(p) by { TimedMatch(dd, mm, yyyy, ws, hh, mi); }
    FallbackOf(t, cal, p);
  }

  lemma TimedEnds(dd: string, mm: string, yyyy: string, ws: string, hh: string, mi: string)
    requires 1 <= |dd| && |mi| == 2 && IsDigit(dd[0]) && IsDigit(mi[1])
    ensures var t := dd + "/" + mm + "/" + yyyy + (ws + hh + ":" + mi);
      t != [] && !IsSpace(t[0]) && !IsSpace(t[|t| - 1])
  {
    var t := dd + "/" + mm + "/" + yyyy + (ws + hh + ":" + mi);
    DigitEnds(t, dd[0], mi[1]);
  }

  lemma TimedMatch(dd: string, mm: string, yyyy: string, ws: string, hh: string, mi: string)
    requires 1 <= |dd| <= 2 && 1 <= |mm| <= 2 && |yyyy| == 4 && |hh| == 2 && |mi| == 2
    requires AllDigits(dd) && AllDigits(mm) && AllDigits(yyyy) && AllDigits(hh) && AllDigits(mi)
    requires ws != [] && forall i :: 0 <= i < |ws| ==> IsSpace(ws[i])
    ensures MatchDayMonthYear(dd + "/" + mm + "/" + yyyy + (ws + hh + ":" + mi))
      == Some(DateParts(DigitsValue(dd), DigitsValue(mm), DigitsValue(yyyy), DigitsValue(hh), DigitsValue(mi)))
  {
    TimeOf(ws, hh, mi);
    DayMonthYearTime(dd, mm, yyyy, ws + hh + ":" + mi);
  }

  /**
   * A text without white space at its ends, which the native parse rejects
   * and the pattern reads as `p`, gives `p`'s local date.
   */
  lemma FallbackOf(t: string, cal: Calendar, p: DateParts)
    requires t != "" && !IsSpace(t[0]) && !IsSpace(t[|t| - 1])
    requires cal.parse(t).None? && MatchDayMonthYear(t) == Some(p)
    ensures ParseDateFlexible(Some(t), cal) == LocalDate(cal, p)
  {
    TrimOfTrimmed(t);
    TrimmedFallback(t, Trim(t), cal, p);
  }

  lemma TrimmedFallback(s: string, t: string, cal: Calendar, p: DateParts)
    requires s != "" && Trim(s) == t && cal.parse(t).None? && MatchDayMonthYear(t) == Some(p)
    ensures ParseDateFlexible(Some(s), cal) == LocalDate(cal, p)
  {}

  /** A text that starts and ends with a digit has no white space at its ends. */
  lemma DigitEnds(t: string, first: char, last: char)
    requires t != [] && t[0] == first && t[|t| - 1] == last && IsDigit(first) && IsDigit(last)
    ensures !IsSpace(t[0]) && !IsSpace(t[|t| - 1])
  {}

  /**
   * With a time after the year, the hours and minutes are read too (`TimeOf`
   * says which tails are times).
   */
  lemma DayMonthYearTime(dd: string, mm: string, yyyy: string, tail: string)
    requires 1 <= |dd| <= 2 && 1 <= |mm| <= 2 && |yyyy| == 4
    requires AllDigits(dd) && AllDigits(mm) && AllDigits(yyyy)
    requires tail != [] && MatchTime(tail).Some?
    ensures MatchDayMonthYear(dd + "/" + mm + "/" + yyyy + tail)
      == Some(DateParts(DigitsValue(dd), DigitsValue(mm), DigitsValue(yyyy), MatchTime(tail).value.0, MatchTime(tail).value.1))
  {
    DateHead(dd, mm, yyyy, tail);
    YearThenTime(DigitsValue(dd), DigitsValue(mm), yyyy, tail);
  }

  lemma YearThenTime(day: nat, month: nat, yyyy: string, tail: string)
    requires |yyyy| == 4 && AllDigits(yyyy) && tail != [] && MatchTime(tail).Some?
    ensures MatchYearTime(day, month, yyyy + tail)
      == Some(DateParts(day, month, DigitsValue(yyyy), MatchTime(tail).value.0, MatchTime(tail).value.1))
  {
    assert (yyyy + tail)[..4] == yyyy && (yyyy + tail)[4..] == tail;
  }

  /** A time is white space, then two digits, ':' and two digits. */
  lemma TimeOf(ws: string, hh: string, mi: string)
    requires |hh| == 2 && |mi| == 2 && AllDigits(hh) && AllDigits(mi)
    requires ws != [] && forall i :: 0 <= i < |ws| ==> IsSpace(ws[i])
    ensures MatchTime(ws + hh + ":" + mi) == Some((DigitsValue(hh), DigitsValue(mi)))
  {
    var u := hh + ":" + mi;
    assert ws + hh + ":" + mi == ws + u;
    TrimStartOf(ws, u);
    assert u[..2] == hh && u[3..] == mi && u[2] == ':';
  }

  /** The day and month in front of the year are read as such. */
  lemma DateHead(dd: string, mm: string, yyyy: string, tail: string)
    requires 1 <= |dd| <= 2 && 1 <= |mm| <= 2
    requires AllDigits(dd) && AllDigits(mm)
    ensures MatchDayMonthYear(dd + "/" + mm + "/" + yyyy + tail)
      == MatchYearTime(DigitsValue(dd), DigitsValue(mm), yyyy + tail)
  {
    var r2 := yyyy + tail;
    var r1 := mm + "/" + r2;
    assert dd + "/" + mm + "/" + yyyy + tail == dd + "/" + r1;
    DayHead(dd, r1);
    MonthHead(DigitsValue(dd), mm, r2);
  }

  lemma DayHead(dd: string, r1: string)
    requires 1 <= |dd| <= 2 && AllDigits(dd)
    ensures MatchDayMonthYear(dd + "/" + r1) == MatchMonthYear(DigitsValue(dd), r1)
  {
    SlashAfter(dd, r1);
  }

  lemma MonthHead(day: nat, mm: string, r2: string)
    requires 1 <= |mm| <= 2 && AllDigits(mm)
    ensures MatchMonthYear(day, mm + "/" + r2) == MatchYearTime(day, DigitsValue(mm), r2)
  {
    SlashAfter(mm, r2);
  }

  /** One or two digits and a '/': the digits are the leading run, the rest follows the '/'. */
  lemma SlashAfter(d: string, rest: string)
    requires 1 <= |d| <= 2 && AllDigits(d)
    ensures var t := d + "/" + rest;
      LeadingDigits(t) == d && |t| > |d| && t[|d|] == '/' && t[|d| + 1..] == rest
  {
    assert d + "/" + rest == d + ("/" + rest);
    LeadingDigitsOf(d, "/" + rest);
  }

  /** An ISO day such as `2024-01-15` never matches: its first run has four digits. */
  lemma IsoNoDayMonthYear(t: string)
    requires |t| >= 3 && IsDigit(t[0]) && IsDigit(t[1]) && IsDigit(t[2])
    ensures MatchDayMonthYear(t) == None
  {
    var d := LeadingDigits(t);
    assert |d| >= 3 by {
      assert |d| >= 1;
      assert |d| >= 2;
    }
  }

  // ------------------------------------------------------------------ rows

  /** The `raw.map(...)` step of `normalizeRows` for one record. */
  function NormalizeRecord(r: RawRecord, cal: Calendar): (row: Row)
    ensures row.orderDateStr == "" <==> row.orderDate.None?
    ensures '|' !in row.orderDateStr
    ensures Tidy(row.orderId) && Tidy(row.productName) && Tidy(row.country)
    ensures Tidy(row.category) && Tidy(row.paymentMethod) && Tidy(row.customerEmail)
    ensures row.quantity.Fin? ==> row.quantity.v == row.quantity.v.Floor as real
  {
    var d := ParseDateFlexible(Field(r, "order_date"), cal);
    Row(
      orderId := Tr(Field(r, "order_id")),
      orderDate := d,
      orderDateStr := if d.Some? then cal.iso(d.value)[..10] else "",
      customerId := Tr(Field(r, "customer_id")),
      customerEmail := Tr(Field(r, "customer_email")),
      customerAge := Num(Field(r, "customer_age")),
      productName := Tr(Field(r, "product_name")),
      category := Tr(Field(r, "category")),
      price := Num(Field(r, "price")),
      quantity := Round(Num(Field(r, "quantity"))),
      totalAmount := Num(Field(r, "total_amount")),
      country := Tr(Field(r, "country")),
      paymentMethod := Tr(Field(r, "payment_method")),
      orderStatus := Tr(Field(r, "order_status")))
  }

  function NormalizeAll(raw: seq<RawRecord>, cal: Calendar): (rows: seq<Row>)
    ensures |rows| == |raw|
    ensures forall i :: 0 <= i < |raw| ==> rows[i] == NormalizeRecord(raw[i], cal)
  {
    seq(|raw|, i requires 0 <= i < |raw| => NormalizeRecord(raw[i], cal))
  }

  // ------------------------------------------------------------------ uniqBy

  /** The rows kept by first-occurrence deduplication on the order identifier. */
  function Dedup(rows: seq<Row>): seq<Row>
    decreases |rows|
  {
    if rows == [] then []
    else
      var init := rows[..|rows| - 1];
      if rows[|rows| - 1].orderId in Ids(init) then Dedup(init) else Dedup(init) + [rows[|rows| - 1]]
  }

  /** The position of the first row with identifier `id`. */
  function FirstIndex(rows: seq<Row>, id: string): (i: nat)
    requires id in Ids(rows)
    ensures i < |rows| && rows[i].orderId == id
    ensures forall j :: 0 <= j < i ==> rows[j].orderId != id
  {
    if rows[0].orderId == id then 0
    else
      assert id in Ids(rows[1..]) by {
        var r :| r in rows && r.orderId == id;
        assert r in rows[1..];
      }
      1 + FirstIndex(rows[1..], id)
  }

  /** Deduplication keeps every identifier of the input, and each only once. */
  lemma {:induction false} DedupIds(rows: seq<Row>)
    ensures DistinctIds(Dedup(rows))
    ensures Ids(Dedup(rows)) == Ids(rows)
    decreases |rows|
  {
    if rows != [] {
      var init := rows[..|rows| - 1];
      var last := rows[|rows| - 1];
      DedupIds(init);
      assert rows == init + [last];
      assert Ids(rows) == Ids(init) + {last.orderId};
      var d := Dedup(init);
      if last.orderId !in Ids(init) {
        assert Ids(d + [last]) == Ids(d) + {last.orderId} by {
          assert forall r :: r in d + [last] <==> r in d || r == last;
        }
        forall k | 0 <= k < |d|
          ensures d[k].orderId != last.orderId
        {
          assert d[k] in d;
        }
      }
    }
  }

  /** The position of the first row with an identifier does not change when rows are appended. */
  lemma FirstIndexPrefix(init: seq<Row>, rows: seq<Row>, id: string)
    requires id in Ids(init) && |init| <= |rows| && init == rows[..|init|]
    ensures id in Ids(rows) && FirstIndex(rows, id) == FirstIndex(init, id)
  {
    var i := FirstIndex(init, id);
    assert rows[i] == init[i];
    assert id in Ids(rows);
  }

  /**
   * Each kept row is the first row of the input with its identifier, and kept
   * rows appear in the order of those first rows.
   */
  lemma {:induction false} DedupKeepsFirst(rows: seq<Row>)
    ensures forall k :: 0 <= k < |Dedup(rows)| ==> Dedup(rows)[k].orderId in Ids(rows)
    ensures forall k :: 0 <= k < |Dedup(rows)| ==>
      Dedup(rows)[k] == rows[FirstIndex(rows, Dedup(rows)[k].orderId)]
    ensures forall k, l :: 0 <= k < l < |Dedup(rows)| ==>
      FirstIndex(rows, Dedup(rows)[k].orderId) < FirstIndex(rows, Dedup(rows)[l].orderId)
    decreases |rows|
  {
    if rows != [] {
      var init := rows[..|rows| - 1];
      var last := rows[|rows| - 1];
      DedupKeepsFirst(init);
      var d := Dedup(init);
      forall k | 0 <= k < |d|
        ensures d[k].orderId in Ids(rows) && FirstIndex(rows, d[k].orderId) == FirstIndex(init, d[k].orderId)
      {
        FirstIndexPrefix(init, rows, d[k].orderId);
      }
      if last.orderId !in Ids(init) {
        KeepLast(rows);
      }
    }
  }

  /** Deduplication keeps rows of its input and makes none up. */
  lemma {:induction false} DedupMember(rows: seq<Row>, r: Row)
    requires r in Dedup(rows)
    ensures r in rows
    decreases |rows|
  {
    var init, last := rows[..|rows| - 1], rows[|rows| - 1];
    if r in Dedup(init) {
      DedupMember(init, r);
      assert rows == init + [last];
    } else {
      assert Dedup(rows) == Dedup(init) + [last];
      assert r == last;
    }
  }

  /** A new identifier in the last row: it is its own first occurrence and comes after every earlier one. */
  lemma KeepLast(rows: seq<Row>)
    requires rows != [] && rows[|rows| - 1].orderId !in Ids(rows[..|rows| - 1])
    ensures rows[|rows| - 1].orderId in Ids(rows)
    ensures FirstIndex(rows, rows[|rows| - 1].orderId) == |rows| - 1
  {
    var last := rows[|rows| - 1];
    assert last in rows;
  }

  /** Rows whose identifiers are already distinct pass through unchanged. */
  lemma {:induction false} DedupDistinct(rows: seq<Row>)
    requires DistinctIds(rows)
    ensures Dedup(rows) == rows
    decreases |rows|
  {
    if rows != [] {
      var init := rows[..|rows| - 1];
      assert DistinctIds(init);
      DedupDistinct(init);
      assert rows[|rows| - 1].orderId !in Ids(init);
      assert rows == init + [rows[|rows| - 1]];
    }
  }

  /** Deduplication is idempotent. */
  lemma DedupIdempotent(rows: seq<Row>)
    ensures Dedup(Dedup(rows)) == Dedup(rows)
  {
    DedupIds(rows);
    DedupDistinct(Dedup(rows));
  }

  /** `uniqBy(rows, r => r.order_id)`: a `seen` set and an output list grown in one pass. */
  method UniqBy(rows: seq<Row>) returns (out: seq<Row>)
    ensures out == Dedup(rows)
  {
    var seen: set<string> := {};
    out := [];
    for i := 0 to |rows|
      invariant seen == Ids(rows[..i])
      invariant out == Dedup(rows[..i])
    {
      var k := rows[i].orderId;
      assert rows[..i + 1][..i] == rows[..i];
      assert Ids(rows[..i + 1]) == Ids(rows[..i]) + {k} by {
        assert rows[..i + 1] == rows[..i] + [rows[i]];
      }
      if k !in seen {
        seen := seen + {k};
        out := out + [rows[i]];
      }
    }
    assert rows[..|rows|] == rows;
  }

  /**
   * `normalizeRows(raw)`: every record normalized, then deduplicated; the result
   * has pairwise distinct identifiers, one row per identifier of the input.
   */
  method NormalizeRows(raw: seq<RawRecord>, cal: Calendar) returns (rows: seq<Row>)
    ensures rows == Dedup(NormalizeAll(raw, cal))
    ensures DistinctIds(rows)
    ensures Ids(rows) == Ids(NormalizeAll(raw, cal))
    ensures forall r :: r in rows ==> r in NormalizeAll(raw, cal)
  {
    var all := NormalizeAll(raw, cal);
    rows := UniqBy(all);
    DedupIds(all);
    DedupKeepsFirst(all);
    forall r | r in rows
      ensures r in all
    {
      var k :| 0 <= k < |rows| && rows[k] == r;
      assert r == all[FirstIndex(all, rows[k].orderId)];
    }
  }
}
