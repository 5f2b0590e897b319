/**
 * `validEmail` of src/detectors/AnomalyDetector.js: the regular expression
 * `^[^\s@]+@[^\s@]+\.[^\s@]{2,}$` tested on the trimmed text, run as a
 * left-to-right scan and proved to accept exactly the strings of that shape.
 */
module Email {
  import opened JsText

  /** A run of `[^\s@]`: no white space and no `@`. */
  predicate Plain(s: string) {
    forall k :: 0 <= k < |s| ==> !IsSpace(s[k]) && s[k] != '@'
  }

  /**
   * The meaning of the pattern: a non-empty local part, `@`, a non-empty
   * domain, a `.` and at least two more characters, none of them white space
   * or `@`.
   */
  predicate EmailShape(t: string) {
    exists i, j :: (
      && 0 < i && i + 1 < j && j + 2 < |t| && t[i] == '@' && t[j] == '.'
      && Plain(t[..i]) && Plain(t[i + 1..j]) && Plain(t[j + 1..]))
  }

  /**
   * Where the scan of the part after `@` stands: nothing read yet; something
   * read but no `.` usable as the separator; a separator just read; one, or
   * two and more, characters read after a separator.
   */
  datatype Domain = Blank | Started | Dot | OneAfter | TwoAfter

  function Step(st: Domain, dot: bool): Domain {
    match st
    case Blank => Started
    case Started => if dot then Dot else Started
    case Dot => OneAfter
    case OneAfter => TwoAfter
    case TwoAfter => TwoAfter
  }

  /** Scans the part after `@`: every character plain, ending with two after a separator. */
  function ScanDomain(d: string, st: Domain): bool {
    if d == [] then st == TwoAfter
    else if IsSpace(d[0]) || d[0] == '@' then false
    else ScanDomain(d[1..], Step(st, d[0] == '.'))
  }

  /** Scans the local part up to `@`; `started` says whether a character was read. */
  function ScanLocal(t: string, started: bool): bool {
    if t == [] then false
    else if t[0] == '@' then started && ScanDomain(t[1..], Blank)
    else if IsSpace(t[0]) then false
    else ScanLocal(t[1..], true)
  }

  /** `validEmail(s)`: empty text is invalid; otherwise the trimmed text is scanned. */
  predicate ValidEmail(s: string) {
    s != "" && ScanLocal(Trim(s), false)
  }

  // ------------------------------------------------------------------ the scan matches the pattern

  /** What the rest `d` of the domain must look like, given where the scan stands. */
  predicate Completes(st: Domain, d: string) {
    match st
    case Blank => exists j :: 1 <= j && j + 2 < |d| && d[j] == '.'
    case Started => exists j :: 0 <= j && j + 2 < |d| && d[j] == '.'
    case Dot => |d| >= 2
    case OneAfter => |d| >= 1
    case TwoAfter => true
  }

  lemma {:induction false} ScanDomainMeans(d: string, st: Domain)
    ensures ScanDomain(d, st) <==> Plain(d) && Completes(st, d)
    decreases |d|
  {
    if d != [] {
      var rest := d[1..];
      ScanDomainMeans(rest, Step(st, d[0] == '.'));
      assert Plain(d) <==> !IsSpace(d[0]) && d[0] != '@' && Plain(rest) by {
        assert forall k :: 1 <= k < |d| ==> d[k] == rest[k - 1];
      }
      if !IsSpace(d[0]) && d[0] != '@' {
        CompletesStep(d, st);
      }
    }
  }

  lemma CompletesStep(d: string, st: Domain)
    requires d != []
    ensures Completes(st, d) <==> Completes(Step(st, d[0] == '.'), d[1..])
  {
    var rest := d[1..];
    assert forall k :: 1 <= k < |d| ==> d[k] == rest[k - 1];
    match st
    case Blank =>
      if Completes(st, d) {
        var j :| 1 <= j && j + 2 < |d| && d[j] == '.';
        assert rest[j - 1] == '.';
      }
      if Completes(Started, rest) {
        var j :| 0 <= j && j + 2 < |rest| && rest[j] == '.';
        assert d[j + 1] == '.';
      }
    case Started =>
      if d[0] == '.' {
        if |rest| >= 2 { assert 0 + 2 < |d| && d[0] == '.'; }
      } else {
        if Completes(st, d) {
          var j :| 0 <= j && j + 2 < |d| && d[j] == '.';
          assert j >= 1 && rest[j - 1] == '.';
        }
        if Completes(Started, rest) {
          var j :| 0 <= j && j + 2 < |rest| && rest[j] == '.';
          assert d[j + 1] == '.';
        }
      }
    case Dot =>
    case OneAfter =>
    case TwoAfter =>
  }

  /** The part after `@` splits at a separator into a non-empty domain and at least two characters. */
  lemma DomainShape(d: string)
    ensures Plain(d) && Completes(Blank, d)
      <==> exists j :: 1 <= j && j + 2 < |d| && d[j] == '.' && Plain(d[..j]) && Plain(d[j + 1..])
  {
    if Plain(d) && Completes(Blank, d) {
      var j :| 1 <= j && j + 2 < |d| && d[j] == '.';
      assert Plain(d[..j]) && Plain(d[j + 1..]);
    }
    if exists j :: 1 <= j && j + 2 < |d| && d[j] == '.' && Plain(d[..j]) && Plain(d[j + 1..]) {
      var j :| 1 <= j && j + 2 < |d| && d[j] == '.' && Plain(d[..j]) && Plain(d[j + 1..]);
      forall k | 0 <= k < |d|
        ensures !IsSpace(d[k]) && d[k] != '@'
      {
        if k < j { assert d[k] == d[..j][k]; }
        else if k > j { assert d[k] == d[j + 1..][k - j - 1]; }
      }
    }
  }

  /** Dropping the first character of a plain run leaves a plain run, and only then. */
  lemma PlainDrop(s: string)
    requires s != []
    ensures Plain(s) <==> !IsSpace(s[0]) && s[0] != '@' && Plain(s[1..])
  {
    assert forall k :: 1 <= k < |s| ==> s[k] == s[1..][k - 1];
  }

  /** What the rest `t` of the text must look like while the local part is being scanned. */
  predicate LocalCompletes(t: string, started: bool) {
    exists i :: (
      && 0 <= i < |t| && t[i] == '@' && (started || i > 0)
      && Plain(t[..i]) && Plain(t[i + 1..]) && Completes(Blank, t[i + 1..]))
  }

  /** At `@`, the local part ends here. */
  lemma LocalAtSign(t: string, started: bool)
    requires t != [] && t[0] == '@'
    ensures LocalCompletes(t, started)
      <==> started && Plain(t[1..]) && Completes(Blank, t[1..])
  {
    forall i | 0 < i <= |t|
      ensures !Plain(t[..i])
    {
      assert t[..i][0] == t[0];
    }
    if started && Plain(t[1..]) && Completes(Blank, t[1..]) {
      assert Plain(t[..0]);
    }
  }

  /** White space in the local part rules the text out. */
  lemma LocalSpace(t: string, started: bool)
    requires t != [] && IsSpace(t[0])
    ensures !LocalCompletes(t, started)
  {
    forall i | 0 < i <= |t|
      ensures !Plain(t[..i])
    {
      assert t[..i][0] == t[0];
    }
  }

  /** A plain character joins the local part. */
  lemma LocalShift(t: string, started: bool)
    requires t != [] && !IsSpace(t[0]) && t[0] != '@'
    ensures LocalCompletes(t, started) <==> LocalCompletes(t[1..], true)
  {
    if LocalCompletes(t, started) {
      LocalShiftForward(t, started);
    }
    if LocalCompletes(t[1..], true) {
      LocalShiftBack(t, started);
    }
  }

  lemma LocalShiftForward(t: string, started: bool)
    requires t != [] && t[0] != '@' && LocalCompletes(t, started)
    ensures LocalCompletes(t[1..], true)
  {
    var rest := t[1..];
    var i :| 0 <= i < |t| && t[i] == '@' && (started || i > 0)
      && Plain(t[..i]) && Plain(t[i + 1..]) && Completes(Blank, t[i + 1..]);
    assert i > 0;
    assert t[..i][1..] == rest[..i - 1];
    PlainDrop(t[..i]);
    assert rest[i - 1] == '@' && rest[i..] == t[i + 1..];
  }

  lemma LocalShiftBack(t: string, started: bool)
    requires t != [] && !IsSpace(t[0]) && t[0] != '@' && LocalCompletes(t[1..], true)
    ensures LocalCompletes(t, started)
  {
    var rest := t[1..];
    var i :| 0 <= i < |rest| && rest[i] == '@'
      && Plain(rest[..i]) && Plain(rest[i + 1..]) && Completes(Blank, rest[i + 1..]);
    assert t[..i + 1][1..] == rest[..i];
    PlainDrop(t[..i + 1]);
    assert t[i + 1] == '@' && t[i + 2..] == rest[i + 1..];
  }

  lemma {:induction false} ScanLocalMeans(t: string, started: bool)
    ensures ScanLocal(t, started) <==> LocalCompletes(t, started)
    decreases |t|
  {
    if t != [] {
      if t[0] == '@' {
        ScanDomainMeans(t[1..], Blank);
        LocalAtSign(t, started);
      } else if IsSpace(t[0]) {
        LocalSpace(t, started);
      } else {
        ScanLocalMeans(t[1..], true);
        LocalShift(t, started);
      }
    }
  }

  /** The scan accepts exactly the texts of the pattern's shape. */
  lemma ScanMatchesPattern(t: string)
    ensures ScanLocal(t, false) <==> EmailShape(t)
  {
    ScanLocalMeans(t, false);
    if LocalCompletes(t, false) {
      LocalGivesShape(t);
    }
    if EmailShape(t) {
      ShapeGivesLocal(t);
    }
  }

  lemma LocalGivesShape(t: string)
    requires LocalCompletes(t, false)
    ensures EmailShape(t)
  {
    var i :| 0 <= i < |t| && t[i] == '@' && i > 0
      && Plain(t[..i]) && Plain(t[i + 1..]) && Completes(Blank, t[i + 1..]);
    var j :| 1 <= j && j + 2 < |t[i + 1..]| && t[i + 1..][j] == '.';
    var k := i + 1 + j;
    assert t[k] == '.';
    PlainWithin(t, i + 1, i + 1, k);
    PlainWithin(t, i + 1, k + 1, |t|);
    assert 0 < i && i + 1 < k && k + 2 < |t| && t[i] == '@' && t[k] == '.'
      && Plain(t[..i]) && Plain(t[i + 1..k]) && Plain(t[k + 1..]);
  }

  /** Every slice of a plain suffix is plain. */
  lemma PlainWithin(t: string, a: nat, lo: nat, hi: nat)
    requires a <= lo <= hi <= |t| && Plain(t[a..])
    ensures Plain(t[lo..hi])
    ensures hi == |t| ==> Plain(t[lo..])
  {
    forall m | 0 <= m < hi - lo
      ensures t[lo..hi][m] == t[a..][lo + m - a]
    {
    }
    if hi == |t| {
      assert t[lo..] == t[lo..hi];
    }
  }

  lemma ShapeGivesLocal(t: string)
    requires EmailShape(t)
    ensures LocalCompletes(t, false)
  {
    var i, j :| 0 < i && i + 1 < j && j + 2 < |t| && t[i] == '@' && t[j] == '.'
      && Plain(t[..i]) && Plain(t[i + 1..j]) && Plain(t[j + 1..]);
    var d := t[i + 1..];
    assert d[j - i - 1] == '.' && d[..j - i - 1] == t[i + 1..j] && d[j - i..] == t[j + 1..];
    DomainShape(d);
  }

  // ------------------------------------------------------------------ consequences

  /** A valid address has exactly one `@` and no white space, after trimming. */
  lemma ValidEmailOneAt(s: string)
    requires ValidEmail(s)
    ensures exists i :: OnlyAt(Trim(s), i)
    ensures NoSpace(Trim(s))
  {
    ScanMatchesPattern(Trim(s));
    ShapeOneAt(Trim(s));
  }

  /** `i` is the one position of `@` in `t`. */
  predicate OnlyAt(t: string, i: int) {
    0 <= i < |t| && t[i] == '@' && forall k :: 0 <= k < |t| && t[k] == '@' ==> k == i
  }

  lemma ShapeOneAt(t: string)
    requires EmailShape(t)
    ensures exists i :: OnlyAt(t, i)
    ensures NoSpace(t)
  {
    var i, j :| 0 < i && i + 1 < j && j + 2 < |t| && t[i] == '@' && t[j] == '.'
      && Plain(t[..i]) && Plain(t[i + 1..j]) && Plain(t[j + 1..]);
    forall k | 0 <= k < |t|
      ensures !IsSpace(t[k]) && (t[k] == '@' ==> k == i)
    {
      if k < i { assert t[k] == t[..i][k]; }
      else if i < k < j { assert t[k] == t[i + 1..j][k - i - 1]; }
      else if k > j { assert t[k] == t[j + 1..][k - j - 1]; }
    }
    assert OnlyAt(t, i);
  }

  /** A plain address is accepted. */
  lemma ValidExample()
    ensures ValidEmail("ana@shop.fr")
  {
    TrimmedExample();
    ScanExample();
  }

  lemma TrimmedExample()
    ensures Trim("ana@shop.fr") == "ana@shop.fr"
  {
    TrimOfTrimmed("ana@shop.fr");
  }

  lemma ScanExample()
    ensures ScanLocal("ana@shop.fr", false)
  {
    DomainExample();
  }

  lemma DomainExample()
    ensures ScanDomain("shop.fr", Blank)
  {
    assert ScanDomain("fr", Dot);
  }

  /** Two `@` in a row leave no `.` for the domain. */
  lemma DoubleAtInvalid()
    ensures !ValidEmail("user@@bad")
  {
    var t := "user@@bad";
    TrimOfTrimmed(t);
    ScanMatchesPattern(t);
    forall j | 0 <= j < |t|
      ensures t[j] != '.'
    {}
  }

  /** One character after the last `.` is too few. */
  lemma ShortTopLevelInvalid()
    ensures !ValidEmail("user@example.c")
  {
    var t := "user@example.c";
    TrimOfTrimmed(t);
    ScanMatchesPattern(t);
    forall j | 0 <= j < |t| - 2
      ensures t[j] != '.'
    {}
  }

  /**
   * A top-level part of one astral character is too short here: characters
   * are code points, where the browser's pattern counts its two UTF-16 units.
   */
  lemma AstralTopLevelInvalid()
    ensures !ValidEmail("a@b.\U{1F600}")
  {
    var t := "a@b.\U{1F600}";
    TrimOfTrimmed(t);
    ScanMatchesPattern(t);
    forall j | 0 <= j < |t| - 2
      ensures t[j] != '.'
    {}
  }
}
