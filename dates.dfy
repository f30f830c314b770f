/** The date rules of `server.cjs`: the one of `normalizePatent`
    (server.cjs:1229-1241), the one shared by the three Google/WIPO search
    loops (server.cjs:319-343, 698-723, 1082-1106), and the raw match of
    `extractWIPOResults` (server.cjs:509-520). */
module Dates {
  import opened Options
  import opened Text
  import opened Patterns

  // ---------------------------------------------------------------------
  // normalizePatent
  // ---------------------------------------------------------------------

  /** The date rule of `normalizePatent` applied to the cleaned raw date `d`:
      the first ISO substring verbatim; otherwise the first
      `DD?DD?YYYY` substring read as day, month, year and reordered to
      `YYYY-MM-DD`; otherwise `YYYY-01-01` when `d` is exactly four digits;
      otherwise the empty string. */
  function NormalizeDate(d: string): string {
    match Find(d, IsoAt)
    case Some(sp) => d[sp.start..sp.end]
    case None =>
      match Find(d, EuAt)
      case Some(sp) =>
        var m := d[sp.start..sp.end];
        m[6..10] + "-" + m[3..5] + "-" + m[..2]
      case None =>
        if |d| == 4 && AllDigitChars(d) then d + "-01-01" else ""
  }

  /** The normalised date is either empty or shaped `DDDD-DD-DD`. */
  lemma NormalizeDateShape(d: string)
    ensures NormalizeDate(d) == "" || IsIsoDate(NormalizeDate(d))
  {
    match Find(d, IsoAt)
    case Some(sp) =>
    case None =>
      match Find(d, EuAt)
      case Some(sp) =>
        var m := d[sp.start..sp.end];
        assert IsEuDate(m);
        var r := m[6..10] + "-" + m[3..5] + "-" + m[..2];
        assert r[..4] == m[6..10] && r[5..7] == m[3..5] && r[8..] == m[..2];
      case None =>
        if |d| == 4 && AllDigitChars(d) {
          var r := d + "-01-01";
          assert r[..4] == d && r[5..7] == "01" && r[8..] == "01";
        }
  }

  /** The date of an already normalised record normalises to itself. */
  lemma NormalizeDateIdempotent(d: string)
    ensures NormalizeDate(NormalizeDate(d)) == NormalizeDate(d)
  {
    NormalizeDateShape(d);
    var r := NormalizeDate(d);
    if r != "" {
      assert r[0..10] == r;
      assert MatchesAt(r, IsoAt, 0);
    }
  }

  /** A ten-character text that is not itself ISO-shaped holds no ISO date. */
  lemma NoIsoIn(d: string)
    requires |d| == 10 && !IsIsoDate(d)
    ensures Find(d, IsoAt) == None
  {
    forall q: nat | q <= |d|
      ensures !MatchesAt(d, IsoAt, q)
    {
      if q == 0 {
        assert d[0..10] == d;
      }
    }
    FindNowhere(d, IsoAt);
  }

  /** A ten-character `DD?DD?DDDD` text is found whole. */
  lemma EuWhole(d: string)
    requires IsEuDate(d)
    ensures Find(d, EuAt) == Some(Span(0, 10))
  {
    assert d[0..10] == d;
    FindAtStart(d, EuAt);
  }

  /** The raw date `03/04/2021` is read day-first. */
  lemma NormalizeDateReadsDayFirst()
    ensures NormalizeDate("03/04/2021") == "2021-04-03"
  {
    var d := "03/04/2021";
    assert !IsIsoDate(d) by { assert d[4] == '4'; }
    NoIsoIn(d);
    assert IsEuDate(d) by {
      assert d[..2] == "03" && d[3..5] == "04" && d[6..] == "2021";
      assert AllDigitChars("2021") by {
        assert "2021"[0] == '2' && "2021"[1] == '0' && "2021"[2] == '2' && "2021"[3] == '1';
      }
    }
    EuWhole(d);
    assert d[0..10] == d;
    assert d[6..10] + "-" + d[3..5] + "-" + d[..2] == "2021-04-03";
  }

  /** A bare year becomes the first of January. */
  lemma NormalizeDateBareYear()
    ensures NormalizeDate("2021") == "2021-01-01"
  {
    var d := "2021";
    assert Find(d, IsoAt) == None;
    assert Find(d, EuAt) == None;
  }

  // ---------------------------------------------------------------------
  // The search loops
  // ---------------------------------------------------------------------

  predicate IsSlash(c: char) { c == '/' }

  /** `match[0]` of the chain `txt.match(A) || txt.match(B) || txt.match(C)
      || txt.match(D)` over the dash, month-first, year-first and bare-year
      patterns: the first pattern that matches anywhere wins. */
  function FirstDateMatch(t: string): Option<string> {
    match MatchText(t, DashDateAt)
    case Some(m) => Some(m)
    case None =>
      match MatchText(t, MdyAt)
      case Some(m) => Some(m)
      case None =>
        match MatchText(t, YmdAt)
        case Some(m) => Some(m)
        case None => MatchText(t, YearAt)
  }

  /** How the loops turn `match[0]` into a date (server.cjs:328-339). For
      the bare-year pattern `match[1]` is the whole match. The `|parts| >= 3`
      guards stand for JavaScript's `undefined` checks; every match has three
      pieces (`MdyPieces`, `YmdPieces`). */
  function FormatDateMatch(m0: string, today: string): string {
    if '-' in m0 then m0
    else if '/' in m0 then
      var parts := Split(m0, IsSlash);
      if |parts| >= 3 && |parts[2]| == 4 then
        parts[2] + "-" + PadStart2(parts[0]) + "-" + PadStart2(parts[1])
      else if |parts| >= 3 && |parts[0]| == 4 then
        parts[0] + "-" + PadStart2(parts[1]) + "-" + PadStart2(parts[2])
      else today
    else if |m0| == 4 then m0 + "-01-01"
    else today
  }

  /** The date the search loops compute from an element's trimmed text, with
      `today` (the `new Date()` default) when nothing matches. */
  function SearchDate(t: string, today: string): string {
    match FirstDateMatch(t)
    case None => today
    case Some(m0) => FormatDateMatch(m0, today)
  }

  lemma PadShort(x: string)
    requires ShortNumber(x)
    ensures |PadStart2(x)| == 2 && AllDigitChars(PadStart2(x))
  {
  }

  lemma PiecesNoSep(x: string)
    requires AllDigitChars(x)
    ensures forall i :: 0 <= i < |x| ==> !IsSlash(x[i])
  {
  }

  /** `x/y/z` with digit pieces: `split('/')` gives the three pieces. */
  lemma SlashPieces(x: string, y: string, z: string)
    requires AllDigitChars(x) && AllDigitChars(y) && AllDigitChars(z)
    ensures Split(x + "/" + y + "/" + z, IsSlash) == [x, y, z]
    ensures '-' !in x + "/" + y + "/" + z && '/' in x + "/" + y + "/" + z
  {
    PiecesNoSep(x);
    PiecesNoSep(y);
    PiecesNoSep(z);
    SplitNoSep(z, IsSlash);
    SplitAt(y, '/', z, IsSlash);
    assert x + "/" + y + "/" + z == x + ['/'] + (y + ['/'] + z);
    SplitAt(x, '/', y + ['/'] + z, IsSlash);
    var m := x + "/" + y + "/" + z;
    assert m[|x|] == '/';
    assert forall i :: 0 <= i < |m| ==> IsDigit(m[i]) || m[i] == '/';
  }

  /** A month-first match `M/D/YYYY` formats to `YYYY-MM-DD`: the year,
      then the zero-padded month and day. */
  lemma FormatMonthFirst(x: string, y: string, z: string, today: string)
    requires ShortNumber(x) && ShortNumber(y) && |z| == 4 && AllDigitChars(z)
    ensures FormatDateMatch(x + "/" + y + "/" + z, today) == z + "-" + PadStart2(x) + "-" + PadStart2(y)
    ensures IsIsoDate(FormatDateMatch(x + "/" + y + "/" + z, today))
  {
    SlashPieces(x, y, z);
    IsoFromPieces(z, x, y);
  }

  /** A year-first match `YYYY/M/D` formats to `YYYY-MM-DD`: the year,
      then the zero-padded month and day. */
  lemma FormatYearFirst(x: string, y: string, z: string, today: string)
    requires |x| == 4 && AllDigitChars(x) && ShortNumber(y) && ShortNumber(z)
    ensures FormatDateMatch(x + "/" + y + "/" + z, today) == x + "-" + PadStart2(y) + "-" + PadStart2(z)
    ensures IsIsoDate(FormatDateMatch(x + "/" + y + "/" + z, today))
  {
    SlashPieces(x, y, z);
    IsoFromPieces(x, y, z);
  }

  /** `s[i..e]` is three digit pieces separated by the slashes at `j` and `k`. */
  lemma SlashTriple(s: string, i: nat, j: nat, k: nat, e: nat) returns (x: string, y: string, z: string)
    requires i < j && j + 1 < k && k + 1 < e <= |s| && s[j] == '/' && s[k] == '/'
    requires forall q :: i <= q < j ==> IsDigit(s[q])
    requires forall q :: j < q < k ==> IsDigit(s[q])
    requires forall q :: k < q < e ==> IsDigit(s[q])
    ensures s[i..e] == x + "/" + y + "/" + z
    ensures |x| == j - i && |y| == k - j - 1 && |z| == e - k - 1
    ensures AllDigitChars(x) && AllDigitChars(y) && AllDigitChars(z)
  {
    x, y, z := s[i..j], s[j + 1..k], s[k + 1..e];
    assert s[i..e] == s[i..j] + s[j..j + 1] + s[j + 1..k] + s[k..k + 1] + s[k + 1..e];
    assert forall q :: 0 <= q < |x| ==> x[q] == s[i + q];
    assert forall q :: 0 <= q < |y| ==> y[q] == s[j + 1 + q];
    assert forall q :: 0 <= q < |z| ==> z[q] == s[k + 1 + q];
  }

  /** The text of a month-first match, cut into its three pieces. */
  lemma MdyPieces(s: string, p: nat) returns (x: string, y: string, z: string)
    requires MdyAt(s, p).Some?
    ensures s[p..MdyAt(s, p).value] == x + "/" + y + "/" + z
    ensures ShortNumber(x) && ShortNumber(y) && |z| == 4 && AllDigitChars(z)
  {
    var a := DigitRun(s, p);
    var b := DigitRun(s, p + a + 1);
    RunHolds(s, p, IsDigit);
    RunHolds(s, p + a + 1, IsDigit);
    RunHolds(s, p + a + b + 2, IsDigit);
    x, y, z := SlashTriple(s, p, p + a, p + a + 1 + b, p + a + b + 6);
  }

  /** The text of a year-first match, cut into its three pieces. */
  lemma YmdPieces(s: string, p: nat) returns (x: string, y: string, z: string)
    requires YmdAt(s, p).Some?
    ensures s[p..YmdAt(s, p).value] == x + "/" + y + "/" + z
    ensures |x| == 4 && AllDigitChars(x) && ShortNumber(y) && ShortNumber(z)
  {
    var b := DigitRun(s, p + 5);
    var d := Min2(DigitRun(s, p + 6 + b));
    RunHolds(s, p, IsDigit);
    RunHolds(s, p + 5, IsDigit);
    RunHolds(s, p + 6 + b, IsDigit);
    x, y, z := SlashTriple(s, p, p + 4, p + 5 + b, p + 6 + b + d);
  }

  lemma IsoFromPieces(y: string, m: string, d: string)
    requires |y| == 4 && AllDigitChars(y) && ShortNumber(m) && ShortNumber(d)
    ensures IsIsoDate(y + "-" + PadStart2(m) + "-" + PadStart2(d))
  {
    PadShort(m);
    PadShort(d);
    var r := y + "-" + PadStart2(m) + "-" + PadStart2(d);
    assert r[..4] == y && r[5..7] == PadStart2(m) && r[8..] == PadStart2(d);
  }

  /** Both slash forms come out zero-padded as `YYYY-MM-DD`: the match is
      `x/y/z`, and the date is the four-digit piece, then the other two
      padded, month before day. */
  lemma SlashDatesPadded(t: string, today: string) returns (x: string, y: string, z: string)
    requires Find(t, DashDateAt).None?
    requires Find(t, MdyAt).Some? || Find(t, YmdAt).Some?
    ensures FirstDateMatch(t) == Some(x + "/" + y + "/" + z)
    ensures Find(t, MdyAt).Some? ==>
              ShortNumber(x) && ShortNumber(y) && |z| == 4 && AllDigitChars(z) &&
              SearchDate(t, today) == z + "-" + PadStart2(x) + "-" + PadStart2(y)
    ensures Find(t, MdyAt).None? ==>
              |x| == 4 && AllDigitChars(x) && ShortNumber(y) && ShortNumber(z) &&
              SearchDate(t, today) == x + "-" + PadStart2(y) + "-" + PadStart2(z)
    ensures IsIsoDate(SearchDate(t, today))
  {
    match Find(t, MdyAt)
    case Some(sp) =>
      x, y, z := MdyPieces(t, sp.start);
      assert FirstDateMatch(t) == Some(x + "/" + y + "/" + z);
      FormatMonthFirst(x, y, z, today);
    case None =>
      var sp := Find(t, YmdAt).value;
      x, y, z := YmdPieces(t, sp.start);
      assert FirstDateMatch(t) == Some(x + "/" + y + "/" + z);
      FormatYearFirst(x, y, z, today);
  }

  /** With only the bare-year pattern matching, the date is that year's
      first of January. */
  lemma SearchDateBareYear(t: string, today: string)
    requires Find(t, DashDateAt).None? && Find(t, MdyAt).None? && Find(t, YmdAt).None?
    requires Find(t, YearAt).Some?
    ensures SearchDate(t, today) == MatchText(t, YearAt).value + "-01-01"
  {
    var sp := Find(t, YearAt).value;
    BareYearIso(t[sp.start..sp.end]);
  }

  /** A date found by the loops is `DDDD-D-D` with one or two digits for
      month and day; when no pattern matches it is `today`. */
  lemma SearchDateShape(t: string, today: string)
    ensures SearchDate(t, today) == today || IsLooseIsoDate(SearchDate(t, today))
  {
    match Find(t, DashDateAt)
    case Some(sp) =>
    case None =>
      if Find(t, MdyAt).Some? || Find(t, YmdAt).Some? {
        var x, y, z := SlashDatesPadded(t, today);
      } else {
        match Find(t, YearAt)
        case Some(sp) => BareYearIso(t[sp.start..sp.end]);
        case None =>
      }
  }

  lemma BareYearIso(m: string)
    requires |m| == 4 && AllDigitChars(m)
    ensures '-' !in m && '/' !in m
    ensures IsLooseIsoDate(m + "-01-01")
  {
    var r := m + "-01-01";
    assert r[..4] == m && r[5..7] == "01" && r[8..] == "01";
  }

  /** Every dash, month-first or year-first match holds four consecutive
      digits (the year), where the bare-year pattern matches. */
  lemma YearInDateMatch(t: string, p: nat) returns (q: nat)
    requires DashDateAt(t, p).Some? || MdyAt(t, p).Some? || YmdAt(t, p).Some?
    ensures MatchesAt(t, YearAt, q)
  {
    if DashDateAt(t, p).Some? || YmdAt(t, p).Some? {
      q := p;
    } else {
      var a := DigitRun(t, p);
      q := p + a + DigitRun(t, p + a + 1) + 2;
    }
  }

  /** The loops fall back to `today` exactly when the text holds no four
      consecutive digits; with four digits somewhere some pattern matches. */
  lemma SearchDateNeedsFourDigits(t: string, today: string)
    ensures Find(t, YearAt).None? ==> SearchDate(t, today) == today
    ensures Find(t, YearAt).Some? ==> FirstDateMatch(t).Some?
  {
    if Find(t, YearAt).None? {
      var d, m, y := Find(t, DashDateAt), Find(t, MdyAt), Find(t, YmdAt);
      if d.Some? {
        var q := YearInDateMatch(t, d.value.start);
        assert false;
      } else if m.Some? {
        var q := YearInDateMatch(t, m.value.start);
        assert false;
      } else if y.Some? {
        var q := YearInDateMatch(t, y.value.start);
        assert false;
      }
    }
  }

  // ---------------------------------------------------------------------
  // extractWIPOResults
  // ---------------------------------------------------------------------

  /** `dateMatch[0]` of the WIPO date pattern, unreformatted. */
  function WipoDate(t: string): (r: Option<string>)
    ensures r.Some? ==> |r.value| >= 8
  {
    match Find(t, WipoDateAt)
    case Some(sp) => Some(t[sp.start..sp.end])
    case None => None
  }
}
