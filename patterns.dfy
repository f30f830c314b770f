/** Hand-written scanners for the regular expressions of `server.cjs`.

    Each `...At(s, p)` function answers the question the regular-expression
    engine asks at one start position `p`: does the pattern match here, and
    where does the match end? `Text.Find` then supplies the leftmost-position
    search of `String.prototype.match`.

    The engine is a backtracking one: quantifiers are greedy and are retried
    with fewer repetitions when the rest of the pattern fails. In every pattern
    below each quantified run is followed either by nothing or by a character
    the run itself cannot contain (a `-` after `\d{1,2}`, a `\b` after a run of
    word characters, ...), so a retry with fewer repetitions always puts a run
    character where that follower is expected and fails. The first, greedy,
    attempt is therefore the only one that can succeed, and each scanner makes
    just that attempt; the comment on each scanner names the follower that
    makes this so. */
module Patterns {
  import opened Options
  import opened Text

  function Min2(n: nat): (r: nat)
    ensures r <= 2 && r <= n && (r == n || r == 2)
  {
    if n < 2 then n else 2
  }

  /** At least one and at most two digits. */
  predicate ShortNumber(x: string) {
    1 <= |x| <= 2 && AllDigitChars(x)
  }

  // ---------------------------------------------------------------------
  // Patent numbers
  // ---------------------------------------------------------------------

  /** `\d+L?\d*` from `q`, where `L` is the letter class: the maximal digit run
      (at least one digit), then one letter if one follows, then the maximal
      digit run after it. Everything after the first `\d+` is optional, so the
      greedy attempt succeeds whenever the first run is non-empty. */
  function NumberTailAt(s: string, q: nat, L: char -> bool): (r: Option<nat>)
    ensures r.Some? <==> DigitRun(s, q) > 0
    ensures r.Some? ==> q < r.value <= |s|
  {
    var k := DigitRun(s, q);
    if k == 0 then None
    else
      var e := q + k;
      if e < |s| && L(s[e]) then Some(e + 1 + DigitRun(s, e + 1)) else Some(e)
  }

  // `/US\d+[A-Z]?\d*/i`, the patent-number run of `normalizePatent`
  // (server.cjs:1215, 1218). Under the `i` flag both `US` and `[A-Z]` accept
  // either case of an ASCII letter.
  function UsNumberAt(s: string, p: nat): (r: Option<nat>)
    ensures r.Some? ==> p + 3 <= r.value <= |s|
  {
    if p + 2 <= |s| && UpperChar(s[p]) == 'U' && UpperChar(s[p + 1]) == 'S'
    then NumberTailAt(s, p + 2, IsLetter)
    else None
  }

  /** `[A-Z]{2}\d+[A-Z]?\d*`, the bare patent-number shape of the Google
      extractors and of the WIPO title clean-up. */
  function UpperIdAt(s: string, p: nat): (r: Option<nat>)
    ensures r.Some? ==> p + 3 <= r.value <= |s|
  {
    if UpperAt(s, p) && UpperAt(s, p + 1) then NumberTailAt(s, p + 2, IsUpper) else None
  }

  /** `/^[A-Z]{2}\d+[A-Z]?\d*$/.test(t)`. Any other way of matching the
      quantifiers ends at or before the greedy end, so the anchored pattern
      matches exactly when the greedy match reaches the end of `t`. */
  predicate IsIdShaped(t: string) {
    UpperIdAt(t, 0) == Some(|t|)
  }

  /** `/^\d+$/.test(t)`. */
  predicate IsAllDigits(t: string) {
    |t| > 0 && DigitRun(t, 0) == |t|
  }

  lemma IsAllDigitsMeans(t: string)
    ensures IsAllDigits(t) <==> t != [] && AllDigitChars(t)
  {
    RunHolds(t, 0, IsDigit);
    if t != [] && AllDigitChars(t) {
      var k := DigitRun(t, 0);
      if k < |t| {
        assert false;
      }
    }
  }

  // ---------------------------------------------------------------------
  // Dates
  // ---------------------------------------------------------------------

  /** `DDDD-DD-DD`. */
  predicate IsIsoDate(d: string) {
    |d| == 10 && d[4] == '-' && d[7] == '-' &&
    AllDigitChars(d[..4]) && AllDigitChars(d[5..7]) && AllDigitChars(d[8..])
  }

  /** `DDDD-D-D`, with one or two digits for month and day. */
  predicate IsLooseIsoDate(d: string) {
    |d| >= 8 && AllDigitChars(d[..4]) && d[4] == '-' &&
    ((d[6] == '-' && ShortNumber(d[5..6]) && ShortNumber(d[7..])) ||
     (|d| >= 9 && d[7] == '-' && ShortNumber(d[5..7]) && ShortNumber(d[8..])))
  }

  predicate IsDateSep(c: char) { c == '.' || c == '/' || c == '-' }

  /** `DD?DD?DDDD` where each `?` is one of `.`, `/`, `-`. */
  predicate IsEuDate(d: string) {
    |d| == 10 && IsDateSep(d[2]) && IsDateSep(d[5]) &&
    AllDigitChars(d[..2]) && AllDigitChars(d[3..5]) && AllDigitChars(d[6..])
  }

  /** `/\d{4}-\d{2}-\d{2}/` (server.cjs:1232): a fixed-length pattern. */
  function IsoAt(s: string, p: nat): (r: Option<nat>)
    ensures r.Some? <==> p + 10 <= |s| && IsIsoDate(s[p..p + 10])
    ensures r.Some? ==> r.value == p + 10
  {
    if p + 10 <= |s| && IsIsoDate(s[p..p + 10]) then Some(p + 10) else None
  }

  /** `/(\d{2})[./-](\d{2})[./-](\d{4})/` (server.cjs:1233): a fixed-length pattern. */
  function EuAt(s: string, p: nat): (r: Option<nat>)
    ensures r.Some? <==> p + 10 <= |s| && IsEuDate(s[p..p + 10])
    ensures r.Some? ==> r.value == p + 10
  {
    if p + 10 <= |s| && IsEuDate(s[p..p + 10]) then Some(p + 10) else None
  }

  /** `/(\d{4})-(\d{1,2})-(\d{1,2})/` (server.cjs:323, 702, 1084). The
      year's `\d{4}` and the month's `\d{1,2}` are each followed by `-`. */
  function DashDateAt(s: string, p: nat): (r: Option<nat>)
    ensures r.Some? ==> p + 8 <= r.value <= |s| && IsLooseIsoDate(s[p..r.value])
  {
    if DigitRun(s, p) >= 4 && CharAt(s, p + 4, '-') then
      var m := DigitRun(s, p + 5);
      if 1 <= m <= 2 && CharAt(s, p + 5 + m, '-') then
        var d := DigitRun(s, p + 6 + m);
        if d >= 1 then
          var e := p + 6 + m + Min2(d);
          RunHolds(s, p, IsDigit);
          RunHolds(s, p + 5, IsDigit);
          RunHolds(s, p + 6 + m, IsDigit);
          LooseIsoSlice(s, p, m, e);
          Some(e)
        else None
      else None
    else None
  }

  /** Four digits, `-`, `m` digits, `-`, one or two digits: `DDDD-D-D`. */
  lemma LooseIsoSlice(s: string, p: nat, m: nat, e: nat)
    requires 1 <= m <= 2 && p + 6 + m < e <= p + 8 + m && e <= |s|
    requires s[p + 4] == '-' && s[p + 5 + m] == '-'
    requires forall j :: p <= j < p + 4 ==> IsDigit(s[j])
    requires forall j :: p + 5 <= j < p + 5 + m ==> IsDigit(s[j])
    requires forall j :: p + 6 + m <= j < e ==> IsDigit(s[j])
    ensures IsLooseIsoDate(s[p..e])
  {
    var t := s[p..e];
    assert forall j :: 0 <= j < |t| ==> t[j] == s[p + j];
    assert AllDigitChars(t[..4]);
    assert m == 1 ==> ShortNumber(t[5..6]) && ShortNumber(t[7..]);
    assert m == 2 ==> ShortNumber(t[5..7]) && ShortNumber(t[8..]);
  }

  /** `/(\d{1,2})\/(\d{1,2})\/(\d{4})/` (server.cjs:324, 703, 1085). Both
      `\d{1,2}` are followed by `/`. The three pieces are returned so that the
      caller's `split('/')` can be related to them. */
  function MdyAt(s: string, p: nat): (r: Option<nat>)
    ensures r.Some? ==> p + 6 <= r.value <= |s|
  {
    var a := DigitRun(s, p);
    if 1 <= a <= 2 && CharAt(s, p + a, '/') then
      var b := DigitRun(s, p + a + 1);
      if 1 <= b <= 2 && CharAt(s, p + a + 1 + b, '/') && DigitRun(s, p + a + b + 2) >= 4
      then Some(p + a + b + 6)
      else None
    else None
  }

  /** `/(\d{4})\/(\d{1,2})\/(\d{1,2})/` (server.cjs:325, 704, 1086). */
  function YmdAt(s: string, p: nat): (r: Option<nat>)
    ensures r.Some? ==> p + 6 <= r.value <= |s|
  {
    if DigitRun(s, p) >= 4 && CharAt(s, p + 4, '/') then
      var b := DigitRun(s, p + 5);
      if 1 <= b <= 2 && CharAt(s, p + 5 + b, '/') && DigitRun(s, p + 6 + b) >= 1
      then Some(p + 6 + b + Min2(DigitRun(s, p + 6 + b)))
      else None
    else None
  }

  /** `/(\d{4})/` (server.cjs:326, 705, 1087). */
  function YearAt(s: string, p: nat): (r: Option<nat>)
    ensures r.Some? <==> DigitRun(s, p) >= 4
    ensures r.Some? ==> r.value == p + 4 <= |s| && AllDigitChars(s[p..p + 4])
  {
    RunHolds(s, p, IsDigit);
    if DigitRun(s, p) >= 4 then Some(p + 4) else None
  }

  /** `/(\d{1,2}[\.\/\-]\d{1,2}[\.\/\-]\d{4})|(\d{4}[\.\/\-]\d{1,2}[\.\/\-]\d{1,2})/`
      (server.cjs:514). At each position the first alternative is tried before
      the second; every `\d{1,2}` and `\d{4}` not at the end is followed by a
      separator. */
  function WipoDateAt(s: string, p: nat): (r: Option<nat>)
    ensures r.Some? ==> p + 8 <= r.value <= |s|
  {
    var a := DigitRun(s, p);
    var a1 := p + a + 1;
    var b1 := DigitRun(s, a1);
    var b2 := DigitRun(s, p + 5);
    if 1 <= a <= 2 && p + a < |s| && IsDateSep(s[p + a]) &&
       1 <= b1 <= 2 && a1 + b1 < |s| && IsDateSep(s[a1 + b1]) && DigitRun(s, a1 + b1 + 1) >= 4
    then Some(a1 + b1 + 5)
    else if a >= 4 && p + 4 < |s| && IsDateSep(s[p + 4]) &&
       1 <= b2 <= 2 && p + 5 + b2 < |s| && IsDateSep(s[p + 5 + b2]) && DigitRun(s, p + 6 + b2) >= 1
    then Some(p + 6 + b2 + Min2(DigitRun(s, p + 6 + b2)))
    else None
  }

  // ---------------------------------------------------------------------
  // Google Patents result links
  // ---------------------------------------------------------------------

  predicate NotUrlDelim(c: char) { c != '/' && c != '?' && c != '&' && c != '#' }

  predicate NotAmp(c: char) { c != '&' }

  /** `/patent\/([^\/\?&#]+)/` (server.cjs:260, 630); the group starts 7
      characters into the match and the match ends where the run of
      non-delimiters ends. */
  function PatentPathAt(s: string, p: nat): (r: Option<nat>)
    ensures r.Some? ==> p + 6 <= r.value <= |s|
    ensures r.Some? ==> forall j :: p + 7 <= j < r.value ==> NotUrlDelim(s[j])
  {
    var k := Run(s, p + 7, NotUrlDelim);
    RunHolds(s, p + 7, NotUrlDelim);
    if StartsAt(s, p, "patent/") && k >= 1 then Some(p + 7 + k) else None
  }

  /** `/\/([A-Z]{2}\d+[A-Z]?\d*)/` (server.cjs:261); the group starts one
      character into the match. */
  function SlashIdAt(s: string, p: nat): (r: Option<nat>)
    ensures r.Some? ==> p + 4 <= r.value <= |s|
  {
    if CharAt(s, p, '/') then UpperIdAt(s, p + 1) else None
  }

  /** `/patent=([^&]+)/` (server.cjs:262); the group starts 7 characters in. */
  function PatentParamAt(s: string, p: nat): (r: Option<nat>)
    ensures r.Some? ==> p + 6 <= r.value <= |s|
    ensures r.Some? ==> forall j :: p + 7 <= j < r.value ==> NotAmp(s[j])
  {
    var k := Run(s, p + 7, NotAmp);
    RunHolds(s, p + 7, NotAmp);
    if StartsAt(s, p, "patent=") && k >= 1 then Some(p + 7 + k) else None
  }

  // ---------------------------------------------------------------------
  // WIPO row text
  // ---------------------------------------------------------------------

  /** `\b[A-Z]{2}\d{n,}[A-Z]?\d*\b`: `/\b([A-Z]{2}\d{8,}[A-Z]?\d*)\b/`
      (server.cjs:441) for `n == 8`, and `/\b([A-Z]{2}?\d{6,}[A-Z]?\d*)\b/`
      (server.cjs:469) for `n == 6` (there `{2}?` is the lazy form of `{2}`,
      which still takes exactly two letters). Every character of the match
      is a word character, so the final `\b` holds only at the greedy end. */
  function LongIdAt(s: string, p: nat, n: nat): (r: Option<nat>)
    ensures r.Some? ==> p + 2 + n <= r.value <= |s|
  {
    if BoundaryAt(s, p) && UpperAt(s, p) && UpperAt(s, p + 1) && DigitRun(s, p + 2) >= n then
      var e := p + 2 + DigitRun(s, p + 2);
      var e2 := if UpperAt(s, e) then e + 1 + DigitRun(s, e + 1) else e;
      if BoundaryAt(s, e2) then Some(e2) else None
    else None
  }

  function Id8At(s: string, p: nat): Option<nat> { LongIdAt(s, p, 8) }

  function Id6At(s: string, p: nat): Option<nat> { LongIdAt(s, p, 6) }

  /** `/\b(WO\d{4}\/\d+)\b/` (server.cjs:442). */
  function WoNumberAt(s: string, p: nat): (r: Option<nat>)
    ensures r.Some? ==> p + 6 <= r.value <= |s|
  {
    var k := DigitRun(s, p + 7);
    if BoundaryAt(s, p) && StartsAt(s, p, "WO") && DigitRun(s, p + 2) >= 4 &&
       CharAt(s, p + 6, '/') && k >= 1 && BoundaryAt(s, p + 7 + k)
    then Some(p + 7 + k)
    else None
  }

  /** `/\b(\d{4}\/\d+)\b/` (server.cjs:443). */
  function YearSlashAt(s: string, p: nat): (r: Option<nat>)
    ensures r.Some? ==> p + 6 <= r.value <= |s|
  {
    var k := DigitRun(s, p + 5);
    if BoundaryAt(s, p) && DigitRun(s, p) >= 4 && CharAt(s, p + 4, '/') &&
       k >= 1 && BoundaryAt(s, p + 5 + k)
    then Some(p + 5 + k)
    else None
  }

  /** `/\b([A-Z]{2}\s?\d{6,})\b/` (server.cjs:444). Without the optional
      space, `\d{6,}` would have to start on that space, so taking it is the
      only choice that can succeed. */
  function SpacedIdAt(s: string, p: nat): (r: Option<nat>)
    ensures r.Some? ==> p + 6 <= r.value <= |s|
  {
    var q := if SpaceAt(s, p + 2) then p + 3 else p + 2;
    var k := DigitRun(s, q);
    if BoundaryAt(s, p) && UpperAt(s, p) && UpperAt(s, p + 1) && k >= 6 && BoundaryAt(s, q + k)
    then Some(q + k)
    else None
  }

  // `title.replace(/^[A-Z]{2}\d+[A-Z]?\d*\s*[-:]?\s*/, '')` (server.cjs:495).
  // Everything after `\d+` is optional, so the greedy attempt is the match.
  function StripIdPrefix(t: string): (r: string)
    ensures |r| <= |t|
    ensures UpperIdAt(t, 0).None? ==> r == t
  {
    match UpperIdAt(t, 0)
    case None => t
    case Some(e) =>
      var e1 := e + SpaceRun(t, e);
      var e2 := if CharAt(t, e1, '-') || CharAt(t, e1, ':') then e1 + 1 else e1;
      t[e2 + SpaceRun(t, e2)..]
  }

  // ---------------------------------------------------------------------
  // The last cell of a PATENTSCOPE result row (searchWIPO)
  // ---------------------------------------------------------------------

  /** Where the lazy group of `/\d+\.(?:\d+)?\s*(.*?)\s*US/` starts when the
      match starts at `p`: after the digits, the dot, the optional digits and
      the spaces, each taken greedily. */
  function NumberedBodyStart(s: string, p: nat): (r: Option<nat>)
    ensures r.Some? ==> p + 2 <= r.value <= |s|
  {
    var a := DigitRun(s, p);
    if a >= 1 && CharAt(s, p + a, '.') then
      var q := p + a + 1;
      var q2 := q + DigitRun(s, q);
      Some(q2 + SpaceRun(s, q2))
    else None
  }

  /** The lazy `(.*?)` followed by `\s*US`: the first end `c` of the group,
      moving right one character at a time and never over a line terminator
      (which `.` does not match), at which `\s*US` matches. */
  function LazyUsFrom(s: string, c: nat): (r: Option<nat>)
    decreases |s| - c
    ensures r.Some? ==> c <= r.value && r.value + SpaceRun(s, r.value) + 2 <= |s|
    ensures r.Some? ==> StartsAt(s, r.value + SpaceRun(s, r.value), "US")
    ensures r.Some? ==> forall j :: c <= j < r.value ==> !IsLineTerminator(s[j])
  {
    if StartsAt(s, c + SpaceRun(s, c), "US") then Some(c)
    else if c < |s| && !IsLineTerminator(s[c]) then LazyUsFrom(s, c + 1)
    else None
  }

  /** `/\d+\.(?:\d+)?\s*(.*?)\s*US/` (server.cjs:1134). Giving back digits or
      spaces before the group only lets the group start earlier, on
      characters where `\s*US` already failed, so the first attempt decides.
      The group is `s[NumberedBodyStart(..) .. LazyUsFrom(..)]`. */
  function NumberedTitleAt(s: string, p: nat): (r: Option<nat>)
    ensures r.Some? ==> NumberedBodyStart(s, p).Some? && LazyUsFrom(s, NumberedBodyStart(s, p).value).Some?
    ensures r.Some? ==> r.value <= |s|
  {
    match NumberedBodyStart(s, p)
    case None => None
    case Some(b) =>
      match LazyUsFrom(s, b)
      case None => None
      case Some(c) => Some(c + SpaceRun(s, c) + 2)
  }

  /** `DD.DD.DDDD`. */
  predicate IsDottedDate(d: string) {
    |d| == 10 && d[2] == '.' && d[5] == '.' &&
    AllDigitChars(d[..2]) && AllDigitChars(d[3..5]) && AllDigitChars(d[6..])
  }

  /** The part `\b(US)\b\s*-\s*` of `/\b(US)\b\s*-\s*(\d{2}\.\d{2}\.\d{4})?/`
      (server.cjs:1139): the position after it. The first `\s*` is followed
      by `-`; the second is followed only by an optional group. */
  function CountryDashEnd(s: string, p: nat): (r: Option<nat>)
    ensures r.Some? ==> p + 3 <= r.value <= |s|
    ensures r.Some? ==> StartsAt(s, p, "US")
  {
    if BoundaryAt(s, p) && StartsAt(s, p, "US") && BoundaryAt(s, p + 2) then
      var q := p + 2 + SpaceRun(s, p + 2);
      if CharAt(s, q, '-') then Some(q + 1 + SpaceRun(s, q + 1)) else None
    else None
  }

  predicate DottedDateAt(s: string, r: nat) {
    r + 10 <= |s| && IsDottedDate(s[r..r + 10])
  }

  /** `/\b(US)\b\s*-\s*(\d{2}\.\d{2}\.\d{4})?/` (server.cjs:1139); the optional
      date group is taken when it is there. */
  function CountryDateAt(s: string, p: nat): (r: Option<nat>)
    ensures r.Some? ==> CountryDashEnd(s, p).Some?
    ensures r.Some? ==> r.value <= |s|
  {
    match CountryDashEnd(s, p)
    case None => None
    case Some(r) => Some(if DottedDateAt(s, r) then r + 10 else r)
  }
}
