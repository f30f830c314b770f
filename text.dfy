/** The Option type used throughout the model for JavaScript values that may be
    `null`/`undefined` (a missing field, a `querySelector` that found nothing,
    a regular expression that did not match). */
module Options {
  datatype Option<+T> = None | Some(value: T)
}

/** Character classes and string operations of the JavaScript runtime that the
    scraper relies on: `\s`, `\d`, `\b`, `trim`, `toUpperCase`, `includes`,
    `startsWith`, `replace` with a string pattern, `split`, `join`,
    `padStart(2, '0')`, `substring`, and the leftmost search that every
    `String.prototype.match` performs. */
module Text {
  import opened Options

  // ---------------------------------------------------------------------
  // Character classes
  // ---------------------------------------------------------------------

  /** The characters of ECMAScript's `\s` class, which are also exactly those
      `String.prototype.trim` removes: WhiteSpace (TAB, VT, FF, SPACE, NBSP,
      ZWNBSP and the Zs category) and LineTerminator (LF, CR, LS, PS). */
  const Spaces: set<char> := {'\t', '\n', '\U{B}', '\U{C}', '\r', ' ', '\U{A0}', '\U{1680}',
    '\U{2000}', '\U{2001}', '\U{2002}', '\U{2003}', '\U{2004}', '\U{2005}', '\U{2006}', '\U{2007}',
    '\U{2008}', '\U{2009}', '\U{200A}', '\U{2028}', '\U{2029}', '\U{202F}', '\U{205F}', '\U{3000}', '\U{FEFF}'}
  predicate IsSpace(c: char) { c in Spaces }

  /** The characters that `.` in a regular expression does not match. */
  predicate IsLineTerminator(c: char) {
    c == '\n' || c == '\r' || c == '\U{2028}' || c == '\U{2029}'
  }

  /** `\d`: ASCII digits only. */
  predicate IsDigit(c: char) { '0' <= c <= '9' }

  /** `[A-Z]` without the `i` flag. */
  predicate IsUpper(c: char) { 'A' <= c <= 'Z' }

  predicate IsLower(c: char) { 'a' <= c <= 'z' }

  /** `[A-Z]` under the `i` flag: the engine's case folding never maps a
      non-ASCII character onto an ASCII one, so this is exactly the ASCII letters. */
  predicate IsLetter(c: char) { IsUpper(c) || IsLower(c) }

  /** The characters `\w` matches; `\b` sits between a word and a non-word character. */
  predicate IsWordChar(c: char) { IsLetter(c) || IsDigit(c) || c == '_' }

  function UpperChar(c: char): (u: char)
    ensures IsLower(c) ==> IsUpper(u) && u as int == c as int - 32
    ensures !IsLower(c) ==> u == c
  {
    if IsLower(c) then (c as int - 32) as char else c
  }

  function LowerChar(c: char): (l: char)
    ensures IsUpper(c) ==> IsLower(l) && l as int == c as int + 32
    ensures !IsUpper(c) ==> l == c
  {
    if IsUpper(c) then (c as int + 32) as char else c
  }

  /** `toUpperCase`, on ASCII letters. */
  function ToUpper(s: string): (r: string)
    ensures |r| == |s|
    ensures forall i :: 0 <= i < |s| ==> r[i] == UpperChar(s[i])
  {
    seq(|s|, i requires 0 <= i < |s| => UpperChar(s[i]))
  }

  /** `toLowerCase`, on ASCII letters. */
  function ToLower(s: string): (r: string)
    ensures |r| == |s|
    ensures forall i :: 0 <= i < |s| ==> r[i] == LowerChar(s[i])
  {
    seq(|s|, i requires 0 <= i < |s| => LowerChar(s[i]))
  }

  predicate IsUpperCased(s: string) {
    forall i :: 0 <= i < |s| ==> !IsLower(s[i])
  }

  lemma ToUpperIsUpperCased(s: string)
    ensures IsUpperCased(ToUpper(s))
    ensures IsUpperCased(s) ==> ToUpper(s) == s
  {
  }

  predicate AllDigitChars(s: string) {
    forall i :: 0 <= i < |s| ==> IsDigit(s[i])
  }

  // ---------------------------------------------------------------------
  // Runs of characters
  // ---------------------------------------------------------------------

  /** Length of the longest run of characters satisfying `P` that starts at
      position `p`: what a greedy `P*` consumes there. */
  function Run(s: string, p: nat, P: char -> bool): (k: nat)
    decreases |s| - p
    ensures k > 0 ==> p + k <= |s|
    ensures p + k < |s| ==> !P(s[p + k])
  {
    if p < |s| && P(s[p]) then 1 + Run(s, p + 1, P) else 0
  }

  /** Every character of the run satisfies `P`. */
  lemma {:induction false} RunHolds(s: string, p: nat, P: char -> bool)
    ensures forall j :: p <= j < p + Run(s, p, P) ==> P(s[j])
    decreases |s| - p
  {
    if p < |s| && P(s[p]) {
      RunHolds(s, p + 1, P);
    }
  }

  function DigitRun(s: string, p: nat): nat { Run(s, p, IsDigit) }

  function SpaceRun(s: string, p: nat): nat { Run(s, p, IsSpace) }

  predicate CharAt(s: string, p: nat, c: char) { p < |s| && s[p] == c }

  predicate UpperAt(s: string, p: nat) { p < |s| && IsUpper(s[p]) }

  predicate SpaceAt(s: string, p: nat) { p < |s| && IsSpace(s[p]) }

  /** The literal `lit` occurs in `s` at position `p`. */
  predicate StartsAt(s: string, p: nat, lit: string) {
    p + |lit| <= |s| && s[p..p + |lit|] == lit
  }

  /** `s.startsWith(prefix)`. */
  predicate StartsWith(s: string, prefix: string) { StartsAt(s, 0, prefix) }

  /** ECMAScript's `\b` at position `p`: a word character on exactly one side,
      the outside of the string counting as a non-word character. */
  predicate BoundaryAt(s: string, p: nat) {
    var before := 0 < p <= |s| && IsWordChar(s[p - 1]);
    var after := p < |s| && IsWordChar(s[p]);
    before != after
  }

  // ---------------------------------------------------------------------
  // Leftmost search
  // ---------------------------------------------------------------------

  /** A match of a regular expression, as the half-open range `[start, end)`. */
  datatype Span = Span(start: nat, end: nat)

  /** A way of matching a pattern that starts at a given position: the end of
      the match the engine would report there, or `None`. */
  type Matcher = (string, nat) -> Option<nat>

  predicate MatchesAt(s: string, m: Matcher, p: nat) {
    p <= |s| && m(s, p).Some? && p <= m(s, p).value <= |s|
  }

  /** The leftmost position at or after `p` where `m` matches: the search a
      non-global, non-sticky `String.prototype.match` performs. */
  function FindFrom(s: string, m: Matcher, p: nat): (r: Option<Span>)
    decreases |s| + 1 - p
    ensures r.Some? ==> p <= r.value.start <= r.value.end <= |s|
    ensures r.Some? ==> MatchesAt(s, m, r.value.start) && m(s, r.value.start) == Some(r.value.end)
    ensures r.Some? ==> forall q :: p <= q < r.value.start ==> !MatchesAt(s, m, q)
    ensures r.None? ==> forall q :: p <= q ==> !MatchesAt(s, m, q)
  {
    if p > |s| then None
    else if MatchesAt(s, m, p) then Some(Span(p, m(s, p).value))
    else FindFrom(s, m, p + 1)
  }

  function Find(s: string, m: Matcher): Option<Span> { FindFrom(s, m, 0) }

  /** A pattern that matches at the very start is found there. */
  lemma FindAtStart(s: string, m: Matcher)
    requires MatchesAt(s, m, 0)
    ensures Find(s, m) == Some(Span(0, m(s, 0).value))
  {
  }

  /** A pattern that matches nowhere is not found. */
  lemma FindNowhere(s: string, m: Matcher)
    requires forall q: nat :: q <= |s| ==> !MatchesAt(s, m, q)
    ensures Find(s, m) == None
  {
  }

  /** `s.match(re)[0]`, or `None` when there is no match. */
  function MatchText(s: string, m: Matcher): (r: Option<string>)
    ensures r.Some? <==> Find(s, m).Some?
  {
    match Find(s, m)
    case Some(sp) => Some(s[sp.start..sp.end])
    case None => None
  }

  /** Matching a fixed string. */
  function Literal(lit: string): Matcher {
    (t: string, p: nat) => if StartsAt(t, p, lit) then Some(p + |lit|) else None
  }

  /** `s.includes(lit)`. */
  predicate Contains(s: string, lit: string) { Find(s, Literal(lit)).Some? }

  /** `s.replace(pat, rep)` with a string pattern: only the first occurrence is
      replaced (the replacement strings used by the source hold no `$`). */
  function ReplaceFirst(s: string, pat: string, rep: string): (r: string)
  {
    match Find(s, Literal(pat))
    case Some(sp) => s[..sp.start] + rep + s[sp.end..]
    case None => s
  }

  lemma ReplaceFirstAtStart(s: string, pat: string)
    requires StartsWith(s, pat)
    ensures ReplaceFirst(s, pat, "") == s[|pat|..]
  {
    assert MatchesAt(s, Literal(pat), 0);
  }

  lemma ReplaceFirstAbsent(s: string, pat: string, rep: string)
    requires forall p :: !StartsAt(s, p, pat)
    ensures ReplaceFirst(s, pat, rep) == s
  {
  }

  // ---------------------------------------------------------------------
  // Trimming and whitespace collapse
  // ---------------------------------------------------------------------

  function TrimStart(s: string): (r: string)
    ensures |r| <= |s|
    ensures r == [] || !IsSpace(r[0])
    ensures s != [] && IsSpace(s[0]) ==> |r| < |s|
    ensures s == [] || !IsSpace(s[0]) ==> r == s
  {
    if s != [] && IsSpace(s[0]) then TrimStart(s[1..]) else s
  }

  function TrimEnd(s: string): (r: string)
    ensures |r| <= |s|
    ensures r == [] || !IsSpace(r[|r| - 1])
    ensures s == [] || !IsSpace(s[|s| - 1]) ==> r == s
  {
    if s != [] && IsSpace(s[|s| - 1]) then TrimEnd(s[..|s| - 1]) else s
  }

  /** Trimming the start leaves a suffix. */
  lemma {:induction false} TrimStartSuffix(s: string)
    ensures TrimStart(s) == s[|s| - |TrimStart(s)|..]
    decreases |s|
  {
    if s != [] && IsSpace(s[0]) {
      TrimStartSuffix(s[1..]);
      assert s[1..][|s| - 1 - |TrimStart(s)|..] == s[|s| - |TrimStart(s)|..];
    }
  }

  /** Trimming the end leaves a prefix. */
  lemma {:induction false} TrimEndPrefix(s: string)
    ensures TrimEnd(s) == s[..|TrimEnd(s)|]
    decreases |s|
  {
    if s != [] && IsSpace(s[|s| - 1]) {
      TrimEndPrefix(s[..|s| - 1]);
      assert s[..|s| - 1][..|TrimEnd(s)|] == s[..|TrimEnd(s)|];
    }
  }

  /** What trimming the start drops is whitespace. */
  lemma {:induction false} TrimStartDropsSpaces(s: string)
    ensures forall i :: 0 <= i < |s| - |TrimStart(s)| ==> IsSpace(s[i])
    decreases |s|
  {
    if s != [] && IsSpace(s[0]) {
      TrimStartDropsSpaces(s[1..]);
      assert forall i :: 1 <= i < |s| ==> s[i] == s[1..][i - 1];
    }
  }

  /** What trimming the end drops is whitespace. */
  lemma {:induction false} TrimEndDropsSpaces(s: string)
    ensures forall i :: |TrimEnd(s)| <= i < |s| ==> IsSpace(s[i])
    decreases |s|
  {
    if s != [] && IsSpace(s[|s| - 1]) {
      TrimEndDropsSpaces(s[..|s| - 1]);
      assert forall i :: 0 <= i < |s| - 1 ==> s[i] == s[..|s| - 1][i];
    }
  }

  /** `String.prototype.trim`. */
  function Trim(s: string): (r: string)
    ensures r == [] || (!IsSpace(r[0]) && !IsSpace(r[|r| - 1]))
  {
    var e := TrimEnd(s);
    TrimStartSuffix(e);
    assert TrimStart(e) == [] || TrimStart(e)[|TrimStart(e)| - 1] == e[|e| - 1];
    TrimStart(e)
  }

  /** `trim` removes whitespace at both ends and nothing else: its result is
      a slice of the text with only whitespace before and after it. */
  lemma TrimIsSlice(s: string)
    ensures exists a, b :: 0 <= a <= b <= |s| && Trim(s) == s[a..b] &&
              (forall i :: 0 <= i < a ==> IsSpace(s[i])) &&
              (forall i :: b <= i < |s| ==> IsSpace(s[i]))
  {
    var e := TrimEnd(s);
    TrimEndPrefix(s);
    TrimEndDropsSpaces(s);
    TrimStartSuffix(e);
    TrimStartDropsSpaces(e);
    var a, b := |e| - |TrimStart(e)|, |e|;
    assert Trim(s) == s[a..b];
    assert forall i :: 0 <= i < a ==> IsSpace(s[i]) by {
      assert forall i :: 0 <= i < a ==> s[i] == e[i];
    }
  }

  /** `s.replace(/\s+/g, " ")`: every maximal run of whitespace becomes one space. */
  function Collapse(s: string): (r: string)
    decreases |s|
    ensures |r| <= |s|
    ensures r == [] <==> s == []
    ensures r != [] ==> (IsSpace(r[0]) <==> IsSpace(s[0]))
  {
    if s == [] then []
    else if IsSpace(s[0]) then [' '] + Collapse(TrimStart(s))
    else [s[0]] + Collapse(s[1..])
  }

  /** Trimming the start of `a + b` stays inside `a` when `a` ends on a
      non-space character. */
  lemma {:induction false} TrimStartPrefixed(a: string, b: string)
    requires a != [] && !IsSpace(a[|a| - 1])
    ensures TrimStart(a + b) == TrimStart(a) + b
    decreases |a|
  {
    if IsSpace(a[0]) {
      TrimStartPrefixed(a[1..], b);
      assert (a + b)[1..] == a[1..] + b;
    }
  }

  /** Trimming skips a run of whitespace in front of anything else. */
  lemma {:induction false} TrimStartSpaces(w: string, b: string)
    requires forall i :: 0 <= i < |w| ==> IsSpace(w[i])
    ensures TrimStart(w + b) == TrimStart(b)
    decreases |w|
  {
    if w == [] {
      assert w + b == b;
    } else {
      TrimStartSpaces(w[1..], b);
      assert (w + b)[1..] == w[1..] + b;
    }
  }

  /** A run of whitespace in front of a non-space character (or the end)
      becomes exactly one space. */
  lemma CollapseRun(w: string, b: string)
    requires w != [] && forall i :: 0 <= i < |w| ==> IsSpace(w[i])
    requires b == [] || !IsSpace(b[0])
    ensures Collapse(w + b) == [' '] + Collapse(b)
  {
    TrimStartSpaces(w, b);
    assert (w + b)[0] == w[0];
  }

  lemma TrimStartKeepsLast(a: string)
    requires a != [] && !IsSpace(a[|a| - 1])
    ensures TrimStart(a) != [] && TrimStart(a)[|TrimStart(a)| - 1] == a[|a| - 1]
    ensures |TrimStart(a)| < |a| || !IsSpace(a[0])
  {
    TrimStartSuffix(a);
    TrimStartDropsSpaces(a);
  }

  lemma CollapseSpaceHead(a: string, b: string)
    requires a != [] && IsSpace(a[0]) && !IsSpace(a[|a| - 1])
    ensures Collapse(a + b) == [' '] + Collapse(TrimStart(a) + b)
    ensures Collapse(a) == [' '] + Collapse(TrimStart(a))
  {
    TrimStartPrefixed(a, b);
    assert (a + b)[0] == a[0];
  }

  lemma CollapseCharHead(a: string, b: string)
    requires a != [] && !IsSpace(a[0])
    ensures Collapse(a + b) == [a[0]] + Collapse(a[1..] + b)
    ensures Collapse(a) == [a[0]] + Collapse(a[1..])
  {
    assert (a + b)[1..] == a[1..] + b;
    assert (a + b)[0] == a[0];
  }

  /** Collapsing works piece by piece when the first piece ends on a
      non-space character, so no whitespace run spans the cut. */
  lemma {:induction false} CollapseAppend(a: string, b: string)
    requires a == [] || !IsSpace(a[|a| - 1])
    ensures Collapse(a + b) == Collapse(a) + Collapse(b)
    decreases |a|
  {
    if a == [] {
      assert a + b == b;
    } else if IsSpace(a[0]) {
      var t := TrimStart(a);
      TrimStartKeepsLast(a);
      CollapseSpaceHead(a, b);
      CollapseAppend(t, b);
      ConsAssoc(' ', Collapse(t), Collapse(b));
    } else {
      CollapseCharHead(a, b);
      CollapseAppend(a[1..], b);
      ConsAssoc(a[0], Collapse(a[1..]), Collapse(b));
    }
  }

  lemma ConsAssoc(c: char, x: string, y: string)
    ensures [c] + (x + y) == [c] + x + y
  {
  }

  /** `s.replace(/\u00A0/g, " ")`. */
  function ReplaceNbsp(s: string): (r: string)
    ensures |r| == |s|
  {
    seq(|s|, i requires 0 <= i < |s| => if s[i] == '\U{A0}' then ' ' else s[i])
  }

  /** `clean` in `normalizePatent`: collapse whitespace runs, replace
      non-breaking spaces, trim. */
  function Clean(s: string): string {
    Trim(ReplaceNbsp(Collapse(s)))
  }

  /** Every whitespace character is a plain space and no two are adjacent. */
  predicate SingleSpaced(s: string) {
    (forall i :: 0 <= i < |s| && IsSpace(s[i]) ==> s[i] == ' ') &&
    (forall i :: 0 <= i < |s| - 1 && IsSpace(s[i]) ==> !IsSpace(s[i + 1]))
  }

  /** The shape of every string `clean` returns. */
  predicate IsClean(s: string) {
    SingleSpaced(s) && (s == [] || (!IsSpace(s[0]) && !IsSpace(s[|s| - 1])))
  }

  lemma SingleSpacedCons(c: char, r: string)
    requires SingleSpaced(r)
    requires IsSpace(c) ==> c == ' ' && (r == [] || !IsSpace(r[0]))
    ensures SingleSpaced([c] + r)
  {
    var t := [c] + r;
    forall i | 0 <= i < |t| && IsSpace(t[i]) ensures t[i] == ' ' {
      if i > 0 { assert t[i] == r[i - 1]; }
    }
    forall i | 0 <= i < |t| - 1 && IsSpace(t[i]) ensures !IsSpace(t[i + 1]) {
      assert t[i + 1] == r[i];
      if i > 0 { assert t[i] == r[i - 1]; }
    }
  }

  lemma {:induction false} CollapseSingleSpaced(s: string)
    ensures SingleSpaced(Collapse(s))
    decreases |s|
  {
    if s == [] {
    } else if IsSpace(s[0]) {
      var t := TrimStart(s);
      CollapseSingleSpaced(t);
      SingleSpacedCons(' ', Collapse(t));
    } else {
      CollapseSingleSpaced(s[1..]);
      SingleSpacedCons(s[0], Collapse(s[1..]));
    }
  }

  lemma SingleSpacedSlice(s: string, a: nat, b: nat)
    requires a <= b <= |s|
    requires SingleSpaced(s)
    ensures SingleSpaced(s[a..b])
  {
    var t := s[a..b];
    forall i | 0 <= i < |t| - 1 && IsSpace(t[i]) ensures !IsSpace(t[i + 1]) {
      assert t[i] == s[a + i] && t[i + 1] == s[a + i + 1];
    }
  }

  lemma ReplaceNbspNoop(s: string)
    requires SingleSpaced(s)
    ensures ReplaceNbsp(s) == s
  {
  }

  lemma TrimSingleSpaced(s: string)
    requires SingleSpaced(s)
    ensures IsClean(Trim(s))
  {
    var e := TrimEnd(s);
    SingleSpacedSlice(s, 0, |e|);
    var t := TrimStart(e);
    SingleSpacedSlice(e, |e| - |t|, |e|);
    if t != [] {
      assert t[|t| - 1] == e[|e| - 1];
    }
  }

  /** `clean` always produces a trimmed, single-spaced string. */
  lemma CleanIsClean(s: string)
    ensures IsClean(Clean(s))
  {
    CollapseSingleSpaced(s);
    ReplaceNbspNoop(Collapse(s));
    TrimSingleSpaced(Collapse(s));
  }

  lemma {:induction false} CollapseSingleSpacedNoop(s: string)
    requires SingleSpaced(s)
    ensures Collapse(s) == s
    decreases |s|
  {
    if s != [] {
      SingleSpacedSlice(s, 1, |s|);
      CollapseSingleSpacedNoop(s[1..]);
      var t := s[1..];
      assert [s[0]] + t == s;
      if IsSpace(s[0]) {
        assert s[0] == ' ';
        assert t == [] || !IsSpace(t[0]);
        assert TrimStart(t) == t;
        assert TrimStart(s) == t;
        assert Collapse(s) == [' '] + Collapse(t);
      } else {
        assert Collapse(s) == [s[0]] + Collapse(t);
      }
    }
  }

  /** On an already clean string `clean` changes nothing. */
  lemma CleanNoop(s: string)
    requires IsClean(s)
    ensures Clean(s) == s
  {
    CollapseSingleSpacedNoop(s);
    ReplaceNbspNoop(s);
  }

  /** `clean(clean(x)) == clean(x)`. */
  lemma CleanIdempotent(s: string)
    ensures Clean(Clean(s)) == Clean(s)
  {
    CleanIsClean(s);
    CleanNoop(Clean(s));
  }

  lemma CleanUpperCased(s: string)
    requires IsClean(s)
    ensures IsClean(ToUpper(s))
  {
    var u := ToUpper(s);
    assert forall i :: 0 <= i < |s| ==> (IsSpace(u[i]) <==> IsSpace(s[i]));
  }

  // ---------------------------------------------------------------------
  // Other string helpers
  // ---------------------------------------------------------------------

  /** `s.length > n ? s.substring(0, n) + '...' : s`, the abstract cap. */
  function Truncate(s: string, n: nat): (r: string)
    ensures |r| <= n + 3
    ensures |s| <= n ==> r == s
    ensures |s| > n ==> |r| == n + 3 && r[..n] == s[..n] && r[n..] == "..."
  {
    if |s| > n then s[..n] + "..." else s
  }

  /** `s.padStart(2, '0')`. */
  function PadStart2(s: string): (r: string)
    ensures |s| >= 2 ==> r == s
    ensures |s| < 2 ==> |r| == 2 && r[2 - |s|..] == s
    ensures |s| < 2 ==> forall i :: 0 <= i < 2 - |s| ==> r[i] == '0'
  {
    if |s| >= 2 then s else if |s| == 1 then "0" + s else "00"
  }

  /** `s.split(sep)` where `sep` is one character or a character class:
      the pieces between separators, empty pieces included. */
  function Split(s: string, Sep: char -> bool): (parts: seq<string>)
    decreases |s|
    ensures |parts| >= 1
  {
    if s == [] then [[]]
    else
      var rest := Split(s[1..], Sep);
      if Sep(s[0]) then [[]] + rest else [[s[0]] + rest[0]] + rest[1..]
  }

  lemma {:induction false} SplitNoSep(s: string, Sep: char -> bool)
    requires forall i :: 0 <= i < |s| ==> !Sep(s[i])
    ensures Split(s, Sep) == [s]
    decreases |s|
  {
    if s != [] {
      SplitNoSep(s[1..], Sep);
      assert [s[0]] + s[1..] == s;
    }
  }

  lemma {:induction false} SplitAt(a: string, c: char, b: string, Sep: char -> bool)
    requires forall i :: 0 <= i < |a| ==> !Sep(a[i])
    requires Sep(c)
    ensures Split(a + [c] + b, Sep) == [a] + Split(b, Sep)
    decreases |a|
  {
    if a == [] {
      assert a + [c] + b == [c] + b;
      assert ([c] + b)[1..] == b;
    } else {
      SplitAt(a[1..], c, b, Sep);
      assert (a + [c] + b)[1..] == a[1..] + [c] + b;
      assert [a[0]] + a[1..] == a;
    }
  }

  /** `parts.join(sep)`. */
  function Join(parts: seq<string>, sep: string): string
    decreases |parts|
  {
    if parts == [] then ""
    else if |parts| == 1 then parts[0]
    else parts[0] + sep + Join(parts[1..], sep)
  }

  /** Splitting a joined list at a separator character that no piece contains
      gives the list back. */
  lemma {:induction false} SplitJoin(parts: seq<string>, c: char)
    requires parts != []
    requires forall k, i :: 0 <= k < |parts| && 0 <= i < |parts[k]| ==> parts[k][i] != c
    ensures Split(Join(parts, [c]), x => x == c) == parts
    decreases |parts|
  {
    var Sep := x => x == c;
    if |parts| == 1 {
      SplitNoSep(parts[0], Sep);
    } else {
      SplitJoin(parts[1..], c);
      assert forall i :: 0 <= i < |parts[0]| ==> !Sep(parts[0][i]);
      SplitAt(parts[0], c, Join(parts[1..], [c]), Sep);
      assert Join(parts, [c]) == parts[0] + [c] + Join(parts[1..], [c]);
      assert [parts[0]] + parts[1..] == parts;
    }
  }

  function DigitChar(d: nat): (c: char)
    requires d < 10
    ensures IsDigit(c)
  {
    ('0' as int + d) as char
  }

  /** The decimal form of a non-negative number, as template literals print it. */
  function NatToString(n: nat): (r: string)
    ensures r != [] && AllDigitChars(r)
  {
    if n < 10 then [DigitChar(n)] else NatToString(n / 10) + [DigitChar(n % 10)]
  }

  /** The number a string of decimal digits spells. */
  function DecimalValue(s: string): nat
    requires AllDigitChars(s)
  {
    if s == [] then 0 else 10 * DecimalValue(s[..|s| - 1]) + (s[|s| - 1] as int - '0' as int)
  }

  /** The digits `NatToString` writes spell the number itself. */
  lemma {:induction false} NatToStringValue(n: nat)
    ensures DecimalValue(NatToString(n)) == n
    decreases n
  {
    var r := NatToString(n);
    if n < 10 {
      assert r[..0] == [];
    } else {
      NatToStringValue(n / 10);
      assert r[..|r| - 1] == NatToString(n / 10);
    }
  }

  /** Distinct numbers print differently, also behind a common prefix. */
  lemma NatToStringInjective(prefix: string, m: nat, n: nat)
    ensures prefix + NatToString(m) == prefix + NatToString(n) <==> m == n
  {
    if prefix + NatToString(m) == prefix + NatToString(n) {
      assert (prefix + NatToString(m))[|prefix|..] == NatToString(m);
      assert (prefix + NatToString(n))[|prefix|..] == NatToString(n);
      NatToStringValue(m);
      NatToStringValue(n);
    }
  }

  /** `s.replace(/\s+/g, '')`. */
  function RemoveSpaces(s: string): (r: string)
    ensures forall i :: 0 <= i < |r| ==> !IsSpace(r[i])
    ensures |r| <= |s|
  {
    if s == [] then []
    else if IsSpace(s[0]) then RemoveSpaces(s[1..])
    else [s[0]] + RemoveSpaces(s[1..])
  }

  /** Removing whitespace works piece by piece. */
  lemma {:induction false} RemoveSpacesAppend(a: string, b: string)
    ensures RemoveSpaces(a + b) == RemoveSpaces(a) + RemoveSpaces(b)
    decreases |a|
  {
    if a == [] {
      assert a + b == b;
    } else {
      RemoveSpacesAppend(a[1..], b);
      assert (a + b)[1..] == a[1..] + b;
    }
  }

  /** Text without whitespace is kept as it is, and whitespace alone goes. */
  lemma {:induction false} RemoveSpacesKeeps(s: string)
    ensures (forall i :: 0 <= i < |s| ==> !IsSpace(s[i])) ==> RemoveSpaces(s) == s
    ensures (forall i :: 0 <= i < |s| ==> IsSpace(s[i])) ==> RemoveSpaces(s) == []
    decreases |s|
  {
    if s != [] {
      RemoveSpacesKeeps(s[1..]);
      assert forall i :: 1 <= i < |s| ==> s[i] == s[1..][i - 1];
      assert [s[0]] + s[1..] == s;
    }
  }

  lemma {:induction false} RemoveSpacesTrimStart(s: string)
    ensures RemoveSpaces(TrimStart(s)) == RemoveSpaces(s)
    decreases |s|
  {
    if s != [] && IsSpace(s[0]) {
      RemoveSpacesTrimStart(s[1..]);
    }
  }

  lemma {:induction false} RemoveSpacesTrimEnd(s: string)
    ensures RemoveSpaces(TrimEnd(s)) == RemoveSpaces(s)
    decreases |s|
  {
    if s != [] && IsSpace(s[|s| - 1]) {
      var c := [s[|s| - 1]];
      RemoveSpacesTrimEnd(s[..|s| - 1]);
      assert s == s[..|s| - 1] + c;
      RemoveSpacesAppend(s[..|s| - 1], c);
      RemoveSpacesKeeps(c);
    }
  }

  /** `trim` removes only whitespace. */
  lemma RemoveSpacesTrim(s: string)
    ensures RemoveSpaces(Trim(s)) == RemoveSpaces(s)
  {
    RemoveSpacesTrimEnd(s);
    RemoveSpacesTrimStart(TrimEnd(s));
  }

  /** Collapsing whitespace keeps every other character, in order. */
  lemma {:induction false} RemoveSpacesCollapse(s: string)
    ensures RemoveSpaces(Collapse(s)) == RemoveSpaces(s)
    decreases |s|
  {
    if s == [] {
    } else if IsSpace(s[0]) {
      var t := TrimStart(s);
      RemoveSpacesCollapse(t);
      RemoveSpacesTrimStart(s);
      assert ([' '] + Collapse(t))[1..] == Collapse(t);
    } else {
      RemoveSpacesCollapse(s[1..]);
      assert ([s[0]] + Collapse(s[1..]))[1..] == Collapse(s[1..]);
    }
  }

  /** Turning non-breaking spaces into spaces changes no other character. */
  lemma {:induction false} RemoveSpacesNbsp(s: string)
    ensures RemoveSpaces(ReplaceNbsp(s)) == RemoveSpaces(s)
    decreases |s|
  {
    if s != [] {
      RemoveSpacesNbsp(s[1..]);
      assert ReplaceNbsp(s)[1..] == ReplaceNbsp(s[1..]);
    }
  }

  /** `clean` removes and rewrites whitespace only: every other character
      survives, in order. */
  lemma RemoveSpacesClean(s: string)
    ensures RemoveSpaces(Clean(s)) == RemoveSpaces(s)
  {
    RemoveSpacesCollapse(s);
    RemoveSpacesNbsp(Collapse(s));
    RemoveSpacesTrim(ReplaceNbsp(Collapse(s)));
  }
}
