/** `clean`, `normalizePatent` and `normalizeAll` (server.cjs:1203-1279): a
    total map from a loosely shaped raw record to the fixed record shape of the
    API. A raw field is `None` when absent; JavaScript truthiness of a string
    field is "present and non-empty". */
module Normalize {
  import opened Options
  import opened Text
  import opened Patterns
  import opened Dates
  import opened Shared

  datatype RawPatent = RawPatent(
    id: Option<string>,
    title: Option<string>,
    date: Option<string>,
    inventors: Option<seq<string>>,
    inventor: Option<string>,
    applicant: Option<string>,
    abstractText: Option<string>,
    googlePatentUrl: Option<string>,
    pdfUrl: Option<string>)

  datatype Patent = Patent(
    id: string,
    title: string,
    date: string,
    inventors: seq<string>,
    applicant: string,
    abstractText: string,
    googlePatentUrl: string,
    pdfUrl: string,
    status: string)

  const NoFields := RawPatent(None, None, None, None, None, None, None, None, None)

  const GooglePatentBase := "https://patents.google.com/patent/"
  const AbstractLimit := 600

  predicate Truthy(v: Option<string>) { v.Some? && v.value != "" }

  /** `v || ""`. */
  function OrEmpty(v: Option<string>): (r: string)
    ensures Truthy(v) ==> r == v.value
    ensures !Truthy(v) ==> r == ""
  {
    if v.Some? then v.value else ""
  }

  // ---------------------------------------------------------------------
  // US-number runs
  // ---------------------------------------------------------------------

  // The whole of `t` is one `/US\d+[A-Z]?\d*/i` run.
  predicate IsUsNumber(t: string) { UsNumberAt(t, 0) == Some(|t|) }

  lemma {:induction false} RunSlice(s: string, a: nat, b: nat, i: nat, P: char -> bool)
    requires a + i <= b <= |s|
    requires a + i + Run(s, a + i, P) <= b
    ensures Run(s[a..b], i, P) == Run(s, a + i, P)
    decreases b - a - i
  {
    if a + i < b && P(s[a + i]) {
      assert s[a..b][i] == s[a + i];
      RunSlice(s, a, b, i + 1, P);
    }
  }

  lemma {:induction false} DigitRunUpper(s: string, i: nat)
    ensures DigitRun(ToUpper(s), i) == DigitRun(s, i)
    decreases |s| - i
  {
    if i < |s| {
      DigitRunUpper(s, i + 1);
    }
  }

  /** The greedy number tail, cut out of `s`, is still the whole tail. */
  lemma NumberTailSlice(s: string, a: nat, q: nat, b: nat, L: char -> bool)
    requires a <= q && NumberTailAt(s, q, L) == Some(b)
    ensures b <= |s| && NumberTailAt(s[a..b], q - a, L) == Some(b - a)
  {
    var e := q + DigitRun(s, q);
    if e < |s| && L(s[e]) {
      TailSliceLetter(s, a, q, e, b, L);
    } else {
      TailSliceDigits(s, a, q, b, L);
    }
  }

  lemma TailSliceDigits(s: string, a: nat, q: nat, b: nat, L: char -> bool)
    requires a <= q && DigitRun(s, q) > 0 && b == q + DigitRun(s, q) <= |s|
    ensures NumberTailAt(s[a..b], q - a, L) == Some(b - a)
  {
    RunSlice(s, a, b, q - a, IsDigit);
  }

  lemma TailSliceLetter(s: string, a: nat, q: nat, e: nat, b: nat, L: char -> bool)
    requires a <= q && DigitRun(s, q) > 0 && e == q + DigitRun(s, q) < |s| && L(s[e])
    requires b == e + 1 + DigitRun(s, e + 1) <= |s|
    ensures NumberTailAt(s[a..b], q - a, L) == Some(b - a)
  {
    var t := s[a..b];
    RunSlice(s, a, b, q - a, IsDigit);
    RunSlice(s, a, b, e - a + 1, IsDigit);
    var k, k2 := DigitRun(t, q - a), DigitRun(t, e - a + 1);
    assert k == e - q && k2 == b - e - 1;
    assert t[e - a] == s[e];
    assert L(t[q - a + k]);
  }

  /** The text of a match is itself one whole run. */
  lemma UsNumberSlice(s: string, p: nat)
    requires UsNumberAt(s, p).Some?
    ensures IsUsNumber(s[p..UsNumberAt(s, p).value])
  {
    var e := UsNumberAt(s, p).value;
    NumberTailSlice(s, p, p + 2, e, IsLetter);
    var m := s[p..e];
    assert m[0] == s[p] && m[1] == s[p + 1];
  }

  /** Upper-casing keeps a run a run. */
  lemma UsNumberUpper(t: string)
    requires IsUsNumber(t)
    ensures IsUsNumber(ToUpper(t))
  {
    var u := ToUpper(t);
    DigitRunUpper(t, 2);
    var k := DigitRun(t, 2);
    if 2 + k < |t| {
      DigitRunUpper(t, 3 + k);
    }
  }

  /** A run holds no whitespace, so `clean` leaves it alone. */
  lemma UsNumberIsClean(t: string)
    requires IsUsNumber(t)
    ensures IsClean(t)
  {
    var k := DigitRun(t, 2);
    RunHolds(t, 2, IsDigit);
    RunHolds(t, 3 + k, IsDigit);
    assert forall i :: 0 <= i < |t| ==> IsWordChar(t[i]);
    WordCharsClean(t);
  }

  /** Letters, digits and `_` are not whitespace. */
  lemma WordCharsClean(t: string)
    requires forall i :: 0 <= i < |t| ==> IsWordChar(t[i])
    ensures IsClean(t)
  {
    assert forall c :: IsWordChar(c) ==> !IsSpace(c);
  }

  // The first run in `t`, upper-cased: `t.match(/US\d+[A-Z]?\d*/i)[0].toUpperCase()`.
  function UsRun(t: string): (r: Option<string>)
    ensures r.Some? ==> IsUsNumber(r.value) && IsUpperCased(r.value)
    ensures r.None? <==> Find(t, UsNumberAt).None?
  {
    match Find(t, UsNumberAt)
    case Some(sp) =>
      UsNumberSlice(t, sp.start);
      UsNumberUpper(t[sp.start..sp.end]);
      ToUpperIsUpperCased(t[sp.start..sp.end]);
      Some(ToUpper(t[sp.start..sp.end]))
    case None => None
  }

  /** A run is found at the start of itself. */
  lemma UsRunOfRun(t: string)
    requires IsUsNumber(t) && IsUpperCased(t)
    ensures UsRun(t) == Some(t)
  {
    assert MatchesAt(t, UsNumberAt, 0);
    assert t[0..|t|] == t;
    ToUpperIsUpperCased(t);
  }

  // ---------------------------------------------------------------------
  // The fields
  // ---------------------------------------------------------------------

  /** The id rule (server.cjs:1211-1220). */
  function NormalizeId(raw: RawPatent): string {
    if Truthy(raw.id) then
      var u := ToUpper(Clean(raw.id.value));
      match UsRun(u)
      case Some(m) => m
      case None => u
    else
      match UsRun(OrEmpty(raw.title))
      case Some(m) => m
      case None => ""
  }

  /** The title rule (server.cjs:1223-1226): the cleaned title, minus the
      first case-sensitive occurrence of the id when the upper-cased title
      starts with the id. */
  function NormalizeTitle(rawTitle: Option<string>, id: string): string {
    var t := Clean(OrEmpty(rawTitle));
    if id != "" && StartsWith(ToUpper(t), id) then Trim(ReplaceFirst(t, id, "")) else t
  }

  function NormalizeDateField(d: Option<string>): string {
    if Truthy(d) then NormalizeDate(Clean(d.value)) else ""
  }

  /** `xs.map(clean).filter(Boolean)`. */
  function CleanAll(xs: seq<string>): (r: seq<string>)
    ensures |r| <= |xs|
    ensures forall k :: 0 <= k < |r| ==> r[k] != "" && IsClean(r[k])
  {
    if xs == [] then []
    else
      var rest := CleanAll(xs[1..]);
      var c := Clean(xs[0]);
      CleanIsClean(xs[0]);
      if c == "" then rest else [c] + rest
  }

  /** The filtered list is empty exactly when every entry cleans to "". */
  lemma {:induction false} CleanAllEmpty(xs: seq<string>)
    ensures CleanAll(xs) == [] <==> forall k :: 0 <= k < |xs| ==> Clean(xs[k]) == ""
    decreases |xs|
  {
    if xs != [] {
      CleanAllEmpty(xs[1..]);
      assert forall k :: 1 <= k < |xs| ==> xs[k] == xs[1..][k - 1];
    }
  }

  /** The inventors rule (server.cjs:1244-1250). */
  function NormalizeInventors(arr: Option<seq<string>>, inventor: Option<string>): seq<string> {
    var found :=
      if arr.Some? && |arr.value| > 0 then CleanAll(arr.value)
      else if Truthy(inventor) then [Clean(inventor.value)]
      else [];
    if found == [] then [UnknownInventor] else found
  }

  /** The abstract cap (server.cjs:1256-1257). */
  function CapAbstract(a: string): string { Truncate(a, AbstractLimit) }

  function DefaultGoogleUrl(raw: RawPatent, id: string): string {
    if Truthy(raw.googlePatentUrl) then raw.googlePatentUrl.value
    else if id != "" then GooglePatentBase + id + "/en"
    else ""
  }

  function DefaultPdfUrl(raw: RawPatent, googleUrl: string, id: string): string {
    if Truthy(raw.pdfUrl) then raw.pdfUrl.value
    else if googleUrl != "" then googleUrl + "?oq=" + id
    else ""
  }

  /** `normalizePatent`. */
  function NormalizePatent(raw: RawPatent): Patent {
    var id := NormalizeId(raw);
    var googleUrl := DefaultGoogleUrl(raw, id);
    Patent(
      id,
      NormalizeTitle(raw.title, id),
      NormalizeDateField(raw.date),
      NormalizeInventors(raw.inventors, raw.inventor),
      Clean(OrEmpty(raw.applicant)),
      CapAbstract(Clean(OrEmpty(raw.abstractText))),
      googleUrl,
      DefaultPdfUrl(raw, googleUrl, id),
      "available")
  }

  /** `normalizeAll`: `[]` for anything that is not an array. */
  function NormalizeAll(raws: Option<seq<RawPatent>>): (r: seq<Patent>)
    ensures raws.None? ==> r == []
    ensures raws.Some? ==> |r| == |raws.value|
    ensures raws.Some? ==> forall k :: 0 <= k < |r| ==> r[k] == NormalizePatent(raws.value[k])
  {
    if raws.None? then []
    else seq(|raws.value|, k requires 0 <= k < |raws.value| => NormalizePatent(raws.value[k]))
  }

  // ---------------------------------------------------------------------
  // Properties
  // ---------------------------------------------------------------------

  /** Every record has the constant status, at least one inventor, a clean
      applicant, a date that is empty or `DDDD-DD-DD`, and an upper-cased id;
      a title, date, applicant or abstract that is missing (or "") becomes "". */
  lemma NormalizeTotal(raw: RawPatent)
    ensures NormalizePatent(raw).status == "available"
    ensures |NormalizePatent(raw).inventors| >= 1
    ensures IsClean(NormalizePatent(raw).applicant)
    ensures NormalizePatent(raw).date == "" || IsIsoDate(NormalizePatent(raw).date)
    ensures IsUpperCased(NormalizePatent(raw).id)
    ensures !Truthy(raw.title) ==> NormalizePatent(raw).title == ""
    ensures !Truthy(raw.date) ==> NormalizePatent(raw).date == ""
    ensures !Truthy(raw.applicant) ==> NormalizePatent(raw).applicant == ""
    ensures !Truthy(raw.abstractText) ==> NormalizePatent(raw).abstractText == ""
  {
    ApplicantIsClean(raw);
    DateIsIso(raw);
    IdUpperCased(raw);
    CleanBlank();
  }

  lemma ApplicantIsClean(raw: RawPatent)
    ensures IsClean(NormalizePatent(raw).applicant)
  {
    CleanIsClean(OrEmpty(raw.applicant));
  }

  lemma DateIsIso(raw: RawPatent)
    ensures NormalizePatent(raw).date == "" || IsIsoDate(NormalizePatent(raw).date)
  {
    if Truthy(raw.date) {
      NormalizeDateShape(Clean(raw.date.value));
    }
  }

  lemma IdUpperCased(raw: RawPatent)
    ensures IsUpperCased(NormalizePatent(raw).id)
  {
    if Truthy(raw.id) {
      var u := ToUpper(Clean(raw.id.value));
      ToUpperIsUpperCased(Clean(raw.id.value));
      match UsRun(u)
      case Some(m) =>
      case None =>
    } else {
      match UsRun(OrEmpty(raw.title))
      case Some(m) =>
      case None =>
    }
  }

  /** The four ways the inventors come about; in particular the sentinel
      appears when there is no array and no scalar, and when every array entry
      cleans to nothing, and a scalar is never split. */
  lemma InventorsCases(arr: Option<seq<string>>, inventor: Option<string>)
    ensures var inv := NormalizeInventors(arr, inventor);
            (arr.None? || arr.value == []) && !Truthy(inventor) ==> inv == [UnknownInventor]
    ensures var inv := NormalizeInventors(arr, inventor);
            arr.Some? && arr.value != [] &&
            (forall k :: 0 <= k < |arr.value| ==> Clean(arr.value[k]) == "") ==>
              inv == [UnknownInventor]
    ensures var inv := NormalizeInventors(arr, inventor);
            arr.Some? && (exists k :: 0 <= k < |arr.value| && Clean(arr.value[k]) != "") ==>
              1 <= |inv| <= |arr.value| && forall k :: 0 <= k < |inv| ==> inv[k] != "" && IsClean(inv[k])
    ensures var inv := NormalizeInventors(arr, inventor);
            (arr.None? || arr.value == []) && Truthy(inventor) ==> inv == [Clean(inventor.value)]
    ensures |NormalizeInventors(arr, inventor)| >= 1
  {
    if arr.Some? {
      CleanAllEmpty(arr.value);
    }
  }

  /** A cleaned abstract of at most 600 characters is kept; a longer one is
      cut to 600 characters plus "...". */
  lemma AbstractBound(raw: RawPatent)
    ensures var a, r := Clean(OrEmpty(raw.abstractText)), NormalizePatent(raw).abstractText;
            |r| <= AbstractLimit + 3 &&
            (|a| <= AbstractLimit ==> r == a) &&
            (|a| > AbstractLimit ==> r == a[..AbstractLimit] + "...")
  {
  }

  /** A capped clean abstract is still clean. */
  lemma CapAbstractIsClean(a: string)
    requires IsClean(a)
    ensures IsClean(CapAbstract(a))
  {
    if |a| > AbstractLimit {
      var r := CapAbstract(a);
      SingleSpacedSlice(a, 0, AbstractLimit);
      assert r[AbstractLimit..] == "...";
      forall i | 0 <= i < |r| && IsSpace(r[i]) ensures r[i] == ' ' {
        assert i < AbstractLimit && r[i] == a[i];
      }
      forall i | 0 <= i < |r| - 1 && IsSpace(r[i]) ensures !IsSpace(r[i + 1]) {
        assert i < AbstractLimit && r[i] == a[i];
        if i + 1 < AbstractLimit {
          assert r[i + 1] == a[i + 1];
        }
      }
      assert r[0] == a[0];
    }
  }

  /** Normalising an already normalised abstract changes nothing. */
  lemma AbstractIdempotent(a: string)
    ensures CapAbstract(Clean(CapAbstract(Clean(a)))) == CapAbstract(Clean(a))
  {
    CleanIsClean(a);
    CapAbstractIsClean(Clean(a));
    CleanNoop(CapAbstract(Clean(a)));
    var r := CapAbstract(Clean(a));
    if |r| > AbstractLimit {
      assert r[..AbstractLimit] + "..." == r;
    }
  }

  /** The id is the cleaned, upper-cased `raw.id` narrowed to its first
      US-number run when it has one; without `raw.id` it is the run taken
      from the title, or "". Any id narrowed to a run is exactly one run. */
  lemma IdCases(raw: RawPatent)
    ensures var id, u := NormalizePatent(raw).id, ToUpper(Clean(OrEmpty(raw.id)));
            Truthy(raw.id) && Find(u, UsNumberAt).None? ==> id == u && IsClean(id)
    ensures var id, u := NormalizePatent(raw).id, ToUpper(Clean(OrEmpty(raw.id)));
            Truthy(raw.id) && Find(u, UsNumberAt).Some? ==> IsUsNumber(id)
    ensures var id := NormalizePatent(raw).id;
            !Truthy(raw.id) ==> (id == "" <==> Find(OrEmpty(raw.title), UsNumberAt).None?)
    ensures var id := NormalizePatent(raw).id;
            !Truthy(raw.id) && id != "" ==> IsUsNumber(id)
  {
    if Truthy(raw.id) {
      CleanIsClean(raw.id.value);
      CleanUpperCased(Clean(raw.id.value));
    }
    var t := OrEmpty(raw.title);
    if !Truthy(raw.id) && UsRun(t).Some? {
      assert UsRun(t).value != "";
    }
  }

  /** The title loses the id only when the upper-cased title starts with it;
      when the title itself starts with the (upper-case) id, exactly that
      prefix goes. */
  lemma TitleStrip(rawTitle: Option<string>, id: string)
    requires IsUpperCased(id)
    ensures var t := Clean(OrEmpty(rawTitle));
            !(id != "" && StartsWith(ToUpper(t), id)) ==> NormalizeTitle(rawTitle, id) == t
    ensures var t := Clean(OrEmpty(rawTitle));
            id != "" && StartsWith(t, id) ==> NormalizeTitle(rawTitle, id) == Trim(t[|id|..])
  {
    var t := Clean(OrEmpty(rawTitle));
    if id != "" && StartsWith(t, id) {
      assert StartsWith(ToUpper(t), id) by {
        assert forall i :: 0 <= i < |id| ==> ToUpper(t)[i] == UpperChar(id[i]) == id[i];
      }
      ReplaceFirstAtStart(t, id);
    }
  }

  /** Only the id goes: a separator after it stays in the title. */
  lemma TitleKeepsSeparator()
    ensures NormalizeTitle(Some("US1 - Widget"), "US1") == "- Widget"
  {
    var t := "US1 - Widget";
    WidgetClean();
    CleanNoop(t);
    TitleStrip(Some(t), "US1");
    WidgetTrim();
  }

  /** `replace` is case-sensitive: a title that starts with the id only
      once upper-cased keeps its lower-case prefix. */
  lemma TitleCaseSensitive()
    ensures NormalizeTitle(Some("us1 Widget"), "US1") == "us1 Widget"
  {
    var t := "us1 Widget";
    LowerIdTitle();
    CleanNoop(t);
    CollapseSingleSpacedNoop(t);
    ReplaceNbspNoop(t);
    ReplaceFirstAbsent(t, "US1", "");
  }

  lemma LowerIdTitle()
    ensures IsClean("us1 Widget")
    ensures StartsWith(ToUpper("us1 Widget"), "US1")
    ensures forall p :: !StartsAt("us1 Widget", p, "US1")
  {
    var t := "us1 Widget";
    assert forall i :: 0 <= i < |t| && IsSpace(t[i]) ==> i == 3;
    assert ToUpper(t)[..3] == "US1";
    forall p: nat ensures !StartsAt(t, p, "US1") {
      if p + 3 <= |t| {
        assert t[p] != 'U';
        assert t[p..p + 3][0] == t[p];
      }
    }
  }

  lemma WidgetClean()
    ensures IsClean("US1 - Widget")
    ensures IsUpperCased("US1") && StartsWith("US1 - Widget", "US1")
    ensures "US1 - Widget"[|"US1"|..] == " - Widget"
  {
    var t := "US1 - Widget";
    assert forall i :: 0 <= i < |t| && IsSpace(t[i]) ==> i == 3 || i == 5;
    assert t[..3] == "US1";
  }

  lemma WidgetTrim()
    ensures Trim(" - Widget") == "- Widget"
  {
    var t := " - Widget";
    assert IsSpace(t[0]) && !IsSpace(t[1]) && !IsSpace(t[|t| - 1]);
    TrimOneLeading(t);
    assert t[1..] == "- Widget";
  }

  /** One leading space and none at the end: `trim` drops just that one. */
  lemma TrimOneLeading(s: string)
    requires |s| >= 2 && IsSpace(s[0]) && !IsSpace(s[1]) && !IsSpace(s[|s| - 1])
    ensures Trim(s) == s[1..]
  {
    assert TrimEnd(s) == s;
    assert TrimStart(s) == TrimStart(s[1..]);
    assert s[1..][0] == s[1];
  }

  /** The Google URL is derived from the id and the PDF URL from the Google
      URL; each is "" exactly when there is nothing to derive it from. */
  lemma UrlDefaults(raw: RawPatent)
    ensures var p := NormalizePatent(raw);
            p.googlePatentUrl == "" <==> !Truthy(raw.googlePatentUrl) && p.id == ""
    ensures var p := NormalizePatent(raw);
            p.pdfUrl == "" <==> !Truthy(raw.pdfUrl) && p.googlePatentUrl == ""
    ensures var p := NormalizePatent(raw);
            !Truthy(raw.googlePatentUrl) && p.id != "" ==>
              p.googlePatentUrl == GooglePatentBase + p.id + "/en"
    ensures var p := NormalizePatent(raw);
            !Truthy(raw.pdfUrl) && p.googlePatentUrl != "" ==>
              p.pdfUrl == p.googlePatentUrl + "?oq=" + p.id
  {
  }

  // ---------------------------------------------------------------------
  // Normalising twice
  // ---------------------------------------------------------------------

  /** A normalised record fed back in as a raw record. */
  function AsRaw(p: Patent): RawPatent {
    RawPatent(Some(p.id), Some(p.title), Some(p.date), Some(p.inventors), None,
              Some(p.applicant), Some(p.abstractText), Some(p.googlePatentUrl), Some(p.pdfUrl))
  }

  lemma IsoDateIsClean(d: string)
    requires IsIsoDate(d)
    ensures IsClean(d)
  {
    forall i | 0 <= i < |d| ensures !IsSpace(d[i]) {
      if i < 4 { assert d[..4][i] == d[i]; }
      else if 5 <= i < 7 { assert d[5..7][i - 5] == d[i]; }
      else if 8 <= i { assert d[8..][i - 8] == d[i]; }
    }
  }

  /** A non-empty id fed back in as `raw.id` comes out unchanged. */
  lemma IdStable(raw: RawPatent, again: RawPatent)
    requires NormalizeId(raw) != "" && again.id == Some(NormalizeId(raw))
    ensures NormalizeId(again) == NormalizeId(raw)
  {
    var id := NormalizeId(raw);
    if Truthy(raw.id) {
      var u := ToUpper(Clean(raw.id.value));
      CleanIsClean(raw.id.value);
      CleanUpperCased(Clean(raw.id.value));
      ToUpperIsUpperCased(Clean(raw.id.value));
      match UsRun(u)
      case Some(m) =>
        UsNumberIsClean(m);
        CleanNoop(m);
        ToUpperIsUpperCased(m);
        UsRunOfRun(m);
      case None =>
        CleanNoop(u);
        ToUpperIsUpperCased(u);
    } else {
      var m := UsRun(OrEmpty(raw.title)).value;
      UsNumberIsClean(m);
      CleanNoop(m);
      ToUpperIsUpperCased(m);
      UsRunOfRun(m);
    }
  }

  /** A normalised date fed back in comes out unchanged. */
  lemma DateStable(d: Option<string>)
    ensures NormalizeDateField(Some(NormalizeDateField(d))) == NormalizeDateField(d)
  {
    if Truthy(d) {
      var r := NormalizeDateField(d);
      NormalizeDateShape(Clean(d.value));
      if r != "" {
        IsoDateIsClean(r);
        FieldOfClean(r);
        NormalizeDateIdempotent(Clean(d.value));
      }
    }
  }

  lemma FieldOfClean(r: string)
    requires r != "" && IsClean(r)
    ensures NormalizeDateField(Some(r)) == NormalizeDate(r)
  {
    CleanNoop(r);
  }

  lemma {:induction false} CleanAllClean(xs: seq<string>)
    requires forall k :: 0 <= k < |xs| ==> xs[k] != "" && IsClean(xs[k])
    ensures CleanAll(xs) == xs
    decreases |xs|
  {
    if xs != [] {
      CleanNoop(xs[0]);
      CleanAllClean(xs[1..]);
      assert [xs[0]] + xs[1..] == xs;
    }
  }

  lemma UnknownInventorIsClean()
    ensures IsClean(UnknownInventor)
  {
    assert forall i :: 0 <= i < |UnknownInventor| && i != 7 ==> !IsSpace(UnknownInventor[i]);
  }

  /** Normalised inventors fed back in as the array come out unchanged,
      unless they are the lone empty entry a blank scalar produces. */
  lemma InventorsStable(arr: Option<seq<string>>, inventor: Option<string>)
    requires NormalizeInventors(arr, inventor) != [""]
    ensures var inv := NormalizeInventors(arr, inventor);
            NormalizeInventors(Some(inv), None) == inv
  {
    var inv := NormalizeInventors(arr, inventor);
    if inv == [UnknownInventor] {
      UnknownInventorIsClean();
      CleanAllClean(inv);
    } else if arr.Some? && |arr.value| > 0 {
      CleanAllClean(inv);
    } else {
      CleanIsClean(inventor.value);
      CleanAllClean(inv);
    }
  }

  /** Normalising a normalised record again keeps its date, applicant,
      abstract and status; it keeps its inventors unless they are `[""]`,
      and its id and URLs when the id is non-empty. */
  lemma NormalizeTwice(raw: RawPatent)
    ensures var p := NormalizePatent(raw);
            var q := NormalizePatent(AsRaw(p));
            q.date == p.date && q.applicant == p.applicant &&
            q.abstractText == p.abstractText && q.status == p.status
    ensures var p := NormalizePatent(raw);
            p.inventors != [""] ==> NormalizePatent(AsRaw(p)).inventors == p.inventors
    ensures var p := NormalizePatent(raw);
            var q := NormalizePatent(AsRaw(p));
            p.id != "" ==> q.id == p.id && q.googlePatentUrl == p.googlePatentUrl && q.pdfUrl == p.pdfUrl
  {
    TwiceKeepsFields(raw);
    TwiceKeepsInventors(raw);
    TwiceKeepsId(raw);
  }

  lemma TwiceKeepsFields(raw: RawPatent)
    ensures var p := NormalizePatent(raw);
            var q := NormalizePatent(AsRaw(p));
            q.date == p.date && q.applicant == p.applicant &&
            q.abstractText == p.abstractText && q.status == p.status
  {
    DateStable(raw.date);
    CleanIdempotent(OrEmpty(raw.applicant));
    AbstractIdempotent(OrEmpty(raw.abstractText));
  }

  lemma TwiceKeepsInventors(raw: RawPatent)
    ensures var p := NormalizePatent(raw);
            p.inventors != [""] ==> NormalizePatent(AsRaw(p)).inventors == p.inventors
  {
    if NormalizeInventors(raw.inventors, raw.inventor) != [""] {
      InventorsStable(raw.inventors, raw.inventor);
    }
  }

  lemma TwiceKeepsId(raw: RawPatent)
    ensures var p := NormalizePatent(raw);
            var q := NormalizePatent(AsRaw(p));
            p.id != "" ==> q.id == p.id && q.googlePatentUrl == p.googlePatentUrl && q.pdfUrl == p.pdfUrl
  {
    var p := NormalizePatent(raw);
    if p.id != "" {
      IdStable(raw, AsRaw(p));
    }
  }

  lemma CleanBlank()
    ensures Clean(" ") == "" && Clean("") == ""
  {
    assert TrimStart(" ") == "";
    assert Collapse(" ") == " ";
    assert ReplaceNbsp(" ") == " ";
    assert TrimEnd(" ") == "";
  }

  lemma CleanAllBlank()
    ensures CleanAll([""]) == []
  {
    CleanBlank();
  }

  lemma BlankInventor()
    ensures NormalizeInventors(None, Some(" ")) == [""]
  {
    CleanBlank();
  }

  lemma BlankInventors()
    ensures NormalizeInventors(Some([""]), None) == [UnknownInventor]
  {
    CleanAllBlank();
  }

  /** A blank scalar inventor gives `[""]`, which the second pass replaces by
      the sentinel. */
  lemma InventorsNotIdempotent()
    ensures NormalizeInventors(None, Some(" ")) == [""]
    ensures NormalizeInventors(Some([""]), None) == [UnknownInventor]
  {
    BlankInventor();
    BlankInventors();
  }

  lemma BlankId()
    ensures NormalizeId(NoFields.(id := Some(" "), title := Some("US1"))) == ""
  {
    CleanBlank();
    assert Find("", UsNumberAt) == None;
  }

  lemma TitleId()
    ensures NormalizeId(NoFields.(id := Some(""), title := Some("US1"))) == "US1"
  {
    var t := "US1";
    assert DigitRun(t, 2) == 1;
    assert UsNumberAt(t, 0) == Some(3);
    assert Find(t, UsNumberAt) == Some(Span(0, 3));
  }

  /** A blank `raw.id` yields no id, but fed back in, the title supplies one. */
  lemma IdNotIdempotent()
    ensures NormalizeId(NoFields.(id := Some(" "), title := Some("US1"))) == ""
    ensures NormalizeId(NoFields.(id := Some(""), title := Some("US1"))) == "US1"
  {
    BlankId();
    TitleId();
  }
}
