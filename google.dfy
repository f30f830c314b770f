/** The Google Patents result loops: the `page.evaluate` callback of
    `searchGooglePatents` (server.cjs:238-389), the near-duplicate
    `extractGoogleResults` (server.cjs:607-773), and the search URL builder
    `buildGooglePatentUrl` (server.cjs:177-183). The two loops differ only in
    three places, which `Variant` selects: the search loop has two more item
    selectors, two more URL patterns for the id, and a single abstract
    selector where the other has six. */
module GoogleExtract {
  import opened Options
  import opened Text
  import opened Patterns
  import opened Dates
  import opened Dom
  import opened Shared

  datatype Variant = SearchLoop | ExtractLoop

  /** The record both loops push. */
  datatype GooglePatent = GooglePatent(
    id: string,
    title: string,
    date: string,
    inventors: seq<string>,
    abstractText: string,
    googlePatentUrl: string,
    pdfUrl: string,
    status: string)

  // ---------------------------------------------------------------------
  // Selectors and constants
  // ---------------------------------------------------------------------

  function ItemSelectors(v: Variant): seq<string> {
    var common := ["search-result-item", ".search-result-item", "article", ".result"];
    if v == SearchLoop then common + ["[data-result]", ".gs_r"] else common
  }

  const LinkSelectors := ["a[href*=\"patents.google.com\"]", "a[href*=\"patent\"]", "h3 a", "h4 a"]

  const AltTitleSelectors :=
    ["h3", "h4", ".title", ".patent-title", "[data-result=\"title\"]", ".result-title"]

  const InventorSelectors :=
    ["[data-result=\"inventor\"] span", ".inventor span", "[data-inventor]",
     ".metadata .inventor", ".author", ".inventors span"]

  const DateSelectors :=
    ["[data-result=\"publication_date\"]", ".publication-date", ".pub-date", ".date", "[data-date]"]

  function AbstractSelectors(v: Variant): seq<string> {
    if v == SearchLoop then [".abstract"]
    else ["[data-result=\"snippet\"]", ".snippet", ".abstract", ".description", ".summary", "p:not(:empty)"]
  }

  const NoAbstract := "No abstract available"
  const AbstractMax := 300

  // ---------------------------------------------------------------------
  // Items
  // ---------------------------------------------------------------------

  /** `items = querySelectorAll(s0); if (items.length === 0) items = ...`:
      the nodes of the first selector that finds any. */
  function FirstNonEmpty(doc: Document, sels: seq<string>): seq<Node> {
    if sels == [] then []
    else if Select(doc, sels[0]) != [] then Select(doc, sels[0])
    else FirstNonEmpty(doc, sels[1..])
  }

  /** The items are those of the first selector that finds any, and there
      are none only when no selector finds any. */
  lemma {:induction false} FirstNonEmptyFound(doc: Document, sels: seq<string>)
    ensures FirstNonEmpty(doc, sels) == [] <==> forall k :: 0 <= k < |sels| ==> Select(doc, sels[k]) == []
    ensures FirstNonEmpty(doc, sels) != [] ==>
              exists k :: 0 <= k < |sels| && FirstNonEmpty(doc, sels) == Select(doc, sels[k]) &&
                          forall j :: 0 <= j < k ==> Select(doc, sels[j]) == []
    decreases |sels|
  {
    if sels != [] {
      FirstNonEmptyFound(doc, sels[1..]);
      assert forall k :: 1 <= k < |sels| ==> sels[k] == sels[1..][k - 1];
      if Select(doc, sels[0]) == [] && FirstNonEmpty(doc, sels) != [] {
        var k :| 0 <= k < |sels[1..]| && FirstNonEmpty(doc, sels[1..]) == Select(doc, sels[1..][k]) &&
                 forall j :: 0 <= j < k ==> Select(doc, sels[1..][j]) == [];
        assert FirstNonEmpty(doc, sels) == Select(doc, sels[k + 1]);
      }
    }
  }

  // ---------------------------------------------------------------------
  // The id from the result URL
  // ---------------------------------------------------------------------

  lemma UpperIdChars(s: string, p: nat)
    requires UpperIdAt(s, p).Some?
    ensures forall j :: p <= j < UpperIdAt(s, p).value ==> IsUpper(s[j]) || IsDigit(s[j])
  {
    var k := DigitRun(s, p + 2);
    RunHolds(s, p + 2, IsDigit);
    RunHolds(s, p + 3 + k, IsDigit);
  }

  /** Group 1 of `/patent\/([^\/\?&#]+)/`. */
  function PathId(url: string): (r: Option<string>)
    ensures r.Some? <==> Find(url, PatentPathAt).Some?
    ensures r.Some? ==> r.value != [] && forall i :: 0 <= i < |r.value| ==> NotUrlDelim(r.value[i])
  {
    match Find(url, PatentPathAt)
    case Some(sp) => Some(url[sp.start + 7..sp.end])
    case None => None
  }

  /** Group 1 of `/\/([A-Z]{2}\d+[A-Z]?\d*)/`. */
  function SlashId(url: string): (r: Option<string>)
    ensures r.Some? ==> r.value != [] && forall i :: 0 <= i < |r.value| ==> IsUpper(r.value[i]) || IsDigit(r.value[i])
  {
    match Find(url, SlashIdAt)
    case Some(sp) =>
      UpperIdChars(url, sp.start + 1);
      Some(url[sp.start + 1..sp.end])
    case None => None
  }

  /** Group 1 of `/patent=([^&]+)/`. */
  function ParamId(url: string): (r: Option<string>)
    ensures r.Some? ==> r.value != [] && forall i :: 0 <= i < |r.value| ==> NotAmp(r.value[i])
  {
    match Find(url, PatentParamAt)
    case Some(sp) => Some(url[sp.start + 7..sp.end])
    case None => None
  }

  /** `urlMatch[1]` of the loop's URL patterns, tried in order, or "". */
  function IdFromUrl(v: Variant, url: string): (r: string)
    ensures forall i :: 0 <= i < |r| ==> r[i] != '&'
    ensures v == ExtractLoop ==> forall i :: 0 <= i < |r| ==> NotUrlDelim(r[i])
    ensures Find(url, PatentPathAt).Some? ==> r == PathId(url).value
    ensures v == ExtractLoop && Find(url, PatentPathAt).None? ==> r == ""
  {
    match PathId(url)
    case Some(x) => x
    case None =>
      if v == ExtractLoop then ""
      else
        match SlashId(url)
        case Some(x) => x
        case None =>
          match ParamId(url)
          case Some(x) => x
          case None => ""
  }

  // ---------------------------------------------------------------------
  // Title
  // ---------------------------------------------------------------------

  /** The alternative-title loop (server.cjs:272-285): the trimmed text of the
      first selector whose element differs from `title` and is longer than
      the id by more than five characters; `title` when there is none. */
  function AltTitle(item: Node, sels: seq<string>, title: string, id: string): (r: string)
    ensures r == title || (r != title && |r| > |id| + 5)
  {
    if sels == [] then title
    else
      match Query(item, sels[0])
      case Some(el) =>
        var alt := Trim(el.text);
        if alt != title && |alt| > |id| + 5 then alt else AltTitle(item, sels[1..], title, id)
      case None => AltTitle(item, sels[1..], title, id)
  }

  /** Whether the element for `sel` offers an alternative title: its trimmed
      text differs from `title` and is longer than the id by more than five. */
  predicate IsAltTitle(item: Node, sel: string, title: string, id: string) {
    Query(item, sel).Some? && Trim(Query(item, sel).value.text) != title &&
    |Trim(Query(item, sel).value.text)| > |id| + 5
  }

  /** The title is kept exactly when no selector offers an alternative;
      otherwise it is the trimmed text of the first selector that does. */
  lemma {:induction false} AltTitleFound(item: Node, sels: seq<string>, title: string, id: string)
    ensures AltTitle(item, sels, title, id) == title <==>
              forall k :: 0 <= k < |sels| ==> !IsAltTitle(item, sels[k], title, id)
    ensures AltTitle(item, sels, title, id) != title ==>
              exists k :: 0 <= k < |sels| && IsAltTitle(item, sels[k], title, id) &&
                          AltTitle(item, sels, title, id) == Trim(Query(item, sels[k]).value.text) &&
                          forall j :: 0 <= j < k ==> !IsAltTitle(item, sels[j], title, id)
  {
    AltTitleKept(item, sels, title, id);
    if AltTitle(item, sels, title, id) != title {
      var k := AltTitleIndex(item, sels, title, id);
    }
  }

  lemma {:induction false} AltTitleKept(item: Node, sels: seq<string>, title: string, id: string)
    ensures AltTitle(item, sels, title, id) == title <==>
              forall k :: 0 <= k < |sels| ==> !IsAltTitle(item, sels[k], title, id)
    decreases |sels|
  {
    if sels != [] {
      assert forall k :: 1 <= k < |sels| ==> sels[k] == sels[1..][k - 1];
      AltTitleKept(item, sels[1..], title, id);
    }
  }

  /** The witness of AltTitleFound: the first selector offering an alternative. */
  lemma {:induction false} AltTitleIndex(item: Node, sels: seq<string>, title: string, id: string) returns (k: nat)
    requires AltTitle(item, sels, title, id) != title
    ensures k < |sels| && IsAltTitle(item, sels[k], title, id)
    ensures AltTitle(item, sels, title, id) == Trim(Query(item, sels[k]).value.text)
    ensures forall j :: 0 <= j < k ==> !IsAltTitle(item, sels[j], title, id)
    decreases |sels|
  {
    if IsAltTitle(item, sels[0], title, id) {
      k := 0;
    } else {
      var k' := AltTitleIndex(item, sels[1..], title, id);
      k := k' + 1;
      assert forall j :: 1 <= j < k ==> sels[j] == sels[1..][j - 1];
    }
  }

  /** The title: the link text, trimmed; replaced by an alternative title
      when it is the id itself or shaped like a bare patent number. */
  function ItemTitle(item: Node, link: Option<Element>, id: string): string {
    if link.None? then ""
    else
      var t := Trim(link.value.text);
      if t == id || IsIdShaped(t) then AltTitle(item, AltTitleSelectors, t, id) else t
  }

  method ResolveTitle(item: Node, title: string, id: string) returns (r: string)
    ensures r == AltTitle(item, AltTitleSelectors, title, id)
  {
    var sels := AltTitleSelectors;
    r := title;
    var i := 0;
    while i < |sels|
      invariant 0 <= i <= |sels|
      invariant r == title
      invariant AltTitle(item, sels, title, id) == AltTitle(item, sels[i..], title, id)
    {
      assert sels[i..][1..] == sels[i + 1..];
      var el := Query(item, sels[i]);
      if el.Some? && Trim(el.value.text) != title {
        var altText := Trim(el.value.text);
        if |altText| > |id| + 5 {
          r := altText;
          break;
        }
      }
      i := i + 1;
    }
  }

  // ---------------------------------------------------------------------
  // Inventors
  // ---------------------------------------------------------------------

  /** The filter `text && text.length > 1 && !text.match(/^\d+$/)`. */
  predicate IsName(t: string) { |t| > 1 && !IsAllDigits(t) }

  /** `Array.from(els).map(el => el.textContent.trim()).filter(...)`. */
  function Names(els: seq<Element>): (r: seq<string>)
    ensures |r| <= |els|
    ensures forall k :: 0 <= k < |r| ==> IsName(r[k])
  {
    if els == [] then []
    else
      var rest := Names(els[1..]);
      var t := Trim(els[0].text);
      if IsName(t) then [t] + rest else rest
  }

  /** The inventor loop (server.cjs:298-307) before the sentinel: the first
      five names of the first selector whose list of names is not empty. */
  function InventorsFrom(item: Node, sels: seq<string>): (r: seq<string>)
    ensures |r| <= MaxInventors
    ensures forall k :: 0 <= k < |r| ==> IsName(r[k])
  {
    if sels == [] then []
    else
      var els := QueryAll(item, sels[0]);
      var names := Take(Names(els), MaxInventors);
      if |els| > 0 && names != [] then names else InventorsFrom(item, sels[1..])
  }

  function ItemInventors(item: Node): seq<string> {
    var inv := InventorsFrom(item, InventorSelectors);
    if inv == [] then [UnknownInventor] else inv
  }

  /** The inventors come from the first selector that yields a name, and are
      empty when none does. */
  lemma InventorsFromFirst(item: Node, sels: seq<string>)
    ensures var r := InventorsFrom(item, sels);
            r == [] <==> forall k :: 0 <= k < |sels| ==> Names(QueryAll(item, sels[k])) == []
    ensures var r := InventorsFrom(item, sels);
            r != [] ==> exists k :: 0 <= k < |sels| && r == Take(Names(QueryAll(item, sels[k])), MaxInventors) &&
                                    forall j :: 0 <= j < k ==> Names(QueryAll(item, sels[j])) == []
  {
    InventorsEmpty(item, sels);
    if InventorsFrom(item, sels) != [] {
      var k := InventorsIndex(item, sels);
    }
  }

  /** A selector's names, cut to five, are empty exactly when it has none. */
  lemma NamesTaken(item: Node, sel: string)
    ensures var els := QueryAll(item, sel);
            (|els| > 0 && Take(Names(els), MaxInventors) != []) <==> Names(els) != []
  {
    var els := QueryAll(item, sel);
    if Names(els) != [] {
      assert Take(Names(els), MaxInventors) != [];
      assert |els| > 0;
    }
  }

  lemma {:induction false} InventorsEmpty(item: Node, sels: seq<string>)
    ensures InventorsFrom(item, sels) == [] <==> forall k :: 0 <= k < |sels| ==> Names(QueryAll(item, sels[k])) == []
    decreases |sels|
  {
    if sels != [] {
      NamesTaken(item, sels[0]);
      InventorsEmpty(item, sels[1..]);
      assert forall k :: 1 <= k < |sels| ==> sels[k] == sels[1..][k - 1];
    }
  }

  lemma {:induction false} InventorsIndex(item: Node, sels: seq<string>) returns (k: nat)
    requires InventorsFrom(item, sels) != []
    ensures k < |sels| && InventorsFrom(item, sels) == Take(Names(QueryAll(item, sels[k])), MaxInventors)
    ensures forall j :: 0 <= j < k ==> Names(QueryAll(item, sels[j])) == []
    decreases |sels|
  {
    NamesTaken(item, sels[0]);
    if Names(QueryAll(item, sels[0])) != [] {
      k := 0;
    } else {
      var k' := InventorsIndex(item, sels[1..]);
      k := k' + 1;
      assert forall j :: 1 <= j < k ==> sels[j] == sels[1..][j - 1];
    }
  }

  method CollectInventors(item: Node) returns (inventors: seq<string>)
    ensures inventors == ItemInventors(item)
    ensures 1 <= |inventors| <= MaxInventors
    ensures inventors == [UnknownInventor] || forall k :: 0 <= k < |inventors| ==> IsName(inventors[k])
  {
    var sels := InventorSelectors;
    inventors := [];
    var i := 0;
    while i < |sels|
      invariant 0 <= i <= |sels|
      invariant inventors == []
      invariant InventorsFrom(item, sels) == InventorsFrom(item, sels[i..])
    {
      assert sels[i..][1..] == sels[i + 1..];
      var els := QueryAll(item, sels[i]);
      if |els| > 0 {
        inventors := Take(Names(els), MaxInventors);
        if |inventors| > 0 {
          break;
        }
      }
      i := i + 1;
    }
    if |inventors| == 0 {
      inventors := [UnknownInventor];
    }
  }

  // ---------------------------------------------------------------------
  // Date
  // ---------------------------------------------------------------------

  /** The date loop (server.cjs:319-343): the first selector that finds an
      element decides, whether or not its text parses. */
  function DateFrom(item: Node, sels: seq<string>, today: string): string {
    if sels == [] then today
    else
      match Query(item, sels[0])
      case Some(el) => SearchDate(Trim(el.text), today)
      case None => DateFrom(item, sels[1..], today)
  }

  /** Only the first element found is consulted, and the date is `today` or
      `DDDD-D-D`. */
  lemma {:induction false} DateFromFirstFound(item: Node, sels: seq<string>, today: string)
    ensures DateFrom(item, sels, today) ==
              match QueryFirst(item, sels)
              case None => today
              case Some(el) => SearchDate(Trim(el.text), today)
    ensures var d := DateFrom(item, sels, today); d == today || IsLooseIsoDate(d)
    decreases |sels|
  {
    if sels != [] {
      DateFromFirstFound(item, sels[1..], today);
      match Query(item, sels[0])
      case Some(el) => SearchDateShape(Trim(el.text), today);
      case None =>
    }
  }

  method FindDate(item: Node, today: string) returns (date: string)
    ensures date == DateFrom(item, DateSelectors, today)
  {
    var sels := DateSelectors;
    date := today;
    var i := 0;
    while i < |sels|
      invariant 0 <= i <= |sels|
      invariant date == today
      invariant DateFrom(item, sels, today) == DateFrom(item, sels[i..], today)
    {
      assert sels[i..][1..] == sels[i + 1..];
      var el := Query(item, sels[i]);
      if el.Some? {
        date := SearchDate(Trim(el.value.text), today);
        break;
      }
      i := i + 1;
    }
  }

  // ---------------------------------------------------------------------
  // Abstract
  // ---------------------------------------------------------------------

  /** The abstract loop (server.cjs:355-363): every element found overwrites
      the abstract with its trimmed text capped at 300 characters plus
      "...", until one is longer than 20 characters. */
  function AbstractFrom(item: Node, sels: seq<string>, current: string): (r: string)
    ensures |current| <= AbstractMax + 3 ==> |r| <= AbstractMax + 3
  {
    if sels == [] then current
    else
      match Query(item, sels[0])
      case Some(el) =>
        var a := Truncate(Trim(el.text), AbstractMax);
        if |a| > 20 then a else AbstractFrom(item, sels[1..], a)
      case None => AbstractFrom(item, sels[1..], current)
  }

  /** The trimmed text of the element for `sel`, capped at 300 characters. */
  function Capped(item: Node, sel: string): string
    requires Query(item, sel).Some?
  {
    Truncate(Trim(Query(item, sel).value.text), AbstractMax)
  }

  /** Whether the element for `sel` exists and its capped text is longer than
      20 characters, which stops the loop. */
  predicate Substantial(item: Node, sel: string) {
    Query(item, sel).Some? && |Capped(item, sel)| > 20
  }

  /** The break rule of the abstract loop: the first selector whose capped
      text is longer than 20 characters wins; when there is none, the last
      element found wins; when no element is found, the starting value stays. */
  lemma AbstractFromFound(item: Node, sels: seq<string>, current: string)
    ensures (exists k :: 0 <= k < |sels| && Substantial(item, sels[k])) ==>
              exists k :: 0 <= k < |sels| && Substantial(item, sels[k]) &&
                          AbstractFrom(item, sels, current) == Capped(item, sels[k]) &&
                          forall j :: 0 <= j < k ==> !Substantial(item, sels[j])
    ensures (forall k :: 0 <= k < |sels| ==> !Substantial(item, sels[k])) &&
            (exists k :: 0 <= k < |sels| && Query(item, sels[k]).Some?) ==>
              exists k :: 0 <= k < |sels| && Query(item, sels[k]).Some? &&
                          AbstractFrom(item, sels, current) == Capped(item, sels[k]) &&
                          forall j :: k < j < |sels| ==> Query(item, sels[j]).None?
    ensures (forall k :: 0 <= k < |sels| ==> Query(item, sels[k]).None?) ==>
              AbstractFrom(item, sels, current) == current
  {
    if exists k :: 0 <= k < |sels| && Substantial(item, sels[k]) {
      var k := AbstractFirstIndex(item, sels, current);
    } else if exists k :: 0 <= k < |sels| && Query(item, sels[k]).Some? {
      var k := AbstractLastIndex(item, sels, current);
    } else {
      AbstractNoneFound(item, sels, current);
    }
  }

  /** One round of the loop: what the abstract is after the first selector. */
  function AbstractNext(item: Node, sel: string, current: string): string {
    if Query(item, sel).Some? then Capped(item, sel) else current
  }

  /** The first round of the loop: a substantial text ends it, anything else
      carries on from AbstractNext. */
  lemma AbstractFromHead(item: Node, sels: seq<string>, current: string)
    requires sels != []
    ensures Substantial(item, sels[0]) ==> AbstractFrom(item, sels, current) == Capped(item, sels[0])
    ensures !Substantial(item, sels[0]) ==>
              AbstractFrom(item, sels, current) == AbstractFrom(item, sels[1..], AbstractNext(item, sels[0], current))
  {
  }

  /** The witness of the first clause of AbstractFromFound. */
  lemma {:induction false} AbstractFirstIndex(item: Node, sels: seq<string>, current: string) returns (k: nat)
    requires exists k :: 0 <= k < |sels| && Substantial(item, sels[k])
    ensures k < |sels| && Substantial(item, sels[k])
    ensures AbstractFrom(item, sels, current) == Capped(item, sels[k])
    ensures forall j :: 0 <= j < k ==> !Substantial(item, sels[j])
    decreases |sels|
  {
    AbstractFromHead(item, sels, current);
    if Substantial(item, sels[0]) {
      k := 0;
    } else {
      var k0 :| 0 <= k0 < |sels| && Substantial(item, sels[k0]);
      assert Substantial(item, sels[1..][k0 - 1]);
      var k' := AbstractFirstIndex(item, sels[1..], AbstractNext(item, sels[0], current));
      k := k' + 1;
      assert forall j :: 1 <= j < k ==> sels[j] == sels[1..][j - 1];
    }
  }

  /** The witness of the second clause of AbstractFromFound: the last element found. */
  lemma {:induction false} AbstractLastIndex(item: Node, sels: seq<string>, current: string) returns (k: nat)
    requires forall k :: 0 <= k < |sels| ==> !Substantial(item, sels[k])
    requires exists k :: 0 <= k < |sels| && Query(item, sels[k]).Some?
    ensures k < |sels| && Query(item, sels[k]).Some?
    ensures AbstractFrom(item, sels, current) == Capped(item, sels[k])
    ensures forall j :: k < j < |sels| ==> Query(item, sels[j]).None?
    decreases |sels|
  {
    var next := AbstractNext(item, sels[0], current);
    AbstractFromHead(item, sels, current);
    assert forall j :: 1 <= j < |sels| ==> sels[j] == sels[1..][j - 1];
    if exists j :: 1 <= j < |sels| && Query(item, sels[j]).Some? {
      var j0 :| 1 <= j0 < |sels| && Query(item, sels[j0]).Some?;
      assert Query(item, sels[1..][j0 - 1]).Some?;
      var k' := AbstractLastIndex(item, sels[1..], next);
      k := k' + 1;
    } else {
      AbstractNoneFound(item, sels[1..], next);
      k := 0;
    }
  }

  /** With no element found, the abstract keeps its starting value. */
  lemma {:induction false} AbstractNoneFound(item: Node, sels: seq<string>, current: string)
    requires forall k :: 0 <= k < |sels| ==> Query(item, sels[k]).None?
    ensures AbstractFrom(item, sels, current) == current
    decreases |sels|
  {
    if sels != [] {
      AbstractFromHead(item, sels, current);
      assert forall j :: 1 <= j < |sels| ==> sels[j] == sels[1..][j - 1];
      AbstractNoneFound(item, sels[1..], current);
    }
  }

  method FindAbstract(v: Variant, item: Node) returns (abstractText: string)
    ensures abstractText == AbstractFrom(item, AbstractSelectors(v), NoAbstract)
    ensures |abstractText| <= AbstractMax + 3
  {
    var sels := AbstractSelectors(v);
    abstractText := NoAbstract;
    var i := 0;
    while i < |sels|
      invariant 0 <= i <= |sels|
      invariant AbstractFrom(item, sels, NoAbstract) == AbstractFrom(item, sels[i..], abstractText)
    {
      assert sels[i..][1..] == sels[i + 1..];
      var el := Query(item, sels[i]);
      if el.Some? {
        abstractText := Trim(el.value.text);
        if |abstractText| > AbstractMax {
          abstractText := abstractText[..AbstractMax] + "...";
        }
        if |abstractText| > 20 {
          break;
        }
      }
      i := i + 1;
    }
  }

  // ---------------------------------------------------------------------
  // The record
  // ---------------------------------------------------------------------

  /** `patentUrl ? patentUrl + (includes('?') ? '&' : '?') + 'oq=' + patentId : ''`. */
  function PdfUrl(url: string, id: string): string {
    if url == "" then "" else url + (if '?' in url then "&" else "?") + "oq=" + id
  }

  /** The PDF link is the page URL, one separator chosen by whether the URL
      already has a query, then `oq=` and the id. */
  lemma PdfUrlShape(url: string, id: string)
    ensures url == "" ==> PdfUrl(url, id) == ""
    ensures url != "" ==> var r := PdfUrl(url, id);
              |r| == |url| + 4 + |id| && r[..|url|] == url && r[|url| + 1..] == "oq=" + id &&
              (r[|url|] == '&' <==> '?' in url) && (r[|url|] == '?' <==> '?' !in url)
  {
  }

  /** One result item (server.cjs:249-384): a record when both the id and the
      title are non-empty. */
  function GoogleItem(v: Variant, item: Node, today: string): Option<GooglePatent> {
    var link := QueryFirst(item, LinkSelectors);
    var url := if link.Some? then link.value.href else "";
    var id := if url != "" then IdFromUrl(v, url) else "";
    var title := ItemTitle(item, link, id);
    if id != "" && title != "" then
      Some(GooglePatent(id, title, DateFrom(item, DateSelectors, today), ItemInventors(item),
                        AbstractFrom(item, AbstractSelectors(v), NoAbstract), url, PdfUrl(url, id), "available"))
    else None
  }

  method ExtractGoogleItem(v: Variant, item: Node, today: string) returns (r: Option<GooglePatent>)
    ensures r == GoogleItem(v, item, today)
  {
    var titleLink := QueryFirst(item, LinkSelectors);
    var patentId := "";
    var patentUrl := "";
    if titleLink.Some? && titleLink.value.href != "" {
      patentUrl := titleLink.value.href;
      patentId := IdFromUrl(v, patentUrl);
    }
    assert patentUrl == (if titleLink.Some? then titleLink.value.href else "");
    assert patentId == (if patentUrl != "" then IdFromUrl(v, patentUrl) else "");
    var title := "";
    if titleLink.Some? {
      title := Trim(titleLink.value.text);
      if title == patentId || IsIdShaped(title) {
        title := ResolveTitle(item, title, patentId);
      }
    }
    assert title == ItemTitle(item, titleLink, patentId);
    var inventors := CollectInventors(item);
    var date := FindDate(item, today);
    var abstractText := FindAbstract(v, item);
    var pdfUrl := PdfUrl(patentUrl, patentId);
    if patentId != "" && title != "" {
      r := Some(GooglePatent(patentId, title, date, inventors, abstractText, patentUrl, pdfUrl, "available"));
    } else {
      r := None;
    }
  }

  /** What the loops promise of every record they push. */
  predicate WellFormed(v: Variant, p: GooglePatent, today: string) {
    p.id != "" && p.title != "" && p.status == "available" &&
    (forall i :: 0 <= i < |p.id| ==> p.id[i] != '&') &&
    (v == ExtractLoop ==> forall i :: 0 <= i < |p.id| ==> NotUrlDelim(p.id[i])) &&
    p.googlePatentUrl != "" && p.pdfUrl == PdfUrl(p.googlePatentUrl, p.id) &&
    1 <= |p.inventors| <= MaxInventors &&
    (p.inventors == [UnknownInventor] || forall k :: 0 <= k < |p.inventors| ==> IsName(p.inventors[k])) &&
    |p.abstractText| <= AbstractMax + 3 &&
    (p.date == today || IsLooseIsoDate(p.date))
  }

  lemma GoogleItemWellFormed(v: Variant, item: Node, today: string)
    requires GoogleItem(v, item, today).Some?
    ensures WellFormed(v, GoogleItem(v, item, today).value, today)
  {
    DateFromFirstFound(item, DateSelectors, today);
  }

  // ---------------------------------------------------------------------
  // The loop over the items
  // ---------------------------------------------------------------------

  /** What each item gives. */
  function GoogleItems(v: Variant, items: seq<Node>, today: string): (r: seq<Option<GooglePatent>>)
    ensures |r| == |items|
  {
    seq(|items|, i requires 0 <= i < |items| => GoogleItem(v, items[i], today))
  }

  lemma GoogleItemsWellFormed(v: Variant, items: seq<Node>, today: string)
    ensures var its := GoogleItems(v, items, today);
            forall i :: 0 <= i < |its| && its[i].Some? ==> WellFormed(v, its[i].value, today)
  {
    var its := GoogleItems(v, items, today);
    forall i | 0 <= i < |its| && its[i].Some? ensures WellFormed(v, its[i].value, today) {
      GoogleItemWellFormed(v, items[i], today);
    }
  }

  /** Every record pushed is well formed when every item's record is. */
  lemma {:induction false} PushedWellFormed(v: Variant, its: seq<Option<GooglePatent>>, today: string)
    requires forall i :: 0 <= i < |its| && its[i].Some? ==> WellFormed(v, its[i].value, today)
    ensures forall k :: 0 <= k < |Pushed(its)| ==> WellFormed(v, Pushed(its)[k], today)
    decreases |its|
  {
    if its != [] {
      var init := its[..|its| - 1];
      assert forall i :: 0 <= i < |init| ==> init[i] == its[i];
      PushedWellFormed(v, init, today);
      assert Pushed(its) == Pushed(init) + Emit(its[|its| - 1]);
    }
  }

  /** Every record pushed for the first `n` items is well formed. */
  lemma PrefixWellFormed(v: Variant, items: seq<Node>, n: nat, today: string)
    requires n <= |items|
    ensures var pushed := Pushed(GoogleItems(v, items, today)[..n]);
            forall k :: 0 <= k < |pushed| ==> WellFormed(v, pushed[k], today)
  {
    var its := GoogleItems(v, items, today);
    GoogleItemsWellFormed(v, items, today);
    assert forall j :: 0 <= j < n ==> its[..n][j] == its[j];
    PushedWellFormed(v, its[..n], today);
  }

  /** Both loops: pick the items, then push a record for each of the first
      `maxResults` that has an id and a title. */
  method ExtractResults(v: Variant, doc: Document, maxResults: int, today: string)
    returns (results: seq<GooglePatent>)
    ensures var items := FirstNonEmpty(doc, ItemSelectors(v));
            results == Pushed(GoogleItems(v, items, today)[..Limit(|items|, maxResults)])
    ensures |results| <= |FirstNonEmpty(doc, ItemSelectors(v))|
    ensures |results| as int <= if maxResults < 0 then 0 else maxResults
    ensures forall k :: 0 <= k < |results| ==> WellFormed(v, results[k], today)
  {
    var items := FirstNonEmpty(doc, ItemSelectors(v));
    ghost var its := GoogleItems(v, items, today);
    var n := Limit(|items|, maxResults);
    results := [];
    var i := 0;
    while i < n
      invariant 0 <= i <= n
      invariant results == Pushed(its[..i])
    {
      var r := ExtractGoogleItem(v, items[i], today);
      assert r == its[i];
      PushedStep(its, i);
      if r.Some? {
        results := results + [r.value];
      }
      i := i + 1;
    }
    assert |its[..n]| == n;
    PrefixWellFormed(v, items, n, today);
  }

  // ---------------------------------------------------------------------
  // The search URL
  // ---------------------------------------------------------------------

  /** A keyword argument that is not an array is wrapped in one (server.cjs:203). */
  datatype Keywords = OneKeyword(keyword: string) | KeywordList(keywords: seq<string>)

  function KeywordArray(k: Keywords): (r: seq<string>)
    ensures k.OneKeyword? ==> r == [k.keyword]
    ensures k.KeywordList? ==> r == k.keywords
  {
    match k
    case OneKeyword(kw) => [kw]
    case KeywordList(kws) => kws
  }

  const GoogleBase := "https://patents.google.com/"
  const ClauseOpen := "q=CL%3d("

  /** One query clause; `encode` is `encodeURIComponent`. */
  function Clause(kw: string, encode: string -> string): string {
    ClauseOpen + encode(kw) + ")"
  }

  function Clauses(kws: seq<string>, encode: string -> string): (r: seq<string>)
    ensures |r| == |kws| && forall k :: 0 <= k < |kws| ==> r[k] == Clause(kws[k], encode)
  {
    seq(|kws|, k requires 0 <= k < |kws| => Clause(kws[k], encode))
  }

  /** `buildGooglePatentUrl`. */
  function BuildGooglePatentUrl(kws: seq<string>, encode: string -> string): (r: string)
    ensures |r| > |GoogleBase| && r[..|GoogleBase| + 1] == GoogleBase + "?"
  {
    GoogleBase + "?" + Join(Clauses(kws, encode), "&")
  }

  /** The query string splits at `&` back into one clause per keyword, in
      order, whenever the encoding never produces `&` (as
      `encodeURIComponent` never does). */
  lemma BuildUrlClauses(kws: seq<string>, encode: string -> string)
    requires kws != []
    requires forall kw :: '&' !in encode(kw)
    ensures var q := BuildGooglePatentUrl(kws, encode)[|GoogleBase| + 1..];
            Split(q, x => x == '&') == Clauses(kws, encode)
  {
    var parts := Clauses(kws, encode);
    forall k, i | 0 <= k < |parts| && 0 <= i < |parts[k]| ensures parts[k][i] != '&' {
      var e := encode(kws[k]);
      assert parts[k] == ClauseOpen + e + ")";
      if i >= |ClauseOpen| && i < |ClauseOpen| + |e| {
        assert parts[k][i] == e[i - |ClauseOpen|];
      }
    }
    SplitJoin(parts, '&');
    var r := BuildGooglePatentUrl(kws, encode);
    assert r[|GoogleBase| + 1..] == Join(parts, "&");
  }
}
