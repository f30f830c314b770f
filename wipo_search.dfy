/** The result extraction inside `searchWIPO` (server.cjs:1016-1183): the rows
    of a PATENTSCOPE result page, read by two ordered lookup helpers and the
    split of the last table cell. */
module WipoSearch {
  import opened Options
  import opened Text
  import opened Patterns
  import opened Dates
  import opened Dom
  import opened Shared

  /** One pushed record. Its fields are wired as the source wires them:
      `inventors` holds the patent number and `abstractText` the country. */
  datatype WipoRecord = WipoRecord(
    id: string,
    title: string,
    date: string,
    inventors: string,
    abstractText: string,
    googlePatentUrl: string,
    pdfUrl: string,
    status: string)

  const ContainerSelectors := ["tbody tr:has(a)", ".ps-patent-result", ".search-result",
                               "tr:has(a[href*=\"detail\"])", "[class*=\"result\"]:has(a)"]
  const HasLinkSuffix := ":has(a)"
  const HasOpen := ":has("
  const DetailLink := "a[href*=\"detail\"]"
  const TitleSelectors := ["a[href*=\"detail\"]", ".patent-title a", ".title a", "td:nth-child(2) a", ".title"]
  const DateSelectors := [".publication-date", ".date", "td:nth-child(3)", "[class*=\"date\"]"]
  const AssigneeSelectors := [".assignee", ".applicant", ".inventor", "td:nth-child(4)"]
  const LastCell := "td:last-child"
  const DetailUrlSelectors := ["a[href*=\"detail\"]", ".patent-title a", ".title a"]
  const PdfSelectors := ["a[href*=\".pdf\"]", "a[title*=\"PDF\" i]"]
  const NoAbstract := "No abstract available"
  const AbstractMax := 300
  const PdfSuffix := "&format=pdf"

  // ---------------------------------------------------------------------
  // Containers
  // ---------------------------------------------------------------------

  /** `el.querySelector('a')` finds something. */
  predicate HasLink(n: Node) { Query(n, "a").Some? }

  /** `nodes.filter(el => el.querySelector('a'))`. */
  function LinkedRows(nodes: seq<Node>): (r: seq<Node>)
    ensures |r| <= |nodes|
    ensures forall n :: n in r <==> n in nodes && HasLink(n)
  {
    if nodes == [] then []
    else
      var rest := LinkedRows(nodes[1..]);
      assert forall n :: n in nodes <==> n == nodes[0] || n in nodes[1..];
      if HasLink(nodes[0]) then [nodes[0]] + rest else rest
  }

  /** One iteration of the container loop (server.cjs:1031-1034): query with
      the first `:has(a)` removed, then keep only rows with a link when the
      selector mentions `:has(`. */
  function ContainersFor(doc: Document, sel: string): seq<Node> {
    var cs := Select(doc, ReplaceFirst(sel, HasLinkSuffix, ""));
    if Contains(sel, HasOpen) then LinkedRows(cs) else cs
  }

  /** A selector without `:has(` is queried as it is, unfiltered; one with
      it yields only rows that have a link. */
  lemma ContainersForCases(doc: Document, sel: string)
    ensures !Contains(sel, HasOpen) ==> ContainersFor(doc, sel) == Select(doc, sel)
    ensures Contains(sel, HasOpen) ==> forall n :: n in ContainersFor(doc, sel) ==> HasLink(n)
  {
    if !Contains(sel, HasOpen) {
      match Find(sel, Literal(HasLinkSuffix))
      case Some(sp) =>
        assert sel[sp.start..sp.start + 7] == HasLinkSuffix;
        assert HasLinkSuffix[..5] == HasOpen;
        assert sel[sp.start..sp.start + 5] == sel[sp.start..sp.start + 7][..5];
        assert MatchesAt(sel, Literal(HasOpen), sp.start);
        assert false;
      case None =>
    }
  }

  /** The container loop (server.cjs:1028-1039): the rows of the first
      selector that yields any. */
  function Containers(doc: Document, sels: seq<string>): seq<Node> {
    if sels == [] then []
    else
      var cs := ContainersFor(doc, sels[0]);
      if cs != [] then cs else Containers(doc, sels[1..])
  }

  lemma ContainersFirst(doc: Document, sels: seq<string>)
    ensures Containers(doc, sels) == [] <==> forall k :: 0 <= k < |sels| ==> ContainersFor(doc, sels[k]) == []
    ensures Containers(doc, sels) != [] ==>
              exists k :: 0 <= k < |sels| && Containers(doc, sels) == ContainersFor(doc, sels[k]) &&
                          forall j :: 0 <= j < k ==> ContainersFor(doc, sels[j]) == []
  {
    ContainersEmpty(doc, sels);
    if Containers(doc, sels) != [] {
      var k := ContainersIndex(doc, sels);
    }
  }

  lemma {:induction false} ContainersEmpty(doc: Document, sels: seq<string>)
    ensures Containers(doc, sels) == [] <==> forall k :: 0 <= k < |sels| ==> ContainersFor(doc, sels[k]) == []
    decreases |sels|
  {
    if sels != [] {
      ContainersEmpty(doc, sels[1..]);
      assert forall k :: 1 <= k < |sels| ==> sels[k] == sels[1..][k - 1];
    }
  }

  lemma {:induction false} ContainersIndex(doc: Document, sels: seq<string>) returns (k: nat)
    requires Containers(doc, sels) != []
    ensures k < |sels| && Containers(doc, sels) == ContainersFor(doc, sels[k])
    ensures forall j :: 0 <= j < k ==> ContainersFor(doc, sels[j]) == []
    decreases |sels|
  {
    if ContainersFor(doc, sels[0]) != [] {
      k := 0;
    } else {
      var k' := ContainersIndex(doc, sels[1..]);
      k := k' + 1;
      assert forall j :: 1 <= j < k ==> sels[j] == sels[1..][j - 1];
    }
  }

  method SelectContainers(doc: Document) returns (containers: seq<Node>)
    ensures containers == Containers(doc, ContainerSelectors)
  {
    var sels := ContainerSelectors;
    containers := [];
    var i := 0;
    while i < |sels|
      invariant 0 <= i <= |sels|
      invariant Containers(doc, sels) == Containers(doc, sels[i..])
    {
      assert sels[i..][1..] == sels[i + 1..];
      containers := Select(doc, ReplaceFirst(sels[i], HasLinkSuffix, ""));
      if Contains(sels[i], HasOpen) {
        containers := LinkedRows(containers);
      }
      if |containers| > 0 {
        break;
      }
      i := i + 1;
    }
    if i == |sels| {
      containers := [];
    }
  }

  // ---------------------------------------------------------------------
  // The lookup helpers
  // ---------------------------------------------------------------------

  /** The trimmed text of the first element `sel` finds, or "" when it finds
      none. */
  function ElementText(n: Node, sel: string): (r: string)
    ensures r == "" || (!IsSpace(r[0]) && !IsSpace(r[|r| - 1]))
  {
    match Query(n, sel)
    case Some(el) => Trim(el.text)
    case None => ""
  }

  /** `getText` (server.cjs:1046-1052): the trimmed text of the first element
      whose trimmed text is not empty, else "". */
  function FirstText(n: Node, sels: seq<string>): string {
    if sels == [] then ""
    else if ElementText(n, sels[0]) != "" then ElementText(n, sels[0])
    else FirstText(n, sels[1..])
  }

  /** The text is empty exactly when no selector has an element with text,
      otherwise it is the trimmed text of the first one that has, so it
      never starts or ends with whitespace. */
  lemma FirstTextFound(n: Node, sels: seq<string>)
    ensures FirstText(n, sels) == "" <==> forall k :: 0 <= k < |sels| ==> ElementText(n, sels[k]) == ""
    ensures FirstText(n, sels) != "" ==>
              exists k :: 0 <= k < |sels| && FirstText(n, sels) == ElementText(n, sels[k]) &&
                          forall j :: 0 <= j < k ==> ElementText(n, sels[j]) == ""
  {
    FirstTextEmpty(n, sels);
    if FirstText(n, sels) != "" {
      var k := FirstTextIndex(n, sels);
    }
  }

  lemma {:induction false} FirstTextEmpty(n: Node, sels: seq<string>)
    ensures FirstText(n, sels) == "" <==> forall k :: 0 <= k < |sels| ==> ElementText(n, sels[k]) == ""
    decreases |sels|
  {
    if sels != [] {
      FirstTextEmpty(n, sels[1..]);
      assert forall k :: 1 <= k < |sels| ==> sels[k] == sels[1..][k - 1];
    }
  }

  lemma {:induction false} FirstTextIndex(n: Node, sels: seq<string>) returns (k: nat)
    requires FirstText(n, sels) != ""
    ensures k < |sels| && FirstText(n, sels) == ElementText(n, sels[k])
    ensures forall j :: 0 <= j < k ==> ElementText(n, sels[j]) == ""
    decreases |sels|
  {
    if ElementText(n, sels[0]) != "" {
      k := 0;
    } else {
      var k' := FirstTextIndex(n, sels[1..]);
      k := k' + 1;
      assert forall j :: 1 <= j < k ==> sels[j] == sels[1..][j - 1];
    }
  }

  /** The text returned never starts or ends with whitespace. */
  lemma {:induction false} FirstTextTrimmed(n: Node, sels: seq<string>)
    ensures var r := FirstText(n, sels); r == "" || (!IsSpace(r[0]) && !IsSpace(r[|r| - 1]))
    decreases |sels|
  {
    if sels != [] && ElementText(n, sels[0]) == "" {
      FirstTextTrimmed(n, sels[1..]);
    }
  }

  method GetText(n: Node, sels: seq<string>) returns (t: string)
    ensures t == FirstText(n, sels)
  {
    var i := 0;
    while i < |sels|
      invariant 0 <= i <= |sels|
      invariant FirstText(n, sels) == FirstText(n, sels[i..])
    {
      assert sels[i..][1..] == sels[i + 1..];
      var el := Query(n, sels[i]);
      if el.Some? {
        var text := Trim(el.value.text);
        if text != "" {
          return text;
        }
      }
      i := i + 1;
    }
    return "";
  }

  /** `getUrl` (server.cjs:1054-1060): the `href` of the first element that
      has one, else "". */
  function FirstUrl(n: Node, sels: seq<string>): string {
    if sels == [] then ""
    else
      match Query(n, sels[0])
      case Some(el) => if el.href != "" then el.href else FirstUrl(n, sels[1..])
      case None => FirstUrl(n, sels[1..])
  }

  /** Whether the first element for `sel` carries a non-empty `href`. */
  predicate HasUrl(n: Node, sel: string) {
    Query(n, sel).Some? && Query(n, sel).value.href != ""
  }

  /** A URL found is the `href` of the first selector whose element has one;
      "" exactly when no selector's element has one. */
  lemma {:induction false} FirstUrlFound(n: Node, sels: seq<string>)
    ensures FirstUrl(n, sels) == "" <==> forall k :: 0 <= k < |sels| ==> !HasUrl(n, sels[k])
    ensures FirstUrl(n, sels) != "" ==>
              exists k :: 0 <= k < |sels| && HasUrl(n, sels[k]) &&
                          FirstUrl(n, sels) == Query(n, sels[k]).value.href &&
                          forall j :: 0 <= j < k ==> !HasUrl(n, sels[j])
  {
    FirstUrlEmpty(n, sels);
    if FirstUrl(n, sels) != "" {
      var k := FirstUrlIndex(n, sels);
    }
  }

  lemma {:induction false} FirstUrlEmpty(n: Node, sels: seq<string>)
    ensures FirstUrl(n, sels) == "" <==> forall k :: 0 <= k < |sels| ==> !HasUrl(n, sels[k])
    decreases |sels|
  {
    if sels != [] {
      FirstUrlEmpty(n, sels[1..]);
      assert forall k :: 1 <= k < |sels| ==> sels[k] == sels[1..][k - 1];
    }
  }

  /** The witness of FirstUrlFound: the first selector whose element has an `href`. */
  lemma {:induction false} FirstUrlIndex(n: Node, sels: seq<string>) returns (k: nat)
    requires FirstUrl(n, sels) != ""
    ensures k < |sels| && HasUrl(n, sels[k]) && FirstUrl(n, sels) == Query(n, sels[k]).value.href
    ensures forall j :: 0 <= j < k ==> !HasUrl(n, sels[j])
    decreases |sels|
  {
    if HasUrl(n, sels[0]) {
      k := 0;
    } else {
      var k' := FirstUrlIndex(n, sels[1..]);
      k := k' + 1;
      assert forall j :: 1 <= j < k ==> sels[j] == sels[1..][j - 1];
    }
  }

  method GetUrl(n: Node, sels: seq<string>) returns (url: string)
    ensures url == FirstUrl(n, sels)
  {
    var i := 0;
    while i < |sels|
      invariant 0 <= i <= |sels|
      invariant FirstUrl(n, sels) == FirstUrl(n, sels[i..])
    {
      assert sels[i..][1..] == sels[i + 1..];
      var el := Query(n, sels[i]);
      if el.Some? && el.value.href != "" {
        return el.value.href;
      }
      i := i + 1;
    }
    return "";
  }

  // ---------------------------------------------------------------------
  // Values computed for each row and then not placed in the record
  // ---------------------------------------------------------------------

  /** The date of server.cjs:1077-1106: `today` unless the text has a date. */
  function RowDate(dateText: string, today: string): (r: string)
    ensures dateText == "" ==> r == today
    ensures r == today || IsLooseIsoDate(r)
  {
    if dateText == "" then today else SearchDateShape(dateText, today); SearchDate(dateText, today)
  }

  /** The separators of `split(/[,;]/)`. */
  predicate IsNameSep(c: char) { c == ',' || c == ';' }

  /** `.map(name => name.trim()).filter(name => name && name.length > 1)`. */
  function LongNames(parts: seq<string>): (r: seq<string>)
    ensures |r| <= |parts|
    ensures forall k :: 0 <= k < |r| ==> |r[k]| > 1
  {
    if parts == [] then []
    else
      var rest := LongNames(parts[1..]);
      var t := Trim(parts[0]);
      if |t| > 1 then [t] + rest else rest
  }

  /** The inventors of server.cjs:1113-1125. */
  function RowInventors(assigneeText: string): (r: seq<string>)
    ensures 1 <= |r| <= MaxInventors
    ensures r == [UnknownInventor] || r == [assigneeText] || forall k :: 0 <= k < |r| ==> |r[k]| > 1
  {
    if assigneeText == "" then [UnknownInventor]
    else
      var names := Take(LongNames(Split(assigneeText, IsNameSep)), MaxInventors);
      if names == [] then [assigneeText] else names
  }

  /** Only the length is tested, so a number survives the split. */
  lemma RowInventorsKeepNumbers()
    ensures RowInventors("Smith; 12") == ["Smith", "12"]
  {
    ExampleSplit();
    ExampleLongNames();
  }

  lemma ExampleSplit()
    ensures Split("Smith; 12", IsNameSep) == ["Smith", " 12"]
  {
    assert "Smith; 12" == "Smith" + [';'] + " 12";
    SplitAt("Smith", ';', " 12", IsNameSep);
    SplitNoSep(" 12", IsNameSep);
  }

  lemma ExampleTrim()
    ensures Trim("Smith") == "Smith"
    ensures Trim(" 12") == "12"
  {
    assert !IsSpace('h') && !IsSpace('S');
    assert !IsSpace('2') && !IsSpace('1') && IsSpace(' ');
    assert TrimEnd(" 12") == " 12";
    assert " 12"[1..] == "12";
  }

  lemma ExampleLongNames()
    ensures LongNames(["Smith", " 12"]) == ["Smith", "12"]
  {
    ExampleTrim();
    assert ["Smith", " 12"][1..] == [" 12"];
    assert [" 12"][1..] == [];
  }

  /** The abstract of server.cjs:1145-1149: the cell text when it is longer
      than 20 characters, capped at 300 plus "...". */
  function RowAbstract(abstractText: string): (r: string)
    ensures |r| <= AbstractMax + 3
    ensures |abstractText| <= 20 ==> r == NoAbstract
    ensures 20 < |abstractText| <= AbstractMax ==> r == abstractText
  {
    if |abstractText| > 20 then Truncate(abstractText, AbstractMax) else NoAbstract
  }

  // ---------------------------------------------------------------------
  // The last cell
  // ---------------------------------------------------------------------

  /** `title1` (server.cjs:1134-1135): the trimmed text between a leading
      `<digits>.<digits>` and the first "US" after it, or "". */
  function CellTitle(cell: string): (r: string)
    ensures r == "" || (!IsSpace(r[0]) && !IsSpace(r[|r| - 1]))
  {
    match Find(cell, NumberedTitleAt)
    case Some(sp) =>
      var b := NumberedBodyStart(cell, sp.start).value;
      var c := LazyUsFrom(cell, b).value;
      Trim(cell[b..c])
    case None => ""
  }

  /** `country` (server.cjs:1139-1141). */
  function Country(cell: string): string {
    if Find(cell, CountryDateAt).Some? then "US" else ""
  }

  /** `date1` (server.cjs:1142): the optional dotted date after "US -". */
  function CountryDate(cell: string): string {
    match Find(cell, CountryDateAt)
    case Some(sp) =>
      var e := CountryDashEnd(cell, sp.start).value;
      if DottedDateAt(cell, e) then cell[e..e + 10] else ""
    case None => ""
  }

  /** The country is "US" exactly when the cell has the word US followed,
      after optional spaces, by a dash; otherwise it is "". */
  lemma CountryCases(cell: string)
    ensures Country(cell) == "US" <==> exists p: nat :: p <= |cell| && CountryDashEnd(cell, p).Some?
    ensures Country(cell) == "" || Country(cell) == "US"
  {
    if exists p: nat :: p <= |cell| && CountryDashEnd(cell, p).Some? {
      var p: nat :| p <= |cell| && CountryDashEnd(cell, p).Some?;
      assert MatchesAt(cell, CountryDateAt, p);
    }
  }

  /** The date is "" or `DD.DD.DDDD`, and only comes with the country. */
  lemma CountryDateShape(cell: string)
    ensures CountryDate(cell) == "" || IsDottedDate(CountryDate(cell))
    ensures CountryDate(cell) != "" ==> Country(cell) == "US"
  {
  }

  // ---------------------------------------------------------------------
  // The record
  // ---------------------------------------------------------------------

  /** `pdfUrl` (server.cjs:1160-1162). */
  function RowPdfUrl(n: Node, detailUrl: string): string {
    Or(FirstUrl(n, PdfSelectors), if detailUrl != "" then detailUrl + PdfSuffix else "")
  }

  /** The record of container `i` (server.cjs:1045-1175), pushed when it has
      a patent number or a title. */
  function SearchItem(n: Node, i: nat): Option<WipoRecord> {
    var patentId := FirstText(n, [DetailLink]);
    var title := Or(FirstText(n, TitleSelectors), NoTitle);
    var cell := FirstText(n, [LastCell]);
    var country := Country(cell);
    var detailUrl := FirstUrl(n, DetailUrlSelectors);
    if patentId != "" || title != "" then
      Some(WipoRecord(Or(country + patentId, "WIPO-" + NatToString(i + 1)), CellTitle(cell), CountryDate(cell),
                      patentId, country, detailUrl, RowPdfUrl(n, detailUrl), "available"))
    else None
  }

  method ExtractSearchItem(n: Node, i: nat, today: string) returns (r: Option<WipoRecord>)
    ensures r == SearchItem(n, i)
  {
    var patentId := GetText(n, [DetailLink]);
    var title := GetText(n, TitleSelectors);
    title := Or(title, NoTitle);
    var dateText := GetText(n, DateSelectors);
    var date := RowDate(dateText, today);
    var assigneeText := GetText(n, AssigneeSelectors);
    var inventors := RowInventors(assigneeText);
    var abstractText := GetText(n, [LastCell]);
    var title1 := CellTitle(abstractText);
    var country := Country(abstractText);
    var date1 := CountryDate(abstractText);
    var rowAbstract := RowAbstract(abstractText);
    var detailUrl := GetUrl(n, DetailUrlSelectors);
    var pdfUrl := GetUrl(n, PdfSelectors);
    if pdfUrl == "" {
      pdfUrl := if detailUrl != "" then detailUrl + PdfSuffix else "";
    }
    if patentId != "" || title != "" {
      r := Some(WipoRecord(Or(country + patentId, "WIPO-" + NatToString(i + 1)), title1, date1,
                           patentId, country, detailUrl, pdfUrl, "available"));
    } else {
      r := None;
    }
  }

  /** The title falls back to a placeholder, so the test of server.cjs:1165
      never fails and every row is pushed. */
  lemma SearchItemPushed(n: Node, i: nat)
    ensures SearchItem(n, i).Some?
  {
  }

  /** What the record holds. */
  lemma SearchItemFields(n: Node, i: nat)
    ensures var r := SearchItem(n, i).value;
            var patentId := FirstText(n, [DetailLink]);
            var cell := FirstText(n, [LastCell]);
            r.status == "available" && r.inventors == patentId && r.abstractText == Country(cell) &&
            (Country(cell) == "US" ==> r.id == "US" + patentId) &&
            (Country(cell) == "" && patentId != "" ==> r.id == patentId) &&
            (Country(cell) == "" && patentId == "" ==> r.id == "WIPO-" + NatToString(i + 1)) &&
            (r.date == "" || IsDottedDate(r.date))
  {
    CountryCases(FirstText(n, [LastCell]));
    CountryDateShape(FirstText(n, [LastCell]));
  }

  /** Two rows without a country or a patent number get the same id only
      when they are the same container. */
  lemma FallbackIdsDistinct(n: Node, i: nat, m: Node, j: nat)
    requires Country(FirstText(n, [LastCell])) + FirstText(n, [DetailLink]) == ""
    requires Country(FirstText(m, [LastCell])) + FirstText(m, [DetailLink]) == ""
    ensures SearchItem(n, i).value.id == SearchItem(m, j).value.id <==> i == j
  {
    NatToStringInjective("WIPO-", i + 1, j + 1);
  }

  /** The PDF link is a PDF anchor's, else the detail page with
      "&format=pdf", else "". */
  lemma PdfUrlFallback(n: Node, detailUrl: string)
    ensures FirstUrl(n, PdfSelectors) != "" ==> RowPdfUrl(n, detailUrl) == FirstUrl(n, PdfSelectors)
    ensures FirstUrl(n, PdfSelectors) == "" && detailUrl != "" ==>
              RowPdfUrl(n, detailUrl) == detailUrl + PdfSuffix
    ensures FirstUrl(n, PdfSelectors) == "" && detailUrl == "" ==> RowPdfUrl(n, detailUrl) == ""
  {
  }

  // ---------------------------------------------------------------------
  // The loop over the containers
  // ---------------------------------------------------------------------

  /** What each container gives. */
  function SearchItems(cs: seq<Node>): (r: seq<Option<WipoRecord>>)
    ensures |r| == |cs|
  {
    seq(|cs|, i requires 0 <= i < |cs| => SearchItem(cs[i], i))
  }

  /** Every container among the first `min(#containers, maxResults)` gives
      exactly one record, in order. */
  method ExtractSearchResults(doc: Document, maxResults: int, today: string) returns (results: seq<WipoRecord>)
    ensures var cs := Containers(doc, ContainerSelectors);
            results == Pushed(SearchItems(cs)[..Limit(|cs|, maxResults)])
    ensures |results| == Limit(|Containers(doc, ContainerSelectors)|, maxResults)
    ensures forall k :: 0 <= k < |results| ==> results[k].status == "available"
  {
    var containers := SelectContainers(doc);
    ghost var items := SearchItems(containers);
    var n := Limit(|containers|, maxResults);
    results := [];
    var i := 0;
    while i < n
      invariant 0 <= i <= n
      invariant results == Pushed(items[..i])
      invariant |results| == i
      invariant forall k :: 0 <= k < |results| ==> results[k].status == "available"
    {
      var r := ExtractSearchItem(containers[i], i, today);
      assert r == items[i];
      PushedStep(items, i);
      SearchItemPushed(containers[i], i);
      results := results + [r.value];
      i := i + 1;
    }
  }
}
