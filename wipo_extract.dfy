/** `extractWIPOResults` (server.cjs:404-580): the rows of a PATENTSCOPE
    result page, read by selector loops and regular expressions. */
module WipoExtract {
  import opened Options
  import opened Text
  import opened Patterns
  import Dates
  import opened Dom
  import opened Shared

  /** One pushed result. */
  datatype WipoResult = WipoResult(
    id: string,
    title: string,
    date: string,
    assignee: string,
    pdfUrl: string,
    detailUrl: string,
    source: string,
    rank: nat)

  const ContainerSelectors := ["tbody tr", ".ps-patent-result", ".search-result", "[class*=\"result\"]"]
  const IdSelectors := [".patent-number", ".publication-number", "td:first-child", "strong:first-of-type"]
  const TitleSelectors := ["a[href*=\"detail\"]", ".patent-title a", ".title a", "td:nth-child(2) a", ".title", "h3", "h4"]
  const DateSelectors := [".publication-date", ".date", "td:nth-child(3)", "[class*=\"date\"]"]
  const AssigneeSelectors := [".assignee", ".applicant", "td:nth-child(4)", "[class*=\"applicant\"]"]
  const DetailLink := "a[href*=\"detail\"]"
  const PdfLinkSelectors := ["a[href*=\".pdf\"]", "a[title*=\"PDF\" i]"]

  const NoDate := "Date not available"
  const NoAssignee := "Not specified"
  /** A title longer than this ends the title loop. */
  const SubstantialTitle := 10

  // ---------------------------------------------------------------------
  // Containers
  // ---------------------------------------------------------------------

  /** The filter of server.cjs:422-427: the lower-cased text mentions a
      patent or an application, or the row links to a detail or patent page. */
  predicate LooksLikePatentRow(n: Node) {
    var text := ToLower(n.text);
    Contains(text, "patent") || Contains(text, "application") ||
    Query(n, "a[href*=\"detail\"]").Some? || Query(n, "a[href*=\"patent\"]").Some?
  }

  /** `nodes.filter(LooksLikePatentRow)`. */
  function PatentRows(nodes: seq<Node>): (r: seq<Node>)
    ensures |r| <= |nodes|
    ensures forall n :: n in r <==> n in nodes && LooksLikePatentRow(n)
  {
    if nodes == [] then []
    else
      var rest := PatentRows(nodes[1..]);
      assert forall n :: n in nodes <==> n == nodes[0] || n in nodes[1..];
      if LooksLikePatentRow(nodes[0]) then [nodes[0]] + rest else rest
  }

  /** The container loop (server.cjs:418-430): the patent rows of the first
      selector that has any. When none has, the last assignment leaves an
      empty list either way. */
  function Containers(doc: Document, sels: seq<string>): seq<Node> {
    if sels == [] then []
    else
      var rows := PatentRows(Select(doc, sels[0]));
      if rows != [] then rows else Containers(doc, sels[1..])
  }

  lemma ContainersFirst(doc: Document, sels: seq<string>)
    ensures var r := Containers(doc, sels);
            r == [] <==> forall k :: 0 <= k < |sels| ==> PatentRows(Select(doc, sels[k])) == []
    ensures var r := Containers(doc, sels);
            r != [] ==> exists k :: 0 <= k < |sels| && r == PatentRows(Select(doc, sels[k])) &&
                                    forall j :: 0 <= j < k ==> PatentRows(Select(doc, sels[j])) == []
  {
    ContainersEmpty(doc, sels);
    if Containers(doc, sels) != [] {
      var k := ContainersIndex(doc, sels);
    }
  }

  lemma {:induction false} ContainersEmpty(doc: Document, sels: seq<string>)
    ensures Containers(doc, sels) == [] <==> forall k :: 0 <= k < |sels| ==> PatentRows(Select(doc, sels[k])) == []
    decreases |sels|
  {
    if sels != [] {
      ContainersEmpty(doc, sels[1..]);
      assert forall k :: 1 <= k < |sels| ==> sels[k] == sels[1..][k - 1];
    }
  }

  lemma {:induction false} ContainersIndex(doc: Document, sels: seq<string>) returns (k: nat)
    requires Containers(doc, sels) != []
    ensures k < |sels| && Containers(doc, sels) == PatentRows(Select(doc, sels[k]))
    ensures forall j :: 0 <= j < k ==> PatentRows(Select(doc, sels[j])) == []
    decreases |sels|
  {
    if PatentRows(Select(doc, sels[0])) != [] {
      k := 0;
    } else {
      var k' := ContainersIndex(doc, sels[1..]);
      k := k' + 1;
      assert forall j :: 1 <= j < k ==> sels[j] == sels[1..][j - 1];
    }
  }

  /** Every container looks like a patent row. */
  lemma {:induction false} ContainersArePatentRows(doc: Document, sels: seq<string>)
    ensures forall n :: n in Containers(doc, sels) ==> LooksLikePatentRow(n)
    decreases |sels|
  {
    if sels != [] {
      ContainersArePatentRows(doc, sels[1..]);
    }
  }

  method SelectContainers(doc: Document) returns (containers: seq<Node>)
    ensures containers == Containers(doc, ContainerSelectors)
  {
    var sels := ContainerSelectors;
    containers := [];
    var i := 0;
    while i < |sels|
      invariant 0 <= i <= |sels|
      invariant containers == []
      invariant Containers(doc, sels) == Containers(doc, sels[i..])
    {
      assert sels[i..][1..] == sels[i + 1..];
      containers := Select(doc, sels[i]);
      if |containers| > 0 {
        containers := PatentRows(containers);
        if |containers| > 0 {
          break;
        }
      }
      i := i + 1;
    }
  }

  // ---------------------------------------------------------------------
  // Patent id
  // ---------------------------------------------------------------------

  /** The four patterns of server.cjs:440-445, in order. Each is `\b(...)\b`,
      so group 1 is the whole match. */
  const IdPatterns: seq<Matcher> := [Id8At, WoNumberAt, YearSlashAt, SpacedIdAt]

  /** The pattern loop (server.cjs:447-454): the first pattern that matches
      the raw row text gives the id, with its whitespace removed. */
  function PatternId(text: string, pats: seq<Matcher>): (r: string)
    ensures forall i :: 0 <= i < |r| ==> !IsSpace(r[i])
  {
    if pats == [] then ""
    else
      match MatchText(text, pats[0])
      case Some(m) => RemoveSpaces(m)
      case None => PatternId(text, pats[1..])
  }

  /** A matcher that only matches where a non-space character starts. */
  ghost predicate SolidStart(m: Matcher) {
    forall s: string, p: nat {:trigger m(s, p)} :: m(s, p).Some? ==> p < m(s, p).value && p < |s| && !IsSpace(s[p])
  }

  lemma UpperNotSpace(c: char)
    requires IsUpper(c) || IsDigit(c)
    ensures !IsSpace(c)
  {
  }

  lemma Id8Solid()
    ensures SolidStart(Id8At)
  {
    forall s: string, p: nat | Id8At(s, p).Some? ensures p < Id8At(s, p).value && p < |s| && !IsSpace(s[p]) {
      UpperNotSpace(s[p]);
    }
  }

  lemma WoNumberSolid()
    ensures SolidStart(WoNumberAt)
  {
    forall s: string, p: nat | WoNumberAt(s, p).Some? ensures p < WoNumberAt(s, p).value && p < |s| && !IsSpace(s[p]) {
      assert s[p..p + 2][0] == 'W';
    }
  }

  lemma YearSlashSolid()
    ensures SolidStart(YearSlashAt)
  {
    forall s: string, p: nat | YearSlashAt(s, p).Some? ensures p < YearSlashAt(s, p).value && p < |s| && !IsSpace(s[p]) {
      UpperNotSpace(s[p]);
    }
  }

  lemma SpacedIdSolid()
    ensures SolidStart(SpacedIdAt)
  {
    forall s: string, p: nat | SpacedIdAt(s, p).Some? ensures p < SpacedIdAt(s, p).value && p < |s| && !IsSpace(s[p]) {
      UpperNotSpace(s[p]);
    }
  }

  lemma IdPatternsSolid()
    ensures forall k :: 0 <= k < |IdPatterns| ==> SolidStart(IdPatterns[k])
  {
    Id8Solid();
    WoNumberSolid();
    YearSlashSolid();
    SpacedIdSolid();
  }

  /** Removing the spaces of a match that starts with a non-space character
      leaves something. */
  lemma SolidMatchNonEmpty(text: string, m: Matcher)
    requires SolidStart(m)
    requires Find(text, m).Some?
    ensures RemoveSpaces(MatchText(text, m).value) != ""
  {
    var sp := Find(text, m).value;
    assert m(text, sp.start).Some?;
    var t := text[sp.start..sp.end];
    assert t[0] == text[sp.start];
  }

  /** The selector fallback runs exactly when none of the patterns matches;
      otherwise the id is the match of the first pattern that matches, with
      its whitespace removed. */
  lemma {:induction false} PatternIdFound(text: string, pats: seq<Matcher>)
    requires forall k :: 0 <= k < |pats| ==> SolidStart(pats[k])
    ensures PatternId(text, pats) != "" <==> exists k :: 0 <= k < |pats| && Find(text, pats[k]).Some?
    ensures PatternId(text, pats) != "" ==>
              exists k :: 0 <= k < |pats| && Find(text, pats[k]).Some? &&
                          PatternId(text, pats) == RemoveSpaces(MatchText(text, pats[k]).value) &&
                          forall j :: 0 <= j < k ==> Find(text, pats[j]).None?
    decreases |pats|
  {
    PatternIdNonEmpty(text, pats);
    if PatternId(text, pats) != "" {
      var k := PatternIdIndex(text, pats);
    }
  }

  lemma {:induction false} PatternIdNonEmpty(text: string, pats: seq<Matcher>)
    requires forall k :: 0 <= k < |pats| ==> SolidStart(pats[k])
    ensures PatternId(text, pats) != "" <==> exists k :: 0 <= k < |pats| && Find(text, pats[k]).Some?
    decreases |pats|
  {
    if pats != [] {
      assert forall k :: 1 <= k < |pats| ==> pats[k] == pats[1..][k - 1];
      PatternIdNonEmpty(text, pats[1..]);
      if Find(text, pats[0]).Some? {
        SolidMatchNonEmpty(text, pats[0]);
      } else {
        if exists k :: 0 <= k < |pats| && Find(text, pats[k]).Some? {
          var k :| 0 <= k < |pats| && Find(text, pats[k]).Some?;
          assert Find(text, pats[1..][k - 1]).Some?;
        }
      }
    }
  }

  /** The witness of PatternIdFound: the first pattern that matches. */
  lemma {:induction false} PatternIdIndex(text: string, pats: seq<Matcher>) returns (k: nat)
    requires exists k :: 0 <= k < |pats| && Find(text, pats[k]).Some?
    ensures k < |pats| && Find(text, pats[k]).Some?
    ensures PatternId(text, pats) == RemoveSpaces(MatchText(text, pats[k]).value)
    ensures forall j :: 0 <= j < k ==> Find(text, pats[j]).None?
    decreases |pats|
  {
    if Find(text, pats[0]).Some? {
      k := 0;
    } else {
      var k0 :| 0 <= k0 < |pats| && Find(text, pats[k0]).Some?;
      assert Find(text, pats[1..][k0 - 1]).Some?;
      var k' := PatternIdIndex(text, pats[1..]);
      k := k' + 1;
      assert forall j :: 1 <= j < k ==> pats[j] == pats[1..][j - 1];
    }
  }

  method FindPatternId(text: string) returns (id: string)
    ensures id == PatternId(text, IdPatterns)
  {
    var pats := IdPatterns;
    id := "";
    var i := 0;
    while i < |pats|
      invariant 0 <= i <= |pats|
      invariant id == ""
      invariant PatternId(text, pats) == PatternId(text, pats[i..])
    {
      assert pats[i..][1..] == pats[i + 1..];
      var m := MatchText(text, pats[i]);
      if m.Some? {
        id := RemoveSpaces(m.value);
        break;
      }
      i := i + 1;
    }
  }

  /** Two capital letters followed by at least `n` digits. */
  predicate LongIdShape(t: string, n: nat) {
    |t| >= 2 + n && IsUpper(t[0]) && IsUpper(t[1]) && forall i :: 2 <= i < 2 + n ==> IsDigit(t[i])
  }

  lemma Id6MatchShape(t: string)
    requires Find(t, Id6At).Some?
    ensures LongIdShape(MatchText(t, Id6At).value, 6)
  {
    var sp := Find(t, Id6At).value;
    assert Id6At(t, sp.start) == Some(sp.end);
    var m := t[sp.start..sp.end];
    assert forall i :: 0 <= i < |m| ==> m[i] == t[sp.start + i];
    assert DigitRun(t, sp.start + 2) >= 6;
    RunHolds(t, sp.start + 2, IsDigit);
  }

  /** The selector fallback (server.cjs:457-476): the first element whose
      trimmed text has a match of the six-digit pattern gives that match. */
  function SelectorId(n: Node, sels: seq<string>): (r: string)
    ensures r == "" || LongIdShape(r, 6)
  {
    if sels == [] then ""
    else
      match Query(n, sels[0])
      case Some(el) =>
        var m := MatchText(Trim(el.text), Id6At);
        if m.Some? then Id6MatchShape(Trim(el.text)); m.value else SelectorId(n, sels[1..])
      case None => SelectorId(n, sels[1..])
  }

  /** Whether the element for `sel` has a six-digit id in its trimmed text. */
  predicate IdIn(n: Node, sel: string) {
    Query(n, sel).Some? && MatchText(Trim(Query(n, sel).value.text), Id6At).Some?
  }

  /** The id is "" exactly when no selector's element holds an id; otherwise
      it is the match in the trimmed text of the first one that does. */
  lemma {:induction false} SelectorIdFound(n: Node, sels: seq<string>)
    ensures SelectorId(n, sels) == "" <==> forall k :: 0 <= k < |sels| ==> !IdIn(n, sels[k])
    ensures SelectorId(n, sels) != "" ==>
              exists k :: 0 <= k < |sels| && IdIn(n, sels[k]) &&
                          MatchText(Trim(Query(n, sels[k]).value.text), Id6At) == Some(SelectorId(n, sels)) &&
                          forall j :: 0 <= j < k ==> !IdIn(n, sels[j])
  {
    SelectorIdEmpty(n, sels);
    if SelectorId(n, sels) != "" {
      var k := SelectorIdIndex(n, sels);
    }
  }

  lemma {:induction false} SelectorIdEmpty(n: Node, sels: seq<string>)
    ensures SelectorId(n, sels) == "" <==> forall k :: 0 <= k < |sels| ==> !IdIn(n, sels[k])
    decreases |sels|
  {
    if sels != [] {
      assert forall k :: 1 <= k < |sels| ==> sels[k] == sels[1..][k - 1];
      SelectorIdEmpty(n, sels[1..]);
      if IdIn(n, sels[0]) {
        Id6MatchShape(Trim(Query(n, sels[0]).value.text));
      }
    }
  }

  /** The witness of SelectorIdFound: the first selector whose element holds an id. */
  lemma {:induction false} SelectorIdIndex(n: Node, sels: seq<string>) returns (k: nat)
    requires SelectorId(n, sels) != ""
    ensures k < |sels| && IdIn(n, sels[k])
    ensures MatchText(Trim(Query(n, sels[k]).value.text), Id6At) == Some(SelectorId(n, sels))
    ensures forall j :: 0 <= j < k ==> !IdIn(n, sels[j])
    decreases |sels|
  {
    if IdIn(n, sels[0]) {
      k := 0;
    } else {
      var k' := SelectorIdIndex(n, sels[1..]);
      k := k' + 1;
      assert forall j :: 1 <= j < k ==> sels[j] == sels[1..][j - 1];
    }
  }

  method FindSelectorId(n: Node) returns (id: string)
    ensures id == SelectorId(n, IdSelectors)
  {
    var sels := IdSelectors;
    id := "";
    var i := 0;
    while i < |sels|
      invariant 0 <= i <= |sels|
      invariant id == ""
      invariant SelectorId(n, sels) == SelectorId(n, sels[i..])
    {
      assert sels[i..][1..] == sels[i + 1..];
      var el := Query(n, sels[i]);
      if el.Some? {
        var text := Trim(el.value.text);
        var m := MatchText(text, Id6At);
        if m.Some? {
          id := m.value;
          break;
        }
      }
      i := i + 1;
    }
  }

  /** The id of a row: from the patterns, else from the selectors. */
  function ContainerId(n: Node): string {
    var p := PatternId(n.text, IdPatterns);
    if p != "" then p else SelectorId(n, IdSelectors)
  }

  // ---------------------------------------------------------------------
  // Title
  // ---------------------------------------------------------------------

  /** What one title selector offers: the trimmed text without a leading
      patent number, when the element exists, its trimmed text is not empty
      and its raw text is not all digits. */
  function TitleCandidate(n: Node, sel: string): Option<string> {
    match Query(n, sel)
    case Some(el) =>
      if Trim(el.text) != "" && !IsAllDigits(el.text) then Some(StripIdPrefix(Trim(el.text))) else None
    case None => None
  }

  /** The candidates of the selectors, in order. */
  function TitleCandidates(n: Node, sels: seq<string>): (r: seq<Option<string>>)
    ensures |r| == |sels|
  {
    seq(|sels|, k requires 0 <= k < |sels| => TitleCandidate(n, sels[k]))
  }

  /** A candidate long enough to end the title loop. */
  predicate Substantial(c: Option<string>) {
    c.Some? && |c.value| > SubstantialTitle
  }

  /** The title loop (server.cjs:489-498) over the candidates: every
      candidate overwrites the title, and a substantial one ends the loop. */
  function PickTitle(cands: seq<Option<string>>, current: string): string {
    if cands == [] then current
    else
      match cands[0]
      case Some(t) => if |t| > SubstantialTitle then t else PickTitle(cands[1..], t)
      case None => PickTitle(cands[1..], current)
  }

  /** The title is the starting value or one of the candidates. */
  lemma {:induction false} PickTitleFrom(cands: seq<Option<string>>, current: string)
    ensures var r := PickTitle(cands, current);
            r == current || exists k :: 0 <= k < |cands| && cands[k] == Some(r)
    decreases |cands|
  {
    if cands != [] {
      var next := if cands[0].Some? then cands[0].value else current;
      PickTitleFrom(cands[1..], next);
      assert forall k :: 1 <= k < |cands| ==> cands[k] == cands[1..][k - 1];
    }
  }

  /** When some candidate is substantial, the first such one is the title. */
  lemma PickFirstSubstantial(cands: seq<Option<string>>, current: string)
    requires exists k :: 0 <= k < |cands| && Substantial(cands[k])
    ensures exists k :: 0 <= k < |cands| && Substantial(cands[k]) && cands[k] == Some(PickTitle(cands, current)) &&
                        forall j :: 0 <= j < k ==> !Substantial(cands[j])
  {
    var k := FirstSubstantial(cands);
    PickAtFirstSubstantial(cands, current, k);
  }

  lemma {:induction false} FirstSubstantial(cands: seq<Option<string>>) returns (k: nat)
    requires exists k :: 0 <= k < |cands| && Substantial(cands[k])
    ensures k < |cands| && Substantial(cands[k]) && forall j :: 0 <= j < k ==> !Substantial(cands[j])
    decreases |cands|
  {
    if Substantial(cands[0]) {
      k := 0;
    } else {
      var i :| 0 <= i < |cands| && Substantial(cands[i]);
      assert cands[1..][i - 1] == cands[i];
      var k' := FirstSubstantial(cands[1..]);
      k := k' + 1;
      assert forall j :: 1 <= j < k ==> cands[j] == cands[1..][j - 1];
    }
  }

  lemma {:induction false} PickAtFirstSubstantial(cands: seq<Option<string>>, current: string, k: nat)
    requires k < |cands| && Substantial(cands[k]) && forall j :: 0 <= j < k ==> !Substantial(cands[j])
    ensures cands[k] == Some(PickTitle(cands, current))
    decreases k
  {
    if k > 0 {
      var next := if cands[0].Some? then cands[0].value else current;
      assert !Substantial(cands[0]);
      assert forall j :: 0 <= j < k - 1 ==> cands[1..][j] == cands[j + 1];
      PickAtFirstSubstantial(cands[1..], next, k - 1);
    }
  }

  /** Otherwise the title is not substantial unless the starting value was. */
  lemma {:induction false} PickShort(cands: seq<Option<string>>, current: string)
    requires forall k :: 0 <= k < |cands| ==> !Substantial(cands[k])
    requires |current| <= SubstantialTitle
    ensures |PickTitle(cands, current)| <= SubstantialTitle
    decreases |cands|
  {
    if cands != [] {
      var next := if cands[0].Some? then cands[0].value else current;
      assert forall k :: 0 <= k < |cands[1..]| ==> cands[1..][k] == cands[k + 1];
      PickShort(cands[1..], next);
    }
  }

  function ItemTitle(n: Node): string {
    PickTitle(TitleCandidates(n, TitleSelectors), "")
  }

  /** One round of the title loop, at candidate `i`. */
  lemma PickStep(cands: seq<Option<string>>, i: nat, current: string)
    requires i < |cands|
    ensures cands[i].None? ==> PickTitle(cands[i..], current) == PickTitle(cands[i + 1..], current)
    ensures cands[i].Some? && |cands[i].value| > SubstantialTitle ==>
              PickTitle(cands[i..], current) == cands[i].value
    ensures cands[i].Some? && |cands[i].value| <= SubstantialTitle ==>
              PickTitle(cands[i..], current) == PickTitle(cands[i + 1..], cands[i].value)
  {
    assert cands[i..][1..] == cands[i + 1..];
  }

  method FindTitle(n: Node) returns (title: string)
    ensures title == ItemTitle(n)
  {
    var sels := TitleSelectors;
    ghost var cands := TitleCandidates(n, sels);
    title := "";
    var i := 0;
    while i < |sels|
      invariant 0 <= i <= |sels|
      invariant PickTitle(cands, "") == PickTitle(cands[i..], title)
    {
      ghost var c := TitleCandidate(n, sels[i]);
      assert cands[i] == c;
      PickStep(cands, i, title);
      var el := Query(n, sels[i]);
      if el.Some? && Trim(el.value.text) != "" && !IsAllDigits(el.value.text) {
        title := Trim(el.value.text);
        title := StripIdPrefix(title);
        assert c == Some(title);
        if |title| > SubstantialTitle {
          break;
        }
      } else {
        assert c == None;
      }
      i := i + 1;
    }
  }

  // ---------------------------------------------------------------------
  // Date and assignee
  // ---------------------------------------------------------------------

  /** The date loop (server.cjs:509-520): the first element whose trimmed
      text has a date match gives that match. */
  function DateFrom(n: Node, sels: seq<string>): (r: string)
    ensures r == "" || |r| >= 8
  {
    if sels == [] then ""
    else
      match Query(n, sels[0])
      case Some(el) =>
        var d := Dates.WipoDate(Trim(el.text));
        if d.Some? then d.value else DateFrom(n, sels[1..])
      case None => DateFrom(n, sels[1..])
  }

  /** Whether the element for `sel` has a date match in its trimmed text. */
  predicate DateIn(n: Node, sel: string) {
    Query(n, sel).Some? && Dates.WipoDate(Trim(Query(n, sel).value.text)).Some?
  }

  /** A date found is the match in the first selector's element that has one. */
  lemma DateFromFound(n: Node, sels: seq<string>)
    ensures DateFrom(n, sels) != "" ==>
              exists k :: 0 <= k < |sels| && DateIn(n, sels[k]) &&
                          Dates.WipoDate(Trim(Query(n, sels[k]).value.text)) == Some(DateFrom(n, sels)) &&
                          forall j :: 0 <= j < k ==> !DateIn(n, sels[j])
  {
    if DateFrom(n, sels) != "" {
      var k := DateFromIndex(n, sels);
    }
  }

  /** The witness of DateFromFound: the first selector whose element has a date. */
  lemma {:induction false} DateFromIndex(n: Node, sels: seq<string>) returns (k: nat)
    requires DateFrom(n, sels) != ""
    ensures k < |sels| && DateIn(n, sels[k])
    ensures Dates.WipoDate(Trim(Query(n, sels[k]).value.text)) == Some(DateFrom(n, sels))
    ensures forall j :: 0 <= j < k ==> !DateIn(n, sels[j])
    decreases |sels|
  {
    if DateIn(n, sels[0]) {
      k := 0;
    } else {
      var k' := DateFromIndex(n, sels[1..]);
      k := k' + 1;
      assert forall j :: 1 <= j < k ==> sels[j] == sels[1..][j - 1];
    }
  }

  /** No date exactly when no selector finds an element with a date in it. */
  lemma {:induction false} DateFromEmpty(n: Node, sels: seq<string>)
    ensures DateFrom(n, sels) == "" <==>
              forall k :: 0 <= k < |sels| && Query(n, sels[k]).Some? ==>
                            Dates.WipoDate(Trim(Query(n, sels[k]).value.text)).None?
    decreases |sels|
  {
    if sels != [] {
      assert forall k :: 1 <= k < |sels| ==> sels[k] == sels[1..][k - 1];
      DateFromEmpty(n, sels[1..]);
      match Query(n, sels[0])
      case Some(el) =>
        var d := Dates.WipoDate(Trim(el.text));
        if d.Some? {
          assert |d.value| >= 8;
        }
      case None =>
    }
  }

  method FindDate(n: Node) returns (date: string)
    ensures date == DateFrom(n, DateSelectors)
  {
    var sels := DateSelectors;
    date := "";
    var i := 0;
    while i < |sels|
      invariant 0 <= i <= |sels|
      invariant date == ""
      invariant DateFrom(n, sels) == DateFrom(n, sels[i..])
    {
      assert sels[i..][1..] == sels[i + 1..];
      var el := Query(n, sels[i]);
      if el.Some? {
        var text := Trim(el.value.text);
        var dateMatch := Dates.WipoDate(text);
        if dateMatch.Some? {
          date := dateMatch.value;
          break;
        }
      }
      i := i + 1;
    }
  }

  /** The assignee loop (server.cjs:531-537): the first element whose trimmed
      text is neither empty nor a lone dash. */
  function AssigneeFrom(n: Node, sels: seq<string>): (r: string)
    ensures r != "-"
  {
    if sels == [] then ""
    else
      match Query(n, sels[0])
      case Some(el) =>
        var t := Trim(el.text);
        if t != "" && t != "-" then t else AssigneeFrom(n, sels[1..])
      case None => AssigneeFrom(n, sels[1..])
  }

  /** Whether the element for `sel` has a trimmed text other than "" and "-". */
  predicate AssigneeIn(n: Node, sel: string) {
    Query(n, sel).Some? && Trim(Query(n, sel).value.text) != "" && Trim(Query(n, sel).value.text) != "-"
  }

  /** The assignee is "" exactly when no selector's element qualifies;
      otherwise it is the trimmed text of the first one that does. */
  lemma {:induction false} AssigneeFromFound(n: Node, sels: seq<string>)
    ensures AssigneeFrom(n, sels) == "" <==> forall k :: 0 <= k < |sels| ==> !AssigneeIn(n, sels[k])
    ensures AssigneeFrom(n, sels) != "" ==>
              exists k :: 0 <= k < |sels| && AssigneeIn(n, sels[k]) &&
                          AssigneeFrom(n, sels) == Trim(Query(n, sels[k]).value.text) &&
                          forall j :: 0 <= j < k ==> !AssigneeIn(n, sels[j])
  {
    AssigneeFromEmpty(n, sels);
    if AssigneeFrom(n, sels) != "" {
      var k := AssigneeFromIndex(n, sels);
    }
  }

  lemma {:induction false} AssigneeFromEmpty(n: Node, sels: seq<string>)
    ensures AssigneeFrom(n, sels) == "" <==> forall k :: 0 <= k < |sels| ==> !AssigneeIn(n, sels[k])
    decreases |sels|
  {
    if sels != [] {
      assert forall k :: 1 <= k < |sels| ==> sels[k] == sels[1..][k - 1];
      AssigneeFromEmpty(n, sels[1..]);
    }
  }

  /** The witness of AssigneeFromFound: the first selector whose element qualifies. */
  lemma {:induction false} AssigneeFromIndex(n: Node, sels: seq<string>) returns (k: nat)
    requires AssigneeFrom(n, sels) != ""
    ensures k < |sels| && AssigneeIn(n, sels[k])
    ensures AssigneeFrom(n, sels) == Trim(Query(n, sels[k]).value.text)
    ensures forall j :: 0 <= j < k ==> !AssigneeIn(n, sels[j])
    decreases |sels|
  {
    if AssigneeIn(n, sels[0]) {
      k := 0;
    } else {
      var k' := AssigneeFromIndex(n, sels[1..]);
      k := k' + 1;
      assert forall j :: 1 <= j < k ==> sels[j] == sels[1..][j - 1];
    }
  }

  method FindAssignee(n: Node) returns (assignee: string)
    ensures assignee == AssigneeFrom(n, AssigneeSelectors)
  {
    var sels := AssigneeSelectors;
    assignee := "";
    var i := 0;
    while i < |sels|
      invariant 0 <= i <= |sels|
      invariant assignee == ""
      invariant AssigneeFrom(n, sels) == AssigneeFrom(n, sels[i..])
    {
      assert sels[i..][1..] == sels[i + 1..];
      var el := Query(n, sels[i]);
      if el.Some? && Trim(el.value.text) != "" && Trim(el.value.text) != "-" {
        assignee := Trim(el.value.text);
        break;
      }
      i := i + 1;
    }
  }

  // ---------------------------------------------------------------------
  // The record
  // ---------------------------------------------------------------------

  function Href(e: Option<Element>): string {
    if e.Some? then e.value.href else ""
  }

  /** The record of container `i` (server.cjs:433-573), pushed when it has an
      id or a title. */
  function WipoItem(n: Node, i: nat): Option<WipoResult> {
    var patentId := ContainerId(n);
    var title := ItemTitle(n);
    if patentId != "" || title != "" then
      Some(WipoResult(Or(patentId, "WIPO-" + NatToString(i + 1)), Or(title, NoTitle),
                      Or(DateFrom(n, DateSelectors), NoDate), Or(AssigneeFrom(n, AssigneeSelectors), NoAssignee),
                      Href(QueryFirst(n, PdfLinkSelectors)), Href(Query(n, DetailLink)), "WIPO", i + 1))
    else None
  }

  method ExtractWipoItem(n: Node, i: nat) returns (r: Option<WipoResult>)
    ensures r == WipoItem(n, i)
  {
    var patentId := FindPatternId(n.text);
    if patentId == "" {
      patentId := FindSelectorId(n);
    }
    var title := FindTitle(n);
    var date := FindDate(n);
    var assignee := FindAssignee(n);
    var detailUrl := "";
    var detailLink := Query(n, DetailLink);
    if detailLink.Some? {
      detailUrl := detailLink.value.href;
    }
    var pdfUrl := "";
    var pdfLink := QueryFirst(n, PdfLinkSelectors);
    if pdfLink.Some? {
      pdfUrl := pdfLink.value.href;
    }
    if patentId != "" || title != "" {
      r := Some(WipoResult(Or(patentId, "WIPO-" + NatToString(i + 1)), Or(title, NoTitle),
                           Or(date, NoDate), Or(assignee, NoAssignee), pdfUrl, detailUrl, "WIPO", i + 1));
    } else {
      r := None;
    }
  }

  /** What the loop promises of the record of container `i`. */
  predicate WellFormed(r: WipoResult, i: nat) {
    r.id != "" && r.title != "" && r.date != "" && r.assignee != "" && r.assignee != "-" &&
    r.source == "WIPO" && r.rank == i + 1 &&
    (r.date == NoDate || |r.date| >= 6)
  }

  lemma WipoItemWellFormed(n: Node, i: nat)
    requires WipoItem(n, i).Some?
    ensures WellFormed(WipoItem(n, i).value, i)
    ensures ContainerId(n) != "" ==> WipoItem(n, i).value.id == ContainerId(n)
    ensures ContainerId(n) == "" ==> WipoItem(n, i).value.id == "WIPO-" + NatToString(i + 1)
  {
  }

  /** Two rows pushed under fallback ids get the same id only when they are
      the same container. */
  lemma FallbackIdsDistinct(n: Node, i: nat, m: Node, j: nat)
    requires WipoItem(n, i).Some? && WipoItem(m, j).Some?
    requires ContainerId(n) == "" && ContainerId(m) == ""
    ensures WipoItem(n, i).value.id == WipoItem(m, j).value.id <==> i == j
  {
    NatToStringInjective("WIPO-", i + 1, j + 1);
  }

  /** A row whose text matches one of the id patterns is always pushed. */
  lemma PatternRowPushed(n: Node, i: nat)
    requires exists k :: 0 <= k < |IdPatterns| && Find(n.text, IdPatterns[k]).Some?
    ensures WipoItem(n, i).Some? && WipoItem(n, i).value.id == PatternId(n.text, IdPatterns)
  {
    IdPatternsSolid();
    PatternIdFound(n.text, IdPatterns);
  }

  // ---------------------------------------------------------------------
  // The loop over the containers
  // ---------------------------------------------------------------------

  /** What each container gives, container `i` ranked `i + 1`. */
  function Items(cs: seq<Node>): (r: seq<Option<WipoResult>>)
    ensures |r| == |cs|
  {
    seq(|cs|, i requires 0 <= i < |cs| => WipoItem(cs[i], i))
  }

  /** Item `i`, when there is one, is well formed with rank `i + 1`. */
  predicate RankedItems(items: seq<Option<WipoResult>>) {
    forall i :: 0 <= i < |items| && items[i].Some? ==> WellFormed(items[i].value, i)
  }

  lemma ItemsRanked(cs: seq<Node>)
    ensures RankedItems(Items(cs))
  {
    forall i | 0 <= i < |cs| && Items(cs)[i].Some? ensures WellFormed(Items(cs)[i].value, i) {
      WipoItemWellFormed(cs[i], i);
    }
  }

  /** A well-formed record of one of the first `m` containers. */
  predicate RankedWithin(r: WipoResult, m: nat) {
    1 <= r.rank <= m && WellFormed(r, r.rank - 1)
  }

  /** Every record pushed is well formed and its rank lies in `1..|items|`. */
  lemma {:induction false} PushedWellFormed(items: seq<Option<WipoResult>>)
    requires RankedItems(items)
    ensures forall k :: 0 <= k < |Pushed(items)| ==> RankedWithin(Pushed(items)[k], |items|)
    decreases |items|
  {
    if items != [] {
      var init := items[..|items| - 1];
      assert RankedItems(init) by {
        assert forall i :: 0 <= i < |init| ==> init[i] == items[i];
      }
      PushedWellFormed(init);
      var ri := Pushed(init);
      var last := items[|items| - 1];
      var r := Pushed(items);
      assert r == ri + Emit(last);
      forall k | 0 <= k < |r| ensures RankedWithin(r[k], |items|) {
        if k < |ri| {
          assert r[k] == ri[k];
          assert RankedWithin(ri[k], |init|);
        } else {
          assert last.Some? && r[k] == last.value;
          assert WellFormed(items[|items| - 1].value, |items| - 1);
        }
      }
    }
  }

  /** The ranks of the records pushed increase strictly, so no two records
      share one. */
  lemma {:induction false} PushedRanksIncrease(items: seq<Option<WipoResult>>)
    requires RankedItems(items)
    ensures forall a, b :: 0 <= a < b < |Pushed(items)| ==> Pushed(items)[a].rank < Pushed(items)[b].rank
    decreases |items|
  {
    if items != [] {
      var init := items[..|items| - 1];
      assert RankedItems(init) by {
        assert forall i :: 0 <= i < |init| ==> init[i] == items[i];
      }
      PushedRanksIncrease(init);
      PushedWellFormed(init);
      var ri := Pushed(init);
      var last := items[|items| - 1];
      if last.Some? {
        var r := Pushed(items);
        assert r == ri + [last.value];
        assert WellFormed(items[|items| - 1].value, |items| - 1);
        assert r[|r| - 1].rank == |items|;
        assert forall k :: 0 <= k < |r| - 1 ==> r[k] == ri[k] && RankedWithin(ri[k], |init|);
      }
    }
  }

  lemma ItemAt(cs: seq<Node>, i: nat)
    requires i < |cs|
    ensures Items(cs)[i] == WipoItem(cs[i], i)
  {
  }

  lemma RankedPrefix(items: seq<Option<WipoResult>>, n: nat)
    requires RankedItems(items)
    requires n <= |items|
    ensures RankedItems(items[..n])
  {
    assert forall j :: 0 <= j < n ==> items[..n][j] == items[j];
  }

  method ExtractWipoResults(doc: Document, maxResults: int) returns (results: seq<WipoResult>)
    ensures var cs := Containers(doc, ContainerSelectors);
            results == Pushed(Items(cs)[..Limit(|cs|, maxResults)])
    ensures |results| as int <= if maxResults < 0 then 0 else maxResults
    ensures forall k :: 0 <= k < |results| ==>
              RankedWithin(results[k], Limit(|Containers(doc, ContainerSelectors)|, maxResults))
    ensures forall a, b :: 0 <= a < b < |results| ==> results[a].rank < results[b].rank
  {
    var containers := SelectContainers(doc);
    ghost var items := Items(containers);
    var n := Limit(|containers|, maxResults);
    results := [];
    var i := 0;
    while i < n
      invariant 0 <= i <= n
      invariant results == Pushed(items[..i])
    {
      var r := ExtractWipoItem(containers[i], i);
      ItemAt(containers, i);
      PushedStep(items, i);
      if r.Some? {
        results := results + [r.value];
      }
      i := i + 1;
    }
    assert |items[..n]| == n;
    ItemsRanked(containers);
    RankedPrefix(items, n);
    PushedWellFormed(items[..n]);
    PushedRanksIncrease(items[..n]);
  }
}
