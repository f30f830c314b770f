# patent_search: extraction, normalisation and PDF bookkeeping in Dafny

This project models the deterministic core of `server.cjs`, the patent-search
server, and proves properties of that model. The browser and the network are
replaced by plain data. What is left is string and list processing, in four
parts.

- **The record normaliser** (`normalizePatent`, `normalizeAll`, and `clean`
  inside them) is modelled as pure functions in module `Normalize`. A raw
  record is a datatype of optional fields. JavaScript truthiness ("present and
  non-empty") is written out as `Truthy`.
- **The four result extractors** run inside `page.evaluate` callbacks:
  - the loop of `searchGooglePatents`;
  - `extractGoogleResults`;
  - `extractWIPOResults`;
  - the evaluate block of `searchWIPO`.

  They are modelled as methods with loops, each proved against a
  specification function. Modules `GoogleExtract`, `WipoExtract` and
  `WipoSearch` hold them. The two Google loops differ only in their selector
  lists and URL patterns, so one model takes a `Variant` parameter. A page is
  a map from selector strings to the nodes found (`Dom`). An item is a map
  from selector strings to the elements found inside it, each element with
  its text and `href`.
- **Regular expressions** are hand-written leftmost-match scanners over
  `seq<char>`, in modules `Text` and `Patterns`:
  - a scanner says where a match that starts at a given position ends;
  - `Text.FindFrom` performs the leftmost search that `String.prototype.match`
    performs.

  The comment at the head of `Patterns`, and those on the scanners where it
  matters, explain why backtracking cannot give a different match than the
  greedy attempt. `\s` and `trim` use the exact ECMAScript
  whitespace set.
- **PDF acquisition and the batch route** are in `Download`:
  - `downloadPatentPDF` is modelled once `fetch` has answered and the file
    write has (or has not) thrown;
  - the batch route's loop pushes one entry per id.

`new Date()` becomes a `today` parameter everywhere. `encodeURIComponent`
becomes a function parameter.

Where the code behaves in a way one might not expect, the model follows the code:
- `normalizePatent` reads `DD?MM?YYYY` day-first with any of `.` `/` `-` as
  separator, so "03/04/2021" becomes "2021-04-03". It has no month-first or
  year-first slash form (`Dates.NormalizeDateReadsDayFirst`).
- The title loses only the id, not a separator after it: "US1 - Widget" with
  id "US1" becomes "- Widget" (`Normalize.TitleKeepsSeparator`).
- The id is removed only in its exact case: "us1 Widget" with id "US1"
  stays as it is, although its upper-cased form starts with the id
  (`Normalize.TitleCaseSensitive`).
- Normalising twice is not the identity. A blank scalar inventor gives
  `[""]`, which a second pass replaces by "Unknown Inventor". A blank `id`
  gives "", while a second pass takes the id from the title
  (`Normalize.InventorsNotIdempotent`, `Normalize.IdNotIdempotent`).
  `Normalize.NormalizeTwice` proves what does hold.
- The WIPO extractors push a record when the id **or** the title is
  non-empty. `searchWIPO` always has a title ("Title not available"), so it
  pushes one record per container.
- In `searchWIPO`:
  - the record's `inventors` field holds the patent number and its
    `abstract` field the country;
  - the date, inventor list and abstract it computes are never placed in the
    record.
- The batch route:
  - writes `patent_<id>.pdf` into a temp folder;
  - writes the *path string* returned by `downloadPatentPDF` (not the PDF
    bytes) and reports that string's length as `size`
    (`Download.BatchEntryCases`).

## Model

| member | source | states |
|---|---|---|
| Text.ToUpper | server.cjs:1213 | `toUpperCase` keeps the length and upper-cases each ASCII letter, leaving every other character |
| Text.ToUpperIsUpperCased | server.cjs:1213-1216 | the result of upper-casing has no lower-case letter, and upper-casing such a string changes nothing |
| Text.FindFrom | server.cjs:1215 | the search returns the leftmost position at or after `p` where the pattern matches, with that match's end; `None` only when it matches nowhere |
| Text.FindAtStart | server.cjs:1215 | a pattern that matches at position 0 is found there |
| Text.FindNowhere | server.cjs:1215 | a pattern that matches at no position is not found |
| Text.MatchText | server.cjs:1215-1216 | `match(re)[0]` exists exactly when the search finds a match |
| Text.ReplaceFirstAtStart | server.cjs:1225 | replacing a string that the text starts with by "" drops exactly that prefix |
| Text.ReplaceFirstAbsent | server.cjs:1031 | `replace` of a string that does not occur changes nothing |
| Text.Trim | server.cjs:1208 | the trimmed string neither starts nor ends with whitespace |
| Text.TrimStartDropsSpaces | server.cjs:1208 | everything trimming drops at the start is whitespace |
| Text.TrimEndDropsSpaces | server.cjs:1208 | everything trimming drops at the end is whitespace |
| Text.TrimIsSlice | server.cjs:1208 | `trim` returns a slice of its input with only whitespace before and after it, so it removes nothing else |
| Text.TrimStartSuffix | server.cjs:1208 | trimming the start leaves a suffix of the string |
| Text.TrimEndPrefix | server.cjs:1208 | trimming the end leaves a prefix of the string |
| Text.Run | server.cjs:1215 | a greedy run such as `\d+` stays inside the text and stops before the first character outside its class |
| Text.RunHolds | server.cjs:1215 | every character of a greedy run such as `\d+` belongs to the run's class |
| Text.Collapse | server.cjs:1206 | `replace(/\s+/g, " ")` never lengthens, keeps the empty string empty, and starts with whitespace exactly when the input does |
| Text.RemoveSpacesCollapse | server.cjs:1206 | collapsing whitespace keeps every non-whitespace character, in order |
| Text.CollapseRun | server.cjs:1206 | a whitespace run in front of a non-space character or the end becomes exactly one space |
| Text.CollapseAppend | server.cjs:1206 | collapsing a concatenation whose first part ends on a non-space character collapses each part separately, so runs are replaced one by one |
| Text.TrimStartPrefixed | server.cjs:1208 | trimming the start of `a + b` only touches `a` when `a` ends on a non-space character |
| Text.TrimStartSpaces | server.cjs:1208 | trimming the start skips a leading whitespace run entirely |
| Text.CollapseSingleSpaced | server.cjs:1206 | after collapsing, all whitespace is single plain spaces |
| Text.CollapseSingleSpacedNoop | server.cjs:1206 | collapsing a single-spaced string changes nothing |
| Text.ReplaceNbsp | server.cjs:1207 | replacing non-breaking spaces keeps the length |
| Text.ReplaceNbspNoop | server.cjs:1207 | a single-spaced string holds no non-breaking space to replace |
| Text.TrimSingleSpaced | server.cjs:1208 | trimming a single-spaced string gives a clean string |
| Text.SingleSpacedSlice | server.cjs:1206-1208 | a slice of a single-spaced string is single-spaced |
| Text.CleanIsClean | server.cjs:1205-1208 | `clean` output has no leading or trailing whitespace and no two adjacent whitespace characters, all of them plain spaces |
| Text.CleanNoop | server.cjs:1205-1208 | `clean` leaves a clean string unchanged |
| Text.CleanIdempotent | server.cjs:1205-1208 | `clean(clean(x)) == clean(x)` |
| Text.CleanUpperCased | server.cjs:1213 | upper-casing a clean string keeps it clean |
| Text.Truncate | server.cjs:1257 | the cap keeps a short string and otherwise gives its first `n` characters plus "...", so at most `n + 3` characters |
| Text.PadStart2 | server.cjs:333 | `padStart(2, '0')` keeps a string of two or more characters and otherwise left-pads it with '0' to exactly two, the string itself at the end |
| Text.Split | server.cjs:331 | `split` always gives at least one piece |
| Text.SplitNoSep | server.cjs:1116 | a string without separators splits into itself alone |
| Text.SplitAt | server.cjs:1116 | splitting at the first separator gives the part before it followed by the split of the rest |
| Text.SplitJoin | server.cjs:179-182 | splitting a joined list at a separator no piece contains gives the list back |
| Text.NatToString | server.cjs:557 | the decimal form of a number (as in `WIPO-${i + 1}` and the HTTP status) is non-empty and all digits |
| Text.NatToStringValue | server.cjs:557 | the digits printed spell the number itself |
| Text.NatToStringInjective | server.cjs:557 | behind a common prefix, two numbers print the same exactly when they are equal |
| Text.RemoveSpaces | server.cjs:451 | `replace(/\s+/g, '')` leaves no whitespace and never lengthens |
| Text.RemoveSpacesAppend | server.cjs:451 | removing whitespace from a concatenation removes it from each part |
| Text.RemoveSpacesKeeps | server.cjs:451 | text without whitespace is kept unchanged, and whitespace alone becomes "" |
| Text.RemoveSpacesTrimStart | server.cjs:1208 | trimming the start removes only whitespace |
| Text.RemoveSpacesTrimEnd | server.cjs:1208 | trimming the end removes only whitespace |
| Text.RemoveSpacesTrim | server.cjs:1208 | `trim` keeps every non-whitespace character, in order |
| Text.RemoveSpacesNbsp | server.cjs:1207 | replacing non-breaking spaces changes no other character |
| Text.RemoveSpacesClean | server.cjs:1205-1208 | `clean` keeps every non-whitespace character, in order: it only removes and rewrites whitespace |
| Patterns.NumberTailAt | server.cjs:1215 | `\d+[A-Z]?\d*` matches exactly where a digit stands, and consumes at least that digit |
| Patterns.UsNumberAt | server.cjs:1215 | a match of `/US\d+[A-Z]?\d*/i` has at least three characters and ends inside the text |
| Patterns.UpperIdAt | server.cjs:261 | a match of `[A-Z]{2}\d+[A-Z]?\d*` has at least three characters |
| Patterns.IsAllDigitsMeans | server.cjs:303 | `/^\d+$/` holds exactly for non-empty all-digit strings |
| Patterns.IsoAt | server.cjs:1232 | `\d{4}-\d{2}-\d{2}` matches exactly where ten characters shaped `DDDD-DD-DD` stand |
| Patterns.EuAt | server.cjs:1233 | `(\d{2})[./-](\d{2})[./-](\d{4})` matches exactly where ten characters shaped `DD?DD?DDDD` stand |
| Patterns.DashDateAt | server.cjs:323 | a match of `(\d{4})-(\d{1,2})-(\d{1,2})` is `DDDD-D-D` with one or two digits for month and day |
| Patterns.MdyAt | server.cjs:324 | a match of `(\d{1,2})\/(\d{1,2})\/(\d{4})` has at least eight characters |
| Patterns.YmdAt | server.cjs:325 | a match of `(\d{4})\/(\d{1,2})\/(\d{1,2})` has at least eight characters |
| Patterns.YearAt | server.cjs:326 | `(\d{4})` matches exactly where four digits start, and takes exactly four |
| Patterns.WipoDateAt | server.cjs:514 | a match of the WIPO date alternation has at least eight characters, the shortest of either alternative (`D.D.DDDD` or `DDDD.D.D`) |
| Patterns.PatentPathAt | server.cjs:260 | a match of `patent\/([^\/\?&#]+)` has a non-empty group free of `/ ? & #` |
| Patterns.SlashIdAt | server.cjs:261 | a match of `\/([A-Z]{2}\d+[A-Z]?\d*)` has at least four characters |
| Patterns.PatentParamAt | server.cjs:262 | a match of `patent=([^&]+)` has a non-empty group free of `&` |
| Patterns.LongIdAt | server.cjs:441 | a match of `\b[A-Z]{2}\d{n,}[A-Z]?\d*\b` has at least `2 + n` characters |
| Patterns.WoNumberAt | server.cjs:442 | a match of `\b(WO\d{4}\/\d+)\b` has at least eight characters |
| Patterns.YearSlashAt | server.cjs:443 | a match of `\b(\d{4}\/\d+)\b` has at least six characters |
| Patterns.SpacedIdAt | server.cjs:444 | a match of `\b([A-Z]{2}\s?\d{6,})\b` has at least eight characters |
| Patterns.StripIdPrefix | server.cjs:495 | removing a leading patent number never lengthens the title and keeps a title that does not start with one |
| Patterns.NumberedBodyStart | server.cjs:1134 | the lazy group of the title pattern starts at least two characters after the match |
| Patterns.LazyUsFrom | server.cjs:1134 | the lazy group ends at a place where `\s*US` follows, and spans no line terminator |
| Patterns.NumberedTitleAt | server.cjs:1134 | a match of `/\d+\.(?:\d+)?\s*(.*?)\s*US/` has both a group start and a group end |
| Patterns.CountryDashEnd | server.cjs:1139 | the `\b(US)\b\s*-\s*` part matches only where "US" stands, and consumes at least three characters |
| Patterns.CountryDateAt | server.cjs:1139 | a match of the country pattern includes the `US -` part |
| Dates.NormalizeDateShape | server.cjs:1229-1241 | the normalised date is "" or shaped `DDDD-DD-DD` |
| Dates.NormalizeDateIdempotent | server.cjs:1229-1241 | normalising a normalised date changes nothing |
| Dates.NormalizeDateReadsDayFirst | server.cjs:1233-1237 | "03/04/2021" becomes "2021-04-03" |
| Dates.NoIsoIn | server.cjs:1232 | a ten-character string that is not `DDDD-DD-DD` holds no ISO match |
| Dates.EuWhole | server.cjs:1233 | a `DD?DD?DDDD` string is matched whole by the day-first pattern |
| Dates.NormalizeDateBareYear | server.cjs:1238-1239 | "2021" becomes "2021-01-01" |
| Dates.PadShort | server.cjs:333 | padding a one- or two-digit number gives two digits |
| Dates.SlashPieces | server.cjs:331 | `split('/')` of `x/y/z` with digit pieces gives `[x, y, z]`, and the text has a slash but no dash |
| Dates.FormatMonthFirst | server.cjs:332-333 | a month-first match `M/D/YYYY` becomes the year, then the zero-padded month and day: `YYYY-MM-DD` |
| Dates.FormatYearFirst | server.cjs:334-335 | a year-first match `YYYY/M/D` becomes the year, then the zero-padded month and day: `YYYY-MM-DD` |
| Dates.MdyPieces | server.cjs:324 | the text of a month-first match is one or two digits, `/`, one or two digits, `/`, four digits |
| Dates.YmdPieces | server.cjs:325 | the text of a year-first match is four digits, `/`, one or two digits, `/`, one or two digits |
| Dates.SlashDatesPadded | server.cjs:330-336 | when the dash pattern fails and a slash pattern matches, the match is `x/y/z` and the date is the four-digit piece followed by the other two zero-padded, month before day |
| Dates.SearchDateBareYear | server.cjs:337-338 | when only the bare-year pattern matches, the date is that year followed by "-01-01" |
| Dates.SearchDateShape | server.cjs:319-343 | a search-loop date is `today` or `DDDD-D-D` with one or two digits for month and day |
| Dates.BareYearIso | server.cjs:337-339 | a bare year with `-01-01` appended is `DDDD-D-D`, and the year has no dash or slash |
| Dates.YearInDateMatch | server.cjs:323-326 | every dash, month-first or year-first match holds four consecutive digits, where the bare-year pattern matches |
| Dates.SearchDateNeedsFourDigits | server.cjs:323-326 | the date falls back to `today` when the text has no four consecutive digits, and otherwise some pattern matches |
| Dates.WipoDate | server.cjs:514-516 | a WIPO date match has at least eight characters |
| Dom.Query | server.cjs:251 | `querySelector` finds something exactly when `querySelectorAll` does, and then its first element |
| Dom.QueryFirstFound | server.cjs:251-254 | the `||` chain of `querySelector` calls gives the element of the first selector that finds one, and nothing only when none does |
| Shared.Limit | server.cjs:247 | the loop bound `Math.min(n, maxResults)` is at most `n` and at most `maxResults`, and equals whichever is smaller |
| Shared.Or | server.cjs:557-560 | `s \|\| fallback` is `s` when non-empty and otherwise `fallback` |
| Shared.Take | server.cjs:304 | `slice(0, n)` is a prefix of at most `n` entries, and exactly `n` when there are that many |
| Shared.Pushed | server.cjs:369-379 | a loop that pushes at most one record per item pushes at most as many records as there are items |
| Shared.PushedStep | server.cjs:1165-1166 | one more iteration appends that item's record, if any, at the end |
| Shared.PushedAll | server.cjs:1165-1166 | when every item has a record, one record is pushed per item |
| Normalize.OrEmpty | server.cjs:1218 | `v \|\| ""` is the value when truthy and "" otherwise |
| Normalize.UsNumberSlice | server.cjs:1215-1216 | the text of a US-number match is itself one whole run |
| Normalize.NumberTailSlice | server.cjs:1215 | the greedy `\d+[A-Z]?\d*` tail cut out of the text is still the whole tail |
| Normalize.UsNumberUpper | server.cjs:1216 | upper-casing a run keeps it a run |
| Normalize.UsNumberIsClean | server.cjs:1213-1216 | a run has no whitespace, so it is clean |
| Normalize.UsRun | server.cjs:1215-1219 | the first run, upper-cased, is a whole run with no lower-case letter; there is none exactly when the pattern matches nowhere |
| Normalize.UsRunOfRun | server.cjs:1215-1216 | an upper-case run is found as itself |
| Normalize.CleanAll | server.cjs:1246 | `map(clean).filter(Boolean)` keeps at most as many entries, each non-empty and clean |
| Normalize.CleanAllEmpty | server.cjs:1246-1250 | the filtered list is empty exactly when every entry cleans to "" |
| Normalize.CleanAllClean | server.cjs:1246 | a list of non-empty clean entries passes through unchanged |
| Normalize.NormalizeAll | server.cjs:1276-1279 | `normalizeAll` gives `[]` for a non-array; otherwise the result has as many entries as the input, entry k being entry k of the input normalised |
| Normalize.NormalizeTotal | server.cjs:1210-1273 | every record has status "available", at least one inventor, a clean applicant, a date that is "" or `DDDD-DD-DD`, and an id without lower-case letters; a missing (or "") title, date, applicant or abstract gives "" |
| Normalize.ApplicantIsClean | server.cjs:1253 | the applicant is a clean string |
| Normalize.DateIsIso | server.cjs:1229-1241 | the date is "" or `DDDD-DD-DD` |
| Normalize.IdUpperCased | server.cjs:1211-1220 | the id has no lower-case letter |
| Normalize.InventorsCases | server.cjs:1244-1250 | the inventors are the sentinel without array and scalar, or when every array entry cleans to ""; one to as many entries as the array has, each non-empty and clean, when some entry survives; the cleaned scalar, unsplit, without an array; never empty |
| Normalize.UnknownInventorIsClean | server.cjs:1250 | the sentinel is a clean string |
| Normalize.AbstractBound | server.cjs:1256-1257 | the cleaned abstract is kept when at most 600 characters and otherwise cut to 600 plus "...", so at most 603 |
| Normalize.CapAbstractIsClean | server.cjs:1257 | the cap keeps a clean abstract clean |
| Normalize.AbstractIdempotent | server.cjs:1256-1257 | normalising a normalised abstract changes nothing |
| Normalize.IdCases | server.cjs:1211-1220 | the id is the cleaned, upper-cased `raw.id` when it has no run, and one whole run when it has; without `raw.id` it is "" exactly when the title has no run, and otherwise a run |
| Normalize.IdStable | server.cjs:1211-1220 | a non-empty id fed back in as `raw.id` comes out unchanged |
| Normalize.TitleStrip | server.cjs:1223-1226 | the title is untouched unless its upper-cased form starts with the id; when the title itself starts with the id, exactly that prefix goes and the rest is trimmed |
| Normalize.TitleKeepsSeparator | server.cjs:1224-1225 | "US1 - Widget" with id "US1" keeps the dash: "- Widget" |
| Normalize.TitleCaseSensitive | server.cjs:1224-1225 | "us1 Widget" with id "US1" stays "us1 Widget": the upper-cased title starts with the id, but the case-sensitive `replace` finds nothing to remove |
| Normalize.UrlDefaults | server.cjs:1260-1261 | the Google URL is `https://patents.google.com/patent/<id>/en` when absent and the id is non-empty; the PDF URL is `<googleUrl>?oq=<id>` when absent; each is "" exactly when nothing is there to derive it from |
| Normalize.DateStable | server.cjs:1229-1241 | a normalised date fed back in comes out unchanged |
| Normalize.InventorsStable | server.cjs:1244-1250 | normalised inventors fed back in as the array come out unchanged, unless they are `[""]` |
| Normalize.NormalizeTwice | server.cjs:1203-1274 | normalising a normalised record keeps date, applicant, abstract and status; it keeps the inventors unless they are `[""]`, and the id and URLs when the id is non-empty |
| Normalize.TwiceKeepsFields | server.cjs:1229-1257 | a second pass keeps date, applicant, abstract and status |
| Normalize.TwiceKeepsInventors | server.cjs:1244-1250 | a second pass keeps the inventors unless they are `[""]` |
| Normalize.TwiceKeepsId | server.cjs:1211-1261 | a second pass keeps a non-empty id and the URLs derived from it |
| Normalize.CleanBlank | server.cjs:1205-1208 | `clean(" ")` and `clean("")` are "" |
| Normalize.CleanAllBlank | server.cjs:1246 | `[""]` filters to `[]` |
| Normalize.BlankInventor | server.cjs:1247-1248 | a blank scalar inventor gives `[""]` |
| Normalize.BlankInventors | server.cjs:1245-1250 | an array holding only "" gives the sentinel |
| Normalize.InventorsNotIdempotent | server.cjs:1244-1250 | the inventors `[""]` from a blank scalar become the sentinel on a second pass |
| Normalize.BlankId | server.cjs:1212-1216 | a blank `raw.id` gives the id "" even when the title has a run |
| Normalize.TitleId | server.cjs:1217-1219 | with an empty `raw.id` the id comes from the title |
| Normalize.IdNotIdempotent | server.cjs:1211-1220 | a blank id gives "", and fed back in as "", the title supplies an id |
| GoogleExtract.FirstNonEmptyFound | server.cjs:238-243 | the items are those of the first selector that finds any, and empty only when none does |
| GoogleExtract.UpperIdChars | server.cjs:261 | a bare patent number consists of capital letters and digits |
| GoogleExtract.PathId | server.cjs:260 | the id from `patent/<x>` exists exactly when the pattern matches, is non-empty and contains none of `/ ? & #` |
| GoogleExtract.SlashId | server.cjs:261 | the id from `/<number>` is non-empty capital letters and digits |
| GoogleExtract.ParamId | server.cjs:262 | the id from `patent=<x>` is non-empty and free of `&` |
| GoogleExtract.IdFromUrl | server.cjs:258-264 | the URL id never contains `&`; it is the `patent/<x>` group whenever that matches; in `extractGoogleResults` it contains none of `/ ? & #` and is "" when the pattern fails |
| GoogleExtract.AltTitle | server.cjs:271-285 | the alternative title is the current one or a different text longer than the id by more than five characters |
| GoogleExtract.AltTitleFound | server.cjs:276-283 | the title is kept exactly when no selector's element has a trimmed text that differs from it and is longer than the id by more than five; otherwise it is the trimmed text of the first selector whose element does |
| GoogleExtract.ResolveTitle | server.cjs:275-284 | the loop with `break` computes the alternative title |
| GoogleExtract.Names | server.cjs:301-303 | each kept name is longer than one character and not all digits |
| GoogleExtract.InventorsFrom | server.cjs:298-307 | the inventor loop keeps at most five names |
| GoogleExtract.InventorsFromFirst | server.cjs:298-307 | the inventors are the first five names of the first selector with any name, and empty exactly when no selector has one |
| GoogleExtract.NamesTaken | server.cjs:300-305 | a selector yields inventors exactly when it has some name |
| GoogleExtract.InventorsEmpty | server.cjs:298-307 | the inventors are empty exactly when no selector has a name |
| GoogleExtract.InventorsIndex | server.cjs:298-307 | non-empty inventors are the first five names of a selector before which no selector has a name |
| GoogleExtract.CollectInventors | server.cjs:297-308 | the loop computes the inventors: one to five names, or the sentinel |
| GoogleExtract.DateFromFirstFound | server.cjs:319-343 | only the first selector that finds an element is consulted, parse or not; the date is `today` or `DDDD-D-D` |
| GoogleExtract.FindDate | server.cjs:311-343 | the date loop with `break` computes that date |
| GoogleExtract.AbstractFrom | server.cjs:355-363 | the abstract is at most 303 characters |
| GoogleExtract.AbstractFromFound | server.cjs:355-363 | the loop stops at the first selector whose capped text is longer than 20 characters and keeps that text; when there is none, the capped text of the last element found stays; when no element is found, the default stays |
| GoogleExtract.FindAbstract | server.cjs:346-363 | the abstract loop computes that abstract, at most 303 characters |
| GoogleExtract.PdfUrlShape | server.cjs:366-367 | the PDF URL is "" without a URL, else the URL, `&` when it has a `?` (and `?` otherwise), then `oq=` and the id |
| GoogleExtract.ExtractGoogleItem | server.cjs:249-383 | one iteration yields the item's record exactly as the specification function gives it |
| GoogleExtract.GoogleItemWellFormed | server.cjs:366-379 | a pushed record has non-empty id and title, the PDF URL derived from its URL, one to five inventors or the sentinel, an abstract of at most 303, a date that is `today` or `DDDD-D-D`, and status "available" |
| GoogleExtract.GoogleItems | server.cjs:247-248 | there is one candidate per item |
| GoogleExtract.GoogleItemsWellFormed | server.cjs:369-379 | every candidate record is well formed |
| GoogleExtract.PushedWellFormed | server.cjs:369-379 | everything pushed is well formed |
| GoogleExtract.ExtractResults | server.cjs:238-389 | the results are the records of the first `min(#items, maxResults)` items that have id and title, in order: at most that many, each well formed |
| GoogleExtract.PrefixWellFormed | server.cjs:369-379 | what the loop has pushed after any number of items is well formed |
| GoogleExtract.KeywordArray | server.cjs:203 | a single keyword is wrapped in an array and an array is kept |
| GoogleExtract.Clauses | server.cjs:179-181 | one `q=CL%3d(<encoded>)` clause per keyword, in order |
| GoogleExtract.BuildGooglePatentUrl | server.cjs:177-183 | the URL starts with `https://patents.google.com/?` |
| GoogleExtract.BuildUrlClauses | server.cjs:179-182 | the query splits at `&` back into the clauses, when the encoder never emits `&` |
| WipoExtract.PatentRows | server.cjs:422-427 | the filter keeps exactly the rows that mention a patent or an application or link to a detail or patent page |
| WipoExtract.ContainersFirst | server.cjs:418-430 | the containers are the rows of the first selector that has any, and empty exactly when none has |
| WipoExtract.ContainersEmpty | server.cjs:418-430 | the containers are empty exactly when no selector has patent rows |
| WipoExtract.ContainersIndex | server.cjs:418-430 | non-empty containers are the rows of a selector before which none has any |
| WipoExtract.ContainersArePatentRows | server.cjs:418-430 | every container passes the filter |
| WipoExtract.SelectContainers | server.cjs:417-430 | the container loop with `break` computes those containers |
| WipoExtract.PatternId | server.cjs:447-454 | the id from the patterns has no whitespace |
| WipoExtract.Id8Solid | server.cjs:441 | the eight-digit id pattern matches only where a non-space character starts |
| WipoExtract.WoNumberSolid | server.cjs:442 | the WO pattern matches only where a non-space character starts |
| WipoExtract.YearSlashSolid | server.cjs:443 | the year/number pattern matches only where a non-space character starts |
| WipoExtract.SpacedIdSolid | server.cjs:444 | the spaced id pattern matches only where a non-space character starts |
| WipoExtract.IdPatternsSolid | server.cjs:440-445 | all four id patterns match only where a non-space character starts |
| WipoExtract.SolidMatchNonEmpty | server.cjs:451 | removing the spaces from such a match leaves something |
| WipoExtract.PatternIdFound | server.cjs:447-457 | the pattern id is non-empty exactly when some pattern matches, so the selector fallback runs exactly when none does; when non-empty it is the match of the first pattern that matches, with its whitespace removed |
| WipoExtract.FindPatternId | server.cjs:439-454 | the pattern loop with `break` computes that id |
| WipoExtract.Id6MatchShape | server.cjs:469 | a six-digit match is two capitals and at least six digits |
| WipoExtract.SelectorId | server.cjs:457-476 | the selector id is "" or two capitals and at least six digits |
| WipoExtract.SelectorIdFound | server.cjs:465-475 | the selector id is "" exactly when no selector's element has a six-digit id in its trimmed text; otherwise it is the match in the first one that has |
| WipoExtract.FindSelectorId | server.cjs:457-476 | the selector loop with `break` computes that id |
| WipoExtract.TitleCandidates | server.cjs:490-495 | one title candidate per selector |
| WipoExtract.PickTitleFrom | server.cjs:490-498 | the title is the start value or one of the candidates |
| WipoExtract.PickFirstSubstantial | server.cjs:490-498 | when some candidate is longer than ten characters, the first such is the title |
| WipoExtract.FirstSubstantial | server.cjs:496 | when some candidate is longer than ten characters there is a first such |
| WipoExtract.PickAtFirstSubstantial | server.cjs:490-498 | the first candidate longer than ten characters is the title |
| WipoExtract.PickStep | server.cjs:490-498 | one round of the title loop: a missing candidate is skipped, a long one ends the loop as the title, a short one replaces the title |
| WipoExtract.PickShort | server.cjs:496 | without such a candidate the title is at most ten characters |
| WipoExtract.FindTitle | server.cjs:479-498 | the title loop with `break` computes that title |
| WipoExtract.DateFrom | server.cjs:509-520 | the date is "" or at least eight characters |
| WipoExtract.DateFromFound | server.cjs:509-520 | a date is the date match in the trimmed text of the first selector's element that has one |
| WipoExtract.DateFromEmpty | server.cjs:509-520 | there is no date exactly when no element found has a date in it |
| WipoExtract.FindDate | server.cjs:501-520 | the date loop with `break` computes that date |
| WipoExtract.AssigneeFrom | server.cjs:531-537 | the assignee is never a lone dash |
| WipoExtract.AssigneeFromFound | server.cjs:531-537 | the assignee is "" exactly when no selector's element has a trimmed text other than "" and "-"; otherwise it is the trimmed text of the first one that has |
| WipoExtract.FindAssignee | server.cjs:523-537 | the assignee loop with `break` computes that assignee |
| WipoExtract.ExtractWipoItem | server.cjs:437-571 | one iteration yields the container's record exactly as the specification function gives it |
| WipoExtract.FallbackIdsDistinct | server.cjs:557 | two records pushed under `WIPO-<i+1>` ids have the same id only for the same container |
| WipoExtract.WipoItemWellFormed | server.cjs:555-565 | a pushed record has non-empty id, title, date and assignee, an assignee that is not a lone dash, a date that is the default or at least six characters, source "WIPO", rank `i + 1`, and as id the container's id or `WIPO-<i+1>` |
| WipoExtract.PatternRowPushed | server.cjs:447-455 | a row whose text matches an id pattern is always pushed, with that id |
| WipoExtract.Items | server.cjs:434-435 | one candidate per container |
| WipoExtract.ItemsRanked | server.cjs:555-565 | candidate `i` is well formed with rank `i + 1` |
| WipoExtract.PushedWellFormed | server.cjs:555-565 | every pushed record is well formed with a rank in `1..#containers` |
| WipoExtract.PushedRanksIncrease | server.cjs:564 | the ranks of the pushed records increase strictly, so no two share one |
| WipoExtract.ExtractWipoResults | server.cjs:405-580 | the results are the records of the first `min(#containers, maxResults)` containers that have id or title, in order: at most `maxResults`, each well formed and ranked within the bound, ranks strictly increasing |
| WipoSearch.LinkedRows | server.cjs:1033 | the filter keeps exactly the rows that have a link |
| WipoSearch.ContainersForCases | server.cjs:1031-1034 | a selector without `:has(` is queried unchanged and unfiltered; with it, every row kept has a link |
| WipoSearch.ContainersFirst | server.cjs:1028-1039 | the containers are those of the first selector that yields any, and empty exactly when none does |
| WipoSearch.ContainersEmpty | server.cjs:1028-1039 | the containers are empty exactly when no selector yields any |
| WipoSearch.ContainersIndex | server.cjs:1028-1039 | non-empty containers are those of a selector before which none yields any |
| WipoSearch.SelectContainers | server.cjs:1028-1039 | the container loop with `break` computes those containers |
| WipoSearch.ElementText | server.cjs:1048-1049 | an element's trimmed text neither starts nor ends with whitespace |
| WipoSearch.FirstTextFound | server.cjs:1046-1052 | `getText` gives "" exactly when no selector's element has text, and otherwise the trimmed text of the first that has |
| WipoSearch.FirstTextEmpty | server.cjs:1046-1052 | `getText` gives "" exactly when no selector's element has text |
| WipoSearch.FirstTextIndex | server.cjs:1046-1052 | a non-empty `getText` is the trimmed text of a selector's element before which none has text |
| WipoSearch.FirstTextTrimmed | server.cjs:1049 | `getText` never returns text starting or ending with whitespace |
| WipoSearch.GetText | server.cjs:1046-1052 | the loop with early `return` computes `getText` |
| WipoSearch.FirstUrlFound | server.cjs:1054-1060 | `getUrl` gives "" exactly when no element found has an `href`, and otherwise the `href` of the first selector's element that has one |
| WipoSearch.GetUrl | server.cjs:1054-1060 | the loop with early `return` computes `getUrl` |
| WipoSearch.RowDate | server.cjs:1077-1106 | the computed date is `today` without date text, and always `today` or `DDDD-D-D` |
| WipoSearch.LongNames | server.cjs:1117-1118 | every kept name is longer than one character |
| WipoSearch.RowInventors | server.cjs:1113-1124 | one to five inventors: the sentinel, the whole assignee text, or names longer than one character |
| WipoSearch.RowInventorsKeepNumbers | server.cjs:1116-1119 | "Smith; 12" gives `["Smith", "12"]`: a number survives the length filter |
| WipoSearch.RowAbstract | server.cjs:1127-1153 | the abstract is the default up to 20 characters, the text itself up to 300, and never more than 303 characters |
| WipoSearch.CellTitle | server.cjs:1134-1135 | the cell title is "" or neither starts nor ends with whitespace |
| WipoSearch.CountryCases | server.cjs:1139-1141 | the country is "US" exactly when the cell has the word US followed, after optional spaces, by `-`, and "" otherwise |
| WipoSearch.CountryDateShape | server.cjs:1139-1142 | the date is "" or `DD.DD.DDDD`, and comes only with the country |
| WipoSearch.ExtractSearchItem | server.cjs:1045-1176 | one iteration yields the container's record exactly as the specification function gives it |
| WipoSearch.SearchItemPushed | server.cjs:1072-1074 | every container yields a record, because the title falls back to its default before the push test |
| WipoSearch.FallbackIdsDistinct | server.cjs:1167 | two rows without country and number have the same id only for the same container |
| WipoSearch.SearchItemFields | server.cjs:1166-1175 | status is "available", `inventors` holds the patent number, `abstract` the country; the id is `US<number>`, the number, or `WIPO-<i+1>`; the date is "" or `DD.DD.DDDD` |
| WipoSearch.PdfUrlFallback | server.cjs:1160-1162 | the PDF URL is a PDF anchor's `href`, else the detail URL with `&format=pdf`, else "" |
| WipoSearch.SearchItems | server.cjs:1042-1043 | one record per container |
| WipoSearch.ExtractSearchResults | server.cjs:1016-1183 | exactly `min(#containers, maxResults)` records, those of the first containers in order, each with status "available" |
| Download.Decoded | server.cjs:888 | decoding keeps one character per byte |
| Download.Head | server.cjs:888 | `slice(0, 4)` is the first four bytes, or the whole buffer when shorter |
| Download.PdfHeaderIff | server.cjs:888 | the check passes exactly when the buffer starts with the bytes 25 50 44 46 (hexadecimal, the characters "%PDF") |
| Download.PdfHeaderPrefix | server.cjs:888 | any buffer starting with the signature passes, whatever follows |
| Download.FileName | server.cjs:896 | the file name is the id followed by ".pdf" |
| Download.FileNameInjective | server.cjs:896 | distinct ids get distinct file names, so one file per id |
| Download.DownloadCases | server.cjs:867-905 | a file is saved exactly when the response is OK, starts with the signature and the write succeeds, at `<folder>/<id>.pdf`; a bad status fails with "HTTP error! status: N", a non-PDF with "Downloaded file is not a valid PDF" |
| Download.DownloadMessagesDistinct | server.cjs:881-890 | the status error and the content error cannot be confused |
| Download.PatentPage | server.cjs:1296 | the URL downloaded is the patent page prefix followed by the id |
| Download.BatchEntryCases | server.cjs:1294-1317 | an entry carries its id and is a success exactly when both writes succeed after a valid download, with file name `patent_<id>.pdf` and as size the length of the path string |
| Download.BatchEntries | server.cjs:1294-1317 | one entry per id |
| Download.BatchInOrder | server.cjs:1294-1317 | entry `k` is for `ids[k]` and is a success exactly when attempt `k` succeeded |
| Download.BatchDownload | server.cjs:1284-1322 | an empty list is answered with the 400 error and requests nothing; otherwise the loop requests `PatentPage(id)` for each id in order and pushes exactly the entries, one per id in order |
| Download.Successes | server.cjs:1303-1316 | there are at most as many successes as entries |
| Download.SucceededCount | server.cjs:1294-1316 | there are at most as many successful attempts as attempts |
| Download.SuccessesCounted | server.cjs:1294-1317 | the reply counts exactly as many successes as there were successful attempts |

## Left out

- Express setup, middleware, the health and log routes, and response
  writing: HTTP plumbing with no logic of its own.
- Puppeteer work: browser launch, navigation, typing, waiting for selectors,
  and the `waitForContent` polling loops. This is asynchronous browser I/O
  with timeouts.
- Logging and the printing helpers (`logStep`, `printPatentsSimple`,
  `printPatentInfo`, `console.log`), which only print.
- `improvedPatentSearch`, glue that concatenates the arrays of the other
  searches.
- `fetch`, `Buffer`, `fs.mkdir`, `fs.writeFile`, `initializeDirectories`
  and `startServer`, which are network and file-system I/O. Their outcomes
  are inputs of `Download`.
- Download.JoinPath: `path.join` normalisation (of `..`, repeated or
  trailing separators) is not modelled. The path is the folder, "/" and the
  name.
- Download.Decoded: it decodes byte by byte, not as UTF-8 does. It gives
  the same verdict when compared with the ASCII string "%PDF", because only
  ASCII bytes decode to ASCII characters.
- Download.BatchDownload: a `patentIds` that is not an array (also answered
  with 400) cannot be written as a `seq`. The `timestamp` of the reply
  (a clock) is left out.
- CSS selector semantics (`:has`, attribute selectors, `nth-child`, the
  `i` flag) and DOM matching. Selectors are opaque keys, and what each one
  finds is given. A selector that makes `querySelectorAll` throw (caught by
  `continue` at server.cjs:1036-1037) is not modelled.
- The per-item `try`/`catch` blocks of the extractors: nothing in the model
  throws.
- Normalize.RawPatent: every field is a string (or an array of strings for
  `inventors`) or absent. The TypeError the source raises when `clean` or
  `.match` meets a number (server.cjs:1205-1206, 1218, 1246), or when
  `normalizeAll`'s array holds a `null` record (server.cjs:1278), is not
  modelled.
- Text.ToUpper, Text.ToLower: only ASCII letters change case. Full Unicode
  case mapping (which can also change the length) is not modelled; the
  words `WipoExtract.LooksLikePatentRow` looks for are ASCII.
- Strings are sequences of characters, not of UTF-16 code units. A length
  (such as the 300 and 600 caps) counts characters, so it differs from
  JavaScript's for characters outside the Basic Multilingual Plane.
- Shared.Limit: `maxResults` is an integer. JavaScript's coercion of other
  values (`undefined`, strings, fractions) in `Math.min` is not modelled.
- The `usMatch` at server.cjs:1138, which is computed and never used.
- GoogleExtract.BuildGooglePatentUrl: `encodeURIComponent` is a parameter,
  and its only assumed property is that it never produces `&`.
- test_wipo.js, a client script against a running server with no logic of
  its own.
