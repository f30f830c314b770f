/** `downloadPatentPDF` (server.cjs:867-905) and the bookkeeping of the batch
    download route (server.cjs:1282-1317). The network and the file system
    are inputs: what `fetch` answered and whether each `fs.writeFile` threw. */
module Download {
  import opened Options
  import opened Text

  newtype Byte = b: int | 0 <= b < 256

  /** The file-header signature of a PDF file, "%PDF" in ASCII (ISO 32000-1,
      section 7.5.2). */
  const PdfMagic: seq<Byte> := [0x25, 0x50, 0x44, 0x46]
  const PdfMark := "%PDF"
  const NotPdf := "Downloaded file is not a valid PDF"
  const HttpErrorPrefix := "HTTP error! status: "
  const PdfExtension := ".pdf"
  const BatchPrefix := "patent_"
  const PatentPagePrefix := "https://patents.google.com/patent/"
  const IdsRequired := "Patent IDs array is required"

  // ---------------------------------------------------------------------
  // The PDF header check
  // ---------------------------------------------------------------------

  /** `Buffer.prototype.toString()` on bytes, as far as a comparison with an
      ASCII string can tell: an ASCII byte is its character, and any other
      byte becomes a character outside ASCII. */
  function Decoded(bytes: seq<Byte>): (r: string)
    ensures |r| == |bytes|
  {
    seq(|bytes|, i requires 0 <= i < |bytes| => if bytes[i] < 128 then bytes[i] as int as char else '\U{FFFD}')
  }

  /** `buffer.slice(0, 4)`. */
  function Head(buf: seq<Byte>): (r: seq<Byte>)
    ensures |r| <= 4 && |r| <= |buf| && r == buf[..|r|]
    ensures |buf| >= 4 ==> |r| == 4
  {
    if |buf| < 4 then buf else buf[..4]
  }

  /** The test of server.cjs:888 passes. */
  predicate IsPdfHeader(buf: seq<Byte>) {
    Decoded(Head(buf)) == PdfMark
  }

  /** The check accepts exactly the buffers that start with the PDF
      signature bytes. */
  lemma PdfHeaderIff(buf: seq<Byte>)
    ensures IsPdfHeader(buf) <==> |buf| >= 4 && buf[..4] == PdfMagic
  {
    var d := Decoded(Head(buf));
    if IsPdfHeader(buf) {
      assert |Head(buf)| == 4;
      assert d[0] == '%' && d[1] == 'P' && d[2] == 'D' && d[3] == 'F';
      assert Head(buf)[0] == 0x25 && Head(buf)[1] == 0x50 && Head(buf)[2] == 0x44 && Head(buf)[3] == 0x46;
    }
    if |buf| >= 4 && buf[..4] == PdfMagic {
      assert d == PdfMark;
    }
  }

  /** Whatever follows the signature does not matter. */
  lemma PdfHeaderPrefix(rest: seq<Byte>)
    ensures IsPdfHeader(PdfMagic + rest)
  {
    PdfHeaderIff(PdfMagic + rest);
    assert (PdfMagic + rest)[..4] == PdfMagic;
  }

  // ---------------------------------------------------------------------
  // One download
  // ---------------------------------------------------------------------

  /** What `fetch` gave: a rejected promise with its message, or a response. */
  datatype Fetched = NetworkError(message: string) | Response(ok: bool, status: nat, body: seq<Byte>)

  /** The value of the call: the path written, or the message of the error
      thrown. */
  datatype Outcome = Saved(path: string) | Failed(message: string)

  /** `${patentId}.pdf` (server.cjs:896). */
  function FileName(patentId: string): (r: string)
    ensures |r| == |patentId| + 4 && r[..|patentId|] == patentId && r[|patentId|..] == PdfExtension
  {
    patentId + PdfExtension
  }

  /** Distinct patents get distinct file names. */
  lemma FileNameInjective(a: string, b: string)
    requires FileName(a) == FileName(b)
    ensures a == b
  {
    assert a == FileName(a)[..|a|];
    assert b == FileName(b)[..|b|];
  }

  /** `path.join(folder, name)` for a folder and a name without separators
      to normalise. */
  function JoinPath(folder: string, name: string): string {
    folder + "/" + name
  }

  /** `downloadPatentPDF(patentId, url)` (server.cjs:867-905) once `fetch` has
      answered with `fetched` and the write of the file has thrown
      `writeError` or not; `folder` is `path.join(process.cwd(), "downloads")`. */
  function DownloadPdf(patentId: string, fetched: Fetched, writeError: Option<string>, folder: string): Outcome {
    match fetched
    case NetworkError(m) => Failed(m)
    case Response(ok, status, body) =>
      if !ok then Failed(HttpErrorPrefix + NatToString(status))
      else if !IsPdfHeader(body) then Failed(NotPdf)
      else if writeError.Some? then Failed(writeError.value)
      else Saved(JoinPath(folder, FileName(patentId)))
  }

  /** A file is saved exactly when the response was OK, its body starts
      with the PDF signature and the write succeeded, and then it is
      `<folder>/<patentId>.pdf`; otherwise the message says which step
      failed. */
  lemma DownloadCases(patentId: string, fetched: Fetched, writeError: Option<string>, folder: string)
    ensures DownloadPdf(patentId, fetched, writeError, folder).Saved? <==>
              fetched.Response? && fetched.ok && |fetched.body| >= 4 && fetched.body[..4] == PdfMagic &&
              writeError.None?
    ensures DownloadPdf(patentId, fetched, writeError, folder).Saved? ==>
              DownloadPdf(patentId, fetched, writeError, folder).path == folder + "/" + patentId + ".pdf"
    ensures fetched.Response? && !fetched.ok ==>
              DownloadPdf(patentId, fetched, writeError, folder) == Failed("HTTP error! status: " + NatToString(fetched.status))
    ensures fetched.Response? && fetched.ok && !(|fetched.body| >= 4 && fetched.body[..4] == PdfMagic) ==>
              DownloadPdf(patentId, fetched, writeError, folder) == Failed("Downloaded file is not a valid PDF")
  {
    if fetched.Response? {
      PdfHeaderIff(fetched.body);
    }
  }

  /** The two messages the function itself raises cannot be confused with
      each other. */
  lemma DownloadMessagesDistinct(status: nat)
    ensures HttpErrorPrefix + NatToString(status) != NotPdf
  {
    assert (HttpErrorPrefix + NatToString(status))[0] == 'H';
  }

  // ---------------------------------------------------------------------
  // The batch route
  // ---------------------------------------------------------------------

  /** The URL the batch route downloads from (server.cjs:1296). */
  function PatentPage(patentId: string): (r: string)
    ensures |r| == |PatentPagePrefix| + |patentId|
    ensures r[..|PatentPagePrefix|] == PatentPagePrefix && r[|PatentPagePrefix|..] == patentId
  {
    PatentPagePrefix + patentId
  }

  /** What happened to one id of the batch: the answer of `fetch` for
      `PatentPage(id)`, whether the write into the downloads folder threw,
      and whether the second write into `temp` threw. */
  datatype Attempt = Attempt(fetched: Fetched, saveError: Option<string>, copyError: Option<string>)

  /** An entry of `downloadResults`. */
  datatype Entry =
    | Success(patentId: string, filename: string, size: nat)
    | Failure(patentId: string, error: string)

  /** `patent_${patentId}.pdf` (server.cjs:1299). */
  function BatchFileName(patentId: string): string {
    BatchPrefix + FileName(patentId)
  }

  /** One iteration of the loop of server.cjs:1294-1317. The value of
      `downloadPatentPDF` is the path it wrote, and that string is what the
      route writes into `temp` and whose length it reports as `size`. */
  function BatchEntry(patentId: string, a: Attempt, folder: string): Entry {
    match DownloadPdf(patentId, a.fetched, a.saveError, folder)
    case Failed(m) => Failure(patentId, m)
    case Saved(path) =>
      if a.copyError.Some? then Failure(patentId, a.copyError.value)
      else Success(patentId, BatchFileName(patentId), |path|)
  }

  /** The attempt saved both files. */
  predicate Succeeded(a: Attempt) {
    a.fetched.Response? && a.fetched.ok && |a.fetched.body| >= 4 && a.fetched.body[..4] == PdfMagic &&
    a.saveError.None? && a.copyError.None?
  }

  /** An entry records success exactly when its attempt succeeded, and then
      names `patent_<id>.pdf` and the length of `<folder>/<id>.pdf`. */
  lemma BatchEntryCases(patentId: string, a: Attempt, folder: string)
    ensures BatchEntry(patentId, a, folder).patentId == patentId
    ensures BatchEntry(patentId, a, folder).Success? <==> Succeeded(a)
    ensures BatchEntry(patentId, a, folder).Success? ==>
              BatchEntry(patentId, a, folder).filename == "patent_" + patentId + ".pdf" &&
              BatchEntry(patentId, a, folder).size == |folder| + |patentId| + 5
  {
    DownloadCases(patentId, a.fetched, a.saveError, folder);
  }

  /** The list the route answers with, entry `k` for `ids[k]`. */
  function BatchEntries(ids: seq<string>, attempts: seq<Attempt>, folder: string): (r: seq<Entry>)
    requires |attempts| == |ids|
    ensures |r| == |ids|
  {
    seq(|ids|, k requires 0 <= k < |ids| => BatchEntry(ids[k], attempts[k], folder))
  }

  /** One entry per id, in the order of the ids, each a success exactly
      when its attempt succeeded. */
  lemma BatchInOrder(ids: seq<string>, attempts: seq<Attempt>, folder: string)
    requires |attempts| == |ids|
    ensures forall k :: 0 <= k < |ids| ==>
              BatchEntries(ids, attempts, folder)[k].patentId == ids[k] &&
              (BatchEntries(ids, attempts, folder)[k].Success? <==> Succeeded(attempts[k]))
  {
    forall k | 0 <= k < |ids|
      ensures BatchEntries(ids, attempts, folder)[k].patentId == ids[k]
      ensures BatchEntries(ids, attempts, folder)[k].Success? <==> Succeeded(attempts[k])
    {
      BatchEntryCases(ids[k], attempts[k], folder);
    }
  }

  /** The answer of the route: a 400 error for an empty list, else the
      entries. */
  datatype Reply = BadRequest(error: string) | Results(results: seq<Entry>)

  /** `requested` lists the URLs handed to `downloadPatentPDF`, in order;
      `attempts[k]` is what happened to the request for `requested[k]`. */
  method BatchDownload(ids: seq<string>, attempts: seq<Attempt>, folder: string) returns (reply: Reply, requested: seq<string>)
    requires |attempts| == |ids|
    ensures ids == [] ==> reply == BadRequest(IdsRequired) && requested == []
    ensures ids != [] ==> reply == Results(BatchEntries(ids, attempts, folder))
    ensures ids != [] ==> |requested| == |ids| && forall k :: 0 <= k < |ids| ==> requested[k] == PatentPage(ids[k])
  {
    requested := [];
    if |ids| == 0 {
      return BadRequest(IdsRequired), requested;
    }
    var downloadResults := [];
    var i := 0;
    while i < |ids|
      invariant 0 <= i <= |ids|
      invariant |downloadResults| == i && |requested| == i
      invariant forall k :: 0 <= k < i ==> downloadResults[k] == BatchEntry(ids[k], attempts[k], folder)
      invariant forall k :: 0 <= k < i ==> requested[k] == PatentPage(ids[k])
    {
      var id := ids[i];
      requested := requested + [PatentPage(id)];
      var entry;
      var outcome := DownloadPdf(id, attempts[i].fetched, attempts[i].saveError, folder);
      match outcome {
        case Failed(m) =>
          entry := Failure(id, m);
        case Saved(path) =>
          if attempts[i].copyError.Some? {
            entry := Failure(id, attempts[i].copyError.value);
          } else {
            entry := Success(id, BatchFileName(id), |path|);
          }
      }
      downloadResults := downloadResults + [entry];
      i := i + 1;
    }
    return Results(downloadResults), requested;
  }

  /** The number of successful entries. */
  function Successes(entries: seq<Entry>): (r: nat)
    ensures r <= |entries|
  {
    if entries == [] then 0 else (if entries[0].Success? then 1 else 0) + Successes(entries[1..])
  }

  /** The number of attempts that saved both files. */
  function SucceededCount(attempts: seq<Attempt>): (r: nat)
    ensures r <= |attempts|
  {
    if attempts == [] then 0 else (if Succeeded(attempts[0]) then 1 else 0) + SucceededCount(attempts[1..])
  }

  /** The route reports as many successes as there were successful
      attempts: nothing is lost, nothing is counted twice. */
  lemma {:induction false} SuccessesCounted(ids: seq<string>, attempts: seq<Attempt>, folder: string)
    requires |attempts| == |ids|
    ensures Successes(BatchEntries(ids, attempts, folder)) == SucceededCount(attempts)
    decreases |ids|
  {
    if ids != [] {
      var es := BatchEntries(ids, attempts, folder);
      SuccessesCounted(ids[1..], attempts[1..], folder);
      assert es[1..] == BatchEntries(ids[1..], attempts[1..], folder);
      BatchEntryCases(ids[0], attempts[0], folder);
    }
  }
}
