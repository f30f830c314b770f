/** Constants and the loop bound shared by the record builders. */
module Shared {
  import opened Options

  /** The inventor placeholder of `normalizePatent` and the Google loops. */
  const UnknownInventor := "Unknown Inventor"

  /** The most inventors a search loop keeps. */
  const MaxInventors := 5

  /** The title placeholder of both WIPO loops. */
  const NoTitle := "Title not available"

  /** `Math.min(n, maxResults)` as the bound of a loop `i < ...`, with a
      negative `maxResults` running no iteration. */
  function Limit(n: nat, maxResults: int): (r: nat)
    ensures r <= n && r as int <= if maxResults < 0 then 0 else maxResults
    ensures maxResults >= n ==> r == n
    ensures 0 <= maxResults < n ==> r as int == maxResults
  {
    if maxResults < 0 then 0 else if maxResults < n then maxResults else n
  }

  /** JavaScript's `s || fallback` on strings: the empty string is falsy. */
  function Or(s: string, fallback: string): (r: string)
    ensures s != "" ==> r == s
    ensures s == "" ==> r == fallback
  {
    if s == "" then fallback else s
  }

  /** `xs.slice(0, n)`. */
  function Take(xs: seq<string>, n: nat): (r: seq<string>)
    ensures |r| <= n && |r| <= |xs| && r == xs[..|r|]
    ensures |xs| >= n ==> |r| == n
  {
    if |xs| <= n then xs else xs[..n]
  }

  /** What one loop iteration pushes onto `results`. */
  function Emit<T>(r: Option<T>): seq<T> {
    if r.Some? then [r.value] else []
  }

  /** What a loop that pushes the record of each item that has one leaves in
      `results`, in order. */
  function Pushed<T>(items: seq<Option<T>>): (r: seq<T>)
    decreases |items|
    ensures |r| <= |items|
  {
    if items == [] then []
    else Pushed(items[..|items| - 1]) + Emit(items[|items| - 1])
  }

  /** One more item pushes its record, if any, at the end. */
  lemma PushedStep<T>(items: seq<Option<T>>, i: nat)
    requires i < |items|
    ensures Pushed(items[..i + 1]) == Pushed(items[..i]) + Emit(items[i])
  {
    assert items[..i + 1][..i] == items[..i];
  }

  /** When every item has a record, every item pushes one. */
  lemma {:induction false} PushedAll<T>(items: seq<Option<T>>)
    requires forall i :: 0 <= i < |items| ==> items[i].Some?
    ensures |Pushed(items)| == |items|
    decreases |items|
  {
    if items != [] {
      var init := items[..|items| - 1];
      assert forall i :: 0 <= i < |init| ==> init[i] == items[i];
      PushedAll(init);
    }
  }
}
