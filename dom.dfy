/** The page as the extractors see it. A CSS selector is an opaque key; what a
    query with it finds is given. Only the document and a result item (or
    container) are ever queried with selectors, and what such a query finds
    is only read for its text and its `href`, so two levels are enough. */
module Dom {
  import opened Options

  /** An element found inside an item: its `textContent` and its `href`
      ("" when it has none, which JavaScript treats as falsy). */
  datatype Element = Element(text: string, href: string)

  /** A result item or container: its `textContent`, and for each selector
      the elements `querySelectorAll` finds inside it, in document order. */
  datatype Node = Node(text: string, sub: map<string, seq<Element>>)

  /** For each selector, the nodes `document.querySelectorAll` finds. */
  type Document = map<string, seq<Node>>

  /** `document.querySelectorAll(sel)`. */
  function Select(doc: Document, sel: string): seq<Node> {
    if sel in doc then doc[sel] else []
  }

  /** `node.querySelectorAll(sel)`. */
  function QueryAll(n: Node, sel: string): seq<Element> {
    if sel in n.sub then n.sub[sel] else []
  }

  /** `node.querySelector(sel)`: the first element `QueryAll` finds. */
  function Query(n: Node, sel: string): (r: Option<Element>)
    ensures r.Some? <==> |QueryAll(n, sel)| > 0
    ensures r.Some? ==> r.value == QueryAll(n, sel)[0]
  {
    var all := QueryAll(n, sel);
    if |all| > 0 then Some(all[0]) else None
  }

  /** `node.querySelector(s0) || node.querySelector(s1) || ...`: the element
      the first selector that finds anything finds. */
  function QueryFirst(n: Node, sels: seq<string>): Option<Element> {
    if sels == [] then None
    else
      match Query(n, sels[0])
      case Some(e) => Some(e)
      case None => QueryFirst(n, sels[1..])
  }

  /** The chain finds nothing only when no selector finds anything, and
      otherwise the element of the first selector that does. */
  lemma {:induction false} QueryFirstFound(n: Node, sels: seq<string>)
    ensures QueryFirst(n, sels).None? <==> forall k :: 0 <= k < |sels| ==> Query(n, sels[k]).None?
    ensures QueryFirst(n, sels).Some? ==>
              exists k :: 0 <= k < |sels| && Query(n, sels[k]) == QueryFirst(n, sels) &&
                          forall j :: 0 <= j < k ==> Query(n, sels[j]).None?
    decreases |sels|
  {
    if sels != [] {
      QueryFirstFound(n, sels[1..]);
      assert forall k :: 1 <= k < |sels| ==> sels[k] == sels[1..][k - 1];
      if Query(n, sels[0]).None? && QueryFirst(n, sels).Some? {
        var k :| 0 <= k < |sels[1..]| && Query(n, sels[1..][k]) == QueryFirst(n, sels[1..]) &&
                 forall j :: 0 <= j < k ==> Query(n, sels[1..][j]).None?;
        assert Query(n, sels[k + 1]) == QueryFirst(n, sels);
      }
    }
  }
}
