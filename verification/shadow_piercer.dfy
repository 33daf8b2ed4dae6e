/** The shadow piercer: a search for a selector that goes on into open shadow roots and, from a
    document, into the documents of iframes. A tree is a sequence of elements in document order
    (what `querySelectorAll('*')` lists); each element may host a shadow tree and, when it is
    an iframe, a frame whose document may be loaded, absent or inaccessible. Which selectors an
    element satisfies is given as data. */
module ShadowPiercer {
  import opened Common

  datatype Element = Element(
    tag: string,
    matches: set<string>,
    shadowRoot: Option<ShadowRoot>,
    frame: Option<Frame>)

  /** An open shadow root and the elements of its tree. */
  datatype ShadowRoot = ShadowRoot(elements: seq<Element>)

  /** An iframe: its `src` and what reading `contentDocument` gives. */
  datatype Frame = Frame(src: string, content: FrameContent)

  datatype FrameContent = Loaded(elements: seq<Element>) | NoDocument | CrossOrigin

  /** The `root` argument: a document or a shadow root. */
  datatype RootNode = RootNode(isDocument: bool, elements: seq<Element>)

  datatype Pierced = Pierced(element: Element, path: seq<string>, isShadow: bool, isIframe: bool)

  function ShadowStep(host: Element): string {
    Lower(host.tag) + "::shadow"
  }

  function FrameStep(f: Frame): string {
    "iframe[src=\"" + f.src + "\"]"
  }

  /** What every result satisfies: the element matches, the path ends with the selector, and
      the path is longer than the selector alone exactly when a boundary was crossed. */
  predicate Located(sel: string, p: Pierced) {
    && |p.path| >= 1
    && p.path[|p.path| - 1] == sel
    && sel in p.element.matches
    && ((p.isShadow || p.isIframe) <==> |p.path| > 1)
  }

  /** `querySelector(selector)`: the first matching element in document order. */
  function FirstMatch(sel: string, els: seq<Element>): (r: Option<Element>)
    ensures r.Some? ==> r.value in els && sel in r.value.matches
    ensures r.None? <==> forall e :: e in els ==> sel !in e.matches
    ensures r.Some? ==> exists k :: 0 <= k < |els| && els[k] == r.value && NoneMatchBefore(sel, els, k)
  {
    if els == [] then None
    else if sel in els[0].matches then Some(els[0])
    else FirstMatch(sel, els[1..])
  }

  /** No element before position `k` matches. */
  predicate NoneMatchBefore(sel: string, els: seq<Element>, k: nat)
    requires k <= |els|
  {
    forall j :: 0 <= j < k ==> sel !in els[j].matches
  }

  /** The direct result for one element: itself when it matches, nothing otherwise. */
  function DirectOf(sel: string, e: Element): seq<Pierced> {
    if sel in e.matches then [Pierced(e, [sel], false, false)] else []
  }

  /** `querySelectorAll(selector)`, each match as a direct result. */
  function DirectMatches(sel: string, els: seq<Element>): (r: seq<Pierced>)
    ensures forall k :: 0 <= k < |r| ==> Located(sel, r[k]) && !r[k].isShadow && !r[k].isIframe
    ensures forall k :: 0 <= k < |r| ==> r[k].element in els
    ensures forall e :: e in els && sel in e.matches ==> Pierced(e, [sel], false, false) in r
  {
    if els == [] then []
    else (if sel in els[0].matches then [Pierced(els[0], [sel], false, false)] else [])
         + DirectMatches(sel, els[1..])
  }

  // ---------------------------------------------------------------------------
  // deepQuery

  /** `deepQuery(selector, root)`; `document` is the global document, absent outside a
      browser. */
  function DeepQuery(sel: string, root: Option<RootNode>, document: Option<seq<Element>>): (r: Option<Pierced>)
    ensures root.None? && document.None? ==> r.None?
    ensures r.Some? ==> Located(sel, r.value)
  {
    var rootNode := if root.Some? then Some(root.value)
                    else if document.Some? then Some(RootNode(true, document.value)) else None;
    if rootNode.None? then None
    else Query(sel, rootNode.value.elements, rootNode.value.isDocument, document.Some?)
  }

  /** The search from one root: a direct match, else the first shadow host (in document order)
      whose tree holds a match, else — from a document, in a browser — the first iframe whose
      document holds one. */
  function Query(sel: string, els: seq<Element>, isDocument: bool, hasDocument: bool): (r: Option<Pierced>)
    ensures r.Some? ==> Located(sel, r.value)
    ensures r.Some? && r.value.isIframe ==> isDocument && hasDocument
    decreases els, 2
  {
    match FirstMatch(sel, els)
    case Some(e) => Some(Pierced(e, [sel], false, false))
    case None =>
      var viaShadow := ShadowSearch(sel, els, 0, hasDocument);
      if viaShadow.Some? then viaShadow
      else if hasDocument && isDocument then FrameSearch(sel, els, 0, hasDocument)
      else None
  }

  function ShadowSearch(sel: string, els: seq<Element>, i: nat, hasDocument: bool): (r: Option<Pierced>)
    ensures r.Some? ==> Located(sel, r.value) && r.value.isShadow && !r.value.isIframe
    decreases els, 1, |els| - i
  {
    if i >= |els| then None
    else
      match els[i]
      case Element(_, _, Some(ShadowRoot(tree)), _) =>
        var found := Query(sel, tree, false, hasDocument);
        if found.Some? then Some(found.value.(path := [ShadowStep(els[i])] + found.value.path, isShadow := true))
        else ShadowSearch(sel, els, i + 1, hasDocument)
      case _ => ShadowSearch(sel, els, i + 1, hasDocument)
  }

  /** The iframe loop; an iframe without a document or whose access throws is skipped. */
  function FrameSearch(sel: string, els: seq<Element>, i: nat, hasDocument: bool): (r: Option<Pierced>)
    ensures r.Some? ==> Located(sel, r.value) && r.value.isIframe
    decreases els, 1, |els| - i
  {
    if i >= |els| then None
    else
      match els[i].frame
      case Some(Frame(src, Loaded(doc))) =>
        var found := Query(sel, doc, true, hasDocument);
        if found.Some? then Some(found.value.(path := [FrameStep(els[i].frame.value)] + found.value.path, isIframe := true))
        else FrameSearch(sel, els, i + 1, hasDocument)
      case _ => FrameSearch(sel, els, i + 1, hasDocument)
  }

  // ---------------------------------------------------------------------------
  // deepQueryAll

  /** `deepQueryAll(selector, root)` */
  function DeepQueryAll(sel: string, root: Option<RootNode>, document: Option<seq<Element>>): (r: seq<Pierced>)
    ensures root.None? && document.None? ==> r == []
    ensures forall k :: 0 <= k < |r| ==> Located(sel, r[k]) && !r[k].isIframe
    ensures forall j, k :: 0 <= j < k < |r| && r[j].isShadow ==> r[k].isShadow
    ensures root.Some? ==> forall e :: e in root.value.elements && sel in e.matches ==> Pierced(e, [sel], false, false) in r
    ensures root.Some? ==> forall k :: 0 <= k < |r| && !r[k].isShadow ==> r[k].element in root.value.elements
  {
    var rootNode := if root.Some? then Some(root.value)
                    else if document.Some? then Some(RootNode(true, document.value)) else None;
    if rootNode.None? then []
    else
      QueryAllDirectFirst(sel, rootNode.value.elements);
      QueryAll(sel, rootNode.value.elements)
  }

  /** All matches from one root: the direct ones, then those of each shadow host in turn. */
  function QueryAll(sel: string, els: seq<Element>): (r: seq<Pierced>)
    ensures forall k :: 0 <= k < |r| ==> Located(sel, r[k]) && !r[k].isIframe
    decreases els, 2
  {
    DirectMatches(sel, els) + ShadowAll(sel, els, 0)
  }

  function ShadowAll(sel: string, els: seq<Element>, i: nat): (r: seq<Pierced>)
    ensures forall k :: 0 <= k < |r| ==> Located(sel, r[k]) && r[k].isShadow && !r[k].isIframe
    decreases els, 1, |els| - i
  {
    if i >= |els| then []
    else
      (match els[i]
       case Element(_, _, Some(ShadowRoot(tree)), _) => Prefixed(ShadowStep(els[i]), QueryAll(sel, tree))
       case _ => [])
      + ShadowAll(sel, els, i + 1)
  }

  /** Results from inside a shadow host, with the host's step in front. */
  function Prefixed(step: string, found: seq<Pierced>): (r: seq<Pierced>)
    ensures |r| == |found|
    ensures forall k :: 0 <= k < |r| ==>
      r[k] == found[k].(path := [step] + found[k].path, isShadow := true)
  {
    seq(|found|, k requires 0 <= k < |found| => found[k].(path := [step] + found[k].path, isShadow := true))
  }

  // ---------------------------------------------------------------------------
  // The order of deepQueryAll

  /** `querySelectorAll` keeps document order: the list for a concatenation is the list for
      the first part followed by the list for the second, and each element contributes itself
      exactly when it matches. */
  lemma {:induction false} DirectMatchesAppend(sel: string, a: seq<Element>, b: seq<Element>)
    ensures DirectMatches(sel, a + b) == DirectMatches(sel, a) + DirectMatches(sel, b)
    decreases |a|
  {
    if a == [] {
      assert a + b == b;
    } else {
      assert (a + b)[1..] == a[1..] + b;
      DirectMatchesAppend(sel, a[1..], b);
    }
  }

  lemma DirectMatchesSingle(sel: string, e: Element)
    ensures DirectMatches(sel, [e]) == DirectOf(sel, e)
  {
    assert [e][1..] == [];
  }

  /** The shadow results of one host: those of its tree, each with the host's step in front. */
  function HostResults(sel: string, host: Element, tree: seq<Element>): (r: seq<Pierced>)
    requires host.shadowRoot == Some(ShadowRoot(tree))
    ensures |r| == |QueryAll(sel, tree)|
    ensures forall k :: 0 <= k < |r| ==> r[k].isShadow && |r[k].path| > 0 && r[k].path[0] == ShadowStep(host)
  {
    Prefixed(ShadowStep(host), QueryAll(sel, tree))
  }

  /** The shadow part goes host by host in document order: the list for a concatenation is
      the list for the first part followed by the list for the second. */
  lemma {:induction false} ShadowAllAppend(sel: string, a: seq<Element>, b: seq<Element>, i: nat)
    requires i <= |a|
    ensures ShadowAll(sel, a + b, i) == ShadowAll(sel, a, i) + ShadowAll(sel, b, 0)
    decreases |a| - i
  {
    if i == |a| {
      ShadowAllShift(sel, a, b, 0);
    } else {
      assert (a + b)[i] == a[i];
      ShadowAllAppend(sel, a, b, i + 1);
    }
  }

  /** Searching `a + b` from position `|a| + j` is searching `b` from `j`. */
  lemma {:induction false} ShadowAllShift(sel: string, a: seq<Element>, b: seq<Element>, j: nat)
    requires j <= |b|
    ensures ShadowAll(sel, a + b, |a| + j) == ShadowAll(sel, b, j)
    decreases |b| - j
  {
    if j < |b| {
      assert (a + b)[|a| + j] == b[j];
      ShadowAllShift(sel, a, b, j + 1);
    }
  }

  /** A single element contributes the results of its shadow tree, or nothing when it hosts
      none. */
  lemma ShadowAllSingle(sel: string, e: Element)
    ensures e.shadowRoot.Some? ==> ShadowAll(sel, [e], 0) == HostResults(sel, e, e.shadowRoot.value.elements)
    ensures e.shadowRoot.None? ==> ShadowAll(sel, [e], 0) == []
  {
  }

  /** From any root, the direct matches come first and only then the shadow results; every
      matching element of the root is listed, and every direct entry is one of its elements
      with the selector as its whole path. */
  lemma QueryAllDirectFirst(sel: string, els: seq<Element>)
    ensures var r := QueryAll(sel, els);
      && (forall j, k :: 0 <= j < k < |r| && r[j].isShadow ==> r[k].isShadow)
      && (forall e :: e in els && sel in e.matches ==> Pierced(e, [sel], false, false) in r)
      && (forall k :: 0 <= k < |r| && !r[k].isShadow ==> r[k].element in els && r[k].path == [sel])
  {
    var d := DirectMatches(sel, els);
    var s := ShadowAll(sel, els, 0);
    assert QueryAll(sel, els) == d + s;
    ShadowAfterDirect(d, s);
    DirectPartListed(sel, d, s, els);
  }

  /** In `d + s` with nothing direct in `s` and nothing shadow in `d`, a shadow entry is
      followed by shadow entries only. */
  lemma ShadowAfterDirect(d: seq<Pierced>, s: seq<Pierced>)
    requires forall k :: 0 <= k < |d| ==> !d[k].isShadow
    requires forall k :: 0 <= k < |s| ==> s[k].isShadow
    ensures var r := d + s; forall j, k :: 0 <= j < k < |r| && r[j].isShadow ==> r[k].isShadow
  {
    var r := d + s;
    forall j, k | 0 <= j < k < |r| && r[j].isShadow
      ensures r[k].isShadow
    {
      assert j >= |d|;
      assert r[k] == s[k - |d|];
    }
  }

  /** The direct part of `QueryAll` lists every matching element and nothing else. */
  lemma DirectPartListed(sel: string, d: seq<Pierced>, s: seq<Pierced>, els: seq<Element>)
    requires d == DirectMatches(sel, els)
    requires forall k :: 0 <= k < |s| ==> s[k].isShadow
    ensures var r := d + s;
      && (forall e :: e in els && sel in e.matches ==> Pierced(e, [sel], false, false) in r)
      && (forall k :: 0 <= k < |r| && !r[k].isShadow ==> r[k].element in els && r[k].path == [sel])
  {
    var r := d + s;
    forall k | 0 <= k < |r| && !r[k].isShadow
      ensures r[k].element in els && r[k].path == [sel]
    {
      if k < |d| {
        assert r[k] == d[k];
      }
    }
  }

  // ---------------------------------------------------------------------------
  // deepQuery against deepQueryAll

  lemma {:induction false} DirectMatchesFirst(sel: string, els: seq<Element>)
    ensures DirectMatches(sel, els) == [] <==> FirstMatch(sel, els).None?
    ensures DirectMatches(sel, els) != [] ==>
      DirectMatches(sel, els)[0] == Pierced(FirstMatch(sel, els).value, [sel], false, false)
  {
    if els != [] && sel !in els[0].matches {
      DirectMatchesFirst(sel, els[1..]);
    }
  }

  /** Outside iframes the two searches agree: `deepQuery` finds exactly the first result of
      `deepQueryAll`, and finds nothing else unless it went through an iframe of a document. */
  lemma {:induction false} QueryIsFirstOfAll(sel: string, els: seq<Element>, isDocument: bool, hasDocument: bool)
    ensures QueryAll(sel, els) != [] ==> Query(sel, els, isDocument, hasDocument) == Some(QueryAll(sel, els)[0])
    ensures QueryAll(sel, els) == [] ==>
      Query(sel, els, isDocument, hasDocument).None? || Query(sel, els, isDocument, hasDocument).value.isIframe
    decreases els, 2
  {
    DirectMatchesFirst(sel, els);
    ShadowSearchIsFirstOfAll(sel, els, 0, hasDocument);
  }

  lemma {:induction false} ShadowSearchIsFirstOfAll(sel: string, els: seq<Element>, i: nat, hasDocument: bool)
    ensures ShadowSearch(sel, els, i, hasDocument).Some? <==> ShadowAll(sel, els, i) != []
    ensures ShadowAll(sel, els, i) != [] ==> ShadowSearch(sel, els, i, hasDocument) == Some(ShadowAll(sel, els, i)[0])
    decreases els, 1, |els| - i
  {
    if i < |els| {
      ShadowSearchIsFirstOfAll(sel, els, i + 1, hasDocument);
      match els[i]
      case Element(_, _, Some(ShadowRoot(tree)), _) =>
        QueryIsFirstOfAll(sel, tree, false, hasDocument);
      case _ =>
    }
  }

  /** From a shadow root (or anywhere outside a browser) `deepQuery` finds a match exactly when
      `deepQueryAll` lists one. */
  lemma ShadowRootAgrees(sel: string, tree: seq<Element>, document: Option<seq<Element>>)
    ensures DeepQuery(sel, Some(RootNode(false, tree)), document).Some? <==>
            DeepQueryAll(sel, Some(RootNode(false, tree)), document) != []
  {
    QueryIsFirstOfAll(sel, tree, false, document.Some?);
  }

  /** A direct match wins over every shadow and iframe result. */
  lemma DirectMatchWins(sel: string, els: seq<Element>, isDocument: bool, hasDocument: bool, e: Element)
    requires e in els && sel in e.matches
    ensures Query(sel, els, isDocument, hasDocument) == Some(Pierced(FirstMatch(sel, els).value, [sel], false, false))
  {
  }

  /** Iframes the search cannot enter are skipped: with no loaded iframe document and nothing
      in the shadow trees, there is no result. */
  lemma {:induction false} UnreadableFramesSkipped(sel: string, els: seq<Element>, i: nat, hasDocument: bool)
    requires forall e :: e in els ==> e.frame.None? || !e.frame.value.content.Loaded?
    ensures FrameSearch(sel, els, i, hasDocument).None?
    decreases |els| - i
  {
    if i < |els| {
      assert els[i] in els;
      UnreadableFramesSkipped(sel, els, i + 1, hasDocument);
    }
  }

  /** The iframe loop finds nothing exactly when no loaded iframe from position `i` on holds a
      match, by the same search from its document. */
  lemma {:induction false} FrameSearchComplete(sel: string, els: seq<Element>, i: nat, hasDocument: bool)
    ensures FrameSearch(sel, els, i, hasDocument).None? <==>
      forall j :: i <= j < |els| && els[j].frame.Some? && els[j].frame.value.content.Loaded? ==>
        Query(sel, els[j].frame.value.content.elements, true, hasDocument).None?
    decreases |els| - i
  {
    if i < |els| {
      FrameSearchComplete(sel, els, i + 1, hasDocument);
    }
  }

  /** `deepQuery` returns null when no match exists anywhere it can look: not among the
      root's elements, not in their shadow trees, and not in the document of any loaded
      iframe. */
  lemma NothingFound(sel: string, root: Option<RootNode>, document: Option<seq<Element>>)
    requires root.Some? ==> DeepQueryAll(sel, root, document) == []
    requires root.Some? ==> forall e :: e in root.value.elements && e.frame.Some? && e.frame.value.content.Loaded? ==>
      Query(sel, e.frame.value.content.elements, true, document.Some?).None?
    requires root.None? && document.Some? ==> DeepQueryAll(sel, root, document) == []
    requires root.None? && document.Some? ==> forall e :: e in document.value && e.frame.Some? && e.frame.value.content.Loaded? ==>
      Query(sel, e.frame.value.content.elements, true, true).None?
    ensures DeepQuery(sel, root, document).None?
  {
    var rootNode := if root.Some? then Some(root.value)
                    else if document.Some? then Some(RootNode(true, document.value)) else None;
    if rootNode.Some? {
      var els := rootNode.value.elements;
      QueryIsFirstOfAll(sel, els, rootNode.value.isDocument, document.Some?);
      FrameSearchComplete(sel, els, 0, document.Some?);
      forall j | 0 <= j < |els| && els[j].frame.Some? && els[j].frame.value.content.Loaded?
        ensures Query(sel, els[j].frame.value.content.elements, true, document.Some?).None?
      {
        assert els[j] in els;
      }
    }
  }

  /** A shadow root never leads into an iframe, however deep the iframes sit. */
  lemma NoFramesFromShadowRoot(sel: string, tree: seq<Element>, document: Option<seq<Element>>)
    ensures var r := DeepQuery(sel, Some(RootNode(false, tree)), document);
      r.Some? ==> !r.value.isIframe
  {
  }
}
