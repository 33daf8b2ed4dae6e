/** The sensitive-data guard: text redaction by the three PII patterns, and the exclusion
    rules that turn a DOM subtree into a sanitized semantic tree. The DOM is an abstract
    element tree. */
module PIISanitizer {
  import opened Common
  import opened Regex

  const Redaction: string := "[REDACTED]"

  /** `\d{n}` */
  function Digits(n: nat): Item {
    Repeat(Digit, n, Some(n))
  }

  /** `[\s-]?` */
  const OptSeparator: Item := Repeat(Separator, 0, Some(1))

  /** `\b\d{4}[\s-]?\d{4}[\s-]?\d{4}[\s-]?\d{4}\b` */
  const CardPattern: Pattern :=
    [Boundary, Digits(4), OptSeparator, Digits(4), OptSeparator, Digits(4), OptSeparator, Digits(4), Boundary]

  /** `\b\d{3}[\s-]?\d{2}[\s-]?\d{4}\b` */
  const SsnPattern: Pattern :=
    [Boundary, Digits(3), OptSeparator, Digits(2), OptSeparator, Digits(4), Boundary]

  /** `\b[A-Z0-9._%+-]+@[A-Z0-9.-]+\.[A-Z]{2,}\b` with the `i` flag */
  const EmailPattern: Pattern :=
    [Boundary, Repeat(LocalPart, 1, None), Repeat(Literal('@'), 1, Some(1)),
     Repeat(DomainPart, 1, None), Repeat(Literal('.'), 1, Some(1)), Repeat(Letter, 2, None), Boundary]

  /** `sanitizeText`: the card, SSN and e-mail replacements, in that order. The filter only
      removes text in favour of the redaction marker, and text that can hold none of the three
      patterns (no digit, no `@`) passes unchanged. */
  function SanitizeText(text: string): (r: string)
    ensures forall c :: c in r ==> c in text || c in Redaction
    ensures !HasDigit(text) && '@' !in text ==> r == text
  {
    PassesIdentity(text);
    var afterCard := ReplaceAll(CardPattern, text, Redaction);
    var afterSsn := ReplaceAll(SsnPattern, afterCard, Redaction);
    ReplaceAll(EmailPattern, afterSsn, Redaction)
  }

  /** The three passes in a row leave text with no digit and no `@` alone. */
  lemma PassesIdentity(text: string)
    ensures !HasDigit(text) && '@' !in text ==>
      ReplaceAll(EmailPattern, ReplaceAll(SsnPattern, ReplaceAll(CardPattern, text, Redaction), Redaction), Redaction) == text
  {
    if !HasDigit(text) && '@' !in text {
      CardPassIdentity(text);
      LaterPassesIdentity(text);
    }
  }

  /** The card pass leaves text without a digit alone. */
  lemma CardPassIdentity(text: string)
    requires !HasDigit(text)
    ensures ReplaceAll(CardPattern, text, Redaction) == text
  {
    assert CardPattern[1] == Digits(4);
    ReplaceAllWithoutClass(CardPattern, text, Redaction, 1);
  }

  predicate HasDigit(s: string) {
    exists i :: 0 <= i < |s| && IsAsciiDigit(s[i])
  }

  /** Text with no digit and no `@` passes through the filter unchanged. */
  lemma SanitizeTextIdentity(text: string)
    requires !HasDigit(text) && '@' !in text
    ensures SanitizeText(text) == text
  {
    CardPassIdentity(text);
    LaterPassesIdentity(text);
  }

  /** The SSN and e-mail passes leave text with no digit and no `@` alone. */
  lemma LaterPassesIdentity(text: string)
    requires !HasDigit(text) && '@' !in text
    ensures ReplaceAll(EmailPattern, ReplaceAll(SsnPattern, text, Redaction), Redaction) == text
  {
    assert SsnPattern[1] == Digits(3);
    ReplaceAllWithoutClass(SsnPattern, text, Redaction, 1);
    assert EmailPattern[2] == Repeat(Literal('@'), 1, Some(1));
    forall t | 0 <= t < |text| ensures !InClass(EmailPattern[2].cls, text[t]) {
      assert text[t] in text;
    }
    ReplaceAllWithoutClass(EmailPattern, text, Redaction, 2);
  }

  // ---------------------------------------------------------------------------
  // Element exclusion and tree sanitization

  const SensitiveInputTypes: set<string> := {"password", "tel", "email", "number"}

  const SensitiveAutocomplete: set<string> :=
    {"cc-number", "cc-exp", "cc-csc", "cc-name", "current-password", "new-password", "one-time-code"}

  const IgnoreAttribute: string := "data-agent-ignore"

  /** A DOM child node: text (node type 3), an element, or anything else (comments, ...). */
  datatype DomNode = TextNode(content: string) | ElementNode(element: Element) | OtherNode

  /** An element: its tag name, attributes, whether it is an `HTMLInputElement` and the
      value of its `type` property, and its child nodes in document order. */
  datatype Element = Element(
    tagName: string,
    attributes: map<string, string>,
    isInput: bool,
    inputType: string,
    childNodes: seq<DomNode>)

  datatype SanitizedNode =
    | Redacted(tag: string)
    | Kept(tag: string, id: Option<string>, text: Option<string>, children: seq<SanitizedNode>)

  function Attribute(el: Element, name: string): Option<string> {
    if name in el.attributes then Some(el.attributes[name]) else None
  }

  /** `shouldExclude(el)`; `insideIgnored` says whether a proper ancestor carries the opt-out
      attribute, the part of `el.closest('[data-agent-ignore]')` the element cannot see. */
  function ShouldExclude(el: Element, insideIgnored: bool): (b: bool)
    ensures IgnoreAttribute in el.attributes || insideIgnored ==> b
    ensures !el.isInput ==> (b <==> IgnoreAttribute in el.attributes || insideIgnored)
    ensures el.isInput && el.inputType in SensitiveInputTypes ==> b
    ensures el.isInput && Attribute(el, "autocomplete").GetOr("") in SensitiveAutocomplete ==> b
    ensures (el.isInput && IgnoreAttribute !in el.attributes && !insideIgnored
             && el.inputType !in SensitiveInputTypes
             && Attribute(el, "autocomplete").GetOr("") !in SensitiveAutocomplete) ==> !b
  {
    if IgnoreAttribute in el.attributes then true
    else if el.isInput && el.inputType in SensitiveInputTypes then true
    else if el.isInput && Attribute(el, "autocomplete").GetOr("") in SensitiveAutocomplete then true
    else insideIgnored
  }

  /** The trimmed, non-empty direct text nodes of a child list. */
  function DirectTexts(nodes: seq<DomNode>): (r: seq<string>)
    ensures |r| <= |nodes|
    ensures forall i :: 0 <= i < |r| ==> r[i] != "" && Trim(r[i]) == r[i]
  {
    if nodes == [] then []
    else
      var here := match nodes[0]
        case TextNode(c) => (if Trim(c) != "" then TrimTrimmed(c); [Trim(c)] else [])
        case _ => [];
      here + DirectTexts(nodes[1..])
  }

  /** The element children of a child list, in document order. */
  function ElementChildren(nodes: seq<DomNode>): (r: seq<Element>)
    ensures |r| <= |nodes|
  {
    if nodes == [] then []
    else (if nodes[0].ElementNode? then [nodes[0].element] else []) + ElementChildren(nodes[1..])
  }

  /** `sanitizeTree(root)` */
  function SanitizeTree(root: Element, insideIgnored: bool): (n: SanitizedNode)
    ensures n.tag == Lower(root.tagName)
    ensures n.Redacted? <==> ShouldExclude(root, insideIgnored)
    decreases root, 1
  {
    if ShouldExclude(root, insideIgnored) then Redacted(Lower(root.tagName))
    else
      var id := Attribute(root, "id").GetOr("");
      var directText := Join(DirectTexts(root.childNodes), " ");
      Kept(Lower(root.tagName),
           if id != "" then Some(id) else None,
           if directText != "" then Some(SanitizeText(directText)) else None,
           SanitizeChildren(root, 0))
  }

  /** The sanitized element children of `parent` from child index `i` on; children of a
      kept element have no ignored ancestor. */
  function SanitizeChildren(parent: Element, i: nat): (r: seq<SanitizedNode>)
    requires i <= |parent.childNodes|
    ensures |r| == |ElementChildren(parent.childNodes[i..])|
    decreases parent, 0, |parent.childNodes| - i
  {
    if i == |parent.childNodes| then []
    else
      var node := parent.childNodes[i];
      assert parent.childNodes[i..] == [node] + parent.childNodes[i + 1..];
      var here := match node
        case ElementNode(el) => [SanitizeTree(el, false)]
        case _ => [];
      here + SanitizeChildren(parent, i + 1)
  }

  /** Each sanitized child is the sanitized element child in the same position. */
  lemma {:induction false} SanitizeChildrenPointwise(parent: Element, i: nat, k: nat)
    requires i <= |parent.childNodes| && k < |ElementChildren(parent.childNodes[i..])|
    ensures SanitizeChildren(parent, i)[k] == SanitizeTree(ElementChildren(parent.childNodes[i..])[k], false)
    decreases |parent.childNodes| - i
  {
    var node := parent.childNodes[i];
    assert parent.childNodes[i..] == [node] + parent.childNodes[i + 1..];
    var rest := parent.childNodes[i + 1..];
    assert ElementChildren(parent.childNodes[i..]) ==
      (if node.ElementNode? then [node.element] else []) + ElementChildren(rest);
    if node.ElementNode? {
      if k > 0 {
        SanitizeChildrenPointwise(parent, i + 1, k - 1);
      }
    } else {
      SanitizeChildrenPointwise(parent, i + 1, k);
    }
  }

  /** An excluded root yields only a redaction marker with its tag; any other root yields one
      sanitized node per element child, in order, and the filtered, space-joined direct text. */
  lemma SanitizeTreeShape(root: Element, insideIgnored: bool)
    ensures ShouldExclude(root, insideIgnored) ==>
      SanitizeTree(root, insideIgnored) == Redacted(Lower(root.tagName))
    ensures !ShouldExclude(root, insideIgnored) ==>
      var n := SanitizeTree(root, insideIgnored);
      var kids := ElementChildren(root.childNodes);
      var direct := Join(DirectTexts(root.childNodes), " ");
      && |n.children| == |kids|
      && (forall k :: 0 <= k < |kids| ==> n.children[k] == SanitizeTree(kids[k], false))
      && (n.text.Some? <==> direct != "")
      && (n.text.Some? ==> n.text.value == SanitizeText(direct))
  {
    if !ShouldExclude(root, insideIgnored) {
      assert root.childNodes[0..] == root.childNodes;
      forall k | 0 <= k < |ElementChildren(root.childNodes)|
        ensures SanitizeTree(root, insideIgnored).children[k] == SanitizeTree(ElementChildren(root.childNodes)[k], false)
      {
        SanitizeChildrenPointwise(root, 0, k);
      }
    }
  }
}
