/** The parsed HTML document as the crawler and the extractor see it through
    BeautifulSoup: a tree of elements and text nodes, searched in document
    (pre-)order by `find` and `find_all`. */
module Dom {
  import opened Seqs
  import opened Strings

  /** A text node (bs4's NavigableString) or an element with its tag name, the
      tokens of its `class` attribute (`[]` when it has none), its `href`
      attribute and its children in document order. */
  datatype Node =
    | Text(text: string)
    | Element(name: string, classes: seq<string>, href: Option<string>, children: seq<Node>)

  function ChildrenOf(n: Node): seq<Node> {
    match n
    case Text(_) => []
    case Element(_, _, _, kids) => kids
  }

  /** The given nodes and everything below them, in document order. */
  function Preorder(ns: seq<Node>): (r: seq<Node>)
    ensures forall x :: x in ns ==> x in r
    decreases ns
  {
    if ns == [] then []
    else
      [ns[0]]
      + (match ns[0]
         case Text(_) => []
         case Element(_, _, _, kids) => Preorder(kids))
      + Preorder(ns[1..])
  }

  /** Document order is kept across a split of the node list. */
  lemma {:induction false} PreorderAppend(a: seq<Node>, b: seq<Node>)
    ensures Preorder(a + b) == Preorder(a) + Preorder(b)
  {
    if a == [] {
      assert a + b == b;
    } else {
      assert (a + b)[0] == a[0] && (a + b)[1..] == a[1..] + b;
      PreorderAppend(a[1..], b);
    }
  }

  /** Everything strictly below `n`, in document order (bs4's `descendants`). */
  function Descendants(n: Node): seq<Node> {
    Preorder(ChildrenOf(n))
  }

  /** `n.find(...)`: the first descendant, in document order, that matches. */
  function Find(n: Node, p: Node -> bool): Option<Node> {
    FirstMatch(p, Descendants(n))
  }

  /** `n.find_all(...)`: every descendant that matches, in document order. */
  function FindAll(n: Node, p: Node -> bool): seq<Node> {
    Filter(p, Descendants(n))
  }

  /** `find` returns the first element of what `find_all` returns, and nothing
      when `find_all` returns nothing. */
  lemma FindIsFirstOfFindAll(n: Node, p: Node -> bool)
    ensures Find(n, p) == if FindAll(n, p) == [] then None else Some(FindAll(n, p)[0])
  {
    FirstMatchIsHeadOfFilter(p, Descendants(n));
  }

  /** The concatenated text of some nodes (bs4's `.text`, `get_text()`). */
  function Texts(ns: seq<Node>): string
    decreases ns
  {
    if ns == [] then ""
    else (match ns[0]
          case Text(s) => s
          case Element(_, _, _, kids) => Texts(kids)) + Texts(ns[1..])
  }

  function TextOf(n: Node): string {
    Texts([n])
  }

  /** bs4's `.string`: an element's only child's string, or nothing when it
      has no child or several. */
  function StringOf(n: Node): Option<string> {
    match n
    case Text(s) => Some(s)
    case Element(_, _, _, kids) => if |kids| == 1 then StringOf(kids[0]) else None
  }

  /** When an element has a `.string`, its text is that string. */
  lemma {:induction false} StringIsText(n: Node)
    requires StringOf(n).Some?
    ensures TextOf(n) == StringOf(n).value
  {
    match n
    case Text(s) =>
    case Element(_, _, _, kids) =>
      StringIsText(kids[0]);
      assert [n][1..] == [] && Texts([n]) == Texts(kids);
      assert kids == [kids[0]];
  }

  predicate NameIn(n: Node, names: seq<string>) {
    n.Element? && n.name in names
  }

  /** Some keyword occurs in the lower-cased `s`. */
  predicate HasKeyword(s: string, keywords: seq<string>) {
    exists k :: 0 <= k < |keywords| && Contains(Lower(s), keywords[k])
  }

  /** A class filter given as a callable that looks for keywords in the
      lower-cased value: bs4 tries it on each class token, then on all tokens
      joined by spaces; an element without a class attribute never matches. */
  predicate ClassHasKeyword(n: Node, keywords: seq<string>) {
    && n.Element?
    && ((exists i :: 0 <= i < |n.classes| && HasKeyword(n.classes[i], keywords))
        || HasKeyword(Join(n.classes), keywords))
  }

  predicate PlainKeywords(keywords: seq<string>) {
    forall k :: 0 <= k < |keywords| ==> keywords[k] != "" && ' ' !in keywords[k]
  }

  /** For non-empty keywords without spaces the joined-tokens attempt adds
      nothing: an element matches exactly when one of its class tokens does. */
  lemma ClassHasKeywordByToken(n: Node, keywords: seq<string>)
    requires PlainKeywords(keywords)
    ensures ClassHasKeyword(n, keywords)
        <==> n.Element? && exists i :: 0 <= i < |n.classes| && HasKeyword(n.classes[i], keywords)
  {
    if n.Element? && HasKeyword(Join(n.classes), keywords) {
      var k :| 0 <= k < |keywords| && Contains(Lower(Join(n.classes)), keywords[k]);
      JoinedContains(n.classes, keywords[k]);
      var i :| 0 <= i < |n.classes| && Contains(Lower(n.classes[i]), keywords[k]);
      assert HasKeyword(n.classes[i], keywords);
    }
  }
}
