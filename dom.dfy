/**
 * The part of the W3C DOM Level 2 Core that the scripts use, as an immutable tree.
 */
module Dom {
  import opened Wrappers

  /**
   * A node. `Element` has a tag name, its attributes and its ordered child
   * list; `Text` is a text node and `Cdata` a CDATA section (a parser that
   * does not coalesce keeps them apart); `Other` is any other kind (the
   * document node, a comment, a processing instruction), with its node name,
   * its node value (`null` for the document) and its children.
   */
  datatype Node =
    | Element(tag: string, attrs: map<string, string>, children: seq<Node>)
    | Text(data: string)
    | Cdata(data: string)
    | Other(name: string, value: Option<string>, children: seq<Node>)

  /** `getChildNodes()`: never `null`, empty for a text node or a CDATA section. */
  function ChildNodes(n: Node): (cs: seq<Node>)
    ensures n.Text? || n.Cdata? ==> cs == []
    ensures n.Element? || n.Other? ==> cs == n.children
  {
    match n
    case Element(_, _, cs) => cs
    case Text(_) => []
    case Cdata(_) => []
    case Other(_, _, cs) => cs
  }

  /** `getNodeName()`: the tag for an element, `#text` for text, `#cdata-section` for CDATA. */
  function NodeName(n: Node): string {
    match n
    case Element(tag, _, _) => tag
    case Text(_) => "#text"
    case Cdata(_) => "#cdata-section"
    case Other(name, _, _) => name
  }

  /** `getNodeValue()`: `null` for an element, the character data for text and CDATA. */
  function NodeValue(n: Node): Option<string> {
    match n
    case Element(_, _, _) => None
    case Text(data) => Some(data)
    case Cdata(data) => Some(data)
    case Other(_, value, _) => value
  }

  /** A Java string concatenation renders `null` as the four letters `null`. */
  function JavaStr(s: Option<string>): string {
    match s
    case None => "null"
    case Some(v) => v
  }

  /**
   * `getTextContent()` of an element or text node: the text of the text
   * and CDATA descendants in document order (comments and processing instructions
   * contribute nothing).
   */
  function TextContent(n: Node): string
    decreases n
  {
    match n
    case Element(_, _, cs) => TextContentSeq(cs)
    case Text(data) => data
    case Cdata(data) => data
    case Other(_, _, _) => ""
  }

  function TextContentSeq(cs: seq<Node>): string
    decreases cs
  {
    if |cs| == 0 then "" else TextContent(cs[0]) + TextContentSeq(cs[1..])
  }

  /**
   * `getAttribute(name)` on an element: the value, or the empty string when
   * the element has no such attribute.
   */
  function GetAttribute(e: Node, name: string): (v: string)
    requires e.Element?
    ensures name !in e.attrs ==> v == ""
    ensures name in e.attrs ==> v == e.attrs[name]
  {
    if name in e.attrs then e.attrs[name] else ""
  }

  /**
   * `getAttribute(name)` through a node reference that the program casts to
   * `Element`; used only on nodes that are elements, it reads as "" elsewhere.
   */
  function AttributeOf(n: Node, name: string): (v: string)
    ensures n.Element? ==> v == GetAttribute(n, name)
  {
    if n.Element? then GetAttribute(n, name) else ""
  }

  /** `setAttribute(name, value)`: the same element with that one attribute set. */
  function SetAttribute(e: Node, name: string, value: string): (r: Node)
    requires e.Element?
    ensures r.Element? && r.tag == e.tag && r.children == e.children
    ensures r.attrs == e.attrs[name := value]
  {
    Element(e.tag, e.attrs[name := value], e.children)
  }

  /** Setting an attribute changes what that attribute reads as, and no other. */
  lemma GetSetAttribute(e: Node, name: string, value: string, other: string)
    requires e.Element?
    ensures GetAttribute(SetAttribute(e, name, value), name) == value
    ensures other != name ==> GetAttribute(SetAttribute(e, name, value), other) == GetAttribute(e, other)
  {
  }

  /** The subtree of `n` in document order: the node itself, then the children's subtrees in list order. */
  function Preorder(n: Node): (r: seq<Node>)
    ensures |r| > 0 && r[0] == n
    decreases n
  {
    match n
    case Text(_) => [n]
    case Cdata(_) => [n]
    case Element(_, _, cs) => [n] + PreorderSeq(cs)
    case Other(_, _, cs) => [n] + PreorderSeq(cs)
  }

  function PreorderSeq(cs: seq<Node>): (r: seq<Node>)
    decreases cs
  {
    if |cs| == 0 then [] else Preorder(cs[0]) + PreorderSeq(cs[1..])
  }

  lemma {:induction false} PreorderSeqAppend(a: seq<Node>, b: seq<Node>)
    ensures PreorderSeq(a + b) == PreorderSeq(a) + PreorderSeq(b)
    decreases a
  {
    if |a| > 0 {
      assert (a + b)[1..] == a[1..] + b;
      PreorderSeqAppend(a[1..], b);
    } else {
      assert a + b == b;
    }
  }

  /** The subtrees of the first `i + 1` nodes of a list are those of the first `i`, then node `i`'s. */
  lemma PreorderSeqSnoc(cs: seq<Node>, i: nat)
    requires i < |cs|
    ensures PreorderSeq(cs[..i + 1]) == PreorderSeq(cs[..i]) + Preorder(cs[i])
  {
    assert cs[..i + 1] == cs[..i] + [cs[i]];
    PreorderSeqAppend(cs[..i], [cs[i]]);
    assert PreorderSeq([cs[i]]) == Preorder(cs[i]) + PreorderSeq([]) by {
      assert [cs[i]][1..] == [];
    }
    assert Preorder(cs[i]) + [] == Preorder(cs[i]);
  }

  /** The proper descendants of `n` in document order. */
  function Descendants(n: Node): seq<Node> {
    PreorderSeq(ChildNodes(n))
  }

  /** The elements of `ns` with tag name `tag`, in order. */
  function WithTag(ns: seq<Node>, tag: string): (r: seq<Node>)
  {
    if |ns| == 0 then []
    else
      var rest := WithTag(ns[1..], tag);
      if ns[0].Element? && ns[0].tag == tag then [ns[0]] + rest else rest
  }

  /** The selection is exactly the elements of `ns` with that tag: nothing else, nothing missed, order kept. */
  lemma {:induction false} WithTagSound(ns: seq<Node>, tag: string)
    ensures forall k :: 0 <= k < |WithTag(ns, tag)| ==>
      WithTag(ns, tag)[k].Element? && WithTag(ns, tag)[k].tag == tag && WithTag(ns, tag)[k] in ns
    ensures forall k :: 0 <= k < |ns| && ns[k].Element? && ns[k].tag == tag ==> ns[k] in WithTag(ns, tag)
  {
    if |ns| > 0 {
      WithTagSound(ns[1..], tag);
      assert forall k :: 1 <= k < |ns| ==> ns[k] == ns[1..][k - 1];
    }
  }

  lemma {:induction false} WithTagAppend(a: seq<Node>, b: seq<Node>, tag: string)
    ensures WithTag(a + b, tag) == WithTag(a, tag) + WithTag(b, tag)
  {
    if |a| > 0 {
      assert (a + b)[1..] == a[1..] + b;
      WithTagAppend(a[1..], b, tag);
    } else {
      assert a + b == b;
    }
  }

  /**
   * `getElementsByTagName(tag)` on an element or the document: the
   * descendant elements with that tag name, in document order, the node
   * itself excluded.
   */
  function ElementsByTagName(n: Node, tag: string): seq<Node> {
    WithTag(Descendants(n), tag)
  }
}
