/**
 * CoursXML/compterelement.java: counts the element nodes of a document by
 * a recursive walk that threads a counter through the child lists.
 */
module CompterElement {
  import opened Wrappers
  import opened Dom

  /** The number of element nodes in a flat list of nodes. */
  function ElementsIn(ns: seq<Node>): nat
    decreases |ns|
  {
    if |ns| == 0 then 0
    else ElementsIn(ns[..|ns| - 1]) + (if ns[|ns| - 1].Element? then 1 else 0)
  }

  lemma {:induction false} ElementsInAppend(a: seq<Node>, b: seq<Node>)
    ensures ElementsIn(a + b) == ElementsIn(a) + ElementsIn(b)
    decreases |b|
  {
    if |b| == 0 {
      assert a + b == a;
    } else {
      assert (a + b)[..|a + b| - 1] == a + b[..|b| - 1];
      ElementsInAppend(a, b[..|b| - 1]);
    }
  }

  /** The number of element nodes in the subtree rooted at `n`, `n` included. */
  function ElementCount(n: Node): nat {
    ElementsIn(Preorder(n))
  }

  /**
   * A node contributes one for itself when it is an element, and then what
   * its children's subtrees contribute.
   */
  lemma ElementCountSplit(n: Node)
    ensures ElementCount(n) == (if n.Element? then 1 else 0) + ElementsIn(PreorderSeq(ChildNodes(n)))
  {
    ElementsInAppend([n], PreorderSeq(ChildNodes(n)));
    assert ElementsIn([n]) == (if n.Element? then 1 else 0) by {
      assert [n][..0] == [];
    }
  }

  /** A text node or a CDATA section adds nothing to the count. */
  lemma TextCountsNothing(n: Node)
    requires n.Text? || n.Cdata?
    ensures ElementCount(n) == 0
  {
    ElementCountSplit(n);
  }

  /** A comment, a processing instruction or the document node adds only what lies below it. */
  lemma OtherCountsChildren(n: Node)
    requires n.Other?
    ensures ElementCount(n) == ElementsIn(PreorderSeq(n.children))
  {
    ElementCountSplit(n);
  }

  /** The subtrees of the first `i + 1` children are those of the first `i`, then child `i`'s. */
  lemma PreorderPrefix(cs: seq<Node>, i: nat)
    requires i < |cs|
    ensures ElementsIn(PreorderSeq(cs[..i + 1])) == ElementsIn(PreorderSeq(cs[..i])) + ElementCount(cs[i])
  {
    PreorderSeqSnoc(cs, i);
    ElementsInAppend(PreorderSeq(cs[..i]), Preorder(cs[i]));
  }

  /**
   * `compteElementEnfant(noeud, compteur)`: `compteur` plus the number of
   * element nodes in the subtree rooted at `noeud`, `noeud` included.
   * Because the result is stated for any starting `compteur`, it is also
   * the accumulator law: starting from `compteur` gives `compteur` more
   * than starting from 0.
   */
  method CompteElementEnfant(noeud: Node, compteur: int) returns (r: int)
    ensures r == compteur + ElementCount(noeud)
    decreases noeud
  {
    r := compteur;
    if noeud.Element? {
      r := r + 1;
    }
    var listeEnfants := ChildNodes(noeud);
    var i := 0;
    while i < |listeEnfants|
      invariant 0 <= i <= |listeEnfants|
      invariant r == compteur + (if noeud.Element? then 1 else 0) + ElementsIn(PreorderSeq(listeEnfants[..i]))
    {
      assert listeEnfants[i] in noeud.children;
      PreorderPrefix(listeEnfants, i);
      r := CompteElementEnfant(listeEnfants[i], r);
      i := i + 1;
    }
    assert listeEnfants[..i] == listeEnfants;
    ElementCountSplit(noeud);
  }

  /**
   * What `compteElement` returns for a parsed document: for each element
   * among the document's children, one for the element itself and then
   * `compteElementEnfant(element, 0)`, which counts it a second time.
   */
  function DocumentCount(children: seq<Node>): nat
    decreases |children|
  {
    if |children| == 0 then 0
    else
      var c := children[|children| - 1];
      DocumentCount(children[..|children| - 1]) + (if c.Element? then 1 + ElementCount(c) else 0)
  }

  /**
   * When the document's other children (comments, processing instructions)
   * are leaves, `compteElement` returns the number of elements of the
   * document plus the number of document elements: the document element is
   * counted twice.
   */
  lemma {:induction false} DocumentCountTwice(children: seq<Node>)
    requires forall k :: 0 <= k < |children| && !children[k].Element? ==> ChildNodes(children[k]) == []
    ensures DocumentCount(children) == ElementsIn(PreorderSeq(children)) + ElementsIn(children)
    decreases |children|
  {
    if |children| > 0 {
      var n := |children| - 1;
      var p := children[..n];
      assert children[..n + 1] == children;
      PreorderPrefix(children, n);
      DocumentCountTwice(p);
      var c := children[n];
      if !c.Element? {
        ElementCountSplit(c);
        assert PreorderSeq(ChildNodes(c)) == [];
      }
    }
  }

  /** A well-formed document with one document element: the element count plus one. */
  lemma DocumentCountOneRoot(doc: Node)
    requires doc.Other? && exists k :: 0 <= k < |doc.children| && doc.children[k].Element?
    requires forall k, j :: 0 <= k < |doc.children| && 0 <= j < |doc.children| && doc.children[k].Element? && doc.children[j].Element? ==> k == j
    requires forall k :: 0 <= k < |doc.children| && !doc.children[k].Element? ==> ChildNodes(doc.children[k]) == []
    ensures DocumentCount(doc.children) == ElementCount(doc) + 1
  {
    DocumentCountTwice(doc.children);
    OtherCountsChildren(doc);
    var k :| 0 <= k < |doc.children| && doc.children[k].Element?;
    OnlyOneElement(doc.children, k);
  }

  /** A list whose only element sits at `k` holds one element. */
  lemma {:induction false} OnlyOneElement(ns: seq<Node>, k: nat)
    requires k < |ns| && ns[k].Element?
    requires forall j :: 0 <= j < |ns| && ns[j].Element? ==> j == k
    ensures ElementsIn(ns) == 1
    decreases |ns|
  {
    var n := |ns| - 1;
    if n == k {
      NoElements(ns[..n]);
    } else {
      OnlyOneElement(ns[..n], k);
    }
  }

  lemma {:induction false} NoElements(ns: seq<Node>)
    requires forall j :: 0 <= j < |ns| ==> !ns[j].Element?
    ensures ElementsIn(ns) == 0
    decreases |ns|
  {
    if |ns| > 0 {
      NoElements(ns[..|ns| - 1]);
    }
  }

  /**
   * `compteElement(fichier)`, given the parse result (`None` when the parser
   * throws, after which the message is printed and 0 returned).
   */
  method CompteElement(document: Option<Node>) returns (nbElement: int)
    ensures document.None? ==> nbElement == 0
    ensures document.Some? ==> nbElement == DocumentCount(ChildNodes(document.value))
  {
    nbElement := 0;
    if document.None? {
      return;
    }
    var liste := ChildNodes(document.value);
    var i := 0;
    while i < |liste|
      invariant 0 <= i <= |liste|
      invariant nbElement == DocumentCount(liste[..i])
    {
      var noeud := liste[i];
      assert liste[..i + 1][..i] == liste[..i];
      if noeud.Element? {
        nbElement := nbElement + 1;
        var sub := CompteElementEnfant(noeud, 0);
        nbElement := nbElement + sub;
      }
      i := i + 1;
    }
    assert liste[..i] == liste;
  }
}
