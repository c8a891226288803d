/**
 * Arbre.java: prints one line per node of a document, in document order,
 * with the node's name and value.
 */
module Arbre {
  import opened Wrappers
  import opened Dom

  /** The line `traite` prints for one node; the indentation string is always empty. */
  function Line(n: Node): string {
    "Nom: " + NodeName(n) + " Valeur: " + JavaStr(NodeValue(n))
  }

  /** The lines of a list of nodes, one per node, in list order. */
  function Lines(ns: seq<Node>): (r: seq<string>)
    ensures |r| == |ns|
  {
    seq(|ns|, k requires 0 <= k < |ns| => Line(ns[k]))
  }

  lemma LinesAppend(a: seq<Node>, b: seq<Node>)
    ensures Lines(a + b) == Lines(a) + Lines(b)
  {
    assert forall k :: 0 <= k < |a| + |b| ==> Lines(a + b)[k] == (Lines(a) + Lines(b))[k];
  }

  /** The whole output of `traite(n, i)`, whatever `i` is. */
  function Dump(n: Node): seq<string> {
    Lines(Preorder(n))
  }

  /**
   * One line per node of the subtree, in document order: the first
   * describes `n` itself, and line `k` describes the `k`-th node of the
   * pre-order walk.
   */
  lemma DumpShape(n: Node)
    ensures |Dump(n)| == |Preorder(n)| && Dump(n)[0] == Line(n)
    ensures forall k :: 0 <= k < |Dump(n)| ==> Dump(n)[k] == Line(Preorder(n)[k])
  {
  }

  /** Every line starts with `Nom: ` and carries ` Valeur: ` right after the node name. */
  lemma LineForm(n: Node)
    ensures Line(n)[..5] == "Nom: "
    ensures Line(n)[5..5 + |NodeName(n)|] == NodeName(n)
    ensures Line(n)[5 + |NodeName(n)|..5 + |NodeName(n)| + 9] == " Valeur: "
  {
    var name := NodeName(n);
    assert Line(n) == "Nom: " + (name + (" Valeur: " + JavaStr(NodeValue(n))));
  }

  /**
   * Text and CDATA keep their kinds on the printout: both print their data,
   * one under the name `#text`, the other under `#cdata-section`.
   */
  lemma CharacterDataLines(d: string)
    ensures Line(Text(d)) == "Nom: " + "#text" + " Valeur: " + d
    ensures Line(Cdata(d)) == "Nom: " + "#cdata-section" + " Valeur: " + d
    ensures Line(Text(d)) != Line(Cdata(d))
  {
    var t, c := Line(Text(d)), Line(Cdata(d));
    assert t == "Nom: " + ("#text" + (" Valeur: " + d));
    assert c == "Nom: " + ("#cdata-section" + (" Valeur: " + d));
    assert t[6] == "#text"[1];
    assert c[6] == "#cdata-section"[1];
  }

  /** The document `<a><![CDATA[x]]></a>` prints three lines, the last for the CDATA section. */
  lemma CdataExample()
    ensures Dump(Other("#document", None, [Element("a", map[], [Cdata("x")])]))
      == ["Nom: " + "#document" + " Valeur: " + "null",
          "Nom: " + "a" + " Valeur: " + "null",
          "Nom: " + "#cdata-section" + " Valeur: " + "x"]
  {
    var c := Cdata("x");
    var a := Element("a", map[], [c]);
    var doc := Other("#document", None, [a]);
    assert PreorderSeq([c]) == [c] by {
      assert [c][1..] == [];
    }
    assert PreorderSeq([a]) == [a, c] by {
      assert [a][1..] == [];
    }
    assert Preorder(doc) == [doc, a, c];
    var ls := Lines([doc, a, c]);
    assert ls == [Line(doc), Line(a), Line(c)];
  }

  /** Attributes are never visited: changing one leaves the output as it was. */
  lemma {:induction false} DumpIgnoresAttributes(e: Node, name: string, value: string)
    requires e.Element?
    ensures Dump(SetAttribute(e, name, value)) == Dump(e)
  {
    var e' := SetAttribute(e, name, value);
    assert Line(e') == Line(e);
    assert Preorder(e') == [e'] + PreorderSeq(e.children);
    assert Preorder(e) == [e] + PreorderSeq(e.children);
    LinesAppend([e'], PreorderSeq(e.children));
    LinesAppend([e], PreorderSeq(e.children));
  }

  /** What the console of Arbre.java has printed. */
  class Printer {
    var output: seq<string>

    constructor()
      ensures output == []
    {
      output := [];
    }

    /**
     * `traite(node, i)`: the line of `node`, then the output of `traite` on
     * each child in list order. The depth `i` grows by 2 per level but
     * changes nothing printed.
     */
    method Traite(node: Node, i: int)
      modifies this
      ensures output == old(output) + Dump(node)
      decreases node
    {
      ghost var head := output + [Line(node)];
      var s := "";
      assert s + Line(node) == Line(node);
      output := output + [s + Line(node)];
      var listedenoeud := ChildNodes(node);
      var k := 0;
      assert listedenoeud[..k] == [] && Lines(PreorderSeq([])) == [];
      assert output == head + [];
      while k < |listedenoeud|
        invariant 0 <= k <= |listedenoeud|
        invariant output == head + Lines(PreorderSeq(listedenoeud[..k]))
      {
        assert listedenoeud[k] in node.children;
        ghost var before := output;
        Traite(listedenoeud[k], i + 2);
        TraiteStep(listedenoeud, k, head, before);
        k := k + 1;
      }
      assert listedenoeud[..k] == listedenoeud;
      TraiteEnd(node, old(output), head);
    }

    /** `main` on the parsed document node `doc`. */
    method Run(doc: Node)
      modifies this
      ensures output == old(output) + Dump(doc)
    {
      Traite(doc, 0);
    }
  }

  /** The lines of the first `k + 1` child subtrees are those of the first `k`, then child `k`'s. */
  lemma TraiteStep(cs: seq<Node>, k: nat, head: seq<string>, out: seq<string>)
    requires k < |cs| && out == head + Lines(PreorderSeq(cs[..k]))
    ensures out + Dump(cs[k]) == head + Lines(PreorderSeq(cs[..k + 1]))
  {
    PreorderSeqSnoc(cs, k);
    LinesAppend(PreorderSeq(cs[..k]), Preorder(cs[k]));
    Associative(head, Lines(PreorderSeq(cs[..k])), Dump(cs[k]));
  }

  lemma TraiteEnd(n: Node, out0: seq<string>, head: seq<string>)
    requires head == out0 + [Line(n)]
    ensures head + Lines(PreorderSeq(ChildNodes(n))) == out0 + Dump(n)
  {
    var rest := PreorderSeq(ChildNodes(n));
    if n.Text? || n.Cdata? {
      assert rest == [] && Preorder(n) == [n];
    } else {
      assert Preorder(n) == [n] + rest;
    }
    assert Preorder(n) == [n] + rest;
    LinesAppend([n], rest);
    assert Lines([n]) == [Line(n)];
    Associative(out0, [Line(n)], Lines(rest));
  }
}
