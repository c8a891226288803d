/**
 * Java/afficherRSS.java: prints, for each `item` of an RSS document, the
 * value of the first child of its first `title`.
 */
module AfficherRss {
  import opened Wrappers
  import opened Dom

  /**
   * The line printed for one item: the node value (`null` printed as such)
   * of the first child of the first `title` descendant; `None` when there
   * is no `title` or it has no child, where Java dereferences `null`.
   */
  function TitleLine(item: Node): (r: Option<string>)
    ensures r.Some? <==> |ElementsByTagName(item, "title")| > 0 && |ChildNodes(ElementsByTagName(item, "title")[0])| > 0
  {
    var titleList := ElementsByTagName(item, "title");
    if |titleList| == 0 then None
    else
      var cs := ChildNodes(titleList[0]);
      if |cs| == 0 then None else Some(JavaStr(NodeValue(cs[0])))
  }

  /** The lines printed for `items`, in order, up to the first one that throws; and whether none did. */
  function Titles(items: seq<Node>): (r: (seq<string>, bool))
    decreases |items|
  {
    if |items| == 0 then ([], true)
    else
      match TitleLine(items[0])
      case None => ([], false)
      case Some(line) =>
        var rest := Titles(items[1..]);
        ([line] + rest.0, rest.1)
  }

  /**
   * The run completes exactly when every item has a titled first `title`;
   * then it prints one line per item, line `k` being item `k`'s title.
   */
  lemma {:induction false} TitlesComplete(items: seq<Node>)
    ensures Titles(items).1 <==> forall k :: 0 <= k < |items| ==> TitleLine(items[k]).Some?
    ensures Titles(items).1 ==>
      (|Titles(items).0| == |items| &&
       forall k :: 0 <= k < |items| ==> Titles(items).0[k] == TitleLine(items[k]).value)
    decreases |items|
  {
    if |items| > 0 {
      TitlesComplete(items[1..]);
      assert forall k :: 1 <= k < |items| ==> items[1..][k - 1] == items[k];
      var rest := Titles(items[1..]);
      match TitleLine(items[0]) {
        case None =>
          assert !Titles(items).1;
        case Some(line) =>
          assert Titles(items) == ([line] + rest.0, rest.1);
      }
    }
  }

  /** A run that stops prints the lines of the items before the first failing one, and no more. */
  lemma {:induction false} TitlesStop(items: seq<Node>, i: nat)
    requires i < |items| && TitleLine(items[i]).None?
    requires forall k :: 0 <= k < i ==> TitleLine(items[k]).Some?
    ensures !Titles(items).1 && |Titles(items).0| == i
    decreases i
  {
    if i > 0 {
      TitlesStop(items[1..], i - 1);
    }
  }

  /**
   * The loop after the items before `i` printed `printed`: item `i` either
   * throws or prints its line and leaves the rest to come.
   */
  lemma TitlesNext(items: seq<Node>, i: int, printed: seq<string>)
    requires 0 <= i < |items| && Titles(items) == (printed + Titles(items[i..]).0, Titles(items[i..]).1)
    ensures TitleLine(items[i]).None? ==> Titles(items) == (printed, false)
    ensures TitleLine(items[i]).Some? ==>
      Titles(items) == ((printed + [TitleLine(items[i]).value]) + Titles(items[i + 1..]).0, Titles(items[i + 1..]).1)
  {
    assert items[i..][0] == items[i];
    assert items[i..][1..] == items[i + 1..];
    assert printed + [] == printed;
    if TitleLine(items[i]).Some? {
      Associative(printed, [TitleLine(items[i]).value], Titles(items[i + 1..]).0);
    }
  }

  /** The console of afficherRSS.java. */
  class Console {
    var output: seq<string>

    constructor()
      ensures output == []
    {
      output := [];
    }

    /** `affichertitre` on the parsed document `doc`; `false` when it throws. The tree is only read. */
    method AfficherTitre(doc: Node) returns (ok: bool)
      modifies this
      ensures var items := ElementsByTagName(doc, "item");
        output == old(output) + Titles(items).0 && ok == Titles(items).1
    {
      var items := ElementsByTagName(doc, "item");
      ghost var out0 := output;
      ghost var printed: seq<string> := [];
      var i := 0;
      assert items[i..] == items;
      assert [] + Titles(items).0 == Titles(items).0 && output == out0 + [];
      while i < |items|
        invariant 0 <= i <= |items|
        invariant output == out0 + printed
        invariant Titles(items) == (printed + Titles(items[i..]).0, Titles(items[i..]).1)
      {
        var noeud := items[i];
        var titleList := ElementsByTagName(noeud, "title");
        TitlesNext(items, i, printed);
        if |titleList| == 0 {
          return false;
        }
        var titleNode := ChildNodes(titleList[0]);
        if |titleNode| == 0 {
          return false;
        }
        output := output + [JavaStr(NodeValue(titleNode[0]))];
        printed := printed + [TitleLine(noeud).value];
        i := i + 1;
      }
      assert printed + [] == printed;
      ok := true;
    }
  }
}
