/**
 * ledevoir.java: selects the titles and descriptions of an RSS feed and
 * prints them, and adds with `somme`. Fetching the feed, rewriting files and
 * opening a browser are left out; `modifier_encodage` is ModifierEncodage.
 */
module LeDevoir {
  import opened Wrappers
  import opened JavaInt
  import opened Dom

  /**
   * `noeud_enfant(nl, tag)`: the `tag` descendants of the first entry of
   * `nl` (cast to an element), or `null` when `nl` is empty; the loop
   * returns during its first iteration, so later entries are never looked at.
   */
  function NoeudEnfant(nl: seq<Node>, tag: string): (r: Option<seq<Node>>)
    requires |nl| > 0 ==> nl[0].Element?
    ensures r.None? <==> |nl| == 0
  {
    if |nl| == 0 then None else Some(ElementsByTagName(nl[0], tag))
  }

  /** Only the first entry matters: two lists with the same first entry give the same result. */
  lemma NoeudEnfantFirstOnly(nl: seq<Node>, nl': seq<Node>, tag: string)
    requires |nl| > 0 && |nl'| > 0 && nl[0] == nl'[0] && nl[0].Element?
    ensures NoeudEnfant(nl, tag) == NoeudEnfant(nl', tag) == NoeudEnfant([nl[0]], tag)
  {
  }

  /** The result holds only elements with that tag, so it can be passed on to another `noeud_enfant`. */
  lemma NoeudEnfantElements(nl: seq<Node>, tag: string)
    requires |nl| > 0 && nl[0].Element?
    ensures forall k :: 0 <= k < |NoeudEnfant(nl, tag).value| ==>
      NoeudEnfant(nl, tag).value[k].Element? && NoeudEnfant(nl, tag).value[k].tag == tag
  {
    WithTagSound(Descendants(nl[0]), tag);
  }

  /** All entries are elements: what the `(Element)` casts of the printing loop need. */
  predicate AllElements(nl: seq<Node>) {
    forall k :: 0 <= k < |nl| ==> nl[k].Element?
  }

  /** The two lines `affiche_noeud_for` prints for one element. */
  function NodeLines(e: Node): seq<string> {
    ["NodeName: " + NodeName(e), "TextContent " + TextContent(e)]
  }

  /** Everything `affiche_noeud_for(nl)` prints, entry by entry. */
  function ListLines(nl: seq<Node>): (r: seq<string>)
    decreases |nl|
  {
    if |nl| == 0 then [] else ListLines(nl[..|nl| - 1]) + NodeLines(nl[|nl| - 1])
  }

  /** Two lines per entry, in list order: the name of entry `k`, then its text content. */
  lemma {:induction false} ListLinesShape(nl: seq<Node>)
    ensures |ListLines(nl)| == 2 * |nl|
    ensures forall k :: 0 <= k < |nl| ==>
      ListLines(nl)[2 * k] == "NodeName: " + NodeName(nl[k])
      && ListLines(nl)[2 * k + 1] == "TextContent " + TextContent(nl[k])
    decreases |nl|
  {
    if |nl| > 0 {
      var p := nl[..|nl| - 1];
      ListLinesShape(p);
      assert forall k :: 0 <= k < |p| ==> p[k] == nl[k];
    }
  }

  /**
   * What `rendre_lisible` prints for the document element `racine`, and
   * whether it returns normally: the root's name, then the titles and the
   * descriptions of the first `item` of the first `channel`. With no
   * `channel`, or no `item` in the first one, a `null` list reaches
   * `noeud_enfant` or `affiche_noeud_for` and the method throws right after
   * the name.
   */
  function Readable(racine: Node): (r: (seq<string>, bool))
    ensures |r.0| > 0 && r.0[0] == NodeName(racine)
  {
    var channels := ElementsByTagName(racine, "channel");
    WithTagSound(Descendants(racine), "channel");
    ReadableChannels(NodeName(racine), channels)
  }

  /** `rendre_lisible` once the root's name is printed and its `channel` list is known. */
  function ReadableChannels(name: string, channels: seq<Node>): (r: (seq<string>, bool))
    requires |channels| > 0 ==> channels[0].Element?
    ensures |r.0| > 0 && r.0[0] == name
  {
    match NoeudEnfant(channels, "item")
    case None => ([name], false)
    case Some(items) =>
      NoeudEnfantElements(channels, "item");
      ReadableItems(name, items)
  }

  /** `rendre_lisible` once the `item` list of the first channel is known. */
  function ReadableItems(name: string, items: seq<Node>): (r: (seq<string>, bool))
    requires |items| > 0 ==> items[0].Element?
    ensures |r.0| > 0 && r.0[0] == name
  {
    match NoeudEnfant(items, "title")
    case None => ([name], false)
    case Some(titles) =>
      var descriptions := NoeudEnfant(items, "description").value;
      ([name] + ListLines(titles) + ListLines(descriptions), true)
  }

  /** The layers of `Readable`: the `channel` list, then the `item` list of its first entry. */
  lemma ReadableLayers(racine: Node)
    ensures var channels := ElementsByTagName(racine, "channel");
      && (|channels| > 0 ==> channels[0].Element?)
      && Readable(racine) == ReadableChannels(NodeName(racine), channels)
  {
    WithTagSound(Descendants(racine), "channel");
  }

  /** With no first channel, or one without items, only the name is printed and the method throws. */
  lemma ChannelsLayer(name: string, channels: seq<Node>)
    requires |channels| > 0 ==> channels[0].Element?
    ensures NoeudEnfant(channels, "item").None? ==> ReadableChannels(name, channels) == ([name], false)
    ensures NoeudEnfant(channels, "item").Some? ==>
      var items := NoeudEnfant(channels, "item").value;
      && (|items| > 0 ==> items[0].Element?)
      && ReadableChannels(name, channels) == ReadableItems(name, items)
  {
    if NoeudEnfant(channels, "item").Some? {
      NoeudEnfantElements(channels, "item");
    }
  }

  /** The titles and descriptions of the first item are elements, printed in that order. */
  lemma ItemsLayer(name: string, items: seq<Node>)
    requires |items| > 0 ==> items[0].Element?
    ensures NoeudEnfant(items, "title").None? ==> ReadableItems(name, items) == ([name], false)
    ensures NoeudEnfant(items, "title").Some? ==>
      var titles := NoeudEnfant(items, "title").value;
      var descriptions := NoeudEnfant(items, "description").value;
      && AllElements(titles) && AllElements(descriptions)
      && ReadableItems(name, items) == ([name] + ListLines(titles) + ListLines(descriptions), true)
  {
    if |items| > 0 {
      NoeudEnfantElements(items, "title");
      NoeudEnfantElements(items, "description");
    }
  }

  /** `rendre_lisible` returns normally exactly when the first channel has an item. */
  lemma ReadableCompletes(racine: Node)
    ensures Readable(racine).1 <==>
      var channels := ElementsByTagName(racine, "channel");
      |channels| > 0 && |ElementsByTagName(channels[0], "item")| > 0
  {
    WithTagSound(Descendants(racine), "channel");
  }

  /**
   * Only the first item of the first channel is printed: its title
   * descendants, two lines each, then its description descendants; every
   * list that reaches a cast holds elements only.
   */
  lemma ReadableCases(racine: Node)
    ensures var channels := ElementsByTagName(racine, "channel");
      && (|channels| == 0 ==> Readable(racine) == ([NodeName(racine)], false))
      && (|channels| > 0 ==> channels[0].Element?)
    ensures var channels := ElementsByTagName(racine, "channel");
      |channels| > 0 ==>
        var items := ElementsByTagName(channels[0], "item");
        && (|items| == 0 ==> Readable(racine) == ([NodeName(racine)], false))
        && (|items| > 0 ==>
              var titles := ElementsByTagName(items[0], "title");
              var descriptions := ElementsByTagName(items[0], "description");
              && items[0].Element? && AllElements(titles) && AllElements(descriptions)
              && Readable(racine) == ([NodeName(racine)] + ListLines(titles) + ListLines(descriptions), true))
  {
    var channels := ElementsByTagName(racine, "channel");
    WithTagSound(Descendants(racine), "channel");
    if |channels| > 0 {
      NoeudEnfantElements(channels, "item");
      var items := ElementsByTagName(channels[0], "item");
      assert NoeudEnfant(channels, "item").value == items;
      if |items| > 0 {
        assert items[0] == NoeudEnfant(channels, "item").value[0];
        NoeudEnfantElements(items, "title");
        NoeudEnfantElements(items, "description");
        var titles := ElementsByTagName(items[0], "title");
        var descriptions := ElementsByTagName(items[0], "description");
        assert NoeudEnfant(items, "title").value == titles;
        assert NoeudEnfant(items, "description").value == descriptions;
        assert AllElements(titles);
        assert AllElements(descriptions);
      }
    }
  }

  /** `somme(a, b)`: `b += a + a + a` in Java `int` arithmetic, each addition wrapping. */
  function Somme(a: int, b: int): int {
    Wrap32(b + Wrap32(Wrap32(a + a) + a))
  }

  /** The result is `b + 3a`, wrapped once. */
  lemma SommeValue(a: int, b: int)
    ensures Somme(a, b) == Wrap32(b + 3 * a)
  {
    WrapAdd(a + a, a);
    WrapAdd(a + a + a, b);
  }

  /** `afficher(b)`. */
  function Afficher(b: int): string {
    "b = " + IntToString(b)
  }

  /** `main` prints `b = 0`, then `b = 3` once `b = somme(1, 0)`. */
  lemma MainPrints()
    ensures [Afficher(0), Afficher(Somme(1, 0))] == ["b = 0", "b = 3"]
  {
    SommeValue(1, 0);
    assert Somme(1, 0) == 3;
    assert IntToString(0) == "0" && IntToString(3) == "3";
    assert Afficher(0) == "b = 0" && Afficher(3) == "b = 3";
  }

  /** The console of ledevoir.java. */
  class Console {
    var output: seq<string>

    constructor()
      ensures output == []
    {
      output := [];
    }

    /** `affiche_noeud_for(nl)`: two lines per entry, in list order. */
    method AfficheNoeudFor(nl: seq<Node>)
      requires AllElements(nl)
      modifies this
      ensures output == old(output) + ListLines(nl)
    {
      ghost var out0 := output;
      var i := 0;
      while i < |nl|
        invariant 0 <= i <= |nl|
        invariant output == out0 + ListLines(nl[..i])
      {
        var element_enfant := nl[i];
        assert nl[..i + 1][..i] == nl[..i];
        output := output + ["NodeName: " + NodeName(element_enfant)];
        output := output + ["TextContent " + TextContent(element_enfant)];
        i := i + 1;
      }
      assert nl[..i] == nl;
    }

    /** `rendre_lisible` on the document element `racine`; `false` when it throws. */
    method RendreLisible(racine: Node) returns (ok: bool)
      modifies this
      ensures output == old(output) + Readable(racine).0
      ensures ok == Readable(racine).1
    {
      ReadableLayers(racine);
      output := output + [NodeName(racine)];
      var nlRacine := ElementsByTagName(racine, "channel");
      ChannelsLayer(NodeName(racine), nlRacine);
      var channelListe := NoeudEnfant(nlRacine, "title");
      var itemListe := NoeudEnfant(nlRacine, "item");
      if itemListe.None? {
        return false;
      }
      var items := itemListe.value;
      ItemsLayer(NodeName(racine), items);
      var titreItemListe := NoeudEnfant(items, "title");
      var descriptionItemListe := NoeudEnfant(items, "description");
      if titreItemListe.None? {
        return false;
      }
      var titres, descriptions := titreItemListe.value, descriptionItemListe.value;
      AfficheNoeudFor(titres);
      AfficheNoeudFor(descriptions);
      Associative(old(output), [NodeName(racine)] + ListLines(titres), ListLines(descriptions));
      Associative(old(output), [NodeName(racine)], ListLines(titres));
      ok := true;
    }
  }
}
