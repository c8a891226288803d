/**
 * Inventaire1.java: the same stock decrement as Inventaire.java, with the
 * sold quantity already an `int`, two console lines per matching entry, and
 * a `main` that always sells 4 of product "321".
 */
module Inventaire1 {
  import opened Wrappers
  import opened JavaInt
  import opened Dom
  import Inventaire

  /** What `modifier` leaves behind: the new child list (`None` when it throws) and the lines it printed. */
  datatype Outcome = Outcome(tree: Option<seq<Node>>, printed: seq<string>)

  /** The line printed before a matching entry is changed, from its `quantite` and `code` attributes. */
  function BeforeLine(quantite: string, code: string): string {
    quantite + " est la quantité de " + code
  }

  /** The line printed after it, read back from the changed entry. */
  function AfterLine(quantite: string, code: string): string {
    quantite + " est maintenant la quantité de " + code
  }

  /**
   * `modifier` at one child: a non-element is skipped; an element has its
   * `quantite` parsed (failing throws, before anything is printed), and when
   * its `code` is `code` it gets the old value minus `sold` and two lines
   * are printed.
   */
  function Step(n: Node, code: string, sold: int): (r: (Option<Node>, seq<string>))
    ensures r.0.None? ==> r.1 == []
  {
    if !n.Element? then (Some(n), [])
    else
      match ParseInt(GetAttribute(n, "quantite"))
      case None => (None, [])
      case Some(q) =>
        if GetAttribute(n, "code") == code then
          var e := Inventaire.SetQuantity(n, Wrap32(q - sold));
          (Some(e), [BeforeLine(GetAttribute(n, "quantite"), GetAttribute(n, "code")), AfterLine(GetAttribute(e, "quantite"), GetAttribute(e, "code"))])
        else (Some(n), [])
  }

  /** `modifier` over the root's child list: the output lines printed before a failure stay printed. */
  function ModifierSpec(s: seq<Node>, code: string, sold: int): (r: Outcome)
    ensures r.tree.Some? ==> |r.tree.value| == |s|
    decreases |s|
  {
    if |s| == 0 then Outcome(Some([]), [])
    else
      var step := Step(s[0], code, sold);
      match step.0
      case None => Outcome(None, [])
      case Some(e) =>
        var rest := ModifierSpec(s[1..], code, sold);
        Outcome(Inventaire.Prepend([e], rest.tree), step.1 + rest.printed)
  }

  /** The outcome after the children before `k` were handled with result `done` and lines `out`. */
  function Resume(done: seq<Node>, out: seq<string>, rest: Outcome): Outcome {
    Outcome(Inventaire.Prepend(done, rest.tree), out + rest.printed)
  }

  lemma ModifierStep(c: seq<Node>, k: nat, code: string, sold: int)
    requires k < |c|
    ensures Step(c[k], code, sold).0.None? ==> ModifierSpec(c[k..], code, sold) == Outcome(None, [])
    ensures Step(c[k], code, sold).0.Some? ==>
      ModifierSpec(c[k..], code, sold) ==
        Resume([Step(c[k], code, sold).0.value], Step(c[k], code, sold).1, ModifierSpec(c[k + 1..], code, sold))
  {
    assert c[k..][0] == c[k];
    assert c[k..][1..] == c[k + 1..];
  }

  /**
   * `modifier`'s loop at child `k` of `s0`: the child either throws, which
   * ends the run with the lines printed so far, or is handled, which moves
   * the loop on by one.
   */
  lemma ModifierNext(s0: seq<Node>, nl: seq<Node>, k: int, printed: seq<string>, code: string, sold: int)
    requires 0 <= k < |nl| == |s0| && nl[k..] == s0[k..]
    requires ModifierSpec(s0, code, sold) == Resume(nl[..k], printed, ModifierSpec(s0[k..], code, sold))
    ensures Step(s0[k], code, sold).0.None? ==> ModifierSpec(s0, code, sold) == Outcome(None, printed)
    ensures Step(s0[k], code, sold).0.Some? ==>
      var step := Step(s0[k], code, sold);
      var nl' := nl[k := step.0.value];
      && nl'[k + 1..] == s0[k + 1..]
      && ModifierSpec(s0, code, sold) == Resume(nl'[..k + 1], printed + step.1, ModifierSpec(s0[k + 1..], code, sold))
  {
    ModifierStep(s0, k, code, sold);
    var step := Step(s0[k], code, sold);
    if step.0.None? {
      assert printed + [] == printed;
    } else {
      var nl' := nl[k := step.0.value];
      assert nl'[..k + 1] == nl[..k] + [step.0.value];
      assert nl'[k + 1..] == nl[k + 1..] == s0[k + 1..] by {
        assert nl[k + 1..] == nl[k..][1..];
      }
      ResumeAssoc(nl[..k], printed, [step.0.value], step.1, ModifierSpec(s0[k + 1..], code, sold));
    }
  }

  lemma ResumeAssoc(a: seq<Node>, pa: seq<string>, b: seq<Node>, pb: seq<string>, r: Outcome)
    ensures Resume(a, pa, Resume(b, pb, r)) == Resume(a + b, pa + pb, r)
  {
    Inventaire.PrependAssoc(a, b, r.tree);
    assert pa + (pb + r.printed) == (pa + pb) + r.printed;
  }

  /**
   * The two programs agree: with the sold quantity given as an `int`, one
   * child is handled exactly as Inventaire.java handles it when the
   * quantity arrives as the decimal text of that `int`.
   */
  lemma StepAgrees(n: Node, code: string, sold: int)
    requires IsInt32(sold)
    ensures Step(n, code, sold).0 == Inventaire.Decrement(n, code, IntToString(sold))
  {
    ParseIntToString(sold);
  }

  /** Hence the new child lists agree too. */
  lemma {:induction false} ModifierAgrees(s: seq<Node>, code: string, sold: int)
    requires IsInt32(sold)
    ensures ModifierSpec(s, code, sold).tree == Inventaire.ModifierSpec(s, code, IntToString(sold))
    decreases |s|
  {
    if |s| > 0 {
      StepAgrees(s[0], code, sold);
      ModifierAgrees(s[1..], code, sold);
    }
  }

  /**
   * `quantite` is parsed before `code` is compared: one element child whose
   * `quantite` is not a number makes the call fail, whatever its code.
   */
  lemma {:induction false} ModifierFailsOnBadQuantite(s: seq<Node>, code: string, sold: int, k: nat)
    requires k < |s| && s[k].Element? && ParseInt(GetAttribute(s[k], "quantite")).None?
    ensures ModifierSpec(s, code, sold).tree.None?
    decreases k
  {
    if k > 0 {
      ModifierFailsOnBadQuantite(s[1..], code, sold, k - 1);
    }
  }

  /**
   * The lines printed on success: for each element child whose `code` is
   * `code`, in order, its old `quantite` and then its new one.
   */
  function Report(s: seq<Node>, code: string, sold: int): seq<string>
    requires forall k :: 0 <= k < |s| && s[k].Element? ==> ParseInt(GetAttribute(s[k], "quantite")).Some?
  {
    if |s| == 0 then []
    else
      var rest := Report(s[1..], code, sold);
      if s[0].Element? && GetAttribute(s[0], "code") == code then
        var e := Inventaire.SetQuantity(s[0], Wrap32(ParseInt(GetAttribute(s[0], "quantite")).value - sold));
        [BeforeLine(GetAttribute(s[0], "quantite"), GetAttribute(s[0], "code")), AfterLine(GetAttribute(e, "quantite"), GetAttribute(e, "code"))] + rest
      else rest
  }

  /** `modifier` succeeds exactly when every element child's `quantite` parses. */
  lemma {:induction false} ModifierSucceeds(s: seq<Node>, code: string, sold: int)
    ensures ModifierSpec(s, code, sold).tree.Some? <==>
      forall k :: 0 <= k < |s| && s[k].Element? ==> ParseInt(GetAttribute(s[k], "quantite")).Some?
    decreases |s|
  {
    if |s| > 0 {
      ModifierSucceeds(s[1..], code, sold);
      assert forall k :: 1 <= k < |s| ==> s[1..][k - 1] == s[k];
    }
  }

  /** On success each child is replaced by its own `Step`, in place. */
  lemma {:induction false} ModifierPointwise(s: seq<Node>, code: string, sold: int)
    requires ModifierSpec(s, code, sold).tree.Some?
    ensures forall k :: 0 <= k < |s| ==>
      Step(s[k], code, sold).0.Some? && ModifierSpec(s, code, sold).tree.value[k] == Step(s[k], code, sold).0.value
    decreases |s|
  {
    if |s| > 0 {
      ModifierPointwise(s[1..], code, sold);
      assert forall k :: 1 <= k < |s| ==> s[1..][k - 1] == s[k];
    }
  }

  /**
   * On success an element whose `code` is `code` gets `quantite` = old minus
   * `sold` (as a Java `int`), written so that it parses back to that `int`;
   * every other child is kept.
   */
  lemma ModifierEffect(s: seq<Node>, code: string, sold: int, k: nat)
    requires ModifierSpec(s, code, sold).tree.Some? && k < |s|
    ensures s[k].Element? ==> ParseInt(GetAttribute(s[k], "quantite")).Some?
    ensures var t := ModifierSpec(s, code, sold).tree.value;
      && (!s[k].Element? || GetAttribute(s[k], "code") != code ==> t[k] == s[k])
      && (s[k].Element? && GetAttribute(s[k], "code") == code ==>
            var q := ParseInt(GetAttribute(s[k], "quantite")).value;
            && t[k] == Inventaire.SetQuantity(s[k], Wrap32(q - sold))
            && ParseInt(GetAttribute(t[k], "quantite")) == Some(Wrap32(q - sold)))
  {
    ModifierAt(s, code, sold, k);
    StepEffect(s[k], code, sold);
  }

  /** What a successful `Step` does to one child. */
  lemma StepEffect(n: Node, code: string, sold: int)
    requires Step(n, code, sold).0.Some?
    ensures n.Element? ==> ParseInt(GetAttribute(n, "quantite")).Some?
    ensures var m := Step(n, code, sold).0.value;
      && (!n.Element? || GetAttribute(n, "code") != code ==> m == n)
      && (n.Element? && GetAttribute(n, "code") == code ==>
            var q := ParseInt(GetAttribute(n, "quantite")).value;
            && m == Inventaire.SetQuantity(n, Wrap32(q - sold))
            && ParseInt(GetAttribute(m, "quantite")) == Some(Wrap32(q - sold)))
  {
    if n.Element? && GetAttribute(n, "code") == code {
      var q := ParseInt(GetAttribute(n, "quantite")).value;
      Inventaire.SetQuantityParses(n, Wrap32(q - sold));
    }
  }

  /** Child `k` of a successful `modifier` is the `Step` of the old child `k`. */
  lemma ModifierAt(s: seq<Node>, code: string, sold: int, k: nat)
    requires ModifierSpec(s, code, sold).tree.Some? && k < |s|
    ensures Step(s[k], code, sold).0.Some?
    ensures ModifierSpec(s, code, sold).tree.value[k] == Step(s[k], code, sold).0.value
  {
    ModifierPointwise(s, code, sold);
  }

  /** On success the printed lines are `Report`: two per matching element, in order. */
  lemma {:induction false} ModifierPrints(s: seq<Node>, code: string, sold: int)
    requires forall k :: 0 <= k < |s| && s[k].Element? ==> ParseInt(GetAttribute(s[k], "quantite")).Some?
    ensures ModifierSpec(s, code, sold).tree.Some?
    ensures ModifierSpec(s, code, sold).printed == Report(s, code, sold)
    decreases |s|
  {
    if |s| > 0 {
      assert forall k :: 1 <= k < |s| ==> s[1..][k - 1] == s[k];
      ModifierPrints(s[1..], code, sold);
    }
  }

  /**
   * `main` sells 4 of "321": a `produit` with `code="321" quantite="10"`
   * ends with `quantite="6"`, and the two lines name 10 and then 6.
   */
  lemma Example321()
    ensures var p := Element("produit", map["code" := "321", "quantite" := "10"], []);
      var p' := Element("produit", map["code" := "321", "quantite" := "6"], []);
      ModifierSpec([p], "321", 4) == Outcome(Some([p']), [BeforeLine("10", "321"), AfterLine("6", "321")])
  {
    var p := Element("produit", map["code" := "321", "quantite" := "10"], []);
    var p' := Element("produit", map["code" := "321", "quantite" := "6"], []);
    assert ParseDigits("10") == Some(10) by {
      assert "10"[..1] == "1";
    }
    assert ParseInt(GetAttribute(p, "quantite")) == Some(10);
    assert IntToString(6) == "6";
    assert map["code" := "321", "quantite" := "10"]["quantite" := "6"] == map["code" := "321", "quantite" := "6"];
    assert Inventaire.SetQuantity(p, Wrap32(10 - 4)) == p';
    assert GetAttribute(p, "code") == GetAttribute(p', "code") == "321";
    assert GetAttribute(p, "quantite") == "10" && GetAttribute(p', "quantite") == "6";
    var lines := [BeforeLine("10", "321"), AfterLine("6", "321")];
    assert Step(p, "321", 4) == (Some(p'), lines);
    assert [p][1..] == [];
    assert [p'] + [] == [p'];
    assert lines + [] == lines;
  }

  /** The stock file of Inventaire1.java and the console. */
  class StockFile {
    var children: seq<Node>
    var output: seq<string>

    constructor(children: seq<Node>)
      ensures this.children == children && output == []
    {
      this.children := children;
      output := [];
    }

    /** The body of `modifier`'s loop at one child: its new value, or `None` when it throws; the lines it prints. */
    method Visit(n: Node, code: string, sold: int) returns (r: Option<Node>)
      modifies this
      ensures r == Step(n, code, sold).0
      ensures children == old(children) && output == old(output) + Step(n, code, sold).1
    {
      if !n.Element? {
        return Some(n);
      }
      var e := n;
      var q := ParseInt(GetAttribute(e, "quantite"));
      if q.None? {
        return None;
      }
      if GetAttribute(e, "code") == code {
        output := output + [BeforeLine(GetAttribute(e, "quantite"), GetAttribute(e, "code"))];
        var quantiterestante := IntToString(Wrap32(q.value - sold));
        e := SetAttribute(e, "quantite", quantiterestante);
        output := output + [AfterLine(GetAttribute(e, "quantite"), GetAttribute(e, "code"))];
      }
      return Some(e);
    }

    /**
     * `modifier(file, code, sold)`: edits a parsed copy, prints as it goes,
     * and writes the copy back only when the loop completes.
     */
    method Modifier(code: string, sold: int) returns (ok: bool)
      requires IsInt32(sold)
      modifies this
      ensures ok == ModifierSpec(old(children), code, sold).tree.Some?
      ensures ok ==> children == ModifierSpec(old(children), code, sold).tree.value
      ensures !ok ==> children == old(children)
      ensures output == old(output) + ModifierSpec(old(children), code, sold).printed
    {
      ghost var s0 := children;
      ghost var out0 := output;
      ghost var printed: seq<string> := [];
      var nl := children;
      var k := 0;
      assert s0[k..] == s0;
      assert nl[..k] == [];
      Inventaire.PrependNil(ModifierSpec(s0, code, sold).tree);
      assert [] + ModifierSpec(s0, code, sold).printed == ModifierSpec(s0, code, sold).printed;
      while k < |nl|
        invariant 0 <= k <= |nl| == |s0|
        invariant children == s0
        invariant nl[k..] == s0[k..]
        invariant output == out0 + printed
        invariant ModifierSpec(s0, code, sold) == Resume(nl[..k], printed, ModifierSpec(s0[k..], code, sold))
      {
        assert nl[k] == s0[k] by {
          assert nl[k..][0] == s0[k..][0];
        }
        ghost var step := Step(s0[k], code, sold);
        var e := Visit(nl[k], code, sold);
        ModifierNext(s0, nl, k, printed, code, sold);
        if e.None? {
          return false;
        }
        nl := nl[k := e.value];
        Associative(out0, printed, step.1);
        printed := printed + step.1;
        k := k + 1;
      }
      assert nl[..k] == nl;
      assert s0[k..] == [];
      assert nl + [] == nl && printed + [] == printed;
      children := nl;
      ok := true;
    }

    /** `main`: `modifier(args[0], "321", 4)`. */
    method SellFixed() returns (ok: bool)
      modifies this
      ensures ok == ModifierSpec(old(children), "321", 4).tree.Some?
      ensures ok ==> children == ModifierSpec(old(children), "321", 4).tree.value
      ensures !ok ==> children == old(children)
      ensures output == old(output) + ModifierSpec(old(children), "321", 4).printed
    {
      ok := Modifier("321", 4);
    }
  }
}
