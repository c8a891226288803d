/**
 * Inventaire.java: each line of a CSV file of sales (client, card, product
 * code, quantity) lowers the `quantite` attribute of the stock entries whose
 * `code` is that product code. The stock is the child list of the root
 * element of an XML file, rewritten after each line.
 */
module Inventaire {
  import opened Wrappers
  import opened Strings
  import opened JavaInt
  import opened Dom

  /**
   * `modifier` at one child of the root: a non-element is skipped; an
   * element has its `quantite` and the sold quantity parsed (either failing
   * throws), and the difference is written back only when its `code` equals
   * `code` exactly.
   */
  function Decrement(n: Node, code: string, sold: string): Option<Node> {
    if !n.Element? then Some(n)
    else
      match ParseInt(GetAttribute(n, "quantite"))
      case None => None
      case Some(q) =>
        match ParseInt(sold)
        case None => None
        case Some(v) =>
          if GetAttribute(n, "code") == code then Some(SetQuantity(n, Wrap32(q - v))) else Some(n)
  }

  /** `setAttribute("quantite", Integer.toString(x))`. */
  function SetQuantity(n: Node, x: int): (r: Node)
    requires n.Element?
    ensures r.Element? && r.tag == n.tag && r.children == n.children
    ensures GetAttribute(r, "code") == GetAttribute(n, "code")
  {
    assert "code" != "quantite";
    SetAttribute(n, "quantite", IntToString(x))
  }

  /** The value written back parses back to the same `int`. */
  lemma SetQuantityParses(n: Node, x: int)
    requires n.Element? && IsInt32(x)
    ensures ParseInt(GetAttribute(SetQuantity(n, x), "quantite")) == Some(x)
  {
    ParseIntToString(x);
  }

  /** `a + rest`, when `rest` exists. */
  function Prepend(a: seq<Node>, rest: Option<seq<Node>>): Option<seq<Node>> {
    match rest
    case None => None
    case Some(t) => Some(a + t)
  }

  /**
   * `modifier(file, code, sold)` on the root's child list: the new list, or
   * `None` when some element child makes it throw (nothing is written then).
   */
  function ModifierSpec(s: seq<Node>, code: string, sold: string): (r: Option<seq<Node>>)
    ensures r.Some? ==> |r.value| == |s|
    decreases |s|
  {
    if |s| == 0 then Some([])
    else
      match Decrement(s[0], code, sold)
      case None => None
      case Some(n) => Prepend([n], ModifierSpec(s[1..], code, sold))
  }

  /**
   * `modifier` succeeds exactly when no child makes it throw, and then each
   * child is replaced by its own `Decrement`, in place.
   */
  lemma {:induction false} ModifierPointwise(s: seq<Node>, code: string, sold: string)
    ensures ModifierSpec(s, code, sold).Some? <==> forall k :: 0 <= k < |s| ==> Decrement(s[k], code, sold).Some?
    ensures ModifierSpec(s, code, sold).Some? ==>
      |ModifierSpec(s, code, sold).value| == |s| &&
      forall k :: 0 <= k < |s| ==> ModifierSpec(s, code, sold).value[k] == Decrement(s[k], code, sold).value
    decreases |s|
  {
    if |s| > 0 {
      ModifierPointwise(s[1..], code, sold);
      assert forall k :: 1 <= k < |s| ==> s[1..][k - 1] == s[k];
    }
  }

  /** One step of `modifier`'s loop: the child at `k`, then the rest. */
  lemma ModifierStep(c: seq<Node>, k: nat, code: string, sold: string)
    requires k < |c|
    ensures Decrement(c[k], code, sold).None? ==> ModifierSpec(c[k..], code, sold).None?
    ensures Decrement(c[k], code, sold).Some? ==>
      ModifierSpec(c[k..], code, sold) == Prepend([Decrement(c[k], code, sold).value], ModifierSpec(c[k + 1..], code, sold))
  {
    assert c[k..][0] == c[k];
    assert c[k..][1..] == c[k + 1..];
  }

  lemma PrependNil(r: Option<seq<Node>>)
    ensures Prepend([], r) == r
  {
    if r.Some? {
      assert [] + r.value == r.value;
    }
  }

  lemma PrependAssoc(a: seq<Node>, b: seq<Node>, r: Option<seq<Node>>)
    ensures Prepend(a, Prepend(b, r)) == Prepend(a + b, r)
  {
    if r.Some? {
      assert a + (b + r.value) == (a + b) + r.value;
    }
  }

  /**
   * The effect of a successful `modifier`: a child changes only when it is an
   * element whose `code` equals `code`, and then only its `quantite`, which
   * becomes the decimal rendering of the old value minus the sold quantity,
   * with Java `int` wrap-around and no lower bound.
   */
  lemma ModifierEffect(s: seq<Node>, code: string, sold: string, k: nat)
    requires ModifierSpec(s, code, sold).Some? && k < |s|
    ensures s[k].Element? ==> ParseInt(GetAttribute(s[k], "quantite")).Some? && ParseInt(sold).Some?
    ensures !s[k].Element? || GetAttribute(s[k], "code") != code ==> ModifierSpec(s, code, sold).value[k] == s[k]
    ensures s[k].Element? && GetAttribute(s[k], "code") == code ==>
      var q := ParseInt(GetAttribute(s[k], "quantite")).value;
      var v := ParseInt(sold).value;
      var t := ModifierSpec(s, code, sold).value;
      && t[k] == SetAttribute(s[k], "quantite", IntToString(Wrap32(q - v)))
      && ParseInt(GetAttribute(t[k], "quantite")) == Some(Wrap32(q - v))
  {
    ModifierAt(s, code, sold, k);
    DecrementEffect(s[k], code, sold);
  }

  /** Child `k` of a successful `modifier` is the `Decrement` of the old child `k`. */
  lemma ModifierAt(s: seq<Node>, code: string, sold: string, k: nat)
    requires ModifierSpec(s, code, sold).Some? && k < |s|
    ensures Decrement(s[k], code, sold).Some?
    ensures ModifierSpec(s, code, sold).value[k] == Decrement(s[k], code, sold).value
  {
    ModifierPointwise(s, code, sold);
  }

  /** What a successful `Decrement` does to one child. */
  lemma DecrementEffect(n: Node, code: string, sold: string)
    requires Decrement(n, code, sold).Some?
    ensures n.Element? ==> ParseInt(GetAttribute(n, "quantite")).Some? && ParseInt(sold).Some?
    ensures var m := Decrement(n, code, sold).value;
      && (!n.Element? || GetAttribute(n, "code") != code ==> m == n)
      && (n.Element? && GetAttribute(n, "code") == code ==>
            var q := ParseInt(GetAttribute(n, "quantite")).value;
            var v := ParseInt(sold).value;
            && m == SetAttribute(n, "quantite", IntToString(Wrap32(q - v)))
            && ParseInt(GetAttribute(m, "quantite")) == Some(Wrap32(q - v)))
  {
    if n.Element? && GetAttribute(n, "code") == code {
      var q := ParseInt(GetAttribute(n, "quantite")).value;
      var v := ParseInt(sold).value;
      SetQuantityParses(n, Wrap32(q - v));
    }
  }

  /**
   * `quantite` is parsed before `code` is compared: one element child whose
   * `quantite` is missing or not a number makes the whole call fail, whatever
   * its code.
   */
  lemma ModifierFailsOnBadQuantite(s: seq<Node>, code: string, sold: string, k: nat)
    requires k < |s| && s[k].Element? && ParseInt(GetAttribute(s[k], "quantite")).None?
    ensures ModifierSpec(s, code, sold).None?
  {
    ModifierPointwise(s, code, sold);
    assert Decrement(s[k], code, sold).None?;
  }

  /** There is no lower bound: selling 5 of a stock of 1 leaves `-4`. */
  lemma StockMayGoNegative()
    ensures var p := Element("produit", map["code" := "7", "quantite" := "1"], []);
      ModifierSpec([p], "7", "5") == Some([Element("produit", map["code" := "7", "quantite" := "-4"], [])])
  {
    var p := Element("produit", map["code" := "7", "quantite" := "1"], []);
    assert ParseInt(GetAttribute(p, "quantite")) == Some(1);
    assert ParseInt("5") == Some(5);
    assert IntToString(-4) == "-4";
    assert map["code" := "7", "quantite" := "1"]["quantite" := "-4"] == map["code" := "7", "quantite" := "-4"];
    var p' := Element("produit", map["code" := "7", "quantite" := "-4"], []);
    assert GetAttribute(p, "code") == "7";
    assert Wrap32(1 - 5) == -4;
    assert Decrement(p, "7", "5") == Some(p');
    assert [p][1..] == [];
    assert ModifierSpec([], "7", "5") == Some([]);
    assert [p'] + [] == [p'];
  }

  // ---------------------------------------------------------------------------
  // main: the CSV lines
  // ---------------------------------------------------------------------------

  /** The product code and the quantity sold that one CSV line names. */
  datatype Sale = Sale(code: string, sold: string)

  /**
   * A CSV line split on `,`: the product code and the quantity are fields 2
   * and 3 with all whitespace removed; a line with fewer than four fields
   * throws.
   */
  function LineSale(line: string): Option<Sale> {
    var fields := JavaSplit(line, ',');
    if |fields| < 4 then None else Some(Sale(RemoveWhitespace(fields[2]), RemoveWhitespace(fields[3])))
  }

  /** The lines of the CSV file, each as the sale it names or `None` when it has too few fields. */
  function ParseLines(lines: seq<string>): (r: seq<Option<Sale>>)
    ensures |r| == |lines|
  {
    seq(|lines|, k requires 0 <= k < |lines| => LineSale(lines[k]))
  }

  /** One CSV line as `main` handles it. */
  lemma LineSaleFields(line: string)
    ensures var fields := JavaSplit(line, ',');
      && (|fields| < 4 <==> LineSale(line).None?)
      && (|fields| >= 4 ==> LineSale(line).value == Sale(RemoveWhitespace(fields[2]), RemoveWhitespace(fields[3])))
  {
  }

  /** One iteration of `main`'s loop: the new child list, or `None` when the line throws. */
  function ApplySale(s: seq<Node>, line: Option<Sale>): Option<seq<Node>> {
    match line
    case None => None
    case Some(sale) => ModifierSpec(s, sale.code, sale.sold)
  }

  /**
   * `main` over the parsed CSV lines: the final child list and the number of
   * lines applied. The first line that throws stops the loop; earlier lines
   * stay applied.
   */
  function RunSales(s: seq<Node>, sales: seq<Option<Sale>>): (r: (seq<Node>, nat))
    ensures r.1 <= |sales|
    decreases |sales|
  {
    if |sales| == 0 then (s, 0)
    else
      match ApplySale(s, sales[0])
      case None => (s, 0)
      case Some(t) =>
        var rest := RunSales(t, sales[1..]);
        (rest.0, rest.1 + 1)
  }

  /** A first sale that gives `t` is followed by the rest on `t`. */
  lemma RunSalesNext(s: seq<Node>, sales: seq<Option<Sale>>, t: seq<Node>)
    requires |sales| > 0 && ApplySale(s, sales[0]) == Some(t)
    ensures RunSales(s, sales).0 == RunSales(t, sales[1..]).0
    ensures RunSales(s, sales).1 == RunSales(t, sales[1..]).1 + 1
  {
  }

  /** The first step of `RunSales`: a line that throws stops the run, one that succeeds is followed by the rest. */
  lemma RunSalesStep(s: seq<Node>, sales: seq<Option<Sale>>)
    requires |sales| > 0
    ensures ApplySale(s, sales[0]).None? ==> RunSales(s, sales) == (s, 0)
    ensures ApplySale(s, sales[0]).Some? ==>
      var rest := RunSales(ApplySale(s, sales[0]).value, sales[1..]);
      RunSales(s, sales) == (rest.0, rest.1 + 1)
  {
  }

  /**
   * `main` over the CSV lines: the final child list and the number of lines
   * applied.
   */
  function RunLines(s: seq<Node>, lines: seq<string>): (r: (seq<Node>, nat))
    ensures r.1 <= |lines|
    decreases |lines|
  {
    if |lines| == 0 then (s, 0)
    else
      match ApplySale(s, LineSale(lines[0]))
      case None => (s, 0)
      case Some(t) =>
        var rest := RunLines(t, lines[1..]);
        (rest.0, rest.1 + 1)
  }

  /** The lines from `i` on, with `s` the child list then: the line at `i` throws, so nothing more changes. */
  lemma RunLinesStop(lines: seq<string>, i: nat, s: seq<Node>)
    requires i < |lines|
    requires ApplySale(s, LineSale(lines[i])).None?
    ensures RunLines(s, lines[i..]) == (s, 0)
  {
    assert lines[i..][0] == lines[i];
  }

  /** The lines from `i` on, with `s` the child list then: the line at `i` gives `t`, and the rest run on `t`. */
  lemma RunLinesNext(lines: seq<string>, i: nat, s: seq<Node>, t: seq<Node>)
    requires i < |lines|
    requires ApplySale(s, LineSale(lines[i])) == Some(t)
    ensures RunLines(s, lines[i..]).0 == RunLines(t, lines[i + 1..]).0
    ensures RunLines(s, lines[i..]).1 == RunLines(t, lines[i + 1..]).1 + 1
  {
    assert lines[i..][0] == lines[i];
    assert lines[i..][1..] == lines[i + 1..];
  }

  lemma ParseLinesTail(lines: seq<string>)
    requires |lines| > 0
    ensures ParseLines(lines)[1..] == ParseLines(lines[1..])
  {
    var a, b := ParseLines(lines)[1..], ParseLines(lines[1..]);
    assert forall k :: 0 <= k < |b| ==> a[k] == LineSale(lines[1..][k]) == b[k];
  }

  /** Splitting each line when it is reached is the same as splitting them all first. */
  lemma {:induction false} RunLinesSales(s: seq<Node>, lines: seq<string>)
    ensures RunLines(s, lines) == RunSales(s, ParseLines(lines))
    decreases |lines|
  {
    if |lines| > 0 {
      match ApplySale(s, LineSale(lines[0]))
      case None =>
        RunLinesSalesStop(s, lines);
      case Some(t) =>
        RunLinesSales(t, lines[1..]);
        RunLinesSalesNext(s, lines, t);
        assert RunLines(s, lines) == (RunLines(s, lines).0, RunLines(s, lines).1);
    }
  }

  /** A first line that throws stops both runs on `s`. */
  lemma RunLinesSalesStop(s: seq<Node>, lines: seq<string>)
    requires |lines| > 0 && ApplySale(s, LineSale(lines[0])).None?
    ensures RunLines(s, lines) == RunSales(s, ParseLines(lines))
  {
    var sales := ParseLines(lines);
    assert sales[0] == LineSale(lines[0]);
    assert RunLines(s, lines) == (s, 0);
    RunSalesStep(s, sales);
  }

  /** A first line that gives `t`: both runs agree on `s` when they agree on the rest from `t`. */
  lemma RunLinesSalesNext(s: seq<Node>, lines: seq<string>, t: seq<Node>)
    requires |lines| > 0 && ApplySale(s, LineSale(lines[0])) == Some(t)
    requires RunLines(t, lines[1..]).0 == RunSales(t, ParseLines(lines[1..])).0
    requires RunLines(t, lines[1..]).1 == RunSales(t, ParseLines(lines[1..])).1
    ensures RunLines(s, lines).0 == RunSales(s, ParseLines(lines)).0
    ensures RunLines(s, lines).1 == RunSales(s, ParseLines(lines)).1
  {
    var sales := ParseLines(lines);
    assert sales[0] == LineSale(lines[0]);
    ParseLinesTail(lines);
    RunSalesNext(s, sales, t);
    assert lines[0..] == lines && lines[0 + 1..] == lines[1..];
    RunLinesNext(lines, 0, s, t);
  }

  /** The quantity of `code` one line sells, as the program parses it (0 for another code). */
  function SoldIn(line: Option<Sale>, code: string): int {
    match line
    case None => 0
    case Some(sale) =>
      if sale.code == code && ParseInt(sale.sold).Some? then ParseInt(sale.sold).value else 0
  }

  function SoldOf(sales: seq<Option<Sale>>, code: string): int {
    if |sales| == 0 then 0 else SoldIn(sales[0], code) + SoldOf(sales[1..], code)
  }

  /** `modifier` at one element child whose `quantite` is the `int` q0. */
  lemma DecrementElement(n: Node, code: string, sold: string, q0: int)
    requires n.Element? && ParseInt(GetAttribute(n, "quantite")) == Some(q0)
    requires Decrement(n, code, sold).Some?
    ensures ParseInt(sold).Some?
    ensures Decrement(n, code, sold).value ==
      if GetAttribute(n, "code") == code then SetQuantity(n, Wrap32(q0 - ParseInt(sold).value)) else n
  {
  }

  /** One successful `modifier` as seen from one element child: the quantity it ends with. */
  lemma ModifierQuantity(s: seq<Node>, code: string, sold: string, i: nat, q0: int)
    requires ModifierSpec(s, code, sold).Some?
    requires i < |s| && s[i].Element? && ParseInt(GetAttribute(s[i], "quantite")) == Some(q0)
    ensures ParseInt(sold).Some?
    ensures var t := ModifierSpec(s, code, sold).value;
      && |t| == |s| && t[i].Element?
      && GetAttribute(t[i], "code") == GetAttribute(s[i], "code")
      && ParseInt(GetAttribute(t[i], "quantite")) ==
           Some(if GetAttribute(s[i], "code") == code then Wrap32(q0 - ParseInt(sold).value) else q0)
  {
    var t := ModifierSpec(s, code, sold).value;
    ModifierPointwise(s, code, sold);
    assert t[i] == Decrement(s[i], code, sold).value;
    DecrementElement(s[i], code, sold, q0);
    var v := ParseInt(sold).value;
    if GetAttribute(s[i], "code") == code {
      SetQuantityParses(s[i], Wrap32(q0 - v));
    }
  }

  /** Child `i` of `f` is an element with code `c` whose `quantite` parses to the `int` x. */
  predicate QuantityAt(f: seq<Node>, i: nat, c: string, x: int) {
    i < |f| && f[i].Element? && GetAttribute(f[i], "code") == c && ParseInt(GetAttribute(f[i], "quantite")) == Some(x)
  }

  /** One applied line as seen from one element child: its quantity drops by what the line sells of its code. */
  lemma ApplySaleQuantity(s: seq<Node>, line: Option<Sale>, i: nat, c: string, q0: int)
    requires ApplySale(s, line).Some? && QuantityAt(s, i, c, q0)
    ensures |ApplySale(s, line).value| == |s|
    ensures QuantityAt(ApplySale(s, line).value, i, c, Wrap32(q0 - SoldIn(line, c)))
  {
    var sale := line.value;
    ModifierQuantity(s, sale.code, sale.sold, i, q0);
    if c != sale.code {
      assert Wrap32(q0 - 0) == q0;
    }
  }

  /**
   * When every line is applied, an element child whose `quantite` was the
   * `int` q0 ends with q0 minus the total sold of its code (wrapped as a Java
   * `int`); its position and its code do not change.
   */
  lemma RunSalesQuantity(s: seq<Node>, lines: seq<Option<Sale>>, i: nat, c: string, q0: int)
    requires QuantityAt(s, i, c, q0) && RunSales(s, lines).1 == |lines|
    ensures |RunSales(s, lines).0| == |s|
    ensures QuantityAt(RunSales(s, lines).0, i, c, Wrap32(q0 - SoldOf(lines, c)))
  {
    assert Wrap32(q0) == q0;
    RunSalesFrom(s, lines, i, c, q0);
  }

  /**
   * The same with the quantity kept unwrapped: a child whose `quantite` is
   * `base` wrapped ends with `base` minus the total sold, wrapped once.
   */
  lemma {:induction false} RunSalesFrom(s: seq<Node>, lines: seq<Option<Sale>>, i: nat, c: string, base: int)
    requires QuantityAt(s, i, c, Wrap32(base)) && RunSales(s, lines).1 == |lines|
    ensures |RunSales(s, lines).0| == |s|
    ensures QuantityAt(RunSales(s, lines).0, i, c, Wrap32(base - SoldOf(lines, c)))
    decreases |lines|
  {
    if |lines| == 0 {
      assert base - SoldOf(lines, c) == base;
    } else {
      var t := RunSalesFirst(s, lines, i, c, base);
      RunSalesFrom(t, lines[1..], i, c, base - SoldIn(lines[0], c));
      assert base - SoldIn(lines[0], c) - SoldOf(lines[1..], c) == base - SoldOf(lines, c);
    }
  }

  /** The first line of a run that applies every line, seen from the element child at `i`. */
  lemma RunSalesFirst(s: seq<Node>, lines: seq<Option<Sale>>, i: nat, c: string, base: int) returns (t: seq<Node>)
    requires |lines| > 0 && QuantityAt(s, i, c, Wrap32(base)) && RunSales(s, lines).1 == |lines|
    ensures |t| == |s| && RunSales(t, lines[1..]).0 == RunSales(s, lines).0
    ensures RunSales(t, lines[1..]).1 == |lines[1..]|
    ensures QuantityAt(t, i, c, Wrap32(base - SoldIn(lines[0], c)))
  {
    RunSalesAll(s, lines);
    t := ApplySale(s, lines[0]).value;
    var a := SoldIn(lines[0], c);
    ApplySaleQuantity(s, lines[0], i, c, Wrap32(base));
    WrapMinus(base, a);
  }

  /** Taking `a` off the wrapped `x` and wrapping is taking it off `x` and wrapping once. */
  lemma WrapMinus(x: int, a: int)
    ensures Wrap32(Wrap32(x) - a) == Wrap32(x - a)
  {
    WrapSub(x, 0, a);
    assert x - 0 == x && x - 0 - a == x - a;
  }

  /** A run that applies every line applies the first and then all the rest. */
  lemma RunSalesAll(s: seq<Node>, lines: seq<Option<Sale>>)
    requires |lines| > 0 && RunSales(s, lines).1 == |lines|
    ensures ApplySale(s, lines[0]).Some?
    ensures RunSales(ApplySale(s, lines[0]).value, lines[1..]).0 == RunSales(s, lines).0
    ensures RunSales(ApplySale(s, lines[0]).value, lines[1..]).1 == |lines| - 1
  {
  }

  /** The stock file: the child list of its root element. */
  class StockFile {
    var children: seq<Node>

    constructor(children: seq<Node>)
      ensures this.children == children
    {
      this.children := children;
    }

    /** `modifier(file, code, sold)`: edits a parsed copy and writes it back only when it completes. */
    method Modifier(code: string, sold: string) returns (ok: bool)
      modifies this
      ensures ok == ModifierSpec(old(children), code, sold).Some?
      ensures ok ==> children == ModifierSpec(old(children), code, sold).value
      ensures !ok ==> children == old(children)
    {
      var nl := children;
      var k := 0;
      assert children[k..] == children;
      assert nl[..k] == [];
      PrependNil(ModifierSpec(children, code, sold));
      while k < |nl|
        invariant 0 <= k <= |nl| == |children|
        invariant children == old(children)
        invariant nl[k..] == children[k..]
        invariant ModifierSpec(children, code, sold) == Prepend(nl[..k], ModifierSpec(children[k..], code, sold))
      {
        ModifierStep(children, k, code, sold);
        assert nl[k] == children[k] by {
          assert nl[k..][0] == children[k..][0];
        }
        ghost var done := nl[..k];
        if nl[k].Element? {
          var q := ParseInt(GetAttribute(nl[k], "quantite"));
          if q.None? {
            return false;
          }
          var v := ParseInt(sold);
          if v.None? {
            return false;
          }
          var quantite := Wrap32(q.value - v.value);
          var quantiterestante := IntToString(quantite);
          if GetAttribute(nl[k], "code") == code {
            nl := nl[k := SetAttribute(nl[k], "quantite", quantiterestante)];
          }
        }
        assert nl[k] == Decrement(children[k], code, sold).value;
        assert nl[..k + 1] == done + [nl[k]];
        PrependAssoc(done, [nl[k]], ModifierSpec(children[k + 1..], code, sold));
        k := k + 1;
      }
      assert nl[..k] == nl;
      assert children[k..] == [];
      children := nl;
      ok := true;
    }

    /** One iteration of `main`'s loop: split the line, then `modifier` with its code and quantity. */
    method ApplyLine(line: string) returns (ok: bool)
      modifies this
      ensures ok == ApplySale(old(children), LineSale(line)).Some?
      ensures ok ==> children == ApplySale(old(children), LineSale(line)).value
      ensures !ok ==> children == old(children)
    {
      LineSaleFields(line);
      var listeclient := JavaSplit(line, ',');
      if |listeclient| < 4 {
        return false;
      }
      var idproduit := RemoveWhitespace(listeclient[2]);
      var quantite := RemoveWhitespace(listeclient[3]);
      ok := Modifier(idproduit, quantite);
    }

    /** `main`: applies the lines in order and stops at the first one that throws. */
    method ProcessCsv(lines: seq<string>) returns (applied: nat)
      modifies this
      ensures children == RunLines(old(children), lines).0
      ensures applied == RunLines(old(children), lines).1
    {
      ghost var r := RunLines(children, lines);
      var i := 0;
      assert lines[i..] == lines;
      while i < |lines|
        invariant 0 <= i <= |lines|
        invariant RunLines(children, lines[i..]).0 == r.0
        invariant RunLines(children, lines[i..]).1 + i == r.1
      {
        ghost var before := children;
        var ok := ApplyLine(lines[i]);
        if !ok {
          RunLinesStop(lines, i, before);
          return i;
        }
        RunLinesNext(lines, i, before, children);
        i := i + 1;
      }
      assert lines[i..] == [];
      applied := i;
    }
  }
}
