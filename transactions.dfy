/**
 * Transactions.java: for every `client` element under the document
 * element, prints its `nom` and then, once the last of its `transaction`
 * descendants is reached, the Java `int` sum of their `montant` attributes.
 */
module Transactions {
  import opened Wrappers
  import opened JavaInt
  import opened Dom

  /** The `montant` attribute of a transaction, read by `Integer.parseInt`. */
  function Amount(t: Node): Option<int> {
    ParseInt(AttributeOf(t, "montant"))
  }

  /** The amounts of `ts` in order, as `Integer.parseInt` reads them, or `None` at the first that does not parse. */
  function Total(ts: seq<Node>): (r: Option<int>)
    decreases |ts|
  {
    if |ts| == 0 then Some(0)
    else
      match Total(ts[..|ts| - 1])
      case None => None
      case Some(t) =>
        match Amount(ts[|ts| - 1])
        case None => None
        case Some(b) => Some(t + b)
  }

  /** A sum fails exactly when one of the amounts does not parse. */
  lemma {:induction false} TotalFails(ts: seq<Node>)
    ensures Total(ts).None? <==> exists k :: 0 <= k < |ts| && Amount(ts[k]).None?
    decreases |ts|
  {
    if |ts| > 0 {
      var p := ts[..|ts| - 1];
      TotalFails(p);
      assert forall k :: 0 <= k < |p| ==> p[k] == ts[k];
    }
  }

  /** The `transaction` descendants of a client. */
  function TransactionsOf(c: Node): seq<Node> {
    ElementsByTagName(c, "transaction")
  }

  function NameLine(c: Node): string
  {
    "Nom du client: " + AttributeOf(c, "nom")
  }

  function SumLine(total: int): string {
    "Somme: " + IntToString(total)
  }

  /**
   * The lines one client prints and whether the program goes on: its name;
   * then, when it has transactions and all their amounts parse, the
   * wrapped sum. An amount that does not parse stops the program after
   * the name.
   */
  function ClientOutcome(c: Node): (r: (seq<string>, bool))
  {
    var ts := TransactionsOf(c);
    ([NameLine(c)] + SumLines(ts), Total(ts).Some?)
  }

  /** What the inner loop prints: the wrapped sum, once, when there are amounts and they all parse. */
  function SumLines(ts: seq<Node>): (r: seq<string>)
    ensures |r| <= 1
    ensures |r| == 1 <==> |ts| > 0 && Total(ts).Some?
  {
    match Total(ts)
    case None => []
    case Some(t) => if |ts| == 0 then [] else [SumLine(Wrap32(t))]
  }

  /** The blocks in order, up to and including the first one that stops the program. */
  function Chain(bs: seq<(seq<string>, bool)>): (r: (seq<string>, bool))
    decreases |bs|
  {
    if |bs| == 0 then ([], true)
    else if !bs[0].1 then bs[0]
    else
      var rest := Chain(bs[1..]);
      (bs[0].0 + rest.0, rest.1)
  }

  function Blocks(cs: seq<Node>): (r: seq<(seq<string>, bool)>)
    ensures |r| == |cs|
  {
    seq(|cs|, k requires 0 <= k < |cs| => ClientOutcome(cs[k]))
  }

  /** The whole output over the clients, in order, up to the first one that stops the program. */
  function Report(cs: seq<Node>): (seq<string>, bool) {
    Chain(Blocks(cs))
  }

  lemma BlocksTail(cs: seq<Node>)
    requires |cs| > 0
    ensures Blocks(cs)[0] == ClientOutcome(cs[0]) && Blocks(cs)[1..] == Blocks(cs[1..])
  {
  }

  /** The program runs to the end exactly when every client's amounts all parse. */
  lemma {:induction false} ReportCompletes(cs: seq<Node>)
    ensures Report(cs).1 <==> forall k :: 0 <= k < |cs| ==> Total(TransactionsOf(cs[k])).Some?
    decreases |cs|
  {
    if |cs| > 0 {
      BlocksTail(cs);
      ReportCompletes(cs[1..]);
      assert forall k :: 1 <= k < |cs| ==> cs[1..][k - 1] == cs[k];
    }
  }

  /**
   * When it runs to the end, one block per client in order: its name line,
   * followed by a sum line only when it has transactions.
   */
  lemma {:induction false} ReportLength(cs: seq<Node>)
    requires Report(cs).1
    ensures |Report(cs).0| == |cs| + |WithTransactions(cs)|
    decreases |cs|
  {
    if |cs| > 0 {
      BlocksTail(cs);
      ReportLength(cs[1..]);
    }
  }

  /** The clients that have at least one transaction. */
  function WithTransactions(cs: seq<Node>): seq<Node>
  {
    if |cs| == 0 then []
    else (if |TransactionsOf(cs[0])| > 0 then [cs[0]] else []) + WithTransactions(cs[1..])
  }

  /**
   * One step of the inner loop, after the amounts before `a` summed to
   * `Total(ts[..a])`: amount `a` either fails and so does the whole sum, or
   * extends it.
   */
  lemma TotalNext(ts: seq<Node>, a: int)
    requires 0 <= a < |ts| && Total(ts[..a]).Some?
    ensures Amount(ts[a]).None? ==> Total(ts).None?
    ensures Amount(ts[a]).Some? ==> Total(ts[..a + 1]) == Some(Total(ts[..a]).value + Amount(ts[a]).value)
  {
    TotalLast(ts, a);
    if Amount(ts[a]).None? {
      TotalPrefixFails(ts, a + 1);
    }
  }

  /** The sum of the first `a + 1` amounts, from the sum of the first `a`. */
  lemma TotalLast(ts: seq<Node>, a: int)
    requires 0 <= a < |ts|
    ensures Total(ts[..a + 1]) == match Total(ts[..a])
      case None => None
      case Some(t) => match Amount(ts[a]) case None => None case Some(b) => Some(t + b)
  {
    var p := ts[..a + 1];
    assert p[..|p| - 1] == ts[..a] && p[|p| - 1] == ts[a];
  }

  /** The console the program prints to. */
  class Console {
    var output: seq<string>

    constructor()
      ensures output == []
    {
      output := [];
    }

    /** One iteration of `main`'s outer loop: the block of one client. */
    method PrintClient(client: Node) returns (ok: bool)
      modifies this
      ensures output == old(output) + ClientOutcome(client).0
      ensures ok == ClientOutcome(client).1
    {
      output := output + [NameLine(client)];
      var transcnt := TransactionsOf(client);
      ok := PrintSum(transcnt);
      Associative(old(output), [NameLine(client)], SumLines(transcnt));
    }

    /** The inner loop over the transactions `transcnt` of one client. */
    method PrintSum(transcnt: seq<Node>) returns (ok: bool)
      modifies this
      ensures output == old(output) + SumLines(transcnt)
      ensures ok == Total(transcnt).Some?
    {
      ghost var out0 := output;
      ghost var sum := 0;
      var somme_total := 0;
      var a := 0;
      assert transcnt[..a] == [];
      while a < |transcnt|
        invariant 0 <= a <= |transcnt|
        invariant Total(transcnt[..a]) == Some(sum)
        invariant somme_total == Wrap32(sum)
        invariant a < |transcnt| || a == 0 ==> output == out0
        invariant a == |transcnt| && a > 0 ==> output == out0 + [SumLine(somme_total)]
      {
        var max := |transcnt|;
        var b := ParseInt(AttributeOf(transcnt[a], "montant"));
        TotalNext(transcnt, a);
        if b.None? {
          assert Total(transcnt).None? && SumLines(transcnt) == [];
          return false;
        }
        assert Amount(transcnt[a]) == b;
        WrapAdd(sum, b.value);
        sum := sum + b.value;
        somme_total := Wrap32(somme_total + b.value);
        assert Total(transcnt[..a + 1]) == Some(sum);
        assert somme_total == Wrap32(sum);
        if a + 1 == max {
          output := output + [SumLine(somme_total)];
        }
        a := a + 1;
      }
      assert transcnt[..a] == transcnt;
      assert Total(transcnt) == Some(sum);
      if a == 0 {
        assert SumLines(transcnt) == [] && output == out0;
      } else {
        assert SumLines(transcnt) == [SumLine(somme_total)];
      }
      ok := true;
    }

    /**
     * `main` on the document element `racine`: returns whether it ran to
     * the end (`false` when `parseInt` throws); the tree is only read.
     */
    method Run(racine: Node) returns (ok: bool)
      requires racine.Element?
      modifies this
      ensures var cs := ElementsByTagName(racine, "client");
        output == old(output) + Report(cs).0 && ok == Report(cs).1
    {
      var nl := ElementsByTagName(racine, "client");
      ok := PrintClients(nl);
    }

    /** `main`'s outer loop over the list `nl` of clients. */
    method PrintClients(nl: seq<Node>) returns (ok: bool)
      modifies this
      ensures output == old(output) + Report(nl).0
      ensures ok == Report(nl).1
    {
      ghost var out0 := output;
      ghost var printed: seq<string> := [];
      ghost var bs := Blocks(nl);
      ghost var r := Chain(bs);
      var i := 0;
      assert bs[i..] == bs;
      assert [] + r.0 == r.0;
      while i < |nl|
        invariant 0 <= i <= |nl|
        invariant output == out0 + printed
        invariant r.0 == printed + Chain(bs[i..]).0
        invariant r.1 == Chain(bs[i..]).1
      {
        var client := nl[i];
        assert bs[i] == ClientOutcome(client);
        ghost var before := printed;
        var done := PrintClient(client);
        ChainNext(bs, i, before);
        printed := printed + bs[i].0;
        Associative(out0, before, bs[i].0);
        if !done {
          assert r == Report(nl) && r.0 == printed && !r.1;
          return false;
        }
        i := i + 1;
      }
      assert bs[i..] == [] && printed + [] == printed;
      assert r == Report(nl) && r.0 == printed && r.1;
      ok := true;
    }
  }

  /**
   * `main`'s outer loop after the blocks before `i` printed `printed`:
   * block `i` either stops it or adds its lines and leaves the rest to come.
   */
  lemma ChainNext(bs: seq<(seq<string>, bool)>, i: int, printed: seq<string>)
    requires 0 <= i < |bs|
    requires Chain(bs).0 == printed + Chain(bs[i..]).0 && Chain(bs).1 == Chain(bs[i..]).1
    ensures !bs[i].1 ==> Chain(bs).0 == printed + bs[i].0 && !Chain(bs).1
    ensures bs[i].1 ==> Chain(bs).0 == (printed + bs[i].0) + Chain(bs[i + 1..]).0
    ensures bs[i].1 ==> Chain(bs).1 == Chain(bs[i + 1..]).1
  {
    assert bs[i..][0] == bs[i];
    assert bs[i..][1..] == bs[i + 1..];
    Associative(printed, bs[i].0, Chain(bs[i + 1..]).0);
  }

  /** A failing prefix makes the whole sum fail. */
  lemma {:induction false} TotalPrefixFails(ts: seq<Node>, n: nat)
    requires n <= |ts| && Total(ts[..n]).None?
    ensures Total(ts).None?
    decreases |ts| - n
  {
    if n < |ts| {
      assert ts[..n + 1][..n] == ts[..n];
      TotalPrefixFails(ts, n + 1);
    } else {
      assert ts[..n] == ts;
    }
  }
}
