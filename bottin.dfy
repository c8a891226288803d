/**
 * Bottin.java: a telephone directory kept as the child list of the root
 * element of bottin.xml, each entry an element with `nom` and `telephone`
 * attributes. The command in `args[0]` deletes (`efface`), looks up
 * (`cherche`) or sets or inserts (`ajoute`) entries by `nom`.
 */
module Bottin {
  import opened Wrappers
  import opened Dom

  /** An entry the commands act on: any element child whose `nom` is `name`, whatever its tag. */
  predicate Matches(n: Node, name: string) {
    n.Element? && GetAttribute(n, "nom") == name
  }

  predicate AnyMatch(s: seq<Node>, name: string) {
    exists k :: 0 <= k < |s| && Matches(s[k], name)
  }

  predicate HasElement(s: seq<Node>) {
    exists k :: 0 <= k < |s| && s[k].Element?
  }

  // ---------------------------------------------------------------------------
  // efface
  // ---------------------------------------------------------------------------

  /**
   * `efface` as written: an index walk over the live child list. Removing the
   * child at index k shifts its successor into slot k, and the index then
   * moves past it, so the successor of every removed child is kept unexamined.
   */
  function EffaceLive(s: seq<Node>, name: string): seq<Node>
    decreases |s|
  {
    if |s| == 0 then []
    else if Matches(s[0], name) then (if |s| == 1 then [] else [s[1]] + EffaceLive(s[2..], name))
    else [s[0]] + EffaceLive(s[1..], name)
  }

  /** What `efface` evidently means: every matching child removed, the others kept in order. */
  function EffaceAll(s: seq<Node>, name: string): (r: seq<Node>)
    ensures forall k :: 0 <= k < |r| ==> !Matches(r[k], name)
    ensures forall k :: 0 <= k < |s| && !Matches(s[k], name) ==> s[k] in r
    ensures forall k :: 0 <= k < |r| ==> r[k] in s
  {
    if |s| == 0 then []
    else if Matches(s[0], name) then EffaceAll(s[1..], name)
    else [s[0]] + EffaceAll(s[1..], name)
  }

  /** `a` is `b` with some elements left out, the rest in their order. */
  predicate Subsequence<T(==)>(a: seq<T>, b: seq<T>)
    decreases |b|
  {
    if |a| == 0 then true
    else if |b| == 0 then false
    else (a[0] == b[0] && Subsequence(a[1..], b[1..])) || Subsequence(a, b[1..])
  }

  lemma {:induction false} SubsequenceCons<T>(x: T, a: seq<T>, b: seq<T>)
    requires Subsequence(a, b)
    ensures Subsequence([x] + a, [x] + b)
  {
    assert ([x] + a)[1..] == a;
    assert ([x] + b)[1..] == b;
  }

  lemma {:induction false} SubsequenceSkip<T>(a: seq<T>, x: T, b: seq<T>)
    requires Subsequence(a, b)
    ensures Subsequence(a, [x] + b)
  {
    assert ([x] + b)[1..] == b;
  }

  /** `efface` adds nothing and keeps the surviving children in their order. */
  lemma {:induction false} EffaceLiveSubsequence(s: seq<Node>, name: string)
    ensures Subsequence(EffaceLive(s, name), s)
    decreases |s|
  {
    if |s| == 0 {
    } else if Matches(s[0], name) {
      if |s| > 1 {
        EffaceLiveSubsequence(s[2..], name);
        SubsequenceCons(s[1], EffaceLive(s[2..], name), s[2..]);
        assert s[1..] == [s[1]] + s[2..];
        SubsequenceSkip([s[1]] + EffaceLive(s[2..], name), s[0], s[1..]);
        assert s == [s[0]] + s[1..];
      } else {
        assert Subsequence([], s);
      }
    } else {
      EffaceLiveSubsequence(s[1..], name);
      SubsequenceCons(s[0], EffaceLive(s[1..], name), s[1..]);
      assert s == [s[0]] + s[1..];
    }
  }

  /** `efface` removes only matching children: the non-matching ones all survive, in order. */
  lemma {:induction false} EffaceLiveKeepsOthers(s: seq<Node>, name: string)
    ensures EffaceAll(EffaceLive(s, name), name) == EffaceAll(s, name)
    decreases |s|
  {
    if |s| == 0 {
    } else if Matches(s[0], name) {
      if |s| > 1 {
        EffaceLiveKeepsOthers(s[2..], name);
        var t := EffaceLive(s[2..], name);
        assert ([s[1]] + t)[1..] == t;
        assert s[1..][1..] == s[2..];
      }
    } else {
      EffaceLiveKeepsOthers(s[1..], name);
      var t := EffaceLive(s[1..], name);
      assert ([s[0]] + t)[1..] == t;
    }
  }

  predicate NoAdjacentMatches(s: seq<Node>, name: string) {
    forall k :: 0 <= k < |s| - 1 ==> !(Matches(s[k], name) && Matches(s[k + 1], name))
  }

  /** When no two matching children are neighbours, the live walk removes every match. */
  lemma {:induction false} EffaceLiveWithoutNeighbours(s: seq<Node>, name: string)
    requires NoAdjacentMatches(s, name)
    ensures EffaceLive(s, name) == EffaceAll(s, name)
    decreases |s|
  {
    if |s| == 0 {
    } else if Matches(s[0], name) {
      if |s| > 1 {
        assert !Matches(s[1], name);
        var t := s[2..];
        forall k | 0 <= k < |t| - 1
          ensures !(Matches(t[k], name) && Matches(t[k + 1], name))
        {
          assert t[k] == s[k + 2] && t[k + 1] == s[k + 3];
        }
        EffaceLiveWithoutNeighbours(t, name);
        assert s[1..][1..] == s[2..];
      }
    } else {
      var t := s[1..];
      forall k | 0 <= k < |t| - 1
        ensures !(Matches(t[k], name) && Matches(t[k + 1], name))
      {
        assert t[k] == s[k + 1] && t[k + 1] == s[k + 2];
      }
      EffaceLiveWithoutNeighbours(t, name);
    }
  }

  /**
   * The result `efface` is heading for, once the live walk stands at index
   * `k` of the current list `c`: the examined part, then the rest walked.
   */
  function Walked(c: seq<Node>, k: nat, name: string): seq<Node> {
    var j := if k <= |c| then k else |c|;
    c[..j] + EffaceLive(c[j..], name)
  }

  lemma EffaceStepKeep(c: seq<Node>, k: nat, name: string)
    requires k < |c| && !Matches(c[k], name)
    ensures Walked(c, k, name) == Walked(c, k + 1, name)
  {
    assert c[k..][1..] == c[k + 1..];
    assert c[..k + 1] == c[..k] + [c[k]];
  }

  lemma EffaceStepRemove(c: seq<Node>, k: nat, name: string)
    requires k < |c| && Matches(c[k], name)
    ensures Walked(c, k, name) == Walked(c[..k] + c[k + 1..], k + 1, name)
  {
    var d := c[..k] + c[k + 1..];
    assert c[k..][0] == c[k];
    if k + 1 < |c| {
      assert c[k..][2..] == c[k + 2..];
      assert c[k..][1] == c[k + 1];
      assert d[..k + 1] == c[..k] + [c[k + 1]];
      assert d[k + 1..] == c[k + 2..];
    } else {
      assert d == c[..k];
    }
  }

  /** Two neighbouring entries with the same `nom`: `efface` removes the first and keeps the second. */
  lemma EffaceLiveSkipsNeighbour(name: string)
    ensures var p := Element("personne", map["nom" := name], []);
      EffaceLive([p, p], name) == [p] && EffaceAll([p, p], name) == []
  {
    var p := Element("personne", map["nom" := name], []);
    assert Matches(p, name);
    assert [p, p][1..] == [p];
    assert [p][1..] == [];
    assert EffaceAll([p][1..], name) == [];
    assert EffaceAll([p], name) == [];
  }

  // ---------------------------------------------------------------------------
  // cherche
  // ---------------------------------------------------------------------------

  /** The `telephone` of every matching child, in document order. */
  function PhonesOf(s: seq<Node>, name: string): (r: seq<string>)
    ensures |r| <= |s|
    ensures |r| > 0 <==> AnyMatch(s, name)
  {
    if |s| == 0 then []
    else
      var rest := PhonesOf(s[..|s| - 1], name);
      assert forall k :: 0 <= k < |s| - 1 ==> s[..|s| - 1][k] == s[k];
      if Matches(s[|s| - 1], name) then rest + [GetAttribute(s[|s| - 1], "telephone")] else rest
  }

  // ---------------------------------------------------------------------------
  // ajoute
  // ---------------------------------------------------------------------------

  function SetPhone(n: Node, name: string, phone: string): Node {
    if Matches(n, name) then SetAttribute(n, "telephone", phone) else n
  }

  function SetPhones(s: seq<Node>, name: string, phone: string): (r: seq<Node>)
    ensures |r| == |s|
  {
    seq(|s|, k requires 0 <= k < |s| => SetPhone(s[k], name, phone))
  }

  /** The entry `ajoute` appends when no child matches. */
  function Personne(name: string, phone: string): Node {
    Element("personne", map["nom" := name, "telephone" := phone], [])
  }

  /**
   * `ajoute name phone`: sets `telephone` on every matching child; when none
   * matched, appends one new `personne` entry.
   */
  function AjouteSpec(s: seq<Node>, name: string, phone: string): seq<Node> {
    if AnyMatch(s, name) then SetPhones(s, name, phone) else s + [Personne(name, phone)]
  }

  /** `ajoute` keeps the number of children when something matched, and otherwise adds exactly one last child. */
  lemma AjouteShape(s: seq<Node>, name: string, phone: string)
    ensures AnyMatch(s, name) ==> |AjouteSpec(s, name, phone)| == |s|
    ensures !AnyMatch(s, name) ==>
      AjouteSpec(s, name, phone) == s + [Personne(name, phone)] && Matches(Personne(name, phone), name)
    ensures forall k :: 0 <= k < |s| && !Matches(s[k], name) ==> AjouteSpec(s, name, phone)[k] == s[k]
  {
  }

  /** After `ajoute`, a matching child exists and `cherche` would print `phone` for each one. */
  lemma ChercheAfterAjoute(s: seq<Node>, name: string, phone: string)
    ensures var t := AjouteSpec(s, name, phone);
      AnyMatch(t, name) && forall k :: 0 <= k < |PhonesOf(t, name)| ==> PhonesOf(t, name)[k] == phone
  {
    var t := AjouteSpec(s, name, phone);
    assert forall k :: 0 <= k < |t| && Matches(t[k], name) ==> GetAttribute(t[k], "telephone") == phone by {
      if AnyMatch(s, name) {
        assert forall k :: 0 <= k < |s| && !Matches(s[k], name) ==> t[k] == s[k];
      }
    }
    PhonesAllEqual(t, name, phone);
    if !AnyMatch(s, name) {
      assert Matches(t[|s|], name);
    } else {
      var k :| 0 <= k < |s| && Matches(s[k], name);
      assert Matches(t[k], name);
    }
  }

  /** When every matching child has `telephone` equal to `phone`, `cherche` prints only `phone`. */
  lemma {:induction false} PhonesAllEqual(t: seq<Node>, name: string, phone: string)
    requires forall k :: 0 <= k < |t| && Matches(t[k], name) ==> GetAttribute(t[k], "telephone") == phone
    ensures forall k :: 0 <= k < |PhonesOf(t, name)| ==> PhonesOf(t, name)[k] == phone
    decreases |t|
  {
    if |t| > 0 {
      var u := t[..|t| - 1];
      assert forall k :: 0 <= k < |u| ==> u[k] == t[k];
      PhonesAllEqual(u, name, phone);
    }
  }

  /** A second `ajoute` with the same arguments leaves the directory as the first one did. */
  lemma AjouteIdempotent(s: seq<Node>, name: string, phone: string)
    ensures AjouteSpec(AjouteSpec(s, name, phone), name, phone) == AjouteSpec(s, name, phone)
  {
    var t := AjouteSpec(s, name, phone);
    if AnyMatch(s, name) {
      var k :| 0 <= k < |s| && Matches(s[k], name);
      assert Matches(t[k], name);
    } else {
      assert Matches(t[|s|], name);
    }
    assert AnyMatch(t, name);
    assert forall k :: 0 <= k < |t| ==> SetPhone(t[k], name, phone) == t[k];
  }

  // ---------------------------------------------------------------------------
  // The program
  // ---------------------------------------------------------------------------

  /**
   * `main` runs without an exception: `args[0]` exists, `efface` and
   * `cherche` read `args[1]` at the first element child, and `ajoute`
   * always reads `args[1]` and `args[2]`.
   */
  predicate RunSucceeds(s: seq<Node>, args: seq<string>) {
    && |args| > 0
    && ((args[0] == "efface" || args[0] == "cherche") ==> |args| > 1 || !HasElement(s))
    && (args[0] == "ajoute" ==> |args| > 2)
  }

  const MessageA := "Vous avez entrer a comme paramètre!"

  /** The state of bottin.xml (the root's child list) and the console. */
  class Directory {
    var children: seq<Node>
    var output: seq<string>

    constructor(children: seq<Node>)
      ensures this.children == children && output == []
    {
      this.children := children;
      output := [];
    }

    /** `efface name`. */
    method Efface(name: string)
      modifies this
      ensures children == EffaceLive(old(children), name)
      ensures output == old(output)
    {
      var k := 0;
      while k < |children|
        invariant 0 <= k <= |children| + 1
        invariant EffaceLive(old(children), name) == Walked(children, k, name)
        invariant output == old(output)
        decreases |children| + 1 - k
      {
        if children[k].Element? && GetAttribute(children[k], "nom") == name {
          EffaceStepRemove(children, k, name);
          children := children[..k] + children[k + 1..];
        } else {
          EffaceStepKeep(children, k, name);
        }
        k := k + 1;
      }
    }

    /** `cherche name`: prints the matching telephones; the tree is unchanged. */
    method Cherche(name: string)
      modifies this
      ensures children == old(children)
      ensures output == old(output) + PhonesOf(children, name)
    {
      var k := 0;
      while k < |children|
        invariant 0 <= k <= |children|
        invariant children == old(children)
        invariant output == old(output) + PhonesOf(children[..k], name)
      {
        assert children[..k + 1][..k] == children[..k];
        if children[k].Element? && GetAttribute(children[k], "nom") == name {
          output := output + [GetAttribute(children[k], "telephone")];
        }
        k := k + 1;
      }
      assert children[..k] == children;
    }

    /** `ajoute name phone`. */
    method Ajoute(name: string, phone: string)
      modifies this
      ensures children == AjouteSpec(old(children), name, phone)
      ensures output == old(output)
    {
      var ajout := false;
      var k := 0;
      while k < |children|
        invariant 0 <= k <= |children| == |old(children)|
        invariant children[..k] == SetPhones(old(children), name, phone)[..k]
        invariant children[k..] == old(children)[k..]
        invariant ajout == AnyMatch(old(children)[..k], name)
        invariant output == old(output)
      {
        assert children[k] == old(children)[k];
        assert forall i :: 0 <= i < k ==> old(children)[..k + 1][i] == old(children)[..k][i];
        assert old(children)[..k + 1][k] == old(children)[k];
        if children[k].Element? && GetAttribute(children[k], "nom") == name {
          children := children[k := SetAttribute(children[k], "telephone", phone)];
          ajout := true;
        }
        k := k + 1;
      }
      assert old(children)[..k] == old(children);
      assert children == children[..k];
      if !ajout {
        var p := Element("personne", map[], []);
        p := SetAttribute(p, "nom", name);
        p := SetAttribute(p, "telephone", phone);
        assert p == Personne(name, phone);
        children := children + [p];
      }
    }

    /**
     * `main args`: runs the command; `a` prints a message; any other first
     * argument changes nothing. The file is rewritten (`ok`) unless an
     * argument was missing, in which case nothing changes.
     */
    method Run(args: seq<string>) returns (ok: bool)
      modifies this
      ensures ok == RunSucceeds(old(children), args)
      ensures !ok ==> children == old(children) && output == old(output)
      ensures ok && args[0] == "efface" ==>
        output == old(output) &&
        children == (if |args| > 1 then EffaceLive(old(children), args[1]) else old(children))
      ensures ok && args[0] == "a" ==> children == old(children) && output == old(output) + [MessageA]
      ensures ok && args[0] == "cherche" ==>
        children == old(children) &&
        output == old(output) + (if |args| > 1 then PhonesOf(children, args[1]) else [])
      ensures ok && args[0] == "ajoute" ==> children == AjouteSpec(old(children), args[1], args[2]) && output == old(output)
      ensures ok && args[0] !in {"efface", "a", "cherche", "ajoute"} ==> children == old(children) && output == old(output)
    {
      if |args| == 0 {
        return false;
      }
      if args[0] == "efface" {
        if |args| < 2 {
          ok := !HasElement(children);
          return;
        }
        Efface(args[1]);
      } else if args[0] == "a" {
        output := output + [MessageA];
      } else if args[0] == "cherche" {
        if |args| < 2 {
          ok := !HasElement(children);
          return;
        }
        Cherche(args[1]);
      } else if args[0] == "ajoute" {
        if |args| < 3 {
          return false;
        }
        Ajoute(args[1], args[2]);
      }
      ok := true;
    }
  }
}
