/**
 * `modifier_encodage` (Java/modifierencodage.java, and the identical method
 * of ledevoir.java): reads a file line by line into one string, each line
 * followed by the platform line separator, and replaces every
 * `encoding="utf-8"` with `encoding="ISO-8859-1"`. Reading and writing the
 * file are left to the caller: the lines come in, the new content goes out.
 */
module ModifierEncodage {
  import opened Wrappers
  import opened Strings

  /** `ancien`: the 16-character declaration that is looked for. */
  const Ancien: string := "encoding=\"utf-8\""
  /** `nouveau`: the 21-character declaration written instead. */
  const Nouveau: string := "encoding=\"ISO-8859-1\""

  /** Every line followed by one separator, in order, the last line included. */
  function Joined(lines: seq<string>, sep: string): string
    decreases |lines|
  {
    if |lines| == 0 then "" else lines[0] + sep + Joined(lines[1..], sep)
  }

  /** The new content written back. */
  function Patched(lines: seq<string>, sep: string): string {
    ReplaceAll(Joined(lines, sep), Ancien, Nouveau)
  }

  lemma {:induction false} JoinedSnoc(lines: seq<string>, i: nat, sep: string)
    requires i < |lines|
    ensures Joined(lines[..i + 1], sep) == Joined(lines[..i], sep) + lines[i] + sep
    decreases i
  {
    if i > 0 {
      assert lines[..i + 1][1..] == lines[1..][..i];
      assert lines[..i][1..] == lines[1..][..i - 1];
      JoinedSnoc(lines[1..], i - 1, sep);
    } else {
      assert lines[..1][1..] == [];
    }
  }

  /**
   * `modifier_encodage` on the lines `readLine` returns, with `sep` for
   * `System.lineSeparator()`: the new content it writes back.
   */
  method ModifierEncodage(lines: seq<string>, sep: string) returns (newContent: string)
    ensures newContent == Patched(lines, sep)
  {
    var oldContent := "";
    var i := 0;
    while i < |lines|
      invariant 0 <= i <= |lines|
      invariant oldContent == Joined(lines[..i], sep)
    {
      JoinedSnoc(lines, i, sep);
      oldContent := oldContent + lines[i] + sep;
      i := i + 1;
    }
    assert lines[..i] == lines;
    newContent := ReplaceAll(oldContent, Ancien, Nouveau);
  }

  /**
   * The lines can be read back: splitting the content at a separator
   * character that no line holds gives the lines, then the empty text after
   * the last separator.
   */
  lemma {:induction false} JoinedFields(lines: seq<string>, c: char)
    requires forall k :: 0 <= k < |lines| ==> c !in lines[k]
    ensures Fields(Joined(lines, [c]), c) == lines + [""]
    decreases |lines|
  {
    var s := Joined(lines, [c]);
    if |lines| == 0 {
      assert IndexOfChar(s, c) == -1;
    } else {
      var l := lines[0];
      var rest := Joined(lines[1..], [c]);
      assert s == l + [c] + rest;
      FirstSeparator(l, c, rest);
      assert Fields(s, c) == [l] + Fields(rest, c);
      JoinedFields(lines[1..], c);
      Associative([l], lines[1..], [""]);
      assert lines == [l] + lines[1..];
    }
  }

  /** The first `c` of `l + [c] + rest` is the one after `l` when `l` holds none. */
  lemma FirstSeparator(l: string, c: char, rest: string)
    requires c !in l
    ensures IndexOfChar(l + [c] + rest, c) == |l|
    ensures (l + [c] + rest)[..|l|] == l
    ensures (l + [c] + rest)[|l| + 1..] == rest
  {
    var s := l + [c] + rest;
    assert s[|l|] == c;
    assert forall k :: 0 <= k < |l| ==> s[k] == l[k];
    IndexOfCharAt(s, c, |l|);
  }

  /** The pattern cannot overlap itself or the replacement. */
  lemma PatternIsIsolated()
    ensures RemovesPattern(Ancien, Nouveau)
  {
    assert Nouveau[..|Ancien|][10] == 'I' != Ancien[10];
  }

  /** Each occurrence adds 5 characters: `|nouveau| - |ancien|`. */
  lemma PatchedLength(lines: seq<string>, sep: string)
    ensures |Patched(lines, sep)| == |Joined(lines, sep)| + 5 * MatchCount(Joined(lines, sep), Ancien)
  {
    ReplaceAllLength(Joined(lines, sep), Ancien, Nouveau);
  }

  /** No `encoding="utf-8"` is left in the content written back. */
  lemma PatchedHasNoPattern(lines: seq<string>, sep: string)
    ensures !Contains(Patched(lines, sep), Ancien)
  {
    PatternIsIsolated();
    ReplaceAllRemovesPattern(Joined(lines, sep), Ancien, Nouveau);
  }

  /** A second replacement on the new content changes nothing. */
  lemma PatchIdempotent(lines: seq<string>, sep: string)
    ensures ReplaceAll(Patched(lines, sep), Ancien, Nouveau) == Patched(lines, sep)
  {
    PatchedHasNoPattern(lines, sep);
    ReplaceAllNoMatch(Patched(lines, sep), Ancien, Nouveau);
  }

  /** A line separator: `\n` or `\r\n`, or anything else made only of those two characters. */
  predicate IsLineSeparator(sep: string) {
    forall k :: 0 <= k < |sep| ==> sep[k] == '\n' || sep[k] == '\r'
  }

  /**
   * The match is case-sensitive and literal: an upper-case
   * `encoding="UTF-8"` or a single-quoted `encoding='utf-8'` declaration is
   * left as it is.
   */
  lemma OtherSpellingsKept(sep: string)
    requires IsLineSeparator(sep)
    ensures Patched(["encoding=\"UTF-8\""], sep) == "encoding=\"UTF-8\"" + sep
    ensures Patched(["encoding='utf-8'"], sep) == "encoding='utf-8'" + sep
  {
    Untouched("encoding=\"UTF-8\"", sep, 10);
    Untouched("encoding='utf-8'", sep, 9);
  }

  /** A line of the declaration's length that differs from it at `d`, followed by a separator, is left untouched. */
  lemma Untouched(line: string, sep: string, d: nat)
    requires |line| == |Ancien| && d < |line| && line[d] != Ancien[d]
    requires IsLineSeparator(sep)
    ensures Patched([line], sep) == line + sep
  {
    var s := line + sep;
    assert Joined([line], sep) == s by {
      assert [line][1..] == [];
    }
    assert [Ancien[|Ancien| - 1]][0] == '"';
    NotFollowedBySeparator(Ancien, line, sep, d);
    ReplaceAllNoMatch(s, Ancien, Nouveau);
  }

  /**
   * A pattern that holds no separator character occurs in `line + sep` only
   * where it fits in `line`, so only at 0, when `line` has its length.
   */
  lemma NotFollowedBySeparator(p: string, line: string, sep: string, d: nat)
    requires |line| == |p| && d < |line| && line[d] != p[d]
    requires IsLineSeparator(sep) && !IsLineSeparator([p[|p| - 1]])
    ensures !Contains(line + sep, p)
  {
    var s := line + sep;
    forall i | 0 <= i <= |s|
      ensures !IsPrefix(p, s[i..])
    {
      if i == 0 {
        assert s[i..][d] == line[d];
      } else if i + |p| <= |s| {
        assert s[i..][|p| - 1] == sep[i - 1];
      }
    }
    NoWitnessNoContains(s, p);
  }
}
