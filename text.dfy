/**
  A model of `str::lines` as used on the compiler's banner: the text is cut at
  every '\n', the pieces carry no '\n', and a final '\n' does not start an
  extra empty line.
 */
module Text {

  /** Index of the first '\n' in `s`, or `|s|` when there is none. */
  function NewlineIndex(s: string): (k: nat)
    ensures k <= |s|
    ensures k < |s| ==> s[k] == '\n'
    ensures forall j :: 0 <= j < k ==> s[j] != '\n'
  {
    if s == [] || s[0] == '\n' then 0 else 1 + NewlineIndex(s[1..])
  }

  predicate NoNewlines(ls: seq<string>) {
    forall i :: 0 <= i < |ls| ==> '\n' !in ls[i]
  }

  /** The lines of `s`, in order. */
  function Lines(s: string): (ls: seq<string>)
    ensures NoNewlines(ls)
    ensures s == [] <==> ls == []
    decreases |s|
  {
    if s == [] then []
    else
      var k := NewlineIndex(s);
      if k == |s| then [s] else [s[..k]] + Lines(s[k + 1..])
  }

  /** Every line followed by its terminator. */
  function Unlines(ls: seq<string>): string {
    if ls == [] then [] else ls[0] + "\n" + Unlines(ls[1..])
  }

  /** Joining the lines back gives the text, with a terminator added to an unterminated last line. */
  lemma {:induction false} UnlinesLines(s: string)
    ensures Unlines(Lines(s)) == Terminated(s)
    decreases |s|
  {
    if s != [] {
      var k := NewlineIndex(s);
      if k == |s| {
        assert Lines(s) == [s];
        assert Unlines([s]) == s + "\n" + Unlines([]);
      } else {
        var head, rest := s[..k], s[k + 1..];
        assert s == head + "\n" + rest;
        var ls := Lines(rest);
        assert Lines(s) == [head] + ls;
        assert ([head] + ls)[1..] == ls;
        calc {
          Unlines(Lines(s));
          head + "\n" + Unlines(ls);
          { UnlinesLines(rest); }
          head + "\n" + Terminated(rest);
          { TerminatedAfterLine(head, rest); }
          Terminated(s);
        }
      }
    }
  }

  /** `s` with a '\n' appended unless it is empty or already ends in one. */
  function Terminated(s: string): string {
    if s == [] || s[|s| - 1] == '\n' then s else s + "\n"
  }

  lemma TerminatedAfterLine(head: string, rest: string)
    ensures Terminated(head + "\n" + rest) == head + "\n" + Terminated(rest)
  {
    if rest != [] {
      var s := head + "\n" + rest;
      assert s[|s| - 1] == rest[|rest| - 1];
    }
  }

  lemma NewlineIndexAfter(a: string, b: string)
    requires '\n' !in a
    ensures NewlineIndex(a + "\n" + b) == |a|
  {
    var s := a + "\n" + b;
    var k := NewlineIndex(s);
    assert s[|a|] == '\n';
  }

  /** Splitting text made of newline-free lines gives those lines back. */
  lemma {:induction false} LinesUnlines(ls: seq<string>)
    requires NoNewlines(ls)
    ensures Lines(Unlines(ls)) == ls
  {
    if ls != [] {
      var s := Unlines(ls);
      var rest := Unlines(ls[1..]);
      assert '\n' !in ls[0];
      assert s == ls[0] + "\n" + rest;
      NewlineIndexAfter(ls[0], rest);
      assert s[..|ls[0]|] == ls[0];
      assert s[|ls[0]| + 1..] == rest;
      assert NoNewlines(ls[1..]) by {
        forall i | 0 <= i < |ls[1..]| ensures '\n' !in ls[1..][i] {
          assert ls[1..][i] == ls[i + 1];
        }
      }
      LinesUnlines(ls[1..]);
    }
  }
}
