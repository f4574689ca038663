/** Dividing a text into lines and putting it together again. */
module TextLines {

  // ----- lines -----

  /** One line of the source after the other, each with its newline. */
  function LinesOf(s: string): (ls: seq<string>)
    decreases |s|
  {
    if s == [] then [] else [s[..LineEnd(s)]] + LinesOf(s[LineEnd(s)..])
  }

  /** Where the first line ends: after the first newline, or at the end. */
  function LineEnd(s: string): (n: nat)
    requires s != []
    ensures 0 < n <= |s| && (n < |s| ==> s[n - 1] == '\n')
    ensures forall k :: 0 <= k < n - 1 ==> s[k] != '\n'
  {
    if s[0] == '\n' || |s| == 1 then 1 else 1 + LineEnd(s[1..])
  }

  function Concat(ls: seq<string>): string {
    if ls == [] then "" else ls[0] + Concat(ls[1..])
  }

  /** The line without the newline at its end. */
  function Chomp(l: string): string {
    if l != "" && l[|l| - 1] == '\n' then l[..|l| - 1] else l
  }

  /** Every line ends in its only newline, except that the last one may have none. */
  ghost predicate AreLines(ls: seq<string>) {
    forall i :: 0 <= i < |ls| ==>
      && ls[i] != ""
      && (forall k :: 0 <= k < |ls[i]| - 1 ==> ls[i][k] != '\n')
      && (i < |ls| - 1 ==> ls[i][|ls[i]| - 1] == '\n')
  }

  lemma {:induction false} LinesOfText(s: string)
    ensures Concat(LinesOf(s)) == s && AreLines(LinesOf(s))
    decreases |s|
  {
    hide AreLines, LineEnd, Concat;
    if s == [] {
      NoLines();
    } else {
      var n := LineEnd(s);
      var l, rest := s[..n], s[n..];
      assert LinesOf(s) == [l] + LinesOf(rest);
      LinesOfText(rest);
      if rest == "" { NoText(); }
      AreLinesAdd(l, LinesOf(rest));
      ConcatCons(l, LinesOf(rest));
    }
  }

  lemma ConcatCons(l: string, ls: seq<string>)
    ensures Concat([l] + ls) == l + Concat(ls)
  {
  }

  lemma NoLines()
    ensures AreLines([]) && Concat([]) == ""
  {
  }

  lemma NoText()
    ensures LinesOf("") == []
  {
  }

  lemma AreLinesAdd(l: string, ls: seq<string>)
    requires AreLines(ls) && l != "" && (forall k :: 0 <= k < |l| - 1 ==> l[k] != '\n')
             && (ls != [] ==> l[|l| - 1] == '\n')
    ensures AreLines([l] + ls)
  {
  }

  lemma AreLinesTail(ls: seq<string>)
    requires AreLines(ls) && ls != []
    ensures AreLines(ls[1..])
  {
    assert forall i :: 0 <= i < |ls| - 1 ==> ls[1..][i] == ls[i + 1];
  }

  lemma {:induction false} LineEndIs(l: string, rest: string)
    requires l != "" && (forall k :: 0 <= k < |l| - 1 ==> l[k] != '\n') && (rest != "" ==> l[|l| - 1] == '\n')
    ensures LineEnd(l + rest) == |l|
  {
    if |l| > 1 {
      LineEndIs(l[1..], rest);
      assert (l + rest)[1..] == l[1..] + rest;
    }
  }

  lemma FirstLine(l: string, rest: string)
    requires l != "" && (forall k :: 0 <= k < |l| - 1 ==> l[k] != '\n') && (rest != "" ==> l[|l| - 1] == '\n')
    ensures LinesOf(l + rest) == [l] + LinesOf(rest)
  {
    LineEndIs(l, rest);
    assert (l + rest)[..|l|] == l && (l + rest)[|l|..] == rest;
  }

  /** There is only one way to divide a text into lines. */
  lemma {:induction false} LinesAreUnique(ls: seq<string>)
    requires AreLines(ls)
    ensures LinesOf(Concat(ls)) == ls
  {
    if ls != [] {
      AreLinesTail(ls);
      LinesAreUnique(ls[1..]);
      FirstLine(ls[0], Concat(ls[1..]));
    }
  }

  lemma {:induction false} ConcatAppend(a: seq<string>, b: seq<string>)
    ensures Concat(a + b) == Concat(a) + Concat(b)
  {
    if a == [] {
      assert a + b == b;
    } else {
      assert (a + b)[1..] == a[1..] + b;
      ConcatAppend(a[1..], b);
    }
  }
}
