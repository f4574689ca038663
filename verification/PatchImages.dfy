/** The image a patch is applied to: a vector of lines that is searched and updated in place. */
module PatchImages {
  import opened Wrappers
  import opened TextLines

  /** Whether `pre` stands in the image from line `at` on. */
  predicate Matches(image: seq<string>, pre: seq<string>, at: nat) {
    at + |pre| <= |image| && image[at..at + |pre|] == pre
  }

  /** The image with the lines of `pre`, which stand at line `at`, replaced by those of `post`. */
  function Updated(image: seq<string>, pre: seq<string>, post: seq<string>, at: nat): seq<string>
    requires at + |pre| <= |image|
  {
    image[..at] + post + image[at + |pre|..]
  }

  class PatchImage {
    /** None is the null pointer that a grown vector is filled with. */
    var lines: seq<Option<string>>

    ghost predicate Valid()
      reads this
    {
      forall i :: 0 <= i < |lines| ==> lines[i].Some?
    }

    ghost function Contents(): (c: seq<string>)
      reads this
      requires Valid()
      ensures |c| == |lines| && forall i :: 0 <= i < |lines| ==> lines[i] == Some(c[i])
    {
      seq(|lines|, i requires 0 <= i < |lines| && Valid() reads this => lines[i].value)
    }

    /** Divides a text into its lines. */
    constructor FromString(text: string)
      ensures Valid() && Contents() == LinesOf(text)
    {
      lines := [];
      new;
      hide LinesOf;
      NoText();
      var start := 0;
      while start < |text|
        invariant start <= |text| && Valid()
        invariant Contents() + LinesOf(text[start..]) == LinesOf(text)
      {
        var end := start;
        while end < |text| && text[end] != '\n'
          invariant start <= end <= |text|
          invariant forall k :: start <= k < end ==> text[k] != '\n'
        {
          end := end + 1;
        }
        if end < |text| {
          end := end + 1;
        }
        ghost var before := Contents();
        LineStep(before, text, start, end);
        lines := lines + [Some(text[start..end])];
        assert Contents() == before + [text[start..end]];
        start := end;
      }
      assert text[start..] == "" && Contents() + [] == Contents();
    }

    /** The whole text again. */
    method Put() returns (text: string)
      requires Valid()
      ensures text == Concat(Contents())
    {
      text := "";
      for i := 0 to |lines|
        invariant text == Concat(Contents()[..i])
      {
        assert Contents()[..i + 1] == Contents()[..i] + [Contents()[i]];
        ConcatAppend(Contents()[..i], [Contents()[i]]);
        ConcatOne(Contents()[i]);
        text := text + lines[i].value;
      }
      assert Contents()[..|lines|] == Contents();
    }

    method MatchHunk(preimage: seq<string>, linenum: nat) returns (isMatch: bool)
      requires Valid()
      ensures isMatch == Matches(Contents(), preimage, linenum)
    {
      if |preimage| + linenum > |lines| {
        return false;
      }
      isMatch := true;
      var i := 0;
      while i < |preimage|
        invariant i <= |preimage|
        invariant isMatch && Contents()[linenum..linenum + i] == preimage[..i]
      {
        if lines[linenum + i].value != preimage[i] {
          assert Contents()[linenum..linenum + |preimage|][i] != preimage[i];
          return false;
        }
        assert Contents()[linenum..linenum + i + 1] == Contents()[linenum..linenum + i] + [Contents()[linenum + i]];
        i := i + 1;
      }
      assert preimage[..i] == preimage;
    }

    /** Looks for the preimage at the given line, or at the end when the image is not that long. */
    method FindHunkLinenum(preimage: seq<string>, linenum: nat) returns (isMatch: bool, found: nat)
      requires Valid()
      ensures found == (if linenum > |Contents()| then |Contents()| else linenum)
      ensures isMatch == Matches(Contents(), preimage, found)
    {
      found := linenum;
      if found > |lines| {
        found := |lines|;
      }
      isMatch := MatchHunk(preimage, found);
    }

    /** Inserts null lines where the postimage is longer, or takes lines out where it is shorter. */
    method MakeRoom(linenum: nat, m: nat, n: nat)
      requires linenum + m <= |lines|
      modifies this
      ensures lines == Resized(old(lines), linenum, m, n)
    {
      if n > m {
        lines := lines[..linenum] + seq(n - m, _ => None) + lines[linenum..];
      } else if m > n {
        lines := lines[..linenum] + lines[linenum + (m - n)..];
      }
    }

    /** Writes the postimage over what is there. */
    method Overwrite(linenum: nat, postimage: seq<string>)
      requires linenum + |postimage| <= |lines|
      modifies this
      ensures lines == old(lines)[..linenum] + Somes(postimage) + old(lines)[linenum + |postimage|..]
    {
      var i := 0;
      while i < |postimage|
        invariant i <= |postimage| && |lines| == |old(lines)|
        invariant forall k :: 0 <= k < |lines| ==>
                    lines[k] == if linenum <= k < linenum + i then Some(postimage[k - linenum]) else old(lines)[k]
      {
        lines := lines[linenum + i := Some(postimage[i])];
        i := i + 1;
      }
    }

    /** Makes room for the postimage, or closes it, and writes the postimage there. */
    method UpdateHunk(linenum: nat, preimage: seq<string>, postimage: seq<string>)
      requires Valid() && linenum + |preimage| <= |lines|
      modifies this
      ensures Valid() && Contents() == Updated(old(Contents()), preimage, postimage, linenum)
    {
      hide Resized;
      ghost var before, c := lines, Contents();
      LinesAre(c);
      ResizedLength(before, linenum, |preimage|, |postimage|);
      MakeRoom(linenum, |preimage|, |postimage|);
      Overwrite(linenum, postimage);
      UpdatedLines(c, preimage, postimage, linenum);
      ContentsAre(Updated(c, preimage, postimage, linenum));
    }

    lemma LinesAre(c: seq<string>)
      requires Valid() && Contents() == c
      ensures lines == Somes(c)
    {
    }

    lemma ContentsAre(c: seq<string>)
      requires lines == Somes(c)
      ensures Valid() && Contents() == c
    {
    }
  }

  function Somes(ls: seq<string>): (s: seq<Option<string>>)
    ensures |s| == |ls|
  {
    seq(|ls|, i requires 0 <= i < |ls| => Some(ls[i]))
  }

  /** The vector with room for `n` lines where there were `m`. */
  function Resized(lines: seq<Option<string>>, at: nat, m: nat, n: nat): seq<Option<string>>
    requires at + m <= |lines|
  {
    if n > m then lines[..at] + seq(n - m, _ => None) + lines[at..]
    else if m > n then lines[..at] + lines[at + (m - n)..]
    else lines
  }

  lemma ResizedLength(lines: seq<Option<string>>, at: nat, m: nat, n: nat)
    requires at + m <= |lines|
    ensures |Resized(lines, at, m, n)| == |lines| - m + n
  {
  }

  lemma UpdatedLines(c: seq<string>, pre: seq<string>, post: seq<string>, at: nat)
    requires at + |pre| <= |c|
    ensures var r := Resized(Somes(c), at, |pre|, |post|);
            && at + |post| <= |r|
            && r[..at] + Somes(post) + r[at + |post|..] == Somes(Updated(c, pre, post, at))
  {
    var r := Resized(Somes(c), at, |pre|, |post|);
    assert r[..at] == Somes(c[..at]);
    assert r[at + |post|..] == Somes(c[at + |pre|..]);
  }

  /** The next line is the text up to the next newline, or up to the end. */
  lemma LineStep(before: seq<string>, text: string, start: nat, end: nat)
    requires start < end <= |text| && (forall k :: start <= k < end - 1 ==> text[k] != '\n')
    requires end < |text| ==> text[end - 1] == '\n'
    ensures before + LinesOf(text[start..]) == before + [text[start..end]] + LinesOf(text[end..])
  {
    hide LinesOf;
    var line, rest := text[start..end], text[end..];
    assert text[start..] == line + rest;
    FirstLine(line, rest);
    assert before + ([line] + LinesOf(rest)) == before + [line] + LinesOf(rest);
  }

  lemma ConcatOne(l: string)
    ensures Concat([l]) == l
  {
    assert [l][1..] == [];
  }
}
