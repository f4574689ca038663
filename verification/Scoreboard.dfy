/** The blame scoreboard: a doubly linked list of line groups that is split and merged in place. */
module Scoreboard {
  import opened Wrappers
  import opened BlameLines

  class Entry {
    var prev: Entry?
    var next: Entry?
    var lno: nat
    var numLines: nat
    var suspect: Origin
    var guilty: bool
    var isBoundary: bool
    var sLno: nat
    var score: nat

    constructor (part: Part)
      requires part.suspect.Some?
      ensures Value() == part.Group() && prev == null && next == null
    {
      prev, next, score, isBoundary, guilty := null, null, 0, false, false;
      lno, numLines, suspect, sLno := part.lno, part.numLines, part.suspect.value, part.sLno;
    }

    ghost function Value(): Group
      reads `lno, `numLines, `suspect, `guilty, `sLno
    {
      Group(lno, numLines, suspect, guilty, sLno)
    }
  }

  /** An entry on the stack that a split is prepared in; a null suspect marks a part that is not there. */
  datatype Part = Part(suspect: Option<Origin>, lno: nat, sLno: nat, numLines: nat) {
    function Group(): Group
      requires suspect.Some?
    {
      BlameLines.Group(lno, numLines, suspect.value, false, sLno)
    }
  }

  const NO_PART := Part(None, 0, 0, 0)

  function Link(es: seq<Entry>, i: int): Entry? {
    if 0 <= i < |es| then es[i] else null
  }

  function Inserted<T>(s: seq<T>, p: nat, x: T): seq<T>
    requires p <= |s|
  {
    s[..p] + [x] + s[p..]
  }

  lemma LinkIs(es: seq<Entry>, i: int)
    ensures 0 <= i < |es| ==> Link(es, i) == es[i]
    ensures !(0 <= i < |es|) ==> Link(es, i) == null
  {
  }

  lemma InsertedLinks(es: seq<Entry>, p: nat, e: Entry)
    requires p <= |es|
    ensures forall i {:trigger Link(Inserted(es, p, e), i)} ::
              Link(Inserted(es, p, e), i) == if i < p then Link(es, i) else if i == p then e else Link(es, i - 1)
  {
  }

  lemma RemovedLinks(es: seq<Entry>, i: nat)
    requires i + 1 < |es|
    ensures var s := es[..i + 1] + es[i + 2..];
            && (forall k {:trigger Link(s, k)} :: Link(s, k) == if k <= i then Link(es, k) else Link(es, k + 1))
            && (Distinct(es) ==> Distinct(s))
  {
  }

  ghost function Values(es: seq<Entry>): (gs: seq<Group>)
    reads es
    ensures |gs| == |es| && forall i :: 0 <= i < |es| ==> gs[i] == es[i].Value()
  {
    seq(|es|, i requires 0 <= i < |es| reads es => es[i].Value())
  }

  /** Divides the lines of `e` into those before the chunk, those in it and those after it. */
  method SplitOverlap(split: array<Part>, e: Entry, c: Chunk)
    requires split.Length == 3 && split[..] == [NO_PART, NO_PART, NO_PART]
    requires Overlaps(e.Value(), c) && c.tlno <= c.same && e.numLines > 0
    modifies split
    ensures c.tlno == c.same ==> split[1].suspect.None?
    ensures c.tlno < c.same ==>
              && split[1].suspect.Some? && split[1].Group() == Middle(e.Value(), c)
              && (if split[0].suspect.Some? then [split[0].Group()] else []) == Before(e.Value(), c)
              && (if split[2].suspect.Some? then [split[2].Group()] else []) == After(e.Value(), c)
  {
    if e.sLno < c.tlno {
      split[0] := Part(Some(e.suspect), e.lno, e.sLno, c.tlno - e.sLno);
      split[1] := split[1].(lno := e.lno + c.tlno - e.sLno, sLno := c.plno);
    } else {
      split[1] := split[1].(lno := e.lno, sLno := c.plno + (e.sLno - c.tlno));
    }
    var chunkEndLno;
    if c.same < e.sLno + e.numLines {
      split[2] := Part(Some(e.suspect), e.lno + (c.same - e.sLno), e.sLno + (c.same - e.sLno),
          e.sLno + e.numLines - c.same);
      chunkEndLno := split[2].lno;
    } else {
      chunkEndLno := e.lno + e.numLines;
    }
    split[1] := split[1].(numLines := chunkEndLno - split[1].lno);
    if split[1].numLines < 1 {
      return;
    }
    split[1] := split[1].(suspect := Some(c.parent));
  }

  ghost predicate Distinct(es: seq<Entry>) {
    forall i, j :: 0 <= i < j < |es| ==> es[i] != es[j]
  }

  lemma InsertedDistinct(es: seq<Entry>, p: nat, e: Entry)
    requires p <= |es| && Distinct(es) && e !in es
    ensures Distinct(Inserted(es, p, e)) && |Inserted(es, p, e)| == |es| + 1
  {
    var s := Inserted(es, p, e);
    forall i | 0 <= i < |s| ensures s[i] == if i < p then es[i] else if i == p then e else es[i - 1] {
    }
  }

  class Blame {
    var ent: Entry?
    var oldest: Option<CommitId>
    /** The names the file is known to have had. */
    var paths: set<string>
    ghost var entries: seq<Entry>
    ghost var repr: set<Entry>

    /** One entry: all lines from `lno` on are the newest commit's at first. */
    constructor (o: Origin, lno: nat, numLines: nat, oldest: Option<CommitId>)
      requires numLines > 0
      ensures Valid(lno) && fresh(repr) && this.oldest == oldest && paths == {o.path}
      ensures Blamed() == GroupLines(Group(lno, numLines, o, false, lno))
    {
      var e := new Entry(Part(Some(o), lno, lno, numLines));
      ent, this.oldest, paths := e, oldest, {o.path};
      entries, repr := [e], {e};
      new;
      assert Values(entries) == [e.Value()];
      LinesOne(e.Value());
    }

    ghost predicate Linked()
      reads this, repr, entries
    {
      && (forall i :: 0 <= i < |entries| ==> entries[i] in repr)
      && Distinct(entries)
      && ent == Link(entries, 0)
      && (forall i :: 0 <= i < |entries| ==>
          entries[i].prev == Link(entries, i - 1) && entries[i].next == Link(entries, i + 1))
    }

    /** Copies a part into an entry that stays where it is in the list. */
    method DupEntry(dst: Entry, src: Part)
      requires Linked() && src.suspect.Some? && dst in entries
      modifies dst
      ensures Linked() && dst.Value() == src.Group()
    {
      hide Link;
      dst.lno, dst.numLines, dst.suspect, dst.guilty, dst.sLno := src.lno, src.numLines, src.suspect.value, false,
          src.sLno;
      dst.isBoundary, dst.score := false, 0;
    }

    /** Links in `e` at position `p`, between `before` and what follows. */
    method LinkIn(e: Entry, before: Entry?, ghost p: nat)
      requires Linked() && e !in repr && p <= |entries| && before == Link(entries, p - 1)
      modifies this`ent, this`entries, this`repr, repr`prev, repr`next, e`prev, e`next
      ensures Linked() && entries == Inserted(old(entries), p, e) && repr == old(repr) + {e}
    {
      hide Linked, Distinct, Link;
      ghost var es := entries;
      AllLinks();
      LinkIs(es, p - 1);
      LinkIs(es, p);
      if p > 0 { OthersDiffer(p - 1); }
      if p < |es| { OthersDiffer(p); }
      e.prev := before;
      if before != null {
        e.next := before.next;
        before.next := e;
      } else {
        e.next := ent;
        ent := e;
      }
      assert e.next == Link(es, p) && (e.next != null ==> e.next != e);
      if e.next != null {
        e.next.prev := e;
      }
      entries, repr := Inserted(es, p, e), repr + {e};
      forall i | 0 <= i < |es| ensures es[i].next == if i == p - 1 then e else Link(es, i + 1) {
        if i != p - 1 {
          assert es[i] != before && es[i].next == old(es[i].next);
        }
      }
      forall i | 0 <= i < |es| ensures es[i].prev == if i == p then e else Link(es, i - 1) {
        if i != p {
          assert es[i] != e.next && es[i].prev == old(es[i].prev);
        }
      }
      InsertLinked(es, p, e);
    }

    /** The list after an insertion, seen from the list before it. */
    lemma InsertLinked(es: seq<Entry>, p: nat, e: Entry)
      requires p <= |es| && entries == Inserted(es, p, e) && e !in es && e in repr
      requires forall i :: 0 <= i < |es| ==> es[i] in repr
      requires Distinct(es)
      requires ent == if p == 0 then e else Link(es, 0)
      requires e.prev == Link(es, p - 1) && e.next == Link(es, p)
      requires forall i :: 0 <= i < |es| ==> es[i].next == if i == p - 1 then e else Link(es, i + 1)
      requires forall i :: 0 <= i < |es| ==> es[i].prev == if i == p then e else Link(es, i - 1)
      ensures Linked()
    {
      hide Link, Inserted, Distinct;
      InsertedLinks(es, p, e);
      InsertedDistinct(es, p, e);
      LinkIs(entries, 0);
      LinkIs(es, 0);
      forall i | 0 <= i < |entries|
        ensures entries[i] in repr && entries[i].prev == Link(entries, i - 1) && entries[i].next == Link(entries, i + 1)
      {
        LinkIs(entries, i);
        if i < p {
          LinkIs(es, i);
        } else if i > p {
          LinkIs(es, i - 1);
        }
      }
    }

    /** Links in an entry in front of the first one that is not below it. */
    method AddBlameEntry(e: Entry) returns (ghost p: nat)
      requires Linked() && e !in repr
      modifies this`ent, this`entries, this`repr, repr`prev, repr`next, e`prev, e`next
      ensures Linked() && repr == old(repr) + {e}
      ensures p <= |old(entries)| && entries == Inserted(old(entries), p, e)
      ensures forall i :: 0 <= i < p ==> old(entries)[i].lno < e.lno
      ensures p < |old(entries)| ==> e.lno <= old(entries)[p].lno
    {
      hide Linked, Link, Inserted;
      var prev: Entry? := null;
      var cur := ent;
      p := 0;
      AtStart();
      LinkIs(entries, -1);
      LinkIs(entries, 0);
      while cur != null && cur.lno < e.lno
        invariant p <= |entries|
        invariant cur == Link(entries, p) && prev == Link(entries, p - 1)
        invariant p < |entries| <==> cur != null
        invariant p < |entries| ==> cur == entries[p]
        invariant forall i :: 0 <= i < p ==> entries[i].lno < e.lno
        modifies {}
        decreases |entries| - p
      {
        AtEntry(p);
        LinkIs(entries, p + 1);
        prev := cur;
        cur := cur.next;
        p := p + 1;
      }
      LinkIn(e, prev, p);
    }

    /** Whether a part that starts at line `lno` belongs right after position `i`. */
    ghost predicate BelongsAfter(i: nat, lno: nat)
      requires i < |entries|
      reads this, repr, entries
    {
      && (forall k :: 0 <= k <= i ==> entries[k].lno < lno)
      && (i + 1 < |entries| ==> lno < entries[i + 1].lno)
    }

    /** Links in an entry that belongs right after position `i`. */
    method AddAfter(part: Part, ghost i: nat) returns (ghost e: Entry)
      requires Linked() && part.suspect.Some? && i < |entries| && BelongsAfter(i, part.lno)
      modifies this`ent, this`entries, this`repr, repr`prev, repr`next
      ensures Linked() && fresh(e) && repr == old(repr) + {e} && e.Value() == part.Group()
      ensures entries == old(entries)[..i + 1] + [e] + old(entries)[i + 1..]
    {
      var n := new Entry(part);
      ghost var p := AddBlameEntry(n);
      e := n;
    }

    /** The last part of a split is linked in first, and the middle one in front of it. */
    method AddTwoAfter(last: Part, middle: Part, ghost i: nat) returns (ghost e: Entry, ghost e': Entry)
      requires Linked() && last.suspect.Some? && middle.suspect.Some? && i < |entries|
      requires BelongsAfter(i, last.lno) && BelongsAfter(i, middle.lno) && middle.lno < last.lno
      modifies this`ent, this`entries, this`repr, repr`prev, repr`next
      ensures Linked() && fresh(e) && fresh(e') && repr == old(repr) + {e, e'} && e.Value() == middle.Group()
              && e'.Value() == last.Group()
      ensures entries == old(entries)[..i + 1] + [e, e'] + old(entries)[i + 1..]
    {
      hide Linked;
      ghost var es := entries;
      e' := AddAfter(last, i);
      SpliceParts(es, [e'], i + 1);
      e := AddAfter(middle, i);
      SpliceParts(es, [e, e'], i + 1);
    }

    lemma SpliceParts(es: seq<Entry>, added: seq<Entry>, n: nat)
      requires n <= |es|
      ensures var s := es[..n] + added + es[n..];
              && s[..n] == es[..n] && s[n..] == added + es[n..]
              && forall k :: 0 <= k < n ==> s[k] == es[k]
    {
    }

    /** The list is `es` with the group of entry `i` replaced by `pieces`; the rest of it, object by object, is as it
        was when the groups were `gs`. */
    ghost predicate Replaced(es: seq<Entry>, gs: seq<Group>, i: nat, pieces: seq<Group>)
      requires i < |es| == |gs| && pieces != []
      reads this, repr, entries
    {
      && |entries| == |es| + |pieces| - 1
      && entries[..i + 1] == es[..i + 1]
      && entries[i + |pieces|..] == es[i + 1..]
      && Values(entries) == gs[..i] + pieces + gs[i + 1..]
    }

    /** The list is `es` with `added` right after entry `i`, and that entry and the added ones hold the `pieces`. */
    ghost predicate Spliced(es: seq<Entry>, gs: seq<Group>, i: nat, added: seq<Entry>, pieces: seq<Group>)
      requires i < |es| == |gs|
      reads this, es, added
    {
      && |pieces| == |added| + 1
      && entries == es[..i + 1] + added + es[i + 1..]
      && es[i].Value() == pieces[0]
      && (forall k :: 0 <= k < |added| ==> added[k].Value() == pieces[k + 1])
      && (forall k :: 0 <= k < |es| && k != i ==> es[k].Value() == gs[k])
    }

    /** Reuses entry `i` for the first piece of its lines. */
    method ReuseEntry(first: Part, ghost i: nat, e: Entry)
      requires Linked() && first.suspect.Some? && i < |entries| && entries[i] == e
      modifies e
      ensures Linked() && Spliced(old(entries), old(Values(entries)), i, [], [first.Group()])
    {
      OthersDiffer(i);
      hide Linked, Spliced;
      ghost var gs := Values(entries);
      DupEntry(e, first);
      SplicedAlone(gs, i, first.Group());
    }

    lemma SplicedAlone(gs: seq<Group>, i: nat, g: Group)
      requires i < |entries| == |gs| && entries[i].Value() == g
      requires forall k :: 0 <= k < |entries| && k != i ==> entries[k].Value() == gs[k]
      ensures Spliced(entries, gs, i, [], [g])
    {
      assert entries == entries[..i + 1] + [] + entries[i + 1..];
    }

    /** Group `i` starts above the groups before it, and the next one starts where it ends. */
    ghost predicate Around(gs: seq<Group>, i: nat)
      requires i < |gs|
    {
      && (forall k :: 0 <= k < i ==> gs[k].lno < gs[i].lno)
      && (i + 1 < |gs| ==> gs[i + 1].lno == gs[i].lno + gs[i].numLines)
    }

    /** While the first part is all there is in the list, every other part belongs right after it. */
    lemma BelongsThere(gs: seq<Group>, i: nat, g: Group, lno: nat)
      requires i < |entries| == |gs| && Around(gs, i) && Spliced(entries, gs, i, [], [g])
      requires g.lno == gs[i].lno < lno < gs[i].lno + gs[i].numLines
      ensures BelongsAfter(i, lno)
    {
      assert forall k :: 0 <= k < |entries| && k != i ==> entries[k].lno == gs[k].lno;
    }

    method AddSecond(second: Part, ghost i: nat, ghost gs: seq<Group>, ghost g: Group) returns (ghost added: seq<Entry>)
      requires Linked() && second.suspect.Some? && i < |entries| == |gs| && Around(gs, i)
               && Spliced(entries, gs, i, [], [g])
      requires g.lno == gs[i].lno < second.lno < gs[i].lno + gs[i].numLines
      modifies this`ent, this`entries, this`repr, repr`prev, repr`next
      ensures Linked() && Spliced(old(entries), gs, i, added, [g, second.Group()]) && fresh(repr - old(repr))
    {
      BelongsThere(gs, i, g, second.lno);
      hide Linked, Around, BelongsAfter, Spliced;
      ghost var es := entries;
      SplicedIs(gs, i, g);
      ghost var e := AddAfter(second, i);
      added := [e];
      SplicedWith(es, gs, i, g, added, [second.Group()]);
    }

    method AddSecondAndThird(second: Part, third: Part, ghost i: nat, ghost gs: seq<Group>, ghost g: Group)
      returns (ghost added: seq<Entry>)
      requires Linked() && second.suspect.Some? && third.suspect.Some? && i < |entries| == |gs| && Around(gs, i)
      requires Spliced(entries, gs, i, [], [g])
               && g.lno == gs[i].lno < second.lno < third.lno < gs[i].lno + gs[i].numLines
      modifies this`ent, this`entries, this`repr, repr`prev, repr`next
      ensures Linked() && fresh(repr - old(repr))
      ensures Spliced(old(entries), gs, i, added, [g, second.Group(), third.Group()])
    {
      BelongsThere(gs, i, g, second.lno);
      BelongsThere(gs, i, g, third.lno);
      hide Linked, Around, BelongsAfter, Spliced, Entry.Value;
      ghost var es := entries;
      SplicedIs(gs, i, g);
      ghost var e, e' := AddTwoAfter(third, second, i);
      added := [e, e'];
      SplicedWith(es, gs, i, g, added, [second.Group(), third.Group()]);
    }

    lemma SplicedIs(gs: seq<Group>, i: nat, g: Group)
      requires i < |entries| == |gs| && Spliced(entries, gs, i, [], [g])
      ensures forall k :: 0 <= k < |entries| ==> entries[k].Value() == gs[i := g][k]
    {
    }

    lemma SplicedWith(es: seq<Entry>, gs: seq<Group>, i: nat, g: Group, added: seq<Entry>, pieces: seq<Group>)
      requires i < |es| == |gs| && entries == es[..i + 1] + added + es[i + 1..] && |added| == |pieces|
      requires forall k :: 0 <= k < |es| ==> es[k].Value() == gs[i := g][k]
      requires forall k :: 0 <= k < |added| ==> added[k].Value() == pieces[k]
      ensures Spliced(es, gs, i, added, [g] + pieces)
    {
    }

    /** The parts that are there, in order. */
    ghost function Parts(before: Part, middle: Part, after: Part): seq<Group>
      requires middle.suspect.Some?
    {
      (if before.suspect.Some? then [before.Group()] else []) + [middle.Group()]
        + (if after.suspect.Some? then [after.Group()] else [])
    }

    /** The parts start in order, the first where the group starts and the others before it ends. */
    ghost predicate Ordered(ps: seq<Group>, g: Group)
      requires |ps| > 0
    {
      && ps[0].lno == g.lno
      && (|ps| > 1 ==> ps[0].lno < ps[1].lno < g.lno + g.numLines)
      && (|ps| > 2 ==> ps[1].lno < ps[2].lno < g.lno + g.numLines)
    }

    /** Puts the parts of a split in the place of the entry they were split from. */
    method PutParts(before: Part, middle: Part, after: Part, e: Entry, ghost i: nat) returns (ghost added: seq<Entry>)
      requires Linked() && i < |entries| && entries[i] == e && e in repr && Around(Values(entries), i)
      requires middle.suspect.Some? && Ordered(Parts(before, middle, after), Values(entries)[i])
      modifies this`ent, this`entries, this`repr, repr
      ensures Linked() && fresh(repr - old(repr))
      ensures Spliced(old(entries), old(Values(entries)), i, added, Parts(before, middle, after))
    {
      hide Linked, Spliced, Around, Values;
      ghost var gs := Values(entries);
      added := [];
      if before.suspect.Some? && after.suspect.Some? {
        assert Parts(before, middle, after) == [before.Group(), middle.Group(), after.Group()];
        ReuseEntry(before, i, e);
        added := AddSecondAndThird(middle, after, i, gs, before.Group());
      } else if before.suspect.None? && after.suspect.None? {
        assert Parts(before, middle, after) == [middle.Group()];
        ReuseEntry(middle, i, e);
      } else if before.suspect.Some? {
        assert Parts(before, middle, after) == [before.Group(), middle.Group()];
        ReuseEntry(before, i, e);
        added := AddSecond(middle, i, gs, before.Group());
      } else {
        assert Parts(before, middle, after) == [middle.Group(), after.Group()];
        ReuseEntry(middle, i, e);
        added := AddSecond(after, i, gs, middle.Group());
      }
    }

    method SplitBlame(split: array<Part>, e: Entry, ghost first: nat, ghost i: nat, c: Chunk)
      requires Linked() && Contiguous(Values(entries), first) && i < |entries| && entries[i] == e
      requires split.Length == 3 && Overlaps(e.Value(), c) && c.tlno < c.same
      requires split[1].suspect.Some? && split[1].Group() == Middle(e.Value(), c)
      requires (if split[0].suspect.Some? then [split[0].Group()] else []) == Before(e.Value(), c)
      requires (if split[2].suspect.Some? then [split[2].Group()] else []) == After(e.Value(), c)
      modifies this`ent, this`entries, this`repr, repr
      ensures Linked() && Replaced(old(entries), old(Values(entries)), i, Pieces(old(e.Value()), c))
      ensures fresh(repr - old(repr))
    {
      ghost var es, gs := entries, Values(entries);
      SortedAround(gs, first, i);
      PieceOrder(e.Value(), c);
      OthersDiffer(i);
      hide Contiguous, Values, Middle, Before, After, Linked, Spliced, Replaced, Around;
      ghost var pieces := Pieces(e.Value(), c);
      assert pieces == Parts(split[0], split[1], split[2]);
      ghost var added := PutParts(split[0], split[1], split[2], e, i);
      ReplacedBy(es, gs, i, added, pieces);
    }

    lemma SpliceMembers(es: seq<Entry>, added: seq<Entry>, n: nat)
      requires n <= |es|
      ensures forall x :: x in es[..n] + added + es[n..] <==> x in es || x in added
    {
      assert es == es[..n] + es[n..];
    }

    lemma OthersDiffer(i: nat)
      requires Linked() && i < |entries|
      ensures entries[i] in repr
      ensures forall k {:trigger entries[k]} :: 0 <= k < |entries| && k != i ==> entries[k] != entries[i]
    {
    }

    lemma AllLinks()
      requires Linked()
      ensures Distinct(entries) && ent == Link(entries, 0)
      ensures forall k :: 0 <= k < |entries| ==> entries[k] in repr
      ensures forall k :: 0 <= k < |entries| ==>
              entries[k].prev == Link(entries, k - 1) && entries[k].next == Link(entries, k + 1)
    {
    }

    /** Where the parts of a split start. */
    lemma PieceOrder(g: Group, c: Chunk)
      requires Overlaps(g, c) && c.tlno < c.same && g.numLines > 0
      ensures Before(g, c) != [] ==> |Before(g, c)| == 1 && Before(g, c)[0].lno == g.lno < Middle(g, c).lno
      ensures Before(g, c) == [] ==> Middle(g, c).lno == g.lno
      ensures Middle(g, c).lno < g.lno + g.numLines
      ensures After(g, c) != [] ==> |After(g, c)| == 1 && Middle(g, c).lno < After(g, c)[0].lno < g.lno + g.numLines
      ensures Pieces(g, c) == Before(g, c) + [Middle(g, c)] + After(g, c)
    {
    }

    lemma ReplacedBy(es: seq<Entry>, gs: seq<Group>, i: nat, added: seq<Entry>, pieces: seq<Group>)
      requires i < |es| == |gs| && Spliced(es, gs, i, added, pieces)
      ensures Replaced(es, gs, i, pieces)
      ensures forall x :: x in entries ==> x in es || x in added
    {
      SpliceMembers(es, added, i + 1);
      SpliceAt(es, added, i + 1);
      SpliceGroups(gs, pieces, i);
      assert entries[..i + 1] == es[..i + 1] && entries[i + |pieces|..] == es[i + 1..];
      var want := gs[..i] + pieces + gs[i + 1..];
      forall k | 0 <= k < |entries| ensures entries[k].Value() == want[k] {
      }
      assert Values(entries) == want;
    }

    lemma SpliceAt(es: seq<Entry>, added: seq<Entry>, n: nat)
      requires n <= |es|
      ensures var s := es[..n] + added + es[n..];
              forall k :: 0 <= k < |s| ==>
                s[k] == if k < n then es[k] else if k < n + |added| then added[k - n] else es[k - |added|]
    {
    }

    lemma SpliceGroups(gs: seq<Group>, pieces: seq<Group>, i: nat)
      requires i < |gs| && pieces != []
      ensures var s := gs[..i] + pieces + gs[i + 1..];
              forall k :: 0 <= k < |s| ==>
                s[k] == if k < i then gs[k] else if k < i + |pieces| then pieces[k - i] else gs[k - |pieces| + 1]
    {
    }

    /** In a contiguous list, what is before a group starts below it and the next one starts where it ends. */
    lemma SortedAround(gs: seq<Group>, first: nat, i: nat)
      requires Contiguous(gs, first) && i < |gs|
      ensures Around(gs, i) && gs[i].numLines > 0
    {
      assert gs[i].numLines > 0;
      forall k | 0 <= k < i ensures gs[k].lno < gs[i].lno {
        ContiguousSorted(gs, first, k, i);
        assert gs[k].numLines > 0;
      }
      if i + 1 < |gs| {
        assert gs[i + 1].lno == gs[i].lno + gs[i].numLines;
      }
    }

    /** The groups of the list follow one another from line `first` on. */
    ghost predicate Valid(first: nat)
      reads this, repr, entries
    {
      Linked() && Contiguous(Values(entries), first)
    }

    /** What the scoreboard says about each line. */
    ghost function Blamed(): seq<Line>
      reads this, repr, entries
    {
      Lines(Values(entries))
    }

    /** Splits an entry that overlaps a chunk and passes the blame for the overlap to the parent. */
    method BlameOverlap(e: Entry, ghost first: nat, ghost i: nat, c: Chunk)
      requires Valid(first) && i < |entries| && entries[i] == e
      requires Overlaps(e.Value(), c) && c.tlno <= c.same
      modifies this`ent, this`entries, this`repr, repr
      ensures Linked() && Replaced(old(entries), old(Values(entries)), i, Pieces(old(e.Value()), c))
      ensures fresh(repr - old(repr))
    {
      hide Linked, Link, Replaced, Contiguous, Before, Middle, After;
      var split := new Part[3](_ => NO_PART);
      GroupNotEmpty(Values(entries), first, i);
      SplitOverlap(split, e, c);
      if split[1].suspect.Some? {
        SplitBlame(split, e, first, i, c);
      } else {
        NothingReplaced(i);
      }
    }

    lemma NothingReplaced(i: nat)
      requires i < |entries|
      ensures Replaced(entries, Values(entries), i, [entries[i].Value()])
    {
    }

    lemma AtStart()
      requires Linked()
      ensures ent == Link(entries, 0)
    {
    }

    lemma AtEntry(i: nat)
      requires Linked() && i < |entries|
      ensures entries[i].next == Link(entries, i + 1)
    {
    }

    lemma PrefixLines(i: nat)
      requires i <= |entries|
      ensures |Lines(Values(entries)[..i])| <= |Blamed()|
    {
      var gs := Values(entries);
      assert gs == gs[..i] + gs[i..];
      LinesConcat(gs[..i], gs[i..]);
    }

    lemma ChunkStart(c: Chunk)
      ensures DoneUpTo(Values(entries), 0, c)
    {
      LinesNone();
    }

    lemma ChunkEnd(before: seq<Line>, c: Chunk)
      requires DoneUpTo(Values(entries), |entries|, c) && ChunkLines(Blamed(), c) == ChunkLines(before, c)
      ensures Blamed() == ChunkLines(before, c)
    {
      assert Values(entries)[..|entries|] == Values(entries);
    }

    lemma ChunkLength(before: seq<Line>, c: Chunk)
      requires ChunkLines(Blamed(), c) == ChunkLines(before, c)
      ensures |Blamed()| == |before|
    {
    }

    /** The list after entry `i` was split, or left alone, as the values say. */
    lemma AfterStep(es: seq<Entry>, gs: seq<Group>, first: nat, i: nat, c: Chunk)
      requires Linked() && i < |es| == |gs| && Pieces(gs[i], c) != [] && Replaced(es, gs, i, Pieces(gs[i], c))
      requires Contiguous(gs, first) && c.parent != c.target && DoneUpTo(gs, i, c) && ChunkFits(Lines(gs), c)
      ensures Valid(first) && i < |entries| && entries[i] == es[i]
      ensures ChunkLines(Blamed(), c) == ChunkLines(Lines(gs), c) && ChunkFits(Blamed(), c)
      ensures DoneUpTo(Values(entries), i + 1, c) && |Lines(Values(entries)[..i + 1])| > |Lines(gs[..i])|
    {
      hide Linked, Pieces, ChunkFits, DoneUpTo, Contiguous, Lines, ChunkLines;
      ChunkStep(gs, first, i, c);
      assert entries[..i + 1][i] == es[..i + 1][i];
    }

    lemma SamePieces(i: nat, c: Chunk)
      requires i < |entries|
      ensures Pieces(Values(entries)[i], c) != []
      ensures !Overlaps(Values(entries)[i], c) ==> Replaced(entries, Values(entries), i, Pieces(Values(entries)[i], c))
    {
    }

    /** Passes the blame for the lines of one chunk from the target to the parent, whatever entries they are in. */
    method BlameChunk(ghost first: nat, c: Chunk)
      requires Valid(first) && c.parent != c.target && ChunkFits(Blamed(), c)
      modifies this`ent, this`entries, this`repr, repr
      ensures Valid(first) && Blamed() == ChunkLines(old(Blamed()), c)
      ensures fresh(repr - old(repr))
    {
      hide ChunkFits, DoneUpTo, Contiguous, Lines, ChunkLines, Pieces, Replaced, Linked, Link;
      ghost var before := Blamed();
      var e := ent;
      AtStart();
      ghost var i: nat := 0;
      ChunkStart(c);
      while e != null
        invariant Valid(first) && i <= |entries| && e == Link(entries, i)
        invariant fresh(repr - old(repr))
        invariant ChunkLines(Blamed(), c) == ChunkLines(before, c) && ChunkFits(Blamed(), c)
        invariant DoneUpTo(Values(entries), i, c)
        decreases |before| - |Lines(Values(entries)[..i])|
      {
        ghost var es, gs := entries, Values(entries);
        LinkIs(entries, i);
        SamePieces(i, c);
        PrefixLines(i);
        ChunkLength(before, c);
        GroupNotEmpty(gs, first, i);
        if !e.guilty && e.suspect == c.target && c.same > e.sLno && c.tlno < e.sLno + e.numLines {
          NoOverlap(gs, i, c);
          BlameOverlap(e, first, i, c);
        }
        AfterStep(es, gs, first, i, c);
        AtEntry(i);
        e := e.next;
        i := i + 1;
      }
      LinkIs(entries, i);
      ChunkEnd(before, c);
    }

    /** The list after entry `i + 1` was taken out, seen from the list before it. */
    lemma RemoveLinked(es: seq<Entry>, i: nat)
      requires i + 1 < |es| && entries == es[..i + 1] + es[i + 2..]
      requires forall k :: 0 <= k < |es| ==> es[k] in repr
      requires Distinct(es)
      requires ent == Link(es, 0)
      requires forall k :: 0 <= k < |es| && k != i + 1 ==>
               es[k].next == if k == i then Link(es, i + 2) else Link(es, k + 1)
      requires forall k :: 0 <= k < |es| && k != i + 1 ==> es[k].prev == if k == i + 2 then es[i] else Link(es, k - 1)
      ensures Linked()
    {
      hide Link, Distinct;
      RemovedLinks(es, i);
      forall k | 0 <= k < |entries|
        ensures entries[k] in repr && entries[k].prev == Link(entries, k - 1) && entries[k].next == Link(entries, k + 1)
      {
        if k <= i {
          assert entries[k] == es[k];
        } else {
          assert entries[k] == es[k + 1];
        }
        if k == i + 1 { LinkIs(entries, i); }
      }
    }

    /** Extends an entry over the next one, which leaves the list. */
    method MergeNext(e: Entry, next: Entry, ghost i: nat)
      requires Linked() && i + 1 < |entries| && entries[i] == e && entries[i + 1] == next
      modifies this`entries, repr
      ensures Linked() && entries == old(entries)[..i + 1] + old(entries)[i + 2..]
      ensures e.Value() == old(e.Value().(numLines := e.numLines + next.numLines))
      ensures forall k :: 0 <= k < |old(entries)| && k != i ==> old(entries)[k].Value() == old(Values(entries))[k]
    {
      hide Linked, Distinct, Link;
      AllLinks();
      OthersDiffer(i);
      LinkIs(entries, i + 2);
      if i + 2 < |entries| { OthersDiffer(i + 2); }
      ghost var es := entries;
      assert next.next == Link(es, i + 2) && next != e;
      e.numLines := e.numLines + next.numLines;
      e.next := next.next;
      if e.next != null {
        e.next.prev := e;
      }
      e.score := 0;
      entries := es[..i + 1] + es[i + 2..];
      forall k | 0 <= k < |es| && k != i + 1 ensures es[k].next == if k == i then Link(es, i + 2) else Link(es, k + 1) {
        if k != i {
          assert es[k] != e && es[k].next == old(es[k].next);
        }
      }
      forall k | 0 <= k < |es| && k != i + 1 ensures es[k].prev == if k == i + 2 then es[i] else Link(es, k - 1) {
        if k != i + 2 {
          assert es[k] != e.next && es[k].prev == old(es[k].prev);
        }
      }
      RemoveLinked(es, i);
    }
  }
}
