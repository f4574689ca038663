/** What an edit of a commit message does to the commit, field by field. */
module EditLaws {
  import opened Wrappers
  import opened Commits
  import opened Selections
  import opened Rewrite
  import opened Rewritten
  import opened Operations
  import opened CombineEditLaws
  import opened CommitMessage
  import CommitTime
  import Strings

  /** The signature says what was parsed, and where nothing was parsed what the original author says. */
  predicate SaysParsed(s: Signature, parsed: Message, original: Signature) {
    && (match parsed.author
        case Some(a) => s.name == a.name && s.email == a.email
        case None => s.name == original.name && s.email == original.email)
    && (match parsed.time
        case Some(t) => s.time == t.time && s.offset == t.offset
        case None => s.time == original.time && s.offset == original.offset)
  }

  /** The text in the editor is the printed form of the commit's own author, author date and message. */
  lemma EditorShows(c: Commit)
    ensures EditorText(c) == StringFromCommitMessage(CommitAuthor(c.meta.author.name, c.meta.author.email),
                                 CommitTime.Time(c.meta.author.time, c.meta.author.offset), c.meta.message)
  {
  }

  /** Author and committer of the edited commit say what was parsed; its message is the parsed one, or the old one if
      that is empty; and nothing else of it is new. */
  lemma EditedFields(orig: Commit, text: string)
    ensures var parsed := MessageFromLines(Strings.Split(text));
            var x := EditedCommit(orig, parsed);
            && SaysParsed(x.meta.author, parsed, orig.meta.author)
            && SaysParsed(x.meta.committer, parsed, orig.meta.author)
            && x.meta.message == (if parsed.message == "" then orig.meta.message else parsed.message)
            && x.meta.encoding == orig.meta.encoding && x.tree == orig.tree && x.parents == orig.parents
  {
    hide MessageFromLines, Strings.Split;
    EditedAsParsed(orig, text);
    EditedKeeps(orig, MessageFromLines(Strings.Split(text)));
  }

  /** So says the commit on the new branch, at the place of the one that was edited. */
  lemma EditedOnBranch(ctx: Ctx, op: Op, editor: string -> string, before: Refs, after: Refs, r: Outcome)
    requires op.kind == Edit && op.Valid() && EditSpec(ctx, op, ReadBack(op, editor), before, after, r) && r.Done?
    ensures var h := Chain(op.src.commit);
            var n := CountBefore(h, op.commits);
            && op.src.ref.Some? && op.src.ref.value in after && n < |h| && op.commits == {h[n]}
            && var h' := Chain(after[op.src.ref.value]);
            && |h'| == |h|
            && var parsed := MessageFromLines(Strings.Split(editor(EditorText(h[n]))));
            && SaysParsed(h'[n].meta.author, parsed, h[n].meta.author)
            && SaysParsed(h'[n].meta.committer, parsed, h[n].meta.author)
            && h'[n].meta.message == (if parsed.message == "" then h[n].meta.message else parsed.message)
            && h'[n].tree == h[n].tree
            && forall i :: 0 <= i < |h| && i != n ==> h'[i].meta == h[i].meta && h'[i].tree == h[i].tree
  {
    hide EditSpec, AddRemove, Chain, CountBefore, Replay, EditedCommit, Reuses, Editing, EditorText, MessageFromLines,
        SaysParsed;
    EditedBranch(ctx, op, ReadBack(op, editor), before, after, r);
    var h := Chain(op.src.commit);
    var n := CountBefore(h, op.commits);
    assert Lone(op.commits) == h[n];
    EditedFields(h[n], editor(EditorText(h[n])));
    RepresentedAt(Chain(after[op.src.ref.value]), h[n := EditedCommit(h[n], ReadBack(op, editor))]);
  }

  lemma RepresentedAt(h: seq<Commit>, labels: seq<Commit>)
    requires Represents(h, labels)
    ensures |h| == |labels| && forall i :: 0 <= i < |h| ==> h[i].meta == labels[i].meta
  {
  }

  /** With author and date left as they are, the edited commit keeps all that they say and takes the new message. */
  lemma AuthorKept(orig: Commit, message: string)
    requires var a := orig.meta.author;
             PlainAuthor(CommitAuthor(a.name, a.email)) && PlainTime(CommitTime.Time(a.time, a.offset))
    requires PlainText(message) && message != ""
    ensures var a := orig.meta.author;
            var author, time := CommitAuthor(a.name, a.email), CommitTime.Time(a.time, a.offset);
            var text := StringFromCommitMessage(author, time, message);
            var x := EditedCommit(orig, MessageFromLines(Strings.Split(text)));
            x.meta == Meta(a, a, orig.meta.encoding, AsRead(message)) && AsRead(message) == message
  {
    hide MessageFromLines, Strings.Split, StringFromCommitMessage, PlainAuthor, PlainTime, PlainText;
    var a := orig.meta.author;
    var author, time := CommitAuthor(a.name, a.email), CommitTime.Time(a.time, a.offset);
    MessageRoundTrip(author, time, message);
    EditedFields(orig, StringFromCommitMessage(author, time, message));
    PlainAsRead(message);
  }

  /** A text that is left as it is changes nothing, if and only if all of it survives printing and parsing. */
  lemma UntouchedIsNothing(c: Commit)
    ensures var a := c.meta.author;
            MessageFromLines(Strings.Split(EditorText(c))) == OriginalMessage(c) <==>
            && PlainAuthor(CommitAuthor(a.name, a.email)) && PlainTime(CommitTime.Time(a.time, a.offset))
            && PlainText(c.meta.message)
  {
    hide MessageFromLines, Strings.Split, StringFromCommitMessage, PlainAuthor, PlainTime, PlainText;
    var a := c.meta.author;
    EditorShows(c);
    MessageRoundTrip(CommitAuthor(a.name, a.email), CommitTime.Time(a.time, a.offset), c.meta.message);
  }
}
