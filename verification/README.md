# Verified models of debase

debase edits git branches as lists of commits: it moves, copies, deletes, combines and edits commits by replaying them.
These Dafny modules model its core and the libgit2 algorithms beside it, and prove what they promise.
`dafny verify dfyconfig.toml` verifies the whole project.

- **Rewriting branches** (`Commits`, `Selections`, `Rewrite`, `Rewritten`, `Operations`, `OperationLaws`, `PickLaws`,
  `CombineEditLaws`, `EditLaws`, `Independence`, `OverlayLaws`, `Results`).  A branch is the first-parent chain of its
  head.  The loops of the operations are methods that walk it; their result is tied to a list specification (selected
  commits taken out, others spliced in) and to a replay by three-way merges.  Commits are values, as a git id is a
  hash of the content.  How conflicting contents are merged and what a user answers are parameters, so every result
  holds for all of them.
- **Commit messages** (`Strings`, `CommitTime`, `CommitMessage`, `MessageLaws`).  The text that is put in the editor,
  and its parser, down to the digits of the date.
- **Blame** (`BlameLines`, `Scoreboard`, `BlameDiff`, `BlameWalk`, `BlameFile`).  The doubly linked list of entries is
  split and merged in place; beside it stands what it says about each line.
- **Applying patches** (`TextLines`, `PatchImages`, `Apply`, `ApplyLaws`, `EditScripts`).  The image is a vector
  updated in place; the laws say what comes out when the patch describes the text, whichever hunks are skipped, and
  that the patch written for any edits makes the edited file.
- **The attribute cache** (`AttrCache`, `AttrCacheInvariant`, `AttrCacheCalls`).  Threads take one atomic step at a
  time: each lock, look at a slot, count, owner change, swap and free is a step of its own.  A use of freed memory is
  a state of its own, which is proved not to be reached; which file a thread ends up with is told by what it saw,
  checked and read in that call.
- **Wrapping lines** (`WrapLines`, `LineWrap`), and **merge conflicts** (`Conflicts`) as hunks and as text.
- **Sessions** (`Histories`, `Snapshots`, `RepoStates`, `Sessions`).  Undo histories and snapshots, the file they are
  kept in, and the steps a user takes.

## Where the code does less than it seems to

Each of these comes with the exact condition, for all inputs, under which the code does what it seems to, and most of
them with a concrete input on which it does not.

- A merge commit that is made the root of a branch loses only its first parent, so the branch that was merged becomes
  the branch (`Rewritten.MergeMadeRoot`); in every other case the new branch is the target list
  (`Commits.ReplayHistory`, `Rewritten.AddRemoveHistory`).
- A time offset that is negative and not whole hours does not survive editing a message
  (`CommitTime.NewfoundlandDoesNotSurvive`, `CommitTime.TimeRoundTrip`).
- A hunk that only deletes and has no context is looked for one line too early (`ApplyLaws.DeletionDoesNotApply`,
  `ApplyLaws.AppliesExactly`).
- A line of ours that begins with the separator ends our side of a conflict (`Conflicts.SeparatorDoesNotSurvive`,
  `Conflicts.RoundTrip`).
- A file in conflict that itself has debase's markers in it is parsed as another conflict, and can be taken for no
  file when its side is chosen (`Conflicts.MarkersLoseAFile`); choosing a side gives its content if and only if that
  side has lines or there is no file (`Conflicts.OneSide`), which holds for every conflict of the index as long as the
  merged text ends outside of its conflicts (`Conflicts.ChoosingASide`, `Conflicts.FileIsKept`).
- An undo, a redo or the restoration of a snapshot that changes both the name and the commit of a ref replaces the
  commit first, so that it is half done when the name is not to be had (`Sessions.UndoFailsHalfway`); the refs are as
  they were if and only if the commit was the same (`Sessions.Session.UndoRedo`, `Sessions.Session.RestoreSnapshot`).
- A branch cannot be renamed into a directory of its own name, as from `a` to `a/b` (`Sessions.NotIntoOwnDirectory`,
  `Sessions.Session.GitRefRename`).
- A commit that is set on the parent it already has becomes another commit if it is signed, has other headers, or has
  newlines in front of its message (`Commits.ParentSetSame`).
- A blame that is limited to an oldest commit forgets the limit at the first commit without parents it comes to, which
  becomes the oldest one instead; at all other commits it stays (`BlameWalk.PassBlame`).
- The message of a combined commit is not all selected messages joined when the oldest of them is empty: the empty
  ones at the beginning leave no line (`CombineEditLaws.CombinedMessage`, `CombineEditLaws.EmptyMessageDisappears`).

## Model

| member | source | states |
|---|---|---|
| Commits.HistoryPrefix | src/git/Modify.h:60-70 | a branch is the first-parent chain of its head, and every prefix of the chain is the chain of its own top |
| Commits.HistoryDistinct | src/git/Modify.h:60-70 | a chain never repeats a commit |
| Commits.MergeTrees | src/git/Git.h:845-860 | the three-way merge, path by path: ours where theirs is unchanged, theirs where ours is, otherwise what the resolver answers; it fails exactly when some path does, a conflict of an unsupported kind before a cancellation |
| Commits.MergeUnchanged | src/git/Git.h:845-860 | merging onto the very base takes the other side, whatever the resolver |
| Commits.ReplayImage | src/git/Modify.h:182-190 | image i of a replay is commit i set on top of image i-1, with its own author, committer and message, and without other headers |
| Commits.ReplayTheirs | src/git/Modify.h:82-105 | favouring one side, a replay is never cancelled, and fails only at a conflict of a kind that is not supported |
| Commits.ParentSetHistory | src/git/Git.h:894-902 | setting a parent puts the commit on top of the chain of that parent, if and only if it is not a merge that is made the root |
| Commits.ReplayHistory | src/git/Modify.h:182-190 | the chain of the replayed head is the chain below plus exactly the images, if and only if no merge is made the root |
| Commits.ParentSetSame | src/git/Git.h:874-953 | setting a commit on the parent it has gives that commit without other headers, such as a signature, and without newlines in front of its message: the very same one if and only if it has none of them |
| Commits.ParentSetSameBase | src/git/Git.h:874-902 | a commit whose new parent has the tree of the old one keeps its tree |
| Selections.SelectConserves | src/git/Modify.h:154-180 | selecting and removing split a list between them, with nothing lost or duplicated |
| Selections.SpliceConserves | src/git/Modify.h:154-180 | splicing keeps what was there, less what is removed, plus what is added |
| Selections.MoveIsIdentity | src/git/Modify.h:198-239 | moving a selection leaves the list as it was if and only if the selection is one block and goes to a place in or at the ends of it |
| Rewrite.Sorted | src/git/Modify.h:60-70 | lists the selected commits in chain order, oldest first |
| Rewrite.FindEarliestCommit | src/git/Modify.h:72-80 | finds the selected commit that is lowest in the chain |
| Rewrite.CommitsHasGap | src/git/Modify.h:198-212 | true exactly when a commit that is not selected lies between selected ones |
| Rewrite.InsertionIsNop | src/git/Modify.h:221-227 | true exactly for a selected position or the parent of the lowest selected commit |
| Rewrite.Collect | src/git/Modify.h:139-180 | the walk down from the head stops at the kept part of the chain and has collected, in order, what is to be replayed |
| Rewrite.TargetIsKeptThenTodo | src/git/Modify.h:154-180 | the target list (removed filtered out, added spliced in after the position) is the kept commits followed by those to replay |
| Rewrite.AddRemoveCommits | src/git/Modify.h:124-196 | the loop computes the replay of the target list on the kept commits, and the images of the added ones |
| Rewritten.AddRemoveHistory | src/git/Modify.h:124-196 | the new branch is the kept commits and the images above them, if and only if no merge commit is made the root |
| Rewritten.AddRemoveChain | src/git/Modify.h:124-196 | the new chain carries, commit by commit, exactly the target list; everything below the rewrite is reused; `added` is the images of the added commits, where they stand |
| Rewritten.AddRemoveResultChain | src/git/Modify.h:124-196 | the result is null exactly when the target list is empty, and what is added is on the new branch, also when a merge is made the root |
| Rewritten.ReplayStacked | src/git/Modify.h:182-190 | commits replayed on the trees they were made on keep their trees, without a conflict |
| Rewritten.MergeMadeRoot | src/git/Git.h:894-902 | deleting the root below a merge, unless that meets an unsupported conflict: only its first parent is dropped, and the merged side branch becomes the branch |
| Operations.MoveIsNop | src/git/Modify.h:229-239 | true if and only if the move would leave the list of commits as it is |
| Operations.MoveNopPoint | src/git/Modify.h:198-239 | where moving changes nothing: no gap, and at a selected commit or right below the lowest one, the null position included |
| Operations.MoveCommits | src/git/Modify.h:252-344 | refs and answer of a move within a ref or between two, with its errors, unsupported conflicts and cancellation |
| Operations.CopyCommits | src/git/Modify.h:346-377 | refs and answer of a copy |
| Operations.DeleteCommits | src/git/Modify.h:379-412 | refs and answer of a deletion; deleting everything is an error |
| Operations.CollectCombine | src/git/Modify.h:428-447 | the walk finds the lowest selected commit, those to integrate into it and those to attach above, or runs out of commits |
| Operations.CombineCommits | src/git/Modify.h:414-463 | refs and answer of a combination, with its three errors and unsupported conflicts |
| Operations.NothingLost | lib/libgit2/src/commit.c:532-545 | a stored message is the newlines in front of it and the text that is read, so two commits that are equal are the same object |
| Operations.MessageIsStored | src/git/Git.h:928-961 | a commit that is made with a message stores that very message, and nothing else of it is new but that it has no other headers |
| Operations.NoRootsAbove | src/git/Git.h:905-910 | no commit that is integrated is a root, so its parent is there |
| Operations.EditCommit | src/git/Modify.h:586-643 | refs and answer of an edit; an unchanged text is not a change |
| Operations.Exec | src/git/Modify.h:645-663 | each operation as its own specification says |
| OperationLaws.GoesAbovePosition | src/git/Modify.h:154-180 | moved and copied commits go in their order right above the position, or to the bottom for the null one; what is removed is gone, and nothing else changes its place |
| OperationLaws.AllOrNothing | src/git/Modify.h:645-663 | an error or a cancellation leaves every ref alone; a finished operation changes no ref but its own, and reports where they are |
| OperationLaws.NeverCanceled | src/git/Modify.h:241-250 | within one ref nobody is asked: a deletion or combination always answers, and an edit or a move within a ref has no answer if and only if there was nothing to change |
| OperationLaws.MoveConserves | src/git/Modify.h:296-342 | moving between refs conserves the commits of both branches together, and the moved ones stay together in source order |
| OperationLaws.MoveWithinConserves | src/git/Modify.h:259-292 | moving within a ref permutes its commits |
| OperationLaws.MovedBranches | src/git/Modify.h:252-344 | after a move each branch carries its target list on top of the untouched old commits |
| OperationLaws.DeletedBranch | src/git/Modify.h:379-412 | after a deletion the branch carries what was not selected, in order |
| OperationLaws.CombineRefuses | src/git/Modify.h:414-447 | a combination is refused for its ref, its size, a merge commit or a commit that is not on the branch, in this order, and for nothing else but an unsupported conflict |
| OperationLaws.MoveSelects | src/git/Modify.h:252-344 | what a move records as selected before and selects afterwards, on both branches |
| OperationLaws.MovedAreSelected | src/git/Modify.h:252-344 | what is selected after a move is the moved commits where they stand on the new branch |
| OperationLaws.CopySelects | src/git/Modify.h:346-377 | after a copy, the copies where they stand on the new branch |
| OperationLaws.DeleteSelects | src/git/Modify.h:379-412 | after a deletion nothing, and before it the deleted commits |
| CombineEditLaws.CombinedBranch | src/git/Modify.h:414-463 | k of n commits become one: n-(k-1) are left, in order, and the combined one is selected; its message is the selected messages joined oldest first by a newline, as that is read |
| CombineEditLaws.CombinedMessage | src/git/Git.h:913-926 | that is the messages from the first one on that is not empty, and all of them if and only if the oldest one is not empty |
| CombineEditLaws.JoinedAsRead | lib/libgit2/src/commit.c:532-545 | of any joined messages, reading leaves away exactly the empty ones at the beginning |
| CombineEditLaws.EmptyMessageDisappears | src/git/Git.h:913-926 | an empty message with "a" and "b" integrated into it is "a" and "b" on two lines, without an empty one before them |
| CombineEditLaws.CombinedTrees | src/git/Modify.h:424-451 | without a gap the combined commit has the tree of the newest selected one, and every later commit and the branch keep their trees |
| CombineEditLaws.CombineFinishes | src/git/Modify.h:414-463 | combining without a gap never meets a conflict |
| CombineEditLaws.IntegratedMeta | src/git/Git.h:913-926 | integrating one by one joins the messages, dropping newlines in front at every step as at once at the end, keeps author, committer and parents of the lowest commit, and drops its other headers |
| CombineEditLaws.EditedBranch | src/git/Modify.h:595-641 | an edit keeps length, order, every tree and all other metadata, and selects the edited commit |
| CombineEditLaws.EditFinishes | src/git/Modify.h:595-641 | an edit never meets a conflict: it is carried out whenever the text changed |
| CombineEditLaws.EditedKeeps | src/git/Git.h:955-961 | the edited commit keeps tree, parents and encoding; author and committer become the new signature; an empty message keeps the old one |
| CombineEditLaws.EditedAsParsed | src/git/Modify.h:536-584 | the message of the edited commit is read as the very message that was parsed from the text, if that is not empty |
| EditLaws.EditorShows | src/git/Modify.h:515-534 | the text in the editor is the printed form of the name, email, time, offset and message of the commit |
| EditLaws.EditedFields | src/git/Modify.h:613-627 | name, email, time and offset of both author and committer of the edited commit are what was parsed, and of the original author where nothing was parsed; the message is the parsed one unless that is empty |
| EditLaws.EditedOnBranch | src/git/Modify.h:586-643 | so they are of the commit at that place of the new branch, and the metadata and trees of all others stay |
| EditLaws.AuthorKept | src/git/Modify.h:586-643 | a plain author and date that are left as they are keep all four fields under another text |
| EditLaws.UntouchedIsNothing | src/git/Modify.h:602-611 | a text that is left as it is is no change if and only if author, date and message survive printing and parsing |
| Independence.ReplayOverlays | src/git/Modify.h:182-190 | replaying commits that change different paths lays exactly their changes over the base, without a conflict |
| Independence.OverlayUnique | src/git/Git.h:874-902 | an overlay depends on which commits are laid over the base, not on their order |
| Independence.RewriteOverlays | src/git/Modify.h:124-196 | rewriting a stretch of independent commits with some of them, in any order, gives the base overlaid with exactly those |
| Independence.MoveKeepsTree | src/git/Modify.h:259-292 | a move within a ref of independent commits keeps the final tree |
| Independence.DeleteKeepsOthers | src/git/Modify.h:379-412 | deleting independent commits takes out exactly their changes |
| OverlayLaws.IntegrateOverlays | src/git/Git.h:904-926 | integrating independent commits one by one lays exactly their changes over the first one, without a conflict |
| OverlayLaws.CombineKeepsTree | src/git/Modify.h:414-463 | combining keeps the final tree, also with gaps, when no two commits above the lowest selected one change the same path |
| OverlayLaws.CombineOverlaysFinishes | src/git/Modify.h:414-463 | such a combination never meets a conflict |
| OverlayLaws.AddingOverlays | src/git/Modify.h:124-196 | adding independent commits anywhere in a branch lays exactly their changes over its tree, without a conflict |
| OverlayLaws.MoveOverlays | src/git/Modify.h:296-342 | so does moving them to another ref |
| OverlayLaws.CopyOverlays | src/git/Modify.h:346-377 | and copying them, which is then never cancelled |
| PickLaws.TreePicks | src/git/Git.h:874-892 | placing a commit on another one, at every path: what only one side changed is taken from there; where both changed it, the answer of the user or, favouring theirs, the merged content is; it fails as unsupported exactly when some path has such a conflict, and as cancelled exactly when none has and the user gives up on some path |
| PickLaws.ParentSetPicks | src/git/Git.h:894-902 | the commit made anew has that tree, its own metadata, no other headers, the new first parent and its other parents; or it fails for those reasons |
| PickLaws.ReplayPicks | src/git/Modify.h:182-190 | every image of a replay is its commit placed on top of the image before it |
| PickLaws.ReplayStops | src/git/Modify.h:182-190 | a replay fails if and only if it comes to a commit that cannot be placed on what there is by then, and for that reason |
| PickLaws.RewrittenPicks | src/git/Modify.h:124-196 | from the kept part on, every commit of the new branch is the listed one placed on top of the one below it |
| PickLaws.MovePicks | src/git/Modify.h:252-344 | so it is on the branches of a finished move, where the user answers for what goes to another ref and for nothing else |
| PickLaws.CopyPicks | src/git/Modify.h:346-377 | and on the branch of a finished copy, where the user answers unless the commits come from that very ref |
| PickLaws.DeletePicks | src/git/Modify.h:379-412 | and on the branch of a finished deletion, where nobody is asked |
| PickLaws.MoveStops | src/git/Modify.h:252-344 | a move has no answer, or the error of an unsupported conflict, or is done, exactly when the replay comes to such a commit or to none; its other errors in their order |
| PickLaws.CopyStops | src/git/Modify.h:346-377 | the same for a copy |
| PickLaws.DeleteStops | src/git/Modify.h:379-412 | the same for a deletion, which refuses to delete everything |
| PickLaws.IntegratePicks | src/git/Git.h:904-926 | integrating a commit puts into the other one what is to be at every path, and fails exactly where placing it fails |
| PickLaws.CombinePicks | src/git/Modify.h:414-463 | a combination integrates one selected commit after the other and attaches the rest, each step placing what is to be at every path |
| Strings.TrimIsTrimmed | src/git/Modify.h:485-502 | trimming leaves no space at either end |
| Strings.JoinSplit | src/git/Modify.h:536-584 | splitting at newlines and joining gives the text back |
| Strings.SplitJoin | src/git/Modify.h:536-584 | joining newline-free lines and splitting gives them back |
| CommitTime.GmTime | src/git/Git.h:111-122 | the calendar fields of a second are in range, and timegm of them is that second |
| CommitTime.NextDay | src/git/Git.h:111-122 | 1970 began on a Thursday; every later or earlier day follows the one before it in the month, by the lengths of the months and the leap years, and in the week; the clock is the seconds of the day |
| CommitTime.PrintedEpoch | src/git/Git.h:111-122 | an hour and a half past the start of 1970 prints as "Thu Jan 1 01:30:00 1970 +0130" |
| CommitTime.OffsetRoundTrip | src/git/Git.h:142-174 | the offset read back is the one printed if and only if it is not negative or whole hours |
| CommitTime.TimeFromPrinted | src/git/Git.h:142-174 | what the scanner reads from a printed date, for every date and offset |
| CommitTime.TimeRoundTrip | src/git/Git.h:111-174 | a printed time reads back as itself if and only if the offset survives and its local time is not the second timegm reports as an error |
| CommitTime.NewfoundlandDoesNotSurvive | src/git/Git.h:165-171 | an offset of -3:30 reads back as +0:03 |
| CommitMessage.CommitMessageFromString | src/git/Modify.h:536-584 | the parser loop computes author, time and message of the text |
| CommitMessage.AuthorRoundTrip | src/git/Modify.h:485-502 | a printed author is parsed back |
| CommitMessage.ParsedIsPlain | src/git/Modify.h:536-584 | everything the parser returns has the plain form the round trip asks for |
| CommitMessage.MessageRoundTrip | src/git/Modify.h:524-584 | printing and parsing gives author, time and message back if and only if all three have the plain form |
| MessageLaws.AuthorIs | src/git/Modify.h:485-502 | of any text with brackets, the name is what stands before the first opening one and the email what stands between that and the last closing one, without spaces around them; an empty one of them makes no author |
| MessageLaws.AuthorOnly | src/git/Modify.h:485-502 | no other text has an author |
| MessageLaws.TextIs | src/git/Modify.h:536-584 | of any text, blank lines before the fields and before the message are left away, a field is the first line that is not blank if it begins with its prefix, and the rest is the message |
| BlameLines.GroupStart | lib/libgit2/src/blame_git.c:305-327 | in a gap-free list an entry starts at the line that the lines before it add up to, so the map of lines and the list agree |
| BlameLines.ContiguousReplace | lib/libgit2/src/blame_git.c:222-264 | replacing a group by groups over the same lines keeps the list gap-free and in order |
| BlameLines.PiecesCover | lib/libgit2/src/blame_git.c:134-171 | the parts of a split cover exactly the lines of the entry |
| BlameLines.PiecesLines | lib/libgit2/src/blame_git.c:134-171 | and say of each line what the chunk says |
| BlameLines.ChunkStep | lib/libgit2/src/blame_git.c:305-327 | one turn of the loop over the entries, whatever the case of the split |
| Scoreboard.SplitOverlap | lib/libgit2/src/blame_git.c:134-171 | the three parts are the lines before, in and after the chunk; an empty middle leaves no suspect |
| Scoreboard.Blame.constructor | lib/libgit2/src/blame.c:354-365 | one entry that blames all lines on the newest commit, each at its own number |
| Scoreboard.Blame.LinkIn | lib/libgit2/src/blame_git.c:177-197 | links an entry in at its place; the list stays doubly linked and all other entries stay in order |
| Scoreboard.Blame.AddBlameEntry | lib/libgit2/src/blame_git.c:177-197 | the entry goes in front of the first one that does not start below it |
| Scoreboard.Blame.DupEntry | lib/libgit2/src/blame_git.c:204-216 | overwrites an entry and keeps its place in the list |
| Scoreboard.Blame.SplitBlame | lib/libgit2/src/blame_git.c:222-264 | the entry is replaced by the parts that are there, object for object, through all four cases |
| Scoreboard.Blame.BlameOverlap | lib/libgit2/src/blame_git.c:281-298 | an entry that overlaps the chunk is replaced by its parts |
| Scoreboard.Blame.BlameChunk | lib/libgit2/src/blame_git.c:305-327 | the list stays linked, in order and gap-free over the same lines, and every line is blamed on the parent at the right line exactly when it is suspected and in the chunk |
| Scoreboard.Blame.MergeNext | lib/libgit2/src/blame_git.c:620-639 | extends an entry over the next one and takes that one out of the list |
| BlameDiff.ParentOfExact | lib/libgit2/src/blame_git.c:329-342 | for aligned hunks a line has a parent line if and only if it lies outside of every hunk: the line shifted by what the hunks before it added or removed |
| BlameDiff.ParentOfContent | lib/libgit2/src/blame_git.c:329-342 | for a diff of two texts the parent line has the same content |
| BlameDiff.PassedIsExact | lib/libgit2/src/blame_git.c:400-423 | the chunks between the hunks and the one after the last of them add up to exactly those lines |
| BlameWalk.FindLastInTarget | lib/libgit2/src/blame_git.c:99-118 | whether anything is suspected of the target, and an end of all such lines |
| BlameWalk.PassBlameToParent | lib/libgit2/src/blame_git.c:400-423 | a line that is still suspected goes to the parent if and only if it lies outside of every hunk, at the line it came from; all others stay |
| BlameWalk.ChangeEntries | lib/libgit2/src/blame_git.c:663-667 | finds every entry of a suspect guilty, and leaves the others alone |
| BlameWalk.PassWholeBlame | lib/libgit2/src/blame_git.c:499-517 | everything the origin has goes to the parent |
| BlameWalk.PassedToParent | lib/libgit2/src/blame_git.c:519-613 | a line that is passed on goes to a parent commit and still has its content there |
| BlameWalk.FindOrigin | lib/libgit2/src/blame_git.c:432-492 | the loop over the renames finds the file in a parent by all its known names, and learns new ones |
| BlameFile.FoundUnderItsName | lib/libgit2/src/blame_git.c:432-492 | a file that was never renamed is found in every parent that has it, whether or not it was touched |
| BlameFile.FoundUnderItsOldName | lib/libgit2/src/blame_git.c:472-485 | a file that was renamed once between a parent and its child is found there under its old name, and both names are known from then on |
| BlameWalk.GatherOrigins | lib/libgit2/src/blame_git.c:519-613 | where the file was found in each parent by the names known then, the first of those with the same content only; an identical file takes the whole blame |
| BlameWalk.PassToOrigins | lib/libgit2/src/blame_git.c:519-613 | what is still suspected at the end comes from none of the parents |
| BlameWalk.PassBlame | lib/libgit2/src/blame_git.c:519-613 | all of this for one suspect: lines go one step to a parent, with `firstParent` only to the first one; at a commit without parents or at the limit nothing is passed on, and only there the oldest commit changes; without renames no new name is learned and none is blamed |
| BlameFile.Coalesce | lib/libgit2/src/blame_git.c:620-639 | the blame of every line stays the same, and no two mergeable neighbours are left |
| BlameFile.RoundIsLess | lib/libgit2/src/blame_git.c:641-678 | each round lowers the sum over all lines of twice the rank of the commit, plus one if not guilty |
| BlameFile.FindSuspect | lib/libgit2/src/blame_git.c:641-678 | returns nobody exactly when every line is guilty |
| BlameFile.LikeGit | lib/libgit2/src/blame_git.c:641-678 | ends on every acyclic history with every line guilty, its content intact and its commit reached from the first suspect by steps to parents; settled unless the blame was limited or the file renamed, and no mergeable neighbours |
| BlameFile.BlameInternal | lib/libgit2/src/blame.c:335-381 | from the newest file on: each line asked for is found in a commit that is reached by steps to parents (with `firstParent`, first ones), with its very content; if the file was never renamed and the blame is not limited, every parent of that commit that has the file has other content there, and the line lies inside a hunk of the diff; where an entry begins, the lines do not follow each other in one origin |
| TextLines.LinesOfText | lib/libgit2/src/apply.c:57-90 | the lines of a text, put together, are the text; each ends in its only newline, but the last one may have none |
| TextLines.LinesAreUnique | lib/libgit2/src/apply.c:57-90 | there is no other way to divide a text like that |
| PatchImages.PatchImage.FromString | lib/libgit2/src/apply.c:57-90 | fills the image with the lines of the text |
| PatchImages.PatchImage.MatchHunk | lib/libgit2/src/apply.c:101-129 | true exactly when the preimage stands in the image at that line |
| PatchImages.PatchImage.FindHunkLinenum | lib/libgit2/src/apply.c:131-147 | the line that is tried, at most the end of the image, and whether the preimage is there |
| PatchImages.PatchImage.UpdateHunk | lib/libgit2/src/apply.c:149-178 | replaces the preimage by the postimage in place, whichever is longer |
| PatchImages.PatchImage.Put | lib/libgit2/src/apply.c:288-289 | writes all lines of the image |
| Apply.TakeImages | lib/libgit2/src/apply.c:208-240 | collects both images of a hunk; fails exactly when the patch has too few lines |
| Apply.SidesOfWritten | lib/libgit2/src/apply.c:208-240 | for every edit script, written out with its end-of-file markers, the images are its old and its new lines |
| Apply.ApplyHunk | lib/libgit2/src/apply.c:186-265 | one hunk: accepted, skipped, or the end, with the line it is tried at in 64-bit arithmetic |
| Apply.ApplyHunks | lib/libgit2/src/apply.c:267-295 | all hunks in order; the text is written only when none fails |
| Apply.ApplyPatch | lib/libgit2/src/apply.c:387-445 | a patch without hunks copies the text; a removing patch must leave nothing |
| ApplyLaws.LandingAt | lib/libgit2/src/apply.c:242-249 | new_start less the skipped new lines plus the skipped old ones is the line of the preimage, one too few for a hunk that leaves no lines |
| ApplyLaws.MatchEarly | lib/libgit2/src/apply.c:101-129 | one line too early the deleted lines are found exactly when all are equal to the line in front, and deleting there comes to the same |
| ApplyLaws.AppliesExactly | lib/libgit2/src/apply.c:186-295 | with any hunks skipped: succeeds if and only if every accepted hunk leaves lines, or starts the file, or deletes copies of the line in front of it; and then the result is the old text with exactly the accepted hunks replaced |
| ApplyLaws.MakesNewText | lib/libgit2/src/apply.c:267-295 | with none skipped, the new text byte for byte |
| ApplyLaws.SkippingKeepsText | lib/libgit2/src/apply.c:197-206 | with all skipped, the old text |
| ApplyLaws.DeletionDoesNotApply | lib/libgit2/src/apply.c:242-255 | a deletion of one line without context does not apply to the text it was made from |
| EditScripts.PatchDescribes | lib/libgit2/src/apply.c:186-265 | the patch written for an edit script describes its old file hunk by hunk: headers, line ranges and both images |
| EditScripts.ScriptMakesTarget | lib/libgit2/src/apply.c:267-295 | for every edit script, writing it as a patch and applying that to the old file gives the new file byte for byte, if and only if each hunk leaves lines, starts the file, or deletes copies of the line in front of it |
| EditScripts.ContextLands | lib/libgit2/src/apply.c:242-255 | a hunk with a line that is kept or added always applies |
| AttrCacheInvariant.LookupKept | lib/libgit2/src/attrcache.c:161-213 | looking an entry up, or making it, keeps the invariant |
| AttrCacheInvariant.TakeKept | lib/libgit2/src/attrcache.c:195-203 | so does counting up the file in the slot while the lock is held |
| AttrCacheInvariant.LoadKept | lib/libgit2/src/attrcache.c:233-237 | so does loading a file into any memory that is not in use |
| AttrCacheInvariant.SwapKept | lib/libgit2/src/attrcache.c:103-129 | so does replacing what is in the slot |
| AttrCacheInvariant.RemoveKept | lib/libgit2/src/attrcache.c:131-154 | so does emptying the slot if it still holds the file |
| AttrCacheInvariant.DecKept | lib/libgit2/src/util.h:187-191 | so does counting down, which only the last one to do so follows up |
| AttrCacheInvariant.FreeKept | lib/libgit2/src/util.h:187-191 | a count of zero is always followed by the file being freed, when no slot and no thread has it |
| AttrCacheInvariant.StepKept | lib/libgit2/src/attrcache.c:161-265 | no step of any thread touches freed memory or a missing entry, and every step keeps the invariant |
| AttrCacheInvariant.RunKept | lib/libgit2/src/attrcache.c:161-265 | the same for every interleaving of any number of threads |
| AttrCacheInvariant.CountIsExact | lib/libgit2/src/attrcache.c:103-154 | at any time the count of a file is the number of slots that hold it plus the references that threads hold |
| AttrCacheInvariant.FreedIsUnused | lib/libgit2/src/attrcache.c:103-154 | a file that is freed is in no slot and no thread refers to it |
| AttrCacheInvariant.SlotChanges | lib/libgit2/src/attrcache.c:131-154 | a slot changes only by a thread putting in what it has read, or taking out the very file it found: a removal never drops a replacement |
| AttrCacheInvariant.NothingLeaks | lib/libgit2/src/attrcache.c:215-265 | when the threads are done, every file in memory is in its slot with a count of one |
| AttrCacheInvariant.HolderGoesOn | lib/libgit2/src/attrcache.c:17-32 | a thread that holds the lock can always take its next step |
| AttrCacheCalls.HeldIsRight | lib/libgit2/src/attrcache.c:215-265 | after every interleaving, a thread that holds a file holds the one it read in this call, which has been in its slot, or if it read none the one it saw in the slot and found up to date; never one that it found out of date |
| AttrCacheCalls.HeldUnlessFailed | lib/libgit2/src/attrcache.c:215-265 | a call ends with a file held if and only if nothing failed; otherwise a file it saw is not one it found up to date, and the slot has been without it since then unless locking failed |
| AttrCacheCalls.StepsForward | lib/libgit2/src/attrcache.c:161-265 | every step brings a thread closer to the end of its call, at most 44 of them besides uses of the file; the file is let go when it has been used |
| AttrCacheCalls.WaitsOnly | lib/libgit2/src/attrcache.c:17-32 | a thread waits only for the lock while another one has it, or for memory |
| WrapLines.WordLinesNonBlank | src/ui/LineWrap.h:20-34 | the words of all lines have exactly the non-blank characters of the text |
| WrapLines.AfterChars | src/ui/LineWrap.h:41-66 | pieces taken from words leave the rest of their characters |
| WrapLines.SplitWord | src/ui/LineWrap.h:52-62 | only a word longer than a line is split, and then the line is full |
| WrapLines.FillLine | src/ui/LineWrap.h:38-67 | takes words as long as they fit; a line that ends before its input does is full; each turn makes progress when the width is not zero |
| LineWrap.ReadLines | src/ui/LineWrap.h:22-33 | reads the words of each line, empty lines only if they are allowed |
| LineWrap.FillLines | src/ui/LineWrap.h:35-74 | ends also without a height limit, and stops early only when the lines run out |
| LineWrap.OpenIsFull | src/ui/LineWrap.h:76-86 | when the text is cut off, the last line with the next word on it is longer than the width: the assertion holds |
| LineWrap.WrapShows | src/ui/LineWrap.h:16-89 | what is shown is a beginning of the text apart from blanks, and all of it if nothing is left over |
| LineWrap.Wrap | src/ui/LineWrap.h:16-89 | at most so many lines of at most that width, made of the words in order as above; all non-blank characters unless the lines run out; the last line cut off at the width |
| Conflicts.HunksFromConflictString | src/git/Conflict.h:101-151 | the loop parses the lines as the state machine does |
| Conflicts.ConflictStringFromHunks | src/git/Conflict.h:153-174 | prints normal lines as they are and conflicts between their markers |
| Conflicts.ContainsConflictMarkers | src/git/Conflict.h:176-185 | true exactly when a line begins with one of the three markers |
| Conflicts.ParsePrinted | src/git/Conflict.h:101-174 | what parsing makes of any printed hunks whose lines are clean, also when more follows the markers |
| Conflicts.RoundTrip | src/git/Conflict.h:101-174 | printing and parsing gives the hunks back if and only if there are some, none is empty, no two normal ones are neighbours, and no line has a newline or begins with the marker looked for there |
| Conflicts.PlainText | src/git/Conflict.h:101-174 | a text in which no line begins a conflict is one normal hunk, which prints as that text |
| Conflicts.SeparatorDoesNotSurvive | src/git/Conflict.h:129-136 | a line of ours that begins with the separator ends our side, whatever the markers |
| Conflicts.TitleDoesNotSurvive | src/git/Git.h:1251-1253 | one such line, with the markers that merged files are read with |
| Conflicts.Content | src/git/Conflict.h:66-82 | the lines of one side, or no content when the file does not exist there |
| Conflicts.ResolveInEditor | src/App.h:1668-1728 | runs the editor until the text is acceptable or the user gives up |
| Conflicts.EditedIsAcceptable | src/App.h:1668-1728 | the text is the first one without markers that, for a submodule, is a commit of it |
| Conflicts.AcceptableIs | src/git/Conflict.h:176-185 | a text is accepted exactly when no line begins with a marker and, for a submodule, it is the hash of a commit between spaces |
| Conflicts.UneditedIsNotAcceptable | src/App.h:1668-1699 | a text that still shows a conflict is not accepted |
| Conflicts.NoFileIs | src/git/Conflict.h:64-72 | a side is without a file exactly when the index has none there, or the merged text is one conflict with no line on that side |
| Conflicts.RunConflictPanel | src/App.h:1730-1809 | however many choices and abandoned edits come first: an accepted text is the outcome whatever was chosen before, and no file exactly when it is empty and one side has no file; cancelling cancels; giving up an edit asks about the same hunk again; with a side chosen for each conflict, the common lines and the lines of those sides in order |
| Conflicts.OneSide | src/App.h:1736-1808 | answering every conflict with one side gives the content of that side if and only if it has lines or its file does not exist |
| Conflicts.ChoosingInText | src/git/Conflict.h:237-245 | in a merged text that ends outside of its conflicts, choosing one side everywhere gives the common lines and the lines of that side as parsed |
| Conflicts.ChoosingASide | src/git/Conflict.h:223-293 | for every supported conflict of the index, choosing one side everywhere gives the commit of that side, its file or no file where the other side has none or a file, and of two files the merged text with the lines of that side |
| Conflicts.ChoosingInMerged | src/git/Conflict.h:237-245 | for files without marker lines it is the common lines with the lines of that side, as the merge wrote them |
| Conflicts.FileIsKept | src/git/Conflict.h:237-245 | no side of a merged file is lost as long as it has no start marker outside of the conflicts and no end marker inside one |
| Conflicts.MarkersLoseAFile | src/git/Conflict.h:138-146 | a file of theirs that begins with an end and a start marker is lost when it is chosen |
| Histories.BackKeepsAll | src/History.h:29-34 | going back keeps the whole timeline and is undone by going forward |
| Histories.ForwardKeepsAll | src/History.h:36-41 | going forward keeps the whole timeline and is undone by going back |
| Histories.PushCutsRedo | src/History.h:23-27 | a push cuts off what could have been redone, and nothing else |
| Histories.History.Push | src/History.h:23-27 | pushes onto the timeline |
| Histories.History.Prev | src/History.h:29-34 | goes back on the timeline |
| Histories.History.Next | src/History.h:36-41 | goes forward on the timeline |
| Histories.History.PrevPeek | src/History.h:43-46 | what going back would make current |
| Histories.History.NextPeek | src/History.h:48-51 | what going forward would make current |
| Snapshots.CleanSnapshots | src/state/State.h:422-437 | in order, the earliest snapshot of each ref state and nothing else |
| Snapshots.CleanedIsUnique | src/state/State.h:422-437 | there is one such list |
| Snapshots.CleanedInTime | src/state/State.h:133-137 | it is in order of time, and lists of each state that was there the earliest snapshot |
| Snapshots.CleaningIsIdempotent | src/state/State.h:422-437 | cleaning again changes nothing; one snapshot per state, and of every state the earliest time |
| Snapshots.CleaningAsYouGo | src/state/State.h:546-555 | cleaning after every push comes to cleaning all that was ever pushed |
| RepoStates.RepoState.constructor | src/state/State.h:490-506 | loads every ref, with the stored history only if it ends where the ref is |
| RepoStates.RepoState.LoadRef | src/state/State.h:439-486 | loads a ref once |
| RepoStates.RepoState.Write | src/state/State.h:508-534 | writes the refs that are new or whose history changed into the file as it is by then |
| RepoStates.RepoState.SnapshotInitialPush | src/state/State.h:546-555 | adds the first snapshot of the session once, cleaned, and touches nothing else |
| RepoStates.RepoState.RefReplace | src/state/State.h:562-572 | moves what is remembered to the new ref |
| RepoStates.WritesOnlyItsOwn | src/state/State.h:508-534 | no other entry of the file changes |
| RepoStates.WritesCommute | src/state/State.h:508-534 | sessions with different write sets commute and both results are there; on the same ref the later one wins |
| RepoStates.NothingToWrite | src/state/State.h:439-486 | a session that changes nothing writes only about refs that are not in the file |
| RepoStates.WrittenIsLoaded | src/state/State.h:439-534 | what one session writes about a ref the next one starts with: all of it if the ref is where it was left, otherwise the snapshots and a history that begins where it is |
| RepoStates.NothingStored | src/state/State.h:439-486 | a ref that is not in the file begins with a history of one state and no snapshots; the first snapshot of a session is of the ref as it is then |
| RepoStates.WrittenFits | src/state/State.h:508-534 | what a session writes fits the repository when it is read again |
| RepoStates.RenamedName | src/git/Git.h:1025-1043 | a renamed branch or tag has the new name, and is another ref unless the name is the same |
| RepoStates.KindsOfRefs | src/git/Git.h:1025-1043 | branches and tags, and no other refs, have a name that can be replaced, and stay what they are |
| RepoStates.PushFits | src/App.h:1475-1493 | a state pushed with selections on the new and the old branch keeps the history fitting |
| RepoStates.BackFits | src/App.h:1421-1447 | what was selected before the current state is on the branch of the state before it |
| RepoStates.ForwardFits | src/App.h:1421-1447 | what is selected in the next state is on its branch |
| Results.OperationAccounts | src/git/Modify.h:45-58 | the answer of every operation names each ref that changed and where it is, with selections on the new and on the old branch |
| Sessions.Session.constructor | src/state/State.h:490-506 | a session starts with histories that are where their refs are |
| Sessions.AvailableDoesNotCollide | lib/libgit2/src/refdb_fs.c:1000-1015 | the test of the character after the common length is true exactly when neither ref is a directory on the way to the other |
| Sessions.ReferencePathAvailable | lib/libgit2/src/refdb_fs.c:1017-1061 | true exactly when the name is not in use and collides with no ref |
| Sessions.NotIntoOwnDirectory | src/App.h:1578-1607 | no branch or tag can be given a name in a directory of its own name, as it is copied before it is deleted |
| Sessions.CanRenameIs | lib/libgit2/src/refdb_fs.c:1017-1061 | a branch or a tag can be renamed exactly when the name is valid and free, no ref is a directory on the way to it, and none lies below it |
| Sessions.RenamedAgrees | src/App.h:1596-1599 | after a rename the same commits are selected, of a ref as it is now |
| Sessions.Session.GitRefRename | src/App.h:1578-1607 | renames a ref with its history and what is selected of it, or changes nothing, exactly when the name is invalid, in use or in the way of a ref |
| Sessions.Session.RefStateRestore | src/App.h:1348-1368 | puts ref and name back; fails exactly when the name is not to be had, and then the commit is already replaced and nothing else is |
| Sessions.Session.UndoRedo | src/App.h:1421-1455 | moves ref, name and history one state back or forward; they agree again, and the selection is on the restored branch; after a failure they agree if and only if the commit was the same |
| Sessions.Session.Record | src/App.h:1475-1493 | pushes one state for a ref that changed, and remembers how it was at first; otherwise changes nothing |
| Sessions.Session.GitOpExec | src/App.h:1457-1510 | after any operation every loaded history is where its ref is, and what is selected is on a ref as it is; each changed ref has one new state on top and its first snapshot, and of no other ref anything changes |
| Sessions.Session.Rename | src/App.h:684-704 | a rename is one new state in the history of the ref; what was selected stays selected |
| Sessions.Session.RestoreSnapshot | src/App.h:1399-1417 | restoring a snapshot is one new state with nothing selected, and nothing when the ref is in that state; after a failure ref and history agree if and only if the commit was the same |
| Sessions.UndoFailsHalfway | src/App.h:1399-1455 | from a fresh session, a restored snapshot, a rename and an undo: the undo fails, the branch is at another commit, and its history is not where it is |
| Sessions.Session.RunSteps | src/App.h:1348-1510 | over any run of operations, undos, redos, renames and restorations, as long as no restoration fails, every loaded history is where its ref is, and what is selected is on a ref as it is |
| Sessions.UndoUndoes | src/App.h:1421-1455 | undoing what was just recorded never fails, and takes the ref, and nothing else, back |

## Left out

- Merging: git's rename detection and its tree conflicts between files and directories; a tree is a map from paths to contents, merged path by path. Which conflicts are of a kind that is not supported is a parameter.
- Merge commits with more than four parents, which `commitAmend` asserts against, and signatures that `git_signature_new` rejects.
- Widths of times and offsets, and overflow in them; line numbers and counts in blame; `size_t` sums other than the one in `ApplyHunk`.
- The object database, reading and writing of refs and their errors, upstreams, the reflog, checkout, submodules and configuration: refs are a map from names to commits, and a commit that is named can be found.
- `Toastbox::String` is not part of this model: splitting returns one more piece than there are separators, joining puts them back, trimming removes C's spaces.
- The order in which snapshots of the same second are sorted: commit ids are not modelled, so any strict total order of ref states is taken.
- xdiff: a diff is any aligned list of hunks whose gaps are equal on both sides (`BlameDiff.ValidDiff`). Common tails that are trimmed before the diff are not modelled.
- `GIT_BLAME_IGNORE_WHITESPACE`, with which the gaps of a diff are equal only up to blanks; `BlameFile.BlameInternal` is about diffs whose gaps are equal.
- Reference counts of blame origins, `git_blame__get_origin`, and which of several equal origins is shared: suspects are values.
- Whether an entry is on the boundary is set as in the source, but nothing is stated about it.
- Lines that a hunk callback or the patch itself changes: a marker at the end of a file takes the newline off a copy of the line, so that a patch applied twice is not modelled.
- Binary patches, and applying to an index or a working directory.
- Flushing and freeing the whole attribute cache, macros, and what is in the files: whether a file is out of date and whether loading it succeeds are free choices of every step.
- AttrCache.Step: a state machine on values, where the source updates shared memory; weak memory orders are not modelled.
- Sessions.Session: the list of shown revisions and a detached HEAD, which are updated beside the refs, and the references into the map of loaded refs that a rename makes invalid: a history is looked up again for every change.
- Sessions.Session.RunSteps: nothing is said about the histories after a restoration that fails.
- Refs whose names differ only in what a file system tells apart, and refs that are deleted or created beside a session.
- BlameFile.LikeGit: for a file that was renamed nothing is said about the parents, since a name that is learned later changes where the file is found, and lines that were settled can move on with the others; an empty file, whose one entry has no lines, is not modelled.
- BlameFile.BlameInternal: asks for a range of lines within the file, which the source does not check; what it says about parents is for a file that was never renamed, where a diff that finds the file touched lists it.
- BlameWalk.FindOrigin: which files differ and which of them git takes for renamed are parameters.
- Multi-byte text in `LineWrap.Wrap`, where code points are counted and bytes are cut.
- LineWrap.Wrap: with a width of zero and no height limit the source does not end; the model asks for one of the two.
- Which files conflict, the stages of the index and how it is written when they are resolved; the panels, menus, the event loop and everything else on the screen.
- JSON and the locking of files: reading, merging and writing the state is one step.
