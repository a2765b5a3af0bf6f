# Gerrit Review Buddy, modelled in Dafny

Gerrit Review Buddy is a Jenkins build step that runs before a build started
by a Gerrit event. It looks at the commit under review (HEAD) and does four things:

- It counts the lines the commit changes.
- It turns that count into a suggested review effort: the number of review
  sessions, the length of each session and the minimum number of reviewers.
- It walks the history back from HEAD and credits up to four recent commits
  to every file the commit modifies.
- It ranks the authors of those commits as potential reviewers, without the
  author of HEAD.

The result is attached to the build as a `ReviewBuddyAction`. When the
build completes, `MessageProvider` renders it as the text of the Gerrit
comment.

The modules follow the program:

| file | module | models |
|---|---|---|
| wrappers.dfy | Wrappers | `Option`, and `Fallible` for a call that returns a value or throws an `IOException`/`GitAPIException` |
| effort.dfy | Effort | `roundUpDivision`, `roundUpToMultipleOfFive` and the effort arithmetic of `prebuild` |
| change_set.dfy | ChangeSet | the diff of HEAD against its parent: added and non-added paths, and the changed-line count summed over the edit lists |
| attribution.dfy | Attribution | the history walk that fills the path → commits multimap |
| ranking.dfy | Ranking | flattening the multimap into a multiset of author addresses, removing HEAD's author, `copyHighestCountFirst` |
| report.dfy | Report | `ReviewBuddyAction` and its reviewer entries |
| review_buddy.dfy | ReviewBuddy | `prebuild` as a whole, from the trigger check to the attached action |
| message.dfy | Message | `getBuildCompletedMessage`, the decimal text of counts, and parsing the reviewer lines back |

Each state-changing loop of the source is a method with loop invariants.
The loops of the line count, the walk and the message are proved equal to
specification functions (`ChangedLines`, `Saturated`, `Record`, `Walk`,
`Render`), and lemmas prove what those functions promise. The ranking
methods and `prebuild` state their results directly: per-address credit
counts, membership, no duplicates and highest count first for the ranking,
and for `prebuild` each way the run can end and what the attached action
holds.

Every call into the repository is an input that either yields its value or
fails: opening the repository, resolving HEAD and HEAD^, computing a diff,
each step of the revision walk, and saving the build. A failure takes the
same `return true` path as the source's catch blocks.

Two edge cases are modelled as the code behaves:

- A commit whose edit lists sum to zero lines makes `roundUpDivision`'s
  `checkArgument` throw `IllegalArgumentException`. Examples are a pure
  rename (only when the repository's `diff.renames` setting enables rename
  detection; otherwise a rename is a deletion plus an addition, and every
  line counts), a mode change, or a change to binary files only. `prebuild` does
  not catch that exception, so the model ends in `ThrewIllegalArgument`.
- The walk prints "Skipping merge commit" but does not skip. A merge commit is
  diffed against its first parent and credited like any other commit.

## Model

| member | source | states |
|---|---|---|
| Effort.RoundUpDivision | src/main/java/org/jenkinsci/plugins/gerritreviewbuddy/GerritReviewBuddy.java:272-276 | For positive arguments the result is the ceiling of number/divisor: at least 1, times divisor reaches number, and one less does not. |
| Effort.RoundUpToMultipleOfFive | src/main/java/org/jenkinsci/plugins/gerritreviewbuddy/GerritReviewBuddy.java:278-280 | The result is a multiple of five. For every argument above -5 it is the least multiple of five that is not below the argument. |
| Effort.RoundUpStaysWithinHour | src/main/java/org/jenkinsci/plugins/gerritreviewbuddy/GerritReviewBuddy.java:278-280 | Rounding a value in 1..60 up to a multiple of five stays at most 60. |
| Effort.PerSessionWithinHour | src/main/java/org/jenkinsci/plugins/gerritreviewbuddy/GerritReviewBuddy.java:151-153 | Spreading a review time that fits in s hours over s sessions needs at most 60 minutes per session. |
| Effort.EstimateProperties | src/main/java/org/jenkinsci/plugins/gerritreviewbuddy/GerritReviewBuddy.java:146-157 | The estimate: total time is at least 5 and at least lines/5. The rounded time is the next multiple of five. The session count is the fewest hours that hold it. The session length is a multiple of five in 5..60 and the sessions together cover the rounded time. Reviewers are sessions + 1. |
| Effort.EstimateExamples | src/main/java/org/jenkinsci/plugins/gerritreviewbuddy/GerritReviewBuddy.java:146-157 | 1-5 lines give one 5-minute session and 2 reviewers. 250 lines give one 50-minute session. 1000 lines give four 50-minute sessions and 5 reviewers. |
| Effort.EstimateFitsInJavaInt | src/main/java/org/jenkinsci/plugins/gerritreviewbuddy/GerritReviewBuddy.java:146-157 | For counts up to 2^31-5, none of the estimate's intermediate values overflows a Java int. Covered: the `number + divisor - 1` sums of all three roundUpDivision calls (lines 148, 151 and 153), the `number + 4` sums of both roundings (lines 150 and 152), and the reviewer count. So the unbounded model agrees with 32-bit arithmetic. |
| ChangeSet.CountChanges | src/main/java/org/jenkinsci/plugins/gerritreviewbuddy/GerritReviewBuddy.java:101-137 | The loop's added set, non-added set and changed-line count equal AddedPaths, NonAddedPaths and ChangedLines of the diff entries. |
| ChangeSet.ClassificationByChangeType | src/main/java/org/jenkinsci/plugins/gerritreviewbuddy/GerritReviewBuddy.java:113-118 | A path is an added file iff some ADD entry has it as new path. It is a non-added file iff some entry of another change type has it. |
| ChangeSet.AddedOnlyPathNotSearched | src/main/java/org/jenkinsci/plugins/gerritreviewbuddy/GerritReviewBuddy.java:113-118 | A path carried only by ADD entries is never a non-added file, so it is never looked up in the history. |
| ChangeSet.DeletedFileKeyedByDevNull | src/main/java/org/jenkinsci/plugins/gerritreviewbuddy/GerritReviewBuddy.java:114-118 | A DELETE entry is keyed by its new path /dev/null, so /dev/null becomes a non-added file. |
| ChangeSet.EditsCostAppend | src/main/java/org/jenkinsci/plugins/gerritreviewbuddy/GerritReviewBuddy.java:124-136 | An edit list's cost is additive over concatenation. |
| ChangeSet.ChangedLinesAppend | src/main/java/org/jenkinsci/plugins/gerritreviewbuddy/GerritReviewBuddy.java:113-137 | The changed-line count is additive over any split of the diff entries. |
| ChangeSet.ZeroEditsCostIff | src/main/java/org/jenkinsci/plugins/gerritreviewbuddy/GerritReviewBuddy.java:124-136 | An edit list costs nothing iff each of its edits costs nothing. |
| ChangeSet.ZeroChangedLinesIff | src/main/java/org/jenkinsci/plugins/gerritreviewbuddy/GerritReviewBuddy.java:113-137 | The count is zero iff every edit of every entry costs nothing. |
| ChangeSet.OnlyEmptyEditsCountZero | src/main/java/org/jenkinsci/plugins/gerritreviewbuddy/GerritReviewBuddy.java:124-136 | For edits whose type follows from their lengths, as JGit derives it, the count is zero iff every edit of every entry is EMPTY. |
| ChangeSet.ReplaceCountsNewSideOnly | src/main/java/org/jenkinsci/plugins/gerritreviewbuddy/GerritReviewBuddy.java:132-134 | A REPLACE of a lines by b lines adds b, not a + b. |
| Attribution.IsQuickReturn | src/main/java/org/jenkinsci/plugins/gerritreviewbuddy/GerritReviewBuddy.java:187-192 | The flag is true iff every non-added file has exactly four commits in the table (true when there are none). |
| Attribution.RecordCommit | src/main/java/org/jenkinsci/plugins/gerritreviewbuddy/GerritReviewBuddy.java:215-220 | The loop over a commit's diff equals Record: the commit is put for each target path of the diff that has fewer than four commits. |
| Attribution.RecordAt | src/main/java/org/jenkinsci/plugins/gerritreviewbuddy/GerritReviewBuddy.java:215-220 | After recording, a path holds its old commits plus the commit iff the path is a target in the diff with room. Every other path is unchanged. |
| Attribution.WalkHistory | src/main/java/org/jenkinsci/plugins/gerritreviewbuddy/GerritReviewBuddy.java:169-230 | The walk from an empty multimap equals Walk. Blacklisted authors are skipped; the walk stops on saturation or at a root commit; a diff failure or a failing next() is IoFailure. |
| Attribution.RecordSound | src/main/java/org/jenkinsci/plugins/gerritreviewbuddy/GerritReviewBuddy.java:215-220 | Recording keeps the table sound: only target files as keys, 1..4 commits each, each commit attributable. |
| Attribution.WalkSound | src/main/java/org/jenkinsci/plugins/gerritreviewbuddy/GerritReviewBuddy.java:174-222 | The walk keeps the table sound with respect to the walked commits. |
| Attribution.WalkFromEmptySound | src/main/java/org/jenkinsci/plugins/gerritreviewbuddy/GerritReviewBuddy.java:169-222 | The table built from an empty multimap has only non-added files as keys and at most four commits each. Each credited commit was walked, is not blacklisted, has a parent, and touched the file. |
| Attribution.WalkGrows | src/main/java/org/jenkinsci/plugins/gerritreviewbuddy/GerritReviewBuddy.java:174-222 | Each file's commits at the end of the walk include those it started with. |
| Attribution.CommitCreditedWhenReached | src/main/java/org/jenkinsci/plugins/gerritreviewbuddy/GerritReviewBuddy.java:174-220 | A commit reached before saturation, not blacklisted and with a parent, is credited for every target file of its diff that had room. Merge commits included. |
| Attribution.HeadCreditedForEveryFile | src/main/java/org/jenkinsci/plugins/gerritreviewbuddy/GerritReviewBuddy.java:162-220 | When HEAD comes first, is not blacklisted and its diff holds every non-added file, HEAD is credited for every one of them. |
| Attribution.SaturatedTableIsFinal | src/main/java/org/jenkinsci/plugins/gerritreviewbuddy/GerritReviewBuddy.java:187-197 | A saturated table is never changed again. The walk returns it at the first non-blacklisted commit. |
| Attribution.NoTargetsNoCredit | src/main/java/org/jenkinsci/plugins/gerritreviewbuddy/GerritReviewBuddy.java:187-197 | With no non-added files, the walk credits nobody. |
| Attribution.RootCommitEndsWalk | src/main/java/org/jenkinsci/plugins/gerritreviewbuddy/GerritReviewBuddy.java:199-203 | A parentless, non-blacklisted commit ends the walk. Later commits and how next() would have ended make no difference. |
| Attribution.BlacklistedCommitsAreInvisible | src/main/java/org/jenkinsci/plugins/gerritreviewbuddy/GerritReviewBuddy.java:182-185 | Removing the commits whose author address starts with "jenkins" does not change the walk's outcome. |
| Ranking.CollectReviewers | src/main/java/org/jenkinsci/plugins/gerritreviewbuddy/GerritReviewBuddy.java:232-236 | Each address occurs in the multiset once per (path, commit) pair of the multimap whose commit it authored. |
| Ranking.EntrySet | src/main/java/org/jenkinsci/plugins/gerritreviewbuddy/GerritReviewBuddy.java:242 | Each element of the multiset appears exactly once, with its count, and nothing else appears. |
| Ranking.InsertByCountPermutes | src/main/java/org/jenkinsci/plugins/gerritreviewbuddy/GerritReviewBuddy.java:242 | Inserting by count adds exactly the inserted entry. |
| Ranking.InsertByCountSorted | src/main/java/org/jenkinsci/plugins/gerritreviewbuddy/GerritReviewBuddy.java:242 | Inserting by count into a highest-first sequence keeps it highest-first. |
| Ranking.SortByCountCorrect | src/main/java/org/jenkinsci/plugins/gerritreviewbuddy/GerritReviewBuddy.java:242 | The sort is a permutation of its input and orders it highest count first. |
| Ranking.CopyHighestCountFirst | src/main/java/org/jenkinsci/plugins/gerritreviewbuddy/GerritReviewBuddy.java:242 | Each multiset element appears once with its count, in non-increasing count order. |
| Ranking.EntriesWithoutAuthor | src/main/java/org/jenkinsci/plugins/gerritreviewbuddy/GerritReviewBuddy.java:239-240 | With one element's count set to zero, the entries never mention that element and keep every other count. |
| Ranking.SuggestReviewers | src/main/java/org/jenkinsci/plugins/gerritreviewbuddy/GerritReviewBuddy.java:232-242 | An entry is in the ranking iff its address is not HEAD's author and its count is its positive number of credits. There are no duplicates and counts are highest first. |
| ReviewBuddy.Prebuild | src/main/java/org/jenkinsci/plugins/gerritreviewbuddy/GerritReviewBuddy.java:46-253 | Always returns true. Before line counting, every early exit attaches nothing. A zero count throws IllegalArgumentException. Otherwise an action is attached iff the walk succeeds; it carries the count, the estimate and the ranking, and saved reflects build.save(). |
| ReviewBuddy.HeadTakesAPlaceForEveryFile | src/main/java/org/jenkinsci/plugins/gerritreviewbuddy/GerritReviewBuddy.java:162-240 | When the walk is marked at HEAD and HEAD's walk diff is the diff of line 111, HEAD is credited for every non-added file unless its author is blacklisted. This is why its author is removed before ranking. |
| Message.NatToStringRoundTrip | src/main/java/org/jenkinsci/plugins/gerritreviewbuddy/MessageProvider.java:48 | The decimal text of a count is a non-empty run of digits that reads back as the count. |
| Message.IntToStringStartsWithDigitOrMinus | src/main/java/org/jenkinsci/plugins/gerritreviewbuddy/MessageProvider.java:48 | The text of an int is non-empty and starts with a digit or '-'. |
| Message.BuildCompletedMessage | src/main/java/org/jenkinsci/plugins/gerritreviewbuddy/MessageProvider.java:37-76 | Null iff no action is attached. Otherwise the StringBuilder's text is Render of the action. |
| Message.AppendHeader | src/main/java/org/jenkinsci/plugins/gerritreviewbuddy/MessageProvider.java:45-48 | Appends the separator, the title and the changed-line sentence. |
| Message.AppendSizeComment | src/main/java/org/jenkinsci/plugins/gerritreviewbuddy/MessageProvider.java:50-57 | Appends the size comment chosen by the 200-line threshold. |
| Message.AppendDuration | src/main/java/org/jenkinsci/plugins/gerritreviewbuddy/MessageProvider.java:59-64 | Appends the duration sentence, with the session count only when it is above one. |
| Message.AppendStaffing | src/main/java/org/jenkinsci/plugins/gerritreviewbuddy/MessageProvider.java:66-73 | Appends the reviewer-count sentence, the list heading and the reviewer lines. |
| Message.AppendReviewerLines | src/main/java/org/jenkinsci/plugins/gerritreviewbuddy/MessageProvider.java:71-73 | Appends one " count email" line per entry, in entry order. |
| Message.ReviewerLinesAppend | src/main/java/org/jenkinsci/plugins/gerritreviewbuddy/MessageProvider.java:71-73 | The lines of entries plus one more entry are the lines of the entries followed by that entry's line. |
| Message.MessageStartsWithHeader | src/main/java/org/jenkinsci/plugins/gerritreviewbuddy/MessageProvider.java:45-48 | Every message starts with separator, title and "This commit changed N lines.", followed by the body. |
| Message.SizeCommentChoice | src/main/java/org/jenkinsci/plugins/gerritreviewbuddy/MessageProvider.java:50-57 | The body starts with the reasonable-size sentence iff the count is at most 200, and with the too-large text and read-through advice iff it is above 200. The duration text follows. |
| Message.SessionsShownOnlyWhenSeveral | src/main/java/org/jenkinsci/plugins/gerritreviewbuddy/MessageProvider.java:59-67 | "N sessions of" appears iff there is more than one session, and "about" comes first iff there is at most one. The length sentence and then the reviewer-count sentence follow. |
| Message.ParseOneLine | src/main/java/org/jenkinsci/plugins/gerritreviewbuddy/MessageProvider.java:72 | A reviewer line in front of any text reads back as its entry, followed by what that text reads back as. |
| Message.ReviewerLinesRoundTrip | src/main/java/org/jenkinsci/plugins/gerritreviewbuddy/MessageProvider.java:71-73 | When no address contains a line break, the reviewer lines read back as exactly the entries, counts and addresses, in order. |
| Message.MessageListsReviewers | src/main/java/org/jenkinsci/plugins/gerritreviewbuddy/MessageProvider.java:66-73 | After the reviewer-count sentence and the heading, the message reads back as the action's reviewer entries. |

## Left out

- Jenkins integration is not modelled: `perform`, `DescriptorImpl`, the constructor, `checkNotNull(build)` and all logging through the build listener. The build's causes become one boolean, and `build.getAction` becomes an `Option`.
- JGit plumbing is not modelled: opening the repository, `getTreeParser`, tree parsing and computing diffs and edit lists. These are inputs: the entries of HEAD's diff with their change types, new paths and edit lists, and for each walked commit the new paths of its diff against its first parent (or a failure).
- The depth-100 `DepthWalk` and its traversal order are not modelled. The walk is given as the sequence of commits `next()` returns, and whether it then returns null or throws.
- ReviewBuddy.Prebuild: does not represent the two uncaught NullPointerExceptions of the source. A HEAD that does not resolve makes `resolve(Constants.HEAD)` return null, which `parseCommit` dereferences (lines 72-74). This happens, for example, for a workspace without a `.git` directory, which `FileRepositoryBuilder.build()` (lines 56-63) accepts. A build without a workspace fails at `getWorkspace().getRemote()` (line 59). The model has no input for either case: the repository and HEAD inputs only succeed or fail with an IOException, which ends in `return true`.
- ReviewBuddy.Prebuild: accepts any given walk, including one that does not start at HEAD or whose HEAD diff differs from the one counted. The source's walk always starts at HEAD with that diff. The predicate ReviewBuddy.WalkStartsAtHead states that link, and ReviewBuddy.HeadTakesAPlaceForEveryFile proves its consequence.
- The type of an edit is an input next to its two lengths, as JGit's `Edit` exposes it. The relation JGit keeps between them is the predicate `ChangeSet.FollowsJGitEditType`, required only by the lemma that relies on it.
- Commit identity: the HashMultimap of RevCommits compares commits by object id only, while the model compares whole `Commit` values. The two agree because the walk yields each commit id once.
- Ranking.CopyHighestCountFirst: fixes the counts' order but not the order among equal counts. Guava breaks those ties by the HashMultiset's iteration order, which depends on hashing. The model takes the entries in an unspecified order and sorts them stably; the contract leaves the order among ties open.
- ReviewBuddy.Prebuild: does not model Java int overflow. Counts are unbounded integers. Effort.EstimateFitsInJavaInt shows the estimate stays in range for any count up to 2^31-5. Larger line counts, and multiset counts, are not bounded.
- ReviewBuddy.Prebuild: what build.save() persists is not modelled, only whether it throws. The action is attached before the save, so it stays attached either way.
- The "Skipping merge commit" and other log lines are not modelled; they change no state.
