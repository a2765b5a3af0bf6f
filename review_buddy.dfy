/** GerritReviewBuddy.prebuild: the whole analysis of one build, from the
    trigger check to the report attached to the build. Every call into the
    repository is an input that either yields its value or fails. */
module ReviewBuddy {
  import opened Wrappers
  import opened Effort
  import opened ChangeSet
  import opened Attribution
  import opened Ranking
  import opened Report

  /** What `revWalk.next()` yields (the depth-100 walk marked at HEAD), and
      how it ends. WalkStartsAtHead states how it relates to HEAD. */
  datatype History = History(commits: seq<Commit>, end: WalkEnd)

  /** The answers of the repository to the calls prebuild makes, in order. */
  datatype Repository = Repository(
    head: Fallible<Commit>,               // resolve(HEAD), parseCommit (lines 70-78)
    parent: Fallible<string>,             // resolve("HEAD^"), parseCommit (lines 89-97)
    headDiff: Fallible<seq<DiffEntry>>,   // diff of the parent tree to HEAD's, with edit lists (lines 105-144)
    history: Fallible<History>,           // markRoot (lines 162-168), then the walk
    save: Fallible<()>)                   // build.save() (lines 246-251)

  /** The build prebuild runs for: whether a Gerrit event caused it, and its
      workspace's repository, or the failure opening it (lines 54-67). */
  datatype Build = Build(triggeredByGerrit: bool, repository: Fallible<Repository>)

  /** How prebuild ends: it returns (always `true` in the source) with the
      action it attached to the build, if any, and whether saving the build
      succeeded; or the IllegalArgumentException of roundUpDivision escapes. */
  datatype Completion =
    | Returned(proceed: bool, attached: Option<ReviewBuddyAction>, saved: bool)
    | ThrewIllegalArgument

  /** The conditions under which prebuild returns before counting lines: no
      Gerrit cause, a failure opening the repository or reading HEAD, a root
      or merge commit at HEAD, or a failure reading HEAD's parent or the diff. */
  predicate ShortCircuits(build: Build)
  {
    || !build.triggeredByGerrit
    || build.repository.IoFailure?
    || build.repository.value.head.IoFailure?
    || build.repository.value.head.value.parentCount != 1
    || build.repository.value.parent.IoFailure?
    || build.repository.value.headDiff.IoFailure?
  }

  /** The table the walk of a build builds, when the run gets that far. */
  function WalkOf(build: Build): Fallible<Table>
    requires !ShortCircuits(build)
  {
    var repo := build.repository.value;
    match repo.history
    case IoFailure => IoFailure
    case Ok(h) => Walk(NonAddedPaths(repo.headDiff.value), h.commits, h.end, map[])
  }

  /** The new-side paths of HEAD's diff against its parent (lines 105-111). */
  function HeadDiffPaths(headDiff: seq<DiffEntry>): seq<string>
  {
    seq(|headDiff|, i requires 0 <= i < |headDiff| => headDiff[i].newPath)
  }

  /** The walk is marked at HEAD (lines 162-164), so `next()` yields HEAD
      first, and HEAD's diff against its first parent in the walk (lines
      204-211) is the diff of HEAD^ to HEAD read at line 111. */
  predicate WalkStartsAtHead(build: Build)
    requires !ShortCircuits(build)
  {
    var repo := build.repository.value;
    repo.history.Ok? ==>
      && repo.history.value.commits != []
      && repo.history.value.commits[0] == repo.head.value
      && repo.head.value.diff == Ok(HeadDiffPaths(repo.headDiff.value))
  }

  /** In a walk that starts at HEAD, HEAD takes one of the four places of
      every non-added file, unless its author is blacklisted. So whenever
      HEAD's diff has a non-added file and the walk succeeds, HEAD's author
      is among the credited authors, which is why prebuild removes that
      author before ranking (lines 238-240). */
  lemma HeadTakesAPlaceForEveryFile(build: Build, f: string)
    requires !ShortCircuits(build) && WalkStartsAtHead(build)
    requires !IsBlacklisted(build.repository.value.head.value.authorEmail)
    requires f in NonAddedPaths(build.repository.value.headDiff.value)
    ensures WalkOf(build).Ok? ==> build.repository.value.head.value in Get(WalkOf(build).value, f)
  {
    var repo := build.repository.value;
    if repo.history.Ok? {
      var entries := repo.headDiff.value;
      var files := NonAddedPaths(entries);
      var paths := HeadDiffPaths(entries);
      forall q | q in files
        ensures q in paths
      {
        var e :| e in entries && e.changeType != Added && e.newPath == q;
        var i :| 0 <= i < |entries| && entries[i] == e;
        assert paths[i] == q;
      }
      var h := repo.history.value;
      HeadCreditedForEveryFile(files, h.commits, h.end, f);
    }
  }

  method Prebuild(build: Build) returns (completion: Completion)
    ensures completion.Returned? ==> completion.proceed
    ensures ShortCircuits(build) ==> completion == Returned(true, None, false)
    ensures !ShortCircuits(build) ==>
      (completion.ThrewIllegalArgument? <==> ChangedLines(build.repository.value.headDiff.value) == 0)
    ensures !ShortCircuits(build) && ChangedLines(build.repository.value.headDiff.value) > 0 ==>
      (completion.Returned? && completion.attached.Some? <==> WalkOf(build).Ok?)
    ensures completion.Returned? && completion.attached.Some? ==>
      && !ShortCircuits(build)
      && var repo := build.repository.value;
      && var n := ChangedLines(repo.headDiff.value);
      && n > 0
      && WalkOf(build).Ok?
      && var t := WalkOf(build).value;
      && var a := completion.attached.value;
      && a.changedLinesCount == n
      && a.reviewSessionsCount == EstimateEffort(n).reviewSessionsCount
      && a.reviewSessionsLength == EstimateEffort(n).reviewSessionsLength
      && a.reviewersCount == EstimateEffort(n).reviewersCount
      && NoDuplicates(a.potentialReviewers)
      && HighestCountFirst(a.potentialReviewers)
      && (forall x :: x in a.potentialReviewers <==>
            x.email != repo.head.value.authorEmail && x.count > 0 && x.count == |CreditsBy(t, x.email)|)
      && completion.saved == repo.save.Ok?
  {
    if !build.triggeredByGerrit {
      return Returned(true, None, false);
    }
    if build.repository.IoFailure? {
      return Returned(true, None, false);
    }
    var fileRepository := build.repository.value;
    if fileRepository.head.IoFailure? {
      return Returned(true, None, false);
    }
    var head := fileRepository.head.value;
    if head.parentCount == 0 {
      return Returned(true, None, false);
    }
    if head.parentCount > 1 {
      return Returned(true, None, false);
    }
    if fileRepository.parent.IoFailure? {
      return Returned(true, None, false);
    }
    if fileRepository.headDiff.IoFailure? {
      return Returned(true, None, false);
    }
    var addedFiles, nonAddedFiles, changedLinesCount := CountChanges(fileRepository.headDiff.value);

    // Suggest a review time: roundUpDivision's checkArgument rejects a zero count.
    if changedLinesCount <= 0 {
      return ThrewIllegalArgument;
    }
    var totalReviewTime := RoundUpDivision(changedLinesCount, 5);
    if totalReviewTime < 5 {
      totalReviewTime := 5;
    }
    var roundedReviewTime := RoundUpToMultipleOfFive(totalReviewTime);
    var reviewSessionsCount := RoundUpDivision(roundedReviewTime, 60);
    var reviewSessionsLength := RoundUpToMultipleOfFive(RoundUpDivision(roundedReviewTime, reviewSessionsCount));
    var reviewersCount := reviewSessionsCount + 1;

    // Find potential reviewers.
    if fileRepository.history.IoFailure? {
      return Returned(true, None, false);
    }
    var history := fileRepository.history.value;
    var walked := WalkHistory(nonAddedFiles, history.commits, history.end);
    if walked.IoFailure? {
      return Returned(true, None, false);
    }
    var result := walked.value;
    var sortedReviewers := SuggestReviewers(result, head.authorEmail);
    var action := ReviewBuddyAction(changedLinesCount, reviewSessionsCount, reviewSessionsLength,
                                    reviewersCount, sortedReviewers);
    return Returned(true, Some(action), fileRepository.save.Ok?);
  }
}
