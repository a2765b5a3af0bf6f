/** The history walk of GerritReviewBuddy.prebuild (lines 161-230): starting at
    HEAD, each commit of the walk is credited to every non-added file of HEAD's
    diff that its own diff against its first parent touches, until every such
    file has four commits. */
module Attribution {
  import opened Wrappers

  /** `commitCount`: how many commits are kept per file. */
  const CommitCount: nat := 4

  /** Authors whose e-mail address starts with this are service accounts. */
  const BlacklistPrefix: string := "jenkins"

  /** A commit as the walk sees it: its author's e-mail address, its number of
      parents, and the new-side paths of its diff against its first parent
      (or the failure reading the parent, the trees or the diff threw). */
  datatype Commit = Commit(id: string, authorEmail: string, parentCount: nat, diff: Fallible<seq<string>>)

  /** What `revWalk.next()` does once the given commits are used up: return
      null, or throw. */
  datatype WalkEnd = Exhausted | ReadFailure

  /** The HashMultimap from a path to the commits credited for it. A key is
      present only with a non-empty set, as in the multimap's key set. */
  type Table = map<string, set<Commit>>

  /** `result.get(path)`: the commits of a path, empty for an absent key. */
  function Get(t: Table, p: string): set<Commit>
  {
    if p in t then t[p] else {}
  }

  predicate IsBlacklisted(email: string)
  {
    BlacklistPrefix <= email
  }

  /** The `quickReturn` condition: every target file has exactly CommitCount
      commits (vacuously true when there are no target files). */
  predicate Saturated(t: Table, files: set<string>)
  {
    forall f :: f in files ==> |Get(t, f)| == CommitCount
  }

  /** One iteration of the loop at lines 215-220. */
  function Put(t: Table, files: set<string>, c: Commit, p: string): Table
  {
    if p in files && |Get(t, p)| < CommitCount then t[p := Get(t, p) + {c}] else t
  }

  /** The whole loop at lines 215-220 over a commit's diff paths. */
  function Record(t: Table, files: set<string>, c: Commit, paths: seq<string>): Table
    decreases |paths|
  {
    if paths == [] then t else Record(Put(t, files, c, paths[0]), files, c, paths[1..])
  }

  /** The walk at lines 174-222 over the commits `revWalk.next()` yields, in
      order, with the table built so far: a blacklisted author is skipped, a
      saturated table or a parentless commit stops the walk, and any other
      commit (a merge commit included) is recorded against its diff. */
  function Walk(files: set<string>, commits: seq<Commit>, end: WalkEnd, t: Table): Fallible<Table>
    decreases |commits|
  {
    if commits == [] then
      (if end == ReadFailure then IoFailure else Ok(t))
    else
      var c := commits[0];
      if IsBlacklisted(c.authorEmail) then Walk(files, commits[1..], end, t)
      else if Saturated(t, files) then Ok(t)
      else if c.parentCount == 0 then Ok(t)
      else match c.diff
        case IoFailure => IoFailure
        case Ok(paths) => Walk(files, commits[1..], end, Record(t, files, c, paths))
  }

  /** The loop at lines 187-192, which looks at every target file. */
  method IsQuickReturn(result: Table, nonAddedFiles: set<string>) returns (quickReturn: bool)
    ensures quickReturn == Saturated(result, nonAddedFiles)
  {
    quickReturn := true;
    var rest := nonAddedFiles;
    while rest != {}
      invariant rest <= nonAddedFiles
      invariant quickReturn == forall f :: f in nonAddedFiles - rest ==> |Get(result, f)| == CommitCount
      decreases rest
    {
      var file :| file in rest;
      if |Get(result, file)| != CommitCount {
        quickReturn := false;
      }
      rest := rest - {file};
    }
  }

  /** The loop at lines 215-220: credit `commit` to each target path of its
      diff that still has room. */
  method RecordCommit(result: Table, nonAddedFiles: set<string>, commit: Commit, diffs: seq<string>)
    returns (updated: Table)
    ensures updated == Record(result, nonAddedFiles, commit, diffs)
  {
    updated := result;
    for i := 0 to |diffs|
      invariant Record(updated, nonAddedFiles, commit, diffs[i..]) == Record(result, nonAddedFiles, commit, diffs)
    {
      var path := diffs[i];
      assert diffs[i..][1..] == diffs[i + 1..];
      if path in nonAddedFiles && |Get(updated, path)| < CommitCount {
        updated := updated[path := Get(updated, path) + {commit}];
      }
    }
    assert diffs[|diffs|..] == [];
  }

  /** The walk at lines 170-230, from an empty table. */
  method WalkHistory(nonAddedFiles: set<string>, commits: seq<Commit>, end: WalkEnd)
    returns (walked: Fallible<Table>)
    ensures walked == Walk(nonAddedFiles, commits, end, map[])
  {
    var result: Table := map[];
    var i := 0;
    while i < |commits|
      invariant 0 <= i <= |commits|
      invariant Walk(nonAddedFiles, commits[i..], end, result) == Walk(nonAddedFiles, commits, end, map[])
    {
      var revCommit := commits[i];
      assert commits[i..][1..] == commits[i + 1..];
      i := i + 1;
      if IsBlacklisted(revCommit.authorEmail) {
        continue;
      }
      var quickReturn := IsQuickReturn(result, nonAddedFiles);
      if quickReturn {
        return Ok(result);
      }
      if revCommit.parentCount == 0 {
        return Ok(result);
      }
      match revCommit.diff {
        case IoFailure =>
          return IoFailure;
        case Ok(diffs) =>
          result := RecordCommit(result, nonAddedFiles, revCommit, diffs);
      }
    }
    assert commits[i..] == [];
    if end == ReadFailure {
      return IoFailure;
    }
    return Ok(result);
  }

  /** Recording a commit adds it to exactly the target paths of its diff
      that had fewer than CommitCount commits, and changes nothing else. */
  lemma {:induction false} RecordAt(t: Table, files: set<string>, c: Commit, paths: seq<string>, p: string)
    ensures Get(Record(t, files, c, paths), p) ==
      if p in files && p in paths && |Get(t, p)| < CommitCount then Get(t, p) + {c} else Get(t, p)
    decreases |paths|
  {
    if paths != [] {
      var t' := Put(t, files, c, paths[0]);
      RecordAt(t', files, c, paths[1..], p);
      assert p in paths <==> p == paths[0] || p in paths[1..];
    }
  }

  /** Why a commit may be credited for a path: its author is not blacklisted,
      it has a parent, and its diff against that parent touches the path. */
  predicate Attributable(c: Commit, p: string)
  {
    && !IsBlacklisted(c.authorEmail)
    && c.parentCount >= 1
    && c.diff.Ok?
    && p in c.diff.value
  }

  /** The invariant of the table: keys are target files, each with between
      one and CommitCount commits, each commit one of `pool` and creditable
      for that key. */
  ghost predicate Sound(t: Table, files: set<string>, pool: seq<Commit>)
  {
    forall p :: p in t ==>
      && p in files
      && 1 <= |t[p]| <= CommitCount
      && forall c :: c in t[p] ==> c in pool && Attributable(c, p)
  }

  lemma {:induction false} RecordSound(t: Table, files: set<string>, c: Commit, paths: seq<string>, pool: seq<Commit>)
    requires Sound(t, files, pool)
    requires c in pool && !IsBlacklisted(c.authorEmail) && c.parentCount >= 1 && c.diff.Ok?
    requires forall q :: q in paths ==> q in c.diff.value
    ensures Sound(Record(t, files, c, paths), files, pool)
    decreases |paths|
  {
    if paths != [] {
      var t' := Put(t, files, c, paths[0]);
      assert Sound(t', files, pool);
      RecordSound(t', files, c, paths[1..], pool);
    }
  }

  /** The walk keeps the table sound: whatever it returns has only target
      files as keys, at most CommitCount commits per file, and credits only
      walked, non-blacklisted commits with a parent that touched the file. */
  lemma {:induction false} WalkSound(files: set<string>, commits: seq<Commit>, end: WalkEnd, t: Table, pool: seq<Commit>)
    requires Sound(t, files, pool)
    requires forall c :: c in commits ==> c in pool
    ensures Walk(files, commits, end, t).Ok? ==> Sound(Walk(files, commits, end, t).value, files, pool)
    decreases |commits|
  {
    if commits != [] {
      var c := commits[0];
      assert c in commits;
      assert forall d :: d in commits[1..] ==> d in commits;
      if !IsBlacklisted(c.authorEmail) && !Saturated(t, files) && c.parentCount != 0 && c.diff.Ok? {
        RecordSound(t, files, c, c.diff.value, pool);
        WalkSound(files, commits[1..], end, Record(t, files, c, c.diff.value), pool);
      } else if IsBlacklisted(c.authorEmail) {
        WalkSound(files, commits[1..], end, t, pool);
      }
    }
  }

  /** The table the source builds from an empty multimap is sound with
      respect to the commits walked: at most four commits per file, only
      non-added files as keys, and no commit by a blacklisted author. */
  lemma WalkFromEmptySound(files: set<string>, commits: seq<Commit>, end: WalkEnd)
    ensures Walk(files, commits, end, map[]).Ok? ==> Sound(Walk(files, commits, end, map[]).value, files, commits)
  {
    WalkSound(files, commits, end, map[], commits);
  }

  /** The walk only ever adds commits: each file's commits at the end include
      those it started with. */
  lemma {:induction false} WalkGrows(files: set<string>, commits: seq<Commit>, end: WalkEnd, t: Table, p: string)
    ensures Walk(files, commits, end, t).Ok? ==> Get(t, p) <= Get(Walk(files, commits, end, t).value, p)
    decreases |commits|
  {
    if commits != [] {
      var c := commits[0];
      if IsBlacklisted(c.authorEmail) {
        WalkGrows(files, commits[1..], end, t, p);
      } else if !Saturated(t, files) && c.parentCount != 0 && c.diff.Ok? {
        var t' := Record(t, files, c, c.diff.value);
        RecordAt(t, files, c, c.diff.value, p);
        WalkGrows(files, commits[1..], end, t', p);
      }
    }
  }

  /** A commit that the walk reaches before the table is saturated, whose
      author is not blacklisted and which has a parent, is credited for every
      target file its diff touches that still had room. This includes merge
      commits, which are diffed against their first parent like any other. */
  lemma CommitCreditedWhenReached(files: set<string>, commits: seq<Commit>, end: WalkEnd, t: Table, p: string)
    requires commits != []
    requires !IsBlacklisted(commits[0].authorEmail) && !Saturated(t, files)
    requires commits[0].parentCount >= 1 && commits[0].diff.Ok?
    requires p in files && p in commits[0].diff.value && |Get(t, p)| < CommitCount
    ensures Walk(files, commits, end, t).Ok? ==> commits[0] in Get(Walk(files, commits, end, t).value, p)
  {
    var c := commits[0];
    RecordAt(t, files, c, c.diff.value, p);
    WalkGrows(files, commits[1..], end, Record(t, files, c, c.diff.value), p);
  }

  /** HEAD comes first in the walk and its diff holds every non-added file,
      so unless its author is blacklisted HEAD is credited for every one of
      them; this is why HEAD's author is removed before ranking. */
  lemma HeadCreditedForEveryFile(files: set<string>, commits: seq<Commit>, end: WalkEnd, f: string)
    requires commits != [] && f in files
    requires !IsBlacklisted(commits[0].authorEmail) && commits[0].parentCount >= 1
    requires commits[0].diff.Ok? && forall q :: q in files ==> q in commits[0].diff.value
    ensures Walk(files, commits, end, map[]).Ok? ==> commits[0] in Get(Walk(files, commits, end, map[]).value, f)
  {
    assert |Get(map[], f)| == 0;
    CommitCreditedWhenReached(files, commits, end, map[], f);
  }

  /** Once the table is saturated it never changes again: the walk returns it
      as it is (or the read failure of a walk that only meets blacklisted
      commits until the end), and it returns it as soon as one commit with a
      non-blacklisted author comes. */
  lemma {:induction false} SaturatedTableIsFinal(files: set<string>, commits: seq<Commit>, end: WalkEnd, t: Table)
    requires Saturated(t, files)
    ensures Walk(files, commits, end, t).Ok? ==> Walk(files, commits, end, t).value == t
    ensures (exists i :: 0 <= i < |commits| && !IsBlacklisted(commits[i].authorEmail)) ==> Walk(files, commits, end, t) == Ok(t)
    decreases |commits|
  {
    if commits != [] && IsBlacklisted(commits[0].authorEmail) {
      SaturatedTableIsFinal(files, commits[1..], end, t);
      if exists i :: 0 <= i < |commits| && !IsBlacklisted(commits[i].authorEmail) {
        var i :| 0 <= i < |commits| && !IsBlacklisted(commits[i].authorEmail);
        assert commits[1..][i - 1] == commits[i];
      }
    }
  }

  /** With no non-added files the table is saturated from the start, so the
      walk credits nobody. */
  lemma NoTargetsNoCredit(commits: seq<Commit>, end: WalkEnd)
    ensures Walk({}, commits, end, map[]).Ok? ==> Walk({}, commits, end, map[]).value == map[]
  {
    SaturatedTableIsFinal({}, commits, end, map[]);
  }

  /** A parentless commit by a non-blacklisted author ends the walk: the
      commits after it, and how the walk would have ended, make no difference. */
  lemma {:induction false} RootCommitEndsWalk(files: set<string>, commits: seq<Commit>, end: WalkEnd, t: Table, k: nat)
    requires k < |commits|
    requires !IsBlacklisted(commits[k].authorEmail) && commits[k].parentCount == 0
    ensures Walk(files, commits, end, t) == Walk(files, commits[..k + 1], Exhausted, t)
    decreases k
  {
    var c := commits[0];
    var prefix := commits[..k + 1];
    assert prefix[0] == c;
    if k > 0 {
      assert prefix[1..] == commits[1..][..k];
      if IsBlacklisted(c.authorEmail) {
        RootCommitEndsWalk(files, commits[1..], end, t, k - 1);
      } else if !Saturated(t, files) && c.parentCount != 0 && c.diff.Ok? {
        RootCommitEndsWalk(files, commits[1..], end, Record(t, files, c, c.diff.value), k - 1);
      }
    }
  }

  function WithoutBlacklisted(commits: seq<Commit>): seq<Commit>
  {
    if commits == [] then []
    else if IsBlacklisted(commits[0].authorEmail) then WithoutBlacklisted(commits[1..])
    else [commits[0]] + WithoutBlacklisted(commits[1..])
  }

  /** Commits by blacklisted authors are invisible to the walk: the blacklist
      test comes before the saturation and parent tests, so dropping those
      commits from the walk gives the same outcome, even when such a commit
      has no parent. */
  lemma {:induction false} BlacklistedCommitsAreInvisible(files: set<string>, commits: seq<Commit>, end: WalkEnd, t: Table)
    ensures Walk(files, commits, end, t) == Walk(files, WithoutBlacklisted(commits), end, t)
    decreases |commits|
  {
    if commits != [] {
      var c := commits[0];
      if IsBlacklisted(c.authorEmail) {
        BlacklistedCommitsAreInvisible(files, commits[1..], end, t);
      } else {
        var rest := WithoutBlacklisted(commits[1..]);
        assert ([c] + rest)[1..] == rest;
        BlacklistedCommitsAreInvisible(files, commits[1..], end, t);
        if !Saturated(t, files) && c.parentCount != 0 && c.diff.Ok? {
          BlacklistedCommitsAreInvisible(files, commits[1..], end, Record(t, files, c, c.diff.value));
        }
      }
    }
  }
}
