/** The first half of GerritReviewBuddy.prebuild's analysis: the diff of HEAD
    against its parent is split into added and non-added paths, and the edit
    lists of its entries are summed into a changed-line count. */
module ChangeSet {

  /** The path JGit reports on the missing side of an added or deleted file. */
  const DevNull: string := "/dev/null"

  /** JGit's DiffEntry.ChangeType. */
  datatype ChangeType = Added | Modified | Deleted | Renamed | Copied

  /** JGit's Edit.Type. */
  datatype EditType = Insert | Delete | Replace | Empty

  /** One edit of an entry's edit list: `lengthA` lines of the old side become
      `lengthB` lines of the new side. */
  datatype Edit = Edit(kind: EditType, lengthA: nat, lengthB: nat)

  /** A diff entry with the new-side path it is keyed by and the edit list the
      diff formatter produced for it. */
  datatype DiffEntry = DiffEntry(changeType: ChangeType, newPath: string, edits: seq<Edit>)

  /** JGit names the new side of a deleted file /dev/null. */
  predicate FollowsJGitPaths(e: DiffEntry)
  {
    e.changeType == Deleted ==> e.newPath == DevNull
  }

  /** JGit derives an edit's type from its lengths: nothing replaced by
      nothing is EMPTY, lines removed for nothing DELETE, nothing replaced by
      lines INSERT, and lines replaced by lines REPLACE. */
  predicate FollowsJGitEditType(e: Edit)
  {
    match e.kind
    case Empty => e.lengthA == 0 && e.lengthB == 0
    case Delete => e.lengthA > 0 && e.lengthB == 0
    case Insert => e.lengthA == 0 && e.lengthB > 0
    case Replace => e.lengthA > 0 && e.lengthB > 0
  }

  /** What one edit adds to the changed-line count (the switch at lines 125-135). */
  function EditCost(e: Edit): nat
  {
    match e.kind
    case Delete => e.lengthA
    case Insert => e.lengthB
    case Replace => e.lengthB
    case Empty => 0
  }

  function EditsCost(edits: seq<Edit>): nat
  {
    if edits == [] then 0 else EditsCost(edits[..|edits| - 1]) + EditCost(edits[|edits| - 1])
  }

  function ChangedLines(entries: seq<DiffEntry>): nat
  {
    if entries == [] then 0
    else ChangedLines(entries[..|entries| - 1]) + EditsCost(entries[|entries| - 1].edits)
  }

  function AddedPaths(entries: seq<DiffEntry>): set<string>
  {
    set e | e in entries && e.changeType == Added :: e.newPath
  }

  function NonAddedPaths(entries: seq<DiffEntry>): set<string>
  {
    set e | e in entries && e.changeType != Added :: e.newPath
  }

  /** The loop at lines 113-137: classify each entry by its new path and add
      up the cost of every edit. */
  method CountChanges(diffEntries: seq<DiffEntry>)
    returns (addedFiles: set<string>, nonAddedFiles: set<string>, changedLinesCount: int)
    ensures addedFiles == AddedPaths(diffEntries)
    ensures nonAddedFiles == NonAddedPaths(diffEntries)
    ensures changedLinesCount == ChangedLines(diffEntries)
  {
    addedFiles, nonAddedFiles, changedLinesCount := {}, {}, 0;
    for i := 0 to |diffEntries|
      invariant addedFiles == AddedPaths(diffEntries[..i])
      invariant nonAddedFiles == NonAddedPaths(diffEntries[..i])
      invariant changedLinesCount == ChangedLines(diffEntries[..i])
    {
      var diffEntry := diffEntries[i];
      assert diffEntries[..i + 1] == diffEntries[..i] + [diffEntry];
      if diffEntry.changeType == Added {
        addedFiles := addedFiles + {diffEntry.newPath};
      } else {
        nonAddedFiles := nonAddedFiles + {diffEntry.newPath};
      }
      var editList := diffEntry.edits;
      var lines := changedLinesCount;
      for j := 0 to |editList|
        invariant changedLinesCount == lines + EditsCost(editList[..j])
      {
        assert editList[..j + 1][..j] == editList[..j];
        var edit := editList[j];
        match edit.kind {
          case Delete => changedLinesCount := changedLinesCount + edit.lengthA;
          case Insert => changedLinesCount := changedLinesCount + edit.lengthB;
          case Replace => changedLinesCount := changedLinesCount + edit.lengthB;
          case Empty =>
        }
      }
      assert editList[..|editList|] == editList;
      assert (diffEntries[..i + 1])[..i] == diffEntries[..i];
    }
    assert diffEntries[..|diffEntries|] == diffEntries;
  }

  /** Each entry's new path lands in exactly the bucket its change type
      selects: an added entry's path is in addedFiles, any other entry's path
      in nonAddedFiles, and a path is in a bucket only because of such an entry. */
  lemma ClassificationByChangeType(entries: seq<DiffEntry>, p: string)
    ensures p in AddedPaths(entries) <==> exists e :: e in entries && e.changeType == Added && e.newPath == p
    ensures p in NonAddedPaths(entries) <==> exists e :: e in entries && e.changeType != Added && e.newPath == p
  {
    if p in AddedPaths(entries) {
      var e :| e in entries && e.changeType == Added && e.newPath == p;
    }
    if p in NonAddedPaths(entries) {
      var e :| e in entries && e.changeType != Added && e.newPath == p;
    }
  }

  /** A path that only added entries carry is never a non-added file, so an
      added file is never looked up in the history. */
  lemma AddedOnlyPathNotSearched(entries: seq<DiffEntry>, p: string)
    requires forall e :: e in entries && e.newPath == p ==> e.changeType == Added
    ensures p !in NonAddedPaths(entries)
  {
  }

  /** A deleted file is keyed by its new-side path, so /dev/null, not the
      deleted file's own path, becomes a non-added file. */
  lemma DeletedFileKeyedByDevNull(entries: seq<DiffEntry>, i: nat)
    requires i < |entries| && entries[i].changeType == Deleted
    requires FollowsJGitPaths(entries[i])
    ensures DevNull in NonAddedPaths(entries)
  {
    assert entries[i] in entries;
  }

  lemma {:induction false} EditsCostAppend(a: seq<Edit>, b: seq<Edit>)
    ensures EditsCost(a + b) == EditsCost(a) + EditsCost(b)
    decreases |b|
  {
    if b == [] {
      assert a + b == a;
    } else {
      var b' := b[..|b| - 1];
      assert (a + b)[..|a + b| - 1] == a + b';
      EditsCostAppend(a, b');
    }
  }

  /** The changed-line count is additive over the diff entries: the count of
      a diff is the counts of any split of it added together. */
  lemma {:induction false} ChangedLinesAppend(a: seq<DiffEntry>, b: seq<DiffEntry>)
    ensures ChangedLines(a + b) == ChangedLines(a) + ChangedLines(b)
    decreases |b|
  {
    if b == [] {
      assert a + b == a;
    } else {
      var b' := b[..|b| - 1];
      assert (a + b)[..|a + b| - 1] == a + b';
      ChangedLinesAppend(a, b');
    }
  }

  /** The count is zero exactly when every edit of every entry costs nothing.
      For edit lists as JGit builds them that means every edit is EMPTY; see
      OnlyEmptyEditsCountZero. */
  lemma {:induction false} ZeroChangedLinesIff(entries: seq<DiffEntry>)
    ensures ChangedLines(entries) == 0 <==>
      forall i, j :: 0 <= i < |entries| && 0 <= j < |entries[i].edits| ==> EditCost(entries[i].edits[j]) == 0
    decreases |entries|
  {
    if entries != [] {
      var init := entries[..|entries| - 1];
      var last := entries[|entries| - 1];
      ZeroChangedLinesIff(init);
      ZeroEditsCostIff(last.edits);
      assert forall i :: 0 <= i < |init| ==> init[i] == entries[i];
    }
  }

  lemma {:induction false} ZeroEditsCostIff(edits: seq<Edit>)
    ensures EditsCost(edits) == 0 <==> forall j :: 0 <= j < |edits| ==> EditCost(edits[j]) == 0
    decreases |edits|
  {
    if edits != [] {
      var init := edits[..|edits| - 1];
      ZeroEditsCostIff(init);
      assert forall j :: 0 <= j < |init| ==> init[j] == edits[j];
    }
  }

  /** A replacement counts only its new side: replacing a lines by b lines
      costs b, not a + b. */
  lemma ReplaceCountsNewSideOnly(kind: ChangeType, path: string, a: nat, b: nat)
    ensures ChangedLines([DiffEntry(kind, path, [Edit(Replace, a, b)])]) == b
  {
    var entries := [DiffEntry(kind, path, [Edit(Replace, a, b)])];
    var edits := [Edit(Replace, a, b)];
    assert entries[..0] == [] && edits[..0] == [];
    assert EditsCost(edits) == b;
  }

  /** For edit lists as JGit builds them, a diff counts zero changed lines
      exactly when every edit of every entry is EMPTY; this is the case in
      which roundUpDivision rejects the count. */
  lemma OnlyEmptyEditsCountZero(entries: seq<DiffEntry>)
    requires forall i, j :: 0 <= i < |entries| && 0 <= j < |entries[i].edits| ==> FollowsJGitEditType(entries[i].edits[j])
    ensures ChangedLines(entries) == 0 <==>
      forall i, j :: 0 <= i < |entries| && 0 <= j < |entries[i].edits| ==> entries[i].edits[j].kind == Empty
  {
    ZeroChangedLinesIff(entries);
  }
}
