/** The ranking at the end of GerritReviewBuddy.prebuild (lines 232-242): the
    table of credited commits becomes a multiset of author e-mail addresses,
    HEAD's author is removed from it, and it is copied highest count first. */
module Ranking {
  import opened Attribution
  import opened Report

  /** Every (path, commit) pair of the table: one per `result.put`. */
  ghost function Credits(t: Table): set<(string, Commit)>
  {
    set p, c | p in t && c in t[p] :: (p, c)
  }

  /** The pairs of `s` whose commit is by `email`. */
  ghost function ByAuthor(s: set<(string, Commit)>, email: string): set<(string, Commit)>
  {
    set a | a in s && a.1.authorEmail == email
  }

  /** The pairs of the table whose commit is by `email`. */
  ghost function CreditsBy(t: Table, email: string): set<(string, Commit)>
  {
    ByAuthor(Credits(t), email)
  }

  lemma ByAuthorAdd(s: set<(string, Commit)>, a: (string, Commit), email: string)
    requires a !in s
    ensures |ByAuthor(s + {a}, email)| == |ByAuthor(s, email)| + (if a.1.authorEmail == email then 1 else 0)
  {
    if a.1.authorEmail == email {
      assert ByAuthor(s + {a}, email) == ByAuthor(s, email) + {a};
    } else {
      assert ByAuthor(s + {a}, email) == ByAuthor(s, email);
    }
  }

  /** The loops at lines 232-236: one occurrence of the author's address per
      credited (path, commit) pair. */
  method CollectReviewers(result: Table) returns (potentialReviewers: multiset<string>)
    ensures forall email :: potentialReviewers[email] == |CreditsBy(result, email)|
  {
    potentialReviewers := multiset{};
    ghost var done: set<(string, Commit)> := {};
    var paths := result.Keys;
    while paths != {}
      invariant paths <= result.Keys
      invariant done == set p, c | p in result && p !in paths && c in result[p] :: (p, c)
      invariant forall email :: potentialReviewers[email] == |ByAuthor(done, email)|
      decreases paths
    {
      var path :| path in paths;
      var revCommits := result[path];
      ghost var before := done;
      while revCommits != {}
        invariant revCommits <= result[path]
        invariant done == before + set c | c in result[path] && c !in revCommits :: (path, c)
        invariant forall email :: potentialReviewers[email] == |ByAuthor(done, email)|
        decreases revCommits
      {
        var revCommit :| revCommit in revCommits;
        forall email {
          ByAuthorAdd(done, (path, revCommit), email);
        }
        potentialReviewers := potentialReviewers + multiset{revCommit.authorEmail};
        done := done + {(path, revCommit)};
        revCommits := revCommits - {revCommit};
      }
      paths := paths - {path};
    }
    assert done == Credits(result);
  }

  /** The entries of a multiset: each element once, with its count. */
  ghost function EntriesOf(m: multiset<string>): set<ReviewerEntry>
  {
    set e | e in m :: ReviewerEntry(e, m[e])
  }

  ghost predicate NoDuplicates(s: seq<ReviewerEntry>)
  {
    forall x :: multiset(s)[x] <= 1
  }

  /** Counts never increase along the sequence. */
  predicate HighestCountFirst(s: seq<ReviewerEntry>)
  {
    forall i, j :: 0 <= i < j < |s| ==> s[i].count >= s[j].count
  }

  /** The entry set of a HashMultiset, in its (unspecified) iteration order. */
  method EntrySet(m: multiset<string>) returns (entries: seq<ReviewerEntry>)
    ensures NoDuplicates(entries)
    ensures forall x :: x in entries <==> x in EntriesOf(m)
  {
    entries := [];
    var pending := set e | e in m;
    while pending != {}
      invariant forall e :: e in pending ==> e in m
      invariant NoDuplicates(entries)
      invariant forall x :: x in entries ==> x in EntriesOf(m) && x.email !in pending
      invariant forall e :: e in m ==> e in pending || ReviewerEntry(e, m[e]) in entries
      decreases pending
    {
      var element :| element in pending;
      var entry := ReviewerEntry(element, m[element]);
      assert entry !in entries;
      entries := entries + [entry];
      pending := pending - {element};
    }
  }

  /** Insert `x` before the first entry with a smaller count. */
  function InsertByCount(x: ReviewerEntry, s: seq<ReviewerEntry>): seq<ReviewerEntry>
  {
    if s == [] || x.count >= s[0].count then [x] + s
    else [s[0]] + InsertByCount(x, s[1..])
  }

  /** A stable sort by count, highest first: Multisets.copyHighestCountFirst
      on the entry sequence. */
  function SortByCount(s: seq<ReviewerEntry>): seq<ReviewerEntry>
  {
    if s == [] then [] else InsertByCount(s[0], SortByCount(s[1..]))
  }

  lemma {:induction false} InsertByCountPermutes(x: ReviewerEntry, s: seq<ReviewerEntry>)
    ensures multiset(InsertByCount(x, s)) == multiset(s) + multiset{x}
    decreases |s|
  {
    if s != [] && x.count < s[0].count {
      assert s == [s[0]] + s[1..];
      InsertByCountPermutes(x, s[1..]);
    }
  }

  lemma {:induction false} InsertByCountSorted(x: ReviewerEntry, s: seq<ReviewerEntry>)
    requires HighestCountFirst(s)
    ensures HighestCountFirst(InsertByCount(x, s))
    ensures InsertByCount(x, s) != []
    ensures InsertByCount(x, s)[0].count <= (if s == [] then x.count else if x.count > s[0].count then x.count else s[0].count)
    decreases |s|
  {
    if s != [] && x.count < s[0].count {
      var tail := s[1..];
      InsertByCountSorted(x, tail);
      var r := InsertByCount(x, tail);
      assert r[0].count <= s[0].count;
      assert forall j :: 0 <= j < |r| ==> r[j].count <= r[0].count;
      var whole := [s[0]] + r;
      assert forall i :: 0 < i < |whole| ==> whole[i] == r[i - 1];
    }
  }

  /** The sort is a permutation of its input and orders it highest count first. */
  lemma {:induction false} SortByCountCorrect(s: seq<ReviewerEntry>)
    ensures multiset(SortByCount(s)) == multiset(s)
    ensures HighestCountFirst(SortByCount(s))
    decreases |s|
  {
    if s != [] {
      SortByCountCorrect(s[1..]);
      InsertByCountPermutes(s[0], SortByCount(s[1..]));
      InsertByCountSorted(s[0], SortByCount(s[1..]));
      assert s == [s[0]] + s[1..];
    }
  }

  /** `Multisets.copyHighestCountFirst`: every element of the multiset once,
      with its count, and the counts in non-increasing order. The order among
      equal counts follows the hash iteration order and is left open. */
  method CopyHighestCountFirst(m: multiset<string>) returns (sorted: seq<ReviewerEntry>)
    ensures NoDuplicates(sorted)
    ensures forall x :: x in sorted <==> x in EntriesOf(m)
    ensures HighestCountFirst(sorted)
  {
    var entries := EntrySet(m);
    sorted := SortByCount(entries);
    SortByCountCorrect(entries);
    assert forall x :: x in sorted <==> x in multiset(entries);
  }

  /** The entries of a multiset with one element's count set to zero never
      mention that element, and give every other element its count. */
  lemma EntriesWithoutAuthor(m: multiset<string>, author: string, x: ReviewerEntry)
    requires x in EntriesOf(m[author := 0])
    ensures x.email != author && x.count == m[x.email] && x.count > 0
  {
  }

  /** Lines 232-242: flatten the table into a multiset of author addresses,
      remove every occurrence of HEAD's author, and copy it highest count
      first. Each suggested reviewer appears once, with the number of
      (file, commit) credits authored under that address; HEAD's author
      never appears. */
  method SuggestReviewers(result: Table, headAuthor: string) returns (sortedReviewers: seq<ReviewerEntry>)
    ensures NoDuplicates(sortedReviewers)
    ensures HighestCountFirst(sortedReviewers)
    ensures forall x :: x in sortedReviewers <==>
      x.email != headAuthor && x.count > 0 && x.count == |CreditsBy(result, x.email)|
  {
    var potentialReviewers := CollectReviewers(result);
    ghost var collected := potentialReviewers;
    var entriesByAuthor := potentialReviewers[headAuthor];
    potentialReviewers := potentialReviewers[headAuthor := potentialReviewers[headAuthor] - entriesByAuthor];
    assert potentialReviewers == collected[headAuthor := 0];
    sortedReviewers := CopyHighestCountFirst(potentialReviewers);
    forall x | x in sortedReviewers
      ensures x.email != headAuthor && x.count > 0 && x.count == |CreditsBy(result, x.email)|
    {
      EntriesWithoutAuthor(collected, headAuthor, x);
    }
    forall x: ReviewerEntry | x.email != headAuthor && x.count > 0 && x.count == |CreditsBy(result, x.email)|
      ensures x in sortedReviewers
    {
      assert x == ReviewerEntry(x.email, potentialReviewers[x.email]);
    }
  }
}
