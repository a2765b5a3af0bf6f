/** ReviewBuddyAction: the report prebuild attaches to the build and the
    message renderer reads back. */
module Report {

  /** One entry of an ImmutableMultiset's entry set: an element and its count. */
  datatype ReviewerEntry = ReviewerEntry(email: string, count: nat)

  /** The five fields of a ReviewBuddyAction; the multiset of potential
      reviewers is its entry sequence, in the multiset's iteration order. */
  datatype ReviewBuddyAction = ReviewBuddyAction(
    changedLinesCount: int,
    reviewSessionsCount: int,
    reviewSessionsLength: int,
    reviewersCount: int,
    potentialReviewers: seq<ReviewerEntry>)
}
