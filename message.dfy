/** MessageProvider.getBuildCompletedMessage: the Gerrit comment rendered from
    the ReviewBuddyAction attached to a build. */
module Message {
  import opened Wrappers
  import opened Report

  // ---- Decimal text of an int, as StringBuilder.append(int) writes it ----

  predicate IsDigit(ch: char)
  {
    '0' <= ch <= '9'
  }

  function DigitChar(d: nat): (ch: char)
    requires d < 10
    ensures IsDigit(ch) && ch as int - '0' as int == d
  {
    (d + '0' as int) as char
  }

  function NatToString(n: nat): string
  {
    if n < 10 then [DigitChar(n)] else NatToString(n / 10) + [DigitChar(n % 10)]
  }

  /** Integer.toString: a minus sign before the digits of a negative value. */
  function IntToString(i: int): string
  {
    if i < 0 then "-" + NatToString(-i) else NatToString(i)
  }

  function DigitValue(ch: char): nat
    requires IsDigit(ch)
  {
    ch as int - '0' as int
  }

  /** The value of a string of decimal digits. */
  function ParseNat(s: string): nat
    requires forall k :: 0 <= k < |s| ==> IsDigit(s[k])
  {
    if s == [] then 0 else ParseNat(s[..|s| - 1]) * 10 + DigitValue(s[|s| - 1])
  }

  /** The decimal text of a count is a non-empty run of digits that reads
      back as the same count. */
  lemma {:induction false} NatToStringRoundTrip(n: nat)
    ensures NatToString(n) != []
    ensures forall k :: 0 <= k < |NatToString(n)| ==> IsDigit(NatToString(n)[k])
    ensures ParseNat(NatToString(n)) == n
    decreases n
  {
    if n >= 10 {
      NatToStringRoundTrip(n / 10);
      var s := NatToString(n);
      assert s[..|s| - 1] == NatToString(n / 10);
    }
  }

  /** The decimal text of an int starts with a digit or a minus sign, never
      with a letter or a space. */
  lemma IntToStringStartsWithDigitOrMinus(i: int)
    ensures IntToString(i) != []
    ensures IsDigit(IntToString(i)[0]) || IntToString(i)[0] == '-'
  {
    NatToStringRoundTrip(if i < 0 then -i else i);
  }

  // ---- The pieces of the message, as the source appends them ----

  const Separator: string := " -----------------------------------------------------------\n\n"
  const Title: string := " REVIEW BUDDY\n\n"
  const ChangedLead: string := " This commit changed "
  const ChangedTail: string := " lines.\n\n"
  /** Cohen 2006: a change of at most this many lines can be reviewed well. */
  const SizeThreshold: int := 200
  const ReasonableSize: string := " This is a reasonable size of a commit.\n\n"
  const TooLargeLine: string := " This may be too large for an effective review.\n"
  const ReadThroughLine: string := " A complete read-through of the change before the actual review will help to maximize"
  const ReviewEffortLine: string := "\n the review effort.\n\n"
  const DurationLead: string := " It is suggested to perform the review in "
  const SessionsTail: string := " sessions of "
  const About: string := "about "
  const MinutesTail: string := " minutes.\n\n"
  const MinimumLead: string := " A minimum of "
  const InvitedTail: string := " reviewers should be invited.\n\n"
  const ListHeading: string := " Here is a list of developers sorted by experience in the area:\n\n"

  /** The text for a change above the threshold, with the read-through advice. */
  function TooLarge(): string
  {
    TooLargeLine + (ReadThroughLine + ReviewEffortLine)
  }

  /** The header: separator line, title, and the changed-line count. */
  function Intro(changedLinesCount: int): string
  {
    Separator + (Title + (ChangedLead + (IntToString(changedLinesCount) + ChangedTail)))
  }

  function SizeComment(changedLinesCount: int): string
  {
    if changedLinesCount <= SizeThreshold then ReasonableSize else TooLarge()
  }

  function SessionsPart(reviewSessionsCount: int): string
  {
    if reviewSessionsCount > 1 then IntToString(reviewSessionsCount) + SessionsTail else ""
  }

  function LengthPart(reviewSessionsLength: int): string
  {
    About + (IntToString(reviewSessionsLength) + MinutesTail)
  }

  function ReviewersSentence(reviewersCount: int): string
  {
    MinimumLead + (IntToString(reviewersCount) + InvitedTail)
  }

  function ReviewerLine(e: ReviewerEntry): string
  {
    " " + (NatToString(e.count) + (" " + (e.email + "\n")))
  }

  function ReviewerLines(es: seq<ReviewerEntry>): string
  {
    if es == [] then "" else ReviewerLine(es[0]) + ReviewerLines(es[1..])
  }

  /** The reviewer-count sentence and the list of reviewers. */
  function Staffing(a: ReviewBuddyAction): string
  {
    ReviewersSentence(a.reviewersCount) + (ListHeading + ReviewerLines(a.potentialReviewers))
  }

  /** The duration sentence after its lead, and everything after it. */
  function Schedule(a: ReviewBuddyAction): string
  {
    SessionsPart(a.reviewSessionsCount) + (LengthPart(a.reviewSessionsLength) + Staffing(a))
  }

  /** Everything after the header. */
  function Body(a: ReviewBuddyAction): string
  {
    SizeComment(a.changedLinesCount) + (DurationLead + Schedule(a))
  }

  function Render(a: ReviewBuddyAction): string
  {
    Intro(a.changedLinesCount) + Body(a)
  }

  lemma {:induction false} ReviewerLinesAppend(es: seq<ReviewerEntry>, e: ReviewerEntry)
    ensures ReviewerLines(es + [e]) == ReviewerLines(es) + ReviewerLine(e)
    decreases |es|
  {
    if es == [] {
      assert [e][1..] == [];
      assert es + [e] == [e];
    } else {
      assert (es + [e])[1..] == es[1..] + [e];
      ReviewerLinesAppend(es[1..], e);
    }
  }

  // Re-association of appends. `MoveNIntoRest` moves the last N pieces
  // appended to a buffer `done` into the front of the text `rest` still to
  // come, so that buffer plus remaining text stays the same string;
  // `NestThreeAppends` and `NestSections` turn left-nested appends into the
  // right-nested form the message functions below are written in.

  lemma MoveOneIntoRest(done: string, x: string, rest: string)
    ensures (done + x) + rest == done + (x + rest)
  {
  }

  lemma MoveTwoIntoRest(done: string, x: string, y: string, rest: string)
    ensures ((done + x) + y) + rest == done + ((x + y) + rest)
  {
  }

  lemma MoveThreeIntoRest(done: string, x: string, y: string, z: string, rest: string)
    ensures (((done + x) + y) + z) + rest == done + ((x + (y + z)) + rest)
  {
  }

  lemma NestThreeAppends(done: string, x: string, y: string, z: string)
    ensures ((done + x) + y) + z == done + (x + (y + z))
  {
  }

  lemma MoveFiveIntoRest(done: string, v: string, w: string, x: string, y: string, z: string, rest: string)
    ensures (((((done + v) + w) + x) + y) + z) + rest == done + ((v + (w + (x + (y + z)))) + rest)
  {
  }

  /** getBuildCompletedMessage: null without a ReviewBuddyAction, otherwise
      the text appended to a StringBuilder section by section. */
  method BuildCompletedMessage(action: Option<ReviewBuddyAction>) returns (message: Option<string>)
    ensures message.None? <==> action.None?
    ensures action.Some? ==> message == Some(Render(action.value))
  {
    if action.None? {
      return None;
    }
    var a := action.value;
    var stringBuilder := AppendHeader("", a.changedLinesCount);
    stringBuilder := AppendSizeComment(stringBuilder, a.changedLinesCount);
    stringBuilder := AppendDuration(stringBuilder, a.reviewSessionsCount, a.reviewSessionsLength);
    stringBuilder := AppendStaffing(stringBuilder, a.reviewersCount, a.potentialReviewers);
    assert "" + Intro(a.changedLinesCount) == Intro(a.changedLinesCount);
    NestSections(Intro(a.changedLinesCount), SizeComment(a.changedLinesCount), DurationLead,
      SessionsPart(a.reviewSessionsCount), LengthPart(a.reviewSessionsLength), Staffing(a));
    return Some(stringBuilder);
  }

  lemma NestSections(p: string, q: string, r: string, s: string, t: string, u: string)
    ensures ((p + q) + (r + (s + t))) + u == p + (q + (r + (s + (t + u))))
  {
  }

  /** The separator line, the title and the changed-line count. */
  method AppendHeader(stringBuilder: string, changedLinesCount: int) returns (result: string)
    ensures result == stringBuilder + Intro(changedLinesCount)
  {
    var changed := IntToString(changedLinesCount);
    result := stringBuilder + Separator + Title + ChangedLead + changed + ChangedTail;
    MoveFiveIntoRest(stringBuilder, Separator, Title, ChangedLead, changed, ChangedTail, "");
  }

  /** Comment on the size of the change. */
  method AppendSizeComment(stringBuilder: string, changedLinesCount: int) returns (result: string)
    ensures result == stringBuilder + SizeComment(changedLinesCount)
  {
    if changedLinesCount <= SizeThreshold {
      result := stringBuilder + ReasonableSize;
    } else {
      result := stringBuilder + TooLargeLine;
      result := result + ReadThroughLine;
      result := result + ReviewEffortLine;
      NestThreeAppends(stringBuilder, TooLargeLine, ReadThroughLine, ReviewEffortLine);
    }
  }

  /** Length of the review: the number of sessions only when there are
      several, then their length in minutes. */
  method AppendDuration(stringBuilder: string, reviewSessionsCount: int, reviewSessionsLength: int)
    returns (result: string)
    ensures result == stringBuilder + (DurationLead + (SessionsPart(reviewSessionsCount) + LengthPart(reviewSessionsLength)))
  {
    var sessions := SessionsPart(reviewSessionsCount);
    var minutes := IntToString(reviewSessionsLength);
    result := stringBuilder + DurationLead;
    if reviewSessionsCount > 1 {
      result := result + IntToString(reviewSessionsCount) + SessionsTail;
    } else {
      assert result + "" == result;
    }
    assert result == (stringBuilder + DurationLead) + sessions;
    result := result + About + minutes + MinutesTail;
    MoveThreeIntoRest(stringBuilder + DurationLead + sessions, About, minutes, MinutesTail, "");
    MoveTwoIntoRest(stringBuilder, DurationLead, sessions, LengthPart(reviewSessionsLength));
    MoveOneIntoRest(DurationLead, sessions, LengthPart(reviewSessionsLength));
  }

  /** Number of reviewers, the list heading, and one line per reviewer. */
  method AppendStaffing(stringBuilder: string, reviewersCount: int, reviewers: seq<ReviewerEntry>)
    returns (result: string)
    ensures result == stringBuilder + (ReviewersSentence(reviewersCount) + (ListHeading + ReviewerLines(reviewers)))
  {
    var reviewersText := IntToString(reviewersCount);
    result := stringBuilder + MinimumLead + reviewersText + InvitedTail;
    NestThreeAppends(stringBuilder, MinimumLead, reviewersText, InvitedTail);
    result := result + ListHeading;
    result := AppendReviewerLines(result, reviewers);
    NestThreeAppends(stringBuilder, ReviewersSentence(reviewersCount), ListHeading, ReviewerLines(reviewers));
  }

  /** One line " <count> <email>" per entry, in the order of the entries. */
  method AppendReviewerLines(stringBuilder: string, reviewers: seq<ReviewerEntry>) returns (result: string)
    ensures result == stringBuilder + ReviewerLines(reviewers)
  {
    result := stringBuilder;
    for i := 0 to |reviewers|
      invariant result == stringBuilder + ReviewerLines(reviewers[..i])
    {
      var reviewer := reviewers[i];
      var count := NatToString(reviewer.count);
      LineAppended(result, reviewer);
      ReviewerLinesAppend(reviewers[..i], reviewer);
      assert reviewers[..i + 1] == reviewers[..i] + [reviewer];
      MoveOneIntoRest(stringBuilder, ReviewerLines(reviewers[..i]), ReviewerLine(reviewer));
      result := result + " " + count + " " + reviewer.email + "\n";
    }
    assert reviewers[..|reviewers|] == reviewers;
  }

  lemma LineAppended(done: string, e: ReviewerEntry)
    ensures done + " " + NatToString(e.count) + " " + e.email + "\n" == done + ReviewerLine(e)
  {
    MoveFiveIntoRest(done, " ", NatToString(e.count), " ", e.email, "\n", "");
  }

  // ---- What the message says ----

  /** Every message starts with the separator line, the title and the
      sentence with the changed-line count, and goes on with its body. */
  lemma MessageStartsWithHeader(a: ReviewBuddyAction)
    ensures Separator + Title + ChangedLead + IntToString(a.changedLinesCount) + ChangedTail <= Render(a)
    ensures Render(a)[|Intro(a.changedLinesCount)|..] == Body(a)
  {
    var n := IntToString(a.changedLinesCount);
    MoveOneIntoRest(Separator, Title, ChangedLead + (n + ChangedTail));
    MoveOneIntoRest(Separator + Title, ChangedLead, n + ChangedTail);
    MoveOneIntoRest(Separator + Title + ChangedLead, n, ChangedTail);
  }

  lemma PrefixOfConcat(x: string, rest: string)
    ensures x <= x + rest
  {
    assert (x + rest)[..|x|] == x;
  }

  /** Two texts that differ at some position are not both prefixes of one
      text. */
  lemma NotPrefixWhenDiffer(p: string, q: string, rest: string, k: nat)
    requires k < |p| && k < |q| && p[k] != q[k]
    ensures !(q <= p + rest)
  {
    assert (p + rest)[k] == p[k];
  }

  lemma DropTwo(x: string, y: string, z: string)
    ensures (x + (y + z))[|x| + |y|..] == z
  {
    assert (x + (y + z))[|x|..] == y + z;
  }

  lemma SizeCommentsDiffer()
    ensures |ReasonableSize| > 6 && |TooLarge()| > 6 && ReasonableSize[6] != TooLarge()[6]
  {
    assert ReasonableSize[6] == 'i';
    assert TooLargeLine[6] == 'm';
    assert TooLarge()[6] == TooLargeLine[6];
  }

  /** The body starts with exactly one of the two size comments: the
      "reasonable size" sentence for at most 200 changed lines, the "too
      large" text with the read-through advice for more. */
  lemma SizeCommentChoice(a: ReviewBuddyAction)
    ensures ReasonableSize <= Body(a) <==> a.changedLinesCount <= SizeThreshold
    ensures TooLarge() <= Body(a) <==> a.changedLinesCount > SizeThreshold
    ensures Body(a)[|SizeComment(a.changedLinesCount)| + |DurationLead|..] == Schedule(a)
  {
    var c := SizeComment(a.changedLinesCount);
    var rest := DurationLead + Schedule(a);
    assert Body(a) == c + rest;
    SizeCommentsDiffer();
    PrefixOfConcat(c, rest);
    if a.changedLinesCount <= SizeThreshold {
      NotPrefixWhenDiffer(ReasonableSize, TooLarge(), rest, 6);
    } else {
      NotPrefixWhenDiffer(TooLarge(), ReasonableSize, rest, 6);
    }
    DropTwo(c, DurationLead, Schedule(a));
  }

  /** The duration sentence names the number of sessions exactly when there
      is more than one, and always goes on with "about L minutes." and then
      the reviewer-count sentence. */
  lemma SessionsShownOnlyWhenSeveral(a: ReviewBuddyAction)
    ensures IntToString(a.reviewSessionsCount) + SessionsTail <= Schedule(a) <==> a.reviewSessionsCount > 1
    ensures About <= Schedule(a) <==> a.reviewSessionsCount <= 1
    ensures Schedule(a)[|SessionsPart(a.reviewSessionsCount)|..] == LengthPart(a.reviewSessionsLength) + Staffing(a)
    ensures ReviewersSentence(a.reviewersCount) <= Staffing(a)
  {
    var schedule := Schedule(a);
    var sp := SessionsPart(a.reviewSessionsCount);
    var rest := LengthPart(a.reviewSessionsLength) + Staffing(a);
    assert schedule == sp + rest;
    IntToStringStartsWithDigitOrMinus(a.reviewSessionsCount);
    var shown := IntToString(a.reviewSessionsCount) + SessionsTail;
    assert shown[0] == IntToString(a.reviewSessionsCount)[0];
    assert rest[0] == 'a';
    if a.reviewSessionsCount <= 1 {
      assert schedule == rest;
    } else {
      assert schedule[0] == shown[0];
    }
  }

  // ---- Reading the reviewer lines back ----

  /** The length of the leading run of digits. */
  function DigitRun(s: string): (k: nat)
    ensures k <= |s|
  {
    if s != [] && IsDigit(s[0]) then 1 + DigitRun(s[1..]) else 0
  }

  /** The length of the text before the first line break. */
  function LineLength(s: string): (k: nat)
    ensures k <= |s|
  {
    if s != [] && s[0] != '\n' then 1 + LineLength(s[1..]) else 0
  }

  lemma {:induction false} DigitRunOf(d: string, rest: string)
    requires forall k :: 0 <= k < |d| ==> IsDigit(d[k])
    requires rest == [] || !IsDigit(rest[0])
    ensures DigitRun(d + rest) == |d|
    decreases |d|
  {
    if d == [] {
      assert d + rest == rest;
    } else {
      assert (d + rest)[1..] == d[1..] + rest;
      DigitRunOf(d[1..], rest);
    }
  }

  lemma {:induction false} LineLengthOf(line: string, rest: string)
    requires forall k :: 0 <= k < |line| ==> line[k] != '\n'
    requires rest != [] && rest[0] == '\n'
    ensures LineLength(line + rest) == |line|
    decreases |line|
  {
    if line == [] {
      assert line + rest == rest;
    } else {
      assert (line + rest)[1..] == line[1..] + rest;
      LineLengthOf(line[1..], rest);
    }
  }

  /** Reads lines of the form " <count> <email>\n" back into entries. */
  function ParseReviewerLines(s: string): Option<seq<ReviewerEntry>>
    decreases |s|
  {
    if s == [] then Some([])
    else if s[0] != ' ' then None
    else
      var afterSpace := s[1..];
      var d := DigitRun(afterSpace);
      if d == 0 || d == |afterSpace| || afterSpace[d] != ' ' then None
      else
        assert forall k :: 0 <= k < d ==> IsDigit(afterSpace[k]) by {
          DigitRunPrefix(afterSpace);
        }
        var count := ParseNat(afterSpace[..d]);
        var afterCount := afterSpace[d + 1..];
        var e := LineLength(afterCount);
        if e == |afterCount| then None
        else match ParseReviewerLines(afterCount[e + 1..])
          case None => None
          case Some(tail) => Some([ReviewerEntry(afterCount[..e], count)] + tail)
  }

  lemma {:induction false} DigitRunPrefix(s: string)
    ensures forall k :: 0 <= k < DigitRun(s) ==> IsDigit(s[k])
    decreases |s|
  {
    if s != [] && IsDigit(s[0]) {
      DigitRunPrefix(s[1..]);
      assert forall k :: 0 < k < DigitRun(s) ==> s[k] == s[1..][k - 1];
    }
  }

  predicate NoLineBreak(email: string)
  {
    forall k :: 0 <= k < |email| ==> email[k] != '\n'
  }

  /** The text after a line's count: the address, the line break, and the
      following lines. */
  lemma {:induction false} ParseAfterCount(email: string, rest: string)
    requires NoLineBreak(email)
    ensures var afterCount := email + ("\n" + rest);
      var e := LineLength(afterCount);
      e == |email| && e < |afterCount| && afterCount[..e] == email && afterCount[e + 1..] == rest
  {
    LineLengthOf(email, "\n" + rest);
    var afterCount := email + ("\n" + rest);
    assert afterCount[..|email|] == email;
    assert afterCount[|email| + 1..] == rest;
  }

  /** A single reviewer line in front of other text reads back as its entry
      followed by whatever that text reads back as. */
  lemma ParseOneLine(r: ReviewerEntry, rest: string)
    requires NoLineBreak(r.email)
    ensures ParseReviewerLines(ReviewerLine(r) + rest) ==
      match ParseReviewerLines(rest)
      case None => None
      case Some(tail) => Some([r] + tail)
  {
    var afterCount := r.email + ("\n" + rest);
    LineShape(r, rest);
    ParseAfterSpace(r.count, afterCount);
    NatToStringRoundTrip(r.count);
    ParseAfterCount(r.email, rest);
  }

  lemma LineShape(r: ReviewerEntry, rest: string)
    ensures var s := ReviewerLine(r) + rest;
      s != [] && s[0] == ' ' && s[1..] == NatToString(r.count) + (" " + (r.email + ("\n" + rest)))
  {
    var afterCount := r.email + ("\n" + rest);
    MoveFiveIntoRest("", " ", NatToString(r.count), " ", r.email, "\n", rest);
    var s := ReviewerLine(r) + rest;
    assert s == " " + (NatToString(r.count) + (" " + afterCount));
  }

  /** The text after a line's leading space: the count's digits, a space,
      and the rest of the line. */
  lemma ParseAfterSpace(count: nat, afterCount: string)
    ensures var afterSpace := NatToString(count) + (" " + afterCount);
      var d := DigitRun(afterSpace);
      d == |NatToString(count)| && 0 < d < |afterSpace| && afterSpace[d] == ' ' &&
      afterSpace[..d] == NatToString(count) && afterSpace[d + 1..] == afterCount
  {
    var digits := NatToString(count);
    NatToStringRoundTrip(count);
    var afterSpace := digits + (" " + afterCount);
    DigitRunOf(digits, " " + afterCount);
    assert afterSpace[..|digits|] == digits;
    assert afterSpace[|digits| + 1..] == afterCount;
  }

  /** One line per reviewer, in the order of the entries: the lines read
      back as exactly the entries, counts and addresses, whenever no address
      contains a line break. */
  lemma {:induction false} ReviewerLinesRoundTrip(es: seq<ReviewerEntry>)
    requires forall i :: 0 <= i < |es| ==> NoLineBreak(es[i].email)
    ensures ParseReviewerLines(ReviewerLines(es)) == Some(es)
    decreases |es|
  {
    if es != [] {
      ParseOneLine(es[0], ReviewerLines(es[1..]));
      ReviewerLinesRoundTrip(es[1..]);
      assert [es[0]] + es[1..] == es;
    }
  }

  /** The message ends with the reviewer lines, which read back as the
      action's entries in their order. */
  lemma MessageListsReviewers(a: ReviewBuddyAction)
    requires forall i :: 0 <= i < |a.potentialReviewers| ==> NoLineBreak(a.potentialReviewers[i].email)
    ensures ParseReviewerLines(Staffing(a)[|ReviewersSentence(a.reviewersCount)| + |ListHeading|..]) == Some(a.potentialReviewers)
  {
    var s := Staffing(a);
    var r := ReviewersSentence(a.reviewersCount);
    assert s[|r|..] == ListHeading + ReviewerLines(a.potentialReviewers);
    assert s[|r| + |ListHeading|..] == s[|r|..][|ListHeading|..];
    ReviewerLinesRoundTrip(a.potentialReviewers);
  }
}
