/** The GitHub commit hook: each reference to an Aha! feature or requirement
    found in a commit message gets a comment on that record.

    References are found by scanning a message for the pattern
    [A-Z]+-[0-9]+(?:-[0-9]+)? the way Ruby's String#scan does: the leftmost
    match first, the longest match the regex engine prefers at a position,
    and the next search starting where the last match ended. `IsRef` states
    the pattern as a grammar of its own; the lemmas tie the scanner to it. */
module GithubCommitHook {
  import opened RubyValues

  predicate IsUpper(c: char) {
    'A' <= c <= 'Z'
  }

  predicate IsDigit(c: char) {
    '0' <= c <= '9'
  }

  // ------------------------------------------------- the reference pattern

  predicate AllUpper(t: string) {
    |t| > 0 && forall k :: 0 <= k < |t| ==> IsUpper(t[k])
  }

  predicate AllDigits(t: string) {
    |t| > 0 && forall k :: 0 <= k < |t| ==> IsDigit(t[k])
  }

  /** t is capitals, a dash at a and digits, as in PROD-12. */
  predicate FeatureSplit(t: string, a: nat) {
    0 < a < |t| && AllUpper(t[..a]) && t[a] == '-' && AllDigits(t[a + 1..])
  }

  /** t is capitals, a dash at a, digits, a dash at b and digits, as in PROD-12-3. */
  predicate RequirementSplit(t: string, a: nat, b: nat) {
    0 < a < b < |t| && AllUpper(t[..a]) && t[a] == '-' &&
    AllDigits(t[a + 1..b]) && t[b] == '-' && AllDigits(t[b + 1..])
  }

  ghost predicate IsFeatureRef(t: string) {
    exists a: nat :: FeatureSplit(t, a)
  }

  ghost predicate IsRequirementRef(t: string) {
    exists a: nat, b: nat :: RequirementSplit(t, a, b)
  }

  /** The strings that the reference pattern matches as a whole. */
  ghost predicate IsRef(t: string) {
    IsFeatureRef(t) || IsRequirementRef(t)
  }

  // ----------------------------------------------------------- the scanner

  /** The length of the run of capital letters that starts at i. */
  function UpperRun(s: string, i: nat): (n: nat)
    requires i <= |s|
    ensures i + n <= |s|
    ensures forall k :: i <= k < i + n ==> IsUpper(s[k])
    ensures i + n == |s| || !IsUpper(s[i + n])
    decreases |s| - i
  {
    if i < |s| && IsUpper(s[i]) then 1 + UpperRun(s, i + 1) else 0
  }

  /** The length of the run of digits that starts at i. */
  function DigitRun(s: string, i: nat): (n: nat)
    requires i <= |s|
    ensures i + n <= |s|
    ensures forall k :: i <= k < i + n ==> IsDigit(s[k])
    ensures i + n == |s| || !IsDigit(s[i + n])
    decreases |s| - i
  {
    if i < |s| && IsDigit(s[i]) then 1 + DigitRun(s, i + 1) else 0
  }

  /** The length of the match that the regex engine finds at position i, if
      any: all the capitals, a dash, all the digits and, when a dash and a
      digit follow, that dash and all the digits after it. */
  function MatchAt(s: string, i: nat): (r: Option<nat>)
    requires i <= |s|
    ensures r.Some? ==> 0 < r.value && i + r.value <= |s|
  {
    var dash := i + UpperRun(s, i);
    if dash == i || dash == |s| || s[dash] != '-' then None
    else
      var end := dash + 1 + DigitRun(s, dash + 1);
      if end == dash + 1 then None
      else if end < |s| && s[end] == '-' && DigitRun(s, end + 1) > 0 then Some(end + 1 + DigitRun(s, end + 1) - i)
      else Some(end - i)
  }

  /** The references in s[i..], in order. */
  function Scan(s: string, i: nat): seq<string>
    requires i <= |s|
    decreases |s| - i
  {
    if i == |s| then []
    else
      match MatchAt(s, i)
      case Some(n) => [s[i..i + n]] + Scan(s, i + n)
      case None => Scan(s, i + 1)
  }

  /** The references in a commit message. */
  function References(message: string): seq<string> {
    Scan(message, 0)
  }

  // ------------------------------------------- the scanner meets the pattern

  lemma UpperRunIs(s: string, i: nat, a: nat)
    requires i + a <= |s|
    requires forall k :: i <= k < i + a ==> IsUpper(s[k])
    requires i + a == |s| || !IsUpper(s[i + a])
    ensures UpperRun(s, i) == a
  {
  }

  lemma DigitRunIs(s: string, i: nat, d: nat)
    requires i + d <= |s|
    requires forall k :: i <= k < i + d ==> IsDigit(s[k])
    requires i + d == |s| || !IsDigit(s[i + d])
    ensures DigitRun(s, i) == d
  {
  }

  lemma DigitRunAtLeast(s: string, i: nat, d: nat)
    requires i + d <= |s|
    requires forall k :: i <= k < i + d ==> IsDigit(s[k])
    ensures DigitRun(s, i) >= d
  {
  }

  lemma UpperSlice(s: string, lo: nat, hi: nat)
    requires lo <= hi <= |s|
    ensures AllUpper(s[lo..hi]) <==> lo < hi && forall k :: lo <= k < hi ==> IsUpper(s[k])
  {
    var t := s[lo..hi];
    if lo < hi && forall k :: lo <= k < hi ==> IsUpper(s[k]) {
      forall k | 0 <= k < |t| ensures IsUpper(t[k]) { assert t[k] == s[lo + k]; }
    }
    if AllUpper(t) {
      forall k | lo <= k < hi ensures IsUpper(s[k]) { assert s[k] == t[k - lo]; }
    }
  }

  lemma DigitSlice(s: string, lo: nat, hi: nat)
    requires lo <= hi <= |s|
    ensures AllDigits(s[lo..hi]) <==> lo < hi && forall k :: lo <= k < hi ==> IsDigit(s[k])
  {
    var t := s[lo..hi];
    if lo < hi && forall k :: lo <= k < hi ==> IsDigit(s[k]) {
      forall k | 0 <= k < |t| ensures IsDigit(t[k]) { assert t[k] == s[lo + k]; }
    }
    if AllDigits(t) {
      forall k | lo <= k < hi ensures IsDigit(s[k]) { assert s[k] == t[k - lo]; }
    }
  }

  /** A feature split of s[i..m], read off positions of s. */
  lemma FeatureSplitOfSlice(s: string, i: nat, a: nat, m: nat)
    requires 0 < a && i + a < m <= |s|
    ensures FeatureSplit(s[i..m], a) <==>
              && (forall k :: i <= k < i + a ==> IsUpper(s[k]))
              && s[i + a] == '-'
              && i + a + 1 < m && (forall k :: i + a + 1 <= k < m ==> IsDigit(s[k]))
  {
    var t := s[i..m];
    assert t[..a] == s[i..i + a] && t[a] == s[i + a] && t[a + 1..] == s[i + a + 1..m];
    UpperSlice(s, i, i + a);
    DigitSlice(s, i + a + 1, m);
  }

  /** A requirement split of s[i..m], read off positions of s. */
  lemma RequirementSplitOfSlice(s: string, i: nat, a: nat, b: nat, m: nat)
    requires 0 < a < b && i + b < m <= |s|
    ensures RequirementSplit(s[i..m], a, b) <==>
              && (forall k :: i <= k < i + a ==> IsUpper(s[k]))
              && s[i + a] == '-'
              && i + a + 1 < i + b && (forall k :: i + a + 1 <= k < i + b ==> IsDigit(s[k]))
              && s[i + b] == '-'
              && i + b + 1 < m && (forall k :: i + b + 1 <= k < m ==> IsDigit(s[k]))
  {
    var t := s[i..m];
    assert t[..a] == s[i..i + a];
    assert t[a] == s[i + a];
    assert t[a + 1..b] == s[i + a + 1..i + b] by {
      assert t[..b] == s[i..i + b];
    }
    assert t[b] == s[i + b];
    assert t[b + 1..] == s[i + b + 1..m];
    UpperSlice(s, i, i + a);
    DigitSlice(s, i + a + 1, i + b);
    DigitSlice(s, i + b + 1, m);
  }

  lemma TwoSegmentMatchSound(s: string, i: nat, a: nat, n: nat)
    requires 0 < a && i + a < i + n <= |s| && a == UpperRun(s, i) && s[i + a] == '-'
    requires n == a + 1 + DigitRun(s, i + a + 1) && n > a + 1
    ensures FeatureSplit(s[i..i + n], a)
  {
    FeatureSplitOfSlice(s, i, a, i + n);
  }

  lemma ThreeSegmentMatchSound(s: string, i: nat, a: nat, b: nat, n: nat)
    requires 0 < a && i + a < i + b < i + n <= |s| && a == UpperRun(s, i) && s[i + a] == '-'
    requires b == a + 1 + DigitRun(s, i + a + 1) && b > a + 1 && s[i + b] == '-'
    requires n == b + 1 + DigitRun(s, i + b + 1) && n > b + 1
    ensures RequirementSplit(s[i..i + n], a, b)
  {
    RequirementSplitOfSlice(s, i, a, b, i + n);
  }

  /** What the scanner takes at a position is a reference. */
  lemma MatchAtSound(s: string, i: nat)
    requires i <= |s| && MatchAt(s, i).Some?
    ensures IsRef(s[i..i + MatchAt(s, i).value])
  {
    var n := MatchAt(s, i).value;
    var a := UpperRun(s, i);
    var b := a + 1 + DigitRun(s, i + a + 1);
    if n == b {
      TwoSegmentMatchSound(s, i, a, n);
    } else {
      ThreeSegmentMatchSound(s, i, a, b, n);
    }
  }

  lemma FeatureWithinMatch(s: string, i: nat, a: nat, m: nat)
    requires i < m <= |s| && FeatureSplit(s[i..m], a)
    ensures MatchAt(s, i).Some? && m <= i + MatchAt(s, i).value
  {
    FeatureSplitOfSlice(s, i, a, m);
    UpperRunIs(s, i, a);
    DigitRunAtLeast(s, i + a + 1, m - (i + a + 1));
  }

  lemma RequirementWithinMatch(s: string, i: nat, a: nat, b: nat, m: nat)
    requires i < m <= |s| && RequirementSplit(s[i..m], a, b)
    ensures MatchAt(s, i).Some? && m <= i + MatchAt(s, i).value
  {
    RequirementSplitOfSlice(s, i, a, b, m);
    UpperRunIs(s, i, a);
    DigitRunIs(s, i + a + 1, b - a - 1);
    DigitRunAtLeast(s, i + b + 1, m - (i + b + 1));
  }

  /** Every reference that starts at a position ends within the match the
      scanner takes there: no match is missed, and the one taken is the longest. */
  lemma MatchAtGreedy(s: string, i: nat, m: nat)
    requires i < m <= |s| && IsRef(s[i..m])
    ensures MatchAt(s, i).Some? && m <= i + MatchAt(s, i).value
  {
    if IsRequirementRef(s[i..m]) {
      var a: nat, b: nat :| RequirementSplit(s[i..m], a, b);
      RequirementWithinMatch(s, i, a, b, m);
    } else {
      var a: nat :| FeatureSplit(s[i..m], a);
      FeatureWithinMatch(s, i, a, m);
    }
  }

  /** The scanner takes, at a position, exactly the longest reference starting there. */
  lemma MatchAtIsLongestRef(s: string, i: nat)
    requires i <= |s|
    ensures MatchAt(s, i).None? <==> forall m :: i < m <= |s| ==> !IsRef(s[i..m])
    ensures MatchAt(s, i).Some? ==>
              && IsRef(s[i..i + MatchAt(s, i).value])
              && forall m :: i + MatchAt(s, i).value < m <= |s| ==> !IsRef(s[i..m])
  {
    if MatchAt(s, i).Some? {
      MatchAtSound(s, i);
    }
    forall m | i < m <= |s| && IsRef(s[i..m])
      ensures MatchAt(s, i).Some? && m <= i + MatchAt(s, i).value
    {
      MatchAtGreedy(s, i, m);
    }
  }

  /** Every string the scanner yields is a reference. */
  lemma {:induction false} ScanYieldsRefs(s: string, i: nat)
    requires i <= |s|
    ensures forall k :: 0 <= k < |Scan(s, i)| ==> IsRef(Scan(s, i)[k])
    decreases |s| - i
  {
    if i < |s| {
      match MatchAt(s, i)
      case Some(n) =>
        MatchAtSound(s, i);
        ScanYieldsRefs(s, i + n);
      case None =>
        ScanYieldsRefs(s, i + 1);
    }
  }

  /** Leftmost: the positions at which no reference starts are passed over. */
  lemma {:induction false} ScanSkipsToFirstRef(s: string, i: nat, p: nat)
    requires i <= p <= |s|
    requires forall j, m :: i <= j < p && j < m <= |s| ==> !IsRef(s[j..m])
    ensures Scan(s, i) == Scan(s, p)
    decreases p - i
  {
    if i < p {
      if MatchAt(s, i).Some? {
        MatchAtSound(s, i);
        assert false;
      }
      ScanSkipsToFirstRef(s, i + 1, p);
    }
  }

  /** Greedy and non-overlapping: at a position where references start, the
      scanner yields the longest and resumes right after it. */
  lemma ScanTakesLongestRef(s: string, p: nat, m: nat)
    requires p < m <= |s| && IsRef(s[p..m])
    requires forall m' :: m < m' <= |s| ==> !IsRef(s[p..m'])
    ensures Scan(s, p) == [s[p..m]] + Scan(s, m)
  {
    MatchAtGreedy(s, p, m);
    var n := MatchAt(s, p).value;
    MatchAtSound(s, p);
    assert p + n == m;
  }

  /** The scan is empty exactly when no reference occurs at all. */
  lemma {:induction false} ScanEmptyIffNoRef(s: string, i: nat)
    requires i <= |s|
    ensures Scan(s, i) == [] <==> forall j, m :: i <= j < m <= |s| ==> !IsRef(s[j..m])
    decreases |s| - i
  {
    if i < |s| {
      MatchAtIsLongestRef(s, i);
      if MatchAt(s, i).None? {
        ScanEmptyIffNoRef(s, i + 1);
      }
    }
  }

  /** There are no word boundaries: a reference glued to a lower-case word is still found. */
  lemma GluedReferenceIsFound()
    ensures References("xABC-1") == ["ABC-1"]
  {
    var s := "xABC-1";
    assert s[0] == 'x' && s[1] == 'A' && s[2] == 'B' && s[3] == 'C' && s[4] == '-' && s[5] == '1';
    assert MatchAt(s, 0) == None;
    assert Scan(s, 0) == Scan(s, 1);
    UpperRunIs(s, 1, 3);
    DigitRunIs(s, 5, 1);
    assert MatchAt(s, 1) == Some(5);
    assert Scan(s, 1) == [s[1..6]] + Scan(s, 6);
    assert s[1..6] == "ABC-1";
  }

  /** The third segment is taken whenever a dash and a digit follow, and the scan
      resumes after it. */
  lemma NothingAfterThirdSegment(s: string)
    requires s == "AB-1-2-3"
    ensures Scan(s, 6) == []
  {
    assert s[6] == '-' && s[7] == '3';
    assert UpperRun(s, 6) == 0;
    assert Scan(s, 6) == Scan(s, 7);
    assert UpperRun(s, 7) == 0;
    assert Scan(s, 7) == Scan(s, 8);
  }

  lemma ThirdSegmentIsTaken()
    ensures References("AB-1-2-3") == ["AB-1-2"]
  {
    var s := "AB-1-2-3";
    assert s[0] == 'A' && s[1] == 'B' && s[2] == '-' && s[3] == '1' && s[4] == '-' && s[5] == '2' && s[6] == '-';
    UpperRunIs(s, 0, 2);
    DigitRunIs(s, 3, 1);
    DigitRunIs(s, 5, 1);
    assert MatchAt(s, 0) == Some(6);
    NothingAfterThirdSegment(s);
    assert s[0..6] == "AB-1-2";
  }

  // --------------------------------------------------------- record types

  /** `t =~ /-[0-9]+-/` matching at position i. */
  predicate DashDigitsDashAt(t: string, i: nat)
    requires i < |t|
  {
    var end := i + 1 + DigitRun(t, i + 1);
    t[i] == '-' && end > i + 1 && end < |t| && t[end] == '-'
  }

  /** `t =~ /-[0-9]+-/` matching somewhere at or after position i. */
  predicate HasDashDigitsDash(t: string, i: nat)
    requires i <= |t|
    decreases |t| - i
  {
    i < |t| && (DashDigitsDashAt(t, i) || HasDashDigitsDash(t, i + 1))
  }

  /** The type of record a reference names. */
  function RecordType(refNum: string): string {
    if HasDashDigitsDash(refNum, 0) then "requirements" else "features"
  }

  lemma {:induction false} HasDashDigitsDashFrom(t: string, i: nat, j: nat)
    requires i <= j < |t| && DashDigitsDashAt(t, j)
    ensures HasDashDigitsDash(t, i)
    decreases j - i
  {
    if i < j {
      HasDashDigitsDashFrom(t, i + 1, j);
    }
  }

  lemma {:induction false} NoDashDigitsDashFrom(t: string, i: nat)
    requires i <= |t|
    requires forall j :: i <= j < |t| ==> !DashDigitsDashAt(t, j)
    ensures !HasDashDigitsDash(t, i)
    decreases |t| - i
  {
    if i < |t| {
      NoDashDigitsDashFrom(t, i + 1);
    }
  }

  /** A feature reference holds one dash only, with digits up to its end. */
  lemma FeatureRefHasNoDashDigitsDash(t: string)
    requires IsFeatureRef(t)
    ensures !HasDashDigitsDash(t, 0)
  {
    var a: nat :| FeatureSplit(t, a);
    FeatureSplitOfSlice(t, 0, a, |t|);
    assert t[0..|t|] == t;
    DigitRunIs(t, a + 1, |t| - a - 1);
    forall j | 0 <= j < |t| ensures !DashDigitsDashAt(t, j) {
      if j < a {
        assert IsUpper(t[j]);
      } else if j > a {
        assert IsDigit(t[j]);
      }
    }
    NoDashDigitsDashFrom(t, 0);
  }

  /** A reference names a requirement exactly when it has the third segment. */
  lemma RecordTypeOfReference(t: string)
    requires IsRef(t)
    ensures RecordType(t) == "requirements" <==> IsRequirementRef(t)
    ensures RecordType(t) == "features" <==> !IsRequirementRef(t)
  {
    if IsRequirementRef(t) {
      var a: nat, b: nat :| RequirementSplit(t, a, b);
      RequirementSplitOfSlice(t, 0, a, b, |t|);
      assert t[0..|t|] == t;
      DigitRunIs(t, a + 1, b - a - 1);
      assert DashDigitsDashAt(t, a);
      HasDashDigitsDashFrom(t, 0, a);
    } else {
      FeatureRefHasNoDashDigitsDash(t);
    }
  }

  // --------------------------------------------------------------- comments

  datatype Committer = Committer(name: string, email: string)
  datatype Commit = Commit(message: string, url: string, committer: Committer)
  datatype Repository = Repository(url: string, name: string)

  /** The parts occur in m verbatim, one after the other, without overlapping. */
  predicate Embeds(m: string, parts: seq<string>)
    decreases |parts|
  {
    parts == [] ||
    exists k :: 0 <= k <= |m| && parts[0] <= m[k..] && Embeds(m[k..][|parts[0]|..], parts[1..])
  }

  lemma EmbedsAfter(before: string, rest: string, parts: seq<string>, j: nat)
    requires j < |parts| && Embeds(rest, parts[j + 1..])
    ensures Embeds(before + parts[j] + rest, parts[j..])
  {
    var m := before + parts[j] + rest;
    assert m[|before|..] == parts[j] + rest;
    assert (parts[j] + rest)[|parts[j]|..] == rest;
    assert parts[j..][0] == parts[j] && parts[j..][1..] == parts[j + 1..];
  }

  /** Fixed texts and interpolated values, alternating and starting and ending with a text. */
  function Interleave(texts: seq<string>, values: seq<string>): string
    requires |texts| == |values| + 1
    decreases |values|
  {
    if values == [] then texts[0] else texts[0] + values[0] + Interleave(texts[1..], values[1..])
  }

  /** The fixed text of a comment: three HTML lines around seven interpolations. */
  const MessageTexts: seq<string> := [
    "<p>", " (", ") committed to <a href=\"", "\">", "</a>:</p>\n<pre>",
    "</pre>\n<p>Commit: <a href=\"", "\">", "</a></p>\n"]

  /** The interpolations of a commit's comment: the committer's name and e-mail,
      the repository's URL and name, the commit message, and the commit URL twice. */
  function Gaps(repository: Repository, commit: Commit): (g: seq<string>)
    ensures |g| == |MessageTexts| - 1
  {
    [commit.committer.name, commit.committer.email, repository.url, repository.name,
     commit.message, commit.url, commit.url]
  }

  /** The body of the comment left for a commit. */
  function Message(repository: Repository, commit: Commit): string {
    Interleave(MessageTexts, Gaps(repository, commit))
  }

  /** Every interpolated value appears in the result, verbatim and in order. */
  lemma {:induction false} InterleaveEmbedsValues(texts: seq<string>, values: seq<string>)
    requires |texts| == |values| + 1
    ensures Embeds(Interleave(texts, values), values)
    decreases |values|
  {
    if values != [] {
      InterleaveEmbedsValues(texts[1..], values[1..]);
      EmbedsAfter(texts[0], Interleave(texts[1..], values[1..]), values, 0);
      assert values[0..] == values;
    }
  }

  /** The message holds, in this order and unescaped, the committer's name and
      e-mail, the repository's URL and name, the raw commit message, and the
      commit's URL twice. */
  lemma MessageEmbedsCommit(repository: Repository, commit: Commit)
    ensures Embeds(Message(repository, commit), [
              commit.committer.name, commit.committer.email, repository.url, repository.name,
              commit.message, commit.url, commit.url])
  {
    InterleaveEmbedsValues(MessageTexts, Gaps(repository, commit));
  }

  /** The comment call the hook makes on an Aha! record. */
  datatype Comment = CreateComment(recordType: string, refNum: string, message: string)

  /** What the Aha! API answers to a comment call. */
  datatype Reply = Created | NotFound

  /** One comment per reference of one commit, in order. */
  function CommentsFor(repository: Repository, commit: Commit, refs: seq<string>): seq<Comment> {
    if refs == [] then []
    else [CreateComment(RecordType(refs[0]), refs[0], Message(repository, commit))] + CommentsFor(repository, commit, refs[1..])
  }

  /** The comments for a list of commits, commit after commit. */
  function Comments(repository: Repository, commits: seq<Commit>): seq<Comment> {
    if commits == [] then []
    else CommentsFor(repository, commits[0], References(commits[0].message)) + Comments(repository, commits[1..])
  }

  /** One comment per occurrence, in reference order, duplicates included. */
  lemma {:induction false} CommentsForEachReference(repository: Repository, commit: Commit, refs: seq<string>)
    ensures |CommentsFor(repository, commit, refs)| == |refs|
    ensures forall k :: 0 <= k < |refs| ==>
              CommentsFor(repository, commit, refs)[k] == CreateComment(RecordType(refs[k]), refs[k], Message(repository, commit))
  {
    if refs != [] {
      CommentsForEachReference(repository, commit, refs[1..]);
    }
  }

  lemma {:induction false} CommentsForAppend(repository: Repository, commit: Commit, refs: seq<string>, refNum: string)
    ensures CommentsFor(repository, commit, refs + [refNum]) ==
            CommentsFor(repository, commit, refs) + [CreateComment(RecordType(refNum), refNum, Message(repository, commit))]
  {
    if refs != [] {
      assert (refs + [refNum])[1..] == refs[1..] + [refNum];
      CommentsForAppend(repository, commit, refs[1..], refNum);
    }
  }

  /** Commit order: the comments for two lists of commits are those of the first list, then those of the second. */
  lemma {:induction false} CommentsConcat(repository: Repository, first: seq<Commit>, second: seq<Commit>)
    ensures Comments(repository, first + second) == Comments(repository, first) + Comments(repository, second)
  {
    if first != [] {
      assert (first + second)[1..] == first[1..] + second;
      CommentsConcat(repository, first[1..], second);
    } else {
      assert first + second == second;
    }
  }

  lemma SecondOccurrenceScanned(s: string)
    requires s == "ABC-1 ABC-1"
    ensures Scan(s, 5) == ["ABC-1"]
  {
    assert s[5] == ' ' && s[6] == 'A' && s[7] == 'B' && s[8] == 'C' && s[9] == '-' && s[10] == '1';
    assert UpperRun(s, 5) == 0;
    assert Scan(s, 5) == Scan(s, 6);
    UpperRunIs(s, 6, 3);
    DigitRunIs(s, 10, 1);
    assert MatchAt(s, 6) == Some(5);
    assert Scan(s, 6) == [s[6..11]] + Scan(s, 11);
    assert Scan(s, 11) == [];
    assert s[6..11] == "ABC-1";
  }

  lemma RepeatedReferenceScannedTwice()
    ensures References("ABC-1 ABC-1") == ["ABC-1", "ABC-1"]
  {
    var s := "ABC-1 ABC-1";
    assert s[0] == 'A' && s[1] == 'B' && s[2] == 'C' && s[3] == '-' && s[4] == '1' && s[5] == ' ';
    UpperRunIs(s, 0, 3);
    DigitRunIs(s, 4, 1);
    assert MatchAt(s, 0) == Some(5);
    SecondOccurrenceScanned(s);
    assert s[0..5] == "ABC-1";
  }

  lemma FeatureReferenceType()
    ensures RecordType("ABC-1") == "features"
  {
    var t := "ABC-1";
    assert t[..3] == "ABC" && t[4..] == "1";
    assert FeatureSplit(t, 3);
    FeatureRefHasNoDashDigitsDash(t);
  }

  lemma CommentsAfter(repository: Repository, commits: seq<Commit>, i: nat)
    requires i < |commits|
    ensures Comments(repository, commits[..i + 1]) ==
            Comments(repository, commits[..i]) + CommentsFor(repository, commits[i], References(commits[i].message))
  {
    CommentsConcat(repository, commits[..i], [commits[i]]);
    assert Comments(repository, [commits[i]]) == CommentsFor(repository, commits[i], References(commits[i].message));
    assert commits[..i + 1] == commits[..i] + [commits[i]];
  }

  /** A reference repeated in a message is commented on twice. */
  lemma RepeatedReferenceCommentedTwice(repository: Repository, url: string, committer: Committer)
    ensures var commit := Commit("ABC-1 ABC-1", url, committer);
            var c := CreateComment("features", "ABC-1", Message(repository, commit));
            Comments(repository, [commit]) == [c, c]
  {
    var commit := Commit("ABC-1 ABC-1", url, committer);
    RepeatedReferenceScannedTwice();
    FeatureReferenceType();
    CommentsForEachReference(repository, commit, ["ABC-1", "ABC-1"]);
  }

  /** The hook object: the comment calls it has made, in order. */
  class Hook {
    const repository: Repository
    const reply: seq<Comment> -> Reply   // the Aha! answer to the last comment call of the log
    var log: seq<Comment>

    constructor (repository: Repository, reply: seq<Comment> -> Reply)
      ensures this.repository == repository && this.reply == reply && log == []
    {
      this.repository := repository;
      this.reply := reply;
      log := [];
    }

    /** Comment on the record a reference names; an unknown record is passed over. */
    method CommentOnRecord(refNum: string, commit: Commit)
      modifies this
      ensures log == old(log) + [CreateComment(RecordType(refNum), refNum, Message(repository, commit))]
    {
      var recordType := RecordType(refNum);
      var message := Message(repository, commit);
      log := log + [CreateComment(recordType, refNum, message)];
      match reply(log)
      case NotFound =>  // it might not have been a reference at all: only a warning is logged
      case Created =>
    }

    /** Comment on every reference in one commit's message, in order. */
    method CommentOnReferences(commit: Commit)
      modifies this
      ensures log == old(log) + CommentsFor(repository, commit, References(commit.message))
    {
      var refs := References(commit.message);
      var j := 0;
      while j < |refs|
        invariant 0 <= j <= |refs|
        invariant log == old(log) + CommentsFor(repository, commit, refs[..j])
      {
        CommentOnRecord(refs[j], commit);
        CommentsForAppend(repository, commit, refs[..j], refs[j]);
        assert refs[..j + 1] == refs[..j] + [refs[j]];
        j := j + 1;
      }
      assert refs[..j] == refs;
    }

    /** Comment on every reference of every commit, in order. */
    method ReceiveWebhook(commits: seq<Commit>)
      modifies this
      ensures log == old(log) + Comments(repository, commits)
    {
      var i := 0;
      while i < |commits|
        invariant 0 <= i <= |commits|
        invariant log == old(log) + Comments(repository, commits[..i])
      {
        CommentOnReferences(commits[i]);
        CommentsAfter(repository, commits, i);
        i := i + 1;
      }
      assert commits[..i] == commits;
    }
  }
}
