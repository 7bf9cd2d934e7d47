/** Removal of the agent's own lines from a configuration file
    (filterGoogleLines): control blocks between two marker lines, and single
    lines announced by a comment marker. */
module OsLoginFilter {
  import opened TextLines

  // Long literals are written in pieces so that the verifier can see every character.
  const GOOGLE_COMMENT := "# Added by Google " + "Compute Engine OS Login."
  const GOOGLE_BLOCK_START := "#### Google OS Login " + "control. Do not edit " + "this section. ####"
  const GOOGLE_BLOCK_END := "#### End Google OS Login " + "control section. ####"

  predicate IsComment(line: string) { Contains(line, GOOGLE_COMMENT) }
  predicate IsStart(line: string) { Contains(line, GOOGLE_BLOCK_START) }
  predicate IsEnd(line: string) { Contains(line, GOOGLE_BLOCK_END) }

  /** The line carries some marker text. */
  predicate Marked(line: string) {
    IsComment(line) || IsStart(line) || IsEnd(line)
  }

  predicate MarkerFree(ls: seq<string>) {
    forall i | 0 <= i < |ls| :: !Marked(ls[i])
  }

  // ---- which positions survive, stated without any running state ----

  /** A line that opens a block where none is open. */
  predicate Opens(line: string) {
    IsStart(line) && !IsEnd(line) && !IsComment(line)
  }

  /** The block that is open at i was opened at s. */
  predicate OpenSince(ls: seq<string>, s: nat, i: nat)
    requires s < i <= |ls|
  {
    Opens(ls[s]) && forall t | s < t < i :: !IsEnd(ls[t])
  }

  /** Some earlier line opened a block and no line since has closed it. */
  predicate InBlock(ls: seq<string>, i: nat)
    requires i <= |ls|
  {
    exists s | 0 <= s < i :: OpenSince(ls, s, i)
  }

  /** The previous line is a comment marker standing outside every block. */
  predicate AfterComment(ls: seq<string>, i: nat)
    requires i <= |ls|
  {
    i > 0 && IsComment(ls[i - 1]) && !InBlock(ls, i - 1)
  }

  predicate Kept(ls: seq<string>, i: nat)
    requires i < |ls|
  {
    !Marked(ls[i]) && !InBlock(ls, i) && !AfterComment(ls, i)
  }

  /** The kept lines among the first n, in order. */
  function KeptBefore(ls: seq<string>, n: nat): seq<string>
    requires n <= |ls|
  {
    if n == 0 then []
    else KeptBefore(ls, n - 1) + if Kept(ls, n - 1) then [ls[n - 1]] else []
  }

  function DropFinalBlank(ls: seq<string>): seq<string> {
    if |ls| > 0 && ls[|ls| - 1] == "" then ls[..|ls| - 1] else ls
  }

  /** The lines of a file that are not the agent's, less one final blank. */
  function Survivors(contents: string): seq<string> {
    var ls := Split(contents);
    DropFinalBlank(KeptBefore(ls, |ls|))
  }

  lemma InBlockStep(ls: seq<string>, i: nat)
    requires i < |ls|
    ensures InBlock(ls, i + 1) <==> Opens(ls[i]) || (InBlock(ls, i) && !IsEnd(ls[i]))
  {
    if InBlock(ls, i) && !IsEnd(ls[i]) {
      var s :| 0 <= s < i && OpenSince(ls, s, i);
      assert OpenSince(ls, s, i + 1);
    }
    if Opens(ls[i]) {
      assert OpenSince(ls, i, i + 1);
    }
    if InBlock(ls, i + 1) && !Opens(ls[i]) {
      var s :| 0 <= s < i + 1 && OpenSince(ls, s, i + 1);
      assert OpenSince(ls, s, i);
    }
  }

  /** The two-flag loop keeps exactly the positions allowed above. */
  method FilterGoogleLines(contents: string) returns (filtered: seq<string>)
    ensures filtered == Survivors(contents)
  {
    var isgoogle, isgoogleblock := false, false;
    filtered := [];
    var lines := Split(contents);
    for i := 0 to |lines|
      invariant isgoogleblock == InBlock(lines, i)
      invariant !isgoogleblock ==> isgoogle == AfterComment(lines, i)
      invariant filtered == KeptBefore(lines, i)
    {
      var line := lines[i];
      InBlockStep(lines, i);
      if IsComment(line) && !isgoogleblock {
        isgoogle := true;
      } else if IsEnd(line) {
        isgoogleblock, isgoogle := false, false;
      } else if isgoogleblock || IsStart(line) {
        isgoogleblock := true;
      } else if isgoogle {
        isgoogle := false;
      } else {
        filtered := filtered + [line];
      }
    }
    if |filtered| > 0 && filtered[|filtered| - 1] == "" {
      filtered := filtered[..|filtered| - 1];
    }
  }

  // ---- what the filter does to concatenated files ----

  /** Nothing is pending at the end of these lines. */
  predicate Closed(ls: seq<string>) {
    !InBlock(ls, |ls|) && !AfterComment(ls, |ls|)
  }

  function AllKept(ls: seq<string>): seq<string> {
    KeptBefore(ls, |ls|)
  }

  lemma OpenSincePrefix(a: seq<string>, b: seq<string>, s: nat, i: nat)
    requires s < i <= |a|
    ensures OpenSince(a + b, s, i) <==> OpenSince(a, s, i)
  {
    assert forall t | 0 <= t < |a| :: a[t] == (a + b)[t];
  }

  lemma InBlockPrefix(a: seq<string>, b: seq<string>, i: nat)
    requires i <= |a|
    ensures InBlock(a + b, i) <==> InBlock(a, i)
  {
    if InBlock(a, i) {
      var s :| 0 <= s < i && OpenSince(a, s, i);
      OpenSincePrefix(a, b, s, i);
    }
    if InBlock(a + b, i) {
      var s :| 0 <= s < i && OpenSince(a + b, s, i);
      OpenSincePrefix(a, b, s, i);
    }
  }

  lemma OpenSinceShift(a: seq<string>, b: seq<string>, s: nat, j: nat)
    requires s < j <= |b|
    ensures OpenSince(a + b, |a| + s, |a| + j) <==> OpenSince(b, s, j)
  {
    var c := a + b;
    assert forall t | 0 <= t < |b| :: c[|a| + t] == b[t];
    assert forall t | |a| <= t < |c| :: c[t] == b[t - |a|];
  }

  /** A block that the first part closes is not open in the second. */
  lemma OpenedLater(a: seq<string>, b: seq<string>, s: nat, j: nat)
    requires j <= |b| && !InBlock(a, |a|) && s < |a| + j && OpenSince(a + b, s, |a| + j)
    ensures s >= |a|
  {
    if s < |a| {
      var c := a + b;
      assert forall t | 0 <= t < |a| :: a[t] == c[t];
      assert OpenSince(a, s, |a|);
    }
  }

  lemma InBlockShift(a: seq<string>, b: seq<string>, j: nat)
    requires j <= |b| && !InBlock(a, |a|)
    ensures InBlock(a + b, |a| + j) <==> InBlock(b, j)
  {
    if InBlock(b, j) {
      var s :| 0 <= s < j && OpenSince(b, s, j);
      OpenSinceShift(a, b, s, j);
    }
    if InBlock(a + b, |a| + j) {
      var s :| 0 <= s < |a| + j && OpenSince(a + b, s, |a| + j);
      OpenedLater(a, b, s, j);
      OpenSinceShift(a, b, s - |a|, j);
    }
  }

  lemma KeptShift(a: seq<string>, b: seq<string>, j: nat)
    requires Closed(a) && j < |b|
    ensures Kept(a + b, |a| + j) <==> Kept(b, j)
  {
    InBlockShift(a, b, j);
    if j > 0 {
      InBlockShift(a, b, j - 1);
    } else if a != [] {
      InBlockPrefix(a, b, |a| - 1);
    }
  }

  /** A closed file does not influence what follows it. */
  lemma {:induction false} KeptAppend(a: seq<string>, b: seq<string>, j: nat)
    requires Closed(a) && j <= |b|
    ensures KeptBefore(a + b, |a| + j) == AllKept(a) + KeptBefore(b, j)
  {
    if j == 0 {
      KeptPrefix(a, b, |a|);
    } else {
      KeptAppend(a, b, j - 1);
      KeptShift(a, b, j - 1);
    }
  }

  lemma {:induction false} KeptPrefix(a: seq<string>, b: seq<string>, i: nat)
    requires i <= |a|
    ensures KeptBefore(a + b, i) == KeptBefore(a, i)
  {
    if i > 0 {
      KeptPrefix(a, b, i - 1);
      InBlockPrefix(a, b, i - 1);
      if i > 1 { InBlockPrefix(a, b, i - 2); }
    }
  }

  lemma ClosedAppend(a: seq<string>, b: seq<string>)
    requires Closed(a) && Closed(b)
    ensures Closed(a + b)
    ensures AllKept(a + b) == AllKept(a) + AllKept(b)
  {
    KeptAppend(a, b, |b|);
    InBlockShift(a, b, |b|);
    if b == [] {
      assert a + b == a;
    } else {
      InBlockShift(a, b, |b| - 1);
    }
  }

  /** Lines without markers all stay. */
  lemma {:induction false} MarkerFreeKept(ls: seq<string>, n: nat)
    requires MarkerFree(ls) && n <= |ls|
    ensures KeptBefore(ls, n) == ls[..n]
    ensures Closed(ls)
  {
    if n > 0 {
      MarkerFreeKept(ls, n - 1);
      assert ls[..n] == ls[..n - 1] + [ls[n - 1]];
    }
  }

  /** Nothing of these lines stays, and they leave nothing pending. */
  predicate Erased(ls: seq<string>) {
    Closed(ls) && AllKept(ls) == []
  }

  lemma MarkerClasses()
    ensures Opens(GOOGLE_BLOCK_START)
    ensures IsEnd(GOOGLE_BLOCK_END)
    ensures IsComment(GOOGLE_COMMENT) && !IsEnd(GOOGLE_COMMENT) && !IsStart(GOOGLE_COMMENT)
  {
    ContainsSelf(GOOGLE_BLOCK_START);
    ContainsSelf(GOOGLE_BLOCK_END);
    ContainsSelf(GOOGLE_COMMENT);
    StartLetters();
    LacksChar(GOOGLE_BLOCK_START, GOOGLE_BLOCK_END, 'E');
    LacksChar(GOOGLE_BLOCK_START, GOOGLE_COMMENT, 'A');
    TooShort(GOOGLE_COMMENT, GOOGLE_BLOCK_END);
    TooShort(GOOGLE_COMMENT, GOOGLE_BLOCK_START);
  }

  lemma StartLetters()
    ensures 'E' !in GOOGLE_BLOCK_START && 'A' !in GOOGLE_BLOCK_START
    ensures 'E' in GOOGLE_BLOCK_END && 'A' in GOOGLE_COMMENT
  {
    assert GOOGLE_BLOCK_END[5] == 'E';
    assert GOOGLE_COMMENT[2] == 'A';
  }

  lemma HashInMarkers()
    ensures '#' in GOOGLE_COMMENT && '#' in GOOGLE_BLOCK_START && '#' in GOOGLE_BLOCK_END
  {
    assert GOOGLE_COMMENT[0] == '#';
    assert GOOGLE_BLOCK_START[0] == '#';
    assert GOOGLE_BLOCK_END[0] == '#';
  }

  lemma NoHashNoMarker(line: string)
    requires '#' !in line
    ensures !Marked(line)
  {
    HashInMarkers();
    LacksChar(line, GOOGLE_COMMENT, '#');
    LacksChar(line, GOOGLE_BLOCK_START, '#');
    LacksChar(line, GOOGLE_BLOCK_END, '#');
  }

  /** A directive without a hash sign, as the agent writes between markers. */
  predicate PlainLine(directive: string) {
    '#' !in directive && NewlineFree(directive)
  }

  predicate Plain(directives: seq<string>) {
    forall i | 0 <= i < |directives| :: PlainLine(directives[i])
  }

  function Block(directives: seq<string>): seq<string> {
    [GOOGLE_BLOCK_START] + directives + [GOOGLE_BLOCK_END]
  }

  lemma BlockErased(directives: seq<string>)
    requires Plain(directives)
    ensures Erased(Block(directives))
  {
    var b := Block(directives);
    var n := |directives| + 1;
    MarkerClasses();
    assert Opens(b[0]) && IsEnd(b[n]);
    forall t | 0 < t < n ensures !Marked(b[t]) {
      assert b[t] == directives[t - 1];
      NoHashNoMarker(b[t]);
    }
    BlockKeepsNothing(b, n);
    InBlockStep(b, n);
    assert OpenSince(b, 0, n);
    assert Marked(b[n]);
  }

  lemma {:induction false} BlockKeepsNothing(b: seq<string>, i: nat)
    requires 0 < i < |b| && Opens(b[0]) && forall t | 0 < t < i :: !Marked(b[t])
    ensures KeptBefore(b, i) == []
  {
    if i == 1 {
      assert Marked(b[0]);
    } else {
      BlockKeepsNothing(b, i - 1);
      assert OpenSince(b, 0, i - 1);
    }
  }

  lemma CommentedErased(directive: string)
    requires '#' !in directive
    ensures Erased([GOOGLE_COMMENT, directive])
  {
    var b := [GOOGLE_COMMENT, directive];
    MarkerClasses();
    NoHashNoMarker(directive);
    assert !InBlock(b, 0);
    InBlockStep(b, 0);
    InBlockStep(b, 1);
    assert KeptBefore(b, 1) == [];
    assert !Kept(b, 1);
  }

  // ---- the survivors themselves ----

  lemma {:induction false} KeptMarkerFree(ls: seq<string>, n: nat)
    requires n <= |ls|
    ensures MarkerFree(KeptBefore(ls, n))
    ensures AllNewlineFree(ls) ==> AllNewlineFree(KeptBefore(ls, n))
  {
    if n > 0 {
      KeptMarkerFree(ls, n - 1);
    }
  }

  /** Survivors are clean lines: no marker text, no newline. */
  lemma SurvivorsClean(contents: string)
    ensures MarkerFree(Survivors(contents))
    ensures AllNewlineFree(Survivors(contents))
  {
    KeptMarkerFree(Split(contents), |Split(contents)|);
  }

  /** b is found at these increasing positions of a. */
  predicate FoundAt(b: seq<string>, a: seq<string>, at: seq<int>) {
    && |at| == |b|
    && (forall i | 0 <= i < |at| :: 0 <= at[i] < |a| && a[at[i]] == b[i])
    && forall i, j | 0 <= i < j < |at| :: at[i] < at[j]
  }

  ghost predicate Subsequence(b: seq<string>, a: seq<string>) {
    exists at :: FoundAt(b, a, at)
  }

  lemma {:induction false} KeptPositions(ls: seq<string>, n: nat) returns (at: seq<int>)
    requires n <= |ls|
    ensures |at| == |KeptBefore(ls, n)|
    ensures forall i | 0 <= i < |at| :: 0 <= at[i] < n && ls[at[i]] == KeptBefore(ls, n)[i] && Kept(ls, at[i])
    ensures forall i, j | 0 <= i < j < |at| :: at[i] < at[j]
  {
    if n == 0 {
      at := [];
    } else {
      at := KeptPositions(ls, n - 1);
      if Kept(ls, n - 1) { at := at + [n - 1]; }
    }
  }

  lemma FoundPrefix(b: seq<string>, a: seq<string>, at: seq<int>, n: nat)
    requires FoundAt(b, a, at) && n <= |b|
    ensures FoundAt(b[..n], a, at[..n])
  {
  }

  /** The filter only deletes lines: it never reorders or invents one. */
  lemma SurvivorsSubsequence(contents: string)
    ensures Subsequence(Survivors(contents), Split(contents))
  {
    var ls := Split(contents);
    var at := KeptPositions(ls, |ls|);
    var all := KeptBefore(ls, |ls|);
    assert FoundAt(all, ls, at);
    var n := |DropFinalBlank(all)|;
    FoundPrefix(all, ls, at, n);
    assert DropFinalBlank(all) == all[..n];
  }

  /** A line of the file outside all blocks, not announced by a comment and
      without marker text is never lost (a final blank line apart). */
  lemma KeptSurvives(contents: string, i: nat)
    requires i < |Split(contents)| && Kept(Split(contents), i)
    requires Split(contents)[i] != ""
    ensures Split(contents)[i] in Survivors(contents)
  {
    var ls := Split(contents);
    KeptIn(ls, i, |ls|);
    var all := AllKept(ls);
    var j :| 0 <= j < |all| && all[j] == ls[i];
    assert DropFinalBlank(all) == all || DropFinalBlank(all)[..|all| - 1] == all[..|all| - 1];
    assert j < |DropFinalBlank(all)| ==> DropFinalBlank(all)[j] == ls[i];
  }

  lemma {:induction false} KeptIn(ls: seq<string>, i: nat, n: nat)
    requires i < n <= |ls| && Kept(ls, i)
    ensures ls[i] in KeptBefore(ls, n)
  {
    if n > i + 1 {
      KeptIn(ls, i, n - 1);
    }
  }
}
