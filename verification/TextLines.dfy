/** Text as the agent handles it: Go strings cut at newlines, glued back
    together, and searched for fixed markers. */
module TextLines {

  lemma Associates<T>(a: seq<T>, b: seq<T>, c: seq<T>)
    ensures a + b + c == a + (b + c)
  {
  }

  predicate NewlineFree(s: string) {
    '\n' !in s
  }

  predicate AllNewlineFree(ls: seq<string>) {
    forall i | 0 <= i < |ls| :: NewlineFree(ls[i])
  }

  /** strings.Split(s, "\n"): never empty, and blank when s is. */
  function Split(s: string): (ls: seq<string>)
    ensures |ls| > 0
    ensures AllNewlineFree(ls)
  {
    if s == [] then [[]]
    else
      var rest := Split(s[1..]);
      if s[0] == '\n' then [[]] + rest else [[s[0]] + rest[0]] + rest[1..]
  }

  /** strings.Join(ls, "\n"). */
  function Join(ls: seq<string>): string {
    if |ls| == 0 then []
    else if |ls| == 1 then ls[0]
    else ls[0] + "\n" + Join(ls[1..])
  }

  /** The text of a file that ends every line with a newline. */
  function Terminated(ls: seq<string>): string {
    if |ls| == 0 then [] else ls[0] + "\n" + Terminated(ls[1..])
  }

  lemma {:induction false} JoinSplit(s: string)
    ensures Join(Split(s)) == s
  {
    if s != [] {
      JoinSplit(s[1..]);
      var rest := Split(s[1..]);
      if s[0] == '\n' {
        assert ([[]] + rest)[1..] == rest;
      } else if |rest| > 1 {
        assert ([[s[0]] + rest[0]] + rest[1..])[1..] == rest[1..];
        assert s == [s[0]] + (rest[0] + "\n" + Join(rest[1..]));
      }
    }
  }

  /** A newline-free head followed by a newline is exactly the first line. */
  lemma {:induction false} SplitHead(l: string, s: string)
    requires NewlineFree(l)
    ensures Split(l + "\n" + s) == [l] + Split(s)
  {
    var t := l + "\n" + s;
    if l == [] {
      assert t[1..] == s;
    } else {
      assert t[1..] == l[1..] + "\n" + s;
      SplitHead(l[1..], s);
      assert ([l[1..]] + Split(s))[1..] == Split(s);
      assert [l[0]] + l[1..] == l;
    }
  }

  lemma {:induction false} SplitLine(l: string)
    requires NewlineFree(l)
    ensures Split(l) == [l]
  {
    if l != [] {
      SplitLine(l[1..]);
      assert [l[0]] + l[1..] == l;
    }
  }

  lemma {:induction false} SplitJoin(ls: seq<string>)
    requires |ls| > 0 && AllNewlineFree(ls)
    ensures Split(Join(ls)) == ls
  {
    if |ls| == 1 {
      SplitLine(ls[0]);
    } else {
      SplitJoin(ls[1..]);
      SplitHead(ls[0], Join(ls[1..]));
      assert [ls[0]] + ls[1..] == ls;
    }
  }

  lemma {:induction false} SplitTerminated(ls: seq<string>)
    requires AllNewlineFree(ls)
    ensures Split(Terminated(ls)) == ls + [""]
  {
    if |ls| > 0 {
      SplitTerminated(ls[1..]);
      SplitHead(ls[0], Terminated(ls[1..]));
      assert [ls[0]] + (ls[1..] + [""]) == ls + [""];
    }
  }

  /** Whatever follows terminated lines is split by itself. */
  lemma {:induction false} SplitAfterTerminated(ls: seq<string>, rest: string)
    requires AllNewlineFree(ls)
    ensures Split(Terminated(ls) + rest) == ls + Split(rest)
  {
    if ls == [] {
      assert Terminated(ls) + rest == rest;
    } else {
      Associates(ls[0] + "\n", Terminated(ls[1..]), rest);
      SplitHead(ls[0], Terminated(ls[1..]) + rest);
      SplitAfterTerminated(ls[1..], rest);
      Associates([ls[0]], ls[1..], Split(rest));
      assert [ls[0]] + ls[1..] == ls;
    }
  }

  lemma {:induction false} SplitAfterTwo(a: seq<string>, b: seq<string>, rest: string)
    requires AllNewlineFree(a) && AllNewlineFree(b)
    ensures Split(Terminated(a) + Terminated(b) + rest) == a + (b + Split(rest))
  {
    SplitAfterTerminated(b, rest);
    SplitAfterTerminated(a, Terminated(b) + rest);
    Associates(Terminated(a), Terminated(b), rest);
  }

  /** Join plus a final newline terminates every line, except that no line at
      all still yields one newline. */
  lemma {:induction false} JoinNewline(ls: seq<string>)
    ensures Join(ls) + "\n" == if ls == [] then "\n" else Terminated(ls)
  {
    if |ls| > 1 {
      JoinNewline(ls[1..]);
      assert Join(ls) + "\n" == ls[0] + "\n" + (Join(ls[1..]) + "\n");
    } else if |ls| == 1 {
      assert Terminated(ls[1..]) == [];
    }
  }

  lemma {:induction false} TerminatedAppend(a: seq<string>, b: seq<string>)
    ensures Terminated(a + b) == Terminated(a) + Terminated(b)
  {
    if a == [] {
      assert a + b == b;
    } else {
      assert (a + b)[1..] == a[1..] + b;
      TerminatedAppend(a[1..], b);
    }
  }

  /** What lies before the last newline of a newline-terminated text. */
  lemma {:induction false} SplitNewlineTerminated(s: string)
    requires s != [] && s[|s| - 1] == '\n'
    ensures Split(s) == Split(s[..|s| - 1]) + [""]
  {
    var body := s[..|s| - 1];
    JoinSplit(body);
    JoinNewline(Split(body));
    SplitTerminated(Split(body));
    assert s == body + "\n";
  }

  // ---- substrings ----

  predicate OccursAt(s: string, sub: string, i: nat) {
    i + |sub| <= |s| && s[i..i + |sub|] == sub
  }

  /** strings.Contains. */
  predicate Contains(s: string, sub: string) {
    exists i | 0 <= i <= |s| :: OccursAt(s, sub, i)
  }

  /** strings.HasPrefix. */
  predicate HasPrefix(s: string, p: string) {
    |p| <= |s| && s[..|p|] == p
  }

  /** strings.HasSuffix. */
  predicate HasSuffix(s: string, p: string) {
    |p| <= |s| && s[|s| - |p|..] == p
  }

  /** strings.TrimPrefix. */
  function TrimPrefix(s: string, p: string): string {
    if HasPrefix(s, p) then s[|p|..] else s
  }

  /** strings.TrimSuffix. */
  function TrimSuffix(s: string, p: string): string {
    if HasSuffix(s, p) then s[..|s| - |p|] else s
  }

  /** A text that contains sub contains every character of sub. */
  lemma ContainsChars(s: string, sub: string, c: char)
    requires Contains(s, sub) && c in sub
    ensures c in s
  {
    var i :| 0 <= i <= |s| && OccursAt(s, sub, i);
    var j :| 0 <= j < |sub| && sub[j] == c;
    assert s[i..i + |sub|][j] == s[i + j];
  }

  lemma LacksChar(s: string, sub: string, c: char)
    requires c in sub && c !in s
    ensures !Contains(s, sub)
  {
    if Contains(s, sub) { ContainsChars(s, sub, c); }
  }

  lemma TooShort(s: string, sub: string)
    requires |s| < |sub|
    ensures !Contains(s, sub)
  {
  }

  lemma ContainsSelf(s: string)
    ensures Contains(s, s)
  {
    assert s[0..0 + |s|] == s;
    assert OccursAt(s, s, 0);
  }

  lemma ContainsInPart(a: string, p: string, b: string, sub: string)
    requires Contains(p, sub)
    ensures Contains(a + p + b, sub)
  {
    var i :| 0 <= i <= |p| && OccursAt(p, sub, i);
    var s := a + p + b;
    var k := |a| + i;
    assert s[k..k + |sub|] == p[i..i + |sub|];
    assert OccursAt(s, sub, k);
  }

  predicate SomeLineHas(ls: seq<string>, sub: string) {
    exists i | 0 <= i < |ls| :: Contains(ls[i], sub)
  }

  lemma SomeLineSplit(ls: seq<string>, sub: string)
    requires |ls| > 0
    ensures SomeLineHas(ls, sub) <==> Contains(ls[0], sub) || SomeLineHas(ls[1..], sub)
  {
    if SomeLineHas(ls[1..], sub) {
      var i :| 0 <= i < |ls[1..]| && Contains(ls[1..][i], sub);
      assert Contains(ls[i + 1], sub);
    }
    if i :| 0 < i < |ls| && Contains(ls[i], sub) {
      assert Contains(ls[1..][i - 1], sub);
    }
  }

  lemma ContainsHeadOrTail(l: string, t: string, sub: string)
    requires NewlineFree(sub) && sub != []
    ensures Contains(l + "\n" + t, sub) <==> Contains(l, sub) || Contains(t, sub)
  {
    if Contains(l + "\n" + t, sub) {
      OccursInHeadOrTail(l, t, sub);
    }
    if Contains(l, sub) {
      ContainsInPart("", l, "\n" + t, sub);
      assert "" + l + ("\n" + t) == l + "\n" + t;
    }
    if Contains(t, sub) {
      ContainsInPart(l + "\n", t, "", sub);
      assert l + "\n" + t + "" == l + "\n" + t;
    }
  }

  /** A newline-free text occurs in glued lines exactly when it occurs in one. */
  lemma {:induction false} JoinContains(ls: seq<string>, sub: string)
    requires NewlineFree(sub) && sub != [] && |ls| > 0
    ensures Contains(Join(ls), sub) <==> SomeLineHas(ls, sub)
  {
    SomeLineSplit(ls, sub);
    if |ls| == 1 {
      assert !SomeLineHas(ls[1..], sub);
    } else {
      JoinContains(ls[1..], sub);
      ContainsHeadOrTail(ls[0], Join(ls[1..]), sub);
    }
  }

  /** A newline-free text occurs in a file exactly when it occurs in a line. */
  lemma ContainsByLine(s: string, sub: string)
    requires NewlineFree(sub) && sub != []
    ensures Contains(s, sub) <==> SomeLineHas(Split(s), sub)
  {
    JoinSplit(s);
    JoinContains(Split(s), sub);
  }

  lemma OccursInHeadOrTail(l: string, t: string, sub: string)
    requires NewlineFree(sub) && sub != [] && Contains(l + "\n" + t, sub)
    ensures Contains(l, sub) || Contains(t, sub)
  {
    var s := l + "\n" + t;
    var i :| 0 <= i <= |s| && OccursAt(s, sub, i);
    assert forall k | i <= k < i + |sub| :: s[k] == sub[k - i];
    assert s[|l|] == '\n';
    if i + |sub| <= |l| {
      assert s[i..i + |sub|] == l[i..i + |sub|];
      assert OccursAt(l, sub, i);
    } else {
      var k := i - |l| - 1;
      assert s[i..i + |sub|] == t[k..k + |sub|];
      assert OccursAt(t, sub, k);
    }
  }
}
