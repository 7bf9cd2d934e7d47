/** nsswitch.conf: OS Login is named at the end of the passwd: and group:
    lines, and taken out again by deleting the first occurrence of its name. */
module NSSwitch {
  import opened TextLines

  const OSLOGIN := "oslogin"
  const SUFFIX := " cache_oslogin oslogin"

  /** strings.Replace(s, old, new, 1) for a non-empty old. */
  function ReplaceFirst(s: string, old_: string, new_: string): string
    requires old_ != []
  {
    if |s| < |old_| then s
    else if s[..|old_|] == old_ then new_ + s[|old_|..]
    else [s[0]] + ReplaceFirst(s[1..], old_, new_)
  }

  predicate Managed(line: string) {
    HasPrefix(line, "passwd:") || HasPrefix(line, "group:")
  }

  /** What happens to one line. */
  function UpdateLine(line: string, enable: bool, freebsd: bool): string {
    if !Managed(line) then line
    else
      var present := Contains(line, OSLOGIN);
      var switched :=
        if enable && !present then line + SUFFIX
        else if !enable && present then ReplaceFirst(line, SUFFIX, "")
        else line;
      if freebsd then ReplaceFirst(switched, "compat", "files") else switched
  }

  function UpdateLines(ls: seq<string>, enable: bool, freebsd: bool): (r: seq<string>)
    ensures |r| == |ls|
    ensures forall i | 0 <= i < |ls| :: r[i] == UpdateLine(ls[i], enable, freebsd)
  {
    seq(|ls|, i requires 0 <= i < |ls| => UpdateLine(ls[i], enable, freebsd))
  }

  function Update(nsswitch: string, enable: bool, freebsd: bool): string {
    Join(UpdateLines(Split(nsswitch), enable, freebsd))
  }

  /** The loop of updateNSSwitchConfig. */
  method UpdateNSSwitchConfig(nsswitch: string, enable: bool, freebsd: bool) returns (r: string)
    ensures r == Update(nsswitch, enable, freebsd)
  {
    var lines := Split(nsswitch);
    var filtered: seq<string> := [];
    for i := 0 to |lines|
      invariant |filtered| == i
      invariant forall k | 0 <= k < i :: filtered[k] == UpdateLine(lines[k], enable, freebsd)
    {
      var line := lines[i];
      if HasPrefix(line, "passwd:") || HasPrefix(line, "group:") {
        var present := Contains(line, OSLOGIN);
        if enable && !present {
          line := line + SUFFIX;
        } else if !enable && present {
          line := ReplaceFirst(line, SUFFIX, "");
        }
        if freebsd {
          line := ReplaceFirst(line, "compat", "files");
        }
      }
      filtered := filtered + [line];
    }
    assert filtered == UpdateLines(lines, enable, freebsd);
    r := Join(filtered);
  }

  // ---- the first occurrence of the suffix ----

  predicate IsFirst(s: string, sub: string, i: nat) {
    OccursAt(s, sub, i) && forall k | 0 <= k < i :: !OccursAt(s, sub, k)
  }

  lemma FirstInRest(s: string, sub: string, i: nat)
    requires 0 < i && IsFirst(s, sub, i)
    ensures s != [] && IsFirst(s[1..], sub, i - 1)
  {
    assert s[1..][i - 1..i - 1 + |sub|] == s[i..i + |sub|];
    forall k | 0 <= k < i - 1 ensures !OccursAt(s[1..], sub, k) {
      assert !OccursAt(s, sub, k + 1);
      if k + |sub| <= |s[1..]| {
        assert s[1..][k..k + |sub|] == s[k + 1..k + 1 + |sub|];
      }
    }
  }

  /** Exactly the first occurrence is replaced. */
  lemma {:induction false} ReplaceFirstAt(s: string, sub: string, new_: string, i: nat)
    requires sub != [] && IsFirst(s, sub, i)
    ensures ReplaceFirst(s, sub, new_) == s[..i] + new_ + s[i + |sub|..]
  {
    assert s[0..|sub|] == s[..|sub|];
    if i == 0 {
      assert s[..0] + new_ == new_;
    } else {
      assert !OccursAt(s, sub, 0);
      FirstInRest(s, sub, i);
      ReplaceFirstAt(s[1..], sub, new_, i - 1);
      assert [s[0]] + (s[1..][..i - 1] + new_ + s[1..][i - 1 + |sub|..]) == s[..i] + new_ + s[i + |sub|..];
    }
  }

  lemma AbsentInRest(s: string, sub: string)
    requires s != [] && !Contains(s, sub)
    ensures !Contains(s[1..], sub)
  {
    forall i: nat | i <= |s[1..]| ensures !OccursAt(s[1..], sub, i) {
      assert !OccursAt(s, sub, i + 1);
      if i + |sub| <= |s[1..]| {
        assert s[1..][i..i + |sub|] == s[i + 1..i + 1 + |sub|];
      }
    }
  }

  lemma {:induction false} ReplaceFirstAbsent(s: string, sub: string, new_: string)
    requires sub != [] && !Contains(s, sub)
    ensures ReplaceFirst(s, sub, new_) == s
  {
    if |s| >= |sub| {
      assert !OccursAt(s, sub, 0);
      assert s[0..|sub|] == s[..|sub|];
      AbsentInRest(s, sub);
      ReplaceFirstAbsent(s[1..], sub, new_);
    }
  }

  lemma {:induction false} FirstExists(s: string, sub: string, i: nat) returns (k: nat)
    requires OccursAt(s, sub, i)
    ensures k <= i && IsFirst(s, sub, k)
  {
    k := i;
    if j :| 0 <= j < i && OccursAt(s, sub, j) {
      k := FirstExists(s, sub, j);
    }
  }

  lemma ReplaceFirstShrinks(s: string, sub: string)
    requires sub != [] && Contains(s, sub)
    ensures |ReplaceFirst(s, sub, "")| == |s| - |sub|
  {
    var i :| 0 <= i <= |s| && OccursAt(s, sub, i);
    var k := FirstExists(s, sub, i);
    ReplaceFirstAt(s, sub, "", k);
  }

  lemma {:induction false} ReplaceFirstNewlineFree(s: string, sub: string, new_: string)
    requires sub != [] && NewlineFree(s) && NewlineFree(new_)
    ensures NewlineFree(ReplaceFirst(s, sub, new_))
  {
    if |s| >= |sub| && s[..|sub|] != sub {
      ReplaceFirstNewlineFree(s[1..], sub, new_);
    }
  }

  /** The suffix starts with a blank, and has its only other blank at 14. */
  lemma SuffixShape()
    ensures |SUFFIX| == 22 && SUFFIX[7..14] == OSLOGIN
    ensures SUFFIX[0] == ' ' && forall d | 0 < d < 14 :: SUFFIX[d] != ' '
    ensures Contains(SUFFIX, OSLOGIN)
  {
    assert OccursAt(SUFFIX, OSLOGIN, 7);
  }

  /** In a line that did not mention oslogin, the first occurrence of the
      suffix is the one just appended: no earlier one can overlap it. */
  lemma AppendedSuffixIsFirst(line: string)
    requires !Contains(line, OSLOGIN)
    ensures IsFirst(line + SUFFIX, SUFFIX, |line|)
  {
    var s := line + SUFFIX;
    SuffixShape();
    forall k | 0 <= k < |line| ensures !OccursAt(s, SUFFIX, k) {
      if OccursAt(s, SUFFIX, k) {
        OverlapImpossible(line, k);
      }
    }
  }

  lemma OverlapImpossible(line: string, k: nat)
    requires k < |line| && OccursAt(line + SUFFIX, SUFFIX, k)
    ensures Contains(line, OSLOGIN)
  {
    SuffixShape();
    var s := line + SUFFIX;
    assert forall j | k <= j < k + 22 :: s[j] == SUFFIX[j - k];
    assert s[|line|] == ' ';
    assert |line| - k >= 14;
    assert forall j | 0 <= j < 7 :: line[k + 7..k + 14][j] == s[k + 7 + j] == SUFFIX[7..14][j];
    assert line[k + 7..k + 14] == SUFFIX[7..14];
    assert OccursAt(line, OSLOGIN, k + 7);
  }

  // ---- single lines ----

  lemma UpdateLineNewlineFree(line: string, enable: bool, freebsd: bool)
    requires NewlineFree(line)
    ensures NewlineFree(UpdateLine(line, enable, freebsd))
  {
    ReplaceFirstNewlineFree(line, SUFFIX, "");
    var present := Contains(line, OSLOGIN);
    var switched :=
      if enable && !present then line + SUFFIX
      else if !enable && present then ReplaceFirst(line, SUFFIX, "")
      else line;
    ReplaceFirstNewlineFree(switched, "compat", "files");
  }

  lemma EnabledLineStays(line: string)
    ensures UpdateLine(UpdateLine(line, true, false), true, false) == UpdateLine(line, true, false)
  {
    SuffixShape();
    ContainsInPart(line, SUFFIX, "", OSLOGIN);
    assert line + SUFFIX + "" == line + SUFFIX;
  }

  /** A line comes back exactly when it is not ours or lacked our suffix. */
  lemma DisableUndoesEnableLine(line: string)
    ensures UpdateLine(UpdateLine(line, true, false), false, false) == line
       <==> !Managed(line) || !Contains(line, SUFFIX)
  {
    if Managed(line) {
      if Contains(line, OSLOGIN) {
        if Contains(line, SUFFIX) {
          ReplaceFirstShrinks(line, SUFFIX);
        } else {
          ReplaceFirstAbsent(line, SUFFIX, "");
        }
      } else {
        EnabledLineStays(line);
        AppendedSuffixIsFirst(line);
        ReplaceFirstAt(line + SUFFIX, SUFFIX, "", |line|);
        assert Managed(line + SUFFIX) && Contains(line + SUFFIX, OSLOGIN) by {
          SuffixShape();
          ContainsInPart(line, SUFFIX, "", OSLOGIN);
          assert line + SUFFIX + "" == line + SUFFIX;
        }
        SuffixNamesOsLogin(line);
      }
    }
  }

  lemma SuffixNamesOsLogin(line: string)
    ensures Contains(line, SUFFIX) ==> Contains(line, OSLOGIN)
  {
    if Contains(line, SUFFIX) {
      var i :| 0 <= i <= |line| && OccursAt(line, SUFFIX, i);
      SuffixShape();
      ContainsInPart(line[..i], SUFFIX, line[i + |SUFFIX|..], OSLOGIN);
      assert line[..i] + SUFFIX + line[i + |SUFFIX|..] == line;
    }
  }

  // ---- whole files ----

  lemma SplitUpdate(x: string, enable: bool, freebsd: bool)
    ensures Split(Update(x, enable, freebsd)) == UpdateLines(Split(x), enable, freebsd)
  {
    var ls := Split(x);
    forall i | 0 <= i < |ls| ensures NewlineFree(UpdateLine(ls[i], enable, freebsd)) {
      UpdateLineNewlineFree(ls[i], enable, freebsd);
    }
    SplitJoin(UpdateLines(ls, enable, freebsd));
  }

  /** Enabling twice is enabling once, on every file. */
  lemma EnableIdempotent(x: string)
    ensures Update(Update(x, true, false), true, false) == Update(x, true, false)
  {
    SplitUpdate(x, true, false);
    var ls := UpdateLines(Split(x), true, false);
    forall i | 0 <= i < |ls| ensures UpdateLine(ls[i], true, false) == ls[i] {
      EnabledLineStays(Split(x)[i]);
    }
    assert UpdateLines(ls, true, false) == ls;
  }

  /** Disabling after enabling is the identity exactly on the files none of
      whose passwd: or group: lines already carries the suffix. */
  lemma DisableUndoesEnable(x: string)
    ensures Update(Update(x, true, false), false, false) == x
       <==> forall i | 0 <= i < |Split(x)| :: !Managed(Split(x)[i]) || !Contains(Split(x)[i], SUFFIX)
  {
    SplitUpdate(x, true, false);
    SplitUpdate(Update(x, true, false), false, false);
    JoinSplit(x);
    var ls := Split(x);
    var back := UpdateLines(UpdateLines(ls, true, false), false, false);
    forall i | 0 <= i < |ls|
      ensures back[i] == ls[i] <==> !Managed(ls[i]) || !Contains(ls[i], SUFFIX)
    {
      DisableUndoesEnableLine(ls[i]);
    }
    assert Update(Update(x, true, false), false, false) == x <==> back == ls;
  }

  /** A file that names OS Login already shows the failing case. */
  lemma NotUndone()
    ensures var x := "passwd:" + SUFFIX; Update(Update(x, true, false), false, false) != x
  {
    var x := "passwd:" + SUFFIX;
    SplitLine(x);
    assert x[..7] == "passwd:";
    ContainsSelf(SUFFIX);
    ContainsInPart("passwd:", SUFFIX, "", SUFFIX);
    assert "passwd:" + SUFFIX + "" == x;
    DisableUndoesEnable(x);
    assert Managed(Split(x)[0]) && Contains(Split(x)[0], SUFFIX);
  }

  /** In particular when none of these lines mentions oslogin at all. */
  lemma DisableUndoesEnableUnmentioned(x: string)
    requires forall i | 0 <= i < |Split(x)| && Managed(Split(x)[i]) :: !Contains(Split(x)[i], OSLOGIN)
    ensures Update(Update(x, true, false), false, false) == x
  {
    forall i | 0 <= i < |Split(x)| && Managed(Split(x)[i]) ensures !Contains(Split(x)[i], SUFFIX) {
      SuffixNamesOsLogin(Split(x)[i]);
    }
    DisableUndoesEnable(x);
  }

  /** Enabling makes every passwd: and group: line name oslogin and leaves all
      other lines alone. */
  lemma EnabledNamesOsLogin(x: string, i: nat)
    requires i < |Split(x)|
    ensures |Split(Update(x, true, false))| == |Split(x)|
    ensures var line := Split(Update(x, true, false))[i];
      if HasPrefix(Split(x)[i], "passwd:") || HasPrefix(Split(x)[i], "group:")
      then
        && Contains(line, OSLOGIN) && HasPrefix(line, Split(x)[i])
        && (Contains(Split(x)[i], OSLOGIN) ==> line == Split(x)[i])
      else line == Split(x)[i]
  {
    SplitUpdate(x, true, false);
    var line := Split(x)[i];
    SuffixShape();
    ContainsInPart(line, SUFFIX, "", OSLOGIN);
    assert line + SUFFIX + "" == line + SUFFIX;
  }

  /** On FreeBSD the first compat of such a line becomes files, whatever else is
      done to it. */
  lemma FreebsdReadsFiles(line: string, enable: bool)
    requires HasPrefix(line, "passwd:") || HasPrefix(line, "group:")
    ensures var plain := UpdateLine(line, enable, false);
      && (!Contains(plain, "compat") ==> UpdateLine(line, enable, true) == plain)
      && forall k | 0 <= k <= |plain| && IsFirst(plain, "compat", k) ::
           UpdateLine(line, enable, true) == plain[..k] + "files" + plain[k + 6..]
  {
    var plain := UpdateLine(line, enable, false);
    if !Contains(plain, "compat") {
      ReplaceFirstAbsent(plain, "compat", "files");
    }
    forall k | 0 <= k <= |plain| && IsFirst(plain, "compat", k)
      ensures UpdateLine(line, enable, true) == plain[..k] + "files" + plain[k + 6..]
    {
      ReplaceFirstAt(plain, "compat", "files", k);
    }
  }
}
