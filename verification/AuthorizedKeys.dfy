/** A user's authorized_keys file: the user's own lines, then the agent's keys,
    each announced by a comment line (updateAuthorizedKeysFile). */
module AuthorizedKeys {
  import opened TextLines
  import opened SshKeys

  const GCOMMENT := "# Added by Google"

  // ---- reading ----

  /** The user's lines: neither blank, nor a comment marker, nor the first
      non-blank line after one. pending says that a marker was just read. */
  function UserLinesFrom(ls: seq<string>, pending: bool): seq<string> {
    if ls == [] then []
    else if ls[0] == "" then UserLinesFrom(ls[1..], pending)
    else if pending then UserLinesFrom(ls[1..], false)
    else if ls[0] == GCOMMENT then UserLinesFrom(ls[1..], true)
    else [ls[0]] + UserLinesFrom(ls[1..], false)
  }

  /** The agent's keys: the first non-blank line after each marker. */
  function GoogleKeysFrom(ls: seq<string>, pending: bool): seq<string> {
    if ls == [] then []
    else if ls[0] == "" then GoogleKeysFrom(ls[1..], pending)
    else if pending then [ls[0]] + GoogleKeysFrom(ls[1..], false)
    else GoogleKeysFrom(ls[1..], ls[0] == GCOMMENT)
  }

  function UserLines(contents: string): seq<string> {
    UserLinesFrom(Split(contents), false)
  }

  function GoogleKeys(contents: string): seq<string> {
    GoogleKeysFrom(Split(contents), false)
  }

  // ---- writing ----

  function Announced(keys: seq<string>): seq<string> {
    if keys == [] then [] else [GCOMMENT, keys[0]] + Announced(keys[1..])
  }

  /** The text the agent writes to the temporary file. */
  function Rewrite(contents: string, keys: seq<string>): string {
    Terminated(UserLines(contents)) + Terminated(Announced(keys))
  }

  /** The reading loop and the two writing loops. */
  method NewContents(contents: string, keys: seq<string>) returns (out: string)
    ensures out == Rewrite(contents, keys)
  {
    var isgoogle := false;
    var userKeys: seq<string> := [];
    var lines := Split(contents);
    for i := 0 to |lines|
      invariant userKeys + UserLinesFrom(lines[i..], isgoogle) == UserLines(contents)
    {
      var key := lines[i];
      assert lines[i..][1..] == lines[i + 1..];
      if key == "" {
        continue;
      }
      if isgoogle {
        isgoogle := false;
        continue;
      }
      if key == GCOMMENT {
        isgoogle := true;
        continue;
      }
      userKeys := userKeys + [key];
    }
    out := "";
    for i := 0 to |userKeys|
      invariant out + Terminated(userKeys[i..]) == Terminated(userKeys)
    {
      assert userKeys[i..][1..] == userKeys[i + 1..];
      out := out + (userKeys[i] + "\n");
    }
    assert out == Terminated(userKeys) && userKeys == UserLines(contents);
    assert keys[0..] == keys;
    for i := 0 to |keys|
      invariant out + Terminated(Announced(keys[i..])) == Rewrite(contents, keys)
    {
      assert keys[i..][1..] == keys[i + 1..];
      TerminatedAppend([GCOMMENT, keys[i]], Announced(keys[i + 1..]));
      assert Terminated([GCOMMENT, keys[i]]) == GCOMMENT + "\n" + (keys[i] + "\n") by {
        assert [GCOMMENT, keys[i]][1..] == [keys[i]];
      }
      out := out + (GCOMMENT + "\n" + (keys[i] + "\n"));
    }
    assert Terminated(Announced([])) == "";
  }

  // ---- re-reading what was written ----

  /** Lines a reader takes as the user's, whatever stands before them. */
  predicate OwnLines(ls: seq<string>) {
    forall i | 0 <= i < |ls| :: ls[i] != "" && ls[i] != GCOMMENT && NewlineFree(ls[i])
  }

  lemma {:induction false} UserLinesOwn(ls: seq<string>, pending: bool)
    requires AllNewlineFree(ls)
    ensures OwnLines(UserLinesFrom(ls, pending))
    ensures Writable(GoogleKeysFrom(ls, pending))
  {
    if ls != [] {
      UserLinesOwn(ls[1..], pending);
      UserLinesOwn(ls[1..], false);
      UserLinesOwn(ls[1..], true);
    }
  }

  lemma {:induction false} ReadOwn(own: seq<string>, rest: seq<string>)
    requires OwnLines(own)
    ensures UserLinesFrom(own + rest, false) == own + UserLinesFrom(rest, false)
    ensures GoogleKeysFrom(own + rest, false) == GoogleKeysFrom(rest, false)
  {
    if own == [] {
      assert own + rest == rest;
    } else {
      assert (own + rest)[1..] == own[1..] + rest;
      ReadOwn(own[1..], rest);
      assert [own[0]] + (own[1..] + UserLinesFrom(rest, false)) == own + UserLinesFrom(rest, false);
    }
  }

  lemma {:induction false} ReadAnnounced(keys: seq<string>, rest: seq<string>)
    requires Writable(keys)
    ensures UserLinesFrom(Announced(keys) + rest, false) == UserLinesFrom(rest, false)
    ensures GoogleKeysFrom(Announced(keys) + rest, false) == keys + GoogleKeysFrom(rest, false)
  {
    if keys == [] {
      assert Announced(keys) + rest == rest;
    } else {
      var ls := Announced(keys) + rest;
      var tail := Announced(keys[1..]) + rest;
      assert ls[1..] == [keys[0]] + tail;
      assert ls[1..][1..] == tail;
      ReadAnnounced(keys[1..], rest);
      assert [keys[0]] + (keys[1..] + GoogleKeysFrom(rest, false)) == keys + GoogleKeysFrom(rest, false);
    }
  }

  lemma {:induction false} AnnouncedNewlineFree(keys: seq<string>)
    requires Writable(keys)
    ensures AllNewlineFree(Announced(keys))
  {
    if keys != [] {
      AnnouncedNewlineFree(keys[1..]);
    }
  }

  lemma {:induction false} SplitRewrite(contents: string, keys: seq<string>, tail: string)
    requires Writable(keys)
    ensures Split(Rewrite(contents, keys) + tail) == UserLines(contents) + (Announced(keys) + Split(tail))
    ensures OwnLines(UserLines(contents))
  {
    UserLinesOwn(Split(contents), false);
    AnnouncedNewlineFree(keys);
    SplitAfterTwo(UserLines(contents), Announced(keys), tail);
  }

  /** Whatever is left after a rewritten text is read by itself: its user lines
      and keys are found after those that were written. */
  lemma {:induction false} RewriteThenTail(contents: string, keys: seq<string>, tail: string)
    requires Writable(keys)
    ensures UserLines(Rewrite(contents, keys) + tail) == UserLines(contents) + UserLines(tail)
    ensures GoogleKeys(Rewrite(contents, keys) + tail) == keys + GoogleKeys(tail)
  {
    SplitRewrite(contents, keys, tail);
    ReadOwn(UserLines(contents), Announced(keys) + Split(tail));
    ReadAnnounced(keys, Split(tail));
  }

  lemma NothingToRead()
    ensures UserLines("") == [] && GoogleKeys("") == []
  {
    assert Split("") == [""];
  }

  /** Reading back a rewritten file gives the same user lines and exactly the
      keys that were written. */
  lemma RewriteReadsBack(contents: string, keys: seq<string>)
    requires Writable(keys)
    ensures UserLines(Rewrite(contents, keys)) == UserLines(contents)
    ensures GoogleKeys(Rewrite(contents, keys)) == keys
  {
    RewriteThenTail(contents, keys, "");
    NothingToRead();
    assert Rewrite(contents, keys) + "" == Rewrite(contents, keys);
  }

  /** The keys are recovered exactly when each is a non-empty single line. */
  lemma KeysReadBackExactly(contents: string, keys: seq<string>)
    ensures GoogleKeys(Rewrite(contents, keys)) == keys <==> Writable(keys)
  {
    UserLinesOwn(Split(Rewrite(contents, keys)), false);
    if Writable(keys) {
      RewriteReadsBack(contents, keys);
    }
  }

  /** Successive rewrites collapse to the last one. */
  lemma RewritesCollapse(contents: string, keys1: seq<string>, keys2: seq<string>)
    requires Writable(keys1)
    ensures Rewrite(Rewrite(contents, keys1), keys2) == Rewrite(contents, keys2)
  {
    RewriteReadsBack(contents, keys1);
  }

  /** Rewriting with no keys leaves exactly the user's lines, and no key. */
  lemma RewriteWithoutKeys(contents: string)
    ensures Rewrite(contents, []) == Terminated(UserLines(contents))
    ensures GoogleKeys(Rewrite(contents, [])) == []
  {
    RewriteReadsBack(contents, []);
    assert Terminated(Announced([])) == "";
  }

  /** A file the agent never touched keeps every non-blank line. */
  lemma {:induction false} UntouchedLines(ls: seq<string>)
    requires GCOMMENT !in ls
    ensures UserLinesFrom(ls, false) == NonBlank(ls)
    ensures GoogleKeysFrom(ls, false) == []
  {
    if ls != [] {
      assert ls[0] in ls;
      assert forall l | l in ls[1..] :: l in ls;
      UntouchedLines(ls[1..]);
    }
  }

  function NonBlank(ls: seq<string>): seq<string> {
    if ls == [] then []
    else if ls[0] == "" then NonBlank(ls[1..])
    else [ls[0]] + NonBlank(ls[1..])
  }
}
