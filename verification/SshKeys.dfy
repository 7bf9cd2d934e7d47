/** Metadata SSH keys. Two programs read them: the agent groups all entries by
    user (getUserKeys of the accounts manager), and google_authorized_keys
    picks one user's entries on demand (parseSSHKeys). */
module SshKeys {
  import opened Options
  import opened TextLines

  datatype Entry = Entry(user: string, key: string)

  function TrimLeft(s: string): string {
    if s != [] && s[0] == ' ' then TrimLeft(s[1..]) else s
  }

  function TrimRight(s: string): string {
    if s != [] && s[|s| - 1] == ' ' then TrimRight(s[..|s| - 1]) else s
  }

  /** strings.Trim(s, " "). */
  function Trim(s: string): string {
    TrimRight(TrimLeft(s))
  }

  /** strings.Index(s, ":"), with |s| for "not found". */
  function ColonAt(s: string): (i: nat)
    ensures i <= |s|
    ensures i < |s| ==> s[i] == ':'
    ensures ':' !in s[..i]
  {
    if s == [] || s[0] == ':' then 0
    else
      var i := 1 + ColonAt(s[1..]);
      assert s[..i] == [s[0]] + s[1..][..i - 1];
      i
  }

  /** utils.GetUserKey: a trimmed "user:key" with both parts non-empty. */
  function GetUserKey(rawKey: string): Option<Entry> {
    var key := Trim(rawKey);
    var idx := ColonAt(key);
    if key == "" || idx == |key| || idx == 0 || idx + 1 == |key| then None
    else Some(Entry(key[..idx], key[idx + 1..]))
  }

  /** The class \s of Go's regular expressions. */
  predicate IsSpace(c: char) {
    c == ' ' || c == '\t' || c == '\n' || c == '\r' || c as int == 12
  }

  /** utils.ValidateUser. */
  predicate ValidUser(user: string) {
    user != "" && forall i | 0 <= i < |user| :: !IsSpace(user[i])
  }

  /** utils.ValidateUserKey; unexpired says which keys parse and have not
      expired at the time of the call. */
  predicate ValidUserKey(e: Entry, unexpired: string -> bool) {
    ValidUser(e.user) && unexpired(e.key)
  }

  /** What the agent makes of one metadata entry. */
  function AgentEntry(raw: string, unexpired: string -> bool): Option<Entry> {
    var trimmed := Trim(raw);
    if trimmed == "" then None
    else
      var e := GetUserKey(trimmed);
      if e.Some? && ValidUserKey(e.value, unexpired) then e else None
  }

  /** What the on-demand program makes of one: it first insists on a colon. */
  function OnDemandEntry(raw: string, unexpired: string -> bool): Option<Entry> {
    if ':' !in raw then None
    else
      var e := GetUserKey(raw);
      if e.Some? && ValidUserKey(e.value, unexpired) then e else None
  }

  // ---- the agent's grouping ----

  function Lookup(m: map<string, seq<string>>, user: string): seq<string> {
    if user in m then m[user] else []
  }

  function Grouping(mdkeys: seq<string>, unexpired: string -> bool): map<string, seq<string>> {
    if mdkeys == [] then map[]
    else
      var m := Grouping(mdkeys[..|mdkeys| - 1], unexpired);
      match AgentEntry(mdkeys[|mdkeys| - 1], unexpired)
      case None => m
      case Some(e) => m[e.user := Lookup(m, e.user) + [e.key]]
  }

  /** The loop of the accounts manager's getUserKeys. */
  method GetUserKeys(mdkeys: seq<string>, unexpired: string -> bool) returns (mdKeyMap: map<string, seq<string>>)
    ensures mdKeyMap == Grouping(mdkeys, unexpired)
  {
    mdKeyMap := map[];
    for i := 0 to |mdkeys|
      invariant mdKeyMap == Grouping(mdkeys[..i], unexpired)
    {
      assert mdkeys[..i + 1][..i] == mdkeys[..i];
      var trimmedKey := Trim(mdkeys[i]);
      if trimmedKey != "" {
        var entry := GetUserKey(trimmedKey);
        if entry.None? || !ValidUserKey(entry.value, unexpired) {
          continue;
        }
        var userKeys := Lookup(mdKeyMap, entry.value.user);
        userKeys := userKeys + [entry.value.key];
        mdKeyMap := mdKeyMap[entry.value.user := userKeys];
      }
    }
    assert mdkeys[..|mdkeys|] == mdkeys;
  }

  // ---- the on-demand selection ----

  function Selected(username: string, keys: seq<string>, unexpired: string -> bool): seq<string> {
    if keys == [] then []
    else
      var before := Selected(username, keys[..|keys| - 1], unexpired);
      match OnDemandEntry(keys[|keys| - 1], unexpired)
      case None => before
      case Some(e) => if e.user == username then before + [e.key] else before
  }

  /** The loop of parseSSHKeys. */
  method ParseSshKeys(username: string, keys: seq<string>, unexpired: string -> bool) returns (keyList: seq<string>)
    ensures keyList == Selected(username, keys, unexpired)
  {
    keyList := [];
    for i := 0 to |keys|
      invariant keyList == Selected(username, keys[..i], unexpired)
    {
      assert keys[..i + 1][..i] == keys[..i];
      if ':' !in keys[i] { // SplitN(key, ":", 2) has one part
        continue;
      }
      var entry := GetUserKey(keys[i]);
      if entry.None? || !ValidUserKey(entry.value, unexpired) {
        continue;
      }
      if entry.value.user == username {
        keyList := keyList + [entry.value.key];
      }
    }
    assert keys[..|keys|] == keys;
  }

  /** getUserKeys of google_authorized_keys. */
  function OnDemandKeys(username: string, instanceKeys: seq<string>, projectKeys: seq<string>,
                        blockProjectKeys: bool, unexpired: string -> bool): seq<string> {
    Selected(username, instanceKeys, unexpired)
    + if blockProjectKeys then [] else Selected(username, projectKeys, unexpired)
  }

  /** The list the accounts manager hands to its grouping. */
  function EffectiveKeys(instanceKeys: seq<string>, projectKeys: seq<string>, blockProjectKeys: bool): seq<string> {
    if blockProjectKeys then instanceKeys else instanceKeys + projectKeys
  }

  // ---- trimming ----

  lemma {:induction false} TrimRightEnd(s: string)
    ensures TrimRight(s) != [] ==> TrimRight(s)[|TrimRight(s)| - 1] != ' '
    ensures TrimRight(s) <= s
  {
    if s != [] && s[|s| - 1] == ' ' {
      TrimRightEnd(s[..|s| - 1]);
    }
  }

  lemma {:induction false} TrimLeftStart(s: string)
    ensures TrimLeft(s) != [] ==> TrimLeft(s)[0] != ' '
    ensures |TrimLeft(s)| <= |s| && TrimLeft(s) == s[|s| - |TrimLeft(s)|..]
  {
    if s != [] && s[0] == ' ' {
      TrimLeftStart(s[1..]);
    }
  }

  lemma TrimIdempotent(s: string)
    ensures Trim(Trim(s)) == Trim(s)
  {
    TrimLeftStart(s);
    TrimRightEnd(TrimLeft(s));
  }

  /** What is left after trimming is a part of the text. */
  lemma TrimPart(s: string, c: char)
    requires c in Trim(s)
    ensures c in s
  {
    TrimLeftStart(s);
    TrimRightEnd(TrimLeft(s));
    assert c in TrimLeft(s);
  }

  // ---- what an entry means ----

  predicate AllBlank(s: string) {
    forall i | 0 <= i < |s| :: s[i] == ' '
  }

  /** raw is text with blanks around it, and text itself neither starts nor ends
      with one. */
  ghost predicate Around(raw: string, text: string) {
    && text != "" && text[0] != ' ' && text[|text| - 1] != ' '
    && exists l, r :: AllBlank(l) && AllBlank(r) && raw == l + text + r
  }

  lemma {:induction false} TrimLeftBlanks(l: string, text: string)
    requires AllBlank(l) && text != "" && text[0] != ' '
    ensures TrimLeft(l + text) == text
  {
    if l == "" {
      assert l + text == text;
    } else {
      assert (l + text)[1..] == l[1..] + text;
      TrimLeftBlanks(l[1..], text);
    }
  }

  lemma {:induction false} TrimRightBlanks(text: string, r: string)
    requires AllBlank(r) && text != "" && text[|text| - 1] != ' '
    ensures TrimRight(text + r) == text
  {
    if r == "" {
      assert text + r == text;
    } else {
      assert (text + r)[..|text + r| - 1] == text + r[..|r| - 1];
      TrimRightBlanks(text, r[..|r| - 1]);
    }
  }

  lemma {:induction false} TrimLeftCuts(s: string) returns (l: string)
    ensures AllBlank(l) && s == l + TrimLeft(s)
  {
    if s != [] && s[0] == ' ' {
      l := TrimLeftCuts(s[1..]);
      l := [' '] + l;
      assert s == [s[0]] + s[1..];
    } else {
      l := "";
    }
  }

  lemma {:induction false} TrimRightCuts(s: string) returns (r: string)
    ensures AllBlank(r) && s == TrimRight(s) + r
  {
    if s != [] && s[|s| - 1] == ' ' {
      r := TrimRightCuts(s[..|s| - 1]);
      r := r + [' '];
      assert s == s[..|s| - 1] + [s[|s| - 1]];
    } else {
      r := "";
    }
  }

  /** Trimming finds exactly what stands between the blanks. */
  lemma TrimMeans(raw: string, text: string)
    requires text != ""
    ensures Trim(raw) == text <==> Around(raw, text)
  {
    if Around(raw, text) {
      var l, r :| AllBlank(l) && AllBlank(r) && raw == l + text + r;
      Associates(l, text, r);
      TrimLeftBlanks(l, text + r);
      TrimRightBlanks(text, r);
    }
    if Trim(raw) == text {
      var l := TrimLeftCuts(raw);
      var r := TrimRightCuts(TrimLeft(raw));
      Associates(l, text, r);
      TrimRightEnd(TrimLeft(raw));
      TrimLeftStart(raw);
      assert raw == l + text + r;
    }
  }

  /** The entry is user, a colon and key, with blanks around it at most. */
  ghost predicate Reads(raw: string, user: string, key: string) {
    user != "" && ':' !in user && key != "" && Around(raw, user + ":" + key)
  }

  lemma ColonAtFirst(user: string, key: string)
    requires ':' !in user
    ensures ColonAt(user + ":" + key) == |user|
  {
    var text, i := user + ":" + key, ColonAt(user + ":" + key);
    assert forall k | 0 <= k < |user| :: text[k] == user[k] && user[k] in user;
    assert forall k | 0 <= k < i :: text[..i][k] in text[..i] && text[..i][k] == text[k];
    assert text[|user|] == ':';
  }

  /** GetUserKey gives a user and a key exactly for entries of that form, and these. */
  lemma GetUserKeyMeans(raw: string, user: string, key: string)
    ensures GetUserKey(raw) == Some(Entry(user, key)) <==> Reads(raw, user, key)
  {
    var text := user + ":" + key;
    TrimMeans(raw, text);
    if Reads(raw, user, key) {
      ColonAtFirst(user, key);
      assert text[..|user|] == user && text[|user| + 1..] == key;
    }
    if GetUserKey(raw) == Some(Entry(user, key)) {
      var idx := ColonAt(Trim(raw));
      assert Trim(raw) == Trim(raw)[..idx] + [Trim(raw)[idx]] + Trim(raw)[idx + 1..];
      assert Trim(raw) == text;
    }
  }

  /** It fails exactly for entries that have no such form. */
  lemma GetUserKeyFails(raw: string)
    ensures GetUserKey(raw).None? <==> forall user, key :: !Reads(raw, user, key)
  {
    forall user, key ensures Reads(raw, user, key) <==> GetUserKey(raw) == Some(Entry(user, key)) {
      GetUserKeyMeans(raw, user, key);
    }
    if GetUserKey(raw).Some? {
      var e := GetUserKey(raw).value;
      assert Reads(raw, e.user, e.key);
    }
  }

  /** An entry that counts: no white space in the user, and a key that is good. */
  ghost predicate Accepts(raw: string, user: string, key: string, unexpired: string -> bool) {
    && Reads(raw, user, key) && unexpired(key)
    && ' ' !in user && '\t' !in user && '\n' !in user && '\r' !in user && '\U{000C}' !in user
  }

  lemma AgentEntryMeans(raw: string, user: string, key: string, unexpired: string -> bool)
    ensures AgentEntry(raw, unexpired) == Some(Entry(user, key)) <==> Accepts(raw, user, key, unexpired)
  {
    TrimIdempotent(raw);
    GetUserKeyMeans(raw, user, key);
    ValidUserMeans(user);
  }

  lemma ValidUserMeans(user: string)
    ensures ValidUser(user) <==> user != "" && ' ' !in user && '\t' !in user && '\n' !in user && '\r' !in user
                                 && '\U{000C}' !in user
  {
    assert forall c :: c in user <==> exists i | 0 <= i < |user| :: user[i] == c;
  }

  /** The entry counts for this user. */
  ghost predicate CountsFor(raw: string, user: string, unexpired: string -> bool) {
    exists key :: Accepts(raw, user, key, unexpired)
  }

  lemma EntryCounts(raw: string, user: string, unexpired: string -> bool)
    ensures var e := OnDemandEntry(raw, unexpired);
      && (CountsFor(raw, user, unexpired) <==> e.Some? && e.value.user == user)
      && (e.Some? && e.value.user == user ==> Accepts(raw, user, e.value.key, unexpired))
  {
    var e := OnDemandEntry(raw, unexpired);
    EntriesAgree(raw, unexpired);
    if CountsFor(raw, user, unexpired) {
      var key :| Accepts(raw, user, key, unexpired);
      AgentEntryMeans(raw, user, key, unexpired);
    }
    if e.Some? {
      AgentEntryMeans(raw, e.value.user, e.value.key, unexpired);
    }
  }

  /** The keys selected for a user are found at increasing positions of the list,
      each in an entry that counts for that user, and no such entry is passed over. */
  ghost predicate FoundIn(selected: seq<string>, at: seq<nat>, user: string, keys: seq<string>,
                          unexpired: string -> bool) {
    && |at| == |selected|
    && (forall i | 0 <= i < |at| :: at[i] < |keys| && Accepts(keys[at[i]], user, selected[i], unexpired))
    && (forall i, j | 0 <= i < j < |at| :: at[i] < at[j])
    && (forall n | 0 <= n < |keys| && CountsFor(keys[n], user, unexpired) :: n in at)
  }

  lemma FoundNext(selected: seq<string>, at: seq<nat>, user: string, keys: seq<string>, key: string,
                  unexpired: string -> bool)
    requires keys != [] && FoundIn(selected, at, user, keys[..|keys| - 1], unexpired)
    requires Accepts(keys[|keys| - 1], user, key, unexpired)
    ensures FoundIn(selected + [key], at + [|keys| - 1], user, keys, unexpired)
  {
  }

  lemma FoundPassed(selected: seq<string>, at: seq<nat>, user: string, keys: seq<string>, unexpired: string -> bool)
    requires keys != [] && FoundIn(selected, at, user, keys[..|keys| - 1], unexpired)
    requires !CountsFor(keys[|keys| - 1], user, unexpired)
    ensures FoundIn(selected, at, user, keys, unexpired)
  {
  }

  lemma {:induction false} SelectedPositions(user: string, keys: seq<string>, unexpired: string -> bool)
    returns (at: seq<nat>)
    ensures FoundIn(Selected(user, keys, unexpired), at, user, keys, unexpired)
  {
    if keys == [] {
      at := [];
    } else {
      var n := |keys| - 1;
      var before := Selected(user, keys[..n], unexpired);
      at := SelectedPositions(user, keys[..n], unexpired);
      EntryCounts(keys[n], user, unexpired);
      var e := OnDemandEntry(keys[n], unexpired);
      if e.Some? && e.value.user == user {
        FoundNext(before, at, user, keys, e.value.key, unexpired);
        at := at + [n];
      } else {
        FoundPassed(before, at, user, keys, unexpired);
      }
    }
  }

  /** A single entry that counts yields that user with that key, in both programs. */
  lemma OneEntry(raw: string, user: string, key: string, unexpired: string -> bool)
    requires Accepts(raw, user, key, unexpired)
    ensures Grouping([raw], unexpired) == map[user := [key]] && Selected(user, [raw], unexpired) == [key]
    ensures OnDemandKeys(user, [], [raw], false, unexpired) == [key]
    ensures OnDemandKeys(user, [], [raw], true, unexpired) == []
  {
    AgentEntryMeans(raw, user, key, unexpired);
    EntriesAgree(raw, unexpired);
    assert [raw][..0] == [] && [] + [key] == [key];
    assert Grouping([], unexpired) == map[] && Selected(user, [], unexpired) == [];
    assert Lookup(map[], user) + [key] == [key];
  }

  // ---- the two selectors agree ----

  lemma EntriesAgree(raw: string, unexpired: string -> bool)
    ensures AgentEntry(raw, unexpired) == OnDemandEntry(raw, unexpired)
  {
    TrimIdempotent(raw);
    var key := Trim(raw);
    if ColonAt(key) < |key| {
      assert ':' in key;
      TrimPart(raw, ':');
    }
  }

  lemma {:induction false} GroupingSelects(user: string, keys: seq<string>, unexpired: string -> bool)
    ensures Lookup(Grouping(keys, unexpired), user) == Selected(user, keys, unexpired)
  {
    if keys != [] {
      GroupingSelects(user, keys[..|keys| - 1], unexpired);
      EntriesAgree(keys[|keys| - 1], unexpired);
    }
  }

  lemma {:induction false} SelectedAppend(user: string, a: seq<string>, b: seq<string>, unexpired: string -> bool)
    ensures Selected(user, a + b, unexpired) == Selected(user, a, unexpired) + Selected(user, b, unexpired)
  {
    if b == [] {
      assert a + b == a;
    } else {
      assert (a + b)[..|a + b| - 1] == a + b[..|b| - 1];
      SelectedAppend(user, a, b[..|b| - 1], unexpired);
    }
  }

  /** For every user and every pair of key lists, the on-demand program returns
      the very list the agent would install for that user. */
  lemma SelectorsAgree(user: string, instanceKeys: seq<string>, projectKeys: seq<string>,
                       blockProjectKeys: bool, unexpired: string -> bool)
    ensures OnDemandKeys(user, instanceKeys, projectKeys, blockProjectKeys, unexpired)
         == Lookup(Grouping(EffectiveKeys(instanceKeys, projectKeys, blockProjectKeys), unexpired), user)
  {
    GroupingSelects(user, EffectiveKeys(instanceKeys, projectKeys, blockProjectKeys), unexpired);
    SelectedAppend(user, instanceKeys, projectKeys, unexpired);
  }

  /** A key list as the agent writes it: lines that are neither blank nor cut. */
  predicate Writable(keys: seq<string>) {
    forall i | 0 <= i < |keys| :: keys[i] != "" && NewlineFree(keys[i])
  }

  /** Every user of the grouping has a usable name and at least one key. */
  lemma {:induction false} GroupingUsersValid(mdkeys: seq<string>, unexpired: string -> bool)
    ensures forall u | u in Grouping(mdkeys, unexpired) ::
      ValidUser(u) && Grouping(mdkeys, unexpired)[u] != []
  {
    if mdkeys != [] {
      GroupingUsersValid(mdkeys[..|mdkeys| - 1], unexpired);
    }
  }

  /** Metadata split at newlines yields only unexpired keys that fit on a line. */
  lemma {:induction false} GroupingKeysWritable(mdkeys: seq<string>, unexpired: string -> bool)
    requires AllNewlineFree(mdkeys)
    ensures forall u | u in Grouping(mdkeys, unexpired) ::
      && Writable(Grouping(mdkeys, unexpired)[u])
      && forall i | 0 <= i < |Grouping(mdkeys, unexpired)[u]| :: unexpired(Grouping(mdkeys, unexpired)[u][i])
  {
    if mdkeys != [] {
      GroupingKeysWritable(mdkeys[..|mdkeys| - 1], unexpired);
      EntryKeyWritable(mdkeys[|mdkeys| - 1], unexpired);
    }
  }

  lemma EntryKeyWritable(raw: string, unexpired: string -> bool)
    requires NewlineFree(raw)
    ensures var e := AgentEntry(raw, unexpired); e.Some? ==> e.value.key != "" && NewlineFree(e.value.key)
  {
    var key := Trim(Trim(raw));
    if '\n' in key {
      TrimPart(Trim(raw), '\n');
      TrimPart(raw, '\n');
    }
  }
}
