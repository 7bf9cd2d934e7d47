/** The accounts manager: it creates users named in metadata, keeps the agent's
    keys in their authorized_keys files, takes them out again for users that
    are no longer named, and remembers in memory what it last wrote. */
module Accounts {
  import opened Options
  import opened TextLines
  import opened SshKeys
  import opened AuthorizedKeys

  // ---- outcomes the environment decides ----

  /** createGoogleUser: done; the user exists but a group command failed; or
      the user was not created. */
  datatype CreateOutcome = Created | CreatedUngrouped | NotCreated

  /** updateAuthorizedKeysFile: the new file is in place; a failure before the
      temporary file was opened; chown failed, which removes the temporary
      file; or restorecon or rename failed, which leaves it behind. */
  datatype UpdateOutcome = Renamed | FailedEarly | FailedChown | FailedLate

  /** What happens to one user's commands during one Set. */
  datatype Luck = Luck(create: CreateOutcome, update: UpdateOutcome, userdel: bool)

  // ---- one user ----

  /** What the host holds for one user name: whether /etc/passwd has it, and
      the contents of authorized_keys and of its temporary file, "" when
      absent. */
  datatype Account = Account(present: bool, file: string, temp: string)

  const NO_ACCOUNT := Account(false, "", "")

  /** A user as the agent sees it: the account, the cached key list, and
      whether google_users names the user. */
  datatype User = User(account: Account, cached: Option<seq<string>>, listed: bool)

  /** The temporary file is opened without truncation: what a longer left-over
      had beyond the new text stays at the end. */
  function Overwrite(leftover: string, text: string): string {
    text + if |leftover| > |text| then leftover[|text|..] else ""
  }

  predicate UpdateSucceeds(a: Account, outcome: UpdateOutcome, nologin: bool) {
    a.present && !outcome.FailedEarly? && (nologin || outcome.Renamed?)
  }

  /** updateAuthorizedKeysFile for one user. */
  function UpdateFile(a: Account, keys: seq<string>, outcome: UpdateOutcome, nologin: bool): Account {
    if !a.present || outcome.FailedEarly? || nologin then a
    else
      var text := Overwrite(a.temp, Rewrite(a.file, keys));
      match outcome
      case Renamed => a.(file := text, temp := "")
      case FailedChown => a.(temp := "")
      case FailedLate => a.(temp := text)
      case FailedEarly => a
  }

  /** One round of the first loop of Set. */
  function Provision(u: User, keys: seq<string>, luck: Luck, nologin: bool): User {
    var a := if luck.create.NotCreated? then u.account else u.account.(present := true);
    if !u.account.present && !luck.create.Created? then u.(account := a)
    else if u.cached == Some(keys) then u.(account := a)
    else
      User(UpdateFile(a, keys, luck.update, nologin),
           if UpdateSucceeds(a, luck.update, nologin) then Some(keys) else u.cached,
           u.listed)
  }

  /** One round of the second loop of Set. */
  function Deprovision(u: User, luck: Luck, deprovisionRemove: bool, nologin: bool): User {
    User(if !deprovisionRemove then UpdateFile(u.account, [], luck.update, nologin)
         else if u.account.present && luck.userdel then NO_ACCOUNT
         else u.account,
         None,
         u.listed)
  }

  /** Everything one Set means to one user. */
  datatype Turn = Turn(
    wanted: Option<seq<string>>, // the user's accepted metadata keys
    readable: bool,              // google_users could be read
    writable: bool,              // google_users could be written
    deprovisionRemove: bool,
    nologin: bool,               // the user's shell is /sbin/nologin
    luck: Luck)

  /** The effect of the two loops of Set on one user. */
  function Reconcile(u: User, t: Turn): User {
    match t.wanted
    case Some(keys) => Provision(u, keys, t.luck, t.nologin)
    case None =>
      if t.readable && u.listed then Deprovision(u, t.luck, t.deprovisionRemove, t.nologin) else u
  }

  /** The effect of one Set on one user. */
  function SetUser(u: User, t: Turn): User {
    var v := Reconcile(u, t);
    if t.writable then v.(listed := v.cached.Some?) else v
  }

  // ---- the manager ----

  datatype Metadata = Metadata(instanceKeys: seq<string>, projectKeys: seq<string>, blockProjectKeys: bool)

  datatype Env = Env(
    luck: string -> Luck, nologin: string -> bool,
    readable: bool, writable: bool, deprovisionRemove: bool)

  function Wanted(md: Metadata, unexpired: string -> bool): map<string, seq<string>> {
    Grouping(EffectiveKeys(md.instanceKeys, md.projectKeys, md.blockProjectKeys), unexpired)
  }

  function TurnOf(user: string, wanted: map<string, seq<string>>, env: Env): Turn {
    Turn(if user in wanted then Some(wanted[user]) else None,
         env.readable, env.writable, env.deprovisionRemove, env.nologin(user), env.luck(user))
  }

  /** compareStringSlice: the sorted copies it makes are never used. */
  method CompareStringSlice(first: seq<string>, second: seq<string>) returns (same: bool)
    ensures same <==> first == second
  {
    if |first| != |second| {
      return false;
    }
    for idx := 0 to |first|
      invariant first[..idx] == second[..idx]
    {
      if first[idx] != second[idx] {
        return false;
      }
    }
    return true;
  }

  /** A user that is created while google_users is unreadable: the code then
      writes to a nil map. */
  predicate Panics(u: User, luck: Luck, readable: bool) {
    !readable && !u.account.present && luck.create.Created?
  }

  /** The text of google_users names the user: on a line of its own. */
  predicate Names(text: string, user: string) {
    user != "" && user in Split(text)
  }

  class AccountsManager {
    /** What was last added to each managed user's file. */
    var sshKeys: map<string, seq<string>>

    /** /etc/passwd and the home directories; names not in the map are absent. */
    var accounts: map<string, Account>

    /** The text of the google_users file. */
    var googleUsers: string

    ghost predicate Valid()
      reads this
    {
      forall u | u in sshKeys :: ValidUser(u)
    }

    function AccountOf(user: string): Account
      reads this`accounts
    {
      if user in accounts then accounts[user] else NO_ACCOUNT
    }

    ghost function CacheOf(user: string): Option<seq<string>>
      reads this`sshKeys
    {
      if user in sshKeys then Some(sshKeys[user]) else None
    }

    ghost function View(user: string): User
      reads this
    {
      User(AccountOf(user), CacheOf(user), Names(googleUsers, user))
    }

    /** A freshly started agent: nothing cached, the host as it is. */
    constructor (accounts: map<string, Account>, googleUsers: string)
      ensures Valid() && this.accounts == accounts && this.googleUsers == googleUsers
      ensures forall u :: View(u).cached == None
    {
      sshKeys := map[];
      this.accounts, this.googleUsers := accounts, googleUsers;
    }

    method ReadGoogleUsersFile() returns (users: set<string>)
      ensures forall u :: u in users <==> Names(googleUsers, u)
    {
      users := {};
      var lines := Split(googleUsers);
      for i := 0 to |lines|
        invariant users == set l | l in lines[..i] && l != ""
      {
        assert lines[..i + 1] == lines[..i] + [lines[i]];
        if lines[i] != "" {
          users := users + {lines[i]};
        }
      }
      assert lines[..|lines|] == lines;
    }

    method WriteGoogleUsersFile()
      requires Valid()
      modifies this`googleUsers
      ensures forall u :: Names(googleUsers, u) <==> u in sshKeys
      ensures forall u :: View(u) == old(View(u)).(listed := View(u).cached.Some?)
    {
      var text := "";
      ghost var order: seq<string> := [];
      var todo := sshKeys.Keys;
      while todo != {}
        invariant todo <= sshKeys.Keys
        invariant forall u :: u in order <==> u in sshKeys.Keys - todo
        invariant text == Terminated(order)
      {
        var user :| user in todo;
        todo := todo - {user};
        TerminatedAppend(order, [user]);
        text := text + (user + "\n");
        order := order + [user];
      }
      googleUsers := text;
      assert AllNewlineFree(order) by {
        forall i | 0 <= i < |order| ensures NewlineFree(order[i]) {
          assert order[i] in order;
        }
      }
      SplitTerminated(order);
      assert forall u :: u in order + [""] <==> u in order || u == "";
    }

    method UpdateAuthorizedKeysFile(user: string, keys: seq<string>, outcome: UpdateOutcome, nologin: bool)
      returns (ok: bool)
      modifies this`accounts
      ensures ok == UpdateSucceeds(old(AccountOf(user)), outcome, nologin)
      ensures AccountOf(user) == UpdateFile(old(AccountOf(user)), keys, outcome, nologin)
      ensures forall u | u != user :: AccountOf(u) == old(AccountOf(u))
    {
      var passwd := AccountOf(user);
      if !passwd.present || outcome.FailedEarly? {
        return false;
      }
      if nologin {
        return true;
      }
      var text := NewContents(passwd.file, keys);
      if |passwd.temp| > |text| {
        text := text + passwd.temp[|text|..];
      }
      if outcome.FailedChown? {
        accounts := accounts[user := passwd.(temp := "")];
        return false;
      }
      if outcome.FailedLate? {
        accounts := accounts[user := passwd.(temp := text)];
        return false;
      }
      accounts := accounts[user := passwd.(file := text, temp := "")];
      return true;
    }

    /** removeGoogleUser and the deletion from the cache that follows it. */
    method RemoveGoogleUser(user: string, env: Env)
      requires Valid()
      modifies this`accounts, this`sshKeys
      ensures Valid()
      ensures View(user) == Deprovision(old(View(user)), env.luck(user), env.deprovisionRemove, env.nologin(user))
      ensures forall u | u != user :: View(u) == old(View(u))
    {
      if env.deprovisionRemove {
        if AccountOf(user).present && env.luck(user).userdel {
          accounts := accounts[user := NO_ACCOUNT];
        }
      } else {
        var _ := UpdateAuthorizedKeysFile(user, [], env.luck(user).update, env.nologin(user));
      }
      sshKeys := sshKeys - {user};
    }

    /** The body of the first loop of Set for one user. */
    method ProvisionUser(user: string, userKeys: seq<string>, env: Env, gUsers: set<string>)
      returns (panicked: bool, gUsers': set<string>)
      requires Valid() && ValidUser(user) && userKeys != []
      modifies this`accounts, this`sshKeys
      ensures Valid() && gUsers <= gUsers' <= gUsers + {user}
      ensures panicked <==> Panics(old(View(user)), env.luck(user), env.readable)
      ensures !panicked ==>
        View(user) == Provision(old(View(user)), userKeys, env.luck(user), env.nologin(user))
      ensures forall u | u != user :: View(u) == old(View(u))
    {
      panicked, gUsers' := false, gUsers;
      if !AccountOf(user).present {
        if !env.luck(user).create.NotCreated? {
          accounts := accounts[user := AccountOf(user).(present := true)];
        }
        if !env.luck(user).create.Created? {
          return;
        }
        if !env.readable {
          panicked := true; // gUsers is a nil map here
          return;
        }
        gUsers' := gUsers' + {user};
      }
      var same := CompareStringSlice(userKeys, Lookup(sshKeys, user));
      if !same {
        var ok := UpdateAuthorizedKeysFile(user, userKeys, env.luck(user).update, env.nologin(user));
        if ok {
          sshKeys := sshKeys[user := userKeys];
        }
      }
    }

    /** The first loop of Set: users named in metadata, in any order. */
    method ProvisionUsers(mdKeyMap: map<string, seq<string>>, env: Env, listed: set<string>)
      returns (panicked: bool, gUsers: set<string>)
      requires Valid() && forall u | u in mdKeyMap :: ValidUser(u) && mdKeyMap[u] != []
      modifies this`accounts, this`sshKeys
      ensures Valid() && listed <= gUsers <= listed + mdKeyMap.Keys
      ensures panicked <==> exists u | u in mdKeyMap :: Panics(old(View(u)), env.luck(u), env.readable)
      ensures forall u | u !in mdKeyMap :: View(u) == old(View(u))
      ensures !panicked ==> forall u | u in mdKeyMap ::
        View(u) == Provision(old(View(u)), mdKeyMap[u], env.luck(u), env.nologin(u))
    {
      gUsers := listed;
      var todo := mdKeyMap.Keys;
      while todo != {}
        invariant todo <= mdKeyMap.Keys && Valid()
        invariant listed <= gUsers <= listed + mdKeyMap.Keys
        invariant forall u | u in mdKeyMap && u !in todo :: !Panics(old(View(u)), env.luck(u), env.readable)
        invariant forall u | u in todo || u !in mdKeyMap :: View(u) == old(View(u))
        invariant forall u | u in mdKeyMap && u !in todo ::
          View(u) == Provision(old(View(u)), mdKeyMap[u], env.luck(u), env.nologin(u))
      {
        var user :| user in todo;
        todo := todo - {user};
        panicked, gUsers := ProvisionUser(user, mdKeyMap[user], env, gUsers);
        if panicked {
          return;
        }
      }
      panicked := false;
    }

    /** The second loop of Set: listed users that metadata no longer names. */
    method DeprovisionUsers(mdKeyMap: map<string, seq<string>>, env: Env, gUsers: set<string>)
      requires Valid() && "" !in gUsers
      modifies this`accounts, this`sshKeys
      ensures Valid()
      ensures forall u | u in mdKeyMap || u !in gUsers :: View(u) == old(View(u))
      ensures forall u | u !in mdKeyMap && u in gUsers ::
        View(u) == Deprovision(old(View(u)), env.luck(u), env.deprovisionRemove, env.nologin(u))
    {
      var todo := gUsers;
      while todo != {}
        invariant todo <= gUsers && Valid()
        invariant forall u | u in mdKeyMap || u in todo || u !in gUsers :: View(u) == old(View(u))
        invariant forall u | u !in mdKeyMap && u in gUsers && u !in todo ::
          View(u) == Deprovision(old(View(u)), env.luck(u), env.deprovisionRemove, env.nologin(u))
      {
        var user :| user in todo;
        todo := todo - {user};
        if user !in mdKeyMap && user != "" {
          RemoveGoogleUser(user, env);
        }
      }
    }

    /** Both loops of Set. */
    method ReconcileUsers(mdKeyMap: map<string, seq<string>>, env: Env) returns (panicked: bool)
      requires Valid() && forall u | u in mdKeyMap :: ValidUser(u) && mdKeyMap[u] != []
      modifies this`accounts, this`sshKeys
      ensures Valid()
      ensures panicked <==> exists u | u in mdKeyMap :: Panics(old(View(u)), env.luck(u), env.readable)
      ensures !panicked ==> forall u :: View(u) == Reconcile(old(View(u)), TurnOf(u, mdKeyMap, env))
    {
      var gUsers: set<string> := {};
      if env.readable {
        gUsers := ReadGoogleUsersFile();
      }
      panicked, gUsers := ProvisionUsers(mdKeyMap, env, gUsers);
      if panicked {
        return;
      }
      DeprovisionUsers(mdKeyMap, env, gUsers);
    }

    /** Set acts on every user by itself, in whatever order the maps are
        walked. It panics, mid-way, exactly when google_users could not be
        read and some wanted user is created. */
    method Set(md: Metadata, unexpired: string -> bool, env: Env) returns (panicked: bool)
      requires Valid()
      modifies this
      ensures Valid()
      ensures panicked <==>
        exists u | u in Wanted(md, unexpired) :: Panics(old(View(u)), env.luck(u), env.readable)
      ensures !panicked ==>
        forall u :: View(u) == SetUser(old(View(u)), TurnOf(u, Wanted(md, unexpired), env))
    {
      var mdkeys := md.instanceKeys;
      if !md.blockProjectKeys {
        mdkeys := mdkeys + md.projectKeys;
      }
      var mdKeyMap := GetUserKeys(mdkeys, unexpired);
      GroupingUsersValid(mdkeys, unexpired);
      panicked := ReconcileUsers(mdKeyMap, env);
      if !panicked && env.writable {
        WriteGoogleUsersFile();
      }
    }

    /** Any number of Sets by one process, until one panics. */
    method SetAll(calls: seq<Call>) returns (panicked: bool)
      requires Valid()
      modifies this
      ensures Valid()
      ensures panicked ==> exists i | 0 <= i < |calls| :: !calls[i].env.readable
      ensures !panicked ==> forall u :: View(u) == RunUser(old(View(u)), TurnsOf(u, calls))
    {
      panicked := false;
      for i := 0 to |calls|
        invariant Valid()
        invariant forall u :: View(u) == RunUser(old(View(u)), TurnsOf(u, calls[..i]))
      {
        label before:
        assert calls[..i + 1][..i] == calls[..i];
        panicked := Set(calls[i].md, calls[i].unexpired, calls[i].env);
        if panicked {
          return;
        }
        forall u ensures View(u) == RunUser(old(View(u)), TurnsOf(u, calls[..i + 1])) {
          TurnsOfStep(u, calls[..i + 1]);
        }
      }
      assert calls[..|calls|] == calls;
    }
  }

  // ---- histories ----

  datatype Call = Call(md: Metadata, unexpired: string -> bool, env: Env)

  function TurnsOf(user: string, calls: seq<Call>): seq<Turn> {
    seq(|calls|, i requires 0 <= i < |calls| =>
      TurnOf(user, Wanted(calls[i].md, calls[i].unexpired), calls[i].env))
  }

  lemma TurnsOfStep(user: string, calls: seq<Call>)
    requires calls != []
    ensures var n := |calls| - 1;
      && TurnsOf(user, calls)[..n] == TurnsOf(user, calls[..n])
      && TurnsOf(user, calls)[n] == TurnOf(user, Wanted(calls[n].md, calls[n].unexpired), calls[n].env)
  {
  }

  function RunUser(u: User, turns: seq<Turn>): User {
    if turns == [] then u
    else SetUser(RunUser(u, turns[..|turns| - 1]), turns[|turns| - 1])
  }

  // ---- the cache agrees with the files ----

  /** The cached list is what the file holds for the agent. */
  predicate Agrees(u: User) {
    u.cached.Some? ==> GoogleKeys(u.account.file) == u.cached.value
  }

  /** The keys a Set would write into the user's file. */
  function KeysOf(t: Turn): seq<string> {
    match t.wanted case Some(keys) => keys case None => []
  }

  /** What a left-over temporary file has beyond the text to be written. */
  function Tail(u: User, t: Turn): string {
    var n := |Rewrite(u.account.file, KeysOf(t))|;
    if |u.account.temp| > n then u.account.temp[n..] else ""
  }

  /** A successful update writes the intended text exactly when no longer
      left-over of an earlier failure is in the way. */
  lemma UpdateExact(a: Account, keys: seq<string>)
    requires a.present
    ensures UpdateFile(a, keys, Renamed, false).file == Rewrite(a.file, keys)
       <==> |a.temp| <= |Rewrite(a.file, keys)|
  {
    assert |UpdateFile(a, keys, Renamed, false).file| == |Overwrite(a.temp, Rewrite(a.file, keys))|;
  }

  /** This Set calls for an update of an account that exists by then. */
  predicate Due(u: User, t: Turn) {
    if t.wanted.Some? then u.cached != t.wanted && (u.account.present || t.luck.create.Created?)
    else t.readable && u.listed && !t.deprovisionRemove && u.account.present
  }

  /** The update puts a new file in place. */
  predicate Rewrites(u: User, t: Turn) {
    Due(u, t) && t.luck.update.Renamed? && !t.nologin
  }

  /** The account and its home directory are deleted. */
  predicate Deletes(u: User, t: Turn) {
    t.wanted.None? && t.readable && u.listed && t.deprovisionRemove && u.account.present && t.luck.userdel
  }

  /** The file after one Set, for every user and every mixture of failures. */
  lemma FileAfter(u: User, t: Turn)
    ensures SetUser(u, t).account.file ==
      if Rewrites(u, t) then Rewrite(u.account.file, KeysOf(t)) + Tail(u, t)
      else if Deletes(u, t) then "" else u.account.file
  {
  }

  /** Once the update has succeeded the file holds exactly the keys of the Set:
      without login shell because it held them already, otherwise because no key
      stands in what a left-over adds. */
  predicate KeysRight(u: User, t: Turn) {
    if t.nologin then GoogleKeys(u.account.file) == KeysOf(t) else GoogleKeys(Tail(u, t)) == []
  }

  /** The update counts as done: the wanted keys go into the cache. */
  predicate Done(u: User, t: Turn) {
    Due(u, t) && !t.luck.update.FailedEarly? && (t.nologin || t.luck.update.Renamed?)
  }

  /** The user after one Set, besides the file. An update that fails keeps the
      cache as it was, and with it the name in google_users; a user that is dropped
      leaves both whatever happens; a deleted account is gone; and the temporary
      file stays behind exactly after a late failure. */
  lemma UserAfter(u: User, t: Turn)
    ensures var v := SetUser(u, t);
      && v.cached == (if t.wanted.Some? then if Done(u, t) then t.wanted else u.cached
                      else if t.readable && u.listed then None else u.cached)
      && v.listed == (if t.writable then v.cached.Some? else u.listed)
      && (v.account.present <==>
            !Deletes(u, t) && (u.account.present || (t.wanted.Some? && !t.luck.create.NotCreated?)))
      && v.account.temp == (
        if Deletes(u, t) then ""
        else if !Due(u, t) || t.nologin || t.luck.update.FailedEarly? then u.account.temp
        else if t.luck.update.FailedLate? then Rewrite(u.account.file, KeysOf(t)) + Tail(u, t)
        else "")
  {
  }

  /** Whenever this Set caches the wanted keys, the file holds them. */
  predicate AgreementKept(u: User, t: Turn) {
    t.wanted.Some? && Done(u, t) ==> KeysRight(u, t)
  }

  /** One Set keeps the cache equal to the file, for every user, every mixture of
      failures, every left-over and every shell, exactly under that condition. */
  lemma SetKeepsAgreement(u: User, t: Turn)
    requires Agrees(u) && Writable(KeysOf(t))
    ensures Agrees(SetUser(u, t)) <==> AgreementKept(u, t)
  {
    FileAfter(u, t);
    RewriteThenTail(u.account.file, KeysOf(t), Tail(u, t));
  }

  /** Each of these Sets meets that condition when its turn comes. */
  predicate Agreeing(u: User, turns: seq<Turn>)
    decreases |turns|
  {
    turns == [] ||
    var n := |turns| - 1;
    Agreeing(u, turns[..n]) && AgreementKept(RunUser(u, turns[..n]), turns[n])
  }

  /** The cache is right after each of these Sets. */
  predicate AlwaysAgrees(u: User, turns: seq<Turn>)
    decreases |turns|
  {
    Agrees(RunUser(u, turns)) && (turns == [] || AlwaysAgrees(u, turns[..|turns| - 1]))
  }

  predicate AllWritable(turns: seq<Turn>) {
    forall i | 0 <= i < |turns| :: Writable(KeysOf(turns[i]))
  }

  /** Over every history of Sets, however they fail, the cache is right all the
      time if and only if each Set meets that condition. */
  lemma {:induction false} AgreementIsExact(u: User, turns: seq<Turn>)
    requires Agrees(u) && AllWritable(turns)
    ensures AlwaysAgrees(u, turns) <==> Agreeing(u, turns)
    decreases |turns|
  {
    if turns != [] {
      var n := |turns| - 1;
      AgreementIsExact(u, turns[..n]);
      if Agrees(RunUser(u, turns[..n])) {
        SetKeepsAgreement(RunUser(u, turns[..n]), turns[n]);
      }
    }
  }

  /** No line of the user's own is added by a left-over, or lost with the account. */
  predicate LinesKept(u: User, t: Turn) {
    && (Rewrites(u, t) ==> UserLines(Tail(u, t)) == [])
    && (Deletes(u, t) ==> UserLines(u.account.file) == [])
  }

  /** One Set leaves the user's own lines as they were exactly then. */
  lemma SetKeepsUserLines(u: User, t: Turn)
    requires Writable(KeysOf(t))
    ensures UserLines(SetUser(u, t).account.file) == UserLines(u.account.file) <==> LinesKept(u, t)
    ensures !Deletes(u, t) ==> UserLines(u.account.file) <= UserLines(SetUser(u, t).account.file)
  {
    FileAfter(u, t);
    RewriteThenTail(u.account.file, KeysOf(t), Tail(u, t));
    NothingToRead();
  }

  /** A left-over that is not longer than the text adds nothing. */
  lemma ShortLeftover(u: User, t: Turn)
    requires |u.account.temp| <= |Rewrite(u.account.file, KeysOf(t))|
    ensures GoogleKeys(Tail(u, t)) == [] && UserLines(Tail(u, t)) == []
  {
    NothingToRead();
  }

  /** Turns the agent may take in a history: arbitrary failures of single
      users, but no left-over temporary file, and login shells. */
  predicate Ordinary(t: Turn) {
    !t.nologin && !t.luck.update.FailedLate? && Writable(KeysOf(t))
  }

  /** A user as a freshly started agent finds it. */
  predicate Fresh(u: User) {
    u.cached.None? && u.account.temp == ""
  }

  lemma OrdinaryKeeps(u: User, t: Turn)
    requires Agrees(u) && u.account.temp == "" && Ordinary(t)
    ensures Agrees(SetUser(u, t)) && SetUser(u, t).account.temp == ""
    ensures AgreementKept(u, t) && (!t.deprovisionRemove ==> LinesKept(u, t))
  {
    ShortLeftover(u, t);
    SetKeepsAgreement(u, t);
  }

  /** Over every history of Sets by one process, the cache is right about every
      user in it, so that skipping an unchanged user is sound. */
  lemma {:induction false} CacheAlwaysAgrees(u: User, turns: seq<Turn>)
    requires Fresh(u) && forall i | 0 <= i < |turns| :: Ordinary(turns[i])
    ensures Agrees(RunUser(u, turns)) && RunUser(u, turns).account.temp == "" && Agreeing(u, turns)
    ensures (forall i | 0 <= i < |turns| :: !turns[i].deprovisionRemove) ==> LinesAlwaysKept(u, turns)
    decreases |turns|
  {
    if turns != [] {
      CacheAlwaysAgrees(u, turns[..|turns| - 1]);
      OrdinaryKeeps(RunUser(u, turns[..|turns| - 1]), turns[|turns| - 1]);
    }
  }

  /** Without truncation the agreement does fail: after an update that failed
      late while writing more keys, a successful one for fewer keys leaves the
      dropped keys installed, and the cache does not know. */
  lemma LeftoverKeepsDroppedKeys(u: User, keys: seq<string>, dropped: seq<string>, late: Turn, next: Turn)
    requires Fresh(u) && u.account.present && keys != [] && dropped != []
    requires Writable(keys) && Writable(dropped) && !late.nologin && !next.nologin
    requires late.wanted == Some(keys + dropped) && late.luck.update.FailedLate?
    requires next.wanted == Some(keys) && next.luck.update.Renamed?
    ensures var v := SetUser(SetUser(u, late), next);
      v.cached == Some(keys) && GoogleKeys(v.account.file) == keys + dropped && !Agrees(v)
  {
    var text, more := Rewrite(u.account.file, keys), Terminated(Announced(dropped));
    LongerText(u.account.file, keys, dropped);
    assert text + more + "" == text + more;
    assert SetUser(u, late).account == u.account.(temp := text + more);
    assert Overwrite(text + more, text) == text + more;
    RewriteReadsBack(u.account.file, keys + dropped);
  }

  lemma {:induction false} LongerText(contents: string, keys: seq<string>, dropped: seq<string>)
    ensures Rewrite(contents, keys + dropped) == Rewrite(contents, keys) + Terminated(Announced(dropped))
  {
    AnnouncedAppend(keys, dropped);
    TerminatedAppend(Announced(keys), Announced(dropped));
  }

  lemma {:induction false} AnnouncedAppend(a: seq<string>, b: seq<string>)
    ensures Announced(a + b) == Announced(a) + Announced(b)
  {
    if a == [] {
      assert a + b == b;
    } else {
      assert (a + b)[1..] == a[1..] + b;
      AnnouncedAppend(a[1..], b);
    }
  }

  /** The text written for one key, cut behind the user's lines. */
  lemma OneKeyText(contents: string, key: string)
    ensures Rewrite(contents, [key]) == Terminated(UserLines(contents)) + (GCOMMENT + "\n") + (key + "\n")
  {
    assert Announced([key]) == [GCOMMENT, key];
    assert [GCOMMENT, key][1..] == [key] && [key][1..] == [];
    assert Terminated([key]) == key + "\n";
    Associates(Terminated(UserLines(contents)), GCOMMENT + "\n", key + "\n");
  }

  lemma OneLineText(line: string)
    requires line != "" && line != GCOMMENT && NewlineFree(line)
    ensures UserLines(line + "\n") == [line] && GoogleKeys(line + "\n") == []
  {
    assert Terminated([line]) == line + "\n";
    SplitTerminated([line]);
    ReadOwn([line], [""]);
    NothingToRead();
    assert Split("") == [""] && [line] + [] == [line];
  }

  /** A left-over can also end inside a key: what remains of a longer key then
      becomes a line of the user's own, and the cache is right nevertheless. */
  lemma LeftoverAddsLine(u: User, long: string, short: string, late: Turn, next: Turn)
    requires Fresh(u) && u.account.present && Writable([long]) && Writable([short]) && |long| > |short| + 1
    requires !late.nologin && !next.nologin && late.wanted == Some([long]) && late.luck.update.FailedLate?
    requires next.wanted == Some([short]) && next.luck.update.Renamed? && long[|short| + 1..] != GCOMMENT
    ensures var v := SetUser(SetUser(u, late), next);
      UserLines(v.account.file) == UserLines(u.account.file) + [long[|short| + 1..]] && Agrees(v)
  {
    var w, line := SetUser(u, late), long[|short| + 1..];
    LeftoverTail(u.account.file, long, short);
    assert Rewrite(u.account.file, [long]) + "" == Rewrite(u.account.file, [long]);
    assert w.account == u.account.(temp := Rewrite(u.account.file, [long])) && w.cached.None?;
    assert Tail(w, next) == line + "\n";
    assert NewlineFree(line);
    OneLineText(line);
    FileAfter(w, next);
    RewriteThenTail(w.account.file, [short], line + "\n");
    assert [short] + [] == [short];
  }

  lemma LeftoverTail(contents: string, long: string, short: string)
    requires |long| > |short| + 1
    ensures var text, temp := Rewrite(contents, [short]), Rewrite(contents, [long]);
      |temp| > |text| && temp[|text|..] == long[|short| + 1..] + "\n"
  {
    OneKeyText(contents, long);
    OneKeyText(contents, short);
    var head := Terminated(UserLines(contents)) + (GCOMMENT + "\n");
    assert (head + (long + "\n"))[|head| + |short| + 1..] == long[|short| + 1..] + "\n";
  }

  /** A user with /sbin/nologin is cached without being written, so the cache
      is right about it exactly when the file already held the keys. */
  lemma NologinIsNotWritten(u: User, t: Turn)
    requires u.account.present && t.nologin && t.wanted.Some? && !t.luck.update.FailedEarly?
    ensures SetUser(u, t).account.file == u.account.file
    ensures Agrees(SetUser(u, t)) <==> GoogleKeys(u.account.file) == t.wanted.value
  {
  }

  /** With an empty file it is wrong about every key. */
  lemma NologinDisagrees(u: User, t: Turn)
    requires u.account == Account(true, "", "") && t.nologin && t.wanted.Some? && t.wanted.value != []
    requires !t.luck.update.FailedEarly?
    ensures SetUser(u, t).cached == t.wanted && !Agrees(SetUser(u, t))
  {
    NologinIsNotWritten(u, t);
    assert Split("") == [""];
    assert GoogleKeys("") == [];
  }

  // ---- one successful Set repairs everything ----

  /** google_users can be used and users are never deleted from the host. */
  predicate Recorded(t: Turn) {
    t.readable && t.writable && !t.deprovisionRemove
  }

  /** Every account command of this Set succeeds. */
  predicate AllSucceed(t: Turn) {
    Recorded(t) && t.luck.create.Created? && t.luck.update.Renamed?
  }

  /** No Set of this history touches the user's own lines. */
  predicate LinesAlwaysKept(u: User, turns: seq<Turn>)
    decreases |turns|
  {
    turns == [] ||
    var n := |turns| - 1;
    LinesAlwaysKept(u, turns[..n]) && LinesKept(RunUser(u, turns[..n]), turns[n])
  }

  /** Over a history with a usable google_users the user's own lines only grow,
      and are the same in the end if and only if no Set touched them. */
  lemma {:induction false} LinesOverHistory(u: User, turns: seq<Turn>)
    requires AllWritable(turns) && forall i | 0 <= i < |turns| :: Recorded(turns[i])
    ensures UserLines(u.account.file) <= UserLines(RunUser(u, turns).account.file)
    ensures UserLines(RunUser(u, turns).account.file) == UserLines(u.account.file) <==> LinesAlwaysKept(u, turns)
    decreases |turns|
  {
    if turns != [] {
      var n := |turns| - 1;
      LinesOverHistory(u, turns[..n]);
      SetKeepsUserLines(RunUser(u, turns[..n]), turns[n]);
    }
  }

  /** Over such a history every user in the cache is listed. */
  lemma {:induction false} HistoryRecorded(u: User, turns: seq<Turn>)
    requires u.cached.None? && forall i | 0 <= i < |turns| :: Recorded(turns[i])
    ensures RunUser(u, turns).cached.Some? ==> RunUser(u, turns).listed
    decreases |turns|
  {
    if turns != [] {
      HistoryRecorded(u, turns[..|turns| - 1]);
    }
  }

  /** What one Set whose commands all succeed should make of a user. */
  predicate Repaired(before: User, t: Turn, after: User) {
    && (after.listed <==> t.wanted.Some?)
    && (t.wanted.Some? ==>
          after.account.present && GoogleKeys(after.account.file) == t.wanted.value && after.cached == t.wanted)
    && (t.wanted.None? && before.listed && before.account.present ==> GoogleKeys(after.account.file) == [])
    && (t.wanted.None? && !(before.listed && before.account.present) ==> after.account == before.account)
    && UserLines(after.account.file) == UserLines(before.account.file)
  }

  /** It does exactly when an update that is due gets the keys right and adds no
      line. */
  lemma SuccessRepairs(u: User, t: Turn)
    requires AllSucceed(t) && Agrees(u) && (u.cached.Some? ==> u.listed) && Writable(KeysOf(t))
    ensures Repaired(u, t, SetUser(u, t)) <==> (Due(u, t) ==> KeysRight(u, t)) && LinesKept(u, t)
  {
    FileAfter(u, t);
    RewriteThenTail(u.account.file, KeysOf(t), Tail(u, t));
    SetKeepsUserLines(u, t);
  }

  /** After any history of partly failing Sets that kept the cache right, a Set
      whose commands succeed leaves google_users naming the user exactly when
      metadata has accepted keys for it, the file holding exactly these keys in
      order, a listed user that was dropped with none, and the user's own lines
      unchanged, if and only if its update, when due, meets a left-over without
      keys and lines (or, without login shell, a file that holds the keys). */
  lemma {:induction false} SuccessfulSetRepairs(u: User, turns: seq<Turn>, t: Turn)
    requires u.cached.None? && AllWritable(turns + [t]) && Agreeing(u, turns)
    requires AllSucceed(t) && forall i | 0 <= i < |turns| :: Recorded(turns[i])
    ensures var v := RunUser(u, turns);
      Repaired(v, t, RunUser(u, turns + [t])) <==> (Due(v, t) ==> KeysRight(v, t)) && LinesKept(v, t)
  {
    assert (turns + [t])[..|turns|] == turns && Writable(KeysOf((turns + [t])[|turns|]));
    assert AllWritable(turns) by {
      assert forall i | 0 <= i < |turns| :: turns[i] == (turns + [t])[i];
    }
    AgreementIsExact(u, turns);
    HistoryRecorded(u, turns);
    SuccessRepairs(RunUser(u, turns), t);
  }

  // ---- users that are no longer wanted ----

  /** After a Set whose commands succeed, a user it does not want has no key of
      the agent's if and only if its update was due and met a left-over without
      keys, or the file had none. */
  lemma UnwantedKeysGone(u: User, t: Turn)
    requires AllSucceed(t) && t.wanted.None?
    ensures GoogleKeys(SetUser(u, t).account.file) == []
       <==> GoogleKeys(if Due(u, t) && !t.nologin then Tail(u, t) else u.account.file) == []
  {
    FileAfter(u, t);
    RewriteThenTail(u.account.file, [], Tail(u, t));
  }

  /** When the update of a user to be dropped fails, the user leaves the cache and
      google_users all the same, with its keys still in the file. */
  lemma FailedRemovalOrphans(u: User, t: Turn)
    requires t.wanted.None? && u.listed && t.readable && t.writable && !t.deprovisionRemove
    requires !t.luck.update.Renamed?
    ensures var v := SetUser(u, t); v.account.file == u.account.file && v.cached.None? && !v.listed
  {
  }

  /** And no later Set takes them out: a user that is neither listed nor cached
      stays as it is through every history that does not want it. */
  lemma {:induction false} OrphanStays(u: User, turns: seq<Turn>)
    requires u.cached.None? && !u.listed && forall i | 0 <= i < |turns| :: turns[i].wanted.None?
    ensures RunUser(u, turns) == u
    decreases |turns|
  {
    if turns != [] {
      OrphanStays(u, turns[..|turns| - 1]);
    }
  }

  /** The keys found in the file of a user that is listed, or was listed and has an
      account, are then those google_authorized_keys would print on demand, under
      the same condition. */
  lemma InstalledKeysMatchOnDemand(user: string, u: User, turns: seq<Turn>, last: Call)
    requires u.cached.None? && Agreeing(u, turns) && AllWritable(turns + [LastTurn(user, last)])
    requires AllSucceed(LastTurn(user, last)) && forall i | 0 <= i < |turns| :: Recorded(turns[i])
    ensures var v, t := RunUser(u, turns), LastTurn(user, last);
      t.wanted.Some? || (v.listed && v.account.present) ==>
        (GoogleKeys(SetUser(v, t).account.file)
           == OnDemandKeys(user, last.md.instanceKeys, last.md.projectKeys, last.md.blockProjectKeys, last.unexpired)
         <==> (Due(v, t) ==> KeysRight(v, t)))
  {
    var v, t := RunUser(u, turns), LastTurn(user, last);
    assert AllWritable(turns) && Writable(KeysOf(t)) by {
      assert (turns + [t])[|turns|] == t && forall i | 0 <= i < |turns| :: turns[i] == (turns + [t])[i];
    }
    AgreementIsExact(u, turns);
    if t.wanted.Some? || (v.listed && v.account.present) {
      InstalledKeys(v, t);
    }
    SelectorsAgree(user, last.md.instanceKeys, last.md.projectKeys, last.md.blockProjectKeys, last.unexpired);
  }

  /** The keys in the file after a Set whose commands succeed. */
  lemma InstalledKeys(v: User, t: Turn)
    requires AllSucceed(t) && Agrees(v) && Writable(KeysOf(t))
    requires t.wanted.Some? || (v.listed && v.account.present)
    ensures GoogleKeys(SetUser(v, t).account.file) == KeysOf(t) <==> (Due(v, t) ==> KeysRight(v, t))
  {
    FileAfter(v, t);
    RewriteThenTail(v.account.file, KeysOf(t), Tail(v, t));
  }

  // ---- the whole host at once ----

  /** Calls of Set that can use google_users and do not delete users. */
  predicate Usable(calls: seq<Call>) {
    forall i | 0 <= i < |calls| ::
      calls[i].env.readable && calls[i].env.writable && !calls[i].env.deprovisionRemove
  }

  function LastTurn(user: string, last: Call): Turn {
    TurnOf(user, Wanted(last.md, last.unexpired), last.env)
  }

  /** A user of a freshly started manager for whom these calls keep the cache
      right and add no line, and all commands of the last one succeed and get the
      keys right. */
  predicate Repairable(start: User, user: string, calls: seq<Call>, last: Call) {
    var turns, t := TurnsOf(user, calls), LastTurn(user, last);
    && start.cached.None? && AllWritable(turns + [t]) && AllSucceed(t)
    && Agreeing(start, turns) && LinesAlwaysKept(start, turns)
    && (Due(RunUser(start, turns), t) ==> KeysRight(RunUser(start, turns), t))
    && LinesKept(RunUser(start, turns), t)
  }

  /** What the calls then make of that user. */
  predicate RepairedTo(start: User, user: string, calls: seq<Call>, last: Call, after: User) {
    && Repaired(RunUser(start, TurnsOf(user, calls)), LastTurn(user, last), after)
    && UserLines(after.account.file) == UserLines(start.account.file)
  }

  lemma TurnsOfAppend(user: string, calls: seq<Call>, last: Call)
    ensures TurnsOf(user, calls + [last]) == TurnsOf(user, calls) + [LastTurn(user, last)]
  {
  }

  lemma UsableRecorded(user: string, calls: seq<Call>)
    requires Usable(calls)
    ensures forall i | 0 <= i < |calls| :: Recorded(TurnsOf(user, calls)[i])
  {
  }

  lemma {:induction false} RepairedUser(start: User, user: string, calls: seq<Call>, last: Call)
    requires Usable(calls) && Repairable(start, user, calls, last)
    ensures RepairedTo(start, user, calls, last, RunUser(start, TurnsOf(user, calls + [last])))
  {
    TurnsOfAppend(user, calls, last);
    UsableRecorded(user, calls);
    var turns, t := TurnsOf(user, calls), LastTurn(user, last);
    assert AllWritable(turns) by {
      assert forall i | 0 <= i < |turns| :: turns[i] == (turns + [t])[i];
    }
    assert (turns + [t])[..|turns|] == turns;
    LinesOverHistory(start, turns);
    SuccessfulSetRepairs(start, turns, t);
  }

  /** Any calls of Set by a freshly started manager, and a last one whose commands
      succeed for everybody, repair every user. */
  method RepairEach(m: AccountsManager, calls: seq<Call>, last: Call) returns (panicked: bool)
    requires m.Valid() && Usable(calls + [last]) && forall u :: Repairable(m.View(u), u, calls, last)
    modifies m
    ensures !panicked && forall u :: RepairedTo(old(m.View(u)), u, calls, last, m.View(u))
  {
    panicked := m.SetAll(calls + [last]);
    assert Usable(calls) by {
      assert forall i | 0 <= i < |calls| :: calls[i] == (calls + [last])[i];
    }
    forall u ensures RepairedTo(old(m.View(u)), u, calls, last, m.View(u)) {
      assert Repairable(old(m.View(u)), u, calls, last);
      RepairedUser(old(m.View(u)), u, calls, last);
    }
  }

  lemma RepairedMeans(start: User, user: string, calls: seq<Call>, last: Call, after: User)
    requires RepairedTo(start, user, calls, last, after)
    ensures var wanted := Wanted(last.md, last.unexpired);
      && (after.listed <==> user in wanted)
      && (user in wanted ==> after.account.present && GoogleKeys(after.account.file) == wanted[user])
      && (user !in wanted ==> (GoogleKeys(after.account.file) == [] <==> !Orphaned(start, TurnsOf(user, calls))))
  {
  }

  /** The text of google_users then names exactly the users with accepted keys,
      their files hold exactly these keys, other users have none unless an earlier
      Set orphaned them, and nobody's own lines have changed. */
  method RepairAll(m: AccountsManager, calls: seq<Call>, last: Call) returns (panicked: bool)
    requires m.Valid() && Usable(calls + [last]) && forall u :: Repairable(m.View(u), u, calls, last)
    modifies m
    ensures !panicked
    ensures var wanted := Wanted(last.md, last.unexpired);
      && (forall u :: Names(m.googleUsers, u) <==> u in wanted)
      && (forall u | u in wanted :: m.AccountOf(u).present && GoogleKeys(m.AccountOf(u).file) == wanted[u])
      && (forall u | u !in wanted ::
            GoogleKeys(m.AccountOf(u).file) == [] <==> !old(Orphaned(m.View(u), TurnsOf(u, calls))))
    ensures forall u :: UserLines(m.AccountOf(u).file) == UserLines(old(m.AccountOf(u)).file)
  {
    panicked := RepairEach(m, calls, last);
    forall u
      ensures var wanted := Wanted(last.md, last.unexpired);
        && (Names(m.googleUsers, u) <==> u in wanted)
        && (u in wanted ==> m.AccountOf(u).present && GoogleKeys(m.AccountOf(u).file) == wanted[u])
        && (u !in wanted ==>
              (GoogleKeys(m.AccountOf(u).file) == [] <==> !old(Orphaned(m.View(u), TurnsOf(u, calls)))))
        && UserLines(m.AccountOf(u).file) == UserLines(old(m.AccountOf(u)).file)
    {
      assert RepairedTo(old(m.View(u)), u, calls, last, m.View(u));
      RepairedMeans(old(m.View(u)), u, calls, last, m.View(u));
    }
  }

  /** After these turns the file holds keys that no Set will take out: the user is
      not listed, or has no account. */
  predicate Orphaned(start: User, turns: seq<Turn>) {
    var v := RunUser(start, turns);
    !(v.listed && v.account.present) && GoogleKeys(v.account.file) != []
  }

  /** Metadata split at newlines only ever asks for keys that can be written. */
  lemma TurnsAreWritable(user: string, md: Metadata, unexpired: string -> bool, env: Env)
    requires AllNewlineFree(md.instanceKeys) && AllNewlineFree(md.projectKeys)
    ensures Writable(KeysOf(TurnOf(user, Wanted(md, unexpired), env)))
  {
    GroupingKeysWritable(EffectiveKeys(md.instanceKeys, md.projectKeys, md.blockProjectKeys), unexpired);
  }
}
