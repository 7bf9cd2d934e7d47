/** The three rewriters that put the agent's lines around a user's file:
    sshd_config, the PAM stack of sshd, and group.conf. Each filters the file
    first and then, when OS Login is enabled, adds its own lines. */
module OsLoginConfig {
  import opened TextLines
  import opened OsLoginFilter

  /** Operating system and agent configuration, fixed during a run. */
  datatype Platform = Platform(freebsd: bool, rhel6: bool, certAuthentication: bool)

  /** The metadata switches of OS Login. */
  datatype Flags = Flags(twofactor: bool, skey: bool, reqCerts: bool)

  function AuthorizedKeysCommand(p: Platform, f: Flags): string {
    "AuthorizedKeysCommand " + (if p.freebsd then "/usr/local/bin/" else "/usr/bin/")
    + "google_authorized_keys" + (if f.skey then "_sk" else "")
  }

  function AuthorizedKeysUser(p: Platform): string {
    if p.rhel6 then "AuthorizedKeysCommand" + "RunAs root"
    else "AuthorizedKeysCommand" + "User root"
  }

  const TRUSTED_CA_KEYS := "TrustedUserCAKeys " + "/etc/ssh/oslogin_" + "trustedca.pub"
  const PRINCIPALS_COMMAND := "AuthorizedPrincipals" + "Command /usr/bin/" + "google_authorized_" + "principals %u %k"
  const PRINCIPALS_USER := "AuthorizedPrincipals" + "CommandUser root"

  function CertificateDirectives(): seq<string> {
    [TRUSTED_CA_KEYS, PRINCIPALS_COMMAND, PRINCIPALS_USER]
  }

  function KeyDirectives(p: Platform, f: Flags): seq<string> {
    [AuthorizedKeysCommand(p, f), AuthorizedKeysUser(p)]
  }

  function TwoFactorMethods(p: Platform): string {
    (if p.rhel6 then "RequiredAuthentications2" else "AuthenticationMethods")
    + (" publickey," + "keyboard-interactive")
  }

  const CHALLENGE_RESPONSE := "ChallengeResponse" + "Authentication yes"

  function TwoFactorDirectives(p: Platform): seq<string> {
    [TwoFactorMethods(p), CHALLENGE_RESPONSE]
  }

  /** Metadata overrides the agent's configuration file. */
  function SshHeader(p: Platform, f: Flags): seq<string> {
    (if f.reqCerts && !f.skey then CertificateDirectives()
     else (if p.certAuthentication && !f.skey then CertificateDirectives() else []) + KeyDirectives(p, f))
    + if f.twofactor then TwoFactorDirectives(p) else []
  }

  const PER_USER_CONFIGS := "Include /var/google-" + "users.d/*"
  const MATCH_SERVICE_ACCOUNTS := "Match User sa_*"
  const PUBLIC_KEY_ONLY := "       Authentication" + "Methods publickey"

  function SshFooter(f: Flags): seq<string> {
    [PER_USER_CONFIGS] + if f.twofactor then [MATCH_SERVICE_ACCOUNTS, PUBLIC_KEY_ONLY] else []
  }

  const OS_LOGIN_CONTROL := "[success=done " + "perm_denied=die " + "default=ignore]"

  function AuthOsLogin(p: Platform): string {
    "auth       " + (if p.freebsd then "optional" else OS_LOGIN_CONTROL) + " pam_oslogin_login.so"
  }

  function AuthGroup(p: Platform): string {
    "auth       " + (if p.freebsd then "optional" else "[default=ignore]") + " pam_group.so"
  }

  function SessionHomeDir(p: Platform): string {
    "session    " + (if p.freebsd then "optional" else "[success=ok default=ignore]") + " pam_mkhomedir.so"
  }

  function PamHeader(p: Platform, f: Flags): seq<string> {
    (if f.twofactor then [AuthOsLogin(p)] else []) + [AuthGroup(p)]
  }

  function PamFooter(p: Platform): seq<string> {
    [SessionHomeDir(p)]
  }

  const GROUP_DIRECTIVE := "sshd;*;*;Al0000-" + "2400;video"

  /** One of the three files the agent rewrites. */
  datatype File = SshdConfig | PamSshd | GroupConf

  function Header(file: File, p: Platform, f: Flags): seq<string> {
    match file
    case SshdConfig => Block(SshHeader(p, f))
    case PamSshd => Block(PamHeader(p, f))
    case GroupConf => []
  }

  function Footer(file: File, p: Platform, f: Flags): seq<string> {
    match file
    case SshdConfig => Block(SshFooter(f))
    case PamSshd => Block(PamFooter(p))
    case GroupConf => [GOOGLE_COMMENT, GROUP_DIRECTIVE]
  }

  function Surround(header: seq<string>, body: seq<string>, footer: seq<string>): string {
    Join(header + body + footer) + "\n"
  }

  function Enabled(file: File, p: Platform, f: Flags, contents: string): string {
    Surround(Header(file, p, f), Survivors(contents), Footer(file, p, f))
  }

  function Disabled(contents: string): string {
    Surround([], Survivors(contents), [])
  }

  /** updateSSHConfig, updatePAMsshdPamless and updateGroupConf. */
  function Update(file: File, p: Platform, contents: string, enable: bool, f: Flags): string {
    if enable then Enabled(file, p, f, contents) else Disabled(contents)
  }

  // ---- the agent's own lines disappear again ----

  lemma PlainAppend(a: string, b: string)
    ensures PlainLine(a + b) <==> PlainLine(a) && PlainLine(b)
  {
    assert forall c :: c in a + b <==> c in a || c in b;
  }

  lemma PathsPlain()
    ensures PlainLine("/usr/local/bin/") && PlainLine("/usr/bin/") && PlainLine("_sk") && PlainLine("")
  {
  }

  lemma CommandPlain()
    ensures PlainLine("AuthorizedKeysCommand ") && PlainLine("google_authorized_keys")
  {
  }

  lemma AuthorizedKeysCommandPlain(p: Platform, f: Flags)
    ensures PlainLine(AuthorizedKeysCommand(p, f))
  {
    PathsPlain();
    CommandPlain();
    var path, suffix := if p.freebsd then "/usr/local/bin/" else "/usr/bin/", if f.skey then "_sk" else "";
    PlainAppend("AuthorizedKeysCommand ", path);
    PlainAppend("AuthorizedKeysCommand " + path, "google_authorized_keys");
    PlainAppend("AuthorizedKeysCommand " + path + "google_authorized_keys", suffix);
  }

  lemma AuthorizedKeysUserPlain(p: Platform)
    ensures PlainLine(AuthorizedKeysUser(p))
  {
  }

  lemma KeyDirectivesPlain(p: Platform, f: Flags)
    ensures Plain(KeyDirectives(p, f))
  {
    AuthorizedKeysCommandPlain(p, f);
    AuthorizedKeysUserPlain(p);
  }

  lemma TrustedKeysPlain()
    ensures PlainLine(CertificateDirectives()[0])
  {
  }

  lemma PrincipalsCommandPlain()
    ensures PlainLine("AuthorizedPrincipals" + "Command /usr/bin/")
  {
  }

  lemma PrincipalsHelperPlain()
    ensures PlainLine("google_authorized_") && PlainLine("principals %u %k")
  {
  }

  lemma PrincipalsPlain()
    ensures PlainLine(CertificateDirectives()[1])
  {
    PrincipalsCommandPlain();
    PrincipalsHelperPlain();
    PlainAppend("AuthorizedPrincipals" + "Command /usr/bin/", "google_authorized_");
    PlainAppend("AuthorizedPrincipals" + "Command /usr/bin/" + "google_authorized_", "principals %u %k");
  }

  lemma PrincipalsUserPlain()
    ensures PlainLine(CertificateDirectives()[2])
  {
  }

  lemma CertificateDirectivesPlain()
    ensures Plain(CertificateDirectives())
  {
    TrustedKeysPlain();
    PrincipalsPlain();
    PrincipalsUserPlain();
  }

  lemma MethodNamesPlain()
    ensures PlainLine("RequiredAuthentications2") && PlainLine("AuthenticationMethods")
  {
  }

  lemma PublicKeyPlain()
    ensures PlainLine(" publickey," + "keyboard-interactive")
  {
  }

  lemma TwoFactorMethodsPlain(p: Platform)
    ensures PlainLine(TwoFactorMethods(p))
  {
    MethodNamesPlain();
    PublicKeyPlain();
    var directive := if p.rhel6 then "RequiredAuthentications2" else "AuthenticationMethods";
    PlainAppend(directive, " publickey," + "keyboard-interactive");
  }

  lemma ChallengeResponsePlain()
    ensures PlainLine(CHALLENGE_RESPONSE)
  {
  }

  lemma SshHeaderPlain(p: Platform, f: Flags)
    ensures Plain(SshHeader(p, f))
  {
    KeyDirectivesPlain(p, f);
    CertificateDirectivesPlain();
    TwoFactorMethodsPlain(p);
    ChallengeResponsePlain();
  }

  lemma IncludePlain()
    ensures PlainLine(PER_USER_CONFIGS)
  {
  }

  lemma MatchPlain()
    ensures PlainLine(MATCH_SERVICE_ACCOUNTS)
  {
  }

  lemma PublicKeyOnlyPlain()
    ensures PlainLine(PUBLIC_KEY_ONLY)
  {
  }

  lemma SshFooterPlain(f: Flags)
    ensures Plain(SshFooter(f))
  {
    IncludePlain();
    MatchPlain();
    PublicKeyOnlyPlain();
  }

  lemma OsLoginControlPlain()
    ensures PlainLine(OS_LOGIN_CONTROL)
  {
  }

  lemma AuthOsLoginPlain(p: Platform)
    ensures PlainLine(AuthOsLogin(p))
  {
    var how := if p.freebsd then "optional" else OS_LOGIN_CONTROL;
    OsLoginControlPlain();
    PlainAppend("auth       ", how);
    PlainAppend("auth       " + how, " pam_oslogin_login.so");
  }

  lemma AuthGroupPlain(p: Platform)
    ensures PlainLine(AuthGroup(p))
  {
    var how := if p.freebsd then "optional" else "[default=ignore]";
    PlainAppend("auth       ", how);
    PlainAppend("auth       " + how, " pam_group.so");
  }

  lemma SessionPartsPlain()
    ensures PlainLine("session    ") && PlainLine(" pam_mkhomedir.so") && PlainLine("optional")
  {
  }

  lemma SessionControlPlain()
    ensures PlainLine("[success=ok default=ignore]")
  {
  }

  lemma SessionHomeDirPlain(p: Platform)
    ensures PlainLine(SessionHomeDir(p))
  {
    SessionPartsPlain();
    SessionControlPlain();
    var how := if p.freebsd then "optional" else "[success=ok default=ignore]";
    PlainAppend("session    ", how);
    PlainAppend("session    " + how, " pam_mkhomedir.so");
  }

  lemma GroupDirectivePlain()
    ensures PlainLine(GROUP_DIRECTIVE)
  {
  }

  lemma StartNewlineFree()
    ensures NewlineFree(GOOGLE_BLOCK_START)
  {
  }

  lemma EndNewlineFree()
    ensures NewlineFree(GOOGLE_BLOCK_END)
  {
  }

  lemma CommentNewlineFree()
    ensures NewlineFree(GOOGLE_COMMENT)
  {
  }

  /** Lines that the filter takes out again, and that can be written as lines. */
  predicate Passing(ls: seq<string>) {
    Erased(ls) && AllNewlineFree(ls)
  }

  lemma BlockPassing(directives: seq<string>)
    requires Plain(directives)
    ensures Passing(Block(directives))
  {
    BlockErased(directives);
    StartNewlineFree();
    EndNewlineFree();
    var b := Block(directives);
    forall i | 0 <= i < |b| ensures NewlineFree(b[i]) {
      if 0 < i < |b| - 1 {
        assert b[i] == directives[i - 1];
      }
    }
  }

  lemma GroupPassing()
    ensures Passing([GOOGLE_COMMENT, GROUP_DIRECTIVE]) && Passing([])
  {
    GroupDirectivePlain();
    CommentedErased(GROUP_DIRECTIVE);
    CommentNewlineFree();
  }

  /** Whatever the agent adds to a file, the filter takes out again. */
  lemma AddedLinesErased(file: File, p: Platform, f: Flags)
    ensures Passing(Header(file, p, f)) && Passing(Footer(file, p, f)) && |Footer(file, p, f)| > 0
  {
    match file
    case SshdConfig =>
      SshHeaderPlain(p, f);
      SshFooterPlain(f);
      BlockPassing(SshHeader(p, f));
      BlockPassing(SshFooter(f));
    case PamSshd =>
      AuthOsLoginPlain(p);
      AuthGroupPlain(p);
      SessionHomeDirPlain(p);
      BlockPassing(PamHeader(p, f));
      BlockPassing(PamFooter(p));
    case GroupConf =>
      GroupPassing();
  }

  // ---- re-reading a rewritten file ----

  lemma KeptOfSurrounded(header: seq<string>, body: seq<string>, footer: seq<string>)
    requires Erased(header) && Erased(footer) && MarkerFree(body)
    ensures Closed(header + body + footer) && AllKept(header + body + footer) == body
  {
    MarkerFreeKept(body, |body|);
    assert body[..|body|] == body;
    ClosedAppend(header, body);
    ClosedAppend(header + body, footer);
  }

  lemma KeptFinalBlank(ls: seq<string>)
    requires Closed(ls)
    ensures AllKept(ls + [""]) == AllKept(ls) + [""]
  {
    assert MarkerFree([""]) by { NoHashNoMarker(""); }
    MarkerFreeKept([""], 1);
    ClosedAppend(ls, [""]);
  }

  /** The filter recovers the body from between lines it erases. */
  lemma SurvivorsOfSurrounded(header: seq<string>, body: seq<string>, footer: seq<string>)
    requires Passing(header) && Passing(footer) && MarkerFree(body) && AllNewlineFree(body)
    requires header + body + footer != []
    ensures Survivors(Surround(header, body, footer)) == body
  {
    var ls := header + body + footer;
    KeptOfSurrounded(header, body, footer);
    KeptFinalBlank(ls);
    JoinNewline(ls);
    SplitTerminated(ls);
  }

  /** Survivors of an enabled file are those of the file it was made from. */
  lemma SurvivorsOfEnabled(file: File, p: Platform, f: Flags, contents: string)
    ensures Survivors(Enabled(file, p, f, contents)) == Survivors(contents)
  {
    AddedLinesErased(file, p, f);
    SurvivorsClean(contents);
    SurvivorsOfSurrounded(Header(file, p, f), Survivors(contents), Footer(file, p, f));
  }

  lemma SurvivorsOfClean(ls: seq<string>)
    requires MarkerFree(ls) && AllNewlineFree(ls)
    ensures Survivors(Terminated(ls)) == ls
  {
    SplitTerminated(ls);
    NoHashNoMarker("");
    MarkerFreeKept(ls + [""], |ls| + 1);
    assert (ls + [""])[..|ls| + 1] == ls + [""];
  }

  /** A disabled file re-reads as its body; an empty body as one blank line. */
  lemma SurvivorsOfDisabled(contents: string)
    ensures Survivors(Disabled(contents)) == if Survivors(contents) == [] then [""] else Survivors(contents)
  {
    var body := Survivors(contents);
    SurvivorsClean(contents);
    assert [] + body + [] == body;
    JoinNewline(body);
    NoHashNoMarker("");
    var reread := if body == [] then [""] else body;
    assert Terminated(reread) == Join(body) + "\n";
    SurvivorsOfClean(reread);
  }

  /** Different bodies give different files. */
  lemma SurroundInjective(header: seq<string>, a: seq<string>, b: seq<string>, footer: seq<string>)
    requires AllNewlineFree(header + a + footer) && AllNewlineFree(header + b + footer)
    requires |footer| > 0
    ensures Surround(header, a, footer) == Surround(header, b, footer) ==> a == b
  {
    var x, y := header + a + footer, header + b + footer;
    if Surround(header, a, footer) == Surround(header, b, footer) {
      assert Join(x) == Surround(header, a, footer)[..|Join(x)|];
      assert Join(y) == Surround(header, b, footer)[..|Join(y)|];
      SplitJoin(x);
      SplitJoin(y);
      assert a == x[|header|..|x| - |footer|];
      assert b == y[|header|..|y| - |footer|];
    }
  }

  lemma BlankLineShows(header: seq<string>, footer: seq<string>)
    requires AllNewlineFree(header) && AllNewlineFree(footer) && |footer| > 0
    ensures Surround(header, [""], footer) != Surround(header, [], footer)
  {
    SurroundInjective(header, [""], [], footer);
  }

  // ---- theorems ----

  /** The enabled file is the agent's header, then the user's lines in their
      order, then the agent's footer: Match blocks come last, and nothing the
      user wrote falls under them. */
  lemma EnabledLayout(file: File, p: Platform, f: Flags, x: string)
    ensures Split(Enabled(file, p, f, x)) == Header(file, p, f) + Survivors(x) + Footer(file, p, f) + [""]
  {
    AddedLinesErased(file, p, f);
    SurvivorsClean(x);
    SurroundLayout(Header(file, p, f), Survivors(x), Footer(file, p, f));
  }

  lemma {:induction false} SurroundLayout(header: seq<string>, body: seq<string>, footer: seq<string>)
    requires AllNewlineFree(header) && AllNewlineFree(body) && AllNewlineFree(footer) && |footer| > 0
    ensures Split(Surround(header, body, footer)) == header + body + footer + [""]
  {
    var ls := header + body + footer;
    JoinNewline(ls);
    SplitTerminated(ls);
  }

  /** Which way of authenticating sshd is told to use: certificates exactly
      when security keys are off and metadata or configuration asks for them,
      the key command unless certificates are required, and two factors
      exactly when asked for. */
  lemma SshPolicy(p: Platform, f: Flags)
    ensures CertificateDirectives()[0] in SshHeader(p, f) <==> !f.skey && (f.reqCerts || p.certAuthentication)
    ensures AuthorizedKeysCommand(p, f) in SshHeader(p, f) <==> f.skey || !f.reqCerts
    ensures TwoFactorMethods(p) in SshHeader(p, f) <==> f.twofactor
  {
    DirectivesDiffer(p, f);
  }

  /** The platform and the security key show in the directives themselves. */
  lemma SshDirectives(p: Platform, f: Flags)
    ensures HasSuffix(AuthorizedKeysCommand(p, f), "google_authorized_keys_sk") <==> f.skey
    ensures HasSuffix(AuthorizedKeysCommand(p, f), "google_authorized_keys") <==> !f.skey
    ensures HasPrefix(AuthorizedKeysCommand(p, f), "AuthorizedKeysCommand /usr/l") <==> p.freebsd
    ensures HasPrefix(AuthorizedKeysUser(p), "AuthorizedKeysCommandRunAs") <==> p.rhel6
    ensures HasPrefix(TwoFactorMethods(p), "RequiredAuthentications2") <==> p.rhel6
  {
    KeyCommandEnds(p, f);
    KeyCommandStarts(p, f);
    var user, methods := AuthorizedKeysUser(p), TwoFactorMethods(p);
    assert user[21] == if p.rhel6 then 'R' else 'U';
    assert methods[0] == if p.rhel6 then 'R' else 'A';
    assert "AuthorizedKeysCommandRunAs"[21] == 'R' && "RequiredAuthentications2"[0] == 'R';
    assert p.rhel6 ==> user[..26] == "AuthorizedKeysCommandRunAs";
    assert p.rhel6 ==> methods[..24] == "RequiredAuthentications2";
  }

  lemma KeyCommandEnds(p: Platform, f: Flags)
    ensures HasSuffix(AuthorizedKeysCommand(p, f), "google_authorized_keys_sk") <==> f.skey
    ensures HasSuffix(AuthorizedKeysCommand(p, f), "google_authorized_keys") <==> !f.skey
  {
    var command := AuthorizedKeysCommand(p, f);
    var n := |command|;
    assert command[n - 1] == if f.skey then 'k' else 's';
    assert "google_authorized_keys_sk"[24] == 'k' && "google_authorized_keys"[21] == 's';
    assert "google_authorized_keys" + "_sk" == "google_authorized_keys_sk";
    assert f.skey ==> command[n - 25..] == "google_authorized_keys_sk";
    assert !f.skey ==> command[n - 22..] == "google_authorized_keys";
  }

  lemma KeyCommandStarts(p: Platform, f: Flags)
    ensures HasPrefix(AuthorizedKeysCommand(p, f), "AuthorizedKeysCommand /usr/l") <==> p.freebsd
  {
    var command := AuthorizedKeysCommand(p, f);
    assert command[27] == if p.freebsd then 'l' else 'b';
    assert "AuthorizedKeysCommand /usr/l"[27] == 'l';
    assert "AuthorizedKeysCommand " + "/usr/l" == "AuthorizedKeysCommand /usr/l";
    assert p.freebsd ==> command[..28] == "AuthorizedKeysCommand " + "/usr/l";
  }

  /** What the first block of an enabled sshd_config holds, switch by switch. */
  lemma SshHeaderPolicy(p: Platform, f: Flags)
    ensures SshHeader(p, f)
         == (if !f.skey && (f.reqCerts || p.certAuthentication)
             then [TRUSTED_CA_KEYS, PRINCIPALS_COMMAND, PRINCIPALS_USER] else [])
            + (if f.skey || !f.reqCerts then [AuthorizedKeysCommand(p, f), AuthorizedKeysUser(p)] else [])
            + (if f.twofactor then [TwoFactorMethods(p), CHALLENGE_RESPONSE] else [])
  {
  }

  /** An enabled sshd_config: that block, the user's lines, and a last block with the
      Include line and, for two factors, the exception for service accounts. */
  lemma SshLayout(p: Platform, f: Flags, x: string)
    ensures Split(Enabled(SshdConfig, p, f, x))
         == ([GOOGLE_BLOCK_START] + SshHeader(p, f) + [GOOGLE_BLOCK_END]) + Survivors(x)
            + ([GOOGLE_BLOCK_START, PER_USER_CONFIGS]
               + (if f.twofactor then [MATCH_SERVICE_ACCOUNTS, PUBLIC_KEY_ONLY] else []) + [GOOGLE_BLOCK_END]) + [""]
  {
    EnabledLayout(SshdConfig, p, f, x);
    BlockOf(PER_USER_CONFIGS, if f.twofactor then [MATCH_SERVICE_ACCOUNTS, PUBLIC_KEY_ONLY] else []);
  }

  lemma BlockOf(first: string, rest: seq<string>)
    ensures Block([first] + rest) == [GOOGLE_BLOCK_START, first] + rest + [GOOGLE_BLOCK_END]
  {
  }

  lemma BlockBefore(before: seq<string>, last: string)
    ensures Block(before + [last]) == [GOOGLE_BLOCK_START] + before + [last, GOOGLE_BLOCK_END]
  {
  }

  /** An enabled PAM file: a block with the OS Login line if and only if two factors
      are asked for, and the group line either way; the user's lines; and a block
      with the home directory line alone. */
  lemma PamLayout(p: Platform, f: Flags, x: string)
    ensures Split(Enabled(PamSshd, p, f, x))
         == ([GOOGLE_BLOCK_START] + (if f.twofactor then [AuthOsLogin(p)] else []) + [AuthGroup(p), GOOGLE_BLOCK_END])
            + Survivors(x) + [GOOGLE_BLOCK_START, SessionHomeDir(p), GOOGLE_BLOCK_END] + [""]
  {
    EnabledLayout(PamSshd, p, f, x);
    BlockBefore(if f.twofactor then [AuthOsLogin(p)] else [], AuthGroup(p));
    FooterOfOne(SessionHomeDir(p));
  }

  lemma FooterOfOne(line: string)
    ensures Block([line]) == [GOOGLE_BLOCK_START, line, GOOGLE_BLOCK_END]
  {
  }

  /** The lines name their modules, and are optional exactly on FreeBSD. */
  lemma PamDirectives(p: Platform)
    ensures HasSuffix(AuthOsLogin(p), " pam_oslogin_login.so") && HasSuffix(AuthGroup(p), " pam_group.so")
    ensures HasSuffix(SessionHomeDir(p), " pam_mkhomedir.so")
    ensures HasPrefix(AuthOsLogin(p), "auth       optional") <==> p.freebsd
    ensures HasPrefix(AuthGroup(p), "auth       optional") <==> p.freebsd
    ensures HasPrefix(SessionHomeDir(p), "session    optional") <==> p.freebsd
    ensures AuthOsLogin(p) != AuthGroup(p)
  {
    OsLoginLine(p);
    GroupLine(p);
    HomeDirLine(p);
    assert " pam_oslogin_login.so"[17] == 'n' && " pam_group.so"[9] == 'p';
    var a, b := AuthOsLogin(p), AuthGroup(p);
    assert a[|a| - 4] == 'n' && b[|b| - 4] == 'p';
  }

  lemma OsLoginLine(p: Platform)
    ensures HasSuffix(AuthOsLogin(p), " pam_oslogin_login.so")
    ensures HasPrefix(AuthOsLogin(p), "auth       optional") <==> p.freebsd
  {
    var line := AuthOsLogin(p);
    assert line[|line| - 21..] == " pam_oslogin_login.so";
    assert line[11] == if p.freebsd then 'o' else '[';
    assert "auth       optional"[11] == 'o' && "auth       " + "optional" == "auth       optional";
    assert p.freebsd ==> line[..19] == "auth       " + "optional";
  }

  lemma GroupLine(p: Platform)
    ensures HasSuffix(AuthGroup(p), " pam_group.so")
    ensures HasPrefix(AuthGroup(p), "auth       optional") <==> p.freebsd
  {
    var line := AuthGroup(p);
    assert line[|line| - 13..] == " pam_group.so";
    assert line[11] == if p.freebsd then 'o' else '[';
    assert "auth       optional"[11] == 'o' && "auth       " + "optional" == "auth       optional";
    assert p.freebsd ==> line[..19] == "auth       " + "optional";
  }

  lemma HomeDirLine(p: Platform)
    ensures HasSuffix(SessionHomeDir(p), " pam_mkhomedir.so")
    ensures HasPrefix(SessionHomeDir(p), "session    optional") <==> p.freebsd
  {
    var line := SessionHomeDir(p);
    assert line[|line| - 17..] == " pam_mkhomedir.so";
    assert line[11] == if p.freebsd then 'o' else '[';
    assert "session    optional"[11] == 'o' && "session    " + "optional" == "session    optional";
    assert p.freebsd ==> line[..19] == "session    " + "optional";
  }

  /** An enabled group.conf is the user's lines and then the group directive under
      its comment marker. */
  lemma GroupLayout(p: Platform, f: Flags, x: string)
    ensures Split(Enabled(GroupConf, p, f, x)) == Survivors(x) + [GOOGLE_COMMENT, GROUP_DIRECTIVE] + [""]
  {
    EnabledLayout(GroupConf, p, f, x);
    assert [] + Survivors(x) == Survivors(x);
  }

  lemma DirectivesDiffer(p: Platform, f: Flags)
    ensures var ca := CertificateDirectives(); var command := AuthorizedKeysCommand(p, f);
      && ca[0] !in KeyDirectives(p, f) && ca[0] !in TwoFactorDirectives(p)
      && command !in ca && command !in TwoFactorDirectives(p)
      && TwoFactorMethods(p) !in ca && TwoFactorMethods(p) !in KeyDirectives(p, f)
  {
    var ca := CertificateDirectives();
    assert ca[0][0] == 'T' && ca[1][10] == ca[2][10] == 'P';
    assert ca[1][4] == ca[2][4] == 'o';
    var command, user := AuthorizedKeysCommand(p, f), AuthorizedKeysUser(p);
    assert command[0] == user[0] == 'A' && command[10] == 'K' && command[4] == user[4] == 'o';
    var methods := TwoFactorMethods(p);
    assert methods[0] == (if p.rhel6 then 'R' else 'A') && methods[4] == (if p.rhel6 then 'i' else 'e');
    assert CHALLENGE_RESPONSE[0] == 'C';
  }

  /** Last writer wins over an enabling rewrite, on every file: the earlier
      rewrite leaves no trace. */
  lemma LastWriterWinsOverEnabled(file: File, p: Platform, x: string, f1: Flags, enable: bool, f2: Flags)
    ensures Update(file, p, Update(file, p, x, true, f1), enable, f2) == Update(file, p, x, enable, f2)
  {
    SurvivorsOfEnabled(file, p, f1, x);
  }

  /** Over a disabling rewrite the same holds exactly when some line of the
      file survives the filter, or the last writer disables too. */
  lemma LastWriterWinsOverDisabled(file: File, p: Platform, x: string, f1: Flags, enable: bool, f2: Flags)
    ensures Update(file, p, Update(file, p, x, false, f1), enable, f2) == Update(file, p, x, enable, f2)
       <==> Survivors(x) != [] || !enable
  {
    SurvivorsOfDisabled(x);
    if Survivors(x) == [] {
      if enable {
        AddedLinesErased(file, p, f2);
        BlankLineShows(Header(file, p, f2), Footer(file, p, f2));
      } else {
        DisableIdempotent(x);
      }
    }
  }

  /** The empty file shows the failing case. */
  lemma EmptyFileRemembersDisabling(file: File, p: Platform, f: Flags)
    ensures Update(file, p, Update(file, p, "", false, f), true, f) != Update(file, p, "", true, f)
  {
    assert MarkerFree([""]) by { NoHashNoMarker(""); }
    MarkerFreeKept([""], 1);
    assert Survivors("") == [];
    LastWriterWinsOverDisabled(file, p, "", f, true, f);
  }

  predicate NewlineTerminated(x: string) {
    x != [] && x[|x| - 1] == '\n'
  }

  /** The file mentions none of the marker texts, on any line. */
  predicate Unmarked(x: string) {
    !Contains(x, GOOGLE_COMMENT) && !Contains(x, GOOGLE_BLOCK_START) && !Contains(x, GOOGLE_BLOCK_END)
  }

  lemma UnmarkedByLine(x: string)
    ensures Unmarked(x) <==> MarkerFree(Split(x))
  {
    StartNewlineFree();
    EndNewlineFree();
    CommentNewlineFree();
    ContainsByLine(x, GOOGLE_COMMENT);
    ContainsByLine(x, GOOGLE_BLOCK_START);
    ContainsByLine(x, GOOGLE_BLOCK_END);
  }

  lemma UnmarkedSurvivors(x: string)
    requires NewlineTerminated(x) && Unmarked(x)
    ensures Survivors(x) == Split(x[..|x| - 1])
  {
    UnmarkedByLine(x);
    SplitNewlineTerminated(x);
    MarkerFreeKept(Split(x), |Split(x)|);
    assert Split(x)[..|Split(x)|] == Split(x);
  }

  lemma {:induction false} TerminatedClean(ls: seq<string>)
    requires ls != [] && MarkerFree(ls) && AllNewlineFree(ls)
    ensures NewlineTerminated(Join(ls) + "\n") && MarkerFree(Split(Join(ls) + "\n"))
  {
    JoinNewline(ls);
    SplitTerminated(ls);
    NoHashNoMarker("");
  }

  lemma DisabledClean(x: string)
    ensures NewlineTerminated(Disabled(x)) && MarkerFree(Split(Disabled(x)))
  {
    var body := Survivors(x);
    assert [] + body + [] == body;
    SurvivorsClean(x);
    NoHashNoMarker("");
    assert Join([""]) == Join([]);
    TerminatedClean(if body == [] then [""] else body);
  }

  /** Disabling is the identity exactly on newline-terminated files without
      marker text. */
  lemma DisabledIdentity(x: string)
    ensures Disabled(x) == x <==> NewlineTerminated(x) && Unmarked(x)
  {
    if NewlineTerminated(x) && Unmarked(x) {
      UnmarkedSurvivors(x);
      var body := Survivors(x);
      assert [] + body + [] == body;
      JoinSplit(x[..|x| - 1]);
      assert x == x[..|x| - 1] + "\n";
    }
    DisabledClean(x);
    UnmarkedByLine(x);
  }

  /** Enabling and then disabling returns the file byte for byte exactly when
      it ends in a newline and holds no marker text; this for all three files
      and every combination of flags. */
  lemma DisableUndoesEnable(file: File, p: Platform, x: string, f1: Flags, f2: Flags)
    ensures Update(file, p, Update(file, p, x, true, f1), false, f2) == x
       <==> NewlineTerminated(x) && Unmarked(x)
  {
    SurvivorsOfEnabled(file, p, f1, x);
    DisabledIdentity(x);
  }

  /** A last line without newline, and a comment that quotes a marker, show the
      two failing cases. */
  lemma NotUndone(file: File, p: Platform, f1: Flags, f2: Flags)
    ensures Update(file, p, Update(file, p, "a", true, f1), false, f2) != "a"
    ensures Update(file, p, Update(file, p, GOOGLE_COMMENT + "\n", true, f1), false, f2) != GOOGLE_COMMENT + "\n"
  {
    DisableUndoesEnable(file, p, "a", f1, f2);
    DisableUndoesEnable(file, p, GOOGLE_COMMENT + "\n", f1, f2);
    ContainsSelf(GOOGLE_COMMENT);
    ContainsInPart("", GOOGLE_COMMENT, "\n", GOOGLE_COMMENT);
    assert "" + GOOGLE_COMMENT + "\n" == GOOGLE_COMMENT + "\n";
  }

  /** Disabling twice is disabling once, for every text. */
  lemma DisableIdempotent(x: string)
    ensures Disabled(Disabled(x)) == Disabled(x)
  {
    SurvivorsOfDisabled(x);
    assert [] + [""] + [] == [""];
  }

  /** A disabled file holds no marker text, whatever it was before. */
  lemma DisabledUnmarked(x: string)
    ensures Unmarked(Disabled(x)) && NewlineTerminated(Disabled(x))
  {
    DisableIdempotent(x);
    DisabledIdentity(Disabled(x));
  }

  /** Rewriting again with the same switches changes nothing, so the agent
      writes the file at most once per change of metadata. */
  lemma EnableIdempotent(file: File, p: Platform, x: string, f: Flags)
    ensures Update(file, p, Update(file, p, x, true, f), true, f) == Update(file, p, x, true, f)
  {
    LastWriterWinsOverEnabled(file, p, x, f, true, f);
  }
}
