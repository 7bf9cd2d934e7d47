/** Rotation of the workload certificates: a new directory is filled and then
    published by renaming a symbolic link over the old one. Every step may
    fail, and the machine may stop after any of them. */
module CertRefresh {
  import opened Options
  import opened TextLines

  type Path = string

  /** Files of one directory, by name. */
  type Dir = map<string, string>

  /** The part of the file system the program works on: content directories,
      the published link, and temporary links. */
  datatype FS = FS(dirs: map<Path, Dir>, published: Option<Path>, temps: map<Path, Path>)

  /** Single file system operations. Creating a file and filling it are two. */
  datatype Op =
    | Mkdir(dir: Path)
    | Create(dir: Path, name: string)
    | Fill(dir: Path, name: string, text: string)
    | Publish(dir: Path)
    | TempLink(link: Path, dir: Path)
    | Rotate(link: Path)
    | Wipe(dir: Path)
    | Rmdir(dir: Path)

  function Put(fs: FS, dir: Path, name: string, text: string): FS {
    if dir in fs.dirs then fs.(dirs := fs.dirs[dir := fs.dirs[dir][name := text]]) else fs
  }

  function Apply(fs: FS, op: Op): FS {
    match op
    case Mkdir(d) => if d in fs.dirs then fs else fs.(dirs := fs.dirs[d := map[]])
    case Create(d, name) => Put(fs, d, name, "")
    case Fill(d, name, text) => Put(fs, d, name, text)
    case Publish(d) => fs.(published := Some(d))
    case TempLink(link, d) => fs.(temps := fs.temps[link := d])
    case Rotate(link) =>
      if link in fs.temps then fs.(published := Some(fs.temps[link]), temps := fs.temps - {link}) else fs
    case Wipe(d) => if d in fs.dirs then fs.(dirs := fs.dirs[d := map[]]) else fs
    case Rmdir(d) => fs.(dirs := fs.dirs - {d})
  }

  function ApplyAll(fs: FS, ops: seq<Op>): FS {
    if ops == [] then fs
    else Apply(ApplyAll(fs, ops[..|ops| - 1]), ops[|ops| - 1])
  }

  // ---- one refresh ----

  /** Credentials for the machine's identity, as metadata gives them. */
  datatype Identity = Identity(spiffeID: string, cert: string, key: string)

  /** Steps of refreshCreds that the operating system may refuse. */
  datatype Stage =
    | MakeDir | StatusFile | FirstLink | CertFile | KeyFile | CaFile
    | LinkTemp | ReadOld | Rename | ReadNew | RemoveOld

  /** One run: its timestamp, what metadata answered (None for a failed or
      unusable answer; ca is the anchor chosen for the identity), and which
      steps succeed. */
  datatype Run = Run(now: string, status: Option<string>, identity: Option<Identity>, ca: Option<string>,
                     ok: Stage -> bool)

  const CONTENT_PREFIX := "/run/secrets/workload" + "-spiffe-contents-"
  const TEMP_PREFIX := "/run/secrets/workload" + "-spiffe-symlink-"

  function ContentDir(now: string): Path { CONTENT_PREFIX + now }
  function TempName(now: string): Path { TEMP_PREFIX + now }

  function Write(dir: Path, name: string, text: string): seq<Op> {
    [Create(dir, name), Fill(dir, name, text)]
  }

  /** The published link leads to a directory. */
  predicate Resolves(fs: FS) {
    fs.published.Some? && fs.published.value in fs.dirs
  }

  /** Operations of a stretch of the program, and whether it got to its end. */
  datatype Stretch = Stretch(ops: seq<Op>, done: bool)

  /** The directory and the status file. */
  function OpenDir(run: Run): Stretch {
    var d := ContentDir(run.now);
    if run.status.None? || !run.ok(MakeDir) then Stretch([], false)
    else if !run.ok(StatusFile) then Stretch([Mkdir(d), Create(d, "config_status")], false)
    else Stretch([Mkdir(d)] + Write(d, "config_status", run.status.value), true)
  }

  /** From the directory to the first link. */
  function Open(fs: FS, run: Run): Stretch {
    var made := OpenDir(run);
    if !made.done || Resolves(fs) then made
    else if fs.published.Some? || !run.ok(FirstLink) then Stretch(made.ops, false)
    else Stretch(made.ops + [Publish(ContentDir(run.now))], true)
  }

  /** The credentials of the identity itself. */
  function GatherIdentity(run: Run): Stretch {
    var d := ContentDir(run.now);
    if run.identity.None? then Stretch([], false)
    else if !run.ok(CertFile) then Stretch([Create(d, "certificates.pem")], false)
    else
      var cert := Write(d, "certificates.pem", run.identity.value.cert);
      if !run.ok(KeyFile) then Stretch(cert + [Create(d, "private_key.pem")], false)
      else Stretch(cert + Write(d, "private_key.pem", run.identity.value.key), true)
  }

  function GatherAnchor(run: Run): Stretch {
    var d := ContentDir(run.now);
    if run.ca.None? then Stretch([], false)
    else if !run.ok(CaFile) then Stretch([Create(d, "ca_certificates.pem")], false)
    else
      var ca := Write(d, "ca_certificates.pem", run.ca.value);
      if !run.ok(LinkTemp) then Stretch(ca, false)
      else Stretch(ca + [TempLink(TempName(run.now), d)], true)
  }

  /** What the published link pointed to, as far as the program could read it. */
  function OldTarget(fs: FS, run: Run): Path {
    if !run.ok(ReadOld) then ""
    else if fs.published.Some? then fs.published.value
    else ContentDir(run.now)
  }

  /** The rotation and the removal of the old directory. */
  function Commit(fs: FS, run: Run): Stretch {
    var old_ := OldTarget(fs, run);
    if !run.ok(Rename) then Stretch([], false)
    else
      var rotate := [Rotate(TempName(run.now))];
      if !run.ok(ReadNew) then Stretch(rotate, false)
      else if old_ == ContentDir(run.now) || old_ == "" then Stretch(rotate, true)
      else if !run.ok(RemoveOld) then Stretch(rotate + [Wipe(old_)], false)
      else Stretch(rotate + [Wipe(old_), Rmdir(old_)], true)
  }

  function Then(a: Stretch, b: Stretch): Stretch {
    if a.done then Stretch(a.ops + b.ops, b.done) else a
  }

  /** From the remaining metadata to the temporary link. */
  function Gather(run: Run): Stretch {
    Then(GatherIdentity(run), GatherAnchor(run))
  }

  /** Everything up to the temporary link. */
  function Prepare(fs: FS, run: Run): Stretch {
    Then(Open(fs, run), Gather(run))
  }

  /** All operations of one run, in order. */
  function Plan(fs: FS, run: Run): Stretch {
    Then(Prepare(fs, run), Commit(fs, run))
  }

  // ---- the program ----

  /** findDomain: the only anchor, or one whose name occurs in the identity. */
  method FindDomain(anchors: map<string, string>, spiffeID: string) returns (domain: Option<string>)
    ensures domain.Some? ==> domain.value in anchors && (|anchors| == 1 || Contains(spiffeID, domain.value))
    ensures domain.None? ==> |anchors| != 1 && forall k | k in anchors :: !Contains(spiffeID, k)
  {
    var c := |anchors|;
    var todo := anchors.Keys;
    while todo != {}
      invariant todo <= anchors.Keys
      invariant c == 1 ==> todo == anchors.Keys
      invariant forall k | k in anchors.Keys - todo :: !Contains(spiffeID, k)
    {
      var k :| k in todo;
      if c == 1 {
        return Some(k);
      }
      if Contains(spiffeID, k) {
        return Some(k);
      }
      todo := todo - {k};
    }
    return None;
  }

  /** There is an anchor for this identity: the only one, or one named in it. */
  ghost predicate HasAnchor(anchors: Option<map<string, string>>, spiffeID: string) {
    anchors.Some? && (|anchors.value| == 1 || exists k | k in anchors.value :: Contains(spiffeID, k))
  }

  /** This is the text of such an anchor. */
  ghost predicate IsAnchor(ca: string, anchors: Option<map<string, string>>, spiffeID: string) {
    anchors.Some? && exists k | k in anchors.value ::
      ca == anchors.value[k] && (|anchors.value| == 1 || Contains(spiffeID, k))
  }

  method ChooseAnchor(anchors: Option<map<string, string>>, spiffeID: string) returns (ca: Option<string>)
    ensures ca.Some? <==> HasAnchor(anchors, spiffeID)
    ensures ca.Some? ==> IsAnchor(ca.value, anchors, spiffeID)
  {
    if anchors.None? {
      return None;
    }
    var domain := FindDomain(anchors.value, spiffeID);
    if domain.None? {
      return None;
    }
    return Some(anchors.value[domain.value]);
  }

  /** The directory /run/secrets as the program changes it. */
  class Secrets {
    var fs: FS
    ghost var base: FS       // when recording began
    ghost var log: seq<Op>   // operations since

    ghost predicate Valid()
      reads this
    {
      fs == ApplyAll(base, log)
    }

    constructor (fs: FS)
      ensures Valid() && this.fs == fs == base && log == []
    {
      this.fs, base, log := fs, fs, [];
    }

    method Perform(op: Op)
      requires Valid()
      modifies this`fs, this`log
      ensures Valid() && fs == Apply(old(fs), op) && log == old(log) + [op]
    {
      fs := Apply(fs, op);
      log := log + [op];
      assert log[..|log| - 1] == old(log);
    }

    /** os.WriteFile; a failure leaves the file created and empty. */
    method WriteFile(dir: Path, name: string, text: string, ok: bool)
      requires Valid()
      modifies this`fs, this`log
      ensures Valid() && log == old(log) + if ok then Write(dir, name, text) else [Create(dir, name)]
      ensures fs.published == old(fs).published && fs.dirs.Keys == old(fs).dirs.Keys
    {
      Perform(Create(dir, name));
      if ok {
        Perform(Fill(dir, name, text));
      }
    }

    method MakeContents(run: Run) returns (done: bool)
      requires Valid()
      modifies this`fs, this`log
      ensures Valid() && fs.published == old(fs).published
      ensures log == old(log) + OpenDir(run).ops && done == OpenDir(run).done
    {
      var contentDir := ContentDir(run.now);
      if run.status.None? || !run.ok(MakeDir) {
        return false;
      }
      Perform(Mkdir(contentDir));
      WriteFile(contentDir, "config_status", run.status.value, run.ok(StatusFile));
      return run.ok(StatusFile);
    }

    method OpenContents(run: Run) returns (done: bool)
      requires Valid()
      modifies this`fs, this`log
      ensures Valid()
      ensures log == old(log) + Open(old(fs), run).ops && done == Open(old(fs), run).done
      ensures done ==>
        fs.published == if old(fs).published.Some? then old(fs).published else Some(ContentDir(run.now))
    {
      var resolved := Resolves(fs);
      done := MakeContents(run);
      if done && !resolved {
        if fs.published.Some? || !run.ok(FirstLink) {
          return false;
        }
        Associates(old(log), OpenDir(run).ops, [Publish(ContentDir(run.now))]);
        Perform(Publish(ContentDir(run.now)));
      }
    }

    method WriteIdentity(run: Run) returns (done: bool)
      requires Valid()
      modifies this`fs, this`log
      ensures Valid() && fs.published == old(fs).published
      ensures log == old(log) + GatherIdentity(run).ops && done == GatherIdentity(run).done
    {
      var contentDir := ContentDir(run.now);
      if run.identity.None? {
        return false;
      }
      WriteFile(contentDir, "certificates.pem", run.identity.value.cert, run.ok(CertFile));
      if !run.ok(CertFile) {
        return false;
      }
      WriteFile(contentDir, "private_key.pem", run.identity.value.key, run.ok(KeyFile));
      return run.ok(KeyFile);
    }

    method WriteAnchor(run: Run, ca: string) returns (done: bool)
      requires Valid()
      modifies this`fs, this`log
      ensures Valid() && fs.published == old(fs).published
      ensures var r := run.(ca := Some(ca)); log == old(log) + GatherAnchor(r).ops && done == GatherAnchor(r).done
      ensures done ==> TempName(run.now) in fs.temps && fs.temps[TempName(run.now)] == ContentDir(run.now)
    {
      var contentDir := ContentDir(run.now);
      WriteFile(contentDir, "ca_certificates.pem", ca, run.ok(CaFile));
      if !run.ok(CaFile) || !run.ok(LinkTemp) {
        return false;
      }
      Perform(TempLink(TempName(run.now), contentDir));
      return true;
    }

    /** The answers are asked for one after the other; the anchor is chosen
        for the identity just written. */
    method GatherContents(run: Run, anchors: Option<map<string, string>>)
      returns (done: bool, ca: Option<string>)
      requires Valid()
      modifies this`fs, this`log
      ensures Valid()
      ensures var r := run.(ca := ca); log == old(log) + Gather(r).ops && done == Gather(r).done
      ensures ca.Some? <==> GatherIdentity(run).done && HasAnchor(anchors, run.identity.value.spiffeID)
      ensures ca.Some? ==> IsAnchor(ca.value, anchors, run.identity.value.spiffeID)
      ensures fs.published == old(fs).published
      ensures done ==> TempName(run.now) in fs.temps && fs.temps[TempName(run.now)] == ContentDir(run.now)
    {
      ca := None;
      done := WriteIdentity(run);
      if done {
        ca := ChooseAnchor(anchors, run.identity.value.spiffeID);
      }
      ghost var identity, anchor := GatherIdentity(run).ops, GatherAnchor(run.(ca := ca)).ops;
      Associates(old(log), identity, anchor);
      if ca.None? {
        return false, None;
      }
      done := WriteAnchor(run, ca.value);
    }

    method CommitLink(run: Run, oldTarget: Path, ghost start: FS) returns (done: bool)
      requires Valid() && TempName(run.now) in fs.temps && oldTarget == OldTarget(start, run)
      requires fs.temps[TempName(run.now)] == ContentDir(run.now)
      modifies this`fs, this`log
      ensures Valid()
      ensures log == old(log) + Commit(start, run).ops && done == Commit(start, run).done
    {
      if !run.ok(Rename) {
        return false;
      }
      Perform(Rotate(TempName(run.now)));
      if !run.ok(ReadNew) {
        return false;
      }
      var newTarget := fs.published.value;
      if oldTarget != newTarget && oldTarget != "" {
        Perform(Wipe(oldTarget));
        if !run.ok(RemoveOld) {
          return false;
        }
        Perform(Rmdir(oldTarget));
      }
      return true;
    }

    method PrepareContents(given: Run, anchors: Option<map<string, string>>)
      returns (done: bool, ca: Option<string>)
      requires Valid()
      modifies this`fs, this`log
      ensures Valid()
      ensures var run := given.(ca := ca);
        log == old(log) + Prepare(old(fs), run).ops && done == Prepare(old(fs), run).done
      ensures done ==>
        && fs.published.Some? && (given.ok(ReadOld) ==> fs.published.value == OldTarget(old(fs), given))
        && TempName(given.now) in fs.temps && fs.temps[TempName(given.now)] == ContentDir(given.now)
      ensures ca.Some? <==>
        Open(old(fs), given).done && GatherIdentity(given).done && HasAnchor(anchors, given.identity.value.spiffeID)
      ensures ca.Some? ==> IsAnchor(ca.value, anchors, given.identity.value.spiffeID)
    {
      done := OpenContents(given);
      ghost var open := Open(old(fs), given).ops;
      if !done {
        return false, None;
      }
      done, ca := GatherContents(given, anchors);
      ghost var gather := Gather(given.(ca := ca)).ops;
      Associates(old(log), open, gather);
      OpenIgnoresCa(old(fs), given, ca);
    }

    /** refreshCreds performs the planned operations. It reports success also
        when certificates are not configured at all. */
    method RefreshCreds(given: Run, anchors: Option<map<string, string>>) returns (success: bool, ca: Option<string>)
      requires Valid()
      modifies this`fs, this`log
      ensures Valid()
      ensures var run := given.(ca := ca);
        && log == old(log) + Plan(old(fs), run).ops
        && success == (run.status.None? || Plan(old(fs), run).done)
      ensures ca.Some? <==>
        Open(old(fs), given).done && GatherIdentity(given).done && HasAnchor(anchors, given.identity.value.spiffeID)
      ensures ca.Some? ==> IsAnchor(ca.value, anchors, given.identity.value.spiffeID)
    {
      var done;
      done, ca := PrepareContents(given, anchors);
      var run := given.(ca := ca);
      ghost var prepare, commit := Prepare(old(fs), run).ops, Commit(old(fs), run).ops;
      if !done {
        PlanStops(old(fs), run);
        return given.status.None?, ca;
      }
      var oldTarget := if run.ok(ReadOld) then fs.published.value else "";
      success := CommitLink(run, oldTarget, old(fs));
      PlanGoesOn(old(fs), run);
      Associates(old(log), prepare, commit);
    }
  }

  lemma OpenIgnoresCa(fs: FS, run: Run, ca: Option<string>)
    ensures Open(fs, run.(ca := ca)) == Open(fs, run)
  {
  }

  lemma PlanStops(fs: FS, run: Run)
    requires !Prepare(fs, run).done
    ensures Plan(fs, run) == Prepare(fs, run)
  {
  }

  lemma PlanGoesOn(fs: FS, run: Run)
    requires Prepare(fs, run).done
    ensures Plan(fs, run) == Stretch(Prepare(fs, run).ops + Commit(fs, run).ops, Commit(fs, run).done)
    ensures run.status.Some?
  {
  }

  // ---- prefixes of a run ----

  lemma {:induction false} ApplyAllAppend(fs: FS, a: seq<Op>, b: seq<Op>)
    ensures ApplyAll(fs, a + b) == ApplyAll(ApplyAll(fs, a), b)
  {
    if b == [] {
      assert a + b == a;
    } else {
      assert (a + b)[..|a + b| - 1] == a + b[..|b| - 1];
      ApplyAllAppend(fs, a, b[..|b| - 1]);
    }
  }

  /** The operation only adds to the directory d or to the temporary links. */
  predicate Harmless(op: Op, d: Path) {
    match op
    case Mkdir(x) => x == d
    case Create(x, _) => x == d
    case Fill(x, _, _) => x == d
    case TempLink(_, x) => x == d
    case _ => false
  }

  /** g differs from fs at most by additions to d and by temporary links. */
  predicate OnlyAdds(fs: FS, g: FS, d: Path) {
    && g.published == fs.published
    && g.dirs - {d} == fs.dirs - {d}
    && (d in fs.dirs ==> d in g.dirs && fs.dirs[d].Keys <= g.dirs[d].Keys)
  }

  lemma {:induction false} HarmlessOps(fs: FS, ops: seq<Op>, d: Path)
    requires forall i | 0 <= i < |ops| :: Harmless(ops[i], d)
    ensures OnlyAdds(fs, ApplyAll(fs, ops), d)
  {
    if ops != [] {
      HarmlessOps(fs, ops[..|ops| - 1], d);
      HarmlessOp(ApplyAll(fs, ops[..|ops| - 1]), ops[|ops| - 1], d);
    }
  }

  lemma HarmlessOp(fs: FS, op: Op, d: Path)
    requires Harmless(op, d)
    ensures OnlyAdds(fs, Apply(fs, op), d)
  {
    assert Apply(fs, op).dirs - {d} == fs.dirs - {d};
  }

  lemma GatherHarmless(run: Run)
    ensures forall i | 0 <= i < |Gather(run).ops| :: Harmless(Gather(run).ops[i], ContentDir(run.now))
  {
  }

  /** With a link that resolves, preparing never touches it. */
  lemma PrepareHarmless(fs: FS, run: Run)
    requires Resolves(fs)
    ensures forall i | 0 <= i < |Prepare(fs, run).ops| :: Harmless(Prepare(fs, run).ops[i], ContentDir(run.now))
  {
    GatherHarmless(run);
  }

  // ---- what a finished preparation has written ----

  /** The complete set of files of one refresh. */
  function Bundle(run: Run): Dir
    requires run.status.Some? && run.identity.Some? && run.ca.Some?
  {
    map["config_status" := run.status.value,
        "certificates.pem" := run.identity.value.cert,
        "private_key.pem" := run.identity.value.key,
        "ca_certificates.pem" := run.ca.value]
  }

  lemma PutTwice(fs: FS, dir: Path, name: string, a: string, b: string)
    ensures Put(Put(fs, dir, name, a), dir, name, b) == Put(fs, dir, name, b)
  {
    if dir in fs.dirs {
      assert fs.dirs[dir][name := a][name := b] == fs.dirs[dir][name := b];
      assert Put(Put(fs, dir, name, a), dir, name, b).dirs == Put(fs, dir, name, b).dirs;
    }
  }

  lemma WriteEffect(fs: FS, dir: Path, name: string, text: string)
    ensures ApplyAll(fs, Write(dir, name, text)) == Put(fs, dir, name, text)
  {
    var ops := Write(dir, name, text);
    ApplyAllAppend(fs, [Create(dir, name)], [Fill(dir, name, text)]);
    assert ops == [Create(dir, name)] + [Fill(dir, name, text)];
    PutTwice(fs, dir, name, "", text);
  }

  lemma {:induction false} OpenDirEffect(fs: FS, run: Run)
    requires OpenDir(run).done && ContentDir(run.now) !in fs.dirs
    ensures ApplyAll(fs, OpenDir(run).ops)
         == fs.(dirs := fs.dirs[ContentDir(run.now) := map["config_status" := run.status.value]])
  {
    var d := ContentDir(run.now);
    var made := Apply(fs, Mkdir(d));
    assert ApplyAll(fs, [Mkdir(d)]) == made;
    assert map[]["config_status" := run.status.value] == map["config_status" := run.status.value];
    ApplyAllAppend(fs, [Mkdir(d)], Write(d, "config_status", run.status.value));
    WriteEffect(made, d, "config_status", run.status.value);
  }

  lemma {:induction false} OpenEffect(fs: FS, run: Run)
    requires Open(fs, run).done && ContentDir(run.now) !in fs.dirs
    ensures var d := ContentDir(run.now);
      ApplyAll(fs, Open(fs, run).ops)
      == fs.(dirs := fs.dirs[d := map["config_status" := run.status.value]],
             published := if Resolves(fs) then fs.published else Some(d))
  {
    OpenDirEffect(fs, run);
    if !Resolves(fs) {
      ApplyAllAppend(fs, OpenDir(run).ops, [Publish(ContentDir(run.now))]);
    }
  }

  lemma GatherSteps(fs: FS, run: Run)
    requires Gather(run).done
    ensures var d := ContentDir(run.now);
      var f1 := Put(fs, d, "certificates.pem", run.identity.value.cert);
      var f2 := Put(f1, d, "private_key.pem", run.identity.value.key);
      var f3 := Put(f2, d, "ca_certificates.pem", run.ca.value);
      ApplyAll(fs, Gather(run).ops) == Apply(f3, TempLink(TempName(run.now), d))
  {
    var d := ContentDir(run.now);
    var cert := Write(d, "certificates.pem", run.identity.value.cert);
    var key := Write(d, "private_key.pem", run.identity.value.key);
    var ca := Write(d, "ca_certificates.pem", run.ca.value);
    WriteEffect(fs, d, "certificates.pem", run.identity.value.cert);
    ApplyAllAppend(fs, cert, key);
    WriteEffect(ApplyAll(fs, cert), d, "private_key.pem", run.identity.value.key);
    ApplyAllAppend(fs, cert + key, ca);
    WriteEffect(ApplyAll(fs, cert + key), d, "ca_certificates.pem", run.ca.value);
    ApplyAllAppend(fs, cert + key + ca, [TempLink(TempName(run.now), d)]);
    assert Gather(run).ops == cert + key + ca + [TempLink(TempName(run.now), d)];
  }

  lemma GatherEffect(fs: FS, run: Run)
    requires Gather(run).done && run.status.Some? && ContentDir(run.now) in fs.dirs
    requires fs.dirs[ContentDir(run.now)] == map["config_status" := run.status.value]
    ensures var d := ContentDir(run.now);
      ApplyAll(fs, Gather(run).ops)
      == fs.(dirs := fs.dirs[d := Bundle(run)], temps := fs.temps[TempName(run.now) := d])
  {
    GatherSteps(fs, run);
    BundleBuilt(run);
  }

  lemma BundleBuilt(run: Run)
    requires run.status.Some? && run.identity.Some? && run.ca.Some?
    ensures map["config_status" := run.status.value]
              ["certificates.pem" := run.identity.value.cert]
              ["private_key.pem" := run.identity.value.key]
              ["ca_certificates.pem" := run.ca.value]
         == Bundle(run)
  {
  }

  lemma {:induction false} PrepareEffect(fs: FS, run: Run)
    requires Prepare(fs, run).done && ContentDir(run.now) !in fs.dirs
    ensures var d := ContentDir(run.now);
      ApplyAll(fs, Prepare(fs, run).ops)
      == FS(fs.dirs[d := Bundle(run)], if Resolves(fs) then fs.published else Some(d),
            fs.temps[TempName(run.now) := d])
  {
    OpenEffect(fs, run);
    ApplyAllAppend(fs, Open(fs, run).ops, Gather(run).ops);
    GatherEffect(ApplyAll(fs, Open(fs, run).ops), run);
  }

  // ---- the rotation ----

  /** Once rotated, the link leads to the new directory, untouched. */
  lemma {:induction false} CommitPrefix(start: FS, fs: FS, run: Run, j: nat)
    requires 1 <= j <= |Commit(start, run).ops| && ContentDir(run.now) in fs.dirs
    requires TempName(run.now) in fs.temps && fs.temps[TempName(run.now)] == ContentDir(run.now)
    ensures var d, g := ContentDir(run.now), ApplyAll(fs, Commit(start, run).ops[..j]);
      && g.published == Some(d) && d in g.dirs && g.dirs[d] == fs.dirs[d]
      && g.dirs.Keys <= fs.dirs.Keys && g.temps == fs.temps - {TempName(run.now)}
    decreases j
  {
    var ops := Commit(start, run).ops;
    assert ops[..j][..j - 1] == ops[..j - 1];
    if j == 1 {
      assert ops[..0] == [];
    } else {
      CommitPrefix(start, fs, run, j - 1);
    }
  }

  lemma {:induction false} CommitEffect(start: FS, fs: FS, run: Run)
    requires Commit(start, run).done && ContentDir(run.now) in fs.dirs && run.ok(ReadOld)
    requires start.published != Some("")
    requires TempName(run.now) in fs.temps && fs.temps[TempName(run.now)] == ContentDir(run.now)
    ensures var d, g := ContentDir(run.now), ApplyAll(fs, Commit(start, run).ops);
      g.dirs.Keys == fs.dirs.Keys
        - if start.published.Some? && start.published.value != d then {start.published.value} else {}
  {
    var ops := Commit(start, run).ops;
    CommitPrefix(start, fs, run, |ops|);
    assert ops[..|ops|] == ops;
    var rotated := Apply(fs, Rotate(TempName(run.now)));
    assert ApplyAll(fs, ops[..1]) == rotated by { assert ops[..1][..0] == []; }
    if |ops| == 3 {
      assert ops[..2][..1] == ops[..1];
      assert ApplyAll(fs, ops[..2]) == Apply(rotated, ops[1]);
    }
  }

  // ---- theorems about one run ----

  /** The file system after the first k operations of a run. */
  function After(fs: FS, run: Run, k: nat): FS
    requires k <= |Plan(fs, run).ops|
  {
    ApplyAll(fs, Plan(fs, run).ops[..k])
  }

  /** Up to the temporary link a run is a prefix of its preparation. */
  lemma AfterPreparing(fs: FS, run: Run, k: nat)
    requires k <= |Prepare(fs, run).ops|
    ensures k <= |Plan(fs, run).ops| && After(fs, run, k) == ApplyAll(fs, Prepare(fs, run).ops[..k])
  {
    assert Plan(fs, run).ops[..k] == Prepare(fs, run).ops[..k];
  }

  /** Beyond it, preparing is complete. */
  lemma AfterCommitting(fs: FS, run: Run, k: nat)
    requires |Prepare(fs, run).ops| < k <= |Plan(fs, run).ops|
    ensures Prepare(fs, run).done
    ensures var n := |Prepare(fs, run).ops|;
      && k - n <= |Commit(fs, run).ops|
      && After(fs, run, k) == ApplyAll(ApplyAll(fs, Prepare(fs, run).ops), Commit(fs, run).ops[..k - n])
  {
    var n := |Prepare(fs, run).ops|;
    assert Plan(fs, run).ops[..k] == Prepare(fs, run).ops + Commit(fs, run).ops[..k - n];
    ApplyAllAppend(fs, Prepare(fs, run).ops, Commit(fs, run).ops[..k - n]);
  }

  /** What a reader following the published link finds. */
  function Serving(fs: FS): Dir
    requires Resolves(fs)
  {
    fs.dirs[fs.published.value]
  }

  /** After every prefix of the operations of a run, the link leads either to
      the directory it led to before, unchanged, or to the complete bundle of
      this run: never to a partial or a mixed one. */
  lemma NeverIncomplete(fs: FS, run: Run, k: nat)
    requires Resolves(fs) && ContentDir(run.now) !in fs.dirs && k <= |Plan(fs, run).ops|
    ensures Resolves(After(fs, run, k))
    ensures
      || Serving(After(fs, run, k)) == Serving(fs)
      || (Prepare(fs, run).done && Serving(After(fs, run, k)) == Bundle(run))
  {
    var d, n := ContentDir(run.now), |Prepare(fs, run).ops|;
    PrepareHarmless(fs, run);
    if k <= n {
      AfterPreparing(fs, run, k);
      HarmlessOps(fs, Prepare(fs, run).ops[..k], d);
      var g := After(fs, run, k);
      assert fs.published.value in g.dirs - {d};
      assert (g.dirs - {d})[fs.published.value] == (fs.dirs - {d})[fs.published.value];
    } else {
      AfterCommitting(fs, run, k);
      PrepareEffect(fs, run);
      CommitPrefix(fs, ApplyAll(fs, Prepare(fs, run).ops), run, k - n);
    }
  }

  /** A run that succeeds publishes its complete bundle. */
  lemma SuccessPublishes(fs: FS, run: Run)
    requires Plan(fs, run).done && ContentDir(run.now) !in fs.dirs
    ensures var g := After(fs, run, |Plan(fs, run).ops|); Resolves(g) && Serving(g) == Bundle(run)
  {
    AfterCommitting(fs, run, |Plan(fs, run).ops|);
    PrepareEffect(fs, run);
    CommitPrefix(fs, ApplyAll(fs, Prepare(fs, run).ops), run, |Commit(fs, run).ops|);
  }

  /** The link, when there is one, leads to a directory with a status file. */
  predicate Surfaced(fs: FS) {
    fs.published.Some? ==> Resolves(fs) && "config_status" in Serving(fs)
  }

  lemma OnlyAddsSurfaced(fs: FS, g: FS, d: Path)
    requires Surfaced(fs) && OnlyAdds(fs, g, d)
    ensures Surfaced(g)
  {
    if fs.published.Some? && fs.published.value != d {
      assert fs.published.value in g.dirs - {d};
      assert (g.dirs - {d})[fs.published.value] == (fs.dirs - {d})[fs.published.value];
    }
  }

  lemma OpenSurfaced(fs: FS, run: Run, k: nat)
    requires Surfaced(fs) && ContentDir(run.now) !in fs.dirs && k <= |Open(fs, run).ops|
    ensures Surfaced(ApplyAll(fs, Open(fs, run).ops[..k]))
  {
    var d, ops := ContentDir(run.now), Open(fs, run).ops;
    if k == |ops| && k > 0 && ops[k - 1].Publish? {
      assert ops[..k] == ops;
      OpenEffect(fs, run);
    } else {
      HarmlessOps(fs, ops[..k], d);
      OnlyAddsSurfaced(fs, ApplyAll(fs, ops[..k]), d);
    }
  }

  lemma {:induction false} PrepareSurfaced(fs: FS, run: Run, k: nat)
    requires Surfaced(fs) && ContentDir(run.now) !in fs.dirs && k <= |Prepare(fs, run).ops|
    ensures Surfaced(ApplyAll(fs, Prepare(fs, run).ops[..k]))
  {
    var d, open, gather := ContentDir(run.now), Open(fs, run).ops, Gather(run).ops;
    if k <= |open| {
      assert Prepare(fs, run).ops[..k] == open[..k];
      OpenSurfaced(fs, run, k);
    } else {
      var fsOpen := ApplyAll(fs, open);
      assert Surfaced(fsOpen) by {
        OpenSurfaced(fs, run, |open|);
        assert open[..|open|] == open;
      }
      GatherSurfaced(fs, fsOpen, open, run, k - |open|);
      assert Prepare(fs, run).ops[..k] == open + gather[..k - |open|];
    }
  }

  lemma GatherSurfaced(fs: FS, fsOpen: FS, open: seq<Op>, run: Run, j: nat)
    requires fsOpen == ApplyAll(fs, open) && Surfaced(fsOpen) && j <= |Gather(run).ops|
    ensures Surfaced(ApplyAll(fs, open + Gather(run).ops[..j]))
  {
    var d, ops := ContentDir(run.now), Gather(run).ops[..j];
    ApplyAllAppend(fs, open, ops);
    GatherHarmless(run);
    HarmlessOps(fsOpen, ops, d);
    OnlyAddsSurfaced(fsOpen, ApplyAll(fsOpen, ops), d);
  }

  /** Even on a machine that never had certificates, and after every prefix of
      every run, the link is absent or shows a configuration status. */
  lemma StatusAlwaysSurfaced(fs: FS, run: Run, k: nat)
    requires Surfaced(fs) && ContentDir(run.now) !in fs.dirs && k <= |Plan(fs, run).ops|
    ensures Surfaced(After(fs, run, k))
  {
    var n := |Prepare(fs, run).ops|;
    if k <= n {
      AfterPreparing(fs, run, k);
      PrepareSurfaced(fs, run, k);
    } else {
      AfterCommitting(fs, run, k);
      PrepareEffect(fs, run);
      CommitPrefix(fs, ApplyAll(fs, Prepare(fs, run).ops), run, k - n);
    }
  }

  // ---- histories ----

  /** A run, or the first operations of one whose machine stopped. */
  datatype Attempt = Attempt(run: Run, cut: Option<nat>)

  function Performed(fs: FS, a: Attempt): (k: nat)
    ensures k <= |Plan(fs, a.run).ops|
  {
    var n := |Plan(fs, a.run).ops|;
    if a.cut.Some? && a.cut.value < n then a.cut.value else n
  }

  function Next(fs: FS, a: Attempt): FS {
    After(fs, a.run, Performed(fs, a))
  }

  /** The run came to its end, reported success, and could read the old link. */
  predicate Clean(fs: FS, a: Attempt) {
    && Performed(fs, a) == |Plan(fs, a.run).ops|
    && (a.run.status.None? || (Plan(fs, a.run).done && a.run.ok(ReadOld)))
  }

  /** Directories after an attempt: at most the new one more, and after a clean
      one the old one less. */
  lemma AttemptDirs(fs: FS, a: Attempt)
    requires Surfaced(fs) && ContentDir(a.run.now) !in fs.dirs && "" !in fs.dirs
    ensures var d, g := ContentDir(a.run.now), Next(fs, a);
      && g.dirs.Keys <= fs.dirs.Keys + {d}
      && (g.published.None? ==> fs.published.None?)
      && (Clean(fs, a) && a.run.status.None? ==> g == fs)
      && (Clean(fs, a) && a.run.status.Some? ==>
            && g.published == Some(d)
            && g.dirs.Keys == fs.dirs.Keys + {d} - if fs.published.Some? then {fs.published.value} else {})
  {
    var d, n, k := ContentDir(a.run.now), |Prepare(fs, a.run).ops|, Performed(fs, a);
    if k <= n {
      AfterPreparing(fs, a.run, k);
      PrepareMild(fs, a.run);
      MildOps(fs, Prepare(fs, a.run).ops[..k], d);
    } else {
      AfterCommitting(fs, a.run, k);
      PrepareEffect(fs, a.run);
      var ready := ApplyAll(fs, Prepare(fs, a.run).ops);
      CommitPrefix(fs, ready, a.run, k - n);
      if Clean(fs, a) {
        assert Commit(fs, a.run).ops[..k - n] == Commit(fs, a.run).ops;
        CommitEffect(fs, ready, a.run);
      }
    }
  }

  lemma PrepareMild(fs: FS, run: Run)
    ensures forall i | 0 <= i < |Prepare(fs, run).ops| :: Mild(Prepare(fs, run).ops[i], ContentDir(run.now))
  {
    GatherHarmless(run);
  }

  /** Harmless, or the creation of the first link. */
  predicate Mild(op: Op, d: Path) {
    Harmless(op, d) || op == Publish(d)
  }

  lemma {:induction false} MildOps(fs: FS, ops: seq<Op>, d: Path)
    requires forall i | 0 <= i < |ops| :: Mild(ops[i], d)
    ensures ApplyAll(fs, ops).dirs.Keys <= fs.dirs.Keys + {d}
    ensures ApplyAll(fs, ops).published.None? ==> fs.published.None?
  {
    if ops != [] {
      MildOps(fs, ops[..|ops| - 1], d);
    }
  }

  const EMPTY := FS(map[], None, map[])

  function Outcome(attempts: seq<Attempt>): FS {
    if attempts == [] then EMPTY
    else Next(Outcome(attempts[..|attempts| - 1]), attempts[|attempts| - 1])
  }

  /** How many attempts of a history were not clean. */
  function Unclean(attempts: seq<Attempt>): nat {
    if attempts == [] then 0
    else
      var before := attempts[..|attempts| - 1];
      Unclean(before) + if Clean(Outcome(before), attempts[|attempts| - 1]) then 0 else 1
  }

  predicate DistinctTimes(attempts: seq<Attempt>) {
    forall i, j | 0 <= i < j < |attempts| :: attempts[i].run.now != attempts[j].run.now
  }

  /** Every directory was made by one of these attempts. */
  ghost predicate OwnDirs(fs: FS, attempts: seq<Attempt>) {
    forall p | p in fs.dirs :: exists i | 0 <= i < |attempts| :: p == ContentDir(attempts[i].run.now)
  }

  lemma {:induction false} NextOwnDirs(fs: FS, g: FS, attempts: seq<Attempt>)
    requires attempts != [] && OwnDirs(fs, attempts[..|attempts| - 1])
    requires g.dirs.Keys <= fs.dirs.Keys + {ContentDir(attempts[|attempts| - 1].run.now)}
    ensures OwnDirs(g, attempts)
  {
    var n := |attempts| - 1;
    forall p | p in g.dirs ensures exists i | 0 <= i < |attempts| :: p == ContentDir(attempts[i].run.now) {
      if p in fs.dirs {
        var i :| 0 <= i < n && p == ContentDir(attempts[..n][i].run.now);
        assert p == ContentDir(attempts[i].run.now);
      } else {
        assert p == ContentDir(attempts[n].run.now);
      }
    }
  }

  lemma OwnDirsNamed(fs: FS, attempts: seq<Attempt>)
    requires OwnDirs(fs, attempts)
    ensures "" !in fs.dirs
  {
  }

  /** Over every history of runs, finished or cut short anywhere, the link
      shows a status whenever it exists, and at most one directory is left for
      each run that was not clean, and one more. */
  lemma {:induction false} BoundedLeftovers(attempts: seq<Attempt>)
    requires DistinctTimes(attempts)
    ensures var fs := Outcome(attempts);
      && Surfaced(fs)
      && |fs.dirs| <= Unclean(attempts) + 1
      && (fs.published.None? ==> |fs.dirs| <= Unclean(attempts))
      && OwnDirs(fs, attempts)
  {
    if attempts != [] {
      var n := |attempts| - 1;
      var before, a := attempts[..n], attempts[n];
      BoundedLeftovers(before);
      var fs := Outcome(before);
      FreshDir(attempts);
      OwnDirsNamed(fs, before);
      StatusAlwaysSurfaced(fs, a.run, Performed(fs, a));
      AttemptDirs(fs, a);
      CountDirs(fs, a);
      NextOwnDirs(fs, Next(fs, a), attempts);
    }
  }

  lemma FreshDir(attempts: seq<Attempt>)
    requires attempts != [] && DistinctTimes(attempts)
    requires OwnDirs(Outcome(attempts[..|attempts| - 1]), attempts[..|attempts| - 1])
    ensures var n := |attempts| - 1; ContentDir(attempts[n].run.now) !in Outcome(attempts[..n]).dirs
  {
    var n := |attempts| - 1;
    forall i | 0 <= i < n ensures ContentDir(attempts[..n][i].run.now) != ContentDir(attempts[n].run.now) {
      ContentDirInjective(attempts[i].run.now, attempts[n].run.now);
    }
  }

  lemma FreshAttempt(attempts: seq<Attempt>)
    requires attempts != [] && DistinctTimes(attempts)
    ensures var n := |attempts| - 1; ContentDir(attempts[n].run.now) !in Outcome(attempts[..n]).dirs
  {
    BoundedLeftovers(attempts[..|attempts| - 1]);
    FreshDir(attempts);
  }

  lemma ContentDirInjective(a: string, b: string)
    ensures ContentDir(a) == ContentDir(b) ==> a == b
  {
    assert ContentDir(a)[|CONTENT_PREFIX|..] == a;
    assert ContentDir(b)[|CONTENT_PREFIX|..] == b;
  }

  lemma CountDirs(fs: FS, a: Attempt)
    requires Surfaced(fs) && ContentDir(a.run.now) !in fs.dirs && "" !in fs.dirs
    ensures |Next(fs, a).dirs| <= |fs.dirs| + 1
    ensures Clean(fs, a) && fs.published.Some? ==> |Next(fs, a).dirs| == |fs.dirs|
    ensures Clean(fs, a) && fs.published.None? && Next(fs, a).published.None? ==> Next(fs, a) == fs
  {
    AttemptDirs(fs, a);
    var d, g := ContentDir(a.run.now), Next(fs, a);
    assert |fs.dirs.Keys + {d}| == |fs.dirs.Keys| + 1;
    SubsetSize(g.dirs.Keys, fs.dirs.Keys + {d});
    if Clean(fs, a) && a.run.status.Some? && fs.published.Some? {
      var old_ := fs.published.value;
      assert g.dirs.Keys == (fs.dirs.Keys + {d}) - {old_} && old_ in fs.dirs.Keys + {d};
    }
    assert |g.dirs| == |g.dirs.Keys| && |fs.dirs| == |fs.dirs.Keys|;
  }

  lemma {:induction false} SubsetSize(a: set<Path>, b: set<Path>)
    requires a <= b
    ensures |a| <= |b|
  {
    if a != {} {
      var x :| x in a;
      SubsetSize(a - {x}, b - {x});
    }
  }

  // ---- which run readers see ----

  /** Metadata gave this run everything a bundle holds. */
  predicate Complete(run: Run) {
    run.status.Some? && run.identity.Some? && run.ca.Some?
  }

  /** Readers find the complete files of this run, in its own directory. */
  predicate Serves(fs: FS, run: Run) {
    Complete(run) && Resolves(fs) && fs.published.value == ContentDir(run.now) && Serving(fs) == Bundle(run)
  }

  /** The attempt got as far as renaming its link over the published one. */
  predicate Rotated(fs: FS, a: Attempt) {
    Performed(fs, a) > |Prepare(fs, a.run).ops|
  }

  /** An attempt that rotates serves its own bundle; any other leaves what a
      link that resolves leads to as it was. */
  lemma RotationDecides(fs: FS, a: Attempt)
    requires ContentDir(a.run.now) !in fs.dirs
    ensures Rotated(fs, a) ==> Serves(Next(fs, a), a.run)
    ensures !Rotated(fs, a) && Resolves(fs) ==>
      Resolves(Next(fs, a)) && Next(fs, a).published == fs.published && Serving(Next(fs, a)) == Serving(fs)
  {
    var d, n, k := ContentDir(a.run.now), |Prepare(fs, a.run).ops|, Performed(fs, a);
    if Rotated(fs, a) {
      AfterCommitting(fs, a.run, k);
      PrepareEffect(fs, a.run);
      CommitPrefix(fs, ApplyAll(fs, Prepare(fs, a.run).ops), a.run, k - n);
    } else if Resolves(fs) {
      AfterPreparing(fs, a.run, k);
      PrepareHarmless(fs, a.run);
      HarmlessOps(fs, Prepare(fs, a.run).ops[..k], d);
      var g := Next(fs, a);
      assert fs.published.value in g.dirs - {d};
      assert (g.dirs - {d})[fs.published.value] == (fs.dirs - {d})[fs.published.value];
    }
  }

  /** The last attempt of a history that rotated. */
  function LastRotated(attempts: seq<Attempt>): (last: Option<nat>)
    ensures last.Some? ==> last.value < |attempts|
  {
    if attempts == [] then None
    else
      var n := |attempts| - 1;
      if Rotated(Outcome(attempts[..n]), attempts[n]) then Some(n) else LastRotated(attempts[..n])
  }

  /** Over every history, once some run has rotated, readers find exactly the
      complete files of the last run that did, wherever later ones fail or are
      cut short: never the files of two runs side by side. */
  lemma {:induction false} ServesLastRotated(attempts: seq<Attempt>)
    requires DistinctTimes(attempts) && LastRotated(attempts).Some?
    ensures Serves(Outcome(attempts), attempts[LastRotated(attempts).value].run)
  {
    var n := |attempts| - 1;
    var before := attempts[..n];
    FreshAttempt(attempts);
    RotationDecides(Outcome(before), attempts[n]);
    if !Rotated(Outcome(before), attempts[n]) {
      ServesLastRotated(before);
    }
  }

  /** Readers find the complete files of a single run of this history, in that
      run's own directory. */
  ghost predicate ServesOneRefresh(attempts: seq<Attempt>) {
    exists i | 0 <= i < |attempts| :: Serves(Outcome(attempts), attempts[i].run)
  }

  lemma NextServesOneRefresh(attempts: seq<Attempt>)
    requires DistinctTimes(attempts) && attempts != [] && ServesOneRefresh(attempts[..|attempts| - 1])
    ensures ServesOneRefresh(attempts)
  {
    var n := |attempts| - 1;
    var before := attempts[..n];
    var i :| 0 <= i < n && Serves(Outcome(before), before[i].run);
    FreshAttempt(attempts);
    RotationDecides(Outcome(before), attempts[n]);
    assert Serves(Outcome(attempts), attempts[if Rotated(Outcome(before), attempts[n]) then n else i].run);
  }

  /** Once readers find one complete refresh, whichever way it came to be
      published, they find one for ever after. */
  lemma {:induction false} OneRefreshForever(attempts: seq<Attempt>, m: nat)
    requires DistinctTimes(attempts) && m <= |attempts| && ServesOneRefresh(attempts[..m])
    ensures ServesOneRefresh(attempts)
    decreases |attempts|
  {
    if m == |attempts| {
      assert attempts[..m] == attempts;
    } else {
      var before := attempts[..|attempts| - 1];
      assert before[..m] == attempts[..m];
      OneRefreshForever(before, m);
      NextServesOneRefresh(attempts);
    }
  }

  /** The directories after a run that succeeds: the new one more, and the old one
      less if the old link could be read. */
  lemma {:induction false} SuccessDirs(fs: FS, run: Run)
    requires Resolves(fs) && Plan(fs, run).done && ContentDir(run.now) !in fs.dirs && "" !in fs.dirs
    ensures After(fs, run, |Plan(fs, run).ops|).dirs.Keys
         == fs.dirs.Keys + {ContentDir(run.now)} - if run.ok(ReadOld) then {fs.published.value} else {}
  {
    AfterCommitting(fs, run, |Plan(fs, run).ops|);
    PrepareEffect(fs, run);
    var ready := ApplyAll(fs, Prepare(fs, run).ops);
    var ops := Commit(fs, run).ops;
    assert ops[..|ops|] == ops;
    assert ready.dirs.Keys == fs.dirs.Keys + {ContentDir(run.now)};
    if run.ok(ReadOld) {
      CommitEffect(fs, ready, run);
    } else {
      assert ops[..0] == [];
    }
  }

  /** A successful run leaves as many directories as it found exactly when it
      could read where the old link pointed. */
  lemma {:induction false} SuccessKeepsCount(fs: FS, run: Run)
    requires Resolves(fs) && Plan(fs, run).done && ContentDir(run.now) !in fs.dirs && "" !in fs.dirs
    ensures |After(fs, run, |Plan(fs, run).ops|).dirs| == |fs.dirs| + if run.ok(ReadOld) then 0 else 1
  {
    var g := After(fs, run, |Plan(fs, run).ops|);
    SuccessDirs(fs, run);
    CountSwap(fs.dirs.Keys, ContentDir(run.now), fs.published.value);
    assert |g.dirs| == |g.dirs.Keys| && |fs.dirs| == |fs.dirs.Keys|;
  }

  lemma CountSwap(paths: set<Path>, added: Path, gone: Path)
    requires added !in paths && gone in paths
    ensures |paths + {added} - {gone}| == |paths| && |paths + {added} - {}| == |paths| + 1
  {
    assert paths + {added} - {} == paths + {added};
    assert paths + {added} - {gone} == paths - {gone} + {added};
  }

  /** A temporary link is never in the place of a content directory. */
  lemma TempIsNoContent(a: string, b: string)
    ensures TempName(a) != ContentDir(b)
  {
    assert TempName(a)[29] == 's' && ContentDir(b)[29] == 'c';
  }

  // ---- a run in which everything works ----

  /** Metadata is complete, there is an anchor, no step fails, and the link leads
      to a directory or is absent. */
  ghost predicate AllWorks(fs: FS, run: Run, anchors: Option<map<string, string>>) {
    && run.status.Some? && run.identity.Some? && HasAnchor(anchors, run.identity.value.spiffeID)
    && (forall stage :: run.ok(stage)) && (Resolves(fs) || fs.published.None?)
  }

  lemma WorkingPlan(fs: FS, run: Run, anchors: Option<map<string, string>>)
    requires AllWorks(fs, run, anchors)
    ensures Open(fs, run).done && GatherIdentity(run).done
    ensures run.ca.Some? ==> Plan(fs, run).done
  {
  }

  /** Such a run succeeds, and readers then find its complete bundle, with an
      anchor that is the only one or is named in the identity. */
  method RefreshServes(secrets: Secrets, given: Run, anchors: Option<map<string, string>>)
    returns (success: bool, ca: Option<string>)
    requires secrets.Valid() && AllWorks(secrets.fs, given, anchors) && ContentDir(given.now) !in secrets.fs.dirs
    modifies secrets
    ensures success && ca.Some? && Serves(secrets.fs, given.(ca := ca))
    ensures IsAnchor(ca.value, anchors, given.identity.value.spiffeID)
  {
    ghost var start, earlier, base := secrets.fs, secrets.log, secrets.base;
    WorkingPlan(start, given, anchors);
    success, ca := secrets.RefreshCreds(given, anchors);
    ghost var run := given.(ca := ca);
    WorkingPlan(start, run, anchors);
    ApplyAllAppend(base, earlier, Plan(start, run).ops);
    PlanServes(start, run);
  }

  lemma PlanServes(fs: FS, run: Run)
    requires Plan(fs, run).done && ContentDir(run.now) !in fs.dirs
    ensures Complete(run) && Serves(ApplyAll(fs, Plan(fs, run).ops), run)
  {
    var ops := Plan(fs, run).ops;
    assert ops[..|ops|] == ops;
    var a := Attempt(run, None);
    DoneRotates(fs, run);
    RotationDecides(fs, a);
  }

  lemma DoneRotates(fs: FS, run: Run)
    requires Plan(fs, run).done
    ensures |Plan(fs, run).ops| > |Prepare(fs, run).ops|
  {
  }
}
