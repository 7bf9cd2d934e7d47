/** The netplan back end at work: SetupVlanInterface and the four operations it
    is made of, each a walk over a map in no particular order. */
module NetplanManager {
  import opened Netplan
  import opened Options

  /** Removing a directory; what override.conf holds when it stays. */
  datatype RemoveOutcome = Removed | Stuck(left: Override)

  /** Writing an override.conf: done; no directory could be made for it; or a
      failure that leaves the directory with this in it. */
  datatype WriteOutcome = Saved | NoDirectory | Unsaved(left: Override)

  /** Which commands and file operations the system carries out. */
  datatype Env = Env(
    readOk: bool,                // reading the drop-in
    deleteOk: bool,              // networkctl delete
    dropinOk: bool,              // writing or removing the drop-in
    rootOk: bool,                // the networkd directory is there
    removeDir: string -> RemoveOutcome,
    writeDir: string -> WriteOutcome,
    reloadOk: bool)

  /** Everything but the reload works. */
  ghost predicate Working(env: Env) {
    && env.readOk && env.deleteOk && env.dropinOk && env.rootOk
    && (forall d :: env.removeDir(d).Removed?) && (forall d :: env.writeDir(d).Saved?)
  }

  ghost predicate NoClash(nics: map<string, Nic>, i: string, j: string) {
    i in nics && j in nics && nics[i].vlan == nics[j].vlan ==> nics[i] == nics[j]
  }

  /** No two descriptors claim the same parent and id. */
  ghost predicate DistinctNics(nics: map<string, Nic>) {
    forall i, j :: NoClash(nics, i, j)
  }

  lemma DistinctPairs(nics: map<string, Nic>)
    requires DistinctNics(nics)
    ensures forall i, j | i in nics && j in nics && nics[i].vlan == nics[j].vlan :: nics[i] == nics[j]
  {
    forall i, j | i in nics && j in nics && nics[i].vlan == nics[j].vlan ensures nics[i] == nics[j] {
      assert NoClash(nics, i, j);
    }
  }

  /** The VLANs among these descriptors. */
  ghost function VlansAt(nics: map<string, Nic>, ids: set<string>): set<Vlan> {
    set i | i in ids && i in nics :: nics[i].vlan
  }

  ghost function NicAt(nics: map<string, Nic>, v: Vlan): (nic: Nic)
    requires DistinctNics(nics) && v in VlansAt(nics, nics.Keys)
    ensures nic.vlan == v
    ensures forall i | i in nics && nics[i].vlan == v :: nics[i] == nic
  {
    DistinctPairs(nics);
    var i :| i in nics && nics[i].vlan == v;
    nics[i]
  }

  /** The interfaces of a descriptor, by parent and id. */
  ghost function Desired(nics: map<string, Nic>): (d: Nics)
    requires DistinctNics(nics)
  {
    map v | v in VlansAt(nics, nics.Keys) :: NicAt(nics, v)
  }

  lemma DesiredVlans(nics: map<string, Nic>)
    requires DistinctNics(nics)
    ensures VlansAt(nics, nics.Keys) == Desired(nics).Keys
    ensures Desired(nics) == map[] <==> nics == map[]
  {
    if i :| i in nics {
      assert nics[i].vlan in Desired(nics);
    }
  }

  class Manager {
    /** The printed names for the configured interface prefix. */
    const names: Names
    var files: Files
    var active: Files        // the configuration in force since the last reload
    var deleted: seq<string> // links given to networkctl delete
    var writes: nat          // configuration files written or removed
    var reloads: nat

    constructor (prefix: string, files: Files, active: Files)
      ensures names == NamesFor(prefix) && Sound(names) && this.files == files && this.active == active
      ensures deleted == [] && writes == 0 && reloads == 0
    {
      NamesSound(prefix);
      this.names, this.files, this.active := NamesFor(prefix), files, active;
      deleted, writes, reloads := [], 0, 0;
    }

    /** The keys of the interfaces to be kept. */
    method KeepKeys(nics: map<string, Nic>) returns (keep: set<string>)
      requires DistinctNics(nics) && Sound(names)
      ensures keep == Image(names.key, Desired(nics).Keys)
    {
      keep := {};
      var todo := nics.Keys;
      while todo != {}
        invariant todo <= nics.Keys
        invariant keep == Image(names.key, VlansAt(nics, nics.Keys - todo))
      {
        var i :| i in todo;
        assert VlansAt(nics, nics.Keys - (todo - {i})) == VlansAt(nics, nics.Keys - todo) + {nics[i].vlan};
        ImageUnion(names.key, VlansAt(nics, nics.Keys - todo), {nics[i].vlan});
        assert Image(names.key, {nics[i].vlan}) == {names.key(nics[i].vlan)};
        keep := keep + {names.key(nics[i].vlan)};
        todo := todo - {i};
      }
      assert nics.Keys - {} == nics.Keys;
      DesiredVlans(nics);
    }

    /** findVlanDiff: None when there is nothing to compare with. */
    method FindVlanDiff(nics: map<string, Nic>, env: Env) returns (toRemove: Option<map<string, Vlan>>, err: bool)
      requires DistinctNics(nics) && Sound(names)
      ensures err ==> !env.readOk
      ensures !err && toRemove.None? ==> Stale(names, files, Desired(nics)) == {}
      ensures !err && toRemove.Some? ==> toRemove.value.Values == Stale(names, files, Desired(nics))
      ensures !err && toRemove.Some? ==> files.dropin.Some?
    {
      if files.dropin.None? {
        return None, false;
      }
      if !env.readOk {
        return None, true;
      }
      var existing := files.dropin.value;
      if existing == map[] {
        return None, false;
      }
      var keep := KeepKeys(nics);
      var removal := CollectStale(existing, keep);
      assert StaleAmong(names.vlanOf, existing, keep, existing.Keys) == Stale(names, files, Desired(nics));
      return Some(removal), false;
    }

    /** The second loop of findVlanDiff. */
    method CollectStale(existing: map<string, NetplanVlan>, keep: set<string>) returns (removal: map<string, Vlan>)
      requires Sound(names)
      ensures removal.Values == StaleAmong(names.vlanOf, existing, keep, existing.Keys)
    {
      removal := map[];
      var todo := existing.Keys;
      while todo != {}
        invariant todo <= existing.Keys && OwnIds(names.removalId, removal)
        invariant removal.Values == StaleAmong(names.vlanOf, existing, keep, existing.Keys - todo)
      {
        var k :| k in todo;
        StaleAmongStep(names.vlanOf, existing, keep, existing.Keys - todo, k);
        assert existing.Keys - (todo - {k}) == existing.Keys - todo + {k};
        todo := todo - {k};
        if k !in keep {
          var v := names.vlanOf(existing[k]);
          AddedValue(names.removalId, removal, v);
          removal := removal[names.removalId(v) := v];
        }
      }
      assert existing.Keys - {} == existing.Keys;
    }

    /** The first loop of rollbackVlanNics: the links to delete, the entries
        that stay, and the directories to remove. */
    method RollbackLists(vlans: set<Vlan>, existing: map<string, NetplanVlan>)
      returns (deleteNics: seq<string>, left: map<string, NetplanVlan>, deleteDirs: seq<string>)
      requires Sound(names)
      ensures SetOf(deleteNics) == Image(names.key, vlans)
      ensures left == existing - Image(names.key, vlans)
      ensures SetOf(deleteDirs) == Image(names.dir, vlans) * files.networkd.Keys
    {
      deleteNics, left, deleteDirs := [], existing, [];
      var todo := vlans;
      while todo != {}
        invariant todo <= vlans
        invariant SetOf(deleteNics) == Image(names.key, vlans - todo)
        invariant left == existing - SetOf(deleteNics)
        invariant SetOf(deleteDirs) == Image(names.dir, vlans - todo) * files.networkd.Keys
      {
        var v :| v in todo;
        var key := names.key(v);
        assert vlans - (todo - {v}) == vlans - todo + {v};
        ImageStep(names.key, vlans - todo, v);
        ImageStep(names.dir, vlans - todo, v);
        todo := todo - {v};
        SetOfAppend(deleteNics, key);
        deleteNics := deleteNics + [key];
        left := left - {key};
        var dropin := names.rollbackDir(v);
        SetOfAppend(deleteDirs, dropin);
        if dropin in files.networkd {
          deleteDirs := deleteDirs + [dropin];
        }
      }
      assert vlans - {} == vlans;
    }

    /** rollbackVlanNics. */
    method RollbackVlanNics(vlans: set<Vlan>, env: Env) returns (reload: bool, err: bool)
      requires Sound(names)
      modifies this`files, this`deleted, this`writes
      ensures reload <==> !err && vlans != {}
      ensures !err ==> files == RolledBack(names, old(files), vlans)
      ensures files.dropin == old(files).dropin || files.dropin == RolledBack(names, old(files), vlans).dropin
      ensures env.readOk && env.deleteOk && env.dropinOk && old(files).dropin.Some? ==>
        files.dropin == RolledBack(names, old(files), vlans).dropin
      ensures SameOutside(old(files).networkd, files.networkd, Image(names.dir, vlans))
      ensures StuckStay(old(files), env, files)
      ensures old(deleted) <= deleted
      ensures SetOf(deleted[|old(deleted)|..]) == Image(names.key, vlans) || (err && deleted == old(deleted))
      ensures vlans == {} ==> !err && deleted == old(deleted) && writes == old(writes)
      ensures Working(env) && old(files).dropin.Some? ==> !err
    {
      if vlans == {} {
        assert deleted[|deleted|..] == [];
        return false, false;
      }
      if files.dropin.Some? && !env.readOk {
        return false, true;
      }
      var existing := Existing(files);
      var deleteNics, left, deleteDirs := RollbackLists(vlans, existing);
      if !env.deleteOk {
        return false, true;
      }
      deleted := deleted + deleteNics;
      assert deleted[|old(deleted)|..] == deleteNics;
      if left == map[] {
        if files.dropin.None? || !env.dropinOk {
          return false, true;
        }
        files := files.(dropin := None);
        writes := writes + 1;
      } else if files.dropin != Some(left) {
        if !env.dropinOk {
          return false, true;
        }
        files := files.(dropin := Some(left));
        writes := writes + 1;
      }
      var ok := RemoveDirs(deleteDirs, env);
      SameOutsideMore(old(files).networkd, files.networkd, SetOf(deleteDirs), Image(names.dir, vlans));
      if !ok {
        return false, true;
      }
      assert files.networkd == old(files).networkd - Image(names.dir, vlans);
      return true, false;
    }

    method RemoveDirs(dirs: seq<string>, env: Env) returns (ok: bool)
      modifies this`files, this`writes
      ensures files.dropin == old(files).dropin
      ensures ok ==> files.networkd == old(files).networkd - SetOf(dirs)
      ensures SameOutside(old(files).networkd, files.networkd, SetOf(dirs))
      ensures StuckStay(old(files), env, files)
      ensures Working(env) ==> ok
    {
      for i := 0 to |dirs|
        invariant files == old(files).(networkd := old(files).networkd - SetOf(dirs[..i]))
        invariant forall k | 0 <= k < i :: env.removeDir(dirs[k]).Removed?
      {
        assert dirs[..i + 1] == dirs[..i] + [dirs[i]];
        SetOfAppend(dirs[..i], dirs[i]);
        writes := writes + 1;
        if env.removeDir(dirs[i]).Stuck? {
          files := files.(networkd := files.networkd[dirs[i] := env.removeDir(dirs[i]).left]);
          return false;
        }
        files := files.(networkd := files.networkd - {dirs[i]});
      }
      assert dirs[..|dirs|] == dirs;
      return true;
    }

    /** The entries of writeNetplanVLANDropin. */
    method BuildDropin(nics: map<string, Nic>) returns (vlans: map<string, NetplanVlan>)
      requires DistinctNics(nics) && Sound(names)
      ensures Lists(names.key, names.entry, nics.Values, vlans)
    {
      vlans := map[];
      var todo := nics.Values;
      DistinctValues(nics);
      while todo != {}
        invariant todo <= nics.Values
        invariant Lists(names.key, names.entry, nics.Values - todo, vlans)
      {
        var curr :| curr in todo;
        ListsStep(names.key, names.entry, nics.Values, todo, vlans, curr);
        todo := todo - {curr};
        vlans := vlans[names.key(curr.vlan) := names.entry(curr)];
      }
      assert nics.Values - {} == nics.Values;
    }

    /** writeNetplanVLANDropin. */
    method WriteNetplanVlanDropin(nics: map<string, Nic>, env: Env) returns (wrote: bool, err: bool)
      requires DistinctNics(nics) && Sound(names)
      modifies this`files, this`writes
      ensures !err ==> files == old(files).(dropin := WrittenDropin(names, old(files), Desired(nics)))
      ensures err ==> files == old(files) && !env.dropinOk
      ensures wrote <==> files != old(files)
      ensures !wrote ==> writes == old(writes)
    {
      var vlans := BuildDropin(nics);
      ListedDropin(names, files, nics, vlans);
      wrote, err := WriteDropin(nics == map[], vlans, env);
    }

    method WriteDropin(skip: bool, vlans: map<string, NetplanVlan>, env: Env) returns (wrote: bool, err: bool)
      modifies this`files, this`writes
      ensures !err ==> files == old(files).(dropin := if skip then old(files).dropin else Some(vlans))
      ensures err ==> files == old(files) && !env.dropinOk
      ensures wrote <==> files != old(files)
      ensures !wrote ==> writes == old(writes)
    {
      if skip || files.dropin == Some(vlans) {
        return false, false;
      }
      if !env.dropinOk {
        return false, true;
      }
      files := files.(dropin := Some(vlans));
      writes := writes + 1;
      return true, false;
    }

    /** networkdNetplanDropin.write. */
    method WriteOverride(dir: string, data: Override, env: Env) returns (wrote: bool, err: bool)
      modifies this`files, this`writes
      ensures files.dropin == old(files).dropin
      ensures !err ==> files.networkd == old(files).networkd[dir := data]
      ensures !err ==> (wrote <==> files != old(files)) && (!wrote ==> writes == old(writes))
      ensures SameOutside(old(files).networkd, files.networkd, {dir})
      ensures old(files).networkd.Keys <= files.networkd.Keys
      ensures err ==> !env.writeDir(dir).Saved?
      ensures Holds(old(files).networkd, dir, data) ==> !wrote && files == old(files) && writes == old(writes)
    {
      if env.writeDir(dir).NoDirectory? {
        return false, true;
      }
      if dir in files.networkd && files.networkd[dir] == data {
        return false, false;
      }
      writes := writes + 1;
      if env.writeDir(dir).Unsaved? {
        files := files.(networkd := files.networkd[dir := env.writeDir(dir).left]);
        return false, true;
      }
      files := files.(networkd := files.networkd[dir := data]);
      assert files.networkd[dir] == data;
      return true, false;
    }

    /** The loop of writeNetworkdVLANDropin. */
    method WriteOverrides(nics: map<string, Nic>, env: Env)
      returns (reload: bool, err: bool, ghost added: map<string, Override>)
      requires DistinctNics(nics) && Sound(names)
      modifies this`files, this`writes
      ensures files.dropin == old(files).dropin && old(files).networkd.Keys <= files.networkd.Keys
      ensures SameOutside(old(files).networkd, files.networkd, PlacesOf(names.dir, nics.Values))
      ensures !err ==> Lists(names.dir, names.networkd, nics.Values, added)
      ensures !err ==> files.networkd == old(files).networkd + added
      ensures !err && !reload ==> files == old(files) && writes == old(writes)
      ensures InPlace(names.dir, names.networkd, nics.Values, old(files).networkd) ==>
        !reload && files == old(files) && writes == old(writes)
      ensures Working(env) ==> !err
    {
      reload, err, added := false, false, map[];
      ghost var before := files.networkd;
      var todo := nics.Values;
      DistinctValues(nics);
      assert before + map[] == before;
      while todo != {}
        invariant todo <= nics.Values && Lists(names.dir, names.networkd, nics.Values - todo, added)
        invariant files == old(files).(networkd := before + added)
        invariant !reload ==> files == old(files) && writes == old(writes)
        invariant InPlace(names.dir, names.networkd, nics.Values, before) ==> !reload
      {
        var iface :| iface in todo;
        var dir, data := names.dir(iface.vlan), names.networkd(iface);
        ListsStep(names.dir, names.networkd, nics.Values, todo, added, iface);
        PlusPut(before, added, dir, data);
        ListsWithin(names.dir, names.networkd, nics.Values, todo, before, added);
        var wrote;
        wrote, err := WriteOverride(dir, data, env);
        if err {
          SameOutsideOn(before, before + added, files.networkd, dir, PlacesOf(names.dir, nics.Values));
          return;
        }
        reload := reload || wrote;
        todo := todo - {iface};
        added := added[dir := data];
      }
      assert nics.Values - {} == nics.Values;
      ListsWithin(names.dir, names.networkd, nics.Values, {}, before, added);
    }

    /** writeNetworkdVLANDropin. */
    method WriteNetworkdVlanDropin(nics: map<string, Nic>, env: Env) returns (reload: bool, err: bool)
      requires DistinctNics(nics) && Sound(names)
      modifies this`files, this`writes
      ensures files.dropin == old(files).dropin && old(files).networkd.Keys <= files.networkd.Keys
      ensures SameOutside(old(files).networkd, files.networkd, Image(names.dir, Desired(nics).Keys))
      ensures !err ==> files.networkd == WrittenNetworkd(names, old(files), Desired(nics))
      ensures !err && !reload ==> files == old(files) && writes == old(writes)
      ensures WrittenNetworkd(names, old(files), Desired(nics)) == old(files).networkd ==>
        !reload && files == old(files) && writes == old(writes)
      ensures Working(env) ==> !err
    {
      reload := false;
      if !env.rootOk {
        return false, true;
      }
      ghost var before := files;
      ghost var added;
      reload, err, added := WriteOverrides(nics, env);
      PlacesOfDesired(names.dir, nics);
      if !err {
        ListedOverrides(names, before, nics, added);
      }
      OverridesInPlace(names, before, nics);
      reload := reload && !err;
    }

    /** The first half of SetupVlanInterface: what is no longer wanted goes. */
    method RemoveStale(nics: map<string, Nic>, env: Env) returns (reload: bool, err: bool)
      requires DistinctNics(nics) && Sound(names)
      modifies this`files, this`deleted, this`writes
      ensures old(deleted) <= deleted
      ensures var stale := Stale(names, old(files), Desired(nics));
        && (!err ==> files == RolledBack(names, old(files), stale))
        && (!err ==> SetOf(deleted[|old(deleted)|..]) == Image(names.key, stale))
        && (!err ==> (reload <==> stale != {}))
        && (files.dropin == old(files).dropin || files.dropin == RolledBack(names, old(files), stale).dropin)
        && (env.readOk && env.deleteOk && env.dropinOk ==>
              files.dropin == RolledBack(names, old(files), stale).dropin)
        && SameOutside(old(files).networkd, files.networkd, Image(names.dir, stale))
        && (stale == {} ==> files == old(files) && deleted == old(deleted) && writes == old(writes))
      ensures StuckStay(old(files), env, files)
      ensures Working(env) ==> !err
    {
      reload := false;
      var toRemove;
      toRemove, err := FindVlanDiff(nics, env);
      if err {
        return;
      }
      if toRemove.Some? {
        reload, err := RollbackVlanNics(toRemove.value.Values, env);
      } else {
        assert deleted[|deleted|..] == [];
        assert Image(names.key, {}) == {};
      }
    }

    /** The second half of SetupVlanInterface: what is wanted is written. */
    method WriteWanted(nics: map<string, Nic>, env: Env) returns (reload: bool, err: bool)
      requires DistinctNics(nics) && Sound(names)
      modifies this`files, this`writes
      ensures !err ==> files == Written(names, old(files), Desired(nics))
      ensures !err ==> (reload <==> files != old(files))
      ensures files.dropin == old(files).dropin || files.dropin == WrittenDropin(names, old(files), Desired(nics))
      ensures SameOutside(old(files).networkd, files.networkd, Image(names.dir, Desired(nics).Keys))
      ensures old(files).networkd.Keys <= files.networkd.Keys
      ensures Written(names, old(files), Desired(nics)) == old(files) ==> files == old(files) && writes == old(writes)
      ensures Working(env) ==> !err
    {
      reload, err := WriteNetplanVlanDropin(nics, env);
      if err {
        return;
      }
      var reload3;
      reload3, err := WriteNetworkdVlanDropin(nics, env);
      reload := reload || reload3;
    }

    /** SetupVlanInterface: on success the files are those of SetUp, exactly the
        stale links have been deleted, and configuration is reloaded unless
        everything was settled. Where it was, nothing is touched. A failure
        leaves what Leaves allows, and every directory whose removal failed. The
        configuration in force after a success is that of the files exactly when
        something was to be done or it was so before. */
    method SetupVlanInterface(nics: map<string, Nic>, env: Env) returns (err: bool)
      requires DistinctNics(nics) && Sound(names)
      modifies this
      ensures old(deleted) <= deleted
      ensures !err ==> files == SetUp(names, old(files), Desired(nics))
      ensures !err ==> SetOf(deleted[|old(deleted)|..]) == Image(names.key, Stale(names, old(files), Desired(nics)))
      ensures !err || Working(env) ==>
        reloads == old(reloads) + if Settled(names, old(files), Desired(nics)) then 0 else 1
      ensures Settled(names, old(files), Desired(nics)) ==>
        files == old(files) && deleted == old(deleted) && writes == old(writes) && reloads == old(reloads)
      ensures Leaves(names, old(files), Desired(nics), files)
      ensures env.readOk && env.deleteOk && env.dropinOk ==> RolledBackOrSetUp(names, old(files), Desired(nics), files)
      ensures StuckStay(old(files), env, files)
      ensures active == old(active) || active == files
      ensures !err ==>
        (active == files <==> !Settled(names, old(files), Desired(nics)) || old(active) == old(files))
      ensures Working(env) ==> files == SetUp(names, old(files), Desired(nics))
      ensures Working(env) ==> (err <==> !Settled(names, old(files), Desired(nics)) && !env.reloadOk)
      ensures err || Settled(names, old(files), Desired(nics)) ==> active == old(active)
    {
      var reload1, reload2;
      ghost var start := files;
      ghost var stale, want := Stale(names, files, Desired(nics)), Desired(nics).Keys;
      reload1, err := RemoveStale(nics, env);
      ghost var cleaned := files;
      SameOutsideUnion(start.networkd, cleaned.networkd, cleaned.networkd, names.dir, stale, want);
      if err {
        return;
      }
      reload2, err := WriteWanted(nics, env);
      SameOutsideUnion(start.networkd, cleaned.networkd, files.networkd, names.dir, stale, want);
      if err {
        return;
      }
      if reload1 || reload2 {
        reloads := reloads + 1;
        err := !env.reloadOk;
        if !err {
          active := files;
        }
      }
    }
  }

  /** Every directory that could not be removed is still there. */
  ghost predicate StuckStay(before: Files, env: Env, after: Files) {
    forall d | d in before.networkd && env.removeDir(d).Stuck? :: d in after.networkd
  }

  ghost predicate RolledBackOrSetUp(n: Names, before: Files, want: Nics, after: Files)
    requires Sound(n)
  {
    || after.dropin == RolledBack(n, before, Stale(n, before, want)).dropin
    || after.dropin == SetUp(n, before, want).dropin
  }

  predicate Holds<T(==)>(m: map<string, T>, k: string, x: T) {
    k in m && m[k] == x
  }

  lemma SameOutsideMore<K, T>(a: map<K, T>, b: map<K, T>, ks: set<K>, more: set<K>)
    requires SameOutside(a, b, ks) && ks <= more
    ensures SameOutside(a, b, more)
  {
    forall k ensures k in a - more <==> k in b - more {
      assert k in a - ks <==> k in b - ks;
    }
    forall k | k in a - more ensures (a - more)[k] == (b - more)[k] {
      assert (a - ks)[k] == (b - ks)[k];
    }
  }

  lemma SameOutsideBoth<K, T>(a: map<K, T>, b: map<K, T>, c: map<K, T>, ks: set<K>)
    requires SameOutside(a, b, ks) && SameOutside(b, c, ks)
    ensures SameOutside(a, c, ks)
  {
  }

  /** First these directories change, then those. */
  lemma SameOutsideUnion<T>(a: map<string, T>, b: map<string, T>, c: map<string, T>,
                            f: Vlan -> string, first: set<Vlan>, then': set<Vlan>)
    requires SameOutside(a, b, Image(f, first)) && (b == c || SameOutside(b, c, Image(f, then')))
    ensures SameOutside(a, c, Image(f, first + then'))
  {
    ImageUnion(f, first, then');
    var both := Image(f, first + then');
    SameOutsideMore(a, b, Image(f, first), both);
    if b != c {
      SameOutsideMore(b, c, Image(f, then'), both);
    }
    SameOutsideBoth(a, b, c, both);
  }

  lemma SameOutsideOn<T>(a: map<string, T>, b: map<string, T>, c: map<string, T>, k: string, ks: set<string>)
    requires SameOutside(a, b, ks) && SameOutside(b, c, {k}) && k in ks
    ensures SameOutside(a, c, ks)
  {
    SameOutsideMore(b, c, {k}, ks);
    SameOutsideBoth(a, b, c, ks);
  }

  /** The printed names of these interfaces. */
  ghost function PlacesOf(f: Vlan -> string, nics: set<Nic>): set<string> {
    set nic | nic in nics :: f(nic.vlan)
  }

  lemma PlacesOfDesired(f: Vlan -> string, nics: map<string, Nic>)
    requires DistinctNics(nics)
    ensures PlacesOf(f, nics.Values) == Image(f, Desired(nics).Keys)
  {
    forall k | k in PlacesOf(f, nics.Values) ensures k in Image(f, Desired(nics).Keys) {
      var nic :| nic in nics.Values && f(nic.vlan) == k;
      DesiredAt(nics, nic);
    }
    forall k | k in Image(f, Desired(nics).Keys) ensures k in PlacesOf(f, nics.Values) {
      var v :| v in Desired(nics).Keys && f(v) == k;
      DesiredFrom(nics, v);
    }
  }

  /** Adding a listing changes only the places of what it lists. */
  lemma ListsWithin<T>(f: Vlan -> string, g: Nic -> T, all: set<Nic>, todo: set<Nic>,
                       before: map<string, T>, added: map<string, T>)
    requires Lists(f, g, all - todo, added)
    ensures SameOutside(before, before + added, PlacesOf(f, all))
  {
    var ks := PlacesOf(f, all);
    forall k | k in added ensures k in ks {
      var nic :| nic in all - todo && f(nic.vlan) == k;
    }
  }

  /** One setup as a step of a history. */
  method SetupStep(m: Manager, nics: map<string, Nic>, env: Env)
    requires Sound(m.names) && DistinctNics(nics)
    modifies m
    ensures Leaves(m.names, old(m.files), Desired(nics), m.files)
  {
    var _ := m.SetupVlanInterface(nics, env);
  }

  /** The sets of interfaces that these calls ask for. */
  ghost predicate Asks(calls: seq<(map<string, Nic>, Env)>, wants: seq<Nics>) {
    |wants| <= |calls| &&
    forall i | 0 <= i < |wants| :: DistinctNics(calls[i].0) && wants[i] == Desired(calls[i].0)
  }

  lemma AsksNext(calls: seq<(map<string, Nic>, Env)>, wants: seq<Nics>)
    requires Asks(calls, wants) && |wants| < |calls| && DistinctNics(calls[|wants|].0)
    ensures Asks(calls, wants + [Desired(calls[|wants|].0)])
  {
  }

  /** Any number of setups, one after the other, whatever fails: a history. */
  method SetupEach(m: Manager, calls: seq<(map<string, Nic>, Env)>)
    returns (ghost states: seq<Files>, ghost wants: seq<Nics>)
    requires Sound(m.names) && forall i | 0 <= i < |calls| :: DistinctNics(calls[i].0)
    modifies m
    ensures |wants| == |calls| && Asks(calls, wants)
    ensures History(m.names, states, wants) && states[0] == old(m.files) && states[|calls|] == m.files
  {
    states, wants := [m.files], [];
    for i := 0 to |calls|
      invariant |wants| == i && Asks(calls, wants)
      invariant History(m.names, states, wants) && states[0] == old(m.files) && states[i] == m.files
    {
      SetupStep(m, calls[i].0, calls[i].1);
      HistoryGrows(m.names, states, wants, Desired(calls[i].0), m.files);
      AsksNext(calls, wants);
      wants, states := wants + [Desired(calls[i].0)], states + [m.files];
    }
  }

  /** Afterwards the drop-in is still one of the agent's own. */
  method SetupAll(m: Manager, calls: seq<(map<string, Nic>, Env)>)
    requires Sound(m.names) && AgentDropin(m.names, m.files)
    requires forall i | 0 <= i < |calls| :: DistinctNics(calls[i].0)
    modifies m
    ensures AgentDropin(m.names, m.files)
  {
    ghost var states, wants := SetupEach(m, calls);
    HistoryEnds(m.names, states, wants);
  }

  lemma HistoryGrows(n: Names, states: seq<Files>, wants: seq<Nics>, want: Nics, after: Files)
    requires Sound(n) && History(n, states, wants) && Leaves(n, states[|wants|], want, after)
    ensures History(n, states + [after], wants + [want])
  {
    var s, w := states + [after], wants + [want];
    forall i | 0 <= i < |w| ensures Leaves(n, s[i], w[i], s[i + 1]) {
      if i < |wants| {
        assert Leaves(n, states[i], wants[i], states[i + 1]);
      }
    }
  }

  lemma HistoryEnds(n: Names, states: seq<Files>, wants: seq<Nics>)
    requires Sound(n) && History(n, states, wants)
    ensures AgentDropin(n, states[0]) ==> AgentDropin(n, states[|wants|])
  {
    if AgentDropin(n, states[0]) {
      var _ := HistoryKeepsDropin(n, states, wants, |wants|);
    }
  }

  /** From files with the agent's own drop-in, as any history of setups leaves
      it, a successful setup leaves the drop-in exactly as the descriptor wants
      it, having deleted exactly the links of listed VLANs that are gone. The
      directories are exactly the wanted ones if and only if none had leaked. */
  method SetupOverOwn(m: Manager, nics: map<string, Nic>, env: Env) returns (err: bool)
    requires Sound(m.names) && AgentDropin(m.names, m.files) && DistinctNics(nics)
    modifies m
    ensures old(m.deleted) <= m.deleted
    ensures !err ==> m.files.dropin == DropinFor(m.names, Desired(nics))
    ensures !err ==>
      (m.files.networkd == NetworkdFor(m.names, Desired(nics)) <==> old(NoLeak(m.names, m.files, Desired(nics))))
    ensures !err ==>
      SetOf(m.deleted[|old(m.deleted)|..]) == Image(m.names.key, old(Listed(m.names, m.files)) - Desired(nics).Keys)
    ensures !err ==> Settled(m.names, m.files, Desired(nics))
    ensures !err ==> InPlace(m.names.dir, m.names.networkd, nics.Values, m.files.networkd)
  {
    SetUpOverOwn(m.names, m.files, Desired(nics));
    err := m.SetupVlanInterface(nics, env);
    OverridesInPlace(m.names, m.files, nics);
  }

  /** A second setup then deletes, writes and reloads nothing, whatever fails.
      first counts deletions, writes and reloads before it. */
  method SetupTwice(m: Manager, nics: map<string, Nic>, env: Env, env': Env)
    returns (err: bool, first: (nat, nat, nat))
    requires Sound(m.names) && AgentDropin(m.names, m.files) && DistinctNics(nics)
    modifies m
    ensures !err ==> m.files.dropin == DropinFor(m.names, Desired(nics))
    ensures !err ==>
      (m.files.networkd == NetworkdFor(m.names, Desired(nics)) <==> old(NoLeak(m.names, m.files, Desired(nics))))
    ensures !err ==> (|m.deleted|, m.writes, m.reloads) == first
  {
    err := SetupOverOwn(m, nics, env);
    var deletions: nat := |m.deleted|;
    first := (deletions, m.writes, m.reloads);
    if err {
      return;
    }
    var _ := m.SetupVlanInterface(nics, env');
  }

  /** The leak is real: when the directory of the only VLAN cannot be removed
      after the drop-in was, a later setup in which nothing fails succeeds, finds
      nothing to do and leaves it. */
  method DirectoryLeaks(m: Manager, ghost nic: Nic, bad: Env, good: Env) returns (err: bool, err': bool)
    requires Sound(m.names) && m.files == AgentFiles(m.names, map[nic.vlan := nic])
    requires bad.readOk && bad.deleteOk && bad.dropinOk && bad.removeDir(m.names.dir(nic.vlan)).Stuck?
    requires Working(good)
    modifies m
    ensures !err'
    ensures err && m.files.dropin == None && m.names.dir(nic.vlan) in m.files.networkd
    ensures Settled(m.names, m.files, map[]) && m.files != AgentFiles(m.names, map[])
  {
    ghost var n, had, v := m.names, map[nic.vlan := nic], nic.vlan;
    OneInterface(n, nic);
    DropinConverges(n, m.files, had, map[]);
    SetUpRemoves(n, m.files, had);
    NothingDesired();
    err := m.SetupVlanInterface(map[], bad);
    LeftoverIsSettled(n, m.files, v);
    err' := m.SetupVlanInterface(map[], good);
  }

  /** A reload that fails is lost: the files are in place, so every later setup for
      the same interfaces finds everything settled, whatever works or fails, and
      the configuration in force stays what it was before. */
  method ReloadIsLost(m: Manager, nics: map<string, Nic>, bad: Env, later: seq<Env>) returns (err: bool)
    requires Sound(m.names) && AgentDropin(m.names, m.files) && DistinctNics(nics)
    requires !Settled(m.names, m.files, Desired(nics)) && Working(bad) && !bad.reloadOk
    modifies m
    ensures err && m.files == SetUp(m.names, old(m.files), Desired(nics))
    ensures m.active == old(m.active) && m.reloads == old(m.reloads) + 1
  {
    err := ReloadFails(m, nics, bad);
    RepeatSettled(m, nics, later);
  }

  method ReloadFails(m: Manager, nics: map<string, Nic>, bad: Env) returns (err: bool)
    requires Sound(m.names) && AgentDropin(m.names, m.files) && DistinctNics(nics)
    requires !Settled(m.names, m.files, Desired(nics)) && Working(bad) && !bad.reloadOk
    modifies m
    ensures err && m.files == SetUp(m.names, old(m.files), Desired(nics))
    ensures m.active == old(m.active) && m.reloads == old(m.reloads) + 1
    ensures Settled(m.names, m.files, Desired(nics))
  {
    SetUpOverOwn(m.names, m.files, Desired(nics));
    err := m.SetupVlanInterface(nics, bad);
  }

  /** Setups that find everything settled touch nothing, and reload nothing. */
  method RepeatSettled(m: Manager, nics: map<string, Nic>, envs: seq<Env>)
    requires Sound(m.names) && DistinctNics(nics) && Settled(m.names, m.files, Desired(nics))
    modifies m
    ensures m.files == old(m.files) && m.active == old(m.active)
    ensures m.deleted == old(m.deleted) && m.writes == old(m.writes) && m.reloads == old(m.reloads)
  {
    for i := 0 to |envs|
      invariant m.files == old(m.files) && m.active == old(m.active)
      invariant m.deleted == old(m.deleted) && m.writes == old(m.writes) && m.reloads == old(m.reloads)
    {
      var _ := m.SetupVlanInterface(nics, envs[i]);
    }
  }

  lemma NothingDesired()
    ensures DistinctNics(map[]) && Desired(map[]) == map[]
  {
    DesiredVlans(map[]);
  }

  lemma OneInterface(n: Names, nic: Nic)
    requires Sound(n)
    ensures n.dir(nic.vlan) in AgentFiles(n, map[nic.vlan := nic]).networkd
  {
    PrintedAt(n.dir, Overrides(n, map[nic.vlan := nic]), nic.vlan);
  }

  lemma SetUpRemoves(n: Names, files: Files, had: Nics)
    requires Sound(n) && files.dropin == DropinFor(n, had)
    ensures forall v | v in had :: n.dir(v) !in SetUp(n, files, map[]).networkd
    ensures RolledBack(n, files, Stale(n, files, map[])).dropin == None
  {
    var none: Nics := map[];
    StaleIsDropped(n, files, had, none);
    assert had.Keys - none.Keys == had.Keys;
    RolledBackNetworkd(n, files, had.Keys);
    RolledBackDropin(n, files, had, had.Keys);
    assert had - had.Keys == map[];
    NetworkdKeys(n, none);
  }

  lemma LeftoverIsSettled(n: Names, files: Files, v: Vlan)
    requires Sound(n) && files.dropin == None && n.dir(v) in files.networkd
    ensures Settled(n, files, map[]) && files != AgentFiles(n, map[])
  {
    var none: Nics := map[];
    StaleIsDropped(n, files, none, none);
    NetworkdKeys(n, none);
    assert NetworkdFor(n, none) == map[];
    assert files.networkd + map[] == files.networkd;
  }

  /** m has, for each of these interfaces, g of it under its printed name, and
      nothing else. */
  ghost predicate Lists<T>(f: Vlan -> string, g: Nic -> T, nics: set<Nic>, m: map<string, T>) {
    && InPlace(f, g, nics, m)
    && (forall k | k in m :: exists nic | nic in nics :: f(nic.vlan) == k)
  }

  ghost predicate InPlace<T>(f: Vlan -> string, g: Nic -> T, nics: set<Nic>, m: map<string, T>) {
    forall nic | nic in nics :: f(nic.vlan) in m && m[f(nic.vlan)] == g(nic)
  }

  ghost predicate OwnVlans(nics: set<Nic>) {
    forall a, b | a in nics && b in nics && a.vlan == b.vlan :: a == b
  }

  lemma DistinctValues(nics: map<string, Nic>)
    requires DistinctNics(nics)
    ensures OwnVlans(nics.Values)
  {
    DistinctPairs(nics);
  }

  lemma ListsStep<T>(f: Vlan -> string, g: Nic -> T, all: set<Nic>, todo: set<Nic>, m: map<string, T>, nic: Nic)
    requires Injective(f) && OwnVlans(all) && todo <= all && nic in todo && Lists(f, g, all - todo, m)
    ensures Lists(f, g, all - (todo - {nic}), m[f(nic.vlan) := g(nic)])
  {
    var m' := m[f(nic.vlan) := g(nic)];
    forall k | k in m' ensures exists c | c in all - (todo - {nic}) :: f(c.vlan) == k {
      if k != f(nic.vlan) {
        var c :| c in all - todo && f(c.vlan) == k;
        assert c in all - (todo - {nic});
      } else {
        assert nic in all - (todo - {nic});
      }
    }
  }

  lemma PlusPut<K, T>(a: map<K, T>, b: map<K, T>, k: K, x: T)
    ensures (a + b)[k := x] == a + b[k := x]
  {
  }

  /** wanted holds g of each of these interfaces, and nothing else. */
  ghost predicate Tells<T>(g: Nic -> T, nics: set<Nic>, wanted: map<Vlan, T>) {
    && (forall nic | nic in nics :: nic.vlan in wanted && wanted[nic.vlan] == g(nic))
    && (forall v | v in wanted :: exists nic | nic in nics :: nic.vlan == v)
  }

  lemma ListedAt<T>(f: Vlan -> string, g: Nic -> T, nics: set<Nic>, wanted: map<Vlan, T>, m: map<string, T>, k: string)
    requires Injective(f) && Lists(f, g, nics, m) && Tells(g, nics, wanted) && k in m
    ensures k in Printed(f, wanted) && Printed(f, wanted)[k] == m[k]
  {
    var nic :| nic in nics && f(nic.vlan) == k;
    PrintedAt(f, wanted, nic.vlan);
  }

  lemma ListedAll<T>(f: Vlan -> string, g: Nic -> T, nics: set<Nic>, wanted: map<Vlan, T>, m: map<string, T>, v: Vlan)
    requires Lists(f, g, nics, m) && Tells(g, nics, wanted) && v in wanted
    ensures f(v) in m
  {
  }

  /** A listing of the desired interfaces is their printed map. */
  lemma ListedIsPrinted<T>(f: Vlan -> string, g: Nic -> T, nics: set<Nic>, wanted: map<Vlan, T>, m: map<string, T>)
    requires Injective(f) && Lists(f, g, nics, m) && Tells(g, nics, wanted)
    ensures m == Printed(f, wanted)
  {
    var p := Printed(f, wanted);
    forall k | k in m ensures k in p && p[k] == m[k] {
      ListedAt(f, g, nics, wanted, m, k);
    }
    forall k | k in p ensures k in m {
      var v :| v in wanted.Keys && f(v) == k;
      ListedAll(f, g, nics, wanted, m, v);
    }
  }

  lemma DesiredAt(nics: map<string, Nic>, nic: Nic)
    requires DistinctNics(nics) && nic in nics.Values
    ensures nic.vlan in Desired(nics) && Desired(nics)[nic.vlan] == nic
  {
    var i :| i in nics && nics[i] == nic;
  }

  lemma DesiredFrom(nics: map<string, Nic>, v: Vlan)
    requires DistinctNics(nics) && v in Desired(nics)
    ensures exists nic | nic in nics.Values :: nic.vlan == v
  {
    var i :| i in nics && nics[i].vlan == v;
    assert nics[i] in nics.Values;
  }

  /** Whatever is computed from each desired interface. */
  lemma DesiredTells<T>(g: Nic -> T, nics: map<string, Nic>, wanted: map<Vlan, T>)
    requires DistinctNics(nics) && wanted.Keys == Desired(nics).Keys
    requires forall v | v in wanted :: wanted[v] == g(Desired(nics)[v])
    ensures Tells(g, nics.Values, wanted)
  {
    forall nic | nic in nics.Values ensures nic.vlan in wanted && wanted[nic.vlan] == g(nic) {
      DesiredAt(nics, nic);
    }
    forall v | v in wanted ensures exists nic | nic in nics.Values :: nic.vlan == v {
      DesiredFrom(nics, v);
    }
  }

  lemma ListedDropin(n: Names, files: Files, nics: map<string, Nic>, vlans: map<string, NetplanVlan>)
    requires Sound(n) && DistinctNics(nics) && Lists(n.key, n.entry, nics.Values, vlans)
    ensures WrittenDropin(n, files, Desired(nics)) == if nics == map[] then files.dropin else Some(vlans)
  {
    var wanted := Entries(n, Desired(nics));
    DesiredVlans(nics);
    DesiredTells(n.entry, nics, wanted);
    ListedIsPrinted(n.key, n.entry, nics.Values, wanted, vlans);
  }

  lemma ListedOverrides(n: Names, files: Files, nics: map<string, Nic>, added: map<string, Override>)
    requires Sound(n) && DistinctNics(nics) && Lists(n.dir, n.networkd, nics.Values, added)
    ensures WrittenNetworkd(n, files, Desired(nics)) == files.networkd + added
  {
    var wanted := Overrides(n, Desired(nics));
    DesiredTells(n.networkd, nics, wanted);
    ListedIsPrinted(n.dir, n.networkd, nics.Values, wanted, added);
  }

  /** Where writing the overrides changes nothing, each is already in place. */
  lemma OverridesInPlace(n: Names, files: Files, nics: map<string, Nic>)
    requires Sound(n) && DistinctNics(nics)
    ensures WrittenNetworkd(n, files, Desired(nics)) == files.networkd ==>
      InPlace(n.dir, n.networkd, nics.Values, files.networkd)
  {
    var wanted := Overrides(n, Desired(nics));
    var dirs := Printed(n.dir, wanted);
    forall nic | nic in nics.Values
      ensures n.dir(nic.vlan) in dirs && (files.networkd + dirs)[n.dir(nic.vlan)] == n.networkd(nic)
    {
      DesiredAt(nics, nic);
      PrintedAt(n.dir, wanted, nic.vlan);
    }
  }

  ghost function SetOf(xs: seq<string>): set<string> {
    set x | x in xs
  }

  lemma SetOfAppend(xs: seq<string>, x: string)
    ensures SetOf(xs + [x]) == SetOf(xs) + {x}
  {
  }

  lemma ImageStep(f: Vlan -> string, vs: set<Vlan>, v: Vlan)
    ensures Image(f, vs + {v}) == Image(f, vs) + {f(v)}
  {
    ImageUnion(f, vs, {v});
    assert Image(f, {v}) == {f(v)};
  }

  /** The VLANs that the entries under these keys describe, less those kept. */
  ghost function StaleAmong(vlanOf: NetplanVlan -> Vlan, existing: map<string, NetplanVlan>,
                            keep: set<string>, ks: set<string>): set<Vlan> {
    set k | k in ks && k in existing && k !in keep :: vlanOf(existing[k])
  }

  lemma StaleAmongStep(vlanOf: NetplanVlan -> Vlan, existing: map<string, NetplanVlan>,
                       keep: set<string>, ks: set<string>, k: string)
    requires k in existing
    ensures StaleAmong(vlanOf, existing, keep, ks + {k})
         == StaleAmong(vlanOf, existing, keep, ks) + if k in keep then {} else {vlanOf(existing[k])}
  {
  }

  ghost predicate OwnIds(id: Vlan -> string, m: map<string, Vlan>) {
    forall i | i in m :: i == id(m[i])
  }

  lemma AddedValue(id: Vlan -> string, m: map<string, Vlan>, v: Vlan)
    requires OwnIds(id, m) && Injective(id)
    ensures m[id(v) := v].Values == m.Values + {v}
    ensures OwnIds(id, m[id(v) := v])
  {
    var m' := m[id(v) := v];
    forall w | w in m.Values ensures w in m'.Values {
      var i :| i in m && m[i] == w;
      assert m'[i] == w;
    }
    assert m'[id(v)] == v;
  }
}
