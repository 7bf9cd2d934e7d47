/** Forwarded and alias addresses of one network interface: what is installed
    is compared with what metadata wants, the difference is applied, and on
    Windows the result is recorded in the registry. */
module Addresses {
  import opened TextLines

  const HOST := "/32"

  /** A single address is always written without its "/32". */
  predicate Plain(ip: string) {
    !HasSuffix(ip, HOST)
  }

  /** The argument of ip route add and delete. */
  function Full(ip: string): string {
    if '/' in ip then ip else ip + HOST
  }

  function Trimmed(ip: string): string {
    TrimSuffix(ip, HOST)
  }

  lemma TrimmedFull(ip: string)
    requires Plain(ip)
    ensures Trimmed(Full(ip)) == ip
  {
    if '/' !in ip {
      assert (ip + HOST)[|ip|..] == HOST;
      assert (ip + HOST)[..|ip|] == ip;
    }
  }

  /** The argument always names a prefix length, and differs from the address only
      by the one for a single host. */
  lemma FullNamesPrefix(ip: string)
    ensures '/' in Full(ip) && HasPrefix(Full(ip), ip)
    ensures (Full(ip) == ip <==> '/' in ip) && (Full(ip) != ip ==> HasSuffix(Full(ip), "/32"))
  {
    if '/' !in ip {
      assert (ip + HOST)[|ip|] == '/';
      assert (ip + HOST)[|ip|..] == "/32";
    }
  }

  /** The elements of xs that are not in ys, in order. */
  function Missing(xs: seq<string>, ys: seq<string>): seq<string> {
    if xs == [] then []
    else
      var n := |xs| - 1;
      Missing(xs[..n], ys) + if xs[n] in ys then [] else [xs[n]]
  }

  method CompareRoutes(configuredRoutes: seq<string>, desiredRoutes: seq<string>)
    returns (toAdd: seq<string>, toRm: seq<string>)
    ensures toAdd == Missing(desiredRoutes, configuredRoutes)
    ensures toRm == Missing(configuredRoutes, desiredRoutes)
  {
    toAdd, toRm := [], [];
    for i := 0 to |desiredRoutes|
      invariant toAdd == Missing(desiredRoutes[..i], configuredRoutes)
    {
      assert desiredRoutes[..i + 1][..i] == desiredRoutes[..i];
      if desiredRoutes[i] !in configuredRoutes {
        toAdd := toAdd + [desiredRoutes[i]];
      }
    }
    for i := 0 to |configuredRoutes|
      invariant toRm == Missing(configuredRoutes[..i], desiredRoutes)
    {
      assert configuredRoutes[..i + 1][..i] == configuredRoutes[..i];
      if configuredRoutes[i] !in desiredRoutes {
        toRm := toRm + [configuredRoutes[i]];
      }
    }
    assert desiredRoutes[..|desiredRoutes|] == desiredRoutes;
    assert configuredRoutes[..|configuredRoutes|] == configuredRoutes;
  }

  predicate NoDuplicates(xs: seq<string>) {
    forall i, j | 0 <= i < j < |xs| :: xs[i] != xs[j]
  }

  lemma {:induction false} MissingMembers(xs: seq<string>, ys: seq<string>)
    ensures forall x :: x in Missing(xs, ys) <==> x in xs && x !in ys
    ensures NoDuplicates(xs) ==> NoDuplicates(Missing(xs, ys))
  {
    if xs != [] {
      var n := |xs| - 1;
      MissingMembers(xs[..n], ys);
      assert xs == xs[..n] + [xs[n]];
    }
  }

  function TrimAll(entries: seq<string>): (res: seq<string>)
    ensures |res| == |entries|
    ensures forall i | 0 <= i < |entries| :: res[i] == Trimmed(entries[i])
  {
    seq(|entries|, i requires 0 <= i < |entries| => Trimmed(entries[i]))
  }

  /** Every wanted entry names one plain address, with or without "/32". */
  predicate PlainWanted(want: seq<string>) {
    forall i | 0 <= i < |want| :: Plain(Trimmed(want[i]))
  }

  /** What the system allows during one Set: reading the interface, reading and
      writing the registry, and the add and remove at each position. */
  datatype Luck = Luck(
    readable: bool, registryReadable: bool, registryWritable: bool,
    addOk: nat -> bool, removeOk: nat -> bool)

  datatype Command = Add(arg: string) | Remove(arg: string)

  class NetworkInterface {
    const windows: bool

    /** Windows: the addresses on the interface. Elsewhere: the local routes
        that carry the agent's protocol id. Both as the system lists them,
        less "/32". */
    var installed: set<string>

    /** Windows: the addresses recorded as the agent's own. */
    var registry: seq<string>

    /** Commands issued so far. */
    var commands: seq<Command>

    ghost predicate Valid()
      reads this
    {
      forall a | a in installed :: Plain(a)
    }

    constructor (windows: bool, installed: set<string>, registry: seq<string>)
      requires forall a | a in installed :: Plain(a)
      ensures Valid() && this.windows == windows && this.installed == installed
      ensures this.registry == registry && commands == []
    {
      this.windows, this.installed, this.registry, commands := windows, installed, registry, [];
    }

    /** The system's own listing, in no particular order. */
    method ReadInstalled() returns (ips: seq<string>)
      requires Valid()
      ensures NoDuplicates(ips) && forall a :: a in ips <==> a in installed
    {
      ips := [];
      var todo := installed;
      while todo != {}
        invariant todo <= installed && NoDuplicates(ips)
        invariant forall a :: a in ips <==> a in installed - todo
      {
        var a :| a in todo;
        todo := todo - {a};
        TrimmedFull(a);
        assert forall i | 0 <= i < |ips| :: ips[i] in ips;
        ips := ips + [Trimmed(Full(a))];
      }
    }

    /** How an address is passed to the system. */
    function Arg(ip: string): string {
      if windows then ip else Full(ip)
    }

    method AddOne(ip: string, ok: bool)
      requires Valid() && Plain(ip)
      modifies this`installed, this`commands
      ensures Valid() && commands == old(commands) + [Add(Arg(ip))]
      ensures installed == old(installed) + if ok then {ip} else {}
    {
      commands := commands + [Add(Arg(ip))];
      TrimmedFull(ip);
      if ok {
        installed := installed + {Trimmed(Full(ip))};
      }
    }

    method RemoveOne(ip: string, ok: bool)
      requires Valid() && Plain(ip)
      modifies this`installed, this`commands
      ensures Valid() && commands == old(commands) + [Remove(Arg(ip))]
      ensures installed == old(installed) - if ok then {ip} else {}
    {
      commands := commands + [Remove(Arg(ip))];
      TrimmedFull(ip);
      if ok {
        installed := installed - {Trimmed(Full(ip))};
      }
    }

    /** At this position an address is in place afterwards, as far as the agent
        can tell: it was not missing, was seen on the interface, or was added. */
    predicate InPlace(wantIPs: seq<string>, toAdd: seq<string>, configuredIPs: seq<string>, addOk: nat -> bool, i: nat)
      requires i < |wantIPs|
    {
      wantIPs[i] !in toAdd || (windows && wantIPs[i] in configuredIPs) || addOk(i)
    }

    /** The addresses in place, position by position. */
    function Taken(wantIPs: seq<string>, toAdd: seq<string>, configuredIPs: seq<string>, addOk: nat -> bool)
      : seq<string>
    {
      if wantIPs == [] then []
      else
        var n := |wantIPs| - 1;
        Taken(wantIPs[..n], toAdd, configuredIPs, addOk)
        + if InPlace(wantIPs, toAdd, configuredIPs, addOk, n) then [wantIPs[n]] else []
    }

    lemma {:induction false} TakenMembers(wantIPs: seq<string>, toAdd: seq<string>, configuredIPs: seq<string>,
                                          addOk: nat -> bool)
      ensures forall a :: a in Taken(wantIPs, toAdd, configuredIPs, addOk) <==>
        exists i | 0 <= i < |wantIPs| :: wantIPs[i] == a && InPlace(wantIPs, toAdd, configuredIPs, addOk, i)
    {
      if wantIPs != [] {
        var n := |wantIPs| - 1;
        TakenMembers(wantIPs[..n], toAdd, configuredIPs, addOk);
        assert forall i | 0 <= i < n ::
            InPlace(wantIPs[..n], toAdd, configuredIPs, addOk, i) <==> InPlace(wantIPs, toAdd, configuredIPs, addOk, i);
      }
    }

    /** The commands of the two loops below. */
    function AddCommands(wantIPs: seq<string>, toAdd: seq<string>, configuredIPs: seq<string>): seq<Command> {
      if wantIPs == [] then []
      else
        var n := |wantIPs| - 1;
        AddCommands(wantIPs[..n], toAdd, configuredIPs)
        + if wantIPs[n] in toAdd && !(windows && wantIPs[n] in configuredIPs) then [Add(Arg(wantIPs[n]))] else []
    }

    function RemoveCommands(toRm: seq<string>): seq<Command> {
      if toRm == [] then []
      else
        var n := |toRm| - 1;
        RemoveCommands(toRm[..n]) + [Remove(Arg(toRm[n]))]
    }

    lemma {:induction false} AddCommandsMembers(wantIPs: seq<string>, toAdd: seq<string>, configuredIPs: seq<string>)
      ensures forall c :: c in AddCommands(wantIPs, toAdd, configuredIPs) <==>
        exists a | a in wantIPs && a in toAdd && !(windows && a in configuredIPs) :: c == Add(Arg(a))
    {
      if wantIPs != [] {
        var n := |wantIPs| - 1;
        AddCommandsMembers(wantIPs[..n], toAdd, configuredIPs);
        assert wantIPs == wantIPs[..n] + [wantIPs[n]];
      }
    }

    lemma {:induction false} RemoveCommandsMembers(toRm: seq<string>)
      ensures forall c :: c in RemoveCommands(toRm) <==> exists a | a in toRm :: c == Remove(Arg(a))
    {
      if toRm != [] {
        var n := |toRm| - 1;
        RemoveCommandsMembers(toRm[..n]);
        assert toRm == toRm[..n] + [toRm[n]];
      }
    }

    /** The loop over the wanted addresses. */
    method AddMissing(wantIPs: seq<string>, toAdd: seq<string>, configuredIPs: seq<string>, addOk: nat -> bool)
      returns (entries: seq<string>)
      requires Valid() && forall i | 0 <= i < |wantIPs| :: Plain(wantIPs[i])
      requires forall a | a in wantIPs && a !in toAdd :: a in installed
      requires forall a | a in configuredIPs :: a in installed
      modifies this`installed, this`commands
      ensures Valid()
      ensures entries == Taken(wantIPs, toAdd, configuredIPs, addOk)
      ensures forall a :: a in installed <==> a in old(installed) || a in entries
      ensures commands == old(commands) + AddCommands(wantIPs, toAdd, configuredIPs)
    {
      entries := [];
      for i := 0 to |wantIPs|
        invariant Valid()
        invariant entries == Taken(wantIPs[..i], toAdd, configuredIPs, addOk)
        invariant forall a :: a in installed <==> a in old(installed) || a in entries
        invariant commands == old(commands) + AddCommands(wantIPs[..i], toAdd, configuredIPs)
      {
        var ip := wantIPs[i];
        assert wantIPs[..i + 1][..i] == wantIPs[..i];
        if ip !in toAdd {
          entries := entries + [ip];
          continue;
        }
        var ok := true;
        if windows {
          if ip !in configuredIPs {
            ok := addOk(i);
            AddOne(ip, ok);
          }
        } else {
          ok := addOk(i);
          AddOne(ip, ok);
        }
        if ok {
          entries := entries + [ip];
        }
      }
      assert wantIPs[..|wantIPs|] == wantIPs;
    }

    /** The loop over the addresses no longer wanted. */
    method RemoveExtra(toRm: seq<string>, configuredIPs: seq<string>, removeOk: nat -> bool)
      returns (entries: seq<string>)
      requires Valid() && NoDuplicates(toRm)
      requires forall a | a in toRm :: a in installed
      requires windows ==> forall a | a in toRm :: a in configuredIPs
      modifies this`installed, this`commands
      ensures Valid() && installed <= old(installed)
      ensures forall a | a in old(installed) - installed :: a in toRm
      ensures forall a :: a in entries <==> a in toRm && a in installed
      ensures (forall i | 0 <= i < |toRm| :: removeOk(i)) ==> forall a | a in toRm :: a !in installed
      ensures commands == old(commands) + RemoveCommands(toRm)
      ensures toRm == [] ==> installed == old(installed) && entries == []
    {
      entries := [];
      for i := 0 to |toRm|
        invariant Valid() && installed <= old(installed)
        invariant forall a | a in old(installed) - installed :: a in toRm[..i]
        invariant forall a :: a in entries <==> a in toRm[..i] && a in installed
        invariant (forall k | 0 <= k < |toRm| :: removeOk(k)) ==> forall a | a in toRm[..i] :: a !in installed
        invariant commands == old(commands) + RemoveCommands(toRm[..i])
        invariant i == 0 ==> installed == old(installed) && entries == []
      {
        var ip := toRm[i];
        assert toRm[..i + 1] == toRm[..i] + [ip];
        assert ip in toRm && forall k | 0 <= k < i :: toRm[k] != ip;
        assert ip !in toRm[..i] && ip in installed;
        if windows && ip !in configuredIPs {
          continue;
        }
        RemoveOne(ip, removeOk(i));
        if !removeOk(i) {
          entries := entries + [ip];
        }
      }
      assert toRm[..|toRm|] == toRm;
    }

    /** The addresses that metadata wants on this interface. */
    ghost function Wanted(want: seq<string>): set<string> {
      set i | 0 <= i < |want| :: Trimmed(want[i])
    }

    /** What the agent regards as its own: on Windows what it has recorded. */
    ghost predicate Own(a: string)
      reads this
    {
      a in installed && (windows ==> a in registry)
    }

    /** The entries of the registry that are configured on the interface. */
    method Recorded(configuredIPs: seq<string>) returns (forwardedIPs: seq<string>)
      requires NoDuplicates(configuredIPs)
      ensures NoDuplicates(forwardedIPs)
      ensures forall a :: a in forwardedIPs <==> a in configuredIPs && a in registry
    {
      forwardedIPs := [];
      for i := 0 to |configuredIPs|
        invariant NoDuplicates(forwardedIPs)
        invariant forall a :: a in forwardedIPs <==> a in configuredIPs[..i] && a in registry
      {
        assert configuredIPs[..i + 1] == configuredIPs[..i] + [configuredIPs[i]];
        assert forall k | 0 <= k < |forwardedIPs| :: forwardedIPs[k] in forwardedIPs;
        if configuredIPs[i] in registry {
          forwardedIPs := forwardedIPs + [configuredIPs[i]];
        }
      }
      assert configuredIPs[..|configuredIPs|] == configuredIPs;
    }

    /** Reading the present state; go is false when Set skips the interface. */
    method ReadState(luck: Luck) returns (go: bool, forwardedIPs: seq<string>, configuredIPs: seq<string>)
      requires Valid()
      ensures go == if windows then luck.registryReadable else luck.readable
      ensures NoDuplicates(forwardedIPs)
      ensures forall a | a in forwardedIPs :: Own(a) && (windows ==> a in configuredIPs)
      ensures forall a | a in configuredIPs :: a in installed
      ensures windows && !luck.readable ==> forwardedIPs == configuredIPs == []
      ensures go && luck.readable ==> forall a | Own(a) :: a in forwardedIPs
      ensures windows && luck.readable ==> forall a | a in installed :: a in configuredIPs
    {
      forwardedIPs, configuredIPs := [], [];
      if windows {
        if luck.readable {
          configuredIPs := ReadInstalled();
        }
        if !luck.registryReadable {
          return false, forwardedIPs, configuredIPs;
        }
        forwardedIPs := Recorded(configuredIPs);
        NoMembers(forwardedIPs);
      } else {
        if !luck.readable {
          return false, forwardedIPs, configuredIPs;
        }
        forwardedIPs := ReadInstalled();
      }
      return true, forwardedIPs, configuredIPs;
    }

    /** Applying the difference; entries is what is to be recorded. */
    method ApplyDifference(forwardedIPs: seq<string>, configuredIPs: seq<string>, wantIPs: seq<string>, luck: Luck)
      returns (entries: seq<string>)
      requires Valid() && NoDuplicates(forwardedIPs) && forall i | 0 <= i < |wantIPs| :: Plain(wantIPs[i])
      requires forall a | a in forwardedIPs :: a in installed && (windows ==> a in configuredIPs)
      requires forall a | a in configuredIPs :: a in installed
      modifies this`installed, this`commands
      ensures Valid()
      ensures forall a | a in installed - old(installed) :: a in wantIPs
      ensures forall a | a in old(installed) - installed :: a in forwardedIPs && a !in wantIPs
      ensures AllOk(luck) ==> forall a :: a in installed <==>
        a in wantIPs || (a in old(installed) && a !in forwardedIPs)
      ensures (forall a | a in wantIPs && a in old(installed) ::
                 a in forwardedIPs || (windows && a in configuredIPs)) ==>
        forall a :: a in entries <==> a in installed && (a in wantIPs || a in forwardedIPs)
      ensures forall a | a in entries :: a in installed && (a in wantIPs || a in forwardedIPs)
      ensures forwardedIPs == configuredIPs == [] ==>
        && (forall a :: a in entries <==> Added(wantIPs, luck, a))
        && (forall a :: a in installed <==> a in old(installed) || a in entries)
      ensures commands == old(commands) + AddCommands(wantIPs, Missing(wantIPs, forwardedIPs), configuredIPs)
                          + RemoveCommands(Missing(forwardedIPs, wantIPs))
    {
      var toAdd, toRm := CompareRoutes(forwardedIPs, wantIPs);
      MissingMembers(wantIPs, forwardedIPs);
      MissingMembers(forwardedIPs, wantIPs);
      entries := AddMissing(wantIPs, toAdd, configuredIPs, luck.addOk);
      ghost var added, taken := installed, entries;
      var kept := RemoveExtra(toRm, configuredIPs, luck.removeOk);
      entries := entries + kept;
      TakenMeans(wantIPs, toAdd, configuredIPs, luck, taken);
      NoMembers(toRm);
    }

    /** What the first loop takes as in place. */
    lemma TakenMeans(wantIPs: seq<string>, toAdd: seq<string>, configuredIPs: seq<string>, luck: Luck,
                     taken: seq<string>)
      requires taken == Taken(wantIPs, toAdd, configuredIPs, luck.addOk)
      ensures forall a | a in taken :: a in wantIPs
      ensures forall a | a in wantIPs && (a !in toAdd || (windows && a in configuredIPs)) :: a in taken
      ensures (forall i: nat :: luck.addOk(i)) ==> forall a | a in wantIPs :: a in taken
      ensures configuredIPs == [] && (forall a | a in wantIPs :: a in toAdd) ==>
        forall a :: a in taken <==> Added(wantIPs, luck, a)
    {
      TakenMembers(wantIPs, toAdd, configuredIPs, luck.addOk);
      forall a | a in wantIPs && (a !in toAdd || (windows && a in configuredIPs)) ensures a in taken {
        var i :| 0 <= i < |wantIPs| && wantIPs[i] == a;
        assert InPlace(wantIPs, toAdd, configuredIPs, luck.addOk, i);
      }
      if forall i: nat :: luck.addOk(i) {
        forall a | a in wantIPs ensures a in taken {
          var i :| 0 <= i < |wantIPs| && wantIPs[i] == a;
          assert InPlace(wantIPs, toAdd, configuredIPs, luck.addOk, i);
        }
      }
      if configuredIPs == [] && forall a | a in wantIPs :: a in toAdd {
        assert forall i | 0 <= i < |wantIPs| ::
            InPlace(wantIPs, toAdd, configuredIPs, luck.addOk, i) <==> luck.addOk(i);
      }
    }

    /** What the two loops issue. */
    lemma CommandsMean(wantIPs: seq<string>, forwardedIPs: seq<string>, configuredIPs: seq<string>)
      ensures forall c ::
        c in AddCommands(wantIPs, Missing(wantIPs, forwardedIPs), configuredIPs)
             + RemoveCommands(Missing(forwardedIPs, wantIPs)) <==>
        || (exists a | a in wantIPs && a !in forwardedIPs && !(windows && a in configuredIPs) :: c == Add(Arg(a)))
        || (exists a | a in forwardedIPs && a !in wantIPs :: c == Remove(Arg(a)))
    {
      MissingMembers(wantIPs, forwardedIPs);
      MissingMembers(forwardedIPs, wantIPs);
      AddCommandsMembers(wantIPs, Missing(wantIPs, forwardedIPs), configuredIPs);
      RemoveCommandsMembers(Missing(forwardedIPs, wantIPs));
    }

    /** The interface is looked after: its record, or its routes, could be read. */
    predicate Attended(luck: Luck) {
      if windows then luck.registryReadable else luck.readable
    }

    /** A command this Set calls for: adding what is wanted and not seen, removing
        what is the agent's own and not wanted. */
    ghost predicate Called(want: seq<string>, luck: Luck, c: Command)
      reads this
    {
      || (exists a | a in Wanted(want) && !(luck.readable && a in installed) ::
            c == Add(if windows then a else Full(a)))
      || (exists a | luck.readable && Own(a) && a !in Wanted(want) :: c == Remove(if windows then a else Full(a)))
    }

    /** Set up to the registry: what is issued, installed, and to be recorded. */
    method Reconcile(want: seq<string>, luck: Luck) returns (entries: seq<string>)
      requires Valid() && PlainWanted(want) && Attended(luck)
      modifies this`installed, this`commands
      ensures Valid()
      ensures forall a | a in installed - old(installed) :: a in Wanted(want)
      ensures forall a | a in old(installed) - installed :: old(Own(a)) && a !in Wanted(want)
      ensures AllOk(luck) ==> forall a :: a in installed <==>
        a in Wanted(want) || (a in old(installed) && !old(Own(a)))
      ensures windows && luck.readable ==>
        forall a :: a in entries <==> a in installed && (a in Wanted(want) || a in registry)
      ensures windows && !luck.readable ==>
        && (forall a :: a in entries <==> Added(TrimAll(want), luck, a))
        && (forall a :: a in installed <==> a in old(installed) || a in entries)
      ensures old(commands) <= commands
      ensures forall c :: c in commands[|old(commands)|..] <==> old(Called(want, luck, c))
    {
      var _, forwardedIPs, configuredIPs := ReadState(luck);
      PlainTrimmed(forwardedIPs);
      forwardedIPs := TrimAll(forwardedIPs);
      var wantIPs := TrimAll(want);
      assert forall a :: a in wantIPs <==> a in Wanted(want);
      CommandsMean(wantIPs, forwardedIPs, configuredIPs);
      ghost var news := AddCommands(wantIPs, Missing(wantIPs, forwardedIPs), configuredIPs)
                        + RemoveCommands(Missing(forwardedIPs, wantIPs));
      CalledMeans(want, luck, wantIPs, forwardedIPs, configuredIPs, news);
      entries := ApplyDifference(forwardedIPs, configuredIPs, wantIPs, luck);
      Associates(old(commands), AddCommands(wantIPs, Missing(wantIPs, forwardedIPs), configuredIPs),
                 RemoveCommands(Missing(forwardedIPs, wantIPs)));
      assert commands[|old(commands)|..] == news;
    }

    lemma CalledMeans(want: seq<string>, luck: Luck, wantIPs: seq<string>, forwardedIPs: seq<string>,
                      configuredIPs: seq<string>, news: seq<Command>)
      requires forall c :: c in news <==>
        || (exists a | a in wantIPs && a !in forwardedIPs && !(windows && a in configuredIPs) :: c == Add(Arg(a)))
        || (exists a | a in forwardedIPs && a !in wantIPs :: c == Remove(Arg(a)))
      requires forall a :: a in wantIPs <==> a in Wanted(want)
      requires if luck.readable
        then
          && (forall a :: a in forwardedIPs <==> Own(a))
          && (windows ==> forall a :: a in configuredIPs <==> a in installed)
        else forwardedIPs == configuredIPs == []
      ensures forall c :: c in news <==> Called(want, luck, c)
    {
    }

    /** What the registry is meant to say after a Set. */
    ghost predicate RecordExact(want: seq<string>, before: seq<string>)
      reads this
    {
      forall a :: a in registry <==> a in installed && (a in Wanted(want) || a in before)
    }

    /** Nothing would be forgotten even without seeing the interface: recorded
        addresses on it are all wanted, and wanted ones on it can be added again. */
    ghost predicate NothingToForget(want: seq<string>, luck: Luck)
      reads this
    {
      && (forall a | a in installed && a in registry :: a in Wanted(want))
      && (forall a | a in installed && a in Wanted(want) :: Added(TrimAll(want), luck, a))
    }

    /** One Set for this interface. Whatever fails, only addresses of the
        agent's own that are no longer wanted are removed, and only wanted ones
        added. If nothing fails, exactly that difference is applied. On Windows,
        if the interface could be read, the registry afterwards records exactly
        the installed addresses that are wanted or were recorded before. When
        the agent's addresses are already those wanted, no command is issued.
        If it could not be read, the record is that exactly when there was
        nothing to forget. */
    method Set(want: seq<string>, luck: Luck)
      requires Valid() && PlainWanted(want)
      modifies this`installed, this`registry, this`commands
      ensures Valid()
      ensures forall a | a in installed - old(installed) :: a in Wanted(want)
      ensures forall a | a in old(installed) - installed :: old(Own(a)) && a !in Wanted(want)
      ensures AllOk(luck) ==> forall a :: a in installed <==>
        a in Wanted(want) || (a in old(installed) && !old(Own(a)))
      ensures windows && luck.readable && luck.registryReadable && luck.registryWritable ==>
        RecordExact(want, old(registry))
      ensures windows && luck.registryReadable && luck.registryWritable ==>
        (RecordExact(want, old(registry)) <==> luck.readable || old(NothingToForget(want, luck)))
      ensures windows && !luck.readable && luck.registryReadable && luck.registryWritable ==>
        old(installed) <= installed && forall a | a in registry :: a in Wanted(want) && a in installed
      ensures !windows || !luck.registryReadable || !luck.registryWritable ==> registry == old(registry)
      ensures luck.readable && (forall a :: a in Wanted(want) <==> old(Own(a))) ==> commands == old(commands)
      ensures old(commands) <= commands
      ensures forall c :: c in commands[|old(commands)|..] <==> Attended(luck) && old(Called(want, luck, c))
    {
      if !Attended(luck) {
        return;
      }
      var registryEntries := Reconcile(want, luck);
      if commands[|old(commands)|..] != [] {
        assert commands[|old(commands)|..][0] in commands[|old(commands)|..];
      }
      if windows && luck.registryWritable {
        registry := registryEntries;
      }
    }
  }

  /** After a Set in which nothing failed the agent's addresses are exactly the
      wanted ones, and the next Set with the same metadata issues no command. */
  method SetTwice(nic: NetworkInterface, want: seq<string>, luck: Luck, again: Luck) returns (issued: seq<Command>)
    requires nic.Valid() && PlainWanted(want) && AllOk(luck) && again.readable
    modifies nic
    ensures nic.commands == issued
    ensures !nic.windows ==> nic.installed == nic.Wanted(want)
    ensures forall a :: nic.Own(a) <==> a in nic.Wanted(want)
  {
    nic.Set(want, luck);
    issued := nic.commands;
    assert forall a :: nic.Own(a) <==> a in nic.Wanted(want);
    nic.Set(want, again);
  }

  /** The gap on Windows: an address that was recorded and is no longer wanted
      stays installed and drops out of the record when the interface could not
      be read, and no later Set that does not want it removes it, whatever the
      others want and whatever fails. */
  method UnreadIsForgotten(nic: NetworkInterface, a: string, want: seq<string>, luck: Luck,
                           later: seq<(seq<string>, Luck)>)
    requires nic.Valid() && nic.windows && !luck.readable && luck.registryReadable && luck.registryWritable
    requires PlainWanted(want) && a in nic.installed && a in nic.registry && a !in nic.Wanted(want)
    requires forall i | 0 <= i < |later| :: PlainWanted(later[i].0) && a !in nic.Wanted(later[i].0)
    modifies nic
    ensures a in nic.installed && a !in nic.registry
  {
    nic.Set(want, luck);
    for i := 0 to |later|
      invariant nic.Valid() && a in nic.installed && a !in nic.registry
    {
      nic.Set(later[i].0, later[i].1);
    }
  }

  /** Some add of this address succeeds. */
  ghost predicate Added(wantIPs: seq<string>, luck: Luck, a: string) {
    exists i | 0 <= i < |wantIPs| :: wantIPs[i] == a && luck.addOk(i)
  }

  lemma NoMembers(xs: seq<string>)
    ensures (forall x :: x !in xs) ==> xs == []
  {
    if xs != [] {
      assert xs[0] in xs;
    }
  }

  /** Nothing fails during a Set. */
  ghost predicate AllOk(luck: Luck) {
    && luck.readable && luck.registryReadable && luck.registryWritable
    && (forall i: nat :: luck.addOk(i)) && (forall i: nat :: luck.removeOk(i))
  }

  lemma PlainTrimmed(ips: seq<string>)
    requires forall a | a in ips :: Plain(a)
    ensures TrimAll(ips) == ips
  {
    forall i | 0 <= i < |ips| ensures Trimmed(ips[i]) == ips[i] {
      assert ips[i] in ips;
    }
  }
}
