/** VLAN interfaces under netplan. One drop-in file lists them all under
    printed names, and systemd-networkd gets one directory for each. Setting up
    a desired set deletes links that are no longer in it, and rewrites what
    differs. */
module Netplan {
  import opened Options
  import opened TextLines

  // ---- printed names ----

  function Digit(d: nat): char
    requires d < 10
  {
    ['0', '1', '2', '3', '4', '5', '6', '7', '8', '9'][d]
  }

  /** %d for a VLAN id. */
  function Itoa(n: nat): string {
    if n < 10 then [Digit(n)] else Itoa(n / 10) + [Digit(n % 10)]
  }

  /** A VLAN by its parent interface and id. */
  datatype Vlan = Vlan(parent: string, id: nat)

  /** netplan.ID: the name under which netplan knows an interface. */
  function ID(prefix: string, iface: string): string {
    if prefix != "" then prefix + "-" + iface else iface
  }

  function InterfaceFromLink(prefix: string, link: string): string {
    if prefix != "" then TrimPrefix(link, prefix + "-") else link
  }

  function VlanInterfaceName(v: Vlan): string {
    "gcp." + v.parent + "." + Itoa(v.id)
  }

  /** The key of a VLAN in the drop-in, and the name of its link. */
  function Key(prefix: string, v: Vlan): string {
    ID(prefix, VlanInterfaceName(v))
  }

  /** The networkd directory as the writer names it. */
  function NetworkdDir(prefix: string, iface: string): string {
    if prefix != "" then "10-netplan-" + prefix + "-" + iface + ".network.d"
    else "10-netplan-" + iface + ".network.d"
  }

  /** The same directory as the removal names it. */
  function RollbackDir(key: string): string {
    "10-netplan-" + key + ".network.d"
  }

  /** The key under which a VLAN is queued for removal. */
  function RemovalId(v: Vlan): string {
    v.parent + "-" + Itoa(v.id)
  }

  lemma {:induction false} ItoaDigits(n: nat)
    ensures |Itoa(n)| > 0 && '.' !in Itoa(n) && '-' !in Itoa(n)
  {
    if n >= 10 {
      ItoaDigits(n / 10);
    }
  }

  /** The number that decimal digits stand for. */
  function Value(s: string): int {
    if s == "" then 0 else Value(s[..|s| - 1]) * 10 + (s[|s| - 1] as int - '0' as int)
  }

  lemma DigitValue(d: nat)
    requires d < 10
    ensures Digit(d) as int - '0' as int == d
  {
  }

  /** Printed ids read back as themselves. */
  lemma {:induction false} ItoaValue(n: nat)
    ensures Value(Itoa(n)) == n
  {
    var s := Itoa(n);
    DigitValue(n % 10);
    if n < 10 {
      assert s[..0] == "";
    } else {
      ItoaValue(n / 10);
      assert s[..|s| - 1] == Itoa(n / 10);
    }
  }

  /** What the names look like. */
  lemma NamesExample()
    ensures var v := Vlan("ens4", 5);
      && Key("", v) == "gcp.ens4.5" && Key("a", v) == "a-gcp.ens4.5"
      && DirOf("a", v) == "10-netplan-a-gcp.ens4.5" + ".network.d"
  {
    assert Itoa(5) == "5";
  }

  lemma DigitInjective(a: nat, b: nat)
    requires a < 10 && b < 10 && Digit(a) == Digit(b)
    ensures a == b
  {
  }

  lemma {:induction false} ItoaInjective(m: nat, n: nat)
    requires Itoa(m) == Itoa(n)
    ensures m == n
    decreases m
  {
    if m < 10 {
      if n >= 10 { ItoaDigits(n / 10); }
      DigitInjective(m, n);
    } else {
      ItoaDigits(m / 10);
      if n >= 10 {
        var s, t := Itoa(m), Itoa(n);
        assert s[..|s| - 1] == Itoa(m / 10) && t[..|t| - 1] == Itoa(n / 10);
        assert s[|s| - 1] == Digit(m % 10) && t[|t| - 1] == Digit(n % 10);
        ItoaInjective(m / 10, n / 10);
        DigitInjective(m % 10, n % 10);
      }
    }
  }

  /** A text is cut uniquely at the last occurrence of a character. */
  lemma CutAtLast(a: string, x: string, b: string, y: string, c: char)
    requires a + [c] + x == b + [c] + y && c !in x && c !in y
    ensures a == b && x == y
  {
    var s, t := a + [c] + x, b + [c] + y;
    assert s[|a|] == c && t[|b|] == c;
    assert forall i | |a| < i < |s| :: s[i] == x[i - |a| - 1];
    assert forall i | |b| < i < |t| :: t[i] == y[i - |b| - 1];
    assert |a| == |b|;
    assert a == s[..|a|] && b == t[..|b|];
    assert x == s[|a| + 1..] && y == t[|b| + 1..];
  }

  lemma NameInjective(v: Vlan, w: Vlan)
    requires VlanInterfaceName(v) == VlanInterfaceName(w)
    ensures v == w
  {
    ItoaDigits(v.id);
    ItoaDigits(w.id);
    CutAtLast("gcp." + v.parent, Itoa(v.id), "gcp." + w.parent, Itoa(w.id), '.');
    assert ("gcp." + v.parent)[4..] == v.parent && ("gcp." + w.parent)[4..] == w.parent;
    ItoaInjective(v.id, w.id);
  }

  lemma IDInjective(prefix: string, a: string, b: string)
    requires ID(prefix, a) == ID(prefix, b)
    ensures a == b
  {
    assert (prefix + "-" + a)[|prefix| + 1..] == a;
    assert (prefix + "-" + b)[|prefix| + 1..] == b;
  }

  /** Different VLANs have different names, whatever their parents are called. */
  lemma KeyInjective(prefix: string, v: Vlan, w: Vlan)
    requires Key(prefix, v) == Key(prefix, w)
    ensures v == w
  {
    IDInjective(prefix, VlanInterfaceName(v), VlanInterfaceName(w));
    NameInjective(v, w);
  }

  lemma RemovalIdInjective(v: Vlan, w: Vlan)
    requires RemovalId(v) == RemovalId(w)
    ensures v == w
  {
    ItoaDigits(v.id);
    ItoaDigits(w.id);
    CutAtLast(v.parent, Itoa(v.id), w.parent, Itoa(w.id), '-');
    ItoaInjective(v.id, w.id);
  }

  /** Reading the interface back from a link undoes writing it. */
  lemma LinkRoundTrip(prefix: string, iface: string)
    ensures InterfaceFromLink(prefix, ID(prefix, iface)) == iface
  {
    assert (prefix + "-" + iface)[|prefix + "-"|..] == iface;
  }

  /** Writer and removal mean the same directory. */
  lemma DirsAgree(prefix: string, iface: string)
    ensures NetworkdDir(prefix, iface) == RollbackDir(ID(prefix, iface))
  {
    assert "10-netplan-" + prefix + "-" + iface + ".network.d" == "10-netplan-" + (prefix + "-" + iface) + ".network.d";
  }

  lemma DirInjective(a: string, b: string)
    requires RollbackDir(a) == RollbackDir(b)
    ensures a == b
  {
    var head, tail := "10-netplan-", ".network.d";
    assert RollbackDir(a)[|head|..|RollbackDir(a)| - |tail|] == a;
    assert RollbackDir(b)[|head|..|RollbackDir(b)| - |tail|] == b;
  }

  // ---- configuration files ----

  /** A VLAN interface as metadata describes it. */
  datatype Nic = Nic(vlan: Vlan, mac: string, mtu: int, ipv6: seq<string>, dhcpv6Refresh: string)

  /** An entry of netplan's drop-in; DHCPv4 and the overrides are constant. */
  datatype NetplanVlan = NetplanVlan(id: nat, link: string, dhcpv6: bool, mac: string, mtu: int)

  /** networkd's override.conf; the remaining settings are constant. */
  datatype NetworkdDropin = NetworkdDropin(name: string, dhcp: string)

  /** The override.conf of a directory, None when it is missing or unreadable. */
  type Override = Option<NetworkdDropin>

  datatype Files = Files(dropin: Option<map<string, NetplanVlan>>, networkd: map<string, Override>)

  function EntryOf(prefix: string, nic: Nic): NetplanVlan {
    NetplanVlan(nic.vlan.id, ID(prefix, nic.vlan.parent), |nic.ipv6| > 0, nic.mac, nic.mtu)
  }

  function NetworkdOf(prefix: string, nic: Nic): Override {
    Some(NetworkdDropin(Key(prefix, nic.vlan), if nic.dhcpv6Refresh != "" then "yes" else "ipv4"))
  }

  function DirOf(prefix: string, v: Vlan): string {
    NetworkdDir(prefix, VlanInterfaceName(v))
  }

  function VlanOf(prefix: string, entry: NetplanVlan): Vlan {
    Vlan(InterfaceFromLink(prefix, entry.link), entry.id)
  }

  lemma DirOfInjective(prefix: string, v: Vlan, w: Vlan)
    requires DirOf(prefix, v) == DirOf(prefix, w)
    ensures v == w
  {
    DirsAgree(prefix, VlanInterfaceName(v));
    DirsAgree(prefix, VlanInterfaceName(w));
    DirInjective(Key(prefix, v), Key(prefix, w));
    KeyInjective(prefix, v, w);
  }

  // ---- files keyed by printed names ----

  ghost predicate Injective(f: Vlan -> string) {
    forall v, w :: f(v) == f(w) ==> v == w
  }

  ghost function Image(f: Vlan -> string, vs: set<Vlan>): set<string> {
    set v | v in vs :: f(v)
  }

  ghost function Inverse(f: Vlan -> string, vs: set<Vlan>, k: string): (v: Vlan)
    requires k in Image(f, vs)
    ensures v in vs && f(v) == k
  {
    var v :| v in vs && f(v) == k; v
  }

  /** A map over VLANs, with printed names for keys. */
  ghost function Printed<T>(f: Vlan -> string, m: map<Vlan, T>): (p: map<string, T>)
    requires Injective(f)
    ensures p.Keys == Image(f, m.Keys)
    ensures forall v | v in m :: f(v) in p && p[f(v)] == m[v]
  {
    map k | k in Image(f, m.Keys) :: m[Inverse(f, m.Keys, k)]
  }

  lemma ImageMember(f: Vlan -> string, vs: set<Vlan>, v: Vlan)
    requires Injective(f)
    ensures f(v) in Image(f, vs) <==> v in vs
  {
  }

  lemma PrintedMinus<T>(f: Vlan -> string, m: map<Vlan, T>, vs: set<Vlan>)
    requires Injective(f)
    ensures Printed(f, m) - Image(f, vs) == Printed(f, m - vs)
  {
    var a, b := Printed(f, m) - Image(f, vs), Printed(f, m - vs);
    forall k ensures k in a <==> k in b {
      if v :| v in m && f(v) == k {
        ImageMember(f, vs, v);
        ImageMember(f, (m - vs).Keys, v);
      }
    }
    forall k | k in a ensures a[k] == b[k] {
      var v :| v in m && f(v) == k;
      ImageMember(f, vs, v);
      assert v in m - vs;
    }
  }

  lemma PrintedAt<T>(f: Vlan -> string, m: map<Vlan, T>, v: Vlan)
    requires Injective(f)
    ensures f(v) in Printed(f, m) <==> v in m
    ensures v in m ==> Printed(f, m)[f(v)] == m[v]
  {
    ImageMember(f, m.Keys, v);
  }

  lemma ImageUnion(f: Vlan -> string, a: set<Vlan>, b: set<Vlan>)
    ensures Image(f, a) + Image(f, b) == Image(f, a + b)
  {
  }

  lemma PrintedEmpty<T>(f: Vlan -> string, m: map<Vlan, T>)
    requires Injective(f)
    ensures Printed(f, m) == map[] <==> m == map[]
  {
    if v :| v in m {
      assert f(v) in Printed(f, m);
    }
  }

  // ---- what one setup does to the files ----

  /** The printed names and entries, as functions. */
  datatype Names = Names(
    key: Vlan -> string,         // in the drop-in, and the name of the link
    dir: Vlan -> string,         // the networkd directory, as the writer names it
    rollbackDir: Vlan -> string, // the same, as the removal names it
    removalId: Vlan -> string,   // in the list of VLANs to be removed
    entry: Nic -> NetplanVlan,
    networkd: Nic -> Override,
    vlanOf: NetplanVlan -> Vlan)

  function NamesFor(prefix: string): Names {
    Names(v => Key(prefix, v), v => DirOf(prefix, v),
          v => RollbackDir(Key(prefix, v)), v => RemovalId(v),
          nic => EntryOf(prefix, nic), nic => NetworkdOf(prefix, nic),
          entry => VlanOf(prefix, entry))
  }

  /** Different VLANs have different names, both names of a directory agree,
      and an entry tells its VLAN. */
  ghost predicate Sound(n: Names) {
    && Injective(n.key) && Injective(n.dir) && Injective(n.removalId)
    && (forall v :: n.rollbackDir(v) == n.dir(v))
    && (forall nic :: n.vlanOf(n.entry(nic)) == nic.vlan)
  }

  /** The agent's printed names are sound for every interface prefix. */
  lemma NamesSound(prefix: string)
    ensures Sound(NamesFor(prefix))
  {
    var n := NamesFor(prefix);
    forall v, w | n.key(v) == n.key(w) ensures v == w {
      KeyInjective(prefix, v, w);
    }
    forall v, w | n.dir(v) == n.dir(w) ensures v == w {
      DirOfInjective(prefix, v, w);
    }
    forall v, w | n.removalId(v) == n.removalId(w) ensures v == w {
      RemovalIdInjective(v, w);
    }
    forall v ensures n.rollbackDir(v) == n.dir(v) {
      DirsAgree(prefix, VlanInterfaceName(v));
    }
    forall nic ensures n.vlanOf(n.entry(nic)) == nic.vlan {
      LinkRoundTrip(prefix, nic.vlan.parent);
    }
  }

  /** A set of interfaces with distinct parents and ids. */
  type Nics = m: map<Vlan, Nic> | forall v | v in m :: m[v].vlan == v

  ghost function Entries(n: Names, nics: Nics): map<Vlan, NetplanVlan> {
    map v | v in nics :: n.entry(nics[v])
  }

  ghost function Overrides(n: Names, nics: Nics): map<Vlan, Override> {
    map v | v in nics :: n.networkd(nics[v])
  }

  function Existing(files: Files): map<string, NetplanVlan> {
    if files.dropin.Some? then files.dropin.value else map[]
  }

  /** The VLANs listed in the drop-in under a key that is not to be kept. */
  ghost function Stale(n: Names, files: Files, want: Nics): set<Vlan> {
    set k | k in Existing(files) && k !in Image(n.key, want.Keys) :: n.vlanOf(Existing(files)[k])
  }

  ghost function RolledBack(n: Names, files: Files, stale: set<Vlan>): Files {
    if stale == {} then files
    else
      var left := Existing(files) - Image(n.key, stale);
      Files(if left == map[] then None else Some(left), files.networkd - Image(n.dir, stale))
  }

  ghost function WrittenDropin(n: Names, files: Files, want: Nics): Option<map<string, NetplanVlan>>
    requires Sound(n)
  {
    if want == map[] then files.dropin else Some(Printed(n.key, Entries(n, want)))
  }

  ghost function WrittenNetworkd(n: Names, files: Files, want: Nics): map<string, Override>
    requires Sound(n)
  {
    files.networkd + Printed(n.dir, Overrides(n, want))
  }

  ghost function Written(n: Names, files: Files, want: Nics): Files
    requires Sound(n)
  {
    Files(WrittenDropin(n, files, want), WrittenNetworkd(n, files, want))
  }

  ghost function SetUp(n: Names, files: Files, want: Nics): Files
    requires Sound(n)
  {
    Written(n, RolledBack(n, files, Stale(n, files, want)), want)
  }

  /** Nothing is stale and everything desired is already written. */
  ghost predicate Settled(n: Names, files: Files, want: Nics)
    requires Sound(n)
  {
    Stale(n, files, want) == {} && Written(n, files, want) == files
  }

  /** What a setup may leave behind when it fails at some point: the drop-in as
      it was, rolled back or written, and changes only to directories of VLANs
      that were to go or to be set up. */
  ghost predicate Leaves(n: Names, files: Files, want: Nics, after: Files)
    requires Sound(n)
  {
    var stale := Stale(n, files, want);
    var rolled := RolledBack(n, files, stale);
    && (after.dropin == files.dropin || after.dropin == rolled.dropin || after.dropin == WrittenDropin(n, rolled, want))
    && SameOutside(files.networkd, after.networkd, Image(n.dir, stale + want.Keys))
  }

  ghost predicate SameOutside<K, T>(a: map<K, T>, b: map<K, T>, ks: set<K>) {
    a - ks == b - ks
  }

  // ---- theorems ----

  /** The drop-in for exactly these interfaces. */
  ghost function DropinFor(n: Names, nics: Nics): Option<map<string, NetplanVlan>>
    requires Sound(n)
  {
    if nics == map[] then None else Some(Printed(n.key, Entries(n, nics)))
  }

  /** The networkd directories for exactly these interfaces. */
  ghost function NetworkdFor(n: Names, nics: Nics): map<string, Override>
    requires Sound(n)
  {
    Printed(n.dir, Overrides(n, nics))
  }

  lemma ExistingFor(n: Names, files: Files, had: Nics)
    requires Sound(n) && files.dropin == DropinFor(n, had)
    ensures Existing(files) == Printed(n.key, Entries(n, had))
  {
    if had == map[] {
      assert Entries(n, had) == map[];
      PrintedEmpty(n.key, Entries(n, had));
    }
  }

  /** Over the drop-in the agent wrote for had, exactly the VLANs of had that are
      not in want are stale: no name collides, and no parent is lost in the link. */
  lemma StaleIsDropped(n: Names, files: Files, had: Nics, want: Nics)
    requires Sound(n) && files.dropin == DropinFor(n, had)
    ensures Stale(n, files, want) == had.Keys - want.Keys
  {
    ExistingFor(n, files, had);
    var existing := Printed(n.key, Entries(n, had));
    forall v | v in Stale(n, files, want) ensures v in had.Keys - want.Keys {
      var k :| k in existing && k !in Image(n.key, want.Keys) && n.vlanOf(existing[k]) == v;
      var h :| h in Entries(n, had).Keys && n.key(h) == k;
      StaleAt(n, had, want, h);
    }
    forall v | v in had.Keys - want.Keys ensures v in Stale(n, files, want) {
      StaleAt(n, had, want, v);
      assert n.key(v) in existing && n.key(v) !in Image(n.key, want.Keys) && n.vlanOf(existing[n.key(v)]) == v;
    }
  }

  lemma StaleAt(n: Names, had: Nics, want: Nics, h: Vlan)
    requires Sound(n) && h in had
    ensures var existing := Printed(n.key, Entries(n, had));
      && n.key(h) in existing && n.vlanOf(existing[n.key(h)]) == h
      && (n.key(h) in Image(n.key, want.Keys) <==> h in want)
  {
    PrintedAt(n.key, Entries(n, had), h);
    ImageMember(n.key, want.Keys, h);
    assert had[h].vlan == h;
  }

  lemma EntriesMinus(n: Names, had: Nics, stale: set<Vlan>)
    ensures Entries(n, had) - stale == Entries(n, had - stale)
    ensures Entries(n, had - stale) == map[] <==> had - stale == map[]
  {
    assert Entries(n, had - stale).Keys == (had - stale).Keys;
  }

  lemma ExistingMinus(n: Names, files: Files, had: Nics, stale: set<Vlan>)
    requires Sound(n) && files.dropin == DropinFor(n, had)
    ensures Existing(files) - Image(n.key, stale) == Printed(n.key, Entries(n, had - stale))
  {
    ExistingFor(n, files, had);
    PrintedMinus(n.key, Entries(n, had), stale);
    EntriesMinus(n, had, stale);
  }

  /** Rolling back takes the stale interfaces out of the drop-in, and removes the
      file when none is left. */
  lemma RolledBackDropin(n: Names, files: Files, had: Nics, stale: set<Vlan>)
    requires Sound(n) && files.dropin == DropinFor(n, had)
    ensures RolledBack(n, files, stale).dropin == DropinFor(n, had - stale)
  {
    if stale == {} {
      assert had - stale == had;
    } else {
      ExistingMinus(n, files, had, stale);
      EntriesMinus(n, had, stale);
      PrintedEmpty(n.key, Entries(n, had - stale));
    }
  }

  /** After a setup the drop-in lists exactly the wanted interfaces, and is absent
      when there are none, whatever the directories were. */
  lemma DropinConverges(n: Names, files: Files, had: Nics, want: Nics)
    requires Sound(n) && files.dropin == DropinFor(n, had)
    ensures SetUp(n, files, want).dropin == DropinFor(n, want)
  {
    StaleIsDropped(n, files, had, want);
    RolledBackDropin(n, files, had, had.Keys - want.Keys);
    if want == map[] {
      assert had - (had.Keys - want.Keys) == map[];
    }
  }

  lemma Absorbed<K, T>(a: map<K, T>, gone: set<K>, b: map<K, T>)
    ensures (a - gone) + b == b <==> a.Keys <= gone + b.Keys
  {
    var m := a - gone;
    if m + b == b {
      forall k | k in a.Keys ensures k in gone + b.Keys {
        if k !in gone {
          assert k in m + b;
        }
      }
    }
    if a.Keys <= gone + b.Keys {
      assert (m + b).Keys == b.Keys;
    }
  }

  lemma RolledBackNetworkd(n: Names, files: Files, stale: set<Vlan>)
    ensures RolledBack(n, files, stale).networkd == files.networkd - Image(n.dir, stale)
  {
    assert files.networkd - {} == files.networkd;
  }

  lemma NetworkdKeys(n: Names, want: Nics)
    requires Sound(n)
    ensures NetworkdFor(n, want).Keys == Image(n.dir, want.Keys)
  {
    assert Overrides(n, want).Keys == want.Keys;
  }

  lemma ImageCovers(f: Vlan -> string, had: set<Vlan>, want: set<Vlan>)
    ensures Image(f, had - want) + Image(f, want) == Image(f, had + want)
  {
    ImageUnion(f, had - want, want);
    assert had - want + want == had + want;
  }

  /** The directories are then exactly those of the wanted interfaces if and only
      if every directory there was belongs to one of these or to one that the
      drop-in listed. */
  lemma DirectoriesConverge(n: Names, files: Files, had: Nics, want: Nics)
    requires Sound(n) && files.dropin == DropinFor(n, had)
    ensures SetUp(n, files, want).networkd == NetworkdFor(n, want)
       <==> files.networkd.Keys <= Image(n.dir, had.Keys + want.Keys)
  {
    var stale := had.Keys - want.Keys;
    StaleIsDropped(n, files, had, want);
    RolledBackNetworkd(n, files, stale);
    assert SetUp(n, files, want).networkd == (files.networkd - Image(n.dir, stale)) + NetworkdFor(n, want);
    NetworkdKeys(n, want);
    ImageCovers(n.dir, had.Keys, want.Keys);
    Absorbed(files.networkd, Image(n.dir, stale), NetworkdFor(n, want));
  }

  /** After which nothing is stale and nothing remains to be written. */
  lemma SetUpSettles(n: Names, files: Files, had: Nics, want: Nics)
    requires Sound(n) && files.dropin == DropinFor(n, had)
    ensures Settled(n, SetUp(n, files, want), want)
  {
    var after := SetUp(n, files, want);
    DropinConverges(n, files, had, want);
    StaleIsDropped(n, after, want, want);
    assert want.Keys - want.Keys == {};
    AbsorbedTwice(RolledBack(n, files, Stale(n, files, want)).networkd, NetworkdFor(n, want));
  }

  lemma AbsorbedTwice<K, T>(a: map<K, T>, b: map<K, T>)
    ensures a + b + b == a + b
  {
  }

  // ---- what the files say ----

  /** netplan's drop-in has this VLAN on this interface, as metadata describes it. */
  ghost predicate EntryTells(prefix: string, files: Files, nic: Nic) {
    files.dropin.Some? && Key(prefix, nic.vlan) in files.dropin.value &&
    var entry := files.dropin.value[Key(prefix, nic.vlan)];
    && entry.id == nic.vlan.id && entry.mac == nic.mac && entry.mtu == nic.mtu
    && entry.link == (if prefix == "" then nic.vlan.parent else prefix + "-" + nic.vlan.parent)
    && (entry.dhcpv6 <==> nic.ipv6 != [])
  }

  /** networkd has an override for its link: DHCP for both families exactly when
      metadata asks for a refresh of DHCPv6, for IPv4 alone otherwise. */
  ghost predicate OverrideTells(prefix: string, files: Files, nic: Nic) {
    DirOf(prefix, nic.vlan) in files.networkd &&
    var override := files.networkd[DirOf(prefix, nic.vlan)];
    && override.Some? && override.value.name == Key(prefix, nic.vlan)
    && (override.value.dhcp == "yes" <==> nic.dhcpv6Refresh != "")
    && (override.value.dhcp == "ipv4" <==> nic.dhcpv6Refresh == "")
  }

  /** The agent's drop-in for a set of interfaces tells each of them, and has an
      entry for no other. */
  lemma DropinTells(prefix: string, files: Files, want: Nics, v: Vlan)
    requires Sound(NamesFor(prefix)) && files.dropin == DropinFor(NamesFor(prefix), want)
    ensures v in want ==> EntryTells(prefix, files, want[v])
    ensures Key(prefix, v) in Existing(files) <==> v in want
  {
    var n := NamesFor(prefix);
    ExistingFor(n, files, want);
    PrintedAt(n.key, Entries(n, want), v);
    assert n.key(v) == Key(prefix, v);
    if v in want {
      assert want[v].vlan == v && n.entry(want[v]) == EntryOf(prefix, want[v]);
    }
  }

  lemma OverrideHeld(prefix: string, files: Files, nic: Nic)
    requires DirOf(prefix, nic.vlan) in files.networkd
    requires files.networkd[DirOf(prefix, nic.vlan)] == NamesFor(prefix).networkd(nic)
    ensures OverrideTells(prefix, files, nic)
  {
    assert NamesFor(prefix).networkd(nic) == NetworkdOf(prefix, nic);
    assert "yes"[0] != "ipv4"[0];
  }

  // ---- histories with failures ----

  /** The agent's own drop-in, for some set of interfaces. */
  ghost predicate AgentDropin(n: Names, files: Files)
    requires Sound(n)
  {
    exists had: Nics :: files.dropin == DropinFor(n, had)
  }

  /** The VLANs that the drop-in lists. */
  ghost function Listed(n: Names, files: Files): set<Vlan> {
    set k | k in Existing(files) :: n.vlanOf(Existing(files)[k])
  }

  lemma ListedFor(n: Names, files: Files, had: Nics)
    requires Sound(n) && files.dropin == DropinFor(n, had)
    ensures Listed(n, files) == had.Keys
  {
    var none: Nics := map[];
    StaleIsDropped(n, files, had, none);
    assert Image(n.key, none.Keys) == {};
    assert Listed(n, files) == Stale(n, files, none);
    assert had.Keys - none.Keys == had.Keys;
  }

  /** Whatever a setup leaves, the drop-in is still one of the agent's, and lists
      nothing that was neither listed nor wanted. */
  lemma LeavesAgentDropin(n: Names, files: Files, had: Nics, want: Nics, after: Files) returns (now: Nics)
    requires Sound(n) && files.dropin == DropinFor(n, had) && Leaves(n, files, want, after)
    ensures after.dropin == DropinFor(n, now) && now.Keys <= had.Keys + want.Keys
  {
    StaleIsDropped(n, files, had, want);
    RolledBackDropin(n, files, had, had.Keys - want.Keys);
    if after.dropin == files.dropin {
      now := had;
    } else if after.dropin == RolledBack(n, files, had.Keys - want.Keys).dropin {
      now := had - (had.Keys - want.Keys);
    } else {
      now := want;
    }
  }

  /** The files after each of a sequence of setups, finished or not. */
  ghost predicate History(n: Names, states: seq<Files>, wants: seq<Nics>)
    requires Sound(n)
  {
    |states| == |wants| + 1 && forall i | 0 <= i < |wants| :: Leaves(n, states[i], wants[i], states[i + 1])
  }

  /** Over every history of setups that fail or succeed, the drop-in stays one of
      the agent's own. */
  lemma {:induction false} HistoryKeepsDropin(n: Names, states: seq<Files>, wants: seq<Nics>, i: nat)
    returns (had: Nics)
    requires Sound(n) && History(n, states, wants) && AgentDropin(n, states[0]) && i < |states|
    ensures states[i].dropin == DropinFor(n, had)
  {
    if i == 0 {
      had :| states[0].dropin == DropinFor(n, had);
    } else {
      var before := HistoryKeepsDropin(n, states, wants, i - 1);
      had := LeavesAgentDropin(n, states[i - 1], before, wants[i - 1], states[i]);
    }
  }

  /** No directory belongs to a VLAN that is neither wanted nor listed. */
  ghost predicate NoLeak(n: Names, files: Files, want: Nics) {
    files.networkd.Keys <= Image(n.dir, Listed(n, files) + want.Keys)
  }

  /** A setup over the agent's own drop-in leaves the drop-in exactly as wanted
      and is settled; it leaves exactly the wanted directories if and only if
      none had leaked. */
  ghost predicate Converges(n: Names, files: Files, want: Nics)
    requires Sound(n)
  {
    && SetUp(n, files, want).dropin == DropinFor(n, want)
    && Stale(n, files, want) == Listed(n, files) - want.Keys
    && (SetUp(n, files, want).networkd == NetworkdFor(n, want) <==> NoLeak(n, files, want))
    && Settled(n, SetUp(n, files, want), want)
  }

  lemma SetUpOverOwn(n: Names, files: Files, want: Nics)
    requires Sound(n) && AgentDropin(n, files)
    ensures Converges(n, files, want)
  {
    var had: Nics :| files.dropin == DropinFor(n, had);
    ListedFor(n, files, had);
    StaleIsDropped(n, files, had, want);
    DropinConverges(n, files, had, want);
    DirectoriesConverge(n, files, had, want);
    SetUpSettles(n, files, had, want);
  }

  /** So it does after any history of setups that failed or succeeded. */
  lemma SetUpConverges(n: Names, states: seq<Files>, wants: seq<Nics>, want: Nics)
    requires Sound(n) && History(n, states, wants) && AgentDropin(n, states[0])
    ensures Converges(n, states[|wants|], want)
  {
    var had := HistoryKeepsDropin(n, states, wants, |wants|);
    SetUpOverOwn(n, states[|wants|], want);
  }

  /** A directory leaks when its removal fails after the drop-in was rolled back.
      It then stays, as it is, through every history in which its VLAN is not
      wanted again. */
  lemma {:induction false} LeakStays(n: Names, states: seq<Files>, wants: seq<Nics>, v: Vlan, i: nat)
    returns (had: Nics)
    requires Sound(n) && History(n, states, wants) && AgentDropin(n, states[0]) && i < |states|
    requires n.dir(v) in states[0].networkd && v !in Listed(n, states[0])
    requires forall j | 0 <= j < |wants| :: v !in wants[j]
    ensures states[i].dropin == DropinFor(n, had) && v !in had
    ensures n.dir(v) in states[i].networkd && states[i].networkd[n.dir(v)] == states[0].networkd[n.dir(v)]
  {
    if i == 0 {
      had :| states[0].dropin == DropinFor(n, had);
      ListedFor(n, states[0], had);
    } else {
      var before := LeakStays(n, states, wants, v, i - 1);
      had := LeavesAgentDropin(n, states[i - 1], before, wants[i - 1], states[i]);
      LeakKept(n, states[i - 1], before, wants[i - 1], states[i], v);
    }
  }

  lemma LeakKept(n: Names, files: Files, had: Nics, want: Nics, after: Files, v: Vlan)
    requires Sound(n) && files.dropin == DropinFor(n, had) && Leaves(n, files, want, after)
    requires v !in had && v !in want && n.dir(v) in files.networkd
    ensures n.dir(v) in after.networkd && after.networkd[n.dir(v)] == files.networkd[n.dir(v)]
  {
    var ks := Image(n.dir, Stale(n, files, want) + want.Keys);
    StaleIsDropped(n, files, had, want);
    ImageMember(n.dir, Stale(n, files, want) + want.Keys, v);
    assert n.dir(v) in files.networkd - ks;
    assert (files.networkd - ks)[n.dir(v)] == files.networkd[n.dir(v)];
    assert (after.networkd - ks)[n.dir(v)] == after.networkd[n.dir(v)];
  }

  /** The files after the agent has set up exactly these interfaces. */
  ghost function AgentFiles(n: Names, nics: Nics): Files
    requires Sound(n)
  {
    Files(DropinFor(n, nics), NetworkdFor(n, nics))
  }
}
