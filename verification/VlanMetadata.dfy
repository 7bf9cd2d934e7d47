/** VLAN descriptors from the metadata server, brought into the form the network
    managers take. */
module VlanMetadata {
  import opened Netplan
  import opened NetplanManager

  datatype Record = Record(vlan: nat, mac: string, mtu: int, ipv6: seq<string>, dhcpv6Refresh: string)

  /** By index of the parent interface, then by VLAN id. */
  type Descriptor = map<nat, map<nat, Record>>

  function MapId(parent: nat, id: nat): string {
    Itoa(parent) + "-" + Itoa(id)
  }

  function NicOf(r: Record, parent: string): Nic {
    Nic(Vlan(parent, r.vlan), r.mac, r.mtu, r.ipv6, r.dhcpv6Refresh)
  }

  ghost predicate Given(mds: Descriptor, p: nat, v: nat) {
    p in mds && v in mds[p]
  }

  lemma MapIdInjective(p: nat, v: nat, q: nat, w: nat)
    requires MapId(p, v) == MapId(q, w)
    ensures p == q && v == w
  {
    ItoaDigits(v);
    ItoaDigits(w);
    CutAtLast(Itoa(p), Itoa(v), Itoa(q), Itoa(w), '-');
    ItoaInjective(p, q);
    ItoaInjective(v, w);
  }

  /** nics holds this record. */
  ghost predicate Held(nics: map<string, Nic>, id: string, nic: Nic) {
    id in nics && nics[id] == nic
  }

  ghost predicate HeldFor(nics: map<string, Nic>, p: nat, vlans: map<nat, Record>, name: string, done: set<nat>) {
    forall v | v in done && v in vlans :: Held(nics, MapId(p, v), NicOf(vlans[v], name))
  }

  /** Every entry of nics comes from a record. */
  ghost predicate FromRecords(nics: map<string, Nic>, mds: Descriptor) {
    forall k | k in nics :: exists p, v :: Given(mds, p, v) && k == MapId(p, v)
  }

  lemma HeldForStep(nics: map<string, Nic>, p: nat, vlans: map<nat, Record>, name: string, done: set<nat>, v: nat)
    requires HeldFor(nics, p, vlans, name, done) && v in vlans
    ensures HeldFor(nics[MapId(p, v) := NicOf(vlans[v], name)], p, vlans, name, done + {v})
  {
    forall w | w in done && w in vlans && w != v ensures MapId(p, w) != MapId(p, v) {
      if MapId(p, w) == MapId(p, v) {
        MapIdInjective(p, w, p, v);
      }
    }
  }

  lemma HeldForOther(nics: map<string, Nic>, q: nat, vlans: map<nat, Record>, name: string, p: nat, v: nat, nic: Nic)
    requires HeldFor(nics, q, vlans, name, vlans.Keys) && q != p
    ensures HeldFor(nics[MapId(p, v) := nic], q, vlans, name, vlans.Keys)
  {
    forall w | w in vlans ensures MapId(q, w) != MapId(p, v) {
      if MapId(q, w) == MapId(p, v) {
        MapIdInjective(q, w, p, v);
      }
    }
  }

  lemma FromRecordsStep(nics: map<string, Nic>, mds: Descriptor, p: nat, v: nat, nic: Nic)
    requires FromRecords(nics, mds) && Given(mds, p, v)
    ensures FromRecords(nics[MapId(p, v) := nic], mds)
  {
  }

  /** Everything under the parents in done is held. */
  ghost predicate ParentsHeld(nics: map<string, Nic>, mds: Descriptor, eth: seq<string>, done: set<nat>) {
    forall q | q in done && q in mds && q < |eth| :: HeldFor(nics, q, mds[q], eth[q], mds[q].Keys)
  }

  lemma ParentsHeldOther(nics: map<string, Nic>, mds: Descriptor, eth: seq<string>, done: set<nat>,
                         p: nat, v: nat, nic: Nic)
    requires ParentsHeld(nics, mds, eth, done) && p !in done
    ensures ParentsHeld(nics[MapId(p, v) := nic], mds, eth, done)
  {
    forall q | q in done && q in mds && q < |eth|
      ensures HeldFor(nics[MapId(p, v) := nic], q, mds[q], eth[q], mds[q].Keys)
    {
      HeldForOther(nics, q, mds[q], eth[q], p, v, nic);
    }
  }

  /** The inner loop of reformatVlanNics. */
  method AddParent(nics0: map<string, Nic>, mds: Descriptor, eth: seq<string>, p: nat, ghost done: set<nat>)
    returns (nics: map<string, Nic>)
    requires p in mds && p < |eth| && p !in done
    requires ParentsHeld(nics0, mds, eth, done) && FromRecords(nics0, mds)
    ensures ParentsHeld(nics, mds, eth, done) && FromRecords(nics, mds)
    ensures HeldFor(nics, p, mds[p], eth[p], mds[p].Keys)
  {
    nics := nics0;
    var vlans := mds[p];
    var todo := vlans.Keys;
    while todo != {}
      invariant todo <= vlans.Keys
      invariant ParentsHeld(nics, mds, eth, done) && FromRecords(nics, mds)
      invariant HeldFor(nics, p, vlans, eth[p], vlans.Keys - todo)
    {
      var v :| v in todo;
      var nic := NicOf(vlans[v], eth[p]);
      HeldForStep(nics, p, vlans, eth[p], vlans.Keys - todo, v);
      assert vlans.Keys - (todo - {v}) == vlans.Keys - todo + {v};
      ParentsHeldOther(nics, mds, eth, done, p, v, nic);
      FromRecordsStep(nics, mds, p, v, nic);
      todo := todo - {v};
      nics := nics[MapId(p, v) := nic];
    }
    assert vlans.Keys - {} == vlans.Keys;
  }

  /** reformatVlanNics: fails exactly when a parent index is out of range, and
      otherwise holds exactly the records of the descriptor. */
  method ReformatVlanNics(mds: Descriptor, eth: seq<string>) returns (nics: map<string, Nic>, err: bool)
    ensures err <==> exists p | p in mds :: p >= |eth|
    ensures !err ==> ParentsHeld(nics, mds, eth, mds.Keys) && FromRecords(nics, mds)
  {
    nics := map[];
    var todo := mds.Keys;
    while todo != {}
      invariant todo <= mds.Keys
      invariant forall p | p in mds && p !in todo :: p < |eth|
      invariant ParentsHeld(nics, mds, eth, mds.Keys - todo) && FromRecords(nics, mds)
    {
      var p :| p in todo;
      if p >= |eth| {
        return nics, true;
      }
      nics := AddParent(nics, mds, eth, p, mds.Keys - todo);
      todo := todo - {p};
    }
    assert mds.Keys - {} == mds.Keys;
    return nics, false;
  }

  ghost predicate Distinct(eth: seq<string>) {
    forall i, j | 0 <= i < |eth| && 0 <= j < |eth| && eth[i] == eth[j] :: i == j
  }

  /** Every record carries the id it is listed under. */
  ghost predicate OwnRecordIds(mds: Descriptor) {
    forall p, v | Given(mds, p, v) :: mds[p][v].vlan == v
  }

  lemma RecordOf(nics: map<string, Nic>, mds: Descriptor, eth: seq<string>, k: string) returns (p: nat, v: nat)
    requires ParentsHeld(nics, mds, eth, mds.Keys) && FromRecords(nics, mds)
    requires (forall q | q in mds :: q < |eth|) && k in nics
    ensures Given(mds, p, v) && k == MapId(p, v) && nics[k] == NicOf(mds[p][v], eth[p])
  {
    p, v :| Given(mds, p, v) && k == MapId(p, v);
    assert HeldFor(nics, p, mds[p], eth[p], mds[p].Keys);
    assert Held(nics, MapId(p, v), NicOf(mds[p][v], eth[p]));
  }

  /** With distinct interfaces, reformatting yields descriptors of which no two
      claim the same parent and id. */
  lemma ReformattedDistinct(nics: map<string, Nic>, mds: Descriptor, eth: seq<string>)
    requires ParentsHeld(nics, mds, eth, mds.Keys) && FromRecords(nics, mds)
    requires (forall q | q in mds :: q < |eth|) && Distinct(eth) && OwnRecordIds(mds)
    ensures DistinctNics(nics)
  {
    forall i, j | i in nics && j in nics && nics[i].vlan == nics[j].vlan ensures nics[i] == nics[j] {
      var p, v := RecordOf(nics, mds, eth, i);
      var q, w := RecordOf(nics, mds, eth, j);
      assert eth[p] == eth[q] && mds[p][v].vlan == mds[q][w].vlan;
    }
    assert forall i, j :: NoClash(nics, i, j);
  }

  // ---- from metadata to the files ----

  /** The interface that this record describes. */
  ghost predicate Describes(nic: Nic, parent: string, id: nat, r: Record) {
    && nic.vlan == Vlan(parent, id) && nic.mac == r.mac && nic.mtu == r.mtu
    && nic.ipv6 == r.ipv6 && nic.dhcpv6Refresh == r.dhcpv6Refresh
  }

  /** Both files have this record, under its parent's name and its id. */
  ghost predicate Configured(prefix: string, files: Files, parent: string, id: nat, r: Record) {
    exists nic :: Describes(nic, parent, id, r) && EntryTells(prefix, files, nic) && OverrideTells(prefix, files, nic)
  }

  lemma RecordConfigured(prefix: string, files: Files, nics: map<string, Nic>, mds: Descriptor, eth: seq<string>,
                         p: nat, v: nat)
    requires Sound(NamesFor(prefix)) && DistinctNics(nics) && Given(mds, p, v) && p < |eth| && OwnRecordIds(mds)
    requires ParentsHeld(nics, mds, eth, mds.Keys)
    requires files.dropin == DropinFor(NamesFor(prefix), Desired(nics))
    requires InPlace(NamesFor(prefix).dir, NamesFor(prefix).networkd, nics.Values, files.networkd)
    ensures Configured(prefix, files, eth[p], v, mds[p][v])
  {
    var nic := NicOf(mds[p][v], eth[p]);
    assert HeldFor(nics, p, mds[p], eth[p], mds[p].Keys);
    assert Held(nics, MapId(p, v), nic);
    assert nic in nics.Values;
    DesiredAt(nics, nic);
    DropinTells(prefix, files, Desired(nics), nic.vlan);
    assert NamesFor(prefix).dir(nic.vlan) == DirOf(prefix, nic.vlan);
    OverrideHeld(prefix, files, nic);
    assert Describes(nic, eth[p], v, mds[p][v]);
  }

  /** The VLAN of some record of the descriptor. */
  ghost predicate IsRecord(w: Vlan, mds: Descriptor, eth: seq<string>) {
    exists p: nat, v: nat :: Given(mds, p, v) && p < |eth| && w == Vlan(eth[p], v)
  }

  lemma DesiredIsRecord(nics: map<string, Nic>, mds: Descriptor, eth: seq<string>, w: Vlan)
    requires DistinctNics(nics) && OwnRecordIds(mds) && w in Desired(nics)
    requires ParentsHeld(nics, mds, eth, mds.Keys) && FromRecords(nics, mds) && (forall q | q in mds :: q < |eth|)
    ensures IsRecord(w, mds, eth)
  {
    DesiredFrom(nics, w);
    var nic :| nic in nics.Values && nic.vlan == w;
    var k :| k in nics && nics[k] == nic;
    var p, v := RecordOf(nics, mds, eth, k);
  }

  /** SetupVlanInterface for a descriptor from metadata. After a success every
      record is configured, with its own MAC address, MTU and DHCP settings, and
      the drop-in has nothing else. An unknown parent fails without touching a file. */
  method SetupFromMetadata(m: Manager, ghost prefix: string, mds: Descriptor, eth: seq<string>, env: Env)
    returns (err: bool)
    requires m.names == NamesFor(prefix) && Sound(m.names) && AgentDropin(m.names, m.files)
    requires Distinct(eth) && OwnRecordIds(mds)
    modifies m
    ensures (exists p | p in mds :: p >= |eth|) ==> err && m.files == old(m.files)
    ensures !err ==>
      forall p: nat, v: nat | Given(mds, p, v) :: p < |eth| && Configured(prefix, m.files, eth[p], v, mds[p][v])
    ensures !err ==> forall w | Key(prefix, w) in Existing(m.files) :: IsRecord(w, mds, eth)
  {
    var nics;
    nics, err := ReformatVlanNics(mds, eth);
    if err {
      return;
    }
    ReformattedDistinct(nics, mds, eth);
    err := SetupOverOwn(m, nics, env);
    if err {
      return;
    }
    forall p: nat, v: nat | Given(mds, p, v)
      ensures p < |eth| && Configured(prefix, m.files, eth[p], v, mds[p][v])
    {
      RecordConfigured(prefix, m.files, nics, mds, eth, p, v);
    }
    forall w | Key(prefix, w) in Existing(m.files) ensures IsRecord(w, mds, eth) {
      DropinTells(prefix, m.files, Desired(nics), w);
      DesiredIsRecord(nics, mds, eth, w);
    }
  }
}
