/** The schema of the current version, key by key and in the source's order. */
module SchemaV15 {
  import opened Wrappers
  import opened ZkTree
  import opened ZkRename
  import opened ZkSchema

  const BASE: Keys := [
    ("root", []),
    ("schema", ["schema"]),
    ("schema.version", ["schema", "version"]),
    ("config", ["config"]),
    ("config.maintenance", ["config", "maintenance"]),
    ("config.fence_lock", ["config", "fence_lock"]),
    ("config.primary_node", ["config", "primary_node"]),
    ("config.primary_node.sync_lock", ["config", "primary_node", "sync_lock"]),
    ("config.upstream_ip", ["config", "upstream_ip"]),
    ("config.migration_target_selector", ["config", "migration_target_selector"]),
    ("logs", ["logs"]),
    ("faults", ["faults"]),
    ("node", ["nodes"]),
    ("domain", ["domains"]),
    ("network", ["networks"]),
    ("storage", ["ceph"]),
    ("storage.health", ["ceph", "health"]),
    ("storage.util", ["ceph", "util"]),
    ("osd", ["ceph", "osds"]),
    ("pool", ["ceph", "pools"]),
    ("volume", ["ceph", "volumes"]),
    ("snapshot", ["ceph", "snapshots"])
  ]

  const NODE: Keys := [
    ("name", []),
    ("keepalive", ["keepalive"]),
    ("mode", ["daemonmode"]),
    ("data.active_schema", ["activeschema"]),
    ("data.latest_schema", ["latestschema"]),
    ("data.static", ["staticdata"]),
    ("data.pvc_version", ["pvcversion"]),
    ("running_domains", ["runningdomains"]),
    ("count.provisioned_domains", ["domainscount"]),
    ("count.networks", ["networkscount"]),
    ("state.daemon", ["daemonstate"]),
    ("state.router", ["routerstate"]),
    ("state.domain", ["domainstate"]),
    ("cpu.load", ["cpuload"]),
    ("vcpu.allocated", ["vcpualloc"]),
    ("memory.total", ["memtotal"]),
    ("memory.used", ["memused"]),
    ("memory.free", ["memfree"]),
    ("memory.allocated", ["memalloc"]),
    ("memory.provisioned", ["memprov"]),
    ("ipmi.hostname", ["ipmihostname"]),
    ("ipmi.username", ["ipmiusername"]),
    ("ipmi.password", ["ipmipassword"]),
    ("sriov", ["sriov"]),
    ("sriov.pf", ["sriov", "pf"]),
    ("sriov.vf", ["sriov", "vf"]),
    ("monitoring.plugins", ["monitoring_plugins"]),
    ("monitoring.data", ["monitoring_data"]),
    ("monitoring.health", ["monitoring_health"]),
    ("network.stats", ["network_stats"])
  ]

  const DOMAIN: Keys := [
    ("name", []),
    ("xml", ["xml"]),
    ("state", ["state"]),
    ("profile", ["profile"]),
    ("stats", ["stats"]),
    ("node", ["node"]),
    ("last_node", ["lastnode"]),
    ("failed_reason", ["failedreason"]),
    ("storage.volumes", ["rbdlist"]),
    ("console.log", ["consolelog"]),
    ("console.vnc", ["vnc"]),
    ("meta.autostart", ["node_autostart"]),
    ("meta.migrate_method", ["migration_method"]),
    ("meta.migrate_max_downtime", ["migration_max_downtime"]),
    ("meta.node_selector", ["node_selector"]),
    ("meta.node_limit", ["node_limit"]),
    ("meta.tags", ["tags"]),
    ("migrate.sync_lock", ["migrate_sync_lock"]),
    ("snapshots", ["snapshots"])
  ]

  const NETWORK: Keys := [
    ("vni", []),
    ("type", ["nettype"]),
    ("mtu", ["mtu"]),
    ("rule", ["firewall_rules"]),
    ("rule.in", ["firewall_rules", "in"]),
    ("rule.out", ["firewall_rules", "out"]),
    ("nameservers", ["name_servers"]),
    ("domain", ["domain"]),
    ("reservation", ["dhcp4_reservations"]),
    ("lease", ["dhcp4_leases"]),
    ("ip4.gateway", ["ip4_gateway"]),
    ("ip4.network", ["ip4_network"]),
    ("ip4.dhcp", ["dhcp4_flag"]),
    ("ip4.dhcp_start", ["dhcp4_start"]),
    ("ip4.dhcp_end", ["dhcp4_end"]),
    ("ip6.gateway", ["ip6_gateway"]),
    ("ip6.network", ["ip6_network"]),
    ("ip6.dhcp", ["dhcp6_flag"])
  ]

  const OSD: Keys := [
    ("id", []),
    ("node", ["node"]),
    ("device", ["device"]),
    ("db_device", ["db_device"]),
    ("fsid", ["fsid"]),
    ("ofsid", ["fsid", "osd"]),
    ("cfsid", ["fsid", "cluster"]),
    ("lvm", ["lvm"]),
    ("vg", ["lvm", "vg"]),
    ("lv", ["lvm", "lv"]),
    ("is_split", ["is_split"]),
    ("stats", ["stats"])
  ]

  const POOL: Keys := [
    ("name", []),
    ("pgs", ["pgs"]),
    ("tier", ["tier"]),
    ("stats", ["stats"])
  ]

  const VOLUME: Keys := [
    ("name", []),
    ("stats", ["stats"])
  ]

  const SNAPSHOT: Keys := [
    ("name", []),
    ("stats", ["stats"])
  ]

  const RESERVATION: Keys := [
    ("mac", []),
    ("ip", ["ipaddr"]),
    ("hostname", ["hostname"])
  ]

  const RULE: Keys := [
    ("description", []),
    ("rule", ["rule"]),
    ("order", ["order"])
  ]

  const ELEMENTS := set e | e in ITEMS + ["reservation", "rule"]

  const V15 := Schema(15, BASE, map e | e in ELEMENTS :: KeysOf(e))

  lemma BaseOrdered()
    ensures ParentsFirst(BASE)
  {
    forall i | 0 <= i < |BASE| && BASE[i].1 != [] && Parent(BASE[i].1) != []
      ensures exists j :: 0 <= j < i && BASE[j].1 == Parent(BASE[i].1)
    {
      var j := if i == 2 then 1 else if i == 7 then 6 else if i < 10 then 3 else 15;
      assert BASE[j].1 == Parent(BASE[i].1);
    }
  }

  lemma NodeOrdered()
    ensures ParentsFirst(NODE)
  {
    forall i | 0 <= i < |NODE| && NODE[i].1 != [] && Parent(NODE[i].1) != []
      ensures exists j :: 0 <= j < i && NODE[j].1 == Parent(NODE[i].1)
    {
      assert NODE[23].1 == Parent(NODE[i].1);
    }
  }

  lemma NetworkOrdered()
    ensures ParentsFirst(NETWORK)
  {
    forall i | 0 <= i < |NETWORK| && NETWORK[i].1 != [] && Parent(NETWORK[i].1) != []
      ensures exists j :: 0 <= j < i && NETWORK[j].1 == Parent(NETWORK[i].1)
    {
      assert NETWORK[3].1 == Parent(NETWORK[i].1);
    }
  }

  lemma OsdOrdered()
    ensures ParentsFirst(OSD)
  {
    forall i | 0 <= i < |OSD| && OSD[i].1 != [] && Parent(OSD[i].1) != []
      ensures exists j :: 0 <= j < i && OSD[j].1 == Parent(OSD[i].1)
    {
      assert OSD[if i < 7 then 4 else 7].1 == Parent(OSD[i].1);
    }
  }

  lemma OthersOrdered()
    ensures ParentsFirst(DOMAIN) && ParentsFirst(POOL) && ParentsFirst(VOLUME) && ParentsFirst(SNAPSHOT)
  {
  }

  lemma ItemsOrdered()
    ensures ParentsFirst(NODE) && ParentsFirst(NETWORK) && ParentsFirst(OSD)
    ensures ParentsFirst(DOMAIN) && ParentsFirst(POOL) && ParentsFirst(VOLUME) && ParentsFirst(SNAPSHOT)
  {
    hide ParentsFirst;
    NodeOrdered();
    NetworkOrdered();
    OsdOrdered();
    OthersOrdered();
  }

  lemma {:induction false} FindFirst(keys: Keys, name: string, j: nat)
    requires j < |keys| && keys[j].0 == name && forall i | 0 <= i < j :: keys[i].0 != name
    ensures Find(keys, name) == Some(keys[j].1)
    decreases j
  {
    if j > 0 {
      assert keys[0].0 != name;
      FindFirst(keys[1..], name, j - 1);
    }
  }

  /** Where the items of each element are kept. */
  function Place(e: string): Path {
    if e == "node" then ["nodes"]
    else if e == "domain" then ["domains"]
    else if e == "network" then ["networks"]
    else if e == "osd" then ["ceph", "osds"]
    else if e == "pool" then ["ceph", "pools"]
    else if e == "volume" then ["ceph", "volumes"]
    else ["ceph", "snapshots"]
  }

  lemma ItemNames(e: string)
    requires e in ITEMS
    ensures e == "node" || e == "domain" || e == "network" || e == "osd" || e == "pool" || e == "volume"
         || e == "snapshot"
  {
  }

  lemma RootPlace(e: string)
    requires e in ITEMS
    ensures Find(BASE, e) == Some(Place(e))
  {
    ItemNames(e);
    var j := if e == "node" then 12 else if e == "domain" then 13 else if e == "network" then 14
             else if e == "osd" then 18 else if e == "pool" then 19 else if e == "volume" then 20 else 21;
    assert BASE[j].0 == e && BASE[j].1 == Place(e);
    FindFirst(BASE, e, j);
  }

  lemma PlacesApart(e: string, f: string)
    requires e in ITEMS && f in ITEMS && e != f
    ensures Apart(Place(e), Place(f))
  {
    ItemNames(e);
    ItemNames(f);
    assert Place(e)[|Place(e)| - 1] != Place(f)[|Place(f)| - 1];
    assert |Place(e)| < |Place(f)| ==> Place(e)[0] != Place(f)[0];
    assert |Place(e)| > |Place(f)| ==> Place(e)[0] != Place(f)[0];
  }

  lemma NetworkNames(i: nat, j: nat)
    requires i < j < |NETWORK|
    ensures NETWORK[i].0 != NETWORK[j].0
  {
  }

  lemma NetworkUnique()
    ensures UniqueNames(NETWORK)
  {
    forall i, j | 0 <= i < j < |NETWORK| ensures NETWORK[i].0 != NETWORK[j].0 {
      NetworkNames(i, j);
    }
  }

  lemma Nests()
    ensures Find(NETWORK, "reservation") == Some(["dhcp4_reservations"])
    ensures Find(NETWORK, "rule.in") == Some(["firewall_rules", "in"])
    ensures Find(NETWORK, "rule.out") == Some(["firewall_rules", "out"])
  {
    hide UniqueNames, Find;
    NetworkUnique();
    FindAt(NETWORK, 8);
    FindAt(NETWORK, 4);
    FindAt(NETWORK, 5);
  }

  function NestPlace(n: string): Path {
    if n == "reservation" then ["dhcp4_reservations"]
    else if n == "rule.in" then ["firewall_rules", "in"]
    else ["firewall_rules", "out"]
  }

  lemma NestNames(n: string)
    requires n in NESTED
    ensures n == "reservation" || n == "rule.in" || n == "rule.out"
  {
  }

  lemma NestFound(n: string)
    requires n in NESTED
    ensures Find(NETWORK, n) == Some(NestPlace(n))
  {
    NestNames(n);
    Nests();
  }

  lemma NestPlacesApart(n: string, m: string)
    requires n in NESTED && m in NESTED && n != m
    ensures Apart(NestPlace(n), NestPlace(m))
  {
    NestNames(n);
    NestNames(m);
    var p, q := NestPlace(n), NestPlace(m);
    assert p[|p| - 1] != q[|q| - 1];
    assert |p| < |q| ==> p[0] != q[0];
    assert |p| > |q| ==> p[0] != q[0];
  }

  lemma NothingBelowNests(n: string, j: nat)
    requires n in NESTED && j < |NETWORK| && NestPlace(n) <= NETWORK[j].1
    ensures NETWORK[j].1 == NestPlace(n)
  {
    NestNames(n);
    var q := NETWORK[j].1;
    assert |q| <= 1 || (|q| == 2 && (j == 4 || j == 5));
    assert q[0] == NestPlace(n)[0];
    assert |q| == 2 ==> q[0] == "firewall_rules" && |NestPlace(n)| == 2;
  }

  function KeysOf(e: string): Keys {
    if e == "node" then NODE else if e == "domain" then DOMAIN else if e == "network" then NETWORK
    else if e == "osd" then OSD else if e == "pool" then POOL else if e == "volume" then VOLUME
    else if e == "snapshot" then SNAPSHOT else if e == "reservation" then RESERVATION else RULE
  }

  lemma V15Elements(e: string)
    requires e in ITEMS
    ensures Find(V15.base, e) == Some(Place(e)) && e in V15.elems && ParentsFirst(V15.elems[e])
  {
    RootPlace(e);
    ItemsOrdered();
    ItemNames(e);
    hide ParentsFirst;
    assert V15.elems[e] == KeysOf(e);
  }

  lemma V15Network()
    ensures "network" in V15.elems && V15.elems["network"] == NETWORK
    ensures forall n | n in NESTED :: Kind(n) in V15.elems
  {
    assert "network" in ITEMS;
    assert KeysOf("network") == NETWORK;
    hide KeysOf;
    forall n | n in NESTED ensures Kind(n) in V15.elems {
      KindNames(n);
    }
  }

  lemma KindNames(n: string)
    requires n in NESTED
    ensures Kind(n) in ELEMENTS
  {
    NestNames(n);
    var more := ["reservation", "rule"];
    assert Kind(n) == more[0] || Kind(n) == more[1];
    assert (ITEMS + more)[|ITEMS|] == more[0] && (ITEMS + more)[|ITEMS| + 1] == more[1];
  }

  lemma V15ElementsApart()
    ensures ElementsApart(V15)
  {
    hide Apart, ParentsFirst, Find, Place;
    forall e | e in ITEMS ensures Find(V15.base, e).Some? && e in V15.elems && ParentsFirst(V15.elems[e]) {
      V15Elements(e);
    }
    forall e, f | e in ITEMS && f in ITEMS && e != f ensures Apart(Root(V15, e), Root(V15, f)) {
      V15Elements(e);
      V15Elements(f);
      PlacesApart(e, f);
    }
  }

  lemma V15NestsFound()
    ensures "network" in V15.elems
    ensures forall n | n in NESTED :: Find(V15.elems["network"], n) == Some(NestPlace(n))
    ensures forall n | n in NESTED :: Nest(V15, n) == NestPlace(n)
  {
    hide Find, NestPlace;
    V15Network();
    forall n | n in NESTED ensures Find(V15.elems["network"], n) == Some(NestPlace(n)) {
      NestFound(n);
    }
  }

  lemma V15NestPairs(n: string, m: string)
    requires n in NESTED && m in NESTED && n != m
    ensures "network" in V15.elems && Find(V15.elems["network"], n).Some? && Find(V15.elems["network"], m).Some?
    ensures Apart(Nest(V15, n), Nest(V15, m))
  {
    hide Apart, Find, NestPlace;
    V15NestsFound();
    NestPlacesApart(n, m);
  }

  lemma V15BelowNests(n: string, j: nat)
    requires n in NESTED && j < |NETWORK|
    ensures "network" in V15.elems && V15.elems["network"] == NETWORK && Find(V15.elems["network"], n).Some?
    ensures Nest(V15, n) <= NETWORK[j].1 ==> NETWORK[j].1 == Nest(V15, n)
  {
    hide Find, NestPlace;
    V15Network();
    V15NestsFound();
    if NestPlace(n) <= NETWORK[j].1 {
      NothingBelowNests(n, j);
    }
  }

  /** The definition, from its parts. */
  lemma NestsApartFrom(s: Schema)
    requires "network" in s.elems && UniqueNames(s.elems["network"])
    requires forall n | n in NESTED :: Find(s.elems["network"], n).Some? && Kind(n) in s.elems
    requires forall n, m | n in NESTED && m in NESTED && n != m :: Apart(Nest(s, n), Nest(s, m))
    requires forall n, j | n in NESTED && 0 <= j < |s.elems["network"]| ::
               Nest(s, n) <= s.elems["network"][j].1 ==> s.elems["network"][j].1 == Nest(s, n)
    ensures NestsApart(s)
  {
  }

  lemma V15NestsApart()
    ensures "network" in V15.elems && NestsApart(V15)
  {
    hide *;
    V15Network();
    V15NestsFound();
    NetworkUnique();
    forall n, m | n in NESTED && m in NESTED && n != m ensures Apart(Nest(V15, n), Nest(V15, m)) {
      V15NestPairs(n, m);
    }
    forall n, j | n in NESTED && 0 <= j < |V15.elems["network"]|
      ensures Nest(V15, n) <= V15.elems["network"][j].1 ==> V15.elems["network"][j].1 == Nest(V15, n)
    {
      V15BelowNests(n, j);
    }
    NestsApartFrom(V15);
  }

  /** So everything proved of a well-formed schema holds of this one. */
  lemma V15WellFormed()
    ensures WellFormed(V15)
  {
    BaseOrdered();
    FindFirst(BASE, "schema.version", 2);
    V15ElementsApart();
    V15NestsApart();
  }
}
