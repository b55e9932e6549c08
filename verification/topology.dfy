/** The network topology view (`topology_service.py`): the fixed
    core/switch/endpoint graph and the overlay that marks the endpoints
    targeted by active threats. Layout coordinates are not modelled, and the
    md5-derived node ids are abstracted to node positions: a link names the
    positions of its two ends in the node list. */
module Topology {
  import opened Wrappers
  import opened Text
  import opened Events
  import opened Database

  /** The node's `group` string: "Infrastructure", "Switch" or "Endpoint". */
  datatype Group = Infrastructure | SwitchGroup | EndpointGroup

  /** The node's `type` string: "Router", "Switch", "Server" or "Client". */
  datatype Kind = Router | SwitchKind | Server | Client

  /** The node's `status` string: "Healthy", "Warning" or "Compromised". */
  datatype Health = Healthy | Warning | Compromised

  /** One graph node. `ip` is present on endpoints only; `latestThreat` is
      absent until the overlay sets it. */
  datatype Node = Node(
    name: string,
    group: Group,
    kind: Kind,
    ip: Option<string>,
    status: Health,
    threats: nat,
    latestThreat: Option<string>)

  /** A link from the node at position `source` to the node at `target`. */
  datatype Link = Link(source: nat, target: nat)

  datatype Graph = Graph(nodes: seq<Node>, links: seq<Link>)

  /** A subnet cluster: its switch's name and the first three octets of its
      endpoints' addresses. */
  datatype Subnet = Subnet(name: string, prefix: string)

  const Subnets: seq<Subnet> := [
    Subnet("DMZ", "10.0.1"),
    Subnet("Secure Enclave", "10.0.5"),
    Subnet("User_Subnet_A", "10.0.2"),
    Subnet("User_Subnet_B", "10.0.3")]

  /** Endpoints per cluster. */
  const DeviceCount: nat := 5

  /** A cluster occupies its switch plus its endpoints in the node list. */
  const ClusterSize: nat := DeviceCount + 1

  const CoreNode: Node := Node("Core Gateway", Infrastructure, Router, None, Healthy, 0, None)

  function SwitchNode(c: Subnet): Node {
    Node(c.name, SwitchGroup, SwitchKind, None, Healthy, 0, None)
  }

  /** Endpoint `j` (0-based) of cluster `c`: named `{name}-Asset-{j+1}`,
      addressed `{prefix}.{10+j}`, a server exactly in clusters whose name
      contains "Secure". */
  function AssetNode(c: Subnet, j: nat): (n: Node)
    ensures n.group == EndpointGroup && n.status == Healthy && n.threats == 0
    ensures n.ip == Some(c.prefix + "." + Decimal(10 + j))
    ensures n.kind == Server <==> Contains(c.name, "Secure")
    ensures n.kind == Server || n.kind == Client
  {
    Node(c.name + "-Asset-" + Decimal(j + 1), EndpointGroup,
         if Contains(c.name, "Secure") then Server else Client,
         Some(c.prefix + "." + Decimal(10 + j)), Healthy, 0, None)
  }

  /** Node `m` of a cluster: its switch first, then its endpoints. */
  function ClusterNode(c: Subnet, m: nat): Node {
    if m == 0 then SwitchNode(c) else AssetNode(c, m - 1)
  }

  /** Link `m` of a cluster whose switch sits at position `root`: from the
      core to the switch, then from the switch to each endpoint. */
  function ClusterLink(root: nat, m: nat): Link {
    if m == 0 then Link(0, root) else Link(root, root + m)
  }

  /** The nodes one cluster adds: the switch and its endpoints. */
  function ClusterNodes(c: Subnet): (r: seq<Node>)
    ensures |r| == ClusterSize && r[0] == SwitchNode(c)
    ensures forall j :: 0 <= j < DeviceCount ==> r[1 + j] == AssetNode(c, j)
  {
    seq(ClusterSize, m requires 0 <= m => ClusterNode(c, m))
  }

  /** The links one cluster adds when its switch sits at position `root`. */
  function ClusterLinks(root: nat): (r: seq<Link>)
    ensures |r| == ClusterSize && r[0] == Link(0, root)
    ensures forall m :: 1 <= m < ClusterSize ==> r[m] == Link(root, root + m)
  {
    seq(ClusterSize, m requires 0 <= m => ClusterLink(root, m))
  }

  /** Where cluster `i` starts in the list of cluster nodes, `ClusterSize`
      positions per cluster (`SlotIsProduct`), written as a sum. */
  function Slot(i: nat): nat {
    if i == 0 then 0 else Slot(i - 1) + ClusterSize
  }

  lemma {:induction false} SlotIsProduct(i: nat)
    ensures Slot(i) == ClusterSize * i
  {
    if i > 0 {
      SlotIsProduct(i - 1);
    }
  }

  /** Every position below `Slot(n)` lies in one of the first `n`
      clusters. */
  lemma {:induction false} SlotSplit(k: nat, n: nat) returns (i: nat, r: nat)
    requires k < Slot(n)
    ensures i < n && r < ClusterSize && k == Slot(i) + r
  {
    if k < Slot(n - 1) {
      i, r := SlotSplit(k, n - 1);
    } else {
      i, r := n - 1, k - Slot(n - 1);
    }
  }

  /** The loop over the clusters, each adding its block `f(c)` in turn. */
  function Blocks<C, T>(cs: seq<C>, f: C -> seq<T>): (r: seq<T>)
    decreases |cs|
  {
    if |cs| == 0 then [] else f(cs[0]) + Blocks(cs[1..], f)
  }

  /** With blocks of `ClusterSize` elements, the loop adds `Slot(|cs|)`
      elements. */
  lemma {:induction false} BlocksLength<C, T>(cs: seq<C>, f: C -> seq<T>)
    requires forall k :: 0 <= k < |cs| ==> |f(cs[k])| == ClusterSize
    ensures |Blocks(cs, f)| == Slot(|cs|)
    decreases |cs|
  {
    if |cs| > 0 {
      BlocksLength(cs[1..], f);
      assert forall k :: 0 <= k < |cs| - 1 ==> cs[1..][k] == cs[k + 1];
    }
  }

  /** Block `i` takes the `ClusterSize` positions from `Slot(i)` on. */
  lemma {:induction false} BlocksAt<C, T>(cs: seq<C>, f: C -> seq<T>, i: nat, m: nat)
    requires forall k :: 0 <= k < |cs| ==> |f(cs[k])| == ClusterSize
    requires i < |cs| && m < ClusterSize
    ensures Slot(i) + ClusterSize <= Slot(|cs|) == |Blocks(cs, f)|
    ensures Blocks(cs, f)[Slot(i) + m] == f(cs[i])[m]
    decreases i
  {
    BlocksLength(cs, f);
    BlocksLength(cs[1..], f);
    assert Blocks(cs, f) == f(cs[0]) + Blocks(cs[1..], f);
    if i > 0 {
      BlocksAt(cs[1..], f, i - 1, m);
      assert cs[1..][i - 1] == cs[i];
      assert Slot(i) == ClusterSize + Slot(i - 1);
    }
  }

  /** The nodes of the loop over the clusters: each cluster adds its
      `ClusterSize` nodes. */
  function BuildNodes(cs: seq<Subnet>): (r: seq<Node>)
    ensures |r| == Slot(|cs|)
  {
    BlocksLength(cs, ClusterNodes);
    Blocks(cs, ClusterNodes)
  }

  /** The links of the loop over the clusters, the first one's switch at
      position `base`. */
  function BuildLinks(cs: seq<Subnet>, base: nat): (r: seq<Link>)
    ensures |r| == Slot(|cs|)
    decreases |cs|
  {
    if |cs| == 0 then [] else ClusterLinks(base) + BuildLinks(cs[1..], base + ClusterSize)
  }

  /** Cluster `i`'s nodes take the `ClusterSize` positions from `Slot(i)`
      on. */
  lemma BuildNodesAt(cs: seq<Subnet>, i: nat, m: nat)
    requires i < |cs| && m < ClusterSize
    ensures Slot(i) + ClusterSize <= Slot(|cs|)
    ensures BuildNodes(cs)[Slot(i) + m] == ClusterNode(cs[i], m)
  {
    BlocksAt(cs, ClusterNodes, i, m);
  }

  /** Cluster `i`'s links take the `ClusterSize` positions from `Slot(i)`
      on, its switch at `base + Slot(i)`. */
  lemma {:induction false} BuildLinksAt(cs: seq<Subnet>, base: nat, i: nat, m: nat)
    requires i < |cs| && m < ClusterSize
    ensures Slot(i) + ClusterSize <= Slot(|cs|)
    ensures BuildLinks(cs, base)[Slot(i) + m] == ClusterLink(base + Slot(i), m)
    decreases i
  {
    var part := ClusterLinks(base);
    var rest := BuildLinks(cs[1..], base + ClusterSize);
    assert BuildLinks(cs, base) == part + rest;
    if i > 0 {
      BuildLinksAt(cs[1..], base + ClusterSize, i - 1, m);
      assert Slot(i) == ClusterSize + Slot(i - 1);
    } else {
      assert part[m] == ClusterLink(base, m);
    }
  }

  /** The core node, then each cluster's switch followed by its endpoints,
      for any list of clusters. */
  function GraphOf(cs: seq<Subnet>): (g: Graph)
    ensures |g.nodes| == 1 + Slot(|cs|) && |g.links| == Slot(|cs|)
    ensures g.nodes[0] == CoreNode
  {
    var rest := BuildNodes(cs);
    Graph([CoreNode] + rest, BuildLinks(cs, 1))
  }

  /** `build_graph`: the graph of the four clusters. */
  function BuildGraph(): (g: Graph)
    ensures |g.nodes| == 25 && |g.links| == 24
    ensures g.nodes[0] == CoreNode
  {
    SlotIsProduct(|Subnets|);
    GraphOf(Subnets)
  }

  /** Position of the switch of cluster `i`. */
  function SwitchAt(i: nat): nat {
    1 + Slot(i)
  }

  /** Node `m` and link `m` of cluster `i` in the graph. */
  lemma GraphAt(cs: seq<Subnet>, i: nat, m: nat)
    requires i < |cs| && m < ClusterSize
    ensures SwitchAt(i) + DeviceCount < |GraphOf(cs).nodes|
    ensures GraphOf(cs).nodes[SwitchAt(i) + m] == ClusterNode(cs[i], m)
    ensures GraphOf(cs).links[Slot(i) + m] == ClusterLink(SwitchAt(i), m)
  {
    GraphNodeAt(cs, i, m);
    GraphLinkAt(cs, i, m);
  }

  lemma GraphNodeAt(cs: seq<Subnet>, i: nat, m: nat)
    requires i < |cs| && m < ClusterSize
    ensures SwitchAt(i) + DeviceCount < |GraphOf(cs).nodes|
    ensures GraphOf(cs).nodes[SwitchAt(i) + m] == ClusterNode(cs[i], m)
  {
    BuildNodesAt(cs, i, m);
    AfterHead(CoreNode, BuildNodes(cs), Slot(i) + m);
  }

  lemma GraphLinkAt(cs: seq<Subnet>, i: nat, m: nat)
    requires i < |cs| && m < ClusterSize
    ensures Slot(i) + m < |GraphOf(cs).links|
    ensures GraphOf(cs).links[Slot(i) + m] == ClusterLink(SwitchAt(i), m)
  {
    BuildLinksAt(cs, 1, i, m);
    assert GraphOf(cs).links == BuildLinks(cs, 1);
  }

  /** The element after a one-element head. */
  lemma AfterHead<T>(x: T, s: seq<T>, k: nat)
    requires k < |s|
    ensures ([x] + s)[1 + k] == s[k]
  {
  }

  /** Switch `i` follows the switch and endpoints of the clusters before it,
      linked from the core. */
  lemma SwitchesInGraph(cs: seq<Subnet>)
    ensures forall i :: 0 <= i < |cs| ==>
              && SwitchAt(i) + DeviceCount < |GraphOf(cs).nodes|
              && GraphOf(cs).nodes[SwitchAt(i)] == SwitchNode(cs[i])
              && GraphOf(cs).links[Slot(i)] == Link(0, SwitchAt(i))
  {
    forall i | 0 <= i < |cs|
      ensures SwitchAt(i) + DeviceCount < |GraphOf(cs).nodes|
      ensures GraphOf(cs).nodes[SwitchAt(i)] == SwitchNode(cs[i])
      ensures GraphOf(cs).links[Slot(i)] == Link(0, SwitchAt(i))
    {
      GraphAt(cs, i, 0);
    }
  }

  /** Position of endpoint `j` of cluster `i`, right after its switch. */
  function EndpointAt(i: nat, j: nat): nat {
    SwitchAt(i) + 1 + j
  }

  /** Endpoint `j` of cluster `i` directly follows its switch, linked from
      it. */
  lemma EndpointsInGraph(cs: seq<Subnet>)
    ensures forall i: nat, j: nat :: i < |cs| && j < DeviceCount ==>
              && EndpointAt(i, j) < |GraphOf(cs).nodes|
              && GraphOf(cs).nodes[EndpointAt(i, j)] == AssetNode(cs[i], j)
              && GraphOf(cs).links[Slot(i) + 1 + j] == Link(SwitchAt(i), EndpointAt(i, j))
  {
    forall i: nat, j: nat | i < |cs| && j < DeviceCount
      ensures && EndpointAt(i, j) < |GraphOf(cs).nodes|
              && GraphOf(cs).nodes[EndpointAt(i, j)] == AssetNode(cs[i], j)
              && GraphOf(cs).links[Slot(i) + 1 + j] == Link(SwitchAt(i), EndpointAt(i, j))
    {
      GraphAt(cs, i, 1 + j);
    }
  }

  /** The built graph, node by node and link by link: 25 nodes (the core, 4
      switches, 20 endpoints) and 24 links. Link `Slot(i)` joins the core to
      switch `i`; link `Slot(i) + 1 + j` joins switch `i` to its endpoint
      `j`. */
  lemma GraphShape()
    ensures var g := BuildGraph();
            && |g.nodes| == 25 && |g.links| == 24
            && g.nodes[0].kind == Router
            && (forall i :: 0 <= i < |Subnets| ==>
                  && SwitchAt(i) + DeviceCount < |g.nodes|
                  && g.nodes[SwitchAt(i)] == SwitchNode(Subnets[i])
                  && g.links[Slot(i)] == Link(0, SwitchAt(i)))
            && (forall i, j :: 0 <= i < |Subnets| && 0 <= j < DeviceCount ==>
                  && g.nodes[EndpointAt(i, j)] == AssetNode(Subnets[i], j)
                  && g.links[Slot(i) + 1 + j] == Link(SwitchAt(i), EndpointAt(i, j)))
  {
    SwitchesInGraph(Subnets);
    EndpointsInGraph(Subnets);
  }

  /** Every link runs from the core to a switch, or from a switch to an
      endpoint of its own cluster, whatever the clusters. */
  lemma LinksAreTree(cs: seq<Subnet>)
    ensures forall l :: l in GraphOf(cs).links ==> LinkInTree(GraphOf(cs), l)
  {
    var g := GraphOf(cs);
    forall l | l in g.links
      ensures LinkInTree(g, l)
    {
      var k :| 0 <= k < |g.links| && g.links[k] == l;
      var i, r := SlotSplit(k, |cs|);
      LinkShape(cs, i, r);
    }
  }

  /** The tree condition on one link of `g`. */
  predicate LinkInTree(g: Graph, l: Link) {
    && l.source < l.target < |g.nodes|
    && ((l.source == 0 && g.nodes[l.target].group == SwitchGroup)
        || (g.nodes[l.source].group == SwitchGroup && g.nodes[l.target].group == EndpointGroup
            && l.target - l.source <= DeviceCount))
  }

  /** Link `r` of cluster `i` satisfies the tree condition. */
  lemma LinkShape(cs: seq<Subnet>, i: nat, r: nat)
    requires i < |cs| && r < ClusterSize
    ensures Slot(i) + r < |GraphOf(cs).links|
    ensures LinkInTree(GraphOf(cs), GraphOf(cs).links[Slot(i) + r])
  {
    var g := GraphOf(cs);
    GraphLinkAt(cs, i, r);
    GraphNodeAt(cs, i, 0);
    assert g.nodes[SwitchAt(i)].group == SwitchGroup;
    if r > 0 {
      GraphNodeAt(cs, i, r);
      assert g.nodes[SwitchAt(i) + r].group == EndpointGroup;
    }
  }

  /** A name whose only capital S is followed by a 'u' does not contain
      "Secure". */
  lemma NoSecureIn(s: string, at: nat)
    requires forall k :: 0 <= k < |s| && k != at ==> s[k] != 'S'
    requires at + 1 < |s| ==> s[at + 1] == 'u'
    ensures !Contains(s, "Secure")
  {
    var pat := "Secure";
    ContainsIffOccurs(s, pat);
    forall i: nat
      ensures !OccursAt(s, pat, i)
    {
      if i + |pat| <= |s| {
        if i == at {
          assert s[i..i + |pat|][1] != pat[1];
        } else {
          assert s[i..i + |pat|][0] != pat[0];
        }
      }
    }
  }

  /** Only the endpoints of the "Secure Enclave" cluster are servers. */
  lemma ServersOnlyInSecureEnclave(i: nat, j: nat)
    requires i < |Subnets| && j < DeviceCount
    ensures AssetNode(Subnets[i], j).kind == Server <==> Subnets[i].name == "Secure Enclave"
  {
    var s := Subnets[i].name;
    if i == 1 {
      assert s[..|"Secure"|] == "Secure";
    } else if i == 0 {
      assert |s| < |"Secure"|;
    } else {
      assert forall k :: 0 <= k < |s| && k != 5 ==> s[k] != 'S';
      NoSecureIn(s, 5);
    }
  }

  // ---------------------------------------------------------------------
  // Threat overlay
  // ---------------------------------------------------------------------

  /** The threat marks a node: status 'Active' and a non-empty
      `destination_ip`. */
  predicate Marks(t: Event) {
    t.status == Some(StatusActive) && t.destinationIp.Some? && t.destinationIp.value != ""
  }

  /** The addresses the marking threats target. */
  function Targets(threats: seq<Event>): set<string> {
    set i | 0 <= i < |threats| && Marks(threats[i]) :: threats[i].destinationIp.value
  }

  lemma TargetsSnoc(threats: seq<Event>, t: Event)
    ensures Targets(threats + [t]) == Targets(threats) + (if Marks(t) then {t.destinationIp.value} else {})
  {
    var s := threats + [t];
    forall ip | ip in Targets(s)
      ensures ip in Targets(threats) + (if Marks(t) then {t.destinationIp.value} else {})
    {
      var i :| 0 <= i < |s| && Marks(s[i]) && s[i].destinationIp.value == ip;
      if i < |threats| {
        assert s[i] == threats[i];
      }
    }
    forall ip | ip in Targets(threats)
      ensures ip in Targets(s)
    {
      var i :| 0 <= i < |threats| && Marks(threats[i]) && threats[i].destinationIp.value == ip;
      assert s[i] == threats[i];
    }
    if Marks(t) {
      assert s[|threats|] == t;
    }
  }

  /** `impacted_ips`: every address some marking threat targets, mapped to
      a risk (a missing risk counts as 0); see `ImpactMapLastWins` for which
      one. */
  function ImpactMap(threats: seq<Event>): (m: map<string, real>)
    ensures m.Keys == Targets(threats)
    decreases |threats|
  {
    if |threats| == 0 then map[]
    else
      var n := |threats| - 1;
      var prev := ImpactMap(threats[..n]);
      var t := threats[n];
      assert threats == threats[..n] + [t];
      TargetsSnoc(threats[..n], t);
      if Marks(t) then prev[t.destinationIp.value := Score(t)] else prev
  }

  /** For an address targeted more than once the LAST marking threat's
      risk wins. */
  lemma {:induction false} ImpactMapLastWins(threats: seq<Event>, i: nat)
    requires i < |threats| && Marks(threats[i])
    requires forall j :: i < j < |threats| ==> !(Marks(threats[j]) && threats[j].destinationIp == threats[i].destinationIp)
    ensures ImpactMap(threats)[threats[i].destinationIp.value] == Score(threats[i])
    decreases |threats|
  {
    var n := |threats| - 1;
    if i < n {
      var init := threats[..n];
      assert forall j :: i < j < |init| ==> init[j] == threats[j];
      ImpactMapLastWins(init, i);
    }
  }

  /** The overlay on one node: an endpoint whose address is impacted gets a
      threat flag, the "Under Attack" label, and status Compromised above
      risk 80, Warning above 50, its old status otherwise; any other node is
      left as it is. */
  function OverlayNode(n: Node, m: map<string, real>): (r: Node)
    ensures r.name == n.name && r.group == n.group && r.kind == n.kind && r.ip == n.ip
    ensures (n.ip.Some? && n.ip.value != "" && n.ip.value in m) ==>
              && r.threats == 1 && r.latestThreat == Some("Under Attack")
              && (m[n.ip.value] > 80.0 ==> r.status == Compromised)
              && (50.0 < m[n.ip.value] <= 80.0 ==> r.status == Warning)
              && (m[n.ip.value] <= 50.0 ==> r.status == n.status)
    ensures !(n.ip.Some? && n.ip.value != "" && n.ip.value in m) ==> r == n
  {
    if n.ip.Some? && n.ip.value != "" && n.ip.value in m then
      var risk := m[n.ip.value];
      n.(threats := 1, latestThreat := Some("Under Attack"),
         status := if risk > 80.0 then Compromised else if risk > 50.0 then Warning else n.status)
    else n
  }

  /** Overlaying a second time with the same threats changes nothing. */
  lemma OverlayNodeIdempotent(n: Node, m: map<string, real>)
    ensures OverlayNode(OverlayNode(n, m), m) == OverlayNode(n, m)
  {
  }

  /** The overlay of a whole graph: node by node, links untouched. */
  function Overlay(g: Graph, threats: seq<Event>): (r: Graph)
    ensures |r.nodes| == |g.nodes| && r.links == g.links
    ensures forall k :: 0 <= k < |g.nodes| ==> r.nodes[k] == OverlayNode(g.nodes[k], ImpactMap(threats))
  {
    var m := ImpactMap(threats);
    Graph(seq(|g.nodes|, k requires 0 <= k < |g.nodes| => OverlayNode(g.nodes[k], m)), g.links)
  }

  /** `get_topology_status` given the outcome of the threat fetch (None
      models the fetch raising): a failed fetch leaves the built graph as
      it is. */
  function TopologyStatusOf(fetched: Option<seq<Event>>): (r: Graph)
    ensures fetched.None? ==> r == BuildGraph()
    ensures fetched.Some? ==> r == Overlay(BuildGraph(), fetched.value)
  {
    match fetched
    case None => BuildGraph()
    case Some(threats) => Overlay(BuildGraph(), threats)
  }

  /** The threats overlaid are the newest 50 events of the gateway. */
  const ThreatWindow: int := 50

  function TopologyStatus(g: Gateway, remoteOk: bool): (r: Graph)
    ensures r == Overlay(BuildGraph(), QueryRecent(g, ThreatWindow, remoteOk).events)
    ensures r.links == BuildGraph().links
  {
    TopologyStatusOf(Some(QueryRecent(g, ThreatWindow, remoteOk).events))
  }

  /** The core and the switches carry no address, so the overlay never
      touches them; an endpoint is flagged exactly when some marking threat
      targets its address, and then its status follows the risk of the last
      such threat. */
  lemma OverlayMarksTargetedEndpoints(threats: seq<Event>, k: nat)
    requires k < |BuildGraph().nodes|
    ensures var n := BuildGraph().nodes[k];
            var r := Overlay(BuildGraph(), threats).nodes[k];
            && (n.ip.None? ==> r == n)
            && (n.ip.Some? ==> (r.threats == 1 <==> n.ip.value in Targets(threats)))
  {
    if k > 0 {
      SlotIsProduct(|Subnets|);
      var i, m := SlotSplit(k - 1, |Subnets|);
      GraphAt(Subnets, i, m);
    }
  }

  /** The risk thresholds of the overlay, for a targeted endpoint: the
      status depends only on the risk of the last threat on its address. */
  lemma OverlayStatusByRisk(threats: seq<Event>, n: Node, i: nat)
    requires n.ip.Some? && n.ip.value != ""
    requires i < |threats| && Marks(threats[i]) && threats[i].destinationIp == n.ip
    requires forall j :: i < j < |threats| ==> !(Marks(threats[j]) && threats[j].destinationIp == n.ip)
    ensures var r := OverlayNode(n, ImpactMap(threats));
            && r.threats == 1
            && (Score(threats[i]) > 80.0 ==> r.status == Compromised)
            && (50.0 < Score(threats[i]) <= 80.0 ==> r.status == Warning)
            && (Score(threats[i]) <= 50.0 ==> r.status == n.status)
  {
    ImpactMapLastWins(threats, i);
  }
}
