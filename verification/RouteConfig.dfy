/** Topology to routing configuration (generateTopologyConfig in
    cmd/mini-sb-agent/xboard_config.go), what the router makes of it
    (fork/sing-box/route/route.go) and the duplicate-tag checks it must pass
    (fork/sing-box/option/options.go). */
module RouteConfig {
  import opened GoStrings
  import opened Topologies

  datatype Outbound = Plain(kind: string, tag: string) | Shadowsocks(tag: string, spec: OutboundSpec)
  datatype Rule = Rule(inbound: seq<string>, outbound: string)
  datatype Config = Config(inbounds: seq<string>, outbounds: seq<Outbound>, rules: seq<Rule>, final: string)

  const BUILT_IN: seq<Outbound> := [Plain("direct", "direct"), Plain("block", "block"), Plain("dns", "dns-out")]

  // Where a node asks its traffic to go.
  function OutTag(n: NodeSpec): string {
    if IsDirect(n.outbound) then "direct" else n.OutboundTag()
  }

  function InboundsOf(nodes: seq<NodeSpec>): seq<string> {
    seq(|nodes|, i requires 0 <= i < |nodes| => nodes[i].InboundTag())
  }

  function RulesOf(nodes: seq<NodeSpec>): seq<Rule> {
    seq(|nodes|, i requires 0 <= i < |nodes| => Rule([nodes[i].InboundTag()], OutTag(nodes[i])))
  }

  function NodeOutbounds(nodes: seq<NodeSpec>): seq<Outbound> {
    if nodes == [] then []
    else
      var before, last := NodeOutbounds(nodes[..|nodes| - 1]), nodes[|nodes| - 1];
      if IsDirect(last.outbound) || !IsShadowsocks(last.outbound) then before
      else before + [Shadowsocks(last.OutboundTag(), last.outbound)]
  }

  function ConfigOf(t: Topology): Config {
    Config(InboundsOf(t.nodes), BUILT_IN + NodeOutbounds(t.nodes), RulesOf(t.nodes), "block")
  }

  datatype Generated = Rejected | Ready(config: Config)

  /** generateTopologyConfig: `reachable` says for each node whether its panel config could
      be fetched, matched its protocol and yielded an inbound. */
  method Generate(t: Topology, reachable: seq<bool>) returns (g: Generated)
    requires |reachable| == |t.nodes|
    ensures g.Ready? <==> ValidTopology(t) && forall i :: 0 <= i < |reachable| ==> reachable[i]
    ensures g.Ready? ==> g.config == ConfigOf(t)
  {
    hide ValidTopology, NodeSpec.InboundTag, NodeSpec.OutboundTag, IsDirect, IsShadowsocks;
    var valid := Validate(t);
    if !valid {
      return Rejected;
    }
    var inbounds, outbounds, rules := [], BUILT_IN, [];
    for i := 0 to |t.nodes|
      invariant forall k :: 0 <= k < i ==> reachable[k]
      invariant inbounds == InboundsOf(t.nodes[..i]) && rules == RulesOf(t.nodes[..i])
      invariant outbounds == BUILT_IN + NodeOutbounds(t.nodes[..i])
    {
      var node := t.nodes[i];
      if !reachable[i] {
        return Rejected;
      }
      assert t.nodes[..i + 1][..i] == t.nodes[..i];
      inbounds := inbounds + [node.InboundTag()];
      var outTag := node.OutboundTag();
      if IsDirect(node.outbound) {
        outTag := "direct";
      } else if IsShadowsocks(node.outbound) {
        outbounds := outbounds + [Shadowsocks(node.OutboundTag(), node.outbound)];
      }
      rules := rules + [Rule([node.InboundTag()], outTag)];
    }
    assert t.nodes[..|t.nodes|] == t.nodes;
    return Ready(Config(inbounds, outbounds, rules, "block"));
  }

  // ---- What the router does with it ----

  // The first rule that lists the inbound decides; otherwise the final outbound.
  function Route(rules: seq<Rule>, final: string, inbound: string): string {
    if rules == [] then final
    else if inbound in rules[0].inbound then rules[0].outbound
    else Route(rules[1..], final, inbound)
  }

  lemma {:induction false} RouteFirst(rules: seq<Rule>, final: string, inbound: string, i: nat)
    requires i < |rules| && inbound in rules[i].inbound && forall k :: 0 <= k < i ==> inbound !in rules[k].inbound
    ensures Route(rules, final, inbound) == rules[i].outbound
    decreases i
  {
    if i > 0 { RouteFirst(rules[1..], final, inbound, i - 1); }
  }

  lemma {:induction false} RouteFinal(rules: seq<Rule>, final: string, inbound: string)
    requires forall k :: 0 <= k < |rules| ==> inbound !in rules[k].inbound
    ensures Route(rules, final, inbound) == final
    decreases |rules|
  {
    if rules != [] { RouteFinal(rules[1..], final, inbound); }
  }

  // matchRule, and the final outbound when nothing matches.
  method SelectOutbound(rules: seq<Rule>, final: string, inbound: string) returns (outbound: string)
    ensures outbound == Route(rules, final, inbound)
  {
    for i := 0 to |rules|
      invariant Route(rules[i..], final, inbound) == Route(rules, final, inbound)
    {
      if inbound in rules[i].inbound {
        return rules[i].outbound;
      }
    }
    return final;
  }

  // The outbounds nodes declare, each with its owner.
  lemma {:induction false} NodeOutboundsFrom(nodes: seq<NodeSpec>, j: nat) returns (i: nat)
    requires j < |NodeOutbounds(nodes)|
    ensures i < |nodes| && !IsDirect(nodes[i].outbound) && IsShadowsocks(nodes[i].outbound)
    ensures NodeOutbounds(nodes)[j] == Shadowsocks(nodes[i].OutboundTag(), nodes[i].outbound)
    decreases |nodes|
  {
    hide NodeSpec.OutboundTag, IsDirect, IsShadowsocks;
    var front := nodes[..|nodes| - 1];
    if j < |NodeOutbounds(front)| {
      i := NodeOutboundsFrom(front, j);
    } else {
      i := |nodes| - 1;
    }
  }

  lemma {:induction false} NodeOutboundsHas(nodes: seq<NodeSpec>, i: nat)
    requires i < |nodes| && !IsDirect(nodes[i].outbound) && IsShadowsocks(nodes[i].outbound)
    ensures Shadowsocks(nodes[i].OutboundTag(), nodes[i].outbound) in NodeOutbounds(nodes)
    decreases |nodes|
  {
    hide NodeSpec.OutboundTag, IsDirect, IsShadowsocks;
    if i < |nodes| - 1 { NodeOutboundsHas(nodes[..|nodes| - 1], i); }
  }

  predicate OutboundTagsApart(nodes: seq<NodeSpec>) {
    forall i, j :: 0 <= i < j < |nodes| ==> nodes[i].OutboundTag() != nodes[j].OutboundTag()
  }

  lemma {:induction false} NodeOutboundsDistinct(nodes: seq<NodeSpec>)
    requires OutboundTagsApart(nodes)
    ensures forall i, j :: 0 <= i < j < |NodeOutbounds(nodes)| ==> NodeOutbounds(nodes)[i].tag != NodeOutbounds(nodes)[j].tag
    decreases |nodes|
  {
    hide NodeSpec.OutboundTag, IsDirect, IsShadowsocks;
    if nodes != [] {
      var front, last := nodes[..|nodes| - 1], nodes[|nodes| - 1];
      NodeOutboundsDistinct(front);
      forall j | 0 <= j < |NodeOutbounds(front)|
        ensures NodeOutbounds(front)[j].tag != last.OutboundTag()
      {
        var i := NodeOutboundsFrom(front, j);
        assert nodes[i] == front[i];
      }
    }
  }

  lemma TopologyApart(t: Topology)
    requires ValidTopology(t)
    ensures OutboundTagsApart(t.nodes)
    ensures forall i, j :: 0 <= i < j < |t.nodes| ==> t.nodes[i].InboundTag() != t.nodes[j].InboundTag()
    ensures forall i :: 0 <= i < |t.nodes| ==> IsDirect(t.nodes[i].outbound) || IsShadowsocks(t.nodes[i].outbound)
  {
    hide NodeSpec.Key, NodeSpec.InboundTag, NodeSpec.OutboundTag, IsDirect, IsShadowsocks, ValidNodeID, NormalizeNodeType;
    forall i, j | 0 <= i < j < |t.nodes|
      ensures t.nodes[i].OutboundTag() != t.nodes[j].OutboundTag() && t.nodes[i].InboundTag() != t.nodes[j].InboundTag()
    {
      assert Apart(t.nodes[i], t.nodes[j]);
    }
    forall i | 0 <= i < |t.nodes|
      ensures IsDirect(t.nodes[i].outbound) || IsShadowsocks(t.nodes[i].outbound)
    {
      assert ValidNode(t.nodes[i]);
    }
  }

  // A node's outbound tag is none of the built-in ones.
  lemma NotBuiltIn(n: NodeSpec)
    ensures n.OutboundTag() !in {"direct", "block", "dns-out", ""}
  {
    assert n.OutboundTag()[0] == 'n';
  }

  predicate DistinctOutboundTags(os: seq<Outbound>) {
    forall i, j :: 0 <= i < j < |os| ==> os[i].tag != os[j].tag
  }

  lemma OutboundsDistinct(t: Topology)
    requires ValidTopology(t)
    ensures DistinctOutboundTags(ConfigOf(t).outbounds)
  {
    hide NodeSpec.InboundTag, NodeSpec.OutboundTag, IsDirect, IsShadowsocks, ValidTopology, NodeOutbounds;
    TopologyApart(t);
    NodeOutboundsDistinct(t.nodes);
    forall j | 0 <= j < |NodeOutbounds(t.nodes)|
      ensures NodeOutbounds(t.nodes)[j].tag !in {"direct", "block", "dns-out"}
    {
      var i := NodeOutboundsFrom(t.nodes, j);
      NotBuiltIn(t.nodes[i]);
    }
  }

  /** The translation preserves meaning: under a valid topology the router sends the i-th
      node's inbound to the outbound that node declares, which exists and is the only one
      with its tag: the built-in direct, or the node's own Shadowsocks server. */
  lemma NodeRouted(t: Topology, i: nat)
    requires ValidTopology(t) && i < |t.nodes|
    ensures var c, n := ConfigOf(t), t.nodes[i];
            var target := if IsDirect(n.outbound) then Plain("direct", "direct") else Shadowsocks(n.OutboundTag(), n.outbound);
            && |c.inbounds| == |t.nodes| && c.inbounds[i] == n.InboundTag()
            && Route(c.rules, c.final, n.InboundTag()) == target.tag
            && target in c.outbounds
            && forall o :: o in c.outbounds && o.tag == target.tag ==> o == target
  {
    hide NodeSpec.InboundTag, NodeSpec.OutboundTag, IsDirect, IsShadowsocks, ValidTopology, NodeOutbounds, Route;
    var c, n := ConfigOf(t), t.nodes[i];
    TopologyApart(t);
    RouteFirst(c.rules, c.final, n.InboundTag(), i);
    OutboundsDistinct(t);
    if IsDirect(n.outbound) {
      assert c.outbounds[0] == Plain("direct", "direct");
    } else {
      NodeOutboundsHas(t.nodes, i);
    }
  }

  /** Besides the nodes' own servers a configuration has exactly direct, block and dns-out, and
      every server it names is complete. */
  lemma OutboundsUsable(t: Topology, o: Outbound)
    requires ValidTopology(t) && o in ConfigOf(t).outbounds
    ensures o == Plain("direct", "direct") || o == Plain("block", "block") || o == Plain("dns", "dns-out")
            || (o.Shadowsocks? && o.spec.server != "" && 1 <= o.spec.serverPort <= 65535 && o.spec.cipher != "" && o.spec.password != "")
    ensures Plain("direct", "direct") in ConfigOf(t).outbounds && Plain("block", "block") in ConfigOf(t).outbounds
            && Plain("dns", "dns-out") in ConfigOf(t).outbounds
  {
    hide NodeSpec.InboundTag, NodeSpec.OutboundTag, NodeSpec.Key, IsDirect, IsShadowsocks, NodeOutbounds, ValidNodeID, NormalizeNodeType;
    var os := ConfigOf(t).outbounds;
    assert os[0] == Plain("direct", "direct") && os[1] == Plain("block", "block") && os[2] == Plain("dns", "dns-out");
    var j :| 0 <= j < |os| && os[j] == o;
    if j >= 3 {
      var i := NodeOutboundsFrom(t.nodes, j - 3);
      assert ValidNode(t.nodes[i]);
    }
  }

  /** Traffic of any other inbound goes to block, and block exists. */
  lemma OthersBlocked(t: Topology, inbound: string)
    requires forall i :: 0 <= i < |t.nodes| ==> t.nodes[i].InboundTag() != inbound
    ensures var c := ConfigOf(t);
            Route(c.rules, c.final, inbound) == "block" && Plain("block", "block") in c.outbounds
  {
    hide NodeSpec.InboundTag, NodeSpec.OutboundTag;
    var c := ConfigOf(t);
    RouteFinal(c.rules, c.final, inbound);
    assert c.outbounds[1] == Plain("block", "block");
  }

  // ---- The duplicate checks ----

  // checkInbounds and checkOutbounds skip empty tags.
  predicate NoDuplicates(tags: seq<string>) {
    forall i, j :: 0 <= i < j < |tags| && tags[i] == tags[j] ==> tags[i] == ""
  }

  method CheckTags(tags: seq<string>) returns (ok: bool)
    ensures ok <==> NoDuplicates(tags)
  {
    var seen := {};
    for i := 0 to |tags|
      invariant NoDuplicates(tags[..i])
      invariant forall s :: s in seen <==> s in tags[..i] && s != ""
    {
      if tags[i] != "" {
        if tags[i] in seen {
          var k :| 0 <= k < i && tags[k] == tags[i];
          return false;
        }
        seen := seen + {tags[i]};
      }
    }
    assert tags[..|tags|] == tags;
    return true;
  }

  function OutboundTags(os: seq<Outbound>): seq<string> {
    seq(|os|, i requires 0 <= i < |os| => os[i].tag)
  }

  /** Every configuration generated from a valid topology passes both checks. */
  lemma ChecksAccept(t: Topology)
    requires ValidTopology(t)
    ensures NoDuplicates(ConfigOf(t).inbounds) && NoDuplicates(OutboundTags(ConfigOf(t).outbounds))
  {
    hide NodeSpec.InboundTag, NodeSpec.OutboundTag, IsDirect, IsShadowsocks, ValidTopology, NodeOutbounds;
    TopologyApart(t);
    OutboundsDistinct(t);
  }
}
