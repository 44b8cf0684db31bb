/** Node identities and the topology check of panelapi/topology.go. */
module Topologies {
  import opened GoStrings

  datatype OutboundSpec = OutboundSpec(kind: string, server: string, serverPort: int, cipher: string,
                                       password: string, plugin: string, pluginOpts: string)

  datatype NodeSpec = NodeSpec(nodeID: string, nodeType: string, tag: string, outbound: OutboundSpec) {
    function Key(): string {
      NodeKey(nodeType, nodeID)
    }

    function Protocol(): string {
      var protocol := NormalizeNodeType(nodeType);
      if protocol == "hysteria" then "hy2" else protocol
    }

    function InboundTag(): string {
      var safe := SafeTagPart(tag);
      if safe != "" then safe else Protocol() + "-" + SafeTagPart(nodeID) + "-in"
    }

    function OutboundTag(): string {
      "node-" + Protocol() + "-" + SafeTagPart(nodeID) + "-out"
    }
  }

  datatype Topology = Topology(nodes: seq<NodeSpec>)

  function NormalizeNodeType(nodeType: string): string {
    var t := ToLower(TrimSpace(nodeType));
    if t in {"vless", "vless-reality", "reality"} then "vless"
    else if t in {"hy2", "hysteria", "hysteria2"} then "hysteria"
    else t
  }

  function NodeKey(nodeType: string, nodeID: string): string {
    NormalizeNodeType(nodeType) + ":" + TrimSpace(nodeID)
  }

  predicate IsTagSafe(c: char) {
    'a' <= c <= 'z' || 'A' <= c <= 'Z' || '0' <= c <= '9' || c == '_' || c == '-'
  }

  function DropUnsafe(s: string): (r: string)
    ensures |r| <= |s|
    ensures s != "" && !IsTagSafe(s[0]) ==> |r| < |s|
  {
    if s != "" && !IsTagSafe(s[0]) then DropUnsafe(s[1..]) else s
  }

  // Every run of unsafe characters becomes one dash.
  function Dashed(s: string): string
    decreases |s|
  {
    if s == "" then ""
    else if IsTagSafe(s[0]) then [s[0]] + Dashed(s[1..])
    else "-" + Dashed(DropUnsafe(s))
  }

  function SafeTagPart(value: string): string {
    var dash := (c: char) => c == '-';
    TrimRight(TrimLeft(Dashed(TrimSpace(value)), dash), dash)
  }

  predicate ValidNodeID(nodeID: string) {
    var id := TrimSpace(nodeID);
    id != "" && !Contains(id, "/") && !Contains(id, "\\") && !Contains(id, "..")
  }

  predicate IsDirect(o: OutboundSpec) {
    ToLower(TrimSpace(o.kind)) == "direct"
  }

  predicate IsShadowsocks(o: OutboundSpec) {
    ToLower(TrimSpace(o.kind)) in {"shadowsocks", "ss"}
  }

  predicate ValidOutbound(o: OutboundSpec) {
    || IsDirect(o)
    || (IsShadowsocks(o) && o.server != "" && 0 < o.serverPort <= 65535 && o.cipher != "" && o.password != "")
  }

  predicate ValidNode(n: NodeSpec) {
    ValidNodeID(n.nodeID) && NormalizeNodeType(n.nodeType) in {"vless", "hysteria"} && ValidOutbound(n.outbound)
  }

  // Two nodes that share no identity: key, inbound tag and outbound tag all differ.
  predicate Apart(m: NodeSpec, n: NodeSpec) {
    m.Key() != n.Key() && m.InboundTag() != n.InboundTag() && m.OutboundTag() != n.OutboundTag()
  }

  predicate ValidTopology(t: Topology) {
    && t.nodes != []
    && (forall i :: 0 <= i < |t.nodes| ==> ValidNode(t.nodes[i]))
    && (forall i, j :: 0 <= i < j < |t.nodes| ==> Apart(t.nodes[i], t.nodes[j]))
  }

  /** Validate accepts exactly the topologies whose nodes are well formed and
      pairwise apart. */
  method Validate(t: Topology) returns (ok: bool)
    ensures ok <==> ValidTopology(t)
    ensures ok ==> t.nodes != []
  {
    hide NodeSpec.Key, NodeSpec.InboundTag, NodeSpec.OutboundTag, NormalizeNodeType, ValidNodeID, TrimSpace, ToLower;
    if |t.nodes| == 0 {
      return false;
    }
    var seenKeys: set<string>, seenTags: set<string>, seenOutboundTags: set<string> := {}, {}, {};
    for i := 0 to |t.nodes|
      invariant forall k :: 0 <= k < i ==> ValidNode(t.nodes[k])
      invariant forall k, l :: 0 <= k < l < i ==> Apart(t.nodes[k], t.nodes[l])
      invariant seenKeys == set k | 0 <= k < i :: t.nodes[k].Key()
      invariant seenTags == set k | 0 <= k < i :: t.nodes[k].InboundTag()
      invariant seenOutboundTags == set k | 0 <= k < i :: t.nodes[k].OutboundTag()
    {
      var node := t.nodes[i];
      if !ValidNodeID(node.nodeID) || NormalizeNodeType(node.nodeType) !in {"vless", "hysteria"} {
        return false;
      }
      if node.Key() in seenKeys {
        return false;
      }
      seenKeys := seenKeys + {node.Key()};
      if node.InboundTag() in seenTags {
        return false;
      }
      seenTags := seenTags + {node.InboundTag()};
      if node.OutboundTag() in seenOutboundTags {
        return false;
      }
      seenOutboundTags := seenOutboundTags + {node.OutboundTag()};
      if IsDirect(node.outbound) {
      } else if IsShadowsocks(node.outbound) {
        if node.outbound.server == "" || node.outbound.serverPort <= 0 || node.outbound.serverPort > 65535
           || node.outbound.cipher == "" || node.outbound.password == "" {
          return false;
        }
      } else {
        return false;
      }
    }
    return true;
  }

  // ---- Identities ----

  datatype Family = VlessNode | Hysteria2Node | OtherNode

  // The protocol a node type names, however it is spelled.
  function FamilyOf(nodeType: string): Family {
    var t := ToLower(TrimSpace(nodeType));
    if t == "vless" || t == "vless-reality" || t == "reality" then VlessNode
    else if t == "hy2" || t == "hysteria" || t == "hysteria2" then Hysteria2Node
    else OtherNode
  }

  lemma NormalizedFamily(nodeType: string)
    ensures FamilyOf(nodeType).VlessNode? <==> NormalizeNodeType(nodeType) == "vless"
    ensures FamilyOf(nodeType).Hysteria2Node? <==> NormalizeNodeType(nodeType) == "hysteria"
    ensures FamilyOf(nodeType).OtherNode? ==> NormalizeNodeType(nodeType) == ToLower(TrimSpace(nodeType))
  {
    hide ToLower, TrimSpace;
  }

  /** Two nodes of known protocols are the same node exactly when protocol and id both match:
      vless:21 and hysteria:21 stay distinct. */
  lemma SameNodeIff(type1: string, id1: string, type2: string, id2: string)
    requires !FamilyOf(type1).OtherNode? && !FamilyOf(type2).OtherNode?
    ensures NodeKey(type1, id1) == NodeKey(type2, id2) <==> FamilyOf(type1) == FamilyOf(type2) && TrimSpace(id1) == TrimSpace(id2)
  {
    hide NormalizeNodeType, FamilyOf, TrimSpace;
    NormalizedFamily(type1);
    NormalizedFamily(type2);
    var p1, p2 := NormalizeNodeType(type1), NormalizeNodeType(type2);
    var k1, k2 := NodeKey(type1, id1), NodeKey(type2, id2);
    assert "vless"[0] == 'v' && "hysteria"[0] == 'h';
    assert k1[0] == p1[0] && k2[0] == p2[0];
    if k1 == k2 {
      assert p1 == p2;
      assert k1[|p1| + 1..] == TrimSpace(id1) && k2[|p2| + 1..] == TrimSpace(id2);
    }
  }

  /** The tags of a node: an explicit one wins, made safe; otherwise both follow protocol and id. */
  lemma TagsOf(n: NodeSpec)
    ensures SafeTagPart(n.tag) != "" ==> n.InboundTag() == SafeTagPart(n.tag)
    ensures SafeTagPart(n.tag) == "" && FamilyOf(n.nodeType).VlessNode? ==> n.InboundTag() == "vless-" + SafeTagPart(n.nodeID) + "-in"
    ensures SafeTagPart(n.tag) == "" && FamilyOf(n.nodeType).Hysteria2Node? ==> n.InboundTag() == "hy2-" + SafeTagPart(n.nodeID) + "-in"
    ensures FamilyOf(n.nodeType).VlessNode? ==> n.OutboundTag() == "node-vless-" + SafeTagPart(n.nodeID) + "-out"
    ensures FamilyOf(n.nodeType).Hysteria2Node? ==> n.OutboundTag() == "node-hy2-" + SafeTagPart(n.nodeID) + "-out"
  {
    hide NormalizeNodeType, FamilyOf, SafeTagPart;
    NormalizedFamily(n.nodeType);
    if FamilyOf(n.nodeType).VlessNode? {
      assert "vless" + "-" == "vless-" && "node-" + "vless" + "-" == "node-vless-";
    }
    if FamilyOf(n.nodeType).Hysteria2Node? {
      assert "hy2" + "-" == "hy2-" && "node-" + "hy2" + "-" == "node-hy2-";
    }
  }

  // Letters, digits, underscore and dash.
  predicate PlainTag(s: string) {
    forall c :: c in s ==> 'a' <= c <= 'z' || 'A' <= c <= 'Z' || '0' <= c <= '9' || c == '_' || c == '-'
  }

  lemma {:induction false} DashedPlain(s: string)
    ensures PlainTag(Dashed(s))
    decreases |s|
  {
    if s != "" {
      if IsTagSafe(s[0]) { DashedPlain(s[1..]); } else { DashedPlain(DropUnsafe(s)); }
    }
  }

  lemma {:induction false} DashedKeeps(s: string)
    requires PlainTag(s)
    ensures Dashed(s) == s
    decreases |s|
  {
    if s != "" {
      assert s[0] in s && forall c :: c in s[1..] ==> c in s;
      DashedKeeps(s[1..]);
    }
  }

  /** Every run of other characters becomes one dash between what it separates. */
  lemma {:induction false} DashedSplits(a: string, gap: string, b: string)
    requires PlainTag(a) && gap != "" && (forall c :: c in gap ==> !PlainTag([c])) && (b != "" ==> PlainTag([b[0]]))
    ensures Dashed(a + gap + b) == a + "-" + Dashed(b)
    decreases |a|
  {
    if a == "" {
      assert a + gap + b == gap + b && gap[0] in gap;
      assert gap[0] in [gap[0]];
      GapDropped(gap, b);
    } else {
      assert a[0] in a && forall c :: c in a[1..] ==> c in a;
      assert (a + gap + b)[1..] == a[1..] + gap + b;
      DashedSplits(a[1..], gap, b);
    }
  }

  lemma {:induction false} GapDropped(gap: string, b: string)
    requires (forall c :: c in gap ==> !PlainTag([c])) && (b != "" ==> PlainTag([b[0]]))
    ensures DropUnsafe(gap + b) == b
    decreases |gap|
  {
    if gap == "" {
      assert gap + b == b;
      if b != "" { assert b[0] in [b[0]]; }
    } else {
      assert gap[0] in gap && forall c :: c in gap[1..] ==> c in gap;
      assert (gap + b)[1..] == gap[1..] + b;
      GapDropped(gap[1..], b);
    }
  }

  /** A safe tag part holds plain characters only and no dash at either end; and a value that
      is already so, once trimmed, is kept as it is. */
  lemma SafeTagMeans(value: string)
    ensures PlainTag(SafeTagPart(value))
    ensures SafeTagPart(value) != "" ==> SafeTagPart(value)[0] != '-' && SafeTagPart(value)[|SafeTagPart(value)| - 1] != '-'
    ensures var v := TrimSpace(value);
            PlainTag(v) && v != "" && v[0] != '-' && v[|v| - 1] != '-' ==> SafeTagPart(value) == v
  {
    hide Dashed, TrimSpace;
    var v := TrimSpace(value);
    var dash := (c: char) => c == '-';
    DashedPlain(v);
    var ahead := TrimLeftMeans(Dashed(v), dash);
    var behind := TrimRightMeans(TrimLeft(Dashed(v), dash), dash);
    var t := SafeTagPart(value);
    assert Dashed(v) == ahead + (t + behind);
    assert forall c :: c in t ==> c in Dashed(v);
    if t != "" { assert TrimLeft(Dashed(v), dash)[0] == t[0]; }
    if PlainTag(v) { DashedKeeps(v); }
  }

  lemma ContainsChar(s: string, c: char)
    ensures Contains(s, [c]) <==> c in s
  {
    if Contains(s, [c]) {
      var i :| 0 <= i <= |s| && [c] <= s[i..];
      assert s[i] == c;
    }
    if c in s {
      var i :| 0 <= i < |s| && s[i] == c;
      assert [c] <= s[i..];
    }
  }

  lemma ContainsDots(s: string)
    ensures Contains(s, "..") <==> exists i :: 0 <= i < |s| - 1 && s[i] == '.' && s[i + 1] == '.'
  {
    if Contains(s, "..") {
      var i :| 0 <= i <= |s| && ".." <= s[i..];
      assert s[i] == s[i..][0] == '.' && s[i + 1] == s[i..][1] == '.';
    }
    if i :| 0 <= i < |s| - 1 && s[i] == '.' && s[i + 1] == '.' {
      assert s[i..][0] == '.' && s[i..][1] == '.';
      assert ".." <= s[i..];
    }
  }

  /** What makes a node acceptable, character by character and field by field. */
  lemma ValidNodeIff(n: NodeSpec)
    ensures ValidNode(n) <==>
            && TrimSpace(n.nodeID) != "" && '/' !in TrimSpace(n.nodeID) && '\\' !in TrimSpace(n.nodeID)
            && !(exists i :: 0 <= i < |TrimSpace(n.nodeID)| - 1 && TrimSpace(n.nodeID)[i] == '.' && TrimSpace(n.nodeID)[i + 1] == '.')
            && (FamilyOf(n.nodeType).VlessNode? || FamilyOf(n.nodeType).Hysteria2Node?)
            && var kind := ToLower(TrimSpace(n.outbound.kind));
               || kind == "direct"
               || ((kind == "shadowsocks" || kind == "ss") && n.outbound.server != "" && 1 <= n.outbound.serverPort <= 65535
                   && n.outbound.cipher != "" && n.outbound.password != "")
  {
    hide TrimSpace, ToLower, NormalizeNodeType, FamilyOf, Contains;
    var id := TrimSpace(n.nodeID);
    NormalizedFamily(n.nodeType);
    ContainsChar(id, '/');
    ContainsChar(id, '\\');
    ContainsDots(id);
    assert ['/'] == "/" && ['\\'] == "\\";
  }
}
