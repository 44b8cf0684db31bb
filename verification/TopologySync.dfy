/** Hot user sync in topology mode (cmd/mini-sb-agent/topology_panel.go, node_runtime.go):
    fetch one list per node, check that the lists agree on every user, and apply each
    list to its own node's inbound. */
module TopologySync {
  import opened GoStrings
  import opened Topologies
  import opened Users
  import opened UserManagers

  // ---- Merging the lists of all nodes ----

  predicate SameDefinition(a: User, b: User) {
    a.uuid == b.uuid && a.password == b.password && a.speedLimit == b.speedLimit
  }

  ghost predicate Entry(lists: map<string, seq<User>>, u: User) {
    exists n :: n in lists && u in lists[n]
  }

  // Equal ids mean equal definitions, within a list and across lists.
  ghost predicate Consistent(lists: map<string, seq<User>>) {
    forall u, v :: Entry(lists, u) && Entry(lists, v) && u.id == v.id ==>
                     u.uuid == v.uuid && u.password == v.password && u.speedLimit == v.speedLimit
  }

  // One definition per id met so far.
  ghost predicate Merges(merged: map<int, User>, lists: map<string, seq<User>>, us: seq<User>) {
    forall u :: u in us ==> u.id in merged && Entry(lists, merged[u.id]) && merged[u.id].id == u.id && SameDefinition(merged[u.id], u)
  }

  ghost predicate FromEntries(merged: map<int, User>, lists: map<string, seq<User>>) {
    forall id :: id in merged ==> Entry(lists, merged[id]) && merged[id].id == id
  }

  predicate Extends(m: map<int, User>, m': map<int, User>) {
    forall id :: id in m ==> id in m' && m'[id] == m[id]
  }

  method MergeList(merged: map<int, User>, lists: map<string, seq<User>>, node: string) returns (ok: bool, out: map<int, User>)
    requires node in lists && FromEntries(merged, lists)
    ensures ok ==> FromEntries(out, lists) && Merges(out, lists, lists[node]) && Extends(merged, out)
    ensures !ok ==> !Consistent(lists)
  {
    out := merged;
    var us := lists[node];
    for i := 0 to |us|
      invariant FromEntries(out, lists) && Merges(out, lists, us[..i])
      invariant Extends(merged, out)
    {
      var u := us[i];
      assert Entry(lists, u);
      assert us[..i + 1] == us[..i] + [u];
      if u.id in out {
        if !SameDefinition(out[u.id], u) {
          return false, out;
        }
      } else {
        out := out[u.id := u];
      }
    }
    assert us[..|us|] == us;
    ok := true;
  }

  /** mergeUsersByNode accepts, in every iteration order, if and only if all entries with
      equal id agree on UUID, password and speed limit; it then yields one entry per id. */
  method MergeUsersByNode(lists: map<string, seq<User>>) returns (ok: bool, merged: map<int, User>)
    ensures ok <==> Consistent(lists)
    ensures ok ==> FromEntries(merged, lists) && forall u :: Entry(lists, u) ==> u.id in merged
  {
    hide SameDefinition;
    merged := map[];
    var todo := lists.Keys;
    while todo != {}
      invariant todo <= lists.Keys && FromEntries(merged, lists)
      invariant forall n :: n in lists && n !in todo ==> Merges(merged, lists, lists[n])
    {
      var node :| node in todo;
      var fine, next := MergeList(merged, lists, node);
      if !fine {
        return false, map[];
      }
      forall n | n in lists && n !in todo
        ensures Merges(next, lists, lists[n])
      {
        StillMerges(merged, next, lists, lists[n]);
      }
      merged, todo := next, todo - {node};
    }
    AllMerged(merged, lists);
    return true, merged;
  }

  lemma StillMerges(merged: map<int, User>, next: map<int, User>, lists: map<string, seq<User>>, us: seq<User>)
    requires Merges(merged, lists, us) && Extends(merged, next)
    ensures Merges(next, lists, us)
  {
    hide SameDefinition, Entry;
  }

  lemma AllMerged(merged: map<int, User>, lists: map<string, seq<User>>)
    requires forall n :: n in lists ==> Merges(merged, lists, lists[n])
    ensures Consistent(lists) && forall u :: Entry(lists, u) ==> u.id in merged
  {
    forall u | Entry(lists, u)
      ensures u.id in merged && SameDefinition(merged[u.id], u)
    {
      var n :| n in lists && u in lists[n];
      assert Merges(merged, lists, lists[n]);
    }
  }

  /** Consistent lists make the union of snapshots independent of the order in which it
      was built: it agrees with every list on UUID, password and speed limit. */
  lemma UnionAgrees(lists: map<string, seq<User>>, union: Snapshot, tag: string, id: int)
    requires Consistent(lists) && UnionOf(union, IndexAll(lists))
    requires tag in lists && id in UsersByID(lists[tag])
    ensures id in union
    ensures var u, v := union[id], UsersByID(lists[tag])[id]; u.uuid == v.uuid && u.password == v.password && u.speedLimit == v.speedLimit
  {
    hide UsersByID;
    IndexFacts(lists[tag]);
    assert id in IndexAll(lists)[tag];
    var t :| t in IndexAll(lists) && id in IndexAll(lists)[t] && IndexAll(lists)[t][id] == union[id];
    IndexFacts(lists[t]);
    assert Entry(lists, union[id]) && Entry(lists, UsersByID(lists[tag])[id]);
  }

  // ---- From node keys to inbound tags ----

  method GroupNodeUsers(nodes: seq<NodeSpec>, byNode: map<string, seq<User>>) returns (out: map<string, seq<User>>)
    requires forall i, j :: 0 <= i < j < |nodes| ==> nodes[i].InboundTag() != nodes[j].InboundTag()
    ensures out.Keys == set i | 0 <= i < |nodes| :: nodes[i].InboundTag()
    ensures forall i :: 0 <= i < |nodes| ==> out[nodes[i].InboundTag()] == ListOf(byNode, nodes[i].Key())
  {
    hide NodeSpec.InboundTag, NodeSpec.Key;
    out := map[];
    for i := 0 to |nodes|
      invariant out.Keys == set k | 0 <= k < i :: nodes[k].InboundTag()
      invariant forall k :: 0 <= k < i ==> out[nodes[k].InboundTag()] == ListOf(byNode, nodes[k].Key())
    {
      out := out[nodes[i].InboundTag() := ListOf(byNode, nodes[i].Key())];
    }
  }

  // ---- A whole fetch ----

  function Decimal(n: int): string {
    if n < 0 then "-" + Itoa(-n) else Itoa(n)
  }

  // Client.FetchUsers: a missing password is the UUID, a missing name the id.
  function Completed(u: User): User {
    u.(password := if u.password == "" then u.uuid else u.password,
       name := if u.name == "" then Decimal(u.id) else u.name)
  }

  /** Only what the panel left out is filled in: the UUID for a missing password, the decimal
      id for a missing name. */
  lemma CompletedMeans(u: User)
    ensures Completed(u).id == u.id && Completed(u).uuid == u.uuid && Completed(u).speedLimit == u.speedLimit
    ensures u.password != "" ==> Completed(u).password == u.password
    ensures u.password == "" ==> Completed(u).password == u.uuid
    ensures u.name != "" ==> Completed(u).name == u.name
    ensures u.name == "" && u.id >= 0 ==> Canonical(Completed(u).name) && Value(Completed(u).name) == u.id
  {
    if u.id >= 0 { ValueOfItoa(u.id); }
  }

  function CompletedAll(us: seq<User>): seq<User> {
    seq(|us|, i requires 0 <= i < |us| => Completed(us[i]))
  }

  // What the panel answered for one node.
  datatype Answer = Failed | Listed(users: seq<User>)

  // The lists by node key, or nothing when some node could not be fetched.
  method FetchAll(nodes: seq<NodeSpec>, answers: seq<Answer>) returns (ok: bool, byNode: map<string, seq<User>>)
    requires |answers| == |nodes|
    requires forall i, j :: 0 <= i < j < |nodes| ==> nodes[i].Key() != nodes[j].Key()
    ensures ok <==> forall i :: 0 <= i < |nodes| ==> answers[i].Listed?
    ensures ok ==> byNode.Keys == set i | 0 <= i < |nodes| :: nodes[i].Key()
    ensures ok ==> forall i :: 0 <= i < |nodes| ==> byNode[nodes[i].Key()] == CompletedAll(answers[i].users)
  {
    hide NodeSpec.Key, CompletedAll;
    byNode := map[];
    for i := 0 to |nodes|
      invariant forall k :: 0 <= k < i ==> answers[k].Listed?
      invariant byNode.Keys == set k | 0 <= k < i :: nodes[k].Key()
      invariant forall k :: 0 <= k < i ==> byNode[nodes[k].Key()] == CompletedAll(answers[k].users)
    {
      if answers[i].Failed? {
        return false, byNode;
      }
      byNode := byNode[nodes[i].Key() := CompletedAll(answers[i].users)];
    }
    return true, byNode;
  }

  lemma NodesApart(t: Topology)
    requires ValidTopology(t)
    ensures forall i, j :: 0 <= i < j < |t.nodes| ==> t.nodes[i].Key() != t.nodes[j].Key() && t.nodes[i].InboundTag() != t.nodes[j].InboundTag()
  {
    hide NodeSpec.Key, NodeSpec.InboundTag, NodeSpec.OutboundTag, ValidNode;
    forall i, j | 0 <= i < j < |t.nodes|
      ensures t.nodes[i].Key() != t.nodes[j].Key() && t.nodes[i].InboundTag() != t.nodes[j].InboundTag()
    {
      assert Apart(t.nodes[i], t.nodes[j]);
    }
  }

  // The snapshot a node's inbound is to serve.
  function NodeSnapshot(a: Answer): Snapshot
    requires a.Listed?
  {
    UsersByID(CompletedAll(a.users))
  }

  // Entries of any two nodes with equal id agree.
  ghost predicate AnswersAgree(answers: seq<Answer>) {
    forall i, j, u, v :: 0 <= i < |answers| && 0 <= j < |answers| && answers[i].Listed? && answers[j].Listed?
                         && u in CompletedAll(answers[i].users) && v in CompletedAll(answers[j].users) && u.id == v.id
                         ==> u.uuid == v.uuid && u.password == v.password && u.speedLimit == v.speedLimit
  }

  lemma ConsistentAnswers(nodes: seq<NodeSpec>, answers: seq<Answer>, byNode: map<string, seq<User>>)
    requires |answers| == |nodes| && forall i :: 0 <= i < |nodes| ==> answers[i].Listed?
    requires byNode.Keys == set i | 0 <= i < |nodes| :: nodes[i].Key()
    requires forall i :: 0 <= i < |nodes| ==> byNode[nodes[i].Key()] == CompletedAll(answers[i].users)
    ensures Consistent(byNode) <==> AnswersAgree(answers)
  {
    hide NodeSpec.Key, CompletedAll, SameDefinition;
    if Consistent(byNode) {
      forall i, j, u, v | 0 <= i < |answers| && 0 <= j < |answers| && answers[i].Listed? && answers[j].Listed?
                          && u in CompletedAll(answers[i].users) && v in CompletedAll(answers[j].users) && u.id == v.id
        ensures u.uuid == v.uuid && u.password == v.password && u.speedLimit == v.speedLimit
      {
        assert u in byNode[nodes[i].Key()] && v in byNode[nodes[j].Key()];
        assert Entry(byNode, u) && Entry(byNode, v);
      }
    }
    if AnswersAgree(answers) {
      forall u, v | Entry(byNode, u) && Entry(byNode, v) && u.id == v.id
        ensures u.uuid == v.uuid && u.password == v.password && u.speedLimit == v.speedLimit
      {
        var m :| m in byNode && u in byNode[m];
        var n :| n in byNode && v in byNode[n];
        var i :| 0 <= i < |nodes| && nodes[i].Key() == m;
        var j :| 0 <= j < |nodes| && nodes[j].Key() == n;
      }
    }
  }

  /** Everything FetchUsers decides before it applies: it goes ahead if and only if every
      node was fetched and all lists agree, and then each inbound tag gets exactly the list
      of its own node. */
  method PrepareLists(t: Topology, answers: seq<Answer>) returns (ok: bool, lists: map<string, seq<User>>)
    requires ValidTopology(t) && |answers| == |t.nodes|
    ensures ok <==> (forall i :: 0 <= i < |answers| ==> answers[i].Listed?) && AnswersAgree(answers)
    ensures ok ==> lists.Keys == set i | 0 <= i < |t.nodes| :: t.nodes[i].InboundTag()
    ensures ok ==> forall i :: 0 <= i < |t.nodes| ==> lists[t.nodes[i].InboundTag()] == CompletedAll(answers[i].users)
  {
    hide ValidTopology, NodeSpec.Key, NodeSpec.InboundTag, CompletedAll, Consistent, AnswersAgree;
    NodesApart(t);
    var byNode, merged;
    ok, byNode := FetchAll(t.nodes, answers);
    if !ok {
      return ok, map[];
    }
    ConsistentAnswers(t.nodes, answers, byNode);
    ok, merged := MergeUsersByNode(byNode);
    if !ok {
      return ok, map[];
    }
    lists := GroupNodeUsers(t.nodes, byNode);
  }

  /** Node isolation, end to end: for a validated topology, a successful fetch commits for
      each node's inbound exactly the users fetched for that node, and every inbound that
      was in sync lets in exactly those (credentials of its old and new list being
      distinct), having closed exactly the Hysteria 2 streams of users removed from it; a failed fetch or
      conflicting definitions change nothing at all. */
  method FetchUsers(t: Topology, answers: seq<Answer>, manager: UserManager, inbounds: map<string, InboundRef>, now: real)
    returns (ok: bool)
    requires ValidTopology(t) && |answers| == |t.nodes|
    requires manager.Valid() && DistinctRefs(inbounds) && AllUsable(inbounds)
    modifies manager, manager.table, manager.table.Pairs(), Vlesses(inbounds), Hysterias(inbounds)
    ensures manager.Valid() && AllUsable(inbounds)
    ensures ok <==> (forall i :: 0 <= i < |answers| ==> answers[i].Listed?) && AnswersAgree(answers)
    ensures ok ==> forall i :: 0 <= i < |t.nodes| ==> SnapshotOf(manager.byInbound, t.nodes[i].InboundTag()) == NodeSnapshot(answers[i])
    ensures ok ==> old(SyncedTags(inbounds, manager.byInbound) * DistinctTags(inbounds, manager.byInbound)) * DistinctTags(inbounds, manager.byInbound)
                   <= SyncedTags(inbounds, manager.byInbound)
    ensures ok ==> AllPurged(inbounds, old(SyncedTags(inbounds, manager.byInbound) * DistinctTags(inbounds, manager.byInbound)) * DistinctTags(inbounds, manager.byInbound),
                             old(manager.byInbound), manager.byInbound, old(AllSessions(inbounds)), AllSessions(inbounds))
    ensures !ok ==> unchanged(manager, manager.table, Vlesses(inbounds), Hysterias(inbounds))
    ensures !ok ==> forall p :: p in old(manager.table.Pairs()) ==> unchanged(p)
  {
    hide ValidTopology, UserManager.Valid, DistinctRefs, AllUsable, NodeSpec.InboundTag, AnswersAgree, CompletedAll, UsersByID, SyncedTags, DistinctTags, IndexAll, AllPurged, AllSessions;
    var lists;
    ok, lists := PrepareLists(t, answers);
    if !ok {
      return;
    }
    manager.ApplyBoxByInbound(inbounds, lists, now);
    forall i | 0 <= i < |t.nodes|
      ensures SnapshotOf(manager.byInbound, t.nodes[i].InboundTag()) == NodeSnapshot(answers[i])
    {
      SnapshotOfIndex(lists, t.nodes[i].InboundTag());
    }
  }
}
