/** The control panel's idempotent traffic store (panelserver/store.go) and the sender
    that may retry a batch (panelapi/control_plane.go).

    Requests can be lost, repeated and reordered, so the store is specified against the
    history of operations that reached it: what was accepted is decided by the history
    alone, and the store's maps must agree with it. */
module Stores {
  import opened GoStrings
  import opened Topologies
  import T = Traffic

  datatype TrafficItem = TrafficItem(nodeID: string, nodeType: string, userID: int, amount: T.Pair)
  datatype TrafficPush = TrafficPush(batchID: string, items: seq<TrafficItem>)
  datatype UsageKey = UsageKey(agentID: string, nodeKey: string, userID: int)
  datatype BatchKey = BatchKey(agentID: string, batchID: string)

  datatype Reply = Rejected | Duplicate | Applied {
    // The HTTP layer answers 202 Accepted to both.
    predicate Success() { Duplicate? || Applied? }
  }

  // ---- What one operation does ----

  datatype State = State(agents: map<string, string>, topologies: map<string, Topology>,
                         usage: map<UsageKey, T.Pair>, batches: set<BatchKey>)

  function NodeKeys(t: Topology): set<string> {
    set i | 0 <= i < |t.nodes| :: t.nodes[i].Key()
  }

  predicate ValidItem(item: TrafficItem, owned: set<string>) {
    && item.nodeID != "" && item.nodeType != "" && item.userID > 0 && item.amount.NonNegative()
    && NodeKey(item.nodeType, item.nodeID) in owned
  }

  predicate ValidItems(items: seq<TrafficItem>, owned: set<string>) {
    forall i :: 0 <= i < |items| ==> ValidItem(items[i], owned)
  }

  function KeyOf(agentID: string, item: TrafficItem): UsageKey {
    UsageKey(agentID, NodeKey(item.nodeType, item.nodeID), item.userID)
  }

  function UsageOf(usage: map<UsageKey, T.Pair>, k: UsageKey): T.Pair {
    if k in usage then usage[k] else T.ZERO
  }

  function AddItems(usage: map<UsageKey, T.Pair>, agentID: string, items: seq<TrafficItem>): map<UsageKey, T.Pair> {
    if items == [] then usage
    else
      var before, last := AddItems(usage, agentID, items[..|items| - 1]), items[|items| - 1];
      var k := KeyOf(agentID, last);
      before[k := UsageOf(before, k).Plus(last.amount)]
  }

  function Settle(s: State, agentID: string, push: TrafficPush): (State, Reply) {
    var bk := BatchKey(agentID, push.batchID);
    if push.batchID == "" || agentID !in s.agents then (s, Rejected)
    else if bk in s.batches then (s, Duplicate)
    else if agentID !in s.topologies || !ValidItems(push.items, NodeKeys(s.topologies[agentID])) then (s, Rejected)
    else (s.(usage := AddItems(s.usage, agentID, push.items), batches := s.batches + {bk}), Applied)
  }

  datatype Op =
    | PutAgent(id: string, secret: string)
    | PutTopology(id: string, topology: Topology)
    | Deliver(id: string, push: TrafficPush)

  function Apply(s: State, op: Op): State {
    match op
    case PutAgent(id, secret) => if id == "" || secret == "" then s else s.(agents := s.agents[id := secret])
    case PutTopology(id, t) => if !ValidTopology(t) || id !in s.agents then s else s.(topologies := s.topologies[id := t])
    case Deliver(id, push) => Settle(s, id, push).0
  }

  const EMPTY := State(map[], map[], map[], {})

  function Replay(h: seq<Op>): State {
    if h == [] then EMPTY else Apply(Replay(h[..|h| - 1]), h[|h| - 1])
  }

  class Store {
    var agents: map<string, string>
    var topologies: map<string, Topology>
    var usage: map<UsageKey, T.Pair>
    var batches: set<BatchKey>

    function View(): State
      reads this
    {
      State(agents, topologies, usage, batches)
    }

    constructor ()
      ensures View() == EMPTY
    {
      agents, topologies, usage, batches := map[], map[], map[], {};
    }

    method PutAgent(id: string, secret: string) returns (ok: bool)
      modifies this
      ensures View() == Apply(old(View()), Op.PutAgent(id, secret))
      ensures ok <==> id != "" && secret != ""
    {
      if id == "" || secret == "" {
        return false;
      }
      agents := agents[id := secret];
      return true;
    }

    /** Some agent with this secret, whichever the map yields first; none only if nobody has it. */
    method AgentBySecret(secret: string) returns (found: bool, id: string)
      ensures found ==> id in agents && agents[id] == secret
      ensures found <==> exists a :: a in agents && agents[a] == secret
    {
      var todo := agents.Keys;
      while todo != {}
        invariant forall a :: a in agents && agents[a] == secret ==> a in todo
      {
        var a :| a in todo;
        if a in agents && agents[a] == secret {
          return true, a;
        }
        todo := todo - {a};
      }
      return false, "";
    }

    method PutTopology(id: string, t: Topology) returns (ok: bool)
      modifies this
      ensures View() == Apply(old(View()), Op.PutTopology(id, t))
      ensures ok <==> ValidTopology(t) && id in agents
    {
      hide ValidTopology;
      var valid := Validate(t);
      if !valid || id !in agents {
        return false;
      }
      topologies := topologies[id := t];
      return true;
    }

    method ApplyTraffic(agentID: string, push: TrafficPush) returns (reply: Reply)
      modifies this
      ensures View() == Apply(old(View()), Deliver(agentID, push))
      ensures reply == Settle(old(View()), agentID, push).1
    {
      hide NodeKey, NodeSpec.Key, T.Pair.NonNegative;
      if push.batchID == "" || agentID !in agents {
        return Rejected;
      }
      var bk := BatchKey(agentID, push.batchID);
      if bk in batches {
        return Duplicate;
      }
      if agentID !in topologies {
        return Rejected;
      }
      var owned := {};
      var nodes := topologies[agentID].nodes;
      for i := 0 to |nodes|
        invariant owned == set j | 0 <= j < i :: nodes[j].Key()
      {
        owned := owned + {nodes[i].Key()};
      }
      for i := 0 to |push.items|
        invariant ValidItems(push.items[..i], owned)
      {
        if !ValidItem(push.items[i], owned) {
          assert !ValidItems(push.items, owned);
          return Rejected;
        }
      }
      assert push.items[..|push.items|] == push.items;
      for i := 0 to |push.items|
        invariant usage == AddItems(old(usage), agentID, push.items[..i])
        invariant agents == old(agents) && topologies == old(topologies) && batches == old(batches)
      {
        assert push.items[..i + 1][..i] == push.items[..i];
        var k := KeyOf(agentID, push.items[i]);
        var was := if k in usage then usage[k] else T.ZERO;
        usage := usage[k := was.Plus(push.items[i].amount)];
      }
      batches := batches + {bk};
      return Applied;
    }

    /** Usage reads one account, identified by agent, normalized protocol and node id. */
    method Usage(agentID: string, nodeType: string, nodeID: string, userID: int) returns (u: T.Pair)
      ensures u == UsageOf(usage, UsageKey(agentID, NodeKey(nodeType, nodeID), userID))
    {
      var k := UsageKey(agentID, NodeKey(nodeType, nodeID), userID);
      u := if k in usage then usage[k] else T.ZERO;
    }
  }

  // ---- What the history says ----

  predicate Registered(h: seq<Op>, id: string) {
    h != [] && var last := h[|h| - 1];
    Registered(h[..|h| - 1], id) || (last.PutAgent? && last.id == id != "" && last.secret != "")
  }

  // The secret of an agent's last registration.
  function SecretIn(h: seq<Op>, id: string): string {
    if h == [] then ""
    else
      var front, last := h[..|h| - 1], h[|h| - 1];
      if last.PutAgent? && last.id == id != "" && last.secret != "" then last.secret else SecretIn(front, id)
  }

  datatype Assignment = Unassigned | Assigned(topology: Topology)

  // The last valid topology given to a registered agent.
  function AssignmentIn(h: seq<Op>, id: string): Assignment {
    if h == [] then Unassigned
    else
      var front, last := h[..|h| - 1], h[|h| - 1];
      if last.PutTopology? && last.id == id && ValidTopology(last.topology) && Registered(front, id) then Assigned(last.topology)
      else AssignmentIn(front, id)
  }

  /** The i-th operation is the first good delivery of its batch: its agent is known and
      has a topology at that time, every item is valid and on one of the agent's nodes,
      and no earlier delivery of the same agent's batch was accepted. */
  predicate AcceptedAt(h: seq<Op>, i: nat)
    requires i < |h|
    decreases i
  {
    GoodDelivery(h[..i], h[i]) && forall j: nat :: j < i && SameBatch(h, j, i) ==> !AcceptedAt(h, j)
  }

  predicate GoodDelivery(before: seq<Op>, op: Op) {
    && op.Deliver? && op.push.batchID != "" && Registered(before, op.id)
    && AssignmentIn(before, op.id).Assigned?
    && ValidItems(op.push.items, NodeKeys(AssignmentIn(before, op.id).topology))
  }

  predicate SameBatch(h: seq<Op>, i: nat, j: nat)
    requires i < |h| && j < |h|
  {
    h[i].Deliver? && h[j].Deliver? && h[i].id == h[j].id && h[i].push.batchID == h[j].push.batchID
  }

  // An item is for this agent's user on this node.
  predicate IsFor(agentID: string, item: TrafficItem, k: UsageKey) {
    agentID == k.agentID && NodeKey(item.nodeType, item.nodeID) == k.nodeKey && item.userID == k.userID
  }

  // What the items for one account come to.
  function ItemsTotal(agentID: string, items: seq<TrafficItem>, k: UsageKey): T.Pair {
    if items == [] then T.ZERO
    else
      var before, last := ItemsTotal(agentID, items[..|items| - 1], k), items[|items| - 1];
      if IsFor(agentID, last, k) then before.Plus(last.amount) else before
  }

  // The sum over the accepted deliveries among the first n operations.
  function AcceptedTotal(h: seq<Op>, n: nat, k: UsageKey): T.Pair
    requires n <= |h|
  {
    if n == 0 then T.ZERO
    else
      var before := AcceptedTotal(h, n - 1, k);
      if AcceptedAt(h, n - 1) then before.Plus(ItemsTotal(h[n - 1].id, h[n - 1].push.items, k)) else before
  }

  // ---- The store agrees with its history ----

  lemma UsageAfterUpdate(usage: map<UsageKey, T.Pair>, k': UsageKey, v: T.Pair, k: UsageKey)
    ensures UsageOf(usage[k' := v], k) == if k == k' then v else UsageOf(usage, k)
  {
  }

  lemma {:induction false} AddItemsSums(usage: map<UsageKey, T.Pair>, agentID: string, items: seq<TrafficItem>, k: UsageKey)
    ensures UsageOf(AddItems(usage, agentID, items), k) == UsageOf(usage, k).Plus(ItemsTotal(agentID, items, k))
    ensures k.agentID != agentID ==> ItemsTotal(agentID, items, k) == T.ZERO
  {
    hide NodeKey, UsageOf;
    if items != [] {
      var front, last := items[..|items| - 1], items[|items| - 1];
      AddItemsSums(usage, agentID, front, k);
      var before, k' := AddItems(usage, agentID, front), KeyOf(agentID, last);
      UsageAfterUpdate(before, k', UsageOf(before, k').Plus(last.amount), k);
    }
  }

  // Longer histories do not change what was decided.
  lemma {:induction false} AcceptedPrefix(h: seq<Op>, n: nat, i: nat)
    requires i < n <= |h|
    ensures AcceptedAt(h[..n], i) <==> AcceptedAt(h, i)
    decreases i
  {
    hide GoodDelivery;
    assert h[..n][..i] == h[..i];
    forall j: nat | j < i
      ensures AcceptedAt(h[..n], j) <==> AcceptedAt(h, j)
    {
      AcceptedPrefix(h, n, j);
    }
  }

  lemma {:induction false} TotalPrefix(h: seq<Op>, n: nat, m: nat, k: UsageKey)
    requires m <= n <= |h|
    ensures AcceptedTotal(h[..n], m, k) == AcceptedTotal(h, m, k)
  {
    hide AcceptedAt;
    if m > 0 {
      TotalPrefix(h, n, m - 1, k);
      AcceptedPrefix(h, n, m - 1);
    }
  }

  ghost predicate Booked(h: seq<Op>, id: string, batchID: string) {
    exists i: nat :: i < |h| && BooksAt(h, i, id, batchID)
  }

  predicate BooksAt(h: seq<Op>, i: nat, id: string, batchID: string)
    requires i < |h|
  {
    h[i].Deliver? && h[i].id == id && h[i].push.batchID == batchID && AcceptedAt(h, i)
  }

  ghost predicate Agrees(s: State, h: seq<Op>) {
    && AgentsAgree(s, h)
    && (forall id, b :: BatchKey(id, b) in s.batches <==> Booked(h, id, b))
    && (forall k :: UsageOf(s.usage, k) == AcceptedTotal(h, |h|, k))
  }

  ghost predicate AgentsAgree(s: State, h: seq<Op>) {
    && (forall id :: id in s.agents <==> Registered(h, id))
    && (forall id :: id in s.agents ==> s.agents[id] == SecretIn(h, id))
    && (forall id :: id in s.topologies <==> AssignmentIn(h, id).Assigned?)
    && (forall id :: id in s.topologies ==> AssignmentIn(h, id) == Assigned(s.topologies[id]))
  }

  // ---- One more operation ----

  lemma SnocAgents(h: seq<Op>, op: Op, id: string)
    ensures Registered(h + [op], id) <==> Registered(h, id) || (op.PutAgent? && op.id == id != "" && op.secret != "")
    ensures SecretIn(h + [op], id) == (if op.PutAgent? && op.id == id != "" && op.secret != "" then op.secret else SecretIn(h, id))
    ensures AssignmentIn(h + [op], id)
            == (if op.PutTopology? && op.id == id && ValidTopology(op.topology) && Registered(h, id) then Assigned(op.topology)
                else AssignmentIn(h, id))
  {
    assert (h + [op])[..|h|] == h;
  }

  // The newest delivery is accepted exactly when the store's own test would pass.
  lemma SnocAccepted(h: seq<Op>, op: Op)
    ensures AcceptedAt(h + [op], |h|) <==> GoodDelivery(h, op) && !Booked(h, op.id, op.push.batchID)
  {
    var h' := h + [op];
    assert h'[..|h|] == h;
    if op.Deliver? {
      hide GoodDelivery;
      SnocFirst(h, op);
    }
  }

  lemma SnocFirst(h: seq<Op>, op: Op)
    requires op.Deliver?
    ensures (forall j: nat :: j < |h| && SameBatch(h + [op], j, |h|) ==> !AcceptedAt(h + [op], j))
            <==> !Booked(h, op.id, op.push.batchID)
  {
    hide AcceptedAt, BooksAt, SameBatch;
    var h' := h + [op];
    forall j: nat | j < |h|
      ensures SameBatch(h', j, |h|) && AcceptedAt(h', j) <==> BooksAt(h, j, op.id, op.push.batchID)
    {
      BooksPrefix(h, op, j, op.id, op.push.batchID);
      BooksMeans(h', j, op.id, op.push.batchID);
      SameBatchAsLast(h, op, j);
    }
  }

  lemma BooksMeans(h: seq<Op>, j: nat, id: string, batchID: string)
    requires j < |h|
    ensures BooksAt(h, j, id, batchID) <==> h[j].Deliver? && h[j].id == id && h[j].push.batchID == batchID && AcceptedAt(h, j)
  {
    hide AcceptedAt;
  }

  lemma SameBatchAsLast(h: seq<Op>, op: Op, j: nat)
    requires op.Deliver? && j < |h|
    ensures SameBatch(h + [op], j, |h|)
            <==> (h + [op])[j].Deliver? && (h + [op])[j].id == op.id && (h + [op])[j].push.batchID == op.push.batchID
  {
  }

  lemma SnocBooked(h: seq<Op>, op: Op, id: string, batchID: string)
    ensures Booked(h + [op], id, batchID) <==>
              Booked(h, id, batchID) || (op.Deliver? && op.id == id && op.push.batchID == batchID && AcceptedAt(h + [op], |h|))
  {
    hide BooksAt, AcceptedAt;
    var h' := h + [op];
    forall j: nat | j < |h|
      ensures BooksAt(h', j, id, batchID) <==> BooksAt(h, j, id, batchID)
    {
      BooksPrefix(h, op, j, id, batchID);
    }
    BooksLast(h, op, id, batchID);
  }

  lemma BooksPrefix(h: seq<Op>, op: Op, j: nat, id: string, batchID: string)
    requires j < |h|
    ensures BooksAt(h + [op], j, id, batchID) <==> BooksAt(h, j, id, batchID)
  {
    hide AcceptedAt;
    assert (h + [op])[..|h|] == h;
    AcceptedPrefix(h + [op], |h|, j);
  }

  lemma BooksLast(h: seq<Op>, op: Op, id: string, batchID: string)
    ensures BooksAt(h + [op], |h|, id, batchID)
            <==> op.Deliver? && op.id == id && op.push.batchID == batchID && AcceptedAt(h + [op], |h|)
  {
    hide AcceptedAt;
  }

  lemma SnocTotal(h: seq<Op>, op: Op, k: UsageKey)
    ensures AcceptedTotal(h + [op], |h| + 1, k)
            == if AcceptedAt(h + [op], |h|) then AcceptedTotal(h, |h|, k).Plus(ItemsTotal(op.id, op.push.items, k))
               else AcceptedTotal(h, |h|, k)
  {
    hide AcceptedAt, ItemsTotal;
    TotalPrefix(h + [op], |h|, |h|, k);
    assert (h + [op])[..|h|] == h;
  }

  lemma StepAgents(s: State, h: seq<Op>, op: Op)
    requires AgentsAgree(s, h)
    ensures AgentsAgree(Apply(s, op), h + [op])
  {
    hide Registered, SecretIn, AssignmentIn, ValidItems, NodeKeys, AddItems, ValidTopology;
    forall id { SnocAgents(h, op, id); }
  }

  lemma StepAccepts(s: State, h: seq<Op>, op: Op)
    requires Agrees(s, h)
    ensures AcceptedAt(h + [op], |h|) <==> op.Deliver? && Settle(s, op.id, op.push).1.Applied?
  {
    hide AcceptedAt, AcceptedTotal, Registered, SecretIn, AssignmentIn, ValidItems, NodeKeys, Booked, AddItems;
    SnocAccepted(h, op);
  }

  // What one operation adds to the books: an applied delivery, or nothing.
  lemma StepBooks(s: State, op: Op)
    ensures var s', applied := Apply(s, op), op.Deliver? && Settle(s, op.id, op.push).1.Applied?;
            && s'.batches == (if applied then s.batches + {BatchKey(op.id, op.push.batchID)} else s.batches)
            && s'.usage == (if applied then AddItems(s.usage, op.id, op.push.items) else s.usage)
  {
    hide ValidItems, NodeKeys, AddItems, ValidTopology;
  }

  lemma StepBatches(s: State, h: seq<Op>, op: Op)
    requires Agrees(s, h)
    ensures forall id, b :: BatchKey(id, b) in Apply(s, op).batches <==> Booked(h + [op], id, b)
  {
    hide AgentsAgree, AcceptedAt, AcceptedTotal, Booked, Apply, Settle, UsageOf;
    StepBooks(s, op);
    StepAccepts(s, h, op);
    forall id, b { SnocBooked(h, op, id, b); }
  }

  lemma StepUsage(s: State, h: seq<Op>, op: Op, k: UsageKey)
    requires Agrees(s, h)
    ensures UsageOf(Apply(s, op).usage, k) == AcceptedTotal(h + [op], |h| + 1, k)
  {
    hide AgentsAgree, AcceptedAt, AcceptedTotal, Booked, Apply, Settle, UsageOf, AddItems, ItemsTotal;
    StepBooks(s, op);
    StepAccepts(s, h, op);
    SnocTotal(h, op, k);
    if op.Deliver? { AddItemsSums(s.usage, op.id, op.push.items, k); }
  }

  lemma StepAgrees(s: State, h: seq<Op>, op: Op)
    requires Agrees(s, h)
    ensures Agrees(Apply(s, op), h + [op])
  {
    hide AgentsAgree, AcceptedTotal, Booked, Apply, UsageOf;
    StepAgents(s, h, op);
    StepBatches(s, h, op);
    forall k { StepUsage(s, h, op, k); }
  }

  /** Over any run of deliveries (lost, repeated, reordered, from any agents) mixed with
      PutAgent and PutTopology, the store holds exactly what the history decides: each
      account is the sum, over accepted (agent, batch) pairs, of the first accepted
      payload. */
  lemma {:induction false} ReplayAgrees(h: seq<Op>)
    ensures Agrees(Replay(h), h)
  {
    if h != [] {
      var front, last := h[..|h| - 1], h[|h| - 1];
      ReplayAgrees(front);
      StepAgrees(Replay(front), front, last);
      assert h == front + [last];
    } else {
      AgreesEmpty();
    }
  }

  lemma AgreesEmpty()
    ensures Agrees(EMPTY, [])
  {
  }

  /** No two accepted deliveries share an agent's batch, so the sum counts each once. */
  lemma AcceptedOnce(h: seq<Op>, i: nat, j: nat)
    requires i < j < |h| && SameBatch(h, i, j)
    ensures !(AcceptedAt(h, i) && AcceptedAt(h, j))
  {
    hide GoodDelivery;
    if AcceptedAt(h, j) { assert !AcceptedAt(h, i); }
  }

  /** The store's answer is the history's: applied exactly when this is the first good
      delivery of its batch, duplicate only when an earlier one was accepted. */
  lemma ReplyIsDecided(h: seq<Op>, id: string, push: TrafficPush)
    ensures var reply := Settle(Replay(h), id, push).1;
            && (reply.Applied? <==> AcceptedAt(h + [Deliver(id, push)], |h|))
            && (reply.Duplicate? ==> Booked(h, id, push.batchID))
            && (reply.Rejected? ==> !Booked(h, id, push.batchID) || push.batchID == "" || !Registered(h, id))
  {
    hide AcceptedAt, AcceptedTotal, Registered, AssignmentIn, NodeKeys, Booked, AddItems, Replay, ValidItems;
    ReplayAgrees(h);
    SnocAccepted(h, Deliver(id, push));
  }

  /** All or nothing, and to the right accounts: a delivery either books every one of its
      items, once, to its own user on its own node of the sending agent's topology, or
      changes nothing at all;
      no other agent's account moves either way. */
  lemma DeliveryIsAtomic(s: State, id: string, push: TrafficPush, k: UsageKey)
    ensures var (after, reply) := Settle(s, id, push);
            && (!reply.Applied? ==> after == s)
            && (reply.Applied? ==> UsageOf(after.usage, k) == UsageOf(s.usage, k).Plus(ItemsTotal(id, push.items, k)))
            && (k.agentID != id ==> UsageOf(after.usage, k) == UsageOf(s.usage, k))
            && (reply.Applied? ==> id in s.topologies && forall i :: 0 <= i < |push.items| ==>
                  NodeKey(push.items[i].nodeType, push.items[i].nodeID) in NodeKeys(s.topologies[id]))
  {
    hide NodeKeys, AddItems, NodeKey, ItemsTotal, UsageOf;
    AddItemsSums(s.usage, id, push.items, k);
  }

  // A node of the topology has this key.
  predicate HasNode(t: Topology, key: string) {
    exists j :: 0 <= j < |t.nodes| && t.nodes[j].Key() == key
  }

  lemma ItemsMean(items: seq<TrafficItem>, t: Topology)
    ensures ValidItems(items, NodeKeys(t)) <==> forall i :: 0 <= i < |items| ==>
              && items[i].nodeID != "" && items[i].nodeType != "" && items[i].userID > 0
              && items[i].amount.up >= 0 && items[i].amount.down >= 0
              && HasNode(t, NodeKey(items[i].nodeType, items[i].nodeID))
  {
    hide NodeKey, NodeSpec.Key;
    forall key
      ensures key in NodeKeys(t) <==> HasNode(t, key)
    {
    }
    hide NodeKeys, HasNode;
  }

  /** When a delivery is applied, and when it is a duplicate, item by item and field by field. */
  lemma AnswerMeans(s: State, id: string, push: TrafficPush)
    ensures var reply := Settle(s, id, push).1;
            && (reply.Duplicate? <==> push.batchID != "" && id in s.agents && BatchKey(id, push.batchID) in s.batches)
            && (reply.Applied? <==>
                  && push.batchID != "" && id in s.agents && BatchKey(id, push.batchID) !in s.batches && id in s.topologies
                  && forall i :: 0 <= i < |push.items| ==>
                       && push.items[i].nodeID != "" && push.items[i].nodeType != "" && push.items[i].userID > 0
                       && push.items[i].amount.up >= 0 && push.items[i].amount.down >= 0
                       && HasNode(s.topologies[id], NodeKey(push.items[i].nodeType, push.items[i].nodeID)))
  {
    hide NodeKey, AddItems, ValidItems, NodeKeys, HasNode;
    if id in s.topologies { ItemsMean(push.items, s.topologies[id]); }
  }

  // ---- The retrying sender ----

  datatype SendCheck = Refused | NothingToSend | Sent

  predicate Blank(s: string) {
    TrimSpace(s) == ""
  }

  /** What ControlPlaneClient.PushTraffic does before it sends. */
  method CheckPayload(push: TrafficPush) returns (c: SendCheck)
    ensures c.NothingToSend? <==> !Blank(push.batchID) && push.items == []
    ensures c.Sent? <==> && !Blank(push.batchID) && push.items != []
                         && forall i :: 0 <= i < |push.items| ==> !Blank(push.items[i].nodeID) && !Blank(push.items[i].nodeType)
  {
    hide Blank;
    if Blank(push.batchID) {
      return Refused;
    }
    if |push.items| == 0 {
      return NothingToSend;
    }
    for i := 0 to |push.items|
      invariant forall j :: 0 <= j < i ==> !Blank(push.items[j].nodeID) && !Blank(push.items[j].nodeType)
    {
      if Blank(push.items[i].nodeID) || Blank(push.items[i].nodeType) {
        return Refused;
      }
    }
    return Sent;
  }

  // Senders keep a batch id for one payload, as PushTraffic's contract demands.
  ghost predicate StableBatches(h: seq<Op>) {
    forall i: nat, j: nat :: i < |h| && j < |h| && SameBatch(h, i, j) ==> h[i].push == h[j].push
  }

  /** A retrying sender that sees one success, however many of its requests and answers
      were lost or repeated, has its payload booked exactly once: some delivery of that
      very payload is accepted, and it is the only accepted one of its batch. */
  lemma AcknowledgedOnce(h: seq<Op>, i: nat) returns (j: nat)
    requires i < |h| && h[i].Deliver? && StableBatches(h)
    requires Settle(Replay(h[..i]), h[i].id, h[i].push).1.Success()
    ensures j <= i && AcceptedAt(h, j) && h[j] == h[i]
    ensures forall l: nat :: l < |h| && SameBatch(h, l, i) && AcceptedAt(h, l) ==> l == j
  {
    hide Registered, AssignmentIn, ValidItems, NodeKeys, AddItems, AcceptedAt, Replay;
    var front := h[..i];
    ReplayAgrees(front);
    SnocAccepted(front, h[i]);
    assert h[..i + 1] == front + [h[i]];
    if Settle(Replay(front), h[i].id, h[i].push).1.Applied? {
      AcceptedPrefix(h, i + 1, i);
      j := i;
    } else {
      assert Booked(front, h[i].id, h[i].push.batchID);
      j :| j < |front| && BooksAt(front, j, h[i].id, h[i].push.batchID);
      AcceptedPrefix(h, i, j);
      assert SameBatch(h, j, i);
    }
    forall l: nat | l < |h| && SameBatch(h, l, i) && AcceptedAt(h, l)
      ensures l == j
    {
      if l < j { AcceptedOnce(h, l, j); }
      if j < l { AcceptedOnce(h, j, l); }
    }
  }
}
