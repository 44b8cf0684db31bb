/** One flush as the agent runs it: PushTraffic of topologyPanel or MultiPanel over the
    clients, commitDelta, and Syncer.flush (cmd/mini-sb-agent/topology_panel.go,
    panelapi/multi.go, panelapi/sync.go).
    Billing.dfy proves the same accounting with traffic arriving between these steps. */
module Sync {
  import opened GoStrings
  import opened Traffic
  import opened Billing

  // A request's fate, chosen by the network: it takes effect and succeeds, or neither.
  type Network = nat -> bool

  method SelectCommitted(d: Delta, only: Tags) returns (out: Delta)
    ensures out == CommitDelta(d, only)
  {
    hide IsNumericUser;
    out := map[];
    var todo := d.Keys;
    while todo != {}
      invariant todo <= d.Keys
      invariant out == map k | k in CommitDelta(d, only) && k !in todo :: d[k]
    {
      var k :| k in todo;
      if only.Has(k.tag) && IsNumericUser(k.user) {
        out := out[k := d[k]];
      }
      todo := todo - {k};
    }
  }

  class Syncer {
    const clients: seq<Client>
    const hook: TrafficTable
    // What the panel has booked, per account.
    var panel: Account -> Pair

    constructor (clients: seq<Client>, hook: TrafficTable)
      ensures this.clients == clients && this.hook == hook && forall a :: panel(a) == ZERO
    {
      this.clients, this.hook, panel := clients, hook, _ => ZERO;
    }

    // The panel node of client i books one accepted payload.
    method Book(i: nat, payload: map<int, Pair>)
      modifies this
      ensures forall a: Account :: panel(a) == if a.client == i then old(panel)(a).Plus(Booked(payload, a.uid)) else old(panel)(a)
    {
      var before := panel;
      panel := (a: Account) => if a.client == i then before(a).Plus(Booked(payload, a.uid)) else before(a);
    }

    /** Pushes every client even when an earlier one fails, and reports the tags of those that
        succeeded: a client's accounts grow by exactly what the snapshot holds for them under
        the tags it matches if its push succeeds, and not at all otherwise; and whenever the
        network lets a push through it succeeds, whatever happened before it. */
    method PushTraffic(d: Delta, network: Network, ghost cfg: Config) returns (acked: set<string>, failed: bool, ghost ackers: set<nat>)
      requires cfg.clients == clients && cfg.Valid() && forall k :: k in d ==> k in cfg.keys
      modifies this
      ensures forall a: Account :: a.client < |clients| ==>
                panel(a) == old(panel)(a).Plus(if a.client in ackers then Sum(cfg.keys, Carried(clients[a.client], d, a.uid)) else ZERO)
      ensures forall i: nat :: i < |clients| && network(i) ==> i in ackers
      ensures !failed ==> forall i: nat :: i < |clients| ==> i in ackers
      ensures (forall i: nat :: i < |clients| ==> network(i)) ==> !failed
      ensures forall t :: t in acked <==> exists k :: k in d && k.tag == t && AckedVia(cfg, ackers, t)
    {
      hide WellNamed, Carried, PayloadFrom, Sum, MatchesInbound, Pair.Plus;
      acked, failed, ackers := {}, false, {};
      forall a: Account
        ensures panel(a) == old(panel)(a).Plus(ZERO)
      {
        PlusZero(panel(a));
      }
      for i := 0 to |clients|
        invariant forall j :: j in ackers ==> j < i
        invariant forall j: nat :: j < i && network(j) ==> j in ackers
        invariant !failed ==> forall j: nat :: j < i ==> j in ackers
        invariant (forall j: nat :: j < |clients| ==> network(j)) ==> !failed
        invariant forall t :: t in acked <==> exists k :: k in d && k.tag == t && AckedVia(cfg, ackers, t)
        invariant forall a: Account :: a.client < |clients| ==>
                    panel(a) == old(panel)(a).Plus(if a.client in ackers then Sum(cfg.keys, Carried(clients[a.client], d, a.uid)) else ZERO)
      {
        var tags, payload := ClientPayload(clients[i], d);
        PushCarries(cfg, d, i, payload);
        if payload == map[] || network(i) {
          Book(i, payload);
          MoreAcked(cfg, d, ackers, i, acked);
          acked, ackers := acked + tags, ackers + {i};
          forall a: Account | a.client < |clients|
            ensures panel(a) == old(panel)(a).Plus(if a.client in ackers then Sum(cfg.keys, Carried(clients[a.client], d, a.uid)) else ZERO)
          {
            PlusZero(old(panel)(a));
          }
        } else {
          failed := true;
        }
      }
    }

    /** flush: whatever fails, every account is billed exactly what the flush commits under
        its client's tags, unless traffic is shared by two clients; no storage is committed
        beyond its count; and when nothing fails no numeric user is left pending. */
    method Flush(network: Network, ghost cfg: Config)
      requires cfg.clients == clients && cfg.Valid() && SoundTable(hook.table) && Listed(cfg, hook.table)
      modifies this, hook
      ensures SoundTable(hook.table) && hook.table.Keys == old(hook.table).Keys
      ensures forall k :: k in hook.table ==> hook.table[k].counted == old(hook.table)[k].counted
      ensures cfg.Unshared() || (forall i: nat :: i < |clients| ==> network(i)) ==>
                forall a: Account :: a.client < |clients| ==>
                  panel(a).Plus(Due(cfg, a, CommittedIn(old(hook.table)))) == old(panel)(a).Plus(Due(cfg, a, CommittedIn(hook.table)))
      ensures (forall i: nat :: i < |clients| ==> network(i)) ==>
                forall k :: k in hook.table && IsNumericUser(k.user) ==> hook.table[k].Pending() == ZERO
    {
      hide IsNumericUser, DeltaOf, CommitTo, CommitDelta, Carried, Due, CommittedIn, SoundTable, Sum, AckedVia, Config.Valid, Config.Unshared, Listed, Pair.Plus;
      ghost var before := hook.table;
      var delta := hook.SnapshotDelta();
      if !HasTraffic(delta) { NothingToSend(before); }
      DeltaListed(cfg, before);
      if delta == map[] || !HasTraffic(delta) {
        return;
      }
      var acked, failed;
      ghost var ackers;
      acked, failed, ackers := PushTraffic(delta, network, cfg);
      if failed && acked == {} {
        forall a: Account | a.client < |clients|
          ensures panel(a) == old(panel)(a)
        {
          NothingCarried(cfg, before, ackers, a);
          PlusZero(old(panel)(a));
        }
        return;
      }
      var only := if failed then Only(acked) else All;
      var commit := SelectCommitted(delta, only);
      hook.CommitSnapshot(commit);
      CommitKeepsSound(before, only);
      if cfg.Unshared() || !failed {
        forall a: Account | a.client < |clients|
          ensures panel(a).Plus(Due(cfg, a, CommittedIn(before))) == old(panel)(a).Plus(Due(cfg, a, CommittedIn(hook.table)))
        {
          CommitMatchesBill(cfg, before, only, ackers, a);
          PlusSwaps(old(panel)(a), if a.client in ackers then Sum(cfg.keys, Carried(clients[a.client], delta, a.uid)) else ZERO, Due(cfg, a, CommittedIn(before)));
        }
      }
    }
  }

  function CommittedIn(t: Table): Key -> Pair {
    (k: Key) => Stored(t, k).committed
  }

  lemma PlusSwaps(p: Pair, q: Pair, r: Pair)
    ensures p.Plus(q).Plus(r) == p.Plus(r.Plus(q))
  {
  }

  lemma PushCarries(cfg: Config, d: Delta, i: nat, payload: map<int, Pair>)
    requires cfg.Valid() && i < |cfg.clients| && PayloadFrom(cfg.clients[i], d, payload) && forall k :: k in d ==> k in cfg.keys
    ensures forall uid: nat :: Booked(payload, uid) == Sum(cfg.keys, Carried(cfg.clients[i], d, uid))
  {
    hide WellNamed, Carried, PayloadFrom, Sum, MatchesInbound;
    forall k | k in d && MatchesInbound(cfg.clients[i], k.tag)
      ensures WellNamed(k)
    {
      assert cfg.Matches(i, k);
    }
    forall uid: nat
      ensures Booked(payload, uid) == Sum(cfg.keys, Carried(cfg.clients[i], d, uid))
    {
      PayloadCarries(cfg.clients[i], d, payload, uid, cfg.keys);
    }
  }

  lemma MoreAcked(cfg: Config, d: Delta, ackers: set<nat>, i: nat, acked: set<string>)
    requires i < |cfg.clients| && forall t :: t in acked <==> exists k :: k in d && k.tag == t && AckedVia(cfg, ackers, t)
    ensures forall t :: t in acked + AckedBy(cfg.clients[i], d) <==> exists k :: k in d && k.tag == t && AckedVia(cfg, ackers + {i}, t)
  {
    hide MatchesInbound;
    forall t
      ensures AckedVia(cfg, ackers + {i}, t) <==> AckedVia(cfg, ackers, t) || MatchesInbound(cfg.clients[i], t)
    {
      if MatchesInbound(cfg.clients[i], t) { assert i in ackers + {i}; }
      if AckedVia(cfg, ackers, t) {
        var j :| j in ackers && j < |cfg.clients| && MatchesInbound(cfg.clients[j], t);
        assert j in ackers + {i};
      }
    }
  }

  lemma DeltaListed(cfg: Config, t: Table)
    requires Listed(cfg, t)
    ensures forall k :: k in DeltaOf(t) ==> k in cfg.keys
  {
  }

  // No acknowledged tag: nothing was carried for anyone.
  lemma NothingCarried(cfg: Config, t: Table, ackers: set<nat>, a: Account)
    requires a.client < |cfg.clients| && forall k :: k in DeltaOf(t) ==> !AckedVia(cfg, ackers, k.tag)
    ensures a.client in ackers ==> Sum(cfg.keys, Carried(cfg.clients[a.client], DeltaOf(t), a.uid)) == ZERO
  {
    hide MatchesInbound, Itoa, DeltaOf, Sum;
    if a.client in ackers {
      SumZero(cfg.keys, Carried(cfg.clients[a.client], DeltaOf(t), a.uid));
    }
  }

  lemma NothingToSend(t: Table)
    requires SoundTable(t) && !HasTraffic(DeltaOf(t))
    ensures forall k :: k in t && IsNumericUser(k.user) ==> t[k].Pending() == ZERO
  {
    hide IsNumericUser;
  }

  // Committing part of a snapshot commits each storage by at most what is pending.
  lemma CommitKeepsSound(t: Table, only: Tags)
    requires SoundTable(t)
    ensures var t' := CommitTo(t, CommitDelta(DeltaOf(t), only));
            && SoundTable(t') && t'.Keys == t.Keys
            && (forall k :: k in t ==> t'[k].counted == t[k].counted)
            && (only.All? ==> forall k :: k in t && IsNumericUser(k.user) ==> t'[k].Pending() == ZERO)
  {
    hide IsNumericUser;
  }

  /** What a commit adds under an account's tags is what its client's push carried, if that
      push succeeded, and nothing otherwise, unless another client's tags overlap. */
  lemma CommitMatchesBill(cfg: Config, t: Table, only: Tags, ackers: set<nat>, a: Account)
    requires Listed(cfg, t) && a.client < |cfg.clients|
    requires only.All? ==> a.client in ackers
    requires only.Only? ==> cfg.Unshared() && forall k :: k in DeltaOf(t) ==> (k.tag in only.tags <==> AckedVia(cfg, ackers, k.tag))
    ensures Due(cfg, a, CommittedIn(CommitTo(t, CommitDelta(DeltaOf(t), only))))
         == Due(cfg, a, CommittedIn(t)).Plus(if a.client in ackers then Sum(cfg.keys, Carried(cfg.clients[a.client], DeltaOf(t), a.uid)) else ZERO)
  {
    hide Sum, CommitTo, CommitDelta, DeltaOf, Bills, Stored, AckedVia, Config.Unshared, Pair.Plus, CarriedAt, Listed;
    var t' := CommitTo(t, CommitDelta(DeltaOf(t), only));
    var d := DeltaOf(t);
    forall k | k in cfg.keys
      ensures Part(cfg, a, CommittedIn(t'))(k)
           == Part(cfg, a, CommittedIn(t))(k).Plus(if a.client in ackers then CarriedAt(cfg.clients[a.client], d, a.uid, k) else ZERO)
    {
      CommitAt(cfg, t, only, ackers, a, k);
    }
    var f, g, h := Part(cfg, a, CommittedIn(t)), Carried(cfg.clients[a.client], d, a.uid), Part(cfg, a, CommittedIn(t'));
    if a.client in ackers {
      SumPlus(cfg.keys, f, g, h);
    } else {
      forall k | k in cfg.keys
        ensures h(k) == f(k)
      {
        PlusZero(f(k));
      }
      SumSame(cfg.keys, h, f);
      PlusZero(Sum(cfg.keys, f));
    }
  }

  lemma CommitAt(cfg: Config, t: Table, only: Tags, ackers: set<nat>, a: Account, k: Key)
    requires a.client < |cfg.clients| && k in cfg.keys
    requires only.All? ==> a.client in ackers
    requires only.Only? ==> cfg.Unshared() && forall x :: x in DeltaOf(t) ==> (x.tag in only.tags <==> AckedVia(cfg, ackers, x.tag))
    ensures Part(cfg, a, CommittedIn(CommitTo(t, CommitDelta(DeltaOf(t), only))))(k)
         == Part(cfg, a, CommittedIn(t))(k).Plus(if a.client in ackers then CarriedAt(cfg.clients[a.client], DeltaOf(t), a.uid, k) else ZERO)
  {
    hide MatchesInbound, IsNumericUser, Itoa, CommitTo, CommitDelta, DeltaOf, Stored, Pair.Plus;
    PlusZero(ZERO);
    if Bills(cfg.clients[a.client], k, a.uid) {
      NumericItoa(a.uid);
      PlusZero(Stored(t, k).committed);
      assert cfg.Matches(a.client, k);
      if k in DeltaOf(t) { AckedMeans(cfg, ackers, a.client, k, only); }
      CommitAdds(t, DeltaOf(t), only, k) by { DeltaInTable(t); }
    }
  }

  // Among unshared keys a tag is acknowledged exactly when its own client succeeded.
  lemma AckedMeans(cfg: Config, ackers: set<nat>, i: nat, k: Key, only: Tags)
    requires k in cfg.keys && cfg.Matches(i, k) && IsNumericUser(k.user)
    requires only.All? ==> i in ackers
    requires only.Only? ==> cfg.Unshared() && (k.tag in only.tags <==> AckedVia(cfg, ackers, k.tag))
    ensures only.Has(k.tag) <==> i in ackers
  {
    hide MatchesInbound, IsNumericUser;
    if only.Only? && AckedVia(cfg, ackers, k.tag) {
      var j :| j in ackers && j < |cfg.clients| && MatchesInbound(cfg.clients[j], k.tag);
      assert cfg.Matches(j, k);
    }
  }

  lemma DeltaInTable(t: Table)
    ensures DeltaOf(t).Keys <= t.Keys
  {
  }

  lemma CommitAdds(t: Table, d: Delta, only: Tags, k: Key)
    requires d.Keys <= t.Keys && IsNumericUser(k.user)
    ensures Stored(CommitTo(t, CommitDelta(d, only)), k).committed
            == Stored(t, k).committed.Plus(if only.Has(k.tag) then Amount(d, k) else ZERO)
  {
    hide IsNumericUser;
  }
}
