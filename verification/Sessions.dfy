/** Sessions and the table through which deleting a user closes them: `userconns` of the VLESS
    and Hysteria 2 inbounds (fork/sing-box/protocol/vless/inbound.go,
    fork/sing-box/protocol/hysteria2/inbound.go). */
module Sessions {
  import opened Users

  // The panel user a session really belongs to, and whether it is a stream.
  datatype Session = Session(id: int, stream: bool)

  /** The table of an inbound, connection to name, and the sessions that are open. */
  datatype Book = Book(names: map<int, string>, live: map<int, Session>)

  const EMPTY := Book(map[], map[])

  /** A session is accepted.  VLESS stores it before it is authenticated, under the empty name;
      Hysteria 2 stores streams under the user's password, and packet sessions nowhere. */
  function Accepted(kind: Kind, b: Book, c: int, s: Session, name: string): Book {
    var names := if kind.Vless? then b.names[c := ""]
                 else if s.stream && name != "" then b.names[c := name]
                 else b.names;
    Book(names, b.live[c := s])
  }

  function Ended(b: Book, c: int): Book {
    Book(b.names - {c}, b.live - {c})
  }

  // Deleting users closes the sessions stored under their names and forgets them.
  function Purged(b: Book, gone: set<string>): Book {
    Book(map c | c in b.names && b.names[c] !in gone :: b.names[c],
         map c | c in b.live && !(c in b.names && b.names[c] in gone) :: b.live[c])
  }

  lemma PurgedTwice(b: Book, gone: set<string>, more: set<string>)
    ensures Purged(Purged(b, gone), more) == Purged(b, gone + more)
  {
  }

  lemma PurgedNothing(b: Book)
    ensures Purged(b, {}) == b
  {
  }

  // ---- What the tables hold ----

  /** In every reachable state: a VLESS inbound holds all its sessions, each under the empty
      name; a Hysteria 2 inbound holds exactly its streams, each under the password that the
      committed list gives its user. */
  ghost predicate Sound(kind: Kind, m: Snapshot, b: Book) {
    match kind
    case Vless => b.names.Keys == b.live.Keys && forall c :: c in b.names ==> b.names[c] == ""
    case Hysteria2 =>
      && (forall c :: c in b.names <==> c in b.live && b.live[c].stream)
      && (forall c :: c in b.names ==> b.live[c].id in m && b.names[c] == m[b.live[c].id].password != "")
  }

  lemma EmptySound(kind: Kind, m: Snapshot)
    ensures Sound(kind, m, EMPTY)
  {
  }

  lemma AcceptSound(kind: Kind, m: Snapshot, b: Book, c: int, s: Session)
    requires Sound(kind, m, b) && c !in b.live && s.id in m && Cred(kind, m[s.id]) != ""
    ensures Sound(kind, m, Accepted(kind, b, c, s, Cred(kind, m[s.id])))
  {
  }

  lemma EndSound(kind: Kind, m: Snapshot, b: Book, c: int)
    requires Sound(kind, m, b)
    ensures Sound(kind, m, Ended(b, c))
  {
  }

  lemma PurgeSound(kind: Kind, was: Snapshot, next: Snapshot, b: Book)
    requires Sound(kind, was, b)
    ensures Sound(kind, next, Purged(b, RemovedCreds(kind, was, next)))
  {
    if kind.Hysteria2? {
      var b' := Purged(b, RemovedCreds(kind, was, next));
      forall c | c in b'.names
        ensures b'.live[c].id in next && b'.names[c] == next[b'.live[c].id].password
      {
        var id := b.live[c].id;
        assert id in was && Cred(kind, was[id]) == b.names[c];
        assert Kept(was, next, id);
      }
    }
  }

  /** One apply: a session is closed if and only if it is a Hysteria 2 stream whose user was
      removed or logs in differently. */
  lemma PurgeCloses(kind: Kind, was: Snapshot, next: Snapshot, b: Book, c: int)
    requires Sound(kind, was, b) && Distinct(kind, was) && c in b.live
    ensures c !in Purged(b, RemovedCreds(kind, was, next)).live
            <==> kind.Hysteria2? && b.live[c].stream && !Kept(was, next, b.live[c].id)
  {
    hide SameLogin;
    if kind.Hysteria2? && b.live[c].stream {
      var id := b.live[c].id;
      assert id in was && Cred(kind, was[id]) == b.names[c] != "";
    }
  }

  /** A change of speed limits alone closes nothing, whatever the tables hold. */
  lemma LimitsCloseNothing(kind: Kind, was: Snapshot, next: Snapshot, b: Book)
    requires WellKeyed(was) && WellKeyed(next) && LimitsOnly(was, next)
    ensures Purged(b, RemovedCreds(kind, was, next)) == b
  {
    hide RemovedCreds, AddedCreds, Purged;
    LimitsDisturbNobody(kind, was, next);
    PurgedNothing(b);
  }

  // ---- Whole runs ----

  datatype Event = Accept(c: int, s: Session) | End(c: int) | Apply(next: Snapshot)

  datatype State = State(m: Snapshot, b: Book)

  // A session is accepted from a user of the committed list, on a connection of its own.
  predicate Enabled(kind: Kind, s: State, e: Event) {
    match e
    case Accept(c, x) => c !in s.b.live && x.id in s.m && Cred(kind, s.m[x.id]) != ""
    case End(_) => true
    case Apply(next) => Distinct(kind, next)
  }

  function Next(kind: Kind, s: State, e: Event): State
    requires Enabled(kind, s, e)
  {
    match e
    case Accept(c, x) => s.(b := Accepted(kind, s.b, c, x, Cred(kind, s.m[x.id])))
    case End(c) => s.(b := Ended(s.b, c))
    case Apply(next) => State(next, Purged(s.b, RemovedCreds(kind, s.m, next)))
  }

  predicate IsRun(kind: Kind, s: State, events: seq<Event>)
    decreases |events|
  {
    events != [] ==> Enabled(kind, s, events[0]) && IsRun(kind, Next(kind, s, events[0]), events[1..])
  }

  function After(kind: Kind, s: State, events: seq<Event>): State
    requires IsRun(kind, s, events)
    decreases |events|
  {
    if events == [] then s else After(kind, Next(kind, s, events[0]), events[1..])
  }

  lemma {:induction false} RunSound(kind: Kind, s: State, events: seq<Event>)
    requires Sound(kind, s.m, s.b) && Distinct(kind, s.m) && IsRun(kind, s, events)
    ensures var e := After(kind, s, events); Sound(kind, e.m, e.b) && Distinct(kind, e.m)
    decreases |events|
  {
    hide Sound, Distinct, Accepted, Purged, Ended, RemovedCreds;
    if events != [] {
      match events[0] {
        case Accept(c, x) => AcceptSound(kind, s.m, s.b, c, x);
        case End(c) => EndSound(kind, s.m, s.b, c);
        case Apply(next) => PurgeSound(kind, s.m, next, s.b);
      }
      RunSound(kind, Next(kind, s, events[0]), events[1..]);
    }
  }

  /** Over every run of accepted and ended sessions and of lists with distinct credentials, an
      apply closes a session if and only if the inbound is Hysteria 2, the session is a stream,
      and its user was removed or logs in differently.  So a kept user's sessions always
      survive, and a removed user's VLESS and packet sessions stay open. */
  lemma RemovedClosedIff(kind: Kind, events: seq<Event>, next: Snapshot, c: int)
    requires IsRun(kind, State(map[], EMPTY), events)
    requires c in After(kind, State(map[], EMPTY), events).b.live
    ensures var s := After(kind, State(map[], EMPTY), events);
            c !in Purged(s.b, RemovedCreds(kind, s.m, next)).live
            <==> kind.Hysteria2? && s.b.live[c].stream && !Kept(s.m, next, s.b.live[c].id)
  {
    hide IsRun, After, Sound, Purged, RemovedCreds, Kept;
    var start := State(map[], EMPTY);
    EmptySound(kind, map[]);
    NoCreds(kind);
    RunSound(kind, start, events);
    var s := After(kind, start, events);
    PurgeCloses(kind, s.m, next, s.b, c);
  }

  /** The failing case at its smallest: a VLESS user with one session is removed, and the
      session stays open; on Hysteria 2 a packet session does. */
  lemma SessionOutlivesUser(kind: Kind)
    ensures var u := User(1, "x", "p", "1", 0);
            var events := [Apply(map[1 := u]), Accept(7, Session(1, kind.Vless?)), Apply(map[])];
            && IsRun(kind, State(map[], EMPTY), events)
            && var e := After(kind, State(map[], EMPTY), events);
               e.m == map[] && e.b.live == map[7 := Session(1, kind.Vless?)]
  {
    hide SameLogin;
    var u := User(1, "x", "p", "1", 0);
    var e0, e1, e2 := Apply(map[1 := u]), Accept(7, Session(1, kind.Vless?)), Apply(map[]);
    var s0 := State(map[], EMPTY);
    var s1 := Next(kind, s0, e0);
    assert s1.b == EMPTY;
    assert Cred(kind, u) != "";
    var s2 := Next(kind, s1, e1);
    assert s2.b.live == map[7 := Session(1, kind.Vless?)];
    assert Sound(kind, s1.m, s1.b);
    AcceptSound(kind, s1.m, s1.b, 7, Session(1, kind.Vless?));
    PurgeCloses(kind, s2.m, map[], s2.b, 7);
    var s3 := Next(kind, s2, e2);
    assert s3.b.live == map[7 := Session(1, kind.Vless?)];
    assert [e0, e1, e2][1..] == [e1, e2] && [e1, e2][1..] == [e2] && [e2][1..] == [];
    assert IsRun(kind, s3, []) && After(kind, s3, []) == s3;
    assert IsRun(kind, s2, [e2]) && After(kind, s2, [e2]) == s3;
    assert IsRun(kind, s1, [e1, e2]) && After(kind, s1, [e1, e2]) == s3;
  }
}
