/** Replication of the overlay's state from the host to the processes it is drawn in: the server's
    bookkeeping, the client's view, and the system of both with messages in flight between them. */
module Replication {
  import opened Common
  import Host = OverlayState

  type Sock = nat
  type Proc = nat
  type Hash = string

  datatype AvatarEntry = AvatarEntry(path: string, w: nat, h: nat)

  /** Frames from the host.  Payloads are the values they decode to. */
  datatype Msg =
    | SnapshotMsg(snap: Host.Snapshot)
    | AvatarMsg(hash: Hash, entry: AvatarEntry)
    | DisabledMsg
    | PingMsg
    | PongMsg

  /** Frames to the host.  A Hello whose payload does not parse counts as an empty one. */
  datatype UpMsg = Hello(payload: Option<HelloPayload>) | UpPing | UpPong
  datatype HelloPayload = HelloPayload(exe: string, argv: seq<string>)

  // ---- the client's view ------------------------------------------------------------------

  datatype View = View(latest: Option<Host.Snapshot>, disabled: bool, avatars: map<Hash, AvatarEntry>)

  const BLANK := View(None, false, map[])

  /** An avatar without a hash or a path is ignored. */
  predicate Usable(hash: Hash, entry: AvatarEntry) {
    hash != "" && entry.path != ""
  }

  function Receive(v: View, m: Msg): View {
    match m
    case SnapshotMsg(s) => v.(latest := Some(s))
    case AvatarMsg(hash, entry) => if Usable(hash, entry) then v.(avatars := v.avatars[hash := entry]) else v
    case DisabledMsg => v.(disabled := true)
    case PingMsg => v
    case PongMsg => v
  }

  function ReceiveAll(v: View, ms: seq<Msg>): View {
    if ms == [] then v else Receive(ReceiveAll(v, ms[..|ms| - 1]), ms[|ms| - 1])
  }

  lemma ReceiveSnoc(v: View, ms: seq<Msg>, m: Msg)
    ensures ReceiveAll(v, ms + [m]) == Receive(ReceiveAll(v, ms), m)
  {
    assert (ms + [m])[..|ms|] == ms;
  }

  lemma {:induction false} ReceiveCons(v: View, m: Msg, ms: seq<Msg>)
    ensures ReceiveAll(v, [m] + ms) == ReceiveAll(Receive(v, m), ms)
  {
    if ms == [] {
      assert [m] + ms == [] + [m];
      ReceiveSnoc(v, [], m);
    } else {
      var init := ms[..|ms| - 1];
      assert ([m] + ms)[..|ms|] == [m] + init;
      ReceiveCons(v, m, init);
    }
  }

  lemma {:induction false} ReceiveAppend(v: View, a: seq<Msg>, b: seq<Msg>)
    ensures ReceiveAll(v, a + b) == ReceiveAll(ReceiveAll(v, a), b)
  {
    if b == [] {
      assert a + b == a;
    } else {
      var init := b[..|b| - 1];
      assert (a + b)[..|a + b| - 1] == a + init;
      ReceiveAppend(v, a, init);
    }
  }

  predicate Announces(m: Msg, hash: Hash) {
    m.AvatarMsg? && m.hash == hash && hash != "" && m.entry.path != ""
  }

  /** The last entry that `ms` announces for `hash`, or that there is none. */
  predicate IsLatest(ms: seq<Msg>, hash: Hash, entry: Option<AvatarEntry>) {
    match entry
    case None => forall i :: 0 <= i < |ms| ==> !Announces(ms[i], hash)
    case Some(e) =>
      exists i :: 0 <= i < |ms| && Announces(ms[i], hash) && ms[i].entry == e
                  && forall j :: i < j < |ms| ==> !Announces(ms[j], hash)
  }

  /** A view that began blank keeps for every hash the last entry announced, and no other. */
  lemma {:induction false} LatestIsKept(ms: seq<Msg>, hash: Hash)
    ensures var avatars := ReceiveAll(BLANK, ms).avatars;
            IsLatest(ms, hash, if hash in avatars then Some(avatars[hash]) else None)
  {
    if ms != [] {
      var init, m := ms[..|ms| - 1], ms[|ms| - 1];
      LatestIsKept(init, hash);
      var before := ReceiveAll(BLANK, init).avatars;
      if Announces(m, hash) {
        assert ReceiveAll(BLANK, ms).avatars[hash] == m.entry && Announces(ms[|ms| - 1], hash);
      } else if hash in before {
        var i :| 0 <= i < |init| && Announces(init[i], hash) && init[i].entry == before[hash]
                 && forall j :: i < j < |init| ==> !Announces(init[j], hash);
        assert Announces(ms[i], hash) && forall j :: i < j < |ms| ==> !Announces(ms[j], hash);
      }
    }
  }

  /** A view is disabled for good by one Disabled frame, and by nothing else. */
  lemma {:induction false} DisabledIsKept(v: View, ms: seq<Msg>)
    ensures ReceiveAll(v, ms).disabled <==> v.disabled || DisabledMsg in ms
  {
    if ms != [] { DisabledIsKept(v, ms[..|ms| - 1]); }
  }

  /** The snapshot shown is the last one received, frame `k`, or what there was before any. */
  lemma {:induction false} SnapshotIsLast(v: View, ms: seq<Msg>, k: int)
    requires -1 <= k < |ms| && (k >= 0 ==> ms[k].SnapshotMsg?) && forall i :: k < i < |ms| ==> !ms[i].SnapshotMsg?
    ensures ReceiveAll(v, ms).latest == if k >= 0 then Some(ms[k].snap) else v.latest
  {
    if ms != [] && k < |ms| - 1 { SnapshotIsLast(v, ms[..|ms| - 1], k); }
  }

  class StateClient {
    var latest: Option<Host.Snapshot>
    var disabled: bool
    var avatars: map<Hash, AvatarEntry>

    function Seen(): View
      reads this
    {
      View(latest, disabled, avatars)
    }

    constructor ()
      ensures Seen() == BLANK
    {
      latest, disabled, avatars := None, false, map[];
    }

    /** The dispatch of one received frame; `reply` is what goes back. */
    method Dispatch(m: Msg) returns (reply: Option<UpMsg>)
      modifies this
      ensures Seen() == Receive(old(Seen()), m)
      ensures reply == if m.PingMsg? then Some(UpPong) else None
    {
      reply := None;
      match m {
        case SnapshotMsg(s) => latest := Some(s);
        case AvatarMsg(hash, entry) =>
          if hash != "" && entry.path != "" { avatars := avatars[hash := entry]; }
        case DisabledMsg => disabled := true;
        case PingMsg => reply := Some(UpPong);
        case PongMsg =>
      }
    }

    /** Whatever frames have led to what the client has seen, the entry is the last one they announced. */
    method AvatarFor(hash: Hash) returns (entry: Option<AvatarEntry>)
      ensures entry == if hash in avatars then Some(avatars[hash]) else None
      ensures forall ms :: Seen() == ReceiveAll(BLANK, ms) ==> IsLatest(ms, hash, entry)
    {
      entry := if hash in avatars then Some(avatars[hash]) else None;
      forall ms | Seen() == ReceiveAll(BLANK, ms) ensures IsLatest(ms, hash, entry) { LatestIsKept(ms, hash); }
    }
  }

  // ---- the server ---------------------------------------------------------------------------

  datatype Client = Client(active: bool, inert: bool)

  /** `wire` is all that was ever written to each socket. */
  datatype Server = Server(
    current: Host.Snapshot, avatars: map<Hash, AvatarEntry>, clients: map<Sock, Client>, wire: map<Sock, seq<Msg>>)

  function Write(wire: map<Sock, seq<Msg>>, socks: set<Sock>, ms: seq<Msg>): (w: map<Sock, seq<Msg>>) {
    map k | k in wire :: if k in socks then wire[k] + ms else wire[k]
  }

  lemma WriteTwice(wire: map<Sock, seq<Msg>>, socks: set<Sock>, a: seq<Msg>, b: seq<Msg>)
    ensures Write(Write(wire, socks, a), socks, b) == Write(wire, socks, a + b)
  {
    forall k | k in wire && k in socks ensures wire[k] + a + b == wire[k] + (a + b) { }
  }

  lemma WriteOneMore(wire: map<Sock, seq<Msg>>, socks: set<Sock>, done: set<Sock>, sock: Sock, ms: seq<Msg>)
    requires sock !in done
    ensures Write(wire, socks * (done + {sock}), ms) ==
            if sock in socks then Write(Write(wire, socks * done, ms), {sock}, ms) else Write(wire, socks * done, ms)
  {
    assert socks * (done + {sock}) == socks * done + if sock in socks then {sock} else {};
  }

  function ActiveSocks(clients: map<Sock, Client>): set<Sock> {
    set k | k in clients && clients[k].active
  }

  function Broadcast(s: Server, snap: Host.Snapshot): Server {
    s.(current := snap, wire := Write(s.wire, ActiveSocks(s.clients), [SnapshotMsg(snap)]))
  }

  function BroadcastAvatar(s: Server, hash: Hash, entry: AvatarEntry): Server {
    s.(avatars := s.avatars[hash := entry], wire := Write(s.wire, ActiveSocks(s.clients), [AvatarMsg(hash, entry)]))
  }

  /** An order in which the avatar table may be walked. */
  ghost predicate Enumerates(order: seq<Hash>, avatars: map<Hash, AvatarEntry>) {
    && (forall h :: h in avatars <==> h in order)
    && (forall i, j :: 0 <= i < j < |order| ==> order[i] != order[j])
  }

  function AvatarMsgs(avatars: map<Hash, AvatarEntry>, order: seq<Hash>): seq<Msg>
    requires forall h :: h in order ==> h in avatars
  {
    seq(|order|, i requires 0 <= i < |order| => AvatarMsg(order[i], avatars[order[i]]))
  }

  lemma AvatarMsgsSnoc(current: Host.Snapshot, avatars: map<Hash, AvatarEntry>, order: seq<Hash>, hash: Hash)
    requires hash in avatars && forall h :: h in order ==> h in avatars
    ensures [SnapshotMsg(current)] + AvatarMsgs(avatars, order + [hash])
         == [SnapshotMsg(current)] + AvatarMsgs(avatars, order) + [AvatarMsg(hash, avatars[hash])]
  {
    assert AvatarMsgs(avatars, order + [hash]) == AvatarMsgs(avatars, order) + [AvatarMsg(hash, avatars[hash])];
  }

  /** First Hello of a connection: classify it, then seed it or tell it that it is disabled. */
  ghost function Greet(s: Server, sock: Sock, blocked: bool, order: seq<Hash>): Server
    requires sock in s.clients && Enumerates(order, s.avatars)
  {
    var c := s.clients[sock];
    if c.active || c.inert then s
    else if blocked then
      s.(clients := s.clients[sock := c.(inert := true)], wire := Write(s.wire, {sock}, [DisabledMsg]))
    else
      s.(clients := s.clients[sock := c.(active := true)],
         wire := Write(s.wire, {sock}, [SnapshotMsg(s.current)] + AvatarMsgs(s.avatars, order)))
  }

  predicate Blocks(isBlocked: string -> bool, payload: Option<HelloPayload>) {
    match payload
    case None => isBlocked("")
    case Some(p) => isBlocked(p.exe) || exists i :: 0 <= i < |p.argv| && isBlocked(p.argv[i])
  }

  class StateServer {
    var current: Host.Snapshot
    var avatars: map<Hash, AvatarEntry>
    var clients: map<Sock, Client>
    var wire: map<Sock, seq<Msg>>

    function State(): Server
      reads this
    {
      Server(current, avatars, clients, wire)
    }

    predicate Valid()
      reads this
    {
      forall k :: k in clients ==> k in wire
    }

    constructor (initial: Host.Snapshot)
      ensures Valid() && State() == Server(initial, map[], map[], map[])
    {
      current, avatars, clients, wire := initial, map[], map[], map[];
    }

    method SendFrame(sock: Sock, m: Msg)
      modifies this`wire
      ensures wire == Write(old(wire), {sock}, [m]) && wire.Keys == old(wire).Keys
    {
      if sock in wire { wire := wire[sock := wire[sock] + [m]]; }
      assert wire == Write(old(wire), {sock}, [m]);
      assert wire.Keys == old(wire).Keys;
    }

    /** Writes one frame to every active client. */
    method SendToActive(m: Msg)
      requires Valid()
      modifies this`wire
      ensures Valid() && wire == Write(old(wire), ActiveSocks(clients), [m])
    {
      var todo := clients.Keys;
      ghost var done: set<Sock> := {};
      while todo != {}
        invariant todo !! done && todo + done == clients.Keys && wire.Keys == old(wire).Keys
        invariant wire == Write(old(wire), ActiveSocks(clients) * done, [m])
        decreases todo
      {
        var sock :| sock in todo;
        WriteOneMore(old(wire), ActiveSocks(clients), done, sock, [m]);
        hide Write;
        if clients[sock].active { SendFrame(sock, m); }
        todo, done := todo - {sock}, done + {sock};
      }
      assert ActiveSocks(clients) * done == ActiveSocks(clients);
    }

    method BroadcastSnapshot(s: Host.Snapshot)
      requires Valid()
      modifies this
      ensures Valid() && State() == Broadcast(old(State()), s)
    {
      current := s;
      SendToActive(SnapshotMsg(s));
    }

    method BroadcastAvatarReady(hash: Hash, entry: AvatarEntry)
      requires Valid()
      modifies this
      ensures Valid() && State() == BroadcastAvatar(old(State()), hash, entry)
    {
      avatars := avatars[hash := entry];
      SendToActive(AvatarMsg(hash, entry));
    }

    /** Sends a new active client the current snapshot and every avatar, in some order of the table. */
    method SeedClient(sock: Sock) returns (ghost order: seq<Hash>)
      requires Valid() && sock in clients
      modifies this`wire
      ensures Valid() && Enumerates(order, avatars)
      ensures wire == Write(old(wire), {sock}, [SnapshotMsg(current)] + AvatarMsgs(avatars, order))
    {
      SendFrame(sock, SnapshotMsg(current));
      order := [];
      assert [SnapshotMsg(current)] + AvatarMsgs(avatars, []) == [SnapshotMsg(current)];
      hide Write, AvatarMsgs;
      var todo := avatars.Keys;
      while todo != {}
        invariant Valid() && todo <= avatars.Keys
        invariant (forall h :: h in avatars.Keys - todo <==> h in order)
        invariant (forall i, j :: 0 <= i < j < |order| ==> order[i] != order[j])
        invariant wire == Write(old(wire), {sock}, [SnapshotMsg(current)] + AvatarMsgs(avatars, order))
        decreases todo
      {
        var hash :| hash in todo;
        assert hash !in order;
        ghost var sent := [SnapshotMsg(current)] + AvatarMsgs(avatars, order);
        WriteTwice(old(wire), {sock}, sent, [AvatarMsg(hash, avatars[hash])]);
        SendFrame(sock, AvatarMsg(hash, avatars[hash]));
        AvatarMsgsSnoc(current, avatars, order, hash);
        todo, order := todo - {hash}, order + [hash];
      }
    }

    method HandleHello(sock: Sock, payload: Option<HelloPayload>, isBlocked: string -> bool) returns (ghost order: seq<Hash>)
      requires Valid() && sock in clients
      modifies this
      ensures Valid() && Enumerates(order, old(avatars))
      ensures State() == Greet(old(State()), sock, Blocks(isBlocked, payload), order)
      ensures old(clients[sock].active || clients[sock].inert) ==> State() == old(State())
      ensures old(!clients[sock].active && !clients[sock].inert) ==>
                clients == old(clients)[sock := clients[sock]] && clients[sock].active == !clients[sock].inert
      ensures old(!clients[sock].active && !clients[sock].inert) && payload.None? ==>
                clients[sock].inert == isBlocked("")
      ensures old(!clients[sock].active && !clients[sock].inert) && payload.Some? ==>
                (clients[sock].inert <==>
                 isBlocked(payload.value.exe) || exists s :: s in payload.value.argv && isBlocked(s))
      ensures old(!clients[sock].active && !clients[sock].inert) && sock in old(wire) ==>
                wire == old(wire)[sock := old(wire)[sock] +
                  if clients[sock].inert then [DisabledMsg] else [SnapshotMsg(current)] + AvatarMsgs(avatars, order)]
    {
      var c := clients[sock];
      if c.active || c.inert {
        order := EnumerationOf(avatars);
        return;
      }
      var blocked := IsBlocked(payload, isBlocked);
      if blocked {
        clients := clients[sock := c.(inert := true)];
        SendFrame(sock, DisabledMsg);
        order := EnumerationOf(avatars);
        return;
      }
      clients := clients[sock := c.(active := true)];
      order := SeedClient(sock);
    }

    /** The denylist sees the command name and every argument. */
    method IsBlocked(payload: Option<HelloPayload>, isBlocked: string -> bool) returns (blocked: bool)
      ensures blocked == Blocks(isBlocked, payload)
      ensures payload.None? ==> blocked == isBlocked("")
      ensures payload.Some? ==>
                (blocked <==> isBlocked(payload.value.exe) || exists s :: s in payload.value.argv && isBlocked(s))
    {
      var exe, argv := "", [];
      if payload.Some? { exe, argv := payload.value.exe, payload.value.argv; }
      if isBlocked(exe) { return true; }
      for i := 0 to |argv|
        invariant forall k :: 0 <= k < i ==> !isBlocked(argv[k])
      {
        if isBlocked(argv[i]) { return true; }
      }
      return false;
    }

    /** One frame from a client; anything but a Hello or a Ping is ignored. */
    method HandleFrame(sock: Sock, up: UpMsg, isBlocked: string -> bool) returns (ghost order: seq<Hash>)
      requires Valid() && sock in clients
      modifies this
      ensures Valid() && Enumerates(order, old(avatars))
      ensures State() == ServerStep(old(State()), sock, up, up.Hello? && Blocks(isBlocked, up.payload), order)
      ensures up.UpPing? ==> State() == old(State()).(wire := old(wire)[sock := old(wire)[sock] + [PongMsg]])
      ensures up.UpPong? ==> State() == old(State())
      ensures up.Hello? && old(!clients[sock].active && !clients[sock].inert) ==>
                sock in clients && (clients[sock].active || clients[sock].inert)
    {
      match up {
        case Hello(payload) => order := HandleHello(sock, payload, isBlocked);
        case UpPing =>
          SendFrame(sock, PongMsg);
          order := EnumerationOf(avatars);
        case UpPong => order := EnumerationOf(avatars);
      }
    }

    method OnNewConnection(sock: Sock)
      requires Valid() && sock !in clients && sock !in wire
      modifies this
      ensures Valid() && State() == Accept(old(State()), sock)
    {
      clients := clients[sock := Client(false, false)];
      wire := wire[sock := []];
    }

    method OnDisconnected(sock: Sock)
      requires Valid()
      modifies this`clients
      ensures Valid() && State() == old(State()).(clients := old(clients) - {sock})
    {
      clients := clients - {sock};
    }
  }

  function Accept(s: Server, sock: Sock): Server {
    s.(clients := s.clients[sock := Client(false, false)], wire := s.wire[sock := []])
  }

  lemma EnumerationOf(avatars: map<Hash, AvatarEntry>) returns (order: seq<Hash>)
    ensures Enumerates(order, avatars)
    decreases avatars.Keys
  {
    if avatars == map[] {
      order := [];
    } else {
      var hash :| hash in avatars;
      order := EnumerationOf(avatars - {hash});
      order := order + [hash];
    }
  }

  // ---- both ends and the wires between them ----------------------------------------------------

  /** One connection, as the process sees it: `up` is still to reach the server, `taken` of the host's
      frames have been received, and `open` lasts until the process closes it. */
  datatype Link = Link(proc: Proc, up: seq<UpMsg>, taken: nat, open: bool)

  datatype System = System(server: Server, links: map<Sock, Link>, views: map<Proc, View>)

  datatype Step =
    | Connect(proc: Proc, sock: Sock, payload: Option<HelloPayload>)
    | AcceptNext(sock: Sock)
    | ServerTakes(sock: Sock, blocked: bool, order: seq<Hash>)
    | ServerDrops(sock: Sock)
    | HostChange(change: Host.Entry)
    | AvatarReady(hash: Hash, entry: AvatarEntry)
    | ClientTakes(sock: Sock)
    | ClientPings(sock: Sock)
    | ClientCloses(sock: Sock)
    | HostRestart

  const START := System(Server(Host.INITIAL, map[], map[], map[]), map[], map[])

  function ViewOf(sys: System, p: Proc): View {
    if p in sys.views then sys.views[p] else BLANK
  }

  /** What a step needs.  A process keeps one connection at a time. */
  ghost predicate Enabled(sys: System, step: Step) {
    match step
    case Connect(p, sock, _) =>
      sock !in sys.links && sock !in sys.server.wire && forall k :: k in sys.links && sys.links[k].open ==> sys.links[k].proc != p
    case AcceptNext(sock) => sock in sys.links && sock !in sys.server.wire
    case ServerTakes(sock, _, order) =>
      sock in sys.server.clients && sock in sys.links && sys.links[sock].up != [] && Enumerates(order, sys.server.avatars)
    case ClientTakes(sock) =>
      sock in sys.links && sock in sys.server.wire && sys.links[sock].open && sys.links[sock].taken < |sys.server.wire[sock]|
    case ClientPings(sock) => sock in sys.links && sys.links[sock].open
    case ClientCloses(sock) => sock in sys.links
    case _ => true
  }

  /** The reducer reports a change exactly when the revision moved, and only then is it broadcast. */
  function HostStep(s: Server, entry: Host.Entry): Server {
    var next := Host.Reduce(s.current, entry);
    if next.revision != s.current.revision then Broadcast(s, next) else s
  }

  ghost function ServerStep(s: Server, sock: Sock, up: UpMsg, blocked: bool, order: seq<Hash>): Server
    requires sock in s.clients && Enumerates(order, s.avatars)
  {
    match up
    case Hello(_) => Greet(s, sock, blocked, order)
    case UpPing => s.(wire := Write(s.wire, {sock}, [PongMsg]))
    case UpPong => s
  }

  ghost function Next(sys: System, step: Step): System
    requires Enabled(sys, step)
  {
    match step
    case Connect(p, sock, payload) => sys.(links := sys.links[sock := Link(p, [Hello(payload)], 0, true)])
    case AcceptNext(sock) => sys.(server := Accept(sys.server, sock))
    case ServerTakes(sock, blocked, order) =>
      var l := sys.links[sock];
      sys.(server := ServerStep(sys.server, sock, l.up[0], blocked, order), links := sys.links[sock := l.(up := l.up[1..])])
    case ServerDrops(sock) => sys.(server := sys.server.(clients := sys.server.clients - {sock}))
    case HostChange(entry) => sys.(server := HostStep(sys.server, entry))
    case AvatarReady(hash, entry) => sys.(server := BroadcastAvatar(sys.server, hash, entry))
    case ClientTakes(sock) =>
      var l := sys.links[sock];
      var m := sys.server.wire[sock][l.taken];
      sys.(views := sys.views[l.proc := Receive(ViewOf(sys, l.proc), m)],
           links := sys.links[sock := l.(taken := l.taken + 1, up := l.up + if m.PingMsg? then [UpPong] else [])])
    case ClientPings(sock) => sys.(links := sys.links[sock := sys.links[sock].(up := sys.links[sock].up + [UpPing])])
    case ClientCloses(sock) => sys.(links := sys.links[sock := sys.links[sock].(open := false)])
    case HostRestart => sys.(server := Server(Host.INITIAL, map[], map[], sys.server.wire))
  }

  /** A run: steps that are not enabled when their turn comes do nothing. */
  ghost function Run(steps: seq<Step>): System {
    if steps == [] then START
    else
      var sys := Run(steps[..|steps| - 1]);
      if Enabled(sys, steps[|steps| - 1]) then Next(sys, steps[|steps| - 1]) else sys
  }

  // ---- what every run keeps ----------------------------------------------------------------------

  /** The view a process ends up with once it has received all that is on its wire. */
  function Eventually(sys: System, sock: Sock): View
    requires sock in sys.links && sock in sys.server.wire && sys.links[sock].taken <= |sys.server.wire[sock]|
  {
    ReceiveAll(ViewOf(sys, sys.links[sock].proc), sys.server.wire[sock][sys.links[sock].taken..])
  }

  /** A view that shows the host's state: its snapshot, and every avatar it knows. */
  predicate Agrees(v: View, s: Server) {
    && v.latest == Some(s.current)
    && forall h :: h in s.avatars && Usable(h, s.avatars[h]) ==> h in v.avatars && v.avatars[h] == s.avatars[h]
  }

  predicate OnlyControl(ms: seq<Msg>) {
    forall k :: 0 <= k < |ms| ==> ms[k].DisabledMsg? || ms[k].PongMsg?
  }

  predicate NoDisabled(ms: seq<Msg>) {
    forall k :: 0 <= k < |ms| ==> !ms[k].DisabledMsg?
  }

  function Revisions(ms: seq<Msg>): seq<nat> {
    if ms == [] then []
    else
      var m := ms[|ms| - 1];
      Revisions(ms[..|ms| - 1]) + if m.SnapshotMsg? then [m.snap.revision] else []
  }

  predicate Consecutive(rs: seq<nat>) {
    forall i :: 0 <= i < |rs| - 1 ==> rs[i + 1] == rs[i] + 1
  }

  /** A process has at most one connection open. */
  predicate OneOpenEach(links: map<Sock, Link>) {
    forall j, k :: j in links && k in links && j != k && links[j].open && links[k].open ==> links[j].proc != links[k].proc
  }

  predicate LinksOk(sys: System) {
    && (forall k :: k in sys.server.clients ==> k in sys.server.wire)
    && (forall k :: k in sys.server.wire ==> k in sys.links && sys.links[k].taken <= |sys.server.wire[k]|)
    && OneOpenEach(sys.links)
    && (forall k :: k in sys.links && k !in sys.server.wire ==> sys.links[k].taken == 0)
  }

  /** Whatever happened, an active client's wire leads it to the host's present state. */
  predicate ActiveAgree(sys: System)
    requires LinksOk(sys)
  {
    forall k :: k in sys.server.clients ==> Converges(sys, k)
  }

  predicate Converges(sys: System, k: Sock)
    requires LinksOk(sys) && k in sys.server.clients
  {
    sys.server.clients[k].active && sys.links[k].open ==> Agrees(Eventually(sys, k), sys.server)
  }

  /** What may be on one wire, given how the server has classified its client. */
  predicate WireOk(ms: seq<Msg>, c: Client, revision: nat) {
    && !(c.active && c.inert)
    && (c.active ==> NoDisabled(ms) && Revisions(ms) != [] && Revisions(ms)[|Revisions(ms)| - 1] == revision)
    && (!c.active ==> OnlyControl(ms) && (c.inert <==> DisabledMsg in ms))
    && Consecutive(Revisions(ms))
  }

  predicate WiresOk(s: Server) {
    && (forall k :: k in s.clients ==> k in s.wire && WireOk(s.wire[k], s.clients[k], s.current.revision))
    && (forall k :: k in s.wire ==> (OnlyControl(s.wire[k]) || NoDisabled(s.wire[k])) && Consecutive(Revisions(s.wire[k])))
  }

  ghost predicate Inv(sys: System) {
    LinksOk(sys) && ActiveAgree(sys) && WiresOk(sys.server)
  }

  lemma RevisionsSnoc(ms: seq<Msg>, m: Msg)
    ensures Revisions(ms + [m]) == Revisions(ms) + if m.SnapshotMsg? then [m.snap.revision] else []
  {
    assert (ms + [m])[..|ms|] == ms;
  }

  /** One frame more on a wire: the next snapshot, or a frame that is none. */
  lemma WireSnoc(ms: seq<Msg>, m: Msg, c: Client, revision: nat, next: nat)
    requires WireOk(ms, c, revision)
    requires if c.active then
               && !m.DisabledMsg?
               && (m.SnapshotMsg? ==> m.snap.revision == next == revision + 1) && (!m.SnapshotMsg? ==> next == revision)
             else m.PongMsg?
    ensures WireOk(ms + [m], c, if c.active then next else revision)
  {
    RevisionsSnoc(ms, m);
  }

  lemma WireLoose(ms: seq<Msg>, c: Client, revision: nat)
    requires WireOk(ms, c, revision)
    ensures (OnlyControl(ms) || NoDisabled(ms)) && Consecutive(Revisions(ms))
  {
  }

  lemma {:induction false} SeedRevisions(ms: seq<Msg>, current: Host.Snapshot, avatars: map<Hash, AvatarEntry>, order: seq<Hash>)
    requires OnlyControl(ms) && DisabledMsg !in ms && forall h :: h in order ==> h in avatars
    ensures var all := ms + ([SnapshotMsg(current)] + AvatarMsgs(avatars, order));
            Revisions(all) == [current.revision] && NoDisabled(all)
  {
    if order == [] {
      ControlRevisions(ms);
      RevisionsSnoc(ms, SnapshotMsg(current));
      assert [SnapshotMsg(current)] + AvatarMsgs(avatars, order) == [SnapshotMsg(current)];
    } else {
      var init, h := order[..|order| - 1], order[|order| - 1];
      assert order == init + [h];
      SeedRevisions(ms, current, avatars, init);
      AvatarMsgsSnoc(current, avatars, init, h);
      var less := ms + ([SnapshotMsg(current)] + AvatarMsgs(avatars, init));
      RevisionsSnoc(less, AvatarMsg(h, avatars[h]));
      assert ms + ([SnapshotMsg(current)] + AvatarMsgs(avatars, order)) == less + [AvatarMsg(h, avatars[h])];
    }
  }

  lemma {:induction false} ControlRevisions(ms: seq<Msg>)
    requires OnlyControl(ms)
    ensures Revisions(ms) == []
  {
    if ms != [] { ControlRevisions(ms[..|ms| - 1]); }
  }

  /** A view that shows the server's snapshot and the first `n` avatars. */
  predicate ShowsSome(w: View, s: Server, order: seq<Hash>, n: nat)
    requires n <= |order| && forall h :: h in order ==> h in s.avatars
  {
    && w.latest == Some(s.current)
    && forall i :: 0 <= i < n && Usable(order[i], s.avatars[order[i]])
         ==> order[i] in w.avatars && w.avatars[order[i]] == s.avatars[order[i]]
  }

  lemma ShowsOneMore(w: View, s: Server, order: seq<Hash>, n: nat)
    requires n < |order| && (forall h :: h in order ==> h in s.avatars) && ShowsSome(w, s, order, n)
    ensures ShowsSome(Receive(w, AvatarMsg(order[n], s.avatars[order[n]])), s, order, n + 1)
  {
  }

  /** Whatever a view was, the seed makes it agree with the server. */
  lemma {:induction false} SeedAgrees(v: View, s: Server, order: seq<Hash>, n: nat)
    requires Enumerates(order, s.avatars) && n <= |order|
    ensures ShowsSome(ReceiveAll(v, [SnapshotMsg(s.current)] + AvatarMsgs(s.avatars, order[..n])), s, order, n)
  {
    if n == 0 {
      assert [SnapshotMsg(s.current)] + AvatarMsgs(s.avatars, order[..0]) == [] + [SnapshotMsg(s.current)];
      ReceiveSnoc(v, [], SnapshotMsg(s.current));
    } else {
      SeedAgrees(v, s, order, n - 1);
      var ms := [SnapshotMsg(s.current)] + AvatarMsgs(s.avatars, order[..n - 1]);
      var h := order[n - 1];
      hide AvatarMsgs, ShowsSome, Receive;
      assert order[..n] == order[..n - 1] + [h];
      AvatarMsgsSnoc(s.current, s.avatars, order[..n - 1], h);
      ReceiveSnoc(v, ms, AvatarMsg(h, s.avatars[h]));
      ShowsOneMore(ReceiveAll(v, ms), s, order, n - 1);
    }
  }

  // ---- every step keeps it -----------------------------------------------------------------------

  /** The server appends to wires and nothing else moves: an active client ends up with what it would
      have had, then what was appended. */
  lemma AppendEventually(sys: System, sys': System, k: Sock, ms: seq<Msg>)
    requires k in sys.links && k in sys.server.wire && sys.links[k].taken <= |sys.server.wire[k]|
    requires k in sys'.links && k in sys'.server.wire && sys'.server.wire[k] == sys.server.wire[k] + ms
    requires sys'.links[k].taken == sys.links[k].taken && sys'.links[k].proc == sys.links[k].proc
    requires ViewOf(sys', sys.links[k].proc) == ViewOf(sys, sys.links[k].proc)
    ensures Eventually(sys', k) == ReceiveAll(Eventually(sys, k), ms)
  {
    var t := sys.links[k].taken;
    assert sys'.server.wire[k][t..] == sys.server.wire[k][t..] + ms;
    ReceiveAppend(ViewOf(sys, sys.links[k].proc), sys.server.wire[k][t..], ms);
  }

  lemma ReceiveOne(v: View, m: Msg)
    ensures ReceiveAll(v, [m]) == Receive(v, m)
  {
    ReceiveSnoc(v, [], m);
    assert [] + [m] == [m];
  }

  ghost predicate IsBroadcast(s: Server, s': Server, m: Msg) {
    match m
    case SnapshotMsg(snap) => s' == Broadcast(s, snap) && snap.revision == s.current.revision + 1
    case AvatarMsg(hash, entry) => s' == BroadcastAvatar(s, hash, entry)
    case _ => false
  }

  lemma BroadcastWires(s: Server, s': Server, m: Msg)
    requires WiresOk(s) && IsBroadcast(s, s', m)
    ensures WiresOk(s')
  {
    forall k | k in s.clients ensures k in s'.wire && WireOk(s'.wire[k], s.clients[k], s'.current.revision) {
      if s.clients[k].active {
        WireSnoc(s.wire[k], m, s.clients[k], s.current.revision, s'.current.revision);
      }
    }
    forall k | k in s'.wire ensures (OnlyControl(s'.wire[k]) || NoDisabled(s'.wire[k])) && Consecutive(Revisions(s'.wire[k])) {
      if k in s.clients { WireLoose(s'.wire[k], s.clients[k], s'.current.revision); }
    }
  }

  lemma BroadcastAgrees(v: View, s: Server, s': Server, m: Msg)
    requires Agrees(v, s) && IsBroadcast(s, s', m)
    ensures Agrees(Receive(v, m), s')
  {
  }

  /** The future of a link depends only on its wire, what was taken of it, and its process's view. */
  lemma SameFuture(sys: System, sys': System, k: Sock)
    requires k in sys.links && k in sys.server.wire && sys.links[k].taken <= |sys.server.wire[k]|
    requires k in sys'.links && k in sys'.server.wire && sys'.server.wire[k] == sys.server.wire[k]
    requires sys'.links[k].taken == sys.links[k].taken && sys'.links[k].proc == sys.links[k].proc
    requires ViewOf(sys', sys.links[k].proc) == ViewOf(sys, sys.links[k].proc)
    ensures Eventually(sys', k) == Eventually(sys, k)
  {
  }

  lemma BroadcastLinks(sys: System, s': Server, m: Msg)
    requires LinksOk(sys) && IsBroadcast(sys.server, s', m)
    ensures LinksOk(sys.(server := s')) && s'.clients == sys.server.clients
  {
    hide OneOpenEach;
  }

  lemma BroadcastConverges(sys: System, s': Server, m: Msg, k: Sock)
    requires LinksOk(sys) && LinksOk(sys.(server := s')) && IsBroadcast(sys.server, s', m)
    requires k in sys.server.clients && k in s'.clients && Converges(sys, k)
    ensures Converges(sys.(server := s'), k)
  {
    hide OneOpenEach, ReceiveAll, Eventually, Agrees;
    if sys.server.clients[k].active && sys.links[k].open {
      AppendEventually(sys, sys.(server := s'), k, [m]);
      ReceiveOne(Eventually(sys, k), m);
      BroadcastAgrees(Eventually(sys, k), sys.server, s', m);
    }
  }

  /** A broadcast of the next snapshot, or of an avatar, to all active clients. */
  lemma BroadcastKeeps(sys: System, s': Server, m: Msg)
    requires Inv(sys) && IsBroadcast(sys.server, s', m)
    ensures Inv(sys.(server := s'))
  {
    BroadcastWires(sys.server, s', m);
    BroadcastLinks(sys, s', m);
    hide WiresOk, LinksOk, Converges, IsBroadcast;
    forall k | k in s'.clients ensures Converges(sys.(server := s'), k) { BroadcastConverges(sys, s', m, k); }
  }

  /** Agreement depends only on the host's snapshot and avatars. */
  lemma SameAgrees(v: View, s: Server, s': Server)
    requires Agrees(v, s) && s'.current == s.current && s'.avatars == s.avatars
    ensures Agrees(v, s')
  {
  }

  lemma GreetWire(ms: seq<Msg>, s: Server, c: Client, blocked: bool, order: seq<Hash>)
    requires WireOk(ms, c, s.current.revision) && !c.active && !c.inert && Enumerates(order, s.avatars)
    ensures blocked ==> WireOk(ms + [DisabledMsg], c.(inert := true), s.current.revision)
    ensures !blocked ==>
              WireOk(ms + ([SnapshotMsg(s.current)] + AvatarMsgs(s.avatars, order)), c.(active := true), s.current.revision)
  {
    if blocked {
      RevisionsSnoc(ms, DisabledMsg);
      assert (ms + [DisabledMsg])[|ms|] == DisabledMsg;
    } else {
      SeedRevisions(ms, s.current, s.avatars, order);
    }
  }

  /** The server writes `ms` to one client and possibly reclassifies it. */
  ghost predicate OneWrite(s: Server, s': Server, sock: Sock, c: Client, ms: seq<Msg>) {
    && sock in s.clients && sock in s.wire && s'.clients == s.clients[sock := c]
    && s'.current == s.current && s'.avatars == s.avatars
    && s'.wire.Keys == s.wire.Keys && s'.wire[sock] == s.wire[sock] + ms
    && forall k :: k in s.wire && k != sock ==> s'.wire[k] == s.wire[k]
  }

  lemma OneWriteWires(s: Server, s': Server, sock: Sock, c: Client, ms: seq<Msg>)
    requires WiresOk(s) && OneWrite(s, s', sock, c, ms) && WireOk(s'.wire[sock], c, s.current.revision)
    ensures WiresOk(s')
  {
    WireLoose(s'.wire[sock], c, s.current.revision);
    hide WireOk, OnlyControl, NoDisabled, Consecutive, Revisions;
  }

  lemma OneWriteLinks(sys: System, s': Server, sock: Sock, c: Client, ms: seq<Msg>)
    requires LinksOk(sys) && OneWrite(sys.server, s', sock, c, ms)
    ensures LinksOk(sys.(server := s')) && s'.clients.Keys == sys.server.clients.Keys
  {
    hide OneOpenEach;
  }

  lemma OneWriteConverges(sys: System, s': Server, sock: Sock, c: Client, ms: seq<Msg>, k: Sock)
    requires LinksOk(sys) && LinksOk(sys.(server := s')) && OneWrite(sys.server, s', sock, c, ms) && k in s'.clients
    requires k == sock && c.active && sys.links[sock].open ==> Agrees(ReceiveAll(Eventually(sys, sock), ms), sys.server)
    requires k in sys.server.clients && Converges(sys, k)
    ensures Converges(sys.(server := s'), k)
  {
    var sys' := sys.(server := s');
    hide OneOpenEach, ReceiveAll, Agrees;
    if s'.clients[k].active && sys.links[k].open {
      if k == sock { AppendEventually(sys, sys', k, ms); }
      SameAgrees(Eventually(sys', k), sys.server, s');
    }
  }

  /** Such a write keeps the invariant if it does for that one client. */
  lemma OneWriteKeeps(sys: System, s': Server, sock: Sock, c: Client, ms: seq<Msg>)
    requires Inv(sys) && OneWrite(sys.server, s', sock, c, ms)
    requires WireOk(s'.wire[sock], c, sys.server.current.revision)
    requires c.active && sys.links[sock].open ==> Agrees(ReceiveAll(Eventually(sys, sock), ms), sys.server)
    ensures Inv(sys.(server := s'))
  {
    hide WiresOk, WireOk, LinksOk, Converges, OneWrite, ReceiveAll, Eventually, Agrees;
    OneWriteWires(sys.server, s', sock, c, ms);
    OneWriteLinks(sys, s', sock, c, ms);
    forall k | k in s'.clients ensures Converges(sys.(server := s'), k) { OneWriteConverges(sys, s', sock, c, ms, k); }
  }

  /** Appending a Pong to one wire. */
  lemma PongKeeps(sys: System, sock: Sock)
    requires Inv(sys) && sock in sys.server.clients
    ensures Inv(sys.(server := sys.server.(wire := Write(sys.server.wire, {sock}, [PongMsg]))))
  {
    hide OneOpenEach;
    var s := sys.server;
    var s' := s.(wire := Write(s.wire, {sock}, [PongMsg]));
    assert s'.clients == s.clients[sock := s.clients[sock]];
    assert OneWrite(s, s', sock, s.clients[sock], [PongMsg]);
    WireSnoc(s.wire[sock], PongMsg, s.clients[sock], s.current.revision, s.current.revision);
    ReceiveOne(Eventually(sys, sock), PongMsg);
    hide WireOk, ReceiveAll, Eventually;
    OneWriteKeeps(sys, s', sock, s.clients[sock], [PongMsg]);
  }

  function Greeting(s: Server, blocked: bool, order: seq<Hash>): seq<Msg>
    requires forall h :: h in order ==> h in s.avatars
  {
    if blocked then [DisabledMsg] else [SnapshotMsg(s.current)] + AvatarMsgs(s.avatars, order)
  }

  lemma GreetIsOneWrite(s: Server, sock: Sock, blocked: bool, order: seq<Hash>)
    requires sock in s.clients && sock in s.wire && Enumerates(order, s.avatars)
    requires !s.clients[sock].active && !s.clients[sock].inert
    ensures OneWrite(s, Greet(s, sock, blocked, order), sock,
                     if blocked then s.clients[sock].(inert := true) else s.clients[sock].(active := true),
                     Greeting(s, blocked, order))
  {
  }

  /** A Hello: seeding makes a new active client's future agree, whatever its view was before. */
  lemma GreetKeeps(sys: System, sock: Sock, blocked: bool, order: seq<Hash>)
    requires Inv(sys) && sock in sys.server.clients && Enumerates(order, sys.server.avatars)
    ensures Inv(sys.(server := Greet(sys.server, sock, blocked, order)))
  {
    var s, c := sys.server, sys.server.clients[sock];
    if !c.active && !c.inert {
      GreetWire(s.wire[sock], s, c, blocked, order);
      SeededAgrees(Eventually(sys, sock), s, order);
      GreetIsOneWrite(s, sock, blocked, order);
      var c' := if blocked then c.(inert := true) else c.(active := true);
      hide WireOk, ReceiveAll, Eventually, Agrees, Enumerates, AvatarMsgs, OneWrite, OneOpenEach;
      OneWriteKeeps(sys, Greet(s, sock, blocked, order), sock, c', Greeting(s, blocked, order));
    }
  }

  lemma SeededAgrees(v: View, s: Server, order: seq<Hash>)
    requires Enumerates(order, s.avatars)
    ensures Agrees(ReceiveAll(v, [SnapshotMsg(s.current)] + AvatarMsgs(s.avatars, order)), s)
  {
    SeedAgrees(v, s, order, |order|);
    assert order[..|order|] == order;
  }

  /** Steps that only move a message along, or open or close an end. */
  predicate IsLinkStep(step: Step) {
    || step.Connect? || step.AcceptNext? || step.ServerDrops? || step.ClientPings? || step.ClientCloses?
    || step.HostRestart?
  }

  /** Such a step leaves who is active, and what the others still have to receive. */
  lemma LinkStepLeaves(sys: System, step: Step, k: Sock)
    requires LinksOk(sys) && Enabled(sys, step) && IsLinkStep(step)
    requires k in Next(sys, step).server.clients && Next(sys, step).server.clients[k].active && k in Next(sys, step).links
    requires Next(sys, step).links[k].open
    ensures var sys' := Next(sys, step);
            && k in sys.server.clients && sys.server.clients[k].active && k in sys.links && sys.links[k].open
            && k in sys'.server.wire && sys'.server.wire[k] == sys.server.wire[k]
            && sys'.links[k].taken == sys.links[k].taken && sys'.links[k].proc == sys.links[k].proc
            && sys'.views == sys.views && sys'.server.current == sys.server.current && sys'.server.avatars == sys.server.avatars
  {
    hide OneOpenEach;
    match step
    case Connect(_, _, _) =>
    case AcceptNext(_) =>
    case ServerDrops(_) =>
    case ClientPings(_) =>
    case ClientCloses(_) =>
    case HostRestart =>
  }

  lemma LinkStepConverges(sys: System, step: Step, k: Sock)
    requires LinksOk(sys) && ActiveAgree(sys) && Enabled(sys, step) && IsLinkStep(step)
    requires LinksOk(Next(sys, step)) && k in Next(sys, step).server.clients
    ensures Converges(Next(sys, step), k)
  {
    var sys' := Next(sys, step);
    if sys'.server.clients[k].active && sys'.links[k].open {
      LinkStepLeaves(sys, step, k);
      assert Converges(sys, k);
      hide OneOpenEach, Next, Enabled, ReceiveAll, Agrees;
      SameFuture(sys, sys', k);
      SameAgrees(Eventually(sys', k), sys.server, sys'.server);
    }
  }

  lemma LinkStepKeeps(sys: System, step: Step)
    requires Inv(sys) && Enabled(sys, step) && IsLinkStep(step)
    ensures Inv(Next(sys, step))
  {
    hide WiresOk, LinksOk, Converges, Next, Enabled, IsLinkStep;
    LinkStepWires(sys, step);
    LinkStepLinks(sys, step);
    forall k | k in Next(sys, step).server.clients ensures Converges(Next(sys, step), k) { LinkStepConverges(sys, step, k); }
  }

  lemma LinkStepWires(sys: System, step: Step)
    requires WiresOk(sys.server) && Enabled(sys, step)
    requires IsLinkStep(step)
    ensures WiresOk(Next(sys, step).server)
  {
    assert WireOk([], Client(false, false), sys.server.current.revision);
    assert OnlyControl([]) && Consecutive(Revisions([]));
    hide WireOk, OnlyControl, NoDisabled, Consecutive, Revisions;
    match step
    case Connect(_, _, _) =>
    case AcceptNext(_) =>
    case ServerDrops(_) =>
    case ClientPings(_) =>
    case ClientCloses(_) =>
    case HostRestart =>
  }

  lemma LinkStepLinks(sys: System, step: Step)
    requires LinksOk(sys) && Enabled(sys, step)
    requires IsLinkStep(step)
    ensures LinksOk(Next(sys, step))
  {
    match step
    case Connect(_, _, _) =>
    case AcceptNext(_) =>
    case ServerDrops(_) =>
    case ClientPings(_) =>
    case ClientCloses(_) =>
    case HostRestart =>
  }

  lemma TakenSameFuture(sys: System, sock: Sock)
    requires LinksOk(sys) && Enabled(sys, ClientTakes(sock)) && sock in sys.server.wire
    ensures sock in Next(sys, ClientTakes(sock)).links && sock in Next(sys, ClientTakes(sock)).server.wire
    ensures sys.links[sock].taken + 1 <= |sys.server.wire[sock]|
    ensures Eventually(Next(sys, ClientTakes(sock)), sock) == Eventually(sys, sock)
  {
    var l := sys.links[sock];
    var q := sys.server.wire[sock][l.taken..];
    assert q == [q[0]] + sys.server.wire[sock][l.taken + 1..];
    ReceiveCons(ViewOf(sys, l.proc), q[0], sys.server.wire[sock][l.taken + 1..]);
  }

  lemma ReceiveLinks(sys: System, sock: Sock)
    requires LinksOk(sys) && Enabled(sys, ClientTakes(sock))
    ensures var sys' := Next(sys, ClientTakes(sock)); LinksOk(sys') && sys'.server == sys.server
  {
  }

  lemma OtherSameFuture(sys: System, sock: Sock, k: Sock)
    requires LinksOk(sys) && Enabled(sys, ClientTakes(sock)) && LinksOk(Next(sys, ClientTakes(sock)))
    requires k in sys.server.clients && k != sock && sys.links[k].open && Next(sys, ClientTakes(sock)).server == sys.server
    ensures Eventually(Next(sys, ClientTakes(sock)), k) == Eventually(sys, k)
  {
    hide ReceiveAll;
    assert sys.links[k].proc != sys.links[sock].proc;
    SameFuture(sys, Next(sys, ClientTakes(sock)), k);
  }

  lemma ReceiveConverges(sys: System, sock: Sock, k: Sock)
    requires LinksOk(sys) && Enabled(sys, ClientTakes(sock)) && LinksOk(Next(sys, ClientTakes(sock)))
    requires k in sys.server.clients && Converges(sys, k) && Next(sys, ClientTakes(sock)).server == sys.server
    ensures Converges(Next(sys, ClientTakes(sock)), k)
  {
    hide ReceiveAll, Agrees, Eventually;
    if sys.server.clients[k].active && sys.links[k].open {
      if k == sock { TakenSameFuture(sys, sock); } else { OtherSameFuture(sys, sock, k); }
    }
  }

  /** Receiving moves a frame from the wire into the view: the future does not change. */
  lemma ReceiveKeeps(sys: System, sock: Sock)
    requires Inv(sys) && Enabled(sys, ClientTakes(sock))
    ensures Inv(Next(sys, ClientTakes(sock)))
  {
    ReceiveLinks(sys, sock);
    hide WiresOk, LinksOk, Converges, Next, Enabled;
    forall k | k in sys.server.clients ensures Converges(Next(sys, ClientTakes(sock)), k) { ReceiveConverges(sys, sock, k); }
  }

  lemma UpTaken(sys: System, sock: Sock)
    requires Inv(sys) && sock in sys.links && sys.links[sock].up != []
    ensures Inv(sys.(links := sys.links[sock := sys.links[sock].(up := sys.links[sock].up[1..])]))
  {
    var sys' := sys.(links := sys.links[sock := sys.links[sock].(up := sys.links[sock].up[1..])]);
    assert LinksOk(sys');
    forall k | k in sys'.server.clients ensures Converges(sys', k) {
      assert Converges(sys, k);
      assert sys'.links[k].open ==> Eventually(sys', k) == Eventually(sys, k);
    }
  }

  lemma RevisionMoves(s: Host.Snapshot, e: Host.Entry)
    ensures Host.Reduce(s, e).revision == s.revision || Host.Reduce(s, e).revision == s.revision + 1
    ensures Host.Reduce(s, e).revision == s.revision ==> Host.Reduce(s, e) == s
  {
  }

  lemma StepKeeps(sys: System, step: Step)
    requires Inv(sys) && Enabled(sys, step)
    ensures Inv(Next(sys, step))
  {
    hide Inv;
    match step
    case ServerTakes(sock, blocked, order) =>
      UpTaken(sys, sock);
      var taken := sys.(links := sys.links[sock := sys.links[sock].(up := sys.links[sock].up[1..])]);
      match sys.links[sock].up[0] {
        case Hello(_) => GreetKeeps(taken, sock, blocked, order);
        case UpPing => PongKeeps(taken, sock);
        case UpPong =>
      }
    case HostChange(change) =>
      RevisionMoves(sys.server.current, change);
      var next := Host.Reduce(sys.server.current, change);
      if next.revision != sys.server.current.revision {
        BroadcastKeeps(sys, Broadcast(sys.server, next), SnapshotMsg(next));
      }
    case AvatarReady(hash, entry) =>
      BroadcastKeeps(sys, BroadcastAvatar(sys.server, hash, entry), AvatarMsg(hash, entry));
    case ClientTakes(sock) => ReceiveKeeps(sys, sock);
    case _ => LinkStepKeeps(sys, step);
  }

  lemma {:induction false} EveryRunKeeps(steps: seq<Step>)
    ensures Inv(Run(steps))
  {
    if steps != [] {
      var init, last := steps[..|steps| - 1], steps[|steps| - 1];
      EveryRunKeeps(init);
      if Enabled(Run(init), last) { StepKeeps(Run(init), last); }
    }
  }

  // ---- the theorems --------------------------------------------------------------------------------

  /** Replication: in every run, each active client's view, once it has received what is on its wire,
      shows the host's present snapshot and every avatar the host knows; at quiescence it already does. */
  lemma ActiveClientsAgree(steps: seq<Step>, sock: Sock)
    requires var sys := Run(steps);
             sock in sys.links && sock in sys.server.clients && sys.server.clients[sock].active && sys.links[sock].open
    ensures var sys := Run(steps);
            && LinksOk(sys) && Agrees(Eventually(sys, sock), sys.server)
            && (sys.links[sock].taken == |sys.server.wire[sock]| ==> Agrees(ViewOf(sys, sys.links[sock].proc), sys.server))
  {
    EveryRunKeeps(steps);
    var sys := Run(steps);
    assert Converges(sys, sock);
    if sys.links[sock].taken == |sys.server.wire[sock]| {
      assert sys.server.wire[sock][sys.links[sock].taken..] == [];
    }
  }

  /** The snapshots a client takes off one connection carry consecutive revisions, none skipped or repeated. */
  lemma RevisionsAreConsecutive(steps: seq<Step>, sock: Sock)
    requires var sys := Run(steps); sock in sys.server.wire
    ensures var sys := Run(steps);
            && LinksOk(sys) && Consecutive(Revisions(sys.server.wire[sock][..sys.links[sock].taken]))
            && Revisions(sys.server.wire[sock][..sys.links[sock].taken]) <= Revisions(sys.server.wire[sock])
  {
    EveryRunKeeps(steps);
    var sys := Run(steps);
    RevisionsPrefix(sys.server.wire[sock], sys.links[sock].taken);
  }

  lemma {:induction false} RevisionsPrefix(ms: seq<Msg>, n: nat)
    requires n <= |ms|
    ensures Revisions(ms[..n]) <= Revisions(ms)
    decreases |ms|
  {
    if n == |ms| {
      assert ms[..n] == ms;
    } else {
      RevisionsPrefix(ms[..|ms| - 1], n);
      assert ms[..|ms| - 1][..n] == ms[..n];
    }
  }

  /** No connection is both active and inert, and a wire that ever carried a Disabled frame never
      carries a snapshot or an avatar, before or after. */
  lemma DisabledWiresCarryNothing(steps: seq<Step>, sock: Sock)
    requires var sys := Run(steps); sock in sys.server.wire
    ensures var sys := Run(steps);
            && (sock in sys.server.clients ==> !(sys.server.clients[sock].active && sys.server.clients[sock].inert))
            && (sock in sys.server.clients && sys.server.clients[sock].inert ==> DisabledMsg in sys.server.wire[sock])
            && (DisabledMsg in sys.server.wire[sock] ==> OnlyControl(sys.server.wire[sock]))
  {
    EveryRunKeeps(steps);
  }

  // ---- what the host knows, and who is switched off -----------------------------------------------

  /** The changes the host's reducer has seen since it last started. */
  function HostLog(steps: seq<Step>): seq<Host.Entry> {
    if steps == [] then []
    else
      var log := HostLog(steps[..|steps| - 1]);
      match steps[|steps| - 1]
      case HostChange(change) => log + [change]
      case HostRestart => []
      case _ => log
  }

  lemma StepHost(sys: System, step: Step)
    requires Enabled(sys, step)
    ensures Next(sys, step).server.current ==
            match step
            case HostChange(change) => Host.Reduce(sys.server.current, change)
            case HostRestart => Host.INITIAL
            case _ => sys.server.current
    ensures Next(sys, step).server.avatars ==
            match step
            case AvatarReady(hash, entry) => sys.server.avatars[hash := entry]
            case HostRestart => map[]
            case _ => sys.server.avatars
  {
    if step.HostChange? { RevisionMoves(sys.server.current, step.change); }
    hide Host.Reduce, Write;
  }

  /** What the server replicates is what the host's events make of it. */
  lemma {:induction false} CurrentIsTheHosts(steps: seq<Step>)
    ensures Run(steps).server.current == Host.Replay(HostLog(steps))
  {
    if steps != [] {
      var init, last := steps[..|steps| - 1], steps[|steps| - 1];
      CurrentIsTheHosts(init);
      hide Next, Enabled, Host.Reduce;
      if last.HostChange? { Host.ReplaySnoc(HostLog(init), last.change); }
      if Enabled(Run(init), last) { StepHost(Run(init), last); } else { AlwaysEnabled(Run(init), last); }
    }
  }

  lemma AlwaysEnabled(sys: System, step: Step)
    ensures step.HostChange? || step.HostRestart? || step.AvatarReady? ==> Enabled(sys, step)
  {
  }

  predicate AboutAvatar(step: Step, hash: Hash) {
    step.HostRestart? || (step.AvatarReady? && step.hash == hash)
  }

  /** The avatar the server knows for a hash is the last one made ready, by step `k`, since the host started. */
  lemma {:induction false} AvatarsAreLast(steps: seq<Step>, hash: Hash, k: int)
    requires -1 <= k < |steps| && (k >= 0 ==> AboutAvatar(steps[k], hash))
    requires forall i :: k < i < |steps| ==> !AboutAvatar(steps[i], hash)
    ensures var avatars := Run(steps).server.avatars;
            if k >= 0 && steps[k].AvatarReady? then hash in avatars && avatars[hash] == steps[k].entry else hash !in avatars
  {
    if steps != [] {
      var init, last := steps[..|steps| - 1], steps[|steps| - 1];
      if k < |init| { AvatarsAreLast(init, hash, k); }
      hide Next, Enabled;
      if Enabled(Run(init), last) { StepHost(Run(init), last); } else { AlwaysEnabled(Run(init), last); }
    }
  }

  /** A frame of this process's connection `k` that it has taken said that it is disabled. */
  predicate WasToldOn(sys: System, p: Proc, k: Sock) {
    k in sys.links && sys.links[k].proc == p && k in sys.server.wire && sys.links[k].taken <= |sys.server.wire[k]|
    && DisabledMsg in sys.server.wire[k][..sys.links[k].taken]
  }

  ghost predicate ToldExactly(sys: System) {
    forall p :: ViewOf(sys, p).disabled <==> exists k :: WasToldOn(sys, p, k)
  }

  /** Only taking a Disabled frame tells a process anything, and nothing is forgotten. */
  lemma StepTells(sys: System, step: Step, p: Proc, k: Sock)
    requires LinksOk(sys) && Enabled(sys, step)
    ensures WasToldOn(Next(sys, step), p, k) <==> WasToldOn(sys, p, k) || TakesDisabled(sys, step, p, k)
  {
    hide OneOpenEach, Receive;
    if k in sys.links && k in sys.server.wire {
      StepWires(sys, step, k);
      var t, w, w' := sys.links[k].taken, sys.server.wire[k], Next(sys, step).server.wire[k];
      assert w'[..t] == w[..t];
      if step == ClientTakes(k) { assert w'[..t + 1] == w[..t] + [w[t]]; }
    }
  }

  predicate TakesDisabled(sys: System, step: Step, p: Proc, k: Sock) {
    && step == ClientTakes(k) && k in sys.links && sys.links[k].proc == p && k in sys.server.wire
    && sys.links[k].taken < |sys.server.wire[k]| && sys.server.wire[k][sys.links[k].taken] == DisabledMsg
  }

  /** Wires only grow. */
  lemma StepWires(sys: System, step: Step, k: Sock)
    requires Enabled(sys, step) && k in sys.server.wire
    ensures k in Next(sys, step).server.wire && sys.server.wire[k] <= Next(sys, step).server.wire[k]
  {
    hide Receive, Host.Reduce;
  }

  lemma StepViews(sys: System, step: Step, p: Proc)
    requires Enabled(sys, step)
    ensures ViewOf(Next(sys, step), p).disabled <==>
            ViewOf(sys, p).disabled || (step.ClientTakes? && TakesDisabled(sys, step, p, step.sock))
  {
  }

  lemma {:induction false} EveryRunTells(steps: seq<Step>)
    ensures ToldExactly(Run(steps))
  {
    if steps != [] {
      var init, last := steps[..|steps| - 1], steps[|steps| - 1];
      EveryRunTells(init);
      EveryRunKeeps(init);
      if Enabled(Run(init), last) { StepToldExactly(Run(init), last); }
    }
  }

  lemma StepToldExactly(sys: System, step: Step)
    requires LinksOk(sys) && Enabled(sys, step) && ToldExactly(sys)
    ensures ToldExactly(Next(sys, step))
  {
    hide LinksOk, Enabled, Next, TakesDisabled, WasToldOn, ViewOf;
    forall p ensures ViewOf(Next(sys, step), p).disabled <==> exists k :: WasToldOn(Next(sys, step), p, k) {
      StepViews(sys, step, p);
      forall k ensures WasToldOn(Next(sys, step), p, k) <==> WasToldOn(sys, p, k) || TakesDisabled(sys, step, p, k) {
        StepTells(sys, step, p, k);
      }
      OnlyTheTaker(sys, step, p);
    }
  }

  lemma OnlyTheTaker(sys: System, step: Step, p: Proc)
    ensures forall k :: TakesDisabled(sys, step, p, k) ==> step.ClientTakes? && step.sock == k
  {
  }

  /** A process shows itself disabled exactly when, on some connection of its own, it has taken a Disabled frame; so it
      stays disabled whatever connections follow. */
  lemma DisabledExactlyWhenTold(steps: seq<Step>, p: Proc)
    ensures ViewOf(Run(steps), p).disabled <==> exists k :: WasToldOn(Run(steps), p, k)
    ensures forall more :: ViewOf(Run(steps), p).disabled ==> ViewOf(Run(steps + more), p).disabled
  {
    EveryRunTells(steps);
    forall more ensures ViewOf(Run(steps), p).disabled ==> ViewOf(Run(steps + more), p).disabled {
      DisabledStays(steps, more, p);
    }
  }

  lemma {:induction false} DisabledStays(steps: seq<Step>, more: seq<Step>, p: Proc)
    ensures ViewOf(Run(steps), p).disabled ==> ViewOf(Run(steps + more), p).disabled
  {
    if more == [] {
      assert steps + more == steps;
    } else {
      var init, last := more[..|more| - 1], more[|more| - 1];
      assert (steps + more)[..|steps + more| - 1] == steps + init;
      DisabledStays(steps, init, p);
      hide Next, Enabled, ViewOf;
      if Enabled(Run(steps + init), last) { StepViews(Run(steps + init), last, p); }
    }
  }

  /** A connection the server has switched off leads its process to know it, once it has taken what is on its wire. */
  lemma InertClientsLearn(steps: seq<Step>, sock: Sock)
    requires var sys := Run(steps);
             sock in sys.links && sock in sys.server.clients && sys.server.clients[sock].inert
    ensures var sys := Run(steps); LinksOk(sys) && Eventually(sys, sock).disabled
  {
    EveryRunKeeps(steps);
    EveryRunTells(steps);
    var sys := Run(steps);
    var t, wire := sys.links[sock].taken, sys.server.wire[sock];
    assert WireOk(wire, sys.server.clients[sock], sys.server.current.revision);
    DisabledIsKept(ViewOf(sys, sys.links[sock].proc), wire[t..]);
    if DisabledMsg !in wire[t..] {
      assert wire == wire[..t] + wire[t..];
      assert WasToldOn(sys, sys.links[sock].proc, sock);
    }
  }
}
