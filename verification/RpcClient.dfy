/** The client of Discord's local RPC socket: connection, handshake, and the subscriptions that
    follow the user's voice channel.  The socket, the token exchange and the clock are
    nondeterministic; everything that reaches the socket is recorded in a trace. */
module RpcClient {
  import opened Common
  import opened Framing
  import Host = OverlayState

  type Channel = string

  datatype ConnectionState = Disconnected | Connecting | Authorizing | Ready | InChannel

  /** The events subscribed to per voice channel. */
  datatype ChannelEvent = VoiceStateCreate | VoiceStateUpdate | VoiceStateDelete | SpeakingStarts | SpeakingStops

  const CHANNEL_EVENTS: seq<ChannelEvent> :=
    [VoiceStateCreate, VoiceStateUpdate, VoiceStateDelete, SpeakingStarts, SpeakingStops]

  datatype OutMsg =
    | Handshake
    | Authorize
    | Authenticate
    | SubscribeChannelSelect
    | SubscribeNotifications
    | GetSelectedChannel
    | Subscribe(evt: ChannelEvent, channel: Channel)
    | Unsubscribe(evt: ChannelEvent, channel: Channel)
    | Pong(bytes: seq<Byte>)

  /** What an incoming FRAME says, once parsed. */
  datatype InMsg =
    | AuthorizeReply(code: string)
    | AuthenticateReply(isError: bool)
    | SelectedReply(channelId: Channel, states: seq<Host.VoiceState>)   // "" when in no channel
    | ReadyEvent
    | DispatchEvent(ev: Host.Event)
    | OtherMsg

  const OP_FRAME: int := 1
  const OP_PING: int := 3
  const HEADER_LEN: nat := 8
  const MAX_PAYLOAD_LEN: int := 16 * 1024 * 1024
  const MAX_RECV_BUFFER: nat := 16 * 1024 * 1024

  // ---- what happened on the socket -------------------------------------------------------

  datatype SocketEvent =
    | Started
    | Attempted(at: int)          // a connection attempt, at this clock reading
    | Connected
    | Sent(msg: OutMsg)
    | Dropped                     // closed by failure: OnClosed fires
    | Closed                      // closed by us: it does not
    | Exchanged(ok: bool)         // the OAuth token exchange for a code

  function LiveAfter(live: set<(ChannelEvent, Channel)>, e: SocketEvent): set<(ChannelEvent, Channel)> {
    match e
    case Connected => {}
    case Sent(Subscribe(evt, channel)) => live + {(evt, channel)}
    case Sent(Unsubscribe(evt, channel)) => live - {(evt, channel)}
    case _ => live
  }

  /** The channel subscriptions Discord holds for the connection in use. */
  function LiveSubs(tr: seq<SocketEvent>): set<(ChannelEvent, Channel)> {
    if tr == [] then {} else LiveAfter(LiveSubs(tr[..|tr| - 1]), tr[|tr| - 1])
  }

  function AttemptsAfter(ts: seq<int>, e: SocketEvent): seq<int> {
    match e
    case Started => []
    case Attempted(at) => ts + [at]
    case _ => ts
  }

  /** Clock readings of the connection attempts since the last start. */
  function AttemptsOf(tr: seq<SocketEvent>): seq<int> {
    if tr == [] then [] else AttemptsAfter(AttemptsOf(tr[..|tr| - 1]), tr[|tr| - 1])
  }

  /** Connections opened, less those closed again, by failure or by us. */
  function Balance(tr: seq<SocketEvent>): int {
    if tr == [] then 0 else BalanceAfter(Balance(tr[..|tr| - 1]), tr[|tr| - 1])
  }

  function BalanceAfter(balance: int, e: SocketEvent): int {
    match e
    case Connected => balance + 1
    case Dropped => balance - 1
    case Closed => balance - 1
    case _ => balance
  }

  predicate Spaced(ts: seq<int>, delay: int) {
    forall i :: 0 <= i < |ts| - 1 ==> ts[i + 1] >= ts[i] + delay
  }

  /** All five events of a channel, or nothing when there is none. */
  function FiveOf(channel: Channel): set<(ChannelEvent, Channel)> {
    if channel == "" then {}
    else
      {(VoiceStateCreate, channel), (VoiceStateUpdate, channel), (VoiceStateDelete, channel),
       (SpeakingStarts, channel), (SpeakingStops, channel)}
  }

  function SomeOf(channel: Channel, n: nat): set<(ChannelEvent, Channel)>
    requires n <= |CHANNEL_EVENTS|
  {
    set i | 0 <= i < n :: (CHANNEL_EVENTS[i], channel)
  }

  /** The messages, as sent. */
  function Sents(ms: seq<OutMsg>): seq<SocketEvent> {
    seq(|ms|, i requires 0 <= i < |ms| => Sent(ms[i]))
  }

  /** What sending `ms` in turn comes to: they are all out, or the connection went in front of one of them, if there
      was one. */
  ghost predicate Sending(before: seq<SocketEvent>, after: seq<SocketEvent>, ms: seq<OutMsg>, wasOpen: bool, open: bool) {
    if !wasOpen then !open && after == before
    else if open then after == before + Sents(ms)
    else exists n :: 0 <= n < |ms| && after == before + Sents(ms[..n]) + [Dropped]
  }

  lemma SendingOneMore(before: seq<SocketEvent>, at: seq<SocketEvent>, after: seq<SocketEvent>, ms: seq<OutMsg>, m: OutMsg,
                       wasOpen: bool, atOpen: bool, open: bool)
    requires Sending(before, at, ms, wasOpen, atOpen) && (open ==> atOpen)
    requires after == at + if open then [Sent(m)] else if atOpen then [Dropped] else []
    ensures Sending(before, after, ms + [m], wasOpen, open)
  {
    var more := ms + [m];
    if open {
      assert Sents(more) == Sents(ms) + [Sent(m)];
    } else if atOpen {
      assert more[..|ms|] == ms && after == before + Sents(more[..|ms|]) + [Dropped];
    } else if wasOpen {
      var n :| 0 <= n < |ms| && at == before + Sents(ms[..n]) + [Dropped];
      assert more[..n] == ms[..n] && after == at;
    }
  }

  lemma SendingNothing(tr: seq<SocketEvent>, open: bool)
    ensures Sending(tr, tr, [], open, open)
  {
  }

  function Subscribes(channel: Channel): seq<OutMsg> {
    seq(|CHANNEL_EVENTS|, i requires 0 <= i < |CHANNEL_EVENTS| => Subscribe(CHANNEL_EVENTS[i], channel))
  }

  function Unsubscribes(channel: Channel): seq<OutMsg> {
    seq(|CHANNEL_EVENTS|, i requires 0 <= i < |CHANNEL_EVENTS| => Unsubscribe(CHANNEL_EVENTS[i], channel))
  }

  /** The requests that move the subscriptions from one channel to another; "" is no channel. */
  function Moves(was: Channel, now: Channel): seq<OutMsg> {
    (if was != "" && was != now then Unsubscribes(was) else []) + (if now != "" && now != was then Subscribes(now) else [])
  }

  lemma MovesAre(was: Channel, now: Channel, sent: seq<OutMsg>)
    requires sent == if was != "" then Unsubscribes(was) else []
    ensures [] + Unsubscribes(was) == Unsubscribes(was) && Moves(was, was) == []
    ensures Moves(was, "") == sent && (now != "" && now != was ==> Moves(was, now) == sent + Subscribes(now))
  {
    hide Subscribes, Unsubscribes;
  }

  /** Never more than one connection, and never one closed twice. */
  predicate OneAtATime(tr: seq<SocketEvent>) {
    tr == [] || (OneAtATime(tr[..|tr| - 1]) && 0 <= Balance(tr) <= 1)
  }

  lemma TraceSnoc(tr: seq<SocketEvent>, e: SocketEvent)
    ensures LiveSubs(tr + [e]) == LiveAfter(LiveSubs(tr), e)
    ensures AttemptsOf(tr + [e]) == AttemptsAfter(AttemptsOf(tr), e)
    ensures Balance(tr + [e]) == BalanceAfter(Balance(tr), e)
    ensures OneAtATime(tr + [e]) <==> OneAtATime(tr) && 0 <= Balance(tr + [e]) <= 1
  {
    assert (tr + [e])[..|tr|] == tr;
  }

  function Last(ts: seq<int>): int
    requires ts != []
  {
    ts[|ts| - 1]
  }

  lemma SpacedSnoc(ts: seq<int>, t: int, delay: int)
    requires Spaced(ts, delay) && (ts != [] ==> t >= Last(ts) + delay)
    ensures Spaced(ts + [t], delay)
  {
  }

  /** Attempts a delay apart are few: at most one more than the delays that fit in the time they span. */
  lemma {:induction false} FewAttempts(ts: seq<int>, delay: int)
    requires Spaced(ts, delay) && ts != []
    ensures (|ts| - 1) * delay <= ts[|ts| - 1] - ts[0]
  {
    if |ts| > 1 {
      var init := ts[..|ts| - 1];
      FewAttempts(init, delay);
      assert ts[|ts| - 1] >= init[|init| - 1] + delay;
      assert (|ts| - 1) * delay == (|init| - 1) * delay + delay;
    }
  }

  // ---- the bytes of the transport ----------------------------------------------------------

  /** The overlay after joining a channel that already has members. */
  function Seeded(s: Host.Snapshot, channel: Channel, states: seq<Host.VoiceState>): Host.Snapshot {
    if states == [] then Host.Reduce(s, Host.Applied(Host.ChannelSelect(channel), 0))
    else
      var last := states[|states| - 1];
      Host.Reduce(Seeded(s, channel, states[..|states| - 1]), Host.Applied(Host.VoiceCreate(last), 0))
  }

  predicate LastOfUser(states: seq<Host.VoiceState>, i: int) {
    0 <= i < |states| && forall j :: i < j < |states| ==> states[j].userId != states[i].userId
  }

  ghost predicate FromStates(p: Host.Participant, states: seq<Host.VoiceState>) {
    !p.speaking && exists i :: LastOfUser(states, i) && Host.Carries(p, states[i])
  }

  /** The roster is the users of `states`, each once, silent, and as its last state says. */
  ghost predicate IsRosterOf(ps: seq<Host.Participant>, states: seq<Host.VoiceState>) {
    && Host.UniqueIds(ps)
    && (forall k :: 0 <= k < |ps| ==> FromStates(ps[k], states))
    && (forall i :: 0 <= i < |states| ==> Host.IsListed(ps, states[i].userId))
  }

  /** Joining a channel with members shows the channel and just them, whatever was shown before. */
  lemma {:induction false} SeededShows(s: Host.Snapshot, channel: Channel, states: seq<Host.VoiceState>)
    ensures var o := Seeded(s, channel, states);
            && o.inVoice == (channel != "") && o.channelName == channel && IsRosterOf(o.participants, states)
            && o.notifications == s.notifications && o.config == s.config
  {
    if states == [] {
      NobodyYet(s, channel);
    } else {
      hide Host.Upsert, IsRosterOf, Host.Reduce, Seeded;
      var init, v := states[..|states| - 1], states[|states| - 1];
      SeededShows(s, channel, init);
      OneMoreState(Seeded(s, channel, init).participants, init, v);
      SeededNext(s, channel, init, v, states);
    }
  }

  lemma NobodyYet(s: Host.Snapshot, channel: Channel)
    ensures Seeded(s, channel, []) == Host.Commit(s.(inVoice := channel != "", channelName := channel, participants := []))
    ensures IsRosterOf([], [])
  {
  }

  lemma SeededNext(s: Host.Snapshot, channel: Channel, init: seq<Host.VoiceState>, v: Host.VoiceState,
                   states: seq<Host.VoiceState>)
    requires states != [] && init == states[..|states| - 1] && v == states[|states| - 1]
    ensures states == init + [v]
    ensures var b := Seeded(s, channel, init); Seeded(s, channel, states) == Host.Commit(b.(participants := Host.Upsert(b.participants, v)))
  {
    hide Host.Upsert;
  }

  lemma OneMoreState(ps: seq<Host.Participant>, states: seq<Host.VoiceState>, v: Host.VoiceState)
    requires IsRosterOf(ps, states)
    ensures IsRosterOf(Host.Upsert(ps, v), states + [v])
  {
    var qs, more := Host.Upsert(ps, v), states + [v];
    var at := match Host.Find(ps, v.userId) case Some(i) => i case None => |ps|;
    assert more[|states|] == v && Host.Carries(qs[at], v) && (at == |ps| || FromStates(ps[at], states));
    forall k | 0 <= k < |qs| ensures FromStates(qs[k], more) {
      if k == at {
        assert LastOfUser(more, |states|);
      } else {
        StillFrom(ps[k], states, v);
      }
    }
    forall i | 0 <= i < |more| ensures Host.IsListed(qs, more[i].userId) {
      if i == |states| {
        assert qs[at].userId == v.userId;
      } else {
        var k :| 0 <= k < |ps| && ps[k].userId == states[i].userId;
        assert qs[k].userId == more[i].userId;
      }
    }
  }

  lemma StillFrom(p: Host.Participant, states: seq<Host.VoiceState>, v: Host.VoiceState)
    requires FromStates(p, states) && p.userId != v.userId
    ensures FromStates(p, states + [v])
  {
    var i :| LastOfUser(states, i) && Host.Carries(p, states[i]);
    assert (states + [v])[i] == states[i] && LastOfUser(states + [v], i);
  }

  datatype Peeled = NotYet | Corrupt | Message(op: int, bytes: seq<Byte>, rest: seq<Byte>)

  function Signed32(n: nat): int {
    if n < 0x8000_0000 then n else n - 0x1_0000_0000
  }

  function Unsigned32(n: int): nat {
    n % 0x1_0000_0000
  }

  /** One message as it is sent: the opcode and the length, four bytes each, and the bytes. */
  function EncodeMessage(op: int, bytes: seq<Byte>): seq<Byte> {
    WriteLe32(Unsigned32(op)) + WriteLe32(|bytes|) + bytes
  }

  predicate IsOpcode(op: int) {
    -0x8000_0000 <= op < 0x8000_0000
  }

  /** The first message of a receive buffer: 8 bytes of header, then as many as its second half says. */
  function Peel(buf: seq<Byte>): (p: Peeled)
    ensures p.Message? ==> |p.bytes| + HEADER_LEN + |p.rest| == |buf|
  {
    if |buf| < HEADER_LEN then NotYet
    else
      var len := Signed32(ReadLe32(buf[4..]));
      if len < 0 || len > MAX_PAYLOAD_LEN then Corrupt
      else if |buf| < HEADER_LEN + len then NotYet
      else Message(Signed32(ReadLe32(buf)), buf[HEADER_LEN..HEADER_LEN + len], buf[HEADER_LEN + len..])
  }

  /** What was sent is peeled off again, whatever follows. */
  lemma PeelSent(op: int, bytes: seq<Byte>, rest: seq<Byte>)
    requires IsOpcode(op) && |bytes| <= MAX_PAYLOAD_LEN
    ensures Peel(EncodeMessage(op, bytes) + rest) == Message(op, bytes, rest)
  {
    hide ReadLe32;
    var a, b := WriteLe32(Unsigned32(op)), WriteLe32(|bytes|);
    Parts(a, b, bytes, rest);
    Le32RoundTrip(Unsigned32(op), b + (bytes + rest));
    Le32RoundTrip(|bytes|, bytes + rest);
  }

  lemma Parts(a: seq<Byte>, b: seq<Byte>, bytes: seq<Byte>, rest: seq<Byte>)
    requires |a| == |b| == 4
    ensures var buf := a + b + bytes + rest;
            && buf == a + (b + (bytes + rest)) && buf[4..] == b + (bytes + rest)
            && buf[HEADER_LEN..HEADER_LEN + |bytes|] == bytes && buf[HEADER_LEN + |bytes|..] == rest
  {
  }

  /** A cut message asks for more, and is never taken for corrupt. */
  lemma PeelCut(op: int, bytes: seq<Byte>, n: nat)
    requires IsOpcode(op) && |bytes| <= MAX_PAYLOAD_LEN && n < |EncodeMessage(op, bytes)|
    ensures Peel(EncodeMessage(op, bytes)[..n]) == NotYet
  {
    if n >= HEADER_LEN {
      var a, b := WriteLe32(Unsigned32(op)), WriteLe32(|bytes|);
      var buf := EncodeMessage(op, bytes)[..n];
      assert buf == a + (b + bytes[..n - HEADER_LEN]) && buf[4..] == b + bytes[..n - HEADER_LEN];
      Le32RoundTrip(|bytes|, bytes[..n - HEADER_LEN]);
    }
  }

  lemma HeaderOf(buf: seq<Byte>) returns (op: int, bytes: seq<Byte>)
    requires |buf| >= HEADER_LEN && ReadLe32(buf[4..]) <= MAX_PAYLOAD_LEN
    ensures IsOpcode(op) && |bytes| <= MAX_PAYLOAD_LEN && buf[..HEADER_LEN] <= EncodeMessage(op, bytes)
  {
    hide WriteLe32, ReadLe32;
    Le32Written(buf);
    Le32Written(buf[4..]);
    op, bytes := Signed32(ReadLe32(buf)), seq(ReadLe32(buf[4..]), _ => 0);
    HeaderHalves(buf);
  }

  lemma HeaderHalves(buf: seq<Byte>)
    requires |buf| >= HEADER_LEN
    ensures buf[..HEADER_LEN] == buf[..4] + buf[4..][..4]
  {
  }

  lemma LengthOf(buf: seq<Byte>, op: int, bytes: seq<Byte>)
    requires |buf| >= HEADER_LEN && |bytes| <= MAX_PAYLOAD_LEN && buf[..HEADER_LEN] <= EncodeMessage(op, bytes)
    ensures ReadLe32(buf[4..]) == |bytes|
  {
    Le32RoundTrip(|bytes|, buf[HEADER_LEN..]);
    hide ReadLe32;
    var header := buf[..HEADER_LEN];
    assert forall k :: 4 <= k < HEADER_LEN ==> header[k] == WriteLe32(|bytes|)[k - 4];
    assert buf[4..] == WriteLe32(|bytes|) + buf[HEADER_LEN..];
  }

  /** A buffer is corrupt exactly when it has a whole header, and no message that may be sent starts with it. */
  lemma CorruptExactlyWhen(buf: seq<Byte>)
    ensures Peel(buf) == Corrupt <==>
            && |buf| >= HEADER_LEN
            && forall op, bytes ::
                 IsOpcode(op) && |bytes| <= MAX_PAYLOAD_LEN ==> !(buf[..HEADER_LEN] <= EncodeMessage(op, bytes))
  {
    hide EncodeMessage;
    if |buf| >= HEADER_LEN {
      if ReadLe32(buf[4..]) <= MAX_PAYLOAD_LEN {
        var op, bytes := HeaderOf(buf);
      } else {
        forall op, bytes | IsOpcode(op) && |bytes| <= MAX_PAYLOAD_LEN
          ensures !(buf[..HEADER_LEN] <= EncodeMessage(op, bytes))
        {
          if buf[..HEADER_LEN] <= EncodeMessage(op, bytes) { LengthOf(buf, op, bytes); }
        }
      }
    }
  }

  function SentBytes(msgs: seq<(int, seq<Byte>)>): seq<Byte> {
    if msgs == [] then [] else EncodeMessage(msgs[0].0, msgs[0].1) + SentBytes(msgs[1..])
  }

  /** Messages in a row are all peeled, in order, and leave what follows them. */
  lemma {:induction false} PeelAllSent(msgs: seq<(int, seq<Byte>)>, rest: seq<Byte>)
    requires forall k :: 0 <= k < |msgs| ==> IsOpcode(msgs[k].0) && |msgs[k].1| <= MAX_PAYLOAD_LEN
    requires Peel(rest) == NotYet
    ensures PeelAll(SentBytes(msgs) + rest) == PeeledAll(msgs, rest, false)
  {
    if msgs == [] {
      assert SentBytes(msgs) + rest == rest;
    } else {
      var later := SentBytes(msgs[1..]) + rest;
      assert SentBytes(msgs) + rest == EncodeMessage(msgs[0].0, msgs[0].1) + later;
      PeelSent(msgs[0].0, msgs[0].1, later);
      PeelAllSent(msgs[1..], rest);
      assert [msgs[0]] + msgs[1..] == msgs;
    }
  }

  datatype PeeledAll = PeeledAll(msgs: seq<(int, seq<Byte>)>, rest: seq<Byte>, corrupt: bool)

  /** Everything complete in a receive buffer, up to the first header that makes no sense. */
  function PeelAll(buf: seq<Byte>): PeeledAll
    decreases |buf|
  {
    match Peel(buf)
    case NotYet => PeeledAll([], buf, false)
    case Corrupt => PeeledAll([], [], true)
    case Message(op, bytes, rest) => var p := PeelAll(rest); p.(msgs := [(op, bytes)] + p.msgs)
  }

  class RpcClient {
    const delay: int
    const parseJson: seq<Byte> -> Option<InMsg>
    const socketWorks: bool                 // no connect and no write fails
    // transport
    var open: bool
    var rbuf: seq<Byte>
    // state machine
    var state: ConnectionState
    var subscribedChannel: Channel
    var stopped: bool
    var reconnectPending: bool
    var reconnectAt: int
    // the overlay state its events are applied to, and the clock
    var overlay: Host.Snapshot
    var clock: int
    ghost var running: bool                 // started, and not stopped since
    // the messages taken off the socket, and those that reached the state machine
    ghost var routed: seq<(int, seq<Byte>)>
    ghost var heard: seq<(int, InMsg)>
    ghost var trace: seq<SocketEvent>

    /** Attempts are a delay apart, a scheduled one included, which is due within a delay; connections come one at a time. */
    ghost predicate Paced()
      reads this`trace, this`clock, this`reconnectPending, this`reconnectAt, this`open
    {
      && Spaced(AttemptsOf(trace), delay)
      && (AttemptsOf(trace) != [] ==> Last(AttemptsOf(trace)) <= clock)
      && (reconnectPending && AttemptsOf(trace) != [] ==> reconnectAt >= Last(AttemptsOf(trace)) + delay)
      && (reconnectPending ==> reconnectAt <= clock + delay)
      && OneAtATime(trace) && Balance(trace) == (if open then 1 else 0)
    }

    /** Neither stuck nor spinning: from start to stop, closed means exactly that a reconnect is due. */
    ghost predicate Alive()
      reads this`trace, this`clock, this`reconnectPending, this`reconnectAt, this`open, this`running, this`stopped
    {
      && Paced()
      && (running ==> !stopped && (open <==> !reconnectPending))
      && (!running ==> !open && !reconnectPending)
    }

    /** While connected, the channel subscriptions Discord holds are the five of our channel. */
    ghost predicate Subscribed()
      reads this`open, this`trace, this`subscribedChannel
    {
      open ==> LiveSubs(trace) == FiveOf(subscribedChannel)
    }

    /** A channel we subscribe to is the one the overlay shows. */
    ghost predicate Shown()
      reads this`subscribedChannel, this`overlay
    {
      subscribedChannel != "" ==> overlay.inVoice && overlay.channelName == subscribedChannel
    }

    ghost predicate Valid()
      reads this
    {
      Alive() && Subscribed() && Shown()
    }

    ghost function Attempts(): seq<int>
      reads this`trace
    {
      AttemptsOf(trace)
    }

    constructor (delay: int, parseJson: seq<Byte> -> Option<InMsg>, socketWorks: bool)
      ensures Valid() && !running && trace == [] && this.delay == delay && this.socketWorks == socketWorks
    {
      this.delay, this.parseJson, this.socketWorks := delay, parseJson, socketWorks;
      open, rbuf, state, subscribedChannel := false, [], Disconnected, "";
      stopped, reconnectPending, reconnectAt := false, false, 0;
      overlay, clock := Host.INITIAL, 0;
      running, trace, routed, heard := false, [], [], [];
    }

    ghost method Log(e: SocketEvent)
      modifies this`trace
      ensures trace == old(trace) + [e]
      ensures LiveSubs(trace) == LiveAfter(LiveSubs(old(trace)), e)
      ensures AttemptsOf(trace) == AttemptsAfter(AttemptsOf(old(trace)), e)
      ensures Balance(trace) == BalanceAfter(Balance(old(trace)), e)
      ensures OneAtATime(trace) <==> OneAtATime(old(trace)) && 0 <= Balance(trace) <= 1
    {
      TraceSnoc(trace, e);
      trace := trace + [e];
    }

    /** A reading of a clock that never goes back. */
    method Now() returns (t: int)
      modifies this`clock
      ensures t == clock >= old(clock)
    {
      t :| t >= clock;
      clock := t;
    }

    method ScheduleReconnect()
      modifies this`clock, this`reconnectPending, this`reconnectAt
      ensures clock >= old(clock) && reconnectPending == (old(reconnectPending) || !stopped)
      ensures !stopped ==> reconnectAt == clock + delay
      ensures stopped ==> reconnectAt == old(reconnectAt)
    {
      if stopped { return; }
      var t := Now();
      reconnectPending := true;
      reconnectAt := t + delay;
    }

    /** The transport broke: close it, and tell the state machine once. */
    method HandleClosed()
      requires Alive()
      modifies this`open, this`rbuf, this`trace, this`subscribedChannel, this`state, this`clock,
               this`reconnectPending, this`reconnectAt
      ensures Alive() && !open
      ensures old(open) ==> subscribedChannel == "" && state == Disconnected && trace == old(trace) + [Dropped]
      ensures !old(open) ==> trace == old(trace) && subscribedChannel == old(subscribedChannel) && state == old(state)
      ensures |rbuf| <= |old(rbuf)| && (open ==> rbuf == old(rbuf))
      ensures Attempts() == old(Attempts())
    {
      hide LiveSubs, AttemptsOf, Balance, Spaced, OneAtATime;
      if !open { return; }
      open := false;
      rbuf := [];
      Log(Dropped);
      subscribedChannel := "";
      state := Disconnected;
      if !stopped { ScheduleReconnect(); }
    }

    /** Writes one message.  A failed write closes the connection, which the state machine hears of. */
    method Send(m: OutMsg) returns (ok: bool)
      requires Alive()
      modifies this`open, this`rbuf, this`trace, this`subscribedChannel, this`state, this`clock,
               this`reconnectPending, this`reconnectAt
      ensures Alive() && ok == open && (open ==> old(open)) && (socketWorks && old(open) ==> open)
      ensures ok ==> trace == old(trace) + [Sent(m)] && LiveSubs(trace) == LiveAfter(LiveSubs(old(trace)), Sent(m))
      ensures ok ==> rbuf == old(rbuf)
      ensures ok || !old(open) ==> state == old(state) && subscribedChannel == old(subscribedChannel)
      ensures !ok && old(open) ==> subscribedChannel == "" && state == Disconnected
      ensures !ok ==> trace == old(trace) + if old(open) then [Dropped] else []
      ensures |rbuf| <= |old(rbuf)| && (open ==> rbuf == old(rbuf))
      ensures Attempts() == old(Attempts())
    {
      hide LiveSubs, AttemptsOf, Balance, Spaced, OneAtATime;
      if !open { return false; }
      ok := *;
      if socketWorks { ok := true; }
      if ok {
        Log(Sent(m));
      } else {
        HandleClosed();
      }
    }

    /** One more message of some that are sent in turn. */
    method SendNext(m: OutMsg, ghost before: seq<SocketEvent>, ghost sent: seq<OutMsg>, ghost wasOpen: bool)
      requires Alive() && Sending(before, trace, sent, wasOpen, open)
      modifies this`open, this`rbuf, this`trace, this`subscribedChannel, this`state, this`clock,
               this`reconnectPending, this`reconnectAt
      ensures Alive() && Sending(before, trace, sent + [m], wasOpen, open) && (open ==> old(open))
      ensures socketWorks && old(open) ==> open
      ensures open ==> LiveSubs(trace) == LiveAfter(LiveSubs(old(trace)), Sent(m)) && rbuf == old(rbuf)
      ensures open || !old(open) ==> state == old(state) && subscribedChannel == old(subscribedChannel)
      ensures !open && old(open) ==> subscribedChannel == "" && state == Disconnected
      ensures !old(open) ==> trace == old(trace)
      ensures |rbuf| <= |old(rbuf)| && Attempts() == old(Attempts())
    {
      hide Alive, LiveSubs, LiveAfter, Sending, AttemptsOf;
      var ok := Send(m);
      SendingOneMore(before, old(trace), trace, sent, m, wasOpen, old(open), open);
    }

    /** Gives the connection up on our side and schedules the next attempt. */
    method Abandon()
      requires Alive() && running
      modifies this`open, this`rbuf, this`trace, this`state, this`clock, this`reconnectPending, this`reconnectAt
      ensures Alive() && !open && state == Disconnected
      ensures trace == old(trace) + if old(open) then [Closed] else []
      ensures |rbuf| <= |old(rbuf)| && (open ==> rbuf == old(rbuf))
      ensures Attempts() == old(Attempts())
    {
      hide LiveSubs, AttemptsOf, Balance, Spaced, OneAtATime;
      if open {
        open := false;
        rbuf := [];
        Log(Closed);
      }
      ScheduleReconnect();
      state := Disconnected;
    }

    /** One connection attempt, and the handshake if it succeeds. */
    method TryConnect()
      requires Paced() && running && !stopped
      requires AttemptsOf(trace) != [] ==> clock >= Last(AttemptsOf(trace)) + delay
      modifies this`open, this`rbuf, this`trace, this`subscribedChannel, this`state, this`clock,
               this`reconnectPending, this`reconnectAt
      ensures socketWorks ==> open
      ensures Alive() && subscribedChannel == "" && |Attempts()| == |old(Attempts())| + 1
      ensures open ==> state == Connecting && LiveSubs(trace) == if old(open) then LiveSubs(old(trace)) else {}
      ensures open ==> rbuf == if old(open) then old(rbuf) else []
      ensures open ==> trace == old(trace) + [Attempted(Last(Attempts()))] + (if old(open) then [] else [Connected]) + [Sent(Handshake)]
      ensures !open ==> || trace == old(trace) + [Attempted(Last(Attempts()))]
                        || trace == old(trace) + [Attempted(Last(Attempts()))] + (if old(open) then [] else [Connected]) + [Dropped]
    {
      hide LiveSubs, AttemptsOf, Balance, Spaced, OneAtATime;
      reconnectPending := false;
      subscribedChannel := "";
      Attempt();
      var connected := Connect();
      if !connected {
        ScheduleReconnect();
        return;
      }
      hide Paced;
      state := Connecting;
      var _ := Send(Handshake);
    }

    /** Takes the time of an attempt. */
    method Attempt()
      requires Paced() && !reconnectPending
      requires AttemptsOf(trace) != [] ==> clock >= Last(AttemptsOf(trace)) + delay
      modifies this`trace, this`clock
      ensures Paced() && LiveSubs(trace) == LiveSubs(old(trace)) && Attempts() == old(Attempts()) + [clock]
      ensures trace == old(trace) + [Attempted(clock)]
    {
      hide LiveSubs, AttemptsOf, Balance, Spaced, OneAtATime;
      var t := Now();
      SpacedSnoc(AttemptsOf(trace), t, delay);
      Log(Attempted(t));
    }

    /** The transport's connect: nothing to do when the socket is open. */
    method Connect() returns (ok: bool)
      requires Paced()
      modifies this`open, this`rbuf, this`trace
      ensures socketWorks ==> open
      ensures Paced() && ok == open && (old(open) ==> open) && Attempts() == old(Attempts())
      ensures open ==> LiveSubs(trace) == if old(open) then LiveSubs(old(trace)) else {}
      ensures trace == old(trace) + if open && !old(open) then [Connected] else []
      ensures open ==> rbuf == if old(open) then old(rbuf) else []
    {
      hide LiveSubs, AttemptsOf, Balance, Spaced, OneAtATime;
      if open { return true; }
      ok := *;
      if socketWorks { ok := true; }
      if ok {
        open := true;
        rbuf := [];
        Log(Connected);
      }
    }

    /** Begins connecting.  Restarting over a live connection forgets the channel but not Discord's
        subscriptions, which is right exactly when there are none to forget. */
    method Start()
      requires Valid()
      modifies this`open, this`rbuf, this`trace, this`subscribedChannel, this`state, this`clock,
               this`reconnectPending, this`reconnectAt, this`running, this`stopped
      ensures socketWorks ==> open
      ensures Alive() && Shown() && running && |Attempts()| == 1
      ensures open ==> state == Connecting && trace[|trace| - 1] == Sent(Handshake)
      ensures old(trace) + [Started, Attempted(Attempts()[0])] <= trace
      ensures open ==> subscribedChannel == "" && LiveSubs(trace) == if old(open) then LiveSubs(old(trace)) else {}
      ensures Subscribed() <==> !open || !old(open) || old(subscribedChannel) == ""
    {
      hide LiveSubs, AttemptsOf, Balance, OneAtATime;
      FiveNonempty(subscribedChannel);
      stopped, running := false, true;
      reconnectPending := false;
      Log(Started);
      TryConnect();
    }

    /** Disconnects for good; OnClosed does not fire. */
    method Stop()
      requires Valid()
      modifies this`open, this`rbuf, this`trace, this`subscribedChannel, this`state, this`reconnectPending,
               this`running, this`stopped
      ensures Valid() && !running && !open && state == Disconnected
      ensures trace == old(trace) + if old(open) then [Closed] else []
    {
      hide LiveSubs, AttemptsOf, Balance, Spaced, OneAtATime;
      stopped, running := true, false;
      reconnectPending := false;
      subscribedChannel := "";
      if open {
        open := false;
        rbuf := [];
        Log(Closed);
      }
      state := Disconnected;
    }

    /** The last thing that happened is that we closed the connection ourselves. */
    ghost predicate GaveUp()
      reads this`trace
    {
      trace != [] && trace[|trace| - 1] == Closed
    }

    /** Hands an event to the overlay state. */
    method OnEvent(ev: Host.Event)
      modifies this`overlay, this`clock
      ensures clock >= old(clock) && overlay == Host.Reduce(old(overlay), Host.Applied(ev, clock))
      ensures old(Alive()) ==> Alive()
      ensures if ev.ChannelSelect? then overlay.inVoice == (ev.channelId != "") && overlay.channelName == ev.channelId
              else overlay.inVoice == old(overlay).inVoice && overlay.channelName == old(overlay).channelName
    {
      var t := Now();
      overlay := Host.Reduce(overlay, Host.Applied(ev, t));
    }

    method SubscribeChannel(channel: Channel, ghost before: seq<SocketEvent>, ghost sent: seq<OutMsg>, ghost wasOpen: bool)
      requires Alive() && Sending(before, trace, sent, wasOpen, open)
      modifies this`open, this`rbuf, this`trace, this`subscribedChannel, this`state, this`clock,
               this`reconnectPending, this`reconnectAt
      ensures Alive() && (open ==> old(open) && LiveSubs(trace) == LiveSubs(old(trace)) + SomeOf(channel, |CHANNEL_EVENTS|))
      ensures Sending(before, trace, sent + Subscribes(channel), wasOpen, open)
      ensures open ==> subscribedChannel == old(subscribedChannel)
      ensures socketWorks && old(open) ==> open
      ensures |rbuf| <= |old(rbuf)| && (open ==> rbuf == old(rbuf))
      ensures Attempts() == old(Attempts())
    {
      hide LiveSubs, Alive, AttemptsOf, Sending;
      assert sent + Subscribes(channel)[..0] == sent;
      for i := 0 to |CHANNEL_EVENTS|
        invariant socketWorks && old(open) ==> open
        invariant Attempts() == old(Attempts()) && Sending(before, trace, sent + Subscribes(channel)[..i], wasOpen, open)
        invariant Alive() && (open ==> old(open) && LiveSubs(trace) == LiveSubs(old(trace)) + SomeOf(channel, i))
        invariant (open ==> subscribedChannel == old(subscribedChannel)) && |rbuf| <= |old(rbuf)| && (open ==> rbuf == old(rbuf))
      {
        ghost var done := sent + Subscribes(channel)[..i];
        assert done + [Subscribes(channel)[i]] == sent + Subscribes(channel)[..i + 1];
        SendNext(Subscribe(CHANNEL_EVENTS[i], channel), before, done, wasOpen);
        SomeMore(channel, i);
      }
      assert sent + Subscribes(channel)[..|CHANNEL_EVENTS|] == sent + Subscribes(channel);
    }

    method UnsubscribeChannel(channel: Channel, ghost before: seq<SocketEvent>, ghost sent: seq<OutMsg>, ghost wasOpen: bool)
      requires Alive() && Sending(before, trace, sent, wasOpen, open)
      modifies this`open, this`rbuf, this`trace, this`subscribedChannel, this`state, this`clock,
               this`reconnectPending, this`reconnectAt
      ensures Alive() && (open ==> old(open) && LiveSubs(trace) == LiveSubs(old(trace)) - SomeOf(channel, |CHANNEL_EVENTS|))
      ensures Sending(before, trace, sent + Unsubscribes(channel), wasOpen, open)
      ensures open ==> subscribedChannel == old(subscribedChannel)
      ensures socketWorks && old(open) ==> open
      ensures !open && old(open) ==> subscribedChannel == ""
      ensures !old(open) ==> subscribedChannel == old(subscribedChannel)
      ensures |rbuf| <= |old(rbuf)| && (open ==> rbuf == old(rbuf))
      ensures Attempts() == old(Attempts())
    {
      hide LiveSubs, Alive, AttemptsOf, Sending;
      assert sent + Unsubscribes(channel)[..0] == sent;
      for i := 0 to |CHANNEL_EVENTS|
        invariant socketWorks && old(open) ==> open
        invariant Attempts() == old(Attempts()) && Sending(before, trace, sent + Unsubscribes(channel)[..i], wasOpen, open)
        invariant Alive() && (open ==> old(open) && LiveSubs(trace) == LiveSubs(old(trace)) - SomeOf(channel, i))
        invariant (open ==> subscribedChannel == old(subscribedChannel) && rbuf == old(rbuf)) && |rbuf| <= |old(rbuf)|
        invariant !open && old(open) ==> subscribedChannel == ""
        invariant !old(open) ==> subscribedChannel == old(subscribedChannel)
      {
        ghost var done := sent + Unsubscribes(channel)[..i];
        assert done + [Unsubscribes(channel)[i]] == sent + Unsubscribes(channel)[..i + 1];
        SendNext(Unsubscribe(CHANNEL_EVENTS[i], channel), before, done, wasOpen);
        SomeMore(channel, i);
      }
      assert sent + Unsubscribes(channel)[..|CHANNEL_EVENTS|] == sent + Unsubscribes(channel);
    }

    /** Follows the user to `channelId`, which the overlay already shows; "" is no channel. */
    method HandleChannelSelect(channelId: Channel)
      requires Alive() && Subscribed()
      requires overlay.inVoice == (channelId != "") && overlay.channelName == channelId
      modifies this`open, this`rbuf, this`trace, this`subscribedChannel, this`state, this`clock,
               this`reconnectPending, this`reconnectAt
      ensures Valid() && subscribedChannel == channelId && (socketWorks && old(open) ==> open)
      ensures state == if channelId == "" then Ready else InChannel
      ensures old(open) && !open && running && channelId != "" ==> state == InChannel && reconnectPending
      ensures Sending(old(trace), trace, Moves(old(subscribedChannel), channelId), old(open), open)
      ensures |rbuf| <= |old(rbuf)| && (open ==> rbuf == old(rbuf))
      ensures Attempts() == old(Attempts())
    {
      hide LiveSubs, Alive, AttemptsOf, Sending, FiveOf, SomeOf, Moves, Subscribes, Unsubscribes;
      FiveIsSome(channelId);
      FiveIsSome(subscribedChannel);
      SendingNothing(trace, open);
      ghost var sent := if subscribedChannel != "" then Unsubscribes(subscribedChannel) else [];
      MovesAre(subscribedChannel, channelId, sent);
      if channelId == "" {
        if subscribedChannel != "" {
          UnsubscribeChannel(subscribedChannel, old(trace), [], old(open));
          subscribedChannel := "";
        }
        state := Ready;
        return;
      }
      if channelId == subscribedChannel {
        state := InChannel;
        return;
      }
      if subscribedChannel != "" { UnsubscribeChannel(subscribedChannel, old(trace), [], old(open)); }
      SubscribeChannel(channelId, old(trace), sent, old(open));
      subscribedChannel := channelId;
      state := InChannel;
      ClosedMeansPending();
    }

    lemma ClosedMeansPending()
      requires Alive()
      ensures running && !open ==> reconnectPending
    {
    }

    /** The code is exchanged for a token, and the token is what authenticates us. */
    method HandleAuthorizeResponse(code: string)
      requires Valid() && running
      modifies this`open, this`rbuf, this`trace, this`subscribedChannel, this`state, this`clock,
               this`reconnectPending, this`reconnectAt
      ensures socketWorks && old(open) ==> open || GaveUp()
      ensures Valid() && (state != old(state) ==> state == Disconnected && !open)
      ensures old(state) != Authorizing ==> trace == old(trace) && open == old(open) && state == old(state)
      ensures old(state) == Authorizing && code == "" ==>
                !open && state == Disconnected && trace == old(trace) + if old(open) then [Closed] else []
      ensures old(state) == Authorizing && code != "" && old(open) ==>
                || trace == old(trace) + [Exchanged(true)] + [if open then Sent(Authenticate) else Dropped]
                || (!open && trace == old(trace) + [Exchanged(false)] + [Closed])
      ensures open ==> subscribedChannel == old(subscribedChannel)
      ensures |rbuf| <= |old(rbuf)| && (open ==> rbuf == old(rbuf))
      ensures Attempts() == old(Attempts())
    {
      hide LiveSubs, Alive, AttemptsOf;
      if state != Authorizing { return; }
      if code == "" {
        Abandon();
        return;
      }
      var exchanged := Exchange();
      if !exchanged {
        Abandon();
        return;
      }
      var _ := Send(Authenticate);
    }

    /** The OAuth token exchange. */
    method Exchange() returns (ok: bool)
      requires Valid()
      modifies this`trace
      ensures Valid() && trace == old(trace) + [Exchanged(ok)] && LiveSubs(trace) == LiveSubs(old(trace))
      ensures Attempts() == old(Attempts())
    {
      hide LiveSubs, AttemptsOf, Balance, Spaced, OneAtATime;
      ok := *;
      Log(Exchanged(ok));
    }

    method HandleAuthenticateResponse(isError: bool)
      requires Valid() && running
      modifies this`open, this`rbuf, this`trace, this`subscribedChannel, this`state, this`clock,
               this`reconnectPending, this`reconnectAt
      ensures Valid() && (socketWorks && old(open) && !isError ==> open)
      ensures old(state) != Authorizing ==> trace == old(trace) && open == old(open) && state == old(state)
      ensures old(state) == Authorizing && isError ==>
                !open && state == Disconnected && trace == old(trace) + if old(open) then [Closed] else []
      ensures old(state) == Authorizing && !isError ==>
                Sending(old(trace), trace, [SubscribeChannelSelect, SubscribeNotifications, GetSelectedChannel], old(open), open)
      ensures old(state) == Authorizing && !isError && old(open) ==> state == if open then Ready else Disconnected
      ensures open ==> subscribedChannel == old(subscribedChannel)
      ensures |rbuf| <= |old(rbuf)| && (open ==> rbuf == old(rbuf))
      ensures Attempts() == old(Attempts())
    {
      hide LiveSubs, Alive, AttemptsOf, Sending;
      if state != Authorizing { return; }
      if isError {
        Abandon();
        return;
      }
      ghost var before, wasOpen := trace, open;
      SendingNothing(trace, open);
      assert [] + [SubscribeChannelSelect] == [SubscribeChannelSelect];
      assert [SubscribeChannelSelect] + [SubscribeNotifications] == [SubscribeChannelSelect, SubscribeNotifications];
      assert [SubscribeChannelSelect, SubscribeNotifications] + [GetSelectedChannel] ==
             [SubscribeChannelSelect, SubscribeNotifications, GetSelectedChannel];
      state := Ready;
      SendNext(SubscribeChannelSelect, before, [], wasOpen);
      SendNext(SubscribeNotifications, before, [SubscribeChannelSelect], wasOpen);
      SendNext(GetSelectedChannel, before, [SubscribeChannelSelect, SubscribeNotifications], wasOpen);
    }

    /** Already in a channel when we connected: the same path as a channel event, then the members. */
    method HandleSelectedVoiceChannel(channelId: Channel, states: seq<Host.VoiceState>)
      requires Valid() && running
      modifies this`open, this`rbuf, this`trace, this`subscribedChannel, this`state, this`clock,
               this`reconnectPending, this`reconnectAt, this`overlay
      ensures Valid() && (socketWorks && old(open) ==> open)
      ensures open && channelId != "" && old(state) in {Ready, InChannel} ==> subscribedChannel == channelId
      ensures overlay == if old(state) in {Ready, InChannel} && channelId != "" && channelId != old(subscribedChannel)
                         then Seeded(old(overlay), channelId, states) else old(overlay)
      ensures if old(state) in {Ready, InChannel} && channelId != "" && channelId != old(subscribedChannel)
              then
                && state == InChannel && subscribedChannel == channelId
                && Sending(old(trace), trace, Moves(old(subscribedChannel), channelId), old(open), open)
              else state == old(state) && trace == old(trace) && open == old(open) && subscribedChannel == old(subscribedChannel)
      ensures |rbuf| <= |old(rbuf)| && (open ==> rbuf == old(rbuf))
      ensures Attempts() == old(Attempts())
    {
      hide LiveSubs, Alive, AttemptsOf, Sending, Moves, FiveOf;
      if state != Ready && state != InChannel { return; }
      if channelId == "" || channelId == subscribedChannel { return; }
      OnEvent(Host.ChannelSelect(channelId));
      HandleChannelSelect(channelId);
      ghost var tr, op := trace, open;
      for i := 0 to |states|
        invariant Attempts() == old(Attempts()) && trace == tr && open == op && state == InChannel
        invariant Valid() && subscribedChannel == channelId && |rbuf| <= |old(rbuf)| && (open ==> rbuf == old(rbuf))
        invariant overlay == Seeded(old(overlay), channelId, states[..i])
      {
        assert states[..i + 1][..i] == states[..i];
        OnEvent(Host.VoiceCreate(states[i]));
      }
      assert states[..|states|] == states;
    }

    /** One parsed message; only FRAMEs carry anything. */
    method OnMessage(op: int, msg: InMsg)
      requires Valid() && running
      modifies this`open, this`rbuf, this`trace, this`subscribedChannel, this`state, this`clock,
               this`reconnectPending, this`reconnectAt, this`overlay, this`heard
      ensures Valid() && |rbuf| <= |old(rbuf)| && (open ==> rbuf == old(rbuf)) && heard == old(heard) + [(op, msg)]
      ensures op != OP_FRAME || msg.OtherMsg? ==>
                trace == old(trace) && overlay == old(overlay) && state == old(state) && open == old(open)
      // nothing else closes the connection
      ensures socketWorks && old(open) && !open ==>
                && op == OP_FRAME && old(state) == Authorizing && GaveUp()
                && (msg.AuthorizeReply? || (msg.AuthenticateReply? && msg.isError))
      // READY begins the handshake
      ensures op == OP_FRAME && msg.ReadyEvent? ==>
                Sending(old(trace), trace, [Authorize], old(open), open) && (open ==> state == Authorizing) && overlay == old(overlay)
      // a code is exchanged and used, or the connection given up
      ensures op == OP_FRAME && msg.AuthorizeReply? ==> overlay == old(overlay)
      ensures op == OP_FRAME && msg.AuthorizeReply? && old(state) != Authorizing ==> trace == old(trace) && state == old(state)
      ensures op == OP_FRAME && msg.AuthorizeReply? && old(state) == Authorizing && old(open) ==>
                if msg.code == "" then !open && state == Disconnected && trace == old(trace) + [Closed]
                else
                  || trace == old(trace) + [Exchanged(true)] + [if open then Sent(Authenticate) else Dropped]
                  || (!open && trace == old(trace) + [Exchanged(false)] + [Closed])
      // authenticated: the subscriptions, and the question which channel we are in
      ensures op == OP_FRAME && msg.AuthenticateReply? ==> overlay == old(overlay)
      ensures op == OP_FRAME && msg.AuthenticateReply? && old(state) != Authorizing ==> trace == old(trace) && state == old(state)
      ensures op == OP_FRAME && msg.AuthenticateReply? && old(state) == Authorizing && old(open) ==>
                if msg.isError then !open && state == Disconnected && trace == old(trace) + [Closed]
                else
                  && Sending(old(trace), trace, [SubscribeChannelSelect, SubscribeNotifications, GetSelectedChannel], true, open)
                  && state == if open then Ready else Disconnected
      // the channel we are in already, unless it is known
      ensures op == OP_FRAME && msg.SelectedReply? ==>
                if old(state) in {Ready, InChannel} && msg.channelId != "" && msg.channelId != old(subscribedChannel)
                then
                  && overlay == Seeded(old(overlay), msg.channelId, msg.states) && state == InChannel
                  && subscribedChannel == msg.channelId
                  && Sending(old(trace), trace, Moves(old(subscribedChannel), msg.channelId), old(open), open)
                else overlay == old(overlay) && trace == old(trace) && state == old(state) && subscribedChannel == old(subscribedChannel)
      // an event reaches the overlay, and a channel change the subscriptions
      ensures op == OP_FRAME && msg.DispatchEvent? && msg.ev.ChannelSelect? ==>
                && subscribedChannel == msg.ev.channelId && state == (if msg.ev.channelId == "" then Ready else InChannel)
                && Sending(old(trace), trace, Moves(old(subscribedChannel), msg.ev.channelId), old(open), open)
      ensures op == OP_FRAME && msg.DispatchEvent? && !msg.ev.ChannelSelect? ==> trace == old(trace) && state == old(state)
      ensures op == OP_FRAME && msg.DispatchEvent? ==>
                exists t :: t >= old(clock) && overlay == Host.Reduce(old(overlay), Host.Applied(msg.ev, t))
      ensures Attempts() == old(Attempts())
    {
      hide LiveSubs, Alive, AttemptsOf, Sending, Moves, FiveOf;
      heard := heard + [(op, msg)];
      if op != OP_FRAME { return; }
      match msg {
        case AuthorizeReply(code) => HandleAuthorizeResponse(code);
        case AuthenticateReply(isError) => HandleAuthenticateResponse(isError);
        case SelectedReply(channelId, states) => HandleSelectedVoiceChannel(channelId, states);
        case ReadyEvent =>
          state := Authorizing;
          SendingNothing(trace, open);
          assert [] + [Authorize] == [Authorize];
          SendNext(Authorize, old(trace), [], old(open));
        case DispatchEvent(ev) =>
          OnEvent(ev);
          assert overlay == Host.Reduce(old(overlay), Host.Applied(ev, clock));
          if ev.ChannelSelect? { HandleChannelSelect(ev.channelId); }
        case OtherMsg =>
      }
    }

    /** Reads what is available into the receive buffer; `input` is what the reads return, a dry
        socket after it. */
    method Fill(input: seq<ReadResult>) returns (ghost k: nat)
      requires Alive() && open && forall i :: 0 <= i < |input| ==> Readable(input[i])
      modifies this`open, this`rbuf, this`trace, this`subscribedChannel, this`state, this`clock,
               this`reconnectPending, this`reconnectAt
      ensures Alive() && (!open ==> subscribedChannel == "") && Drained(input, k, open)
      ensures open ==> trace == old(trace) && subscribedChannel == old(subscribedChannel) && state == old(state)
      ensures open ==> rbuf == old(rbuf) + Flatten(DataOf(input[..k])) && (k > 0 ==> |rbuf| <= MAX_RECV_BUFFER)
      ensures !open ==> trace == old(trace) + [Dropped]
      ensures !open && (k == |input| || !Ends(input[k])) ==> |old(rbuf)| + |Flatten(DataOf(input[..k]))| > MAX_RECV_BUFFER
      ensures Attempts() == old(Attempts())
    {
      BytesAre(input);
      hide Alive, Readable, AttemptsOf, BytesOf, Flatten, DataOf, LiveSubs;
      k := 0;
      NoBytesYet(rbuf, input);
      for i := 0 to |input|
        invariant Attempts() == old(Attempts()) && k == i
        invariant Alive() && open && trace == old(trace) && subscribedChannel == old(subscribedChannel) && state == old(state)
        invariant forall n :: 0 <= n < i ==> input[n].Data? && |input[n].bytes| >= READ_SIZE
        invariant rbuf == old(rbuf) + BytesOf(input, i) && (i > 0 ==> |rbuf| <= MAX_RECV_BUFFER)
      {
        match input[i] {
          case Data(bytes) =>
            DataSnoc(old(rbuf), input, i);
            rbuf := rbuf + bytes;
            k := i + 1;
            if |rbuf| > MAX_RECV_BUFFER {
              HandleClosed();
              return;
            }
            if |bytes| < READ_SIZE { return; }
          case WouldBlock => return;
          case Eof =>
            HandleClosed();
            return;
          case HardError =>
            HandleClosed();
            return;
        }
      }
    }

    /** The first `k` reads are data, and full but for the last; reading ended there because that one was short, or the
        next is no data.  It goes on past `k` only if the connection does not survive. */
    ghost predicate Drained(input: seq<ReadResult>, k: nat, alive: bool) {
      && k <= |input| && (forall i :: 0 <= i < k ==> input[i].Data?)
      && (forall i :: 0 <= i < k - 1 ==> |input[i].bytes| >= READ_SIZE)
      && (alive ==> k == |input| || input[k].WouldBlock? || (k > 0 && |input[k - 1].bytes| < READ_SIZE))
    }

    /** Dispatches every complete message while the connection lasts; `handled` are those taken off the
        buffer, in order.  While it stays open that is everything in it. */
    method Dispatch() returns (ghost handled: seq<(int, seq<Byte>)>)
      requires Valid() && running
      modifies this`open, this`rbuf, this`trace, this`subscribedChannel, this`state, this`clock,
               this`reconnectPending, this`reconnectAt, this`overlay, this`heard, this`routed
      ensures Valid() && handled <= PeelAll(old(rbuf)).msgs && routed == old(routed) + handled
      ensures open ==> handled == PeelAll(old(rbuf)).msgs && rbuf == PeelAll(old(rbuf)).rest && !PeelAll(old(rbuf)).corrupt
      ensures socketWorks && old(open) && !open ==>
                (handled == PeelAll(old(rbuf)).msgs && PeelAll(old(rbuf)).corrupt) || (handled != [] && GaveUp())
      ensures Attempts() == old(Attempts())
    {
      hide Alive, LiveSubs, Peel, AttemptsOf;
      handled := [];
      ghost var all := PeelAll(rbuf);
      while open
        invariant Valid() && running && handled <= all.msgs && Attempts() == old(Attempts()) && routed == old(routed) + handled
        invariant socketWorks && old(open) && !open ==> (handled == all.msgs && all.corrupt) || (handled != [] && GaveUp())
        invariant open ==> all == PeelAll(rbuf).(msgs := handled + PeelAll(rbuf).msgs)
        decreases open, |rbuf|
      {
        match Peel(rbuf) {
          case NotYet =>
            assert handled + [] == handled;
            return;
          case Corrupt => HandleClosed();
          case Message(op, bytes, rest) =>
            PeelNext(rbuf, handled, op, bytes, rest);
            handled := handled + [(op, bytes)];
            rbuf := rest;
            Route(op, bytes);
        }
      }
    }

    lemma PeelNext(buf: seq<Byte>, handled: seq<(int, seq<Byte>)>, op: int, bytes: seq<Byte>, rest: seq<Byte>)
      requires Peel(buf) == Message(op, bytes, rest)
      ensures PeelAll(buf).(msgs := handled + PeelAll(buf).msgs)
           == PeelAll(rest).(msgs := handled + [(op, bytes)] + PeelAll(rest).msgs)
    {
      assert handled + ([(op, bytes)] + PeelAll(rest).msgs) == handled + [(op, bytes)] + PeelAll(rest).msgs;
    }

    /** A PING is answered with its own bytes; anything else that parses goes to the state machine. */
    method Route(op: int, bytes: seq<Byte>)
      requires Valid() && running && open
      modifies this`open, this`rbuf, this`trace, this`subscribedChannel, this`state, this`clock,
               this`reconnectPending, this`reconnectAt, this`overlay, this`heard, this`routed
      ensures Valid() && (open ==> rbuf == old(rbuf)) && routed == old(routed) + [(op, bytes)]
      ensures op == OP_PING ==> overlay == old(overlay) && heard == old(heard)
      ensures op == OP_PING ==> trace == old(trace) + [if open then Sent(Pong(bytes)) else Dropped]
      ensures op == OP_PING && open ==> state == old(state)
      ensures op != OP_PING ==> heard == old(heard) + if parseJson(bytes).Some? then [(op, parseJson(bytes).value)] else []
      ensures socketWorks && !open ==> op == OP_FRAME && GaveUp()
      ensures Attempts() == old(Attempts())
    {
      hide Alive, AttemptsOf;
      routed := routed + [(op, bytes)];
      if op == OP_PING {
        var _ := Send(Pong(bytes));
        return;
      }
      var parsed := parseJson(bytes);
      if parsed.Some? { OnMessage(op, parsed.value); }
    }

    /** The periodic pump: a due reconnect first, then what the socket has. */
    method Poll(input: seq<ReadResult>) returns (ghost k: nat)
      requires Valid() && forall i :: 0 <= i < |input| ==> Readable(input[i])
      modifies this
      ensures Valid() && running == old(running)
      ensures !running ==> trace == old(trace)
      ensures old(reconnectPending) && old(clock) >= old(reconnectAt) ==> |Attempts()| == |old(Attempts())| + 1
      ensures !old(reconnectPending) ==> Attempts() == old(Attempts())
      ensures Drained(input, k, open)
      ensures open ==> var all := PeelAll((if old(open) then old(rbuf) else []) + Flatten(DataOf(input[..k])));
                       rbuf == all.rest && routed == old(routed) + all.msgs && !all.corrupt
      ensures socketWorks && old(open || (reconnectPending && clock >= reconnectAt)) && !open ==>
                var buf := (if old(open) then old(rbuf) else []) + Flatten(DataOf(input[..k]));
                (k < |input| && Ends(input[k])) || |buf| > MAX_RECV_BUFFER || PeelAll(buf).corrupt || GaveUp()
    {
      hide LiveSubs, Readable, AttemptsOf, Flatten, DataOf;
      k := 0;
      if reconnectPending && !stopped {
        var t := Now();
        if t >= reconnectAt { TryConnect(); }
      }
      if !open { return; }
      k := Fill(input);
      if !open { return; }
      ghost var handled := Dispatch();
    }
  }

  /** Any session: started, polled and stopped in any order and at any time, with the socket doing
      anything; the one rule is not to start over a live connection. */
  method AnySession(delay: int, parseJson: seq<Byte> -> Option<InMsg>, socketWorks: bool) returns (client: RpcClient)
    ensures fresh(client) && client.Valid()
    ensures client.Attempts() != [] ==>
              (|client.Attempts()| - 1) * delay <= Last(client.Attempts()) - client.Attempts()[0]
  {
    client := new RpcClient(delay, parseJson, socketWorks);
    var steps :| 0 <= steps;
    for i := 0 to steps
      invariant fresh(client) && client.Valid() && client.delay == delay
    {
      if {
        case !client.open => client.Start();
        case true => client.Stop();
        case true =>
          var input: seq<ReadResult> := *;
          if forall k :: 0 <= k < |input| ==> Readable(input[k]) { ghost var k := client.Poll(input); }
      }
    }
    if client.Attempts() != [] { FewAttempts(client.Attempts(), delay); }
  }

  /** Starting again without stopping first.  If nothing fails the socket is still open, and Discord holds
      five subscriptions that the client has forgotten. */
  method RestartOverLive(delay: int, parseJson: seq<Byte> -> Option<InMsg>, socketWorks: bool, channel: Channel)
    returns (client: RpcClient)
    requires channel != ""
    ensures socketWorks ==> client.open
    ensures fresh(client) && client.Alive() && client.Shown() && client.running
    ensures client.open ==> !client.Subscribed() && client.subscribedChannel == "" && LiveSubs(client.trace) == FiveOf(channel)
    ensures !client.open ==> Connected !in client.trace || Dropped in client.trace || Closed in client.trace
  {
    client := new RpcClient(delay, parseJson, socketWorks);
    client.Start();
    assert client.open ==> client.subscribedChannel == "";
    hide LiveSubs, AttemptsOf, Balance, OneAtATime;
    if client.open {
      client.OnMessage(OP_FRAME, DispatchEvent(Host.ChannelSelect(channel)));
      if client.open {
        assert LiveSubs(client.trace) == FiveOf(channel);
        client.Start();
        FiveNonempty(channel);
      }
    }
    NotOpen(client.trace);
  }

  lemma {:induction false} NotOpen(tr: seq<SocketEvent>)
    ensures Connected in tr && Dropped !in tr && Closed !in tr ==> Balance(tr) > 0
    ensures Dropped !in tr && Closed !in tr ==> Balance(tr) >= 0
  {
    if tr != [] {
      var init, e := tr[..|tr| - 1], tr[|tr| - 1];
      NotOpen(init);
      assert tr == init + [e];
    }
  }

  lemma FiveNonempty(channel: Channel)
    ensures FiveOf(channel) == {} <==> channel == ""
  {
    if channel != "" { assert (VoiceStateCreate, channel) in FiveOf(channel); }
  }

  lemma FiveIsSome(channel: Channel)
    ensures FiveOf(channel) == if channel == "" then {} else SomeOf(channel, |CHANNEL_EVENTS|)
  {
    if channel != "" {
      forall e | e in SomeOf(channel, |CHANNEL_EVENTS|) ensures e in FiveOf(channel) {}
      assert SomeOf(channel, |CHANNEL_EVENTS|) == {(CHANNEL_EVENTS[0], channel), (CHANNEL_EVENTS[1], channel),
        (CHANNEL_EVENTS[2], channel), (CHANNEL_EVENTS[3], channel), (CHANNEL_EVENTS[4], channel)};
    }
  }

  lemma SomeMore(channel: Channel, n: nat)
    requires n < |CHANNEL_EVENTS|
    ensures SomeOf(channel, n + 1) == SomeOf(channel, n) + {(CHANNEL_EVENTS[n], channel)}
  {
  }

  /** The data of the first `k` reads. */
  function BytesOf(input: seq<ReadResult>, k: nat): seq<Byte>
    requires k <= |input|
  {
    Flatten(DataOf(input[..k]))
  }

  lemma BytesAre(input: seq<ReadResult>)
    ensures forall k :: 0 <= k <= |input| ==> BytesOf(input, k) == Flatten(DataOf(input[..k]))
  {
  }

  lemma NoBytesYet(buf: seq<Byte>, input: seq<ReadResult>)
    ensures buf + BytesOf(input, 0) == buf
  {
  }

  lemma DataSnoc(buf: seq<Byte>, input: seq<ReadResult>, i: nat)
    requires i < |input| && input[i].Data?
    ensures buf + BytesOf(input, i) + input[i].bytes == buf + BytesOf(input, i + 1)
    ensures |buf + BytesOf(input, i + 1)| == |buf| + |BytesOf(input, i + 1)|
  {
    assert input[..i + 1][..i] == input[..i];
    var d := DataOf(input[..i]) + [input[i].bytes];
    assert d[..|d| - 1] == DataOf(input[..i]);
  }

  /** OnClosed fires at most once for each connection: between two drops a connection was made. */
  lemma OneDropPerConnection(tr: seq<SocketEvent>, i: nat, j: nat)
    requires OneAtATime(tr) && i < j < |tr| && tr[i] == Dropped && tr[j] == Dropped
    ensures exists k :: i < k < j && tr[k] == Connected
  {
    if forall k :: i < k < j ==> tr[k] != Connected {
      assert tr[..j + 1][..j] == tr[..j];
      BalanceAt(tr, j);
      BalanceStaysDown(tr, i, j);
      assert false;
    }
  }

  lemma {:induction false} BalanceAt(tr: seq<SocketEvent>, n: nat)
    requires OneAtATime(tr) && n < |tr|
    ensures 0 <= Balance(tr[..n + 1]) <= 1 && 0 <= Balance(tr[..n]) <= 1
    decreases |tr|
  {
    var init := tr[..|tr| - 1];
    if n == |tr| - 1 {
      assert tr[..n + 1] == tr;
      if init != [] { assert init[..|init| - 1] == tr[..|init| - 1]; }
    } else {
      BalanceAt(init, n);
      assert init[..n + 1] == tr[..n + 1] && init[..n] == tr[..n];
    }
  }

  lemma {:induction false} BalanceStaysDown(tr: seq<SocketEvent>, i: nat, j: nat)
    requires OneAtATime(tr) && i < j <= |tr| && tr[i] == Dropped && forall k :: i < k < j ==> tr[k] != Connected
    ensures Balance(tr[..j]) <= 0
    decreases j
  {
    assert tr[..j][..j - 1] == tr[..j - 1];
    if j == i + 1 {
      BalanceAt(tr, i);
    } else {
      BalanceStaysDown(tr, i, j - 1);
    }
  }
}
