/** The reducer that folds Discord events into the snapshot served to the overlay, and what that
    snapshot says about the log of events, stated over the log itself. */
module OverlayState {
  import opened Common

  type UserId = string

  datatype Participant = Participant(
    userId: UserId, displayName: string, avatarHash: string, speaking: bool,
    mute: bool, deaf: bool, selfMute: bool, selfDeaf: bool)

  datatype VoiceState = VoiceState(
    userId: UserId, nick: string, avatarHash: string, mute: bool, deaf: bool, selfMute: bool, selfDeaf: bool)

  datatype Notification = Notification(id: string, title: string, body: string, iconHash: string, createdMs: int)

  datatype AppearanceConfig = AppearanceConfig(
    anchor: int, scale: real, hdrNits: real, showAllMembers: bool, toastAnchor: int, toastDurationMs: int)

  datatype Snapshot = Snapshot(
    inVoice: bool, channelName: string, participants: seq<Participant>, notifications: seq<Notification>,
    config: AppearanceConfig, revision: nat)

  datatype Event =
    | ChannelSelect(channelId: string)
    | VoiceCreate(voice: VoiceState)
    | VoiceUpdate(voice: VoiceState)
    | VoiceDelete(userId: UserId)
    | SpeakingStart(userId: UserId)
    | SpeakingStop(userId: UserId)
    | Notify(notif: Notification)

  /** One call of the reducer, with the clock reading a notification is stamped with. */
  datatype Entry = Applied(ev: Event, now: int) | Configured(cfg: AppearanceConfig)

  const MAX_NOTIFICATIONS: nat := 20
  const DEFAULT_CONFIG := AppearanceConfig(4, 1.0, 200.0, true, 1, 5000)
  const INITIAL := Snapshot(false, "", [], [], DEFAULT_CONFIG, 0)

  // ---- what one call does ---------------------------------------------------------------

  function Find(ps: seq<Participant>, u: UserId): (i: Option<nat>)
    ensures i.Some? ==> i.value < |ps| && ps[i.value].userId == u
    ensures i == None ==> forall k :: 0 <= k < |ps| ==> ps[k].userId != u
  {
    if ps == [] then None
    else if ps[|ps| - 1].userId == u then Some(|ps| - 1)
    else Find(ps[..|ps| - 1], u)
  }

  /** Everything but `speaking`, which voice states do not carry. */
  function WithVoice(p: Participant, v: VoiceState): Participant {
    p.(displayName := v.nick, avatarHash := v.avatarHash, mute := v.mute, deaf := v.deaf,
       selfMute := v.selfMute, selfDeaf := v.selfDeaf)
  }

  function Joining(u: UserId): Participant {
    Participant(u, "", "", false, false, false, false, false)
  }

  function Upsert(ps: seq<Participant>, v: VoiceState): seq<Participant> {
    match Find(ps, v.userId)
    case None => ps + [WithVoice(Joining(v.userId), v)]
    case Some(i) => ps[i := WithVoice(ps[i], v)]
  }

  function Pushed(ns: seq<Notification>, n: Notification): seq<Notification> {
    var all := [n] + ns;
    if |all| > MAX_NOTIFICATIONS then all[..MAX_NOTIFICATIONS] else all
  }

  function Commit(s: Snapshot): Snapshot {
    s.(revision := s.revision + 1)
  }

  function Reduce(s: Snapshot, e: Entry): Snapshot {
    match e
    case Configured(cfg) => Commit(s.(config := cfg))
    case Applied(ChannelSelect(id), _) => Commit(s.(inVoice := id != "", channelName := id, participants := []))
    case Applied(VoiceCreate(v), _) => Commit(s.(participants := Upsert(s.participants, v)))
    case Applied(VoiceUpdate(v), _) => Commit(s.(participants := Upsert(s.participants, v)))
    case Applied(VoiceDelete(u), _) => Removed(s, u)
    case Applied(SpeakingStart(u), _) => SetSpeaking(s, u, true)
    case Applied(SpeakingStop(u), _) => SetSpeaking(s, u, false)
    case Applied(Notify(n), now) => Commit(s.(notifications := Pushed(s.notifications, n.(createdMs := now))))
  }

  function Removed(s: Snapshot, u: UserId): Snapshot {
    match Find(s.participants, u)
    case None => s
    case Some(i) => Commit(s.(participants := s.participants[..i] + s.participants[i + 1..]))
  }

  function SetSpeaking(s: Snapshot, u: UserId, on: bool): Snapshot {
    match Find(s.participants, u)
    case None => s
    case Some(i) => Commit(s.(participants := s.participants[i := s.participants[i].(speaking := on)]))
  }

  function Replay(log: seq<Entry>): Snapshot {
    if log == [] then INITIAL else Reduce(Replay(log[..|log| - 1]), log[|log| - 1])
  }

  lemma ReplaySnoc(log: seq<Entry>, e: Entry)
    ensures Replay(log + [e]) == Reduce(Replay(log), e)
  {
    assert (log + [e])[..|log|] == log;
  }

  class OverlayState {
    var snap: Snapshot
    var index: map<UserId, nat>
    ghost var log: seq<Entry>

    /** The index is the exact inverse of the roster, and the snapshot is the log's. */
    ghost predicate Valid()
      reads this
    {
      IndexOf(index, snap.participants) && snap == Replay(log)
    }

    constructor ()
      ensures Valid() && log == [] && snap == INITIAL
    {
      snap, index, log := INITIAL, map[], [];
    }

    /** Replaces the snapshot's state and reports the change. */
    method CommitWith(s: Snapshot) returns (changed: bool)
      modifies this`snap
      ensures snap == Commit(s) && changed
    {
      snap := s.(revision := s.revision + 1);
      changed := true;
    }

    /** Folds one event in.  `changed` says whether `on_change` fires. */
    method Apply(ev: Event, now: int) returns (changed: bool)
      requires Valid()
      modifies this
      ensures Valid() && log == old(log) + [Applied(ev, now)]
      ensures snap == Reduce(old(snap), Applied(ev, now))
      ensures changed == (snap.revision != old(snap).revision) && (!changed ==> snap == old(snap))
    {
      hide IndexOf, Replay, Upsert, Pushed, SetSpeaking, Find, Removed;
      assert IndexOf(map[], []) by { EmptyIndex(); }
      match ev {
        case ChannelSelect(channelId) =>
          index := map[];
          changed := CommitWith(snap.(inVoice := channelId != "", channelName := channelId, participants := []));
        case VoiceCreate(v) => changed := ApplyVoice(v);
        case VoiceUpdate(v) => changed := ApplyVoice(v);
        case VoiceDelete(u) => changed := ApplyDelete(u);
        case SpeakingStart(u) => changed := ApplySpeaking(u, true);
        case SpeakingStop(u) => changed := ApplySpeaking(u, false);
        case Notify(notif) => changed := ApplyNotification(notif.(createdMs := now));
      }
      ReplaySnoc(log, Applied(ev, now));
      log := log + [Applied(ev, now)];
    }

    method ApplyVoice(v: VoiceState) returns (changed: bool)
      requires IndexOf(index, snap.participants)
      modifies this`snap, this`index
      ensures IndexOf(index, snap.participants) && changed
      ensures snap == Commit(old(snap).(participants := Upsert(old(snap).participants, v)))
    {
      var roster := snap.participants;
      UpsertByIndex(index, roster, v);
      hide IndexOf, Upsert, WithVoice, Joining;
      if v.userId !in index {
        IndexAppended(index, roster, WithVoice(Joining(v.userId), v));
        index := index[v.userId := |roster|];
        roster := roster + [WithVoice(Joining(v.userId), v)];
      } else {
        var i := index[v.userId];
        IndexUpdated(index, roster, i, WithVoice(roster[i], v));
        roster := roster[i := WithVoice(roster[i], v)];
      }
      changed := CommitWith(snap.(participants := roster));
    }

    method ApplyDelete(u: UserId) returns (changed: bool)
      requires IndexOf(index, snap.participants)
      modifies this`snap, this`index
      ensures IndexOf(index, snap.participants) && snap == Removed(old(snap), u)
      ensures changed == (snap.revision != old(snap).revision) && (!changed ==> snap == old(snap))
    {
      var ps := snap.participants;
      FindIs(index, ps, u);
      OneFewer(index, ps, u);
      assert Removed(snap, u) == if u in index then Commit(snap.(participants := ps[..index[u]] + ps[index[u] + 1..])) else snap;
      hide IndexOf, UniqueIds, Removed, Find;
      changed := false;
      if u in index {
        var i := index[u];
        var roster := snap.participants[..i] + snap.participants[i + 1..];
        RebuildIndex(roster);
        changed := CommitWith(snap.(participants := roster));
      }
    }

    method ApplyNotification(n: Notification) returns (changed: bool)
      modifies this`snap
      ensures snap == Commit(old(snap).(notifications := Pushed(old(snap).notifications, n))) && changed
    {
      var ns := [n] + snap.notifications;
      if |ns| > MAX_NOTIFICATIONS { ns := ns[..MAX_NOTIFICATIONS]; }
      changed := CommitWith(snap.(notifications := ns));
    }

    method ApplySpeaking(u: UserId, on: bool) returns (changed: bool)
      requires IndexOf(index, snap.participants)
      modifies this`snap
      ensures IndexOf(index, snap.participants) && snap == SetSpeaking(old(snap), u, on)
      ensures changed == (snap.revision != old(snap).revision) && (!changed ==> snap == old(snap))
    {
      FindIs(index, snap.participants, u);
      changed := false;
      if u in index {
        var i := index[u];
        changed := CommitWith(snap.(participants := snap.participants[i := snap.participants[i].(speaking := on)]));
      }
    }

    /** After an erase the whole index is built again. */
    method RebuildIndex(roster: seq<Participant>)
      requires UniqueIds(roster)
      modifies this`index
      ensures IndexOf(index, roster)
    {
      index := map[];
      for i := 0 to |roster|
        invariant IndexOf(index, roster[..i])
      {
        assert roster[..i + 1] == roster[..i] + [roster[i]];
        index := index[roster[i].userId := i];
      }
      assert roster[..|roster|] == roster;
    }

    method SetConfig(cfg: AppearanceConfig) returns (changed: bool)
      requires Valid()
      modifies this
      ensures Valid() && log == old(log) + [Configured(cfg)] && changed
      ensures snap == old(snap).(config := cfg, revision := old(snap).revision + 1)
    {
      changed := CommitWith(snap.(config := cfg));
      ReplaySnoc(log, Configured(cfg));
      log := log + [Configured(cfg)];
    }
  }

  predicate UniqueIds(ps: seq<Participant>) {
    forall j, k :: 0 <= j < k < |ps| ==> ps[j].userId != ps[k].userId
  }

  predicate IndexOf(index: map<UserId, nat>, ps: seq<Participant>) {
    && (forall u :: u in index ==> index[u] < |ps| && ps[index[u]].userId == u)
    && (forall i :: 0 <= i < |ps| ==> ps[i].userId in index && index[ps[i].userId] == i)
  }

  lemma UpsertByIndex(index: map<UserId, nat>, ps: seq<Participant>, v: VoiceState)
    requires IndexOf(index, ps)
    ensures v.userId in index ==>
              index[v.userId] < |ps| && ps[index[v.userId]].userId == v.userId
              && Upsert(ps, v) == ps[index[v.userId] := WithVoice(ps[index[v.userId]], v)]
    ensures v.userId !in index ==> Upsert(ps, v) == ps + [WithVoice(Joining(v.userId), v)]
    ensures WithVoice(Joining(v.userId), v).userId == v.userId
    ensures forall p: Participant :: WithVoice(p, v).userId == p.userId
  {
    FindIs(index, ps, v.userId);
  }

  lemma OneFewer(index: map<UserId, nat>, ps: seq<Participant>, u: UserId)
    requires IndexOf(index, ps)
    ensures u in index ==> index[u] < |ps| && UniqueIds(ps[..index[u]] + ps[index[u] + 1..])
  {
  }

  lemma FindIs(index: map<UserId, nat>, ps: seq<Participant>, u: UserId)
    requires IndexOf(index, ps)
    ensures Find(ps, u) == if u in index then Some(index[u]) else None
    ensures UniqueIds(ps)
  {
  }

  lemma EmptyIndex()
    ensures IndexOf(map[], [])
  {
  }

  lemma IndexAppended(index: map<UserId, nat>, ps: seq<Participant>, p: Participant)
    requires IndexOf(index, ps) && p.userId !in index
    ensures IndexOf(index[p.userId := |ps|], ps + [p])
  {
  }

  lemma IndexUpdated(index: map<UserId, nat>, ps: seq<Participant>, i: nat, p: Participant)
    requires IndexOf(index, ps) && i < |ps| && p.userId == ps[i].userId
    ensures IndexOf(index, ps[i := p])
  {
  }

  // ---- the same, read off the log -----------------------------------------------------------

  predicate IsVoice(e: Entry, u: UserId) {
    e.Applied? && (e.ev.VoiceCreate? || e.ev.VoiceUpdate?) && e.ev.voice.userId == u
  }

  /** Ends the presence of `u`: its own delete, or any channel change. */
  predicate Removes(e: Entry, u: UserId) {
    e.Applied? && (e.ev.ChannelSelect? || e.ev == VoiceDelete(u))
  }

  predicate IsSpeaking(e: Entry, u: UserId) {
    e.Applied? && (e.ev == SpeakingStart(u) || e.ev == SpeakingStop(u))
  }

  /** Entry `m` is about `u` being there, and nothing after it removed `u`. */
  ghost predicate StillThere(log: seq<Entry>, u: UserId, m: int) {
    0 <= m < |log| && IsVoice(log[m], u) && forall r :: m < r < |log| ==> !Removes(log[r], u)
  }

  /** `u` is in the channel, since entry `j`: its first voice event after its last removal. */
  ghost predicate JoinedAt(log: seq<Entry>, u: UserId, j: int) {
    StillThere(log, u, j) && forall m :: StillThere(log, u, m) ==> j <= m
  }

  /** Entry `k` is the last of `u`'s speaking events since `j`, and it is a start. */
  ghost predicate StartedAt(log: seq<Entry>, u: UserId, j: int, k: int) {
    0 <= j < k < |log| && log[k].Applied? && log[k].ev == SpeakingStart(u)
    && forall m :: k < m < |log| ==> !IsSpeaking(log[m], u)
  }

  ghost predicate LastVoice(log: seq<Entry>, u: UserId, k: int) {
    0 <= k < |log| && IsVoice(log[k], u) && forall m :: k < m < |log| ==> !IsVoice(log[m], u)
  }

  /** The participant has the name, the avatar and the four flags of the voice state. */
  predicate Carries(p: Participant, v: VoiceState) {
    && p.userId == v.userId && p.displayName == v.nick && p.avatarHash == v.avatarHash
    && p.mute == v.mute && p.deaf == v.deaf && p.selfMute == v.selfMute && p.selfDeaf == v.selfDeaf
  }

  /** A roster entry says what the log says: when its user joined, that it speaks exactly when its last
      speaking event since then was a start, and the rest from its last voice event. */
  ghost predicate Describes(log: seq<Entry>, p: Participant, j: int) {
    && JoinedAt(log, p.userId, j)
    && (p.speaking <==> exists k :: StartedAt(log, p.userId, j, k))
    && exists k :: LastVoice(log, p.userId, k) && Carries(p, log[k].ev.voice)
  }

  /** The roster is exactly the present users, in the order they joined. */
  ghost predicate RosterOf(log: seq<Entry>, ps: seq<Participant>, joins: seq<int>) {
    && |joins| == |ps|
    && (forall i :: 0 <= i < |ps| ==> Describes(log, ps[i], joins[i]))
    && (forall i, k :: 0 <= i < k < |ps| ==> joins[i] < joins[k])
    && Covers(log, ps)
  }

  /** Everybody who is in the channel is in the roster. */
  ghost predicate Covers(log: seq<Entry>, ps: seq<Participant>) {
    forall u, j :: JoinedAt(log, u, j) ==> IsListed(ps, u)
  }

  predicate IsListed(ps: seq<Participant>, u: UserId) {
    exists i :: 0 <= i < |ps| && ps[i].userId == u
  }

  lemma StillThereSnoc(log: seq<Entry>, e: Entry, u: UserId, m: int)
    ensures StillThere(log + [e], u, m) <==>
            !(m < |log| && Removes(e, u)) && (StillThere(log, u, m) || (m == |log| && IsVoice(e, u)))
  {
    var l := log + [e];
    if m < |log| && StillThere(l, u, m) {
      assert !Removes(l[|log|], u);
      forall r | m < r < |log| ensures !Removes(log[r], u) { assert log[r] == l[r]; }
      assert log[m] == l[m];
    }
    if StillThere(log, u, m) && !Removes(e, u) {
      assert l[m] == log[m];
      forall r | m < r < |l| ensures !Removes(l[r], u) { }
    }
  }

  lemma {:induction false} JoinExists(log: seq<Entry>, u: UserId, m: int) returns (j: int)
    requires StillThere(log, u, m)
    ensures JoinedAt(log, u, j)
    decreases m
  {
    if k :| StillThere(log, u, k) && k < m {
      j := JoinExists(log, u, k);
    } else {
      j := m;
    }
  }

  /** How an entry changes when users are present and since when. */
  lemma JoinedSnoc(log: seq<Entry>, e: Entry, u: UserId, j: int)
    ensures JoinedAt(log + [e], u, j) <==>
            if Removes(e, u) then false
            else JoinedAt(log, u, j) || (IsVoice(e, u) && j == |log| && !exists m :: StillThere(log, u, m))
  {
    forall m ensures StillThere(log + [e], u, m) <==>
      !(m < |log| && Removes(e, u)) && (StillThere(log, u, m) || (m == |log| && IsVoice(e, u)))
    {
      StillThereSnoc(log, e, u, m);
    }
  }

  lemma StartedSnoc(log: seq<Entry>, e: Entry, u: UserId, j: int, k: int)
    requires 0 <= j < |log|
    ensures StartedAt(log + [e], u, j, k) <==>
            if IsSpeaking(e, u) then k == |log| && e.ev == SpeakingStart(u) else StartedAt(log, u, j, k)
  {
    var l := log + [e];
    assert forall m :: 0 <= m < |log| ==> l[m] == log[m];
    assert l[|log|] == e;
  }

  lemma LastVoiceSnoc(log: seq<Entry>, e: Entry, u: UserId, k: int)
    ensures LastVoice(log + [e], u, k) <==> if IsVoice(e, u) then k == |log| else LastVoice(log, u, k)
  {
    var l := log + [e];
    assert forall m :: 0 <= m < |log| ==> l[m] == log[m];
    assert l[|log|] == e;
  }

  /** What one more entry makes of a roster entry that stays. */
  function Moved(p: Participant, e: Entry): Participant {
    if IsVoice(e, p.userId) then WithVoice(p, e.ev.voice)
    else if IsSpeaking(e, p.userId) then p.(speaking := e.ev.SpeakingStart?)
    else p
  }

  lemma SpeaksSnoc(log: seq<Entry>, e: Entry, u: UserId, j: int)
    requires 0 <= j < |log|
    ensures (exists k :: StartedAt(log + [e], u, j, k)) <==>
            if IsSpeaking(e, u) then e.ev.SpeakingStart? else exists k :: StartedAt(log, u, j, k)
  {
    forall k ensures StartedAt(log + [e], u, j, k) <==>
      if IsSpeaking(e, u) then k == |log| && e.ev == SpeakingStart(u) else StartedAt(log, u, j, k)
    {
      StartedSnoc(log, e, u, j, k);
    }
    hide StartedAt;
    if IsSpeaking(e, u) && e.ev.SpeakingStart? { assert StartedAt(log + [e], u, j, |log|); }
  }

  lemma VoicedSnoc(log: seq<Entry>, e: Entry, p: Participant, k: int)
    requires LastVoice(log, p.userId, k) && Carries(p, log[k].ev.voice)
    ensures exists k :: LastVoice(log + [e], p.userId, k) && Carries(Moved(p, e), (log + [e])[k].ev.voice)
  {
    var l, u := log + [e], p.userId;
    LastVoiceSnoc(log, e, u, k);
    LastVoiceSnoc(log, e, u, |log|);
    if IsVoice(e, u) {
      assert LastVoice(l, u, |log|) && l[|log|] == e;
    } else {
      assert LastVoice(l, u, k) && l[k] == log[k];
    }
  }

  lemma DescribesSnoc(log: seq<Entry>, e: Entry, p: Participant, j: int)
    requires Describes(log, p, j) && !Removes(e, p.userId)
    ensures Describes(log + [e], Moved(p, e), j)
  {
    var u := p.userId;
    JoinedSnoc(log, e, u, j);
    SpeaksSnoc(log, e, u, j);
    var k :| LastVoice(log, u, k) && Carries(p, log[k].ev.voice);
    VoicedSnoc(log, e, p, k);
    hide StartedAt, LastVoice, JoinedAt;
  }

  lemma DescribesNew(log: seq<Entry>, e: Entry, u: UserId)
    requires IsVoice(e, u) && !exists j :: JoinedAt(log, u, j)
    ensures Describes(log + [e], WithVoice(Joining(u), e.ev.voice), |log|)
  {
    if m :| StillThere(log, u, m) {
      var j := JoinExists(log, u, m);
    }
    JoinedSnoc(log, e, u, |log|);
    LastVoiceSnoc(log, e, u, |log|);
    assert (log + [e])[|log|] == e;
  }

  /** The entries of a roster other than those removed all move on, and nobody joins. */
  lemma RosterMoves(log: seq<Entry>, e: Entry, ps: seq<Participant>, joins: seq<int>, qs: seq<Participant>)
    requires RosterOf(log, ps, joins) && |qs| == |ps|
    requires forall i :: 0 <= i < |ps| ==> !Removes(e, ps[i].userId) && qs[i] == Moved(ps[i], e)
    requires e.Applied? && (e.ev.VoiceCreate? || e.ev.VoiceUpdate?) ==>
               exists i :: 0 <= i < |ps| && ps[i].userId == e.ev.voice.userId
    ensures RosterOf(log + [e], qs, joins)
  {
    hide Describes, JoinedAt;
    forall i | 0 <= i < |ps| ensures Describes(log + [e], qs[i], joins[i]) {
      DescribesSnoc(log, e, ps[i], joins[i]);
    }
    forall u, j | JoinedAt(log + [e], u, j) ensures IsListed(qs, u) {
      JoinedSnoc(log, e, u, j);
      if IsListed(ps, u) {
        var i :| 0 <= i < |ps| && ps[i].userId == u;
        assert qs[i].userId == u;
      }
    }
  }

  lemma CoversJoin(log: seq<Entry>, e: Entry, ps: seq<Participant>, p: Participant)
    requires Covers(log, ps) && IsVoice(e, p.userId)
    ensures Covers(log + [e], ps + [p])
  {
    hide JoinedAt;
    var qs := ps + [p];
    assert qs[|ps|] == p;
    forall v, j | JoinedAt(log + [e], v, j) ensures IsListed(qs, v) {
      JoinedSnoc(log, e, v, j);
      if IsListed(ps, v) {
        var i :| 0 <= i < |ps| && ps[i].userId == v;
        assert qs[i].userId == v;
      }
    }
  }

  lemma RosterGrows(log: seq<Entry>, e: Entry, ps: seq<Participant>, joins: seq<int>, qs: seq<Participant>, js: seq<int>)
    requires RosterOf(log, ps, joins) && |qs| == |js| == |ps| + 1 && IsVoice(e, qs[|ps|].userId)
    requires forall i :: 0 <= i < |ps| ==> ps[i].userId != qs[|ps|].userId && qs[i] == ps[i] && js[i] == joins[i] < |log|
    requires js[|ps|] == |log| && Describes(log + [e], qs[|ps|], |log|) && Covers(log + [e], qs)
    ensures RosterOf(log + [e], qs, js)
  {
    hide Describes, JoinedAt, Covers, WithVoice;
    forall i | 0 <= i < |ps| ensures Describes(log + [e], qs[i], js[i]) {
      DescribesSnoc(log, e, ps[i], joins[i]);
      assert Moved(ps[i], e) == ps[i];
    }
  }

  lemma RosterJoins(log: seq<Entry>, e: Entry, ps: seq<Participant>, joins: seq<int>, u: UserId)
    requires RosterOf(log, ps, joins) && IsVoice(e, u)
    requires forall i :: 0 <= i < |ps| ==> ps[i].userId != u
    ensures RosterOf(log + [e], ps + [WithVoice(Joining(u), e.ev.voice)], joins + [|log|])
  {
    var p := WithVoice(Joining(u), e.ev.voice);
    CoversJoin(log, e, ps, p);
    NobodyYet(log, ps, u);
    DescribesNew(log, e, u);
    assert forall i :: 0 <= i < |ps| ==> joins[i] < |log|;
    hide Describes, JoinedAt, Covers, WithVoice, Joining;
    RosterGrows(log, e, ps, joins, ps + [p], joins + [|log|]);
  }

  lemma NobodyYet(log: seq<Entry>, ps: seq<Participant>, u: UserId)
    requires Covers(log, ps) && forall i :: 0 <= i < |ps| ==> ps[i].userId != u
    ensures !exists j :: JoinedAt(log, u, j)
  {
    hide JoinedAt;
  }

  lemma CoversLoss(log: seq<Entry>, e: Entry, ps: seq<Participant>, u: UserId, g: nat)
    requires Covers(log, ps) && e.Applied? && e.ev == VoiceDelete(u) && g < |ps| && ps[g].userId == u
    ensures Covers(log + [e], ps[..g] + ps[g + 1..])
  {
    hide JoinedAt;
    var qs := ps[..g] + ps[g + 1..];
    forall v, j | JoinedAt(log + [e], v, j) ensures IsListed(qs, v) {
      JoinedSnoc(log, e, v, j);
      if IsListed(ps, v) {
        var k :| 0 <= k < |ps| && ps[k].userId == v;
        assert qs[if k < g then k else k - 1] == ps[k];
      }
    }
  }

  function Behind(i: nat, g: nat): nat {
    if i < g then i else i + 1
  }

  lemma RosterThins(log: seq<Entry>, e: Entry, ps: seq<Participant>, joins: seq<int>, u: UserId, g: nat,
                    qs: seq<Participant>, js: seq<int>)
    requires RosterOf(log, ps, joins) && e.Applied? && e.ev == VoiceDelete(u)
    requires g < |ps| && ps[g].userId == u && UniqueIds(ps) && |ps| == |qs| + 1 == |js| + 1
    requires forall i :: 0 <= i < |qs| ==> qs[i] == ps[Behind(i, g)] && js[i] == joins[Behind(i, g)]
    requires Covers(log + [e], qs)
    ensures RosterOf(log + [e], qs, js)
  {
    hide Describes, JoinedAt, Covers;
    forall i | 0 <= i < |qs| ensures Describes(log + [e], qs[i], js[i]) {
      DescribesSnoc(log, e, ps[Behind(i, g)], joins[Behind(i, g)]);
    }
  }

  lemma RosterLoses(log: seq<Entry>, e: Entry, ps: seq<Participant>, joins: seq<int>, u: UserId, g: nat)
    requires RosterOf(log, ps, joins) && e.Applied? && e.ev == VoiceDelete(u)
    requires g < |ps| && ps[g].userId == u && UniqueIds(ps)
    ensures RosterOf(log + [e], ps[..g] + ps[g + 1..], joins[..g] + joins[g + 1..])
  {
    CoversLoss(log, e, ps, u, g);
    RosterSizes(log, ps, joins);
    hide RosterOf, UniqueIds, Covers;
    RosterThins(log, e, ps, joins, u, g, ps[..g] + ps[g + 1..], joins[..g] + joins[g + 1..]);
  }

  lemma RosterEmpties(log: seq<Entry>, e: Entry)
    requires e.Applied? && e.ev.ChannelSelect?
    ensures RosterOf(log + [e], [], [])
  {
    forall u, j ensures !JoinedAt(log + [e], u, j) {
      JoinedSnoc(log, e, u, j);
    }
  }

  lemma RosterUnique(log: seq<Entry>, ps: seq<Participant>, joins: seq<int>)
    requires RosterOf(log, ps, joins)
    ensures UniqueIds(ps)
  {
    forall i, k | 0 <= i < k < |ps| ensures ps[i].userId != ps[k].userId {
      assert Describes(log, ps[i], joins[i]) && Describes(log, ps[k], joins[k]);
    }
  }

  /** The roster of the snapshot is the log's: exactly the users present, each once, in join order, with
      the flags and names their own events gave them. */
  lemma {:induction false} RosterIsTheLogs(log: seq<Entry>) returns (joins: seq<int>)
    ensures RosterOf(log, Replay(log).participants, joins) && UniqueIds(Replay(log).participants)
  {
    joins := [];
    if log == [] { return; }
    var init, e := log[..|log| - 1], log[|log| - 1];
    joins := RosterIsTheLogs(init);
    joins := RosterStep(init, e, Replay(init), joins);
    assert log == init + [e];
    RosterUnique(log, Replay(log).participants, joins);
  }

  /** One more entry, whatever it is. */
  lemma RosterStep(log: seq<Entry>, e: Entry, s: Snapshot, joins: seq<int>) returns (js: seq<int>)
    requires RosterOf(log, s.participants, joins) && UniqueIds(s.participants)
    ensures RosterOf(log + [e], Reduce(s, e).participants, js)
  {
    hide RosterOf, UniqueIds, Upsert, SetSpeaking, Removed, Find;
    js := joins;
    match e {
      case Applied(ChannelSelect(_), _) =>
        RosterEmpties(log, e);
        js := [];
      case Applied(VoiceDelete(u), _) => js := DeleteStep(log, e, s, joins, u);
      case Applied(VoiceCreate(v), _) => js := VoiceStep(log, e, s.participants, joins);
      case Applied(VoiceUpdate(v), _) => js := VoiceStep(log, e, s.participants, joins);
      case Applied(SpeakingStart(u), _) => SpeakingStep(log, e, s, joins, u);
      case Applied(SpeakingStop(u), _) => SpeakingStep(log, e, s, joins, u);
      case Applied(Notify(_), _) => QuietStep(log, e, s.participants, joins);
      case Configured(_) => QuietStep(log, e, s.participants, joins);
    }
  }

  lemma QuietStep(log: seq<Entry>, e: Entry, ps: seq<Participant>, joins: seq<int>)
    requires RosterOf(log, ps, joins) && (e.Configured? || e.ev.Notify?)
    ensures RosterOf(log + [e], ps, joins)
  {
    hide RosterOf;
    RosterMoves(log, e, ps, joins, ps);
  }

  lemma DeleteStep(log: seq<Entry>, e: Entry, s: Snapshot, joins: seq<int>, u: UserId) returns (js: seq<int>)
    requires RosterOf(log, s.participants, joins) && UniqueIds(s.participants)
    requires e.Applied? && e.ev == VoiceDelete(u)
    ensures RosterOf(log + [e], Removed(s, u).participants, js)
  {
    hide RosterOf, UniqueIds;
    js := joins;
    match Find(s.participants, u)
    case None => RosterMoves(log, e, s.participants, joins, s.participants);
    case Some(i) =>
      RosterSizes(log, s.participants, joins);
      RosterLoses(log, e, s.participants, joins, u, i);
      js := joins[..i] + joins[i + 1..];
  }

  lemma RosterSizes(log: seq<Entry>, ps: seq<Participant>, joins: seq<int>)
    requires RosterOf(log, ps, joins)
    ensures |joins| == |ps|
  {
  }

  lemma VoiceStep(log: seq<Entry>, e: Entry, ps: seq<Participant>, joins: seq<int>) returns (js: seq<int>)
    requires RosterOf(log, ps, joins) && UniqueIds(ps) && e.Applied? && (e.ev.VoiceCreate? || e.ev.VoiceUpdate?)
    ensures RosterOf(log + [e], Upsert(ps, e.ev.voice), js)
  {
    var v := e.ev.voice;
    UpsertMoves(e, ps);
    hide RosterOf, UniqueIds;
    match Find(ps, v.userId)
    case None =>
      RosterJoins(log, e, ps, joins, v.userId);
      js := joins + [|log|];
    case Some(i) =>
      RosterMoves(log, e, ps, joins, Upsert(ps, v));
      js := joins;
  }

  lemma UpsertMoves(e: Entry, ps: seq<Participant>)
    requires UniqueIds(ps) && e.Applied? && (e.ev.VoiceCreate? || e.ev.VoiceUpdate?)
    ensures Find(ps, e.ev.voice.userId).Some? ==>
              var qs := Upsert(ps, e.ev.voice);
              |qs| == |ps| && forall i :: 0 <= i < |ps| ==> qs[i] == Moved(ps[i], e)
  {
  }

  lemma SpeakingStep(log: seq<Entry>, e: Entry, s: Snapshot, joins: seq<int>, u: UserId)
    requires RosterOf(log, s.participants, joins) && UniqueIds(s.participants) && IsSpeaking(e, u)
    ensures RosterOf(log + [e], SetSpeaking(s, u, e.ev.SpeakingStart?).participants, joins)
  {
    SpeakingMoves(e, s, u);
    hide RosterOf, UniqueIds, SetSpeaking;
    RosterMoves(log, e, s.participants, joins, SetSpeaking(s, u, e.ev.SpeakingStart?).participants);
  }

  lemma SpeakingMoves(e: Entry, s: Snapshot, u: UserId)
    requires UniqueIds(s.participants) && IsSpeaking(e, u)
    ensures var qs := SetSpeaking(s, u, e.ev.SpeakingStart?).participants;
            |qs| == |s.participants| && forall i :: 0 <= i < |qs| ==> qs[i] == Moved(s.participants[i], e)
  {
  }

  // ---- revision, notifications, channel --------------------------------------------------------

  ghost predicate Present(log: seq<Entry>, u: UserId) {
    exists m :: StillThere(log, u, m)
  }

  /** Every call counts but a delete or a speaking event of somebody who is not there. */
  ghost predicate TakesEffect(log: seq<Entry>, e: Entry) {
    match e
    case Applied(VoiceDelete(u), _) => Present(log, u)
    case Applied(SpeakingStart(u), _) => Present(log, u)
    case Applied(SpeakingStop(u), _) => Present(log, u)
    case _ => true
  }

  ghost function Effective(log: seq<Entry>): nat {
    if log == [] then 0
    else Effective(log[..|log| - 1]) + if TakesEffect(log[..|log| - 1], log[|log| - 1]) then 1 else 0
  }

  lemma PresentIsListed(log: seq<Entry>, u: UserId)
    ensures Present(log, u) <==> Find(Replay(log).participants, u).Some?
  {
    var joins := RosterIsTheLogs(log);
    var ps := Replay(log).participants;
    if m :| StillThere(log, u, m) {
      var j := JoinExists(log, u, m);
    }
    if Find(ps, u).Some? {
      var i := Find(ps, u).value;
      assert Describes(log, ps[i], joins[i]);
    }
  }

  /** The revision counts exactly the calls that had an effect, and a call without one changes nothing. */
  lemma {:induction false} RevisionCountsEffects(log: seq<Entry>)
    ensures Replay(log).revision == Effective(log)
    ensures log != [] && !TakesEffect(log[..|log| - 1], log[|log| - 1]) ==> Replay(log) == Replay(log[..|log| - 1])
  {
    if log != [] {
      var init, e := log[..|log| - 1], log[|log| - 1];
      RevisionCountsEffects(init);
      match e
      case Applied(VoiceDelete(u), _) => PresentIsListed(init, u);
      case Applied(SpeakingStart(u), _) => PresentIsListed(init, u);
      case Applied(SpeakingStop(u), _) => PresentIsListed(init, u);
      case _ =>
    }
  }

  /** Every notification ever received, oldest first, as stamped on receipt. */
  function History(log: seq<Entry>): seq<Notification> {
    if log == [] then []
    else
      var e := log[|log| - 1];
      History(log[..|log| - 1]) + if e.Applied? && e.ev.Notify? then [e.ev.notif.(createdMs := e.now)] else []
  }

  /** The snapshot keeps the newest twenty of them, newest first; no channel change drops any. */
  lemma {:induction false} NotificationsAreNewest(log: seq<Entry>)
    ensures AreNewest(Replay(log).notifications, History(log))
  {
    if log != [] {
      var init, e := log[..|log| - 1], log[|log| - 1];
      NotificationsAreNewest(init);
      if e.Applied? && e.ev.Notify? {
        PushedAreNewest(Replay(init).notifications, History(init), e.ev.notif.(createdMs := e.now));
      } else {
        OthersKeepNotifications(Replay(init), e);
      }
    }
  }

  /** The newest twenty of a history that is told oldest first, newest first. */
  predicate AreNewest(ns: seq<Notification>, history: seq<Notification>) {
    && |ns| == (if |history| < 20 then |history| else 20)
    && forall i :: 0 <= i < |ns| ==> ns[i] == history[|history| - 1 - i]
  }

  lemma PushedAreNewest(ns: seq<Notification>, history: seq<Notification>, n: Notification)
    requires AreNewest(ns, history)
    ensures AreNewest(Pushed(ns, n), history + [n])
  {
  }

  lemma OthersKeepNotifications(s: Snapshot, e: Entry)
    ensures !(e.Applied? && e.ev.Notify?) ==> Reduce(s, e).notifications == s.notifications
  {
  }

  function SelectedChannel(log: seq<Entry>): string {
    if log == [] then ""
    else
      var e := log[|log| - 1];
      if e.Applied? && e.ev.ChannelSelect? then e.ev.channelId else SelectedChannel(log[..|log| - 1])
  }

  /** In voice exactly when the last selected channel is a channel, and under its name. */
  lemma {:induction false} ChannelIsLastSelected(log: seq<Entry>)
    ensures Replay(log).channelName == SelectedChannel(log)
    ensures Replay(log).inVoice <==> SelectedChannel(log) != ""
  {
    if log != [] {
      ChannelIsLastSelected(log[..|log| - 1]);
    }
  }

  /** The configuration is the last one set, by entry `k`, whatever else has happened since; before any it is
      the default. */
  lemma {:induction false} ConfigIsLastSet(log: seq<Entry>, k: int)
    requires -1 <= k < |log| && (k >= 0 ==> log[k].Configured?)
    requires forall m :: k < m < |log| ==> !log[m].Configured?
    ensures Replay(log).config == if k >= 0 then log[k].cfg else AppearanceConfig(4, 1.0, 200.0, true, 1, 5000)
  {
    if log != [] {
      var init, n := log[..|log| - 1], |log| - 1;
      OneCallConfigures(Replay(init), log[n]);
      hide Reduce;
      if k < n { ConfigIsLastSet(init, k); }
    }
  }

  lemma OneCallConfigures(s: Snapshot, e: Entry)
    ensures Reduce(s, e).config == if e.Configured? then e.cfg else s.config
  {
    hide Find, Upsert, Pushed;
  }
}
