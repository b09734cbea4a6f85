/** The Vulkan rules the overlay has to respect, written as an automaton over the calls
    that reach the driver.  Nothing here knows how the layer is written: the automaton
    says which call is allowed in which state (fences and binary semaphores, command
    buffer states, object lifetimes, and the isolation the overlay promises its host
    process), and the lemmas say what an allowed run means in terms of its events. */
module Vulkan {
  import opened Common

  /** Names the objects of one swapchain image: command buffer, fence, overlay-done
      semaphore, framebuffer and view.  They are created, used and freed together. */
  type ResId = nat

  datatype Sem = AppSem(n: nat) | OverlayDone(id: ResId)

  /** Command buffer states.  `Idle` covers initial and invalid: neither recording nor submittable. */
  datatype Cmd = Idle | Recording | InPass | Executable

  /** `signaled` is the fence; `submitted` says a submit carried it since its last reset;
      `pending` says the GPU has not finished that submit; `drawn` that a frame is drawn in the command buffer. */
  datatype Res = Res(cmd: Cmd, signaled: bool, submitted: bool, pending: bool, drawn: bool)

  /** What can happen to one image's objects. */
  datatype Op =
    | Wait(ok: bool)                           // unbounded fence wait in a present
    | TeardownWait                             // unbounded fence wait in a teardown
    | BeginCmd(ok: bool)
    | BeginPass
    | Draw
    | EndPass
    | EndCmd(ok: bool)
    | Reset(ok: bool, signaled: bool)          // a failed reset leaves the fence in either state
    | Submit(waits: seq<Sem>, ok: bool)
    | Complete                                 // the GPU finishes a submit

  datatype Event =
    | Alloc(id: ResId)                         // fence created signaled
    | Free(id: ResId)
    | AllocFailed                              // a call that makes a swapchain's objects failed
    | On(id: ResId, op: Op)
    | InitUi(ok: bool)
    | Present(waits: seq<Sem>)
    | Enter                                    // the application calls vkQueuePresentKHR
    | Raised                                   // an exception is raised in the layer
    | Latch                                    // overlay switched off for the device
    | HostSnapshot(inVoice: bool)              // the state client publishes a snapshot
    | HostDisable                              // the host disables this process

  /** `quiet`: the present in progress began after a disable or a latch.
      `voiceSeen`: an in-voice snapshot was current at some moment of the present in progress.
      `open`: a present was entered and not passed down yet.  `drew`: it submitted something.
      `fault`: something failed that has to switch the overlay off before the next frame goes down.
      `slip`: a driver call or the overlay itself failed during the present in progress, fatally or not.
      `idle`: at some moment of the present in progress the process was disabled or not in voice.
      `lacking`: some call that makes a swapchain's objects has failed. */
  datatype World = World(
    res: map<ResId, Res>,
    voice: bool, disabled: bool, latched: bool,
    quiet: bool, voiceSeen: bool, open: bool, drew: bool, fault: bool, slip: bool,
    idle: bool, lacking: bool)

  const INITIAL := World(map[], false, false, false, true, false, false, false, false, false, true, false)
  const NEW_RES := Res(Idle, true, false, false, false)

  function Finished(r: Res): Res {
    r.(pending := false, signaled := true, cmd := Idle)
  }

  predicate MayWork(w: World) {
    !w.quiet && w.voiceSeen
  }

  predicate AllowedOp(r: Res, op: Op) {
    match op
    case Wait(_) => r.submitted
    case TeardownWait => r.submitted
    case BeginCmd(_) => !r.pending && r.cmd !in {Recording, InPass}
    case BeginPass => r.cmd == Recording
    case Draw => r.cmd == InPass
    case EndPass => r.cmd == InPass
    case EndCmd(_) => r.cmd == Recording
    case Reset(ok, signaled) => !r.pending && (ok ==> !signaled)
    case Submit(_, _) => !r.pending && r.cmd == Executable && r.drawn && !r.signaled
    case Complete => r.pending
  }

  function AfterOp(r: Res, op: Op): Res {
    match op
    // a successful unbounded wait returns only once the GPU is done
    case Wait(ok) => if ok && r.pending then Finished(r) else r
    case TeardownWait => if r.pending then Finished(r) else r
    case BeginCmd(ok) => r.(cmd := if ok then Recording else Idle, drawn := false)
    case BeginPass => r.(cmd := InPass)
    case Draw => r.(drawn := true)
    case EndPass => r.(cmd := Recording)
    case EndCmd(ok) => r.(cmd := if ok then Executable else Idle)
    case Reset(_, signaled) => r.(signaled := signaled, submitted := false)
    case Submit(_, ok) => if ok then r.(submitted := true, pending := true) else r
    case Complete => Finished(r)
  }

  /** Overlay work, as opposed to tearing down or the GPU's own progress. */
  predicate IsWork(op: Op) {
    !op.TeardownWait? && !op.Complete?
  }

  predicate Fails(op: Op) {
    match op
    case Wait(ok) => !ok
    case BeginCmd(ok) => !ok
    case EndCmd(ok) => !ok
    case Reset(ok, _) => !ok
    case Submit(_, ok) => !ok
    case _ => false
  }

  /** Failures after which nothing of this frame can be trusted: a failed submit, or a fence reset
      that failed with nothing submitted yet. */
  predicate IsFatal(op: Op, drew: bool) {
    (op.Submit? && !op.ok) || (op.Reset? && !op.ok && !drew)
  }

  predicate Allowed(w: World, e: Event) {
    match e
    case Alloc(id) => id !in w.res
    case Free(id) => id in w.res && !w.res[id].pending
    case AllocFailed => true
    case On(id, op) => id in w.res && AllowedOp(w.res[id], op) && (IsWork(op) ==> MayWork(w))
    case InitUi(_) => MayWork(w)
    case Present(_) => w.open && (w.fault ==> w.latched)
    case Enter => !w.open && (w.fault ==> w.latched)
    case Raised => true
    case Latch => w.fault
    case HostSnapshot(_) => true
    case HostDisable => true
  }

  function After(w: World, e: Event): World
    requires Allowed(w, e)
  {
    match e
    case Alloc(id) => w.(res := w.res[id := NEW_RES])
    case Free(id) => w.(res := w.res - {id})
    case AllocFailed => w.(lacking := true)
    case On(id, op) =>
      w.(res := w.res[id := AfterOp(w.res[id], op)],
         drew := w.drew || (op.Submit? && op.ok),
         fault := w.fault || IsFatal(op, w.drew),
         slip := w.slip || Fails(op))
    case InitUi(_) => w
    case Present(_) => w.(open := false)
    case Enter =>
      w.(quiet := w.disabled || w.latched, voiceSeen := w.voice, open := true, drew := false, slip := false,
         idle := w.disabled || !w.voice)
    case Raised => w.(fault := true, slip := true)
    case Latch => w.(latched := true)
    case HostSnapshot(inVoice) => w.(voice := inVoice, voiceSeen := w.voiceSeen || inVoice, idle := w.idle || !inVoice)
    case HostDisable => w.(disabled := true, idle := true)
  }

  /** The state after a run, or None as soon as one call of it was not allowed. */
  function Replay(tr: seq<Event>): Option<World> {
    if tr == [] then Some(INITIAL)
    else
      match Replay(tr[..|tr| - 1])
      case None => None
      case Some(w) => if Allowed(w, tr[|tr| - 1]) then Some(After(w, tr[|tr| - 1])) else None
  }

  predicate LegalRun(tr: seq<Event>) {
    Replay(tr).Some?
  }

  lemma ReplaySnoc(tr: seq<Event>, e: Event)
    requires LegalRun(tr) && Allowed(Replay(tr).value, e)
    ensures Replay(tr + [e]) == Some(After(Replay(tr).value, e))
  {
    assert (tr + [e])[..|tr|] == tr;
  }

  lemma {:induction false} LegalPrefix(tr: seq<Event>, k: nat)
    requires LegalRun(tr) && k <= |tr|
    ensures LegalRun(tr[..k])
    decreases |tr|
  {
    if k < |tr| {
      var init := tr[..|tr| - 1];
      LegalPrefix(init, k);
      assert init[..k] == tr[..k];
    } else {
      assert tr[..k] == tr;
    }
  }

  lemma LastStep(tr: seq<Event>) returns (init: seq<Event>, e: Event, w: World)
    requires LegalRun(tr) && tr != []
    ensures init == tr[..|tr| - 1] && e == tr[|tr| - 1] && tr == init + [e]
    ensures Replay(init) == Some(w) && Allowed(w, e) && Replay(tr) == Some(After(w, e))
    ensures forall m :: 0 <= m < |init| ==> tr[m] == init[m]
  {
    init, e := tr[..|tr| - 1], tr[|tr| - 1];
    w := Replay(init).value;
  }

  // ---- what the automaton means ------------------------------------------------------

  predicate IsReset(e: Event, id: ResId) {
    e.On? && e.id == id && e.op.Reset?
  }

  predicate IsSubmitted(e: Event, id: ResId) {
    e.On? && e.id == id && e.op.Submit? && e.op.ok
  }

  /** The GPU is done with the submits of `id`: it said so, or an unbounded wait on the fence came back. */
  predicate IsDone(e: Event, id: ResId) {
    e.On? && e.id == id && (e.op.Complete? || e.op.TeardownWait? || (e.op.Wait? && e.op.ok))
  }

  predicate IsUnboundedWait(e: Event, id: ResId) {
    e.On? && e.id == id && (e.op.Wait? || e.op.TeardownWait?)
  }

  /** Touches the command buffer, the fence or the lifetime of `id` in a way that needs the GPU to be done with it. */
  predicate IsReuse(e: Event, id: ResId) {
    || e == Free(id)
    || (e.On? && e.id == id && (e.op.BeginCmd? || e.op.Reset? || e.op.Submit?))
  }

  predicate IsOverlayWork(e: Event) {
    e.InitUi? || (e.On? && IsWork(e.op))
  }

  /** Witness for `submitted`: the submit, with no reset of the fence since. */
  ghost predicate SubmittedAt(tr: seq<Event>, id: ResId, j: int) {
    0 <= j < |tr| && IsSubmitted(tr[j], id) && forall m :: j < m < |tr| ==> !IsReset(tr[m], id)
  }

  /** A fence that counts as submitted was carried by a submit and not reset since, and it is signaled or will be. */
  lemma {:induction false} SubmittedMeans(tr: seq<Event>, id: ResId) returns (j: int)
    requires LegalRun(tr) && id in Replay(tr).value.res && Replay(tr).value.res[id].submitted
    ensures SubmittedAt(tr, id, j)
    ensures Replay(tr).value.res[id].pending || Replay(tr).value.res[id].signaled
  {
    var init, e, w := LastStep(tr);
    if IsSubmitted(e, id) {
      j := |tr| - 1;
    } else {
      SubmittedStep(w, e, id);
      j := SubmittedMeans(init, id);
    }
  }

  lemma SubmittedStep(w: World, e: Event, id: ResId)
    requires Allowed(w, e) && id in After(w, e).res && After(w, e).res[id].submitted && !IsSubmitted(e, id)
    ensures id in w.res && w.res[id].submitted && !IsReset(e, id)
    ensures w.res[id].pending || w.res[id].signaled ==> After(w, e).res[id].pending || After(w, e).res[id].signaled
  {
    match e
    case Alloc(_) =>
    case Free(_) =>
    case On(_, op) => assert After(w, e).res == w.res[e.id := AfterOp(w.res[e.id], op)];
    case _ => assert After(w, e).res == w.res;
  }

  /** Witness for `drawn`: the draw, recorded in a command buffer not begun again since. */
  ghost predicate DrawnAt(tr: seq<Event>, id: ResId, d: int) {
    0 <= d < |tr| && tr[d] == On(id, Draw) && forall m :: d < m < |tr| ==> !(tr[m].On? && tr[m].id == id && tr[m].op.BeginCmd?)
  }

  lemma {:induction false} DrawnMeans(tr: seq<Event>, id: ResId) returns (d: int)
    requires LegalRun(tr) && id in Replay(tr).value.res && Replay(tr).value.res[id].drawn
    ensures DrawnAt(tr, id, d)
  {
    var init, e, w := LastStep(tr);
    if e == On(id, Draw) {
      d := |tr| - 1;
    } else {
      DrawnStep(w, e, id);
      d := DrawnMeans(init, id);
    }
  }

  lemma DrawnStep(w: World, e: Event, id: ResId)
    requires Allowed(w, e) && id in After(w, e).res && After(w, e).res[id].drawn && e != On(id, Draw)
    ensures id in w.res && w.res[id].drawn && !(e.On? && e.id == id && e.op.BeginCmd?)
  {
    match e
    case Alloc(_) =>
    case Free(_) =>
    case On(_, op) => assert After(w, e).res == w.res[e.id := AfterOp(w.res[e.id], op)];
    case _ => assert After(w, e).res == w.res;
  }

  /** Nothing empty is submitted: in an allowed run a frame has been drawn in each command buffer submitted, since it
      was last begun. */
  lemma NoEmptySubmit(tr: seq<Event>, k: nat, id: ResId)
    requires LegalRun(tr) && k < |tr| && tr[k].On? && tr[k].id == id && tr[k].op.Submit?
    ensures exists d :: DrawnAt(tr[..k], id, d)
  {
    LegalPrefix(tr, k + 1);
    assert tr[..k + 1][..k] == tr[..k];
    var d := DrawnMeans(tr[..k], id);
  }

  predicate IsCommand(e: Event, id: ResId) {
    e.On? && e.id == id && (e.op.BeginCmd? || e.op.BeginPass? || e.op.EndPass? || e.op.EndCmd?)
  }

  /** Witness for a command buffer's state: the call that led to it, with no other since. */
  ghost predicate CommandAt(tr: seq<Event>, id: ResId, j: int, cmd: Cmd) {
    && 0 <= j < |tr| && (forall m :: j < m < |tr| ==> !IsCommand(tr[m], id)) && tr[j].On? && tr[j].id == id
    && match cmd
       case Idle => false
       case Recording => tr[j].op in {BeginCmd(true), EndPass}
       case InPass => tr[j].op == BeginPass
       case Executable => tr[j].op == EndCmd(true)
  }

  lemma {:induction false} CommandMeans(tr: seq<Event>, id: ResId) returns (j: int)
    requires LegalRun(tr) && id in Replay(tr).value.res && Replay(tr).value.res[id].cmd != Idle
    ensures CommandAt(tr, id, j, Replay(tr).value.res[id].cmd)
  {
    var init, e, w := LastStep(tr);
    CommandStep(w, e, id);
    hide Allowed, After;
    if IsCommand(e, id) {
      j := |tr| - 1;
    } else {
      j := CommandMeans(init, id);
    }
  }

  lemma CommandStep(w: World, e: Event, id: ResId)
    requires Allowed(w, e) && id in After(w, e).res && After(w, e).res[id].cmd != Idle
    ensures if IsCommand(e, id) then CommandAt([e], id, 0, After(w, e).res[id].cmd)
            else id in w.res && w.res[id].cmd == After(w, e).res[id].cmd
  {
    match e
    case Alloc(_) =>
    case Free(_) =>
    case On(_, op) => assert After(w, e).res == w.res[e.id := AfterOp(w.res[e.id], op)];
    case _ => assert After(w, e).res == w.res;
  }

  /** The calls on a command buffer come in order: a pass begins and the buffer ends outside of a pass, drawing and the end
      of a pass come in one, and what is submitted has ended well. */
  lemma CommandsAreInOrder(tr: seq<Event>, k: nat, id: ResId)
    requires LegalRun(tr) && k < |tr| && tr[k].On? && tr[k].id == id
    ensures tr[k].op.BeginPass? || tr[k].op.EndCmd? ==> exists j :: CommandAt(tr[..k], id, j, Recording)
    ensures tr[k].op.Draw? || tr[k].op.EndPass? ==> exists j :: CommandAt(tr[..k], id, j, InPass)
    ensures tr[k].op.Submit? ==> exists j :: CommandAt(tr[..k], id, j, Executable)
  {
    LegalPrefix(tr, k + 1);
    assert tr[..k + 1][..k] == tr[..k];
    if Replay(tr[..k]).value.res[id].cmd != Idle { var j := CommandMeans(tr[..k], id); }
  }

  /** Witness for an unsignaled fence: a reset that left it so, with no submit finished since. */
  ghost predicate ResetAt(tr: seq<Event>, id: ResId, j: int) {
    && 0 <= j < |tr| && tr[j].On? && tr[j].id == id && tr[j].op.Reset? && !tr[j].op.signaled
    && forall m :: j < m < |tr| ==> tr[m] != On(id, Complete)
  }

  lemma {:induction false} ResetMeans(tr: seq<Event>, id: ResId) returns (j: int)
    requires LegalRun(tr) && id in Replay(tr).value.res && !Replay(tr).value.res[id].signaled
    ensures ResetAt(tr, id, j)
  {
    var init, e, w := LastStep(tr);
    if e.On? && e.id == id && e.op.Reset? && !e.op.signaled {
      j := |tr| - 1;
    } else {
      ResetStep(w, e, id);
      j := ResetMeans(init, id);
    }
  }

  lemma ResetStep(w: World, e: Event, id: ResId)
    requires Allowed(w, e) && id in After(w, e).res && !After(w, e).res[id].signaled
    requires !(e.On? && e.id == id && e.op.Reset? && !e.op.signaled)
    ensures id in w.res && !w.res[id].signaled && e != On(id, Complete)
  {
    match e
    case Alloc(_) =>
    case Free(_) =>
    case On(_, op) => assert After(w, e).res == w.res[e.id := AfterOp(w.res[e.id], op)];
    case _ => assert After(w, e).res == w.res;
  }

  /** No submit is given a fence that is signaled: a reset came before, and no submit with it has finished since. */
  lemma SubmitsAnUnsignaledFence(tr: seq<Event>, k: nat, id: ResId)
    requires LegalRun(tr) && k < |tr| && tr[k].On? && tr[k].id == id && tr[k].op.Submit?
    ensures exists j :: ResetAt(tr[..k], id, j)
  {
    LegalPrefix(tr, k + 1);
    assert tr[..k + 1][..k] == tr[..k];
    var j := ResetMeans(tr[..k], id);
  }

  /** No hang: in an allowed run, every unbounded fence wait is on a fence that an earlier
      successful submit carries and that nothing reset in between. */
  lemma NoWaitCanHang(tr: seq<Event>, k: nat, id: ResId)
    requires LegalRun(tr) && k < |tr| && IsUnboundedWait(tr[k], id)
    ensures exists j :: SubmittedAt(tr[..k], id, j)
  {
    LegalPrefix(tr, k + 1);
    assert tr[..k + 1][..k] == tr[..k];
    var j := SubmittedMeans(tr[..k], id);
  }

  /** After a submit that nothing has finished, the automaton still holds it pending. */
  lemma {:induction false} PendingUntilDone(tr: seq<Event>, id: ResId, j: nat)
    requires LegalRun(tr) && j < |tr| && IsSubmitted(tr[j], id)
    requires forall m :: j < m < |tr| ==> !IsDone(tr[m], id)
    ensures id in Replay(tr).value.res && Replay(tr).value.res[id].pending
  {
    var init, e, w := LastStep(tr);
    if j < |tr| - 1 {
      PendingUntilDone(init, id, j);
      PendingStep(w, e, id);
    }
  }

  lemma PendingStep(w: World, e: Event, id: ResId)
    requires Allowed(w, e) && id in w.res && w.res[id].pending && !IsDone(e, id)
    ensures id in After(w, e).res && After(w, e).res[id].pending
  {
    match e
    case Alloc(_) =>
    case Free(_) =>
    case On(_, op) => assert After(w, e).res == w.res[e.id := AfterOp(w.res[e.id], op)];
    case _ => assert After(w, e).res == w.res;
  }

  /** No reuse in flight: between a submit and any re-recording, reset, resubmit or free of
      the same image's objects, the GPU has finished that submit. */
  lemma NoReuseInFlight(tr: seq<Event>, j: nat, k: nat, id: ResId)
    requires LegalRun(tr) && j < k < |tr| && IsSubmitted(tr[j], id) && IsReuse(tr[k], id)
    ensures exists m :: j < m < k && IsDone(tr[m], id)
  {
    if forall m :: j < m < k ==> !IsDone(tr[m], id) {
      LegalPrefix(tr, k + 1);
      var pre := tr[..k];
      assert tr[..k + 1][..k] == pre;
      assert forall m :: j < m < |pre| ==> pre[m] == tr[m];
      PendingUntilDone(pre, id, j);
      assert false;
    }
  }

  /** `e` is the `Enter` of the present in progress at the end of `tr`. */
  ghost predicate LastEnter(tr: seq<Event>, e: int) {
    0 <= e < |tr| && tr[e].Enter? && forall m :: e < m < |tr| ==> !tr[m].Enter?
  }

  ghost predicate VoiceAt(tr: seq<Event>, v: int) {
    0 <= v < |tr| && tr[v] == HostSnapshot(true)
  }

  /** `v` is the last snapshot of `tr` and it is in voice. */
  ghost predicate VoiceNow(tr: seq<Event>, v: int) {
    VoiceAt(tr, v) && forall m :: v < m < |tr| ==> !tr[m].HostSnapshot?
  }

  lemma {:induction false} VoiceMeans(tr: seq<Event>) returns (v: int)
    requires LegalRun(tr) && Replay(tr).value.voice
    ensures VoiceNow(tr, v)
  {
    var init, e, w := LastStep(tr);
    if e.HostSnapshot? {
      v := |tr| - 1;
    } else {
      v := VoiceMeans(init);
    }
  }

  lemma {:induction false} OffMeans(tr: seq<Event>)
    requires LegalRun(tr) && !Replay(tr).value.disabled && !Replay(tr).value.latched
    ensures forall m :: 0 <= m < |tr| ==> !tr[m].HostDisable? && !tr[m].Latch?
  {
    if tr != [] {
      var init, e, w := LastStep(tr);
      OffMeans(init);
    }
  }

  /** The present in progress, entered at `e`, started neither disabled nor latched, and saw the in-voice
      snapshot `v`: one current when it started, or one that arrived since. */
  ghost predicate MayWorkSince(tr: seq<Event>, e: int, v: int) {
    && LastEnter(tr, e) && (forall m :: 0 <= m < e ==> !tr[m].HostDisable? && !tr[m].Latch?)
    && VoiceAt(tr, v) && (v > e || VoiceNow(tr[..e], v))
  }

  lemma MayWorkStays(tr: seq<Event>, last: Event, e: int, v: int)
    requires MayWorkSince(tr, e, v) && !last.Enter?
    ensures MayWorkSince(tr + [last], e, v)
  {
    assert (tr + [last])[..e] == tr[..e];
  }

  lemma MayWorkEntered(tr: seq<Event>, v: int)
    requires VoiceNow(tr, v) && forall m :: 0 <= m < |tr| ==> !tr[m].HostDisable? && !tr[m].Latch?
    ensures MayWorkSince(tr + [Enter], |tr|, v)
  {
    assert (tr + [Enter])[..|tr|] == tr;
  }

  lemma MayWorkVoiced(tr: seq<Event>, e: int)
    requires LastEnter(tr, e) && forall m :: 0 <= m < e ==> !tr[m].HostDisable? && !tr[m].Latch?
    ensures MayWorkSince(tr + [HostSnapshot(true)], e, |tr|)
  {
  }

  lemma LastWork(tr: seq<Event>) returns (init: seq<Event>, last: Event, w: World)
    requires LegalRun(tr) && MayWork(Replay(tr).value)
    ensures tr == init + [last] && Replay(init) == Some(w) && |init| < |tr|
    ensures if last.Enter? then w.voice && !w.disabled && !w.latched
            else if last == HostSnapshot(true) && !w.voiceSeen then !w.quiet
            else MayWork(w)
  {
    init, last, w := LastStep(tr);
    hide Allowed, After, Replay, MayWork;
    WorkBefore(w, last);
  }

  lemma WorkBefore(w: World, e: Event)
    requires Allowed(w, e) && MayWork(After(w, e))
    ensures if e.Enter? then w.voice && !w.disabled && !w.latched
            else if e == HostSnapshot(true) && !w.voiceSeen then !w.quiet
            else MayWork(w)
  {
    hide AllowedOp, AfterOp;
  }

  lemma {:induction false} MayWorkMeans(tr: seq<Event>) returns (e: int, v: int)
    requires LegalRun(tr) && MayWork(Replay(tr).value)
    ensures MayWorkSince(tr, e, v)
  {
    var init, last, w := LastWork(tr);
    hide Allowed, After, LastEnter, VoiceAt, VoiceNow, MayWorkSince;
    if last.Enter? {
      e := |tr| - 1;
      OffMeans(init);
      v := VoiceMeans(init);
      MayWorkEntered(init, v);
    } else if last == HostSnapshot(true) && !w.voiceSeen {
      v := |tr| - 1;
      e := NotQuietMeans(init);
      MayWorkVoiced(init, e);
    } else {
      e, v := MayWorkMeans(init);
      MayWorkStays(init, last, e, v);
    }
  }

  lemma {:induction false} NotQuietMeans(tr: seq<Event>) returns (e: int)
    requires LegalRun(tr) && !Replay(tr).value.quiet
    ensures LastEnter(tr, e) && forall m :: 0 <= m < e ==> !tr[m].HostDisable? && !tr[m].Latch?
  {
    var init, last, w := LastStep(tr);
    hide Allowed, After, Replay;
    QuietBefore(w, last);
    if last.Enter? {
      e := |tr| - 1;
      OffMeans(init);
    } else {
      e := NotQuietMeans(init);
    }
  }

  lemma QuietBefore(w: World, e: Event)
    requires Allowed(w, e) && !After(w, e).quiet
    ensures if e.Enter? then !w.disabled && !w.latched else !w.quiet
  {
    hide AllowedOp, AfterOp;
  }

  /** Isolation: in an allowed run no UI init, fence wait or reset, recording or submit of the
      overlay happens outside a present that began undisabled and unlatched and during which
      the host was in voice at some moment. */
  lemma OverlayWorkIsIsolated(tr: seq<Event>, k: nat)
    requires LegalRun(tr) && k < |tr| && IsOverlayWork(tr[k])
    ensures exists e, v ::
      && LastEnter(tr[..k], e)
      && (forall m :: 0 <= m < e ==> !tr[m].HostDisable? && !tr[m].Latch?)
      && VoiceAt(tr[..k], v) && (v > e || VoiceNow(tr[..e], v))
  {
    LegalPrefix(tr, k + 1);
    var pre := tr[..k];
    assert tr[..k + 1][..k] == pre;
    var e, v := MayWorkMeans(pre);
    assert forall m :: 0 <= m < e ==> tr[m] == pre[m];
    assert pre[..e] == tr[..e];
  }

  predicate IsFault(e: Event) {
    e.Raised? || (e.On? && e.op.Submit? && !e.op.ok)
  }

  /** An unrecovered fault is visible, and only a latch event can have recovered one. */
  lemma {:induction false} FaultMeans(tr: seq<Event>, j: nat)
    requires LegalRun(tr) && j < |tr| && IsFault(tr[j])
    ensures Replay(tr).value.fault
    ensures Replay(tr).value.latched ==> exists m :: 0 <= m < |tr| && tr[m].Latch?
  {
    var init, e, w := LastStep(tr);
    if j < |tr| - 1 {
      FaultMeans(init, j);
    }
    LatchMeans(tr);
  }

  lemma {:induction false} LatchMeans(tr: seq<Event>)
    requires LegalRun(tr)
    ensures Replay(tr).value.latched ==> exists m :: 0 <= m < |tr| && tr[m].Latch?
  {
    if tr != [] {
      var init, e, w := LastStep(tr);
      LatchMeans(init);
      if w.latched {
        var m :| 0 <= m < |init| && init[m].Latch?;
        assert tr[m].Latch?;
      } else if e.Latch? {
        assert tr[|tr| - 1].Latch?;
      }
    }
  }

  /** Failure isolation: once an exception was raised or a submit failed, the overlay is switched
      off before any frame is passed down and before any other present starts. */
  lemma FaultLatchesBeforeNextFrame(tr: seq<Event>, j: nat, k: nat)
    requires LegalRun(tr) && j < k < |tr| && IsFault(tr[j]) && (tr[k].Present? || tr[k].Enter?)
    ensures exists m :: 0 <= m < k && tr[m].Latch?
  {
    LegalPrefix(tr, k + 1);
    var pre := tr[..k];
    assert tr[..k + 1][..k] == pre;
    FaultMeans(pre, j);
    var m :| 0 <= m < |pre| && pre[m].Latch?;
    assert tr[m].Latch?;
  }

  predicate Succeeds(e: Event) {
    e.On? && e.op.Submit? && e.op.ok
  }

  /** An exception, a failed submit, or a fence reset that failed with nothing submitted in that present. */
  ghost predicate IsCause(tr: seq<Event>, j: int) {
    && 0 <= j < |tr|
    && (IsFault(tr[j])
        || (tr[j].On? && tr[j].op.Reset? && !tr[j].op.ok
            && forall m :: 0 <= m < j && Succeeds(tr[m]) ==> exists e :: m < e < j && tr[e].Enter?))
  }

  lemma {:induction false} NothingDrew(tr: seq<Event>)
    requires LegalRun(tr) && !Replay(tr).value.drew
    ensures forall m :: 0 <= m < |tr| && Succeeds(tr[m]) ==> exists e :: m < e < |tr| && tr[e].Enter?
  {
    if tr != [] {
      var init, last, w := LastStep(tr);
      hide Replay, AllowedOp, AfterOp;
      if last.Enter? {
        assert tr[|tr| - 1].Enter?;
      } else {
        NothingDrew(init);
        forall m | 0 <= m < |tr| && Succeeds(tr[m]) ensures exists e :: m < e < |tr| && tr[e].Enter? {
          var e :| m < e < |init| && init[e].Enter?;
          assert tr[e].Enter?;
        }
      }
    }
  }

  lemma CauseStays(init: seq<Event>, last: Event, j: int)
    requires IsCause(init, j)
    ensures IsCause(init + [last], j)
  {
    var tr := init + [last];
    forall m | 0 <= m < j && Succeeds(tr[m]) && !IsFault(tr[j]) ensures exists e :: m < e < j && tr[e].Enter? {
      var e :| m < e < j && init[e].Enter?;
      assert tr[e].Enter?;
    }
  }

  lemma {:induction false} FaultHasCause(tr: seq<Event>) returns (j: int)
    requires LegalRun(tr) && Replay(tr).value.fault
    ensures IsCause(tr, j)
  {
    var init, last, w := LastStep(tr);
    hide Replay, AllowedOp, AfterOp, IsCause;
    if w.fault {
      j := FaultHasCause(init);
      CauseStays(init, last, j);
    } else {
      j := |tr| - 1;
      CauseIsLast(init, last, w);
    }
  }

  lemma CauseIsLast(init: seq<Event>, last: Event, w: World)
    requires LegalRun(init) && Replay(init) == Some(w) && Allowed(w, last) && !w.fault && After(w, last).fault
    ensures IsCause(init + [last], |init|)
  {
    var tr := init + [last];
    if !IsFault(last) {
      NothingDrew(init);
      hide Replay, AllowedOp, AfterOp;
      forall m | 0 <= m < |init| && Succeeds(tr[m]) ensures exists e :: m < e < |init| && tr[e].Enter? {
        var e :| m < e < |init| && init[e].Enter?;
        assert tr[e].Enter?;
      }
    }
  }

  /** The overlay is not switched off without a cause. */
  lemma NoLatchWithoutCause(tr: seq<Event>, k: nat)
    requires LegalRun(tr) && k < |tr| && tr[k].Latch?
    ensures exists j :: IsCause(tr[..k], j)
  {
    LegalPrefix(tr, k + 1);
    assert tr[..k + 1][..k] == tr[..k];
    var j := FaultHasCause(tr[..k]);
  }

  function Presents(tr: seq<Event>): nat {
    if tr == [] then 0 else Presents(tr[..|tr| - 1]) + if tr[|tr| - 1].Present? then 1 else 0
  }

  function Enters(tr: seq<Event>): nat {
    if tr == [] then 0 else Enters(tr[..|tr| - 1]) + if tr[|tr| - 1].Enter? then 1 else 0
  }

  /** Every present of the application is passed down exactly once: the counts agree whenever no
      present is in progress, at every moment of the run. */
  lemma {:induction false} OnePresentDownPerEnter(tr: seq<Event>)
    requires LegalRun(tr)
    ensures Enters(tr) == Presents(tr) + if Replay(tr).value.open then 1 else 0
  {
    if tr != [] {
      var init, e, w := LastStep(tr);
      OnePresentDownPerEnter(init);
    }
  }

  // ---- semaphores of one present ------------------------------------------------------

  /** The queue operations that wait or signal semaphores. */
  datatype SyncOp = SubmitOp(waits: seq<Sem>, signal: Sem) | PresentOp(waits: seq<Sem>)

  function SyncOf(tr: seq<Event>): seq<SyncOp> {
    if tr == [] then []
    else SyncOf(tr[..|tr| - 1]) + OpOf(tr[|tr| - 1])
  }

  function OpOf(e: Event): seq<SyncOp> {
    match e
    case On(id, Submit(waits, true)) => [SubmitOp(waits, OverlayDone(id))]
    case Present(waits) => [PresentOp(waits)]
    case _ => []
  }

  lemma SyncSnoc(tr: seq<Event>, e: Event)
    ensures SyncOf(tr + [e]) == SyncOf(tr) + OpOf(e)
  {
    assert (tr + [e])[..|tr|] == tr;
  }

  /** The wait list of the k-th overlay submit: the application's, then the previous overlay-done. */
  function WaitsOf(app: seq<Sem>, ids: seq<ResId>, k: nat): seq<Sem>
    requires k < |ids|
  {
    if k == 0 then app else [OverlayDone(ids[k - 1])]
  }

  function Submits(app: seq<Sem>, ids: seq<ResId>): seq<SyncOp> {
    seq(|ids|, k requires 0 <= k < |ids| => SubmitOp(WaitsOf(app, ids, k), OverlayDone(ids[k])))
  }

  function DoneSems(ids: seq<ResId>): seq<Sem> {
    seq(|ids|, k requires 0 <= k < |ids| => OverlayDone(ids[k]))
  }

  /** One application present with overlay submits `ids`: untouched when there are none. */
  function PresentOps(app: seq<Sem>, ids: seq<ResId>): seq<SyncOp> {
    Submits(app, ids) + [PresentOp(if ids == [] then app else DoneSems(ids))]
  }

  predicate FromApp(app: seq<Sem>) {
    forall k :: 0 <= k < |app| ==> app[k].AppSem?
  }

  /** Op `j` waits for a semaphore that op `i` signals. */
  predicate Waits(ops: seq<SyncOp>, i: int, j: int) {
    0 <= i < j < |ops| && ops[i].SubmitOp? && ops[i].signal in ops[j].waits
  }

  /** Op `j` runs after op `i` through a chain of semaphores, of at most `n` links. */
  ghost predicate Ordered(ops: seq<SyncOp>, i: int, j: int, n: nat) {
    Waits(ops, i, j) || (n > 0 && exists m :: Waits(ops, m, j) && Ordered(ops, i, m, n - 1))
  }

  /** Every operation of a present runs after every earlier one: the present and the overlay submits after
      the one that waited for the application, and the present after each overlay submit that succeeded. */
  lemma {:induction false} OrderedAfterApp(app: seq<Sem>, ids: seq<ResId>, i: nat, k: nat)
    requires i < k < |PresentOps(app, ids)|
    ensures Ordered(PresentOps(app, ids), i, k, k - i)
  {
    var ops := PresentOps(app, ids);
    if k == i + 1 || k == |ids| {
      assert DoneSems(ids)[i] == ops[i].signal;
      assert k < |ids| ==> ops[k].waits == [OverlayDone(ids[i])];
      assert Waits(ops, i, k);
    } else {
      OrderedAfterApp(app, ids, i, k - 1);
      assert ops[k].waits == [OverlayDone(ids[k - 1])];
      assert Waits(ops, k - 1, k);
    }
  }

  /** The present itself waits for every overlay submit that succeeded, and never for nothing once one did. */
  lemma PresentAfterEverySubmit(app: seq<Sem>, ids: seq<ResId>, k: nat)
    requires k < |ids|
    ensures Waits(PresentOps(app, ids), k, |ids|)
    ensures PresentOps(app, ids)[|ids|].waits != []
  {
    assert DoneSems(ids)[k] == OverlayDone(ids[k]);
  }

  function CountIn(ss: seq<Sem>, s: Sem): nat {
    multiset(ss)[s]
  }

  /** How often a run of operations waits for `s`. */
  function WaitCount(ops: seq<SyncOp>, s: Sem): nat {
    if ops == [] then 0 else WaitCount(ops[..|ops| - 1], s) + CountIn(ops[|ops| - 1].waits, s)
  }

  /** The rule for binary semaphores, applied to the overlay's own: one wait for each signal. */
  ghost predicate OverlaySemsWaitedOnce(app: seq<Sem>, ids: seq<ResId>) {
    forall k :: 0 <= k < |ids| ==> WaitCount(PresentOps(app, ids), OverlayDone(ids[k])) == 1
  }

  lemma {:induction false} WaitCountAt(ops: seq<SyncOp>, k: nat, s: Sem)
    requires k < |ops|
    ensures WaitCount(ops, s) >= CountIn(ops[k].waits, s)
    ensures WaitCount(ops, s) == WaitCount(ops[..k] + ops[k + 1..], s) + CountIn(ops[k].waits, s)
  {
    var init, last := ops[..|ops| - 1], ops[|ops| - 1];
    if k == |ops| - 1 {
      assert ops[k + 1..] == [] && ops[..k] + ops[k + 1..] == init;
    } else {
      WaitCountAt(init, k, s);
      var shorter := init[..k] + init[k + 1..];
      assert init[..k] == ops[..k] && init[k + 1..] + [last] == ops[k + 1..];
      assert ops[..k] + ops[k + 1..] == shorter + [last];
      assert (shorter + [last])[..|shorter|] == shorter;
    }
  }

  lemma CountPositive(ss: seq<Sem>, k: nat)
    requires k < |ss|
    ensures CountIn(ss, ss[k]) >= 1
  {
    assert ss[k] in ss;
    assert ss[k] in multiset(ss);
  }

  lemma {:induction false} NeverWaited(ops: seq<SyncOp>, s: Sem)
    requires forall k :: 0 <= k < |ops| ==> s !in ops[k].waits
    ensures WaitCount(ops, s) == 0
  {
    if ops != [] { NeverWaited(ops[..|ops| - 1], s); }
  }

  /** Over a whole present the application's semaphores are waited exactly as often as it asked, all by the first
      operation, which is the first overlay submit or the forwarded present itself. */
  lemma AppWaitedByOneOperation(app: seq<Sem>, ids: seq<ResId>, s: Sem)
    requires FromApp(app) && s.AppSem?
    ensures WaitCount(PresentOps(app, ids), s) == CountIn(app, s) && PresentOps(app, ids)[0].waits == app
  {
    var ops := PresentOps(app, ids);
    assert ops[0].waits == app;
    OnlyFirstWaits(app, ids, s);
    hide PresentOps, FromApp;
    FirstWaits(ops, s);
  }

  lemma FirstWaits(ops: seq<SyncOp>, s: Sem)
    requires ops != [] && forall k :: 0 < k < |ops| ==> s !in ops[k].waits
    ensures WaitCount(ops, s) == CountIn(ops[0].waits, s)
  {
    WaitCountAt(ops, 0, s);
    assert ops[..0] + ops[1..] == ops[1..];
    NeverWaited(ops[1..], s);
  }

  lemma OnlyFirstWaits(app: seq<Sem>, ids: seq<ResId>, s: Sem)
    requires s.AppSem?
    ensures forall k :: 0 < k < |PresentOps(app, ids)| ==> s !in PresentOps(app, ids)[k].waits
  {
  }

  /** The chain keeps that rule exactly when at most one submit succeeded: with two, the first
      overlay-done is waited by the second submit and again by the present. */
  lemma WaitedOnceExactlyWhenOneSubmitted(app: seq<Sem>, ids: seq<ResId>)
    requires FromApp(app)
    ensures OverlaySemsWaitedOnce(app, ids) <==> |ids| <= 1
  {
    var ops := PresentOps(app, ids);
    if |ids| == 1 {
      var s := OverlayDone(ids[0]);
      assert ops == [SubmitOp(app, s), PresentOp([s])] by { assert DoneSems(ids) == [s]; }
      assert ops[..1] == [SubmitOp(app, s)] && ops[..1][..0] == [];
      assert CountIn(app, s) == 0;
      assert WaitCount(ops[..1], s) == 0;
      assert WaitCount(ops, s) == 1;
    } else if |ids| >= 2 {
      var s := OverlayDone(ids[0]);
      assert ops[1].waits == [s];
      WaitCountAt(ops, |ids|, s);
      CountPositive(DoneSems(ids), 0);
      var rest := ops[..|ids|] + ops[|ids| + 1..];
      assert rest[1] == ops[1];
      WaitCountAt(rest, 1, s);
      assert WaitCount(ops, s) >= 2;
    }
  }
}
