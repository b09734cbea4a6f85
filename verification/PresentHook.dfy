/** The present hook of the overlay layer: per-image fences and flags, the swapchain table, the
    failure latch, and the UI renderer's frame flag.  Every driver call is an event of
    `Vulkan.Event`; results of foreign calls are nondeterministic, and the GPU and the state
    client's thread may act before each of them. */
module PresentHook {
  import opened Common
  import opened Vulkan

  type Handle = nat
  type Queue = nat

  const UNKNOWN_FAMILY: nat := 0xFFFF_FFFF

  class ImageState {
    const id: ResId
    ghost const home: Handle
    var fenceInFlight: bool

    constructor (id: ResId, ghost home: Handle)
      ensures this.id == id && this.home == home && !fenceInFlight
    {
      this.id, this.home, this.fenceInFlight := id, home, false;
    }
  }

  class ImguiRenderer {
    ghost const home: Handle
    var initDone: bool
    var frameStarted: bool
    var vertices: nat

    constructor (ghost home: Handle)
      ensures this.home == home && !initDone && !frameStarted
    {
      this.home, initDone, frameStarted, vertices := home, false, false, 0;
    }

    method Init() returns (ok: bool)
      modifies this
      ensures ok == initDone && frameStarted == old(frameStarted)
    {
      if initDone { return true; }
      ok := *;
      initDone := ok;
    }

    /** Builds the frame; `draw_overlay` draws nothing out of voice.  May throw, and then no frame is open. */
    method BeginFrame(inVoice: bool) returns (threw: bool)
      requires initDone && !frameStarted
      modifies this
      ensures initDone && frameStarted == !threw
      ensures !threw && vertices > 0 ==> inVoice
    {
      threw := *;
      if threw { return; }
      vertices := 0;
      if inVoice { vertices := *; }
      frameStarted := true;
    }

    predicate FrameHasContent()
      reads this
    {
      initDone && frameStarted && vertices > 0
    }

    /** Closes the frame, recording it when `record`.  Only recording can throw, and then the frame stays open. */
    method EndFrame(record: bool) returns (threw: bool)
      modifies this
      ensures initDone == old(initDone) && vertices == old(vertices)
      ensures threw ==> record && old(initDone && frameStarted)
      ensures frameStarted == if threw || !initDone then old(frameStarted) else false
    {
      threw := false;
      if !initDone || !frameStarted { return; }
      if record {
        threw := *;
        if threw { return; }
      }
      frameStarted := false;
    }

    method Shutdown()
      modifies this
      ensures !initDone && frameStarted == (old(frameStarted) && !old(initDone))
    {
      if initDone && frameStarted { frameStarted := false; }
      initDone := false;
    }
  }

  /** `ok` gates drawing; a swapchain whose overlay objects could not be built stays tracked with `ok` false. */
  datatype SwapchainState = SwapchainState(
    ok: bool, images: seq<ImageState>, imgui: ImguiRenderer?, imguiTried: bool)

  datatype RecordResult = Drawn | Skipped | Failed | Threw

  /** What one image's flag promises about the GPU: a pending submit is always flagged, a flagged
      fence is carried by a submit, and no recording is left open. */
  predicate Healthy(r: Res, inFlight: bool) {
    && (r.pending ==> inFlight)
    && (inFlight ==> r.submitted)
    && r.cmd !in {Recording, InPass}
  }

  /** Recorded this frame and not submitted yet. */
  predicate ReadyToSubmit(r: Res) {
    r.cmd == Executable && r.drawn && !r.pending
  }

  /** What the GPU and the state client's thread can do to the world between two calls of the layer. */
  ghost predicate Tick(w: World, w': World) {
    && w'.res.Keys == w.res.Keys
    && (forall id :: id in w.res ==> TickRes(w.res[id], w'.res[id]))
    && TickFlags(w, w')
  }

  predicate TickRes(r: Res, r': Res) {
    r' == r || (r.pending && r' == Finished(r))
  }

  predicate TickFlags(w: World, w': World) {
    && w'.latched == w.latched && w'.quiet == w.quiet && w'.open == w.open
    && w'.drew == w.drew && w'.fault == w.fault && w'.slip == w.slip
    && Later(w, w') && (w.voiceSeen ==> w'.voiceSeen) && w'.lacking == w.lacking
  }

  predicate Alike(w: World, w': World) {
    w'.open == w.open && w'.fault == w.fault && w'.lacking == w.lacking
  }

  /** The same, but that `lacking` is not forgotten. */
  predicate Making(w: World, w': World) {
    w'.open == w.open && w'.fault == w.fault && (w.lacking ==> w'.lacking)
  }

  /** What cannot be undone while a present lasts. */
  predicate Later(w: World, w': World) {
    (w.disabled ==> w'.disabled) && (w.idle ==> w'.idle)
  }

  /** Nothing changed but the latch and the fault. */
  predicate SameBut(w: World, w': World) {
    && w'.res == w.res && w'.quiet == w.quiet && w'.voiceSeen == w.voiceSeen && Later(w, w')
    && w'.open == w.open && w'.drew == w.drew
  }

  /** The same present a little later: what it has seen and what has gone wrong stays so. */
  predicate Onward(w: World, w': World) {
    && w'.open == w.open && w'.quiet == w.quiet && w'.drew == w.drew
    && (w.voiceSeen ==> w'.voiceSeen) && (w.slip ==> w'.slip)
  }

  /** Like `Tick`, with the objects of `id` left to a separate statement. */
  ghost predicate TickBut(res: map<ResId, Res>, res': map<ResId, Res>, id: ResId) {
    && res'.Keys == res.Keys
    && (forall i :: i in res && i != id ==> TickRes(res[i], res'[i]))
  }

  ghost predicate HealthyAll(res: map<ResId, Res>, flags: map<ResId, bool>) {
    forall id :: id in flags ==> id in res && Healthy(res[id], flags[id])
  }

  ghost predicate HealthyBut(res: map<ResId, Res>, flags: map<ResId, bool>, id: ResId) {
    forall i :: i in flags && i != id ==> i in res && Healthy(res[i], flags[i])
  }

  /** The other images are healthy, and only time has passed for them since `base`. */
  ghost predicate OthersOk(base: map<ResId, Res>, res: map<ResId, Res>, flags: map<ResId, bool>, id: ResId) {
    id in res && TickBut(base, res, id) && HealthyBut(res, flags, id)
  }

  lemma TickHealthy(w0: World, w1: World, flags: map<ResId, bool>)
    requires Tick(w0, w1) && HealthyAll(w0.res, flags)
    ensures HealthyAll(w1.res, flags)
  {
  }

  /** The steps of the rest of the system let time pass, and no more. */
  lemma OutsideIsTick(w: World, e: Event)
    requires Allowed(w, e) && (e.HostSnapshot? || e.HostDisable? || (e.On? && e.op.Complete?))
    ensures Tick(w, After(w, e))
  {
    if e.On? { assert After(w, e).res == w.res[e.id := Finished(w.res[e.id])]; }
  }

  /** Time passes on and on, and what cannot be undone stays. */
  lemma TickTrans(w0: World, w1: World, w2: World)
    requires Tick(w0, w1) && Tick(w1, w2)
    ensures Tick(w0, w2) && w0.open == w1.open == w2.open && Later(w0, w1) && Later(w1, w2)
  {
    forall id | id in w0.res ensures TickRes(w0.res[id], w2.res[id]) {
      assert TickRes(w0.res[id], w1.res[id]) && TickRes(w1.res[id], w2.res[id]);
    }
  }

  lemma TickSame(w: World)
    ensures Tick(w, w)
  {
  }

  lemma SetAside(res: map<ResId, Res>, flags: map<ResId, bool>, id: ResId)
    requires HealthyAll(res, flags) && id in flags
    ensures OthersOk(res, res, flags, id) && Healthy(res[id], flags[id])
  {
  }

  lemma OwnFlag(base: map<ResId, Res>, res: map<ResId, Res>, flags: map<ResId, bool>, id: ResId, flag: bool)
    requires OthersOk(base, res, flags, id)
    ensures OthersOk(base, res, flags[id := flag], id)
  {
  }

  lemma PutBack(base: map<ResId, Res>, res: map<ResId, Res>, flags: map<ResId, bool>, id: ResId)
    requires OthersOk(base, res, flags, id) && id in flags && Healthy(res[id], flags[id])
    ensures HealthyAll(res, flags) && TickBut(base, res, id)
  {
  }

  lemma FreeHealthy(res: map<ResId, Res>, flags: map<ResId, bool>, id: ResId)
    requires HealthyAll(res, flags)
    ensures HealthyAll(res - {id}, flags - {id})
  {
  }

  lemma AllocHealthy(res: map<ResId, Res>, flags: map<ResId, bool>, id: ResId)
    requires HealthyAll(res, flags)
    ensures HealthyAll(res[id := NEW_RES], flags[id := false])
  {
  }

  lemma TickOthers(base: map<ResId, Res>, w0: World, w1: World, flags: map<ResId, bool>, id: ResId)
    requires OthersOk(base, w0.res, flags, id) && Tick(w0, w1)
    ensures OthersOk(base, w1.res, flags, id)
  {
  }

  lemma TickThenBut(w0: World, w1: World, res: map<ResId, Res>, id: ResId)
    requires Tick(w0, w1) && TickBut(w1.res, res, id)
    ensures TickBut(w0.res, res, id)
  {
    forall i | i in w0.res && i != id ensures TickRes(w0.res[i], res[i]) {
      assert TickRes(w0.res[i], w1.res[i]) && TickRes(w1.res[i], res[i]);
    }
  }

  lemma StepOthers(base: map<ResId, Res>, w: World, flags: map<ResId, bool>, id: ResId, op: Op)
    requires OthersOk(base, w.res, flags, id) && Allowed(w, On(id, op))
    ensures OthersOk(base, After(w, On(id, op)).res, flags, id)
  {
  }

  lemma OthersIn(base: map<ResId, Res>, res: map<ResId, Res>, flags: map<ResId, bool>, id: ResId)
    requires OthersOk(base, res, flags, id)
    ensures id in res
  {
  }

  lemma WaitedDown(r0: Res, r1: Res)
    requires TickRes(r0, r1) && r0.submitted && r0.cmd !in {Recording, InPass}
    ensures AllowedOp(r1, TeardownWait)
    ensures var r := AfterOp(r1, TeardownWait); !r.pending && r.cmd !in {Recording, InPass}
  {
  }

  lemma WaitedRes(r0: Res, r1: Res, ok: bool)
    requires TickRes(r0, r1) && r0.submitted
    ensures AllowedOp(r1, Wait(ok)) && TickRes(r0, AfterOp(r1, Wait(ok))) && (ok ==> !AfterOp(r1, Wait(ok)).pending)
  {
  }

  /** A driver call on objects the GPU is not using stays allowed, with the same effect, as time passes. */
  lemma TickDrive(w0: World, w1: World, id: ResId, op: Op)
    requires Tick(w0, w1) && Allowed(w0, On(id, op)) && !w0.res[id].pending && !op.Complete?
    ensures Allowed(w1, On(id, op)) && w1.res[id] == w0.res[id]
  {
  }

  predicate DistinctSwapchains(presents: seq<(Handle, nat)>) {
    forall i, j :: 0 <= i < j < |presents| ==> presents[i].0 != presents[j].0
  }

  predicate Distinct(ids: seq<ResId>) {
    forall j, k :: 0 <= j < k < |ids| ==> ids[j] != ids[k]
  }

  /** One of the first `n` swapchains of a present. */
  predicate IsAmong(presents: seq<(Handle, nat)>, n: nat, h: Handle)
    requires n <= |presents|
  {
    exists j :: 0 <= j < n && presents[j].0 == h
  }

  predicate Apart(images: seq<ImageState>) {
    forall i, j :: 0 <= i < j < |images| ==> images[i].id != images[j].id
  }

  /** `ids` names the first of `images`. */
  predicate Leads(ids: seq<ResId>, images: seq<ImageState>) {
    |ids| <= |images| && forall k :: 0 <= k < |ids| ==> ids[k] == images[k].id
  }

  lemma LeadsMeans(ids: seq<ResId>, images: seq<ImageState>, all: seq<ResId>)
    requires Leads(ids, images) && Apart(images) && Names(all, images)
    ensures Distinct(ids) && |ids| <= |images| && (|ids| == |images| ==> ids == all)
  {
  }

  predicate Names(ids: seq<ResId>, images: seq<ImageState>) {
    |ids| == |images| && forall k :: 0 <= k < |ids| ==> ids[k] == images[k].id
  }

  lemma SameImagesTrans(a: map<Handle, SwapchainState>, b: map<Handle, SwapchainState>, c: map<Handle, SwapchainState>)
    ensures SameImages(a, b) && SameImages(b, c) ==> SameImages(a, c)
  {
  }

  ghost predicate HandledIn(table: map<Handle, SwapchainState>, off: bool, blanks: set<Handle>,
                            presents: seq<(Handle, nat)>, n: nat, drawn: seq<ResId>)
    requires n <= |presents|
  {
    forall j :: 0 <= j < n ==> IsHandled(table, off, blanks, presents[j], drawn)
  }

  /** A call failed, or some presented swapchain cannot be drawn to, or all are handled. */
  ghost predicate ExplainedIn(slip: bool, table: map<Handle, SwapchainState>, off: bool, blanks: set<Handle>,
                              presents: seq<(Handle, nat)>, ids: seq<ResId>) {
    || slip
    || (exists j :: 0 <= j < |presents| && !IsDrawable(table, presents[j].0, presents[j].1))
    || HandledIn(table, off, blanks, presents, |presents|, ids)
  }

  lemma ExplainedStays(slip: bool, table: map<Handle, SwapchainState>, off: bool, blanks: set<Handle>,
                       presents: seq<(Handle, nat)>, ids: seq<ResId>, slip': bool, off': bool)
    requires (slip ==> slip') && (off ==> off')
    ensures ExplainedIn(slip, table, off, blanks, presents, ids) ==> ExplainedIn(slip', table, off', blanks, presents, ids)
  {
    if HandledIn(table, off, blanks, presents, |presents|, ids) {
      forall j | 0 <= j < |presents| ensures IsHandled(table, off', blanks, presents[j], ids) {
        assert IsHandled(table, off, blanks, presents[j], ids);
      }
    }
  }

  /** Submitting all that was drawn, or failing, explains what a present leaves out. */
  lemma SubmittedExplains(table: map<Handle, SwapchainState>, off: bool, blanks: set<Handle>, presents: seq<(Handle, nat)>,
                          drawn: seq<ResId>, all: bool, ids: seq<ResId>, slip: bool, off': bool)
    requires HandledIn(table, off, blanks, presents, |presents|, drawn)
    requires (off ==> off') && if all then ids == drawn else slip
    ensures ExplainedIn(slip, table, off', blanks, presents, ids)
  {
    ExplainedStays(false, table, off, blanks, presents, drawn, slip, off');
  }

  ghost predicate IsHandled(table: map<Handle, SwapchainState>, off: bool, blanks: set<Handle>,
                            present: (Handle, nat), drawn: seq<ResId>) {
    && IsDrawable(table, present.0, present.1)
    && (off || present.0 in blanks || table[present.0].images[present.1].id in drawn)
  }

  /** The swapchain has overlay objects for this image. */
  predicate IsDrawable(table: map<Handle, SwapchainState>, h: Handle, imageIndex: nat) {
    h in table && table[h].ok && imageIndex < |table[h].images|
  }

  /** The swapchains keep their images; only their renderers come and go. */
  predicate SameImages(a: map<Handle, SwapchainState>, b: map<Handle, SwapchainState>) {
    a.Keys == b.Keys && forall h :: h in a ==> a[h].images == b[h].images && a[h].ok == b[h].ok
  }

  lemma HandledGrows(table: map<Handle, SwapchainState>, off: bool, blanks: set<Handle>,
                     table': map<Handle, SwapchainState>, off': bool, blanks': set<Handle>,
                     presents: seq<(Handle, nat)>, n: nat, drawn: seq<ResId>, drawn': seq<ResId>)
    requires n < |presents| && HandledIn(table, off, blanks, presents, n, drawn) && DistinctSwapchains(presents)
    requires SameImages(table', table) && (off ==> off') && blanks - {presents[n].0} <= blanks' && drawn <= drawn'
    requires IsHandled(table', off', blanks', presents[n], drawn')
    ensures HandledIn(table', off', blanks', presents, n + 1, drawn')
  {
    forall j | 0 <= j < n ensures IsHandled(table', off', blanks', presents[j], drawn') {
      assert IsHandled(table, off, blanks, presents[j], drawn);
      assert presents[j].0 != presents[n].0;
      assert forall x :: x in drawn ==> x in drawn';
    }
  }

  /** The images from `k` on are recorded and still to be submitted. */
  ghost predicate AreReady(recorded: seq<ImageState>, k: nat, res: map<ResId, Res>) {
    forall j :: k <= j < |recorded| ==> recorded[j].id in res && ReadyToSubmit(res[recorded[j].id])
  }

  lemma HeadReady(recorded: seq<ImageState>, k: nat, res: map<ResId, Res>)
    requires k < |recorded| && AreReady(recorded, k, res)
    ensures recorded[k].id in res && ReadyToSubmit(res[recorded[k].id])
  {
  }

  lemma StillReady(recorded: seq<ImageState>, k: nat, before: map<ResId, Res>, after: map<ResId, Res>)
    requires k < |recorded| && TickBut(before, after, recorded[k].id) && AreReady(recorded, k, before)
    requires forall i, j :: 0 <= i < j < |recorded| ==> recorded[i].id != recorded[j].id
    ensures AreReady(recorded, k + 1, after)
  {
    forall j | k + 1 <= j < |recorded|
      ensures recorded[j].id in after && ReadyToSubmit(after[recorded[j].id])
    {
      assert TickRes(before[recorded[j].id], after[recorded[j].id]);
    }
  }

  /** The images recorded so far are ready, of different swapchains of the present, and named by `drawn`. */
  ghost predicate GatheredIn(imgs: set<ImageState>, w: World, presents: seq<(Handle, nat)>, n: nat,
                             recorded: seq<ImageState>, drawn: seq<ResId>)
    requires n <= |presents|
  {
    && (forall k :: 0 <= k < |recorded| ==>
          recorded[k] in imgs && recorded[k].id in w.res && ReadyToSubmit(w.res[recorded[k].id]))
    && (forall j, k :: 0 <= j < k < |recorded| ==> recorded[j].home != recorded[k].home)
    && Names(drawn, recorded) && |recorded| <= n
    && (forall k :: 0 <= k < |recorded| ==> IsAmong(presents, n, recorded[k].home))
    && (recorded != [] ==> MayWork(w))
  }

  lemma SubmitsSnoc(before: seq<SyncOp>, app: seq<Sem>, ids: seq<ResId>, id: ResId, waits: seq<Sem>)
    requires waits == if ids == [] then app else [OverlayDone(ids[|ids| - 1])]
    ensures before + Submits(app, ids) + [SubmitOp(waits, OverlayDone(id))] == before + Submits(app, ids + [id])
  {
    assert Submits(app, ids + [id]) == Submits(app, ids) + [SubmitOp(waits, OverlayDone(id))];
  }

  lemma PresentOpsAre(before: seq<SyncOp>, app: seq<Sem>, ids: seq<ResId>)
    ensures before + Submits(app, ids) + [PresentOp(if ids == [] then app else DoneSems(ids))] == before + PresentOps(app, ids)
    ensures before + Submits(app, []) == before && before + [PresentOp(app)] == before + PresentOps(app, [])
  {
  }

  lemma DoneSnoc(ids: seq<ResId>, id: ResId)
    ensures DoneSems(ids + [id]) == DoneSems(ids) + [OverlayDone(id)]
  {
  }

  /** The family listed for a queue, where it is listed first; none is the unknown family. */
  predicate BelongsTo(queues: seq<(Queue, nat)>, queue: Queue, family: nat) {
    || (exists i :: 0 <= i < |queues| && queues[i] == (queue, family) && forall j :: 0 <= j < i ==> queues[j].0 != queue)
    || (family == 0xFFFF_FFFF && forall i :: 0 <= i < |queues| ==> queues[i].0 != queue)
  }

  lemma {:induction false} FamilyIs(queues: seq<(Queue, nat)>, queue: Queue)
    ensures forall family :: BelongsTo(queues, queue, family) <==> family == FamilyOf(queues, queue)
  {
    if queues != [] && queues[0].0 != queue {
      var rest := queues[1..];
      FamilyIs(rest, queue);
      forall family ensures BelongsTo(queues, queue, family) <==> BelongsTo(rest, queue, family) {
        BelongsToRest(queues, queue, family);
      }
    }
  }

  lemma BelongsToRest(queues: seq<(Queue, nat)>, queue: Queue, family: nat)
    requires queues != [] && queues[0].0 != queue
    ensures BelongsTo(queues, queue, family) <==> BelongsTo(queues[1..], queue, family)
  {
    var rest := queues[1..];
    assert forall i :: 0 <= i < |rest| ==> rest[i] == queues[i + 1];
    if i :| 0 <= i < |rest| && rest[i] == (queue, family) && forall j :: 0 <= j < i ==> rest[j].0 != queue {
      assert queues[i + 1] == (queue, family);
      forall j | 0 <= j < i + 1 ensures queues[j].0 != queue { if j > 0 { assert queues[j] == rest[j - 1]; } }
    }
    if i :| 0 <= i < |queues| && queues[i] == (queue, family) && forall j :: 0 <= j < i ==> queues[j].0 != queue {
      assert rest[i - 1] == (queue, family);
    }
    if forall i :: 0 <= i < |rest| ==> rest[i].0 != queue {
      forall i | 0 <= i < |queues| ensures queues[i].0 != queue { if i > 0 { assert queues[i] == rest[i - 1]; } }
    }
  }

  function FamilyOf(queues: seq<(Queue, nat)>, queue: Queue): nat {
    if queues == [] then UNKNOWN_FAMILY
    else if queues[0].0 == queue then queues[0].1
    else FamilyOf(queues[1..], queue)
  }

  method QueueFamilyFor(queues: seq<(Queue, nat)>, queue: Queue) returns (family: nat)
    ensures family == FamilyOf(queues, queue) && BelongsTo(queues, queue, family)
  {
    FamilyIs(queues, queue);
    for i := 0 to |queues|
      invariant FamilyOf(queues, queue) == FamilyOf(queues[i..], queue)
    {
      if queues[i].0 == queue { return queues[i].1; }
      assert queues[i..][1..] == queues[i + 1..];
    }
    return UNKNOWN_FAMILY;
  }

  class Layer {
    // fixed when the device is created
    const deviceOff: bool                        // DISABLE_CHOIR_OVERLAY
    const hasGraphics: bool
    const graphicsFamily: nat
    const queueFamilies: seq<(Queue, nat)>
    // the device latch and the swapchain table
    var overlayFailed: bool
    var swapchains: map<Handle, SwapchainState>
    var nextId: ResId
    // published by the state client's thread
    var latest: Option<bool>                     // the newest snapshot's in_voice
    var disabled: bool
    // what has happened so far, and the state it leads to
    ghost var trace: seq<Event>
    ghost var world: World
    ghost var imgs: set<ImageState>
    ghost var flags: map<ResId, bool>            // the images' fence_in_flight, by id
    ghost var uis: set<ImguiRenderer>

    ghost predicate Sound()
      reads this`trace, this`world, this`overlayFailed, this`disabled, this`latest
    {
      && Replay(trace) == Some(world)
      && world.latched == overlayFailed
      && world.disabled == disabled
      && world.voice == (latest == Some(true))
      && (world.open && world.voice ==> world.voiceSeen)
      && (world.open && (world.disabled || !world.voice) ==> world.idle)
    }

    ghost predicate Mirror()
      reads this`imgs, this`flags, imgs
    {
      && (forall im :: im in imgs ==> im.id in flags && flags[im.id] == im.fenceInFlight)
      && (forall i, j :: i in imgs && j in imgs && i != j ==> i.id != j.id)
    }

    ghost predicate TracksImages(h: Handle, images: seq<ImageState>)
      reads this`imgs
    {
      && (forall k :: 0 <= k < |images| ==> images[k] in imgs && images[k].home == h)
      && (forall j, k :: 0 <= j < k < |images| ==> images[j] != images[k])
    }

    ghost predicate Table()
      reads this`imgs, this`swapchains
    {
      forall h :: h in swapchains ==> TracksImages(h, swapchains[h].images)
    }

    ghost predicate Renderers()
      reads this`uis, this`swapchains
    {
      forall h :: h in swapchains && swapchains[h].imgui != null ==>
        swapchains[h].imgui in uis && swapchains[h].imgui.home == h
    }

    ghost predicate Fresh(res: map<ResId, Res>)
      reads this`nextId
    {
      forall id :: id in res ==> id < nextId
    }

    /** Everything but the frame flags. */
    ghost predicate Base()
      reads this, imgs
    {
      && Sound() && Table() && Renderers() && Mirror() && Fresh(world.res)
      && HealthyAll(world.res, flags)
    }

    /** What went wrong has switched the overlay off. */
    ghost predicate Settled()
      reads this`world, this`overlayFailed
    {
      world.fault ==> overlayFailed
    }

    /** A UI frame is open only in a renderer that threw, and that switched the overlay off. */
    ghost predicate FramesClosed()
      reads this`uis, this`overlayFailed, uis
    {
      forall ui :: ui in uis && ui.frameStarted ==> ui.initDone && overlayFailed
    }

    /** Everything is in order, but for an exception on its way to a catch-all. */
    ghost predicate Standing(threw: bool)
      reads this, imgs, uis
    {
      Base() && FramesClosed() && if threw then world.fault && world.slip else Settled()
    }

    ghost predicate Valid()
      reads this, imgs, uis
    {
      Standing(false)
    }

    constructor (deviceOff: bool, hasGraphics: bool, graphicsFamily: nat, queueFamilies: seq<(Queue, nat)>)
      ensures Valid() && trace == [] && swapchains == map[] && !overlayFailed && !disabled
      ensures fresh(imgs) && fresh(uis)
    {
      this.deviceOff, this.hasGraphics := deviceOff, hasGraphics;
      this.graphicsFamily, this.queueFamilies := graphicsFamily, queueFamilies;
      overlayFailed, swapchains, nextId, latest, disabled := false, map[], 0, None, false;
      trace, world, imgs, uis, flags := [], INITIAL, {}, {}, map[];
    }

    ghost method Emit(e: Event)
      requires Replay(trace) == Some(world) && Allowed(world, e)
      modifies this`trace, this`world
      ensures Replay(trace) == Some(world) && world == After(old(world), e)
      ensures trace == old(trace) + [e] && SyncOf(trace) == old(SyncOf(trace)) + OpOf(e)
    {
      ReplaySnoc(trace, e);
      SyncSnoc(trace, e);
      world := After(world, e);
      trace := trace + [e];
    }

    /** The rest of the system runs: submits finish, the host publishes snapshots or disables the process. */
    method Environment()
      requires Sound()
      modifies this`trace, this`world, this`latest, this`disabled
      ensures Sound() && Tick(old(world), world) && SyncOf(trace) == old(SyncOf(trace))
    {
      hide Replay, SyncOf;
      var steps :| 0 <= steps;
      for i := 0 to steps
        invariant Sound() && Tick(old(world), world) && SyncOf(trace) == old(SyncOf(trace))
      {
        EnvironmentStep();
      }
    }

    method EnvironmentStep()
      requires Sound()
      modifies this`trace, this`world, this`latest, this`disabled
      ensures Sound() && Tick(old(world), world) && SyncOf(trace) == old(SyncOf(trace))
    {
      TickSame(world);
      hide Replay, SyncOf, Tick, Finished, AfterOp, AllowedOp;
      if {
        case true =>
          ghost var id: ResId := *;
          if Allowed(world, On(id, Complete)) {
            OutsideIsTick(world, On(id, Complete));
            Emit(On(id, Complete));
          }
        case true =>
          var inVoice: bool := *;
          latest := Some(inVoice);
          OutsideIsTick(world, HostSnapshot(inVoice));
          Emit(HostSnapshot(inVoice));
        case true =>
          disabled := true;
          OutsideIsTick(world, HostDisable);
          Emit(HostDisable);
      }
    }

    /** The rest of the system runs before a call on one image's objects. */
    method Settle(img: ImageState, ghost base: map<ResId, Res>)
      requires Sound() && OthersOk(base, world.res, flags, img.id)
      modifies this`trace, this`world, this`latest, this`disabled
      ensures Sound() && OthersOk(base, world.res, flags, img.id) && Tick(old(world), world)
      ensures SyncOf(trace) == old(SyncOf(trace)) && Later(old(world), world)
    {
      hide Replay, SyncOf, OthersOk, TickRes;
      ghost var w0 := world;
      Environment();
      hide Tick;
      TickOthers(base, w0, world, flags, img.id);
    }

    /** The call itself. */
    ghost method EmitOn(img: ImageState, op: Op, base: map<ResId, Res>)
      requires Sound() && OthersOk(base, world.res, flags, img.id) && Allowed(world, On(img.id, op))
      modifies this`trace, this`world
      ensures Sound() && OthersOk(base, world.res, flags, img.id) && world == After(old(world), On(img.id, op))
      ensures SyncOf(trace) == old(SyncOf(trace)) + OpOf(On(img.id, op))
    {
      hide Replay, SyncOf, OthersOk, AllowedOp, AfterOp;
      StepOthers(base, world, flags, img.id, op);
      Emit(On(img.id, op));
    }

    /** In the middle of drawing one image, in a present allowed to. */
    ghost predicate Working(img: ImageState, base: World)
      reads this, imgs
    {
      && Sound() && Table() && Renderers() && Mirror() && Fresh(world.res) && img in imgs
      && OthersOk(base.res, world.res, flags, img.id)
      && world.open && !overlayFailed && MayWork(world) && world.drew == base.drew
    }

    /** A call on one image's objects, which the GPU is not using. */
    method Drive(img: ImageState, op: Op, ghost base: World)
      requires Working(img, base) && IsWork(op) && !op.Submit? && !op.Reset?
      requires AllowedOp(world.res[img.id], op) && !world.res[img.id].pending
      modifies this`trace, this`world, this`latest, this`disabled
      ensures Working(img, base)
      ensures world.res[img.id] == AfterOp(old(world).res[img.id], op)
      ensures SyncOf(trace) == old(SyncOf(trace)) && Later(old(world), world)
      ensures world.slip == (old(world).slip || Fails(op)) && world.fault == old(world).fault
    {
      hide Replay, SyncOf, AllowedOp, AfterOp, Table, Renderers, Mirror, OthersOk, Sound, Fails;
      OthersIn(base.res, world.res, flags, img.id);
      ghost var w0 := world;
      Settle(img, base.res);
      TickDrive(w0, world, img.id, op);
      hide TickRes;
      EmitOn(img, op, base.res);
    }

    /** vkWaitForFences with no timeout, from a present. */
    method WaitForFence(img: ImageState, ghost base: World) returns (ok: bool)
      requires Working(img, base) && world.res[img.id].submitted
      modifies this`trace, this`world, this`latest, this`disabled
      ensures Working(img, base)
      ensures TickRes(old(world).res[img.id], world.res[img.id])
      ensures SyncOf(trace) == old(SyncOf(trace)) && Later(old(world), world)
      ensures ok ==> !world.res[img.id].pending
      ensures world.slip == (old(world).slip || !ok) && world.fault == old(world).fault
    {
      hide Replay, SyncOf, Table, Renderers, Mirror, OthersOk, Sound;
      OthersIn(base.res, world.res, flags, img.id);
      ghost var r0 := world.res[img.id];
      Settle(img, base.res);
      ok := *;
      WaitedRes(r0, world.res[img.id], ok);
      hide TickRes, AfterOp, AllowedOp;
      EmitOn(img, Wait(ok), base.res);
    }

    method MarkOverlayFailed()
      requires Sound() && world.fault
      modifies this`trace, this`world, this`overlayFailed
      ensures Sound() && overlayFailed && SameBut(old(world), world) && world.fault == old(world).fault
      ensures world.slip == old(world).slip
      ensures old(FramesClosed()) ==> FramesClosed()
      ensures SyncOf(trace) == old(SyncOf(trace))
    {
      hide Replay, SyncOf;
      overlayFailed := true;
      Emit(Latch);
    }

    /** In the middle of a present that may still use the overlay. */
    ghost predicate Presenting()
      reads this`world, this`overlayFailed
    {
      world.open && !overlayFailed && (world.quiet ==> world.disabled)
    }

    /** First in-voice present of a swapchain: create its renderer, once. */
    method LazyInit(h: Handle) returns (threw: bool)
      requires Sound() && Table() && Renderers() && FramesClosed() && h in swapchains && MayWork(world)
      modifies this`trace, this`world, this`uis, this`swapchains
      ensures Sound() && Table() && Renderers() && FramesClosed() && SameImages(swapchains, old(swapchains))
      ensures fresh(uis - old(uis)) && SameBut(old(world), world) && SyncOf(trace) == old(SyncOf(trace))
      ensures if threw then world.fault && world.slip else world == old(world)
      ensures !threw ==> var ui := swapchains[h].imgui; trace == old(trace) + [InitUi(ui != null)] && (ui != null ==> ui.initDone)
      ensures h in swapchains && swapchains[h].imguiTried && OnlyOf(h, old(swapchains))
      ensures var ui := swapchains[h].imgui; ui == null || ui == old(swapchains[h].imgui) || fresh(ui)
    {
      ghost var before := swapchains;
      assert SameImages(swapchains, before);
      hide Replay, SyncOf, Table, Renderers, SameImages, FramesClosed, OnlyOf, Sound, MayWork;
      var ui := swapchains[h].imgui;
      ui, threw := TryRenderer(h, ui);
      SetRenderer(h, ui, before);
    }

    /** A new renderer in place of the one there; it keeps its place if the new one cannot be allocated. */
    method TryRenderer(h: Handle, kept: ImguiRenderer?) returns (ui: ImguiRenderer?, threw: bool)
      requires Sound() && MayWork(world)
      modifies this`trace, this`world
      ensures Sound() && SameBut(old(world), world) && SyncOf(trace) == old(SyncOf(trace))
      ensures if threw then world.fault && world.slip else world == old(world)
      ensures !threw ==> trace == old(trace) + [InitUi(ui != null)] && (ui != null ==> ui.initDone)
      ensures ui == null || ui == kept || (fresh(ui) && ui.home == h && !ui.frameStarted)
    {
      hide Replay, SyncOf, Sound;
      ui := kept;
      threw := *;                                // make_unique
      if threw {
        Raise();
      } else {
        ui, threw := MakeRenderer(h);
      }
    }

    /** A renderer whose init threw stays, not ready; one whose init failed goes. */
    method MakeRenderer(h: Handle) returns (ui: ImguiRenderer?, threw: bool)
      requires Sound() && MayWork(world)
      modifies this`trace, this`world
      ensures Sound() && SameBut(old(world), world) && SyncOf(trace) == old(SyncOf(trace))
      ensures if threw then world.fault && world.slip else world == old(world)
      ensures !threw ==> trace == old(trace) + [InitUi(ui != null)] && (ui != null ==> ui.initDone)
      ensures ui != null ==> fresh(ui) && ui.home == h && !ui.frameStarted
    {
      hide Replay, SyncOf;
      var made, ok := NewRenderer(h);
      Emit(InitUi(ok));
      threw := false;
      if !ok { threw := *; }
      if threw { Raise(); }
      ui := if ok || threw then made else null;
    }

    method NewRenderer(h: Handle) returns (ui: ImguiRenderer, ok: bool)
      ensures fresh(ui) && ui.home == h && !ui.frameStarted && ok == ui.initDone
    {
      ui := new ImguiRenderer(h);
      ok := ui.Init();
    }

    method SetRenderer(h: Handle, ui: ImguiRenderer?, ghost before: map<Handle, SwapchainState>)
      requires Table() && Renderers() && h in swapchains && SameImages(swapchains, before)
      requires ui != null && ui != swapchains[h].imgui ==> ui.home == h
      modifies this`swapchains, this`uis
      ensures Table() && Renderers() && h in swapchains && SameImages(swapchains, before)
      ensures swapchains[h].imguiTried && swapchains[h].imgui == ui && OnlyOf(h, old(swapchains))
      ensures uis == if ui == null || ui == old(swapchains[h].imgui) then old(uis) else old(uis) + {ui}
      ensures old(FramesClosed()) && (ui != null && ui !in old(uis) ==> !ui.frameStarted) ==> FramesClosed()
    {
      hide Table, TracksImages;
      AddUi(h, ui);
      PutRenderer(h, ui, before);
    }

    ghost method AddUi(h: Handle, ui: ImguiRenderer?)
      requires Renderers() && h in swapchains
      modifies this`uis
      ensures Renderers() && (ui != null ==> ui in uis)
      ensures uis == if ui == null || ui == swapchains[h].imgui then old(uis) else old(uis) + {ui}
      ensures old(FramesClosed()) && (ui != null && ui !in old(uis) ==> !ui.frameStarted) ==> FramesClosed()
    {
      if ui != null { uis := uis + {ui}; }
    }

    method PutRenderer(h: Handle, ui: ImguiRenderer?, ghost before: map<Handle, SwapchainState>)
      requires Table() && Renderers() && h in swapchains && SameImages(swapchains, before)
      requires ui != null ==> ui in uis && ui.home == h
      modifies this`swapchains
      ensures Table() && Renderers() && h in swapchains && SameImages(swapchains, before)
      ensures swapchains[h].imguiTried && swapchains[h].imgui == ui && OnlyOf(h, old(swapchains))
    {
      hide TracksImages;
      swapchains := swapchains[h := swapchains[h].(imgui := ui, imguiTried := true)];
    }

    /** An exception is raised in the layer. */
    ghost method Raise()
      requires Sound()
      modifies this`trace, this`world
      ensures Sound() && SameBut(old(world), world) && world.fault && world.slip
      ensures SyncOf(trace) == old(SyncOf(trace))
    {
      hide Replay, SyncOf;
      Emit(Raised);
    }

    /** Where nothing else is out of order. */
    ghost method RaiseStanding()
      requires Valid()
      modifies this`trace, this`world
      ensures Standing(true) && SameBut(old(world), world)
      ensures SyncOf(trace) == old(SyncOf(trace))
    {
      hide Replay, SyncOf, Table, Renderers, Mirror, HealthyAll, Fresh, FramesClosed;
      Raise();
    }

    /** A catch-all: an exception that reached it switches the overlay off for good. */
    method CatchAll(threw: bool)
      requires Standing(threw)
      modifies this`trace, this`world, this`overlayFailed
      ensures Valid() && SameBut(old(world), world) && (threw ==> overlayFailed && world.slip)
      ensures !threw ==> world == old(world) && overlayFailed == old(overlayFailed)
      ensures SyncOf(trace) == old(SyncOf(trace))
    {
      hide Replay, SyncOf, Table, Renderers, Mirror, HealthyAll, Fresh, FramesClosed;
      if threw { MarkOverlayFailed(); }
    }

    /** Takes the image's command buffer over from its last submit, then records into it. */
    method RecordPass(img: ImageState, ui: ImguiRenderer, ghost base: World) returns (r: RecordResult)
      requires Working(img, base) && Healthy(world.res[img.id], img.fenceInFlight)
      requires !world.fault && ui in uis && ui.initDone && ui.frameStarted
      modifies this`trace, this`world, this`latest, this`disabled, this`overlayFailed, ui
      ensures Base() && Settled() && img.id in world.res && TickBut(base.res, world.res, img.id) && MayWork(world) && world.open
      ensures world.drew == base.drew && world.quiet == old(world.quiet)
      ensures ui.initDone && (ui.frameStarted ==> overlayFailed)
      ensures r == Failed || (r == Drawn && !overlayFailed && ReadyToSubmit(world.res[img.id]))
      ensures r == Failed || old(world).slip ==> world.slip
      ensures SyncOf(trace) == old(SyncOf(trace)) && Later(old(world), world)
    {
      hide Replay, SyncOf, Table, Renderers, TickBut, HealthyAll, OthersOk, Fresh;
      r := Failed;
      if img.fenceInFlight {
        var waited := WaitForFence(img, base);
        if !waited {
          var _ := ui.EndFrame(false);
          PutBack(base.res, world.res, flags, img.id);
          return;
        }
      }
      var recorded, threw := RecordInto(img, ui, base);
      PutBack(base.res, world.res, flags, img.id);
      if threw {
        MarkOverlayFailed();
      } else if recorded {
        r := Drawn;
      }
    }

    /** Records the frame `ui` has built into the image's command buffer, which is free. */
    method RecordInto(img: ImageState, ui: ImguiRenderer, ghost base: World) returns (recorded: bool, threw: bool)
      requires Working(img, base) && !world.res[img.id].pending && world.res[img.id].cmd !in {Recording, InPass}
      requires ui.initDone && ui.frameStarted
      modifies this`trace, this`world, this`latest, this`disabled, ui
      ensures Working(img, base)
      ensures world.res[img.id].cmd !in {Recording, InPass} && !world.res[img.id].pending
      ensures world.res[img.id].submitted == old(world).res[img.id].submitted
      ensures recorded ==> !threw && ReadyToSubmit(world.res[img.id])
      ensures ui.initDone && ui.frameStarted == threw
      ensures (!recorded || old(world).slip ==> world.slip) && world.fault == (old(world).fault || threw)
      ensures SyncOf(trace) == old(SyncOf(trace)) && Later(old(world), world)
    {
      hide Replay, SyncOf, Working;
      recorded, threw := false, false;
      var began: bool := *;
      Drive(img, BeginCmd(began), base);
      if !began {
        var _ := ui.EndFrame(false);
        return;
      }
      threw := DrawPass(img, ui, base);
      var ended: bool := *;
      Drive(img, EndCmd(ended), base);
      recorded := ended && !threw;
    }

    /** The render pass inside a command buffer being recorded; it is ended also after a throw. */
    method DrawPass(img: ImageState, ui: ImguiRenderer, ghost base: World) returns (threw: bool)
      requires Working(img, base) && !world.res[img.id].pending && world.res[img.id].cmd == Recording
      requires ui.initDone && ui.frameStarted
      modifies this`trace, this`world, this`latest, this`disabled, ui
      ensures Working(img, base) && world.res[img.id] == old(world).res[img.id].(drawn := true)
      ensures ui.initDone && ui.frameStarted == threw
      ensures world.slip == (old(world).slip || threw) && world.fault == (old(world).fault || threw)
      ensures SyncOf(trace) == old(SyncOf(trace)) && Later(old(world), world)
    {
      hide Replay, SyncOf, Working;
      Drive(img, BeginPass, base);
      Drive(img, Draw, base);
      threw := CloseFrame(img, ui, base);
      Drive(img, EndPass, base);
    }

    /** The frame's draw data goes into the command buffer, which may throw. */
    method CloseFrame(img: ImageState, ui: ImguiRenderer, ghost base: World) returns (threw: bool)
      requires Working(img, base) && ui.initDone && ui.frameStarted
      modifies this`trace, this`world, ui
      ensures Working(img, base) && SameBut(old(world), world) && ui.initDone && ui.frameStarted == threw
      ensures world.slip == (old(world).slip || threw) && world.fault == (old(world).fault || threw)
      ensures SyncOf(trace) == old(SyncOf(trace))
    {
      hide Replay, SyncOf, Working;
      threw := ui.EndFrame(true);
      if threw { RaiseWorking(img, base); }
    }

    ghost method RaiseWorking(img: ImageState, base: World)
      requires Working(img, base)
      modifies this`trace, this`world
      ensures Working(img, base) && SameBut(old(world), world) && world.fault && world.slip
      ensures SyncOf(trace) == old(SyncOf(trace))
    {
      hide Replay, SyncOf, Table, Renderers, Mirror, OthersOk, Sound;
      Raise();
    }

    /** Only `ui` has a frame open. */
    ghost predicate OnlyOpen(ui: ImguiRenderer)
      reads this`uis, this`overlayFailed, uis
    {
      forall u :: u in uis && u != ui && u.frameStarted ==> u.initDone && overlayFailed
    }

    /** Builds one frame; one that shows nothing, or that threw, is closed again. */
    method BuildFrame(ui: ImguiRenderer, inVoice: bool) returns (threw: bool)
      requires FramesClosed() && !overlayFailed && ui in uis && ui.initDone
      modifies ui
      ensures OnlyOpen(ui) && ui.initDone && ui.frameStarted == (!threw && ui.vertices > 0)
      ensures !threw && ui.vertices > 0 ==> inVoice
      ensures !ui.frameStarted ==> FramesClosed()
    {
      threw := ui.BeginFrame(inVoice);
      if threw || !ui.FrameHasContent() {
        var _ := ui.EndFrame(false);
      }
    }

    /** Records the frame `ui` has built; it is closed then, unless recording threw. */
    method RecordFrame(img: ImageState, ui: ImguiRenderer) returns (r: RecordResult)
      requires Base() && Settled() && OnlyOpen(ui) && Presenting() && MayWork(world)
      requires img in imgs && ui in uis && ui.initDone && ui.frameStarted
      modifies this`trace, this`world, this`latest, this`disabled, this`overlayFailed, ui
      ensures Valid() && img.id in world.res && TickBut(old(world).res, world.res, img.id) && MayWork(world)
      ensures world.open && world.drew == old(world.drew) && SyncOf(trace) == old(SyncOf(trace))
      ensures r == Failed || (r == Drawn && !overlayFailed && ReadyToSubmit(world.res[img.id]))
      ensures (r == Failed || old(world).slip ==> world.slip) && Later(old(world), world)
    {
      hide Replay, SyncOf, Table, Renderers, TickBut, HealthyAll, OthersOk, Fresh;
      ghost var base := world;
      SetAside(world.res, flags, img.id);
      r := RecordPass(img, ui, base);
    }

    /** What drawing one image came to: recorded and ready for its submit, nothing to show, or a failure. */
    ghost predicate Drew(r: RecordResult, img: ImageState)
      reads this`world, this`overlayFailed
    {
      && img.id in world.res && !world.quiet
      && (r == Failed ==> world.slip)
      && (r in {Drawn, Skipped} ==> !overlayFailed)
      && (r == Drawn ==> MayWork(world) && ReadyToSubmit(world.res[img.id]))
    }

    /** Builds one image's frame and records it if it shows something. */
    method DrawFrame(img: ImageState, ui: ImguiRenderer, inVoice: bool) returns (r: RecordResult)
      requires Valid() && Presenting() && !world.quiet && (inVoice ==> world.voiceSeen)
      requires img in imgs && ui in uis && ui.initDone
      modifies this`trace, this`world, this`latest, this`disabled, this`overlayFailed, ui
      ensures Valid() && Onward(old(world), world) && TickBut(old(world).res, world.res, img.id)
      ensures Drew(r, img) && r in {Drawn, Skipped, Failed} && (r == Skipped ==> ui.vertices == 0)
      ensures SyncOf(trace) == old(SyncOf(trace)) && Later(old(world), world)
    {
      ImageIsKnown(img);
      assert TickBut(world.res, world.res, img.id);
      hide Replay, SyncOf, Base, SameImages, TickBut, FramesClosed, OnlyOpen, ReadyToSubmit;
      var threw := BuildFrame(ui, inVoice);
      if threw {
        RaiseStanding();
        CatchAll(true);
        return Failed;
      }
      if ui.vertices == 0 { return Skipped; }
      r := RecordFrame(img, ui);
    }

    lemma RendererOf(h: Handle)
      requires Renderers() && h in swapchains
      ensures var ui := swapchains[h].imgui; ui == null || (ui in uis && ui.home == h)
    {
    }

    /** There is nothing to draw for `h`: no renderer, or one whose frame came out empty. */
    ghost predicate Empty(h: Handle)
      requires h in swapchains
      reads this`swapchains, swapchains[h].imgui
    {
      var ui := swapchains[h].imgui;
      ui == null || !ui.initDone || ui.vertices == 0
    }

    /** So it is although a renderer has been tried. */
    ghost predicate Blank(h: Handle)
      requires h in swapchains
      reads this`swapchains, swapchains[h].imgui
    {
      swapchains[h].imguiTried && Empty(h)
    }

    /** The table has not changed but for the entry of `h`. */
    ghost predicate OnlyOf(h: Handle, before: map<Handle, SwapchainState>)
      reads this`swapchains
    {
      swapchains.Keys == before.Keys && forall g :: g in swapchains && g != h ==> swapchains[g] == before[g]
    }

    /** The lazy init of a swapchain, if the process is in voice and it is still to be tried. */
    method EnsureRenderer(h: Handle, inVoice: bool) returns (threw: bool)
      requires Valid() && h in swapchains && (inVoice ==> MayWork(world))
      modifies this`trace, this`world, this`uis, this`swapchains
      ensures Standing(threw) && SameImages(swapchains, old(swapchains)) && OnlyOf(h, old(swapchains)) && h in swapchains
      ensures fresh(uis - old(uis)) && SameBut(old(world), world) && SyncOf(trace) == old(SyncOf(trace))
      ensures !threw ==> world == old(world) && (inVoice ==> swapchains[h].imguiTried)
      ensures var ui := swapchains[h].imgui; ui == null || ui == old(swapchains[h].imgui) || fresh(ui)
    {
      assert SameImages(swapchains, swapchains) && OnlyOf(h, swapchains);
      hide Replay, SyncOf, Table, Renderers, Mirror, HealthyAll, Fresh, FramesClosed, Sound, SameImages, OnlyOf, MayWork;
      threw := false;
      if inVoice && !swapchains[h].imguiTried { threw := LazyInit(h); }
    }

    /** One swapchain's overlay once it is known whether the process is in voice. */
    method DrawSwapchain(h: Handle, img: ImageState, inVoice: bool) returns (r: RecordResult)
      requires Valid() && Presenting() && !world.quiet && (inVoice ==> world.voiceSeen)
      requires h in swapchains && img in imgs
      modifies this`trace, this`world, this`latest, this`disabled, this`overlayFailed, this`swapchains, this`uis,
               swapchains[h].imgui
      ensures Standing(r == Threw) && SameImages(swapchains, old(swapchains)) && fresh(uis - old(uis))
      ensures h in swapchains && OnlyOf(h, old(swapchains)) && Later(old(world), world)
      ensures Onward(old(world), world) && TickBut(old(world).res, world.res, img.id)
      ensures Drew(r, img) && (r == Skipped ==> Empty(h)) && (r != Threw && inVoice ==> swapchains[h].imguiTried)
      ensures SyncOf(trace) == old(SyncOf(trace))
    {
      NothingDrawn(img);
      ghost var w0 := world;
      hide Replay, SyncOf, Standing, TickBut, SameImages, OnlyOf, Empty, ReadyToSubmit, Onward, Drew, MayWork, Presenting;
      var threw := EnsureRenderer(h, inVoice);
      if threw {
        NothingDrawnSince(img, w0);
        return Threw;
      }
      r := DrawWithRenderer(h, img, inVoice);
    }

    lemma NothingDrawn(img: ImageState)
      requires Valid() && img in imgs && !world.quiet
      ensures img.id in world.res && (world.voiceSeen ==> MayWork(world))
    {
    }

    lemma NothingDrawnSince(img: ImageState, before: World)
      requires SameBut(before, world) && world.slip && img.id in before.res && !before.quiet
      ensures Drew(Threw, img) && Onward(before, world) && TickBut(before.res, world.res, img.id)
    {
    }

    lemma ImageIsKnown(img: ImageState)
      requires Valid() && img in imgs
      ensures img.id in world.res
    {
    }

    /** The part behind the lazy init: nothing without a renderer. */
    method DrawWithRenderer(h: Handle, img: ImageState, inVoice: bool) returns (r: RecordResult)
      requires Valid() && Presenting() && !world.quiet && (inVoice ==> world.voiceSeen)
      requires h in swapchains && img in imgs
      modifies this`trace, this`world, this`latest, this`disabled, this`overlayFailed, swapchains[h].imgui
      ensures Standing(r == Threw) && Onward(old(world), world) && TickBut(old(world).res, world.res, img.id)
      ensures Drew(r, img) && (r == Skipped ==> Empty(h))
      ensures SyncOf(trace) == old(SyncOf(trace)) && Later(old(world), world)
    {
      assert TickBut(world.res, world.res, img.id);
      RendererOf(h);
      hide Replay, SyncOf, Table, TickBut, HealthyAll, Mirror, Fresh, Renderers;
      var ui := swapchains[h].imgui;
      if ui == null || !ui.initDone { return Skipped; }
      var threw: bool := *;                      // creating the avatar cache
      if threw {
        RaiseStanding();
        return Threw;
      }
      r := DrawFrame(img, ui, inVoice);
    }

    /** What the state client has published, read while its thread keeps running. */
    method ReadClient() returns (off: bool, inVoice: bool)
      requires Valid() && world.open
      modifies this`trace, this`world, this`latest, this`disabled
      ensures Valid() && Tick(old(world), world) && SyncOf(trace) == old(SyncOf(trace))
      ensures old(world).disabled ==> off
      ensures off ==> world.idle
      ensures if inVoice then world.voiceSeen else world.idle
    {
      hide Replay, SyncOf, Table, Renderers, Mirror, HealthyAll, TickRes;
      ghost var w0 := world;
      off, inVoice := ReadPublished();
      hide Tick;
      TickHealthy(w0, world, flags);
    }

    method ReadPublished() returns (off: bool, inVoice: bool)
      requires Sound() && world.open
      modifies this`trace, this`world, this`latest, this`disabled
      ensures Sound() && Tick(old(world), world) && SyncOf(trace) == old(SyncOf(trace))
      ensures (old(world).disabled ==> off) && (off ==> world.idle) && if inVoice then world.voiceSeen else world.idle
    {
      hide Replay, SyncOf, Tick, Sound;
      ghost var w0 := world;
      Environment();
      ghost var w1 := world;
      off := disabled;
      SoundSays();
      Environment();
      inVoice := latest == Some(true);
      SoundSays();
      TickTrans(w0, w1, world);
    }

    lemma SoundSays()
      requires Sound()
      ensures world.disabled == disabled && world.voice == (latest == Some(true))
      ensures world.open && disabled ==> world.idle
      ensures world.open ==> if latest == Some(true) then world.voiceSeen else world.idle
    {
      hide Replay;
    }

    predicate Drawable(h: Handle, imageIndex: nat)
      reads this`swapchains
    {
      IsDrawable(swapchains, h, imageIndex)
    }

    /** Builds this present's overlay for one swapchain and, when it shows something, records it
        into the command buffer of `out`. */
    method RecordOne(h: Handle, imageIndex: nat) returns (r: RecordResult, out: ImageState?)
      requires Valid() && Presenting() && h in swapchains
      modifies this`trace, this`world, this`latest, this`disabled, this`overlayFailed, this`swapchains, this`uis,
               swapchains[h].imgui
      ensures Standing(r == Threw) && SameImages(swapchains, old(swapchains)) && OnlyOf(h, old(swapchains)) && fresh(uis - old(uis))
      ensures Onward(old(world), world) && Others(h, old(world).res) && imgs == old(imgs)
      ensures SyncOf(trace) == old(SyncOf(trace)) && Later(old(world), world)
      ensures r == Failed ==> world.slip || !Drawable(h, imageIndex)
      ensures r in {Drawn, Skipped} ==> Drawable(h, imageIndex) && Presenting()
      ensures r == Skipped ==> world.idle || Blank(h)
      ensures r == Drawn ==> out == swapchains[h].images[imageIndex]
      ensures r == Drawn <==> out != null
      ensures out != null ==> IsRecorded(h, out)
    {
      hide Replay, SyncOf, Renderers, Standing, SameImages, OnlyOf, Others, IsRecorded, Blank, Onward, TickRes;
      Untouched(h);
      ghost var before := swapchains;
      r, out := Failed, null;
      var s := swapchains[h];
      if !s.ok || imageIndex >= |s.images| { return; }
      var img := s.images[imageIndex];
      ImageOf(h, imageIndex);
      r := RecordDrawable(h, img);
      SameImage(h, imageIndex, before);
      if r == Drawn { out := img; }
    }

    /** The part of `RecordOne` behind the checks of the table. */
    method RecordDrawable(h: Handle, img: ImageState) returns (r: RecordResult)
      requires Valid() && Presenting() && h in swapchains && img in imgs && img.home == h
      modifies this`trace, this`world, this`latest, this`disabled, this`overlayFailed, this`swapchains, this`uis,
               swapchains[h].imgui
      ensures Standing(r == Threw) && SameImages(swapchains, old(swapchains)) && OnlyOf(h, old(swapchains)) && fresh(uis - old(uis))
      ensures Onward(old(world), world) && Others(h, old(world).res)
      ensures SyncOf(trace) == old(SyncOf(trace)) && Later(old(world), world)
      ensures r == Failed ==> world.slip
      ensures r in {Drawn, Skipped} ==> Presenting()
      ensures r == Skipped ==> world.idle || Blank(h)
      ensures r == Drawn ==> IsRecorded(h, img)
    {
      hide Replay, SyncOf, Standing, SameImages, OnlyOf, Others, IsRecorded, Empty, TickRes, Tick, TickBut, MayWork, ReadyToSubmit;
      Untouched(h);
      ghost var w0 := world;
      var off, inVoice := ReadClient();
      TickIsOnward(w0, world, img.id);
      if off {
        OthersTicked(h, w0, world, img, false);
        return Skipped;
      }
      ghost var w1 := world;
      r := DrawSwapchain(h, img, inVoice);
      OthersTicked(h, w0, w1, img, r == Threw);
      RecordedMeans(r, h, img);
    }

    /** Time has passed for the images of the other swapchains, and no more. */
    ghost predicate Others(h: Handle, before: map<ResId, Res>)
      reads this`imgs, this`world
    {
      && before.Keys == world.res.Keys
      && forall im :: im in imgs && im.home != h && im.id in before ==> TickRes(before[im.id], world.res[im.id])
    }

    /** This image of `h` is recorded, in a present that may do so. */
    ghost predicate IsRecorded(h: Handle, out: ImageState)
      reads this`imgs, this`world
    {
      && out in imgs && out.home == h && MayWork(world)
      && out.id in world.res && ReadyToSubmit(world.res[out.id])
    }

    lemma Untouched(h: Handle)
      ensures SameImages(swapchains, swapchains) && OnlyOf(h, swapchains) && Onward(world, world) && Others(h, world.res)
    {
    }

    lemma ImageOf(h: Handle, index: nat)
      requires Valid() && h in swapchains && index < |swapchains[h].images|
      ensures swapchains[h].images[index] in imgs && swapchains[h].images[index].home == h
    {
    }

    lemma SameImage(h: Handle, index: nat, before: map<Handle, SwapchainState>)
      requires SameImages(swapchains, before)
      ensures Drawable(h, index) <==> IsDrawable(before, h, index)
      ensures Drawable(h, index) ==> swapchains[h].images[index] == before[h].images[index]
    {
    }

    lemma TickIsOnward(w: World, w': World, id: ResId)
      requires Tick(w, w')
      ensures Onward(w, w') && Later(w, w') && TickBut(w'.res, w'.res, id)
    {
    }

    lemma OthersTicked(h: Handle, w0: World, w1: World, img: ImageState, threw: bool)
      requires Standing(threw) && img in imgs && img.home == h && Tick(w0, w1) && TickBut(w1.res, world.res, img.id)
      ensures Others(h, w0.res)
    {
      TickThenBut(w0, w1, world.res, img.id);
    }

    lemma RecordedMeans(r: RecordResult, h: Handle, img: ImageState)
      requires Drew(r, img) && img in imgs && img.home == h
      ensures r == Drawn ==> IsRecorded(h, img)
    {
    }

    /** The first `n` swapchains of a present can be drawn to, and each is among `drawn`, or has nothing to
        show, or the host has switched the overlay off. */
    ghost predicate HandledAll(presents: seq<(Handle, nat)>, n: nat, drawn: seq<ResId>)
      requires n <= |presents|
      reads this`swapchains, this`world, set h | h in swapchains :: swapchains[h].imgui
    {
      HandledIn(swapchains, world.idle, Blanks(), presents, n, drawn)
    }

    ghost function Blanks(): set<Handle>
      reads this`swapchains, set h | h in swapchains :: swapchains[h].imgui
    {
      set h | h in swapchains && Blank(h)
    }

    ghost predicate Gathered(presents: seq<(Handle, nat)>, n: nat, recorded: seq<ImageState>, drawn: seq<ResId>)
      requires n <= |presents|
      reads this`imgs, this`world
    {
      GatheredIn(imgs, world, presents, n, recorded, drawn)
    }

    /** What a present has recorded stays recorded while one more swapchain is drawn. */
    lemma GatheredStays(presents: seq<(Handle, nat)>, n: nat, recorded: seq<ImageState>, drawn: seq<ResId>,
                        before: World, out: ImageState?)
      requires n < |presents| && DistinctSwapchains(presents) && GatheredIn(imgs, before, presents, n, recorded, drawn)
      requires Onward(before, world) && Others(presents[n].0, before.res)
      requires out != null ==> IsRecorded(presents[n].0, out)
      ensures if out == null then Gathered(presents, n + 1, recorded, drawn)
              else Gathered(presents, n + 1, recorded + [out], drawn + [out.id])
    {
      forall k | 0 <= k < |recorded|
        ensures recorded[k].home != presents[n].0 && ReadyToSubmit(world.res[recorded[k].id])
        ensures IsAmong(presents, n + 1, recorded[k].home)
      {
        assert IsAmong(presents, n, recorded[k].home);
        assert TickRes(before.res[recorded[k].id], world.res[recorded[k].id]);
      }
      assert out != null ==> IsAmong(presents, n + 1, out.home) by { assert presents[n].0 == presents[n].0; }
    }

    lemma HandledNow(h: Handle, index: nat, out: ImageState?, named: seq<ResId>)
      requires Drawable(h, index)
      requires world.idle || h in Blanks() || (out != null && out == swapchains[h].images[index] && out.id in named)
      ensures IsHandled(swapchains, world.idle, Blanks(), (h, index), named)
    {
    }

    /** Records one swapchain of a present; the other swapchains keep their renderers. */
    method RecordApart(h: Handle, index: nat, ghost table: map<Handle, SwapchainState>, ghost blanks: set<Handle>)
      returns (r: RecordResult, out: ImageState?)
      requires Valid() && Presenting() && h in swapchains && table == swapchains && blanks == Blanks()
      modifies this`trace, this`world, this`latest, this`disabled, this`overlayFailed, this`swapchains, this`uis, uis
      ensures Standing(r == Threw) && SameImages(swapchains, table) && fresh(uis - old(uis)) && blanks - {h} <= Blanks()
      ensures Onward(old(world), world) && Others(h, old(world).res) && imgs == old(imgs)
      ensures SyncOf(trace) == old(SyncOf(trace)) && Later(old(world), world)
      ensures r == Failed ==> world.slip || !Drawable(h, index)
      ensures r in {Drawn, Skipped} ==> Drawable(h, index) && Presenting()
      ensures r == Skipped ==> world.idle || h in Blanks()
      ensures r == Drawn ==> out == swapchains[h].images[index]
      ensures r == Drawn <==> out != null
      ensures out != null ==> IsRecorded(h, out)
    {
      RenderersApart(h);
      hide Replay, SyncOf, Base, Mirror, FramesClosed, Others, IsRecorded, Onward, TickRes, Presenting;
      r, out := RecordOne(h, index);
    }

    /** Records one more swapchain of a present. */
    method RecordNext(presents: seq<(Handle, nat)>, n: nat, recorded: seq<ImageState>, ghost drawn: seq<ResId>)
      returns (r: RecordResult, more: seq<ImageState>, ghost named: seq<ResId>)
      requires Valid() && Presenting() && n < |presents| && DistinctSwapchains(presents)
      requires Gathered(presents, n, recorded, drawn) && HandledAll(presents, n, drawn)
      modifies this`trace, this`world, this`latest, this`disabled, this`overlayFailed, this`swapchains, this`uis, uis
      ensures Standing(r == Threw) && fresh(uis - old(uis)) && SyncOf(trace) == old(SyncOf(trace)) && imgs == old(imgs)
      ensures world.open && world.drew == old(world).drew && world.quiet == old(world).quiet
      ensures SameImages(swapchains, old(swapchains))
      ensures r == Failed ==> world.slip || !Drawable(presents[n].0, presents[n].1)
      ensures r in {Drawn, Skipped} ==> Presenting() && Gathered(presents, n + 1, more, named)
      ensures r in {Drawn, Skipped} ==> HandledAll(presents, n + 1, named)
    {
      var (h, index) := presents[n];
      assert h !in swapchains ==> !Drawable(h, index);
      hide Replay, SyncOf, Standing, TickRes, HandledIn, IsHandled, IsAmong, DistinctSwapchains, SameImages, Blanks, GatheredIn,
           Others, IsRecorded, MayWork, ReadyToSubmit, Drawable, Names;
      ghost var before, table, off, blanks := world, swapchains, world.idle, Blanks();
      more, named := recorded, drawn;
      if h !in swapchains { return Failed, more, named; }
      var out;
      r, out := RecordApart(h, index, table, blanks);
      if r == Drawn || r == Skipped {
        GatheredStays(presents, n, recorded, drawn, before, out);
        if out != null { more, named := recorded + [out], drawn + [out.id]; }
        HandledNow(h, index, out, named);
        HandledGrows(table, off, blanks, swapchains, world.idle, Blanks(), presents, n, drawn, named);
      }
    }

    lemma RenderersApart(h: Handle)
      requires Renderers() && h in swapchains
      ensures swapchains[h].imgui == null || swapchains[h].imgui in uis
      ensures forall g :: g in swapchains && g != h && swapchains[g].imgui != null ==> swapchains[g].imgui != swapchains[h].imgui
    {
    }

    /** Phase 1 of a present: records every presented swapchain that has something to show. */
    method RecordAll(presents: seq<(Handle, nat)>)
      returns (recorded: seq<ImageState>, r: RecordResult, ghost drawn: seq<ResId>)
      requires Valid() && Presenting() && !world.drew && DistinctSwapchains(presents)
      modifies this`trace, this`world, this`latest, this`disabled, this`overlayFailed, this`swapchains, this`uis, uis
      ensures Standing(r == Threw) && fresh(uis - old(uis)) && world.open && !world.drew
      ensures SyncOf(trace) == old(SyncOf(trace)) && SameImages(swapchains, old(swapchains))
      ensures r in {Failed, Threw, Drawn, Skipped} && |recorded| <= |presents|
      ensures r in {Drawn, Skipped} ==> !overlayFailed && HandledAll(presents, |presents|, drawn)
      ensures r == Failed ==> world.slip || exists j :: 0 <= j < |presents| && !Drawable(presents[j].0, presents[j].1)
      ensures r == Drawn ==> recorded != [] && MayWork(world) && !old(world).quiet
      ensures r in {Drawn, Skipped} ==> Batch(recorded, 0) && Names(drawn, recorded) && (r == Skipped ==> recorded == [])
    {
      hide Replay, SyncOf, Standing, Gathered, HandledAll, SameImages, Drawable, Batch, MayWork, DistinctSwapchains, Names;
      ghost var table := swapchains;
      recorded, drawn := [], [];
      NothingGathered(presents);
      for i := 0 to |presents|
        invariant Valid() && Presenting() && !world.drew && fresh(uis - old(uis))
        invariant SyncOf(trace) == old(SyncOf(trace)) && world.quiet == old(world).quiet && SameImages(swapchains, table)
        invariant Gathered(presents, i, recorded, drawn) && HandledAll(presents, i, drawn)
      {
        ghost var at := swapchains;
        var one;
        one, recorded, drawn := RecordNext(presents, i, recorded, drawn);
        SameImagesTrans(swapchains, at, table);
        if one == Failed || one == Threw { return [], one, drawn; }
      }
      GatheredMeans(presents, |presents|, recorded, drawn);
      r := if recorded == [] then Skipped else Drawn;
    }

    lemma NothingGathered(presents: seq<(Handle, nat)>)
      ensures Gathered(presents, 0, [], []) && HandledAll(presents, 0, []) && SameImages(swapchains, swapchains)
    {
    }

    lemma GatheredMeans(presents: seq<(Handle, nat)>, n: nat, recorded: seq<ImageState>, drawn: seq<ResId>)
      requires n <= |presents| && Gathered(presents, n, recorded, drawn) && Valid()
      ensures Batch(recorded, 0) && Names(drawn, recorded) && (recorded != [] ==> MayWork(world) && !world.quiet)
      ensures |recorded| <= n
      ensures forall k :: 0 <= k < |recorded| ==> recorded[k] in imgs && IsAmong(presents, n, recorded[k].home)
    {
    }

    /** A driver call of the submit phase on one image's objects, which the GPU is not using. */
    method Call(img: ImageState, op: Op, ghost base: map<ResId, Res>)
      requires Sound() && OthersOk(base, world.res, flags, img.id) && Fresh(world.res) && MayWork(world)
      requires !world.res[img.id].pending && AllowedOp(world.res[img.id], op) && IsWork(op)
      modifies this`trace, this`world, this`latest, this`disabled
      ensures Sound() && OthersOk(base, world.res, flags, img.id) && Fresh(world.res) && MayWork(world)
      ensures world.res[img.id] == AfterOp(old(world).res[img.id], op)
      ensures world.open == old(world).open && world.drew == (old(world).drew || (op.Submit? && op.ok))
      ensures world.fault == (old(world).fault || IsFatal(op, old(world).drew))
      ensures Later(old(world), world) && world.slip == (old(world).slip || Fails(op))
      ensures SyncOf(trace) == old(SyncOf(trace)) + OpOf(On(img.id, op))
    {
      hide Replay, SyncOf, OthersOk, OpOf, AllowedOp, AfterOp, IsFatal, Fails, Sound;
      OthersIn(base, world.res, flags, img.id);
      ghost var w0 := world;
      Settle(img, base);
      TickDrive(w0, world, img.id, op);
      hide TickRes;
      EmitOn(img, op, base);
    }

    /** vkResetFences on a fence whose submit, if any, has finished. */
    method ResetFence(img: ImageState, ghost base: map<ResId, Res>) returns (ok: bool)
      requires Sound() && Fresh(world.res) && MayWork(world) && OthersOk(base, world.res, flags, img.id)
      requires !world.res[img.id].pending
      modifies this`trace, this`world, this`latest, this`disabled
      ensures Sound() && Fresh(world.res) && MayWork(world) && OthersOk(base, world.res, flags, img.id)
      ensures var r := world.res[img.id];
              r.cmd == old(world).res[img.id].cmd && r.drawn == old(world).res[img.id].drawn && !r.pending && !r.submitted && (ok ==> !r.signaled)
      ensures world.open == old(world).open && world.drew == old(world).drew && SyncOf(trace) == old(SyncOf(trace))
      ensures world.fault == (old(world).fault || (!ok && !world.drew))
      ensures Later(old(world), world) && world.slip == (old(world).slip || !ok)
    {
      hide Replay, SyncOf, OthersOk, Sound, Fresh;
      ok := *;
      var signaled: bool := *;
      Call(img, Reset(ok, signaled && !ok), base);
    }

    /** vkQueueSubmit of a recorded command buffer with its unsignaled fence. */
    method QueueSubmit(img: ImageState, waits: seq<Sem>, ghost base: map<ResId, Res>) returns (ok: bool)
      requires Sound() && Fresh(world.res) && MayWork(world) && OthersOk(base, world.res, flags, img.id)
      requires ReadyToSubmit(world.res[img.id]) && !world.res[img.id].signaled
      modifies this`trace, this`world, this`latest, this`disabled
      ensures Sound() && Fresh(world.res) && MayWork(world) && OthersOk(base, world.res, flags, img.id)
      ensures world.res[img.id] == old(world).res[img.id].(submitted := old(world).res[img.id].submitted || ok, pending := ok)
      ensures world.open == old(world).open && world.drew == (old(world).drew || ok)
      ensures world.fault == (old(world).fault || !ok)
      ensures Later(old(world), world) && world.slip == (old(world).slip || !ok)
      ensures SyncOf(trace) == old(SyncOf(trace)) + if ok then [SubmitOp(waits, OverlayDone(img.id))] else []
    {
      hide Replay, SyncOf, OthersOk, Sound, Fresh;
      ok := *;
      Call(img, Submit(waits, ok), base);
    }

    /** Writes an image's flag, and its mirror. */
    method PutFlag(img: ImageState, flag: bool)
      requires Mirror() && img in imgs
      modifies img`fenceInFlight, this`flags
      ensures Mirror() && img.fenceInFlight == flag && flags == old(flags)[img.id := flag]
    {
      img.fenceInFlight := flag;
      flags := flags[img.id := flag];
    }

    method SetFlag(img: ImageState, flag: bool, ghost base: map<ResId, Res>)
      requires Mirror() && img in imgs && OthersOk(base, world.res, flags, img.id)
      modifies img`fenceInFlight, this`flags
      ensures Mirror() && img.fenceInFlight == flag && flags == old(flags)[img.id := flag]
      ensures OthersOk(base, world.res, flags, img.id)
    {
      hide OthersOk, Mirror;
      OwnFlag(base, world.res, flags, img.id, flag);
      PutFlag(img, flag);
    }

    method ResetAndSubmit(img: ImageState, waits: seq<Sem>, ghost base: map<ResId, Res>) returns (reset: bool, ok: bool)
      requires Sound() && Mirror() && Fresh(world.res) && MayWork(world) && OthersOk(base, world.res, flags, img.id)
      requires img in imgs && ReadyToSubmit(world.res[img.id])
      modifies this`trace, this`world, this`latest, this`disabled, this`flags, img`fenceInFlight
      ensures Sound() && Mirror() && Fresh(world.res) && MayWork(world) && OthersOk(base, world.res, flags, img.id)
      ensures img.id in flags && Healthy(world.res[img.id], flags[img.id]) && img.fenceInFlight == flags[img.id] == ok
      ensures ok ==> reset
      ensures world.open == old(world).open && world.drew == (old(world).drew || ok)
      ensures world.fault == (old(world).fault || (!reset && !world.drew) || (reset && !ok))
      ensures Later(old(world), world) && world.slip == (old(world).slip || !ok)
      ensures SyncOf(trace) == old(SyncOf(trace)) + if ok then [SubmitOp(waits, OverlayDone(img.id))] else []
    {
      hide Replay, SyncOf, Mirror, OthersOk, Fresh, Sound, MayWork;
      SetFlag(img, false, base);
      reset := ResetFence(img, base);
      ok := false;
      if reset { ok := QueueSubmit(img, waits, base); }
      if ok { SetFlag(img, true, base); }
    }

    /** Resets one recorded image's fence and submits its command buffer with it; the flag is set
        only for a submit that succeeded. */
    method TrySubmit(img: ImageState, waits: seq<Sem>) returns (reset: bool, ok: bool)
      requires Sound() && Mirror() && Fresh(world.res) && HealthyAll(world.res, flags) && MayWork(world)
      requires img in imgs && img.id in world.res && ReadyToSubmit(world.res[img.id])
      modifies this`trace, this`world, this`latest, this`disabled, this`flags, img
      ensures Sound() && Mirror() && Fresh(world.res) && HealthyAll(world.res, flags) && MayWork(world)
      ensures img.id in world.res && TickBut(old(world).res, world.res, img.id) && img.fenceInFlight == ok
      ensures ok ==> reset
      ensures world.open == old(world).open && world.drew == (old(world).drew || ok)
      ensures world.fault == (old(world).fault || (!reset && !world.drew) || (reset && !ok))
      ensures Later(old(world), world) && world.slip == (old(world).slip || !ok)
      ensures SyncOf(trace) == old(SyncOf(trace)) + if ok then [SubmitOp(waits, OverlayDone(img.id))] else []
    {
      assert img.id in flags;
      hide Replay, SyncOf, Mirror, TickBut, HealthyAll, OthersOk, Fresh, Sound, MayWork;
      ghost var base := world.res;
      SetAside(base, flags, img.id);
      reset, ok := ResetAndSubmit(img, waits, base);
      PutBack(base, world.res, flags, img.id);
    }

    /** One overlay submit of a present.  A failure switches the overlay off, except a fence reset
        failing after earlier submits, which only ends the batch. */
    method SubmitOne(img: ImageState, waits: seq<Sem>, first: bool) returns (ok: bool)
      requires Valid() && world.open && MayWork(world) && !overlayFailed && world.drew == !first
      requires img in imgs && img.id in world.res && ReadyToSubmit(world.res[img.id])
      modifies this`trace, this`world, this`latest, this`disabled, this`overlayFailed, this`flags, img
      ensures Valid() && world.open && world.drew == (!first || ok) && MayWork(world)
      ensures img.id in world.res && TickBut(old(world).res, world.res, img.id)
      ensures ok ==> !overlayFailed && img.fenceInFlight
      ensures first && !ok ==> overlayFailed
      ensures Later(old(world), world) && (!ok || old(world).slip ==> world.slip)
      ensures SyncOf(trace) == old(SyncOf(trace)) + if ok then [SubmitOp(waits, OverlayDone(img.id))] else []
    {
      hide Replay, SyncOf, Table, Renderers, Mirror, TickBut, HealthyAll, Fresh, FramesClosed;
      var reset;
      reset, ok := TrySubmit(img, waits);
      if !ok && (first || reset) { MarkOverlayFailed(); }
    }

    /** A recorded batch with everything from `k` on still to be submitted. */
    ghost predicate Batch(recorded: seq<ImageState>, k: nat)
      reads this`imgs, this`world
    {
      && (forall j :: 0 <= j < |recorded| ==> recorded[j] in imgs)
      && Apart(recorded) && AreReady(recorded, k, world.res)
    }

    /** The first images of the batch are submitted, as `ids`, on top of the operations `before`. */
    ghost predicate Chained(recorded: seq<ImageState>, app: seq<Sem>, ids: seq<ResId>, before: seq<SyncOp>)
      reads this`trace
    {
      && Leads(ids, recorded) && SyncOf(trace) == before + Submits(app, ids)
    }

    /** A batch under way: everything is in order, and until a failure the rest of it can still be submitted. */
    ghost predicate Submitting(recorded: seq<ImageState>, app: seq<Sem>, ids: seq<ResId>, sems: seq<Sem>, ok: bool,
                               before: seq<SyncOp>)
      reads this, imgs, uis
    {
      && Valid() && world.open && Chained(recorded, app, ids, before) && sems == DoneSems(ids)
      && (ok ==> MayWork(world) && !overlayFailed && Batch(recorded, |ids|) && world.drew == (ids != []))
      && (!ok ==> world.slip && (ids == [] ==> overlayFailed))
    }

    /** Submits the next image of the batch, waiting for the one before it. */
    method SubmitNext(recorded: seq<ImageState>, app: seq<Sem>, ids: seq<ResId>, sems: seq<Sem>, prevDone: Sem,
                      ghost before: seq<SyncOp>)
      returns (ids': seq<ResId>, sems': seq<Sem>, done: Sem, ok: bool)
      requires Submitting(recorded, app, ids, sems, true, before) && |ids| < |recorded|
      requires ids != [] ==> prevDone == OverlayDone(ids[|ids| - 1])
      modifies this`trace, this`world, this`latest, this`disabled, this`overlayFailed, this`flags, imgs
      ensures Submitting(recorded, app, ids', sems', ok, before)
      ensures ids' == if ok then ids + [recorded[|ids|].id] else ids
      ensures ids' != [] && ok ==> done == OverlayDone(ids'[|ids'| - 1])
      ensures Later(old(world), world) && (old(world).slip ==> world.slip)
    {
      hide Replay, SyncOf, Valid, TickBut, AreReady, Submits, DoneSems;
      var k := |ids|;
      var img := recorded[k];
      ghost var res := world.res;
      HeadReady(recorded, k, res);
      var waits := if ids == [] then app else [prevDone];
      ok := SubmitOne(img, waits, k == 0);
      StillReady(recorded, k, res, world.res);
      SubmitsSnoc(before, app, ids, img.id, waits);
      DoneSnoc(ids, img.id);
      ids', sems', done := ids, sems, prevDone;
      if ok { ids', sems', done := ids + [img.id], sems + [OverlayDone(img.id)], OverlayDone(img.id); }
    }

    /** Phase 2 of a present: submits what was recorded, chained behind the application's semaphores,
        up to the first failure. */
    method SubmitAll(recorded: seq<ImageState>, app: seq<Sem>) returns (ids: seq<ResId>, overlaySems: seq<Sem>)
      requires Valid() && world.open && MayWork(world) && !overlayFailed && !world.drew
      requires Batch(recorded, 0)
      modifies this`trace, this`world, this`latest, this`disabled, this`overlayFailed, this`flags, imgs
      ensures Valid() && world.open && overlaySems == DoneSems(ids)
      ensures ids == [] && recorded != [] ==> overlayFailed
      ensures Later(old(world), world) && (|ids| < |recorded| || old(world).slip ==> world.slip)
      ensures Chained(recorded, app, ids, old(SyncOf(trace)))
    {
      ghost var before := SyncOf(trace);
      ids, overlaySems := [], [];
      var ok, prevDone := true, OverlayDone(0);
      assert Chained(recorded, app, ids, before) && DoneSems(ids) == [];
      assert Submitting(recorded, app, ids, overlaySems, ok, before);
      hide Submitting, Valid, SyncOf, Batch, MayWork;
      while |ids| < |recorded| && ok
        invariant Submitting(recorded, app, ids, overlaySems, ok, before)
        invariant Later(old(world), world) && (old(world).slip ==> world.slip)
        invariant ids != [] && ok ==> prevDone == OverlayDone(ids[|ids| - 1])
        decreases |recorded| - |ids|, ok
      {
        ids, overlaySems, prevDone, ok := SubmitNext(recorded, app, ids, overlaySems, prevDone, before);
      }
      SubmittingMeans(recorded, app, ids, overlaySems, ok, before);
    }

    lemma SubmittingMeans(recorded: seq<ImageState>, app: seq<Sem>, ids: seq<ResId>, sems: seq<Sem>, ok: bool,
                          before: seq<SyncOp>)
      requires Submitting(recorded, app, ids, sems, ok, before)
      ensures Valid() && world.open && Chained(recorded, app, ids, before) && sems == DoneSems(ids)
      ensures !ok ==> world.slip && (ids == [] ==> overlayFailed)
    {
    }

    /** The down-chain vkQueuePresentKHR. */
    method PassDown(waits: seq<Sem>)
      requires Valid() && world.open
      modifies this`trace, this`world, this`latest, this`disabled
      ensures Valid() && !world.open && SyncOf(trace) == old(SyncOf(trace)) + [PresentOp(waits)]
      ensures Later(old(world), world) && world.slip == old(world).slip
    {
      hide Replay, SyncOf, Table, Renderers, Mirror, HealthyAll, FramesClosed;
      ghost var w0 := world;
      Environment();
      TickHealthy(w0, world, flags);
      Emit(Present(waits));
    }

    /** Everything presented that had something to show was submitted, unless a call failed, a swapchain
        has no overlay objects, or the host has switched the overlay off. */
    ghost predicate Explained(presents: seq<(Handle, nat)>, ids: seq<ResId>)
      reads this`world, this`swapchains, set h | h in swapchains :: swapchains[h].imgui
    {
      ExplainedIn(world.slip, swapchains, world.idle, Blanks(), presents, ids)
    }

    lemma NothingYet(app: seq<Sem>)
      ensures Submits(app, []) == [] && DoneSems([]) == [] && Distinct([]) && SameImages(swapchains, swapchains)
    {
    }

    /** Records and submits the overlay of one present. */
    method RecordAndSubmit(app: seq<Sem>, presents: seq<(Handle, nat)>)
      returns (ids: seq<ResId>, overlaySems: seq<Sem>, threw: bool)
      requires Valid() && Presenting() && !world.drew && DistinctSwapchains(presents)
      modifies this`trace, this`world, this`latest, this`disabled, this`overlayFailed, this`flags, this`swapchains,
               this`uis, uis, imgs
      ensures Standing(threw) && world.open && fresh(uis - old(uis)) && overlaySems == DoneSems(ids)
      ensures SyncOf(trace) == old(SyncOf(trace)) + Submits(app, ids)
      ensures Distinct(ids) && |ids| <= |presents| && (ids != [] ==> !old(world).quiet)
      ensures threw || Explained(presents, ids)
      ensures SameImages(swapchains, old(swapchains))
    {
      assert Submits(app, []) == [] && DoneSems([]) == [];
      ids, overlaySems := [], [];
      hide Replay, SyncOf, Standing, Submits, DoneSems, SameImages, MayWork, DistinctSwapchains, IsHandled, Names, Leads, Apart,
           AreReady, Explained, HandledAll, Batch, Distinct;
      var recorded, r;
      ghost var drawn;
      recorded, r, drawn := RecordAll(presents);
      threw := r == Threw;
      if r == Drawn {
        ids, overlaySems, threw := SubmitDrawn(recorded, app, presents, drawn);
      } else {
        NothingRecorded(r, recorded, presents, drawn);
      }
    }

    /** The submits of a present that has something to submit, unless their vectors cannot be allocated. */
    method SubmitDrawn(recorded: seq<ImageState>, app: seq<Sem>, presents: seq<(Handle, nat)>, ghost drawn: seq<ResId>)
      returns (ids: seq<ResId>, overlaySems: seq<Sem>, threw: bool)
      requires Valid() && world.open && MayWork(world) && !overlayFailed && !world.drew
      requires Batch(recorded, 0) && Names(drawn, recorded) && HandledAll(presents, |presents|, drawn)
      modifies this`trace, this`world, this`latest, this`disabled, this`overlayFailed, this`flags, imgs
      ensures Standing(threw) && world.open && overlaySems == DoneSems(ids) && Distinct(ids) && |ids| <= |recorded|
      ensures SyncOf(trace) == old(SyncOf(trace)) + Submits(app, ids)
      ensures threw || Explained(presents, ids)
    {
      assert Submits(app, []) == [] && DoneSems([]) == [] && Distinct([]);
      hide Replay, SyncOf, Standing, Submits, DoneSems, MayWork, HandledAll, Names, Batch, Distinct, Explained;
      ids, overlaySems := [], [];
      threw := *;                                // the stage and semaphore vectors
      if threw {
        RaiseStanding();
      } else {
        ids, overlaySems := SubmitRecorded(recorded, app, presents, drawn);
      }
    }

    /** Submits what a present has recorded. */
    method SubmitRecorded(recorded: seq<ImageState>, app: seq<Sem>, presents: seq<(Handle, nat)>, ghost drawn: seq<ResId>)
      returns (ids: seq<ResId>, overlaySems: seq<Sem>)
      requires Valid() && world.open && MayWork(world) && !overlayFailed && !world.drew
      requires Batch(recorded, 0) && Names(drawn, recorded) && HandledAll(presents, |presents|, drawn)
      modifies this`trace, this`world, this`latest, this`disabled, this`overlayFailed, this`flags, imgs
      ensures Valid() && world.open && overlaySems == DoneSems(ids) && Distinct(ids) && |ids| <= |recorded|
      ensures SyncOf(trace) == old(SyncOf(trace)) + Submits(app, ids)
      ensures Explained(presents, ids)
    {
      hide Replay, SyncOf, Valid, Submits, DoneSems, MayWork, HandledIn, Names, Leads, Apart, AreReady, Distinct,
           ExplainedIn;
      ghost var off, blanks := world.idle, Blanks();
      ids, overlaySems := SubmitAll(recorded, app);
      LeadsMeans(ids, recorded, drawn);
      assert Blanks() == blanks;
      SubmittedExplains(swapchains, off, blanks, presents, drawn, |ids| == |recorded|, ids, world.slip, world.idle);
    }

    lemma NothingRecorded(r: RecordResult, recorded: seq<ImageState>, presents: seq<(Handle, nat)>, drawn: seq<ResId>)
      requires r == Skipped ==> Names(drawn, recorded) && recorded == [] && HandledAll(presents, |presents|, drawn)
      requires r == Failed ==> world.slip || exists j :: 0 <= j < |presents| && !Drawable(presents[j].0, presents[j].1)
      ensures Distinct([]) && (r in {Skipped, Failed} ==> Explained(presents, []))
    {
    }

    /** The guarded part of a present: an exception switches the overlay off. */
    method PresentOverlay(app: seq<Sem>, presents: seq<(Handle, nat)>) returns (ids: seq<ResId>, overlaySems: seq<Sem>)
      requires Valid() && Presenting() && !world.drew && DistinctSwapchains(presents)
      modifies this`trace, this`world, this`latest, this`disabled, this`overlayFailed, this`flags, this`swapchains,
               this`uis, uis, imgs
      ensures Valid() && world.open && fresh(uis - old(uis)) && overlaySems == DoneSems(ids)
      ensures SyncOf(trace) == old(SyncOf(trace)) + Submits(app, ids)
      ensures Distinct(ids) && |ids| <= |presents| && (ids != [] ==> !old(world).quiet)
      ensures Explained(presents, ids) && SameImages(swapchains, old(swapchains))
    {
      hide Replay, SyncOf, Standing, Submits, DoneSems, SameImages, MayWork, DistinctSwapchains, Explained;
      NothingYet(app);
      ids, overlaySems := [], [];
      var threw: bool := *;                      // taking the lock, reserving `recorded`
      if threw {
        RaiseStanding();
      } else {
        ids, overlaySems, threw := RecordAndSubmit(app, presents);
      }
      if threw {
        CatchAll(threw);
        SlipExplains(presents, ids);
      }
    }

    lemma SlipExplains(presents: seq<(Handle, nat)>, ids: seq<ResId>)
      ensures world.slip ==> Explained(presents, ids)
    {
    }

    method EnterPresent()
      requires Valid() && !world.open
      modifies this`trace, this`world
      ensures Valid() && world.open && !world.drew && world.quiet == (disabled || overlayFailed)
      ensures SyncOf(trace) == old(SyncOf(trace))
    {
      hide Replay, SyncOf, Table, Renderers, Mirror, HealthyAll, Fresh, FramesClosed;
      Emit(Enter);
    }

    /** Whether a present on this queue may carry the overlay at all: only one of the graphics family may. */
    method MayDrawOn(queue: Queue, presents: seq<(Handle, nat)>) returns (may: bool)
      ensures may <==> !deviceOff && !overlayFailed && presents != [] && hasGraphics
                       && BelongsTo(queueFamilies, queue, graphicsFamily)
    {
      FamilyIs(queueFamilies, queue);
      hide BelongsTo;
      var family := QueueFamilyFor(queueFamilies, queue);
      may := !deviceOff && !overlayFailed && presents != [] && hasGraphics && family == graphicsFamily;
    }

    /** A present up to its down-chain call. */
    method OverlayPhase(queue: Queue, app: seq<Sem>, presents: seq<(Handle, nat)>)
      returns (ids: seq<ResId>, overlaySems: seq<Sem>)
      requires Valid() && !world.open && DistinctSwapchains(presents)
      modifies this`trace, this`world, this`latest, this`disabled, this`overlayFailed, this`flags, this`swapchains,
               this`uis, uis, imgs
      ensures Valid() && world.open && fresh(uis - old(uis)) && overlaySems == DoneSems(ids)
      ensures SyncOf(trace) == old(SyncOf(trace)) + Submits(app, ids)
      ensures Distinct(ids) && |ids| <= |presents|
      ensures ids != [] ==> !deviceOff && !old(overlayFailed) && !old(disabled)
      ensures ids != [] ==> hasGraphics && BelongsTo(queueFamilies, queue, graphicsFamily)
      ensures !deviceOff && !old(overlayFailed) && hasGraphics && BelongsTo(queueFamilies, queue, graphicsFamily) ==>
                Explained(presents, ids)
      ensures SameImages(swapchains, old(swapchains))
    {
      assert SameImages(swapchains, swapchains) && Distinct([]) && Submits(app, []) == [] && DoneSems([]) == [];
      hide Replay, SyncOf, Valid, Explained, SameImages, BelongsTo, Submits, DoneSems, Distinct, DistinctSwapchains;
      ids, overlaySems := [], [];
      EnterPresent();
      NothingPresented(presents, ids);
      var may := MayDrawOn(queue, presents);
      if may { ids, overlaySems := PresentOverlay(app, presents); }
    }

    lemma NothingPresented(presents: seq<(Handle, nat)>, ids: seq<ResId>)
      ensures presents == [] ==> Explained(presents, ids)
    {
    }

    /** vkQueuePresentKHR, past its null checks.  Whatever fails, one present goes down, either with the
        application's own wait list or behind the overlay submits `ids`, which then took that list.  Nothing
        that has something to show is left out unless a call failed or the host switched the overlay off. */
    method QueuePresent(queue: Queue, app: seq<Sem>, presents: seq<(Handle, nat)>) returns (ids: seq<ResId>)
      requires Valid() && !world.open && DistinctSwapchains(presents)
      modifies this`trace, this`world, this`latest, this`disabled, this`overlayFailed, this`flags, this`swapchains,
               this`uis, uis, imgs
      ensures Valid() && !world.open && fresh(uis - old(uis))
      ensures SyncOf(trace) == old(SyncOf(trace)) + PresentOps(app, ids)
      ensures Distinct(ids) && |ids| <= |presents|
      ensures ids != [] ==> !deviceOff && !old(overlayFailed) && !old(disabled)
      ensures ids != [] ==> hasGraphics && BelongsTo(queueFamilies, queue, graphicsFamily)
      ensures |presents| <= 1 && FromApp(app) ==> OverlaySemsWaitedOnce(app, ids)
      ensures !deviceOff && !old(overlayFailed) && hasGraphics && BelongsTo(queueFamilies, queue, graphicsFamily) ==>
                Explained(presents, ids)
      ensures SameImages(swapchains, old(swapchains))
    {
      hide Replay, SyncOf, Valid, ExplainedIn, SameImages, BelongsTo, PresentOps, Submits, DoneSems, Distinct, DistinctSwapchains,
           OverlaySemsWaitedOnce, FromApp;
      ghost var before := SyncOf(trace);
      var overlaySems;
      ids, overlaySems := OverlayPhase(queue, app, presents);
      ghost var slip, off, blanks := world.slip, world.idle, Blanks();
      PassDown(if ids == [] then app else overlaySems);
      assert Blanks() == blanks;
      ExplainedStays(slip, swapchains, off, blanks, presents, ids, world.slip, world.idle);
      PresentOpsAre(before, app, ids);
      if |presents| <= 1 && FromApp(app) { WaitedOnceExactlyWhenOneSubmitted(app, ids); }
    }

    /** What creating and destroying swapchains keeps, table aside. */
    ghost predicate Books()
      reads this, imgs
    {
      Sound() && Mirror() && Fresh(world.res) && HealthyAll(world.res, flags)
    }

    /** vkWaitForFences with no timeout, from a teardown; taken to succeed. */
    method WaitForTeardown(img: ImageState, ghost base: map<ResId, Res>)
      requires Sound() && Fresh(world.res) && OthersOk(base, world.res, flags, img.id)
      requires world.res[img.id].submitted && world.res[img.id].cmd !in {Recording, InPass}
      modifies this`trace, this`world, this`latest, this`disabled
      ensures Sound() && Fresh(world.res) && OthersOk(base, world.res, flags, img.id)
      ensures !world.res[img.id].pending && world.res[img.id].cmd !in {Recording, InPass}
      ensures SyncOf(trace) == old(SyncOf(trace)) && Alike(old(world), world)
      ensures old(world).quiet == world.quiet && world.latched == old(world).latched
    {
      hide Replay, SyncOf, OthersOk, Sound;
      assert img.id in world.res by { OthersIn(base, world.res, flags, img.id); }
      ghost var r0 := world.res[img.id];
      Settle(img, base);
      WaitedDown(r0, world.res[img.id]);
      hide TickRes, AfterOp, AllowedOp;
      EmitOn(img, TeardownWait, base);
    }

    /** wait_overlay_idle for one image: waits only a fence that was submitted. */
    method IdleOne(img: ImageState)
      requires Books() && img in imgs
      modifies this`trace, this`world, this`latest, this`disabled, this`flags, img
      ensures Books() && !img.fenceInFlight
      ensures SyncOf(trace) == old(SyncOf(trace)) && Alike(old(world), world)
      ensures old(world).quiet == world.quiet && world.latched == old(world).latched
    {
      if !img.fenceInFlight { return; }
      assert img.id in flags && flags[img.id];
      hide Replay, SyncOf, Sound, Mirror, TickBut, HealthyAll, OthersOk, Fresh;
      ghost var base := world.res;
      SetAside(base, flags, img.id);
      WaitForTeardown(img, base);
      SetFlag(img, false, base);
      PutBack(base, world.res, flags, img.id);
    }

    method WaitOverlayIdle(images: seq<ImageState>)
      requires Books() && forall k :: 0 <= k < |images| ==> images[k] in imgs
      modifies this`trace, this`world, this`latest, this`disabled, this`flags, imgs
      ensures Books() && forall k :: 0 <= k < |images| ==> !images[k].fenceInFlight
      ensures SyncOf(trace) == old(SyncOf(trace)) && Alike(old(world), world)
      ensures old(world).quiet == world.quiet && world.latched == old(world).latched
    {
      hide Replay, SyncOf, Books;
      for i := 0 to |images|
        invariant Books() && forall k :: 0 <= k < i ==> !images[k].fenceInFlight
        invariant SyncOf(trace) == old(SyncOf(trace)) && Alike(old(world), world)
        invariant old(world).quiet == world.quiet && world.latched == old(world).latched
      {
        IdleOne(images[i]);
      }
    }

    /** Frees one idle image's objects. */
    method FreeOne(img: ImageState)
      requires Books() && img in imgs && !img.fenceInFlight
      modifies this`trace, this`world, this`imgs, this`flags
      ensures Books() && imgs == old(imgs) - {img}
      ensures SyncOf(trace) == old(SyncOf(trace)) && Alike(old(world), world)
    {
      hide Replay, SyncOf;
      FreeHealthy(world.res, flags, img.id);
      Emit(Free(img.id));
      imgs := imgs - {img};
      flags := flags - {img.id};
    }

    method FreeAll(images: seq<ImageState>)
      requires Books()
      requires forall k :: 0 <= k < |images| ==> images[k] in imgs && !images[k].fenceInFlight
      requires forall j, k :: 0 <= j < k < |images| ==> images[j] != images[k]
      modifies this`trace, this`world, this`imgs, this`flags
      ensures Books() && imgs == old(imgs) - (set im | im in images)
      ensures SyncOf(trace) == old(SyncOf(trace)) && Alike(old(world), world)
    {
      hide Replay, SyncOf, Books;
      for i := 0 to |images|
        invariant Books() && imgs == old(imgs) - (set im | im in images[..i])
        invariant SyncOf(trace) == old(SyncOf(trace)) && Alike(old(world), world)
      {
        FreeOne(images[i]);
        assert images[..i + 1] == images[..i] + [images[i]];
      }
      assert images[..|images|] == images;
    }

    /** Dropping images of home `h` does not touch the rest of the table. */
    method FreeImages(h: Handle, images: seq<ImageState>)
      requires Books() && Table() && h !in swapchains && TracksImages(h, images)
      requires forall k :: 0 <= k < |images| ==> !images[k].fenceInFlight
      modifies this`trace, this`world, this`imgs, this`flags
      ensures Books() && Table() && imgs == old(imgs) - (set im | im in images)
      ensures SyncOf(trace) == old(SyncOf(trace)) && Alike(old(world), world)
    {
      hide Replay, SyncOf, Books;
      FreeAll(images);
    }

    method ShutdownRenderer(ui: ImguiRenderer?)
      requires FramesClosed() && (ui != null ==> ui in uis)
      modifies ui
      ensures FramesClosed()
    {
      if ui != null { ui.Shutdown(); }
    }

    ghost method RaiseBooks()
      requires Books()
      modifies this`trace, this`world
      ensures Books() && SameBut(old(world), world) && world.fault && world.slip
      ensures SyncOf(trace) == old(SyncOf(trace))
    {
      hide Replay, SyncOf, Mirror, HealthyAll, Fresh, Sound;
      Raise();
    }

    /** Waits for a swapchain's own fences, then frees its objects.  Throwing in between only leaks them. */
    method DestroyState(h: Handle, images: seq<ImageState>, ui: ImguiRenderer?) returns (threw: bool)
      requires Books() && Table() && FramesClosed() && h !in swapchains
      requires TracksImages(h, images) && (ui != null ==> ui in uis)
      requires forall k :: 0 <= k < |images| ==> images[k] in imgs
      modifies this`trace, this`world, this`latest, this`disabled, this`flags, this`imgs, ui, imgs
      ensures Books() && Table() && FramesClosed() && imgs <= old(imgs)
      ensures !threw ==> imgs == old(imgs) - (set im | im in images)
      ensures SyncOf(trace) == old(SyncOf(trace)) && world.open == old(world).open
      ensures if threw then world.fault && world.slip else world.fault == old(world).fault
    {
      hide Replay, SyncOf, Books, Table, TracksImages, FramesClosed;
      WaitOverlayIdle(images);
      threw := *;                                // shutting the avatar cache down
      if threw {
        RaiseBooks();
      } else {
        ShutdownRenderer(ui);
        FreeImages(h, images);
      }
    }

    /** Takes a swapchain's state out of the table and destroys it. */
    method Retire(h: Handle) returns (threw: bool)
      requires Valid() && h in swapchains
      modifies this`trace, this`world, this`latest, this`disabled, this`flags, this`swapchains, this`imgs, uis, imgs
      ensures Standing(threw) && swapchains == old(swapchains) - {h} && imgs <= old(imgs)
      ensures !threw ==> imgs == old(imgs) - (set im | im in old(swapchains)[h].images)
      ensures SyncOf(trace) == old(SyncOf(trace)) && world.open == old(world).open
    {
      hide Replay, SyncOf, Mirror, HealthyAll, Fresh, FramesClosed;
      var s := swapchains[h];
      assert TracksImages(h, s.images);
      swapchains := swapchains - {h};
      threw := DestroyState(h, s.images, s.imgui);
    }

    /** One image's objects, fresh: their fence is signaled and nothing is submitted. */
    method AllocOne(h: Handle) returns (img: ImageState)
      requires Books()
      modifies this`trace, this`world, this`imgs, this`flags, this`nextId
      ensures Books() && fresh(img) && img.home == h && !img.fenceInFlight && imgs == old(imgs) + {img}
      ensures old(Table()) ==> Table()
      ensures SyncOf(trace) == old(SyncOf(trace)) && Alike(old(world), world)
    {
      var id := nextId;
      NewIsFresh();
      AllocHealthy(world.res, flags, id);
      hide Replay, SyncOf, HealthyAll, Mirror, Sound, Fresh, Table;
      img := new ImageState(id, h);
      EmitAlloc(id);
      AddImage(img);
    }

    lemma NewIsFresh()
      requires Books()
      ensures nextId !in world.res && nextId !in flags
    {
    }

    method EmitAlloc(id: ResId)
      requires Sound() && Fresh(world.res) && id == nextId
      modifies this`trace, this`world, this`nextId
      ensures Sound() && Fresh(world.res) && world.res == old(world).res[id := NEW_RES] && nextId == id + 1
      ensures SyncOf(trace) == old(SyncOf(trace)) && Alike(old(world), world)
    {
      hide Replay, SyncOf;
      Emit(Alloc(id));
      nextId := nextId + 1;
    }

    ghost method AddImage(img: ImageState)
      requires Mirror() && !img.fenceInFlight && img.id !in flags
      modifies this`imgs, this`flags
      ensures Mirror() && imgs == old(imgs) + {img} && flags == old(flags)[img.id := false]
      ensures old(Table()) ==> Table()
    {
      flags := flags[img.id := false];
      imgs := imgs + {img};
    }

    /** One call that makes a new swapchain's objects comes back. */
    method Made() returns (ok: bool)
      requires Books()
      modifies this`trace, this`world
      ensures Books() && Making(old(world), world) && (ok || world.lacking)
      ensures SyncOf(trace) == old(SyncOf(trace))
    {
      hide Replay, SyncOf, Mirror, HealthyAll, Fresh;
      ok := *;
      if !ok { Emit(AllocFailed); }
    }

    /** Allocates the per-image objects of a new swapchain until one fails; that one counts as built. */
    method BuildImages(h: Handle, count: nat) returns (ok: bool, images: seq<ImageState>)
      requires Books() && Table() && h !in swapchains
      modifies this`trace, this`world, this`imgs, this`flags, this`nextId
      ensures Books() && Table() && imgs == old(imgs) + (set im | im in images) && fresh(set im | im in images)
      ensures TracksImages(h, images) && forall k :: 0 <= k < |images| ==> !images[k].fenceInFlight
      ensures SyncOf(trace) == old(SyncOf(trace)) && Making(old(world), world)
      ensures if ok then |images| == count else world.lacking
    {
      hide Replay, SyncOf, Books, Table;
      images := [];
      ok := Made();
      while |images| < count && ok
        invariant Books() && Table() && imgs == old(imgs) + (set im | im in images) && fresh(set im | im in images)
        invariant TracksImages(h, images) && forall k :: 0 <= k < |images| ==> !images[k].fenceInFlight
        invariant SyncOf(trace) == old(SyncOf(trace)) && Making(old(world), world)
        invariant |images| <= count && (ok || world.lacking)
        decreases count - |images|
      {
        var img := AllocOne(h);
        images := images + [img];
        ok := Made();
      }
    }

    /** Builds the overlay objects of a new swapchain of `count` images; on a failure it frees what it built. */
    method BuildState(h: Handle, count: nat) returns (ok: bool, images: seq<ImageState>)
      requires Books() && Table() && h !in swapchains
      modifies this`trace, this`world, this`imgs, this`flags, this`nextId
      ensures Books() && Table() && old(imgs) <= imgs && fresh(imgs - old(imgs))
      ensures TracksImages(h, images) && if ok then |images| == count else images == [] && world.lacking
      ensures SyncOf(trace) == old(SyncOf(trace)) && Making(old(world), world)
    {
      hide Replay, SyncOf, Books, Table;
      ok, images := BuildImages(h, count);
      if !ok {
        FreeImages(h, images);
        images := [];
      }
    }

    /** Starts tracking a new swapchain, drawable if its overlay objects could be built. */
    method Track(h: Handle, overlayCapable: bool, count: nat) returns (threw: bool)
      requires Valid() && h !in swapchains
      modifies this`trace, this`world, this`flags, this`swapchains, this`imgs, this`nextId
      ensures Standing(threw) && fresh(imgs - old(imgs)) && world.open == old(world).open
      ensures SyncOf(trace) == old(SyncOf(trace))
      ensures threw ==> swapchains == old(swapchains)
      ensures !threw ==> swapchains.Keys == old(swapchains).Keys + {h} && (swapchains[h].ok ==> overlayCapable)
      ensures !threw && overlayCapable ==> world.lacking || (swapchains[h].ok && |swapchains[h].images| == count)
      ensures forall g :: g in old(swapchains) ==> g in swapchains && swapchains[g] == old(swapchains)[g]
    {
      hide Replay, SyncOf, Mirror, HealthyAll, Fresh, FramesClosed;
      var ok, images := false, [];
      if overlayCapable { ok, images := BuildState(h, count); }
      threw := *;                                // allocating the vectors or the table entry
      if threw {
        Raise();
      } else {
        AddToTable(h, ok, images);
      }
    }

    method AddToTable(h: Handle, ok: bool, images: seq<ImageState>)
      requires Table() && Renderers() && h !in swapchains && TracksImages(h, images)
      modifies this`swapchains
      ensures Table() && Renderers() && swapchains == old(swapchains)[h := SwapchainState(ok, images, null, false)]
    {
      swapchains := swapchains[h := SwapchainState(ok, images, null, false)];
    }

    /** vkCreateSwapchainKHR: the application's swapchain first, then our bookkeeping, which may fail or throw
        without the application noticing.  The driver takes or refuses the request with the usage the overlay
        needs, and the application's exact one, and then returns `h`, with `count` images. */
    method CreateSwapchain(h: Handle, retired: Option<Handle>, addsUsage: bool, accepts: bool, acceptsExact: bool, count: nat)
      returns (created: bool)
      requires Valid() && !world.open && h !in swapchains && retired != Some(h)
      modifies this`trace, this`world, this`latest, this`disabled, this`flags, this`swapchains, this`imgs,
               this`overlayFailed, this`nextId, uis, imgs
      ensures Valid() && !world.open && SyncOf(trace) == old(SyncOf(trace)) && fresh(imgs - old(imgs))
      ensures created <==> accepts || (addsUsage && acceptsExact)
      ensures !created ==> swapchains == old(swapchains)
      ensures created && retired.Some? ==> retired.value !in swapchains
      ensures created && !deviceOff && !overlayFailed ==> h in swapchains
      ensures h in swapchains && accepts ==> world.lacking || (swapchains[h].ok && |swapchains[h].images| == count)
      ensures h in swapchains && !accepts ==> !swapchains[h].ok
      ensures forall g :: g in old(swapchains) && retired != Some(g) ==> g in swapchains && swapchains[g] == old(swapchains)[g]
    {
      hide Replay, SyncOf, Standing;
      created := accepts;
      var overlayCapable := created;
      if !created && addsUsage {                 // retried with the application's exact usage
        created := acceptsExact;
        overlayCapable := false;
      }
      if created {
        var threw := false;
        if retired.Some? && retired.value in swapchains { threw := Retire(retired.value); }
        if !threw && !deviceOff { threw := Track(h, overlayCapable, count); }
        CatchAll(threw);
      }
    }

    /** vkDestroySwapchainKHR: our objects go before the application's swapchain does. */
    method DestroySwapchain(h: Handle)
      requires Valid() && !world.open
      modifies this`trace, this`world, this`latest, this`disabled, this`flags, this`swapchains, this`imgs,
               this`overlayFailed, uis, imgs
      ensures Valid() && !world.open && SyncOf(trace) == old(SyncOf(trace))
      ensures swapchains == old(swapchains) - {h} && imgs <= old(imgs)
    {
      hide Replay, SyncOf, Standing;
      if h in swapchains {
        var threw := Retire(h);
        CatchAll(threw);
      }
    }
  }

  /** One present of a run: the application's wait list and the submits that succeeded. */
  type Call = (seq<Sem>, seq<ResId>)

  /** What the presents of a run put on the queue, one after the other. */
  function OpsOfCalls(calls: seq<Call>): seq<SyncOp> {
    if calls == [] then []
    else OpsOfCalls(calls[..|calls| - 1]) + PresentOps(calls[|calls| - 1].0, calls[|calls| - 1].1)
  }

  lemma OneMoreCall(calls: seq<Call>, call: Call)
    ensures OpsOfCalls(calls + [call]) == OpsOfCalls(calls) + PresentOps(call.0, call.1)
  {
    assert (calls + [call])[..|calls|] == calls;
  }

  /** Any run whatsoever: presents, swapchain creation and destruction in any order and with any
      arguments the API allows, with every driver call failing or not.  All of it stays allowed, and all the
      waits and signals of the run are those of its presents, one whole present after the other. */
  method AnyRun(deviceOff: bool, hasGraphics: bool, graphicsFamily: nat, queueFamilies: seq<(Queue, nat)>)
    returns (layer: Layer, ghost calls: seq<Call>)
    ensures fresh(layer) && LegalRun(layer.trace)
    ensures Enters(layer.trace) == Presents(layer.trace)
    ensures SyncOf(layer.trace) == OpsOfCalls(calls) && forall k :: 0 <= k < |calls| ==> Distinct(calls[k].1)
  {
    layer := new Layer(deviceOff, hasGraphics, graphicsFamily, queueFamilies);
    calls := [];
    var steps :| 0 <= steps;
    for i := 0 to steps
      invariant layer.Valid() && !layer.world.open && fresh(layer) && fresh(layer.imgs) && fresh(layer.uis)
      invariant SyncOf(layer.trace) == OpsOfCalls(calls) && forall k :: 0 <= k < |calls| ==> Distinct(calls[k].1)
    {
      calls := OneStep(layer, calls);
    }
    OnePresentDownPerEnter(layer.trace);
  }

  method OneStep(layer: Layer, ghost before: seq<Call>) returns (ghost calls: seq<Call>)
    requires layer.Valid() && !layer.world.open
    requires SyncOf(layer.trace) == OpsOfCalls(before) && forall k :: 0 <= k < |before| ==> Distinct(before[k].1)
    modifies layer, layer.imgs, layer.uis
    ensures layer.Valid() && !layer.world.open
    ensures fresh(layer.imgs - old(layer.imgs)) && fresh(layer.uis - old(layer.uis))
    ensures SyncOf(layer.trace) == OpsOfCalls(calls) && forall k :: 0 <= k < |calls| ==> Distinct(calls[k].1)
  {
    calls := before;
    hide Replay, SyncOf, PresentOps, OpsOfCalls, Distinct, Layer.Valid;
    if {
      case true =>
        var queue: Queue, app: seq<Sem>, presents: seq<(Handle, nat)> := *, *, *;
        if DistinctSwapchains(presents) {
          var ids := layer.QueuePresent(queue, app, presents);
          OneMoreCall(before, (app, ids));
          calls := before + [(app, ids)];
        }
      case true =>
        var h: Handle, retired: Option<Handle>, count: nat := *, *, *;
        var addsUsage: bool, accepts: bool, acceptsExact: bool := *, *, *;
        if h !in layer.swapchains && retired != Some(h) {
          var created := layer.CreateSwapchain(h, retired, addsUsage, accepts, acceptsExact, count);
        }
      case true =>
        var h: Handle := *;
        layer.DestroySwapchain(h);
    }
  }
}
