# Choir verification model

Choir draws a Discord voice overlay inside games. A Vulkan layer hooks `vkQueuePresentKHR` and
swapchain creation in the game's process; a desktop host talks to Discord, reduces its events to a
snapshot and replicates that to every layer over local sockets. The parts of it that are protocols,
parsers or ordered effects are modelled here and proved correct:

- **Present hook** (`Vulkan.dfy`, `PresentHook.dfy`). `Vulkan` is a reference automaton over the calls
  that reach the driver: which call is allowed in which state of a fence, a command buffer, an object's
  life, and of the isolation the overlay promises. It follows sections 7.3 and 7.4 of the Vulkan 1.3
  specification and knows nothing of the layer. `PresentHook` is the layer: image flags, the UI
  renderer's frame flag, the swapchain table and the latch, updated in place, with every driver result
  nondeterministic and the GPU and the client thread acting between any two calls. Every run of it is
  one the automaton allows; what that means in events is stated by the lemmas of `Vulkan`.
- **Framing** (`Framing.dfy`). The frame codec, the incremental reader and its backlog bound, the
  partial-write loop, and the parse of a whole stream they are compared with.
- **State reducer** (`OverlayState.dfy`). The reducer as a class over a roster and an index, and what
  its snapshot says about the log of events it has seen.
- **Replication** (`Replication.dfy`). Server and client as classes, and the system of them with one
  ordered wire for each connection, stepping in any order.
- **Wire** (`Wire.dfy`). Messages as frames in a byte stream that is cut into reads: framing and replication
  put together, so that the agreement of the layers with the host holds over bytes.
- **Discord connection** (`RpcClient.dfy`). The connection state machine over its socket, with sends
  that fail at any point and come back as a closed connection in the middle of a handler.
- **Notification text** (`Emoji.dfy`, `EmojiGrammar.dfy`, `EmojiRuns.dfy`, `EmojiSegments.dfy`,
  `NotificationText.dfy`). UTF-8, markup and emoji matching, the split into runs, keys and URLs, id
  recovery and the bidi strip. `EmojiGrammar` says what an emoji is without saying how to find one.
- **Layout** (`Layout.dfy`). Placing runs on lines, with the font's widths and wrapping as oracles: the layout on as
  many lines as it takes, and what a bound on the lines and the ellipsis make of it.
- **Backends** (`Backends.dfy`). Installing and removing the libraries one file operation at a time.

Code that updates objects in place is classes and methods, each method tied to a function of its
inputs or of the old state; the properties are lemmas about those functions, about event traces or
about whole runs. Results of foreign calls are nondeterministic; a `const` such as `socketWorks` says that none of a
kind fails, and the clauses under it say that the code does not give up of itself. A clause on a method that returns
`ghost` values names facts about the run that the source does not return.

Six things the source's comments or protocol lead one to expect do not hold in general; the exact
condition is proved instead: waiting each overlay semaphore once (`Vulkan.WaitedOnceExactlyWhenOneSubmitted`),
delivery of every frame within the cap (`Framing.ArrivesExactlyWhen`), a removal that never leaves the
manifest without its library (`Backends.RemovalIsConsistentExactlyWhen`), a strip that has nothing left to do
the second time (`NotificationText.StripIsIdempotentExactlyWhen`), a display text that gets all its markup
back (`NotificationText.RestoresExactlyWhen`), and a restart that finds no stale subscriptions
(`RpcClient.RpcClient.Start`). The last is about the class alone: `RpcClient.RestartOverLive` reaches the
failing case by starting twice. The host never does: it starts once on launch, and a reconnect asked for
from the tray stops first (`src/host/main.cpp:247` and `:221-224`).

## Model

| member | source | states |
|---|---|---|
| `Vulkan.NoWaitCanHang` | src/layer/swapchain.cpp:91-99 | In any run of calls the automaton allows, every unbounded fence wait, from a present or from a teardown, is on a fence that an earlier submit of the same run carries and that has not been reset since |
| `Vulkan.NoEmptySubmit` | src/layer/swapchain.cpp:432-471 | Before each submit of a command buffer a frame was drawn in it, since it was last begun |
| `Vulkan.CommandsAreInOrder` | src/layer/swapchain.cpp:438-471 | The calls on a command buffer come in order: a pass begins, and the buffer ends, outside of a pass; drawing and the end of a pass come inside one; what is submitted has been ended with success |
| `Vulkan.SubmitsAnUnsignaledFence` | src/layer/swapchain.cpp:708-723 | Before each submit the fence it is given was reset to unsignaled, and no submit with it has finished since |
| `Vulkan.NoReuseInFlight` | src/layer/swapchain.cpp:427-440 | Between a successful submit of an image and any later re-recording, reset, resubmission or freeing of its objects, that submit has finished |
| `Vulkan.OverlayWorkIsIsolated` | src/layer/swapchain.cpp:333-370 | Renderer init, fence wait, fence reset, recording or submit happens only inside a present that was entered with no host disable and no latch anywhere before, and while an in-voice snapshot is current at some moment of that present |
| `Vulkan.FaultLatchesBeforeNextFrame` | src/layer/swapchain.cpp:714-738 | After a failed submit or an exception raised in the layer, no present goes down and none is entered before the overlay is switched off |
| `Vulkan.NoLatchWithoutCause` | src/layer/swapchain.cpp:714-738 | The overlay is switched off only after an exception, a failed submit, or a fence reset that failed with nothing submitted in that present |
| `Vulkan.OnePresentDownPerEnter` | src/layer/swapchain.cpp:610-628 | In every allowed run exactly one down-chain present happens for each present entered, up to the one in progress |
| `Vulkan.AppWaitedByOneOperation` | src/layer/swapchain.cpp:678-702 | Over a whole present each of the application's semaphores is waited exactly as often as it asked, all by the first operation, the first submit or the forwarded present itself, with the original list |
| `Vulkan.OrderedAfterApp` | src/layer/swapchain.cpp:684-702 | Through semaphores every operation of a present comes after every earlier one: submits and present after the operation that waited for the application, the present after every submit that succeeded |
| `Vulkan.PresentAfterEverySubmit` | src/layer/swapchain.cpp:740-748 | The present itself waits for every overlay submit that succeeded, so its rewritten wait list is never empty |
| `Vulkan.WaitedOnceExactlyWhenOneSubmitted` | src/layer/swapchain.cpp:698-702 | Each overlay-done semaphore is waited exactly once if and only if at most one submit of the present succeeded; with two, the first is waited by the second submit and again by the present |
| `Vulkan.SubmittedMeans` | src/layer/swapchain.cpp:739-740 | What the automaton calls submitted is a submit event of the run with no fence reset after it |
| `Vulkan.PendingUntilDone` | src/layer/swapchain.cpp:427-431 | What the automaton calls pending is a submit event of the run that neither the GPU nor a wait has finished |
| `PresentHook.ImguiRenderer.BeginFrame` | src/layer/imgui_renderer.cpp:188-225 | Opens a frame unless it throws; vertices are drawn only in voice |
| `PresentHook.ImguiRenderer.EndFrame` | src/layer/imgui_renderer.cpp:236-257 | Closes the frame; only recording can throw, and then the frame stays open |
| `PresentHook.ImguiRenderer.Shutdown` | src/layer/imgui_renderer.cpp:272-303 | Leaves the renderer not ready and closes a frame it had open |
| `PresentHook.QueueFamilyFor` | src/layer/dispatch.cpp:131-136 | The family of the first entry for the queue, and the unknown family when none is for it |
| `PresentHook.FamilyIs` | src/layer/dispatch.cpp:131-136 | By index: exactly one family is that of the first entry for a queue, or the unknown one when there is none, and the search finds it |
| `PresentHook.Layer.MarkOverlayFailed` | src/layer/dispatch.cpp:138-148 | Sets the latch, and nothing else; what leads to it, and only that, is said by `Vulkan.NoLatchWithoutCause` and `Vulkan.FaultLatchesBeforeNextFrame` |
| `PresentHook.Layer.WaitForFence` | src/layer/swapchain.cpp:427-436 | Waits only a fence a submit carries; after a wait that succeeds the GPU is done with the image |
| `PresentHook.Layer.LazyInit` | src/layer/swapchain.cpp:349-366 | Tries to create a swapchain's renderer, only when work is allowed, and opens no frame; unless it throws, there is one initialization and a ready renderer exactly if that succeeded |
| `PresentHook.Layer.EnsureRenderer` | src/layer/swapchain.cpp:345-368 | In voice, the lazy init has been tried once it returns without a throw; no other swapchain changes |
| `PresentHook.Layer.RecordInto` | src/layer/swapchain.cpp:438-471 | Whatever call fails or throws, the command buffer is left closed and not in use; when recording is reported as done, and only after a failure is it not, the buffer is executable and a frame is drawn in it; the UI frame stays open only after a throw |
| `PresentHook.Layer.DrawFrame` | src/layer/swapchain.cpp:394-472 | Builds the frame, then waits and records; a drawn image is ready to submit, and every frame is closed unless the latch is set |
| `PresentHook.Layer.RecordOne` | src/layer/swapchain.cpp:320-472 | Draws only when it may and touches no other swapchain; returns an image exactly when one was drawn and is ready to submit; fails only after a failed call or without overlay objects; skips only if at some moment of the present the process was disabled or not in voice, or if the renderer was tried and there is none or its frame is empty |
| `PresentHook.Layer.RecordAll` | src/layer/swapchain.cpp:655-676 | The images to submit are distinct and all ready, and every presented swapchain is among them or has nothing to show after its renderer was tried, or the process was disabled or out of voice; it fails only after a failed call or on an untracked or undrawable swapchain |
| `PresentHook.Layer.TrySubmit` | src/layer/swapchain.cpp:703-742 | The in-flight flag is set exactly when the submit succeeded, whichever call failed, and the operation it adds waits what it was given and signals the image's own semaphore |
| `PresentHook.Layer.SubmitOne` | src/layer/swapchain.cpp:691-743 | A failed submit, and a failed reset of the first fence, switch the overlay off before anything else |
| `PresentHook.Layer.SubmitNext` | src/layer/swapchain.cpp:691-743 | The next image waits for the one before it; on a failure the batch ends with what was submitted so far |
| `PresentHook.Layer.SubmitAll` | src/layer/swapchain.cpp:678-743 | Submits an initial part of the recorded images, the first waiting the application's semaphores and each other its predecessor; all of them unless a call failed; nothing submitted means the latch is set |
| `PresentHook.Layer.QueuePresent` | src/layer/swapchain.cpp:610-759 | One present goes down whatever fails: the application's own list untouched, or the overlay submits in a chain and then the present on their semaphores; never any submit when latched or disabled, without a graphics family, or where the entry for the queue is not of that family; never more than swapchains presented, so that a present of one swapchain waits its overlay-done semaphore just once; and where the present may carry the overlay, unless some call failed or the process was disabled or out of voice at some moment, every presented swapchain was submitted or has no renderer or an empty frame after the renderer was tried |
| `PresentHook.Layer.WaitOverlayIdle` | src/layer/swapchain.cpp:91-99 | Afterwards no image of the swapchain is in flight, having waited only fences that were submitted |
| `PresentHook.Layer.DestroyState` | src/layer/swapchain.cpp:105-136 | Frees exactly the swapchain's idle images; throwing in between only leaks them |
| `PresentHook.Layer.BuildState` | src/layer/swapchain.cpp:141-298 | All of the images' objects are made, unless some call that makes objects failed, and then none is left |
| `PresentHook.Layer.CreateSwapchain` | src/layer/swapchain.cpp:476-573 | Whatever fails or throws, the old swapchain is retired, every other one kept as it is, and the new one tracked unless the overlay is off or was just switched off, to be drawn to exactly if its usage allows it and its objects could be made |
| `PresentHook.Layer.DestroySwapchain` | src/layer/swapchain.cpp:575-608 | Waits, frees and forgets one swapchain and leaves every other alone |
| `PresentHook.AnyRun` | src/layer/swapchain.cpp:476-759 | Every run of presents, creations and destructions, with every driver call free to fail and the GPU and the state client acting in between, is one the automaton allows, so all the statements about runs apply to it; and its waits and signals are those of its presents, one whole present after the other |
| `Framing.EncodeFrame` | src/ipc/protocol.cpp:7-26 | Appends to what is there four bytes of length, lowest first, then the type and the payload, which the length counts; decoding gives the frame back |
| `Framing.DecodesExactlyWhen` | src/ipc/protocol.cpp:28-55 | For all bytes: a frame is decoded if and only if the bytes begin with its encoding; more is asked for if and only if they are a proper first part of some legal frame; all else is refused |
| `Framing.DecodeEncoded` | src/ipc/protocol.cpp:28-55 | Decoding an encoded frame gives it back, with the right length, whatever follows |
| `Framing.DecodeCut` | src/ipc/protocol.cpp:28-48 | Every proper prefix of an encoded frame asks for more |
| `Framing.ParseInParts` | src/ipc/framing.cpp:54-68 | Parsing a stream in two parts, carrying the rest over, is parsing it whole |
| `Framing.ParseEncoded` | src/ipc/framing.cpp:54-68 | A sequence of encoded frames parses to exactly those frames |
| `Framing.FrameReader.Feed` | src/ipc/framing.cpp:27-52 | Adds what was read, and dies for good when the backlog passes the bound; end of stream and hard errors end it, transient errors do not |
| `Framing.FrameReader.Next` | src/ipc/framing.cpp:54-68 | Takes the first whole frame off the buffer, or dies on a bad header |
| `Framing.FrameReader.Drain` | src/overlay/state_client.cpp:199-249 | Takes what parsing the buffer gives, and leaves its rest |
| `Framing.Turn` | src/overlay/state_client.cpp:199-244 | One read and the drain after it carry the reader from what some reads deliver to what one read more delivers, the frames taken being exactly the difference |
| `Framing.Serve` | src/overlay/state_client.cpp:195-249 | The reading loop, whatever each read returns, delivers what feeding and draining its data one read after the other delivers |
| `Framing.ChunkIndependence` | src/ipc/framing.cpp:27-68 | However the stream is cut, the reader delivers what the whole stream parses to up to the first bad header, unless the backlog bound kills it, and then an initial part of that |
| `Framing.FailureIsPermanent` | src/ipc/framing.cpp:27-28 | A reader that failed never delivers or buffers anything again |
| `Framing.EncodedFramesArrive` | src/ipc/framing.cpp:27-68 | Any frames that each occupy at most kMaxFrameLen - 4095 bytes arrive exactly, however they are cut into reads |
| `Framing.ArrivesExactlyWhen` | src/ipc/framing.cpp:34-41 | A legal frame is sure to arrive if and only if it occupies at most kMaxFrameLen - 4095 bytes, with whatever behind it, and just as well with only other encoded frames behind it: a larger one the cap lets through is killed by 819 Pings following it, cut into suitable reads |
| `Framing.WriteFrame` | src/ipc/framing.cpp:8-25 | However the writes are split and interrupted, the peer has what the writes took in all, up to the frame; the call stops as soon as that is all of it, which is success, at the first error or write of nothing, and nowhere else |
| `Framing.DrainFrames` | src/host/server/state_server.cpp:87-114 | The server takes exactly the frames its buffer parses to, and drops the client on a bad header or a backlog over the cap |
| `Replication.StateClient.Dispatch` | src/overlay/state_client.cpp:201-248 | A message changes what the client shows as its kind says, a Ping is answered; malformed avatars change nothing |
| `Replication.StateClient.AvatarFor` | src/overlay/state_client.cpp:110-115 | For every sequence of messages that leads from a blank client to what this one has seen: the entry of the last usable announcement of the hash in it, and nothing exactly when there is none |
| `Replication.LatestIsKept` | src/overlay/state_client.cpp:110-127 | Receiving any messages from the blank state keeps, for each hash, the entry of the last usable announcement and no other |
| `Replication.DisabledIsKept` | src/overlay/state_client.cpp:236-241 | A view is disabled if and only if it was so or a Disabled frame is among the messages received |
| `Replication.SnapshotIsLast` | src/overlay/state_client.cpp:204-222 | The snapshot shown is the last one received, or what was there before any |
| `Replication.StateServer.SendToActive` | src/host/server/state_server.cpp:171-173 | Every active client's wire gets the message, no other wire changes |
| `Replication.StateServer.BroadcastSnapshot` | src/host/server/state_server.cpp:167-174 | The current snapshot is replaced and every active client is sent it |
| `Replication.StateServer.BroadcastAvatarReady` | src/host/server/state_server.cpp:176-183 | The avatar is recorded and announced to every active client |
| `Replication.StateServer.SeedClient` | src/host/server/state_server.cpp:154-163 | The wire gets the current snapshot and then every known avatar once, in some order |
| `Replication.StateServer.HandleHello` | src/host/server/state_server.cpp:116-152 | The first Hello makes a client inert, and its wire gets a Disabled frame, if the executable or some argument is on the denylist (of a malformed Hello, if the empty name is), and otherwise active, with the snapshot and every avatar; later ones change nothing |
| `Replication.StateServer.IsBlocked` | src/host/server/state_server.cpp:140-143 | Blocked if and only if the executable or some argument is; a malformed Hello counts as an empty executable |
| `Replication.StateServer.HandleFrame` | src/host/server/state_server.cpp:100-111 | A Ping is answered whoever asks; a Hello classifies a client that is neither active nor inert; a Pong changes nothing |
| `Replication.StateServer.OnDisconnected` | src/host/server/state_server.cpp:80-85 | The client is forgotten; nothing else changes |
| `Replication.BroadcastKeeps` | src/host/server/state_server.cpp:167-183 | A broadcast keeps every active client on the way to the host's state |
| `Replication.GreetKeeps` | src/host/server/state_server.cpp:116-163 | A Hello keeps it, late joiners and reconnects included |
| `Replication.ReceiveKeeps` | src/overlay/state_client.cpp:196-248 | Taking a message off the wire keeps it |
| `Replication.EveryRunKeeps` | src/host/main.cpp:182-192 | In every interleaving of connects, Hellos, host events, avatars, deliveries and disconnects the invariant holds |
| `Replication.ActiveClientsAgree` | src/host/server/state_server.cpp:150-182 | After any run an active client, once it has taken what is on its wire, has the host's present snapshot and every avatar the host knows; at quiescence it has them already |
| `Replication.RevisionsAreConsecutive` | src/host/main.cpp:183-186 | The revisions a client takes off one connection are consecutive, never skipped or repeated |
| `Replication.DisabledWiresCarryNothing` | src/host/server/state_server.cpp:140-148 | No connection is both active and inert, and one that was sent Disabled is never sent a snapshot or an avatar, before or after |
| `Replication.CurrentIsTheHosts` | src/host/main.cpp:182-192 | In every run the snapshot the server holds is that of the reducer over the log of the host's events since it started |
| `Replication.AvatarsAreLast` | src/host/server/state_server.cpp:176-183 | In every run the avatar the server holds for a hash is the last one made ready under it since the host last started, and there is one exactly if some was |
| `Replication.DisabledExactlyWhenTold` | src/overlay/state_client.cpp:236-241 | In every run a process has its overlay disabled if and only if it has taken a Disabled frame on some connection |
| `Replication.DisabledStays` | src/overlay/state_client.cpp:236-241 | Once disabled, a process stays so through every later step |
| `Replication.InertClientsLearn` | src/host/server/state_server.cpp:140-148 | In every run a process with a connection that the server holds inert is disabled once it has taken what is on its wire |
| `Wire.StreamCarriesMessages` | src/overlay/state_client.cpp:195-249 | Messages that read back as they were written, in frames within the bound, are read off the byte stream exactly, each once and in order, however it is cut into reads |
| `Wire.ServeClient` | src/overlay/state_client.cpp:195-249 | The connection loop leaves the client as receiving, in order, the messages of the frames in the bytes it read leaves it, and stops early only at an end of stream, a hard error or a failed reader |
| `Wire.BytesLeadToAgreement` | src/host/server/state_server.cpp:150-182 | For the whole byte stream of a connection, cut into reads anywhere and with part of a frame held back or not: a client that has taken what the reads so far deliver has taken the first messages of its wire, and once it has dispatched what the remaining reads deliver it has the host's present snapshot and every avatar the host knows |
| `OverlayState.OverlayState.Apply` | src/host/model/overlay_state.cpp:24-103 | The new snapshot is the specification's, the index is again the roster's inverse, and the change is announced exactly when the revision moved |
| `OverlayState.OverlayState.ApplyDelete` | src/host/model/overlay_state.cpp:67-79 | Removes one participant and rebuilds the index; an unknown user changes nothing |
| `OverlayState.OverlayState.ApplySpeaking` | src/host/model/overlay_state.cpp:81-89 | Changes one flag of a participant that is there and nothing else |
| `OverlayState.OverlayState.RebuildIndex` | src/host/model/overlay_state.cpp:72-76 | The index becomes the exact inverse of the roster |
| `OverlayState.OverlayState.SetConfig` | src/host/model/overlay_state.cpp:105-108 | Only the configuration and the revision change |
| `OverlayState.RosterIsTheLogs` | src/host/model/overlay_state.cpp:40-89 | For every log the roster is exactly the users present, each once and in join order; one speaks exactly when its last speaking event since joining was a start, and nick, avatar, mute, deaf, self-mute and self-deaf are, field by field, those of its last voice event |
| `OverlayState.PresentIsListed` | src/host/model/overlay_state.cpp:40-79 | A user is in the roster if and only if the log has a voice event of it that no later entry undid |
| `OverlayState.RevisionCountsEffects` | src/host/model/overlay_state.cpp:19-22 | The revision is the number of calls that had an effect, and a call without one changes nothing |
| `OverlayState.NotificationsAreNewest` | src/host/model/overlay_state.cpp:91-101 | The notifications are the newest twenty of the whole stamped history, newest first |
| `OverlayState.ChannelIsLastSelected` | src/host/model/overlay_state.cpp:26-38 | In voice exactly when the last selected channel is one, under its name |
| `OverlayState.ConfigIsLastSet` | src/host/model/overlay_state.cpp:105-108 | The configuration is the last one set, or the default before any, whatever else happened |
| `RpcClient.RpcClient.HandleClosed` | src/host/discord/ipc_transport.cpp:223-229 | The first time only: the socket is closed, the channel forgotten, and a reconnect due unless stopped |
| `RpcClient.RpcClient.Send` | src/host/discord/ipc_transport.cpp:104-147 | A send that fails closes the connection with all that follows from it; on a closed one it does nothing |
| `RpcClient.RpcClient.TryConnect` | src/host/discord/rpc_client.cpp:75-93 | The attempt is recorded; either the socket is open with the handshake sent as the first message, or a reconnect is due a delay later; it is open if connecting and writing work |
| `RpcClient.RpcClient.Start` | src/host/discord/rpc_client.cpp:61-65 | Keeps every invariant; one attempt is made, and an open socket has just been sent the handshake; the channel subscriptions still match if and only if no earlier connection left some live |
| `RpcClient.RestartOverLive` | src/host/discord/rpc_client.cpp:61-65 | Starting again without stopping, after a channel was subscribed to: if the sends succeed the socket is open, Discord holds the five subscriptions of that channel, and the client has forgotten them |
| `RpcClient.RpcClient.Stop` | src/host/discord/rpc_client.cpp:67-73 | Closed, no reconnect due, and no closing reported |
| `RpcClient.RpcClient.SubscribeChannel` | src/host/discord/rpc_client.cpp:264-269 | If the socket survives, the five subscriptions of the channel are live as well as those before |
| `RpcClient.RpcClient.UnsubscribeChannel` | src/host/discord/rpc_client.cpp:271-276 | If the socket survives, exactly those five are gone |
| `RpcClient.RpcClient.HandleChannelSelect` | src/host/discord/rpc_client.cpp:238-262 | The live channel subscriptions follow the selected channel, whichever send fails, by the five unsubscribes of the old channel and the five subscribes of the new one in turn, and no other message; the channel is remembered in every case, and a subscribe that fails leaves the state InChannel with the socket closed and a reconnect due |
| `RpcClient.RpcClient.HandleSelectedVoiceChannel` | src/host/discord/rpc_client.cpp:209-236 | In Ready or InChannel and for another channel than the known one: the overlay becomes what selecting the channel and then each member's voice event make of it, and the subscriptions move; in every other case nothing changes |
| `RpcClient.SeededShows` | src/host/discord/rpc_client.cpp:209-236 | Joining a channel with members shows that channel and just those members, each once, silent and as its last state says |
| `RpcClient.RpcClient.HandleAuthorizeResponse` | src/host/discord/rpc_client.cpp:159-184 | Only while authorizing: without a code the connection is given up; a code is exchanged, and the token sent to authenticate; a failed exchange gives up |
| `RpcClient.RpcClient.HandleAuthenticateResponse` | src/host/discord/rpc_client.cpp:186-207 | Only while authorizing: an error gives up; otherwise the two subscriptions and the question for the current channel are sent in turn, and the client is ready |
| `RpcClient.RpcClient.OnMessage` | src/host/discord/rpc_client.cpp:116-157 | For each kind of message, the messages sent in turn, the state and the overlay: READY asks for authorization, a code is exchanged and used, authentication leads to the three requests, a known channel is joined, an event reaches the overlay once and a channel change the subscriptions; other operations change nothing. If writes work, only a failed authorization or authentication closes the connection |
| `RpcClient.RpcClient.Fill` | src/host/discord/ipc_transport.cpp:177-201 | Buffers the data of just the reads up to the first short one or the first that is no data, or drops the connection on end of stream, error or too long a backlog |
| `RpcClient.RpcClient.Route` | src/host/discord/ipc_transport.cpp:203-221 | A PING is answered with its own bytes; anything else that parses, and nothing else, reaches the state machine |
| `RpcClient.RpcClient.Dispatch` | src/host/discord/ipc_transport.cpp:203-221 | Takes off the messages the buffer splits into, in order, and routes each: all of them while the socket stays open; if writes work it is closed only behind the last one by a corrupt header, or by a message given up on |
| `RpcClient.RpcClient.Poll` | src/host/discord/rpc_client.cpp:95-114 | A due reconnect is tried first; every invariant is kept; while the socket stays open every message in the bytes read is routed and the rest kept, and if connecting and writing work, it is closed only by the other side, too long a backlog, a corrupt header or a message given up on |
| `RpcClient.PeelSent` | src/host/discord/ipc_transport.cpp:104-112 | Taking a message off the front of a buffer undoes writing it, whatever follows |
| `RpcClient.PeelCut` | src/host/discord/ipc_transport.cpp:153-160 | Every proper first part of a written message asks for more |
| `RpcClient.CorruptExactlyWhen` | src/host/discord/ipc_transport.cpp:161-164 | A buffer is given up if and only if its header is complete and no message that may be sent starts with that header |
| `RpcClient.PeelAllSent` | src/host/discord/ipc_transport.cpp:203-221 | Any messages written one after the other, with the start of another behind them, split into exactly those messages and that start |
| `RpcClient.AnySession` | src/host/discord/rpc_client.cpp:61-114 | In every session: from start to stop the socket is closed exactly when a reconnect is pending, and a pending one is due within a delay; attempts are a delay apart; while open, the live channel subscriptions are the five of our channel; a channel we subscribe to is the one the overlay shows |
| `RpcClient.FewAttempts` | src/host/discord/rpc_client.cpp:285-289 | A run of n attempts takes at least n - 1 delays |
| `RpcClient.OneDropPerConnection` | src/host/discord/ipc_transport.cpp:223-238 | Between two reported closings a connection was made |
| `Emoji.DecodeUtf8` | src/ipc/emoji.cpp:14-30 | Decodes the codepoint at the cursor as the specification does, overlong forms included |
| `Emoji.DecodesExactlyWhen` | src/ipc/emoji.cpp:14-30 | For all bytes: a codepoint is decoded, with its size, if and only if the text begins with it in a row of the table of RFC 3629 that can hold its bits, the right row or an overlong one |
| `Emoji.DecodeEncoded` | src/ipc/emoji.cpp:14-30 | Decoding undoes RFC 3629 encoding for every codepoint, whatever follows |
| `Emoji.MatchCustom` | src/ipc/emoji.cpp:67-85 | Finds the specification's markup, its size, name and id |
| `Emoji.MatchedExactlyWhenSpelled` | src/ipc/emoji.cpp:66-85 | A markup is matched if and only if it has a nonempty name of name bytes and a nonempty id of digits and the text starts with its spelling |
| `Emoji.Extend` | src/ipc/emoji.cpp:134-156 | The loop takes exactly the modifiers and joined pictographs the specification takes |
| `Emoji.MatchUnicode` | src/ipc/emoji.cpp:89-157 | Finds the specification's emoji, its size and codepoints |
| `EmojiGrammar.LongestMatch` | src/ipc/emoji.cpp:87-157 | A text is matched if and only if it starts with an emoji of the grammar, and the match is the longest one; a keycap is recorded with VS16 whether written or not |
| `EmojiGrammar.MatchOfPrefix` | src/ipc/emoji.cpp:87-157 | What is matched depends on no byte behind the match |
| `EmojiRuns.TwemojiStem` | src/ipc/emoji.cpp:161-174 | Builds the specification's stem |
| `EmojiRuns.NormalIs` | src/ipc/emoji.cpp:162-168 | A sequence with a ZWJ keeps all codepoints; without one just the VS16s go |
| `EmojiRuns.HexIs` | src/ipc/emoji.cpp:169 | A codepoint is written in lower-case hex without padding, the highest digit first |
| `EmojiRuns.StemNext` | src/ipc/emoji.cpp:170-171 | A stem grows by a dash and the hex of one codepoint, the first without the dash |
| `EmojiRuns.UnjoinJoined` | src/ipc/emoji.cpp:166-172 | Unpadded hex joined by dashes reads back to the same numbers |
| `EmojiRuns.StemIsFaithful` | src/ipc/emoji.cpp:161-174 | Two sequences have one stem if and only if they agree once VS16 is dropped from those without ZWJ |
| `EmojiRuns.NextPiece` | src/ipc/emoji.cpp:189-208 | The markup, emoji or plain bytes at the cursor, tried in that order |
| `EmojiRuns.RunIs` | src/ipc/emoji.cpp:189-203 | Markup is drawn as `:name:` and keyed by `emoji.c.` and its id, an emoji as its bytes and keyed by `emoji.u.` and its stem |
| `EmojiRuns.SplitRuns` | src/ipc/emoji.cpp:176-212 | The loop produces the specification's runs, on every byte string |
| `EmojiSegments.RunsPartitionTheText` | src/ipc/emoji.cpp:176-212 | The runs correspond in order to nonempty slices that make up the text; text and unicode runs are their slices, custom runs carry their slice's name and id, and no two text runs are adjacent |
| `EmojiSegments.EverySliceSplitsToItsRun` | src/ipc/emoji.cpp:176-212 | Each slice, split on its own, is just its run: no emoji inside a text run was overlooked |
| `EmojiSegments.RunsDrawTheText` | src/ipc/emoji.cpp:184-211 | Joined, the run texts are the text with each markup replaced by its shortcode, and the custom runs are its markups in order |
| `EmojiSegments.UrlIs` | src/ipc/emoji.cpp:214-224 | The URL of a custom emoji by its id, of a unicode emoji by its stem, each at its own host, and none for any other key |
| `EmojiSegments.UrlsAreFaithful` | src/ipc/emoji.cpp:214-224 | A key with a URL shares it with no other key |
| `EmojiSegments.RunsHaveUrls` | src/ipc/emoji.cpp:191-201 | A run has a nonempty URL if and only if it is an emoji |
| `EmojiSegments.SameImage` | src/ipc/emoji.cpp:161-224 | Two emoji ask for one image if and only if their ids, or their codepoints under the VS16 rule, agree |
| `NotificationText.HarvestMarkup` | src/ipc/emoji.cpp:227-237 | The map of the specification, the last markup of a name winning |
| `NotificationText.HarvestIsLastDrawn` | src/ipc/emoji.cpp:227-237 | A name is known if and only if splitting the raw text draws it, and stands for the last emoji so drawn |
| `NotificationText.HarvestStandsThere` | src/ipc/emoji.cpp:227-237 | The markup a name stands for is a piece of the raw text, byte by byte |
| `NotificationText.RestoreCustomMarkup` | src/ipc/emoji.cpp:226-261 | Rewrites exactly the known shortcodes, also when none is known |
| `NotificationText.RestoresExactlyWhen` | src/ipc/emoji.cpp:226-261 | Restoring turns a text's display form back into the text if and only if each of its markups is the one its name stands for and no other place of the display form reads as the shortcode of a known name |
| `NotificationText.NameBeforeMarkupDoesNotComeBack` | src/ipc/emoji.cpp:245-256 | A family of inputs where it does not: `:a<:a:1>` is displayed as `:a:a:`, and the first shortcode is the one rewritten |
| `NotificationText.StripBidiControls` | src/host/discord/rpc_messages.cpp:64-80 | The loop drops exactly the specification's byte triples |
| `NotificationText.StripFiltersCodepoints` | src/host/discord/rpc_messages.cpp:64-80 | On well-formed UTF-8 the strip is the codepoint filter of the eleven controls |
| `NotificationText.StripIsIdempotentExactlyWhen` | src/host/discord/rpc_messages.cpp:64-80 | For all bytes: stripping twice is stripping once if and only if nowhere in the text does a lead byte, followed by its two continuation bytes with only whole controls dropped in between, come to be a control |
| `NotificationText.StripIsIdempotent` | src/host/discord/rpc_messages.cpp:64-80 | On well-formed UTF-8 stripping twice is stripping once |
| `NotificationText.StripIsNotIdempotentOnStrayBytes` | src/host/discord/rpc_messages.cpp:60-80 | A literal malformed input where dropping one control completes another: the second strip drops what the first left |
| `NotificationText.FallbackTextIsKept` | src/host/discord/rpc_messages.cpp:142-147 | For any display body without `<` and any raw content, the joined run texts of the stripped restored body are the stripped display body, and the custom emoji are exactly the recovered shortcodes in order |
| `NotificationText.NotificationBody` | src/host/discord/rpc_messages.cpp:146-147 | The body field is the stripped restored display text, and draws as the stripped display text does |
| `Layout.BuildItems` | src/overlay/overlay_ui.cpp:254-265 | The items are those of the specification, draw what the runs ask for, and no two text items are adjacent |
| `Layout.RunsAreDrawn` | src/overlay/overlay_ui.cpp:254-265 | A run with a key and an image there asks for that image, any other run for the bytes of its text |
| `Layout.InkedAppend` | src/overlay/overlay_ui.cpp:281-309 | What is drawn of a text is what is drawn of its bytes in order, which is all but the spaces |
| `Layout.FitAt` | src/overlay/overlay_ui.cpp:284-296 | What the font wraps, or on a fresh line too narrow for it one whole codepoint |
| `Layout.OneCodepoint` | src/overlay/overlay_ui.cpp:292-296 | At least a byte, never ending before a continuation byte |
| `Layout.TextFlowLaid` | src/overlay/overlay_ui.cpp:281-309 | Laid out on as many lines as it takes, a text adds its ink and no more, each piece right behind the one before or at the start of a later line, and with an honest font in its room; it takes fewer lines than it has bytes |
| `Layout.ItemsFlowLaid` | src/overlay/overlay_ui.cpp:267-309 | The same for all items: the unbounded layout draws exactly what they ask for and needs no more lines than bytes and images |
| `Layout.GreedyExactlyWhen` | src/overlay/overlay_ui.cpp:267-309 | The unbounded layout is the one sequence of pieces, item by item, in which each image stands on the line if it fits or is alone there and else at the start of the next, each text piece is what the font takes of the rest, or one codepoint where it takes nothing of a fresh line, and a text goes on behind the spaces at the start of the next line; no other pieces satisfy this |
| `Layout.LinesBreakWhereTheyMust` | src/overlay/overlay_ui.cpp:272-309 | Of two pieces in a row: on one line the second stands right behind the first, and an image there fits or is alone; otherwise it starts the very next line, and the image it is does not fit behind the first, or the font takes less there than the rest of some text |
| `Layout.LayText` | src/overlay/overlay_ui.cpp:281-309 | For any wrap oracle the loop ends with the unbounded layout of the text if that needs no more lines than there are, and otherwise, and only then, reports overflow and has just the pieces that layout has on the lines there are |
| `Layout.CutLast` | src/overlay/overlay_ui.cpp:317-336 | Drops the last piece, or cuts it at the oracle's position and trims it; what is left is a first part of what was there and, with an honest font, leaves room for the ellipsis |
| `Layout.LayBox` | src/overlay/overlay_ui.cpp:272-280 | An image moves to the next line if it does not fit behind what is there, and only then; overflow exactly when there is none, and then nothing changes |
| `Layout.LayItem` | src/overlay/overlay_ui.cpp:270-309 | Overflow exactly when the unbounded layout of the item needs more lines than there are; what is placed is what that layout has on them |
| `Layout.MakeRoom` | src/overlay/overlay_ui.cpp:312-337 | Takes away only what the ellipsis needs: each piece dropped stood on the last line, had no room for an ellipsis behind it and had no part that could stay, and the last piece left has the room or is cut to the oracle's position and trimmed |
| `Layout.EllipsisTakes` | src/overlay/overlay_ui.cpp:312-337 | A piece the ellipsis takes is on the last line, reaches into its room, and is an image or a text of which the font takes nothing in the room left; one it cuts is what the font takes of it there, less the spaces at its end; all before that stay |
| `Layout.ShrunkOneWay` | src/overlay/overlay_ui.cpp:312-337 | That determines what is left: there is just one way to make room |
| `Layout.LayOut` | src/overlay/overlay_ui.cpp:267-340 | Exactly when the items need no more than the lines allowed, these are the lines used and the pieces are those of the unbounded layout; otherwise all lines are used and the pieces are those it has on them, less what the ellipsis takes, and an ellipsis right behind |
| `Layout.LayoutRuns` | src/overlay/overlay_ui.cpp:241-341 | 0 lines exactly for empty text or no room; else the smaller of the lines needed and the lines allowed, with the whole content when the first is not the larger (as with as many lines as fallback bytes) and the content of the first lines in front of an ellipsis when it is; pieces in order; with an honest font every piece has room or cannot be made smaller |
| `Layout.LaidOutOneWay` | src/overlay/overlay_ui.cpp:241-341 | Text, font and lines allowed determine the layout |
| `Layout.MoreLinesAgree` | src/overlay/overlay_ui.cpp:312-337 | Allowing more lines changes no line before the last and uses as many or more; where the lines were enough it changes nothing |
| `Layout.WholeTextStays` | src/overlay/overlay_ui.cpp:281-296 | A text that the font takes whole stands uncut on one line, however few are allowed |
| `Layout.DotsHideACut` | src/overlay/overlay_ui.cpp:338 | An input whose layout is cut although what is drawn is complete: the ellipsis stands where three dots of the text were |
| `Layout.PlainTextIsOneItem` | src/overlay/overlay_ui.cpp:248-265 | With no image resolved the items are one text, the given one with its markup as shortcodes |
| `Layout.FallbackIsDrawn` | src/overlay/overlay_ui.cpp:248-265 | With no image resolved, what is asked for is the text with its markup as shortcodes, spaces aside |
| `Backends.Disk.WriteAtomic` | src/host/config/backends.cpp:52-80 | The installed name gets all of the bytes or stays as it was, with no state in between; it gets them unless an operation fails or the process dies; if removals work the temporary file does not stay |
| `Backends.Disk.InstallBackends` | src/host/config/backends.cpp:173-191 | Every state of the disk on the way is the old one with the first few files of the payload, in install order; none at all when the payload is incomplete, and all four exactly on success, which only a failed operation or a crash keeps from a complete payload |
| `Backends.Disk.UninstallBackends` | src/host/config/backends.cpp:193-214 | Every state on the way is the old one without the files whose removal worked so far; success exactly when all did, and always if removals work; then no crash leaves the manifest without its library; the library directory goes exactly if nothing is left in it |
| `Backends.StagesAreConsistent` | src/host/config/backends.cpp:184-190 | Every stage of an install keeps manifest-implies-library and whole files of offered payloads |
| `Backends.StagesAreWhole` | src/host/config/backends.cpp:173-190 | Every stage of an install, over any files that are whole, leaves each file whole and from one offered payload |
| `Backends.RemovalIsConsistentExactlyWhen` | src/host/config/backends.cpp:197-207 | All states of a removal are consistent if and only if it does not lose the library while the manifest, being there, would not go |
| `Backends.InstallThenRemove` | src/host/config/backends.cpp:173-214 | A full install leaves one payload's four files and a full removal after it none |
| `Backends.AnyRun` | src/host/config/backends.cpp:173-214 | Over any installs, removals, crashes before any file operation and restarts, every file in every state is whole and from one offered payload; if removals work, no state has the manifest without the library; if they may fail, all states are so if and only if no removal kept the manifest and lost the library, and otherwise all states before the first such removal are |

## Left out

- Vulkan.OverlayWorkIsIsolated: the submits that ImGui's font upload and the avatar textures make on their own are not events of the model, so it speaks of the layer's own calls.
- Vulkan.NoReuseInFlight: the overlay-done semaphore is not part of it where the present still waits on it, since the image fences do not cover that wait.
- PresentHook.Layer.QueuePresent: the swapchains of one present are taken to be distinct, and entry points run one at a time, so a retirement never interleaves with a present of another thread.
- PresentHook.Layer.WaitOverlayIdle: the wait result that the source ignores is taken to be success, or a lost device, which section 5.2.3 of the Vulkan 1.3 specification counts the same for what is in use; a wait that runs out of memory is not modelled.
- PresentHook.Layer.BuildState: the objects of one image are allocated and freed as one unit; which of its Vulkan calls failed is not distinguished.
- PresentHook.Layer.CreateSwapchain: the handle the driver returns is one the table does not have; several devices are not modelled.
- Framing.WriteFrame: writes that stay interrupted for ever are a finite list of results here, at whose end the call has no answer yet; the peer's end is the bytes it received.
- PresentHook.ImguiRenderer.BeginFrame: what `draw_overlay` draws is a number of vertices, any in voice and none out of it.
- Replication.ActiveClientsAgree: payloads are values that survive JSON unchanged (in `Wire.BytesLeadToAgreement`, a codec that reads back each message of the wire as it was written), and the 64-bit revision does not wrap.
- Replication.StateServer.HandleHello: reading `/proc/self/comm` and matching the denylist are the parameter `isBlocked`.
- RpcClient.RpcClient.Poll: the guard against nested event loops and the OAuth exchange itself are not modelled; the exchange is a result, callbacks do not call back in, and the clock is monotone and unbounded.
- Layout.LayoutRuns: a piece's vertical position is its line number, for a positive line advance; textures are looked up by a fixed function; coordinates are reals.
- Backends.Disk.WriteAtomic: creating the directories and setting the mode only fail or succeed; an interrupted write is retried inside the write.
- Emoji.MatchCustom: letters and digits are those of the C locale.
- `backends_up_to_date` compares the installed libraries with the payload to decide whether to install; runs here install at any time, which covers either answer. The wrapper's and the manifest's texts, `shell_quote` included, are given bytes here.
- The reconnect backoff loop of the layer's state client and its wake pipe: sleeping and polling.
- Colour transfer functions and fade easing: floating-point curves.
- Toast stacking order, panel anchoring and all drawing.
- The avatar file codec, the avatar cache, the OpenGL interposer, configuration and autostart files, HTTP, the tray and the settings window.
