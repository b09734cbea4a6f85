/** The layer's end of the host connection: messages carried as frames in a byte stream that is cut into
    reads anywhere. */
module Wire {
  import opened Common
  import opened Framing
  import opened Replication

  /** How messages are written as frames and read back; a frame that does not parse is no message. */
  datatype Codec = Codec(frameOf: Msg -> Frame, messageOf: Frame -> Option<Msg>)
  {
    /** Each of `ms` reads back as it was written. */
    predicate RoundTrips(ms: seq<Msg>) {
      forall k :: 0 <= k < |ms| ==> messageOf(frameOf(ms[k])) == Some(ms[k])
    }

    function FramesOf(ms: seq<Msg>): seq<Frame> {
      if ms == [] then [] else [frameOf(ms[0])] + FramesOf(ms[1..])
    }

    function MessagesOf(fs: seq<Frame>): seq<Msg> {
      if fs == [] then []
      else
        var rest := MessagesOf(fs[..|fs| - 1]);
        match messageOf(fs[|fs| - 1]) case Some(m) => rest + [m] case None => rest
    }

    /** Every frame of `ms` is one the reader is sure to deliver. */
    predicate Fits(ms: seq<Msg>) {
      forall k :: 0 <= k < |ms| ==> SizeOf(frameOf(ms[k])) <= MAX_FRAME_LEN - (READ_SIZE - 1)
    }
  }

  lemma {:induction false} MessagesAppend(codec: Codec, a: seq<Frame>, b: seq<Frame>)
    ensures codec.MessagesOf(a + b) == codec.MessagesOf(a) + codec.MessagesOf(b)
  {
    if b == [] {
      assert a + b == a;
    } else {
      var init := b[..|b| - 1];
      assert (a + b)[..|a + b| - 1] == a + init;
      MessagesAppend(codec, a, init);
    }
  }

  lemma {:induction false} MessagesRoundTrip(codec: Codec, ms: seq<Msg>)
    requires codec.RoundTrips(ms)
    ensures codec.MessagesOf(codec.FramesOf(ms)) == ms
  {
    if ms != [] {
      assert codec.RoundTrips(ms[1..]);
      var f := codec.frameOf(ms[0]);
      MessagesRoundTrip(codec, ms[1..]);
      MessagesAppend(codec, [f], codec.FramesOf(ms[1..]));
      assert [f][..0] == [] && codec.MessagesOf([f]) == [ms[0]];
      assert [ms[0]] + ms[1..] == ms;
    }
  }

  lemma {:induction false} FramesFit(codec: Codec, ms: seq<Msg>)
    requires codec.Fits(ms)
    ensures |codec.FramesOf(ms)| == |ms|
    ensures forall k :: 0 <= k < |ms| ==> SizeOf(codec.FramesOf(ms)[k]) <= MAX_FRAME_LEN - (READ_SIZE - 1)
  {
    if ms != [] {
      assert codec.Fits(ms[1..]);
      FramesFit(codec, ms[1..]);
    }
  }

  /** Messages whose frames are within the bound are taken off the stream exactly, whatever the reads. */
  lemma StreamCarriesMessages(codec: Codec, ms: seq<Msg>, chunks: seq<seq<Byte>>)
    requires codec.RoundTrips(ms) && codec.Fits(ms)
    requires ReadSized(chunks) && Flatten(chunks) == EncodeAll(codec.FramesOf(ms))
    ensures codec.MessagesOf(ReadAll(chunks).frames) == ms && !ReadAll(chunks).failed && ReadAll(chunks).buf == []
  {
    FramesFit(codec, ms);
    EncodedFramesArrive(codec.FramesOf(ms), chunks);
    MessagesRoundTrip(codec, ms);
  }

  /** Each frame in turn: what is a message is dispatched, anything else is ignored. */
  method DispatchAll(client: StateClient, codec: Codec, frames: seq<Frame>)
    modifies client
    ensures client.Seen() == ReceiveAll(old(client.Seen()), codec.MessagesOf(frames))
  {
    ghost var start := client.Seen();
    for i := 0 to |frames|
      invariant client.Seen() == ReceiveAll(start, codec.MessagesOf(frames[..i]))
    {
      assert frames[..i + 1][..i] == frames[..i];
      var m := codec.messageOf(frames[i]);
      if m.Some? {
        ReceiveSnoc(start, codec.MessagesOf(frames[..i]), m.value);
        var _ := client.Dispatch(m.value);
      }
    }
    assert frames[..|frames|] == frames;
  }

  /** The loop of a connection over its reads: take what is complete, dispatch it, read again.  What the client ends
      up with is what receiving the messages of the frames in the bytes read gives. */
  method ServeClient(client: StateClient, codec: Codec, input: seq<ReadResult>)
    returns (taken: nat, ghost chunks: seq<seq<Byte>>)
    requires forall k :: 0 <= k < |input| ==> Readable(input[k])
    modifies client
    ensures taken <= |input| && chunks == DataOf(input[..taken])
    ensures taken < |input| ==> ReadAll(chunks).failed || Ends(input[taken])
    ensures client.Seen() == ReceiveAll(old(client.Seen()), codec.MessagesOf(ReadAll(chunks).frames))
  {
    var reader := new FrameReader();
    ghost var start, frames := client.Seen(), [];
    taken, chunks := 0, [];
    while taken < |input| && !reader.failed && !Ends(input[taken])
      invariant taken <= |input| && chunks == DataOf(input[..taken])
      invariant fresh(reader) && Follows(reader, chunks, frames)
      invariant client.Seen() == ReceiveAll(start, codec.MessagesOf(frames))
    {
      hide Follows, Readable, Extended;
      var more := Turn(reader, input[taken], chunks, frames);
      DispatchAll(client, codec, more);
      MessagesAppend(codec, frames, more);
      ReceiveAppend(start, codec.MessagesOf(frames), codec.MessagesOf(more));
      DataNext(input, taken);
      frames, taken, chunks := frames + more, taken + 1, Extended(chunks, input[taken]);
    }
  }

  /** What a reader has delivered stays the beginning of what it delivers. */
  lemma {:induction false} DeliveredStays(chunks: seq<seq<Byte>>, more: seq<seq<Byte>>)
    ensures ReadAll(chunks).frames <= ReadAll(chunks + more).frames
  {
    if more == [] {
      assert chunks + more == chunks;
    } else {
      var init := more[..|more| - 1];
      assert (chunks + more)[..|chunks + more| - 1] == chunks + init;
      DeliveredStays(chunks, init);
    }
  }

  /** Agreement over bytes.  The host has encoded the messages of a wire, and the reads of a connection cut these bytes
      anywhere: `chunks` are the reads so far, with whatever part of a frame they end in, and `more` the ones to come.
      A client that has taken just what the reads so far deliver has taken the first messages of its wire; and
      after dispatching what the rest of them deliver it agrees with the host. */
  lemma BytesLeadToAgreement(steps: seq<Step>, sock: Sock, codec: Codec, chunks: seq<seq<Byte>>, more: seq<seq<Byte>>)
    requires var sys := Run(steps);
             sock in sys.links && sock in sys.server.clients && sys.server.clients[sock].active && sys.links[sock].open
             && sock in sys.server.wire
    requires var wire := Run(steps).server.wire[sock];
             && codec.RoundTrips(wire) && codec.Fits(wire)
             && ReadSized(chunks + more) && Flatten(chunks + more) == EncodeAll(codec.FramesOf(wire))
    requires Run(steps).links[sock].taken == |codec.MessagesOf(ReadAll(chunks).frames)|
    ensures var sys := Run(steps);
            && codec.MessagesOf(ReadAll(chunks).frames) <= sys.server.wire[sock]
            && ReadAll(chunks).frames <= ReadAll(chunks + more).frames
            && var rest := ReadAll(chunks + more).frames[|ReadAll(chunks).frames|..];
               Agrees(ReceiveAll(ViewOf(sys, sys.links[sock].proc), codec.MessagesOf(rest)), sys.server)
  {
    hide Run, Agrees, ReceiveAll, ViewOf, Codec.RoundTrips, Codec.Fits, Codec.MessagesOf, Codec.FramesOf, ReadSized, ReadAll,
         Flatten, EncodeAll;
    var sys := Run(steps);
    RestBrings(codec, sys.server.wire[sock], chunks, more);
    ActiveClientsAgree(steps, sock);
  }

  /** What some reads deliver are the first messages, and what the others deliver all the rest. */
  lemma RestBrings(codec: Codec, wire: seq<Msg>, chunks: seq<seq<Byte>>, more: seq<seq<Byte>>)
    requires codec.RoundTrips(wire) && codec.Fits(wire)
    requires ReadSized(chunks + more) && Flatten(chunks + more) == EncodeAll(codec.FramesOf(wire))
    ensures var a, b := ReadAll(chunks).frames, ReadAll(chunks + more).frames;
            && a <= b && codec.MessagesOf(a) <= wire
            && codec.MessagesOf(b[|a|..]) == wire[|codec.MessagesOf(a)|..]
  {
    hide Codec.RoundTrips, Codec.Fits, Codec.MessagesOf, Codec.FramesOf, ReadSized, ReadAll, Flatten, EncodeAll;
    var a, b := ReadAll(chunks).frames, ReadAll(chunks + more).frames;
    StreamCarriesMessages(codec, wire, chunks + more);
    DeliveredStays(chunks, more);
    MessagesAppend(codec, a, b[|a|..]);
    assert a + b[|a|..] == b;
  }
}
