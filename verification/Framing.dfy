/** The byte framing between host and layer: encoding, decoding, and the reader that turns
    arbitrary reads of a stream back into frames.  The reference is `Parse`, which looks at a
    whole stream at once and knows nothing of reads. */
module Framing {
  import opened Common

  /** Hard cap on a frame's length field, and the most one read returns. */
  const MAX_FRAME_LEN: nat := 16 * 1024 * 1024
  const READ_SIZE: nat := 4096

  /** `kind` is the raw type byte; every value is carried. */
  datatype Frame = Frame(kind: Byte, payload: seq<Byte>)

  datatype Decoded = NeedMore | Bad | Got(frame: Frame, consumed: nat)

  function ReadLe32(b: seq<Byte>): nat
    requires |b| >= 4
  {
    var b0: int, b1: int, b2: int, b3: int := b[0], b[1], b[2], b[3];
    b0 + 256 * b1 + 65536 * b2 + 16777216 * b3
  }

  function WriteLe32(n: nat): seq<Byte> {
    [n % 256, n / 256 % 256, n / 65536 % 256, n / 16777216 % 256]
  }

  lemma Le32RoundTrip(n: nat, rest: seq<Byte>)
    requires n < 0x1_0000_0000
    ensures ReadLe32(WriteLe32(n) + rest) == n
  {
    var b := WriteLe32(n) + rest;
    assert b[0] == n % 256 && b[1] == n / 256 % 256 && b[2] == n / 65536 % 256 && b[3] == n / 16777216 % 256;
    assert n / 65536 == n / 256 / 256 && n / 16777216 == n / 65536 / 256;
  }

  lemma Le32Written(b: seq<Byte>)
    requires |b| >= 4
    ensures ReadLe32(b) < 0x1_0000_0000 && WriteLe32(ReadLe32(b)) == b[..4]
  {
    var n := ReadLe32(b);
    assert n / 256 == b[1] as int + 256 * b[2] as int + 65536 * b[3] as int;
    assert n / 65536 == b[2] as int + 256 * b[3] as int && n / 16777216 == b[3] as int;
  }

  /** What `encode_frame` asserts of its callers. */
  predicate Encodable(f: Frame) {
    1 + |f.payload| <= MAX_FRAME_LEN
  }

  function SizeOf(f: Frame): nat {
    5 + |f.payload|
  }

  function Encode(f: Frame): (bytes: seq<Byte>)
    ensures |bytes| == SizeOf(f)
  {
    WriteLe32(1 + |f.payload|) + [f.kind] + f.payload
  }

  function EncodeAll(fs: seq<Frame>): seq<Byte> {
    if fs == [] then [] else Encode(fs[0]) + EncodeAll(fs[1..])
  }

  function Decode(buf: seq<Byte>): (d: Decoded)
    ensures d.Got? ==> d.consumed == SizeOf(d.frame) <= |buf|
  {
    if |buf| < 4 then NeedMore
    else
      var total := ReadLe32(buf);
      if total < 1 || total > MAX_FRAME_LEN then Bad
      else if |buf| < 4 + total then NeedMore
      else Got(Frame(buf[4], buf[5..4 + total]), 4 + total)
  }

  /** Four bytes of length, the lowest first, then the type and the payload, which the length counts. */
  predicate IsSpelled(b: seq<Byte>, f: Frame) {
    && |b| == 5 + |f.payload| && b[4] == f.kind && b[5..] == f.payload
    && b[0] as int + 0x100 * b[1] as int + 0x1_0000 * b[2] as int + 0x100_0000 * b[3] as int == 1 + |f.payload|
  }

  lemma EncodeIsSpelled(f: Frame)
    requires Encodable(f)
    ensures IsSpelled(Encode(f), f)
  {
    Le32RoundTrip(1 + |f.payload|, [f.kind] + f.payload);
    assert Encode(f) == WriteLe32(1 + |f.payload|) + ([f.kind] + f.payload);
  }

  /** `encode_frame`: appends the frame to the caller's bytes, field by field. */
  method EncodeFrame(f: Frame, out: seq<Byte>) returns (appended: seq<Byte>)
    requires Encodable(f)
    ensures appended == out + Encode(f)
    ensures IsSpelled(appended[|out|..], f) && Decode(appended[|out|..]) == Got(f, SizeOf(f))
  {
    EncodeIsSpelled(f);
    var total := 1 + |f.payload|;
    appended := out + [total % 256];
    appended := appended + [total / 256 % 256];
    appended := appended + [total / 65536 % 256];
    appended := appended + [total / 16777216 % 256];
    appended := appended + [f.kind];
    appended := appended + f.payload;
    assert appended == out + Encode(f);
    assert appended[|out|..] == Encode(f) + [];
    DecodeEncoded(f, []);
  }

  /** Decoding what was encoded gives the frame back and consumes exactly its bytes, whatever follows. */
  lemma DecodeEncoded(f: Frame, rest: seq<Byte>)
    requires Encodable(f)
    ensures Decode(Encode(f) + rest) == Got(f, SizeOf(f))
  {
    var buf := Encode(f) + rest;
    var total := 1 + |f.payload|;
    assert buf == WriteLe32(total) + ([f.kind] + f.payload + rest);
    Le32RoundTrip(total, [f.kind] + f.payload + rest);
    assert buf[4] == f.kind && buf[5..4 + total] == f.payload;
  }

  /** A frame cut short is never mistaken for anything. */
  lemma DecodeCut(f: Frame, n: nat)
    requires Encodable(f) && n < SizeOf(f)
    ensures Decode(Encode(f)[..n]) == NeedMore
  {
    if n >= 4 {
      var total := 1 + |f.payload|;
      var cut := Encode(f)[..n];
      assert cut == WriteLe32(total) + cut[4..];
      Le32RoundTrip(total, cut[4..]);
    }
  }

  /** A header with a length in bounds is that of some frame, which begins with whatever follows. */
  lemma HeaderOf(buf: seq<Byte>) returns (f: Frame)
    requires |buf| >= 4 && 1 <= ReadLe32(buf) <= MAX_FRAME_LEN
    ensures Encodable(f) && SizeOf(f) == 4 + ReadLe32(buf)
    ensures if SizeOf(f) <= |buf| then Encode(f) == buf[..SizeOf(f)] else Encode(f)[..|buf|] == buf
  {
    var n := ReadLe32(buf) - 1;
    var behind := buf[4..] + seq(n + 1, _ => 0);
    Le32Written(buf);
    f := Frame(behind[0], behind[1..n + 1]);
    hide WriteLe32, ReadLe32;
    assert Encode(f) == buf[..4] + behind[..n + 1];
  }

  /** Fewer bytes than a header begin some frame: with zeros behind them, or a last one where they are zeros. */
  lemma HalfHeaderOf(buf: seq<Byte>) returns (f: Frame)
    requires |buf| < 4
    ensures Encodable(f) && |buf| < SizeOf(f) && Encode(f)[..|buf|] == buf
  {
    var zeros := buf + seq(4 - |buf|, _ => 0);
    var header := if ReadLe32(zeros) == 0 then buf + seq(3 - |buf|, _ => 0) + [1] else zeros;
    f := HeaderOf(header);
    assert Encode(f)[..|buf|] == header[..|buf|] == buf;
  }

  /** Decoding gives a frame exactly where its encoding stands, asks for more exactly while the bytes may become a frame,
      and otherwise, and only then, refuses them. */
  lemma DecodesExactlyWhen(buf: seq<Byte>)
    ensures forall f :: Decode(buf) == Got(f, SizeOf(f)) <==> Encodable(f) && Encode(f) <= buf
    ensures Decode(buf).NeedMore? <==> exists f :: Encodable(f) && |buf| < SizeOf(f) && buf <= Encode(f)
  {
    hide Decode;
    forall f ensures Decode(buf) == Got(f, SizeOf(f)) <==> Encodable(f) && Encode(f) <= buf {
      if Encodable(f) && Encode(f) <= buf {
        assert buf == Encode(f) + buf[SizeOf(f)..];
        DecodeEncoded(f, buf[SizeOf(f)..]);
      }
      if Decode(buf) == Got(f, SizeOf(f)) { GotIsThere(buf, f); }
    }
    if Decode(buf).NeedMore? { var f := MoreToCome(buf); }
    if f :| Encodable(f) && |buf| < SizeOf(f) && buf <= Encode(f) {
      DecodeCut(f, |buf|);
      assert Encode(f)[..|buf|] == buf;
    }
  }

  lemma GotIsThere(buf: seq<Byte>, f: Frame)
    requires Decode(buf) == Got(f, SizeOf(f))
    ensures Encodable(f) && Encode(f) <= buf
  {
    var g := HeaderOf(buf);
    assert Encode(g) + buf[SizeOf(g)..] == buf;
    DecodeEncoded(g, buf[SizeOf(g)..]);
  }

  lemma MoreToCome(buf: seq<Byte>) returns (f: Frame)
    requires Decode(buf).NeedMore?
    ensures Encodable(f) && |buf| < SizeOf(f) && buf <= Encode(f)
  {
    if |buf| < 4 {
      f := HalfHeaderOf(buf);
    } else {
      f := HeaderOf(buf);
    }
  }

  // ---- the whole stream at once -------------------------------------------------------

  /** `bad` when a header claims a zero or oversized length; `rest` are the bytes of an incomplete frame. */
  datatype Parsed = Parsed(frames: seq<Frame>, rest: seq<Byte>, bad: bool)

  function Parse(s: seq<Byte>): Parsed
    decreases |s|
  {
    match Decode(s)
    case NeedMore => Parsed([], s, false)
    case Bad => Parsed([], [], true)
    case Got(f, n) => var p := Parse(s[n..]); p.(frames := [f] + p.frames)
  }

  lemma DecodeMore(a: seq<Byte>, b: seq<Byte>)
    ensures !Decode(a).NeedMore? ==> Decode(a + b) == Decode(a)
  {
    if |a| >= 4 {
      assert ReadLe32(a + b) == ReadLe32(a);
      var total := ReadLe32(a);
      if 1 <= total <= MAX_FRAME_LEN && |a| >= 4 + total {
        assert (a + b)[5..4 + total] == a[5..4 + total];
      }
    }
  }

  /** Parsing can stop anywhere and go on from what was left. */
  lemma {:induction false} ParseInParts(a: seq<Byte>, b: seq<Byte>)
    ensures Parse(a).bad ==> Parse(a + b) == Parse(a)
    ensures !Parse(a).bad ==>
              var q := Parse(Parse(a).rest + b);
              Parse(a + b) == q.(frames := Parse(a).frames + q.frames)
    decreases |a|
  {
    DecodeMore(a, b);
    hide Decode, ReadLe32;
    match Decode(a)
    case NeedMore =>
      assert [] + Parse(a + b).frames == Parse(a + b).frames;
    case Bad =>
    case Got(f, n) =>
      var c := a[n..];
      assert (a + b)[n..] == c + b;
      ParseInParts(c, b);
      FramesAssoc([f], Parse(c).frames, Parse(Parse(c).rest + b).frames);
  }

  lemma FramesAssoc(a: seq<Frame>, b: seq<Frame>, c: seq<Frame>)
    ensures a + (b + c) == (a + b) + c
  {
  }

  lemma {:induction false} ParseRest(s: seq<Byte>)
    ensures !Parse(s).bad ==> Decode(Parse(s).rest).NeedMore?
    decreases |s|
  {
    match Decode(s)
    case Got(f, n) => ParseRest(s[n..]);
    case _ =>
  }

  /** Round trip: parsing an encoded sequence of frames gives it back, with nothing left. */
  lemma {:induction false} ParseEncoded(fs: seq<Frame>)
    requires forall k :: 0 <= k < |fs| ==> Encodable(fs[k])
    ensures Parse(EncodeAll(fs)) == Parsed(fs, [], false)
  {
    if fs != [] {
      DecodeEncoded(fs[0], EncodeAll(fs[1..]));
      assert EncodeAll(fs)[SizeOf(fs[0])..] == EncodeAll(fs[1..]);
      ParseEncoded(fs[1..]);
    }
  }

  // ---- the reader ----------------------------------------------------------------------

  datatype ReadResult = Data(bytes: seq<Byte>) | Eof | WouldBlock | HardError

  /** What one read can return. */
  predicate Readable(r: ReadResult) {
    r.Data? ==> 0 < |r.bytes| <= READ_SIZE
  }

  class FrameReader {
    var buf: seq<Byte>
    var failed: bool

    /** A dead reader holds nothing. */
    ghost predicate Valid()
      reads this
    {
      failed ==> buf == []
    }

    constructor ()
      ensures Valid() && buf == [] && !failed
    {
      buf, failed := [], false;
    }

    /** Appends one read; more than a maximal frame's worth of backlog kills the stream for good. */
    method Feed(r: ReadResult) returns (alive: bool)
      requires Valid() && Readable(r)
      modifies this
      ensures Valid()
      ensures r.Data? && !old(failed) ==>
                if |old(buf)| + |r.bytes| > MAX_FRAME_LEN then failed && !alive
                else !failed && alive && buf == old(buf) + r.bytes
      ensures !(r.Data? && !old(failed)) ==>
                failed == old(failed) && buf == old(buf) && alive == (!failed && r.WouldBlock?)
    {
      if failed { return false; }
      match r
      case Data(bytes) =>
        buf := buf + bytes;
        if |buf| > MAX_FRAME_LEN {
          failed := true;
          buf := [];
          return false;
        }
        return true;
      case Eof => return false;
      case WouldBlock => return true;
      case HardError => return false;
    }

    /** Pops one frame: the first of what the buffer parses to. */
    method Next() returns (frame: Option<Frame>)
      requires Valid()
      modifies this
      ensures Valid() && (old(failed) ==> frame == None && failed)
      ensures !old(failed) ==>
                match Decode(old(buf))
                case NeedMore => frame == None && !failed && buf == old(buf)
                case Bad => frame == None && failed
                case Got(f, n) => frame == Some(f) && !failed && buf == old(buf)[n..]
    {
      if failed { return None; }
      match Decode(buf)
      case Bad =>
        failed := true;
        buf := [];
        return None;
      case NeedMore => return None;
      case Got(f, n) =>
        buf := buf[n..];
        return Some(f);
    }

    /** Pops every frame that is complete. */
    method Drain() returns (frames: seq<Frame>)
      requires Valid()
      modifies this
      ensures Valid()
      ensures old(failed) ==> failed && frames == []
      ensures !old(failed) ==> frames == Parse(old(buf)).frames && buf == Parse(old(buf)).rest && failed == Parse(old(buf)).bad
    {
      frames := [];
      var more := !failed;
      while more
        invariant Valid() && (old(failed) ==> failed && frames == [] && !more)
        invariant more ==> !failed && Parse(old(buf)) == Parse(buf).(frames := frames + Parse(buf).frames)
        invariant !more && !old(failed) ==>
                    frames == Parse(old(buf)).frames && buf == Parse(old(buf)).rest && failed == Parse(old(buf)).bad
        decreases more, |buf|
      {
        ghost var before := buf;
        var f := Next();
        if f.Some? {
          FramesAssoc(frames, [f.value], Parse(buf).frames);
          frames := frames + [f.value];
        } else {
          assert frames + [] == frames;
          more := false;
        }
      }
    }
  }

  function Flatten(chunks: seq<seq<Byte>>): seq<Byte> {
    if chunks == [] then [] else Flatten(chunks[..|chunks| - 1]) + chunks[|chunks| - 1]
  }

  /** The state of a reader that has been fed and drained: what it delivered, what it holds, whether it is dead. */
  datatype ReaderState = ReaderState(frames: seq<Frame>, buf: seq<Byte>, failed: bool)

  /** Feed one read, then drain. */
  function FeedAndDrain(r: ReaderState, chunk: seq<Byte>): ReaderState {
    if r.failed then r
    else if |r.buf| + |chunk| > MAX_FRAME_LEN then ReaderState(r.frames, [], true)
    else
      var p := Parse(r.buf + chunk);
      ReaderState(r.frames + p.frames, p.rest, p.bad)
  }

  function ReadAll(chunks: seq<seq<Byte>>): ReaderState {
    if chunks == [] then ReaderState([], [], false)
    else FeedAndDrain(ReadAll(chunks[..|chunks| - 1]), chunks[|chunks| - 1])
  }

  /** `reader` is where feeding and draining `chunks` has brought it, with `frames` delivered. */
  ghost predicate Follows(reader: FrameReader, chunks: seq<seq<Byte>>, frames: seq<Frame>)
    reads reader
  {
    && reader.Valid() && ReadAll(chunks) == ReaderState(frames, reader.buf, reader.failed)
    && (!reader.failed ==> Decode(reader.buf).NeedMore?)
  }

  function Extended(chunks: seq<seq<Byte>>, r: ReadResult): seq<seq<Byte>> {
    if r.Data? then chunks + [r.bytes] else chunks
  }

  predicate Ends(r: ReadResult) {
    r.Eof? || r.HardError?
  }

  /** One turn of the read loop: feed one read, then take every frame that is complete. */
  method Turn(reader: FrameReader, r: ReadResult, ghost chunks: seq<seq<Byte>>, ghost frames: seq<Frame>)
    returns (more: seq<Frame>)
    requires Follows(reader, chunks, frames) && !reader.failed && Readable(r) && !Ends(r)
    modifies reader
    ensures Follows(reader, Extended(chunks, r), frames + more)
  {
    var _ := reader.Feed(r);
    ParseRest(reader.buf);
    more := reader.Drain();
    if r.Data? {
      assert (chunks + [r.bytes])[..|chunks|] == chunks;
    } else {
      ParseNothing(reader.buf);
      assert frames + [] == frames;
    }
  }

  lemma ParseNothing(buf: seq<Byte>)
    ensures Decode(buf).NeedMore? ==> Parse(buf) == Parsed([], buf, false)
  {
  }

  lemma DataNext(input: seq<ReadResult>, n: nat)
    requires n < |input|
    ensures DataOf(input[..n + 1]) == Extended(DataOf(input[..n]), input[n])
  {
    assert input[..n + 1][..n] == input[..n];
  }

  /** The client's read loop over the reads of one connection, as far as it goes. */
  method Serve(input: seq<ReadResult>) returns (frames: seq<Frame>, taken: nat, ghost chunks: seq<seq<Byte>>)
    requires forall k :: 0 <= k < |input| ==> Readable(input[k])
    ensures taken <= |input| && chunks == DataOf(input[..taken])
    ensures frames == ReadAll(chunks).frames
    ensures taken < |input| ==> ReadAll(chunks).failed || Ends(input[taken])
  {
    var reader := new FrameReader();
    frames, taken, chunks := [], 0, [];
    while taken < |input| && !reader.failed && !Ends(input[taken])
      invariant taken <= |input| && chunks == DataOf(input[..taken])
      invariant fresh(reader) && Follows(reader, chunks, frames)
    {
      hide Follows, Readable, Extended;
      var more := Turn(reader, input[taken], chunks, frames);
      DataNext(input, taken);
      frames, taken, chunks := frames + more, taken + 1, Extended(chunks, input[taken]);
    }
  }

  function DataOf(input: seq<ReadResult>): seq<seq<Byte>> {
    if input == [] then []
    else DataOf(input[..|input| - 1]) + if input[|input| - 1].Data? then [input[|input| - 1].bytes] else []
  }

  // ---- chunk independence ---------------------------------------------------------------

  predicate ReadSized(chunks: seq<seq<Byte>>) {
    forall k :: 0 <= k < |chunks| ==> 0 < |chunks[k]| <= READ_SIZE
  }

  /** At read `k` the incomplete frame held back plus the new bytes exceed the backlog bound. */
  predicate OverflowsAt(chunks: seq<seq<Byte>>, k: nat)
    requires k < |chunks|
  {
    var p := Parse(Flatten(chunks[..k]));
    !p.bad && |p.rest| + |chunks[k]| > MAX_FRAME_LEN
  }

  predicate Overflows(chunks: seq<seq<Byte>>) {
    exists k :: 0 <= k < |chunks| && OverflowsAt(chunks, k)
  }

  lemma OverflowsSnoc(init: seq<seq<Byte>>, last: seq<Byte>)
    ensures Overflows(init + [last]) <==> Overflows(init) || OverflowsAt(init + [last], |init|)
  {
    var chunks := init + [last];
    assert forall k :: 0 <= k < |init| ==> chunks[..k] == init[..k];
    assert forall k :: 0 <= k < |init| ==> (OverflowsAt(chunks, k) <==> OverflowsAt(init, k));
  }

  /** Whatever the cuts, the reader delivers what the whole stream parses to, up to its first bad
      header, unless the backlog bound kills it; then it has delivered an initial part of that. */
  lemma {:induction false} ChunkIndependence(chunks: seq<seq<Byte>>)
    ensures var p := Parse(Flatten(chunks));
            && (!Overflows(chunks) ==> ReadAll(chunks) == ReaderState(p.frames, p.rest, p.bad))
            && (Overflows(chunks) ==> ReadAll(chunks).failed && ReadAll(chunks).frames <= p.frames)
  {
    if chunks != [] {
      var init, last := chunks[..|chunks| - 1], chunks[|chunks| - 1];
      assert chunks == init + [last];
      ChunkIndependence(init);
      OverflowsSnoc(init, last);
      assert chunks[..|init|] == init;
      ParseInParts(Flatten(init), last);
    }
  }

  /** Once dead, the reader never delivers anything again. */
  lemma {:induction false} FailureIsPermanent(chunks: seq<seq<Byte>>, more: seq<seq<Byte>>)
    requires ReadAll(chunks).failed
    ensures ReadAll(chunks + more) == ReadAll(chunks)
  {
    if more == [] {
      assert chunks + more == chunks;
    } else {
      var init := more[..|more| - 1];
      assert (chunks + more)[..|chunks + more| - 1] == chunks + init;
      FailureIsPermanent(chunks, init);
    }
  }

  /** A prefix of encoded frames parses to whole frames and one incomplete frame. */
  lemma {:induction false} ParseCut(fs: seq<Frame>, n: nat, bound: nat)
    requires n <= |EncodeAll(fs)|
    requires forall k :: 0 <= k < |fs| ==> Encodable(fs[k]) && SizeOf(fs[k]) <= bound + 1
    ensures var p := Parse(EncodeAll(fs)[..n]); !p.bad && |p.rest| <= bound
  {
    if fs != [] {
      var e, rest := Encode(fs[0]), EncodeAll(fs[1..]);
      if n < |e| {
        assert EncodeAll(fs)[..n] == e[..n];
        DecodeCut(fs[0], n);
      } else {
        assert EncodeAll(fs)[..n] == e + rest[..n - |e|];
        DecodeEncoded(fs[0], rest[..n - |e|]);
        assert (e + rest[..n - |e|])[|e|..] == rest[..n - |e|];
        ParseCut(fs[1..], n - |e|, bound);
      }
    }
  }

  lemma {:induction false} FlattenPrefix(chunks: seq<seq<Byte>>, k: nat)
    requires k <= |chunks|
    ensures |Flatten(chunks[..k])| <= |Flatten(chunks)|
    ensures Flatten(chunks[..k]) == Flatten(chunks)[..|Flatten(chunks[..k])|]
    decreases |chunks|
  {
    if k == |chunks| {
      assert chunks[..k] == chunks;
    } else {
      var init := chunks[..|chunks| - 1];
      FlattenPrefix(init, k);
      assert init[..k] == chunks[..k];
    }
  }

  /** Encode, send, read back in any cuts: every frame sequence arrives, if each of its frames
      occupies at most a read less than the backlog bound. */
  lemma EncodedFramesArrive(fs: seq<Frame>, chunks: seq<seq<Byte>>)
    requires forall k :: 0 <= k < |fs| ==> SizeOf(fs[k]) <= MAX_FRAME_LEN - (READ_SIZE - 1)
    requires ReadSized(chunks) && Flatten(chunks) == EncodeAll(fs)
    ensures ReadAll(chunks) == ReaderState(fs, [], false)
  {
    forall k | 0 <= k < |chunks| ensures !OverflowsAt(chunks, k) {
      FlattenPrefix(chunks, k);
      ParseCut(fs, |Flatten(chunks[..k])|, MAX_FRAME_LEN - READ_SIZE);
    }
    ChunkIndependence(chunks);
    ParseEncoded(fs);
  }

  /** The bytes of `f`, then anything, arriving in some cuts. */
  predicate Sends(chunks: seq<seq<Byte>>, f: Frame, tail: seq<Byte>) {
    ReadSized(chunks) && Flatten(chunks) == Encode(f) + tail
  }

  predicate Delivers(chunks: seq<seq<Byte>>, f: Frame) {
    var frames := ReadAll(chunks).frames;
    frames != [] && frames[0] == f
  }

  lemma {:induction false} SmallFrameArrives(chunks: seq<seq<Byte>>, f: Frame, tail: seq<Byte>, n: nat)
    requires Encodable(f) && SizeOf(f) <= MAX_FRAME_LEN - (READ_SIZE - 1)
    requires ReadSized(chunks) && n <= SizeOf(f) + |tail| && Flatten(chunks) == (Encode(f) + tail)[..n]
    ensures n < SizeOf(f) ==> ReadAll(chunks) == ReaderState([], Flatten(chunks), false)
    ensures n >= SizeOf(f) ==> Delivers(chunks, f)
    decreases |chunks|
  {
    if chunks == [] {
    } else {
      var init, last := chunks[..|chunks| - 1], chunks[|chunks| - 1];
      var m := |Flatten(init)|;
      assert m + |last| == n;
      var s := Encode(f) + tail;
      assert Flatten(init) == s[..n][..m] == s[..m];
      SmallFrameArrives(init, f, tail, m);
      if n < SizeOf(f) {
        assert s[..n] == Encode(f)[..n];
        DecodeCut(f, n);
      } else if m < SizeOf(f) {
        assert s[..n] == Encode(f) + tail[..n - SizeOf(f)];
        DecodeEncoded(f, tail[..n - SizeOf(f)]);
      }
    }
  }

  function Singles(s: seq<Byte>): seq<seq<Byte>> {
    if s == [] then [] else Singles(s[..|s| - 1]) + [[s[|s| - 1]]]
  }

  /** Dribbled byte by byte, a cut frame is never delivered: it is held, or it has killed the reader. */
  lemma {:induction false} DribbledCut(f: Frame, n: nat)
    requires Encodable(f) && n < SizeOf(f)
    ensures var chunks := Singles(Encode(f)[..n]);
            && ReadSized(chunks) && Flatten(chunks) == Encode(f)[..n]
            && ReadAll(chunks).frames == []
            && (ReadAll(chunks).failed || ReadAll(chunks).buf == Encode(f)[..n])
  {
    var s := Encode(f)[..n];
    SinglesFlatten(s);
    if n > 0 {
      var t := s[..n - 1];
      assert t == Encode(f)[..n - 1];
      DribbledCut(f, n - 1);
      DecodeCut(f, n);
      SinglesNext(t, s[n - 1]);
      hide Encode, Decode, Encodable, Singles;
      assert t + [s[n - 1]] == s;
    }
  }

  lemma {:induction false} SinglesFlatten(s: seq<Byte>)
    ensures Flatten(Singles(s)) == s && ReadSized(Singles(s))
  {
    if s != [] {
      SinglesFlatten(s[..|s| - 1]);
      var chunks := Singles(s);
      assert chunks[..|chunks| - 1] == Singles(s[..|s| - 1]);
      assert s[..|s| - 1] + [s[|s| - 1]] == s;
    }
  }

  lemma SinglesNext(s: seq<Byte>, b: Byte)
    ensures ReadAll(Singles(s + [b])) == FeedAndDrain(ReadAll(Singles(s)), [b])
  {
    var chunks := Singles(s + [b]);
    assert (s + [b])[..|s|] == s;
    assert chunks[..|chunks| - 1] == Singles(s);
  }

  /** Bytes that a peer can have sent so far: the start of some encoded frames. */
  ghost predicate IsStream(bytes: seq<Byte>) {
    exists fs :: AllEncodable(fs) && bytes <= EncodeAll(fs)
  }

  predicate AllEncodable(fs: seq<Frame>) {
    forall k :: 0 <= k < |fs| ==> Encodable(fs[k])
  }

  /** Exactly which frames arrive whatever the cuts and whatever frames follow: those that occupy at most
      MAX_FRAME_LEN - 4095 bytes, and they arrive in front of any bytes at all.  A larger one, although
      within the protocol's own cap, dies when its last byte comes with a read full of small frames. */
  lemma ArrivesExactlyWhen(f: Frame)
    requires Encodable(f)
    ensures (forall chunks: seq<seq<Byte>>, tail: seq<Byte> ::
               Sends(chunks, f, tail) && IsStream(tail) ==> Delivers(chunks, f))
            <==> SizeOf(f) <= MAX_FRAME_LEN - (READ_SIZE - 1)
    ensures (forall chunks: seq<seq<Byte>>, tail: seq<Byte> :: Sends(chunks, f, tail) ==> Delivers(chunks, f))
            <==> SizeOf(f) <= MAX_FRAME_LEN - (READ_SIZE - 1)
  {
    if SizeOf(f) <= MAX_FRAME_LEN - (READ_SIZE - 1) {
      forall chunks: seq<seq<Byte>>, tail: seq<Byte> | Sends(chunks, f, tail) ensures Delivers(chunks, f) {
        assert (Encode(f) + tail)[..SizeOf(f) + |tail|] == Encode(f) + tail;
        SmallFrameArrives(chunks, f, tail, SizeOf(f) + |tail|);
      }
    } else {
      var chunks, tail := LargeFrameDies(f);
    }
  }

  const PING := Frame(5, [])

  function Pings(n: nat): seq<Frame> {
    seq(n, _ => PING)
  }

  /** A Ping occupies five bytes, and 819 of them all of a read but one byte. */
  lemma {:induction false} PingBytes(n: nat)
    ensures |EncodeAll(Pings(n))| == 5 * n
  {
    if n > 0 {
      PingBytes(n - 1);
      assert Pings(n)[1..] == Pings(n - 1);
    }
  }

  lemma PingTail() returns (tail: seq<Byte>)
    ensures |tail| == READ_SIZE - 1 && IsStream(tail)
  {
    tail := EncodeAll(Pings(819));
    PingBytes(819);
    assert AllEncodable(Pings(819));
  }

  /** A full read behind a backlog of a frame but for one byte is over the bound. */
  lemma LastReadKills(chunks: seq<seq<Byte>>, e: seq<Byte>, n: nat, tail: seq<Byte>)
    requires n == |e| - 1 && n + READ_SIZE > MAX_FRAME_LEN && |tail| == READ_SIZE - 1
    requires ReadSized(chunks) && Flatten(chunks) == e[..n] && ReadAll(chunks).frames == []
    requires ReadAll(chunks).failed || ReadAll(chunks).buf == e[..n]
    ensures var all := chunks + [[e[n]] + tail];
            ReadSized(all) && Flatten(all) == e + tail && ReadAll(all).frames == []
  {
    var last := [e[n]] + tail;
    assert (chunks + [last])[..|chunks|] == chunks;
    hide Parse;
    assert e[..n] + last == e + tail;
  }

  lemma LargeFrameDies(f: Frame) returns (chunks: seq<seq<Byte>>, tail: seq<Byte>)
    requires Encodable(f) && SizeOf(f) > MAX_FRAME_LEN - (READ_SIZE - 1)
    ensures Sends(chunks, f, tail) && IsStream(tail) && !Delivers(chunks, f)
  {
    var n := SizeOf(f) - 1;
    var e := Encode(f);
    tail := PingTail();
    hide Encode, EncodeAll, IsStream, Parse, Singles, FeedAndDrain;
    DribbledCut(f, n);
    LastReadKills(Singles(e[..n]), e, n, tail);
    chunks := Singles(e[..n]) + [[e[n]] + tail];
  }

  // ---- the other two users of the format ------------------------------------------------

  /** What one write can return: a count, a transient condition, or a hard error. */
  datatype WriteResult = Wrote(n: nat) | Again | Broken

  /** What the first `k` writes took in all. */
  function Taken(results: seq<WriteResult>, k: nat): nat
    requires k <= |results|
  {
    if k == 0 then 0 else Taken(results, k - 1) + if results[k - 1].Wrote? then results[k - 1].n else 0
  }

  /** An error, or nothing written. */
  predicate Stops(r: WriteResult) {
    r.Broken? || r == Wrote(0)
  }

  /** The first `k` writes, of which none stops the call and only the last may end the frame, bring it to `off` of `size`. */
  predicate Reaches(results: seq<WriteResult>, k: nat, size: nat, off: nat) {
    && k <= |results| && (forall i :: 0 <= i < k ==> !Stops(results[i]) && Taken(results, i) < size)
    && off == if Taken(results, k) < size then Taken(results, k) else size
  }

  lemma ReachesOn(results: seq<WriteResult>, k: nat, size: nat, off: nat)
    requires k < |results| && Reaches(results, k, size, off) && off < size && !Stops(results[k])
    ensures Reaches(results, k + 1, size,
                    if results[k].Again? then off else if results[k].n <= size - off then off + results[k].n else size)
  {
  }

  /** `write_frame` over the write results it meets, of which it takes the first `k` before it stops: as soon as all is
      written, at the first result that is an error or nothing written, or else, retrying, only where the results end. The
      peer has received what the writes took, all of the frame exactly when the call reports success. */
  method WriteFrame(f: Frame, results: seq<WriteResult>) returns (ok: Option<bool>, received: seq<Byte>, ghost k: nat)
    requires Encodable(f)
    ensures received <= Encode(f)
    ensures ok == Some(true) <==> received == Encode(f)
    ensures Reaches(results, k, SizeOf(f), |received|)
    ensures ok == Some(false) ==> k < |results| && Stops(results[k])
    ensures ok == None ==> k == |results|
  {
    k := 0;
    var frame := EncodeFrame(f, []);
    assert frame == Encode(f);
    var off, i := 0, 0;
    received := [];
    while off < |frame|
      invariant off <= |frame| && i == k <= |results| && received == frame[..off] && Reaches(results, k, |frame|, off)
      decreases |results| - i
    {
      if i == |results| { return None, received, k; }
      hide Reaches;
      if !Stops(results[i]) { ReachesOn(results, k, |frame|, off); }
      match results[i] {
        case Wrote(n) =>
          if n == 0 { return Some(false), received, k; }
          off := if n <= |frame| - off then off + n else |frame|;
          received := frame[..off];
        case Again =>
        case Broken => return Some(false), received, k;
      }
      i, k := i + 1, k + 1;
    }
    ok := Some(true);
  }

  /** The server's drain: every complete frame in order, and the connection is kept exactly when the
      stream is well formed and what remains is no more than a maximal frame. */
  method DrainFrames(rbuf: seq<Byte>) returns (ok: bool, frames: seq<Frame>, rest: seq<Byte>)
    ensures frames == Parse(rbuf).frames
    ensures ok <==> !Parse(rbuf).bad && |Parse(rbuf).rest| <= MAX_FRAME_LEN
    ensures ok ==> rest == Parse(rbuf).rest
  {
    frames, rest := [], rbuf;
    while true
      invariant Parse(rbuf) == Parse(rest).(frames := frames + Parse(rest).frames)
      decreases |rest|
    {
      match Decode(rest)
      case Bad => return false, frames, rest;
      case NeedMore => return |rest| <= MAX_FRAME_LEN, frames, rest;
      case Got(f, n) =>
        assert frames + ([f] + Parse(rest[n..]).frames) == (frames + [f]) + Parse(rest[n..]).frames;
        frames := frames + [f];
        rest := rest[n..];
    }
  }
}
