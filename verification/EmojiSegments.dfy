/** What the runs of a text are: a partition of it, each slice a run of its own, with faithful keys. */
module EmojiSegments {
  import opened Common
  import opened Emoji
  import opened EmojiGrammar
  import opened EmojiRuns

  // ---- the partition ------------------------------------------------------------------------

  /** The slices behind `Split(text, s)`. */
  function Slices(text: seq<Byte>, s: seq<Byte>): seq<seq<Byte>>
    decreases |s|
  {
    if s == [] then Slice(text)
    else
      match PieceAt(s)
      case Plain(n) => Slices(text + s[..n], s[n..])
      case Inline(n, _) => Slice(text) + [s[..n]] + Slices([], s[n..])
  }

  function Slice(text: seq<Byte>): seq<seq<Byte>> {
    if text == [] then [] else [text]
  }

  function Concat(slices: seq<seq<Byte>>): seq<Byte> {
    if slices == [] then [] else slices[0] + Concat(slices[1..])
  }

  /** `t`, standing before `rest`, is plain pieces from end to end. */
  predicate IsPlain(t: seq<Byte>, rest: seq<Byte>)
    decreases |t|
  {
    t == [] || (PieceAt(t + rest).Plain? && PieceAt(t + rest).size <= |t| && IsPlain(t[PieceAt(t + rest).size..], rest))
  }

  /** What a run says about its slice. */
  predicate IsRunOf(slice: seq<Byte>, run: Run) {
    || (run.key == [] && run.text == slice && IsPlain(slice, []))
    || (CustomAt(slice).Markup? && CustomAt(slice).Spelled() == slice && run == CustomRun(CustomAt(slice)))
    || (EmojiAt(slice).Emoji? && EmojiAt(slice).size == |slice| && run == UnicodeRun(slice, EmojiAt(slice).cps))
  }

  /** Pieces are read off without looking past them. */
  lemma PieceOfPrefix(s: seq<Byte>, m: nat)
    requires 0 < m <= |s| && PieceAt(s).size <= m
    ensures PieceAt(s).Plain? ==> PieceAt(s[..m]) == PieceAt(s)
    ensures PieceAt(s).Inline? ==> PieceAt(s[..m]) == PieceAt(s)
  {
    var t := s[..m];
    MatchOfPrefix(s, m);
    DecodePrefix(s, m);
    if CustomAt(t).Markup? {
      CustomIsSpelled(t);
      MatchedExactlyWhenSpelled(s, CustomAt(t));
    }
    if CustomAt(s).Markup? {
      CustomIsSpelled(s);
      SizeOfMarkup(CustomAt(s));
      assert CustomAt(s).Spelled() <= t;
      MatchedExactlyWhenSpelled(t, CustomAt(s));
    }
    hide CustomAt, EmojiAt, Decode;
    if PieceAt(s).Inline? && !CustomAt(s).Markup? {
      var n := PieceAt(s).size;
      assert t[..n] == s[..n];
    }
  }

  lemma {:induction false} PlainAnywhere(t: seq<Byte>, rest: seq<Byte>)
    requires IsPlain(t, rest)
    ensures IsPlain(t, [])
    decreases |t|
  {
    if t != [] {
      PieceOfPrefix(t + rest, |t|);
      assert (t + rest)[..|t|] == t && t + [] == t;
      PlainAnywhere(t[PieceAt(t + rest).size..], rest);
    }
  }

  lemma {:induction false} PlainSplits(pending: seq<Byte>, t: seq<Byte>)
    requires IsPlain(t, [])
    ensures Split(pending, t) == Flushed(pending + t)
    decreases |t|
  {
    assert t + [] == t;
    if t == [] {
      assert pending + t == pending;
    } else {
      var n := PieceAt(t).size;
      PlainSplits(pending + t[..n], t[n..]);
      assert pending + t[..n] + t[n..] == pending + t;
    }
  }

  lemma {:induction false} PlainGrows(t: seq<Byte>, s: seq<Byte>)
    requires IsPlain(t, s) && s != [] && PieceAt(s).Plain?
    ensures var n := PieceAt(s).size; IsPlain(t + s[..n], s[n..])
    decreases |t|
  {
    hide PieceAt;
    var n := PieceAt(s).size;
    assert t + s[..n] + s[n..] == t + s;
    if t == [] {
      assert t + s == s;
      assert (t + s[..n])[n..] == [];
    } else {
      var m := PieceAt(t + s).size;
      PlainGrows(t[m..], s);
      assert (t + s[..n])[m..] == t[m..] + s[..n];
    }
  }

  /** `runs` are, in order, what `slices` say; the slices are nonempty and make up `s`; no two text runs meet. */
  predicate Segments(s: seq<Byte>, slices: seq<seq<Byte>>, runs: seq<Run>) {
    && |slices| == |runs| && Concat(slices) == s
    && (forall i :: 0 <= i < |runs| ==> slices[i] != [] && IsRunOf(slices[i], runs[i]))
    && (forall i :: 0 < i < |runs| ==> runs[i - 1].key != [] || runs[i].key != [])
  }

  lemma ConcatAppend(a: seq<seq<Byte>>, b: seq<seq<Byte>>)
    ensures Concat(a + b) == Concat(a) + Concat(b)
  {
    if a == [] {
      assert a + b == b;
    } else {
      assert (a + b)[1..] == a[1..] + b;
      ConcatAppend(a[1..], b);
    }
  }

  /** An inline piece is, by itself, the run it stands for. */
  lemma InlineIsRun(s: seq<Byte>)
    requires s != [] && PieceAt(s).Inline?
    ensures IsRunOf(s[..PieceAt(s).size], PieceAt(s).run) && PieceAt(s).run.key != []
  {
    var n := PieceAt(s).size;
    PieceOfPrefix(s, n);
    var t := s[..n];
    assert t[..n] == t;
    if CustomAt(s).Markup? {
      CustomIsSpelled(s);
      SizeOfMarkup(CustomAt(s));
      MatchedExactlyWhenSpelled(t, CustomAt(s));
    } else {
      MatchOfPrefix(s, n);
    }
  }

  lemma SegmentsText(text: seq<Byte>)
    requires IsPlain(text, [])
    ensures Segments(text, Slice(text), Flushed(text))
  {
    assert Concat([text]) == text + Concat([]);
  }

  lemma SegmentsOne(slice: seq<Byte>, run: Run)
    requires slice != [] && IsRunOf(slice, run)
    ensures Segments(slice, [slice], [run])
  {
    assert Concat([slice]) == slice + Concat([]);
    hide IsRunOf;
  }

  /** Two segmentations in a row are one, unless two text runs would meet. */
  lemma SegmentsJoin(s: seq<Byte>, a: seq<seq<Byte>>, x: seq<Run>, t: seq<Byte>, b: seq<seq<Byte>>, y: seq<Run>)
    requires Segments(s, a, x) && Segments(t, b, y)
    requires x == [] || y == [] || x[|x| - 1].key != [] || y[0].key != []
    ensures Segments(s + t, a + b, x + y)
  {
    ConcatAppend(a, b);
    hide IsRunOf, Concat;
    var runs, slices := x + y, a + b;
    forall i | 0 <= i < |runs| ensures slices[i] != [] && IsRunOf(slices[i], runs[i]) {
      if i < |x| { assert slices[i] == a[i]; } else { assert slices[i] == b[i - |x|]; }
    }
    forall i | 0 < i < |runs| ensures runs[i - 1].key != [] || runs[i].key != [] {
      if i < |x| { assert runs[i] == x[i]; } else if i > |x| { assert runs[i] == y[i - |x|]; }
    }
  }

  lemma {:induction false} SplitSegments(text: seq<Byte>, s: seq<Byte>)
    requires IsPlain(text, s)
    ensures Segments(text + s, Slices(text, s), Split(text, s))
    decreases |s|
  {
    hide Segments, IsRunOf;
    if s == [] {
      assert text + s == text;
      SegmentsText(text);
    } else {
      var n := PieceAt(s).size;
      assert text + s[..n] + s[n..] == text + s;
      if PieceAt(s).Plain? {
        PlainGrows(text, s);
        SplitSegments(text + s[..n], s[n..]);
      } else {
        PlainAnywhere(text, s);
        SegmentsText(text);
        InlineIsRun(s);
        SplitSegments([], s[n..]);
        assert [] + s[n..] == s[n..];
        var run := PieceAt(s).run;
        SegmentsOne(s[..n], run);
        SegmentsJoin(text, Slice(text), Flushed(text), s[..n], [s[..n]], [run]);
        SegmentsJoin(text + s[..n], Slice(text) + [s[..n]], Flushed(text) + [run], s[n..], Slices([], s[n..]), Split([], s[n..]));
      }
    }
  }

  /** Splitting partitions any bytes: every slice is nonempty and gives its run, and text runs never meet. */
  lemma RunsPartitionTheText(s: seq<Byte>)
    ensures Segments(s, Slices([], s), Split([], s))
  {
    SplitSegments([], s);
    assert [] + s == s;
  }

  lemma InlineSplits(slice: seq<Byte>, run: Run)
    requires slice != [] && PieceAt(slice) == Inline(|slice|, run)
    ensures Split([], slice) == [run]
  {
    assert slice[|slice|..] == [];
  }

  lemma InlineSlice(slice: seq<Byte>, run: Run)
    requires slice != [] && IsRunOf(slice, run) && run.key != []
    ensures PieceAt(slice) == Inline(|slice|, run)
  {
    hide Stem, EmojiAt;
    assert slice[..|slice|] == slice;
    OnlyAngles(slice);
    if CustomAt(slice).Markup? {
      AnglesAreNoEmoji(slice);
      SizeOfMarkup(CustomAt(slice));
    }
  }

  lemma AnglesAreNoEmoji(s: seq<Byte>)
    requires s != [] && s[0] == LT
    ensures EmojiAt(s) == NoEmoji
  {
    DecodedBytes(s);
  }

  /** A slice on its own splits into just its run: text holds no emoji that was overlooked. */
  lemma SliceSplitsToItsRun(slice: seq<Byte>, run: Run)
    requires slice != [] && IsRunOf(slice, run)
    ensures Split([], slice) == [run]
  {
    if run.key == [] {
      PlainSplits([], slice);
      assert [] + slice == slice;
    } else {
      InlineSlice(slice, run);
      InlineSplits(slice, run);
    }
  }

  lemma EverySliceSplitsToItsRun(s: seq<Byte>, i: nat)
    requires i < |Split([], s)|
    ensures |Slices([], s)| == |Split([], s)| && Split([], Slices([], s)[i]) == [Split([], s)[i]]
  {
    RunsPartitionTheText(s);
    SliceSplitsToItsRun(Slices([], s)[i], Split([], s)[i]);
  }

  // ---- what is drawn without images -------------------------------------------------------------

  function JoinText(runs: seq<Run>): seq<Byte> {
    if runs == [] then [] else runs[0].text + JoinText(runs[1..])
  }

  /** Every markup replaced by its shortcode, every other byte kept. */
  function Unmarked(s: seq<Byte>): seq<Byte>
    decreases |s|
  {
    if s == [] then []
    else
      match CustomAt(s)
      case Markup(_, _, _) => CustomIsSpelled(s); CustomAt(s).Shortcode() + Unmarked(s[CustomAt(s).Size()..])
      case NoMarkup => [s[0]] + Unmarked(s[1..])
  }

  /** The emoji of the markups a scan over `s` meets. */
  function Customs(s: seq<Byte>): seq<Run>
    decreases |s|
  {
    if s == [] then []
    else
      match CustomAt(s)
      case Markup(_, _, _) => CustomIsSpelled(s); [CustomRun(CustomAt(s))] + Customs(s[CustomAt(s).Size()..])
      case NoMarkup => Customs(s[1..])
  }

  /** The custom emoji among `runs`. */
  function CustomOnes(runs: seq<Run>): seq<Run> {
    if runs == [] then []
    else (if Lit(CUSTOM) <= runs[0].key then [runs[0]] else []) + CustomOnes(runs[1..])
  }

  lemma {:induction false} JoinTextAppend(a: seq<Run>, b: seq<Run>)
    ensures JoinText(a + b) == JoinText(a) + JoinText(b)
  {
    if a == [] {
      assert a + b == b;
    } else {
      assert (a + b)[1..] == a[1..] + b;
      JoinTextAppend(a[1..], b);
      BytesAssoc(a[0].text, JoinText(a[1..]), JoinText(b));
    }
  }

  lemma {:induction false} CustomOnesAppend(a: seq<Run>, b: seq<Run>)
    ensures CustomOnes(a + b) == CustomOnes(a) + CustomOnes(b)
  {
    if a == [] {
      assert a + b == b;
    } else {
      assert (a + b)[1..] == a[1..] + b;
      CustomOnesAppend(a[1..], b);
    }
  }

  predicate NoAngle(s: seq<Byte>) {
    forall i :: 0 <= i < |s| ==> s[i] != LT
  }

  /** Bytes none of which is `<` pass through. */
  lemma {:induction false} UnmarkedSkips(a: seq<Byte>, t: seq<Byte>)
    requires NoAngle(a)
    ensures Unmarked(a + t) == a + Unmarked(t) && Customs(a + t) == Customs(t)
  {
    if a == [] {
      assert a + t == t;
    } else {
      OnlyAngles(a + t);
      hide CustomAt;
      assert (a + t)[1..] == a[1..] + t;
      UnmarkedSkips(a[1..], t);
      assert [a[0]] + (a[1..] + Unmarked(t)) == a + Unmarked(t);
    }
  }

  lemma CodepointHasNoAngle(s: seq<Byte>)
    requires Decode(s).Codepoint?
    ensures NoAngle(s[..Decode(s).size]) || (Decode(s) == Codepoint(1, LT) && s[0] == LT)
  {
    DecodedBytes(s);
    var n := Decode(s).size;
    assert forall i :: 1 <= i < n ==> IsContinuation(s[i]);
    hide Decode;
    assert s[0] == LT || forall i :: 0 <= i < n ==> s[..n][i] != LT;
  }

  lemma NoAngleAppend(s: seq<Byte>, n: nat, m: nat)
    requires n + m <= |s| && NoAngle(s[..n]) && NoAngle(s[n..][..m])
    ensures NoAngle(s[..n + m])
  {
    assert s[..n + m] == s[..n] + s[n..][..m];
  }

  lemma {:induction false} ReadsHasNoAngle(s: seq<Byte>, k: nat, cps: seq<nat>)
    requires Reads(s, k, cps) && LT !in cps && k <= |s|
    ensures NoAngle(s[..k])
    decreases |cps|
  {
    if cps != [] {
      CodepointHasNoAngle(s);
      var n := Decode(s).size;
      ReadsHasNoAngle(s[n..], k - n, cps[1..]);
      hide Decode, Reads;
      NoAngleAppend(s, n, k - n);
    }
  }

  lemma {:induction false} ExtendsHasNoAngle(cps: seq<nat>)
    requires Extends(cps)
    ensures LT !in cps
    decreases |cps|
  {
    if cps != [] {
      var n := if IsModifier(cps[0]) && Extends(cps[1..]) then 1 else 2;
      ExtendsHasNoAngle(cps[n..]);
      assert cps == cps[..n] + cps[n..];
      assert LT !in cps[..n];
    }
  }

  lemma EmojiHasNoAngle(s: seq<Byte>)
    requires EmojiAt(s).Emoji?
    ensures NoAngle(s[..EmojiAt(s).size])
  {
    MatchIsEmoji(s);
    var cps := Spelling(s);
    assert LT !in cps by {
      if IsExtended(cps) {
        var n := if AlwaysEmoji(cps[0]) && !IsRegionalIndicator(cps[0]) && Extends(cps[1..]) then 1 else 2;
        ExtendsHasNoAngle(cps[n..]);
        assert cps == cps[..n] + cps[n..];
      }
    }
    ReadsHasNoAngle(s, EmojiAt(s).size, cps);
  }

  lemma SliceSkips(s: seq<Byte>, n: nat)
    requires n <= |s| && NoAngle(s[..n])
    ensures Unmarked(s) == s[..n] + Unmarked(s[n..]) && Customs(s) == Customs(s[n..])
    ensures Customs(s) == [] + Customs(s[n..])
  {
    UnmarkedSkips(s[..n], s[n..]);
    assert s[..n] + s[n..] == s;
  }

  lemma PlainUnmarks(s: seq<Byte>)
    requires s != [] && PieceAt(s).Plain?
    ensures var n := PieceAt(s).size; Unmarked(s) == s[..n] + Unmarked(s[n..]) && Customs(s) == Customs(s[n..])
  {
    var n := PieceAt(s).size;
    if s[0] == LT {
      DecodedBytes(s);
      hide Decode, EmojiAt;
      assert s[..1] == [s[0]];
    } else {
      if Decode(s).Codepoint? { CodepointHasNoAngle(s); }
      assert NoAngle(s[..n]);
      hide *;
      SliceSkips(s, n);
    }
  }

  lemma InlineUnmarks(s: seq<Byte>)
    requires s != [] && PieceAt(s).Inline?
    ensures var p := PieceAt(s);
            Unmarked(s) == p.run.text + Unmarked(s[p.size..]) && Customs(s) == CustomOnes([p.run]) + Customs(s[p.size..])
  {
    var p := PieceAt(s);
    KeysApart(p.run.key);
    assert CustomOnes([p.run]) == if Lit(CUSTOM) <= p.run.key then [p.run] else [];
    if !CustomAt(s).Markup? {
      EmojiHasNoAngle(s);
      hide *;
      SliceSkips(s, p.size);
    }
  }

  lemma KeysApart(key: seq<Byte>)
    ensures Lit(CUSTOM) <= key ==> !(Lit(UNICODE) <= key)
    ensures |Lit(CUSTOM)| == |Lit(UNICODE)| == 8
  {
    assert Lit(CUSTOM)[6] != Lit(UNICODE)[6];
  }

  lemma JoinTextOne(run: Run)
    ensures JoinText([run]) == run.text
  {
    assert [run][1..] == [];
  }

  lemma JoinTextStep(text: seq<Byte>, run: Run, runs: seq<Run>)
    ensures JoinText(Flushed(text) + [run] + runs) == text + run.text + JoinText(runs)
    ensures CustomOnes(Flushed(text) + [run] + runs) == CustomOnes([run]) + CustomOnes(runs)
  {
    JoinTextOne(run);
    FlushedUnmarks(text);
    hide *;
    JoinTextAppend(Flushed(text) + [run], runs);
    JoinTextAppend(Flushed(text), [run]);
    CustomOnesAppend(Flushed(text) + [run], runs);
    CustomOnesAppend(Flushed(text), [run]);
  }

  lemma BytesAssoc(a: seq<Byte>, b: seq<Byte>, c: seq<Byte>)
    ensures a + (b + c) == (a + b) + c
    ensures [] + a == a
  {
  }

  lemma {:induction false} SplitUnmarks(text: seq<Byte>, s: seq<Byte>)
    ensures JoinText(Split(text, s)) == text + Unmarked(s) && CustomOnes(Split(text, s)) == Customs(s)
    decreases |s|
  {
    hide PieceAt, Flushed, JoinText, CustomOnes, CustomAt;
    FlushedUnmarks(text);
    if s == [] {
      UnmarkedNothing();
    } else {
      var p := PieceAt(s);
      var n, rest := p.size, s[p.size..];
      match p {
        case Plain(_) =>
          PlainUnmarks(s);
          SplitUnmarks(text + s[..n], rest);
          BytesAssoc(text, s[..n], Unmarked(rest));
        case Inline(_, run) =>
          InlineUnmarks(s);
          SplitUnmarks([], rest);
          BytesAssoc(Unmarked(rest), [], []);
          JoinTextStep(text, run, Split([], rest));
          BytesAssoc(text, run.text, Unmarked(rest));
      }
    }
  }

  lemma FlushedUnmarks(text: seq<Byte>)
    ensures JoinText(Flushed(text)) == text && CustomOnes(Flushed(text)) == []
  {
    assert [Run(text, [])][1..] == [];
  }

  lemma UnmarkedNothing()
    ensures Unmarked([]) == [] && Customs([]) == []
  {
  }

  /** Without images a text is drawn with each markup as its shortcode, and the custom emoji are the markups. */
  lemma RunsDrawTheText(s: seq<Byte>)
    ensures JoinText(Split([], s)) == Unmarked(s) && CustomOnes(Split([], s)) == Customs(s)
  {
    SplitUnmarks([], s);
  }

  // ---- keys and URLs ----------------------------------------------------------------------------

  const CUSTOM_URL := "https://cdn.discordapp.com/emojis/"
  const CUSTOM_EXT := ".png?size=64"
  const UNICODE_URL := "https://cdn.jsdelivr.net" + "/gh/jdecked/twemoji@v17.0.3/assets/72x72/"
  const UNICODE_EXT := ".png"

  function UrlFor(key: seq<Byte>): seq<Byte> {
    if Lit(CUSTOM) <= key && |key| > |CUSTOM| then Lit(CUSTOM_URL) + key[|CUSTOM|..] + Lit(CUSTOM_EXT)
    else if Lit(UNICODE) <= key && |key| > |UNICODE| then Lit(UNICODE_URL) + key[|UNICODE|..] + Lit(UNICODE_EXT)
    else []
  }

  /** Custom emoji come from the one host by id, the others from the other by stem, and no other key has a URL. */
  lemma UrlIs(key: seq<Byte>, x: seq<Byte>)
    ensures key == Lit("emoji.c.") + x && x != [] ==>
              UrlFor(key) == Lit("https://cdn.discordapp.com/emojis/") + x + Lit(".png?size=64")
    ensures key == Lit("emoji.u.") + x && x != [] ==>
              UrlFor(key) == Lit("https://cdn.jsdelivr.net" + "/gh/jdecked/twemoji@v17.0.3/assets/72x72/") + x + Lit(".png")
    ensures |key| <= 8 || key[..8] !in {Lit("emoji.c."), Lit("emoji.u.")} ==> UrlFor(key) == []
  {
    KeysApart(key);
    assert Lit(CUSTOM) <= key ==> key[..8] == Lit(CUSTOM);
    assert Lit(UNICODE) <= key ==> key[..8] == Lit(UNICODE);
  }

  lemma MiddleOf(a: seq<Byte>, x: seq<Byte>, y: seq<Byte>, b: seq<Byte>)
    ensures a + x + b == a + y + b <==> x == y
  {
    if a + x + b == a + y + b {
      assert |x| == |y|;
      assert (a + x + b)[|a|..|a| + |x|] == x && (a + y + b)[|a|..|a| + |x|] == y;
    }
  }

  lemma UrlHosts(x: seq<Byte>, p: seq<Byte>, y: seq<Byte>, q: seq<Byte>)
    ensures Lit(CUSTOM_URL) + x + p != Lit(UNICODE_URL) + y + q
  {
    assert |UNICODE_URL| > 12 && UNICODE_URL[12] == 'j';
    assert (Lit(CUSTOM_URL) + x + p)[12] == 'd' as int && (Lit(UNICODE_URL) + y + q)[12] == 'j' as int;
  }

  lemma KeyRest(prefix: seq<Byte>, a: seq<Byte>, b: seq<Byte>)
    requires prefix <= a && prefix <= b
    ensures a == b <==> a[|prefix|..] == b[|prefix|..]
  {
    assert a == prefix + a[|prefix|..] && b == prefix + b[|prefix|..];
  }

  /** Different keys never share a URL. */
  lemma UrlsAreFaithful(a: seq<Byte>, b: seq<Byte>)
    requires UrlFor(a) != []
    ensures UrlFor(a) == UrlFor(b) <==> a == b
  {
    KeysApart(a);
    KeysApart(b);
    if UrlFor(b) != [] {
      var x, y := a[8..], b[8..];
      if Lit(CUSTOM) <= a && Lit(CUSTOM) <= b {
        KeyRest(Lit(CUSTOM), a, b);
        MiddleOf(Lit(CUSTOM_URL), x, y, Lit(CUSTOM_EXT));
      } else if Lit(UNICODE) <= a && Lit(UNICODE) <= b {
        KeyRest(Lit(UNICODE), a, b);
        MiddleOf(Lit(UNICODE_URL), x, y, Lit(UNICODE_EXT));
      } else if Lit(CUSTOM) <= a {
        UrlHosts(x, Lit(CUSTOM_EXT), y, Lit(UNICODE_EXT));
      } else {
        UrlHosts(y, Lit(CUSTOM_EXT), x, Lit(UNICODE_EXT));
      }
    }
  }

  /** Every emoji run has an image to ask for. */
  lemma RunsHaveUrls(slice: seq<Byte>, run: Run)
    requires IsRunOf(slice, run)
    ensures UrlFor(run.key) != [] <==> run.key != []
  {
    KeysApart(run.key);
    if run.key != [] {
      if CustomAt(slice).Markup? && run == CustomRun(CustomAt(slice)) {
        CustomIsSpelled(slice);
      } else {
        StemOfEmoji(slice);
      }
    }
  }

  lemma StemOfEmoji(s: seq<Byte>)
    requires EmojiAt(s).Emoji?
    ensures Stem(EmojiAt(s).cps) != []
  {
    MatchIsEmoji(s);
    var cps := EmojiAt(s).cps;
    assert cps != [] && cps[0] != VS16 by { assert cps[0] == Spelling(s)[0]; }
    KeepsFirst(cps, ZWJ in cps);
    JoinedNext(Normal(cps), 0);
  }

  lemma {:induction false} KeepsFirst(cps: seq<nat>, joined: bool)
    requires cps != [] && cps[0] != VS16
    ensures Kept(cps, joined) != []
  {
    if |cps| > 1 { KeepsFirst(cps[..|cps| - 1], joined); }
  }

  /** Two emoji ask for one image exactly when their ids, or their codepoints under the VS16 rule, agree. */
  lemma SameImage(a: seq<Byte>, x: Run, b: seq<Byte>, y: Run)
    requires IsRunOf(a, x) && IsRunOf(b, y) && x.key != [] && y.key != []
    ensures UrlFor(x.key) == UrlFor(y.key) <==>
            if CustomAt(a).Markup? && CustomAt(b).Markup? then CustomAt(a).id == CustomAt(b).id
            else EmojiAt(a).Emoji? && EmojiAt(b).Emoji? && Normal(EmojiAt(a).cps) == Normal(EmojiAt(b).cps)
  {
    RunsHaveUrls(a, x);
    UrlsAreFaithful(x.key, y.key);
    KeyOf(a, x);
    KeyOf(b, y);
    KeysApart(x.key);
    KeysApart(y.key);
    hide *;
    if CustomAt(a).Markup? && CustomAt(b).Markup? {
      KeyRest(Lit(CUSTOM), x.key, y.key);
    } else if EmojiAt(a).Emoji? && EmojiAt(b).Emoji? {
      KeyRest(Lit(UNICODE), x.key, y.key);
      StemIsFaithful(EmojiAt(a).cps, EmojiAt(b).cps);
    }
  }

  lemma KeyOf(slice: seq<Byte>, run: Run)
    requires IsRunOf(slice, run) && run.key != []
    ensures CustomAt(slice).Markup? <==> !EmojiAt(slice).Emoji?
    ensures CustomAt(slice).Markup? ==> Lit(CUSTOM) <= run.key && run.key[8..] == CustomAt(slice).id
    ensures EmojiAt(slice).Emoji? ==> Lit(UNICODE) <= run.key && run.key[8..] == Stem(EmojiAt(slice).cps)
  {
    OnlyAngles(slice);
    if CustomAt(slice).Markup? { AnglesAreNoEmoji(slice); }
  }
}
