/** Laying out a notification's text and emoji in lines.  Fonts are oracles for widths and wrapping. */
module Layout {
  import opened Common
  import opened Emoji
  import opened EmojiRuns
  import opened EmojiSegments

  const SPACE: Byte := 0x20
  const ELLIPSIS: seq<Byte> := [0x2E, 0x2E, 0x2E]

  type Texture = nat

  /** `wrap(s, w)` is how much of `s` goes on a line with room `w`. */
  datatype Font = Font(wrap: (seq<Byte>, real) -> nat, width: seq<Byte> -> real)
  {
    ghost predicate Sound() {
      (forall s, w :: wrap(s, w) <= |s|) && forall s :: width(s) >= 0.0
    }

    /** What is wrapped has the room, and trailing spaces have no negative width. */
    ghost predicate Honest() {
      && (forall s, w :: wrap(s, w) <= |s| && (wrap(s, w) > 0 ==> width(s[..wrap(s, w)]) <= w))
      && forall s :: width(Trimmed(s)) <= width(s)
    }
  }

  /** A piece at column `x` of a line: an image, or else text. */
  datatype Placed = Placed(x: real, line: nat, text: seq<Byte>, image: Option<Texture>)

  datatype Item = Text(text: seq<Byte>) | Box(image: Texture)
  {
    /** The most pieces the item can be placed as. */
    function Weight(): nat {
      if Text? then |text| else 1
    }
  }

  function Trimmed(s: seq<Byte>): (r: seq<Byte>)
    ensures r <= s && (r != [] ==> r[|r| - 1] != 0x20) && forall i :: |r| <= i < |s| ==> s[i] == 0x20
  {
    if s != [] && s[|s| - 1] == SPACE then Trimmed(s[..|s| - 1]) else s
  }

  // ---- content ------------------------------------------------------------------------------

  datatype Glyph = Ink(b: Byte) | Image(image: Texture)

  /** The bytes that are not spaces. */
  function Inked(s: seq<Byte>): seq<Glyph> {
    if s == [] then []
    else Inked(s[..|s| - 1]) + if s[|s| - 1] == SPACE then [] else [Ink(s[|s| - 1])]
  }

  function PlacedGlyphs(r: Placed): seq<Glyph> {
    match r.image case Some(i) => [Image(i)] case None => Inked(r.text)
  }

  function Content(out: seq<Placed>): seq<Glyph> {
    if out == [] then [] else Content(out[..|out| - 1]) + PlacedGlyphs(out[|out| - 1])
  }

  function ItemGlyphs(item: Item): seq<Glyph> {
    match item case Box(i) => [Image(i)] case Text(t) => Inked(t)
  }

  function ItemContent(items: seq<Item>): seq<Glyph> {
    if items == [] then [] else ItemContent(items[..|items| - 1]) + ItemGlyphs(items[|items| - 1])
  }

  function Weight(items: seq<Item>): nat {
    if items == [] then 0 else Weight(items[..|items| - 1]) + items[|items| - 1].Weight()
  }

  /** What the runs of a text ask to be drawn, given the images that are there. */
  function RunContent(runs: seq<Run>, images: seq<Byte> -> Option<Texture>): seq<Glyph> {
    if runs == [] then []
    else RunContent(runs[..|runs| - 1], images) + RunGlyphs(runs[|runs| - 1], images)
  }

  function RunGlyphs(run: Run, images: seq<Byte> -> Option<Texture>): seq<Glyph> {
    if run.key == [] then Inked(run.text)
    else match images(run.key) case Some(i) => [Image(i)] case None => Inked(run.text)
  }

  /** What is drawn of a text is what is drawn of its bytes: all but the spaces. */
  lemma {:induction false} InkedAppend(a: seq<Byte>, b: seq<Byte>)
    ensures Inked(a + b) == Inked(a) + Inked(b)
    ensures |b| == 1 ==> Inked(b) == if b[0] == 0x20 then [] else [Ink(b[0])]
  {
    if b == [] {
      assert a + b == a;
    } else {
      var c := b[..|b| - 1];
      assert (a + b)[..|a + b| - 1] == a + c;
      InkedAppend(a, c);
    }
  }

  lemma {:induction false} NoInk(s: seq<Byte>)
    requires forall i :: 0 <= i < |s| ==> s[i] == SPACE
    ensures Inked(s) == []
  {
    if s != [] { NoInk(s[..|s| - 1]); }
  }

  lemma {:induction false} TrimKeepsInk(s: seq<Byte>)
    ensures Inked(Trimmed(s)) == Inked(s)
  {
    if s != [] && s[|s| - 1] == SPACE { TrimKeepsInk(s[..|s| - 1]); }
  }

  lemma InkedPrefix(s: seq<Byte>, n: nat)
    requires n <= |s|
    ensures Inked(s[..n]) <= Inked(s)
  {
    hide Inked;
    var a, b := s[..n], s[n..];
    assert a + b == s;
    InkedLeads(a, b, s);
  }

  lemma InkedLeads(a: seq<Byte>, b: seq<Byte>, s: seq<Byte>)
    requires a + b == s
    ensures Inked(a) <= Inked(s)
  {
    InkedAppend(a, b);
  }

  lemma ContentPush(out: seq<Placed>, r: Placed)
    ensures Content(out + [r]) == Content(out) + PlacedGlyphs(r)
  {
    assert (out + [r])[..|out|] == out;
  }

  lemma ItemContentPush(items: seq<Item>, item: Item)
    ensures ItemContent(items + [item]) == ItemContent(items) + ItemGlyphs(item)
    ensures Weight(items + [item]) == Weight(items) + item.Weight()
  {
    assert (items + [item])[..|items|] == items;
  }

  lemma RunContentPush(runs: seq<Run>, i: nat, images: seq<Byte> -> Option<Texture>)
    requires i < |runs|
    ensures RunContent(runs[..i + 1], images) == RunContent(runs[..i], images) + RunGlyphs(runs[i], images)
  {
    assert runs[..i + 1][..i] == runs[..i];
  }

  /** A run with a key and an image there is drawn as that image; any other as the bytes of its text but the spaces. */
  lemma RunsAreDrawn(runs: seq<Run>, i: nat, images: seq<Byte> -> Option<Texture>)
    requires i < |runs|
    ensures RunContent([], images) == []
    ensures RunContent(runs[..i + 1], images) == RunContent(runs[..i], images) +
              if runs[i].key != [] && images(runs[i].key).Some? then [Image(images(runs[i].key).value)] else Inked(runs[i].text)
  {
    RunContentPush(runs, i, images);
  }

  // ---- positions ---------------------------------------------------------------------------

  /** One codepoint at most. */
  predicate Unsplittable(s: seq<Byte>) {
    forall i :: 1 <= i < |s| ==> IsContinuation(s[i])
  }

  /** The font, the size of a box, and the width of a line. */
  datatype Frame = Frame(font: Font, size: real, width: real)
  {
    function Extent(r: Placed): real {
      if r.image.Some? then size else font.width(r.text)
    }

    /** The column behind a piece. */
    function EndOf(r: Placed): real {
      r.x + Extent(r)
    }

    /** `r` has room, or stands at column 0 and cannot be made smaller. */
    predicate HasRoom(r: Placed) {
      || EndOf(r) <= width
      || (r.x == 0.0 && (r.image.Some? || Unsplittable(r.text) || r.text == ELLIPSIS))
    }

    predicate AllHaveRoom(out: seq<Placed>) {
      forall i :: 0 <= i < |out| ==> HasRoom(out[i])
    }

    ghost predicate Valid() {
      font.Sound() && size >= 0.0
    }
  }

  /** The pieces laid out so far, and the cursor. */
  datatype Flow = Flow(out: seq<Placed>, line: nat, x: real)

  /** A piece stands right behind the one before it, or at the start of a later line. */
  predicate InOrder(f: Frame, out: seq<Placed>) {
    forall i :: 0 <= i < |out| ==> StandsRight(f, out, i)
  }

  predicate StandsRight(f: Frame, out: seq<Placed>, i: nat)
    requires i < |out|
  {
    && out[i].x >= 0.0
    && if i == 0 then out[i].x == 0.0
       else if out[i - 1].line == out[i].line then out[i].x == f.EndOf(out[i - 1])
       else out[i - 1].line < out[i].line && out[i].x == 0.0
  }

  /** Something stands on the line. */
  predicate OnLine(out: seq<Placed>, line: nat) {
    out != [] && out[|out| - 1].line == line
  }

  /** The column behind what stands on the line. */
  function CursorX(f: Frame, out: seq<Placed>, line: nat): real {
    if OnLine(out, line) then f.EndOf(out[|out| - 1]) else 0.0
  }

  predicate CursorAt(f: Frame, g: Flow) {
    && g.x == CursorX(f, g.out, g.line) && g.x >= 0.0
    && (g.out != [] ==> g.out[|g.out| - 1].line <= g.line)
  }

  lemma PlaceInOrder(f: Frame, g: Flow, r: Placed)
    requires f.Valid() && InOrder(f, g.out) && CursorAt(f, g) && r.x == g.x && r.line == g.line
    ensures InOrder(f, g.out + [r]) && CursorAt(f, Flow(g.out + [r], g.line, f.EndOf(r)))
  {
    forall i | 0 <= i < |g.out| + 1 ensures StandsRight(f, g.out + [r], i) {
      if i < |g.out| { assert StandsRight(f, g.out, i); }
    }
  }

  function AllButLast(out: seq<Placed>): seq<Placed>
    requires out != []
  {
    out[..|out| - 1]
  }

  lemma TakeBackInOrder(f: Frame, out: seq<Placed>, line: nat)
    requires InOrder(f, out) && OnLine(out, line)
    ensures InOrder(f, out[..|out| - 1]) && CursorAt(f, Flow(out[..|out| - 1], line, out[|out| - 1].x))
  {
    assert StandsRight(f, out, |out| - 1);
    var rest := out[..|out| - 1];
    forall i | 0 <= i < |rest| ensures StandsRight(f, rest, i) { assert StandsRight(f, out, i); }
  }

  /** What holds of the pieces and the cursor at every point of the layout. */
  ghost predicate Laid(f: Frame, g: Flow, done: seq<Glyph>) {
    && InOrder(f, g.out) && CursorAt(f, g)
    && (forall i :: 0 <= i < |g.out| ==> g.out[i].line <= g.line)
    && Content(g.out) == done
    && (f.font.Honest() ==> f.AllHaveRoom(g.out))
  }

  lemma LaidPlace(f: Frame, g: Flow, done: seq<Glyph>, r: Placed)
    requires f.Valid() && Laid(f, g, done) && r.x == g.x && r.line == g.line
    requires f.font.Honest() ==> f.HasRoom(r)
    ensures Laid(f, Flow(g.out + [r], g.line, f.EndOf(r)), done + PlacedGlyphs(r))
  {
    PlaceInOrder(f, g, r);
    ContentPush(g.out, r);
    hide InOrder, CursorAt, Content, Font.Honest, Frame.HasRoom;
  }

  lemma LaidBreak(f: Frame, g: Flow, done: seq<Glyph>)
    requires Laid(f, g, done)
    ensures Laid(f, NextLine(g), done)
  {
    hide InOrder, Content, Font.Honest, Frame.HasRoom;
  }

  lemma LaidTakeBack(f: Frame, g: Flow, done: seq<Glyph>)
    requires Laid(f, g, done) && OnLine(g.out, g.line)
    ensures Laid(f, Flow(AllButLast(g.out), g.line, g.out[|g.out| - 1].x), Content(AllButLast(g.out)))
    ensures Content(AllButLast(g.out)) + PlacedGlyphs(g.out[|g.out| - 1]) == done
  {
    TakeBackInOrder(f, g.out, g.line);
    hide InOrder, CursorAt, Font.Honest, Frame.HasRoom;
  }

  /** The pieces up to some piece of a later layout are a layout themselves. */
  lemma LaidPrefix(f: Frame, g: Flow, done: seq<Glyph>, h: Flow)
    requires f.Valid() && Laid(f, g, done) && h.out <= g.out && OnLine(h.out, h.line) && h.x == CursorX(f, h.out, h.line)
    ensures Laid(f, h, Content(h.out)) && Content(h.out) <= done
  {
    InOrderPrefix(f, g.out, h.out);
    ContentPrefix(g.out, |h.out|);
    assert g.out[..|h.out|] == h.out;
    hide Content, InOrder, Font.Honest, Frame.HasRoom, Font.Sound;
  }

  lemma InOrderPrefix(f: Frame, out: seq<Placed>, first: seq<Placed>)
    requires f.Valid() && InOrder(f, out) && first <= out && first != []
    ensures InOrder(f, first) && f.EndOf(first[|first| - 1]) >= 0.0
    ensures forall i :: 0 <= i < |first| ==> first[i].line <= first[|first| - 1].line
  {
    forall i | 0 <= i < |first| ensures StandsRight(f, first, i) {
      assert StandsRight(f, out, i) && first[i] == out[i];
    }
    assert StandsRight(f, first, |first| - 1);
    LinesInOrder(f, first);
  }

  lemma {:induction false} LinesInOrder(f: Frame, out: seq<Placed>)
    requires InOrder(f, out)
    ensures forall i :: 0 <= i < |out| ==> out[i].line <= out[|out| - 1].line
  {
    if |out| > 1 {
      var rest := out[..|out| - 1];
      forall i | 0 <= i < |rest| ensures StandsRight(f, rest, i) { assert StandsRight(f, out, i); }
      LinesInOrder(f, rest);
      assert StandsRight(f, out, |out| - 1);
    }
  }

  lemma {:induction false} ContentPrefix(out: seq<Placed>, n: nat)
    requires n <= |out|
    ensures Content(out[..n]) <= Content(out)
  {
    if n == |out| {
      assert out[..n] == out;
    } else {
      var rest := out[..|out| - 1];
      assert rest[..n] == out[..n];
      ContentPrefix(rest, n);
    }
  }

  // ---- as many lines as it takes ---------------------------------------------------------------

  /** Where the codepoint at `p` ends. */
  function CodepointEnd(s: seq<Byte>, p: nat): (e: nat)
    requires p < |s|
    ensures p < e <= |s|
    decreases |s| - p
  {
    if p + 1 < |s| && IsContinuation(s[p + 1]) then CodepointEnd(s, p + 1) else p + 1
  }

  lemma {:induction false} CodepointIs(s: seq<Byte>, p: nat)
    requires p < |s|
    ensures var e := CodepointEnd(s, p); Unsplittable(s[p..e]) && (e < |s| ==> !IsContinuation(s[e]))
    decreases |s| - p
  {
    if p + 1 < |s| && IsContinuation(s[p + 1]) {
      CodepointIs(s, p + 1);
      var e := CodepointEnd(s, p + 1);
      forall i | 1 <= i < |s[p..e]| ensures IsContinuation(s[p..e][i]) {
        assert i > 1 ==> s[p..e][i] == s[p + 1..e][i - 1];
      }
    }
  }

  /** Where the spaces at `p` end. */
  function SpacesEnd(s: seq<Byte>, p: nat): (e: nat)
    requires p <= |s|
    ensures p <= e <= |s|
    decreases |s| - p
  {
    if p < |s| && s[p] == SPACE then SpacesEnd(s, p + 1) else p
  }

  lemma {:induction false} SpacesAre(s: seq<Byte>, p: nat)
    requires p <= |s|
    ensures var e := SpacesEnd(s, p); (e < |s| ==> s[e] != SPACE) && forall i :: p <= i < e ==> s[i] == SPACE
    decreases |s| - p
  {
    if p < |s| && s[p] == SPACE { SpacesAre(s, p + 1); }
  }

  function NextLine(g: Flow): Flow {
    Flow(g.out, g.line + 1, 0.0)
  }

  function PutText(f: Frame, t: seq<Byte>, g: Flow): Flow {
    Flow(g.out + [Placed(g.x, g.line, t, None)], g.line, g.x + f.font.width(t))
  }

  /** How far the line takes `s` from `p` on: what the font wraps, or on a fresh line a codepoint at least. */
  ghost function FitEnd(f: Frame, s: seq<Byte>, p: nat, x: real): (fit: nat)
    requires f.Valid() && p < |s|
    ensures p <= fit <= |s| && (x == 0.0 ==> p < fit)
  {
    var fit := p + f.font.wrap(s[p..], f.width - x);
    if fit == p && x == 0.0 then CodepointEnd(s, p) else fit
  }

  /** The rest of a text, greedily: a line ends only where it takes less than the rest. */
  ghost function TextFlow(f: Frame, s: seq<Byte>, p: nat, g: Flow): Flow
    requires f.Valid() && p <= |s|
    decreases |s| - p, if g.x == 0.0 then 0 else 1
  {
    if p == |s| then g
    else
      var fit := FitEnd(f, s, p, g.x);
      if fit == p then TextFlow(f, s, SpacesEnd(s, p), NextLine(g))
      else
        var placed := PutText(f, s[p..fit], g);
        if SpacesEnd(s, fit) == |s| then placed else TextFlow(f, s, SpacesEnd(s, fit), NextLine(placed))
  }

  /** An image, on a new line only where it has no room behind something. */
  function BoxFlow(f: Frame, image: Texture, g: Flow): Flow {
    var at := if g.x + f.size > f.width && g.x > 0.0 then NextLine(g) else g;
    Flow(at.out + [Placed(at.x, at.line, [], Some(image))], at.line, at.x + f.size)
  }

  ghost function ItemFlow(f: Frame, item: Item, g: Flow): Flow
    requires f.Valid()
  {
    match item case Box(image) => BoxFlow(f, image, g) case Text(t) => TextFlow(f, t, 0, g)
  }

  /** The whole layout, with no bound on the lines. */
  ghost function ItemsFlow(f: Frame, items: seq<Item>): Flow
    requires f.Valid()
  {
    if items == [] then Flow([], 0, 0.0)
    else ItemFlow(f, items[|items| - 1], ItemsFlow(f, items[..|items| - 1]))
  }

  ghost function LinesNeeded(f: Frame, items: seq<Item>): nat
    requires f.Valid()
  {
    ItemsFlow(f, items).line + 1
  }

  /** No line but the last is empty, and no more pieces stand than `weight`. */
  predicate Dense(g: Flow, weight: nat) {
    g.line <= |g.out| <= weight && (OnLine(g.out, g.line) ==> g.line < |g.out|)
  }

  lemma InkedSplit(s: seq<Byte>, p: nat, q: nat)
    requires p <= q <= |s|
    ensures Inked(s[p..]) == Inked(s[p..q]) + Inked(s[q..])
  {
    InkedAppend(s[p..q], s[q..]);
    assert s[p..q] + s[q..] == s[p..];
  }

  lemma InkBehindSpaces(s: seq<Byte>, p: nat)
    requires p <= |s|
    ensures Inked(s[p..]) == Inked(s[SpacesEnd(s, p)..])
  {
    var q := SpacesEnd(s, p);
    InkedSplit(s, p, q);
    SpacesAre(s, p);
    NoInk(s[p..q]);
  }

  /** What a line takes has room there. */
  lemma FitHasRoom(f: Frame, s: seq<Byte>, p: nat, g: Flow)
    requires f.Valid() && p < |s| && FitEnd(f, s, p, g.x) > p && f.font.Honest()
    ensures f.HasRoom(Placed(g.x, g.line, s[p..FitEnd(f, s, p, g.x)], None))
  {
    var fit := FitEnd(f, s, p, g.x);
    assert s[p..][..fit - p] == s[p..fit];
    CodepointIs(s, p);
  }

  lemma LaidText(f: Frame, s: seq<Byte>, p: nat, g: Flow, done: seq<Glyph>, w: nat)
    requires f.Valid() && p < |s| && Laid(f, g, done) && Dense(g, w) && FitEnd(f, s, p, g.x) > p
    ensures var fit := FitEnd(f, s, p, g.x); var placed := PutText(f, s[p..fit], g);
            LaidIn(f, placed, done + Inked(s[p..fit]), w + fit - p) && OnLine(placed.out, placed.line)
  {
    if f.font.Honest() { FitHasRoom(f, s, p, g); }
    hide Font.Honest, Inked;
    LaidPlace(f, g, done, Placed(g.x, g.line, s[p..FitEnd(f, s, p, g.x)], None));
  }

  /** A layout of `done` in no more than `w` pieces. */
  ghost predicate LaidIn(f: Frame, g: Flow, done: seq<Glyph>, w: nat) {
    Laid(f, g, done) && Dense(g, w)
  }

  lemma LaidBreaks(f: Frame, s: seq<Byte>, p: nat, g: Flow, done: seq<Glyph>, w: nat)
    requires p <= |s| && LaidIn(f, g, done, w) && (g.x == 0.0 ==> OnLine(g.out, g.line))
    ensures LaidIn(f, NextLine(g), done, w) && g.line < w
    ensures Inked(s[p..]) == Inked(s[SpacesEnd(s, p)..])
  {
    LaidBreak(f, g, done);
    DenseBreak(f, g, done, w);
    InkBehindSpaces(s, p);
  }

  /** A text adds its ink, in order and with room, and no more pieces than bytes. */
  lemma {:induction false} TextFlowLaid(f: Frame, s: seq<Byte>, p: nat, g: Flow, done: seq<Glyph>, w: nat)
    requires f.Valid() && p <= |s| && LaidIn(f, g, done, w)
    ensures LaidIn(f, TextFlow(f, s, p, g), done + Inked(s[p..]), w + |s| - p)
    ensures p < |s| ==> TextFlow(f, s, p, g).line < w + |s| - p
    decreases |s| - p, if g.x == 0.0 then 0 else 1
  {
    if p == |s| {
      assert s[p..] == [] && done + [] == done;
      return;
    }
    var fit, q := FitEnd(f, s, p, g.x), SpacesEnd(s, p);
    if fit == p {
      LaidBreaks(f, s, p, g, done, w);
      hide LaidIn, Inked;
      TextFlowLaid(f, s, q, NextLine(g), done, w);
      MoreWeight(f, TextFlow(f, s, p, g), done + Inked(s[p..]), w + |s| - q, w + |s| - p);
    } else {
      var placed, ink, left := PutText(f, s[p..fit], g), Inked(s[p..fit]), w + fit - p;
      LaidText(f, s, p, g, done, w);
      LaidBreaks(f, s, fit, placed, done + ink, left);
      InkedSplit(s, p, fit);
      q := SpacesEnd(s, fit);
      hide LaidIn, Inked, FitEnd;
      GlyphsAssoc(done, ink, Inked(s[fit..]));
      if q == |s| {
        NothingLeft(done + ink, s[q..]);
        MoreWeight(f, placed, done + ink, left, w + |s| - p);
      } else {
        TextFlowLaid(f, s, q, NextLine(placed), done + ink, left);
        MoreWeight(f, TextFlow(f, s, p, g), done + Inked(s[p..]), left + |s| - q, w + |s| - p);
      }
    }
  }

  lemma NothingLeft(done: seq<Glyph>, s: seq<Byte>)
    requires s == []
    ensures done + Inked(s) == done
  {
  }

  lemma MoreWeight(f: Frame, g: Flow, done: seq<Glyph>, w: nat, more: nat)
    requires LaidIn(f, g, done, w) && w <= more
    ensures LaidIn(f, g, done, more)
  {
  }

  lemma DenseBreak(f: Frame, g: Flow, done: seq<Glyph>, w: nat)
    requires Laid(f, g, done) && Dense(g, w) && (g.x == 0.0 ==> OnLine(g.out, g.line))
    ensures Dense(NextLine(g), w) && g.line < w
  {
  }

  lemma GlyphsAssoc(a: seq<Glyph>, b: seq<Glyph>, c: seq<Glyph>)
    ensures (a + b) + c == a + (b + c)
  {
  }

  lemma BoxFlowLaid(f: Frame, image: Texture, g: Flow, done: seq<Glyph>, w: nat)
    requires f.Valid() && Laid(f, g, done) && Dense(g, w)
    ensures Laid(f, BoxFlow(f, image, g), done + [Image(image)]) && Dense(BoxFlow(f, image, g), w + 1)
    ensures BoxFlow(f, image, g).line < w + 1
  {
    var at := if g.x + f.size > f.width && g.x > 0.0 then NextLine(g) else g;
    LaidBreak(f, g, done);
    if at != g { DenseBreak(f, g, done, w); }
    hide Font.Honest;
    LaidPlace(f, at, done, Placed(at.x, at.line, [], Some(image)));
  }

  lemma {:induction false} ItemsFlowLaid(f: Frame, items: seq<Item>)
    requires f.Valid()
    ensures Laid(f, ItemsFlow(f, items), ItemContent(items)) && Dense(ItemsFlow(f, items), Weight(items))
    ensures LinesNeeded(f, items) <= if Weight(items) == 0 then 1 else Weight(items)
  {
    if items != [] {
      var rest, item := items[..|items| - 1], items[|items| - 1];
      ItemsFlowLaid(f, rest);
      var g := ItemsFlow(f, rest);
      hide Laid, Dense, Inked, BoxFlow, TextFlow;
      match item {
        case Box(image) => BoxFlowLaid(f, image, g, ItemContent(rest), Weight(rest));
        case Text(t) =>
          assert t[0..] == t;
          TextFlowLaid(f, t, 0, g, ItemContent(rest), Weight(rest));
      }
    }
  }

  /** `g` has the pieces of `at`, and then only such as stand on its line or later. */
  predicate Goes(at: Flow, g: Flow) {
    && at.out <= g.out && at.line <= g.line
    && forall i :: |at.out| <= i < |g.out| ==> at.line <= g.out[i].line
  }

  lemma GoesOn(a: Flow, b: Flow, c: Flow)
    requires Goes(a, b) && Goes(b, c)
    ensures Goes(a, c)
  {
    forall i | |a.out| <= i < |c.out| ensures a.line <= c.out[i].line {
      if i < |b.out| { assert c.out[i] == b.out[i]; }
    }
  }

  lemma {:induction false} TextFlowGoes(f: Frame, s: seq<Byte>, p: nat, g: Flow)
    requires f.Valid() && p <= |s|
    ensures Goes(g, TextFlow(f, s, p, g))
    decreases |s| - p, if g.x == 0.0 then 0 else 1
  {
    if p < |s| {
      var fit := FitEnd(f, s, p, g.x);
      if fit == p {
        TextFlowGoes(f, s, SpacesEnd(s, p), NextLine(g));
      } else {
        var placed := PutText(f, s[p..fit], g);
        TextFlowGoes(f, s, SpacesEnd(s, fit), NextLine(placed));
        assert Goes(g, placed);
        assert Goes(placed, NextLine(placed));
        hide Goes;
        GoesOn(placed, NextLine(placed), TextFlow(f, s, SpacesEnd(s, fit), NextLine(placed)));
        GoesOn(g, placed, TextFlow(f, s, SpacesEnd(s, fit), NextLine(placed)));
      }
    }
  }

  lemma ItemFlowGoes(f: Frame, item: Item, g: Flow)
    requires f.Valid()
    ensures Goes(g, ItemFlow(f, item, g))
  {
    if item.Text? { TextFlowGoes(f, item.text, 0, g); }
  }

  lemma {:induction false} ItemsFlowGoes(f: Frame, items: seq<Item>, i: nat)
    requires f.Valid() && i <= |items|
    ensures Goes(ItemsFlow(f, items[..i]), ItemsFlow(f, items))
  {
    if i == |items| {
      assert items[..i] == items;
    } else {
      var rest := items[..|items| - 1];
      assert rest[..i] == items[..i];
      ItemsFlowGoes(f, rest, i);
      ItemFlowGoes(f, items[|items| - 1], ItemsFlow(f, rest));
      hide Goes;
      GoesOn(ItemsFlow(f, items[..i]), ItemsFlow(f, rest), ItemsFlow(f, items));
    }
  }

  // ---- the same, said of the pieces --------------------------------------------------------------

  /** Where a piece comes from: its item, the byte of a text it begins at, and the cursor when that came up. */
  datatype Mark = Mark(item: nat, from: nat, line: nat, x: real)

  /** From `p` on there are only spaces. */
  predicate Spent(s: seq<Byte>, p: nat) {
    forall i :: p <= i < |s| ==> s[i] == SPACE
  }

  /** `q` is the first byte from `p` on that is no space. */
  predicate FirstInk(s: seq<Byte>, p: nat, q: nat) {
    p <= q < |s| && s[q] != SPACE && forall i :: p <= i < q ==> s[i] == SPACE
  }

  /** Behind what ends at column `x` the font takes nothing of the text. */
  predicate Refused(f: Frame, s: seq<Byte>, x: real) {
    x > 0.0 && s != [] && f.font.wrap(s, f.width - x) == 0
  }

  /** The cursor when items `from` to `k` have drawn nothing behind column `x` of `line`: empty texts change nothing, and
      one text of spaces may have been refused, which ends the line. */
  ghost predicate Passed(f: Frame, items: seq<Item>, from: nat, k: nat, line: nat, x: real, line': nat, x': real) {
    k <= |items|
    && if line' == line then x' == x && forall j :: from <= j < k ==> items[j] == Text([])
       else line' == line + 1 && x' == 0.0 && exists r :: from <= r < k && PassedBut(f, items, from, k, r, x)
  }

  ghost predicate PassedBut(f: Frame, items: seq<Item>, from: nat, k: nat, r: nat, x: real)
    requires k <= |items| && from <= r < k
  {
    && items[r].Text? && Refused(f, items[r].text, x) && Spent(items[r].text, 0)
    && forall j :: from <= j < k && j != r ==> items[j] == Text([])
  }

  /** The cursor when item `k` comes up behind the first `n` pieces, which are all there is of the items before it. */
  ghost predicate Behind(f: Frame, items: seq<Item>, out: seq<Placed>, marks: seq<Mark>, n: nat, k: nat, line: nat, x: real)
    requires n <= |out| == |marks|
  {
    && (n > 0 ==> marks[n - 1].item < k <= |items| && AllShown(items[marks[n - 1].item], marks[n - 1], out[n - 1]))
    && var c := LeftOff(f, out, marks, n); Passed(f, items, c.item, k, c.line, c.x, line, x)
  }

  /** What is left of the item behind its piece is spaces. */
  predicate AllShown(item: Item, m: Mark, r: Placed) {
    item.Text? ==> Spent(item.text, m.from + |r.text|)
  }

  /** The item and the cursor behind the first `n` pieces. */
  function LeftOff(f: Frame, out: seq<Placed>, marks: seq<Mark>, n: nat): Mark
    requires n <= |out| == |marks|
  {
    if n == 0 then Mark(0, 0, 0, 0.0) else Mark(marks[n - 1].item + 1, 0, out[n - 1].line, f.EndOf(out[n - 1]))
  }

  /** An item that comes up begins on the line if it fits there, or is all there is on it. */
  predicate Begins(f: Frame, item: Item, m: Mark, line: nat, x: real) {
    match item
    case Box(_) =>
      m.from == 0 && if m.x + f.size <= f.width || m.x <= 0.0 then line == m.line && x == m.x else line == m.line + 1 && x == 0.0
    case Text(t) =>
      if Refused(f, t, m.x) then FirstInk(t, 0, m.from) && line == m.line + 1 && x == 0.0
      else m.from == 0 && line == m.line && x == m.x
  }

  /** `n` is what the font takes of the rest of a text, or one codepoint of it at the start of a line. */
  predicate Takes(f: Frame, s: seq<Byte>, p: nat, n: nat, x: real) {
    && 0 < n && p + n <= |s|
    && var fit := f.font.wrap(s[p..], f.width - x);
       n == fit || (fit == 0 && x == 0.0 && Unsplittable(s[p..p + n]) && (p + n < |s| ==> !IsContinuation(s[p + n])))
  }

  /** What a piece draws. */
  predicate Shows(f: Frame, item: Item, m: Mark, r: Placed) {
    match item
    case Box(image) => r.image == Some(image) && r.text == []
    case Text(t) =>
      r.image == None && Takes(f, t, m.from, |r.text|, r.x) && r.text == t[m.from..m.from + |r.text|]
  }

  /** A piece may stand at column `x` of `line` behind the first `n`: the rest of their text goes on at the start of the
      next line, or they end theirs and its own item comes up. */
  ghost predicate Poised(f: Frame, items: seq<Item>, out: seq<Placed>, marks: seq<Mark>, n: nat, m: Mark, line: nat, x: real)
    requires n <= |out| == |marks|
  {
    m.item < |items|
    && if n > 0 && marks[n - 1].item == m.item then
         && items[m.item].Text? && FirstInk(items[m.item].text, marks[n - 1].from + |out[n - 1].text|, m.from)
         && m.line == line == out[n - 1].line + 1 && m.x == x == 0.0
       else
         Behind(f, items, out, marks, n, m.item, m.line, m.x) && Begins(f, items[m.item], m, line, x)
  }

  ghost predicate IsStep(f: Frame, items: seq<Item>, out: seq<Placed>, marks: seq<Mark>, i: nat)
    requires i < |out| == |marks|
  {
    && Poised(f, items, out, marks, i, marks[i], out[i].line, out[i].x)
    && Shows(f, items[marks[i].item], marks[i], out[i])
  }

  ghost predicate Steps(f: Frame, items: seq<Item>, out: seq<Placed>, marks: seq<Mark>) {
    |marks| == |out| && forall i :: 0 <= i < |out| ==> IsStep(f, items, out, marks, i)
  }

  /** The pieces are those of the first `k` items, one behind the other, each line taken as far as it goes. */
  ghost predicate Greedy(f: Frame, items: seq<Item>, k: nat, g: Flow, marks: seq<Mark>) {
    Steps(f, items, g.out, marks) && Behind(f, items, g.out, marks, |g.out|, k, g.line, g.x)
  }

  lemma StepSnoc(f: Frame, items: seq<Item>, out: seq<Placed>, marks: seq<Mark>, r: Placed, m: Mark)
    requires Steps(f, items, out, marks) && Poised(f, items, out, marks, |out|, m, r.line, r.x) && Shows(f, items[m.item], m, r)
    ensures Steps(f, items, out + [r], marks + [m])
  {
    var out', marks' := out + [r], marks + [m];
    forall i | 0 <= i < |out'| ensures IsStep(f, items, out', marks', i) {
      if i < |out| { assert IsStep(f, items, out, marks, i); }
    }
  }

  lemma FitTakes(f: Frame, s: seq<Byte>, p: nat, x: real)
    requires f.Valid() && p < |s| && FitEnd(f, s, p, x) > p
    ensures Takes(f, s, p, FitEnd(f, s, p, x) - p, x)
  {
    CodepointIs(s, p);
  }

  /** A text that may stand at the cursor is drawn to its end. */
  lemma {:induction false} TextIsGreedy(f: Frame, items: seq<Item>, m: Mark, g: Flow, marks: seq<Mark>) returns (all: seq<Mark>)
    requires f.Valid() && Steps(f, items, g.out, marks) && Poised(f, items, g.out, marks, |g.out|, m, g.line, g.x)
    requires items[m.item].Text? && m.from < |items[m.item].text| && FitEnd(f, items[m.item].text, m.from, g.x) > m.from
    ensures Greedy(f, items, m.item + 1, TextFlow(f, items[m.item].text, m.from, g), all)
    decreases |items[m.item].text| - m.from
  {
    var s, p := items[m.item].text, m.from;
    var fit := FitEnd(f, s, p, g.x);
    var r := Placed(g.x, g.line, s[p..fit], None);
    var placed, q := PutText(f, s[p..fit], g), SpacesEnd(s, fit);
    FitTakes(f, s, p, g.x);
    StepSnoc(f, items, g.out, marks, r, m);
    SpacesAre(s, fit);
    all := marks + [m];
    if q != |s| {
      var next := Mark(m.item, q, g.line + 1, 0.0);
      all := TextIsGreedy(f, items, next, NextLine(placed), all);
    }
  }

  lemma TextComesUp(f: Frame, items: seq<Item>, k: nat, g: Flow, marks: seq<Mark>) returns (all: seq<Mark>)
    requires f.Valid() && k < |items| && Greedy(f, items, k, g, marks) && g.x >= 0.0 && items[k].Text?
    ensures Greedy(f, items, k + 1, ItemFlow(f, items[k], g), all)
  {
    hide Steps, Takes, CodepointEnd;
    var s := items[k].text;
    all := marks;
    if s == [] {
      EmptyPasses(f, items, k, g, marks);
    } else {
      assert s[0..] == s;
      var q := SpacesEnd(s, 0);
      SpacesAre(s, 0);
      if FitEnd(f, s, 0, g.x) > 0 {
        all := TextIsGreedy(f, items, Mark(k, 0, g.line, g.x), g, marks);
      } else if q < |s| {
        all := TextIsGreedy(f, items, Mark(k, q, g.line, g.x), NextLine(g), marks);
      } else {
        assert TextFlow(f, s, 0, g) == TextFlow(f, s, |s|, NextLine(g)) == NextLine(g);
        SpacesPass(f, items, k, g, marks);
      }
    }
  }

  lemma EmptyPasses(f: Frame, items: seq<Item>, k: nat, g: Flow, marks: seq<Mark>)
    requires k < |items| && Greedy(f, items, k, g, marks) && items[k] == Text([])
    ensures Greedy(f, items, k + 1, g, marks)
  {
    var c := LeftOff(f, g.out, marks, |marks|);
    if g.line != c.line {
      var r :| c.item <= r < k && PassedBut(f, items, c.item, k, r, c.x);
      assert PassedBut(f, items, c.item, k + 1, r, c.x);
    }
  }

  lemma SpacesPass(f: Frame, items: seq<Item>, k: nat, g: Flow, marks: seq<Mark>)
    requires k < |items| && Greedy(f, items, k, g, marks) && items[k].Text?
    requires Refused(f, items[k].text, g.x) && Spent(items[k].text, 0)
    ensures Greedy(f, items, k + 1, NextLine(g), marks)
  {
    assert PassedBut(f, items, LeftOff(f, g.out, marks, |marks|).item, k + 1, k, g.x);
  }

  lemma BoxComesUp(f: Frame, items: seq<Item>, k: nat, g: Flow, marks: seq<Mark>)
    requires f.Valid() && k < |items| && Greedy(f, items, k, g, marks) && g.x >= 0.0 && items[k].Box?
    ensures Greedy(f, items, k + 1, ItemFlow(f, items[k], g), marks + [Mark(k, 0, g.line, g.x)])
  {
    var h := BoxFlow(f, items[k].image, g);
    StepSnoc(f, items, g.out, marks, h.out[|g.out|], Mark(k, 0, g.line, g.x));
  }

  /** The layout with no bound on the lines is greedy in this sense: a line ends only where the font takes no more of
      the rest of a text, or where an image does not fit, and no line is skipped. */
  lemma {:induction false} FlowIsGreedy(f: Frame, items: seq<Item>, k: nat) returns (marks: seq<Mark>)
    requires f.Valid() && k <= |items|
    ensures Greedy(f, items, k, ItemsFlow(f, items[..k]), marks)
  {
    marks := [];
    if k > 0 {
      var rest := items[..k - 1];
      assert items[..k][..k - 1] == rest;
      marks := FlowIsGreedy(f, items, k - 1);
      var g := ItemsFlow(f, rest);
      ItemsFlowLaid(f, rest);
      if items[k - 1].Text? {
        marks := TextComesUp(f, items, k - 1, g, marks);
      } else {
        BoxComesUp(f, items, k - 1, g, marks);
        marks := marks + [Mark(k - 1, 0, g.line, g.x)];
      }
    }
  }

  lemma TakesOneWay(f: Frame, s: seq<Byte>, p: nat, m: nat, n: nat, x: real)
    requires Takes(f, s, p, m, x) && Takes(f, s, p, n, x)
    ensures m == n
  {
    WithinCodepoint(s, p, m);
    WithinCodepoint(s, p, n);
    hide Unsplittable;
  }

  lemma WithinCodepoint(s: seq<Byte>, p: nat, n: nat)
    requires p + n <= |s|
    ensures Unsplittable(s[p..p + n]) ==> forall i :: p < i < p + n ==> IsContinuation(s[i])
  {
    if Unsplittable(s[p..p + n]) {
      forall i | p < i < p + n ensures IsContinuation(s[i]) { assert s[p..p + n][i - p] == s[i]; }
    }
  }

  lemma ShowsOneWay(f: Frame, item: Item, m: Mark, a: Placed, b: Placed)
    requires Shows(f, item, m, a) && Shows(f, item, m, b) && a.x == b.x && a.line == b.line
    ensures a == b
  {
    if item.Text? { TakesOneWay(f, item.text, m.from, |a.text|, |b.text|, a.x); }
  }

  /** An item that is drawn is never passed over. */
  lemma PassedOneWay(f: Frame, items: seq<Item>, c: Mark, m: Mark, k: nat, line: nat, x: real)
    requires c.item <= m.item <= k && Passed(f, items, c.item, m.item, c.line, c.x, m.line, m.x)
    requires Passed(f, items, c.item, k, c.line, c.x, line, x)
    requires m.item < k ==> exists r: Placed :: Begins(f, items[m.item], m, r.line, r.x) && Shows(f, items[m.item], m, r)
    ensures m.item == k && m.line == line && m.x == x
  {
    hide Takes;
    if m.item < k {
      var r: Placed :| Begins(f, items[m.item], m, r.line, r.x) && Shows(f, items[m.item], m, r);
      NotEmpty(f, items[m.item], m, r);
    }
  }

  lemma NotEmpty(f: Frame, item: Item, m: Mark, r: Placed)
    requires Shows(f, item, m, r)
    ensures item != Text([])
  {
  }

  /** Where the pieces so far agree, the next one does. */
  lemma StepOneWay(f: Frame, items: seq<Item>, out: seq<Placed>, marks: seq<Mark>, out': seq<Placed>, marks': seq<Mark>, i: nat)
    requires i < |out| == |marks| && i < |out'| == |marks'| && IsStep(f, items, out, marks, i) && IsStep(f, items, out', marks', i)
    requires i > 0 ==> out[i - 1] == out'[i - 1] && marks[i - 1] == marks'[i - 1]
    ensures out[i] == out'[i] && marks[i] == marks'[i]
  {
    var m, m' := marks[i], marks'[i];
    hide Shows, Takes, Passed;
    if i == 0 || (marks[i - 1].item != m.item && marks[i - 1].item != m'.item) {
      var c := LeftOff(f, out, marks, i);
      if m.item <= m'.item {
        PassedOneWay(f, items, c, m, m'.item, m'.line, m'.x);
      } else {
        PassedOneWay(f, items, c, m', m.item, m.line, m.x);
      }
    }
    ShowsOneWay(f, items[m.item], m, out[i], out'[i]);
  }

  lemma {:induction false} StepsOneWay(f: Frame, items: seq<Item>, out: seq<Placed>, marks: seq<Mark>,
                                       out': seq<Placed>, marks': seq<Mark>, n: nat)
    requires Steps(f, items, out, marks) && Steps(f, items, out', marks') && n <= |out| && n <= |out'|
    ensures forall i :: 0 <= i < n ==> out[i] == out'[i] && marks[i] == marks'[i]
  {
    if n > 0 {
      StepsOneWay(f, items, out, marks, out', marks', n - 1);
      hide IsStep;
      StepOneWay(f, items, out, marks, out', marks', n - 1);
    }
  }

  /** Behind the last piece there is no other. */
  lemma NoMore(f: Frame, items: seq<Item>, g: Flow, marks: seq<Mark>, out: seq<Placed>, more: seq<Mark>)
    requires Greedy(f, items, |items|, g, marks) && Steps(f, items, out, more)
    ensures |out| <= |g.out|
  {
    var n := |g.out|;
    if n < |out| {
      StepsOneWay(f, items, g.out, marks, out, more, n);
      hide Passed, Takes, Shows, Begins;
      assert IsStep(f, items, out, more, n);
      PassedOneWay(f, items, LeftOff(f, g.out, marks, n), more[n], |items|, g.line, g.x);
    }
  }

  /** There is just one greedy layout of the items. */
  lemma GreedyOneWay(f: Frame, items: seq<Item>, g: Flow, marks: seq<Mark>, h: Flow, more: seq<Mark>)
    requires Greedy(f, items, |items|, g, marks) && Greedy(f, items, |items|, h, more)
    ensures g == h && marks == more
  {
    NoMore(f, items, g, marks, h.out, more);
    NoMore(f, items, h, more, g.out, marks);
    var n := |g.out|;
    StepsOneWay(f, items, g.out, marks, h.out, more, n);
    hide Steps;
    PassedOneWay(f, items, LeftOff(f, g.out, marks, n), Mark(|items|, 0, g.line, g.x), |items|, h.line, h.x);
  }

  /** The layout with no bound on the lines is the greedy one, and no other is. */
  lemma GreedyExactlyWhen(f: Frame, items: seq<Item>, g: Flow)
    requires f.Valid()
    ensures g == ItemsFlow(f, items) <==> exists marks :: Greedy(f, items, |items|, g, marks)
  {
    hide Greedy, ItemsFlow;
    assert items[..|items|] == items;
    var all := FlowIsGreedy(f, items, |items|);
    if marks :| Greedy(f, items, |items|, g, marks) {
      GreedyOneWay(f, items, g, marks, ItemsFlow(f, items), all);
    }
  }

  /** The font took `a` and not all of the rest of the text it is from, or it takes nothing of a text behind `a`. */
  predicate LeavesOver(f: Frame, item: Item, p: nat, a: Placed) {
    && item.Text?
    && ((a.image.None? && Takes(f, item.text, p, |a.text|, a.x) && p + |a.text| < |item.text|) || Refused(f, item.text, f.EndOf(a)))
  }

  /** A line ends only where an image does not fit behind what is on it, or where the font takes less than the rest of a
      text there.  No line is skipped. */
  lemma LinesBreakWhereTheyMust(f: Frame, items: seq<Item>, i: nat)
    requires f.Valid() && i + 1 < |ItemsFlow(f, items).out|
    ensures var a, b := ItemsFlow(f, items).out[i], ItemsFlow(f, items).out[i + 1];
            var end := a.x + if a.image.Some? then f.size else f.font.width(a.text);
            if b.line == a.line then b.x == end && (b.image.Some? ==> b.x + f.size <= f.width || b.x == 0.0)
            else
              && b.line == a.line + 1 && b.x == 0.0
              && ((b.image.Some? && end > 0.0 && end + f.size > f.width)
                  || exists k, p :: 0 <= k < |items| && LeavesOver(f, items[k], p, a))
  {
    assert items[..|items|] == items;
    var marks := FlowIsGreedy(f, items, |items|);
    var out := ItemsFlow(f, items).out;
    ItemsFlowLaid(f, items);
    assert IsStep(f, items, out, marks, i) && IsStep(f, items, out, marks, i + 1) && StandsRight(f, out, i + 1);
    hide Steps, ItemsFlow;
    BreakIsForced(f, items, out, marks, i);
  }

  lemma BreakIsForced(f: Frame, items: seq<Item>, out: seq<Placed>, marks: seq<Mark>, i: nat)
    requires i + 1 < |out| == |marks| && IsStep(f, items, out, marks, i) && IsStep(f, items, out, marks, i + 1)
    requires out[i + 1].x >= 0.0
    ensures var a, b := out[i], out[i + 1];
            var end := a.x + if a.image.Some? then f.size else f.font.width(a.text);
            if b.line == a.line then b.x == end && (b.image.Some? ==> b.x + f.size <= f.width || b.x == 0.0)
            else
              && b.line == a.line + 1 && b.x == 0.0
              && ((b.image.Some? && end > 0.0 && end + f.size > f.width)
                  || exists k, p :: 0 <= k < |items| && LeavesOver(f, items[k], p, a))
  {
    var a, b, l, m := out[i], out[i + 1], marks[i], marks[i + 1];
    hide Takes;
    if b.line != a.line {
      if l.item == m.item {
        assert LeavesOver(f, items[l.item], l.from, a);
      } else if m.line != a.line {
        var r :| l.item + 1 <= r < m.item && PassedBut(f, items, l.item + 1, m.item, r, f.EndOf(a));
        assert LeavesOver(f, items[r], 0, a);
      } else {
        assert b.image.None? ==> LeavesOver(f, items[m.item], 0, a);
      }
    }
  }

  // ---- laying out in so many lines --------------------------------------------------------------

  /** One whole codepoint, or what there is of it. */
  method OneCodepoint(s: seq<Byte>, p: nat) returns (fit: nat)
    requires p < |s|
    ensures fit == CodepointEnd(s, p)
    ensures p < fit <= |s| && Unsplittable(s[p..fit]) && (fit < |s| ==> !IsContinuation(s[fit]))
  {
    fit := p + 1;
    CodepointIs(s, p);
    while fit < |s| && IsContinuation(s[fit])
      invariant p < fit <= |s| && CodepointEnd(s, fit - 1) == CodepointEnd(s, p)
    {
      fit := fit + 1;
    }
  }

  method SkipSpaces(s: seq<Byte>, p: nat) returns (q: nat)
    requires p <= |s|
    ensures q == SpacesEnd(s, p)
  {
    q := p;
    while q < |s| && s[q] == SPACE
      invariant q <= |s| && SpacesEnd(s, q) == SpacesEnd(s, p)
    {
      q := q + 1;
    }
  }

  /** What the font wraps, or one codepoint of a fresh line. */
  predicate IsFit(f: Frame, s: seq<Byte>, p: nat, fit: nat, x: real) {
    p <= fit <= |s| && (fit == p + f.font.wrap(s[p..], f.width - x) || (x == 0.0 && Unsplittable(s[p..fit])))
  }

  function Part(s: seq<Byte>, p: nat, q: nat): seq<Byte>
    requires p <= q <= |s|
  {
    s[p..q]
  }

  /** How much goes on the line from `p` on; nothing only when there is a fresh line to try. */
  method FitAt(f: Frame, s: seq<Byte>, p: nat, x: real) returns (fit: nat)
    requires f.Valid() && p < |s| && x >= 0.0
    ensures fit == FitEnd(f, s, p, x) && (fit == p ==> x > 0.0)
    ensures IsFit(f, s, p, fit, x)
  {
    fit := p + f.font.wrap(s[p..], f.width - x);
    if fit == p && x == 0.0 { fit := OneCodepoint(s, p); }
  }

  /** `h` is `g` if that needs no more lines than there are.  Otherwise the lines have run out, and `h` is what `g`
      has on them. */
  predicate IsUpTo(f: Frame, g: Flow, lines: nat, h: Flow, overflow: bool) {
    && (overflow <==> lines <= g.line)
    && if !overflow then h == g
       else
         && h.line + 1 == lines && OnLine(h.out, h.line) && h.x == CursorX(f, h.out, h.line)
         && h.out <= g.out && forall i :: |h.out| <= i < |g.out| ==> lines <= g.out[i].line
  }

  lemma RunsOut(f: Frame, g: Flow, lines: nat, h: Flow)
    requires h.line + 1 == lines && OnLine(h.out, h.line) && h.x == CursorX(f, h.out, h.line) && Goes(NextLine(h), g)
    ensures IsUpTo(f, g, lines, h, true)
  {
  }

  lemma StaysOut(f: Frame, g: Flow, lines: nat, h: Flow, g': Flow)
    requires IsUpTo(f, g, lines, h, true) && Goes(g, g')
    ensures IsUpTo(f, g', lines, h, true)
  {
    forall i | |h.out| <= i < |g'.out| ensures lines <= g'.out[i].line {
      if i < |g.out| { assert g'.out[i] == g.out[i]; }
    }
  }

  /** The text of one item, from the cursor on, as far as the lines go. */
  method LayText(f: Frame, lines: nat, s: seq<Byte>, placed: seq<Placed>, atLine: nat, atX: real)
    returns (out: seq<Placed>, line: nat, x: real, overflow: bool)
    requires f.Valid() && atLine < lines && CursorAt(f, Flow(placed, atLine, atX))
    ensures IsUpTo(f, TextFlow(f, s, 0, Flow(placed, atLine, atX)), lines, Flow(out, line, x), overflow)
    ensures !overflow ==> CursorAt(f, Flow(out, line, x))
  {
    hide FitEnd, CodepointEnd, SpacesEnd, TextFlow, CursorAt, CursorX, IsUpTo, Leads, IsFit, Part, Frame.Valid;
    ghost var g := TextFlow(f, s, 0, Flow(placed, atLine, atX));
    out, line, x, overflow := placed, atLine, atX, false;
    var p := 0;
    LeadsFrom(f, s, Flow(out, line, x), lines);
    while p < |s|
      invariant p <= |s| && line < lines && !overflow && x >= 0.0 && Leads(f, s, p, Flow(out, line, x), g, lines)
      decreases |s| - p, if x > 0.0 then 1 else 0
    {
      var fit := FitAt(f, s, p, x);
      if fit == p {
        LeadsToFresh(f, s, p, Flow(out, line, x), g, lines);
        if line + 1 >= lines { return out, line, x, true; }
        p := SkipSpaces(s, p);
        line, x := line + 1, 0.0;
        continue;
      }
      var t := Part(s, p, fit);
      LeadsBehind(f, s, p, fit, t, Flow(out, line, x), g, lines);
      out, x := out + [Placed(x, line, t, None)], x + f.font.width(t);
      p := fit;
      if p < |s| {
        var q := SkipSpaces(s, p);
        if q == |s| {
          p := q;
          break;
        }
        if line + 1 >= lines { return out, line, x, true; }
        line, x, p := line + 1, 0.0, q;
      }
    }
    LeadsTo(f, s, Flow(out, line, x), g, lines);
  }

  /** From `h`, which has lines left, and the text from `p` on, the layout leads to `g`. */
  ghost predicate Leads(f: Frame, s: seq<Byte>, p: nat, h: Flow, g: Flow, lines: nat)
    requires f.Valid()
  {
    p <= |s| && h.line < lines && CursorAt(f, h) && TextFlow(f, s, p, h) == g
  }

  lemma LeadsFrom(f: Frame, s: seq<Byte>, h: Flow, lines: nat)
    requires f.Valid() && h.line < lines && CursorAt(f, h)
    ensures Leads(f, s, 0, h, TextFlow(f, s, 0, h), lines) && h.x >= 0.0
  {
  }

  lemma LeadsTo(f: Frame, s: seq<Byte>, h: Flow, g: Flow, lines: nat)
    requires f.Valid() && Leads(f, s, |s|, h, g, lines)
    ensures IsUpTo(f, g, lines, h, false) && CursorAt(f, h)
  {
  }

  lemma LeadsToFresh(f: Frame, s: seq<Byte>, p: nat, h: Flow, g: Flow, lines: nat)
    requires f.Valid() && p < |s| && Leads(f, s, p, h, g, lines) && FitEnd(f, s, p, h.x) == p
    ensures Breaks(f, s, p, h, g, lines)
  {
    BreaksHere(f, s, p, h, g, lines);
  }

  lemma LeadsBehind(f: Frame, s: seq<Byte>, p: nat, fit: nat, t: seq<Byte>, h: Flow, g: Flow, lines: nat)
    requires f.Valid() && p < |s| && Leads(f, s, p, h, g, lines)
    requires fit == FitEnd(f, s, p, h.x) > p && t == Part(s, p, fit)
    ensures var placed := PutText(f, t, h);
            && placed.x >= 0.0
            && if SpacesEnd(s, fit) == |s| then Leads(f, s, |s|, placed, g, lines) else Breaks(f, s, fit, placed, g, lines)
  {
    var placed := PutText(f, t, h);
    if SpacesEnd(s, fit) != |s| { BreaksHere(f, s, fit, placed, g, lines); }
  }

  /** The line ends at `p`; the layout goes on behind the spaces, or the lines run out. */
  ghost predicate Breaks(f: Frame, s: seq<Byte>, p: nat, h: Flow, g: Flow, lines: nat)
    requires f.Valid() && p <= |s|
  {
    if h.line + 1 < lines then Leads(f, s, SpacesEnd(s, p), NextLine(h), g, lines) else IsUpTo(f, g, lines, h, true)
  }

  lemma BreaksHere(f: Frame, s: seq<Byte>, p: nat, h: Flow, g: Flow, lines: nat)
    requires f.Valid() && p <= |s| && CursorAt(f, h) && OnLine(h.out, h.line) && h.line < lines
    requires TextFlow(f, s, SpacesEnd(s, p), NextLine(h)) == g
    ensures Breaks(f, s, p, h, g, lines)
  {
    TextFlowGoes(f, s, SpacesEnd(s, p), NextLine(h));
    if lines <= h.line + 1 { RunsOut(f, g, lines, h); }
  }

  /** An image: on the next line if it does not fit behind what is there. */
  method LayBox(f: Frame, lines: nat, image: Texture, placed: seq<Placed>, atLine: nat, atX: real)
    returns (out: seq<Placed>, line: nat, x: real, overflow: bool)
    requires f.Valid() && atLine < lines && CursorAt(f, Flow(placed, atLine, atX))
    ensures IsUpTo(f, BoxFlow(f, image, Flow(placed, atLine, atX)), lines, Flow(out, line, x), overflow)
    ensures (!overflow ==> CursorAt(f, Flow(out, line, x))) && (overflow ==> out == placed)
  {
    out, line, x, overflow := placed, atLine, atX, false;
    if x + f.size > f.width && x > 0.0 {
      if line + 1 >= lines { return out, line, x, true; }
      line, x := line + 1, 0.0;
    }
    out, x := out + [Placed(x, line, [], Some(image))], x + f.size;
  }

  /** One item, as far as the lines go. */
  method LayItem(f: Frame, lines: nat, item: Item, placed: seq<Placed>, atLine: nat, atX: real)
    returns (out: seq<Placed>, line: nat, x: real, overflow: bool)
    requires f.Valid() && atLine < lines && CursorAt(f, Flow(placed, atLine, atX))
    ensures IsUpTo(f, ItemFlow(f, item, Flow(placed, atLine, atX)), lines, Flow(out, line, x), overflow)
    ensures !overflow ==> CursorAt(f, Flow(out, line, x))
  {
    match item {
      case Box(image) => out, line, x, overflow := LayBox(f, lines, image, placed, atLine, atX);
      case Text(text) => out, line, x, overflow := LayText(f, lines, text, placed, atLine, atX);
    }
  }

  /** All items in turn, until the lines run out. */
  method LayItems(f: Frame, lines: nat, items: seq<Item>)
    returns (out: seq<Placed>, line: nat, x: real, overflow: bool)
    requires f.Valid() && lines > 0
    ensures IsUpTo(f, ItemsFlow(f, items), lines, Flow(out, line, x), overflow)
  {
    out, line, x, overflow := [], 0, 0.0, false;
    var i := 0;
    while i < |items| && !overflow
      invariant i <= |items| && IsUpTo(f, ItemsFlow(f, items[..i]), lines, Flow(out, line, x), overflow)
      invariant !overflow ==> CursorAt(f, Flow(out, line, x))
    {
      assert items[..i + 1][..i] == items[..i];
      hide ItemFlow, CursorAt;
      out, line, x, overflow := LayItem(f, lines, items[i], out, line, x);
      i := i + 1;
    }
    assert items[..|items|] == items;
    if overflow {
      ItemsFlowGoes(f, items, i);
      StaysOut(f, ItemsFlow(f, items[..i]), lines, Flow(out, line, x), ItemsFlow(f, items));
    }
  }

  // ---- making room for the ellipsis -------------------------------------------------------------

  /** There is no room for an ellipsis behind `r`. */
  predicate Crowds(f: Frame, r: Placed) {
    f.EndOf(r) + f.font.width(ELLIPSIS) > f.width
  }

  /** How much of `r` the ellipsis leaves room for. */
  function Kept(f: Frame, r: Placed): nat {
    var avail := f.width - f.font.width(ELLIPSIS) - r.x;
    if r.image.Some? || avail <= 0.0 then 0 else f.font.wrap(r.text, avail)
  }

  /** Nothing of `r` can stay in front of an ellipsis. */
  predicate MustGo(f: Frame, r: Placed) {
    Crowds(f, r) && Kept(f, r) == 0
  }

  /** `c` is what can stay of `r`, which cannot stay whole. */
  predicate IsCutFrom(f: Frame, c: Placed, r: Placed) {
    && Crowds(f, r) && 0 < Kept(f, r) <= |r.text|
    && c == CutTo(r, Kept(f, r))
  }

  /** The first `n` bytes of a piece, trimmed. */
  function CutTo(r: Placed, n: nat): Placed
    requires n <= |r.text|
  {
    r.(text := Trimmed(r.text[..n]))
  }

  /** `out` is `laid` less what has to go from the end of its last line for an ellipsis, and no more: each piece gone
      could not stay, and the last one left has room for an ellipsis behind it or is cut to what has. */
  predicate IsShrunk(f: Frame, laid: seq<Placed>, line: nat, out: seq<Placed>) {
    && |out| <= |laid| && AllMustGo(f, laid, line, |out|)
    && var n := |out| - 1;
       || (out == laid[..|out|] && (out == [] || out[n].line != line || !Crowds(f, out[n])))
       || (out != [] && out[..n] == laid[..n] && laid[n].line == line && IsCutFrom(f, out[n], laid[n]))
  }

  predicate AllMustGo(f: Frame, laid: seq<Placed>, line: nat, n: nat) {
    forall i :: n <= i < |laid| ==> laid[i].line == line && MustGo(f, laid[i])
  }

  /** There is just one way to make room. */
  lemma ShrunkOneWay(f: Frame, laid: seq<Placed>, line: nat, a: seq<Placed>, b: seq<Placed>)
    requires IsShrunk(f, laid, line, a) && IsShrunk(f, laid, line, b)
    ensures a == b
  {
    if |a| == |b| && a != [] {
      assert a == a[..|a| - 1] + [a[|a| - 1]] && b == b[..|b| - 1] + [b[|b| - 1]];
    }
  }

  /** The other lines stay, and a line that has the room already. */
  lemma ShrunkMeans(f: Frame, laid: seq<Placed>, line: nat, out: seq<Placed>)
    requires IsShrunk(f, laid, line, out)
    ensures laid == [] || laid[|laid| - 1].line != line || !Crowds(f, laid[|laid| - 1]) ==> out == laid
    ensures forall i :: 0 <= i < |laid| && laid[i].line != line ==> i < |out| && out[i] == laid[i]
  {
    forall i | 0 <= i < |laid| && laid[i].line != line ensures i < |out| && out[i] == laid[i] {
      assert i < |out|;
      assert i < |out| - 1 ==> out[..|out| - 1][i] == laid[..|out| - 1][i];
    }
    if |out| < |laid| { assert MustGo(f, laid[|laid| - 1]); }
  }

  /** What the ellipsis takes: a piece gone is an image, or a text of which the font takes nothing in front of it; one cut
      is the part it takes, less the spaces at its end. */
  lemma EllipsisTakes(f: Frame, laid: seq<Placed>, line: nat, out: seq<Placed>)
    requires IsShrunk(f, laid, line, out)
    ensures |out| <= |laid|
    ensures forall i :: 0 <= i < |out| - 1 ==> out[i] == laid[i]
    ensures forall i :: |out| <= i < |laid| ==>
              var r := laid[i]; var room := f.width - f.font.width([0x2E, 0x2E, 0x2E]) - r.x;
              r.line == line && room < f.Extent(r) && (r.image.Some? || room <= 0.0 || f.font.wrap(r.text, room) == 0)
    ensures out != [] && out[|out| - 1] != laid[|out| - 1] ==>
              var r := laid[|out| - 1]; var room := f.width - f.font.width([0x2E, 0x2E, 0x2E]) - r.x;
              && r.line == line && r.image.None? && 0.0 < room < f.font.width(r.text)
              && 0 < f.font.wrap(r.text, room) <= |r.text|
              && out[|out| - 1] == r.(text := Trimmed(r.text[..f.font.wrap(r.text, room)]))
  {
    var n := |out| - 1;
    assert forall i :: 0 <= i < n ==> out[i] == out[..n][i];
    assert forall i :: 0 <= i < |out| ==> out[i] == out[..|out|][i];
    forall i | |out| <= i < |laid|
      ensures var r := laid[i]; var room := f.width - f.font.width([0x2E, 0x2E, 0x2E]) - r.x;
              r.line == line && room < f.Extent(r) && (r.image.Some? || room <= 0.0 || f.font.wrap(r.text, room) == 0)
    {
      assert MustGo(f, laid[i]);
    }
  }

  lemma CutText(f: Frame, s: seq<Byte>, cut: nat, avail: real)
    requires f.font.Sound() && cut == f.font.wrap(s, avail) > 0
    ensures Inked(Trimmed(s[..cut])) <= Inked(s)
    ensures f.font.Honest() ==> f.font.width(Trimmed(s[..cut])) <= avail
  {
    InkedPrefix(s, cut);
    TrimKeepsInk(s[..cut]);
  }

  lemma CutFits(f: Frame, r: Placed, last: Placed)
    requires f.Valid() && IsCutFrom(f, r, last)
    ensures r.x == last.x && r.line == last.line && PlacedGlyphs(r) <= PlacedGlyphs(last)
    ensures f.EndOf(r) == r.x + f.font.width(r.text)
    ensures f.font.Honest() ==> f.HasRoom(r) && f.EndOf(r) + f.font.width(ELLIPSIS) <= f.width
  {
    CutText(f, last.text, Kept(f, last), f.width - f.font.width(ELLIPSIS) - last.x);
  }

  lemma ContentCut(rest: seq<Placed>, r: Placed, last: Placed)
    requires PlacedGlyphs(r) <= PlacedGlyphs(last)
    ensures Content(rest + [r]) == Content(rest) + PlacedGlyphs(r) <= Content(rest) + PlacedGlyphs(last)
  {
    ContentPush(rest, r);
  }

  lemma LaidCut(f: Frame, g: Flow, r: Placed)
    requires f.Valid() && Laid(f, g, Content(g.out)) && OnLine(g.out, g.line) && IsCutFrom(f, r, g.out[|g.out| - 1])
    ensures var out := AllButLast(g.out) + [r];
            Laid(f, Flow(out, g.line, r.x + f.font.width(r.text)), Content(out)) && Content(out) <= Content(g.out)
    ensures f.font.Honest() ==> r.x + f.font.width(r.text) + f.font.width(ELLIPSIS) <= f.width
  {
    hide *;
    LastOnLine(g.out, g.line);
    var last, rest := g.out[|g.out| - 1], AllButLast(g.out);
    LaidTakeBack(f, g, Content(g.out));
    CutFits(f, r, last);
    LaidPlace(f, Flow(rest, g.line, last.x), Content(rest), r);
    ContentCut(rest, r, last);
  }

  lemma LastOnLine(out: seq<Placed>, line: nat)
    requires OnLine(out, line)
    ensures out != [] && out[|out| - 1].line == line
  {
  }

  lemma CutIsKept(f: Frame, r: Placed)
    requires f.Valid() && Crowds(f, r)
    ensures if Kept(f, r) == 0 then MustGo(f, r)
            else Kept(f, r) <= |r.text| && IsCutFrom(f, CutTo(r, Kept(f, r)), r)
  {
    hide CutTo;
  }

  /** What cutting, or dropping, the last piece of `laid` comes to. */
  ghost predicate CutsLast(f: Frame, laid: seq<Placed>, line: nat, out: seq<Placed>, x: real, cut: bool) {
    && laid != [] && Laid(f, Flow(out, line, x), Content(out)) && Content(out) <= Content(laid)
    && (var last, rest := laid[|laid| - 1], AllButLast(laid);
        if cut then out != [] && AllButLast(out) == rest && IsCutFrom(f, out[|out| - 1], last)
        else out == rest && MustGo(f, last))
    && (cut && f.font.Honest() ==> x + f.font.width(ELLIPSIS) <= f.width)
  }

  lemma InitOf(rest: seq<Placed>, r: Placed)
    ensures var out := rest + [r]; out[|out| - 1] == r && AllButLast(out) == rest
  {
  }

  lemma DropsLast(f: Frame, g: Flow)
    requires Laid(f, g, Content(g.out)) && OnLine(g.out, g.line) && MustGo(f, g.out[|g.out| - 1])
    ensures CutsLast(f, g.out, g.line, AllButLast(g.out), g.out[|g.out| - 1].x, false)
  {
    hide Laid, Content, MustGo, Font.Honest, AllButLast;
    LaidTakeBack(f, g, Content(g.out));
  }

  lemma CutsOff(f: Frame, g: Flow, r: Placed)
    requires f.Valid() && Laid(f, g, Content(g.out)) && OnLine(g.out, g.line) && IsCutFrom(f, r, g.out[|g.out| - 1])
    ensures CutsLast(f, g.out, g.line, AllButLast(g.out) + [r], r.x + f.font.width(r.text), true)
  {
    hide Laid, Content, IsCutFrom, Font.Honest, OnLine, AllButLast;
    LastOnLine(g.out, g.line);
    LaidCut(f, g, r);
    InitOf(AllButLast(g.out), r);
  }

  lemma ReachesItsEnd(f: Frame, g: Flow)
    requires Laid(f, g, Content(g.out)) && OnLine(g.out, g.line)
    ensures g.out != [] && (g.x + f.font.width(ELLIPSIS) > f.width ==> Crowds(f, g.out[|g.out| - 1]))
  {
  }

  /** How much of a piece the font takes in front of an ellipsis. */
  method KeptOf(f: Frame, r: Placed) returns (n: nat)
    ensures n == Kept(f, r)
  {
    if r.image.Some? { return 0; }
    var avail := f.width - f.font.width(ELLIPSIS) - r.x;
    n := if avail > 0.0 then f.font.wrap(r.text, avail) else 0;
  }

  /** The last piece of the last line cut to leave room for the ellipsis, or dropped when nothing of it can stay. */
  method CutLast(f: Frame, laid: seq<Placed>, line: nat, atX: real) returns (out: seq<Placed>, x: real, cut: bool)
    requires f.Valid() && Laid(f, Flow(laid, line, atX), Content(laid)) && OnLine(laid, line)
    requires atX + f.font.width(ELLIPSIS) > f.width
    ensures CutsLast(f, laid, line, out, x, cut)
  {
    hide *;
    ghost var g := Flow(laid, line, atX);
    ReachesItsEnd(f, g);
    var last, rest := laid[|laid| - 1], AllButLast(laid);
    CutIsKept(f, last);
    var n := KeptOf(f, last);
    if n == 0 {
      DropsLast(f, g);
      out, x, cut := rest, last.x, false;
    } else {
      var r := CutTo(last, n);
      CutsOff(f, g, r);
      out, x, cut := rest + [r], r.x + f.font.width(r.text), true;
    }
  }

  /** What is left is a layout whose last piece is cut, or none is and those taken away had to go. */
  ghost predicate Shrinks(f: Frame, laid: seq<Placed>, line: nat, out: seq<Placed>, x: real, cut: bool) {
    && Laid(f, Flow(out, line, x), Content(out)) && Content(out) <= Content(laid)
    && if cut then IsShrunk(f, laid, line, out) && (f.font.Honest() ==> x + f.font.width(ELLIPSIS) <= f.width)
       else |out| <= |laid| && out == laid[..|out|] && AllMustGo(f, laid, line, |out|)
  }

  method Shrink(f: Frame, laid: seq<Placed>, line: nat, from: seq<Placed>, fromX: real)
    returns (out: seq<Placed>, x: real, cut: bool)
    requires f.Valid() && Shrinks(f, laid, line, from, fromX, false) && OnLine(from, line)
    requires fromX + f.font.width(ELLIPSIS) > f.width
    ensures Shrinks(f, laid, line, out, x, cut) && (!cut ==> |out| < |from|) && |out| <= |from|
  {
    hide Laid, Content, Font.Honest, Frame.Valid, MustGo, IsCutFrom;
    out, x, cut := CutLast(f, from, line, fromX);
    assert from[..|from| - 1] == laid[..|from| - 1];
  }

  /** Pieces of the last line are dropped from its end, or the last one cut, until the ellipsis has room. */
  method MakeRoom(f: Frame, laid: seq<Placed>, line: nat, atX: real) returns (out: seq<Placed>, x: real)
    requires f.Valid() && Laid(f, Flow(laid, line, atX), Content(laid))
    ensures Laid(f, Flow(out, line, x), Content(out)) && Content(out) <= Content(laid)
    ensures IsShrunk(f, laid, line, out)
    ensures f.font.Honest() ==> x + f.font.width(ELLIPSIS) <= f.width || !OnLine(out, line)
  {
    out, x := laid, atX;
    var cut := false;
    assert Shrinks(f, laid, line, out, x, cut);
    hide Shrinks, Font.Honest, Frame.Valid, IsShrunk;
    while out != [] && out[|out| - 1].line >= line && x + f.font.width(ELLIPSIS) > f.width && !cut
      invariant Shrinks(f, laid, line, out, x, cut)
      decreases |out|, !cut
    {
      ShrinkingOnLine(f, laid, line, out, x, cut);
      out, x, cut := Shrink(f, laid, line, out, x);
    }
    ShrinkingEnds(f, laid, line, out, x, cut);
  }

  lemma ShrinkingOnLine(f: Frame, laid: seq<Placed>, line: nat, out: seq<Placed>, x: real, cut: bool)
    requires Shrinks(f, laid, line, out, x, cut) && out != [] && out[|out| - 1].line >= line
    ensures OnLine(out, line)
  {
    hide Content, Font.Honest, InOrder, IsShrunk;
  }

  lemma ShrinkingEnds(f: Frame, laid: seq<Placed>, line: nat, out: seq<Placed>, x: real, cut: bool)
    requires Shrinks(f, laid, line, out, x, cut)
    requires cut || out == [] || out[|out| - 1].line < line || x + f.font.width(ELLIPSIS) <= f.width
    ensures Laid(f, Flow(out, line, x), Content(out)) && Content(out) <= Content(laid)
    ensures IsShrunk(f, laid, line, out)
    ensures f.font.Honest() ==> x + f.font.width(ELLIPSIS) <= f.width || !OnLine(out, line)
  {
    hide Content, Font.Honest, InOrder, Frame.HasRoom, MustGo, IsCutFrom;
  }

  // ---- the whole layout -----------------------------------------------------------------------

  /** No two text items in a row. */
  predicate Alternates(items: seq<Item>) {
    forall i :: 0 < i < |items| ==> items[i - 1].Box? || items[i].Box?
  }

  lemma PushItem(items: seq<Item>, item: Item)
    requires Alternates(items) && (item.Box? || items == [] || items[|items| - 1].Box?)
    ensures Alternates(items + [item]) && ItemContent(items + [item]) == ItemContent(items) + ItemGlyphs(item)
    ensures Weight(items + [item]) == Weight(items) + item.Weight()
  {
    hide ItemGlyphs, Inked;
    ItemContentPush(items, item);
    var more := items + [item];
    forall i | 0 < i < |more| ensures more[i - 1].Box? || more[i].Box? {
      if i < |items| { assert more[i - 1] == items[i - 1] && more[i] == items[i]; }
    }
  }

  lemma PopItem(items: seq<Item>)
    requires Alternates(items) && items != []
    ensures var n := |items| - 1; var rest := items[..n];
            && Alternates(rest) && (items[n].Text? ==> rest == [] || rest[|rest| - 1].Box?)
            && ItemContent(items) == ItemContent(rest) + ItemGlyphs(items[n])
            && Weight(items) == Weight(rest) + items[n].Weight()
  {
  }

  lemma GrowItem(items: seq<Item>, text: seq<Byte>)
    requires Alternates(items) && items != [] && items[|items| - 1].Text?
    ensures var n := |items| - 1; var grown := items[..n] + [Text(items[n].text + text)];
            Alternates(grown) && ItemContent(grown) == ItemContent(items) + Inked(text) && Weight(grown) == Weight(items) + |text|
  {
    hide Alternates, Inked, ItemContent, Weight;
    var n := |items| - 1;
    var last, rest := items[n].text, items[..n];
    PopItem(items);
    PushItem(rest, Text(last + text));
    InkedAppend(last, text);
    GlyphsAssoc(ItemContent(rest), Inked(last), Inked(text));
  }

  lemma JoinTextPush(runs: seq<Run>, i: nat)
    requires i < |runs|
    ensures |JoinText(runs[..i + 1])| == |JoinText(runs[..i])| + |runs[i].text|
  {
    assert runs[..i + 1] == runs[..i] + [runs[i]];
    JoinTextAppend(runs[..i], [runs[i]]);
    JoinTextOne(runs[i]);
  }

  lemma RunsHaveText(s: seq<Byte>)
    ensures forall i :: 0 <= i < |Split([], s)| ==> Split([], s)[i].text != []
  {
    RunsPartitionTheText(s);
    forall i | 0 <= i < |Split([], s)| ensures Split([], s)[i].text != [] {
      assert IsRunOf(Slices([], s)[i], Split([], s)[i]);
    }
  }

  /** A piece of text behind the items: it joins a text in front of it. */
  function Joined(items: seq<Item>, text: seq<Byte>): seq<Item> {
    var n := |items| - 1;
    if items != [] && items[n].Text? then items[..n] + [Text(items[n].text + text)] else items + [Text(text)]
  }

  function ImageOf(run: Run, images: seq<Byte> -> Option<Texture>): Option<Texture> {
    if run.key == [] then None else images(run.key)
  }

  function ItemsOf(runs: seq<Run>, images: seq<Byte> -> Option<Texture>): seq<Item> {
    if runs == [] then []
    else
      Added(ItemsOf(runs[..|runs| - 1], images), runs[|runs| - 1], images)
  }

  /** One more run: an image stands alone, anything else joins the text. */
  function Added(items: seq<Item>, run: Run, images: seq<Byte> -> Option<Texture>): seq<Item> {
    match ImageOf(run, images) case Some(image) => items + [Box(image)] case None => Joined(items, run.text)
  }

  lemma ItemsOfPush(runs: seq<Run>, i: nat, images: seq<Byte> -> Option<Texture>)
    requires i < |runs|
    ensures ItemsOf(runs[..i + 1], images) == Added(ItemsOf(runs[..i], images), runs[i], images)
  {
    assert runs[..i + 1][..i] == runs[..i];
  }

  lemma JoinItem(items: seq<Item>, text: seq<Byte>)
    requires Alternates(items)
    ensures var more := Joined(items, text);
            Alternates(more) && ItemContent(more) == ItemContent(items) + Inked(text) && Weight(more) == Weight(items) + |text|
  {
    hide Alternates, Inked;
    if items != [] && items[|items| - 1].Text? {
      GrowItem(items, text);
    } else {
      LastIsBox(items);
      PushItem(items, Text(text));
    }
  }

  lemma LastIsBox(items: seq<Item>)
    requires items == [] || !items[|items| - 1].Text?
    ensures items == [] || items[|items| - 1].Box?
  {
  }

  lemma AddItem(items: seq<Item>, run: Run, images: seq<Byte> -> Option<Texture>)
    requires Alternates(items) && run.text != []
    ensures var more := Added(items, run, images);
            && Alternates(more) && ItemContent(more) == ItemContent(items) + RunGlyphs(run, images)
            && Weight(more) <= Weight(items) + |run.text|
  {
    var image := ImageOf(run, images);
    JoinItem(items, run.text);
    if image.Some? { PushItem(items, Box(image.value)); }
    hide Alternates, Inked, ItemContent, Weight, Joined;
  }

  method AddRun(items: seq<Item>, run: Run, images: seq<Byte> -> Option<Texture>) returns (more: seq<Item>)
    ensures more == Added(items, run, images)
  {
    var image := if run.key == [] then None else images(run.key);
    if image.Some? {
      more := items + [Box(image.value)];
    } else if items != [] && items[|items| - 1].Text? {
      more := items[..|items| - 1] + [Text(items[|items| - 1].text + run.text)];
    } else {
      more := items + [Text(run.text)];
    }
  }

  /** Images stand alone; unresolved emoji join the text around them. */
  method BuildItems(runs: seq<Run>, images: seq<Byte> -> Option<Texture>) returns (items: seq<Item>)
    requires forall i :: 0 <= i < |runs| ==> runs[i].text != []
    ensures items == ItemsOf(runs, images)
    ensures ItemContent(items) == RunContent(runs, images) && Alternates(items) && Weight(items) <= |JoinText(runs)|
  {
    items := [];
    var i := 0;
    while i < |runs|
      invariant i <= |runs| && items == ItemsOf(runs[..i], images)
      invariant ItemContent(items) == RunContent(runs[..i], images) && Alternates(items)
      invariant Weight(items) <= |JoinText(runs[..i])|
    {
      RunContentPush(runs, i, images);
      JoinTextPush(runs, i);
      ItemsOfPush(runs, i, images);
      AddItem(items, runs[i], images);
      hide Alternates, Added, RunGlyphs;
      items := AddRun(items, runs[i], images);
      i := i + 1;
    }
    assert runs[..|runs|] == runs;
  }

  /** Whether the pieces end in an ellipsis on the last line, behind a first part of the content. */
  predicate EndsInEllipsis(out: seq<Placed>, lines: nat, content: seq<Glyph>) {
    && lines > 0 && out != []
    && (var last := out[|out| - 1]; last.text == ELLIPSIS && last.image.None? && last.line == lines - 1)
    && Content(out[..|out| - 1]) <= content
  }

  /** All pieces in order on the lines used, and all of the content or a first part of it and an ellipsis. */
  predicate IsLayout(f: Frame, out: seq<Placed>, used: nat, lines: int, content: seq<Glyph>) {
    && 0 < used <= lines && InOrder(f, out) && (forall i :: 0 <= i < |out| ==> out[i].line < used)
    && (Content(out) == content || (used == lines && EndsInEllipsis(out, used, content)))
  }

  /** The pieces on the first `n` lines. */
  function FirstLines(out: seq<Placed>, n: int): (r: seq<Placed>)
    ensures r <= out
  {
    if out == [] || out[|out| - 1].line < n then out else FirstLines(out[..|out| - 1], n)
  }

  lemma {:induction false} FirstLinesAre(out: seq<Placed>, n: int, a: seq<Placed>)
    requires a <= out && (a == [] || a[|a| - 1].line < n) && forall i :: |a| <= i < |out| ==> n <= out[i].line
    ensures FirstLines(out, n) == a
  {
    if |a| < |out| { FirstLinesAre(out[..|out| - 1], n, a); }
  }

  /** The pieces in front of an ellipsis, and it. */
  predicate IsEllipsized(f: Frame, laid: seq<Placed>, lines: nat, out: seq<Placed>) {
    && lines > 0 && out != []
    && var kept := out[..|out| - 1];
       && IsShrunk(f, laid, lines - 1, kept)
       && out[|out| - 1] == Placed(CursorX(f, kept, lines - 1), lines - 1, ELLIPSIS, None)
  }

  /** The items as they go on at most `lines` lines.  If they need no more, that is the layout with no bound, and nothing is
      lost.  Otherwise it is what that has on the first `lines` lines, less what the ellipsis takes from the last. */
  ghost predicate IsLaidOut(f: Frame, lines: nat, items: seq<Item>, used: nat, out: seq<Placed>)
    requires f.Valid()
  {
    var g := ItemsFlow(f, items);
    if LinesNeeded(f, items) <= lines then used == LinesNeeded(f, items) && out == g.out
    else used == lines && IsEllipsized(f, FirstLines(g.out, lines), lines, out)
  }

  lemma LaidIsLayout(f: Frame, lines: int, g: Flow)
    requires Laid(f, g, Content(g.out)) && g.line < lines
    ensures IsLayout(f, g.out, g.line + 1, lines, Content(g.out))
    ensures f.font.Honest() ==> f.AllHaveRoom(g.out)
  {
    hide InOrder, Content, EndsInEllipsis, Frame.HasRoom, Font.Honest;
  }

  lemma EllipsisHasRoom(f: Frame, g: Flow)
    requires Laid(f, g, Content(g.out))
    requires f.font.Honest() ==> g.x + f.font.width(ELLIPSIS) <= f.width || !OnLine(g.out, g.line)
    ensures f.font.Honest() ==> f.HasRoom(Placed(g.x, g.line, ELLIPSIS, None))
  {
    hide InOrder, Content, Font.Honest;
  }

  lemma EllipsisEnds(f: Frame, laid: seq<Placed>, g: Flow, content: seq<Glyph>)
    requires Content(g.out) <= content && IsShrunk(f, laid, g.line, g.out) && g.x == CursorX(f, g.out, g.line)
    ensures var out := g.out + [Placed(g.x, g.line, ELLIPSIS, None)];
            EndsInEllipsis(out, g.line + 1, content) && IsEllipsized(f, laid, g.line + 1, out)
  {
    hide Content, IsShrunk;
    assert (g.out + [Placed(g.x, g.line, ELLIPSIS, None)])[..|g.out|] == g.out;
  }

  /** The last line shrunk, and the ellipsis behind it. */
  method AppendEllipsis(f: Frame, laid: seq<Placed>, line: nat, atX: real, ghost content: seq<Glyph>)
    returns (out: seq<Placed>)
    requires f.Valid() && Laid(f, Flow(laid, line, atX), Content(laid)) && Content(laid) <= content
    ensures IsEllipsized(f, laid, line + 1, out)
    ensures IsLayout(f, out, line + 1, line + 1, content) && (f.font.Honest() ==> f.AllHaveRoom(out))
  {
    var x;
    out, x := MakeRoom(f, laid, line, atX);
    ghost var g := Flow(out, line, x);
    assert x == CursorX(f, out, line);
    hide Laid, Content, Font.Honest, EndsInEllipsis, IsEllipsized, IsShrunk, CursorX;
    EllipsisHasRoom(f, g);
    EllipsisEnds(f, laid, g, content);
    var r := Placed(x, line, ELLIPSIS, None);
    LaidPlace(f, g, Content(out), r);
    out := out + [r];
    LaidContent(f, Flow(out, line, f.EndOf(r)), Content(g.out) + PlacedGlyphs(r));
    LaidIsLayout(f, line + 1, Flow(out, line, f.EndOf(r)));
  }

  lemma LaidContent(f: Frame, g: Flow, done: seq<Glyph>)
    requires Laid(f, g, done)
    ensures Laid(f, g, Content(g.out))
  {
  }

  /** Where the lines run out, what stands is a layout of a first part of the content: that of the first lines. */
  lemma UpToIsLaid(f: Frame, items: seq<Item>, lines: nat, h: Flow, overflow: bool)
    requires f.Valid() && IsUpTo(f, ItemsFlow(f, items), lines, h, overflow)
    ensures Laid(f, h, Content(h.out)) && Content(h.out) <= ItemContent(items) && h.line < lines
    ensures overflow <==> lines < LinesNeeded(f, items)
    ensures if overflow then h.line + 1 == lines && h.out == FirstLines(ItemsFlow(f, items).out, lines)
            else h == ItemsFlow(f, items) && Content(h.out) == ItemContent(items)
  {
    var g := ItemsFlow(f, items);
    ItemsFlowLaid(f, items);
    if overflow {
      LaidPrefix(f, g, ItemContent(items), h);
      FirstLinesAre(g.out, lines, h.out);
    } else {
      LaidContent(f, g, ItemContent(items));
      assert Content(g.out) == ItemContent(items);
    }
  }

  /** The items on as many lines as there are, with an ellipsis if these are too few. */
  method LayOut(f: Frame, lines: nat, items: seq<Item>) returns (used: nat, out: seq<Placed>)
    requires f.Valid() && lines > 0
    ensures IsLaidOut(f, lines, items, used, out) && IsLayout(f, out, used, lines, ItemContent(items))
    ensures LinesNeeded(f, items) <= lines ==> Content(out) == ItemContent(items)
    ensures lines >= Weight(items) ==> LinesNeeded(f, items) <= lines
    ensures used > 0 && (f.font.Honest() ==> f.AllHaveRoom(out))
  {
    var line, x, overflow;
    out, line, x, overflow := LayItems(f, lines, items);
    NeedsFewLines(f, items);
    hide *;
    used := line + 1;
    if overflow {
      ghost var laid := out;
      LinesRunOut(f, items, lines, Flow(out, line, x));
      out := AppendEllipsis(f, out, line, x, ItemContent(items));
      EllipsizedIsLaidOut(f, items, lines, laid, out);
    } else {
      LinesSuffice(f, items, lines, Flow(out, line, x));
    }
  }

  lemma LinesSuffice(f: Frame, items: seq<Item>, lines: nat, h: Flow)
    requires f.Valid() && IsUpTo(f, ItemsFlow(f, items), lines, h, false)
    ensures IsLaidOut(f, lines, items, h.line + 1, h.out) && IsLayout(f, h.out, h.line + 1, lines, ItemContent(items))
    ensures Content(h.out) == ItemContent(items) && (f.font.Honest() ==> f.AllHaveRoom(h.out))
  {
    UpToIsLaid(f, items, lines, h, false);
    hide Laid, IsUpTo, Content, ItemContent, Font.Honest, IsLayout;
    LaidIsLayout(f, lines, h);
  }

  lemma LinesRunOut(f: Frame, items: seq<Item>, lines: nat, h: Flow)
    requires f.Valid() && IsUpTo(f, ItemsFlow(f, items), lines, h, true)
    ensures Laid(f, h, Content(h.out)) && Content(h.out) <= ItemContent(items)
    ensures h.line + 1 == lines < LinesNeeded(f, items) && h.out == FirstLines(ItemsFlow(f, items).out, lines)
  {
    UpToIsLaid(f, items, lines, h, true);
  }

  lemma EllipsizedIsLaidOut(f: Frame, items: seq<Item>, lines: nat, laid: seq<Placed>, out: seq<Placed>)
    requires f.Valid() && lines < LinesNeeded(f, items) && laid == FirstLines(ItemsFlow(f, items).out, lines)
    requires IsEllipsized(f, laid, lines, out)
    ensures IsLaidOut(f, lines, items, lines, out)
  {
  }

  /** Never more lines than bytes and images. */
  lemma NeedsFewLines(f: Frame, items: seq<Item>)
    requires f.Valid()
    ensures LinesNeeded(f, items) <= if Weight(items) == 0 then 1 else Weight(items)
  {
    ItemsFlowLaid(f, items);
  }

  /** Lines used and the pieces on them; with an honest font every piece has room. */
  method LayoutRuns(text: seq<Byte>, font: Font, size: real, wrapWidth: real, maxLines: int,
                    images: seq<Byte> -> Option<Texture>)
    returns (used: nat, out: seq<Placed>)
    requires font.Sound() && size >= 0.0
    ensures used == 0 <==> text == [] || wrapWidth <= 1.0 || maxLines <= 0
    ensures used == 0 ==> out == []
    ensures used > 0 ==> IsLaidOut(Frame(font, size, wrapWidth), maxLines, ItemsOf(Split([], text), images), used, out)
    ensures used > 0 ==> IsLayout(Frame(font, size, wrapWidth), out, used, maxLines, RunContent(Split([], text), images))
    ensures used > 0 && LinesNeeded(Frame(font, size, wrapWidth), ItemsOf(Split([], text), images)) <= maxLines ==>
              Content(out) == RunContent(Split([], text), images)
    ensures used > 0 && maxLines >= |Unmarked(text)| ==> Content(out) == RunContent(Split([], text), images)
    ensures font.Honest() ==> Frame(font, size, wrapWidth).AllHaveRoom(out)
  {
    if text == [] || wrapWidth <= 1.0 || maxLines <= 0 { return 0, []; }
    var f := Frame(font, size, wrapWidth);
    var runs := SplitRuns(text);
    RunsHaveText(text);
    RunsDrawTheText(text);
    var items := BuildItems(runs, images);
    hide *;
    used, out := LayOut(f, maxLines, items);
  }

  // ---- what the lines allowed make of it --------------------------------------------------------

  /** The layout is determined. */
  lemma LaidOutOneWay(f: Frame, lines: nat, items: seq<Item>, m: nat, a: seq<Placed>, n: nat, b: seq<Placed>)
    requires f.Valid() && IsLaidOut(f, lines, items, m, a) && IsLaidOut(f, lines, items, n, b)
    ensures m == n && a == b
  {
    hide ItemsFlow, FirstLines, IsEllipsized;
    if lines < LinesNeeded(f, items) { EllipsizedOneWay(f, FirstLines(ItemsFlow(f, items).out, lines), lines, a, b); }
  }

  lemma EllipsizedOneWay(f: Frame, laid: seq<Placed>, lines: nat, a: seq<Placed>, b: seq<Placed>)
    requires IsEllipsized(f, laid, lines, a) && IsEllipsized(f, laid, lines, b)
    ensures a == b
  {
    ShrunkOneWay(f, laid, lines - 1, a[..|a| - 1], b[..|b| - 1]);
    hide IsShrunk, CursorX;
    assert a == a[..|a| - 1] + [a[|a| - 1]] && b == b[..|b| - 1] + [b[|b| - 1]];
  }

  lemma {:induction false} FirstOfFirst(out: seq<Placed>, m: int, n: int)
    requires n <= m
    ensures FirstLines(FirstLines(out, m), n) == FirstLines(out, n)
  {
    if out != [] && out[|out| - 1].line >= m { FirstOfFirst(out[..|out| - 1], m, n); }
  }

  /** Pieces from line `n` on at the end do not count. */
  lemma {:induction false} FirstOfPrefix(out: seq<Placed>, n: int, k: nat)
    requires k <= |out| && forall i :: k <= i < |out| ==> n <= out[i].line
    ensures FirstLines(out, n) == FirstLines(out[..k], n)
  {
    if k == |out| {
      assert out[..k] == out;
    } else {
      var rest := out[..|out| - 1];
      assert rest[..k] == out[..k];
      FirstOfPrefix(rest, n, k);
    }
  }

  /** The ellipsis disturbs its own line only. */
  lemma EllipsisKeepsLines(f: Frame, laid: seq<Placed>, lines: nat, out: seq<Placed>, n: int)
    requires IsEllipsized(f, laid, lines, out) && n < lines
    ensures FirstLines(out, n) == FirstLines(laid, n)
  {
    var kept := out[..|out| - 1];
    hide IsCutFrom, MustGo, Crowds, Trimmed;
    assert FirstLines(out, n) == FirstLines(kept, n);
    ShrunkKeepsLines(f, laid, lines - 1, kept, n);
  }

  lemma ShrunkKeepsLines(f: Frame, laid: seq<Placed>, line: nat, kept: seq<Placed>, n: int)
    requires IsShrunk(f, laid, line, kept) && n <= line
    ensures FirstLines(kept, n) == FirstLines(laid, n)
  {
    var k := if kept == laid[..|kept|] then |kept| else |kept| - 1;
    hide MustGo, Crowds, Trimmed, FirstLines;
    assert kept[..k] == laid[..k];
    assert forall i :: k <= i < |laid| ==> n <= laid[i].line;
    assert forall i :: k <= i < |kept| ==> n <= kept[i].line;
    FirstOfPrefix(laid, n, k);
    FirstOfPrefix(kept, n, k);
  }

  lemma LaidOutFirst(f: Frame, lines: nat, items: seq<Item>, used: nat, out: seq<Placed>, n: int)
    requires f.Valid() && IsLaidOut(f, lines, items, used, out) && n < lines
    ensures FirstLines(out, n) == FirstLines(ItemsFlow(f, items).out, n)
  {
    if lines < LinesNeeded(f, items) {
      EllipsisKeepsLines(f, FirstLines(ItemsFlow(f, items).out, lines), lines, out, n);
      FirstOfFirst(ItemsFlow(f, items).out, lines, n);
    }
  }

  /** With more lines allowed, all lines before the last stay as they are, and as many are used or more. */
  lemma MoreLinesAgree(f: Frame, few: nat, more: nat, items: seq<Item>, m: nat, a: seq<Placed>, n: nat, b: seq<Placed>)
    requires f.Valid() && 0 < few <= more && IsLaidOut(f, few, items, m, a) && IsLaidOut(f, more, items, n, b)
    ensures FirstLines(a, few - 1) == FirstLines(b, few - 1) && m <= n
    ensures m < few ==> a == b && m == n
  {
    LaidOutFirst(f, few, items, m, a, few - 1);
    LaidOutFirst(f, more, items, n, b, few - 1);
  }

  /** A text that the font takes whole stands on one line, uncut, however few are allowed. */
  lemma WholeTextStays(f: Frame, lines: nat, s: seq<Byte>, used: nat, out: seq<Placed>)
    requires f.Valid() && lines > 0 && s != [] && f.font.wrap(s, f.width) == |s|
    requires IsLaidOut(f, lines, [Text(s)], used, out)
    ensures used == 1 && out == [Placed(0.0, 0, s, None)]
  {
    assert [Text(s)][..0] == [] && s[0..] == s && s[0..|s|] == s;
    var g := Flow([], 0, 0.0);
    assert ItemsFlow(f, [Text(s)]) == TextFlow(f, s, 0, g);
    assert FitEnd(f, s, 0, 0.0) == |s|;
  }

  /** A font that takes one of four dots, and then the other three. */
  const DOTS_FONT := Font((s, w) => if |s| == 4 then 1 else |s|, s => 0.0)

  /** That the layout is cut does not always show in what is drawn: on one line of two, the ellipsis stands for the
      three dots that were cut. */
  lemma DotsHideACut()
    ensures var f, items := Frame(DOTS_FONT, 0.0, 10.0), [Text([0x2E] + ELLIPSIS)];
            var out := [Placed(0.0, 0, [0x2E], None), Placed(0.0, 0, ELLIPSIS, None)];
            && f.Valid() && LinesNeeded(f, items) == 2
            && IsLaidOut(f, 1, items, 1, out) && Content(out) == ItemContent(items)
  {
    var f := Frame(DOTS_FONT, 0.0, 10.0);
    assert f.Valid() && f.font.width([0x2E]) == f.font.width(ELLIPSIS) == 0.0;
    assert f.font.wrap([0x2E] + ELLIPSIS, f.width - 0.0) == 1 && f.font.wrap(ELLIPSIS, f.width - 0.0) == 3;
    hide *;
    DotsOnOneLine(f);
  }

  lemma DotsOnOneLine(f: Frame)
    requires f.Valid() && f.width >= 0.0 && f.font.width([0x2E]) == f.font.width(ELLIPSIS) == 0.0
    requires f.font.wrap([0x2E] + ELLIPSIS, f.width - 0.0) == 1 && f.font.wrap(ELLIPSIS, f.width - 0.0) == 3
    ensures var items := [Text([0x2E] + ELLIPSIS)];
            var out := [Placed(0.0, 0, [0x2E], None), Placed(0.0, 0, ELLIPSIS, None)];
            LinesNeeded(f, items) == 2 && IsLaidOut(f, 1, items, 1, out) && Content(out) == ItemContent(items)
  {
    var s: seq<Byte> := [0x2E] + ELLIPSIS;
    var items := [Text(s)];
    var out := [Placed(0.0, 0, [0x2E], None), Placed(0.0, 0, ELLIPSIS, None)];
    var dot, rest := out[0], Placed(0.0, 1, ELLIPSIS, None);
    DotsFlow(f, s, dot, rest);
    OneItem(f, items, s);
    FirstLinesAre([dot, rest], 1, [dot]);
    DotsContent(s, dot, out[1], out);
    DotsLaidOut(f, items, dot, rest, out);
  }

  lemma DotsLaidOut(f: Frame, items: seq<Item>, dot: Placed, rest: Placed, out: seq<Placed>)
    requires f.Valid() && ItemsFlow(f, items) == Flow([dot, rest], 1, 0.0) && FirstLines([dot, rest], 1) == [dot]
    requires dot.line == 0 && f.EndOf(dot) == 0.0 && !Crowds(f, dot)
    requires out == [dot, Placed(0.0, 0, ELLIPSIS, None)]
    ensures LinesNeeded(f, items) == 2 && IsLaidOut(f, 1, items, 1, out)
  {
    hide ItemsFlow, FirstLines, Font.Sound, Crowds, MustGo, IsCutFrom, Frame.EndOf;
    assert out[..1] == [dot] && [dot][..1] == [dot];
    assert IsShrunk(f, [dot], 0, [dot]);
    hide IsShrunk;
    assert IsEllipsized(f, [dot], 1, out);
  }

  lemma OneItem(f: Frame, items: seq<Item>, s: seq<Byte>)
    requires f.Valid() && items == [Text(s)]
    ensures ItemContent(items) == Inked(s) && ItemsFlow(f, items) == TextFlow(f, s, 0, Flow([], 0, 0.0))
  {
    assert items[..0] == [] && [] + Inked(s) == Inked(s);
  }

  lemma DotsContent(s: seq<Byte>, dot: Placed, dots: Placed, out: seq<Placed>)
    requires s == [0x2E] + ELLIPSIS && out == [dot, dots] && dot.image == dots.image == None
    requires dot.text == [0x2E] && dots.text == ELLIPSIS
    ensures Content(out) == Inked(s)
  {
    InkedAppend(dot.text, dots.text);
    ContentOfTwo(dot, dots);
    hide Content, Inked;
    assert PlacedGlyphs(dot) == Inked(dot.text) && PlacedGlyphs(dots) == Inked(dots.text);
    assert Content(out) == Inked(dot.text) + Inked(dots.text);
    assert s == dot.text + dots.text;
    assert Inked(s) == Inked(dot.text + dots.text);
  }

  lemma ContentOfTwo(a: Placed, b: Placed)
    ensures Content([a, b]) == PlacedGlyphs(a) + PlacedGlyphs(b)
  {
    var one, two := [a], [a, b];
    assert two[..1] == one && one[..0] == [];
    assert Content(one) == PlacedGlyphs(a);
  }

  lemma DotsFlow(f: Frame, s: seq<Byte>, dot: Placed, rest: Placed)
    requires f.Valid() && f.font.width([0x2E]) == f.font.width(ELLIPSIS) == 0.0
    requires s == [0x2E] + ELLIPSIS && f.font.wrap(s, f.width - 0.0) == 1 && f.font.wrap(ELLIPSIS, f.width - 0.0) == 3
    requires dot == Placed(0.0, 0, [0x2E], None) && rest == Placed(0.0, 1, ELLIPSIS, None)
    ensures TextFlow(f, s, 0, Flow([], 0, 0.0)) == Flow([dot, rest], 1, 0.0)
  {
    assert s[0..] == s && s[0..1] == [0x2E] && s[1..] == ELLIPSIS && s[1..4] == ELLIPSIS;
    var first := PutText(f, s[0..1], Flow([], 0, 0.0));
    assert first == Flow([dot], 0, 0.0) && SpacesEnd(s, 1) == 1;
    TextFlowStep(f, s, 0, Flow([], 0, 0.0));
    TextFlowStep(f, s, 1, NextLine(first));
  }

  lemma TextFlowStep(f: Frame, s: seq<Byte>, p: nat, g: Flow)
    requires f.Valid() && p < |s| && FitEnd(f, s, p, g.x) > p
    ensures var fit := FitEnd(f, s, p, g.x); var placed := PutText(f, s[p..fit], g);
            TextFlow(f, s, p, g) == if SpacesEnd(s, fit) == |s| then placed else TextFlow(f, s, SpacesEnd(s, fit), NextLine(placed))
  {
  }

  lemma JoinTextLast(runs: seq<Run>)
    requires runs != []
    ensures JoinText(runs) == JoinText(runs[..|runs| - 1]) + runs[|runs| - 1].text
  {
    var rest, last := runs[..|runs| - 1], runs[|runs| - 1];
    assert runs == rest + [last];
    JoinTextAppend(rest, [last]);
    JoinTextOne(last);
  }

  /** Without images what is drawn is the text with its markup as shortcodes. */
  lemma {:induction false} PlainContent(runs: seq<Run>)
    ensures RunContent(runs, _ => None) == Inked(JoinText(runs))
  {
    if runs != [] {
      var rest, last := runs[..|runs| - 1], runs[|runs| - 1];
      PlainContent(rest);
      hide Inked;
      JoinTextLast(runs);
      InkedAppend(JoinText(rest), last.text);
    }
  }

  /** Without images there is one item, the text with its markup as shortcodes. */
  lemma {:induction false} PlainItems(runs: seq<Run>)
    ensures ItemsOf(runs, _ => None) == if runs == [] then [] else [Text(JoinText(runs))]
  {
    if runs != [] {
      var rest := runs[..|runs| - 1];
      PlainItems(rest);
      JoinTextLast(runs);
      if rest == [] { assert JoinText(runs) == runs[0].text; }
    }
  }

  lemma PlainTextIsOneItem(text: seq<Byte>)
    requires text != []
    ensures ItemsOf(Split([], text), _ => None) == [Text(Unmarked(text))] && Unmarked(text) != []
  {
    PlainItems(Split([], text));
    RunsDrawTheText(text);
    RunsPartitionTheText(text);
  }

  lemma FallbackIsDrawn(text: seq<Byte>)
    ensures RunContent(Split([], text), _ => None) == Inked(Unmarked(text))
  {
    PlainContent(Split([], text));
    RunsDrawTheText(text);
  }
}
