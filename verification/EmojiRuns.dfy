/** Notification text as runs of plain text and emoji, and the keys and URLs of the emoji. */
module EmojiRuns {
  import opened Common
  import opened Emoji
  import opened EmojiGrammar

  // ---- file name stems ------------------------------------------------------------------

  function HexDigit(d: nat): Byte
    requires d < 16
  {
    if d < 10 then 0x30 + d else 0x57 + d
  }

  function HexValue(b: Byte): int {
    if b < 0x3A then b - 0x30 else b - 0x57
  }

  /** Lower-case and unpadded. */
  function Hex(n: nat): (s: seq<Byte>)
    ensures s != []
  {
    if n < 16 then [HexDigit(n)] else Hex(n / 16) + [HexDigit(n % 16)]
  }

  function Joined(cps: seq<nat>): seq<Byte> {
    if cps == [] then []
    else if |cps| == 1 then Hex(cps[0])
    else Joined(cps[..|cps| - 1]) + [DASH] + Hex(cps[|cps| - 1])
  }

  /** VS16 is kept only in sequences that a ZWJ joins. */
  function Kept(cps: seq<nat>, joined: bool): seq<nat> {
    if cps == [] then []
    else
      var cp := cps[|cps| - 1];
      Kept(cps[..|cps| - 1], joined) + if cp == VS16 && !joined then [] else [cp]
  }

  function Normal(cps: seq<nat>): seq<nat> {
    Kept(cps, ZWJ in cps)
  }

  function Stem(cps: seq<nat>): seq<Byte> {
    Joined(Normal(cps))
  }

  lemma KeptNext(cps: seq<nat>, i: nat, joined: bool)
    requires i < |cps|
    ensures cps[i] == VS16 && !joined ==> Kept(cps[..i + 1], joined) == Kept(cps[..i], joined)
    ensures cps[i] != VS16 || joined ==> Kept(cps[..i + 1], joined) == Kept(cps[..i], joined) + [cps[i]]
  {
    assert cps[..i + 1][..i] == cps[..i];
  }

  lemma JoinedNext(cps: seq<nat>, cp: nat)
    ensures Joined(cps + [cp]) == Joined(cps) + (if Joined(cps) == [] then [] else [DASH]) + Hex(cp)
    ensures Joined(cps) == [] <==> cps == []
  {
    assert (cps + [cp])[..|cps|] == cps;
  }

  method TwemojiStem(cps: seq<nat>) returns (stem: seq<Byte>)
    ensures stem == Stem(cps)
  {
    var hasZwj := false;
    for i := 0 to |cps|
      invariant hasZwj <==> ZWJ in cps[..i]
    {
      if cps[i] == ZWJ { hasZwj := true; }
    }
    assert cps[..|cps|] == cps;
    stem := [];
    for i := 0 to |cps|
      invariant stem == Joined(Kept(cps[..i], hasZwj))
    {
      KeptNext(cps, i, hasZwj);
      if cps[i] == VS16 && !hasZwj { continue; }
      JoinedNext(Kept(cps[..i], hasZwj), cps[i]);
      if stem != [] { stem := stem + [DASH]; }
      stem := stem + Hex(cps[i]);
    }
  }

  /** The numbers a stem is read back as; an empty stem reads as one 0. */
  function Unjoined(s: seq<Byte>): (r: seq<int>)
    ensures r != []
  {
    if s == [] then [0]
    else
      var r, b := Unjoined(s[..|s| - 1]), s[|s| - 1];
      if b == DASH then r + [0] else r[..|r| - 1] + [r[|r| - 1] * 16 + HexValue(b)]
  }

  lemma UnjoinNext(s: seq<Byte>, b: Byte)
    ensures var r := Unjoined(s);
            Unjoined(s + [b]) == if b == DASH then r + [0] else r[..|r| - 1] + [r[|r| - 1] * 16 + HexValue(b)]
  {
    UnjoinLast(s, b, s + [b]);
  }

  lemma UnjoinLast(s: seq<Byte>, b: Byte, t: seq<Byte>)
    requires t == s + [b]
    ensures var r := Unjoined(s); Unjoined(t) == if b == DASH then r + [0] else r[..|r| - 1] + [r[|r| - 1] * 16 + HexValue(b)]
  {
    hide HexValue;
    assert t[..|t| - 1] == s;
  }

  lemma HexDigitValue(d: nat)
    requires d < 16
    ensures HexDigit(d) != DASH && HexValue(HexDigit(d)) == d
  {
  }

  /** Hex digits after a dash are one number. */
  lemma {:induction false} UnjoinHex(s: seq<Byte>, n: nat)
    requires var r := Unjoined(s); r[|r| - 1] == 0
    ensures var r := Unjoined(s); Unjoined(s + Hex(n)) == r[..|r| - 1] + [n]
  {
    hide Unjoined, HexDigit, HexValue;
    HexDigitValue(n % 16);
    if n < 16 {
      UnjoinNext(s, HexDigit(n));
    } else {
      UnjoinHex(s, n / 16);
      UnjoinNext(s + Hex(n / 16), HexDigit(n % 16));
      assert s + Hex(n) == s + Hex(n / 16) + [HexDigit(n % 16)];
    }
  }

  lemma LastReplaced(init: seq<int>, x: int)
    ensures (init + [0])[|init|] == 0 && (init + [0])[..|init|] + [x] == init + [x]
  {
  }

  lemma UnjoinOneMore(s: seq<Byte>, r: seq<int>, n: nat)
    requires Unjoined(s) == r
    ensures Unjoined(s + [DASH] + Hex(n)) == r + [n]
  {
    hide Unjoined, Hex;
    UnjoinNext(s, DASH);
    LastReplaced(r, n);
    UnjoinHex(s + [DASH], n);
  }

  predicate ReadsBack(cps: seq<nat>) {
    Unjoined(Joined(cps)) == cps
  }

  lemma OneReadsBack(cp: nat)
    ensures ReadsBack([cp])
  {
    UnjoinHex([], cp);
    assert [] + Hex(cp) == Hex(cp);
  }

  lemma NextReadsBack(init: seq<nat>, cp: nat)
    requires init != [] && ReadsBack(init)
    ensures ReadsBack(init + [cp])
  {
    JoinedNext(init, cp);
    UnjoinOneMore(Joined(init), init, cp);
  }

  /** Hex without padding, joined by dashes, reads back. */
  lemma {:induction false} UnjoinJoined(cps: seq<nat>)
    requires cps != []
    ensures Unjoined(Joined(cps)) == cps
  {
    hide Hex;
    AllReadBack(cps);
  }

  lemma {:induction false} AllReadBack(cps: seq<nat>)
    requires cps != []
    ensures ReadsBack(cps)
  {
    hide ReadsBack;
    var n := |cps| - 1;
    if n == 0 {
      OneReadsBack(cps[0]);
      assert cps == [cps[0]];
    } else {
      AllReadBack(cps[..n]);
      NextReadsBack(cps[..n], cps[n]);
      assert cps == cps[..n] + [cps[n]];
    }
  }

  /** Two sequences share a stem exactly when they agree after the VS16 rule. */
  lemma StemIsFaithful(a: seq<nat>, b: seq<nat>)
    ensures Stem(a) == Stem(b) <==> Normal(a) == Normal(b)
  {
    var x, y := Normal(a), Normal(b);
    if x != [] { UnjoinJoined(x); }
    if y != [] { UnjoinJoined(y); }
    assert Joined(x) == [] <==> x == [];
    assert Joined(y) == [] <==> y == [];
  }

  /** A ZWJ keeps all codepoints; without one just the VS16s go. */
  lemma NormalIs(cps: seq<nat>, cp: nat)
    ensures Normal([]) == [] && (0x200D in cps ==> Normal(cps) == cps)
    ensures 0x200D !in cps + [cp] ==> Normal(cps + [cp]) == Normal(cps) + if cp == 0xFE0F then [] else [cp]
  {
    AllKept(cps);
    assert (cps + [cp])[..|cps|] == cps;
  }

  lemma {:induction false} AllKept(cps: seq<nat>)
    ensures Kept(cps, true) == cps
  {
    if cps != [] { AllKept(cps[..|cps| - 1]); }
  }

  /** Lower-case hex without padding, the highest digit first. */
  lemma HexIs(n: nat)
    ensures n < 16 ==> Hex(n) == Lit("0123456789abcdef"[n..n + 1])
    ensures n >= 16 ==> Hex(n) == Hex(n / 16) + Hex(n % 16)
  {
  }

  lemma StemNext(cps: seq<nat>, cp: nat)
    ensures Joined([]) == [] && Joined(cps + [cp]) == Joined(cps) + Lit(if cps == [] then "" else "-") + Hex(cp)
  {
    hide Hex, Joined;
    JoinedNext([], cp);
    JoinedNext(cps, cp);
    assert Lit("") == [] && Lit("-") == [DASH];
  }

  // ---- runs -----------------------------------------------------------------------------

  datatype Run = Run(text: seq<Byte>, key: seq<Byte>)

  const CUSTOM := "emoji.c."
  const UNICODE := "emoji.u."

  function CustomRun(m: Markup): Run
    requires m.Markup?
  {
    Run(m.Shortcode(), Lit(CUSTOM) + m.id)
  }

  function UnicodeRun(slice: seq<Byte>, cps: seq<nat>): Run {
    Run(slice, Lit(UNICODE) + Stem(cps))
  }

  /** Markup is drawn as its shortcode and keyed by its id, an emoji as it is and keyed by its stem. */
  lemma RunIs(slice: seq<Byte>, cps: seq<nat>)
    ensures var m := CustomAt(slice);
            m.Markup? ==> CustomRun(m) == Run(Lit(":") + m.name + Lit(":"), Lit("emoji.c.") + m.id)
    ensures UnicodeRun(slice, cps) == Run(slice, Lit("emoji.u.") + Stem(cps))
  {
    hide Stem, CustomAt;
  }

  datatype Piece = Plain(size: nat) | Inline(size: nat, run: Run)

  /** What the text starts with: an emoji, or one codepoint or stray byte of plain text. */
  function PieceAt(s: seq<Byte>): (p: Piece)
    requires s != []
    ensures 1 <= p.size <= |s|
  {
    match CustomAt(s)
    case Markup(_, _, _) => CustomIsSpelled(s); SizeOfMarkup(CustomAt(s)); Inline(CustomAt(s).Size(), CustomRun(CustomAt(s)))
    case NoMarkup =>
      match EmojiAt(s)
      case Emoji(n, cps) => Inline(n, UnicodeRun(s[..n], cps))
      case NoEmoji => Plain(PlainSize(s))
  }

  function PlainSize(s: seq<Byte>): (n: nat)
    requires s != []
    ensures 1 <= n <= |s|
  {
    match Decode(s)
    case Codepoint(n, _) => n
    case Invalid => 1
  }

  function Flushed(text: seq<Byte>): seq<Run> {
    if text == [] then [] else [Run(text, [])]
  }

  /** The runs of `s` when `text` is pending before it. */
  function Split(text: seq<Byte>, s: seq<Byte>): seq<Run>
    decreases |s|
  {
    if s == [] then Flushed(text)
    else
      match PieceAt(s)
      case Plain(n) => Split(text + s[..n], s[n..])
      case Inline(n, run) => Flushed(text) + [run] + Split([], s[n..])
  }

  function PieceFrom(s: seq<Byte>, p: nat): (piece: Piece)
    requires p < |s|
    ensures 1 <= piece.size <= |s| - p
  {
    PieceAt(s[p..])
  }

  function SplitFrom(text: seq<Byte>, s: seq<Byte>, p: nat): seq<Run>
    requires p <= |s|
  {
    Split(text, s[p..])
  }

  method NextPiece(s: seq<Byte>, p: nat) returns (piece: Piece)
    requires p < |s|
    ensures piece == PieceFrom(s, p)
  {
    hide CustomAt, EmojiAt, Decode, Stem;
    ghost var t := s[p..];
    if s[p] == LT {
      var n, name, id := MatchCustom(s, p);
      if n > 0 { return Inline(n, Run([COLON] + name + [COLON], Lit(CUSTOM) + id)); }
    }
    assert CustomAt(t) == NoMarkup by { OnlyAngles(t); }
    var n, cps := MatchUnicode(s, p);
    if n > 0 {
      var stem := TwemojiStem(cps);
      assert s[p..p + n] == t[..n];
      return Inline(n, Run(s[p..p + n], Lit(UNICODE) + stem));
    }
    var size, _ := DecodeUtf8(s, p);
    return Plain(if size > 0 then size else 1);
  }

  lemma OnlyAngles(s: seq<Byte>)
    ensures CustomAt(s).Markup? ==> s != [] && s[0] == LT
  {
  }

  lemma SplitStep(text: seq<Byte>, s: seq<Byte>, p: nat)
    requires p < |s|
    ensures match PieceFrom(s, p)
            case Plain(n) => SplitFrom(text, s, p) == SplitFrom(text + s[p..p + n], s, p + n)
            case Inline(n, run) => SplitFrom(text, s, p) == Flushed(text) + [run] + SplitFrom([], s, p + n)
  {
    hide PieceAt;
    var t, n := s[p..], PieceFrom(s, p).size;
    assert t[n..] == s[p + n..] && t[..n] == s[p..p + n];
  }

  function Cut(s: seq<Byte>, p: nat, n: nat): seq<Byte>
    requires p + n <= |s|
  {
    s[p..p + n]
  }

  ghost predicate SplitSoFar(s: seq<Byte>, runs: seq<Run>, text: seq<Byte>, p: nat)
    requires p <= |s|
  {
    Split([], s) == runs + SplitFrom(text, s, p)
  }

  lemma PushPlain(s: seq<Byte>, runs: seq<Run>, text: seq<Byte>, p: nat)
    requires p < |s| && SplitSoFar(s, runs, text, p) && PieceFrom(s, p).Plain?
    ensures var n := PieceFrom(s, p).size; SplitSoFar(s, runs, text + Cut(s, p, n), p + n)
  {
    SplitStep(text, s, p);
  }

  lemma PushInline(s: seq<Byte>, runs: seq<Run>, text: seq<Byte>, p: nat, n: nat, run: Run)
    requires p < |s| && SplitSoFar(s, runs, text, p) && PieceFrom(s, p) == Inline(n, run)
    ensures SplitSoFar(s, runs + Flushed(text) + [run], [], p + n)
  {
    SplitStep(text, s, p);
    hide PieceFrom, SplitFrom, Flushed, Split;
    RunsAssoc(runs, Flushed(text), run, SplitFrom([], s, p + n));
  }

  lemma RunsAssoc(a: seq<Run>, b: seq<Run>, run: Run, c: seq<Run>)
    ensures a + (b + [run] + c) == (a + b + [run]) + c
  {
  }

  lemma SplitDone(s: seq<Byte>, runs: seq<Run>, text: seq<Byte>)
    requires SplitSoFar(s, runs, text, |s|)
    ensures Split([], s) == runs + Flushed(text)
  {
  }

  method Flush(runs: seq<Run>, text: seq<Byte>) returns (flushed: seq<Run>)
    ensures flushed == runs + Flushed(text)
  {
    flushed := runs;
    if text != [] { flushed := flushed + [Run(text, [])]; }
  }

  /** One turn of the loop: an emoji ends the pending text, anything else adds to it. */
  method TakePiece(s: seq<Byte>, runs: seq<Run>, text: seq<Byte>, p: nat)
    returns (runs': seq<Run>, text': seq<Byte>, p': nat)
    requires p < |s| && SplitSoFar(s, runs, text, p)
    ensures p < p' <= |s| && SplitSoFar(s, runs', text', p')
  {
    hide *;
    var piece := NextPiece(s, p);
    match piece {
      case Inline(n, run) =>
        PushInline(s, runs, text, p, n, run);
        runs' := Flush(runs, text);
        runs', text', p' := runs' + [run], [], p + n;
      case Plain(n) =>
        PushPlain(s, runs, text, p);
        runs', text', p' := runs, text + Cut(s, p, n), p + n;
    }
  }

  method SplitRuns(s: seq<Byte>) returns (runs: seq<Run>)
    ensures runs == Split([], s)
  {
    runs := [];
    var text: seq<Byte>, p := [], 0;
    SplitStarts(s);
    hide *;
    while p != |s|
      invariant p <= |s| && SplitSoFar(s, runs, text, p)
      decreases |s| - p
    {
      runs, text, p := TakePiece(s, runs, text, p);
    }
    SplitDone(s, runs, text);
    runs := Flush(runs, text);
  }

  lemma SplitStarts(s: seq<Byte>)
    ensures SplitSoFar(s, [], [], 0)
  {
    assert s[0..] == s;
  }
}
