/** Notification bodies: recovering the emoji ids that the display text lost, and dropping bidi controls. */
module NotificationText {
  import opened Common
  import opened Emoji
  import opened EmojiRuns
  import opened EmojiSegments

  // ---- restoring markup -----------------------------------------------------------------

  /** Emoji names and the markup the raw text has for them; the last one of a name wins. */
  function Harvest(raw: seq<Byte>): map<seq<Byte>, seq<Byte>>
    decreases |raw|
  {
    if raw == [] then map[]
    else
      var n := CustomSize(raw);
      if n == 0 then Harvest(raw[1..]) else map[CustomAt(raw).name := raw[..n]] + Harvest(raw[n..])
  }

  function CustomSize(s: seq<Byte>): (n: nat)
    ensures n <= |s| && (n > 0 <==> CustomAt(s).Markup?)
  {
    if CustomAt(s).Markup? then CustomIsSpelled(s); SizeOfMarkup(CustomAt(s)); CustomAt(s).Size() else 0
  }

  /** The name of the shortcode `d` starts with; empty without one. */
  function ShortcodeAt(d: seq<Byte>): (name: seq<Byte>)
    ensures name != [] ==> |name| + 2 <= |d|
  {
    if d == [] || d[0] != COLON then []
    else
      var n := NameRun(d[1..]);
      if n + 1 == |d| || d[n + 1] != COLON then [] else d[1..][..n]
  }

  /** `display` with the shortcodes that `markup` knows rewritten. */
  function Restored(display: seq<Byte>, markup: map<seq<Byte>, seq<Byte>>): seq<Byte>
    decreases |display|
  {
    if display == [] then []
    else
      var name := ShortcodeAt(display);
      if name != [] && name in markup then markup[name] + Restored(display[|name| + 2..], markup)
      else [display[0]] + Restored(display[1..], markup)
  }

  // ---- bidi controls ----------------------------------------------------------------------

  /** U+200E, U+200F, U+202A to U+202E or U+2066 to U+2069, as three bytes. */
  predicate StartsBidi(s: seq<Byte>) {
    && |s| > 2 && s[0] == 0xE2
    && ((s[1] == 0x80 && (s[2] == 0x8E || s[2] == 0x8F || 0xAA <= s[2] <= 0xAE)) || (s[1] == 0x81 && 0xA6 <= s[2] <= 0xA9))
  }

  function Stripped(s: seq<Byte>): seq<Byte>
    decreases |s|
  {
    if s == [] then []
    else if StartsBidi(s) then Stripped(s[3..])
    else [s[0]] + Stripped(s[1..])
  }

  predicate IsBidi(cp: nat) {
    cp == 0x200E || cp == 0x200F || 0x202A <= cp <= 0x202E || 0x2066 <= cp <= 0x2069
  }

  // ---- fallback text is kept ----------------------------------------------------------------

  /** Each name stands for the spelling of a markup of that name. */
  ghost predicate IsHarvest(markup: map<seq<Byte>, seq<Byte>>) {
    forall name :: name in markup ==> IsMarkupOf(name, markup[name])
  }

  predicate IsMarkupOf(name: seq<Byte>, text: seq<Byte>) {
    CustomAt(text).Markup? && CustomAt(text).name == name && CustomAt(text).Spelled() == text
  }

  lemma {:induction false} HarvestIsHarvest(raw: seq<Byte>)
    ensures IsHarvest(Harvest(raw))
    decreases |raw|
  {
    hide IsMarkupOf, CustomAt;
    if raw != [] {
      var n := CustomSize(raw);
      HarvestIsHarvest(raw[if n == 0 then 1 else n..]);
      if n > 0 { CustomSlice(raw); }
    }
  }

  lemma CustomSlice(s: seq<Byte>)
    requires CustomAt(s).Markup?
    ensures IsMarkupOf(CustomAt(s).name, s[..CustomSize(s)]) && CustomAt(s[..CustomSize(s)]) == CustomAt(s)
  {
    CustomIsSpelled(s);
    var t := s[..CustomSize(s)];
    assert t == CustomAt(s).Spelled();
    MatchedExactlyWhenSpelled(t, CustomAt(s));
  }

  predicate IsAscii(s: seq<Byte>) {
    forall i :: 0 <= i < |s| ==> s[i] < 0x80
  }

  lemma {:induction false} StripsAround(a: seq<Byte>, t: seq<Byte>)
    requires IsAscii(a)
    ensures Stripped(a + t) == a + Stripped(t)
  {
    if a == [] {
      assert a + t == t;
    } else {
      assert (a + t)[1..] == a[1..] + t;
      StripsAround(a[1..], t);
      BytesAssoc([a[0]], a[1..], Stripped(t));
      assert [a[0]] + a[1..] == a;
    }
  }

  /** The custom emoji that restoring brings back, in order. */
  function Recovered(display: seq<Byte>, markup: map<seq<Byte>, seq<Byte>>): seq<Run>
    decreases |display|
  {
    if display == [] then []
    else
      var name := ShortcodeAt(display);
      if name != [] && name in markup then
        (if CustomAt(markup[name]).Markup? then [CustomRun(CustomAt(markup[name]))] else [])
        + Recovered(display[|name| + 2..], markup)
      else Recovered(display[1..], markup)
  }

  lemma MarkupIsAscii(m: Markup)
    requires m.WellFormed()
    ensures IsAscii(m.Spelled()) && IsAscii(m.Shortcode())
  {
  }

  /** Markup in front of a text is read as that markup. */
  lemma MarkupInFront(text: seq<Byte>, t: seq<Byte>)
    requires CustomAt(text).Markup? && CustomAt(text).Spelled() == text
    ensures Unmarked(text + t) == CustomAt(text).Shortcode() + Unmarked(t)
    ensures Customs(text + t) == [CustomRun(CustomAt(text))] + Customs(t)
    ensures Stripped(text + t) == text + Stripped(t)
  {
    var m := CustomAt(text);
    CustomIsSpelled(text);
    MatchedExactlyWhenSpelled(text + t, m);
    SizeOfMarkup(m);
    assert (text + t)[m.Size()..] == t;
    MarkupIsAscii(m);
    StripsAround(text, t);
  }

  lemma ShortcodeInFront(d: seq<Byte>)
    requires ShortcodeAt(d) != []
    ensures var name := ShortcodeAt(d); Stripped(d) == [COLON] + name + [COLON] + Stripped(d[|name| + 2..])
  {
    var name := ShortcodeAt(d);
    RunsAreRuns(d[1..]);
    var a := [COLON] + name + [COLON];
    assert d == a + d[|name| + 2..];
    StripsAround(a, d[|name| + 2..]);
  }

  /** A restored text starts with markup or as the display text does. */
  lemma RestoredStart(d: seq<Byte>, markup: map<seq<Byte>, seq<Byte>>)
    requires IsHarvest(markup)
    ensures var r := Restored(d, markup); r != [] && r[0] != LT ==> d != [] && r == [d[0]] + Restored(d[1..], markup)
  {
    if d != [] && ShortcodeAt(d) in markup {
      OnlyAngles(markup[ShortcodeAt(d)]);
    }
  }

  lemma ByteInFront(b: Byte, t: seq<Byte>)
    requires b != LT
    ensures Unmarked([b] + t) == [b] + Unmarked(t) && Customs([b] + t) == Customs(t)
  {
    UnmarkedSkips([b], t);
  }

  lemma NoShortcode(d: seq<Byte>, markup: map<seq<Byte>, seq<Byte>>)
    requires d != [] && d[0] != COLON
    ensures Restored(d, markup) == [d[0]] + Restored(d[1..], markup) && Recovered(d, markup) == Recovered(d[1..], markup)
  {
  }

  lemma RestoredPastBidi(d: seq<Byte>, markup: map<seq<Byte>, seq<Byte>>)
    requires StartsBidi(d)
    ensures StartsBidi(Restored(d, markup)) && Restored(d, markup)[3..] == Restored(d[3..], markup)
    ensures Recovered(d, markup) == Recovered(d[3..], markup)
  {
    NoShortcode(d, markup);
    NoShortcode(d[1..], markup);
    NoShortcode(d[2..], markup);
    hide Restored, Recovered;
    assert d[1..][1..] == d[2..] && d[2..][1..] == d[3..];
    assert Restored(d, markup) == [d[0], d[1], d[2]] + Restored(d[3..], markup);
  }

  /** Restoring makes no bidi control that was not there. */
  lemma NoNewBidi(d: seq<Byte>, markup: map<seq<Byte>, seq<Byte>>)
    requires IsHarvest(markup) && d != [] && Restored(d, markup) == [d[0]] + Restored(d[1..], markup)
    ensures StartsBidi(Restored(d, markup)) ==> StartsBidi(d)
  {
    hide Restored, IsHarvest, ShortcodeAt;
    var r, r1 := Restored(d, markup), Restored(d[1..], markup);
    if StartsBidi(r) {
      assert r1[0] == r[1] && r1[1] == r[2];
      RestoredStart(d[1..], markup);
      assert d[1..][1..] == d[2..];
      assert Restored(d[2..], markup)[0] == r[2];
      RestoredStart(d[2..], markup);
    }
  }

  /** Whatever is restored, stripping and splitting draw the stripped display text, and the emoji are the restored ones. */
  lemma {:induction false} RestoringKeepsFallback(d: seq<Byte>, markup: map<seq<Byte>, seq<Byte>>)
    requires NoAngle(d) && IsHarvest(markup)
    ensures var body := Stripped(Restored(d, markup));
            Unmarked(body) == Stripped(d) && Customs(body) == Recovered(d, markup)
    decreases |d|
  {
    hide CustomAt;
    if d != [] {
      var name := ShortcodeAt(d);
      if name != [] && name in markup {
        var rest := d[|name| + 2..];
        RestoringKeepsFallback(rest, markup);
        assert IsMarkupOf(name, markup[name]);
        MarkupInFront(markup[name], Restored(rest, markup));
        MarkupInFront(markup[name], Stripped(Restored(rest, markup)));
        ShortcodeInFront(d);
      } else {
        var b, r := d[0], Restored(d, markup);
        assert r[1..] == Restored(d[1..], markup);
        if StartsBidi(d) {
          RestoredPastBidi(d, markup);
          RestoringKeepsFallback(d[3..], markup);
        } else {
          NoNewBidi(d, markup);
          RestoringKeepsFallback(d[1..], markup);
          ByteInFront(b, Stripped(Restored(d[1..], markup)));
        }
      }
    }
  }

  /** Recovering ids never changes what a body without `<` shows, and gives exactly the known shortcodes an image. */
  lemma FallbackTextIsKept(display: seq<Byte>, raw: seq<Byte>)
    requires NoAngle(display)
    ensures var runs := Split([], Stripped(Restored(display, Harvest(raw))));
            JoinText(runs) == Stripped(display) && CustomOnes(runs) == Recovered(display, Harvest(raw))
  {
    HarvestIsHarvest(raw);
    RestoringKeepsFallback(display, Harvest(raw));
    RunsDrawTheText(Stripped(Restored(display, Harvest(raw))));
  }

  lemma {:induction false} NothingRestored(d: seq<Byte>)
    ensures Restored(d, map[]) == d
  {
    if d != [] {
      NothingRestored(d[1..]);
      assert d == [d[0]] + d[1..];
    }
  }

  // ---- stripping well-formed text ------------------------------------------------------------------

  function EncodeAll(cps: seq<nat>): seq<Byte>
    requires AreCodepoints(cps)
  {
    if cps == [] then [] else Encode(cps[0]) + EncodeAll(cps[1..])
  }

  function WithoutBidi(cps: seq<nat>): (r: seq<nat>)
    ensures forall i :: 0 <= i < |r| ==> r[i] in cps && !IsBidi(r[i])
  {
    if cps == [] then []
    else if IsBidi(cps[0]) then WithoutBidi(cps[1..])
    else [cps[0]] + WithoutBidi(cps[1..])
  }

  lemma {:induction false} StripsPast(a: seq<Byte>, t: seq<Byte>)
    requires forall i :: 0 <= i < |a| ==> !StartsBidi(a[i..] + t)
    ensures Stripped(a + t) == a + Stripped(t)
  {
    if a == [] {
      assert a + t == t;
    } else {
      assert a[0..] == a;
      assert (a + t)[1..] == a[1..] + t;
      forall i | 0 <= i < |a[1..]| ensures !StartsBidi(a[1..][i..] + t) { assert a[1..][i..] == a[i + 1..]; }
      StripsPast(a[1..], t);
      BytesAssoc([a[0]], a[1..], Stripped(t));
      assert [a[0]] + a[1..] == a;
    }
  }

  lemma EncodedBidi(cp: nat, t: seq<Byte>)
    requires cp <= 0x10FFFF
    ensures StartsBidi(Encode(cp) + t) <==> IsBidi(cp)
    ensures IsBidi(cp) ==> |Encode(cp)| == 3
  {
    var e := Encode(cp);
    var s := e + t;
    assert s[0] == e[0];
    if s[0] == 0xE2 {
      assert |e| == 3 && s[1] == e[1] && s[2] == e[2];
      FormShape(3, cp);
    }
  }

  lemma {:induction false} EncodedStrips(cp: nat, t: seq<Byte>)
    requires cp <= 0x10FFFF
    ensures Stripped(Encode(cp) + t) == if IsBidi(cp) then Stripped(t) else Encode(cp) + Stripped(t)
  {
    var e := Encode(cp);
    var s := e + t;
    EncodedBidi(cp, t);
    hide Encode, IsBidi;
    if IsBidi(cp) {
      assert s[3..] == t;
    } else {
      forall i | 0 <= i < |e| ensures !StartsBidi(e[i..] + t) {
        if i == 0 { assert e[0..] == e; } else { assert (e[i..] + t)[0] == e[i]; }
      }
      StripsPast(e, t);
    }
  }

  predicate AreCodepoints(cps: seq<nat>) {
    forall i :: 0 <= i < |cps| ==> cps[i] <= 0x10FFFF
  }

  /** On well-formed UTF-8 the bytes are stripped as the codepoints are filtered. */
  lemma {:induction false} StripFiltersCodepoints(cps: seq<nat>)
    requires AreCodepoints(cps)
    ensures AreCodepoints(WithoutBidi(cps)) && Stripped(EncodeAll(cps)) == EncodeAll(WithoutBidi(cps))
  {
    if cps != [] {
      StripFiltersCodepoints(cps[1..]);
      EncodedStrips(cps[0], EncodeAll(cps[1..]));
      if !IsBidi(cps[0]) {
        assert ([cps[0]] + WithoutBidi(cps[1..]))[1..] == WithoutBidi(cps[1..]);
      }
    }
  }

  // ---- stripping twice -----------------------------------------------------------------------

  /** `s` from its first byte that stripping keeps. */
  function Skip(s: seq<Byte>): (r: seq<Byte>)
    ensures |r| <= |s| && !StartsBidi(r)
    decreases |s|
  {
    if StartsBidi(s) then Skip(s[3..]) else s
  }

  /** Here stripping keeps a byte, and with the next two bytes it keeps it leaves a control behind. */
  predicate Completes(s: seq<Byte>) {
    && s != [] && !StartsBidi(s)
    && var r := Skip(s[1..]);
       r != [] && var q := Skip(r[1..]);
                  q != [] && StartsBidi([s[0], r[0], q[0]])
  }

  predicate NothingCompletes(s: seq<Byte>) {
    forall i :: 0 <= i < |s| ==> !Completes(s[i..])
  }

  lemma {:induction false} StrippedFromSkip(s: seq<Byte>)
    ensures var r := Skip(s); Stripped(s) == if r == [] then [] else [r[0]] + Stripped(r[1..])
    decreases |s|
  {
    if StartsBidi(s) { StrippedFromSkip(s[3..]); }
  }

  lemma BidiIsThreeBytes(s: seq<Byte>)
    ensures StartsBidi(s) <==> |s| > 2 && StartsBidi([s[0], s[1], s[2]])
  {
  }

  /** What stripping leaves starts with a control exactly where three kept bytes make one. */
  lemma LeavesBidiExactlyWhen(s: seq<Byte>)
    requires s != [] && !StartsBidi(s)
    ensures StartsBidi([s[0]] + Stripped(s[1..])) <==> Completes(s)
  {
    var r := Skip(s[1..]);
    StrippedFromSkip(s[1..]);
    if r != [] { StrippedFromSkip(r[1..]); }
    BidiIsThreeBytes([s[0]] + Stripped(s[1..]));
  }

  lemma {:induction false} StripShortens(s: seq<Byte>)
    ensures |Stripped(s)| <= |s| && (StartsBidi(s) ==> Stripped(s) != s)
    decreases |s|
  {
    if StartsBidi(s) { StripShortens(s[3..]); } else if s != [] { StripShortens(s[1..]); }
  }

  lemma NothingCompletesBefore(s: seq<Byte>, n: nat)
    requires n <= |s| && forall i :: 0 <= i < n ==> !Completes(s[i..])
    ensures NothingCompletes(s) <==> NothingCompletes(s[n..])
  {
    assert forall i :: 0 <= i < |s| - n ==> s[n..][i..] == s[n + i..];
    if NothingCompletes(s[n..]) {
      forall i | 0 <= i < |s| ensures !Completes(s[i..]) {
        if i >= n { assert s[n..][i - n..] == s[i..]; }
      }
    }
  }

  /** On any bytes, stripping twice is stripping once exactly when nowhere do kept bytes come together as a control. */
  lemma {:induction false} StripIsIdempotentExactlyWhen(s: seq<Byte>)
    ensures Stripped(Stripped(s)) == Stripped(s) <==> forall i :: 0 <= i < |s| ==> !Completes(s[i..])
    decreases |s|
  {
    if StartsBidi(s) {
      StripIsIdempotentExactlyWhen(s[3..]);
      assert s[0..] == s && !Completes(s[1..]) && !Completes(s[2..]);
      NothingCompletesBefore(s, 3);
    } else if s != [] {
      var v := Stripped(s[1..]);
      var u := [s[0]] + v;
      assert u[1..] == v && s[0..] == s;
      StripIsIdempotentExactlyWhen(s[1..]);
      LeavesBidiExactlyWhen(s);
      StripShortens(u);
      if !Completes(s) { NothingCompletesBefore(s, 1); }
      assert !StartsBidi(u) ==> Stripped(u) == [s[0]] + Stripped(v);
    }
  }

  /** A lead byte of a control has two more bytes of its codepoint behind it. */
  predicate LeadsAreWhole(s: seq<Byte>) {
    forall i :: 0 <= i < |s| && s[i] == 0xE2 ==> i + 2 < |s| && s[i + 1] != 0xE2 && s[i + 2] != 0xE2
  }

  lemma {:induction false} EncodedLeadsAreWhole(cps: seq<nat>)
    requires AreCodepoints(cps)
    ensures LeadsAreWhole(EncodeAll(cps))
  {
    if cps != [] {
      var e, t := Encode(cps[0]), EncodeAll(cps[1..]);
      EncodedLeadsAreWhole(cps[1..]);
      FormBytes(|e|, cps[0]);
      assert e[0] == 0xE2 ==> |e| == 3;
      hide Encode;
      forall i | 0 <= i < |e + t| && (e + t)[i] == 0xE2
        ensures i + 2 < |e + t| && (e + t)[i + 1] != 0xE2 && (e + t)[i + 2] != 0xE2
      {
        if i >= |e| { assert t[i - |e|] == 0xE2; }
      }
    }
  }

  /** Stripping well-formed text twice is stripping it once: its bytes never come together anew. */
  lemma StripIsIdempotent(cps: seq<nat>)
    requires AreCodepoints(cps)
    ensures Stripped(Stripped(EncodeAll(cps))) == Stripped(EncodeAll(cps))
  {
    var s := EncodeAll(cps);
    EncodedLeadsAreWhole(cps);
    forall i | 0 <= i < |s| ensures !Completes(s[i..]) {
      if s[i] == 0xE2 { BidiIsThreeBytes(s[i..]); }
    }
    StripIsIdempotentExactlyWhen(s);
  }

  /** An input on which it is not: dropping one control completes another. */
  lemma StripIsNotIdempotentOnStrayBytes()
    ensures var s: seq<Byte> := [0xE2, 0xE2, 0x80, 0x8E, 0x80, 0x8E];
            Stripped(Stripped(s)) != Stripped(s)
  {
    var s: seq<Byte> := [0xE2, 0xE2, 0x80, 0x8E, 0x80, 0x8E];
    assert s[1..] == [0xE2, 0x80, 0x8E, 0x80, 0x8E];
    assert s[1..][3..] == [0x80, 0x8E];
    assert [0x80, 0x8E][1..] == [0x8E] && !StartsBidi([0x8E]) && !StartsBidi([0x80, 0x8E]);
    assert Completes(s) && s[0..] == s;
    StripIsIdempotentExactlyWhen(s);
  }

  // ---- which ids are recovered ----------------------------------------------------------------------

  /** The last custom emoji drawn as `:name:`. */
  function LastNamed(runs: seq<Run>, name: seq<Byte>): Option<Run> {
    if runs == [] then None
    else
      var later := LastNamed(runs[1..], name);
      if later.None? && runs[0].text == [COLON] + name + [COLON] then Some(runs[0]) else later
  }

  lemma SameShortcode(m: Markup, name: seq<Byte>)
    requires m.Markup?
    ensures m.Shortcode() == [COLON] + name + [COLON] <==> m.name == name
  {
    MiddleOf([COLON], m.name, name, [COLON]);
  }

  /** A name is known exactly when splitting the raw text draws it, and stands for the last emoji so drawn. */
  lemma {:induction false} HarvestIsLastDrawn(raw: seq<Byte>, name: seq<Byte>)
    ensures match LastNamed(Customs(raw), name)
            case None => name !in Harvest(raw)
            case Some(run) =>
              && name in Harvest(raw) && IsMarkupOf(name, Harvest(raw)[name])
              && CustomRun(CustomAt(Harvest(raw)[name])) == run
    decreases |raw|
  {
    if raw != [] {
      hide CustomAt;
      var n := CustomSize(raw);
      var rest := raw[if n == 0 then 1 else n..];
      HarvestIsLastDrawn(rest, name);
      if n > 0 {
        var m := CustomAt(raw);
        CustomSlice(raw);
        SameShortcode(m, name);
        var runs := [CustomRun(m)] + Customs(rest);
        assert runs[1..] == Customs(rest);
      }
    }
  }

  predicate StandsIn(text: seq<Byte>, raw: seq<Byte>) {
    exists p :: 0 <= p <= |raw| && text <= raw[p..]
  }

  lemma StandsBehind(text: seq<Byte>, raw: seq<Byte>, n: nat)
    requires n <= |raw| && StandsIn(text, raw[n..])
    ensures StandsIn(text, raw)
  {
    var p :| 0 <= p <= |raw[n..]| && text <= raw[n..][p..];
    assert raw[n..][p..] == raw[n + p..];
  }

  lemma StandsInFront(raw: seq<Byte>, n: nat)
    requires n <= |raw|
    ensures StandsIn(raw[..n], raw)
  {
    assert raw[0..] == raw;
  }

  /** What a name stands for stands in the raw text, letter by letter. */
  lemma {:induction false} HarvestStandsThere(raw: seq<Byte>, name: seq<Byte>)
    requires name in Harvest(raw)
    ensures StandsIn(Harvest(raw)[name], raw)
    decreases |raw|
  {
    hide CustomSize, StandsIn, CustomAt;
    var n := CustomSize(raw);
    var step := if n == 0 then 1 else n;
    if name in Harvest(raw[step..]) {
      HarvestStandsThere(raw[step..], name);
      StandsBehind(Harvest(raw[step..])[name], raw, step);
    } else {
      StandsInFront(raw, n);
    }
  }

  // ---- when the raw text comes back -------------------------------------------------------------------

  /** Every markup of `s` is the one its name stands for, and no other place of the text that Discord displays
      for `s` reads as the shortcode of a name. */
  predicate Unambiguous(s: seq<Byte>, markup: map<seq<Byte>, seq<Byte>>)
    decreases |s|
  {
    || s == []
    || match CustomAt(s)
       case Markup(_, name, _) =>
         CustomIsSpelled(s);
         name in markup && markup[name] == CustomAt(s).Spelled() && Unambiguous(s[CustomAt(s).Size()..], markup)
       case NoMarkup => ShortcodeAt(Unmarked(s)) !in markup && Unambiguous(s[1..], markup)
  }

  lemma ShortcodeRead(m: Markup, t: seq<Byte>)
    requires m.WellFormed()
    ensures ShortcodeAt(m.Shortcode() + t) == m.name && (m.Shortcode() + t)[|m.name| + 2..] == t
  {
    var d := m.Shortcode() + t;
    assert d[1..] == m.name + [COLON] + t;
    assert m.name + [COLON] <= d[1..];
    RunUntil(m.name, COLON, d[1..]);
  }

  lemma OtherMarkup(text: seq<Byte>, rest: seq<Byte>, s: seq<Byte>)
    requires CustomAt(text).Markup? && CustomAt(text).Spelled() == text && CustomAt(s).Markup?
    ensures text + rest == s ==> text == CustomAt(s).Spelled()
  {
    CustomIsSpelled(text);
    if text + rest == s { MatchedExactlyWhenSpelled(s, CustomAt(text)); }
  }

  lemma MarkupLeads(name: seq<Byte>, text: seq<Byte>)
    requires IsMarkupOf(name, text)
    ensures name != [] && text != [] && text[0] == LT
  {
    OnlyAngles(text);
    CustomIsSpelled(text);
  }

  lemma RestoredShortcode(m: Markup, u: seq<Byte>, markup: map<seq<Byte>, seq<Byte>>)
    requires m.WellFormed()
    ensures if m.name in markup then Restored(m.Shortcode() + u, markup) == markup[m.name] + Restored(u, markup)
            else Restored(m.Shortcode() + u, markup) != [] && Restored(m.Shortcode() + u, markup)[0] == COLON
  {
    ShortcodeRead(m, u);
    hide ShortcodeAt;
  }

  lemma MarkupIsFirst(s: seq<Byte>)
    requires CustomAt(s).Markup?
    ensures var m := CustomAt(s); var t := s[CustomSize(s)..];
            && m.WellFormed() && s == m.Spelled() + t && s != [] && s[0] == LT
            && Unmarked(s) == m.Shortcode() + Unmarked(t)
  {
    CustomIsSpelled(s);
    OnlyAngles(s);
    var m, t := CustomAt(s), s[CustomSize(s)..];
    hide CustomAt, Markup.WellFormed, Markup.Spelled, Markup.Shortcode;
    assert s == m.Spelled() + t;
  }

  lemma RestoresMarkup(s: seq<Byte>, markup: map<seq<Byte>, seq<Byte>>)
    requires IsHarvest(markup) && CustomAt(s).Markup?
    ensures var m := CustomAt(s); var t := s[CustomSize(s)..];
            Restored(Unmarked(s), markup) == s <==>
            m.name in markup && markup[m.name] == m.Spelled() && Restored(Unmarked(t), markup) == t
  {
    var m := CustomAt(s);
    var t := s[CustomSize(s)..];
    MarkupIsFirst(s);
    assert m.name in markup ==> IsMarkupOf(m.name, markup[m.name]);
    assert m.name in markup ==> var text := markup[m.name]; CustomAt(text).Markup? && CustomAt(text).Spelled() == text;
    hide *;
    RestoredShortcode(m, Unmarked(t), markup);
    if m.name in markup {
      OtherMarkup(markup[m.name], Restored(Unmarked(t), markup), s);
      SameTail(m.Spelled(), Restored(Unmarked(t), markup), t);
    }
  }

  lemma SameTail(a: seq<Byte>, b: seq<Byte>, c: seq<Byte>)
    ensures a + b == a + c <==> b == c
  {
    if a + b == a + c { assert (a + b)[|a|..] == b && (a + c)[|a|..] == c; }
  }

  lemma RestoresByte(s: seq<Byte>, markup: map<seq<Byte>, seq<Byte>>)
    requires IsHarvest(markup) && s != [] && !CustomAt(s).Markup?
    ensures Restored(Unmarked(s), markup) == s <==>
            ShortcodeAt(Unmarked(s)) !in markup && Restored(Unmarked(s[1..]), markup) == s[1..]
  {
    hide CustomAt;
    var u := Unmarked(s);
    var name := ShortcodeAt(u);
    assert u[1..] == Unmarked(s[1..]) && [s[0]] + s[1..] == s;
    if name in markup {
      MarkupLeads(name, markup[name]);
      assert Restored(u, markup)[0] == LT && s[0] == COLON;
    } else {
      SameTail([s[0]], Restored(u[1..], markup), s[1..]);
    }
  }

  /** Restoring rebuilds the raw text from its display form exactly when that form is unambiguous. */
  lemma {:induction false} RestoresExactlyWhen(s: seq<Byte>, markup: map<seq<Byte>, seq<Byte>>)
    requires IsHarvest(markup)
    ensures Restored(Unmarked(s), markup) == s <==> Unambiguous(s, markup)
    decreases |s|
  {
    if s != [] {
      if CustomAt(s).Markup? {
        RestoresMarkup(s, markup);
        RestoresExactlyWhen(s[CustomSize(s)..], markup);
      } else {
        RestoresByte(s, markup);
        RestoresExactlyWhen(s[1..], markup);
      }
    }
  }

  lemma DrawnLast(run: Run, name: seq<Byte>)
    requires run.text == [COLON] + name + [COLON]
    ensures LastNamed([run], name) == Some(run)
  {
    assert [run][1..] == [];
    assert LastNamed([], name) == None;
  }

  lemma MarkupBehind(lead: seq<Byte>, m: Markup)
    requires m.WellFormed() && NoAngle(lead)
    ensures Unmarked(lead + m.Spelled()) == lead + m.Shortcode() && Customs(lead + m.Spelled()) == [CustomRun(m)]
  {
    MatchedExactlyWhenSpelled(m.Spelled(), m);
    MarkupInFront(m.Spelled(), []);
    UnmarkedNothing();
    hide *;
    UnmarkedSkips(lead, m.Spelled());
    assert m.Spelled() + [] == m.Spelled();
  }

  lemma NameIsKnown(raw: seq<Byte>, m: Markup)
    requires m.Markup? && Customs(raw) == [CustomRun(m)]
    ensures m.name in Harvest(raw)
  {
    hide Customs, Harvest;
    DrawnLast(CustomRun(m), m.name);
    HarvestIsLastDrawn(raw, m.name);
  }

  lemma AmbiguousFirst(s: seq<Byte>, markup: map<seq<Byte>, seq<Byte>>)
    requires s != [] && s[0] != LT && ShortcodeAt(Unmarked(s)) in markup
    ensures !Unambiguous(s, markup)
  {
    OnlyAngles(s);
  }

  /** A text such as `:a<:a:1>`, displayed as `:a:a:`, does not come back: its first shortcode is the one rewritten. */
  lemma NameBeforeMarkupDoesNotComeBack(m: Markup)
    requires m.WellFormed()
    ensures var raw := [COLON] + m.name + m.Spelled(); Restored(Unmarked(raw), Harvest(raw)) != raw
  {
    var lead := [COLON] + m.name;
    var raw := lead + m.Spelled();
    assert NoAngle(lead);
    assert lead + m.Shortcode() == m.Shortcode() + (m.name + [COLON]);
    MarkupBehind(lead, m);
    ShortcodeRead(m, m.name + [COLON]);
    hide *;
    NameIsKnown(raw, m);
    assert raw[0] == COLON;
    AmbiguousFirst(raw, Harvest(raw));
    HarvestIsHarvest(raw);
    RestoresExactlyWhen(raw, Harvest(raw));
  }

  // ---- the loops ---------------------------------------------------------------------------------

  method StripBidiControls(s: seq<Byte>) returns (out: seq<Byte>)
    ensures out == Stripped(s)
  {
    out := [];
    var i := 0;
    assert s[0..] == s;
    while i < |s|
      invariant i <= |s| && out + Stripped(s[i..]) == Stripped(s)
    {
      ghost var rest := s[i..];
      if s[i] == 0xE2 && i + 2 < |s| {
        var b1, b2 := s[i + 1], s[i + 2];
        assert rest[1] == b1 && rest[2] == b2;
        if || (b1 == 0x80 && (b2 == 0x8E || b2 == 0x8F || 0xAA <= b2 <= 0xAE))
           || (b1 == 0x81 && 0xA6 <= b2 <= 0xA9) {
          assert rest[3..] == s[i + 3..];
          i := i + 3;
          continue;
        }
      }
      assert rest[1..] == s[i + 1..];
      BytesAssoc(out, [s[i]], Stripped(s[i + 1..]));
      out := out + [s[i]];
      i := i + 1;
    }
  }

  function HarvestFrom(raw: seq<Byte>, p: nat): map<seq<Byte>, seq<Byte>>
    requires p <= |raw|
  {
    Harvest(raw[p..])
  }

  function CustomFrom(s: seq<Byte>, p: nat): Markup
    requires p <= |s|
  {
    CustomAt(s[p..])
  }

  ghost predicate HarvestedSoFar(raw: seq<Byte>, markup: map<seq<Byte>, seq<Byte>>, p: nat)
    requires p <= |raw|
  {
    markup + HarvestFrom(raw, p) == Harvest(raw)
  }

  lemma HarvestOver(raw: seq<Byte>, p: nat, n: nat, name: seq<Byte>)
    requires p + n <= |raw| && CustomFrom(raw, p).Markup? && n == CustomFrom(raw, p).Size() && name == CustomFrom(raw, p).name
    ensures p + n <= |raw| && HarvestFrom(raw, p) == map[name := Cut(raw, p, n)] + HarvestFrom(raw, p + n)
  {
    hide CustomAt;
    var rest := raw[p..];
    assert n == CustomSize(rest) > 0;
    assert Harvest(rest) == map[name := rest[..n]] + Harvest(rest[n..]);
    hide Harvest, CustomSize;
    assert rest[n..] == raw[p + n..] && rest[..n] == raw[p..p + n];
  }

  lemma HarvestSkip(raw: seq<Byte>, p: nat)
    requires p < |raw| && !CustomFrom(raw, p).Markup?
    ensures HarvestFrom(raw, p) == HarvestFrom(raw, p + 1)
  {
    hide CustomAt;
    assert raw[p..][1..] == raw[p + 1..];
  }

  lemma MergeNext<K, V>(m: map<K, V>, k: K, v: V, n: map<K, V>)
    ensures m + (map[k := v] + n) == m[k := v] + n
  {
  }

  lemma HarvestEnds(raw: seq<Byte>, markup: map<seq<Byte>, seq<Byte>>)
    ensures HarvestedSoFar(raw, markup, |raw|) ==> markup == Harvest(raw)
    ensures HarvestedSoFar(raw, map[], 0)
  {
    HarvestBounds(raw);
    hide Harvest, HarvestFrom;
    MergeNothing(markup);
    MergeNothing(Harvest(raw));
  }

  lemma HarvestBounds(raw: seq<Byte>)
    ensures HarvestFrom(raw, 0) == Harvest(raw) && HarvestFrom(raw, |raw|) == map[]
  {
    assert raw[0..] == raw && raw[|raw|..] == [];
  }

  lemma MergeNothing<K, V>(m: map<K, V>)
    ensures m + map[] == m && map[] + m == m
  {
  }

  method HarvestTurn(raw: seq<Byte>, markup: map<seq<Byte>, seq<Byte>>, p: nat)
    returns (markup': map<seq<Byte>, seq<Byte>>, p': nat)
    requires p < |raw| && HarvestedSoFar(raw, markup, p)
    ensures p < p' <= |raw| && HarvestedSoFar(raw, markup', p')
  {
    hide CustomFrom, CustomAt, HarvestFrom;
    var n, name := CustomAtCursor(raw, p);
    if n > 0 {
      HarvestOver(raw, p, n, name);
      MergeNext(markup, name, Cut(raw, p, n), HarvestFrom(raw, p + n));
      markup', p' := markup[name := Cut(raw, p, n)], p + n;
    } else {
      HarvestSkip(raw, p);
      markup', p' := markup, p + 1;
    }
  }

  method CustomAtCursor(s: seq<Byte>, p: nat) returns (n: nat, name: seq<Byte>)
    requires p <= |s|
    ensures p + n <= |s| && n == CustomFrom(s, p).Size() && (n > 0 <==> CustomFrom(s, p).Markup?)
    ensures n > 0 ==> name == CustomFrom(s, p).name
  {
    var id;
    n, name, id := MatchCustom(s, p);
  }

  method HarvestMarkup(raw: seq<Byte>) returns (markup: map<seq<Byte>, seq<Byte>>)
    ensures markup == Harvest(raw)
  {
    markup := map[];
    var p := 0;
    HarvestEnds(raw, markup);
    hide *;
    while p != |raw|
      invariant p <= |raw| && HarvestedSoFar(raw, markup, p)
      decreases |raw| - p
    {
      markup, p := HarvestTurn(raw, markup, p);
    }
    HarvestEnds(raw, markup);
  }

  function ShortcodeOf(d: seq<Byte>, p: nat): (name: seq<Byte>)
    requires p <= |d|
    ensures name != [] ==> p + |name| + 2 <= |d|
  {
    ShortcodeAt(d[p..])
  }

  /** The shortcode at `p`, given where the name run behind the colon ends. */
  lemma ShortcodeFrom(d: seq<Byte>, p: nat, q: nat)
    requires p < |d| && d[p] == COLON && q == p + 1 + NameRun(d[p + 1..])
    ensures q <= |d|
    ensures ShortcodeOf(d, p) == if q < |d| && d[q] == COLON then d[p + 1..q] else []
  {
    assert d[p..][1..] == d[p + 1..];
    assert d[p + 1..][..q - p - 1] == d[p + 1..q];
    assert q < |d| ==> d[q] == d[p..][q - p];
  }

  ghost predicate RestoredSoFar(d: seq<Byte>, markup: map<seq<Byte>, seq<Byte>>, out: seq<Byte>, p: nat) {
    p <= |d| && out + Restored(d[p..], markup) == Restored(d, markup)
  }

  lemma RestoredName(d: seq<Byte>, markup: map<seq<Byte>, seq<Byte>>, out: seq<Byte>, p: nat, name: seq<Byte>)
    requires p < |d| && RestoredSoFar(d, markup, out, p)
    requires name == ShortcodeOf(d, p) != [] && name in markup
    ensures RestoredSoFar(d, markup, out + markup[name], p + |name| + 2)
  {
    hide ShortcodeAt;
    assert d[p..][|name| + 2..] == d[p + |name| + 2..];
    BytesAssoc(out, markup[name], Restored(d[p + |name| + 2..], markup));
  }

  lemma RestoredByte(d: seq<Byte>, markup: map<seq<Byte>, seq<Byte>>, out: seq<Byte>, p: nat)
    requires p < |d| && RestoredSoFar(d, markup, out, p)
    requires ShortcodeOf(d, p) == [] || ShortcodeOf(d, p) !in markup
    ensures RestoredSoFar(d, markup, out + [d[p]], p + 1)
  {
    hide ShortcodeAt;
    assert d[p..][1..] == d[p + 1..];
    BytesAssoc(out, [d[p]], Restored(d[p + 1..], markup));
  }

  lemma RestoredEnds(d: seq<Byte>, markup: map<seq<Byte>, seq<Byte>>, out: seq<Byte>)
    ensures RestoredSoFar(d, markup, out, |d|) ==> out == Restored(d, markup)
    ensures RestoredSoFar(d, markup, [], 0)
  {
    assert d[0..] == d;
  }

  /** The shortcode at `p`, found by moving a cursor over the name. */
  method FindShortcode(d: seq<Byte>, p: nat) returns (name: seq<Byte>)
    requires p < |d|
    ensures name == ShortcodeOf(d, p)
  {
    hide ShortcodeOf, NameRun;
    if d[p] != COLON {
      NoColon(d, p);
      return [];
    }
    var q := SkipName(d, p + 1);
    ShortcodeFrom(d, p, q);
    if q != |d| && d[q] == COLON && q > p + 1 { return d[p + 1..q]; }
    return [];
  }

  /** One turn of the loop: a known shortcode becomes its markup, any other byte is kept. */
  method RestoreStep(d: seq<Byte>, markup: map<seq<Byte>, seq<Byte>>, out: seq<Byte>, p: nat)
    returns (out': seq<Byte>, p': nat)
    requires p < |d| && RestoredSoFar(d, markup, out, p)
    ensures p < p' <= |d| && RestoredSoFar(d, markup, out', p')
  {
    hide *;
    var name := FindShortcode(d, p);
    if name != [] && name in markup {
      RestoredName(d, markup, out, p, name);
      out', p' := out + markup[name], p + |name| + 2;
    } else {
      RestoredByte(d, markup, out, p);
      out', p' := out + [d[p]], p + 1;
    }
  }

  lemma NoColon(d: seq<Byte>, p: nat)
    requires p < |d| && d[p] != COLON
    ensures ShortcodeOf(d, p) == []
  {
  }

  method RestoreCustomMarkup(display: seq<Byte>, raw: seq<Byte>) returns (out: seq<Byte>)
    ensures out == Restored(display, Harvest(raw))
  {
    var markup := HarvestMarkup(raw);
    if markup == map[] {
      NothingRestored(display);
      return display;
    }
    out := [];
    var p := 0;
    RestoredEnds(display, markup, out);
    hide *;
    while p != |display|
      invariant p <= |display| && RestoredSoFar(display, markup, out, p)
      decreases |display| - p
    {
      out, p := RestoreStep(display, markup, out, p);
    }
    RestoredEnds(display, markup, out);
  }

  /** The body field of a parsed notification. */
  method NotificationBody(display: seq<Byte>, content: seq<Byte>) returns (body: seq<Byte>)
    ensures body == Stripped(Restored(display, Harvest(content)))
    ensures NoAngle(display) ==> JoinText(Split([], body)) == Stripped(display)
  {
    if NoAngle(display) { FallbackTextIsKept(display, content); }
    var restored := RestoreCustomMarkup(display, content);
    body := StripBidiControls(restored);
  }
}
