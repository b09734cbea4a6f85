/** What an emoji is, as a grammar over codepoints: a match is the longest prefix the grammar has. */
module EmojiGrammar {
  import opened Common
  import opened Emoji

  /** The first `k` bytes of `s` decode to `cps`. */
  predicate Reads(s: seq<Byte>, k: nat, cps: seq<nat>)
    decreases |cps|
  {
    if cps == [] then k == 0
    else
      match Decode(s)
      case Invalid => false
      case Codepoint(n, cp) => cp == cps[0] && n <= k && Reads(s[n..], k - n, cps[1..])
  }

  /** Modifiers, and pictographs joined by ZWJ, in any order and number. */
  predicate Extends(cps: seq<nat>)
    decreases |cps|
  {
    || cps == []
    || (IsModifier(cps[0]) && Extends(cps[1..]))
    || (|cps| > 1 && cps[0] == ZWJ && IsPictograph(cps[1]) && Extends(cps[2..]))
  }

  predicate IsKeycap(cps: seq<nat>) {
    |cps| > 1 && IsKeycapBase(cps[0]) && (cps[1..] == [KEYCAP] || cps[1..] == [VS16, KEYCAP])
  }

  predicate IsFlag(cps: seq<nat>) {
    0 < |cps| <= 2 && IsRegionalIndicator(cps[0]) && (|cps| == 2 ==> IsRegionalIndicator(cps[1]))
  }

  predicate IsExtended(cps: seq<nat>) {
    || (|cps| > 0 && AlwaysEmoji(cps[0]) && !IsRegionalIndicator(cps[0]) && Extends(cps[1..]))
    || (|cps| > 1 && Vs16Gated(cps[0]) && cps[1] == VS16 && Extends(cps[2..]))
  }

  predicate IsEmoji(cps: seq<nat>) {
    IsKeycap(cps) || IsFlag(cps) || IsExtended(cps)
  }

  /** A keycap is recorded with its VS16 whether or not the text has it. */
  function Recorded(cps: seq<nat>): seq<nat> {
    if IsKeycap(cps) then [cps[0], VS16, KEYCAP] else cps
  }

  lemma {:induction false} ReadsWithin(s: seq<Byte>, k: nat, cps: seq<nat>)
    requires Reads(s, k, cps)
    ensures k <= |s|
    decreases |cps|
  {
    if cps != [] {
      var n := Decode(s).size;
      ReadsWithin(s[n..], k - n, cps[1..]);
    }
  }

  lemma {:induction false} ReadsOneWay(s: seq<Byte>, k: nat, a: seq<nat>, b: seq<nat>)
    requires Reads(s, k, a) && Reads(s, k, b)
    ensures a == b
    decreases |a|
  {
    if a != [] && b != [] {
      var n := Decode(s).size;
      ReadsOneWay(s[n..], k - n, a[1..], b[1..]);
      assert a == [a[0]] + a[1..] && b == [b[0]] + b[1..];
    }
  }

  lemma ReadsOnto(s: seq<Byte>, n: nat, cp: nat, k: nat, cps: seq<nat>)
    requires Decode(s) == Codepoint(n, cp) && Reads(s[n..], k, cps)
    ensures Reads(s, n + k, [cp] + cps)
  {
    assert ([cp] + cps)[1..] == cps;
  }

  /** Decoding looks at no byte beyond the codepoint. */
  lemma DecodePrefix(s: seq<Byte>, m: nat)
    requires m <= |s|
    ensures Decode(s[..m]).Codepoint? ==> Decode(s[..m]) == Decode(s)
    ensures Decode(s).Codepoint? && Decode(s).size <= m ==> Decode(s[..m]) == Decode(s)
  {
    if m > 0 {
      var t := s[..m];
      var (n, first) := Lead(s[0]);
      assert t[0] == s[0];
      if 1 <= n <= m {
        assert Continued(t, n) <==> Continued(s, n) by { assert forall i :: 1 <= i < n ==> t[i] == s[i]; }
        BitsOfPrefix(first, t, s, n);
      }
    }
  }

  lemma {:induction false} ReadsPrefix(s: seq<Byte>, m: nat, k: nat, cps: seq<nat>)
    requires m <= |s|
    ensures Reads(s[..m], k, cps) <==> k <= m && Reads(s, k, cps)
    decreases |cps|
  {
    if cps != [] {
      DecodePrefix(s, m);
      if Decode(s).Codepoint? && Decode(s).size <= k && Decode(s).size <= m {
        var n := Decode(s).size;
        assert s[..m][n..] == s[n..][..m - n];
        ReadsPrefix(s[n..], m - n, k - n, cps[1..]);
      }
      if Reads(s[..m], k, cps) { ReadsWithin(s[..m], k, cps); }
    }
  }

  lemma ReadsOntoTwo(s: seq<Byte>, n: nat, m: nat, more: seq<nat>, k: nat, cps: seq<nat>)
    requires |more| == 2 && n <= m <= |s| && Decode(s) == Codepoint(n, more[0])
    requires Decode(s[n..]) == Codepoint(m - n, more[1]) && Reads(s[m..], k, cps)
    ensures Reads(s, m + k, more + cps)
  {
    hide Decode, Reads;
    assert s[n..][m - n..] == s[m..];
    ReadsOnto(s[n..], m - n, more[1], k, cps);
    ReadsOnto(s, n, more[0], m - n + k, [more[1]] + cps);
    assert [more[0]] + ([more[1]] + cps) == more + cps;
  }

  lemma ExtendsOnto(cp: nat, cps: seq<nat>)
    requires IsModifier(cp) && Extends(cps)
    ensures Extends([cp] + cps)
  {
    assert ([cp] + cps)[1..] == cps;
  }

  lemma ExtendsOntoTwo(more: seq<nat>, cps: seq<nat>)
    requires |more| == 2 && more[0] == ZWJ && IsPictograph(more[1]) && Extends(cps)
    ensures Extends(more + cps)
  {
    assert (more + cps)[2..] == cps;
  }

  /** An extender is a modifier, or ZWJ and a pictograph, and is decoded as that. */
  lemma ExtenderIs(s: seq<Byte>)
    requires Extender(s).Emoji?
    ensures var n, m, more := Decode(s).size, Extender(s).size, Extender(s).cps;
            && Decode(s).Codepoint? && n <= m <= |s|
            && (more == [Decode(s).cp] ==> m == n && IsModifier(more[0]))
            && (more != [Decode(s).cp] ==>
                  |more| == 2 && more[0] == ZWJ == Decode(s).cp && IsPictograph(more[1])
                  && Decode(s[n..]) == Codepoint(m - n, more[1]))
  {
    hide Decode, IsModifier, IsPictograph;
  }

  lemma ExtenderReads(s: seq<Byte>, k: nat, cps: seq<nat>)
    requires Extender(s).Emoji? && Extends(cps) && Reads(s[Extender(s).size..], k, cps)
    ensures Extends(Extender(s).cps + cps) && Reads(s, Extender(s).size + k, Extender(s).cps + cps)
  {
    hide *;
    ExtenderIs(s);
    var n, cp := Decode(s).size, Decode(s).cp;
    var m, more := Extender(s).size, Extender(s).cps;
    if more == [cp] {
      ReadsOnto(s, n, cp, k, cps);
      ExtendsOnto(cp, cps);
    } else {
      ReadsOntoTwo(s, n, m, more, k, cps);
      ExtendsOntoTwo(more, cps);
    }
  }

  lemma {:induction false} ExtensionReads(s: seq<Byte>)
    ensures Extends(ExtensionAt(s).cps) && Reads(s, ExtensionAt(s).size, ExtensionAt(s).cps)
    decreases |s|
  {
    hide Extender, Decode;
    match Extender(s)
    case NoEmoji =>
    case Emoji(m, _) =>
      ExtensionReads(s[m..]);
      ExtenderReads(s, ExtensionAt(s[m..]).size, ExtensionAt(s[m..]).cps);
  }

  lemma {:induction false} ExtensionIsLongest(s: seq<Byte>, k: nat, cps: seq<nat>)
    requires Extends(cps) && Reads(s, k, cps)
    ensures k <= ExtensionAt(s).size
    decreases |cps|
  {
    if cps != [] {
      var n := Decode(s).size;
      if IsModifier(cps[0]) {
        ExtensionIsLongest(s[n..], k - n, cps[1..]);
      } else {
        var n3 := Decode(s[n..]).size;
        assert cps[1..][1..] == cps[2..] && s[n..][n3..] == s[n + n3..];
        ExtensionIsLongest(s[n + n3..], k - n - n3, cps[2..]);
      }
    }
  }

  /** `cps` is the longest emoji that `s` starts with, and takes `n` bytes. */
  ghost predicate IsLongestEmoji(s: seq<Byte>, n: nat, cps: seq<nat>) {
    && IsEmoji(cps) && Reads(s, n, cps)
    && forall k: nat, c: seq<nat> :: IsEmoji(c) && Reads(s, k, c) ==> k <= n
  }

  /** The codepoints as the text spells them. */
  function Spelling(s: seq<Byte>): seq<nat>
    requires EmojiAt(s).Emoji?
  {
    var e := EmojiAt(s);
    var n := Decode(s).size;
    if IsKeycap(e.cps) && Decode(s[n..]) == Codepoint(e.size - n, KEYCAP) then [e.cps[0], KEYCAP] else e.cps
  }

  /** The kinds of first codepoint are told apart. */
  lemma FirstCodepoints(cp: nat)
    ensures IsKeycapBase(cp) ==> !IsRegionalIndicator(cp) && !IsPictograph(cp)
    ensures IsRegionalIndicator(cp) ==> !Vs16Gated(cp)
    ensures AlwaysEmoji(cp) ==> !Vs16Gated(cp)
    ensures !IsModifier(ZWJ) && !IsKeycapBase(VS16)
  {
  }

  lemma ReadsOne(s: seq<Byte>, k: nat, cp: nat)
    ensures Reads(s, k, [cp]) <==> Decode(s) == Codepoint(k, cp)
  {
    hide Decode;
    if Decode(s).Codepoint? {
      assert [cp][1..] == [];
    }
  }

  lemma ReadsTwo(s: seq<Byte>, k: nat, a: nat, b: nat)
    ensures Reads(s, k, [a, b]) <==>
            Decode(s).Codepoint? && Decode(s).cp == a && Decode(s).size <= k
            && Decode(s[Decode(s).size..]) == Codepoint(k - Decode(s).size, b)
  {
    hide Decode;
    if Decode(s).Codepoint? && Decode(s).size <= k {
      assert [a, b][1..] == [b];
      ReadsOne(s[Decode(s).size..], k - Decode(s).size, b);
    }
  }

  lemma MatchIsKeycap(s: seq<Byte>)
    requires EmojiAt(s).Emoji? && IsKeycapBase(Decode(s).cp)
    ensures IsEmoji(Spelling(s)) && Reads(s, EmojiAt(s).size, Spelling(s))
    ensures Recorded(Spelling(s)) == EmojiAt(s).cps
  {
    hide Decode, IsFlag, IsExtended, IsKeycapBase;
    var n, cp := Decode(s).size, Decode(s).cp;
    var e := EmojiAt(s);
    assert e == KeycapAfter(n, cp, s[n..]);
    if Decode(s[n..]) == Codepoint(e.size - n, KEYCAP) {
      assert Spelling(s) == [cp, KEYCAP];
      ReadsTwo(s, e.size, cp, KEYCAP);
    } else {
      assert Spelling(s) == [cp, VS16, KEYCAP];
      ReadsTwo(s[n..], e.size - n, VS16, KEYCAP);
      ReadsOnto(s, n, cp, e.size - n, [VS16, KEYCAP]);
      assert [cp] + [VS16, KEYCAP] == [cp, VS16, KEYCAP];
    }
  }

  lemma MatchIsFlag(s: seq<Byte>)
    requires EmojiAt(s).Emoji? && IsRegionalIndicator(Decode(s).cp)
    ensures IsEmoji(Spelling(s)) && Reads(s, EmojiAt(s).size, Spelling(s))
    ensures Recorded(Spelling(s)) == EmojiAt(s).cps
  {
    hide Decode, IsExtended;
    var n, cp := Decode(s).size, Decode(s).cp;
    var e := EmojiAt(s);
    FirstCodepoints(cp);
    assert e == FlagAfter(n, cp, s[n..]);
    if |e.cps| == 2 { ReadsTwo(s, e.size, cp, e.cps[1]); } else { ReadsOne(s, e.size, cp); }
  }

  /** A match that is neither keycap nor flag, by how its first codepoint takes it up. */
  lemma MatchAfterFirst(s: seq<Byte>)
    requires EmojiAt(s).Emoji? && !IsKeycapBase(Decode(s).cp) && !IsRegionalIndicator(Decode(s).cp)
    ensures var n, cp := Decode(s).size, Decode(s).cp;
            && Decode(s).Codepoint? && n <= |s|
            && EmojiAt(s) == (if AlwaysEmoji(cp) then Prepend(n, [cp], ExtensionAt(s[n..])) else GatedAfter(n, cp, s[n..]))
            && IsPictograph(cp)
  {
    hide Decode, IsKeycapBase, IsRegionalIndicator, AlwaysEmoji, Vs16Gated, ExtensionAt, GatedAfter, Prepend;
  }

  lemma AlwaysIsEmoji(cp: nat, cps: seq<nat>)
    requires AlwaysEmoji(cp) && !IsRegionalIndicator(cp) && Extends(cps)
    ensures IsEmoji([cp] + cps)
  {
    assert ([cp] + cps)[1..] == cps;
  }

  lemma AlwaysReads(s: seq<Byte>, n: nat, cp: nat)
    requires Decode(s) == Codepoint(n, cp) && AlwaysEmoji(cp) && !IsRegionalIndicator(cp) && n <= |s|
    ensures var e := Prepend(n, [cp], ExtensionAt(s[n..])); e.cps[0] == cp && IsEmoji(e.cps) && Reads(s, e.size, e.cps)
  {
    var x := ExtensionAt(s[n..]);
    assert Prepend(n, [cp], x) == Emoji(n + x.size, [cp] + x.cps);
    hide *;
    ExtensionReads(s[n..]);
    AlwaysIsEmoji(cp, x.cps);
    ReadsOnto(s, n, cp, x.size, x.cps);
  }

  /** VS16 and what extends it, as a gated pictograph needs them. */
  function GatedTail(s: seq<Byte>): (e: Matched)
    requires Decode(s).Codepoint?
    ensures e.Emoji?
  {
    Prepend(Decode(s).size, [VS16], ExtensionAt(s[Decode(s).size..]))
  }

  predicate IsGatedTail(cps: seq<nat>) {
    cps != [] && cps[0] == VS16 && Extends(cps[1..])
  }

  lemma GatedTailReads(s: seq<Byte>)
    requires Decode(s).Codepoint? && Decode(s).cp == VS16
    ensures IsGatedTail(GatedTail(s).cps) && Reads(s, GatedTail(s).size, GatedTail(s).cps)
  {
    var m := Decode(s).size;
    var x := ExtensionAt(s[m..]);
    hide Decode, ExtensionAt, Reads, Extends;
    ExtensionReads(s[m..]);
    ReadsOnto(s, m, VS16, x.size, x.cps);
    assert ([VS16] + x.cps)[1..] == x.cps;
  }

  lemma GatedIsEmoji(n: nat, cp: nat, s: seq<Byte>)
    requires Vs16Gated(cp) && GatedAfter(n, cp, s).Emoji?
    ensures var e := GatedAfter(n, cp, s); e.cps != [] && e.cps[0] == cp && IsEmoji(e.cps)
  {
    GatedIs(n, cp, s);
    GatedTailReads(s);
    var cps := GatedTail(s).cps;
    hide GatedAfter, GatedTail, Extends, Reads;
    assert ([cp] + cps)[2..] == cps[1..];
  }

  lemma GatedReads(s: seq<Byte>, n: nat, cp: nat)
    requires Decode(s) == Codepoint(n, cp) && n <= |s| && GatedAfter(n, cp, s[n..]).Emoji?
    ensures var e := GatedAfter(n, cp, s[n..]); Reads(s, e.size, e.cps)
  {
    var t := s[n..];
    GatedIs(n, cp, t);
    hide *;
    GatedTailReads(t);
    ReadsOnto(s, n, cp, GatedTail(t).size, GatedTail(t).cps);
  }

  lemma GatedIs(n: nat, cp: nat, s: seq<Byte>)
    requires GatedAfter(n, cp, s).Emoji?
    ensures Decode(s).Codepoint? && Decode(s).cp == VS16
    ensures GatedAfter(n, cp, s) == Emoji(n + GatedTail(s).size, [cp] + GatedTail(s).cps)
  {
    hide Decode, ExtensionAt;
    var x := ExtensionAt(s[Decode(s).size..]);
    assert [cp, VS16] + x.cps == [cp] + ([VS16] + x.cps);
  }

  /** The codepoints of such a match are an emoji, and what the text reads as. */
  lemma ExtendedReads(s: seq<Byte>)
    requires EmojiAt(s).Emoji? && !IsKeycapBase(Decode(s).cp) && !IsRegionalIndicator(Decode(s).cp)
    ensures var e := EmojiAt(s); e.cps != [] && e.cps[0] == Decode(s).cp && IsEmoji(e.cps) && Reads(s, e.size, e.cps)
  {
    var n, cp := Decode(s).size, Decode(s).cp;
    MatchAfterFirst(s);
    assert AlwaysEmoji(cp) || Vs16Gated(cp);
    hide *;
    if AlwaysEmoji(cp) {
      AlwaysReads(s, n, cp);
    } else {
      GatedIsEmoji(n, cp, s[n..]);
      GatedReads(s, n, cp);
    }
  }

  lemma MatchIsExtended(s: seq<Byte>)
    requires EmojiAt(s).Emoji? && !IsKeycapBase(Decode(s).cp) && !IsRegionalIndicator(Decode(s).cp)
    ensures IsEmoji(Spelling(s)) && Reads(s, EmojiAt(s).size, Spelling(s))
    ensures Recorded(Spelling(s)) == EmojiAt(s).cps
  {
    hide *;
    ExtendedReads(s);
    NotKeycap(EmojiAt(s).cps);
    AsSpelled(s);
  }

  lemma NotKeycap(cps: seq<nat>)
    ensures cps != [] && !IsKeycapBase(cps[0]) ==> !IsKeycap(cps)
  {
  }

  lemma AsSpelled(s: seq<Byte>)
    ensures EmojiAt(s).Emoji? && !IsKeycap(EmojiAt(s).cps) ==>
              Spelling(s) == EmojiAt(s).cps && Recorded(EmojiAt(s).cps) == EmojiAt(s).cps
  {
    hide IsKeycap, EmojiAt;
  }

  lemma MatchIsEmoji(s: seq<Byte>)
    requires EmojiAt(s).Emoji?
    ensures IsEmoji(Spelling(s)) && Reads(s, EmojiAt(s).size, Spelling(s))
    ensures Recorded(Spelling(s)) == EmojiAt(s).cps
  {
    assert Decode(s).Codepoint?;
    hide *;
    if IsKeycapBase(Decode(s).cp) {
      MatchIsKeycap(s);
    } else if IsRegionalIndicator(Decode(s).cp) {
      MatchIsFlag(s);
    } else {
      MatchIsExtended(s);
    }
  }

  lemma KeycapIsMatched(s: seq<Byte>, k: nat, cps: seq<nat>)
    requires IsKeycap(cps) && Decode(s).Codepoint? && Decode(s).cp == cps[0] && Decode(s).size <= k
    requires Reads(s[Decode(s).size..], k - Decode(s).size, cps[1..])
    ensures EmojiAt(s).Emoji? && k == EmojiAt(s).size
  {
    hide Decode, IsKeycapBase, Reads, IsRegionalIndicator, AlwaysEmoji, Vs16Gated;
    var t, left, rest := s[Decode(s).size..], k - Decode(s).size, cps[1..];
    if rest == [KEYCAP] { ReadsOne(t, left, KEYCAP); } else { ReadsTwo(t, left, VS16, KEYCAP); }
  }

  lemma FlagIsMatched(s: seq<Byte>, k: nat, cps: seq<nat>)
    requires IsFlag(cps) && Decode(s).Codepoint? && Decode(s).cp == cps[0] && Decode(s).size <= k
    requires Reads(s[Decode(s).size..], k - Decode(s).size, cps[1..])
    ensures EmojiAt(s).Emoji? && k <= EmojiAt(s).size
  {
    FirstCodepoints(cps[0]);
    hide Decode, IsKeycapBase, Reads, IsRegionalIndicator, AlwaysEmoji, Vs16Gated;
    var t, left := s[Decode(s).size..], k - Decode(s).size;
    if |cps| == 2 { ReadsOne(t, left, cps[1]); } else { ReadsNone(t, left); }
  }

  lemma ExtendedIsMatched(s: seq<Byte>, k: nat, cps: seq<nat>)
    requires IsExtended(cps) && Decode(s).Codepoint? && Decode(s).cp == cps[0] && Decode(s).size <= k
    requires !IsRegionalIndicator(cps[0])
    requires Reads(s[Decode(s).size..], k - Decode(s).size, cps[1..])
    ensures EmojiAt(s).Emoji? && k <= EmojiAt(s).size
  {
    FirstCodepoints(cps[0]);
    var t, left := s[Decode(s).size..], k - Decode(s).size;
    hide Decode, IsKeycapBase, Reads, IsRegionalIndicator, AlwaysEmoji, Vs16Gated, ExtensionAt;
    if AlwaysEmoji(cps[0]) { ExtensionIsLongest(t, left, cps[1..]); } else { GatedIsLongest(Decode(s).size, cps[0], t, left, cps[1..]); }
  }

  lemma GatedIsLongest(n: nat, cp: nat, s: seq<Byte>, k: nat, cps: seq<nat>)
    requires cps != [] && cps[0] == VS16 && Extends(cps[1..]) && Reads(s, k, cps)
    ensures GatedAfter(n, cp, s).Emoji? && n + k <= GatedAfter(n, cp, s).size
  {
    hide Decode, Reads, Extends, ExtensionAt;
    ReadsFirst(s, k, cps);
    var m := Decode(s).size;
    ExtensionIsLongest(s[m..], k - m, cps[1..]);
  }

  lemma EmojiIsMatched(s: seq<Byte>, k: nat, cps: seq<nat>)
    requires IsEmoji(cps) && Reads(s, k, cps)
    ensures EmojiAt(s).Emoji? && k <= EmojiAt(s).size
  {
    FirstCodepoints(cps[0]);
    assert cps != [] && (IsExtended(cps) ==> !IsRegionalIndicator(cps[0]));
    ReadsFirst(s, k, cps);
    hide IsKeycap, IsFlag, IsExtended, Decode, Reads, EmojiAt;
    if IsKeycap(cps) {
      KeycapIsMatched(s, k, cps);
    } else if IsFlag(cps) {
      FlagIsMatched(s, k, cps);
    } else {
      ExtendedIsMatched(s, k, cps);
    }
  }

  lemma ReadsNone(s: seq<Byte>, k: nat)
    ensures Reads(s, k, []) <==> k == 0
  {
  }

  lemma ReadsFirst(s: seq<Byte>, k: nat, cps: seq<nat>)
    requires cps != [] && Reads(s, k, cps)
    ensures Decode(s).Codepoint? && Decode(s).cp == cps[0] && Decode(s).size <= k
    ensures Reads(s[Decode(s).size..], k - Decode(s).size, cps[1..])
  {
  }

  /** A match is the longest emoji the text starts with; without one the text starts with none. */
  lemma LongestMatch(s: seq<Byte>)
    ensures EmojiAt(s).Emoji? <==> exists k: nat, c: seq<nat> :: IsEmoji(c) && Reads(s, k, c)
    ensures EmojiAt(s).Emoji? ==>
              IsLongestEmoji(s, EmojiAt(s).size, Spelling(s)) && EmojiAt(s).cps == Recorded(Spelling(s))
  {
    hide IsEmoji, EmojiAt, Spelling;
    if EmojiAt(s).Emoji? {
      MatchIsEmoji(s);
      assert exists k: nat, c: seq<nat> :: IsEmoji(c) && Reads(s, k, c);
    }
    forall k: nat, c: seq<nat> | IsEmoji(c) && Reads(s, k, c) ensures EmojiAt(s).Emoji? && k <= EmojiAt(s).size {
      EmojiIsMatched(s, k, c);
    }
  }

  /** The longest emoji is one thing, so how a text is matched depends on nothing behind it. */
  lemma MatchOfPrefix(s: seq<Byte>, m: nat)
    requires m <= |s|
    ensures EmojiAt(s) == NoEmoji ==> EmojiAt(s[..m]) == NoEmoji
    ensures EmojiAt(s).Emoji? && EmojiAt(s).size <= m ==> EmojiAt(s[..m]) == EmojiAt(s)
  {
    hide IsEmoji, Reads, EmojiAt, Spelling, Recorded;
    var t := s[..m];
    if EmojiAt(t).Emoji? {
      MatchIsEmoji(t);
      ReadsPrefix(s, m, EmojiAt(t).size, Spelling(t));
      EmojiIsMatched(s, EmojiAt(t).size, Spelling(t));
    }
    if EmojiAt(s).Emoji? && EmojiAt(s).size <= m {
      MatchIsEmoji(s);
      ReadsPrefix(s, m, EmojiAt(s).size, Spelling(s));
      EmojiIsMatched(t, EmojiAt(s).size, Spelling(s));
      ReadsOneWay(s, EmojiAt(s).size, Spelling(s), Spelling(t));
    }
  }
}
