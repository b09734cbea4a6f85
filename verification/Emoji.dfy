/** Emoji detection in notification text: UTF-8 decoding, the custom-emoji markup, emoji sequences,
    the split into runs, and the keys and URLs derived from them.  Text is bytes; a specification
    function looks at the text from the current position on. */
module Emoji {
  import opened Common

  const LT: Byte := 0x3C
  const GT: Byte := 0x3E
  const COLON: Byte := 0x3A
  const UNDERSCORE: Byte := 0x5F
  const LOWER_A: Byte := 0x61
  const DASH: Byte := 0x2D

  const VS16: nat := 0xFE0F
  const ZWJ: nat := 0x200D
  const KEYCAP: nat := 0x20E3

  /** An ASCII literal as bytes. */
  function Lit(s: string): seq<Byte> {
    seq(|s|, i requires 0 <= i < |s| => (s[i] as int) % 256)
  }

  // ---- UTF-8 ----------------------------------------------------------------------------

  datatype Decoded = Invalid | Codepoint(size: nat, cp: nat)

  predicate IsContinuation(b: Byte) {
    0x80 <= b < 0xC0
  }

  /** Length and first bits a lead byte announces; length 0 when it leads nothing. */
  function Lead(b: Byte): (nat, nat) {
    if b < 0x80 then (1, b)
    else if 0xC0 <= b < 0xE0 then (2, b % 32)
    else if 0xE0 <= b < 0xF0 then (3, b % 16)
    else if 0xF0 <= b < 0xF8 then (4, b % 8)
    else (0, 0)
  }

  /** Six more bits from each of the bytes `s[1..n]`. */
  function Bits(first: nat, s: seq<Byte>, n: nat): nat
    requires 1 <= n <= |s|
  {
    if n == 1 then first else Bits(first, s, n - 1) * 64 + s[n - 1] % 64
  }

  /** One codepoint at the start of `s`.  Overlong forms are not rejected. */
  function Decode(s: seq<Byte>): (d: Decoded)
    ensures d.Codepoint? ==> 1 <= d.size <= 4 && d.size <= |s|
  {
    if s == [] then Invalid
    else
      var (n, first) := Lead(s[0]);
      if n == 0 || |s| < n || !Continued(s, n) then Invalid else Codepoint(n, Bits(first, s, n))
  }

  predicate Continued(s: seq<Byte>, n: nat)
    requires n <= |s|
  {
    forall i :: 1 <= i < n ==> IsContinuation(s[i])
  }

  lemma DecodedBytes(s: seq<Byte>)
    ensures Decode(s).Codepoint? ==> Continued(s, Decode(s).size)
    ensures s != [] && s[0] < 0x80 ==> Decode(s) == Codepoint(1, s[0])
  {
  }

  method DecodeUtf8(s: seq<Byte>, p: nat) returns (size: nat, cp: nat)
    requires p <= |s|
    ensures match Decode(s[p..])
            case Invalid => size == 0
            case Codepoint(n, c) => size == n && cp == c
  {
    cp := 0;
    var avail := |s| - p;
    if avail == 0 { return 0, 0; }
    if s[p] < 0x80 { return 1, s[p]; }
    var len := 0;
    if 0xC0 <= s[p] < 0xE0 { len, cp := 2, s[p] % 32; }
    else if 0xE0 <= s[p] < 0xF0 { len, cp := 3, s[p] % 16; }
    else if 0xF0 <= s[p] < 0xF8 { len, cp := 4, s[p] % 8; }
    else { return 0, 0; }
    if avail < len { return 0, cp; }
    ghost var t, first := s[p..], cp;
    for i := 1 to len
      invariant cp == Bits(first, t, i) && forall k :: 1 <= k < i ==> IsContinuation(t[k])
    {
      assert s[p + i] == t[i];
      if !IsContinuation(s[p + i]) { return 0, cp; }
      cp := cp * 64 + s[p + i] % 64;
    }
    size := len;
  }

  /** How many codepoints have a form of `n` bytes. */
  function Limit(n: nat): nat {
    match n case 1 => 0x80 case 2 => 0x800 case 3 => 0x10000 case _ => 0x200000
  }

  /** The rows of the table in section 3 of RFC 3629, for every codepoint whose bits they can hold. */
  function Form(n: nat, cp: nat): (s: seq<Byte>)
    requires 1 <= n <= 4 && cp < Limit(n)
    ensures |s| == n && (forall i :: 1 <= i < n ==> IsContinuation(s[i])) && !IsContinuation(s[0])
  {
    match n
    case 1 => [cp]
    case 2 => [0xC0 + cp / 64, 0x80 + cp % 64]
    case 3 => [0xE0 + cp / 4096, 0x80 + cp / 64 % 64, 0x80 + cp % 64]
    case _ => [0xF0 + cp / 262144, 0x80 + cp / 4096 % 64, 0x80 + cp / 64 % 64, 0x80 + cp % 64]
  }

  /** UTF-8 as RFC 3629 section 3 lays it out: the first row that holds the codepoint. */
  function Encode(cp: nat): (s: seq<Byte>)
    requires cp <= 0x10FFFF
    ensures 1 <= |s| <= 4 && (forall i :: 1 <= i < |s| ==> IsContinuation(s[i])) && !IsContinuation(s[0])
  {
    Form(if cp < 0x80 then 1 else if cp < 0x800 then 2 else if cp < 0x10000 then 3 else 4, cp)
  }

  lemma DecodeWhole(s: seq<Byte>, n: nat)
    requires s != [] && Lead(s[0]).0 == n > 0 && |s| >= n
    requires forall i :: 1 <= i < n ==> IsContinuation(s[i])
    ensures Decode(s) == Codepoint(n, Bits(Lead(s[0]).1, s, n))
  {
  }

  lemma {:induction false} BitsOfPrefix(first: nat, s: seq<Byte>, t: seq<Byte>, n: nat)
    requires 1 <= n <= |s| && s <= t
    ensures Bits(first, s, n) == Bits(first, t, n)
  {
    if n > 1 { BitsOfPrefix(first, s, t, n - 1); }
  }

  lemma BitsUnrolled(first: nat, s: seq<Byte>)
    ensures 1 <= |s| ==> Bits(first, s, 1) == first
    ensures 2 <= |s| ==> Bits(first, s, 2) == first * 64 + s[1] % 64
    ensures 3 <= |s| ==> Bits(first, s, 3) == Bits(first, s, 2) * 64 + s[2] % 64
    ensures 4 <= |s| ==> Bits(first, s, 4) == Bits(first, s, 3) * 64 + s[3] % 64
  {
  }

  /** A codepoint is its six-bit digits. */
  lemma SixBits(cp: nat)
    ensures cp / 64 * 64 + cp % 64 == cp
    ensures (cp / 4096 * 64 + cp / 64 % 64) == cp / 64
    ensures (cp / 262144 * 64 + cp / 4096 % 64) == cp / 4096
  {
    assert cp / 4096 == cp / 64 / 64;
    assert cp / 262144 == cp / 4096 / 64;
  }

  lemma LeadJoins(b: Byte, n: nat, first: nat)
    requires match n case 1 => b == first < 0x80 case 2 => first < 32 && b == 0xC0 + first
             case 3 => first < 16 && b == 0xE0 + first case 4 => first < 8 && b == 0xF0 + first case _ => false
    ensures Lead(b) == (n, first)
  {
  }

  lemma FormBytes(n: nat, cp: nat)
    requires 1 <= n <= 4 && cp < Limit(n)
    ensures Lead(Form(n, cp)[0]) == (n, match n case 1 => cp case 2 => cp / 64 case 3 => cp / 4096 case _ => cp / 262144)
  {
    hide Lead;
    var b := Form(n, cp)[0];
    LeadJoins(b, n, match n case 1 => cp case 2 => cp / 64 case 3 => cp / 4096 case _ => cp / 262144);
  }

  lemma FormTail(n: nat, cp: nat)
    requires 1 <= n <= 4 && cp < Limit(n)
    ensures var e := Form(n, cp);
            && (n >= 2 ==> e[n - 1] % 64 == cp % 64)
            && (n >= 3 ==> e[n - 2] % 64 == cp / 64 % 64)
            && (n >= 4 ==> e[n - 3] % 64 == cp / 4096 % 64)
  {
    SixOf(cp);
    SixOf(cp / 64);
    SixOf(cp / 4096);
  }

  lemma SixOf(x: nat)
    ensures (0x80 + x % 64) % 64 == x % 64
  {
  }

  /** A form announces its own length, and its bits are the codepoint. */
  lemma FormShape(n: nat, cp: nat)
    requires 1 <= n <= 4 && cp < Limit(n)
    ensures Lead(Form(n, cp)[0]).0 == n
    ensures Bits(Lead(Form(n, cp)[0]).1, Form(n, cp), n) == cp
  {
    hide Form, Lead, Bits;
    var e := Form(n, cp);
    FormBytes(n, cp);
    FormTail(n, cp);
    BitsUnrolled(Lead(e[0]).1, e);
    SixBits(cp);
  }

  lemma DecodeForm(n: nat, cp: nat, s: seq<Byte>)
    requires 1 <= n <= 4 && cp < Limit(n) && Form(n, cp) <= s
    ensures Decode(s) == Codepoint(n, cp)
  {
    FormShape(n, cp);
    var e := Form(n, cp);
    var first := Lead(e[0]).1;
    hide *;
    assert forall i :: 0 <= i < |e| ==> s[i] == e[i];
    DecodeWhole(s, n);
    BitsOfPrefix(first, e, s, n);
  }

  lemma BitsAreForm(n: nat, first: nat, s: seq<Byte>)
    requires s != [] && Lead(s[0]) == (n, first) && 1 <= n <= |s| && Continued(s, n)
    ensures n <= 4 && Bits(first, s, n) < Limit(n) && Form(n, Bits(first, s, n)) == s[..n]
  {
    LeadSplits(s[0], n, first);
    hide Form, Limit, Bits, Lead;
    match n
    case 1 => OneIsForm(first, s);
    case 2 => TwoAreForm(first, s);
    case 3 => ThreeAreForm(first, s);
    case _ => FourAreForm(first, s);
  }

  lemma OneIsForm(first: nat, s: seq<Byte>)
    requires s != [] && s[0] == first < 0x80
    ensures Bits(first, s, 1) < Limit(1) && Form(1, Bits(first, s, 1)) == s[..1]
  {
  }

  lemma TwoAreForm(first: nat, s: seq<Byte>)
    requires |s| >= 2 && Continued(s, 2) && first < 32 && s[0] == 0xC0 + first
    ensures Bits(first, s, 2) < Limit(2) && Form(2, Bits(first, s, 2)) == s[..2]
  {
    hide Form, Limit;
    BitsUnrolled(first, s);
    hide Bits;
    TailSplits(s, 2);
    FormOfTwo(first, s[1] % 64);
    assert s[..2] == [s[0], s[1]];
  }

  lemma ThreeAreForm(first: nat, s: seq<Byte>)
    requires |s| >= 3 && Continued(s, 3) && first < 16 && s[0] == 0xE0 + first
    ensures Bits(first, s, 3) < Limit(3) && Form(3, Bits(first, s, 3)) == s[..3]
  {
    hide Form, Limit;
    BitsUnrolled(first, s);
    hide Bits;
    TailSplits(s, 3);
    FormOfThree(first, s[1] % 64, s[2] % 64);
    assert s[..3] == [s[0], s[1], s[2]];
  }

  lemma FourAreForm(first: nat, s: seq<Byte>)
    requires |s| >= 4 && Continued(s, 4) && first < 8 && s[0] == 0xF0 + first
    ensures Bits(first, s, 4) < Limit(4) && Form(4, Bits(first, s, 4)) == s[..4]
  {
    hide Form, Limit;
    BitsUnrolled(first, s);
    hide Bits;
    TailSplits(s, 4);
    FormOfFour(first, s[1] % 64, s[2] % 64, s[3] % 64);
    assert s[..4] == [s[0], s[1], s[2], s[3]];
  }

  lemma LeadSplits(b: Byte, n: nat, first: nat)
    requires Lead(b) == (n, first) && n > 0
    ensures n <= 4 && match n case 1 => b == first < 0x80 case 2 => first < 32 && b == 0xC0 + first
                      case 3 => first < 16 && b == 0xE0 + first case _ => first < 8 && b == 0xF0 + first
  {
  }

  lemma TailSplits(s: seq<Byte>, n: nat)
    requires n <= |s| && Continued(s, n)
    ensures forall i :: 1 <= i < n ==> s[i] == 0x80 + s[i] % 64
  {
  }

  lemma Digits(high: nat, low: nat)
    requires low < 64
    ensures (high * 64 + low) / 64 == high && (high * 64 + low) % 64 == low
  {
  }

  lemma FormOfOne(a: nat)
    requires a < 0x80
    ensures a < Limit(1) && Form(1, a) == [a]
  {
  }

  lemma FormOfTwo(a: nat, b: nat)
    requires a < 32 && b < 64
    ensures a * 64 + b < Limit(2) && Form(2, a * 64 + b) == [0xC0 + a, 0x80 + b]
  {
    Digits(a, b);
  }

  lemma FormOfThree(a: nat, b: nat, c: nat)
    requires a < 16 && b < 64 && c < 64
    ensures var cp := (a * 64 + b) * 64 + c; cp < Limit(3) && Form(3, cp) == [0xE0 + a, 0x80 + b, 0x80 + c]
  {
    var cp := (a * 64 + b) * 64 + c;
    Digits(a, b);
    Digits(a * 64 + b, c);
    assert cp / 4096 == cp / 64 / 64;
  }

  lemma FormOfFour(a: nat, b: nat, c: nat, d: nat)
    requires a < 8 && b < 64 && c < 64 && d < 64
    ensures var cp := ((a * 64 + b) * 64 + c) * 64 + d;
            cp < Limit(4) && Form(4, cp) == [0xF0 + a, 0x80 + b, 0x80 + c, 0x80 + d]
  {
    var cp := ((a * 64 + b) * 64 + c) * 64 + d;
    Digits(a, b);
    Digits(a * 64 + b, c);
    Digits((a * 64 + b) * 64 + c, d);
    assert cp / 4096 == cp / 64 / 64 && cp / 262144 == cp / 64 / 64 / 64;
  }

  /** A text decodes to a codepoint exactly when it begins with one of its forms: the right one, or one that is overlong. */
  lemma DecodesExactlyWhen(s: seq<Byte>, n: nat, cp: nat)
    ensures Decode(s) == Codepoint(n, cp) <==> 1 <= n <= 4 && cp < Limit(n) && Form(n, cp) <= s
  {
    if Decode(s) == Codepoint(n, cp) { BitsAreForm(n, Lead(s[0]).1, s); }
    hide Decode, Form;
    if 1 <= n <= 4 && cp < Limit(n) && Form(n, cp) <= s { DecodeForm(n, cp, s); }
  }

  /** Decoding undoes encoding, whatever follows. */
  lemma DecodeEncoded(cp: nat, rest: seq<Byte>)
    requires cp <= 0x10FFFF
    ensures Decode(Encode(cp) + rest) == Codepoint(|Encode(cp)|, cp)
  {
    hide Decode, Form;
    DecodeForm(|Encode(cp)|, cp, Encode(cp) + rest);
  }

  // ---- tables ----------------------------------------------------------------------------

  predicate AlwaysEmoji(cp: nat) {
    || 0x1F000 <= cp <= 0x1FAFF || 0x2600 <= cp <= 0x27BF || 0x2B05 <= cp <= 0x2B07
    || cp in {0x2B1B, 0x2B1C, 0x2B50, 0x2B55, 0x231A, 0x231B} || 0x23E9 <= cp <= 0x23FA
  }

  predicate Vs16Gated(cp: nat) {
    || cp in {0xA9, 0xAE, 0x2122, 0x203C, 0x2049, 0x2139, 0x21A9, 0x21AA, 0x2328, 0x23CF, 0x24C2}
    || cp in {0x25AA, 0x25AB, 0x25B6, 0x25C0, 0x2934, 0x2935, 0x3030, 0x303D, 0x3297, 0x3299}
    || 0x2194 <= cp <= 0x2199 || 0x25FB <= cp <= 0x25FE
  }

  predicate IsRegionalIndicator(cp: nat) {
    0x1F1E6 <= cp <= 0x1F1FF
  }

  predicate IsSkinTone(cp: nat) {
    0x1F3FB <= cp <= 0x1F3FF
  }

  predicate IsTag(cp: nat) {
    0xE0020 <= cp <= 0xE007F
  }

  predicate IsKeycapBase(cp: nat) {
    0x30 <= cp <= 0x39 || cp == 0x23 || cp == 0x2A
  }

  predicate IsDigit(b: Byte) {
    0x30 <= b <= 0x39
  }

  predicate IsNameByte(b: Byte) {
    IsDigit(b) || 0x41 <= b <= 0x5A || 0x61 <= b <= 0x7A || b == UNDERSCORE
  }

  // ---- custom emoji: <a?:name:id> -----------------------------------------------------------

  datatype Markup = NoMarkup | Markup(animated: bool, name: seq<Byte>, id: seq<Byte>)
  {
    /** A nonempty name of name bytes and a nonempty id of digits. */
    predicate WellFormed() {
      && Markup? && name != [] && id != []
      && (forall i :: 0 <= i < |name| ==> IsNameByte(name[i])) && (forall i :: 0 <= i < |id| ==> IsDigit(id[i]))
    }

    function Opening(): seq<Byte>
      requires Markup?
    {
      if animated then [LT, LOWER_A, COLON] else [LT, COLON]
    }

    function Spelled(): seq<Byte>
      requires Markup?
    {
      Opening() + (name + [COLON] + (id + [GT]))
    }

    /** What is drawn when the image is missing. */
    function Shortcode(): seq<Byte>
      requires Markup?
    {
      [COLON] + name + [COLON]
    }

    function Size(): nat {
      if Markup? then |Spelled()| else 0
    }
  }

  function NameRun(s: seq<Byte>): (n: nat)
    ensures n <= |s|
  {
    if s == [] || !IsNameByte(s[0]) then 0 else 1 + NameRun(s[1..])
  }

  function DigitRun(s: seq<Byte>): (n: nat)
    ensures n <= |s|
  {
    if s == [] || !IsDigit(s[0]) then 0 else 1 + DigitRun(s[1..])
  }

  /** The markup at the start of `s`. */
  function CustomAt(s: seq<Byte>): Markup {
    if s == [] || s[0] != LT then NoMarkup
    else
      var i := if |s| > 1 && s[1] == LOWER_A then 2 else 1;
      if i >= |s| || s[i] != COLON then NoMarkup else CustomAfterOpening(i == 2, s[i + 1..])
  }

  function CustomAfterOpening(animated: bool, s: seq<Byte>): Markup {
    var n := NameRun(s);
    if n == 0 || n == |s| || s[n] != COLON then NoMarkup else CustomAfterName(animated, s[..n], s[n + 1..])
  }

  function CustomAfterName(animated: bool, name: seq<Byte>, s: seq<Byte>): Markup {
    var d := DigitRun(s);
    if d == 0 || d == |s| || s[d] != GT then NoMarkup else Markup(animated, name, s[..d])
  }

  lemma PrefixOfConcat(a: seq<Byte>, b: seq<Byte>, s: seq<Byte>)
    ensures a + b <= s <==> a <= s && b <= s[|a|..]
  {
    var c := a + b;
    if c <= s {
      assert s[..|c|] == c;
      assert forall i :: 0 <= i < |c| ==> s[i] == c[i];
      assert s[..|a|] == a && s[|a|..][..|b|] == b;
    }
    if a <= s && b <= s[|a|..] {
      assert s[|a|..][..|b|] == b && s[..|a|] == a;
      assert s[..|c|] == c;
    }
  }

  /** A run that a delimiter ends is all of the delimited prefix, and nothing else is. */
  lemma RunUntil(a: seq<Byte>, stop: Byte, s: seq<Byte>)
    ensures !IsNameByte(stop) && (forall i :: 0 <= i < |a| ==> IsNameByte(a[i])) && a + [stop] <= s ==>
              NameRun(s) == |a| < |s| && s[|a|] == stop && s[..|a|] == a
    ensures !IsDigit(stop) && (forall i :: 0 <= i < |a| ==> IsDigit(a[i])) && a + [stop] <= s ==>
              DigitRun(s) == |a| < |s| && s[|a|] == stop && s[..|a|] == a
  {
    if a + [stop] <= s {
      PrefixOfConcat(a, [stop], s);
      assert s[|a|..][0] == stop;
      assert forall i :: 0 <= i < |a| ==> s[i] == a[i];
      RunLength(s, |a|);
    }
  }

  lemma RunsAreRuns(s: seq<Byte>)
    ensures forall i :: 0 <= i < NameRun(s) ==> IsNameByte(s[i])
    ensures forall i :: 0 <= i < DigitRun(s) ==> IsDigit(s[i])
  {
  }

  lemma RunLength(s: seq<Byte>, n: nat)
    requires n < |s|
    ensures (forall i :: 0 <= i < n ==> IsNameByte(s[i])) && !IsNameByte(s[n]) ==> NameRun(s) == n
    ensures (forall i :: 0 <= i < n ==> IsDigit(s[i])) && !IsDigit(s[n]) ==> DigitRun(s) == n
  {
    if n > 0 { RunLength(s[1..], n - 1); }
  }

  lemma IdIsSpelled(animated: bool, name: seq<Byte>, s: seq<Byte>)
    requires CustomAfterName(animated, name, s).Markup?
    ensures var m := CustomAfterName(animated, name, s);
            && m.animated == animated && m.name == name && m.id != [] && m.id + [GT] <= s
            && forall i :: 0 <= i < |m.id| ==> IsDigit(m.id[i])
  {
    hide DigitRun;
    var d := DigitRun(s);
    RunsAreRuns(s);
    assert s[..d] + [GT] == s[..d + 1];
  }

  lemma NameIsSpelled(animated: bool, s: seq<Byte>)
    requires CustomAfterOpening(animated, s).Markup?
    ensures var m := CustomAfterOpening(animated, s);
            m.animated == animated && m.WellFormed() && m.name + [COLON] + (m.id + [GT]) <= s
  {
    hide NameRun, CustomAfterName;
    var m := CustomAfterOpening(animated, s);
    var n := NameRun(s);
    RunsAreRuns(s);
    IdIsSpelled(animated, s[..n], s[n + 1..]);
    assert s[..n] + [COLON] == s[..n + 1];
    PrefixOfConcat(m.name + [COLON], m.id + [GT], s);
  }

  lemma CustomIsSpelled(s: seq<Byte>)
    requires CustomAt(s).Markup?
    ensures CustomAt(s).WellFormed() && CustomAt(s).Spelled() <= s
  {
    hide CustomAfterOpening;
    var m := CustomAt(s);
    var i := if |s| > 1 && s[1] == LOWER_A then 2 else 1;
    NameIsSpelled(i == 2, s[i + 1..]);
    assert s[..i + 1] == m.Opening();
    PrefixOfConcat(m.Opening(), m.name + [COLON] + (m.id + [GT]), s);
  }

  lemma SpelledIsCustom(m: Markup, s: seq<Byte>)
    requires m.WellFormed() && m.Spelled() <= s
    ensures CustomAt(s) == m
  {
    hide NameRun, DigitRun;
    var o := m.Opening();
    var t := s[|o|..];
    var u := t[|m.name| + 1..];
    PrefixOfConcat(m.name + [COLON], m.id + [GT], t);
    PrefixOfConcat(o, m.name + [COLON] + (m.id + [GT]), s);
    RunUntil(m.name, COLON, t);
    RunUntil(m.id, GT, u);
    assert CustomAfterName(m.animated, m.name, u) == m;
    assert CustomAfterOpening(m.animated, t) == m;
    hide CustomAfterName, CustomAfterOpening;
    assert s[0] == o[0] && s[1] == o[1] && s[|o| - 1] == o[|o| - 1];
  }

  /** A markup is matched exactly when the text starts with its spelling. */
  lemma MatchedExactlyWhenSpelled(s: seq<Byte>, m: Markup)
    requires m.Markup?
    ensures CustomAt(s) == m <==> m.WellFormed() && m.Spelled() <= s
  {
    if CustomAt(s) == m { CustomIsSpelled(s); }
    if m.WellFormed() && m.Spelled() <= s { SpelledIsCustom(m, s); }
  }

  method SkipName(s: seq<Byte>, p: nat) returns (q: nat)
    requires p <= |s|
    ensures q == p + NameRun(s[p..])
  {
    q := p;
    while q != |s| && IsNameByte(s[q])
      invariant p <= q <= |s| && NameRun(s[p..]) == q - p + NameRun(s[q..])
    {
      assert s[q..][1..] == s[q + 1..];
      q := q + 1;
    }
  }

  method SkipDigits(s: seq<Byte>, p: nat) returns (q: nat)
    requires p <= |s|
    ensures q == p + DigitRun(s[p..])
  {
    q := p;
    while q != |s| && IsDigit(s[q])
      invariant p <= q <= |s| && DigitRun(s[p..]) == q - p + DigitRun(s[q..])
    {
      assert s[q..][1..] == s[q + 1..];
      q := q + 1;
    }
  }

  // How a cursor that is moved over the text in place follows the match.

  lemma OpeningFrom(s: seq<Byte>, p: nat, q: nat)
    requires p <= |s| && q == (if p + 1 < |s| && s[p + 1] == LOWER_A then p + 2 else p + 1)
    ensures p == |s| || s[p] != LT ==> CustomAt(s[p..]) == NoMarkup
    ensures p < |s| && s[p] == LT && (q >= |s| || s[q] != COLON) ==> CustomAt(s[p..]) == NoMarkup
    ensures p < |s| && s[p] == LT && q < |s| && s[q] == COLON ==>
              CustomAt(s[p..]) == CustomAfterOpening(q == p + 2, s[q + 1..])
  {
    hide CustomAfterOpening;
    assert q < |s| ==> s[q + 1..] == s[p..][q - p + 1..] && s[q] == s[p..][q - p];
  }

  lemma NameFrom(animated: bool, s: seq<Byte>, p: nat, q: nat)
    requires p <= |s| && q == p + NameRun(s[p..])
    ensures q <= |s|
    ensures q == p || q == |s| || s[q] != COLON ==> CustomAfterOpening(animated, s[p..]) == NoMarkup
    ensures q > p && q < |s| && s[q] == COLON ==>
              CustomAfterOpening(animated, s[p..]) == CustomAfterName(animated, s[p..q], s[q + 1..])
  {
    hide CustomAfterName, NameRun;
    assert s[p..][..q - p] == s[p..q];
    assert q < |s| ==> s[q + 1..] == s[p..][q - p + 1..] && s[q] == s[p..][q - p];
  }

  lemma IdFrom(animated: bool, name: seq<Byte>, s: seq<Byte>, p: nat, q: nat)
    requires p <= |s| && q == p + DigitRun(s[p..])
    ensures q <= |s|
    ensures q == p || q == |s| || s[q] != GT ==> CustomAfterName(animated, name, s[p..]) == NoMarkup
    ensures q > p && q < |s| && s[q] == GT ==> CustomAfterName(animated, name, s[p..]) == Markup(animated, name, s[p..q])
  {
    hide DigitRun;
    assert s[p..][..q - p] == s[p..q];
    assert q < |s| ==> s[q] == s[p..][q - p];
  }

  lemma SizeOfMarkup(m: Markup)
    ensures m.Size() == if m.Markup? then (if m.animated then 5 else 4) + |m.name| + |m.id| else 0
  {
  }

  method MatchCustom(s: seq<Byte>, p: nat) returns (size: nat, name: seq<Byte>, id: seq<Byte>)
    requires p <= |s|
    ensures size == CustomAt(s[p..]).Size() && p + size <= |s|
    ensures CustomAt(s[p..]).Markup? <==> size > 0
    ensures size > 0 ==> name == CustomAt(s[p..]).name && id == CustomAt(s[p..]).id
  {
    hide *;
    size, name, id := 0, [], [];
    ghost var found := CustomAt(s[p..]);
    SizeOfMarkup(found);
    var q := p;
    OpeningFrom(s, p, if p + 1 < |s| && s[p + 1] == LOWER_A then p + 2 else p + 1);
    if q == |s| || s[q] != LT { return; }
    q := q + 1;
    if q != |s| && s[q] == LOWER_A { q := q + 1; }
    if q == |s| || s[q] != COLON { return; }
    q := q + 1;
    ghost var animated := q == p + 3;
    var nameAt := q;
    q := SkipName(s, q);
    NameFrom(animated, s, nameAt, q);
    if q == nameAt || q == |s| || s[q] != COLON { return; }
    name := s[nameAt..q];
    q := q + 1;
    var idAt := q;
    q := SkipDigits(s, q);
    IdFrom(animated, name, s, idAt, q);
    if q == idAt || q == |s| || s[q] != GT { return; }
    id := s[idAt..q];
    size := q + 1 - p;
  }

  // ---- unicode emoji ------------------------------------------------------------------------

  predicate IsModifier(cp: nat) {
    IsSkinTone(cp) || cp == VS16 || IsTag(cp)
  }

  predicate IsPictograph(cp: nat) {
    AlwaysEmoji(cp) || Vs16Gated(cp)
  }

  datatype Matched = NoEmoji | Emoji(size: nat, cps: seq<nat>)

  /** What one more modifier or joined pictograph takes, or nothing. */
  function Extender(s: seq<Byte>): (e: Matched)
    ensures e.Emoji? ==> 0 < e.size <= |s|
  {
    match Decode(s)
    case Invalid => NoEmoji
    case Codepoint(n, cp) =>
      if IsModifier(cp) then Emoji(n, [cp])
      else if cp == ZWJ then Joined(n, s[n..])
      else NoEmoji
  }

  function Joined(n: nat, s: seq<Byte>): (e: Matched)
    ensures e.Emoji? ==> n < e.size <= n + |s|
  {
    match Decode(s)
    case Codepoint(n3, cp3) => if IsPictograph(cp3) then Emoji(n + n3, [ZWJ, cp3]) else NoEmoji
    case Invalid => NoEmoji
  }

  /** How far modifiers and joined pictographs go on from here. */
  function ExtensionAt(s: seq<Byte>): (e: Matched)
    ensures e.Emoji? && e.size <= |s|
    decreases |s|
  {
    match Extender(s)
    case NoEmoji => Emoji(0, [])
    case Emoji(n, cps) => Prepend(n, cps, ExtensionAt(s[n..]))
  }

  function Prepend(n: nat, cps: seq<nat>, e: Matched): Matched
    requires e.Emoji?
  {
    Emoji(n + e.size, cps + e.cps)
  }

  /** The emoji at the start of `s`. */
  function EmojiAt(s: seq<Byte>): (e: Matched)
    ensures e.Emoji? ==> 0 < e.size <= |s|
  {
    match Decode(s)
    case Invalid => NoEmoji
    case Codepoint(n, cp) =>
      if IsKeycapBase(cp) then KeycapAfter(n, cp, s[n..])
      else if IsRegionalIndicator(cp) then FlagAfter(n, cp, s[n..])
      else if AlwaysEmoji(cp) then Prepend(n, [cp], ExtensionAt(s[n..]))
      else if Vs16Gated(cp) then GatedAfter(n, cp, s[n..])
      else NoEmoji
  }

  function KeycapAfter(n: nat, cp: nat, s: seq<Byte>): (e: Matched)
    ensures e.Emoji? ==> n < e.size <= n + |s|
  {
    var skip := match Decode(s) case Codepoint(n2, cp2) => if cp2 == VS16 then n2 else 0 case Invalid => 0;
    match Decode(s[skip..])
    case Codepoint(n2, cp2) => if cp2 == KEYCAP then Emoji(n + skip + n2, [cp, VS16, KEYCAP]) else NoEmoji
    case Invalid => NoEmoji
  }

  function FlagAfter(n: nat, cp: nat, s: seq<Byte>): (e: Matched)
    ensures e.Emoji? && n <= e.size <= n + |s|
  {
    match Decode(s)
    case Codepoint(n2, cp2) => if IsRegionalIndicator(cp2) then Emoji(n + n2, [cp, cp2]) else Emoji(n, [cp])
    case Invalid => Emoji(n, [cp])
  }

  function GatedAfter(n: nat, cp: nat, s: seq<Byte>): (e: Matched)
    ensures e.Emoji? ==> n < e.size <= n + |s|
  {
    match Decode(s)
    case Codepoint(n2, cp2) => if cp2 == VS16 then Prepend(n + n2, [cp, VS16], ExtensionAt(s[n2..])) else NoEmoji
    case Invalid => NoEmoji
  }

  lemma ConcatAssoc(a: seq<nat>, b: seq<nat>, c: seq<nat>)
    ensures a + (b + c) == (a + b) + c
  {
  }

  function ExtenderFrom(s: seq<Byte>, p: nat): (e: Matched)
    requires p <= |s|
    ensures e.Emoji? ==> 0 < e.size <= |s| - p
  {
    Extender(s[p..])
  }

  method MatchExtender(s: seq<Byte>, p: nat) returns (size: nat, cps: seq<nat>)
    requires p <= |s|
    ensures ExtenderFrom(s, p) == if size > 0 then Emoji(size, cps) else NoEmoji
    ensures p + size <= |s|
  {
    hide Decode, IsModifier, IsPictograph;
    var n, cp := DecodeUtf8(s, p);
    if n == 0 { return 0, []; }
    if IsModifier(cp) { return n, [cp]; }
    if cp == ZWJ {
      assert s[p..][n..] == s[p + n..];
      var n3, cp3 := DecodeUtf8(s, p + n);
      if n3 > 0 && IsPictograph(cp3) { return n + n3, [ZWJ, cp3]; }
    }
    return 0, [];
  }

  /** The extension at `p` goes over `n` bytes, `cps`, and then on as from there. */
  predicate GoesOver(s: seq<Byte>, p: nat, n: nat, cps: seq<nat>) {
    p + n <= |s| && ExtensionAt(s[p..]) == Prepend(n, cps, ExtensionAt(s[p + n..]))
  }

  lemma GoOver(s: seq<Byte>, p: nat, n: nat, cps: seq<nat>, m: nat, more: seq<nat>)
    requires GoesOver(s, p, n, cps) && ExtenderFrom(s, p + n) == Emoji(m, more)
    ensures GoesOver(s, p, n + m, cps + more)
  {
    hide Extender;
    assert s[p + n..][m..] == s[p + n + m..];
    ConcatAssoc(cps, more, ExtensionAt(s[p + n + m..]).cps);
  }

  lemma GoneOver(s: seq<Byte>, p: nat, n: nat, cps: seq<nat>)
    requires GoesOver(s, p, n, cps) && ExtenderFrom(s, p + n) == NoEmoji
    ensures ExtensionAt(s[p..]) == Emoji(n, cps)
  {
    hide Extender;
  }

  method Extend(s: seq<Byte>, p: nat) returns (size: nat, cps: seq<nat>)
    requires p <= |s|
    ensures ExtensionAt(s[p..]) == Emoji(size, cps) && p + size <= |s|
  {
    size, cps := 0, [];
    assert GoesOver(s, p, 0, []);
    hide *;
    while true
      invariant p + size <= |s| && GoesOver(s, p, size, cps)
      decreases |s| - size
    {
      var n, more := MatchExtender(s, p + size);
      if n == 0 { break; }
      GoOver(s, p, size, cps, n, more);
      size, cps := size + n, cps + more;
    }
    GoneOver(s, p, size, cps);
  }

  method MatchUnicode(s: seq<Byte>, p: nat) returns (size: nat, cps: seq<nat>)
    requires p <= |s|
    ensures p + size <= |s| && (size > 0 <==> EmojiAt(s[p..]).Emoji?)
    ensures size > 0 ==> EmojiAt(s[p..]) == Emoji(size, cps)
  {
    cps := [];
    hide Decode, ExtensionAt, IsKeycapBase, IsRegionalIndicator, AlwaysEmoji, Vs16Gated;
    var n, cp := DecodeUtf8(s, p);
    if n == 0 { return 0, []; }
    var q := p + n;
    ghost var found := EmojiAt(s[p..]);
    assert s[q..] == s[p..][n..];
    if IsKeycapBase(cp) {
      var r := q;
      var n2, cp2 := DecodeUtf8(s, r);
      if n2 > 0 && cp2 == VS16 {
        r := r + n2;
        assert s[q..][n2..] == s[r..];
        n2, cp2 := DecodeUtf8(s, r);
      }
      if n2 == 0 || cp2 != KEYCAP { return 0, []; }
      return r + n2 - p, [cp, VS16, cp2];
    }
    if IsRegionalIndicator(cp) {
      cps := [cp];
      var n2, cp2 := DecodeUtf8(s, q);
      if n2 > 0 && IsRegionalIndicator(cp2) {
        cps := cps + [cp2];
        q := q + n2;
      }
      return q - p, cps;
    }
    if AlwaysEmoji(cp) {
      cps := [cp];
    } else if Vs16Gated(cp) {
      var n2, cp2 := DecodeUtf8(s, q);
      if n2 == 0 || cp2 != VS16 { return 0, []; }
      assert s[q..][n2..] == s[q + n2..];
      cps := [cp, VS16];
      q := q + n2;
    } else {
      return 0, [];
    }
    assert found == Prepend(q - p, cps, ExtensionAt(s[q..]));
    var n4, more := Extend(s, q);
    size, cps := q + n4 - p, cps + more;
  }
}
