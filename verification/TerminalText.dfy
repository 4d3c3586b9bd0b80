/** Recorded bytes made safe to print on a terminal, and clipped to one line. */
module TerminalText {
  import opened Utf8

  // ------------------------------------------------------------------ rune categories

  /** Category Cc. */
  predicate Control(r: int) {
    0 <= r < 0x20 || 0x7F <= r < 0xA0
  }

  /** Category Cf of Unicode 15. */
  predicate Format(r: int) {
    || r == 0xAD || 0x600 <= r <= 0x605 || r == 0x61C || r == 0x6DD || r == 0x70F
    || 0x890 <= r <= 0x891 || r == 0x8E2 || r == 0x180E
    || 0x200B <= r <= 0x200F || 0x202A <= r <= 0x202E || 0x2060 <= r <= 0x2064 || 0x2066 <= r <= 0x206F
    || r == 0xFEFF || 0xFFF9 <= r <= 0xFFFB || r == 0x110BD || r == 0x110CD
    || 0x13430 <= r <= 0x1343F || 0x1BCA0 <= r <= 0x1BCA3 || 0x1D173 <= r <= 0x1D17A
    || r == 0xE0001 || 0xE0020 <= r <= 0xE007F
  }

  /** Unicode white space. */
  predicate Space(r: int) {
    || 0x09 <= r <= 0x0D || r == 0x20 || r == 0x85 || r == 0xA0 || r == 0x1680 || 0x2000 <= r <= 0x200A
    || r == 0x2028 || r == 0x2029 || r == 0x202F || r == 0x205F || r == 0x3000
  }

  /** Where each category begins and ends. */
  lemma CategoryEdges()
    ensures forall r: int | 0 <= r :: Control(r) <==> r <= 31 || 127 <= r <= 159
    ensures forall r <- {
        0xAD, 0x600, 0x605, 0x61C, 0x6DD, 0x70F, 0x890, 0x891, 0x8E2, 0x180E, 0x200B, 0x200F, 0x202A, 0x202E,
        0x2060, 0x2064, 0x2066, 0x206F, 0xFEFF, 0xFFF9, 0xFFFB, 0x110BD, 0x110CD, 0x13430, 0x1343F, 0x1BCA0,
        0x1BCA3, 0x1D173, 0x1D17A, 0xE0001, 0xE0020, 0xE007F} :: Format(r)
    ensures forall r <- {
        0xAC, 0xAE, 0x5FF, 0x606, 0x61B, 0x61D, 0x6DC, 0x6DE, 0x70E, 0x710, 0x88F, 0x892, 0x8E1, 0x8E3, 0x180D,
        0x180F, 0x200A, 0x2010, 0x2029, 0x202F, 0x205F, 0x2065, 0x2070, 0xFEFE, 0xFF00, 0xFFF8, 0xFFFC,
        0x110BC, 0x110BE, 0x110CC, 0x110CE, 0x1342F, 0x13440, 0x1BC9F, 0x1BCA4, 0x1D172, 0x1D17B, 0xE0000,
        0xE0002, 0xE001F, 0xE0080} :: !Format(r)
    ensures forall r <- {
        0x09, 0x0D, 0x20, 0x85, 0xA0, 0x1680, 0x2000, 0x200A, 0x2028, 0x2029, 0x202F, 0x205F, 0x3000} :: Space(r)
    ensures forall r <- {
        0x08, 0x0E, 0x1F, 0x21, 0x84, 0x86, 0x9F, 0xA1, 0x167F, 0x1681, 0x1FFF, 0x200B, 0x2027, 0x202A, 0x202E,
        0x2030, 0x205E, 0x2060, 0x2FFF, 0x3001} :: !Space(r)
  {
  }

  const NEWLINE := 0x0A
  const TAB := 0x09

  /** A scalar value a terminal may be given as it is. */
  predicate Clean(r: int) {
    Scalar(r) && (r == NEWLINE || r == TAB || (!Control(r) && !Format(r)))
  }

  predicate AllClean(runes: seq<int>) {
    forall r <- runes :: Clean(r)
  }

  // -------------------------------------------------------------------------- safe text

  function HexDigit(d: int): int
    requires 0 <= d < 16
  {
    if d < 10 then 0x30 + d else 0x61 + d - 10
  }

  /** Lower-case hexadecimal, padded with zeros to `width` digits. */
  function Hex(v: nat, width: nat): (digits: seq<int>)
    ensures forall d <- digits :: Clean(d) && d < 0x80
    ensures |digits| >= width && |digits| >= 1
    decreases v + width
  {
    if v < 16 && width <= 1 then [HexDigit(v)]
    else Hex(v / 16, if width == 0 then 0 else width - 1) + [HexDigit(v % 16)]
  }

  const BACKSLASH := 0x5C

  function Escape(r: nat): seq<int> {
    if r <= 0xFF then [BACKSLASH, 0x78] + Hex(r, 2) else [BACKSLASH, 0x75] + Hex(r, 4)
  }

  ghost predicate IsHexDigit(c: int) {
    0x30 <= c <= 0x39 || 0x61 <= c <= 0x66
  }

  ghost function DigitValue(c: int): int
    requires IsHexDigit(c)
  {
    if c <= 0x39 then c - 0x30 else c - 0x61 + 10
  }

  ghost function HexValue(digits: seq<int>): int
    requires forall c <- digits :: IsHexDigit(c)
  {
    if digits == [] then 0 else 16 * HexValue(digits[..|digits| - 1]) + DigitValue(digits[|digits| - 1])
  }

  /** The digits read back as the value, and are padded only up to `width`. */
  lemma {:induction false} HexReadsBack(v: nat, width: nat)
    ensures forall c <- Hex(v, width) :: IsHexDigit(c)
    ensures HexValue(Hex(v, width)) == v
    ensures |Hex(v, width)| > width && |Hex(v, width)| > 1 ==> Hex(v, width)[0] != 0x30
    decreases v + width
  {
    if v < 16 && width <= 1 {
      assert Hex(v, width)[..0] == [];
    } else {
      var width' := if width == 0 then 0 else width - 1;
      var rest := Hex(v / 16, width');
      HexReadsBack(v / 16, width');
      assert Hex(v, width)[..|rest|] == rest;
    }
  }

  lemma HexLength(v: nat)
    ensures v < 0x100 ==> |Hex(v, 2)| == 2
    ensures v < 0x1_0000 ==> |Hex(v, 4)| == 4
  {
    if v < 0x100 {
      assert |Hex(v / 16, 1)| == 1;
    }
    if v < 0x1_0000 {
      assert |Hex(v / 16 / 16 / 16, 1)| == 1;
      assert |Hex(v / 16 / 16, 2)| == 2;
      assert |Hex(v / 16, 3)| == 3;
    }
  }

  /**
   An escape names its rune: a backslash, `x` and two digits or `u` and at least
   four, unpadded past that, which read back as the rune.
   */
  lemma EscapeExact(r: nat)
    ensures
      var e := Escape(r);
      var digits := e[2..];
      && |e| >= 4 && e[0] == 0x5C && e[1] == (if r < 0x100 then 0x78 else 0x75)
      && (forall c <- digits :: IsHexDigit(c)) && HexValue(digits) == r
      && (r < 0x100 ==> |digits| == 2) && (0x100 <= r < 0x1_0000 ==> |digits| == 4)
      && (r >= 0x1_0000 && |digits| > 4 ==> digits[0] != 0x30)
  {
    HexReadsBack(r, 2);
    HexReadsBack(r, 4);
    HexLength(r);
    var digits := if r <= 0xFF then Hex(r, 2) else Hex(r, 4);
    assert Escape(r)[2..] == digits;
  }

  /** What a decoded rune is printed as. */
  function Shown(r: int): (runes: seq<int>)
    requires Scalar(r)
    ensures Scalars(runes) && AllClean(runes)
  {
    if Clean(r) then [r] else Escape(r)
  }

  /** The runes printed for `raw`, an ill-formed byte standing for the replacement character. */
  function SafeRunes(raw: seq<Byte>): (runes: seq<int>)
    ensures Scalars(runes) && AllClean(runes)
    decreases |raw|
  {
    if raw == [] then []
    else
      match Decode(raw)
      case Illformed => [REPLACEMENT] + SafeRunes(raw[1..])
      case Rune(value, size) =>
        DecodesOnlyEncodings(raw);
        Shown(value) + SafeRunes(raw[size..])
  }

  ghost function Safe(raw: seq<Byte>): seq<Byte> {
    EncodeAll(SafeRunes(raw))
  }

  lemma EncodeOne(r: int)
    requires Scalar(r)
    ensures EncodeAll([r]) == Encode(r)
  {
    assert [r][1..] == [];
    assert Encode(r) + [] == Encode(r);
  }

  lemma SafeStep(raw: seq<Byte>)
    requires raw != []
    ensures Decode(raw).Illformed? ==> Safe(raw) == Encode(REPLACEMENT) + Safe(raw[1..])
    ensures Decode(raw).Rune? ==>
      var d := Decode(raw);
      && 1 <= d.size <= |raw| && Scalar(d.value)
      && Safe(raw) == EncodeAll(Shown(d.value)) + Safe(raw[d.size..])
  {
    hide Decode, Encode, Clean, Shown;
    var decoded := Decode(raw);
    if decoded.Illformed? {
      EncodeOne(REPLACEMENT);
      EncodeAllConcat([REPLACEMENT], SafeRunes(raw[1..]));
    } else {
      DecodesOnlyEncodings(raw);
      EncodeAllConcat(Shown(decoded.value), SafeRunes(raw[decoded.size..]));
    }
  }

  /** Consumes the bytes rune by rune, appending what each is printed as. */
  method SafeTerminalText(raw: seq<Byte>) returns (safe: seq<Byte>)
    ensures safe == Safe(raw)
  {
    hide Safe, Decode, Encode, Shown, EncodeAll;
    safe := [];
    var rest := raw;
    while rest != []
      invariant safe + Safe(rest) == Safe(raw)
      decreases |rest|
    {
      SafeStep(rest);
      var decoded := Decode(rest);
      if decoded.Illformed? {
        safe, rest := safe + Encode(REPLACEMENT), rest[1..];
      } else {
        safe, rest := safe + EncodeAll(Shown(decoded.value)), rest[decoded.size..];
      }
    }
    assert Safe(rest) == [] by { NothingIsSafe(); }
  }

  lemma NothingIsSafe()
    ensures Safe([]) == []
  {
  }

  lemma CleanIsShown(r: int)
    requires Clean(r)
    ensures Shown(r) == [r]
  {
  }

  /** Text already clean is printed as it is. */
  lemma {:induction false} CleanIsKept(runes: seq<int>)
    requires AllClean(runes) && Scalars(runes)
    ensures SafeRunes(EncodeAll(runes)) == runes
  {
    if runes != [] {
      hide Clean, Decode, Encode, Shown, Scalar;
      var r, rest := runes[0], runes[1..];
      CleanIsKept(rest);
      CleanIsShown(r);
      RoundTrip(r, EncodeAll(rest));
      assert EncodeAll(runes)[|Encode(r)|..] == EncodeAll(rest);
    }
  }

  /** Well-formed UTF-8 of nothing but clean runes. */
  ghost predicate CleanText(text: seq<Byte>) {
    exists runes :: Scalars(runes) && AllClean(runes) && text == EncodeAll(runes)
  }

  /**
   Safe text is well-formed UTF-8 whose every rune is clean, printing it again
   changes nothing, and only such text is printed unchanged.
   */
  lemma SafeTextIsClean(raw: seq<Byte>)
    ensures CleanText(Safe(raw))
    ensures Safe(Safe(raw)) == Safe(raw)
    ensures Safe(raw) == raw <==> CleanText(raw)
  {
    hide AllClean, Scalars;
    CleanIsKept(SafeRunes(raw));
    if CleanText(raw) {
      var runes :| Scalars(runes) && AllClean(runes) && raw == EncodeAll(runes);
      CleanIsKept(runes);
    }
  }

  // ----------------------------------------------------------------------- one line

  const BLANK := 0x20

  /** The runes up to the first white space. */
  function FirstWord(runes: seq<int>): (word: seq<int>)
    ensures |word| <= |runes| && word == runes[..|word|]
    ensures forall r <- word :: !Space(r)
    ensures |word| < |runes| ==> Space(runes[|word|])
  {
    if runes == [] || Space(runes[0]) then [] else [runes[0]] + FirstWord(runes[1..])
  }

  function Words(runes: seq<int>): seq<seq<int>>
    decreases |runes|
  {
    if runes == [] then []
    else if Space(runes[0]) then Words(runes[1..])
    else
      var word := FirstWord(runes);
      [word] + Words(runes[|word|..])
  }

  function Join(words: seq<seq<int>>): seq<int> {
    if words == [] then []
    else if |words| == 1 then words[0]
    else words[0] + [BLANK] + Join(words[1..])
  }

  /** The words of a text with one blank between them. */
  function OneLine(runes: seq<int>): seq<int> {
    Join(Words(runes))
  }

  function Visible(runes: seq<int>): seq<int> {
    if runes == [] then [] else (if Space(runes[0]) then [] else [runes[0]]) + Visible(runes[1..])
  }

  lemma {:induction false} VisibleConcat(a: seq<int>, b: seq<int>)
    ensures Visible(a + b) == Visible(a) + Visible(b)
  {
    if a == [] {
      assert a + b == b;
    } else {
      assert (a + b)[1..] == a[1..] + b;
      VisibleConcat(a[1..], b);
    }
  }

  lemma {:induction false} VisibleWord(word: seq<int>)
    requires forall r <- word :: !Space(r)
    ensures Visible(word) == word
  {
    if word != [] {
      VisibleWord(word[1..]);
    }
  }

  ghost predicate AreWords(words: seq<seq<int>>) {
    forall w <- words :: w != [] && forall r <- w :: !Space(r)
  }

  lemma {:induction false} WordsAre(runes: seq<int>)
    ensures AreWords(Words(runes))
    ensures Visible(Join(Words(runes))) == Visible(runes)
    decreases |runes|
  {
    if runes != [] {
      if Space(runes[0]) {
        WordsAre(runes[1..]);
      } else {
        hide Space;
        var word := FirstWord(runes);
        var rest := runes[|word|..];
        assert |word| > 0 by { assert !Space(runes[0]); }
        WordsAre(rest);
        assert runes == word + rest;
        VisibleConcat(word, rest);
        VisibleJoin(word, Words(rest));
      }
    }
  }

  lemma VisibleJoin(word: seq<int>, words: seq<seq<int>>)
    ensures Visible(Join([word] + words)) == Visible(word) + Visible(Join(words))
  {
    assert ([word] + words)[1..] == words;
    if words != [] {
      VisibleConcat(word + [BLANK], Join(words));
      VisibleConcat(word, [BLANK]);
      assert [BLANK][1..] == [];
    }
  }

  /** Blanks stand only between words, one at a time. */
  ghost predicate Neat(line: seq<int>) {
    && (forall r <- line :: Space(r) ==> r == BLANK)
    && (line != [] ==> !Space(line[0]) && !Space(line[|line| - 1]))
    && (forall i | 0 <= i < |line| - 1 :: !(Space(line[i]) && Space(line[i + 1])))
  }

  lemma NeatConcat(word: seq<int>, line: seq<int>)
    requires word != [] && (forall r <- word :: !Space(r)) && line != [] && Neat(line)
    ensures Neat(word + [BLANK] + line)
  {
    var all := word + [BLANK] + line;
    assert forall i | 0 <= i < |word| :: all[i] == word[i] && word[i] in word;
    assert forall i | |word| < i < |all| :: all[i] == line[i - |word| - 1];
  }

  lemma {:induction false} JoinIsNeat(words: seq<seq<int>>)
    requires AreWords(words)
    ensures Neat(Join(words)) && (words != [] ==> Join(words) != [])
  {
    if |words| == 1 {
      assert words[0] in words;
    } else if |words| > 1 {
      hide Neat, Space;
      assert words[0] in words;
      assert forall w <- words[1..] :: w in words;
      JoinIsNeat(words[1..]);
      NeatConcat(words[0], Join(words[1..]));
    }
  }

  lemma {:induction false} VisibleMembers(runes: seq<int>, r: int)
    ensures r in Visible(runes) <==> r in runes && !Space(r)
  {
    if runes != [] {
      hide Space;
      VisibleMembers(runes[1..], r);
    }
  }

  /**
   Recorded text on one line: every visible rune in its place and nothing else
   but single blanks between words, so no line break and no control or format
   character is left.
   */
  lemma LineIsClean(raw: seq<Byte>)
    ensures
      var line := OneLine(SafeRunes(raw));
      && Neat(line) && Visible(line) == Visible(SafeRunes(raw))
      && Scalars(line) && forall r <- line :: !Control(r) && !Format(r)
  {
    hide Space, Clean, Format, Words, Join, Visible, SafeRunes;
    var runes := SafeRunes(raw);
    var line := OneLine(runes);
    WordsAre(runes);
    JoinIsNeat(Words(runes));
    forall r <- line ensures Scalar(r) && !Control(r) && !Format(r) {
      VisibleMembers(line, r);
      VisibleMembers(runes, r);
      CleanOnLine(r);
    }
  }

  lemma CleanOnLine(r: int)
    ensures Clean(r) && !Space(r) ==> Scalar(r) && !Control(r) && !Format(r)
    ensures Scalar(BLANK) && !Control(BLANK) && !Format(BLANK)
  {
  }

  const ELLIPSIS: seq<Byte> := [0x2E, 0x2E, 0x2E]

  lemma NextRuneOverflows(line: seq<int>, k: nat, m: nat, n: nat)
    requires Scalars(line) && k < |line| && m <= n < |EncodeAll(line)|
    requires |EncodeAll(line[..k])| == m
    requires forall i | m < i <= n :: Continuation(EncodeAll(line)[i])
    ensures n < |EncodeAll(line[..k + 1])|
  {
    var head, rest := EncodeAll(line[..k + 1]), EncodeAll(line[k + 1..]);
    assert line[..k + 1] == line[..k] + [line[k]];
    EncodeAllConcat(line[..k], [line[k]]);
    EncodeOne(line[k]);
    assert line == line[..k + 1] + line[k + 1..];
    EncodeAllConcat(line[..k + 1], line[k + 1..]);
    if k + 1 < |line| {
      EncodeShape(line[k + 1]);
      assert EncodeAll(line)[|head|] == rest[0] == Encode(line[k + 1])[0];
    } else {
      assert line[k + 1..] == [];
    }
  }

  function LineOf(raw: seq<Byte>): (line: seq<int>)
    ensures Scalars(line)
  {
    LineIsClean(raw);
    OneLine(SafeRunes(raw))
  }

  /**
   Recorded text clipped to `n` bytes: its one line whole when that fits, else
   the longest run of whole runes within `n` bytes followed by an ellipsis.
   */
  method ClipCampaignText(raw: seq<Byte>, n: nat) returns (text: seq<Byte>)
    ensures |text| <= n + 3
    ensures |EncodeAll(LineOf(raw))| <= n ==> text == EncodeAll(LineOf(raw))
    ensures |EncodeAll(LineOf(raw))| > n ==>
      exists k ::
        && 0 <= k < |LineOf(raw)|
        && text == EncodeAll(LineOf(raw)[..k]) + ELLIPSIS
        && |EncodeAll(LineOf(raw)[..k])| <= n < |EncodeAll(LineOf(raw)[..k + 1])|
  {
    hide LineOf, Encode, Scalar;
    ghost var line := LineOf(raw);
    var s := EncodeAll(LineOf(raw));
    if |s| <= n {
      return s;
    }
    var m := n;
    while m > 0 && Continuation(s[m])
      invariant 0 <= m <= n
      invariant forall i | m < i <= n :: Continuation(s[i])
    {
      m := m - 1;
    }
    text := s[..m] + ELLIPSIS;
    assert line != [];
    assert m == 0 ==> !Continuation(s[0]) by { EncodeShape(line[0]); }
    ghost var k := CutsBetweenRunes(line, m);
    NextRuneOverflows(line, k, m, n);
  }
}
