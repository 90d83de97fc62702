/**
 Text shown to the user: Go strings are bytes, read as UTF-8 with replacement of malformed
 bytes, and Windows takes UTF-16 (section 2.1 of RFC 2781). The Unicode category Cf is a
 parameter `cf`; the other categories used are small enough to be written out.
 */
module Text {
  import opened Bytes

  /** A Unicode scalar value: a code point that is not a surrogate. */
  type Rune = r: int | 0 <= r < 0xD800 || 0xE000 <= r < 0x11_0000

  const REPLACEMENT: Rune := 0xFFFD
  const SPACE: Rune := 0x20
  const ELLIPSIS: Rune := 0x2026

  // ----- UTF-8 -----

  function EncodeRune(r: Rune): (b: bytes)
    ensures 1 <= |b| <= 4
  {
    if r < 0x80 then [r]
    else if r < 0x800 then [0xC0 + r / 64, 0x80 + r % 64]
    else if r < 0x1_0000 then [0xE0 + r / 64 / 64, 0x80 + r / 64 % 64, 0x80 + r % 64]
    else [0xF0 + r / 64 / 64 / 64, 0x80 + r / 64 / 64 % 64, 0x80 + r / 64 % 64, 0x80 + r % 64]
  }

  predicate Continues(b: bytes, i: nat, lo: int, hi: int) {
    i < |b| && lo <= b[i] <= hi
  }

  /** utf8.DecodeRune: the rune at the front and its size; a malformed byte counts as one. */
  function DecodeRune(b: bytes): (r: (Rune, nat))
    requires b != []
    ensures 1 <= r.1 <= |b|
  {
    var b0: int := b[0];
    if b0 < 0x80 then (b0, 1)
    else if 0xC2 <= b0 <= 0xDF && Continues(b, 1, 0x80, 0xBF) then ((b0 - 0xC0) * 64 + (b[1] - 0x80), 2)
    else if && 0xE0 <= b0 <= 0xEF && Continues(b, 2, 0x80, 0xBF)
            && Continues(b, 1, if b0 == 0xE0 then 0xA0 else 0x80, if b0 == 0xED then 0x9F else 0xBF)
    then (((b0 - 0xE0) * 64 + (b[1] - 0x80)) * 64 + (b[2] - 0x80), 3)
    else if && 0xF0 <= b0 <= 0xF4 && Continues(b, 2, 0x80, 0xBF) && Continues(b, 3, 0x80, 0xBF)
            && Continues(b, 1, if b0 == 0xF0 then 0x90 else 0x80, if b0 == 0xF4 then 0x8F else 0xBF)
    then ((((b0 - 0xF0) * 64 + (b[1] - 0x80)) * 64 + (b[2] - 0x80)) * 64 + (b[3] - 0x80), 4)
    else (REPLACEMENT, 1)
  }

  /**
   The form of a rune: one byte below 0x80, two below 0x800, three below 0x10000, four above;
   a leading byte that tells which, six bits of the rune in each byte that follows.
   */
  lemma EncodeRuneExact(r: Rune)
    ensures var b := EncodeRune(r);
            if r < 0x80 then b == [r]
            else if r < 0x800 then
              |b| == 2 && 0xC2 <= b[0] <= 0xDF && 0x80 <= b[1] <= 0xBF
              && r == (b[0] as int - 0xC0) * 0x40 + (b[1] as int - 0x80)
            else if r < 0x1_0000 then
              |b| == 3 && 0xE0 <= b[0] <= 0xEF && 0x80 <= b[1] <= 0xBF && 0x80 <= b[2] <= 0xBF
              && r == (b[0] as int - 0xE0) * 0x1000 + (b[1] as int - 0x80) * 0x40 + (b[2] as int - 0x80)
            else
              |b| == 4 && 0xF0 <= b[0] <= 0xF4 && 0x80 <= b[1] <= 0xBF && 0x80 <= b[2] <= 0xBF && 0x80 <= b[3] <= 0xBF
              && r == (b[0] as int - 0xF0) * 0x4_0000 + (b[1] as int - 0x80) * 0x1000
                      + (b[2] as int - 0x80) * 0x40 + (b[3] as int - 0x80)
  {
  }

  function EncodeRunes(rs: seq<Rune>): bytes {
    if rs == [] then [] else EncodeRune(rs[0]) + EncodeRunes(rs[1..])
  }

  /** `[]rune(string(value))`. */
  function DecodeRunes(b: bytes): (rs: seq<Rune>)
    ensures b != [] ==> rs != []
    decreases |b|
  {
    if b == [] then [] else
      var (r, size) := DecodeRune(b);
      [r] + DecodeRunes(b[size..])
  }

  lemma DecodeOfEncodedRune(r: Rune, rest: bytes)
    ensures DecodeRune(EncodeRune(r) + rest) == (r, |EncodeRune(r)|)
  {
    var b := EncodeRune(r) + rest;
    assert forall i :: 0 <= i < |EncodeRune(r)| ==> b[i] == EncodeRune(r)[i];
  }

  /** What is decoded is either the form of the rune found, or one malformed byte. */
  lemma DecodedIsForm(b: bytes)
    requires b != []
    ensures var (r, size) := DecodeRune(b);
            size <= |b| && (b[..size] == EncodeRune(r) || (r == 0xFFFD && size == 1))
  {
    var size := DecodeRune(b).1;
    if size == 3 {
      ThreeDigits(b[0] - 0xE0, b[1] - 0x80, b[2] - 0x80);
      ThreeBytesAreForm(b);
    } else if size == 4 {
      FourBytesAreForm(b);
    }
  }

  lemma ThreeDigits(x: int, y: int, z: int)
    requires 0 <= x && 0 <= y < 64 && 0 <= z < 64
    ensures var n := (x * 64 + y) * 64 + z;
            n % 64 == z && n / 64 == x * 64 + y && n / 64 % 64 == y && n / 64 / 64 == x
  {
  }

  lemma ThreeBytesAreForm(b: bytes)
    requires b != [] && DecodeRune(b).1 == 3
    ensures b[..3] == EncodeRune(DecodeRune(b).0)
  {
    ThreeDigits(b[0] - 0xE0, b[1] - 0x80, b[2] - 0x80);
    assert b[..3] == [b[0], b[1], b[2]];
  }

  lemma FourBytesAreForm(b: bytes)
    requires b != [] && DecodeRune(b).1 == 4
    ensures b[..4] == EncodeRune(DecodeRune(b).0)
  {
    ThreeDigits(b[0] - 0xF0, b[1] - 0x80, b[2] - 0x80);
    ThreeDigits((b[0] as int - 0xF0) * 64 + (b[1] - 0x80), b[2] - 0x80, b[3] - 0x80);
    assert b[..4] == [b[0], b[1], b[2], b[3]];
  }

  /**
   A rune is decoded exactly where its form stands; a byte at which no form stands gives one
   U+FFFD, and reading goes on at the next byte.
   */
  lemma DecodeRuneExact(b: bytes)
    requires b != []
    ensures forall r: Rune :: EncodeRune(r) <= b ==> DecodeRune(b) == (r, |EncodeRune(r)|)
    ensures (forall r: Rune :: !(EncodeRune(r) <= b)) ==> DecodeRune(b) == (0xFFFD, 1)
  {
    forall r: Rune | EncodeRune(r) <= b
      ensures DecodeRune(b) == (r, |EncodeRune(r)|)
    {
      DecodeOfEncodedRune(r, b[|EncodeRune(r)|..]);
      assert b == EncodeRune(r) + b[|EncodeRune(r)|..];
    }
    DecodedIsForm(b);
    var (r, size) := DecodeRune(b);
    if b[..size] == EncodeRune(r) {
      assert EncodeRune(r) <= b;
    }
  }

  /** So a whole text is read: rune by rune where forms stand, and byte by byte where none does. */
  lemma TextReadsOn(b: bytes)
    requires b != []
    ensures forall r: Rune :: EncodeRune(r) <= b ==> DecodeRunes(b) == [r] + DecodeRunes(b[|EncodeRune(r)|..])
    ensures (forall r: Rune :: !(EncodeRune(r) <= b)) ==> DecodeRunes(b) == [0xFFFD] + DecodeRunes(b[1..])
  {
    DecodeRuneExact(b);
  }

  /** Text that was encoded reads back unchanged, whatever it contains. */
  lemma {:induction false} DecodeOfEncodedRunes(rs: seq<Rune>)
    ensures DecodeRunes(EncodeRunes(rs)) == rs
  {
    if rs != [] {
      var rest := EncodeRunes(rs[1..]);
      DecodeOfEncodedRune(rs[0], rest);
      assert (EncodeRune(rs[0]) + rest)[|EncodeRune(rs[0])|..] == rest;
      DecodeOfEncodedRunes(rs[1..]);
    }
  }

  lemma {:induction false} EncodeRunesSnoc(rs: seq<Rune>, r: Rune)
    ensures EncodeRunes(rs + [r]) == EncodeRunes(rs) + EncodeRune(r)
  {
    if rs == [] {
      assert [r][1..] == [];
    } else {
      assert (rs + [r])[1..] == rs[1..] + [r];
      EncodeRunesSnoc(rs[1..], r);
    }
  }

  // ----- blanking -----

  predicate IsControl(r: Rune) {
    r < 0x20 || 0x7F <= r < 0xA0
  }

  /** Neither the space nor the ellipsis is a format character. */
  predicate Sane(cf: set<Rune>) {
    SPACE !in cf && ELLIPSIS !in cf
  }

  /** displayText also replaces the line and paragraph separators; cleanUIText does not. */
  datatype Purpose = ForDisplay | ForUI

  predicate Hidden(purpose: Purpose, cf: set<Rune>, r: Rune) {
    IsControl(r) || r in cf || (purpose == ForDisplay && (r == 0x2028 || r == 0x2029))
  }

  function Blank(purpose: Purpose, cf: set<Rune>, r: Rune): Rune {
    if Hidden(purpose, cf, r) then SPACE else r
  }

  function Blanked(purpose: Purpose, cf: set<Rune>, rs: seq<Rune>): (out: seq<Rune>)
    ensures |out| == |rs|
    ensures forall i :: 0 <= i < |rs| ==> out[i] == Blank(purpose, cf, rs[i])
  {
    if rs == [] then [] else Blanked(purpose, cf, rs[..|rs| - 1]) + [Blank(purpose, cf, rs[|rs| - 1])]
  }

  function Take(rs: seq<Rune>, limit: nat): seq<Rune> {
    if |rs| <= limit then rs else rs[..limit]
  }

  /** displayText as a function: rune for rune up to the limit, then one ellipsis if there was more. */
  function Displayed(cf: set<Rune>, rs: seq<Rune>, limit: nat): seq<Rune> {
    Blanked(ForDisplay, cf, Take(rs, limit)) + (if |rs| > limit then [ELLIPSIS] else [])
  }

  const UI_LIMIT := 2048

  function Cleaned(cf: set<Rune>, rs: seq<Rune>): seq<Rune> {
    Blanked(ForUI, cf, Take(rs, UI_LIMIT))
  }

  /**
   The display form of a text, written out: as many runes as the text up to the limit, and one
   ellipsis behind them when there were more; each of the controls U+0000..U+001F and
   U+007F..U+009F, of the format characters and of U+2028 and U+2029 is a space, and every
   other rune is itself.
   */
  predicate DisplaysAs(cf: set<Rune>, rs: seq<Rune>, limit: nat, out: seq<Rune>) {
    && |out| == (if |rs| <= limit then |rs| else limit + 1)
    && (forall i :: 0 <= i < |rs| && i < limit ==>
          out[i] == if 0 <= rs[i] <= 0x1F || 0x7F <= rs[i] <= 0x9F || rs[i] in cf || rs[i] == 0x2028 || rs[i] == 0x2029
                    then 0x20 else rs[i])
    && (|rs| > limit ==> out[limit] == 0x2026)
  }

  lemma DisplayedExact(cf: set<Rune>, rs: seq<Rune>, limit: nat)
    ensures DisplaysAs(cf, rs, limit, Displayed(cf, rs, limit))
  {
  }

  /** A text of at most `limit` runes, all of them visible, is displayed unchanged. */
  lemma VisibleIsUnchanged(cf: set<Rune>, rs: seq<Rune>, limit: nat)
    requires |rs| <= limit
    requires forall i :: 0 <= i < |rs| ==>
               rs[i] > 0x1F && !(0x7F <= rs[i] <= 0x9F) && rs[i] !in cf && rs[i] != 0x2028 && rs[i] != 0x2029
    ensures Displayed(cf, rs, limit) == rs
  {
    DisplayedExact(cf, rs, limit);
  }

  /** The UI's own cleaning, written out: the first 2048 runes, controls and format characters as spaces. */
  lemma CleanedExact(cf: set<Rune>, rs: seq<Rune>)
    ensures var out := Cleaned(cf, rs);
            && |out| == (if |rs| <= 2048 then |rs| else 2048)
            && forall i :: 0 <= i < |out| ==>
                 out[i] == if 0 <= rs[i] <= 0x1F || 0x7F <= rs[i] <= 0x9F || rs[i] in cf then 0x20 else rs[i]
  {
  }

  lemma BlankedSnoc(purpose: Purpose, cf: set<Rune>, rs: seq<Rune>, count: nat)
    requires count < |rs|
    ensures Blanked(purpose, cf, rs[..count + 1]) == Blanked(purpose, cf, rs[..count]) + [Blank(purpose, cf, rs[count])]
  {
    assert rs[..count + 1][..count] == rs[..count];
  }

  method DisplayText(cf: set<Rune>, value: bytes, limit: nat) returns (text: bytes)
    ensures text == EncodeRunes(Displayed(cf, DecodeRunes(value), limit))
  {
    var rs := DecodeRunes(value);
    text := [];
    var count := 0;
    while count < |rs|
      invariant count <= |rs| && count <= limit
      invariant text == EncodeRunes(Blanked(ForDisplay, cf, rs[..count]))
    {
      var r := rs[count];
      if count == limit {
        text := text + EncodeRune(ELLIPSIS);
        EncodeRunesSnoc(Blanked(ForDisplay, cf, rs[..count]), ELLIPSIS);
        return;
      }
      if IsControl(r) || r in cf || r == 0x2028 || r == 0x2029 {
        r := SPACE;
      }
      BlankedSnoc(ForDisplay, cf, rs, count);
      EncodeRunesSnoc(Blanked(ForDisplay, cf, rs[..count]), r);
      text := text + EncodeRune(r);
      count := count + 1;
    }
    assert rs[..count] == rs;
    assert Displayed(cf, rs, limit) == Blanked(ForDisplay, cf, rs);
  }

  /** cleanUIText; `range` over a string decodes it as it goes. */
  method CleanUIText(cf: set<Rune>, value: bytes) returns (text: bytes)
    ensures text == EncodeRunes(Cleaned(cf, DecodeRunes(value)))
  {
    ghost var rs := DecodeRunes(value);
    var out: seq<Rune> := [];
    var rest := value;
    while rest != []
      invariant |out| < UI_LIMIT && Cleaning(cf, rs, out, rest)
      decreases |rest|
    {
      var (r, size) := DecodeRune(rest);
      CleaningOneMore(cf, rs, out, rest);
      if IsControl(r) || r in cf {
        r := SPACE;
      }
      out := out + [r];
      rest := rest[size..];
      if |out| == UI_LIMIT {
        break;
      }
    }
    CleaningDone(cf, rs, out, rest);
    text := EncodeRunes(out);
  }

  /** `out` is made of the first runes of rs, and `rest` holds those to come. */
  predicate Cleaning(cf: set<Rune>, rs: seq<Rune>, out: seq<Rune>, rest: bytes) {
    |out| <= |rs| && out == Blanked(ForUI, cf, rs[..|out|]) && DecodeRunes(rest) == rs[|out|..]
  }

  lemma CleaningOneMore(cf: set<Rune>, rs: seq<Rune>, out: seq<Rune>, rest: bytes)
    requires Cleaning(cf, rs, out, rest) && rest != []
    ensures var (r, size) := DecodeRune(rest);
            Cleaning(cf, rs, out + [Blank(ForUI, cf, r)], rest[size..])
  {
    var (r, size) := DecodeRune(rest);
    assert rs[|out|..] == [r] + DecodeRunes(rest[size..]);
    assert r == rs[|out|];
    BlankedSnoc(ForUI, cf, rs, |out|);
  }

  lemma CleaningDone(cf: set<Rune>, rs: seq<Rune>, out: seq<Rune>, rest: bytes)
    requires Cleaning(cf, rs, out, rest)
    requires |out| == UI_LIMIT || (|out| < UI_LIMIT && rest == [])
    ensures out == Cleaned(cf, rs)
  {
    assert rs[..|rs|] == rs;
  }

  /** Cleaning twice changes nothing more. */
  lemma CleaningIsIdempotent(cf: set<Rune>, rs: seq<Rune>)
    ensures Cleaned(cf, DecodeRunes(EncodeRunes(Cleaned(cf, rs)))) == Cleaned(cf, rs)
  {
    DecodeOfEncodedRunes(Cleaned(cf, rs));
  }

  /** Text bounded for display passes the UI's own cleaning unchanged, ellipsis included. */
  lemma DisplayedIsClean(cf: set<Rune>, rs: seq<Rune>, limit: nat)
    requires Sane(cf) && limit < UI_LIMIT
    ensures var shown := EncodeRunes(Displayed(cf, rs, limit));
            EncodeRunes(Cleaned(cf, DecodeRunes(shown))) == shown
  {
    var out := Displayed(cf, rs, limit);
    DecodeOfEncodedRunes(out);
    assert Cleaned(cf, out) == out;
  }

  // ----- UTF-16 -----

  type Unit = u: int | 0 <= u < 0x1_0000

  predicate IsHigh(u: Unit) {
    0xD800 <= u < 0xDC00
  }

  predicate IsLow(u: Unit) {
    0xDC00 <= u < 0xE000
  }

  function Utf16(r: Rune): (us: seq<Unit>)
    ensures 1 <= |us| <= 2
    ensures |us| == 1 ==> !IsHigh(us[0]) && !IsLow(us[0])
    ensures |us| == 2 ==> IsHigh(us[0]) && IsLow(us[1])
  {
    if r < 0x1_0000 then [r] else [0xD800 + (r - 0x1_0000) / 0x400, 0xDC00 + (r - 0x1_0000) % 0x400]
  }

  /** Below 0x10000 a rune is its own unit; above it is a high and a low surrogate. */
  lemma Utf16Exact(r: Rune)
    ensures var us := Utf16(r);
            if r < 0x1_0000 then us == [r]
            else
              && |us| == 2 && 0xD800 <= us[0] <= 0xDBFF && 0xDC00 <= us[1] <= 0xDFFF
              && r == 0x1_0000 + (us[0] as int - 0xD800) * 0x400 + (us[1] as int - 0xDC00)
  {
  }

  /** utf16.Encode. */
  function Utf16All(rs: seq<Rune>): seq<Unit> {
    if rs == [] then [] else Utf16(rs[0]) + Utf16All(rs[1..])
  }

  /** utf16.Decode: a surrogate without its partner reads as the replacement character. */
  function FromUtf16(us: seq<Unit>): seq<Rune> {
    if us == [] then []
    else if IsHigh(us[0]) && |us| > 1 && IsLow(us[1]) then
      [0x1_0000 + (us[0] - 0xD800) * 0x400 + (us[1] - 0xDC00)] + FromUtf16(us[2..])
    else if IsHigh(us[0]) || IsLow(us[0]) then [REPLACEMENT] + FromUtf16(us[1..])
    else [us[0]] + FromUtf16(us[1..])
  }

  lemma {:induction false} FromUtf16OfUtf16(rs: seq<Rune>)
    ensures FromUtf16(Utf16All(rs)) == rs
  {
    if rs != [] {
      var us := Utf16All(rs);
      var rest := Utf16All(rs[1..]);
      FromUtf16OfUtf16(rs[1..]);
      assert us[|Utf16(rs[0])|..] == rest;
      assert us[0] == Utf16(rs[0])[0];
    }
  }

  /** The number of leading runes whose UTF-16 form fits in `limit` units. */
  function Fitting(rs: seq<Rune>, limit: nat): (k: nat)
    ensures k <= |rs|
  {
    if rs == [] || |Utf16(rs[0])| > limit then 0 else 1 + Fitting(rs[1..], limit - |Utf16(rs[0])|)
  }

  /** That many runes fit, and no longer prefix does. */
  lemma {:induction false} FittingIsLongest(rs: seq<Rune>, limit: nat, k: nat)
    requires k <= |rs|
    ensures |Utf16All(rs[..k])| <= limit <==> k <= Fitting(rs, limit)
  {
    if k > 0 {
      assert rs[..k][1..] == rs[1..][..k - 1];
      if |Utf16(rs[0])| <= limit {
        FittingIsLongest(rs[1..], limit - |Utf16(rs[0])|, k - 1);
      }
    }
  }

  /** Cutting the units at the limit, and before a pair that the cut would split, cuts between runes. */
  lemma {:induction false} CutBetweenRunes(rs: seq<Rune>, limit: nat)
    requires |Utf16All(rs)| > limit
    ensures var us := Utf16All(rs);
            us[..if limit > 0 && IsHigh(us[limit - 1]) then limit - 1 else limit] == Utf16All(rs[..Fitting(rs, limit)])
  {
    var us := Utf16All(rs);
    var first := Utf16(rs[0]);
    var rest := Utf16All(rs[1..]);
    if |first| <= limit {
      CutBetweenRunes(rs[1..], limit - |first|);
      var k := Fitting(rs, limit);
      assert k == 1 + Fitting(rs[1..], limit - |first|);
      assert rs[..k][0] == rs[0] && rs[..k][1..] == rs[1..][..k - 1];
      assert Utf16All(rs[..k]) == first + Utf16All(rs[1..][..k - 1]);
      if limit > |first| {
        assert us[limit - 1] == rest[limit - 1 - |first|];
      } else {
        assert us[limit - 1] == first[|first| - 1];
      }
    }
  }

  /** At most `limit` units, without the first half of a pair that the limit splits. */
  function Cut(us: seq<Unit>, limit: nat): (kept: seq<Unit>)
    ensures |kept| <= limit && kept <= us
  {
    if |us| <= limit then us else us[..if limit > 0 && IsHigh(us[limit - 1]) then limit - 1 else limit]
  }

  /** What is kept of the units is always the longest prefix of the runes that fits. */
  lemma CutIsFitting(rs: seq<Rune>, limit: nat)
    ensures Cut(Utf16All(rs), limit) == Utf16All(rs[..Fitting(rs, limit)])
  {
    FittingIsLongest(rs, limit, |rs|);
    assert rs[..|rs|] == rs;
    if |Utf16All(rs)| > limit {
      CutBetweenRunes(rs, limit);
    }
  }

  function Zeros(n: nat): (us: seq<Unit>)
    ensures |us| == n && forall i :: 0 <= i < n ==> us[i] == 0
  {
    if n == 0 then [] else Zeros(n - 1) + [0]
  }

  /** `clear(destination)`, then `copy(destination, encoded)`. */
  method Fill(destination: array<Unit>, encoded: seq<Unit>)
    requires |encoded| <= destination.Length
    modifies destination
    ensures destination[..] == encoded + Zeros(destination.Length - |encoded|)
  {
    var i := 0;
    while i < destination.Length
      invariant i <= destination.Length
      invariant forall j :: 0 <= j < i ==> destination[j] == 0
    {
      destination[i] := 0;
      i := i + 1;
    }
    i := 0;
    while i < |encoded|
      invariant i <= |encoded|
      invariant destination[..i] == encoded[..i]
      invariant forall j :: i <= j < destination.Length ==> destination[j] == 0
    {
      destination[i] := encoded[i];
      i := i + 1;
    }
    assert destination[..] == destination[..|encoded|] + destination[|encoded|..];
    assert destination[|encoded|..] == Zeros(destination.Length - |encoded|);
  }

  /** The cleaned text as UTF-16, by way of its UTF-8 form. */
  method CleanUnits(cf: set<Rune>, value: bytes) returns (us: seq<Unit>)
    ensures us == Utf16All(Cleaned(cf, DecodeRunes(value)))
  {
    var text := CleanUIText(cf, value);
    DecodeOfEncodedRunes(Cleaned(cf, DecodeRunes(value)));
    us := Utf16All(DecodeRunes(text));
  }

  /**
   copyUIText: the longest prefix of the cleaned text that fits in all but the last unit,
   then zeros to the end; an empty destination is left alone.
   */
  method CopyUIText(cf: set<Rune>, destination: array<Unit>, value: bytes)
    modifies destination
    ensures destination.Length > 0 ==>
              var rs := Cleaned(cf, DecodeRunes(value));
              var us := Utf16All(rs[..Fitting(rs, destination.Length - 1)]);
              |us| < destination.Length && destination[..] == us + Zeros(destination.Length - |us|)
  {
    if destination.Length == 0 {
      return;
    }
    var limit := destination.Length - 1;
    var encoded := CleanUnits(cf, value);
    ghost var units := encoded;
    if |encoded| > limit {
      encoded := encoded[..limit];
      if limit > 0 && 0xD800 <= encoded[limit - 1] <= 0xDBFF {
        encoded := encoded[..limit - 1];
      }
    }
    assert encoded == Cut(units, limit);
    CutIsFitting(Cleaned(cf, DecodeRunes(value)), limit);
    Fill(destination, encoded);
  }

  lemma {:induction false} NoZeroUnit(rs: seq<Rune>)
    requires forall i :: 0 <= i < |rs| ==> rs[i] != 0
    ensures forall i :: 0 <= i < |Utf16All(rs)| ==> Utf16All(rs)[i] != 0
  {
    if rs != [] {
      NoZeroUnit(rs[1..]);
    }
  }

  /**
   What copyUIText leaves in the buffer reads back as that prefix of the cleaned text: no
   NUL ends it early and no surrogate is unpaired.
   */
  lemma CopiedTextReadsBack(cf: set<Rune>, rs: seq<Rune>, limit: nat)
    ensures var shown := Cleaned(cf, rs)[..Fitting(Cleaned(cf, rs), limit)];
            && FromUtf16(Utf16All(shown)) == shown
            && (forall i :: 0 <= i < |Utf16All(shown)| ==> Utf16All(shown)[i] != 0)
  {
    var shown := Cleaned(cf, rs)[..Fitting(Cleaned(cf, rs), limit)];
    FromUtf16OfUtf16(shown);
    NoZeroUnit(shown);
  }
}
