/**
 * The colour conversions of the colour picker: `rgbToHex`, `hexToRgb` and the
 * parse of the picker's "rgb(r, g, b)" string into numbers.
 */
module ColorPicker {
  import opened JsString

  // ---------------------------------------------------------------- hex digits

  predicate IsHexDigit(c: char)
  {
    ('0' <= c <= '9') || ('a' <= c <= 'f') || ('A' <= c <= 'F')
  }

  predicate AllHexDigits(s: string)
  {
    forall k :: 0 <= k < |s| ==> IsHexDigit(s[k])
  }

  predicate IsLowerHexDigit(c: char)
  {
    ('0' <= c <= '9') || ('a' <= c <= 'f')
  }

  function HexDigitValue(c: char): (d: nat)
    requires IsHexDigit(c)
    ensures d < 16
  {
    if '0' <= c <= '9' then c as int - '0' as int
    else if 'a' <= c <= 'f' then c as int - 'a' as int + 10
    else c as int - 'A' as int + 10
  }

  /** The digit `toString(16)` writes for `d`: lower-case letters above nine. */
  function HexChar(d: nat): (c: char)
    requires d < 16
    ensures IsLowerHexDigit(c) && IsHexDigit(c)
  {
    if d < 10 then ('0' as int + d) as char else ('a' as int + d - 10) as char
  }

  lemma HexCharValue(d: nat)
    requires d < 16
    ensures HexDigitValue(HexChar(d)) == d
  {
  }

  /** Reading a digit and writing it back lower-cases it. */
  lemma HexCharOfValue(c: char)
    requires IsHexDigit(c)
    ensures HexChar(HexDigitValue(c)) == LowerChar(c)
  {
  }

  /** The value of a string of hex digits, most significant first. */
  function HexValue(s: string): nat
    requires AllHexDigits(s)
  {
    if s == [] then 0 else HexValue(s[..|s| - 1]) * 16 + HexDigitValue(s[|s| - 1])
  }

  function Pow16(n: nat): (p: nat)
    ensures p >= 1
  {
    if n == 0 then 1 else 16 * Pow16(n - 1)
  }

  lemma {:induction false} HexValueAppend(a: string, b: string)
    requires AllHexDigits(a) && AllHexDigits(b)
    ensures AllHexDigits(a + b)
    ensures HexValue(a + b) == HexValue(a) * Pow16(|b|) + HexValue(b)
    decreases |b|
  {
    if b == [] {
      assert a + b == a;
    } else {
      var b0, last := b[..|b| - 1], b[|b| - 1];
      HexValueAppend(a, b0);
      assert b == b0 + [last];
      assert a + b == (a + b0) + [last];
      HexValueSnoc(a + b0, last);
      HexValueSnoc(b0, last);
      Distribute(HexValue(a), Pow16(|b0|), HexValue(b0), HexDigitValue(last));
    }
  }

  /** Appending one digit multiplies the value by 16 and adds the digit. */
  lemma HexValueSnoc(s: string, c: char)
    requires AllHexDigits(s) && IsHexDigit(c)
    ensures AllHexDigits(s + [c])
    ensures HexValue(s + [c]) == HexValue(s) * 16 + HexDigitValue(c)
  {
    assert (s + [c])[..|s|] == s;
  }

  lemma Distribute(x: int, p: int, y: int, d: int)
    ensures (x * p + y) * 16 + d == x * (p * 16) + (y * 16 + d)
  {
  }

  // ---------------------------------------------------------------- rgbToHex

  /** `n.toString(16)` for a non-negative integer. */
  function NatToHex(n: nat): (r: string)
    ensures |r| >= 1
    decreases n
  {
    if n < 16 then [HexChar(n)] else NatToHex(n / 16) + [HexChar(n % 16)]
  }

  /** `x.toString(16)` for any integer: a '-' in front of a negative one. */
  function IntToHex(x: int): string
  {
    if x < 0 then "-" + NatToHex(-x) else NatToHex(x)
  }

  /** `s.padStart(2, '0')`. */
  function PadStart2(s: string): (r: string)
    ensures |s| < 2 ==> |r| == 2
  {
    if |s| >= 2 then s else if |s| == 1 then "0" + s else "00"
  }

  function ComponentHex(x: int): string
  {
    PadStart2(IntToHex(x))
  }

  /** Byte components give two lower-case digits each. */
  function HexDigitsOf(rgb: seq<int>): (r: string)
    ensures (forall k :: 0 <= k < |rgb| ==> 0 <= rgb[k] < 256) ==>
              |r| == 2 * |rgb| && forall k :: 0 <= k < |r| ==> IsLowerHexDigit(r[k])
  {
    if rgb == [] then []
    else
      var head := ComponentHex(rgb[0]);
      assert 0 <= rgb[0] < 256 ==> head == [HexChar(rgb[0] / 16), HexChar(rgb[0] % 16)] by {
        if 0 <= rgb[0] < 256 { ComponentHexOfByte(rgb[0]); }
      }
      head + HexDigitsOf(rgb[1..])
  }

  /**
   * `rgbToHex`: '#' and each component in padded hex, joined in order; any number of
   * byte components gives '#' and two lower-case digits per component.
   */
  function RgbToHex(rgb: seq<int>): (r: string)
    ensures |r| >= 1 && r[0] == '#'
    ensures (forall k :: 0 <= k < |rgb| ==> 0 <= rgb[k] < 256) ==>
              |r| == 1 + 2 * |rgb| && forall k :: 1 <= k < |r| ==> IsLowerHexDigit(r[k])
  {
    "#" + HexDigitsOf(rgb)
  }

  /** A component in 0..255 is written as two lower-case digits, high digit first. */
  lemma ComponentHexOfByte(x: int)
    requires 0 <= x < 256
    ensures ComponentHex(x) == [HexChar(x / 16), HexChar(x % 16)]
  {
    if x < 16 {
      assert NatToHex(x) == [HexChar(x)];
      assert HexChar(0) == '0';
    } else {
      assert NatToHex(x / 16) == [HexChar(x / 16)];
    }
  }

  /**
   * For components in 0..255 the result is '#' and six lower-case hex digits, two per
   * component, in R, G, B order, each pair reading back as its component.
   */
  lemma RgbToHexShape(r: int, g: int, b: int)
    requires 0 <= r < 256 && 0 <= g < 256 && 0 <= b < 256
    ensures var s := RgbToHex([r, g, b]);
            && |s| == 7 && s[0] == '#'
            && (forall k :: 1 <= k < 7 ==> IsLowerHexDigit(s[k]))
            && s[1..3] == ComponentHex(r) && s[3..5] == ComponentHex(g) && s[5..7] == ComponentHex(b)
            && HexValue(s[1..3]) == r && HexValue(s[3..5]) == g && HexValue(s[5..7]) == b
  {
    ComponentHexOfByte(r);
    ComponentHexOfByte(g);
    ComponentHexOfByte(b);
    HexDigitsOfTriple(r, g, b);
    var s := RgbToHex([r, g, b]);
    assert s == "#" + ComponentHex(r) + ComponentHex(g) + ComponentHex(b);
    TwoDigitValue(r);
    TwoDigitValue(g);
    TwoDigitValue(b);
  }

  lemma TwoDigitValue(x: int)
    requires 0 <= x < 256
    ensures AllHexDigits(ComponentHex(x)) && HexValue(ComponentHex(x)) == x
  {
    ComponentHexOfByte(x);
    var s := ComponentHex(x);
    assert s[..1] == [HexChar(x / 16)] && s[..1][..0] == [];
    HexCharValue(x / 16);
    HexCharValue(x % 16);
    assert HexValue(s[..1]) == x / 16;
    assert HexValue(s) == HexValue(s[..1]) * 16 + x % 16;
  }

  // ---------------------------------------------------------------- hexToRgb

  /** `hex.replace(/^#/, "")`: drops one leading '#', and only one. */
  function StripHash(hex: string): string
  {
    if |hex| > 0 && hex[0] == '#' then hex[1..] else hex
  }

  /** The three-digit shorthand doubles every digit; other strings stay as they are. */
  function Expand(h: string): (r: string)
    ensures |h| == 3 ==> |r| == 6 && forall k :: 0 <= k < 6 ==> r[k] == h[k / 2]
    ensures |h| != 3 ==> r == h
  {
    if |h| == 3 then [h[0], h[0], h[1], h[1], h[2], h[2]] else h
  }

  /** The inputs modelled: after one '#' is dropped, three or six hex digits. */
  predicate IsHexColor(hex: string)
  {
    var h := StripHash(hex);
    (|h| == 3 || |h| == 6) && AllHexDigits(h)
  }

  lemma ExpandedIsSixDigits(hex: string)
    requires IsHexColor(hex)
    ensures var h := Expand(StripHash(hex)); |h| == 6 && AllHexDigits(h)
  {
  }

  lemma {:induction false} HexValueBound(s: string)
    requires AllHexDigits(s)
    ensures HexValue(s) < Pow16(|s|)
    decreases |s|
  {
    if s != [] {
      HexValueBound(s[..|s| - 1]);
    }
  }

  /** Splitting a 24-bit value into bytes with shifts and masks, and putting it back. */
  lemma ByteSplit(v: nat)
    requires v < 16777216
    ensures ((v / 65536) % 256) * 65536 + ((v / 256) % 256) * 256 + v % 256 == v
  {
  }

  /**
   * The three bytes of a 24-bit value, as `>> 16`, `>> 8` and `& 255` take them apart;
   * together they spell the value.
   */
  function Bytes(v: nat): (r: seq<int>)
    requires v < 16777216
    ensures |r| == 3 && forall k :: 0 <= k < 3 ==> 0 <= r[k] < 256
    ensures r[0] * 65536 + r[1] * 256 + r[2] == v
  {
    ByteSplit(v);
    [(v / 65536) % 256, (v / 256) % 256, v % 256]
  }

  /**
   * `hexToRgb`: parse the expanded digits as one number and take its three bytes.
   * Every component is a byte, and together they spell the parsed number.
   */
  function HexToRgb(hex: string): (r: seq<int>)
    requires IsHexColor(hex)
    ensures |r| == 3 && forall k :: 0 <= k < 3 ==> 0 <= r[k] < 256
    ensures r[0] * 65536 + r[1] * 256 + r[2] == HexValue(Expand(StripHash(hex)))
  {
    var h := Expand(StripHash(hex));
    ExpandedIsSixDigits(hex);
    HexValueBound(h);
    assert Pow16(6) == 16777216;
    Bytes(HexValue(h))
  }

  /** A three-digit colour means the same as its doubled six-digit form. */
  lemma ShorthandExpands(h: string)
    requires |h| == 3 && AllHexDigits(h)
    ensures IsHexColor("#" + h) && IsHexColor("#" + Expand(h))
    ensures HexToRgb("#" + h) == HexToRgb("#" + Expand(h))
  {
    assert StripHash("#" + h) == h;
    assert StripHash("#" + Expand(h)) == Expand(h);
  }

  /** A second '#' is not removed, so "##..." is not a colour of the model. */
  lemma OnlyOneHashIsRemoved(h: string)
    ensures StripHash("#" + h) == h
    ensures !IsHexColor("##" + h)
  {
    assert StripHash("##" + h) == "#" + h;
    assert !IsHexDigit(("#" + h)[0]);
  }

  /** Six hex digits read as three two-digit bytes. */
  lemma SixDigitValue(h: string)
    requires |h| == 6 && AllHexDigits(h)
    ensures AllHexDigits(h[0..2]) && AllHexDigits(h[2..4]) && AllHexDigits(h[4..6])
    ensures HexValue(h) == HexValue(h[0..2]) * 65536 + HexValue(h[2..4]) * 256 + HexValue(h[4..6])
  {
    var p, q, r := h[0..2], h[2..4], h[4..6];
    assert p + q + r == h;
    PairsValue(p, q, r);
  }

  /** Three digit pairs in a row spell their values weighted 65536, 256 and 1. */
  lemma PairsValue(p: string, q: string, r: string)
    requires |q| == 2 && |r| == 2
    requires AllHexDigits(p) && AllHexDigits(q) && AllHexDigits(r)
    ensures AllHexDigits(p + q + r)
    ensures HexValue(p + q + r) == HexValue(p) * 65536 + HexValue(q) * 256 + HexValue(r)
  {
    HexValueAppend(p, q);
    HexValueAppend(p + q, r);
    assert Pow16(2) == 256;
    Shift256(HexValue(p), HexValue(q), HexValue(r));
  }

  lemma Shift256(a: int, b: int, c: int)
    ensures (a * 256 + b) * 256 + c == a * 65536 + b * 256 + c
  {
  }

  /** Three bytes are determined by the 24-bit value they spell. */
  lemma PackedUnique(a0: int, a1: int, a2: int, b0: int, b1: int, b2: int)
    requires 0 <= a0 < 256 && 0 <= a1 < 256 && 0 <= a2 < 256
    requires 0 <= b0 < 256 && 0 <= b1 < 256 && 0 <= b2 < 256
    requires a0 * 65536 + a1 * 256 + a2 == b0 * 65536 + b1 * 256 + b2
    ensures a0 == b0 && a1 == b1 && a2 == b2
  {
    assert a0 == b0;
    assert a1 == b1;
  }

  /** The hex form of three bytes is a colour whose digits spell the packed value. */
  lemma HexOfRgbValue(r: int, g: int, b: int)
    requires 0 <= r < 256 && 0 <= g < 256 && 0 <= b < 256
    ensures IsHexColor(RgbToHex([r, g, b]))
    ensures HexValue(Expand(StripHash(RgbToHex([r, g, b])))) == r * 65536 + g * 256 + b
  {
    RgbToHexShape(r, g, b);
    var s := RgbToHex([r, g, b]);
    var h := s[1..];
    assert StripHash(s) == h && Expand(h) == h;
    assert h[0..2] == s[1..3] && h[2..4] == s[3..5] && h[4..6] == s[5..7];
    assert AllHexDigits(h);
    SixDigitValue(h);
  }

  /** Round trip: the hex form of three bytes decodes to the same bytes. */
  lemma HexOfRgbDecodes(r: int, g: int, b: int)
    requires 0 <= r < 256 && 0 <= g < 256 && 0 <= b < 256
    ensures IsHexColor(RgbToHex([r, g, b]))
    ensures HexToRgb(RgbToHex([r, g, b])) == [r, g, b]
  {
    HexOfRgbValue(r, g, b);
    DecodesPacked(RgbToHex([r, g, b]), r, g, b);
  }

  /** A colour whose digits spell `r * 65536 + g * 256 + b` decodes to `[r, g, b]`. */
  lemma DecodesPacked(hex: string, r: int, g: int, b: int)
    requires 0 <= r < 256 && 0 <= g < 256 && 0 <= b < 256
    requires IsHexColor(hex) && HexValue(Expand(StripHash(hex))) == r * 65536 + g * 256 + b
    ensures HexToRgb(hex) == [r, g, b]
  {
    var x := HexToRgb(hex);
    PackedUnique(x[0], x[1], x[2], r, g, b);
    assert x == [x[0], x[1], x[2]];
  }

  /** Two hex digits decode to a byte whose padded hex form is the lower-cased digits. */
  lemma TwoDigitsRoundTrip(t: string)
    requires |t| == 2 && AllHexDigits(t)
    ensures 0 <= HexValue(t) < 256
    ensures ComponentHex(HexValue(t)) == Lower(t)
  {
    assert t[..1] == [t[0]] && t[..1][..0] == [];
    assert HexValue(t[..1]) == HexDigitValue(t[0]);
    var x := HexValue(t);
    assert x == HexDigitValue(t[0]) * 16 + HexDigitValue(t[1]);
    ComponentHexOfByte(x);
    assert x / 16 == HexDigitValue(t[0]) && x % 16 == HexDigitValue(t[1]);
    HexCharOfValue(t[0]);
    HexCharOfValue(t[1]);
  }

  /** Six digits after a '#' decode to the values of their three digit pairs. */
  lemma DecodeSixDigits(h: string)
    requires |h| == 6 && AllHexDigits(h)
    ensures IsHexColor("#" + h)
    ensures HexToRgb("#" + h) == [HexValue(h[0..2]), HexValue(h[2..4]), HexValue(h[4..6])]
  {
    assert StripHash("#" + h) == h && Expand(h) == h;
    SixDigitValue(h);
    TwoDigitsRoundTrip(h[0..2]);
    TwoDigitsRoundTrip(h[2..4]);
    TwoDigitsRoundTrip(h[4..6]);
    DecodesPacked("#" + h, HexValue(h[0..2]), HexValue(h[2..4]), HexValue(h[4..6]));
  }

  lemma HexDigitsOfTriple(a: int, b: int, c: int)
    ensures HexDigitsOf([a, b, c]) == ComponentHex(a) + ComponentHex(b) + ComponentHex(c)
  {
    assert [a, b, c][1..] == [b, c] && [b, c][1..] == [c] && [c][1..] == [];
    assert HexDigitsOf([c]) == ComponentHex(c) + HexDigitsOf([]);
  }

  /** Round trip: decoding six hex digits and encoding again gives them back in lower case. */
  lemma RgbOfHexEncodes(h: string)
    requires |h| == 6 && AllHexDigits(h)
    ensures IsHexColor("#" + h)
    ensures RgbToHex(HexToRgb("#" + h)) == "#" + Lower(h)
  {
    DecodeSixDigits(h);
    var p, q, r := h[0..2], h[2..4], h[4..6];
    EncodePairs(p, q, r);
    assert p + q + r == h;
    LowerAppend(p + q, r);
    LowerAppend(p, q);
  }

  /** Encoding the values of three digit pairs gives the pairs back in lower case. */
  lemma EncodePairs(p: string, q: string, r: string)
    requires |p| == 2 && |q| == 2 && |r| == 2
    requires AllHexDigits(p) && AllHexDigits(q) && AllHexDigits(r)
    ensures RgbToHex([HexValue(p), HexValue(q), HexValue(r)]) == "#" + (Lower(p) + Lower(q) + Lower(r))
  {
    TwoDigitsRoundTrip(p);
    TwoDigitsRoundTrip(q);
    TwoDigitsRoundTrip(r);
    HexDigitsOfTriple(HexValue(p), HexValue(q), HexValue(r));
  }

  // ---------------------------------------------------------------- the "rgb(...)" string

  /** A JavaScript number as `parseInt` returns it. */
  datatype JsNumber = Num(value: int) | NaN

  /** `s.replace(/[^\d,]/g, "")`: keep only the digits and the commas, in order. */
  function KeepDigitsAndCommas(s: string): (r: string)
    ensures forall k :: 0 <= k < |r| ==> IsDigit(r[k]) || r[k] == ','
    decreases |s|
  {
    if s == [] then []
    else (if IsDigit(s[0]) || s[0] == ',' then [s[0]] else []) + KeepDigitsAndCommas(s[1..])
  }

  /** `parseInt(piece.trim(), 10)` on a piece that holds only digits. */
  function ParseDigits(piece: string): JsNumber
    requires AllDigits(piece)
  {
    if piece == [] then NaN else Num(DecimalValue(piece))
  }

  /**
   * The parse in `onColorPick`: filter, split on ',', parse every piece as decimal. There
   * is one number per comma-separated piece, and a piece is `NaN` exactly when it is empty.
   */
  function ParseRgbString(rgb: string): (r: seq<JsNumber>)
    ensures |r| >= 1
    ensures |r| == |Split(KeepDigitsAndCommas(rgb), ',')|
    ensures forall i :: 0 <= i < |r| ==> (r[i].NaN? <==> Split(KeepDigitsAndCommas(rgb), ',')[i] == [])
  {
    var pieces := Split(KeepDigitsAndCommas(rgb), ',');
    seq(|pieces|, i requires 0 <= i < |pieces| =>
      assert forall k :: 0 <= k < |pieces[i]| ==> IsDigit(pieces[i][k]) by {
        SplitPiecesAreDigits(KeepDigitsAndCommas(rgb), i);
      }
      ParseDigits(pieces[i]))
  }

  lemma {:induction false} SplitPiecesAreDigits(s: string, i: nat)
    requires forall k :: 0 <= k < |s| ==> IsDigit(s[k]) || s[k] == ','
    requires i < |Split(s, ',')|
    ensures AllDigits(Split(s, ',')[i])
    decreases |s|
  {
    var pieces := Split(s, ',');
    assert ',' !in pieces[i];
    if s != [] {
      var rest := Split(s[1..], ',');
      if s[0] == ',' {
        if i > 0 { SplitPiecesAreDigits(s[1..], i - 1); }
      } else if i == 0 {
        SplitPiecesAreDigits(s[1..], 0);
        assert pieces[0] == [s[0]] + rest[0];
      } else {
        SplitPiecesAreDigits(s[1..], i);
      }
    }
  }

  /** On one character the filter keeps exactly a digit or a comma; with `KeepAppend` this fixes it. */
  lemma KeepChar(c: char)
    ensures KeepDigitsAndCommas([c]) == if IsDigit(c) || c == ',' then [c] else []
  {
  }

  lemma {:induction false} KeepAppend(a: string, b: string)
    ensures KeepDigitsAndCommas(a + b) == KeepDigitsAndCommas(a) + KeepDigitsAndCommas(b)
    decreases |a|
  {
    if a == [] {
      assert a + b == b;
    } else {
      KeepAppend(a[1..], b);
      assert (a + b)[1..] == a[1..] + b;
    }
  }

  lemma {:induction false} KeepDigits(s: string)
    requires AllDigits(s)
    ensures KeepDigitsAndCommas(s) == s
    decreases |s|
  {
    if s != [] {
      KeepDigits(s[1..]);
      assert s == [s[0]] + s[1..];
    }
  }

  /** The picker's string for a colour: "rgb(r, g, b)". */
  function RgbString(r: nat, g: nat, b: nat): string
  {
    "rgb(" + NatToString(r) + ", " + NatToString(g) + ", " + NatToString(b) + ")"
  }

  /** The filter drops the punctuation of "rgb(r, g, b)" except the commas. */
  lemma KeepLiterals()
    ensures KeepDigitsAndCommas("rgb(") == []
    ensures KeepDigitsAndCommas(", ") == ","
    ensures KeepDigitsAndCommas(")") == []
  {
    assert KeepDigitsAndCommas("(") == [];
    assert KeepDigitsAndCommas("b(") == [];
    assert KeepDigitsAndCommas("gb(") == [];
    assert KeepDigitsAndCommas(" ") == [];
  }

  /** Filtering "a dr c dg c db e" when a and e filter away and c filters to one comma. */
  lemma KeepAroundDigits(a: string, dr: string, c: string, dg: string, db: string, e: string)
    requires KeepDigitsAndCommas(a) == [] && KeepDigitsAndCommas(c) == [','] && KeepDigitsAndCommas(e) == []
    requires AllDigits(dr) && AllDigits(dg) && AllDigits(db)
    ensures KeepDigitsAndCommas(a + dr + c + dg + c + db + e) == dr + [','] + (dg + [','] + db)
  {
    KeepDigits(dr);
    KeepDigits(dg);
    KeepDigits(db);
    var c1 := [','];
    KeepAppend(a, dr);
    assert [] + dr == dr;
    KeepAppend(a + dr, c);
    KeepAppend(a + dr + c, dg);
    KeepAppend(a + dr + c + dg, c);
    KeepAppend(a + dr + c + dg + c, db);
    KeepAppend(a + dr + c + dg + c + db, e);
    Regroup(dr, c1, dg, db);
  }

  lemma Regroup(dr: string, c1: string, dg: string, db: string)
    ensures dr + c1 + dg + c1 + db + [] == dr + c1 + (dg + c1 + db)
  {
    assert dr + c1 + dg + c1 + db + [] == dr + c1 + dg + c1 + db;
  }

  lemma KeepRgbString(r: nat, g: nat, b: nat)
    ensures KeepDigitsAndCommas(RgbString(r, g, b))
            == NatToString(r) + [','] + (NatToString(g) + [','] + NatToString(b))
  {
    KeepLiterals();
    KeepAroundDigits("rgb(", NatToString(r), ", ", NatToString(g), NatToString(b), ")");
  }

  lemma SplitThreeNumbers(dr: string, dg: string, db: string)
    requires AllDigits(dr) && AllDigits(dg) && AllDigits(db)
    ensures Split(dr + [','] + (dg + [','] + db), ',') == [dr, dg, db]
  {
    assert ',' !in dr && ',' !in dg && ',' !in db;
    SplitAfterPiece(dr, ',', dg + [','] + db);
    SplitAfterPiece(dg, ',', db);
    SplitNoSeparator(db, ',');
  }

  /** The parse reads back the three numbers of "rgb(r, g, b)". */
  lemma RgbStringParses(r: nat, g: nat, b: nat)
    ensures ParseRgbString(RgbString(r, g, b)) == [Num(r), Num(g), Num(b)]
  {
    var dr, dg, db := NatToString(r), NatToString(g), NatToString(b);
    KeepRgbString(r, g, b);
    SplitThreeNumbers(dr, dg, db);
    DecimalValueOfNatToString(r);
    DecimalValueOfNatToString(g);
    DecimalValueOfNatToString(b);
    var parsed := ParseRgbString(RgbString(r, g, b));
    assert |parsed| == 3;
    assert parsed[0] == Num(r) && parsed[1] == Num(g) && parsed[2] == Num(b);
  }

  /** The picker's example: "rgb(30, 176, 91)" gives [30, 176, 91]. */
  lemma RgbStringExample()
    ensures ParseRgbString("rgb(30, 176, 91)") == [Num(30), Num(176), Num(91)]
  {
    assert NatToString(30) == "30" && NatToString(176) == "176" && NatToString(91) == "91";
    assert RgbString(30, 176, 91) == "rgb(30, 176, 91)";
    RgbStringParses(30, 176, 91);
  }
}
