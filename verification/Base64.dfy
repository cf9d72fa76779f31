/** Base64 as in section 4 of RFC 4648, and the decoder the parser falls back to. */
module Base64 {
  import opened Domain
  import opened Text

  /** The standard alphabet, or the URL-safe one of section 5. */
  function Symbol(v: nat, url: bool): char
    requires v < 64
  {
    if v < 26 then 'A' + v as char
    else if v < 52 then 'a' + (v - 26) as char
    else if v < 62 then '0' + (v - 52) as char
    else if v == 62 then (if url then '-' else '+')
    else if url then '_' else '/'
  }

  function Value(c: char, url: bool): (v: Option<nat>)
    ensures v.Some? ==> v.value < 64
  {
    if 'A' <= c <= 'Z' then Some(c as int - 'A' as int)
    else if 'a' <= c <= 'z' then Some(26 + c as int - 'a' as int)
    else if '0' <= c <= '9' then Some(52 + c as int - '0' as int)
    else if c == (if url then '-' else '+') then Some(62)
    else if c == (if url then '_' else '/') then Some(63)
    else None
  }

  lemma ValueOfSymbol(v: nat, url: bool)
    requires v < 64
    ensures Value(Symbol(v, url), url) == Some(v) && Symbol(v, url) != '='
  {
  }

  /** Base64 with the standard or the URL-safe alphabet, with or without padding. */
  function EncodeAs(b: seq<Byte>, url: bool, pad: bool): string {
    if |b| == 0 then ""
    else if |b| == 1 then
      [Symbol(b[0] / 4, url), Symbol(b[0] % 4 * 16, url)] + (if pad then "==" else "")
    else if |b| == 2 then
      [Symbol(b[0] / 4, url), Symbol(b[0] % 4 * 16 + b[1] / 16, url), Symbol(b[1] % 16 * 4, url)]
      + (if pad then "=" else "")
    else
      [Symbol(b[0] / 4, url), Symbol(b[0] % 4 * 16 + b[1] / 16, url),
       Symbol(b[1] % 16 * 4 + b[2] / 64, url), Symbol(b[2] % 64, url)] + EncodeAs(b[3..], url, pad)
  }

  /** The encoding of section 4, which the publisher writes. */
  function Encode(b: seq<Byte>): string {
    EncodeAs(b, false, true)
  }

  /** Two or three symbols that end the input; the unused bits must be zero. */
  function DecodeTail(s: string, url: bool): Option<seq<Byte>> {
    if |s| != 2 && |s| != 3 then None
    else
      var v0, v1 := Value(s[0], url), Value(s[1], url);
      if v0.None? || v1.None? then None
      else if |s| == 2 then
        if v1.value % 16 == 0 then Some([v0.value * 4 + v1.value / 16]) else None
      else
        var v2 := Value(s[2], url);
        if v2.None? || v2.value % 4 != 0 then None
        else Some([v0.value * 4 + v1.value / 16, v1.value % 16 * 16 + v2.value / 4])
  }

  function DecodeQuad(s: string, url: bool): Option<seq<Byte>>
    requires |s| >= 4
  {
    var v0, v1, v2, v3 := Value(s[0], url), Value(s[1], url), Value(s[2], url), Value(s[3], url);
    if v0.None? || v1.None? || v2.None? || v3.None? then None
    else Some([v0.value * 4 + v1.value / 16, v1.value % 16 * 16 + v2.value / 4, v2.value % 4 * 64 + v3.value])
  }

  /** The standard decoder requires canonical padding, the URL-safe one refuses padding. */
  function Decode(s: string, url: bool): Option<seq<Byte>> {
    if |s| == 0 then Some([])
    else if |s| >= 4 && (url || |s| > 4 || s[3] != '=') then
      var head := DecodeQuad(s, url);
      var rest := Decode(s[4..], url);
      if head.None? || rest.None? then None else Some(head.value + rest.value)
    else if url then DecodeTail(s, url)
    else if |s| < 4 then None
    else DecodeTail(if s[2] == '=' then s[..2] else s[..3], url)
  }

  function TrimPadding(s: string): string {
    if |s| > 0 && s[|s| - 1] == '=' then TrimPadding(s[..|s| - 1]) else s
  }

  /** Standard first, then URL-safe without padding. */
  function DecodeAny(s: string): Option<seq<Byte>> {
    var standard := Decode(s, false);
    if standard.Some? then standard else Decode(TrimPadding(s), true)
  }

  lemma Sextets(x: Byte, y: Byte, z: Byte)
    ensures x / 4 < 64 && x % 4 * 16 + y / 16 < 64 && y % 16 * 4 + z / 64 < 64 && z % 64 < 64
    ensures x / 4 * 4 + (x % 4 * 16 + y / 16) / 16 == x
    ensures (x % 4 * 16 + y / 16) % 16 * 16 + (y % 16 * 4 + z / 64) / 4 == y
    ensures (y % 16 * 4 + z / 64) % 4 * 64 + z % 64 == z
  {
  }

  lemma QuadOfValues(s: string, url: bool, v0: nat, v1: nat, v2: nat, v3: nat)
    requires |s| >= 4 && v0 < 64 && v1 < 64 && v2 < 64 && v3 < 64
    requires Value(s[0], url) == Some(v0) && Value(s[1], url) == Some(v1)
    requires Value(s[2], url) == Some(v2) && Value(s[3], url) == Some(v3)
    ensures DecodeQuad(s, url) == Some([v0 * 4 + v1 / 16, v1 % 16 * 16 + v2 / 4, v2 % 4 * 64 + v3])
  {
    hide Value;
  }

  lemma QuadOfBytes(b: seq<Byte>, rest: string, url: bool)
    requires |b| >= 3
    ensures var s := [Symbol(b[0] / 4, url), Symbol(b[0] % 4 * 16 + b[1] / 16, url),
                      Symbol(b[1] % 16 * 4 + b[2] / 64, url), Symbol(b[2] % 64, url)] + rest;
      DecodeQuad(s, url) == Some([b[0], b[1], b[2]]) && s[3] != '='
  {
    Sextets(b[0], b[1], b[2]);
    var v0, v1, v2, v3 := b[0] / 4, b[0] % 4 * 16 + b[1] / 16, b[1] % 16 * 4 + b[2] / 64, b[2] % 64;
    hide Symbol, Value, DecodeQuad;
    ValueOfSymbol(v0, url);
    ValueOfSymbol(v1, url);
    ValueOfSymbol(v2, url);
    ValueOfSymbol(v3, url);
    QuadOfValues([Symbol(v0, url), Symbol(v1, url), Symbol(v2, url), Symbol(v3, url)] + rest, url, v0, v1, v2, v3);
  }

  /** The padded decoder expects padding, the URL-safe one refuses it. */
  lemma OneByteTail(x: Byte, url: bool)
    ensures Decode(EncodeAs([x], url, !url), url) == Some([x])
  {
    hide Symbol, Value;
    ValueOfSymbol(x / 4, url);
    ValueOfSymbol(x % 4 * 16, url);
    var tail := [Symbol(x / 4, url), Symbol(x % 4 * 16, url)];
    assert DecodeTail(tail, url) == Some([x]);
    assert EncodeAs([x], url, !url) == tail + (if url then "" else "==");
    assert (tail + "==")[..2] == tail && tail + "" == tail;
  }

  lemma TwoByteTail(x: Byte, y: Byte, url: bool)
    ensures Decode(EncodeAs([x, y], url, !url), url) == Some([x, y])
  {
    hide Symbol, Value;
    ValueOfSymbol(x / 4, url);
    ValueOfSymbol(x % 4 * 16 + y / 16, url);
    ValueOfSymbol(y % 16 * 4, url);
    var tail := [Symbol(x / 4, url), Symbol(x % 4 * 16 + y / 16, url), Symbol(y % 16 * 4, url)];
    assert DecodeTail(tail, url) == Some([x, y]);
    hide DecodeTail;
    assert EncodeAs([x, y], url, !url) == tail + (if url then "" else "=");
    assert (tail + "=")[..3] == tail && tail + "" == tail;
  }

  /** Decoding undoes encoding, padded in the standard alphabet, unpadded in the URL-safe one. */
  lemma {:induction false} RoundTripAs(b: seq<Byte>, url: bool)
    ensures Decode(EncodeAs(b, url, !url), url) == Some(b)
  {
    if |b| == 1 {
      assert b == [b[0]];
      OneByteTail(b[0], url);
    } else if |b| == 2 {
      assert b == [b[0], b[1]];
      TwoByteTail(b[0], b[1], url);
    } else if |b| >= 3 {
      hide DecodeQuad, DecodeTail, Symbol;
      QuadOfBytes(b, EncodeAs(b[3..], url, !url), url);
      assert EncodeAs(b, url, !url)[4..] == EncodeAs(b[3..], url, !url);
      RoundTripAs(b[3..], url);
      assert [b[0], b[1], b[2]] + b[3..] == b;
    }
  }

  /** Decoding undoes encoding. */
  lemma RoundTrip(b: seq<Byte>)
    ensures Decode(Encode(b), false) == Some(b)
  {
    RoundTripAs(b, false);
  }

  predicate InAlphabet(c: char) {
    Value(c, false).Some? || c == '='
  }

  lemma {:induction false} EncodeAlphabet(b: seq<Byte>)
    ensures forall c :: c in Encode(b) ==> InAlphabet(c)
    ensures |b| > 0 ==> |Encode(b)| > 0
  {
    hide Value;
    if |b| > 0 {
      ValueOfSymbol(b[0] / 4, false);
      if |b| == 1 {
        ValueOfSymbol(b[0] % 4 * 16, false);
      } else {
        ValueOfSymbol(b[0] % 4 * 16 + b[1] / 16, false);
        if |b| == 2 {
          ValueOfSymbol(b[1] % 16 * 4, false);
        } else {
          ValueOfSymbol(b[1] % 16 * 4 + b[2] / 64, false);
          ValueOfSymbol(b[2] % 64, false);
          EncodeAlphabet(b[3..]);
        }
      }
    }
  }

  /** A text with a colon is not base64 in either alphabet. */
  lemma {:induction false} ColonIsNotBase64(s: string, url: bool)
    requires ':' in s
    ensures Decode(s, url).None?
  {
    assert Value(':', url).None?;
    hide Value;
    if |s| >= 4 && (url || |s| > 4 || s[3] != '=') {
      if ':' in s[4..] {
        ColonIsNotBase64(s[4..], url);
      } else {
        assert s == s[..4] + s[4..];
        assert ':' in s[..4];
      }
    }
  }

  lemma {:induction false} TrimPaddingKeepsColon(s: string)
    requires ':' in s
    ensures ':' in TrimPadding(s)
  {
    if |s| > 0 && s[|s| - 1] == '=' {
      assert s == s[..|s| - 1] + [s[|s| - 1]];
      TrimPaddingKeepsColon(s[..|s| - 1]);
    }
  }

  lemma ColonStaysText(s: string)
    requires ':' in s
    ensures DecodeAny(s).None?
  {
    TrimPaddingKeepsColon(s);
    ColonIsNotBase64(s, false);
    ColonIsNotBase64(TrimPadding(s), true);
  }

  // ---- Which encodings the fallback understands ----

  /** Read in the standard alphabet, a URL-safe symbol keeps its value or is refused. */
  lemma OtherAlphabet(v: nat, url: bool)
    requires v < 64
    ensures Value(Symbol(v, url), !url) == Some(v) || Value(Symbol(v, url), !url).None?
    ensures Value(Symbol(v, url), !url).None? <==> v >= 62
    ensures Symbol(v, url) != '='
  {
  }

  lemma QuadElsewhere(b: seq<Byte>, rest: string, url: bool)
    requires |b| >= 3
    ensures var s := [Symbol(b[0] / 4, url), Symbol(b[0] % 4 * 16 + b[1] / 16, url),
                      Symbol(b[1] % 16 * 4 + b[2] / 64, url), Symbol(b[2] % 64, url)] + rest;
      && (DecodeQuad(s, !url).Some? ==> DecodeQuad(s, !url) == Some([b[0], b[1], b[2]])) && s[3] != '='
      && (DecodeQuad(s, !url).Some? <==>
            b[0] / 4 < 62 && b[0] % 4 * 16 + b[1] / 16 < 62 && b[1] % 16 * 4 + b[2] / 64 < 62 && b[2] % 64 < 62)
  {
    Sextets(b[0], b[1], b[2]);
    var v0, v1, v2, v3 := b[0] / 4, b[0] % 4 * 16 + b[1] / 16, b[1] % 16 * 4 + b[2] / 64, b[2] % 64;
    hide Symbol, Value;
    OtherAlphabet(v0, url);
    OtherAlphabet(v1, url);
    OtherAlphabet(v2, url);
    OtherAlphabet(v3, url);
    var s := [Symbol(v0, url), Symbol(v1, url), Symbol(v2, url), Symbol(v3, url)] + rest;
    if v0 < 62 && v1 < 62 && v2 < 62 && v3 < 62 {
      hide DecodeQuad;
      QuadOfValues(s, !url, v0, v1, v2, v3);
    }
  }

  /** The standard decoder reads a URL-safe encoding as the same bytes or not at all. */
  lemma {:induction false} StandardReadsUrlSafe(b: seq<Byte>, pad: bool)
    ensures var d := Decode(EncodeAs(b, true, pad), false); d == Some(b) || d.None?
  {
    if |b| == 1 {
      assert b == [b[0]];
      OneByteElsewhere(b[0], pad);
    } else if |b| == 2 {
      assert b == [b[0], b[1]];
      TwoBytesElsewhere(b[0], b[1], pad);
    } else if |b| >= 3 {
      hide DecodeQuad, DecodeTail, Symbol;
      QuadElsewhere(b, EncodeAs(b[3..], true, pad), true);
      assert EncodeAs(b, true, pad)[4..] == EncodeAs(b[3..], true, pad);
      StandardReadsUrlSafe(b[3..], pad);
      assert [b[0], b[1], b[2]] + b[3..] == b;
    }
  }

  lemma OneByteElsewhere(x: Byte, pad: bool)
    ensures var d := Decode(EncodeAs([x], true, pad), false); d == Some([x]) || d.None?
  {
    hide Symbol, Value;
    OtherAlphabet(x / 4, true);
    OtherAlphabet(x % 4 * 16, true);
    var tail := [Symbol(x / 4, true), Symbol(x % 4 * 16, true)];
    assert DecodeTail(tail, false) == Some([x]) || DecodeTail(tail, false).None?;
    assert EncodeAs([x], true, pad) == tail + (if pad then "==" else "");
    assert (tail + "==")[..2] == tail && tail + "" == tail;
  }

  lemma TwoBytesElsewhere(x: Byte, y: Byte, pad: bool)
    ensures var d := Decode(EncodeAs([x, y], true, pad), false); d == Some([x, y]) || d.None?
  {
    hide Symbol, Value;
    OtherAlphabet(x / 4, true);
    OtherAlphabet(x % 4 * 16 + y / 16, true);
    OtherAlphabet(y % 16 * 4, true);
    var tail := [Symbol(x / 4, true), Symbol(x % 4 * 16 + y / 16, true), Symbol(y % 16 * 4, true)];
    assert DecodeTail(tail, false) == Some([x, y]) || DecodeTail(tail, false).None?;
    hide DecodeTail;
    assert EncodeAs([x, y], true, pad) == tail + (if pad then "=" else "");
    assert (tail + "=")[..3] == tail && tail + "" == tail;
  }

  lemma {:induction false} NoPaddingInside(b: seq<Byte>, url: bool)
    ensures forall c :: c in EncodeAs(b, url, false) ==> c != '='
  {
    hide Value;
    if |b| > 0 {
      OtherAlphabet(b[0] / 4, url);
      if |b| == 1 {
        OtherAlphabet(b[0] % 4 * 16, url);
      } else {
        OtherAlphabet(b[0] % 4 * 16 + b[1] / 16, url);
        if |b| == 2 {
          OtherAlphabet(b[1] % 16 * 4, url);
        } else {
          OtherAlphabet(b[1] % 16 * 4 + b[2] / 64, url);
          OtherAlphabet(b[2] % 64, url);
          NoPaddingInside(b[3..], url);
        }
      }
    }
  }

  /** The padding of an encoding. */
  function Padding(b: seq<Byte>): string {
    if |b| % 3 == 1 then "==" else if |b| % 3 == 2 then "=" else ""
  }

  lemma {:induction false} PaddedIsUnpadded(b: seq<Byte>, url: bool)
    ensures EncodeAs(b, url, true) == EncodeAs(b, url, false) + Padding(b)
  {
    if |b| >= 3 {
      QuadFirst(b, url, true);
      QuadFirst(b, url, false);
      hide EncodeAs, QuadSymbols;
      PaddedIsUnpadded(b[3..], url);
      assert Padding(b) == Padding(b[3..]);
    } else {
      hide Symbol;
    }
  }

  lemma TrimsToUnpadded(b: seq<Byte>, url: bool, pad: bool)
    ensures TrimPadding(EncodeAs(b, url, pad)) == EncodeAs(b, url, false)
  {
    var s := EncodeAs(b, url, false);
    NoPaddingInside(b, url);
    PaddedIsUnpadded(b, url);
    hide EncodeAs;
    assert TrimPadding(s) == s by {
      assert |s| > 0 ==> s[|s| - 1] in s;
    }
    assert (s + "=")[..|s| + 1 - 1] == s && TrimPadding(s + "=") == TrimPadding(s);
    assert (s + "==")[..|s| + 2 - 1] == s + "=" && TrimPadding(s + "==") == TrimPadding(s + "=");
    assert s + "" == s;
  }

  /** Standard base64 with padding and URL-safe base64 with or without it are all decoded. */
  lemma DecodesEncodings(b: seq<Byte>, url: bool, pad: bool)
    requires url || pad
    ensures DecodeAny(EncodeAs(b, url, pad)) == Some(b)
  {
    hide EncodeAs, Decode, TrimPadding;
    if !url {
      RoundTripAs(b, false);
    } else {
      StandardReadsUrlSafe(b, pad);
      TrimsToUnpadded(b, true, pad);
      RoundTripAs(b, true);
    }
  }

  /** The symbols in which the two alphabets differ do not occur. */
  predicate SameInBoth(s: string) {
    '+' !in s && '/' !in s
  }

  lemma StandardSymbols(v: nat)
    requires v < 64
    ensures v >= 62 <==> Symbol(v, false) == '+' || Symbol(v, false) == '/'
  {
  }

  lemma {:induction false} UrlSafeReadsStandard(b: seq<Byte>)
    ensures Decode(EncodeAs(b, false, false), true) == if SameInBoth(EncodeAs(b, false, false)) then Some(b) else None
  {
    var s := EncodeAs(b, false, false);
    if |b| == 1 {
      OneStandardByte(b[0]);
      assert b == [b[0]];
    } else if |b| == 2 {
      TwoStandardBytes(b[0], b[1]);
      assert b == [b[0], b[1]];
    } else if |b| >= 3 {
      UrlSafeReadsStandard(b[3..]);
      FirstStandardQuad(b);
    }
  }

  function QuadSymbols(b: seq<Byte>, url: bool): string
    requires |b| >= 3
  {
    [Symbol(b[0] / 4, url), Symbol(b[0] % 4 * 16 + b[1] / 16, url),
     Symbol(b[1] % 16 * 4 + b[2] / 64, url), Symbol(b[2] % 64, url)]
  }

  lemma QuadFirst(b: seq<Byte>, url: bool, pad: bool)
    requires |b| >= 3
    ensures EncodeAs(b, url, pad) == QuadSymbols(b, url) + EncodeAs(b[3..], url, pad) && |QuadSymbols(b, url)| == 4
    ensures |b[3..]| % 3 == |b| % 3
  {
    hide Symbol;
  }

  lemma QuadSameInBoth(b: seq<Byte>)
    requires |b| >= 3
    ensures SameInBoth(QuadSymbols(b, false)) <==>
              b[0] / 4 < 62 && b[0] % 4 * 16 + b[1] / 16 < 62 && b[1] % 16 * 4 + b[2] / 64 < 62 && b[2] % 64 < 62
  {
    Sextets(b[0], b[1], b[2]);
    var v0, v1, v2, v3 := b[0] / 4, b[0] % 4 * 16 + b[1] / 16, b[1] % 16 * 4 + b[2] / 64, b[2] % 64;
    hide Symbol;
    StandardSymbols(v0);
    StandardSymbols(v1);
    StandardSymbols(v2);
    StandardSymbols(v3);
  }

  lemma SameInBothAppend(s: string, t: string)
    ensures SameInBoth(s + t) <==> SameInBoth(s) && SameInBoth(t)
  {
  }

  lemma DecodeFirstQuad(head: string, rest: string, url: bool)
    requires |head| == 4 && head[3] != '='
    ensures Decode(head + rest, url)
         == if DecodeQuad(head + rest, url).None? || Decode(rest, url).None? then None
            else Some(DecodeQuad(head + rest, url).value + Decode(rest, url).value)
  {
    hide DecodeQuad, DecodeTail;
    assert (head + rest)[4..] == rest && (head + rest)[3] == head[3];
  }

  lemma QuadReadElsewhere(b: seq<Byte>, rest: string)
    requires |b| >= 3
    ensures var head := QuadSymbols(b, false);
      && |head| == 4 && head[3] != '='
      && DecodeQuad(head + rest, true) == if SameInBoth(head) then Some([b[0], b[1], b[2]]) else None
  {
    QuadElsewhere(b, rest, false);
    QuadSameInBoth(b);
    hide SameInBoth, DecodeQuad, Symbol;
    assert (QuadSymbols(b, false) + rest)[3] == QuadSymbols(b, false)[3];
  }

  lemma FirstStandardQuad(b: seq<Byte>)
    requires |b| >= 3
    requires var rest := EncodeAs(b[3..], false, false);
      Decode(rest, true) == if SameInBoth(rest) then Some(b[3..]) else None
    ensures Decode(EncodeAs(b, false, false), true) == if SameInBoth(EncodeAs(b, false, false)) then Some(b) else None
  {
    hide EncodeAs, SameInBoth, DecodeQuad, Decode, QuadSymbols;
    var rest := EncodeAs(b[3..], false, false);
    var head := QuadSymbols(b, false);
    QuadFirst(b, false, false);
    QuadReadElsewhere(b, rest);
    DecodeFirstQuad(head, rest, true);
    SameInBothAppend(head, rest);
    assert [b[0], b[1], b[2]] + b[3..] == b;
  }

  lemma OneStandardByte(x: Byte)
    ensures var s := EncodeAs([x], false, false);
      Decode(s, true) == if SameInBoth(s) then Some([x]) else None
  {
    hide Symbol, Value;
    OtherAlphabet(x / 4, false);
    OtherAlphabet(x % 4 * 16, false);
    StandardSymbols(x / 4);
    StandardSymbols(x % 4 * 16);
    var tail := [Symbol(x / 4, false), Symbol(x % 4 * 16, false)];
    assert EncodeAs([x], false, false) == tail + "" == tail;
  }

  lemma TwoStandardBytes(x: Byte, y: Byte)
    ensures var s := EncodeAs([x, y], false, false);
      Decode(s, true) == if SameInBoth(s) then Some([x, y]) else None
  {
    hide Symbol, Value;
    OtherAlphabet(x / 4, false);
    OtherAlphabet(x % 4 * 16 + y / 16, false);
    OtherAlphabet(y % 16 * 4, false);
    StandardSymbols(x / 4);
    StandardSymbols(x % 4 * 16 + y / 16);
    StandardSymbols(y % 16 * 4);
    var tail := [Symbol(x / 4, false), Symbol(x % 4 * 16 + y / 16, false), Symbol(y % 16 * 4, false)];
    assert EncodeAs([x, y], false, false) == tail + "" == tail;
  }

  lemma {:induction false} StandardNeedsQuads(s: string)
    ensures Decode(s, false).Some? ==> |s| % 4 == 0
  {
    hide DecodeQuad, DecodeTail;
    if |s| >= 4 && (|s| > 4 || s[3] != '=') {
      StandardNeedsQuads(s[4..]);
    }
  }

  lemma ShortLength(b: seq<Byte>, url: bool)
    requires |b| < 3
    ensures |EncodeAs(b, url, false)| == if |b| == 0 then 0 else |b| + 1
  {
    hide Symbol;
  }

  lemma FourMore(n: nat)
    ensures (4 + n) % 4 == n % 4
  {
  }

  lemma {:induction false} UnpaddedLength(b: seq<Byte>, url: bool)
    ensures |EncodeAs(b, url, false)| % 4 == if |b| % 3 == 0 then 0 else |b| % 3 + 1
  {
    if |b| >= 3 {
      QuadFirst(b, url, false);
      hide EncodeAs, QuadSymbols;
      UnpaddedLength(b[3..], url);
      FourMore(|EncodeAs(b[3..], url, false)|);
    } else {
      ShortLength(b, url);
      hide EncodeAs;
      assert |b| == 0 || |b| == 1 || |b| == 2;
    }
  }

  /** Standard base64 without padding is decoded exactly when it needs none, or has no symbol of its own. */
  lemma StandardUnpaddedIff(b: seq<Byte>)
    ensures DecodeAny(EncodeAs(b, false, false)) == Some(b) <==> |b| % 3 == 0 || SameInBoth(EncodeAs(b, false, false))
  {
    hide EncodeAs, Decode, TrimPadding, SameInBoth;
    var s := EncodeAs(b, false, false);
    PaddedIsUnpadded(b, false);
    TrimsToUnpadded(b, false, false);
    UrlSafeReadsStandard(b);
    if |b| % 3 == 0 {
      assert s + "" == s;
      RoundTripAs(b, false);
    } else {
      UnpaddedLength(b, false);
      StandardNeedsQuads(s);
    }
  }
}
