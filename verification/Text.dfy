/** Text handling shared by the feed writer and the feed parser: trimming, lines, UTF-8. */
module Text {
  import opened Domain

  // ---- Trimming ----

  /** The Unicode White_Space property. */
  predicate White(c: char) {
    || '\t' <= c <= '\r' || c == ' '
    || c == '\U{85}' || c == '\U{A0}' || c == '\U{1680}' || '\U{2000}' <= c <= '\U{200A}'
    || c == '\U{2028}' || c == '\U{2029}' || c == '\U{202F}' || c == '\U{205F}' || c == '\U{3000}'
  }

  function Trim(s: string): (r: string)
    ensures |r| <= |s|
  {
    if |s| == 0 then s
    else if White(s[0]) then Trim(s[1..])
    else if White(s[|s| - 1]) then Trim(s[..|s| - 1])
    else s
  }

  predicate Trimmed(s: string) {
    |s| > 0 ==> !White(s[0]) && !White(s[|s| - 1])
  }

  lemma {:induction false} TrimSpec(s: string)
    ensures Trimmed(Trim(s))
    ensures forall c :: c in Trim(s) ==> c in s
    ensures forall c :: c in s && !White(c) ==> c in Trim(s)
  {
    if |s| > 0 {
      if White(s[0]) {
        TrimSpec(s[1..]);
        assert s == [s[0]] + s[1..];
      } else if White(s[|s| - 1]) {
        TrimSpec(s[..|s| - 1]);
        assert s == s[..|s| - 1] + [s[|s| - 1]];
      }
    }
  }

  lemma TrimLineEnd(s: string)
    requires Trimmed(s)
    ensures Trim(s) == s
    ensures Trim(s + "\n") == s
  {
    if |s| == 0 {
      assert s + "\n" == "\n";
      assert "\n"[1..] == "";
    } else {
      assert (s + "\n")[..|s + "\n"| - 1] == s;
    }
  }

  // ---- Lines ----

  function Split(s: string): (r: seq<string>)
    ensures |r| > 0
  {
    if |s| == 0 then [""]
    else
      var rest := Split(s[1..]);
      if s[0] == '\n' then [""] + rest else [[s[0]] + rest[0]] + rest[1..]
  }

  function Join(lines: seq<string>): string {
    if |lines| == 0 then ""
    else if |lines| == 1 then lines[0]
    else lines[0] + "\n" + Join(lines[1..])
  }

  lemma {:induction false} SplitFirstLine(line: string, rest: string)
    requires '\n' !in line
    ensures Split(line + "\n" + rest) == [line] + Split(rest)
  {
    var s := line + "\n" + rest;
    if |line| == 0 {
      assert s[1..] == rest;
    } else {
      SplitFirstLine(line[1..], rest);
      assert s[1..] == line[1..] + "\n" + rest;
      assert [s[0]] + line[1..] == line;
      assert ([line[1..]] + Split(rest))[1..] == Split(rest);
    }
  }

  lemma {:induction false} SplitOneLine(line: string)
    requires '\n' !in line
    ensures Split(line) == [line]
  {
    if |line| > 0 {
      SplitOneLine(line[1..]);
      assert [line[0]] + line[1..] == line;
    }
  }

  /** Splitting undoes joining. */
  lemma {:induction false} SplitJoin(lines: seq<string>)
    requires |lines| > 0 && forall l :: l in lines ==> '\n' !in l
    ensures Split(Join(lines)) == lines
    ensures Split(Join(lines) + "\n") == lines + [""]
  {
    if |lines| == 1 {
      SplitOneLine(lines[0]);
      assert Join(lines) + "\n" == lines[0] + "\n" + "";
      SplitFirstLine(lines[0], "");
    } else {
      SplitJoin(lines[1..]);
      SplitFirstLine(lines[0], Join(lines[1..]));
      SplitFirstLine(lines[0], Join(lines[1..]) + "\n");
      assert Join(lines) + "\n" == lines[0] + "\n" + (Join(lines[1..]) + "\n");
      assert lines == [lines[0]] + lines[1..];
    }
  }

  lemma {:induction false} SplitLines(s: string, line: string)
    requires line in Split(s)
    ensures '\n' !in line
  {
    if |s| > 0 {
      var rest := Split(s[1..]);
      if s[0] == '\n' {
        if line != "" {
          SplitLines(s[1..], line);
        }
      } else if line == [s[0]] + rest[0] {
        SplitLines(s[1..], rest[0]);
      } else {
        SplitLines(s[1..], line);
      }
    }
  }

  // ---- UTF-8 ----

  type Byte = x: int | 0 <= x < 256

  function Utf8Char(c: char): (b: seq<Byte>)
    ensures |b| > 0
  {
    var n := c as int;
    if n < 0x80 then [n]
    else if n < 0x800 then [0xC0 + n / 64, 0x80 + n % 64]
    else if n < 0x10000 then [0xE0 + n / 4096, 0x80 + n / 64 % 64, 0x80 + n % 64]
    else [0xF0 + n / 262144, 0x80 + n / 4096 % 64, 0x80 + n / 64 % 64, 0x80 + n % 64]
  }

  function Utf8(s: string): seq<Byte> {
    if |s| == 0 then [] else Utf8Char(s[0]) + Utf8(s[1..])
  }

  /** The six payload bits of a continuation byte. */
  function Low(b: Byte): int {
    b - 0x80
  }

  predicate Continues(b: seq<Byte>, k: nat) {
    |b| > k && forall i | 1 <= i <= k :: 0x80 <= b[i] < 0xC0
  }

  /** The length of the first character's encoding and its code point; overlong forms,
      surrogates and numbers past U+10FFFF are refused. */
  function FirstChar(b: seq<Byte>): (r: Option<(nat, char)>)
    requires |b| > 0
    ensures r.Some? ==> 0 < r.value.0 <= |b|
  {
    var b0: int := b[0];
    if b0 < 0x80 then Some((1, b0 as char))
    else if 0xC2 <= b0 < 0xE0 && Continues(b, 1) then
      Some((2, ((b0 - 0xC0) * 64 + Low(b[1])) as char))
    else if 0xE0 <= b0 < 0xF0 && Continues(b, 2) then
      var n := (b0 - 0xE0) * 4096 + Low(b[1]) * 64 + Low(b[2]);
      if 0x800 <= n < 0xD800 || 0xE000 <= n < 0x10000 then Some((3, n as char)) else None
    else if 0xF0 <= b0 < 0xF5 && Continues(b, 3) then
      var n := (b0 - 0xF0) * 262144 + Low(b[1]) * 4096 + Low(b[2]) * 64 + Low(b[3]);
      if 0x10000 <= n < 0x11_0000 then Some((4, n as char)) else None
    else None
  }

  function FromUtf8(b: seq<Byte>): Option<string>
    decreases |b|
  {
    if |b| == 0 then Some("")
    else
      var first := FirstChar(b);
      if first.None? then None
      else
        var rest := FromUtf8(b[first.value.0..]);
        if rest.None? then None else Some([first.value.1] + rest.value)
  }

  lemma SplitDigits(n: nat)
    ensures n == n / 64 * 64 + n % 64
    ensures n == n / 4096 * 4096 + n / 64 % 64 * 64 + n % 64
    ensures n == n / 262144 * 262144 + n / 4096 % 64 * 4096 + n / 64 % 64 * 64 + n % 64
  {
    assert n / 64 / 64 == n / 4096 && n / 4096 / 64 == n / 262144;
  }

  lemma FirstCharOfUtf8(c: char, rest: seq<Byte>)
    ensures FirstChar(Utf8Char(c) + rest) == Some((|Utf8Char(c)|, c))
  {
    var n := c as int;
    SplitDigits(n);
    if n < 0x800 {
    } else if n < 0x10000 {
    } else {
    }
  }

  /** Decoding undoes encoding. */
  lemma {:induction false} Utf8RoundTrip(s: string)
    ensures FromUtf8(Utf8(s)) == Some(s)
  {
    if |s| > 0 {
      hide FirstChar, Utf8Char;
      FirstCharOfUtf8(s[0], Utf8(s[1..]));
      var b := Utf8(s);
      assert b[|Utf8Char(s[0])|..] == Utf8(s[1..]);
      Utf8RoundTrip(s[1..]);
      assert [s[0]] + s[1..] == s;
    }
  }
}
