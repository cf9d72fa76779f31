/** What a subscription payload means, in terms of its own text. */
module Payload {
  import opened Domain
  import opened Database
  import opened Text
  import opened Base64
  import opened Feed

  // ---- Trimming and lines ----

  predicate AllWhite(s: string) {
    forall c | c in s :: White(c)
  }

  lemma TrimLeads(c: char, s: string)
    requires White(c)
    ensures Trim([c] + s) == Trim(s)
  {
    assert ([c] + s)[1..] == s;
  }

  lemma {:induction false} TrimTrails(s: string, c: char)
    requires White(c)
    ensures Trim(s + [c]) == Trim(s)
  {
    var more := s + [c];
    if |s| == 0 {
      assert more[1..] == "";
    } else if White(s[0]) {
      assert more[1..] == s[1..] + [c];
      TrimTrails(s[1..], c);
    } else {
      assert more[..|more| - 1] == s;
    }
  }

  /** `s` is `t` between white space. */
  ghost predicate Pads(a: string, t: string, b: string, s: string) {
    AllWhite(a) && AllWhite(b) && s == a + t + b
  }

  lemma PadMore(a: string, t: string, b: string, s: string, c: char)
    requires Pads(a, t, b, s) && White(c)
    ensures Pads([c] + a, t, b, [c] + s) && Pads(a, t, b + [c], s + [c])
  {
    hide White;
  }

  /** Trimming takes white space off both ends and nothing else. */
  lemma {:induction false} TrimIsMiddle(s: string)
    ensures exists a, b :: Pads(a, Trim(s), b, s)
    ensures Trimmed(Trim(s))
  {
    TrimSpec(s);
    hide White, Pads;
    if |s| > 0 && White(s[0]) {
      TrimIsMiddle(s[1..]);
      var a, b :| Pads(a, Trim(s[1..]), b, s[1..]);
      PadMore(a, Trim(s[1..]), b, s[1..], s[0]);
      assert s == [s[0]] + s[1..];
    } else if |s| > 0 && White(s[|s| - 1]) {
      var n := |s| - 1;
      TrimIsMiddle(s[..n]);
      var a, b :| Pads(a, Trim(s[..n]), b, s[..n]);
      PadMore(a, Trim(s[..n]), b, s[..n], s[n]);
      assert s == s[..n] + [s[n]];
    } else {
      NoPads(s);
    }
  }

  lemma NoPads(s: string)
    ensures Pads("", s, "", s)
  {
    assert s == "" + s + "";
  }

  /** In ASCII, white space is the space, the tab and the four line and page controls. */
  lemma AsciiWhite(c: char)
    requires c as int < 128
    ensures White(c) <==> c == ' ' || c == '\t' || c == '\n' || c == '\r' || c as int == 11 || c as int == 12
  {
  }

  lemma {:induction false} KeptAppend(a: seq<string>, b: seq<string>)
    ensures Kept(a + b) == Kept(a) + Kept(b)
  {
    hide Trim;
    if |b| == 0 {
      assert a + b == a;
    } else {
      var n := |b| - 1;
      assert (a + b)[..|a + b| - 1] == a + b[..n];
      KeptAppend(a, b[..n]);
    }
  }

  lemma KeptOne(a: string, b: string)
    requires Trim(a) == Trim(b)
    ensures Kept([a]) == Kept([b])
    ensures Kept([""]) == []
  {
    assert Trim("") == "";
    hide Trim;
    assert [a][..0] == [] && [b][..0] == [] && [""][..0] == [];
  }

  lemma KeptLeads(c: char, s: string)
    requires White(c)
    ensures Kept(Split([c] + s)) == Kept(Split(s))
  {
    assert ([c] + s)[1..] == s;
    var rest := Split(s);
    if c == '\n' {
      assert Split([c] + s) == [""] + rest;
      KeptAppend([""], rest);
      KeptOne("", "");
      assert [] + Kept(rest) == Kept(rest);
    } else {
      assert Split([c] + s) == [[c] + rest[0]] + rest[1..];
      TrimLeads(c, rest[0]);
      KeptOne([c] + rest[0], rest[0]);
      KeptAppend([[c] + rest[0]], rest[1..]);
      KeptAppend([rest[0]], rest[1..]);
      assert rest == [rest[0]] + rest[1..];
    }
  }

  /** The lines of a text with one more character in front, or at the end. */
  function InFront(c: char, lines: seq<string>): seq<string>
    requires |lines| > 0
  {
    if c == '\n' then [""] + lines else [[c] + lines[0]] + lines[1..]
  }

  function AtEnd(lines: seq<string>, c: char): seq<string>
    requires |lines| > 0
  {
    var n := |lines| - 1;
    if c == '\n' then lines + [""] else lines[..n] + [lines[n] + [c]]
  }

  lemma EndsCommute(c: char, lines: seq<string>, d: char)
    requires |lines| > 0
    ensures |AtEnd(lines, d)| > 0 && |InFront(c, lines)| > 0
    ensures InFront(c, AtEnd(lines, d)) == AtEnd(InFront(c, lines), d)
  {
    var n := |lines| - 1;
    if c != '\n' && d != '\n' && n == 0 {
      assert [c] + (lines[0] + [d]) == ([c] + lines[0]) + [d];
    }
    var left, right := InFront(c, AtEnd(lines, d)), AtEnd(InFront(c, lines), d);
    assert |left| == |right|;
    assert forall i :: 0 <= i < |left| ==> left[i] == right[i];
  }

  lemma {:induction false} SplitSnoc(s: string, c: char)
    ensures Split(s + [c]) == AtEnd(Split(s), c)
  {
    if |s| == 0 {
      assert s + [c] == [c] && [c][1..] == "";
      assert [c] + "" == "" + [c] == [c];
      assert Split(s) == [""] && Split([c]) == InFront(c, Split(""));
      assert InFront(c, [""]) == AtEnd([""], c);
    } else {
      SplitSnoc(s[1..], c);
      assert (s + [c])[1..] == s[1..] + [c];
      EndsCommute(s[0], Split(s[1..]), c);
      assert Split(s) == InFront(s[0], Split(s[1..]));
      assert Split(s + [c]) == InFront(s[0], Split(s[1..] + [c]));
      hide Split, InFront, AtEnd;
    }
  }

  lemma KeptTrails(s: string, c: char)
    requires White(c)
    ensures Kept(Split(s + [c])) == Kept(Split(s))
  {
    var lines := Split(s);
    var n := |lines| - 1;
    SplitSnoc(s, c);
    if c == '\n' {
      KeptAppend(lines, [""]);
      KeptOne("", "");
      assert Kept(lines) + [] == Kept(lines);
    } else {
      TrimTrails(lines[n], c);
      KeptOne(lines[n] + [c], lines[n]);
      KeptAppend(lines[..n], [lines[n] + [c]]);
      KeptAppend(lines[..n], [lines[n]]);
      assert lines == lines[..n] + [lines[n]];
    }
  }

  /** Trimming the payload first changes none of its lines. */
  lemma {:induction false} KeptOfTrimmed(s: string)
    ensures Kept(Split(Trim(s))) == Kept(Split(s))
  {
    hide Kept, Split;
    if |s| > 0 {
      if White(s[0]) {
        assert s == [s[0]] + s[1..];
        KeptLeads(s[0], s[1..]);
        KeptOfTrimmed(s[1..]);
      } else if White(s[|s| - 1]) {
        assert s == s[..|s| - 1] + [s[|s| - 1]];
        KeptTrails(s[..|s| - 1], s[|s| - 1]);
        KeptOfTrimmed(s[..|s| - 1]);
      }
    }
  }

  // ---- The report of a text ----

  /** Line `k` is the first that parses to `h`. */
  ghost predicate FirstLine(parse: ShareUrlParser, lines: seq<string>, h: Hash, k: nat) {
    && k < |lines| && parse(lines[k]) == Some(h)
    && forall m: nat :: m < k ==> parse(lines[m]) != Some(h)
  }

  /** The trimmed line is neither blank nor a comment, and no share URL. */
  ghost predicate Refused(parse: ShareUrlParser, line: string, x: string) {
    x == Trim(line) && x != "" && x[0] != '#' && parse(line).None?
  }

  /** A configuration is accepted exactly when some line parses to it. */
  ghost predicate AcceptsEvery(parse: ShareUrlParser, lines: seq<string>, accepted: seq<Proxy>) {
    forall h :: h in Hashes(accepted) <==> exists k: nat :: FirstLine(parse, lines, h, k)
  }

  /** It is kept as its first line, without surrounding white space. */
  ghost predicate AsWritten(parse: ShareUrlParser, source: Source, lines: seq<string>, accepted: seq<Proxy>) {
    forall i, k: nat :: 0 <= i < |accepted| && FirstLine(parse, lines, accepted[i].hash, k) ==>
      accepted[i].raw == Trim(lines[k]) && accepted[i].source == source
  }

  /** In the order of the first lines, and each once. */
  ghost predicate InLineOrder(parse: ShareUrlParser, lines: seq<string>, accepted: seq<Proxy>) {
    forall i, j, k: nat, m: nat | 0 <= i < j < |accepted| ::
      FirstLine(parse, lines, accepted[i].hash, k) && FirstLine(parse, lines, accepted[j].hash, m) ==> k < m
  }

  /** Every other line is rejected that is neither blank nor a comment. */
  ghost predicate RejectsOthers(parse: ShareUrlParser, lines: seq<string>, rejected: seq<string>) {
    forall x :: x in rejected <==> exists l :: l in lines && Refused(parse, l, x)
  }

  /** What a report says of the lines of a text. */
  ghost predicate Reports(parse: ShareUrlParser, source: Source, lines: seq<string>, report: ParseReport) {
    && AcceptsEvery(parse, lines, report.accepted)
    && AsWritten(parse, source, lines, report.accepted)
    && InLineOrder(parse, lines, report.accepted)
    && RejectsOthers(parse, lines, report.rejected)
  }

  lemma FirstLineSnoc(parse: ShareUrlParser, lines: seq<string>, l: string, h: Hash, k: nat)
    ensures FirstLine(parse, lines + [l], h, k) <==>
              FirstLine(parse, lines, h, k)
              || (k == |lines| && parse(l) == Some(h) && forall m: nat :: m < |lines| ==> parse(lines[m]) != Some(h))
  {
    var more := lines + [l];
    assert forall m: nat :: m < |lines| ==> more[m] == lines[m];
    assert more[|lines|] == l;
  }

  lemma {:induction false} SomeFirstLine(parse: ShareUrlParser, lines: seq<string>, h: Hash)
    ensures (exists k: nat :: FirstLine(parse, lines, h, k)) <==>
              (exists m: nat :: m < |lines| && parse(lines[m]) == Some(h))
  {
    if |lines| > 0 {
      var n := |lines| - 1;
      var init := lines[..n];
      assert lines == init + [lines[n]];
      SomeFirstLine(parse, init, h);
      assert forall m: nat :: m < n ==> init[m] == lines[m];
      if exists m: nat :: m < n && parse(init[m]) == Some(h) {
        var k: nat :| FirstLine(parse, init, h, k);
        FirstLineSnoc(parse, init, lines[n], h, k);
      } else if parse(lines[n]) == Some(h) {
        assert FirstLine(parse, lines, h, n);
      }
    }
  }

  /** A line that is not kept parses to nothing. */
  lemma SkippedIsNoUrl(parse: ShareUrlParser, l: string)
    requires ParserLaws(parse)
    ensures parse(Trim(l)) == parse(l)
    ensures parse(l).Some? ==> Trim(l) != "" && Trim(l)[0] != '#'
  {
    assert parse(Trim(l)) == parse(l);
  }

  /** One more line of the text, and what it does to the report. */
  lemma ReportSnoc(parse: ShareUrlParser, source: Source, init: seq<string>, l: string)
    requires ParserLaws(parse)
    ensures var before, after := ParseLines(parse, source, Kept(init)), ParseLines(parse, source, Kept(init + [l]));
      if parse(l).Some? then
        after == if parse(l).value in Hashes(before.accepted) then before
                 else before.(accepted := before.accepted + [Proxy(source, Trim(l), parse(l).value)])
      else
        after == if Trim(l) != "" && Trim(l)[0] != '#' then before.(rejected := before.rejected + [Trim(l)]) else before
  {
    SkippedIsNoUrl(parse, l);
    TrimSpec(l);
    TrimLineEnd(Trim(l));
    hide Trim;
    assert (init + [l])[..|init|] == init;
    var kept := Kept(init);
    if Trim(l) != "" && Trim(l)[0] != '#' {
      assert Kept(init + [l]) == kept + [Trim(l)];
      assert (kept + [Trim(l)])[..|kept|] == kept;
    } else {
      assert Kept(init + [l]) == kept + [] == kept;
    }
  }

  lemma AcceptedSnoc(parse: ShareUrlParser, source: Source, lines: seq<string>, l: string, before: ParseReport)
    requires Reports(parse, source, lines, before) && parse(l).Some? && parse(l).value !in Hashes(before.accepted)
    ensures Reports(parse, source, lines + [l],
                    before.(accepted := before.accepted + [Proxy(source, Trim(l), parse(l).value)]))
  {
    var h := parse(l).value;
    var p := Proxy(source, Trim(l), h);
    var more, accepted := lines + [l], before.accepted + [p];
    hide Trim;
    SomeFirstLine(parse, lines, h);
    assert more[|lines|] == l && FirstLine(parse, more, h, |lines|) by {
      FirstLineSnoc(parse, lines, l, h, |lines|);
    }
    assert forall q :: q in accepted <==> q in before.accepted || q == p;
    forall g
      ensures g in Hashes(accepted) <==> exists k: nat :: FirstLine(parse, more, g, k)
    {
      assert g in Hashes(accepted) <==> g in Hashes(before.accepted) || g == h;
      FirstLines(parse, lines, l, g);
    }
    forall i, k: nat | 0 <= i < |accepted| && FirstLine(parse, more, accepted[i].hash, k)
      ensures if i < |before.accepted| then FirstLine(parse, lines, accepted[i].hash, k) else k == |lines|
    {
      FirstLineSnoc(parse, lines, l, accepted[i].hash, k);
      if i < |before.accepted| {
        assert accepted[i] in before.accepted && accepted[i].hash in Hashes(before.accepted);
        SomeFirstLine(parse, lines, accepted[i].hash);
      } else {
        assert forall m: nat :: m < |lines| ==> parse(lines[m]) != Some(h);
      }
    }
    RefusedSnoc(parse, lines, l);
  }

  lemma FirstLines(parse: ShareUrlParser, lines: seq<string>, l: string, g: Hash)
    ensures (exists k: nat :: FirstLine(parse, lines + [l], g, k)) <==>
              (exists k: nat :: FirstLine(parse, lines, g, k)) || parse(l) == Some(g)
  {
    SomeFirstLine(parse, lines, g);
    SomeFirstLine(parse, lines + [l], g);
    assert forall m: nat :: m < |lines| ==> (lines + [l])[m] == lines[m];
    assert (lines + [l])[|lines|] == l;
  }

  lemma RefusedSnoc(parse: ShareUrlParser, lines: seq<string>, l: string)
    ensures forall x :: (exists m :: m in lines + [l] && Refused(parse, m, x)) <==>
                          (exists m :: m in lines && Refused(parse, m, x)) || Refused(parse, l, x)
  {
    hide Refused;
    assert forall m :: m in lines + [l] <==> m in lines || m == l;
  }

  lemma OldFirstLine(parse: ShareUrlParser, lines: seq<string>, l: string, h: Hash, k: nat)
    requires FirstLine(parse, lines + [l], h, k) && exists m: nat :: FirstLine(parse, lines, h, m)
    ensures FirstLine(parse, lines, h, k) && k < |lines| && (lines + [l])[k] == lines[k]
  {
    SomeFirstLine(parse, lines, h);
    FirstLineSnoc(parse, lines, l, h, k);
  }

  lemma EverySnoc(parse: ShareUrlParser, lines: seq<string>, l: string, accepted: seq<Proxy>)
    requires AcceptsEvery(parse, lines, accepted) && (parse(l).Some? ==> parse(l).value in Hashes(accepted))
    ensures AcceptsEvery(parse, lines + [l], accepted)
  {
    forall h
      ensures h in Hashes(accepted) <==> exists k: nat :: FirstLine(parse, lines + [l], h, k)
    {
      FirstLines(parse, lines, l, h);
    }
  }

  lemma OldLine(parse: ShareUrlParser, lines: seq<string>, l: string, accepted: seq<Proxy>, i: nat, k: nat)
    requires AcceptsEvery(parse, lines, accepted) && i < |accepted|
    requires FirstLine(parse, lines + [l], accepted[i].hash, k)
    ensures FirstLine(parse, lines, accepted[i].hash, k) && k < |lines| && (lines + [l])[k] == lines[k]
  {
    hide FirstLine;
    assert accepted[i] in accepted && accepted[i].hash in Hashes(accepted);
    OldFirstLine(parse, lines, l, accepted[i].hash, k);
  }

  lemma WrittenSnoc(parse: ShareUrlParser, source: Source, lines: seq<string>, l: string, accepted: seq<Proxy>)
    requires AcceptsEvery(parse, lines, accepted) && AsWritten(parse, source, lines, accepted)
    ensures AsWritten(parse, source, lines + [l], accepted)
  {
    hide AcceptsEvery, Trim;
    forall i, k: nat | 0 <= i < |accepted| && FirstLine(parse, lines + [l], accepted[i].hash, k)
      ensures accepted[i].raw == Trim((lines + [l])[k]) && accepted[i].source == source
    {
      OldLine(parse, lines, l, accepted, i, k);
    }
  }

  lemma OrderSnoc(parse: ShareUrlParser, lines: seq<string>, l: string, accepted: seq<Proxy>)
    requires AcceptsEvery(parse, lines, accepted) && InLineOrder(parse, lines, accepted)
    ensures InLineOrder(parse, lines + [l], accepted)
  {
    hide AcceptsEvery, FirstLine;
    forall i, j, k: nat, m: nat | 0 <= i < j < |accepted|
        && FirstLine(parse, lines + [l], accepted[i].hash, k) && FirstLine(parse, lines + [l], accepted[j].hash, m)
      ensures k < m
    {
      OldLine(parse, lines, l, accepted, i, k);
      OldLine(parse, lines, l, accepted, j, m);
    }
  }

  lemma RejectedSnoc(parse: ShareUrlParser, lines: seq<string>, l: string, before: seq<string>, rejected: seq<string>)
    requires RejectsOthers(parse, lines, before)
    requires forall x :: x in rejected <==> x in before || Refused(parse, l, x)
    ensures RejectsOthers(parse, lines + [l], rejected)
  {
    RefusedSnoc(parse, lines, l);
    hide Refused;
  }

  lemma OtherSnoc(parse: ShareUrlParser, source: Source, lines: seq<string>, l: string, before: ParseReport,
                  rejected: seq<string>)
    requires Reports(parse, source, lines, before)
    requires parse(l).Some? ==> parse(l).value in Hashes(before.accepted)
    requires forall x :: x in rejected <==> x in before.rejected || Refused(parse, l, x)
    ensures Reports(parse, source, lines + [l], before.(rejected := rejected))
  {
    EverySnoc(parse, lines, l, before.accepted);
    WrittenSnoc(parse, source, lines, l, before.accepted);
    OrderSnoc(parse, lines, l, before.accepted);
    RejectedSnoc(parse, lines, l, before.rejected, rejected);
    hide AcceptsEvery, AsWritten, InLineOrder, RejectsOthers, Refused;
  }

  /** Parsing the kept lines of a text reports the text. */
  lemma {:induction false} LinesAreReported(parse: ShareUrlParser, source: Source, lines: seq<string>)
    requires ParserLaws(parse)
    ensures Reports(parse, source, lines, ParseLines(parse, source, Kept(lines)))
  {
    if |lines| == 0 {
      assert ParseLines(parse, source, Kept(lines)) == ParseReport([], []);
    } else {
      var n := |lines| - 1;
      var init, l := lines[..n], lines[n];
      assert lines == init + [l];
      LinesAreReported(parse, source, init);
      ReportSnoc(parse, source, init, l);
      SkippedIsNoUrl(parse, l);
      var before := ParseLines(parse, source, Kept(init));
      if parse(l).Some? && parse(l).value !in Hashes(before.accepted) {
        AcceptedSnoc(parse, source, init, l, before);
      } else {
        hide Reports, Trim;
        OtherSnoc(parse, source, init, l, before, ParseLines(parse, source, Kept(lines)).rejected);
      }
    }
  }

  // ---- Payloads ----

  /** The text shows a scheme. */
  ghost predicate ShowsScheme(s: string) {
    exists a, b :: s == a + "://" + b
  }

  lemma SchemeIff(s: string)
    ensures HasScheme(s) <==> ShowsScheme(s)
  {
    if HasScheme(s) {
      var i :| 0 <= i <= |s| - 3 && SchemeAt(s, i);
      assert s == s[..i] + "://" + s[i + 3..];
    }
    if ShowsScheme(s) {
      var a, b :| s == a + "://" + b;
      assert SchemeAt(s, |a|);
    }
  }

  /** A payload that shows a scheme is read as it stands. */
  lemma PlainPayload(parse: ShareUrlParser, source: Source, payload: string)
    requires ParserLaws(parse) && ShowsScheme(Trim(payload))
    ensures Reports(parse, source, Split(payload), ParseLines(parse, source, SubscriptionLines(payload)))
  {
    hide Kept, Split, Trim, Reports, ParseLines;
    SchemeIff(Trim(payload));
    KeptOfTrimmed(payload);
    LinesAreReported(parse, source, Split(payload));
  }

  /** And so is one that is not base64 of UTF-8, for instance because it has a colon. */
  lemma UndecodablePayload(parse: ShareUrlParser, source: Source, payload: string)
    requires ParserLaws(parse)
    requires match DecodeAny(Trim(payload)) case None => true case Some(bytes) => FromUtf8(bytes).None?
    ensures Reports(parse, source, Split(payload), ParseLines(parse, source, SubscriptionLines(payload)))
  {
    hide Kept, Split, Trim, Reports, ParseLines, DecodeAny, FromUtf8;
    KeptOfTrimmed(payload);
    LinesAreReported(parse, source, Split(payload));
  }

  lemma SymbolIsPlain(v: nat, url: bool)
    requires v < 64
    ensures !White(Symbol(v, url)) && Symbol(v, url) != ':'
  {
  }

  lemma {:induction false} EncodingIsPlain(b: seq<Byte>, url: bool, pad: bool)
    ensures forall c :: c in EncodeAs(b, url, pad) ==> !White(c) && c != ':'
  {
    if |b| > 0 {
      assert !White('=');
      hide White, Symbol;
      SymbolIsPlain(b[0] / 4, url);
      if |b| == 1 {
        SymbolIsPlain(b[0] % 4 * 16, url);
      } else {
        SymbolIsPlain(b[0] % 4 * 16 + b[1] / 16, url);
        if |b| == 2 {
          SymbolIsPlain(b[1] % 16 * 4, url);
        } else {
          SymbolIsPlain(b[1] % 16 * 4 + b[2] / 64, url);
          SymbolIsPlain(b[2] % 64, url);
          EncodingIsPlain(b[3..], url, pad);
        }
      }
    }
  }

  /** A payload that is padded base64, or URL-safe base64 padded or not, of the UTF-8 of a text is read as
      that text. */
  lemma EncodedPayload(parse: ShareUrlParser, source: Source, payload: string, text: string, url: bool, pad: bool)
    requires ParserLaws(parse) && (url || pad) && Trim(payload) == EncodeAs(Utf8(text), url, pad)
    ensures Reports(parse, source, Split(text), ParseLines(parse, source, SubscriptionLines(payload)))
  {
    hide Kept, Split, Trim, Reports, ParseLines, EncodeAs, Utf8, FromUtf8, DecodeAny;
    EncodingIsPlain(Utf8(text), url, pad);
    NoColonNoScheme(Trim(payload));
    DecodesEncodings(Utf8(text), url, pad);
    Utf8RoundTrip(text);
    LinesAreReported(parse, source, Split(text));
  }
}
