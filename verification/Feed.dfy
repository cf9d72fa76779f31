/** From the node store to the published feed, and from a feed back to proxies. */
module Feed {
  import opened Domain
  import opened Sets
  import opened Ranking
  import opened Database
  import opened Ledgers
  import opened RefreshProtocol
  import opened Publication
  import opened Text
  import opened Base64

  // ---- The parser ----

  /** Reading one share URL: its configuration hash, or nothing. */
  type ShareUrlParser = string -> Option<Hash>

  predicate LooksLikeUrl(t: string) {
    ':' in t && |Trim(t)| > 0 && Trim(t)[0] != '#'
  }

  /** What the feed needs to know about share URLs: surrounding white space does not matter
      and only texts with a scheme are accepted. */
  ghost predicate ParserLaws(parse: ShareUrlParser) {
    forall t :: parse(Trim(t)) == parse(t) && (parse(t).Some? ==> LooksLikeUrl(t))
  }

  datatype ParseReport = ParseReport(accepted: seq<Proxy>, rejected: seq<string>)

  predicate SchemeAt(s: string, i: int) {
    0 <= i <= |s| - 3 && s[i] == ':' && s[i + 1] == '/' && s[i + 2] == '/'
  }

  predicate HasScheme(s: string) {
    exists i | 0 <= i <= |s| - 3 :: SchemeAt(s, i)
  }

  /** The text of a payload: itself when it shows a scheme or is not base64 of UTF-8, else what it encodes. */
  function Plain(trimmed: string): string {
    if HasScheme(trimmed) then trimmed
    else
      match DecodeAny(trimmed)
      case None => trimmed
      case Some(bytes) => FromUtf8(bytes).GetOr(trimmed)
  }

  /** Trimmed lines, without blanks and comments. */
  function Kept(lines: seq<string>): seq<string> {
    if |lines| == 0 then []
    else
      var n := |lines| - 1;
      var line := Trim(lines[n]);
      Kept(lines[..n]) + (if line != "" && line[0] != '#' then [line] else [])
  }

  function SubscriptionLines(payload: string): seq<string> {
    Kept(Split(Plain(Trim(payload))))
  }

  function Hashes(accepted: seq<Proxy>): set<Hash> {
    set p | p in accepted :: p.hash
  }

  function ParseLines(parse: ShareUrlParser, source: Source, lines: seq<string>): ParseReport {
    if |lines| == 0 then ParseReport([], [])
    else
      var n := |lines| - 1;
      var report, parsed := ParseLines(parse, source, lines[..n]), parse(lines[n]);
      if parsed.None? then report.(rejected := report.rejected + [lines[n]])
      else if parsed.value in Hashes(report.accepted) then report
      else report.(accepted := report.accepted + [Proxy(source, Trim(lines[n]), parsed.value)])
  }

  method ParseSubscription(parse: ShareUrlParser, payload: string, source: Source) returns (report: ParseReport)
    ensures report == ParseLines(parse, source, SubscriptionLines(payload))
  {
    var lines := SubscriptionLines(payload);
    var accepted: seq<Proxy>, rejected: seq<string> := [], [];
    var seen: set<Hash> := {};
    for i := 0 to |lines|
      invariant ParseReport(accepted, rejected) == ParseLines(parse, source, lines[..i])
      invariant seen == Hashes(accepted)
    {
      assert lines[..i + 1][..i] == lines[..i];
      var parsed := parse(lines[i]);
      if parsed.None? {
        rejected := rejected + [lines[i]];
      } else if parsed.value !in seen {
        seen := seen + {parsed.value};
        accepted := accepted + [Proxy(source, Trim(lines[i]), parsed.value)];
      }
    }
    assert lines[..|lines|] == lines;
    report := ParseReport(accepted, rejected);
  }

  /** A configuration as the parser hands it to the store: one trimmed line with the hash it parses to. */
  ghost predicate FromParser(parse: ShareUrlParser, raw: string, hash: Hash) {
    Trimmed(raw) && '\n' !in raw && parse(raw) == Some(hash)
  }

  ghost predicate DistinctHashes(accepted: seq<Proxy>) {
    forall i, j :: 0 <= i < j < |accepted| ==> accepted[i].hash != accepted[j].hash
  }

  lemma {:induction false} KeptSpec(lines: seq<string>, line: string)
    requires line in Kept(lines)
    ensures exists l :: l in lines && line == Trim(l)
  {
    var n := |lines| - 1;
    if line in Kept(lines[..n]) {
      KeptSpec(lines[..n], line);
    } else {
      assert line == Trim(lines[n]);
    }
  }

  lemma LinesAreLines(payload: string, line: string)
    requires line in SubscriptionLines(payload)
    ensures Trimmed(line) && '\n' !in line && Trim(line) == line
  {
    var text := Plain(Trim(payload));
    KeptSpec(Split(text), line);
    var l :| l in Split(text) && line == Trim(l);
    SplitLines(text, l);
    TrimSpec(l);
    TrimLineEnd(line);
  }

  ghost predicate OneLine(l: string) {
    Trim(l) == l && Trimmed(l) && '\n' !in l
  }

  /** The accepted proxies are lines that parse to their hash, no two have the same hash, and a hash
      is accepted exactly when some line parses to it; the rejected lines are those that do not parse. */
  ghost predicate Faithful(parse: ShareUrlParser, source: Source, lines: seq<string>, report: ParseReport) {
    && DistinctHashes(report.accepted)
    && (forall p :: p in report.accepted ==> p.source == source && p.raw in lines && FromParser(parse, p.raw, p.hash))
    && (forall l :: l in lines && parse(l).Some? ==> parse(l).value in Hashes(report.accepted))
    && (forall l :: l in report.rejected <==> l in lines && parse(l).None?)
  }

  lemma FaithfulStep(parse: ShareUrlParser, source: Source, lines: seq<string>, line: string, before: ParseReport,
                     after: ParseReport)
    requires Faithful(parse, source, lines, before) && OneLine(line)
    requires after == match parse(line)
      case None => before.(rejected := before.rejected + [line])
      case Some(h) =>
        if h in Hashes(before.accepted) then before
        else before.(accepted := before.accepted + [Proxy(source, Trim(line), h)])
    ensures Faithful(parse, source, lines + [line], after)
  {
    hide Trim, White;
    assert forall l :: l in lines + [line] <==> l in lines || l == line;
    if parse(line).Some? && parse(line).value !in Hashes(before.accepted) {
      var p := Proxy(source, Trim(line), parse(line).value);
      assert Hashes(after.accepted) == Hashes(before.accepted) + {p.hash};
      assert forall q :: q in before.accepted ==> q.hash in Hashes(before.accepted);
    }
  }

  lemma {:induction false} LinesAreParsedFaithfully(parse: ShareUrlParser, source: Source, lines: seq<string>)
    requires forall l :: l in lines ==> OneLine(l)
    ensures Faithful(parse, source, lines, ParseLines(parse, source, lines))
  {
    if |lines| > 0 {
      hide Faithful, OneLine;
      var n := |lines| - 1;
      LinesAreParsedFaithfully(parse, source, lines[..n]);
      assert lines == lines[..n] + [lines[n]];
      FaithfulStep(parse, source, lines[..n], lines[n], ParseLines(parse, source, lines[..n]),
                   ParseLines(parse, source, lines));
    } else {
      assert ParseLines(parse, source, lines) == ParseReport([], []);
    }
  }

  /** Whatever the payload, its parse is faithful to its lines. */
  lemma ParseIsFaithful(parse: ShareUrlParser, source: Source, payload: string)
    ensures Faithful(parse, source, SubscriptionLines(payload), ParseLines(parse, source, SubscriptionLines(payload)))
  {
    hide Faithful, SubscriptionLines;
    var lines := SubscriptionLines(payload);
    forall l | l in lines
      ensures OneLine(l)
    {
      LinesAreLines(payload, l);
    }
    LinesAreParsedFaithfully(parse, source, lines);
  }

  // ---- The writer ----

  datatype Files = Files(raw: string, encoded: string)

  /** The two feed files; nothing is written for an empty snapshot. */
  function Render(configs: seq<string>): Option<Files> {
    if |configs| == 0 then None
    else
      var raw := Join(configs) + "\n";
      Some(Files(raw, Encode(Utf8(raw)) + "\n"))
  }

  /** One configuration a line, ended by a newline, and the same text as base64 on one line. */
  lemma RenderedFiles(configs: seq<string>)
    requires |configs| > 0 && forall l :: l in configs ==> '\n' !in l
    ensures Render(configs).Some?
    ensures var files := Render(configs).value;
      && Split(files.raw) == configs + [""]
      && exists e :: files.encoded == e + "\n" && '\n' !in e && Decode(e, false) == Some(Utf8(files.raw))
  {
    hide Encode, Utf8, Decode, InAlphabet;
    var raw := Join(configs) + "\n";
    var e := Encode(Utf8(raw));
    SplitJoin(configs);
    RoundTrip(Utf8(raw));
    EncodeAlphabet(Utf8(raw));
    assert !InAlphabet('\n') by {
      NewlineIsNoSymbol();
    }
  }

  lemma NewlineIsNoSymbol()
    ensures !InAlphabet('\n')
  {
  }

  function Raws(published: seq<Proxy>): (r: seq<string>)
    ensures |r| == |published|
  {
    seq(|published|, i requires 0 <= i < |published| => published[i].raw)
  }

  lemma {:induction false} JoinEnds(lines: seq<string>)
    requires |lines| > 0 && forall l :: l in lines ==> Trimmed(l) && ':' in l
    ensures Trimmed(Join(lines)) && ':' in Join(lines) && |Join(lines)| > 0
  {
    assert lines[0] in lines;
    if |lines| > 1 {
      JoinEnds(lines[1..]);
    }
  }

  /** A line that the parser does not skip and does not shorten. */
  predicate Content(l: string) {
    Trim(l) == l && l != "" && l[0] != '#'
  }

  ghost predicate AllContent(lines: seq<string>) {
    forall i :: 0 <= i < |lines| ==> Content(lines[i])
  }

  lemma KeptSnoc(lines: seq<string>, n: nat)
    requires |lines| == n + 1 && Content(lines[n])
    ensures Kept(lines) == Kept(lines[..n]) + [lines[n]]
  {
    hide Trim;
  }

  lemma {:induction false} KeepsAll(lines: seq<string>)
    requires AllContent(lines)
    ensures Kept(lines) == lines
  {
    hide Trim, Content;
    if |lines| > 0 {
      var n := |lines| - 1;
      assert Content(lines[n]);
      KeptSnoc(lines, n);
      hide Kept;
      KeepsAll(lines[..n]);
      assert lines == lines[..n] + [lines[n]];
    }
  }

  lemma BlankLineIsDropped(lines: seq<string>)
    ensures Kept(lines + [""]) == Kept(lines)
  {
    assert (lines + [""])[..|lines|] == lines;
    assert Trim("") == "";
  }

  lemma AlphabetIsPlain(c: char)
    requires InAlphabet(c)
    ensures !White(c) && c != ':'
  {
  }

  lemma NoColonNoScheme(s: string)
    ensures HasScheme(s) ==> ':' in s
  {
  }

  lemma EncodedIsOneToken(raw: string)
    requires |raw| > 0
    ensures var e := Encode(Utf8(raw)); Trim(e + "\n") == e && !HasScheme(e) && Plain(e) == raw
  {
    hide Encode, Utf8, InAlphabet, HasScheme, White, Decode, FromUtf8;
    var b := Utf8(raw);
    var e := Encode(b);
    EncodeAlphabet(b);
    forall c | c in e
      ensures !White(c) && c != ':'
    {
      AlphabetIsPlain(c);
    }
    TrimLineEnd(e);
    NoColonNoScheme(e);
    RoundTrip(b);
    Utf8RoundTrip(raw);
  }

  lemma {:induction false} ParseAll(parse: ShareUrlParser, source: Source, published: seq<Proxy>)
    requires DistinctHashes(published)
    requires forall p :: p in published ==> p.source == source && Trim(p.raw) == p.raw && parse(p.raw) == Some(p.hash)
    ensures ParseLines(parse, source, Raws(published)) == ParseReport(published, [])
  {
    if |published| > 0 {
      var n := |published| - 1;
      ParseAll(parse, source, published[..n]);
      assert Raws(published)[..n] == Raws(published[..n]);
      assert published == published[..n] + [published[n]];
      forall p | p in published[..n]
        ensures p.hash != published[n].hash
      {
        var k :| 0 <= k < n && published[k] == p;
      }
    }
  }

  ghost predicate Publishable(parse: ShareUrlParser, published: seq<Proxy>) {
    DistinctHashes(published) && forall p :: p in published ==> FromParser(parse, p.raw, p.hash)
  }

  lemma FeedLines(parse: ShareUrlParser, published: seq<Proxy>)
    requires ParserLaws(parse) && Publishable(parse, published) && |published| > 0
    ensures var files := Render(Raws(published)).value;
      SubscriptionLines(files.raw) == Raws(published) == SubscriptionLines(files.encoded)
  {
    hide DecodeAny, FromUtf8, White;
    var lines := Raws(published);
    forall l | l in lines
      ensures Trimmed(l) && '\n' !in l && Content(l) && ':' in l
    {
      var k :| 0 <= k < |lines| && lines[k] == l;
      assert published[k] in published;
      assert parse(l).Some? && LooksLikeUrl(l);
      TrimLineEnd(l);
    }
    var text := Join(lines);
    JoinEnds(lines);
    TrimLineEnd(text);
    ColonStaysText(text);
    assert Plain(text) == text;
    EncodedIsOneToken(text + "\n");
    SplitJoin(lines);
    KeepsAll(lines);
    BlankLineIsDropped(lines);
  }

  /** Parsing either feed gives exactly the published configurations, in order,
      with nothing rejected and nothing merged. */
  lemma FeedRoundTrip(parse: ShareUrlParser, source: Source, published: seq<Proxy>)
    requires ParserLaws(parse) && Publishable(parse, published) && |published| > 0
    requires forall p :: p in published ==> p.source == source
    ensures var files := Render(Raws(published)).value;
      && ParseLines(parse, source, SubscriptionLines(files.raw)) == ParseReport(published, [])
      && ParseLines(parse, source, SubscriptionLines(files.encoded)) == ParseReport(published, [])
  {
    FeedLines(parse, published);
    forall p | p in published
      ensures Trim(p.raw) == p.raw
    {
      TrimLineEnd(p.raw);
    }
    ParseAll(parse, source, published);
  }

  // ---- The snapshot of a history ----

  datatype Entry = Entry(id: NodeId, node: Node)

  function SnapshotRows(db: Db, clock: int): set<Entry> {
    set id | id in Snapshot(db, clock) :: Entry(id, db.nodes[id])
  }

  /** Best score first, then by hash. */
  function BestFirst(): (Entry, Entry) -> bool {
    (a: Entry, b: Entry) =>
      a.node.score > b.node.score || (a.node.score == b.node.score && LexLess(a.node.hash, b.node.hash))
  }

  lemma SnapshotOrderIsTotal(db: Db, clock: int)
    requires UniqueHashes(db)
    ensures StrictTotal(SnapshotRows(db, clock), BestFirst())
  {
    hide LexLess, Published;
    var rows, before := SnapshotRows(db, clock), BestFirst();
    forall a | a in rows
      ensures !before(a, a)
    {
      LexIrreflexive(a.node.hash);
    }
    forall a, b | a in rows && b in rows && a != b
      ensures before(a, b) || before(b, a)
    {
      LexTotal(a.node.hash, b.node.hash);
    }
    forall a, b, c | a in rows && b in rows && c in rows && before(a, b) && before(b, c)
      ensures before(a, c)
    {
      if a.node.score == b.node.score == c.node.score {
        LexTransitive(a.node.hash, b.node.hash, c.node.hash);
      }
    }
  }

  /** The rows of the publication query, in order, as a client will see them. */
  function PublishedProxies(db: Db, clock: int, source: Source): seq<Proxy>
    requires StrictTotal(SnapshotRows(db, clock), BestFirst())
  {
    var rows := TopK(SnapshotRows(db, clock), BestFirst(), |SnapshotRows(db, clock)|);
    seq(|rows|, i requires 0 <= i < |rows| => Proxy(source, rows[i].node.raw, rows[i].node.hash))
  }

  /** The published list is the whole snapshot, by falling score, and by hash where scores agree. */
  lemma PublishedInOrder(db: Db, clock: int)
    requires UniqueHashes(db)
    ensures StrictTotal(SnapshotRows(db, clock), BestFirst())
    ensures var rows := TopK(SnapshotRows(db, clock), BestFirst(), |SnapshotRows(db, clock)|);
      && Elements(rows) == SnapshotRows(db, clock) && Distinct(rows)
      && forall i, j :: 0 <= i < j < |rows| ==>
           rows[i].node.score > rows[j].node.score
           || (rows[i].node.score == rows[j].node.score && LexLess(rows[i].node.hash, rows[j].node.hash))
  {
    hide Published, LexLess, TopK, StrictTotal;
    SnapshotOrderIsTotal(db, clock);
    var all := SnapshotRows(db, clock);
    var rows := TopK(all, BestFirst(), |all|);
    TopKSpec(all, BestFirst(), |all|);
    DistinctElements(rows);
    FullSubset(Elements(rows), all);
  }

  ghost predicate ParsedIngests(parse: ShareUrlParser, tr: seq<Timed>) {
    forall i :: 0 <= i < |tr| && tr[i].step.Ingest? ==> FromParser(parse, tr[i].step.proxy.raw, tr[i].step.proxy.hash)
  }

  lemma StepKeepsParsed(parse: ShareUrlParser, cfg: Config, db: Db, t: Timed, id: NodeId)
    requires id in db.nodes && FromParser(parse, db.nodes[id].raw, db.nodes[id].hash)
    requires t.step.Ingest? ==> FromParser(parse, t.step.proxy.raw, t.step.proxy.hash)
    ensures FromParser(parse, RowStep(cfg, db, t, id).raw, RowStep(cfg, db, t, id).hash)
  {
    hide FromParser, Logged, EarlierGens, HashesAt, IsManual;
  }

  lemma {:induction false} RowsAreParsed(parse: ShareUrlParser, cfg: Config, tr: seq<Timed>, i: nat, id: NodeId)
    requires ParsedIngests(parse, tr) && i <= |tr| && id in State(cfg, tr, i).nodes
    ensures FromParser(parse, State(cfg, tr, i).nodes[id].raw, State(cfg, tr, i).nodes[id].hash)
  {
    hide Next, RowStep, FromParser;
    if i > 0 {
      HistoryRowWise(cfg, tr, i - 1);
      if id in State(cfg, tr, i - 1).nodes {
        RowsAreParsed(parse, cfg, tr, i - 1, id);
        StepKeepsParsed(parse, cfg, State(cfg, tr, i - 1), tr[i - 1], id);
      }
    }
  }

  /** Every snapshot of every history fed by the parser survives the trip through either feed. */
  lemma SnapshotRoundTrip(parse: ShareUrlParser, cfg: Config, tr: seq<Timed>, i: nat, clock: int, source: Source)
    requires ParserLaws(parse) && ParsedIngests(parse, tr) && i <= |tr|
    ensures StrictTotal(SnapshotRows(State(cfg, tr, i), clock), BestFirst())
    ensures var published := PublishedProxies(State(cfg, tr, i), clock, source);
      match Render(Raws(published))
      case None => Snapshot(State(cfg, tr, i), clock) == {}
      case Some(files) =>
        && ParseLines(parse, source, SubscriptionLines(files.raw)) == ParseReport(published, [])
        && ParseLines(parse, source, SubscriptionLines(files.encoded)) == ParseReport(published, [])
  {
    hide State, SubscriptionLines, ParseLines, FromParser;
    var db := State(cfg, tr, i);
    HistoryHasUniqueHashes(cfg, tr, i);
    SnapshotOrderIsTotal(db, clock);
    var published := PublishedProxies(db, clock, source);
    forall id | id in db.nodes
      ensures FromParser(parse, db.nodes[id].raw, db.nodes[id].hash)
    {
      RowsAreParsed(parse, cfg, tr, i, id);
    }
    PublishedArePublishable(parse, db, clock, source);
    if |published| > 0 {
      FeedRoundTrip(parse, source, published);
    }
  }

  lemma PublishedArePublishable(parse: ShareUrlParser, db: Db, clock: int, source: Source)
    requires StrictTotal(SnapshotRows(db, clock), BestFirst()) && UniqueHashes(db)
    requires forall id :: id in db.nodes ==> FromParser(parse, db.nodes[id].raw, db.nodes[id].hash)
    ensures var published := PublishedProxies(db, clock, source);
      && Publishable(parse, published) && (forall p :: p in published ==> p.source == source)
      && (published == [] ==> Snapshot(db, clock) == {})
  {
    hide FromParser, TopK, StrictTotal, Published;
    var all := SnapshotRows(db, clock);
    var rows := TopK(all, BestFirst(), |all|);
    TopKSpec(all, BestFirst(), |all|);
    forall k | 0 <= k < |rows|
      ensures rows[k].id in db.nodes && rows[k].node == db.nodes[rows[k].id]
    {
      assert rows[k] in rows;
    }
    var published := PublishedProxies(db, clock, source);
    assert |published| == |rows|;
    if published == [] {
      assert all == {};
      assert forall id :: id in Snapshot(db, clock) ==> Entry(id, db.nodes[id]) in all;
    }
  }
}
