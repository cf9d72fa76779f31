/** The rolling window of snapshots kept on disk by the Python publisher, and the feed merged from it. */
module SnapshotWindow {
  import opened Ranking

  type Configs = seq<string>

  type Positive = n: nat | n > 0 witness 1

  /** `dict.fromkeys`: first occurrences, in order. */
  function Dedup(s: Configs): Configs {
    if |s| == 0 then []
    else
      var n := |s| - 1;
      Dedup(s[..n]) + (if s[n] in s[..n] then [] else [s[n]])
  }

  function Stripped(strip: string -> string, items: Configs): Configs {
    if |items| == 0 then []
    else
      var n := |items| - 1;
      Stripped(strip, items[..n]) + (if strip(items[n]) == "" then [] else [strip(items[n])])
  }

  /** How a snapshot is taken, and how it is read back: stripped, without blanks and repeats. */
  function Clean(strip: string -> string, items: Configs): Configs {
    Dedup(Stripped(strip, items))
  }

  ghost predicate StripLaw(strip: string -> string) {
    forall s :: strip(strip(s)) == strip(s)
  }

  function LastOf<T>(k: Positive, s: seq<T>): seq<T> {
    if |s| <= k then s else s[|s| - k..]
  }

  /** What the history file may hold; anything but a version 2 document counts as no history. */
  datatype File = Missing | Unreadable | Document(version: int, snapshots: seq<Configs>)

  function CleanAll(strip: string -> string, snapshots: seq<Configs>): (r: seq<Configs>)
    ensures |r| == |snapshots|
  {
    seq(|snapshots|, i requires 0 <= i < |snapshots| => Clean(strip, snapshots[i]))
  }

  function Load(strip: string -> string, retained: Positive, file: File): seq<Configs> {
    match file
    case Document(version, snapshots) => if version == 2 then LastOf(retained, CleanAll(strip, snapshots)) else []
    case _ => []
  }

  function Pushed(retained: Positive, history: seq<Configs>, current: Configs): seq<Configs> {
    if history == [] || history[|history| - 1] != current then LastOf(retained, history + [current]) else history
  }

  /** The file after one publication; an unchanged history is not written again. */
  function NextFile(strip: string -> string, retained: Positive, file: File, current: Configs): File {
    var history := Load(strip, retained, file);
    var updated := Pushed(retained, history, current);
    if file.Missing? || updated != history then Document(2, updated) else file
  }

  /** A publisher process; everything it remembers between publications is in the file. */
  class Publisher {
    const retained: Positive
    const strip: string -> string
    var file: File

    /** A restart: a new process on the file the last one left. */
    constructor (requested: int, strip: string -> string, file: File)
      ensures this.file == file && this.strip == strip
      ensures requested >= 1 ==> retained == requested
    {
      this.retained := if requested > 1 then requested else 1;
      this.strip, this.file := strip, file;
    }

    method UpdateHistory(current: Configs) returns (history: seq<Configs>)
      modifies this
      ensures history == Pushed(retained, Load(strip, retained, old(file)), current)
      ensures file == NextFile(strip, retained, old(file), current)
    {
      hide Load, LastOf;
      history := Load(strip, retained, file);
      var changed := file.Missing?;
      if history == [] || history[|history| - 1] != current {
        PushChanges(retained, history, current);
        history := LastOf(retained, history + [current]);
        changed := true;
      }
      if changed {
        file := Document(2, history);
      }
    }
  }

  lemma PushChanges(retained: Positive, history: seq<Configs>, current: Configs)
    requires history == [] || history[|history| - 1] != current
    ensures LastOf(retained, history + [current]) != history
  {
    var pushed := LastOf(retained, history + [current]);
    assert pushed[|pushed| - 1] == current;
  }

  // ---- The window over all publications and restarts ----

  /** A sequence of snapshots with consecutive repeats removed. */
  function Destutter(sets: seq<Configs>): (d: seq<Configs>)
    ensures |sets| > 0 ==> |d| > 0 && d[|d| - 1] == sets[|sets| - 1]
  {
    if |sets| == 0 then []
    else
      var n := |sets| - 1;
      var d := Destutter(sets[..n]);
      if d != [] && d[|d| - 1] == sets[n] then d else d + [sets[n]]
  }

  ghost predicate CleanSet(strip: string -> string, s: Configs) {
    Clean(strip, s) == s
  }

  /** The file after a run of publications, by any number of processes, one after the other. */
  function FileAfter(strip: string -> string, retained: Positive, first: File, sets: seq<Configs>): File {
    if |sets| == 0 then first
    else
      var n := |sets| - 1;
      NextFile(strip, retained, FileAfter(strip, retained, first, sets[..n]), sets[n])
  }

  lemma LastOfPush<T>(k: Positive, s: seq<T>, x: T)
    ensures LastOf(k, LastOf(k, s) + [x]) == LastOf(k, s + [x])
    ensures s != [] ==> LastOf(k, s) != [] && LastOf(k, s)[|LastOf(k, s)| - 1] == s[|s| - 1]
  {
  }

  lemma LastOfIn<T>(k: Positive, s: seq<T>)
    ensures forall x :: x in LastOf(k, s) ==> x in s
    ensures LastOf(k, LastOf(k, s)) == LastOf(k, s)
  {
  }

  /** `h`, and then every snapshot that differs from the one before it. */
  function Appended(h: seq<Configs>, sets: seq<Configs>): (r: seq<Configs>)
    ensures |sets| > 0 ==> |r| > 0 && r[|r| - 1] == sets[|sets| - 1]
    ensures h <= r
  {
    if |sets| == 0 then h
    else
      var n := |sets| - 1;
      var r := Appended(h, sets[..n]);
      if r != [] && r[|r| - 1] == sets[n] then r else r + [sets[n]]
  }

  predicate Changes(s: seq<Configs>, i: nat) {
    i + 1 < |s| && s[i] != s[i + 1]
  }

  ghost predicate NoStutter(s: seq<Configs>) {
    forall i: nat :: i < |s| - 1 ==> Changes(s, i)
  }

  lemma {:induction false} DestutterAppend(h: seq<Configs>, sets: seq<Configs>)
    ensures Appended(Destutter(h), sets) == Destutter(h + sets)
  {
    if |sets| == 0 {
      assert h + sets == h;
    } else {
      var n := |sets| - 1;
      assert (h + sets)[..|h + sets| - 1] == h + sets[..n];
      DestutterAppend(h, sets[..n]);
    }
  }

  lemma NoStutterSnoc(s: seq<Configs>, x: Configs)
    ensures NoStutter(s + [x]) <==> NoStutter(s) && (s != [] ==> s[|s| - 1] != x)
  {
    var more := s + [x];
    assert forall i: nat :: i < |s| - 1 ==> (Changes(more, i) <==> Changes(s, i));
    assert s != [] ==> (Changes(more, |s| - 1) <==> s[|s| - 1] != x);
  }

  lemma {:induction false} DestutterSpec(s: seq<Configs>)
    ensures NoStutter(Destutter(s))
    ensures NoStutter(s) ==> Destutter(s) == s
  {
    if |s| > 0 {
      var n := |s| - 1;
      DestutterSpec(s[..n]);
      assert s == s[..n] + [s[n]];
      hide NoStutter;
      NoStutterSnoc(s[..n], s[n]);
      NoStutterSnoc(Destutter(s[..n]), s[n]);
    }
  }

  /** Appending to a history is removing consecutive repeats from the whole exactly when the history has none itself. */
  lemma AppendedIsDestutteredIff(h: seq<Configs>, sets: seq<Configs>)
    ensures Appended(h, sets) == Destutter(h + sets) <==> NoStutter(h)
  {
    DestutterSpec(h);
    DestutterSpec(h + sets);
    DestutterAppend(h, sets);
    if Appended(h, sets) == Destutter(h + sets) {
      forall i: nat | i < |h| - 1
        ensures Changes(h, i)
      {
        assert Changes(Destutter(h + sets), i);
      }
    }
  }

  ghost predicate AllClean(strip: string -> string, sets: seq<Configs>) {
    forall s :: s in sets ==> CleanSet(strip, s)
  }

  lemma {:induction false} AppendedIsClean(strip: string -> string, h: seq<Configs>, sets: seq<Configs>)
    requires AllClean(strip, h) && AllClean(strip, sets)
    ensures AllClean(strip, Appended(h, sets))
  {
    hide CleanSet;
    if |sets| > 0 {
      AppendedIsClean(strip, h, sets[..|sets| - 1]);
    }
  }

  /** Reading back what was written changes nothing. */
  lemma LoadsBack(strip: string -> string, retained: Positive, kept: seq<Configs>)
    requires AllClean(strip, kept)
    ensures Load(strip, retained, Document(2, LastOf(retained, kept))) == LastOf(retained, kept)
  {
    hide Clean;
    var history := LastOf(retained, kept);
    LastOfIn(retained, kept);
    forall i | 0 <= i < |history|
      ensures Clean(strip, history[i]) == history[i]
    {
      assert history[i] in history;
    }
    assert CleanAll(strip, history) == history;
  }

  lemma LoadIsClean(strip: string -> string, retained: Positive, file: File)
    requires StripLaw(strip)
    ensures AllClean(strip, Load(strip, retained, file))
  {
    hide Clean, StripLaw, CleanSet;
    if file.Document? && file.version == 2 {
      LastOfIn(retained, CleanAll(strip, file.snapshots));
      forall s | s in CleanAll(strip, file.snapshots)
        ensures CleanSet(strip, s)
      {
        var i :| 0 <= i < |file.snapshots| && CleanAll(strip, file.snapshots)[i] == s;
        CleanIsClean(strip, file.snapshots[i]);
      }
    }
  }

  /** One publication on top of a window. */
  lemma PushKeepsWindow(strip: string -> string, retained: Positive, file: File, kept: seq<Configs>, current: Configs)
    requires AllClean(strip, kept + [current]) && Load(strip, retained, file) == LastOf(retained, kept)
    ensures var kept' := if kept != [] && kept[|kept| - 1] == current then kept else kept + [current];
      Load(strip, retained, NextFile(strip, retained, file, current)) == LastOf(retained, kept')
  {
    hide Load, CleanSet;
    LastOfPush(retained, kept, current);
    assert forall s :: s in kept ==> s in kept + [current];
    LoadsBack(strip, retained, kept);
    LoadsBack(strip, retained, kept + [current]);
    hide LastOf;
    LastOfNothing(retained, kept);
  }

  lemma LastOfNothing(retained: Positive, kept: seq<Configs>)
    ensures LastOf(retained, kept) == [] <==> kept == []
  {
  }

  lemma {:induction false} WindowFrom(strip: string -> string, retained: Positive, first: File, sets: seq<Configs>)
    requires AllClean(strip, Load(strip, retained, first)) && AllClean(strip, sets)
    ensures Load(strip, retained, FileAfter(strip, retained, first, sets))
         == LastOf(retained, Appended(Load(strip, retained, first), sets))
  {
    hide NextFile, CleanSet;
    var h := Load(strip, retained, first);
    LoadedFits(strip, retained, first);
    hide Load;
    if |sets| > 0 {
      var n := |sets| - 1;
      WindowFrom(strip, retained, first, sets[..n]);
      AppendedIsClean(strip, h, sets[..n]);
      PushKeepsWindow(strip, retained, FileAfter(strip, retained, first, sets[..n]), Appended(h, sets[..n]), sets[n]);
    }
  }

  lemma LoadedFits(strip: string -> string, retained: Positive, file: File)
    ensures LastOf(retained, Load(strip, retained, file)) == Load(strip, retained, file)
  {
    hide Clean;
    if file.Document? {
      LastOfIn(retained, CleanAll(strip, file.snapshots));
    }
  }

  /** After any publications and restarts on any file, what is loaded is the last `retained` entries of
      the history that was there followed by every snapshot that differs from the one before it. */
  lemma WindowIsLastOfAppended(strip: string -> string, retained: Positive, first: File, sets: seq<Configs>)
    requires StripLaw(strip) && AllClean(strip, sets)
    ensures Load(strip, retained, FileAfter(strip, retained, first, sets))
         == LastOf(retained, Appended(Load(strip, retained, first), sets))
  {
    hide Load, StripLaw, CleanSet;
    LoadIsClean(strip, retained, first);
    WindowFrom(strip, retained, first, sets);
  }

  /** From a file without a history: the last `retained` entries of the sequence of snapshots with
      consecutive repeats removed, which is also what the file holds. */
  lemma WindowIsLastOfDestuttered(strip: string -> string, retained: Positive, first: File, sets: seq<Configs>)
    requires AllClean(strip, sets) && |sets| > 0
    requires Load(strip, retained, first) == []
    ensures Load(strip, retained, FileAfter(strip, retained, first, sets)) == LastOf(retained, Destutter(sets))
    ensures FileAfter(strip, retained, first, sets) == Document(2, LastOf(retained, Destutter(sets)))
  {
    hide Load, CleanSet;
    WindowFrom(strip, retained, first, sets);
    AppendedIsDestutteredIff([], sets);
    assert [] + sets == sets;
    FileIsWritten(strip, retained, first, sets);
  }

  lemma NextIsWritten(strip: string -> string, retained: Positive, file: File, kept: seq<Configs>, current: Configs)
    requires Load(strip, retained, file) == LastOf(retained, kept)
    requires kept != [] ==> file == Document(2, LastOf(retained, kept))
    ensures var kept' := if kept != [] && kept[|kept| - 1] == current then kept else kept + [current];
      NextFile(strip, retained, file, current) == Document(2, LastOf(retained, kept'))
  {
    hide Load;
    LastOfPush(retained, kept, current);
    LastOfNothing(retained, kept);
    LastOfOne(retained, current);
    hide LastOf;
    if kept == [] {
      assert LastOf(retained, [] + [current]) == [current];
    }
  }

  /** Once anything has been published on an unusable file, the file holds what it loads. */
  lemma {:induction false} FileIsWritten(strip: string -> string, retained: Positive, first: File, sets: seq<Configs>)
    requires AllClean(strip, sets) && |sets| > 0 && Load(strip, retained, first) == []
    ensures FileAfter(strip, retained, first, sets) == Document(2, LastOf(retained, Destutter(sets)))
  {
    hide Load, CleanSet, NextFile, LastOf;
    var n := |sets| - 1;
    WindowFrom(strip, retained, first, sets[..n]);
    AppendedIsDestutteredIff([], sets[..n]);
    assert [] + sets[..n] == sets[..n];
    if n > 0 {
      FileIsWritten(strip, retained, first, sets[..n]);
    }
    NextIsWritten(strip, retained, FileAfter(strip, retained, first, sets[..n]), Destutter(sets[..n]), sets[n]);
  }

  lemma LastOfOne(retained: Positive, x: Configs)
    ensures LastOf(retained, [x]) == [x] && [] + [x] == [x]
  {
  }

  // ---- Snapshots are clean ----

  lemma {:induction false} DedupSpec(s: Configs)
    ensures forall x :: x in Dedup(s) <==> x in s
    ensures Distinct(Dedup(s))
  {
    if |s| > 0 {
      DedupSpec(s[..|s| - 1]);
      assert s == s[..|s| - 1] + [s[|s| - 1]];
    }
  }

  lemma {:induction false} DedupFixes(s: Configs)
    requires Distinct(s)
    ensures Dedup(s) == s
  {
    if |s| > 0 {
      DedupFixes(s[..|s| - 1]);
    }
  }

  lemma {:induction false} StrippedItems(strip: string -> string, items: Configs, x: string)
    ensures x in Stripped(strip, items) <==> x != "" && exists i :: 0 <= i < |items| && strip(items[i]) == x
  {
    if |items| > 0 {
      var n := |items| - 1;
      StrippedItems(strip, items[..n], x);
      assert forall i :: 0 <= i < n ==> items[..n][i] == items[i];
    }
  }

  /** A snapshot holds, once each, the configurations that are not blank, without surrounding white space. */
  lemma CleanSpec(strip: string -> string, items: Configs, x: string)
    ensures x in Clean(strip, items) <==> x != "" && exists i :: 0 <= i < |items| && strip(items[i]) == x
    ensures Distinct(Clean(strip, items))
  {
    StrippedItems(strip, items, x);
    DedupSpec(Stripped(strip, items));
  }

  lemma {:induction false} StrippedSpec(strip: string -> string, s: Configs, x: string)
    requires StripLaw(strip) && x in Stripped(strip, s)
    ensures strip(x) == x != ""
  {
    var n := |s| - 1;
    if x in Stripped(strip, s[..n]) {
      StrippedSpec(strip, s[..n], x);
    }
  }

  lemma {:induction false} StrippedFixes(strip: string -> string, s: Configs)
    requires forall x :: x in s ==> strip(x) == x != ""
    ensures Stripped(strip, s) == s
  {
    if |s| > 0 {
      StrippedFixes(strip, s[..|s| - 1]);
    }
  }

  /** Every snapshot that is taken reads back as itself. */
  lemma CleanIsClean(strip: string -> string, s: Configs)
    requires StripLaw(strip)
    ensures CleanSet(strip, Clean(strip, s))
  {
    var c := Clean(strip, s);
    DedupSpec(Stripped(strip, s));
    forall x | x in c
      ensures strip(x) == x != ""
    {
      StrippedSpec(strip, s, x);
    }
    StrippedFixes(strip, c);
    DedupFixes(c);
  }

  // ---- The merged feed ----

  function NewestFirst(history: seq<Configs>): Configs {
    if |history| == 0 then [] else NewestFirst(history[1..]) + history[0]
  }

  function Merged(history: seq<Configs>): Configs {
    Dedup(NewestFirst(history))
  }

  function Unseen(items: Configs, seen: Configs): Configs {
    if |items| == 0 then []
    else
      var n := |items| - 1;
      Unseen(items[..n], seen) + (if items[n] in seen then [] else [items[n]])
  }

  lemma UnseenSnoc(items: Configs, x: string, seen: Configs)
    ensures Unseen(items + [x], seen) == Unseen(items, seen) + (if x in seen then [] else [x])
  {
    assert (items + [x])[..|items|] == items;
  }

  lemma {:induction false} DedupAppend(a: Configs, b: Configs)
    ensures Dedup(a + b) == Dedup(a) + Unseen(Dedup(b), a)
  {
    if |b| == 0 {
      assert a + b == a;
    } else {
      var n := |b| - 1;
      assert (a + b)[..|a + b| - 1] == a + b[..n];
      DedupAppend(a, b[..n]);
      var x, head, tail := b[n], Dedup(b[..n]), Unseen(Dedup(b[..n]), a);
      assert (a + b)[|a| + n] == x;
      assert x in a + b[..n] <==> x in a || x in b[..n];
      UnseenSnoc(head, x, a);
      if x in b[..n] {
        assert Dedup(b) == head + [] == head;
        assert Dedup(a + b) == Dedup(a + b[..n]) + [] == Dedup(a + b[..n]);
      } else if x in a {
        assert Unseen(Dedup(b), a) == tail + [] == tail;
        assert Dedup(a + b) == Dedup(a + b[..n]) + [] == Dedup(a + b[..n]);
      } else {
        assert (Dedup(a) + tail) + [x] == Dedup(a) + (tail + [x]);
      }
    }
  }

  /** The feed has no repeats and is exactly the union of the kept snapshots. */
  lemma {:induction false} MergedIsUnion(history: seq<Configs>, x: string)
    ensures x in Merged(history) <==> exists s :: s in history && x in s
    ensures Distinct(Merged(history))
  {
    DedupSpec(NewestFirst(history));
    if |history| > 0 {
      MergedIsUnion(history[1..], x);
      DedupSpec(NewestFirst(history[1..]));
      assert history == [history[0]] + history[1..];
    }
  }

  /** Newest first: an older snapshot only appends, in its own order, what no newer one has. */
  lemma OlderOnlyAppends(history: seq<Configs>)
    requires |history| > 0
    ensures Merged(history) == Merged(history[1..]) + Unseen(Dedup(history[0]), NewestFirst(history[1..]))
  {
    DedupAppend(NewestFirst(history[1..]), history[0]);
  }

  /** The newest snapshot opens the feed unchanged. */
  lemma {:induction false} NewestOpensFeed(history: seq<Configs>)
    requires |history| > 0
    requires Distinct(history[|history| - 1])
    ensures history[|history| - 1] <= Merged(history)
  {
    if |history| == 1 {
      assert NewestFirst(history) == history[0] by {
        assert history[1..] == [];
        assert [] + history[0] == history[0];
      }
      DedupFixes(history[0]);
    } else {
      assert history[1..][|history| - 2] == history[|history| - 1];
      NewestOpensFeed(history[1..]);
      OlderOnlyAppends(history);
    }
  }
}
