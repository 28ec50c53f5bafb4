/** How a byte stream that arrives in chunks is cut into lines, and what stands in for a line that is too long. */
module Lines {

  newtype Byte = x: int | 0 <= x < 256

  const NEWLINE: Byte := 10

  function Ascii(s: string): seq<Byte> {
    seq(|s|, i requires 0 <= i < |s| => if s[i] as int < 256 then s[i] as int as Byte else 63)
  }

  const MARKER := Ascii("[oversized diagnostic line discarded]\n")

  /** The marker is one line of its own, with this text; lines end with byte 10. */
  lemma MarkerMeans()
    ensures var text := "[oversized diagnostic line discarded]\n";
            |MARKER| == |text| && forall i :: 0 <= i < |text| ==> MARKER[i] as int == text[i] as int
    ensures NEWLINE as int == 10
  {
  }

  function Join(parts: seq<seq<Byte>>): seq<Byte> {
    if parts == [] then [] else Join(parts[..|parts| - 1]) + parts[|parts| - 1]
  }

  /** The index of the first newline, or the length. */
  function Find(s: seq<Byte>): (i: nat)
    ensures i <= |s| && (forall j :: 0 <= j < i ==> s[j] != NEWLINE) && (i < |s| ==> s[i] == NEWLINE)
  {
    if s == [] || s[0] == NEWLINE then 0 else Find(s[1..]) + 1
  }

  lemma FindIs(s: seq<Byte>, i: nat)
    requires i <= |s| && (forall j :: 0 <= j < i ==> s[j] != NEWLINE) && (i < |s| ==> s[i] == NEWLINE)
    ensures Find(s) == i
  {
  }

  /** The complete lines, newline included, and the incomplete one at the end. */
  datatype Text = Text(lines: seq<seq<Byte>>, tail: seq<Byte>)

  /** One text after another that ends in a newline. */
  function Then(t: Text, u: Text): Text {
    Text(t.lines + u.lines, u.tail)
  }

  function Cut(s: seq<Byte>): (t: Text)
    ensures Find(t.tail) == |t.tail|
    decreases |s|
  {
    var i := Find(s);
    if i == |s| then Text([], s) else Then(Text([s[..i + 1]], []), Cut(s[i + 1..]))
  }

  lemma ThenIsAssociative(t: Text, u: Text, v: Text)
    ensures Then(Then(t, u), v) == Then(t, Then(u, v))
  {
    assert t.lines + u.lines + v.lines == t.lines + (u.lines + v.lines);
  }

  lemma CutLine(line: seq<Byte>, rest: seq<Byte>)
    requires line != [] && Find(line) == |line| - 1
    ensures Cut(line + rest) == Then(Text([line], []), Cut(rest))
  {
    FindInPrefix(line, rest);
    assert (line + rest)[..|line|] == line && (line + rest)[|line|..] == rest;
  }

  lemma FindInPrefix(a: seq<Byte>, b: seq<Byte>)
    ensures Find(a + b) == if Find(a) < |a| then Find(a) else |a| + Find(b)
  {
    FindIs(a + b, if Find(a) < |a| then Find(a) else |a| + Find(b));
  }

  /** More bytes only continue the incomplete line. */
  lemma {:induction false} CutContinues(a: seq<Byte>, b: seq<Byte>)
    ensures Cut(a + b) == Then(Cut(a), Cut(Cut(a).tail + b))
    decreases |a|
  {
    var i := Find(a);
    if i < |a| {
      var line, rest := a[..i + 1], a[i + 1..];
      FindIs(line, i);
      assert a == line + rest && a + b == line + (rest + b);
      CutLine(line, rest);
      CutLine(line, rest + b);
      CutContinues(rest, b);
      ThenIsAssociative(Text([line], []), Cut(rest), Cut(Cut(rest).tail + b));
    } else {
      ThenNothing(Cut(a + b));
    }
  }

  lemma ThenNothing(t: Text)
    ensures Then(Text([], []), t) == t && forall s :: Then(Text([], s), t) == t
  {
    assert [] + t.lines == t.lines;
  }

  lemma {:induction false} JoinConcat(a: seq<seq<Byte>>, b: seq<seq<Byte>>)
    ensures Join(a + b) == Join(a) + Join(b)
  {
    if b == [] {
      assert a + b == a;
    } else {
      JoinConcat(a, b[..|b| - 1]);
      assert (a + b)[..|a + b| - 1] == a + b[..|b| - 1];
    }
  }

  /** Cutting loses nothing. */
  lemma {:induction false} CutJoins(s: seq<Byte>)
    ensures Join(Cut(s).lines) + Cut(s).tail == s
    decreases |s|
  {
    var i := Find(s);
    if i < |s| {
      var line, rest := s[..i + 1], s[i + 1..];
      assert s == line + rest;
      CutJoins(rest);
      JoinThen(line, Cut(rest));
    } else {
      assert Cut(s) == Text([], s);
    }
  }

  lemma JoinThen(line: seq<Byte>, t: Text)
    ensures var u := Then(Text([line], []), t); Join(u.lines) + u.tail == line + (Join(t.lines) + t.tail)
  {
    JoinConcat([line], t.lines);
    JoinOne(line);
    assert line + Join(t.lines) + t.tail == line + (Join(t.lines) + t.tail);
  }

  /** Every complete line ends with its only newline. */
  lemma {:induction false} CutEndsLines(s: seq<Byte>)
    ensures forall i :: 0 <= i < |Cut(s).lines| ==> Find(Cut(s).lines[i]) == |Cut(s).lines[i]| - 1
    decreases |s|
  {
    var i := Find(s);
    if i < |s| {
      CutEndsLines(s[i + 1..]);
      FindIs(s[..i + 1], i);
    }
  }

  lemma JoinOne(s: seq<Byte>)
    ensures Join([s]) == s
  {
    assert [s][..0] == [];
    assert [] + s == s;
  }

  // ---- The stream in chunks --------------------------------------------------------------------------

  datatype State = State(pending: seq<Byte>, discarding: bool)

  /** What is left of a text once its complete lines are out, and what comes out. */
  function Settle(t: Text, limit: nat): (State, seq<seq<Byte>>) {
    if |t.tail| > limit then (State([], true), t.lines + [MARKER]) else (State(t.tail, false), t.lines)
  }

  /** What one chunk makes of the state, and the items it brings. */
  function Continue(s: State, data: seq<Byte>, limit: nat): (State, seq<seq<Byte>>) {
    if !s.discarding then Settle(Cut(s.pending + data), limit)
    else if Find(data) == |data| then (s, [])
    else Settle(Cut(s.pending + data[Find(data) + 1..]), limit)
  }

  function Run(chunks: seq<seq<Byte>>, limit: nat): (State, seq<seq<Byte>>) {
    if chunks == [] then (State([], false), [])
    else
      var before := Run(chunks[..|chunks| - 1], limit);
      var step := Continue(before.0, chunks[|chunks| - 1], limit);
      (step.0, before.1 + step.1)
  }

  lemma RunOneMore(chunks: seq<seq<Byte>>, data: seq<Byte>, limit: nat)
    ensures var before := Run(chunks, limit); var step := Continue(before.0, data, limit);
            Run(chunks + [data], limit) == (step.0, before.1 + step.1)
  {
    assert (chunks + [data])[..|chunks|] == chunks;
  }

  /** An item stands for a line: it is the line, or the marker for a line longer than the limit. */
  predicate StandsFor(item: seq<Byte>, line: seq<Byte>, limit: nat) {
    item == line || (item == MARKER && |line| > limit + 1)
  }

  ghost predicate StandForAll(items: seq<seq<Byte>>, lines: seq<seq<Byte>>, limit: nat) {
    |items| == |lines| && forall i :: 0 <= i < |lines| ==> StandsFor(items[i], lines[i], limit)
  }

  /** The items so far show the lines so far; while a line is discarded its marker is already there. */
  ghost predicate Shows(s: State, items: seq<seq<Byte>>, t: Text, limit: nat) {
    if s.discarding then
      && s.pending == [] && |t.tail| > limit && items != [] && items[|items| - 1] == MARKER
      && StandForAll(items[..|items| - 1], t.lines, limit)
    else s.pending == t.tail && |t.tail| <= limit && StandForAll(items, t.lines, limit)
  }

  lemma ContinueShows(s: State, items: seq<seq<Byte>>, fed: seq<Byte>, data: seq<Byte>, limit: nat)
    requires Shows(s, items, Cut(fed), limit)
    ensures var step := Continue(s, data, limit);
            Shows(step.0, items + step.1, Cut(fed + data), limit)
  {
    CutContinues(fed, data);
    MoreShows(s, items, Cut(fed), data, limit);
  }

  lemma MoreShows(s: State, items: seq<seq<Byte>>, was: Text, data: seq<Byte>, limit: nat)
    requires Shows(s, items, was, limit) && Find(was.tail) == |was.tail|
    ensures var step := Continue(s, data, limit);
            Shows(step.0, items + step.1, Then(was, Cut(was.tail + data)), limit)
  {
    if !s.discarding {
      SettleShows(items, was.lines, Cut(was.tail + data), limit);
    } else if Find(data) == |data| {
      DiscardGoesOn(items, was, data);
    } else {
      var n := Find(data) + 1;
      FindIs(data[..n], n - 1);
      LineEnds(was.tail, s.pending, data, n);
      DiscardEnds(s, items, was, was.tail + data[..n], s.pending + data[n..], was.tail + data, limit);
    }
  }

  lemma SettleShows(items: seq<seq<Byte>>, lines: seq<seq<Byte>>, t: Text, limit: nat)
    requires StandForAll(items, lines, limit)
    ensures Shows(Settle(t, limit).0, items + Settle(t, limit).1, Text(lines + t.lines, t.tail), limit)
  {
    WholeLines(items, lines, t, limit);
  }

  lemma DiscardGoesOn(items: seq<seq<Byte>>, was: Text, data: seq<Byte>)
    requires Find(data) == |data| && Find(was.tail) == |was.tail|
    ensures Then(was, Cut(was.tail + data)) == Text(was.lines, was.tail + data) && items + [] == items
  {
    FindInPrefix(was.tail, data);
    assert was.lines + [] == was.lines;
  }

  /** The discarded line gets its end; what follows is shown as usual. */
  lemma DiscardEnds(s: State, items: seq<seq<Byte>>, was: Text, line: seq<Byte>, rest: seq<Byte>, whole: seq<Byte>,
                    limit: nat)
    requires Shows(s, items, was, limit) && s.discarding && |line| > |was.tail|
    requires Find(line) == |line| - 1 && whole == line + rest
    ensures var step := Settle(Cut(rest), limit);
            Shows(step.0, items + step.1, Then(was, Cut(whole)), limit)
  {
    CutAfterLine(was, line, rest, whole);
    ReplacedLine(items, was, line, limit);
    SettleShows(items, was.lines + [line], Cut(rest), limit);
  }

  /** The line that the first n bytes of data end. */
  lemma LineEnds(tail: seq<Byte>, pending: seq<Byte>, data: seq<Byte>, n: nat)
    requires Find(tail) == |tail| && 0 < n <= |data| && Find(data[..n]) == n - 1 && pending == []
    ensures Find(tail + data[..n]) == |tail + data[..n]| - 1
    ensures tail + data == tail + data[..n] + (pending + data[n..])
  {
    FindIs(tail + data[..n], |tail| + n - 1);
  }

  lemma CutAfterLine(was: Text, line: seq<Byte>, rest: seq<Byte>, s: seq<Byte>)
    requires line != [] && Find(line) == |line| - 1 && s == line + rest
    ensures Then(was, Cut(s)) == Then(Text(was.lines + [line], []), Cut(rest))
  {
    CutLine(line, rest);
    ThenIsAssociative(was, Text([line], []), Cut(rest));
  }

  lemma ReplacedLine(items: seq<seq<Byte>>, t: Text, line: seq<Byte>, limit: nat)
    requires items != [] && items[|items| - 1] == MARKER && StandForAll(items[..|items| - 1], t.lines, limit)
    requires |line| > limit + 1
    ensures StandForAll(items, t.lines + [line], limit)
  {
    assert items == items[..|items| - 1] + [MARKER];
  }

  /** Lines shown whole after lines that are shown already. */
  lemma WholeLines(items: seq<seq<Byte>>, lines: seq<seq<Byte>>, t: Text, limit: nat)
    requires StandForAll(items, lines, limit)
    ensures StandForAll(items + t.lines, lines + t.lines, limit)
    ensures (items + (t.lines + [MARKER]))[..|items + (t.lines + [MARKER])| - 1] == items + t.lines
  {
  }

  /**
    For every chunking: the items are the lines in order, each whole or as exactly one marker, the
    marker only for a line over the limit, and what is pending stays within the limit.
   */
  lemma {:induction false} ItemsShowLines(chunks: seq<seq<Byte>>, limit: nat)
    ensures var run := Run(chunks, limit); Shows(run.0, run.1, Cut(Join(chunks)), limit)
  {
    if chunks != [] {
      var front := chunks[..|chunks| - 1];
      ItemsShowLines(front, limit);
      var before := Run(front, limit);
      ContinueShows(before.0, before.1, Join(front), chunks[|chunks| - 1], limit);
    }
  }

  /** Where a stream leaves the buffer never depends on its chunking. */
  lemma StateIgnoresChunking(chunks: seq<seq<Byte>>, limit: nat)
    ensures var t := Cut(Join(chunks));
            Run(chunks, limit).0 == if |t.tail| > limit then State([], true) else State(t.tail, false)
  {
    ItemsShowLines(chunks, limit);
  }

  /** A complete line that is shown as itself however it comes. */
  predicate Fits(line: seq<Byte>, limit: nat) {
    |line| <= limit + 1 || line == MARKER
  }

  ghost predicate AllFit(lines: seq<seq<Byte>>, limit: nat) {
    forall i :: 0 <= i < |lines| ==> Fits(lines[i], limit)
  }

  /** If all complete lines fit, the chunking makes no difference; an incomplete one over the limit does not matter. */
  lemma FittingLinesIgnoreChunking(chunks: seq<seq<Byte>>, limit: nat)
    requires AllFit(Cut(Join(chunks)).lines, limit)
    ensures Run(chunks, limit) == Settle(Cut(Join(chunks)), limit)
  {
    ItemsShowLines(chunks, limit);
    var t, run := Cut(Join(chunks)), Run(chunks, limit);
    if run.0.discarding {
      FittingItems(run.1[..|run.1| - 1], t.lines, limit);
      assert run.1 == run.1[..|run.1| - 1] + [MARKER];
    } else {
      FittingItems(run.1, t.lines, limit);
    }
  }

  lemma FittingItems(items: seq<seq<Byte>>, lines: seq<seq<Byte>>, limit: nat)
    requires StandForAll(items, lines, limit) && AllFit(lines, limit)
    ensures items == lines
  {
    assert forall i :: 0 <= i < |lines| ==> StandsFor(items[i], lines[i], limit) && Fits(lines[i], limit);
  }

  /** A stream can be cut just before the newline of any of its complete lines. */
  ghost predicate CutsBefore(front: seq<Byte>, lines: seq<seq<Byte>>, i: nat)
    requires i < |lines|
  {
    Cut(front).lines == lines[..i] && Cut(front).tail + [NEWLINE] == lines[i]
  }

  lemma {:induction false} CutBeforeNewline(s: seq<Byte>, i: nat) returns (front: seq<Byte>, rest: seq<Byte>)
    requires i < |Cut(s).lines|
    ensures s == front + rest && CutsBefore(front, Cut(s).lines, i)
    decreases |s|
  {
    var j := Find(s);
    var line, more := s[..j + 1], s[j + 1..];
    if i == 0 {
      front, rest := s[..j], s[j..];
      FindIs(front, j);
      TakeOneMore(s, j);
      FirstLineCut(front, Cut(s).lines);
    } else {
      var f, r := CutBeforeNewline(more, i - 1);
      FindIs(line, j);
      LaterLineCut(line, Cut(more), f, i);
      front, rest := line + f, r;
      Associates(s, line, f, r);
    }
  }

  lemma FirstLineCut(front: seq<Byte>, lines: seq<seq<Byte>>)
    requires Find(front) == |front| && lines != [] && front + [NEWLINE] == lines[0]
    ensures CutsBefore(front, lines, 0)
  {
    assert lines[..0] == [];
  }

  lemma TakeOneMore(s: seq<Byte>, i: nat)
    requires i < |s|
    ensures s[..i] + [s[i]] == s[..i + 1]
  {
  }

  lemma LaterLineCut(line: seq<Byte>, t: Text, front: seq<Byte>, i: nat)
    requires line != [] && Find(line) == |line| - 1 && 1 <= i <= |t.lines| && CutsBefore(front, t.lines, i - 1)
    ensures CutsBefore(line + front, Then(Text([line], []), t).lines, i)
  {
    CutLine(line, front);
    AfterFirst(line, t, i);
  }

  lemma AfterFirst(line: seq<Byte>, t: Text, i: nat)
    requires i < |t.lines| + 1
    ensures var u := Then(Text([line], []), t);
            && u.lines[i] == (if i == 0 then line else t.lines[i - 1])
            && u.lines[..i] == (if i == 0 then [] else [line] + t.lines[..i - 1])
  {
  }

  lemma Associates(s: seq<Byte>, a: seq<Byte>, b: seq<Byte>, c: seq<Byte>)
    requires a <= s && s[|a|..] == b + c
    ensures s == a + b + c
  {
    assert s == a + s[|a|..];
  }

  /** The same stream whole and in two chunks, for a line that does not fit: kept in the one, replaced in the other. */
  lemma LongLineDependsOnChunking(s: seq<Byte>, i: nat, limit: nat)
    returns (whole: seq<seq<Byte>>, halves: seq<seq<Byte>>)
    requires i < |Cut(s).lines| && !Fits(Cut(s).lines[i], limit)
    ensures Join(whole) == Join(halves) == s
    ensures i < |Run(whole, limit).1| && i < |Run(halves, limit).1|
    ensures Run(whole, limit).1[i] == Cut(s).lines[i] != MARKER == Run(halves, limit).1[i]
  {
    var front, rest := CutBeforeNewline(s, i);
    whole, halves := [s], [front, rest];
    JoinOne(s);
    JoinTwo(front, rest);
    WholeShowsItself(s, i, limit);
    RunTwo(front, rest, limit);
    RunOne(front, limit);
    assert [] + front == front;
  }

  lemma JoinTwo(a: seq<Byte>, b: seq<Byte>)
    ensures Join([a, b]) == a + b
  {
    JoinOne(a);
    JoinOne(b);
    JoinConcat([a], [b]);
    assert [a] + [b] == [a, b];
  }

  lemma RunTwo(a: seq<Byte>, b: seq<Byte>, limit: nat)
    ensures Run([a], limit).1 <= Run([a, b], limit).1
  {
    assert [a, b][..1] == [a];
  }

  lemma WholeShowsItself(s: seq<Byte>, i: nat, limit: nat)
    requires i < |Cut(s).lines|
    ensures i < |Run([s], limit).1| && Run([s], limit).1[i] == Cut(s).lines[i]
  {
    RunOne(s, limit);
    assert [] + s == s;
  }

  /** No chunking of this stream shows anything else than another. */
  ghost predicate ChunkingInvisible(s: seq<Byte>, limit: nat) {
    forall a, b :: Join(a) == s && Join(b) == s ==> Run(a, limit) == Run(b, limit)
  }

  /** The chunking of a stream is invisible exactly if every complete line of it fits. */
  lemma ChunkingIsInvisibleIffLinesFit(s: seq<Byte>, limit: nat)
    ensures ChunkingInvisible(s, limit) <==> AllFit(Cut(s).lines, limit)
  {
    if AllFit(Cut(s).lines, limit) {
      forall a, b | Join(a) == s && Join(b) == s
        ensures Run(a, limit) == Run(b, limit)
      {
        FittingLinesIgnoreChunking(a, limit);
        FittingLinesIgnoreChunking(b, limit);
      }
    } else {
      var i :| 0 <= i < |Cut(s).lines| && !Fits(Cut(s).lines[i], limit);
      var whole, halves := LongLineDependsOnChunking(s, i, limit);
      assert Run(whole, limit) != Run(halves, limit);
    }
  }

  lemma RunOne(chunk: seq<Byte>, limit: nat)
    ensures Run([chunk], limit) == Continue(State([], false), chunk, limit)
  {
    assert [chunk][..0] == [];
    assert forall items: seq<seq<Byte>> :: [] + items == items;
  }
}
