/** The bounded buffer a child's output is drained into. Sanitizing one line is a parameter. */
module SanitizedBuffer {
  import opened Lines

  function Max(a: int, b: int): int {
    if a >= b then a else b
  }

  /** The sanitized output, item by item. */
  function Output(items: seq<seq<Byte>>, sanitize: seq<Byte> -> seq<Byte>): seq<Byte> {
    if items == [] then [] else Output(items[..|items| - 1], sanitize) + sanitize(items[|items| - 1])
  }

  /** The last n bytes, or all. */
  function Last(s: seq<Byte>, n: nat): seq<Byte> {
    if |s| <= n then s else s[|s| - n..]
  }

  lemma LastIsEnd(s: seq<Byte>, n: nat)
    ensures exists front :: s == front + Last(s, n)
    ensures |Last(s, n)| == n || (|Last(s, n)| < n && Last(s, n) == s)
  {
    if |s| <= n {
      assert s == [] + Last(s, n);
    } else {
      assert s == s[..|s| - n] + Last(s, n);
    }
  }

  /** What is held is an end of the output, at least as long as what is to be retained. */
  ghost predicate HoldsEnd(held: seq<Byte>, size: nat, output: seq<Byte>, limit: nat) {
    && size == |held| <= |output|
    && held == Last(output, size)
    && (size >= limit || size == |output|)
  }

  lemma {:induction false} JoinFromFirst(chunks: seq<seq<Byte>>)
    requires chunks != []
    ensures Join(chunks) == chunks[0] + Join(chunks[1..])
  {
    JoinConcat([chunks[0]], chunks[1..]);
    JoinOne(chunks[0]);
    assert [chunks[0]] + chunks[1..] == chunks;
  }

  lemma JoinPushed(chunks: seq<seq<Byte>>, safe: seq<Byte>)
    ensures Join(chunks + [safe]) == Join(chunks) + safe
  {
    JoinConcat(chunks, [safe]);
    JoinOne(safe);
  }

  /** Taking n bytes off the front of the held end leaves an end. */
  lemma TrimsEnd(held: seq<Byte>, size: nat, output: seq<Byte>, limit: nat, n: nat)
    requires HoldsEnd(held, size, output, limit) && n <= size - limit
    ensures HoldsEnd(held[n..], size - n, output, limit)
  {
  }

  /** What comes after all that is retained of the output is held besides. */
  lemma AppendsToEnd(held: seq<Byte>, output: seq<Byte>, limit: nat, safe: seq<Byte>)
    requires held == Last(output, limit)
    ensures HoldsEnd(held + safe, |held| + |safe|, output + safe, limit)
  {
    var k := |output| - |held|;
    assert held == output[k..];
    assert (output + safe)[k..] == output[k..] + safe;
  }

  lemma DropsFirst(chunks: seq<seq<Byte>>, size: nat, output: seq<Byte>, limit: nat)
    requires HoldsEnd(Join(chunks), size, output, limit) && chunks != [] && |chunks[0]| <= size - limit
    ensures HoldsEnd(Join(chunks[1..]), size - |chunks[0]|, output, limit)
  {
    JoinFromFirst(chunks);
    TrimsEnd(Join(chunks), size, output, limit, |chunks[0]|);
    DropPrefix(chunks[0], Join(chunks[1..]), |chunks[0]|);
  }

  lemma CutsFirst(chunks: seq<seq<Byte>>, size: nat, output: seq<Byte>, limit: nat, n: nat)
    requires HoldsEnd(Join(chunks), size, output, limit) && chunks != [] && n < |chunks[0]| && n <= size - limit
    ensures HoldsEnd(Join(chunks[0 := chunks[0][n..]]), size - n, output, limit)
  {
    TrimsEnd(Join(chunks), size, output, limit, n);
    CutFromFirst(chunks, n);
  }

  lemma CutFromFirst(chunks: seq<seq<Byte>>, n: nat)
    requires chunks != [] && n <= |chunks[0]|
    ensures n <= |Join(chunks)| && Join(chunks[0 := chunks[0][n..]]) == Join(chunks)[n..]
  {
    var trimmed := chunks[0 := chunks[0][n..]];
    JoinFromFirst(chunks);
    JoinFromFirst(trimmed);
    assert trimmed[1..] == chunks[1..];
    DropPrefix(chunks[0], Join(chunks[1..]), n);
  }

  lemma DropPrefix(a: seq<Byte>, b: seq<Byte>, n: nat)
    requires n <= |a|
    ensures (a + b)[n..] == a[n..] + b && (a + b)[|a|..] == b
  {
  }

  /** A complete line that is no longer pending is an item more. */
  lemma LineMoves(items: seq<seq<Byte>>, line: seq<Byte>, rest: Text)
    ensures items + Then(Text([line], []), rest).lines == items + [line] + rest.lines
  {
  }

  class SanitizedBuffer {
    const limit: nat
    const pendingLimit: nat
    const sanitize: seq<Byte> -> seq<Byte>
    var chunks: seq<seq<Byte>>
    var size: nat
    var pending: seq<Byte>
    var discarding: bool
    // What was fed, and what was appended for it.
    ghost var fed: seq<seq<Byte>>
    ghost var items: seq<seq<Byte>>

    /** Exactly the last min(limit, total) bytes of the sanitized output are retained. */
    ghost predicate Retained()
      reads this
    {
      size == |Join(chunks)| && Join(chunks) == Last(Output(items, sanitize), limit)
    }

    ghost predicate Valid()
      reads this
    {
      Retained() && pendingLimit >= 1024 && Run(fed, pendingLimit) == (State(pending, discarding), items)
    }

    constructor (limitBytes: int, pendingLimit: int, sanitize: seq<Byte> -> seq<Byte>)
      ensures Valid() && fed == [] && limit == Max(0, limitBytes) && this.pendingLimit == Max(1024, pendingLimit)
      ensures this.sanitize == sanitize
      ensures limit == if limitBytes < 0 then 0 else limitBytes
      ensures this.pendingLimit == if pendingLimit < 1024 then 1024 else pendingLimit
    {
      limit, this.pendingLimit, this.sanitize := Max(0, limitBytes), Max(1024, pendingLimit), sanitize;
      chunks, size, pending, discarding, fed, items := [], 0, [], false, [], [];
    }

    method AppendSafe(raw: seq<Byte>)
      requires Retained()
      modifies this`chunks, this`size, this`items
      ensures Retained() && items == old(items) + [raw]
      // Retained is an end of all sanitized output, as long as it may be.
      ensures Output(items, sanitize) == Output(old(items), sanitize) + sanitize(raw)
      ensures exists front :: Output(items, sanitize) == front + Join(chunks)
      ensures |Join(chunks)| == limit || (|Join(chunks)| < limit && Join(chunks) == Output(items, sanitize))
    {
      ghost var output := Output(items, sanitize);
      items := items + [raw];
      assert items[..|items| - 1] == old(items);
      LastIsEnd(output + sanitize(raw), limit);
      if limit == 0 {
        LastOfNone(output + sanitize(raw), chunks);
        return;
      }
      var safe := sanitize(raw);
      AppendsToEnd(Join(chunks), output, limit, safe);
      JoinPushed(chunks, safe);
      chunks := chunks + [safe];
      size := size + |safe|;
      Trim(output + safe);
    }

    /** Drop whole chunks, then part of one, from the front. */
    method Trim(ghost output: seq<Byte>)
      requires HoldsEnd(Join(chunks), size, output, limit)
      modifies this`chunks, this`size
      ensures size == |Join(chunks)| && Join(chunks) == Last(output, limit)
    {
      while size > limit && chunks != []
        invariant HoldsEnd(Join(chunks), size, output, limit)
        decreases |chunks|, size
      {
        var excess := size - limit;
        var first := chunks[0];
        if |first| <= excess {
          DropsFirst(chunks, size, output, limit);
          chunks := chunks[1..];
          size := size - |first|;
        } else {
          CutsFirst(chunks, size, output, limit, excess);
          chunks := chunks[0 := first[excess..]];
          size := size - excess;
        }
      }
    }

    lemma LastOfNone(output: seq<Byte>, chunks: seq<seq<Byte>>)
      requires |Join(chunks)| == 0
      ensures Join(chunks) == Last(output, 0)
    {
    }

    /** Move every complete line out of what is pending. */
    method AppendLines()
      requires Retained()
      modifies this`chunks, this`size, this`items, this`pending
      ensures Retained()
      ensures items == old(items) + Cut(old(pending)).lines && pending == Cut(old(pending)).tail
    {
      while Find(pending) < |pending|
        invariant Retained()
        invariant items + Cut(pending).lines == old(items) + Cut(old(pending)).lines
        invariant Cut(pending).tail == Cut(old(pending)).tail
        decreases |pending|
      {
        var newline := Find(pending);
        var line := pending[..newline + 1];
        LineMoves(items, line, Cut(pending[newline + 1..]));
        AppendSafe(line);
        pending := pending[newline + 1..];
      }
      assert items + [] == items;
    }

    /** Show the complete lines of what is pending, and the marker if the rest is too long. */
    method SettlePending()
      requires Retained() && !discarding
      modifies this`chunks, this`size, this`items, this`pending, this`discarding
      ensures Retained()
      ensures var step := Settle(Cut(old(pending)), pendingLimit);
              State(pending, discarding) == step.0 && items == old(items) + step.1
    {
      ghost var lines := Cut(pending).lines;
      AppendLines();
      if |pending| > pendingLimit {
        Associate(old(items), lines, [MARKER]);
        AppendSafe(MARKER);
        pending := [];
        discarding := true;
      }
    }

    lemma Associate(a: seq<seq<Byte>>, b: seq<seq<Byte>>, c: seq<seq<Byte>>)
      ensures a + b + c == a + (b + c)
    {
    }

    /** One chunk of output. */
    method Feed(data: seq<Byte>)
      requires Valid()
      modifies this
      ensures Valid() && fed == old(fed) + [data] && |pending| <= pendingLimit
      ensures items == old(items) + Continue(State(old(pending), old(discarding)), data, pendingLimit).1
      ensures Shows(State(pending, discarding), items, Cut(Join(fed)), pendingLimit)
      // Line by line: whole, or the marker for a line over the limit, and perhaps the marker of the line being dropped.
      ensures var t := Cut(Join(fed));
              && |items| == |t.lines| + (if discarding then 1 else 0)
              && (forall i :: 0 <= i < |t.lines| ==>
                    items[i] == t.lines[i] || (items[i] == MARKER && |t.lines[i]| > pendingLimit + 1))
              && (if discarding then |t.tail| > pendingLimit && items[|t.lines|] == MARKER else pending == t.tail)
    {
      RunOneMore(fed, data, pendingLimit);
      ItemsShowLines(fed, pendingLimit);
      ItemsShowLines(fed + [data], pendingLimit);
      Drain(data);
      fed := fed + [data];
    }

    method Drain(data: seq<Byte>)
      requires Retained() && (discarding ==> pending == [])
      modifies this`chunks, this`size, this`items, this`pending, this`discarding
      ensures Retained()
      ensures var step := Continue(State(old(pending), old(discarding)), data, pendingLimit);
              State(pending, discarding) == step.0 && items == old(items) + step.1
    {
      var rest := SkipDropped(data);
      if discarding {
        assert items + [] == items;
        return;
      }
      pending := pending + rest;
      SettlePending();
    }

    /** Drop the rest of an oversized line; if its end has come, what follows is to be taken up. */
    method SkipDropped(data: seq<Byte>) returns (rest: seq<Byte>)
      requires discarding ==> pending == []
      modifies this`discarding
      ensures Continue(State(pending, old(discarding)), data, pendingLimit)
           == if discarding then (State(pending, true), []) else Settle(Cut(pending + rest), pendingLimit)
    {
      rest := data;
      if discarding {
        var newline := Find(data);
        if newline == |data| {
          return;
        }
        rest := data[newline + 1..];
        discarding := false;
      }
    }

    /** The stream has ended: an incomplete last line is shown too, unless its marker already is. */
    method Finish()
      requires Valid()
      modifies this`chunks, this`size, this`items, this`pending
      ensures Retained() && pending == []
      ensures var t := Cut(Join(fed));
              StandForAll(items, if t.tail == [] then t.lines
                else t.lines + [t.tail + if discarding then [NEWLINE] else []], pendingLimit)
      ensures discarding ==> items == old(items)
    {
      LastLineShows(fed, pendingLimit);
      if pending != [] {
        AppendSafe(pending);
        pending := [];
      }
    }
  }

  /** The incomplete last line, taken as it is, or what stands for it already. */
  lemma LastLineShows(fed: seq<seq<Byte>>, limit: nat)
    ensures Run(fed, limit).0.discarding ==> Run(fed, limit).0.pending == []
    ensures var (s, items) := Run(fed, limit);
            var t := Cut(Join(fed));
            StandForAll(if s.pending == [] then items else items + [s.pending],
              if t.tail == [] then t.lines else t.lines + [t.tail + if s.discarding then [NEWLINE] else []], limit)
  {
    ItemsShowLines(fed, limit);
    var (s, items) := Run(fed, limit);
    var t := Cut(Join(fed));
    if s.discarding {
      ReplacedLine(items, t, t.tail + [NEWLINE], limit);
    } else {
      assert t.tail + [] == t.tail;
    }
  }

  /** Two buffers fed the same bytes in different chunks end up the same if all complete lines fit the pending limit. */
  lemma ChunkingIsInvisible(a: SanitizedBuffer, b: SanitizedBuffer)
    requires a.Valid() && b.Valid() && Join(a.fed) == Join(b.fed)
    requires a.limit == b.limit && a.pendingLimit == b.pendingLimit && a.sanitize == b.sanitize
    requires AllFit(Cut(Join(a.fed)).lines, a.pendingLimit)
    ensures a.items == b.items && a.pending == b.pending && a.discarding == b.discarding
    ensures Join(a.chunks) == Join(b.chunks)
  {
    ChunkingIsInvisibleIffLinesFit(Join(a.fed), a.pendingLimit);
    assert Run(a.fed, a.pendingLimit) == Run(b.fed, b.pendingLimit);
  }
}
