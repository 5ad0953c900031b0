/** The read loop of plot.py: day blocks of a date line, an optional
    `#` comment line, a line of space-separated `HHMM` times and a
    separator line, stored newest block first. */
module LogParser {
  import opened Results
  import opened Sequences
  import opened Calendar

  /** What the loop reads from one day block: the (at most) six-character
      date field, the comment ('' when there is none) and the time tokens
      in the order they are written on the line. */
  datatype Block = Block(date: string, comment: string, tokens: seq<string>)

  /** The parsed log: the events and one comment per block. */
  datatype Log = Log(events: seq<Timestamp>, comments: seq<string>)

  // ---- Python string operations the loop uses.

  /** f.readline() after `i` earlier reads; '' once the file is exhausted. */
  function LineAt(lines: seq<string>, i: nat): string
  {
    if i < |lines| then lines[i] else ""
  }

  /** s[:n] */
  function Take(s: string, n: nat): (r: string)
    ensures |r| == (if |s| <= n then |s| else n) && r <= s
  {
    if |s| <= n then s else s[..n]
  }

  /** s[n:] */
  function Drop(s: string, n: nat): string
  {
    if |s| <= n then "" else s[n..]
  }

  function TrimTrailingNewlines(s: string): string
  {
    if s != [] && s[|s| - 1] == '\n' then TrimTrailingNewlines(s[..|s| - 1]) else s
  }

  function TrimLeadingNewlines(s: string): string
  {
    if s != [] && s[0] == '\n' then TrimLeadingNewlines(s[1..]) else s
  }

  /** s.strip('\n'): removes every '\n' at either end. */
  function StripNewlines(s: string): string
  {
    TrimLeadingNewlines(TrimTrailingNewlines(s))
  }

  /** s.startswith('#') */
  predicate StartsWithHash(s: string)
  {
    |s| > 0 && s[0] == '#'
  }

  /** s.split(sep): never empty; '' splits into ['']. */
  function Split(s: string, sep: char): (r: seq<string>)
    ensures |r| >= 1
  {
    if s == [] then [""]
    else
      var rest := Split(s[1..], sep);
      if s[0] == sep then [""] + rest else [[s[0]] + rest[0]] + rest[1..]
  }

  /** [sep].join(ts) */
  function Join(ts: seq<string>, sep: char): string
  {
    if ts == [] then "" else if |ts| == 1 then ts[0] else ts[0] + [sep] + Join(ts[1..], sep)
  }

  predicate Free(s: string, c: char)
  {
    forall i :: 0 <= i < |s| ==> s[i] != c
  }

  /** Splitting undoes joining, when no token contains the separator. */
  lemma {:induction false} SplitJoin(ts: seq<string>, sep: char)
    requires |ts| >= 1
    requires forall i :: 0 <= i < |ts| ==> Free(ts[i], sep)
    ensures Split(Join(ts, sep), sep) == ts
  {
    if |ts| == 1 {
      SplitFree(ts[0], sep);
    } else {
      SplitJoin(ts[1..], sep);
      SplitPrefix(ts[0], Join(ts[1..], sep), sep);
      assert [ts[0]] + ts[1..] == ts;
    }
  }

  lemma {:induction false} SplitFree(s: string, sep: char)
    requires Free(s, sep)
    ensures Split(s, sep) == [s]
  {
    if s != [] {
      SplitFree(s[1..], sep);
      assert [s[0]] + s[1..] == s;
    }
  }

  lemma {:induction false} SplitPrefix(t: string, rest: string, sep: char)
    requires Free(t, sep)
    ensures Split(t + [sep] + rest, sep) == [t] + Split(rest, sep)
  {
    if t == [] {
      assert t + [sep] + rest == [sep] + rest;
      assert ([sep] + rest)[1..] == rest;
    } else {
      assert (t + [sep] + rest)[1..] == t[1..] + [sep] + rest;
      SplitPrefix(t[1..], rest, sep);
      assert [t[0]] + t[1..] == t;
    }
  }

  /** Joining undoes splitting: no character of the line is lost. */
  lemma {:induction false} JoinSplit(s: string, sep: char)
    ensures Join(Split(s, sep), sep) == s
  {
    if s != [] {
      JoinSplit(s[1..], sep);
      var rest := Split(s[1..], sep);
      if s[0] == sep {
        assert ([""] + rest)[1..] == rest;
      } else {
        var r := [[s[0]] + rest[0]] + rest[1..];
        assert r[1..] == rest[1..];
        if |rest| == 1 {
          assert Join(rest, sep) == rest[0];
        } else {
          assert Join(rest, sep) == rest[0] + [sep] + Join(rest[1..], sep);
        }
      }
    }
  }

  lemma StripLine(s: string)
    requires Free(s, '\n')
    ensures StripNewlines(s + "\n") == s
  {
    assert (s + "\n")[..|s + "\n"| - 1] == s;
    assert TrimTrailingNewlines(s + "\n") == TrimTrailingNewlines(s);
    assert s == [] || s[|s| - 1] != '\n';
    assert TrimTrailingNewlines(s) == s;
    assert s == [] || s[0] != '\n';
  }

  // ---- One iteration of the read loop.

  /** The block that starts at line `pos`, and the line after it: three
      lines, or four when the line after the date starts with '#'. The
      separator line is read and ignored. */
  function ReadBlock(lines: seq<string>, pos: nat): (r: (Block, nat))
    ensures r.1 == pos + 3 || r.1 == pos + 4
    ensures r.1 == pos + 4 <==> StartsWithHash(StripNewlines(LineAt(lines, pos + 1)))
    ensures r.0.date == Take(LineAt(lines, pos), 6)
    ensures r.0.comment == if r.1 == pos + 4 then Drop(StripNewlines(LineAt(lines, pos + 1)), 2) else ""
  {
    var date := Take(LineAt(lines, pos), 6);
    var hours := StripNewlines(LineAt(lines, pos + 1));
    if StartsWithHash(hours) then
      (Block(date, Drop(hours, 2), Split(StripNewlines(LineAt(lines, pos + 2)), ' ')), pos + 4)
    else
      (Block(date, "", Split(hours, ' ')), pos + 3)
  }

  /** The loop stops when the date read gives ''. */
  predicate AtEnd(lines: seq<string>, pos: nat)
  {
    Take(LineAt(lines, pos), 6) == ""
  }

  /** The blocks the loop reads from line `pos` on, in file order. */
  function Blocks(lines: seq<string>, pos: nat): seq<Block>
    decreases if pos < |lines| then |lines| - pos else 0
  {
    if AtEnd(lines, pos) then [] else [ReadBlock(lines, pos).0] + Blocks(lines, ReadBlock(lines, pos).1)
  }

  /** One strptime per token, in the given order; the first malformed text
      aborts. */
  function DecodeTimes(date: string, hours: seq<string>): Result<seq<Timestamp>>
  {
    if hours == [] then Ok([])
    else
      var e :- DecodeTimestamp(date + hours[0]);
      var rest :- DecodeTimes(date, hours[1..]);
      Ok([e] + rest)
  }

  /** DecodeTimes succeeds exactly when every token decodes, and then gives
      one timestamp per token, in order; otherwise it reports the first
      token that does not decode. */
  lemma {:induction false} DecodeTimesMeaning(date: string, hours: seq<string>)
    ensures DecodeTimes(date, hours).Ok? <==> forall i :: 0 <= i < |hours| ==> DecodeTimestamp(date + hours[i]).Ok?
    ensures DecodeTimes(date, hours).Ok? ==>
      |DecodeTimes(date, hours).value| == |hours|
      && forall i :: 0 <= i < |hours| ==> DecodeTimes(date, hours).value[i] == DecodeTimestamp(date + hours[i]).value
    ensures DecodeTimes(date, hours).Err? ==>
      exists k :: 0 <= k < |hours|
        && (forall i :: 0 <= i < k ==> DecodeTimestamp(date + hours[i]).Ok?)
        && DecodeTimes(date, hours).error == MalformedTimestamp(date + hours[k])
  {
    if hours != [] {
      DecodeTimesMeaning(date, hours[1..]);
      var r := DecodeTimes(date, hours);
      if DecodeTimestamp(date + hours[0]).Ok? {
        var rest := DecodeTimes(date, hours[1..]);
        if rest.Err? {
          var k :| 0 <= k < |hours[1..]|
            && (forall i :: 0 <= i < k ==> DecodeTimestamp(date + hours[1..][i]).Ok?)
            && rest.error == MalformedTimestamp(date + hours[1..][k]);
          assert forall i :: 0 <= i < k + 1 ==> DecodeTimestamp(date + hours[i]).Ok? by {
            forall i | 0 <= i < k + 1 ensures DecodeTimestamp(date + hours[i]).Ok? {
              if i > 0 { assert hours[i] == hours[1..][i - 1]; }
            }
          }
        } else {
          forall i | 0 <= i < |hours| ensures r.value[i] == DecodeTimestamp(date + hours[i]).value {
            if i > 0 { assert hours[i] == hours[1..][i - 1]; }
          }
        }
      }
    }
  }

  /** The lists the loop builds, in file order: each block's tokens are
      decoded last token first, as the script reverses the split line. */
  function DecodeBlocks(bs: seq<Block>): Result<Log>
  {
    if bs == [] then Ok(Log([], []))
    else
      var evs :- DecodeTimes(bs[0].date, Reverse(bs[0].tokens));
      var rest :- DecodeBlocks(bs[1..]);
      Ok(Log(evs + rest.events, [bs[0].comment] + rest.comments))
  }

  /** The whole parse: the read loop, then both lists reversed. */
  function ParseLog(lines: seq<string>): Result<Log>
  {
    var raw :- DecodeBlocks(Blocks(lines, 0));
    Ok(Log(Reverse(raw.events), Reverse(raw.comments)))
  }

  /** `pre` put in front of a successful result; failures pass through. */
  function Prefixed(pre: seq<Timestamp>, r: Result<seq<Timestamp>>): Result<seq<Timestamp>>
  {
    if r.Ok? then Ok(pre + r.value) else r
  }

  function PrefixedLog(events: seq<Timestamp>, comments: seq<string>, r: Result<Log>): Result<Log>
  {
    if r.Ok? then Ok(Log(events + r.value.events, comments + r.value.comments)) else r
  }

  /** A token that decodes extends the decoded prefix by its timestamp. */
  lemma DecodeTimesStep(date: string, hours: seq<string>, k: nat, added: seq<Timestamp>)
    requires k < |hours| && DecodeTimestamp(date + hours[k]).Ok?
    requires DecodeTimes(date, hours) == Prefixed(added, DecodeTimes(date, hours[k..]))
    ensures DecodeTimes(date, hours)
         == Prefixed(added + [DecodeTimestamp(date + hours[k]).value], DecodeTimes(date, hours[k + 1..]))
  {
    assert hours[k..][0] == hours[k];
    assert hours[k..][1..] == hours[k + 1..];
    var rest := DecodeTimes(date, hours[k + 1..]);
    if rest.Ok? {
      var e := DecodeTimestamp(date + hours[k]).value;
      assert added + ([e] + rest.value) == (added + [e]) + rest.value;
    }
  }

  /** A token that does not decode is the error of the whole line. */
  lemma DecodeTimesStop(date: string, hours: seq<string>, k: nat, added: seq<Timestamp>)
    requires k < |hours| && DecodeTimestamp(date + hours[k]).Err?
    requires DecodeTimes(date, hours) == Prefixed(added, DecodeTimes(date, hours[k..]))
    ensures DecodeTimes(date, hours) == Err(DecodeTimestamp(date + hours[k]).error)
  {
    assert hours[k..][0] == hours[k];
  }

  lemma PrefixedLogAssoc(e1: seq<Timestamp>, c1: seq<string>, e2: seq<Timestamp>, c2: seq<string>, r: Result<Log>)
    ensures PrefixedLog(e1, c1, PrefixedLog(e2, c2, r)) == PrefixedLog(e1 + e2, c1 + c2, r)
  {
    if r.Ok? {
      assert e1 + (e2 + r.value.events) == (e1 + e2) + r.value.events;
      assert c1 + (c2 + r.value.comments) == (c1 + c2) + r.value.comments;
    }
  }

  lemma DecodeBlocksCons(b: Block, rest: seq<Block>)
    ensures var d := DecodeTimes(b.date, Reverse(b.tokens));
      DecodeBlocks([b] + rest) == if d.Err? then Err(d.error) else PrefixedLog(d.value, [b.comment], DecodeBlocks(rest))
  {
    assert ([b] + rest)[1..] == rest;
  }

  /** One block read at `pos`, with its tokens decoded into `added`. */
  lemma BlockStep(lines: seq<string>, pos: nat, events: seq<Timestamp>, comments: seq<string>,
                  added: seq<Timestamp>)
    requires !AtEnd(lines, pos)
    requires DecodeTimes(ReadBlock(lines, pos).0.date, Reverse(ReadBlock(lines, pos).0.tokens)) == Ok(added)
    ensures PrefixedLog(events, comments, DecodeBlocks(Blocks(lines, pos)))
         == PrefixedLog(events + added, comments + [ReadBlock(lines, pos).0.comment],
                        DecodeBlocks(Blocks(lines, ReadBlock(lines, pos).1)))
  {
    var b := ReadBlock(lines, pos).0;
    var rest := Blocks(lines, ReadBlock(lines, pos).1);
    assert Blocks(lines, pos) == [b] + rest;
    DecodeBlocksCons(b, rest);
    PrefixedLogAssoc(events, comments, added, [b.comment], DecodeBlocks(rest));
  }

  lemma BlockFails(lines: seq<string>, pos: nat, events: seq<Timestamp>, comments: seq<string>)
    requires !AtEnd(lines, pos)
    requires DecodeTimes(ReadBlock(lines, pos).0.date, Reverse(ReadBlock(lines, pos).0.tokens)).Err?
    ensures PrefixedLog(events, comments, DecodeBlocks(Blocks(lines, pos)))
         == Err(DecodeTimes(ReadBlock(lines, pos).0.date, Reverse(ReadBlock(lines, pos).0.tokens)).error)
  {
    var b := ReadBlock(lines, pos).0;
    var rest := Blocks(lines, ReadBlock(lines, pos).1);
    assert Blocks(lines, pos) == [b] + rest;
    DecodeBlocksCons(b, rest);
  }

  /** The loop that decodes a block's tokens one by one and appends each:
      the events with the block's timestamps appended, or the first
      malformed text. */
  method AppendTimes(events: seq<Timestamp>, date: string, hours: seq<string>) returns (r: Result<seq<Timestamp>>)
    ensures r == Prefixed(events, DecodeTimes(date, hours))
    ensures r.Ok? ==> |events| <= |r.value| && r.value[..|events|] == events
                      && DecodeTimes(date, hours) == Ok(r.value[|events|..])
  {
    var out := events;
    ghost var added: seq<Timestamp> := [];
    assert Prefixed([], DecodeTimes(date, hours)) == DecodeTimes(date, hours[0..]) by {
      assert hours[0..] == hours;
      var d := DecodeTimes(date, hours);
      if d.Ok? { assert [] + d.value == d.value; }
    }
    for k := 0 to |hours|
      invariant out == events + added
      invariant DecodeTimes(date, hours) == Prefixed(added, DecodeTimes(date, hours[k..]))
    {
      var e := DecodeTimestamp(date + hours[k]);
      if e.Err? {
        DecodeTimesStop(date, hours, k, added);
        return Err(e.error);
      }
      DecodeTimesStep(date, hours, k, added);
      assert events + added + [e.value] == events + (added + [e.value]);
      out := out + [e.value];
      added := added + [e.value];
    }
    assert hours[|hours|..] == [];
    assert added + [] == added;
    assert out[|events|..] == added;
    return Ok(out);
  }

  /** The read loop of plot.py over the lines of the data file: the lists
      in file order, before the reversal. */
  method ReadBlocks(lines: seq<string>) returns (r: Result<Log>)
    ensures r == DecodeBlocks(Blocks(lines, 0))
  {
    var events: seq<Timestamp> := [];
    var comments: seq<string> := [];
    var pos: nat := 0;
    ghost var whole := DecodeBlocks(Blocks(lines, 0));
    if whole.Ok? {
      assert [] + whole.value.events == whole.value.events;
      assert [] + whole.value.comments == whole.value.comments;
    }
    while true
      invariant DecodeBlocks(Blocks(lines, 0)) == PrefixedLog(events, comments, DecodeBlocks(Blocks(lines, pos)))
      decreases if pos < |lines| then |lines| - pos else 0
    {
      var start := pos;
      var date := Take(LineAt(lines, pos), 6);
      pos := pos + 1;
      if date == "" {
        pos := start;
        break;
      }
      var hours := StripNewlines(LineAt(lines, pos));
      pos := pos + 1;
      if StartsWithHash(hours) {
        comments := comments + [Drop(hours, 2)];
        hours := StripNewlines(LineAt(lines, pos));
        pos := pos + 1;
      } else {
        comments := comments + [""];
      }
      var tokens := Reverse(Split(hours, ' '));
      assert ReadBlock(lines, start).0 == Block(date, comments[|comments| - 1], Split(hours, ' '));
      var appended := AppendTimes(events, date, tokens);
      if appended.Err? {
        BlockFails(lines, start, events, comments[..|comments| - 1]);
        return Err(appended.error);
      }
      BlockStep(lines, start, events, comments[..|comments| - 1], appended.value[|events|..]);
      assert comments[..|comments| - 1] + [comments[|comments| - 1]] == comments;
      assert events + appended.value[|events|..] == appended.value;
      events := appended.value;
      pos := pos + 1;  // the separator line
      assert ReadBlock(lines, start).1 == pos;
    }
    assert Blocks(lines, pos) == [];
    assert events + [] == events && comments + [] == comments;
    return Ok(Log(events, comments));
  }

  /** The read loop, then both lists reversed. */
  method ReadLog(lines: seq<string>) returns (r: Result<Log>)
    ensures r == ParseLog(lines)
  {
    var raw :- ReadBlocks(lines);
    return Ok(Log(Reverse(raw.events), Reverse(raw.comments)));
  }
}

/** What the parse means: block structure, event order and the written
    form of a log. */
module LogFormat {
  import opened Results
  import opened Sequences
  import opened Calendar
  import opened LogParser

  /** The comment of each block, in file order. */
  function Comments(bs: seq<Block>): (r: seq<string>)
    ensures |r| == |bs|
  {
    seq(|bs|, i requires 0 <= i < |bs| => bs[i].comment)
  }

  predicate AllDecode(bs: seq<Block>)
  {
    forall i :: 0 <= i < |bs| ==> DecodeTimes(bs[i].date, bs[i].tokens).Ok?
  }

  /** Each block's timestamps in the order its times line lists them. */
  function Written(bs: seq<Block>): (r: seq<seq<Timestamp>>)
    requires AllDecode(bs)
    ensures |r| == |bs|
  {
    seq(|bs|, i requires 0 <= i < |bs| => DecodeTimes(bs[i].date, bs[i].tokens).value)
  }

  /** Decoding the reversed tokens succeeds exactly when decoding them in
      written order does, and gives the reversed timestamps. */
  lemma DecodeReversed(date: string, hours: seq<string>)
    ensures DecodeTimes(date, Reverse(hours)).Ok? <==> DecodeTimes(date, hours).Ok?
    ensures DecodeTimes(date, hours).Ok? ==>
      DecodeTimes(date, Reverse(hours)).value == Reverse(DecodeTimes(date, hours).value)
  {
    DecodeTimesMeaning(date, hours);
    DecodeTimesMeaning(date, Reverse(hours));
    var n := |hours|;
    if !DecodeTimes(date, hours).Ok? {
      var k :| 0 <= k < n && !DecodeTimestamp(date + hours[k]).Ok?;
      assert Reverse(hours)[n - 1 - k] == hours[k];
    }
  }

  lemma {:induction false} DecodeBlocksMeaning(bs: seq<Block>)
    ensures DecodeBlocks(bs).Ok? <==> AllDecode(bs)
    ensures DecodeBlocks(bs).Ok? ==>
      DecodeBlocks(bs).value.comments == Comments(bs)
      && DecodeBlocks(bs).value.events == Flatten(MapReverse(Written(bs)))
  {
    if bs != [] {
      DecodeBlocksMeaning(bs[1..]);
      DecodeReversed(bs[0].date, bs[0].tokens);
      assert forall i :: 1 <= i < |bs| ==> bs[i] == bs[1..][i - 1];
      if AllDecode(bs) {
        assert AllDecode(bs[1..]);
        assert Comments(bs) == [bs[0].comment] + Comments(bs[1..]);
        assert MapReverse(Written(bs))[1..] == MapReverse(Written(bs[1..]));
      } else if AllDecode(bs[1..]) {
        assert !DecodeTimes(bs[0].date, bs[0].tokens).Ok?;
      }
    }
  }

  /** After the final reversals the events are the blocks in reverse file
      order, each block's times in the order its line writes them, and
      the comments are the blocks' comments in reverse file order: one per
      block. The parse fails exactly when some time does not decode. */
  lemma ParseLogOrder(lines: seq<string>)
    ensures var bs := Blocks(lines, 0);
      && (ParseLog(lines).Ok? <==> AllDecode(bs))
      && (ParseLog(lines).Ok? ==>
            ParseLog(lines).value.events == Flatten(Reverse(Written(bs)))
            && ParseLog(lines).value.comments == Reverse(Comments(bs)))
  {
    var bs := Blocks(lines, 0);
    DecodeBlocksMeaning(bs);
    if AllDecode(bs) {
      var w := Written(bs);
      ReverseFlatten(MapReverse(w));
      forall i | 0 <= i < |w| ensures MapReverse(MapReverse(w))[i] == w[i] {
        ReverseReverse(w[i]);
      }
      assert MapReverse(MapReverse(w)) == w;
      var raw := DecodeBlocks(bs).value;
      assert ParseLog(lines).value.events == Reverse(raw.events);
      assert ParseLog(lines).value.events == Flatten(Reverse(w));
    }
  }

  /** A parsed log without comments has no events either: every event
      comes from a block, and every block adds a comment. */
  lemma EventsNeedBlocks(lines: seq<string>)
    requires ParseLog(lines).Ok?
    ensures ParseLog(lines).value.comments == [] ==> ParseLog(lines).value.events == []
  {
    ParseLogOrder(lines);
  }

  // ---- The written form of a log.

  /** A block the file format can express without ambiguity. */
  predicate WellFormedBlock(b: Block)
  {
    && |b.date| == 6
    && Free(b.comment, '\n')
    && |b.tokens| >= 1
    && (forall i :: 0 <= i < |b.tokens| ==> Free(b.tokens[i], ' ') && Free(b.tokens[i], '\n'))
    && !StartsWithHash(b.tokens[0])
  }

  /** The lines of one block: date, optional '# ' comment, times, blank. */
  function BlockLines(b: Block): seq<string>
  {
    [b.date + "\n"]
      + (if b.comment == "" then [] else ["# " + b.comment + "\n"])
      + [Join(b.tokens, ' ') + "\n", "\n"]
  }

  function Render(bs: seq<Block>): seq<string>
  {
    if bs == [] then [] else BlockLines(bs[0]) + Render(bs[1..])
  }

  lemma {:induction false} JoinFree(ts: seq<string>, sep: char, c: char)
    requires c != sep
    requires forall i :: 0 <= i < |ts| ==> Free(ts[i], c)
    ensures Free(Join(ts, sep), c)
  {
    if |ts| > 1 {
      JoinFree(ts[1..], sep, c);
    }
  }

  lemma JoinStart(ts: seq<string>, sep: char)
    requires |ts| >= 1 && !StartsWithHash(ts[0]) && sep != '#'
    ensures !StartsWithHash(Join(ts, sep))
  {
  }

  /** Lines placed in front do not change what is read after them. */
  lemma {:induction false} BlocksShift(pre: seq<string>, rest: seq<string>, q: nat)
    ensures Blocks(pre + rest, |pre| + q) == Blocks(rest, q)
    decreases if q < |rest| then |rest| - q else 0
  {
    var lines := pre + rest;
    assert forall i: nat :: LineAt(lines, |pre| + i) == LineAt(rest, i);
    assert ReadBlock(lines, |pre| + q) == (ReadBlock(rest, q).0, |pre| + ReadBlock(rest, q).1);
    if !AtEnd(rest, q) {
      BlocksShift(pre, rest, ReadBlock(rest, q).1);
    }
  }

  lemma ReadRendered(b: Block, rest: seq<string>)
    requires WellFormedBlock(b)
    ensures !AtEnd(BlockLines(b) + rest, 0)
    ensures ReadBlock(BlockLines(b) + rest, 0) == (b, |BlockLines(b)|)
  {
    var lines := BlockLines(b) + rest;
    var times := Join(b.tokens, ' ');
    JoinFree(b.tokens, ' ', '\n');
    JoinStart(b.tokens, ' ');
    SplitJoin(b.tokens, ' ');
    StripLine(times);
    assert LineAt(lines, 0) == b.date + "\n";
    assert Take(b.date + "\n", 6) == b.date;
    if b.comment == "" {
      assert LineAt(lines, 1) == times + "\n";
    } else {
      var c := "# " + b.comment;
      assert Free(c, '\n');
      StripLine(c);
      assert LineAt(lines, 1) == c + "\n";
      assert LineAt(lines, 2) == times + "\n";
      assert Drop(c, 2) == b.comment;
    }
  }

  /** Reading the written form of well-formed blocks gives those blocks
      back, and the loop stops exactly at the end of the file. */
  lemma {:induction false} RenderRoundTrip(bs: seq<Block>)
    requires forall i :: 0 <= i < |bs| ==> WellFormedBlock(bs[i])
    ensures Blocks(Render(bs), 0) == bs
  {
    if bs != [] {
      var head, rest := BlockLines(bs[0]), Render(bs[1..]);
      assert Render(bs) == head + rest;
      ReadRendered(bs[0], rest);
      assert Blocks(head + rest, 0) == [bs[0]] + Blocks(head + rest, |head|);
      BlocksShift(head, rest, 0);
      RenderRoundTrip(bs[1..]);
      assert [bs[0]] + bs[1..] == bs;
    } else {
      assert LineAt(Render(bs), 0) == "";
    }
  }

  /** The parse of a written log: newest-first blocks become oldest-first
      events and comments. */
  lemma ParseRendered(bs: seq<Block>)
    requires forall i :: 0 <= i < |bs| ==> WellFormedBlock(bs[i])
    requires AllDecode(bs)
    ensures ParseLog(Render(bs)) == Ok(Log(Flatten(Reverse(Written(bs))), Reverse(Comments(bs))))
  {
    RenderRoundTrip(bs);
    ParseLogOrder(Render(bs));
  }
}
