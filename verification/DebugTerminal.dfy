// The debug terminal behind the logger: writes of any size are cut into lines,
// and the last of the lines that are not blank are kept.

module LineSplitting {
  import opened Wrappers
  import opened Sorting

  /** The lines completed so far, without their newline, and what follows the last newline. */
  datatype Scan = Scan(lines: seq<string>, pending: string)

  /** The splitter as an automaton that reads one character at a time. */
  function Feed(st: Scan, s: string): Scan {
    if s == "" then st
    else
      var before := Feed(st, Front(s));
      if Last(s) == '\n' then Scan(before.lines + [before.pending], "")
      else Scan(before.lines, before.pending + [Last(s)])
  }

  function Concat(chunks: seq<string>): string {
    if chunks == [] then "" else Concat(Front(chunks)) + Last(chunks)
  }

  /** One write after the other. */
  function FeedAll(st: Scan, chunks: seq<string>): Scan {
    if chunks == [] then st else Feed(FeedAll(st, Front(chunks)), Last(chunks))
  }

  lemma {:induction false} FeedTwice(st: Scan, a: string, b: string)
    ensures Feed(Feed(st, a), b) == Feed(st, a + b)
  {
    if b == "" {
      assert a + b == a;
    } else {
      FeedTwice(st, a, Front(b));
      assert Front(a + b) == a + Front(b);
    }
  }

  /** However a text is cut into writes, the lines and the remainder are those of one write. */
  lemma {:induction false} ChunksDoNotMatter(st: Scan, chunks: seq<string>)
    ensures FeedAll(st, chunks) == Feed(st, Concat(chunks))
  {
    if chunks != [] {
      ChunksDoNotMatter(st, Front(chunks));
      FeedTwice(st, Concat(Front(chunks)), Last(chunks));
    }
  }

  /** The lines with their newlines put back, in order. */
  function Glue(lines: seq<string>): string {
    if lines == [] then "" else Glue(Front(lines)) + Last(lines) + "\n"
  }

  ghost predicate Whole(st: Scan) {
    '\n' !in st.pending && forall l :: l in st.lines ==> '\n' !in l
  }

  /** No line and no remainder has a newline in it, and together they are the text, character by character. */
  lemma {:induction false} FeedLosesNothing(st: Scan, s: string)
    requires Whole(st)
    ensures Whole(Feed(st, s))
    ensures Glue(Feed(st, s).lines) + Feed(st, s).pending == Glue(st.lines) + st.pending + s
  {
    if s != "" {
      FeedLosesNothing(st, Front(s));
      var before := Feed(st, Front(s));
      var text := Glue(st.lines) + st.pending;
      assert s == Front(s) + [Last(s)];
      Assoc(text, Front(s), [Last(s)]);
      if Last(s) == '\n' {
        assert Front(before.lines + [before.pending]) == before.lines;
        assert Glue(Feed(st, s).lines) == Glue(before.lines) + before.pending + "\n";
        assert Glue(Feed(st, s).lines) + "" == Glue(Feed(st, s).lines);
      } else {
        Assoc(Glue(before.lines), before.pending, [Last(s)]);
      }
    }
  }

  lemma {:induction false} FeedPlain(st: Scan, s: string)
    requires '\n' !in s
    ensures Feed(st, s) == Scan(st.lines, st.pending + s)
  {
    if s != "" {
      FeedPlain(st, Front(s));
      assert s == Front(s) + [Last(s)];
    }
  }

  /** The position of the first newline. */
  function FindNewline(s: string): (r: Option<nat>)
    ensures r.Some? ==> r.value < |s| && s[r.value] == '\n' && '\n' !in s[..r.value]
    ensures r.None? ==> '\n' !in s
  {
    if s == "" then None
    else if s[0] == '\n' then Some(0)
    else
      match FindNewline(s[1..])
      case None => None
      case Some(i) => assert s[..i + 1] == [s[0]] + s[1..][..i]; Some(i + 1)
  }

  lemma FeedNewline(st: Scan)
    ensures Feed(st, "\n") == Scan(st.lines + [st.pending], "")
  {
    assert Front("\n") == "";
    assert Feed(st, Front("\n")) == st;
  }

  lemma FeedLine(lines: seq<string>, line: string, rest: string)
    requires '\n' !in line
    ensures Feed(Scan(lines, ""), (line + "\n") + rest) == Feed(Scan(lines + [line], ""), rest)
  {
    var st := Scan(lines, "");
    FeedPlain(st, line);
    assert "" + line == line;
    FeedNewline(Scan(lines, line));
    FeedTwice(st, line, "\n");
    FeedTwice(st, line + "\n", rest);
  }

  /** `write`: drains one completed line after the other from the pending text. */
  method Drain(pending: string, content: string) returns (st: Scan)
    requires '\n' !in pending
    ensures st == Feed(Scan([], pending), content)
  {
    var rest, lines: seq<string> := pending + content, [];
    FeedPlain(Scan([], ""), pending);
    assert "" + pending == pending;
    FeedTwice(Scan([], ""), pending, content);
    var newline := FindNewline(rest);
    while newline.Some?
      invariant newline == FindNewline(rest)
      invariant Feed(Scan(lines, ""), rest) == Feed(Scan([], pending), content)
      decreases |rest|
    {
      var line, tail := rest[..newline.value], rest[newline.value + 1..];
      assert rest == (line + "\n") + tail;
      FeedLine(lines, line, tail);
      lines := lines + [line];
      rest := tail;
      newline := FindNewline(rest);
    }
    FeedPlain(Scan(lines, ""), rest);
    st := Scan(lines, rest);
  }
}

module DebugTerminal {
  import opened Wrappers
  import opened Sorting
  import opened Blankness
  import opened LineSplitting

  const DEFAULT_MAX_DEBUG_LINES: nat := 10_000

  /** The bound read from the environment: a positive number, or the default. */
  function MaxLines(setting: Option<nat>): (n: nat)
    ensures n > 0 && (setting == Some(n) || (n == 10_000 && (setting.None? || setting == Some(0))))
  {
    if setting.Some? && setting.value > 0 then setting.value else DEFAULT_MAX_DEBUG_LINES
  }

  /** A completed line without the carriage return of a two-character line end. */
  function Stripped(line: string): string {
    if line != "" && Last(line) == '\r' then Front(line) else line
  }

  /** The lines the terminal shows: stripped, and not blank. */
  function Shown(lines: seq<string>): seq<string> {
    if lines == [] then []
    else Shown(Front(lines)) + Kept(Stripped(Last(lines)))
  }

  function Kept(line: string): seq<string> {
    if Blank(line) then [] else [line]
  }

  function LastOf(s: seq<string>, n: nat): (r: seq<string>)
    ensures |r| <= n && |r| <= |s| && r == s[|s| - |r|..] && (|r| == n || r == s)
  {
    if |s| <= n then s else s[|s| - n..]
  }

  lemma ShownSnoc(before: seq<string>, lines: seq<string>, line: string)
    ensures before + Shown(lines + [line]) == before + Shown(lines) + Kept(Stripped(line))
  {
    assert Front(lines + [line]) == lines;
    Assoc(before, Shown(lines), Kept(Stripped(line)));
  }

  lemma {:induction false} ShownAppend(a: seq<string>, b: seq<string>)
    ensures Shown(a + b) == Shown(a) + Shown(b)
  {
    if b == [] {
      assert a + b == a;
    } else {
      assert Front(a + b) == a + Front(b) && Last(a + b) == Last(b);
      ShownAppend(a, Front(b));
      Assoc(Shown(a), Shown(Front(b)), Kept(Stripped(Last(b))));
    }
  }

  /** A line is shown unless it is blank, whether it ends in one character or in two. */
  lemma EitherLineEnd(text: string)
    ensures Shown([text + "\r"]) == if Blank(text) then [] else [text]
    ensures text == "" || Last(text) != '\r' ==> Shown([text]) == if Blank(text) then [] else [text]
  {
    assert Front([text]) == [] && Front([text + "\r"]) == [];
    assert Front(text + "\r") == text;
  }

  /** Pops lines from the front until there is room for one more. */
  method MakeRoom(lines: seq<string>, max: nat) returns (r: seq<string>)
    requires 0 < max
    ensures r == LastOf(lines, max - 1)
  {
    r := lines;
    while |r| >= max
      invariant |r| <= |lines| && r == lines[|lines| - |r|..]
      invariant |r| == |lines| || |r| >= max - 1
    {
      r := r[1..];
    }
  }

  class Terminal {
    var lines: seq<string>
    var pending: string
    const setting: Option<nat>

    /** Everything shown since the terminal was last cleared. */
    ghost var history: seq<string>

    ghost predicate Valid()
      reads this
    {
      lines == LastOf(history, MaxLines(setting)) && '\n' !in pending
    }

    constructor (setting: Option<nat>)
      ensures Valid() && history == [] && pending == "" && this.setting == setting
    {
      this.setting := setting;
      lines, pending, history := [], "", [];
    }

    method PushDebugLine(line: string)
      requires Valid()
      modifies this`lines, this`history
      ensures Valid() && history == old(history) + Kept(line)
    {
      if Blank(line) { return; }
      var room := MakeRoom(lines, MaxLines(setting));
      PushedLast(history, line, MaxLines(setting));
      lines := room + [line];
      history := history + [line];
    }

    /** The completed lines of a write join the terminal; its end stays pending. */
    method Write(content: string)
      requires Valid()
      modifies this
      ensures Valid()
      ensures var st := Feed(Scan([], old(pending)), content);
        pending == st.pending && history == old(history) + Shown(st.lines)
    {
      var st := Drain(pending, content);
      FeedLosesNothing(Scan([], pending), content);
      pending := st.pending;
      PushCompleted(st.lines);
    }

    method PushCompleted(completed: seq<string>)
      requires Valid()
      modifies this`lines, this`history
      ensures Valid() && history == old(history) + Shown(completed)
    {
      for i := 0 to |completed|
        invariant Valid() && history == old(history) + Shown(completed[..i])
      {
        PushDebugLine(Stripped(completed[i]));
        ShownSnoc(old(history), completed[..i], completed[i]);
        assert completed[..i + 1] == completed[..i] + [completed[i]];
      }
      assert completed[..|completed|] == completed;
    }

    /** A pending line that is not blank is shown as it is. */
    method Flush()
      requires Valid()
      modifies this
      ensures Valid() && pending == "" && history == old(history) + Kept(old(pending))
    {
      var line := pending;
      pending := "";
      if !Blank(line) { PushDebugLine(line); }
    }

    method Clear()
      requires Valid()
      modifies this
      ensures Valid() && lines == [] && pending == "" && history == []
    {
      lines, pending, history := [], "", [];
    }

    /** Writes a text in pieces: the terminal ends as after one write of the whole. */
    method WriteAll(chunks: seq<string>)
      requires Valid()
      modifies this
      ensures Valid()
      ensures var st := Feed(Scan([], old(pending)), Concat(chunks));
        pending == st.pending && history == old(history) + Shown(st.lines)
    {
      for i := 0 to |chunks|
        invariant Valid()
        invariant var st := Feed(Scan([], old(pending)), Concat(chunks[..i]));
          pending == st.pending && history == old(history) + Shown(st.lines)
      {
        WriteAppends(old(pending), Concat(chunks[..i]), chunks[i]);
        ghost var text := Concat(chunks[..i]);
        assert Front(chunks[..i + 1]) == chunks[..i];
        Assoc(old(history), Shown(Feed(Scan([], old(pending)), text).lines),
          Shown(Feed(Scan([], pending), chunks[i]).lines));
        Write(chunks[i]);
      }
      assert chunks[..|chunks|] == chunks;
    }
  }

  /** A second write continues where the first one ended. */
  lemma WriteAppends(pending: string, a: string, b: string)
    ensures var first := Feed(Scan([], pending), a);
      var second, both := Feed(Scan([], first.pending), b), Feed(Scan([], pending), a + b);
      both.pending == second.pending && Shown(both.lines) == Shown(first.lines) + Shown(second.lines)
  {
    var first := Feed(Scan([], pending), a);
    FeedTwice(Scan([], pending), a, b);
    FeedFrom(first.lines, first.pending, b);
    ShownAppend(first.lines, Feed(Scan([], first.pending), b).lines);
  }

  lemma PushedLast(history: seq<string>, line: string, n: nat)
    requires n > 0
    ensures LastOf(history + [line], n) == LastOf(LastOf(history, n), n - 1) + [line]
  {
  }

  lemma {:induction false} FeedFrom(lines: seq<string>, pending: string, s: string)
    ensures Feed(Scan(lines, pending), s)
         == Scan(lines + Feed(Scan([], pending), s).lines, Feed(Scan([], pending), s).pending)
  {
    if s != "" { FeedFrom(lines, pending, Front(s)); }
  }
}
