/**
  The line-buffering log writer. However the byte stream is cut into Write
  calls, the logged lines are the same function of the whole stream. A char
  stands for a byte; `trim` stands for the library's white-space trimming.
 */
module LineWriter {

  function IndexNewline(s: string): (i: int)
    ensures -1 <= i < |s|
    ensures i >= 0 ==> s[i] == '\n' && forall k | 0 <= k < i :: s[k] != '\n'
    ensures i < 0 ==> forall k | 0 <= k < |s| :: s[k] != '\n'
  {
    if s == "" then -1
    else if s[0] == '\n' then 0
    else
      var i := IndexNewline(s[1..]);
      if i < 0 then -1 else i + 1
  }

  function TrimReturn(line: string): string {
    if line != "" && line[|line| - 1] == '\r' then line[..|line| - 1] else line
  }

  /** The complete lines of a stream, without their newlines. */
  function Lines(s: string): seq<string>
    decreases |s|
  {
    var i := IndexNewline(s);
    if i < 0 then [] else [s[..i]] + Lines(s[i + 1..])
  }

  /** What is left after the last newline. */
  function Rest(s: string): string
    decreases |s|
  {
    var i := IndexNewline(s);
    if i < 0 then s else Rest(s[i + 1..])
  }

  function Unlines(lines: seq<string>): string {
    if lines == [] then "" else lines[0] + "\n" + Unlines(lines[1..])
  }

  lemma Unfold(s: string)
    ensures var i := IndexNewline(s);
      if i < 0 then Lines(s) == [] && Rest(s) == s
      else Lines(s) == [s[..i]] + Lines(s[i + 1..]) && Rest(s) == Rest(s[i + 1..])
  {
    hide IndexNewline;
  }

  lemma UnlinesCons(line: string, lines: seq<string>, rest: string)
    ensures Unlines([line] + lines) + rest == line + "\n" + (Unlines(lines) + rest)
  {
  }

  /** Lines and rest together are the stream; neither holds a newline. */
  lemma {:induction false} StreamRecovered(s: string)
    ensures Unlines(Lines(s)) + Rest(s) == s
    ensures IndexNewline(Rest(s)) < 0 && forall l <- Lines(s) :: '\n' !in l
    decreases |s|
  {
    hide IndexNewline, Lines, Rest;
    Unfold(s);
    var i := IndexNewline(s);
    if i >= 0 {
      var t := s[i + 1..];
      StreamRecovered(t);
      UnlinesCons(s[..i], Lines(t), Rest(t));
      hide Unlines;
      assert s == s[..i] + "\n" + t;
    }
  }

  /** The messages logged for some lines: carriage return and blanks trimmed, empty ones skipped. */
  function Messages(trim: string -> string, lines: seq<string>): seq<string> {
    if lines == [] then []
    else
      var msg := trim(TrimReturn(lines[0]));
      (if msg == "" then [] else [msg]) + Messages(trim, lines[1..])
  }

  lemma {:induction false} MessagesAppend(trim: string -> string, a: seq<string>, b: seq<string>)
    ensures Messages(trim, a + b) == Messages(trim, a) + Messages(trim, b)
  {
    if a == [] {
      assert a + b == b;
    } else {
      assert (a + b)[1..] == a[1..] + b;
      MessagesAppend(trim, a[1..], b);
    }
  }

  /** One line, ended by a newline with or without a carriage return, is logged trimmed unless nothing is left of it. */
  lemma OneLine(trim: string -> string, line: string)
    requires '\n' !in line
    ensures Messages(trim, Lines(line + "\r\n")) == (if trim(line) == "" then [] else [trim(line)])
    ensures !(line != "" && line[|line| - 1] == '\r') ==>
      Messages(trim, Lines(line + "\n")) == if trim(line) == "" then [] else [trim(line)]
    ensures Rest(line + "\r\n") == "" && Rest(line + "\n") == ""
  {
    hide Lines, Rest, TrimReturn;
    LineEnd(line);
    OneMessage(trim, line);
    var returned := line + ['\r'];
    assert '\n' !in returned && returned + "\n" == line + "\r\n";
    LineEnd(returned);
    OneMessage(trim, returned);
    ReturnTrimmed(line);
  }

  lemma OneMessage(trim: string -> string, line: string)
    ensures Messages(trim, [line]) == if trim(TrimReturn(line)) == "" then [] else [trim(TrimReturn(line))]
  {
  }

  lemma ReturnTrimmed(line: string)
    ensures TrimReturn(line + ['\r']) == line
    ensures !(line != "" && line[|line| - 1] == '\r') ==> TrimReturn(line) == line
  {
    assert (line + ['\r'])[..|line|] == line;
  }

  lemma LineEnd(line: string)
    requires '\n' !in line
    ensures Lines(line + "\n") == [line] && Rest(line + "\n") == ""
  {
    var s := line + "\n";
    assert s[|line|] == '\n' && forall k | 0 <= k < |line| :: s[k] == line[k] && line[k] in line;
    assert IndexNewline(s) == |line|;
    assert s[..|line|] == line && s[|line| + 1..] == "";
    Unfold(s);
    Unfold("");
  }

  lemma IndexAppend(s: string, t: string)
    requires IndexNewline(s) >= 0
    ensures IndexNewline(s + t) == IndexNewline(s)
  {
    var i := IndexNewline(s + t);
    assert (s + t)[IndexNewline(s)] == '\n';
    assert forall k | 0 <= k < IndexNewline(s) :: (s + t)[k] == s[k];
    assert forall k | 0 <= k < |s + t| && (s + t)[k] == '\n' :: i <= k;
  }

  /** Reading on from the retained tail loses and repeats nothing. */
  lemma {:induction false} StreamSplit(s: string, t: string)
    ensures Lines(s + t) == Lines(s) + Lines(Rest(s) + t)
    ensures Rest(s + t) == Rest(Rest(s) + t)
    decreases |s|
  {
    hide IndexNewline;
    var i := IndexNewline(s);
    if i >= 0 {
      IndexAppend(s, t);
      assert (s + t)[..i] == s[..i] && (s + t)[i + 1..] == s[i + 1..] + t;
      StreamSplit(s[i + 1..], t);
    }
  }

  class Writer {
    const trim: string -> string
    var buf: string
    var logged: seq<string>

    constructor (trim: string -> string)
      ensures this.trim == trim && buf == "" && logged == []
    {
      this.trim, buf, logged := trim, "", [];
    }

    method FlushLine(line: string)
      modifies `logged
      ensures logged == old(logged) + (if trim(line) == "" then [] else [trim(line)])
    {
      var msg := trim(line);
      if msg == "" { return; }
      logged := logged + [msg];
    }

    /** Nothing complete is ever retained. */
    ghost predicate Valid()
      reads this
    {
      IndexNewline(buf) < 0
    }

    method Write(p: string) returns (n: nat)
      modifies this
      ensures Valid() && n == |p|
      ensures logged == old(logged) + Messages(trim, Lines(old(buf) + p))
      ensures buf == Rest(old(buf) + p)
    {
      hide IndexNewline, Lines, Rest, Messages;
      buf := buf + p;
      ghost var stream, before := buf, logged;
      while true
        invariant logged + Messages(trim, Lines(buf)) == before + Messages(trim, Lines(stream))
        invariant Rest(buf) == Rest(stream)
        decreases |buf|
      {
        var idx := IndexNewline(buf);
        if idx < 0 { break; }
        NextLine(trim, buf);
        ghost var earlier, later := logged, Messages(trim, Lines(buf[idx + 1..]));
        FlushLine(TrimReturn(buf[..idx]));
        assert earlier + (logged[|earlier|..] + later) == logged + later;
        buf := buf[idx + 1..];
      }
      NothingComplete(trim, buf);
      n := |p|;
    }

    /** Any chunking of a stream logs the lines of the stream and keeps its unfinished end. */
    method WriteAll(chunks: seq<string>)
      requires Valid()
      modifies this
      ensures Valid() && logged == old(logged) + Messages(trim, Lines(old(buf) + Concat(chunks)))
      ensures buf == Rest(old(buf) + Concat(chunks))
    {
      hide IndexNewline, Lines, Rest, Messages;
      ghost var before, start := logged, buf;
      NothingComplete(trim, start);
      assert start + Concat(chunks[..0]) == start;
      for i := 0 to |chunks|
        invariant Valid() && logged == before + Messages(trim, Lines(start + Concat(chunks[..i])))
        invariant buf == Rest(start + Concat(chunks[..i]))
      {
        ghost var s := start + Concat(chunks[..i]);
        StreamSplit(s, chunks[i]);
        MessagesAppend(trim, Lines(s), Lines(Rest(s) + chunks[i]));
        ConcatSnoc(chunks, i);
        assert start + Concat(chunks[..i + 1]) == s + chunks[i];
        var _ := Write(chunks[i]);
      }
      assert chunks[..|chunks|] == chunks;
    }
  }

  lemma NextLine(trim: string -> string, s: string)
    requires IndexNewline(s) >= 0
    ensures var i := IndexNewline(s); var msg := trim(TrimReturn(s[..i]));
      && Rest(s) == Rest(s[i + 1..])
      && Messages(trim, Lines(s)) == (if msg == "" then [] else [msg]) + Messages(trim, Lines(s[i + 1..]))
  {
    hide IndexNewline;
    var i := IndexNewline(s);
    assert Lines(s)[0] == s[..i] && Lines(s)[1..] == Lines(s[i + 1..]);
  }

  lemma NothingComplete(trim: string -> string, s: string)
    requires IndexNewline(s) < 0
    ensures Rest(s) == s && Messages(trim, Lines(s)) == []
  {
    hide IndexNewline;
  }

  function Concat(chunks: seq<string>): string {
    if chunks == [] then "" else Concat(chunks[..|chunks| - 1]) + chunks[|chunks| - 1]
  }

  lemma ConcatSnoc(chunks: seq<string>, i: nat)
    requires i < |chunks|
    ensures Concat(chunks[..i + 1]) == Concat(chunks[..i]) + chunks[i]
  {
    assert chunks[..i + 1][..i] == chunks[..i];
  }
}
