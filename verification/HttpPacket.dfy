/** Printing a packet and cutting it up again: the header printer and the packet parser together. */
module HttpPackets {
  import opened Common
  import opened Http
  import opened HttpFraming

  lemma {:induction false} BlankStartsWithBreak(s: Text, i: nat)
    requires OccursAt(s, BLANK_LINE, i)
    ensures OccursAt(s, CRLF, i) && OccursAt(s, CRLF, i + 2)
  {
    BlankIsTwoBreaks(s, i);
  }

  lemma {:induction false} CharsOfBreak(s: Text, i: nat)
    requires OccursAt(s, CRLF, i)
    ensures s[i] == '\r' && s[i + 1] == '\n'
  {
    assert s[i..i + 2][0] == s[i] && s[i..i + 2][1] == s[i + 1];
  }

  /** No blank line starts in a clean header line, nor at its end when another clean line follows. */
  lemma {:induction false} NoBlankInLine(pre: Text, h: Header, rest: Text, i: nat)
    requires Clean(h) && |pre| <= i < |pre| + |HeaderLine(h)|
    requires i < |pre| + |HeaderLine(h)| - 2 || !OccursAt(pre + HeaderLine(h) + rest, CRLF, |pre| + |HeaderLine(h)|)
    ensures !OccursAt(pre + HeaderLine(h) + rest, BLANK_LINE, i)
  {
    var s := pre + HeaderLine(h) + rest;
    if OccursAt(s, BLANK_LINE, i) {
      BlankStartsWithBreak(s, i);
      if i < |pre| + |HeaderLine(h)| - 2 {
        OccursInside(pre, HeaderLine(h), rest, i - |pre|);
        NoBreakInside(h, i - |pre|);
      } else if i == |pre| + |HeaderLine(h)| - 1 {
        CharsOfBreak(s, i);
      }
    }
  }

  lemma {:induction false} NoBreakAtStart(pre: Text, h: Header, rest: Text)
    requires Clean(h)
    ensures !OccursAt(pre + HeaderLine(h) + rest, CRLF, |pre|)
  {
    OccursInside(pre, HeaderLine(h), rest, 0);
    NoBreakInside(h, 0);
  }

  lemma {:induction false} Unroll(pre: Text, hs: seq<Header>, rest: Text)
    requires hs != []
    ensures pre + Block(hs) + rest == pre + HeaderLine(hs[0]) + (Block(hs[1..]) + rest)
    ensures pre + Block(hs) + rest == (pre + HeaderLine(hs[0])) + Block(hs[1..]) + rest
  {
  }

  /** The first blank line at or after a printed block is the one at its end. */
  lemma {:induction false} NoBlankInside(pre: Text, hs: seq<Header>, rest: Text, i: nat)
    requires forall j :: 0 <= j < |hs| ==> Clean(hs[j])
    requires |pre| <= i < |pre| + |Block(hs)| - 2
    ensures !OccursAt(pre + Block(hs) + rest, BLANK_LINE, i)
    decreases |hs|
  {
    var end := |pre| + |HeaderLine(hs[0])|;
    Unroll(pre, hs, rest);
    if end <= i {
      NoBlankInside(pre + HeaderLine(hs[0]), hs[1..], rest, i);
    } else {
      if end - 2 <= i {
        Unroll(pre + HeaderLine(hs[0]), hs[1..], rest);
        NoBreakAtStart(pre + HeaderLine(hs[0]), hs[1], Block(hs[1..][1..]) + rest);
      }
      NoBlankInLine(pre, hs[0], Block(hs[1..]) + rest, i);
    }
  }

  lemma {:induction false} BlockEndsInBreak(hs: seq<Header>)
    requires hs != []
    ensures |Block(hs)| >= 4 && OccursAt(Block(hs), CRLF, |Block(hs)| - 2)
  {
    if |hs| > 1 {
      BlockEndsInBreak(hs[1..]);
      assert Block(hs)[|Block(hs)| - 2..] == Block(hs[1..])[|Block(hs[1..])| - 2..];
    } else {
      assert Block(hs) == HeaderLine(hs[0]);
      assert HeaderLine(hs[0])[|Bare(hs[0])|..] == CRLF;
    }
  }

  /** A whole packet. */
  function Packet(line: Text, hs: seq<Header>, body: Text): (s: Text)
    ensures |s| == |line| + |Block(hs)| + 4 + |body|
  {
    (line + CRLF) + Block(hs) + (CRLF + body)
  }

  lemma {:induction false} LineBreakFound(line: Text, rest: Text)
    requires Find(line, CRLF, 0) == None
    ensures Find(line + CRLF + rest, CRLF, 0) == Some(|line|)
  {
    var s := line + CRLF + rest;
    assert s[|line|..|line| + 2] == CRLF;
    CharsOfBreak(s, |line|);
    forall i: nat | i < |line|
      ensures !OccursAt(s, CRLF, i)
    {
      if OccursAt(s, CRLF, i) {
        CharsOfBreak(s, i);
        if i + 2 <= |line| {
          assert line[i..i + 2] == s[i..i + 2];
          assert OccursAt(line, CRLF, i);
          FoundIsFirst(line, CRLF, 0);
        }
      }
    }
    FirstIsFound(s, CRLF, 0, |line|);
  }

  lemma {:induction false} BlankFound(pre: Text, hs: seq<Header>, body: Text)
    requires hs != [] && forall j :: 0 <= j < |hs| ==> Clean(hs[j])
    ensures |Block(hs)| >= 4
    ensures Find(pre + Block(hs) + (CRLF + body), BLANK_LINE, |pre|) == Some(|pre| + |Block(hs)| - 2)
  {
    var s := pre + Block(hs) + (CRLF + body);
    BlockEndsInBreak(hs);
    var e := |pre| + |Block(hs)| - 2;
    EndOfBlock(pre, Block(hs), body);
    forall i: nat | |pre| <= i < e
      ensures !OccursAt(s, BLANK_LINE, i)
    {
      NoBlankInside(pre, hs, CRLF + body, i);
    }
    FirstIsFound(s, BLANK_LINE, |pre|, e);
  }

  lemma {:induction false} EndOfBlock(pre: Text, block: Text, body: Text)
    requires |block| >= 2 && OccursAt(block, CRLF, |block| - 2)
    ensures OccursAt(pre + block + (CRLF + body), BLANK_LINE, |pre| + |block| - 2)
  {
    var s := pre + block + (CRLF + body);
    var e := |pre| + |block| - 2;
    assert s[e..e + 4] == block[|block| - 2..] + CRLF;
  }

  /** The parts of a printed packet are where the parser cuts. */
  lemma {:induction false} PrintedHead(line: Text, hs: seq<Header>, body: Text)
    requires Find(line, CRLF, 0) == None
    requires hs != [] && forall j :: 0 <= j < |hs| ==> Clean(hs[j])
    ensures FindHead(Packet(line, hs, body)) == Some(Head(|line|, |line| + |Block(hs)|))
  {
    PacketFromLine(line, Block(hs), body);
    LineBreakFound(line, Block(hs) + (CRLF + body));
    BlankFound(line + CRLF, hs, body);
  }

  lemma {:induction false} PacketFromLine(line: Text, block: Text, body: Text)
    ensures (line + CRLF) + block + (CRLF + body) == line + CRLF + (block + (CRLF + body))
  {
  }

  lemma {:induction false} PrintedParts(line: Text, block: Text, body: Text)
    ensures var s := (line + CRLF) + block + (CRLF + body);
            && s[..|line|] == line
            && s[|line| + 2..|line| + |block| + 2] == block
            && s[|line| + |block| + 4..] == body
  {
  }

  /** A packet whose head is found is decided by its parts. */
  lemma {:induction false} DecidedByParts(packet: Text, head: Head, r: Request, parsers: Parsers, m: Headers,
                                          length: int)
    requires FindHead(packet) == Some(head) && r == CutAt(packet, head, r.kind)
    requires parsers.startLine(r.line) == Some(r.kind)
    requires ParseFrom(r.headers, 0, map[]) == m && parsers.contentLength(r.kind, m) == Some(length)
    requires r.kind == POST ==> |r.body| == length % WORD64
    ensures Parse(packet, parsers) == Accepted(r)
  {
    assert |r.body| == |packet| - (head.blank + 4);
  }

  lemma {:induction false} CutOfPrinted(line: Text, hs: seq<Header>, body: Text, kind: Kind)
    requires |Block(hs)| >= 2
    ensures Fits(Head(|line|, |line| + |Block(hs)|), Packet(line, hs, body))
    ensures CutAt(Packet(line, hs, body), Head(|line|, |line| + |Block(hs)|), kind) ==
              Request(kind, line, Block(hs), body, |Packet(line, hs, body)|)
  {
    PrintedParts(line, Block(hs), body);
  }

  lemma {:induction false} PrintedIsAccepted(packet: Text, line: Text, m: Headers, hs: seq<Header>, body: Text,
                                             parsers: Parsers, kind: Kind, length: int)
    requires packet == Packet(line, hs, body) && |Block(hs)| >= 2
    requires FindHead(packet) == Some(Head(|line|, |line| + |Block(hs)|))
    requires parsers.startLine(line) == Some(kind) && parsers.contentLength(kind, m) == Some(length)
    requires ParseFrom(Block(hs), 0, map[]) == m
    requires kind == POST ==> |body| == length % WORD64
    ensures Parse(packet, parsers) == Accepted(Request(kind, line, Block(hs), body, |packet|))
  {
    CutOfPrinted(line, hs, body, kind);
    DecidedByParts(packet, Head(|line|, |line| + |Block(hs)|), Request(kind, line, Block(hs), body, |packet|),
                   parsers, m, length);
  }

  /** With headers, a packet printed from its parts is accepted with the same parts. */
  lemma {:induction false} PrintedWithHeaders(line: Text, m: Headers, hs: seq<Header>, body: Text, parsers: Parsers,
                                              kind: Kind, length: int)
    requires Find(line, CRLF, 0) == None && parsers.startLine(line) == Some(kind)
    requires hs != [] && Enumerates(hs, m) && forall j :: 0 <= j < |hs| ==> Clean(hs[j])
    requires parsers.contentLength(kind, m) == Some(length)
    requires kind == POST ==> |body| == length % WORD64
    ensures Parse(Packet(line, hs, body), parsers) ==
              Accepted(Request(kind, line, Block(hs), body, |Packet(line, hs, body)|))
    ensures ParseFrom(Block(hs), 0, map[]) == m
  {
    HeaderRoundTrip(m, hs);
    BlockEndsInBreak(hs);
    PrintedHead(line, hs, body);
    PrintedIsAccepted(Packet(line, hs, body), line, m, hs, body, parsers, kind, length);
  }

  // ---- Without headers ----

  /** A blank line after the first break of a packet without headers is one after that break's own second half. */
  lemma {:induction false} ShiftedOccurrence(pre: Text, rest: Text, pat: Text, i: nat)
    ensures OccursAt(pre + rest, pat, |pre| + i) <==> OccursAt(rest, pat, i)
  {
    if i + |pat| <= |rest| {
      assert (pre + rest)[|pre| + i..|pre| + i + |pat|] == rest[i..i + |pat|];
    }
  }

  lemma {:induction false} ShiftedFind(pre: Text, rest: Text, pat: Text)
    ensures Find(pre + rest, pat, |pre|) ==
              match Find(rest, pat, 0) case None => None case Some(b) => Some(|pre| + b)
  {
    FoundIsFirst(rest, pat, 0);
    FoundIsFirst(pre + rest, pat, |pre|);
    var r, q := Find(rest, pat, 0), Find(pre + rest, pat, |pre|);
    if r.Some? {
      ShiftedOccurrence(pre, rest, pat, r.value);
    }
    if q.Some? {
      ShiftedOccurrence(pre, rest, pat, q.value - |pre|);
    }
  }

  lemma {:induction false} HeadAfterLine(line: Text, rest: Text)
    requires Find(line, CRLF, 0) == None
    ensures FindHead(line + CRLF + rest) ==
              match Find(rest, BLANK_LINE, 0) case None => None case Some(b) => Some(Head(|line|, |line| + 2 + b))
  {
    LineBreakFound(line, rest);
    ShiftedFind(line + CRLF, rest, BLANK_LINE);
  }

  /** Where the head of a packet without headers ends, if anywhere: at a blank line in the body, or across its start. */
  lemma {:induction false} HeadWithoutHeaders(line: Text, body: Text)
    requires Find(line, CRLF, 0) == None
    ensures FindHead(Packet(line, [], body)) ==
              match Find(CRLF + body, BLANK_LINE, 0)
              case None => None
              case Some(b) => Some(Head(|line|, |line| + 2 + b))
  {
    assert Packet(line, [], body) == line + CRLF + (CRLF + body);
    HeadAfterLine(line, CRLF + body);
  }

  /** A packet without headers is malformed, or cut where its body has a blank line: never into its own parts. */
  lemma {:induction false} PrintedWithoutHeaders(line: Text, body: Text, parsers: Parsers, r: Request)
    requires Find(line, CRLF, 0) == None
    ensures Find(CRLF + body, BLANK_LINE, 0) == None ==> Parse(Packet(line, [], body), parsers) == BadRequest
    ensures Parse(Packet(line, [], body), parsers) == Accepted(r) ==> |r.body| < |body|
  {
    HeadWithoutHeaders(line, body);
    var packet := Packet(line, [], body);
    if Parse(packet, parsers) == Accepted(r) {
      AcceptedIsCut(packet, parsers, r);
      assert |r.body| == |packet| - (FindHead(packet).value.blank + 4);
    }
  }

  /**
   * A packet printed from its parts is cut back into exactly these parts if and only if it has a header: the blank line
   * is searched behind the first line break, where a packet without headers has only half of it.
   */
  lemma {:induction false} PrintedIsParsed(line: Text, m: Headers, hs: seq<Header>, body: Text, parsers: Parsers,
                                           kind: Kind, length: int)
    requires Find(line, CRLF, 0) == None && parsers.startLine(line) == Some(kind)
    requires Enumerates(hs, m) && forall j :: 0 <= j < |hs| ==> Clean(hs[j])
    requires parsers.contentLength(kind, m) == Some(length)
    requires kind == POST ==> |body| == length % WORD64
    ensures hs != [] <==> Parse(Packet(line, hs, body), parsers) ==
                          Accepted(Request(kind, line, Block(hs), body, |Packet(line, hs, body)|))
    ensures ParseFrom(Block(hs), 0, map[]) == m
  {
    if hs == [] {
      HeaderRoundTrip(m, hs);
      PrintedWithoutHeaders(line, body, parsers, Request(kind, line, Block(hs), body, |Packet(line, hs, body)|));
    } else {
      PrintedWithHeaders(line, m, hs, body, parsers, kind, length);
    }
  }

  /** For example, a request line and a blank line, and nothing else. */
  lemma {:induction false} NoHeadersNoBody(parsers: Parsers)
    ensures Parse(Packet("GET / HTTP/1.1", [], []), parsers) == BadRequest
    ensures Packet("GET / HTTP/1.1", [], []) == "GET / HTTP/1.1\r\n\r\n"
  {
    NoBreakWithoutReturn("GET / HTTP/1.1");
    PrintedWithoutHeaders("GET / HTTP/1.1", [], parsers, Request(GET, [], [], [], 0));
  }

  lemma {:induction false} NoBreakWithoutReturn(line: Text)
    requires '\r' !in line
    ensures Find(line, CRLF, 0) == None
  {
    FoundIsFirst(line, CRLF, 0);
    if Find(line, CRLF, 0).Some? {
      CharsOfBreak(line, Find(line, CRLF, 0).value);
    }
  }

  /** And one whose body begins with a line break: the break is taken for the end of the head. */
  lemma {:induction false} BodyTakenForHeaders(line: Text, rest: Text)
    requires Find(line, CRLF, 0) == None
    ensures FindHead(Packet(line, [], CRLF + rest)) == Some(Head(|line|, |line| + 2))
  {
    HeadWithoutHeaders(line, CRLF + rest);
    var s := CRLF + (CRLF + rest);
    assert s[0..4] == BLANK_LINE;
    FirstIsFound(s, BLANK_LINE, 0, 0);
  }
}
