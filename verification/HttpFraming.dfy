/** How a request packet is cut into request line, header block and body. */
module HttpFraming {
  import opened Common
  import opened Http

  datatype Kind = GET | POST

  datatype Request = Request(kind: Kind, line: Text, headers: Text, body: Text, requestSize: nat)

  datatype Outcome = Accepted(request: Request) | BadRequest | PartialPacket

  /**
   * The parser of the request line, and of the content length in the parsed headers, are parameters:
   * None means the request is malformed, and a length of -1 that none was given.
   */
  datatype Parsers = Parsers(startLine: Text -> Option<Kind>, contentLength: (Kind, Headers) -> Option<int>)

  /** Where the request line and the header block end. */
  datatype Head = Head(lineEnd: nat, blank: nat)

  function FindHead(packet: Text): (r: Option<Head>)
    ensures r.Some? ==> r.value.lineEnd + 2 <= r.value.blank && r.value.blank + 4 <= |packet|
  {
    match Find(packet, CRLF, 0)
    case None => None
    case Some(lineEnd) =>
      match Find(packet, BLANK_LINE, lineEnd + 2)
      case None => None
      case Some(blank) => Some(Head(lineEnd, blank))
  }

  predicate Fits(head: Head, packet: Text) {
    head.lineEnd + 2 <= head.blank && head.blank + 4 <= |packet|
  }

  function CutAt(packet: Text, head: Head, kind: Kind): Request
    requires Fits(head, packet)
  {
    Request(kind, packet[..head.lineEnd], packet[head.lineEnd + 2..head.blank + 2], packet[head.blank + 4..], |packet|)
  }

  /** What becomes of a packet with its head in the given place. */
  function Decide(packet: Text, head: Head, parsers: Parsers): Outcome
    requires Fits(head, packet)
  {
    match parsers.startLine(packet[..head.lineEnd])
    case None => BadRequest
    case Some(kind) =>
      match parsers.contentLength(kind, ParseFrom(packet[head.lineEnd + 2..head.blank + 2], 0, map[]))
      case None => BadRequest
      case Some(length) =>
        if kind.POST? && |packet| - (head.blank + 4) != length % WORD64 then PartialPacket
        else Accepted(CutAt(packet, head, kind))
  }

  function Parse(packet: Text, parsers: Parsers): Outcome {
    match FindHead(packet)
    case None => BadRequest
    case Some(head) => Decide(packet, head, parsers)
  }

  // ---- The outcomes, told from what is found in the packet ----

  /** There is a line break, and a blank line somewhere after it. */
  predicate Headed(packet: Text) {
    Find(packet, CRLF, 0).Some? && Find(packet, BLANK_LINE, Find(packet, CRLF, 0).value + 2).Some?
  }

  function LineOf(packet: Text): Text
    requires Headed(packet)
  {
    packet[..Find(packet, CRLF, 0).value]
  }

  /** The headers of the lines between the first line break and the blank line. */
  function HeadersOf(packet: Text): Headers
    requires Headed(packet)
  {
    var start := Find(packet, CRLF, 0).value + 2;
    ParseFrom(packet[start..Find(packet, BLANK_LINE, start).value + 2], 0, map[])
  }

  function BodyOf(packet: Text): Text
    requires Headed(packet)
  {
    packet[Find(packet, BLANK_LINE, Find(packet, CRLF, 0).value + 2).value + 4..]
  }

  /** One of the two breaks, the request line or the content length is missing or refused. */
  predicate Malformed(packet: Text, parsers: Parsers) {
    || !Headed(packet)
    || parsers.startLine(LineOf(packet)).None?
    || parsers.contentLength(parsers.startLine(LineOf(packet)).value, HeadersOf(packet)).None?
  }

  /** A POST whose body does not have the announced length, in 64 bits. */
  predicate Incomplete(packet: Text, parsers: Parsers) {
    && Headed(packet)
    && parsers.startLine(LineOf(packet)) == Some(POST)
    && parsers.contentLength(POST, HeadersOf(packet)).Some?
    && |BodyOf(packet)| != parsers.contentLength(POST, HeadersOf(packet)).value % WORD64
  }

  lemma {:induction false} OutcomeIff(packet: Text, parsers: Parsers)
    ensures Parse(packet, parsers) == BadRequest <==> Malformed(packet, parsers)
    ensures Parse(packet, parsers) == PartialPacket <==> Incomplete(packet, parsers)
    ensures Parse(packet, parsers).Accepted? ==>
              var r := Parse(packet, parsers).request;
              Headed(packet) && r.line == LineOf(packet) && r.body == BodyOf(packet)
              && parsers.startLine(r.line) == Some(r.kind) && r.requestSize == |packet|
  {
    if Headed(packet) {
      var head := FindHead(packet).value;
      assert |BodyOf(packet)| == |packet| - (head.blank + 4);
      assert HeadersOf(packet) == ParseFrom(packet[head.lineEnd + 2..head.blank + 2], 0, map[]);
    }
  }

  /** The request line and the search for the blank line. */
  method CutHead(packet: Text, parsers: Parsers) returns (r: Option<(Kind, Head)>)
    ensures r.None? ==> Parse(packet, parsers) == BadRequest
    ensures r.Some? ==>
              FindHead(packet) == Some(r.value.1) && parsers.startLine(packet[..r.value.1.lineEnd]) == Some(r.value.0)
  {
    var end := Find(packet, CRLF, 0);
    if end.None? {
      return None;
    }
    var line := packet[..end.value];
    var kind := parsers.startLine(line);
    if kind.None? {
      return None;
    }
    var start := end.value + 2;
    var blank := Find(packet, BLANK_LINE, start);
    if blank.None? {
      return None;
    }
    return Some((kind.value, Head(end.value, blank.value)));
  }

  /** The steps of parseHttpRequest, each cutting where the one before it stopped. */
  method ParseHttpRequest(packet: Text, parsers: Parsers) returns (r: Outcome)
    ensures r == Parse(packet, parsers)
    ensures r.BadRequest? <==> Malformed(packet, parsers)
    ensures r.PartialPacket? <==> Incomplete(packet, parsers)
  {
    OutcomeIff(packet, parsers);
    var found := CutHead(packet, parsers);
    if found.None? {
      return BadRequest;
    }
    var kind, head := found.value.0, found.value.1;
    var stop := head.blank + 2;
    var headers := packet[head.lineEnd + 2..stop];
    var parsed := ParseHeaders(headers);
    var length := parsers.contentLength(kind, parsed);
    if length.None? {
      return BadRequest;
    }
    var start := stop + 2;
    if !kind.GET? && |packet| - start != length.value % WORD64 {
      return PartialPacket;
    }
    return Accepted(Request(kind, packet[..head.lineEnd], headers, packet[start..], |packet|));
  }

  // ---- What an accepted packet looks like ----

  lemma {:induction false} Pieces(s: Text, a: nat, b: nat)
    requires a + 2 <= b && b + 4 <= |s|
    requires s[a..a + 2] == CRLF && s[b + 2..b + 4] == CRLF
    ensures s == s[..a] + CRLF + s[a + 2..b + 2] + CRLF + s[b + 4..]
  {
    assert s == s[..a] + s[a..a + 2] + s[a + 2..b + 2] + s[b + 2..b + 4] + s[b + 4..];
  }

  lemma {:induction false} BlankIsTwoBreaks(s: Text, b: nat)
    requires OccursAt(s, BLANK_LINE, b)
    ensures s[b..b + 2] == CRLF && s[b + 2..b + 4] == CRLF
  {
    assert s[b..b + 4][..2] == s[b..b + 2] && s[b..b + 4][2..] == s[b + 2..b + 4];
  }

  lemma {:induction false} LineHasNoBreak(packet: Text, e: nat)
    requires Find(packet, CRLF, 0) == Some(e)
    ensures Find(packet[..e], CRLF, 0) == None
  {
    NotInShorterPrefix(packet, packet[..e], CRLF, 0);
  }

  lemma {:induction false} HeadersEndInBreak(s: Text, a: nat, b: nat)
    requires a <= b && b + 2 <= |s| && s[b..b + 2] == CRLF
    ensures OccursAt(s[a..b + 2], CRLF, b - a)
  {
    assert s[a..b + 2][b - a..b - a + 2] == s[b..b + 2];
  }

  lemma {:induction false} HeadBreaks(packet: Text, e: nat, b: nat)
    requires e + 2 <= b && OccursAt(packet, CRLF, e) && OccursAt(packet, BLANK_LINE, b)
    ensures packet == packet[..e] + CRLF + packet[e + 2..b + 2] + CRLF + packet[b + 4..]
    ensures OccursAt(packet[e + 2..b + 2], CRLF, b - (e + 2))
  {
    BlankIsTwoBreaks(packet, b);
    Pieces(packet, e, b);
    HeadersEndInBreak(packet, e + 2, b);
  }

  lemma {:induction false} HeadOccurs(packet: Text)
    requires FindHead(packet).Some?
    ensures OccursAt(packet, CRLF, FindHead(packet).value.lineEnd)
    ensures OccursAt(packet, BLANK_LINE, FindHead(packet).value.blank)
  {
    FoundIsFirst(packet, CRLF, 0);
    FoundIsFirst(packet, BLANK_LINE, FindHead(packet).value.lineEnd + 2);
  }

  lemma {:induction false} CutIsWhole(packet: Text, head: Head, kind: Kind)
    requires Fits(head, packet) && OccursAt(packet, CRLF, head.lineEnd) && OccursAt(packet, BLANK_LINE, head.blank)
    ensures var r := CutAt(packet, head, kind);
            packet == r.line + CRLF + r.headers + CRLF + r.body && OccursAt(r.headers, CRLF, |r.headers| - 2)
  {
    HeadBreaks(packet, head.lineEnd, head.blank);
  }

  lemma {:induction false} AcceptedIsCut(packet: Text, parsers: Parsers, r: Request)
    requires Parse(packet, parsers) == Accepted(r)
    ensures FindHead(packet).Some? && r == CutAt(packet, FindHead(packet).value, r.kind)
  {
  }

  /**
   * An accepted packet is its line, header block and body with the line breaks between them, and nothing else;
   * the line holds no line break, and the header block ends in one.
   */
  lemma {:induction false} AcceptedIsWhole(packet: Text, parsers: Parsers, r: Request)
    requires Parse(packet, parsers) == Accepted(r)
    ensures packet == r.line + CRLF + r.headers + CRLF + r.body && r.requestSize == |packet|
    ensures Find(r.line, CRLF, 0) == None && OccursAt(r.headers, CRLF, |r.headers| - 2)
  {
    AcceptedIsCut(packet, parsers, r);
    HeadOccurs(packet);
    CutIsWhole(packet, FindHead(packet).value, r.kind);
    LineHasNoBreak(packet, FindHead(packet).value.lineEnd);
  }

  /** The request line of an accepted packet was understood, and the body of a POST has the announced length. */
  lemma {:induction false} AcceptedBody(packet: Text, parsers: Parsers, r: Request)
    requires Parse(packet, parsers) == Accepted(r)
    ensures parsers.startLine(r.line) == Some(r.kind)
    ensures var length := parsers.contentLength(r.kind, ParseFrom(r.headers, 0, map[]));
            length.Some? && (r.kind == POST ==> |r.body| == length.value % WORD64)
  {
    AcceptedIsCut(packet, parsers, r);
    var head := FindHead(packet).value;
    assert |packet[head.blank + 4..]| == |packet| - (head.blank + 4);
  }

  // ---- Prefixes and extensions of a packet ----

  /** Where the body of a request starts in its packet. */
  function HeadSize(r: Request): nat {
    |r.line| + 2 + |r.headers| + 2
  }

  lemma {:induction false} FindInExtension(longer: Text, shorter: Text, pat: Text, from: nat)
    requires shorter <= longer && Find(shorter, pat, from).Some?
    ensures Find(longer, pat, from) == Find(shorter, pat, from)
  {
    FoundIsFirst(shorter, pat, from);
    FoundIsFirst(longer, pat, from);
    OccursInPrefix(longer, shorter, pat, Find(shorter, pat, from).value);
    OccursInPrefix(longer, shorter, pat, Find(longer, pat, from).value);
  }

  /** More bytes after the head leave it where it is. */
  lemma {:induction false} HeadInExtension(longer: Text, shorter: Text)
    requires shorter <= longer && FindHead(shorter).Some?
    ensures FindHead(longer) == FindHead(shorter)
  {
    FindInExtension(longer, shorter, CRLF, 0);
    FindInExtension(longer, shorter, BLANK_LINE, FindHead(shorter).value.lineEnd + 2);
  }

  /** A prefix has the head of the packet if it holds all of it, and none otherwise. */
  lemma {:induction false} HeadInPrefix(packet: Text, other: Text)
    requires other <= packet && FindHead(packet).Some?
    ensures FindHead(other) == if FindHead(packet).value.blank + 4 <= |other| then FindHead(packet) else None
  {
    var h := FindHead(packet).value;
    if h.lineEnd + 2 <= |other| {
      FindInPrefix(packet, other, CRLF, 0);
      if h.blank + 4 <= |other| {
        FindInPrefix(packet, other, BLANK_LINE, h.lineEnd + 2);
      } else {
        NotInShorterPrefix(packet, other, BLANK_LINE, h.lineEnd + 2);
      }
    } else {
      NotInShorterPrefix(packet, other, CRLF, 0);
    }
  }

  /** Packets that share their head share everything that is decided from it. */
  lemma {:induction false} SameHead(longer: Text, shorter: Text, head: Head)
    requires shorter <= longer && Fits(head, shorter)
    ensures longer[..head.lineEnd] == shorter[..head.lineEnd]
    ensures longer[head.lineEnd + 2..head.blank + 2] == shorter[head.lineEnd + 2..head.blank + 2]
  {
    assert shorter == longer[..|shorter|];
  }

  lemma {:induction false} PostAtOtherLength(packet: Text, other: Text, head: Head, parsers: Parsers)
    requires Fits(head, packet) && Fits(head, other) && (packet <= other || other <= packet)
    requires |packet| != |other|
    requires Decide(packet, head, parsers).Accepted? && Decide(packet, head, parsers).request.kind == POST
    ensures Decide(other, head, parsers) == PartialPacket
  {
    if packet <= other {
      SameHead(other, packet, head);
    } else {
      SameHead(packet, other, head);
    }
  }

  /**
   * For an accepted POST, a proper prefix is incomplete if it contains the whole head, with the same line and headers,
   * and malformed otherwise; and a packet that goes on after the body is taken for an incomplete one, since the length
   * must match.
   */
  lemma {:induction false} PostPrefixes(packet: Text, parsers: Parsers, r: Request, other: Text)
    requires Parse(packet, parsers) == Accepted(r) && r.kind == POST
    requires |other| != |packet| && (other <= packet || packet <= other)
    ensures HeadSize(r) <= |other| ==>
              && Parse(other, parsers) == PartialPacket
              && FindHead(other) == FindHead(packet) == Some(Head(|r.line|, HeadSize(r) - 4))
              && CutAt(other, Head(|r.line|, HeadSize(r) - 4), POST).line == r.line
              && CutAt(other, Head(|r.line|, HeadSize(r) - 4), POST).headers == r.headers
    ensures |other| < HeadSize(r) ==> Parse(other, parsers) == BadRequest && FindHead(other) == None
  {
    AcceptedIsCut(packet, parsers, r);
    var head := FindHead(packet).value;
    assert HeadSize(r) == head.blank + 4 && |r.line| == head.lineEnd;
    if other <= packet {
      HeadInPrefix(packet, other);
    } else {
      HeadInExtension(other, packet);
    }
    if head.blank + 4 <= |other| {
      PostAtOtherLength(packet, other, head, parsers);
      if other <= packet {
        SameHead(packet, other, head);
      } else {
        SameHead(other, packet, head);
      }
    }
  }

  lemma {:induction false} GetAtOtherLength(packet: Text, rest: Text, head: Head, parsers: Parsers)
    requires Fits(head, packet)
    requires Decide(packet, head, parsers).Accepted? && Decide(packet, head, parsers).request.kind == GET
    ensures Decide(packet + rest, head, parsers) == Accepted(CutAt(packet + rest, head, GET))
  {
    SameHead(packet + rest, packet, head);
  }

  /** A GET is accepted with whatever follows its head as its body, a second request included. */
  lemma {:induction false} GetTakesEverything(packet: Text, parsers: Parsers, rest: Text)
    requires Parse(packet, parsers).Accepted? && Parse(packet, parsers).request.kind == GET
    ensures var r := Parse(packet, parsers).request;
            Parse(packet + rest, parsers) ==
              Accepted(r.(body := r.body + rest, requestSize := |packet| + |rest|))
  {
    AcceptedIsCut(packet, parsers, Parse(packet, parsers).request);
    var head := FindHead(packet).value;
    HeadInExtension(packet + rest, packet);
    GetAtOtherLength(packet, rest, head, parsers);
    SameHead(packet + rest, packet, head);
    assert (packet + rest)[head.blank + 4..] == packet[head.blank + 4..] + rest;
  }
}
