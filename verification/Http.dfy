/** Framing of HTTP requests, and the header block as it is printed and parsed. */
module Http {
  import opened Common

  type Text = seq<char>
  type Headers = map<Text, Text>

  const CRLF: Text := ['\r', '\n']
  const BLANK_LINE: Text := ['\r', '\n', '\r', '\n']

  // ---- Searching ----

  predicate OccursAt(s: Text, pat: Text, i: int) {
    0 <= i && i + |pat| <= |s| && s[i..i + |pat|] == pat
  }

  /** The first occurrence of pat at or after `from`. */
  function Find(s: Text, pat: Text, from: nat): (r: Option<nat>)
    ensures r.Some? ==> from <= r.value && r.value + |pat| <= |s|
    decreases |s| - from
  {
    if from + |pat| > |s| then None
    else if OccursAt(s, pat, from) then Some(from)
    else Find(s, pat, from + 1)
  }

  /** What is found is an occurrence, and no occurrence comes before it. */
  lemma {:induction false} FoundIsFirst(s: Text, pat: Text, from: nat)
    ensures Find(s, pat, from).Some? ==> OccursAt(s, pat, Find(s, pat, from).value)
    ensures forall i :: from <= i && OccursAt(s, pat, i) ==>
              Find(s, pat, from).Some? && Find(s, pat, from).value <= i
    decreases |s| - from
  {
    if from + |pat| <= |s| && !OccursAt(s, pat, from) {
      FoundIsFirst(s, pat, from + 1);
    }
  }

  lemma {:induction false} FirstIsFound(s: Text, pat: Text, from: nat, e: nat)
    requires from <= e && OccursAt(s, pat, e)
    requires forall i :: from <= i < e ==> !OccursAt(s, pat, i)
    ensures Find(s, pat, from) == Some(e)
  {
    FoundIsFirst(s, pat, from);
  }

  lemma {:induction false} OccursInPrefix(s: Text, p: Text, pat: Text, i: int)
    requires p <= s
    ensures OccursAt(p, pat, i) <==> OccursAt(s, pat, i) && i + |pat| <= |p|
  {
    if 0 <= i && i + |pat| <= |p| {
      assert p == s[..|p|];
      assert p[i..i + |pat|] == s[i..i + |pat|];
    }
  }

  /** A prefix long enough to hold the first occurrence has the same first occurrence. */
  lemma {:induction false} FindInPrefix(s: Text, p: Text, pat: Text, from: nat)
    requires p <= s && Find(s, pat, from).Some? && Find(s, pat, from).value + |pat| <= |p|
    ensures Find(p, pat, from) == Find(s, pat, from)
  {
    FoundIsFirst(s, pat, from);
    FoundIsFirst(p, pat, from);
    OccursInPrefix(s, p, pat, Find(s, pat, from).value);
    OccursInPrefix(s, p, pat, Find(p, pat, from).value);
  }

  /** Without its end, the first occurrence is not found in a prefix. */
  lemma {:induction false} NotInShorterPrefix(s: Text, p: Text, pat: Text, from: nat)
    requires p <= s && (Find(s, pat, from).Some? ==> |p| < Find(s, pat, from).value + |pat|)
    ensures Find(p, pat, from) == None
  {
    FoundIsFirst(s, pat, from);
    FoundIsFirst(p, pat, from);
    if Find(p, pat, from).Some? {
      OccursInPrefix(s, p, pat, Find(p, pat, from).value);
    }
  }

  // ---- Trimming ----

  /** s without its outer spaces. */
  function Trim(s: Text): (r: Text)
    decreases |s|
  {
    if s == [] then []
    else if s[0] == ' ' then Trim(s[1..])
    else if s[|s| - 1] == ' ' then Trim(s[..|s| - 1])
    else s
  }

  /** The trimmed slice is maximal: only spaces are cut off, and none is left at its ends. */
  lemma {:induction false} TrimIsMaximal(s: Text) returns (a: nat, b: nat)
    ensures a <= b <= |s| && Trim(s) == s[a..b]
    ensures forall i :: 0 <= i < a || b <= i < |s| ==> s[i] == ' '
    ensures a < b ==> s[a] != ' ' && s[b - 1] != ' '
    decreases |s|
  {
    if s == [] {
      a, b := 0, 0;
    } else if s[0] == ' ' {
      a, b := TrimIsMaximal(s[1..]);
      a, b := a + 1, b + 1;
    } else if s[|s| - 1] == ' ' {
      a, b := TrimIsMaximal(s[..|s| - 1]);
    } else {
      a, b := 0, |s|;
      assert s[0..|s|] == s;
    }
  }

  /** Cutting a space off either end does not change the trimmed text. */
  lemma {:induction false} TrimCut(s: Text)
    requires s != []
    ensures s[0] == ' ' ==> Trim(s) == Trim(s[1..])
    ensures s[|s| - 1] == ' ' ==> Trim(s) == Trim(s[..|s| - 1])
    decreases |s|
  {
    if s[0] == ' ' && s[|s| - 1] == ' ' && |s| > 1 {
      TrimCut(s[1..]);
      assert s[1..][..|s| - 2] == s[..|s| - 1][1..];
    }
  }

  lemma {:induction false} CutFront(str: Text, start: nat, end: nat)
    requires start < end <= |str| && str[start] == ' '
    ensures Trim(str[start..end]) == Trim(str[start + 1..end])
  {
    TrimCut(str[start..end]);
    assert str[start..end][1..] == str[start + 1..end];
  }

  lemma {:induction false} CutBack(str: Text, start: nat, end: nat)
    requires start < end <= |str| && str[end - 1] == ' '
    ensures Trim(str[start..end]) == Trim(str[start..end - 1])
  {
    TrimCut(str[start..end]);
    assert str[start..end][..end - start - 1] == str[start..end - 1];
  }

  /** Moves both ends inwards over spaces, as far as each goes. */
  method Strip(str: Text) returns (r: Text)
    ensures r == Trim(str)
  {
    if str == [] {
      return [];
    }
    var start, end := 0, |str|;
    assert str[start..end] == str;
    while start < end
      invariant 0 <= start <= |str| && 0 <= end <= |str|
      invariant Trim(str) == if start <= end then Trim(str[start..end]) else []
      decreases end - start
    {
      if str[start] != ' ' && str[end - 1] != ' ' {
        break;
      }
      if str[start] == ' ' {
        CutFront(str, start, end);
        start := start + 1;
      }
      if str[end - 1] == ' ' {
        if start < end {
          CutBack(str, start, end);
        }
        end := end - 1;
      }
    }
    if start >= end {
      return [];
    }
    return str[start..end];
  }

  // ---- The header block ----

  datatype Header = Header(key: Text, value: Text)

  function Bare(h: Header): (t: Text)
    ensures |t| == |h.key| + 2 + |h.value|
  {
    h.key + [':', ' '] + h.value
  }

  /** One printed header line. */
  function HeaderLine(h: Header): (t: Text)
    ensures |t| == |h.key| + 4 + |h.value|
  {
    Bare(h) + CRLF
  }

  function Block(hs: seq<Header>): Text {
    if hs == [] then [] else HeaderLine(hs[0]) + Block(hs[1..])
  }

  lemma {:induction false} BlockSnoc(hs: seq<Header>, h: Header)
    ensures Block(hs + [h]) == Block(hs) + HeaderLine(h)
  {
    if hs == [] {
      assert (hs + [h])[1..] == [];
    } else {
      BlockSnoc(hs[1..], h);
      assert (hs + [h])[1..] == hs[1..] + [h];
      assert HeaderLine(hs[0]) + (Block(hs[1..]) + HeaderLine(h)) ==
             (HeaderLine(hs[0]) + Block(hs[1..])) + HeaderLine(h);
    }
  }

  lemma {:induction false} RegroupLine(a: Text, h: Header)
    ensures a + h.key + [':', ' '] + h.value + CRLF == a + HeaderLine(h)
  {
  }

  /** Appends the header lines in the order in which the map is enumerated. */
  method PrintHeaders(buffer: Text, headers: seq<Header>) returns (r: Text)
    ensures r == buffer + Block(headers) + CRLF
  {
    r := buffer;
    var i := 0;
    while i < |headers|
      invariant 0 <= i <= |headers| && r == buffer + Block(headers[..i])
    {
      BlockSnoc(headers[..i], headers[i]);
      assert headers[..i + 1] == headers[..i] + [headers[i]];
      r := r + headers[i].key + [':', ' '] + headers[i].value + CRLF;
      RegroupLine(buffer + Block(headers[..i]), headers[i]);
      i := i + 1;
    }
    assert headers[..i] == headers;
    r := r + CRLF;
  }

  /** What one line adds: the text before the first colon is the key, unless it is there already. */
  function AddLine(line: Text, acc: Headers): Headers {
    match Find(line, [':'], 0)
    case None => acc
    case Some(d) => if line[..d] in acc then acc else acc[line[..d] := Trim(line[d + 1..])]
  }

  /** The headers of the lines of a block from position `start` on, added to those found before. */
  function ParseFrom(block: Text, start: nat, acc: Headers): Headers
    requires start <= |block|
    decreases |block| - start
  {
    match Find(block, CRLF, start)
    case None => acc
    case Some(end) => ParseFrom(block, end + 2, AddLine(block[start..end], acc))
  }

  lemma {:induction false} ParseStep(block: Text, start: nat, acc: Headers, end: nat)
    requires start <= |block| && Find(block, CRLF, start) == Some(end)
    ensures ParseFrom(block, start, acc) == ParseFrom(block, end + 2, AddLine(block[start..end], acc))
  {
  }

  /** The header loop of the parser. */
  method ParseHeaders(block: Text) returns (headers: Headers)
    ensures headers == ParseFrom(block, 0, map[])
  {
    headers := map[];
    if block == [] {
      return;
    }
    var start := 0;
    var end := Find(block, CRLF, start);
    while end.Some?
      invariant start <= |block| && end == Find(block, CRLF, start)
      invariant ParseFrom(block, 0, map[]) == ParseFrom(block, start, headers)
      decreases |block| - start
    {
      ParseStep(block, start, headers, end.value);
      var current := block[start..end.value];
      var delim := Find(current, [':'], 0);
      if delim.Some? {
        var key := current[..delim.value];
        var value := current[delim.value + 1..];
        value := Strip(value);
        if key !in headers {
          headers := headers[key := value];
        }
      }
      start := end.value + 2;
      end := Find(block, CRLF, start);
    }
  }

  /** A header that survives the trip: no colon in the key, no line break inside, no outer spaces on the value. */
  predicate Clean(h: Header) {
    && Find(h.key, [':'], 0) == None
    && Find(h.key, CRLF, 0) == None
    && Find(h.value, CRLF, 0) == None
    && Trim(h.value) == h.value
  }

  predicate DistinctKeys(hs: seq<Header>) {
    forall i, j :: 0 <= i < j < |hs| ==> hs[i].key != hs[j].key
  }

  /** The map the headers make up, added to acc. */
  function MapOf(hs: seq<Header>, acc: Headers): Headers {
    if hs == [] then acc else MapOf(hs[1..], acc[hs[0].key := hs[0].value])
  }

  /** A clean header line has no line break before its end. */
  lemma {:induction false} NoBreakInside(h: Header, i: nat)
    requires Clean(h) && i < |h.key| + 2 + |h.value|
    ensures !OccursAt(HeaderLine(h), CRLF, i)
  {
    var s := HeaderLine(h);
    var k := |h.key|;
    if OccursAt(s, CRLF, i) {
      assert s[i] == '\r' && s[i + 1] == '\n' by {
        assert s[i..i + 2][0] == s[i] && s[i..i + 2][1] == s[i + 1];
      }
      if i + 2 <= k {
        assert s[i..i + 2] == h.key[i..i + 2];
        assert OccursAt(h.key, CRLF, i);
        FoundIsFirst(h.key, CRLF, 0);
      } else if k + 2 <= i && i + 2 <= |s| - 2 {
        assert s[i..i + 2] == h.value[i - k - 2..i - k];
        assert OccursAt(h.value, CRLF, i - k - 2);
        FoundIsFirst(h.value, CRLF, 0);
      }
    }
  }

  lemma {:induction false} OccursInside(pre: Text, line: Text, rest: Text, i: nat)
    requires i + 2 <= |line|
    ensures OccursAt(pre + line + rest, CRLF, |pre| + i) <==> OccursAt(line, CRLF, i)
  {
    assert (pre + line + rest)[|pre| + i..|pre| + i + 2] == line[i..i + 2];
  }

  lemma {:induction false} NoBreakBefore(pre: Text, h: Header, rest: Text, i: nat)
    requires Clean(h) && |pre| <= i < |pre| + |h.key| + 2 + |h.value|
    ensures !OccursAt(pre + HeaderLine(h) + rest, CRLF, i)
  {
    OccursInside(pre, HeaderLine(h), rest, i - |pre|);
    NoBreakInside(h, i - |pre|);
  }

  lemma {:induction false} BreakAtEnd(pre: Text, h: Header, rest: Text)
    ensures OccursAt(pre + HeaderLine(h) + rest, CRLF, |pre| + |h.key| + 2 + |h.value|)
  {
    var n := |h.key| + 2 + |h.value|;
    OccursInside(pre, HeaderLine(h), rest, n);
    assert HeaderLine(h)[n..n + 2] == CRLF;
  }

  /** The line break that ends a clean header line is the first one in it. */
  lemma {:induction false} LineEnd(pre: Text, h: Header, rest: Text)
    requires Clean(h)
    ensures Find(pre + HeaderLine(h) + rest, CRLF, |pre|) == Some(|pre| + |h.key| + 2 + |h.value|)
  {
    BreakAtEnd(pre, h, rest);
    forall i | |pre| <= i < |pre| + |h.key| + 2 + |h.value|
      ensures !OccursAt(pre + HeaderLine(h) + rest, CRLF, i)
    {
      NoBreakBefore(pre, h, rest, i);
    }
    FirstIsFound(pre + HeaderLine(h) + rest, CRLF, |pre|, |pre| + |h.key| + 2 + |h.value|);
  }

  lemma {:induction false} ParseCleanLine(h: Header, acc: Headers)
    requires Clean(h) && h.key !in acc
    ensures AddLine(Bare(h), acc) == acc[h.key := h.value]
  {
    var line := Bare(h);
    var d := |h.key|;
    assert OccursAt(line, [':'], d);
    forall i | 0 <= i < d
      ensures !OccursAt(line, [':'], i)
    {
      assert line[i..i + 1] == h.key[i..i + 1];
      FoundIsFirst(h.key, [':'], 0);
      assert !OccursAt(h.key, [':'], i);
    }
    FirstIsFound(line, [':'], 0, d);
    assert line[..d] == h.key;
    assert line[d + 1..] == [' '] + h.value;
    TrimCut([' '] + h.value);
    assert ([' '] + h.value)[1..] == h.value;
  }

  lemma {:induction false} LineText(pre: Text, h: Header, rest: Text)
    ensures (pre + HeaderLine(h) + rest)[|pre|..|pre| + |Bare(h)|] == Bare(h)
  {
    assert pre + HeaderLine(h) + rest == pre + Bare(h) + (CRLF + rest);
  }

  lemma {:induction false} ParseLineAt(s: Text, start: nat, end: nat, h: Header, acc: Headers)
    requires Clean(h) && h.key !in acc
    requires start <= |s| && Find(s, CRLF, start) == Some(end) && s[start..end] == Bare(h)
    ensures ParseFrom(s, start, acc) == ParseFrom(s, end + 2, acc[h.key := h.value])
  {
    ParseCleanLine(h, acc);
    ParseStep(s, start, acc, end);
  }

  /** One printed line is parsed as one header. */
  lemma {:induction false} ParseOneLine(pre: Text, h: Header, rest: Text, acc: Headers)
    requires Clean(h) && h.key !in acc
    ensures ParseFrom(pre + HeaderLine(h) + rest, |pre|, acc) ==
            ParseFrom(pre + HeaderLine(h) + rest, |pre + HeaderLine(h)|, acc[h.key := h.value])
  {
    LineEnd(pre, h, rest);
    LineText(pre, h, rest);
    ParseLineAt(pre + HeaderLine(h) + rest, |pre|, |pre| + |Bare(h)|, h, acc);
  }

  lemma {:induction false} ParseEnd(block: Text, acc: Headers)
    ensures ParseFrom(block, |block|, acc) == acc
  {
  }

  lemma {:induction false} RestClean(hs: seq<Header>, acc: Headers)
    requires hs != [] && DistinctKeys(hs) && forall i :: 0 <= i < |hs| ==> Clean(hs[i]) && hs[i].key !in acc
    ensures DistinctKeys(hs[1..])
    ensures forall i :: 0 <= i < |hs[1..]| ==>
              Clean(hs[1..][i]) && hs[1..][i].key !in acc[hs[0].key := hs[0].value]
  {
  }

  /** Parsing a printed block gives back its headers, whatever was printed before it. */
  lemma {:induction false} ParsePrinted(pre: Text, hs: seq<Header>, acc: Headers)
    requires DistinctKeys(hs) && forall i :: 0 <= i < |hs| ==> Clean(hs[i]) && hs[i].key !in acc
    ensures ParseFrom(pre + Block(hs), |pre|, acc) == MapOf(hs, acc)
    decreases |hs|
  {
    if hs == [] {
      assert pre + Block(hs) == pre;
      ParseEnd(pre, acc);
    } else {
      RestClean(hs, acc);
      Regroup(pre, HeaderLine(hs[0]), Block(hs[1..]));
      ParseOneLine(pre, hs[0], Block(hs[1..]), acc);
      ParsePrinted(pre + HeaderLine(hs[0]), hs[1..], acc[hs[0].key := hs[0].value]);
    }
  }

  /** The map of headers with distinct keys holds exactly them, and what acc held otherwise. */
  lemma {:induction false} MapAfter(hs: seq<Header>, acc: Headers, k: Text)
    requires DistinctKeys(hs)
    ensures forall i :: 0 <= i < |hs| && hs[i].key == k ==> k in MapOf(hs, acc) && MapOf(hs, acc)[k] == hs[i].value
    ensures (forall i :: 0 <= i < |hs| ==> hs[i].key != k) ==>
              (k in MapOf(hs, acc) <==> k in acc) && (k in acc ==> MapOf(hs, acc)[k] == acc[k])
    decreases |hs|
  {
    if hs != [] {
      var rest := hs[1..];
      assert forall i :: 0 <= i < |rest| ==> rest[i] == hs[i + 1];
      MapAfter(rest, acc[hs[0].key := hs[0].value], k);
    }
  }

  /** hs enumerates the map m: every entry once, in some order. */
  ghost predicate Enumerates(hs: seq<Header>, m: Headers) {
    && DistinctKeys(hs)
    && (forall i :: 0 <= i < |hs| ==> hs[i].key in m && m[hs[i].key] == hs[i].value)
    && (forall k :: k in m ==> exists i :: 0 <= i < |hs| && hs[i].key == k)
  }

  /** Printing a map of clean headers in any order and parsing the block gives back the map. */
  lemma {:induction false} HeaderRoundTrip(m: Headers, hs: seq<Header>)
    requires Enumerates(hs, m) && forall i :: 0 <= i < |hs| ==> Clean(hs[i])
    ensures ParseFrom(Block(hs), 0, map[]) == m
  {
    ParsePrinted([], hs, map[]);
    assert [] + Block(hs) == Block(hs);
    var r := MapOf(hs, map[]);
    forall k
      ensures k in r <==> k in m
      ensures k in m ==> r[k] == m[k]
    {
      MapAfter(hs, map[], k);
    }
  }
}
