/** What the header parser can return, and with it the exact condition of the round trip. */
module HttpClean {
  import opened Common
  import opened Http

  lemma {:induction false} SliceOfSlice(s: Text, a: nat, b: nat, c: nat, d: nat)
    requires a <= b <= |s| && c <= d <= b - a
    ensures s[a..b][c..d] == s[a + c..a + d]
  {
    forall k | 0 <= k < d - c
      ensures s[a..b][c..d][k] == s[a + c..a + d][k]
    {
      assert s[a..b][c + k] == s[a + (c + k)];
    }
  }

  lemma {:induction false} NoneInside(s: Text, pat: Text, a: nat, b: nat)
    requires Find(s, pat, 0) == None && a <= b <= |s|
    ensures Find(s[a..b], pat, 0) == None
  {
    var r := Find(s[a..b], pat, 0);
    FoundIsFirst(s[a..b], pat, 0);
    if r.Some? {
      SliceOfSlice(s, a, b, r.value, r.value + |pat|);
      assert OccursAt(s, pat, a + r.value);
      FoundIsFirst(s, pat, 0);
    }
  }

  /** A line reaches to the next line break, so it holds none. */
  lemma {:induction false} LineHasNone(block: Text, start: nat, end: nat)
    requires start <= |block| && Find(block, CRLF, start) == Some(end)
    ensures Find(block[start..end], CRLF, 0) == None
  {
    var line := block[start..end];
    var r := Find(line, CRLF, 0);
    FoundIsFirst(line, CRLF, 0);
    if r.Some? {
      SliceOfSlice(block, start, end, r.value, r.value + 2);
      assert OccursAt(block, CRLF, start + r.value);
      FoundIsFirst(block, CRLF, start);
    }
  }

  lemma {:induction false} TrimTwice(s: Text)
    ensures Trim(Trim(s)) == Trim(s)
    decreases |s|
  {
    if s != [] {
      if s[0] == ' ' {
        TrimTwice(s[1..]);
      } else if s[|s| - 1] == ' ' {
        TrimTwice(s[..|s| - 1]);
      }
    }
  }

  ghost predicate AllClean(m: Headers) {
    forall k :: k in m ==> Clean(Header(k, m[k]))
  }

  lemma {:induction false} KeyIsClean(line: Text, d: nat)
    requires Find(line, CRLF, 0) == None && Find(line, [':'], 0) == Some(d)
    ensures Find(line[..d], [':'], 0) == None && Find(line[..d], CRLF, 0) == None
  {
    NotInShorterPrefix(line, line[..d], [':'], 0);
    assert line[..d] == line[0..d];
    NoneInside(line, CRLF, 0, d);
  }

  lemma {:induction false} TrimmedHasNone(s: Text)
    requires Find(s, CRLF, 0) == None
    ensures Find(Trim(s), CRLF, 0) == None
  {
    var a, b := TrimIsMaximal(s);
    NoneInside(s, CRLF, a, b);
  }

  lemma {:induction false} ValueIsClean(line: Text, d: nat)
    requires Find(line, CRLF, 0) == None && d < |line|
    ensures Find(Trim(line[d + 1..]), CRLF, 0) == None && Trim(Trim(line[d + 1..])) == Trim(line[d + 1..])
  {
    assert line[d + 1..] == line[d + 1..|line|];
    NoneInside(line, CRLF, d + 1, |line|);
    TrimmedHasNone(line[d + 1..]);
    TrimTwice(line[d + 1..]);
  }

  lemma {:induction false} LineIsClean(line: Text, d: nat)
    requires Find(line, CRLF, 0) == None && Find(line, [':'], 0) == Some(d)
    ensures Clean(Header(line[..d], Trim(line[d + 1..])))
  {
    KeyIsClean(line, d);
    ValueIsClean(line, d);
  }

  lemma {:induction false} AddLineClean(line: Text, acc: Headers)
    requires Find(line, CRLF, 0) == None && AllClean(acc)
    ensures AllClean(AddLine(line, acc))
  {
    if Find(line, [':'], 0).Some? {
      LineIsClean(line, Find(line, [':'], 0).value);
    }
  }

  lemma {:induction false} LineAtIsClean(block: Text, start: nat, end: nat, acc: Headers)
    requires start <= |block| && Find(block, CRLF, start) == Some(end) && AllClean(acc)
    ensures AllClean(AddLine(block[start..end], acc))
  {
    LineHasNone(block, start, end);
    AddLineClean(block[start..end], acc);
  }

  lemma {:induction false} ParsedNone(block: Text, start: nat, acc: Headers)
    requires start <= |block| && Find(block, CRLF, start) == None
    ensures ParseFrom(block, start, acc) == acc
  {
  }

  /** Whatever the block, the headers parsed from it are clean. */
  lemma {:induction false} ParsedIsClean(block: Text, start: nat, acc: Headers)
    requires start <= |block| && AllClean(acc)
    ensures AllClean(ParseFrom(block, start, acc))
    decreases |block| - start
  {
    var found := Find(block, CRLF, start);
    if found.None? {
      ParsedNone(block, start, acc);
    } else {
      LineAtIsClean(block, start, found.value, acc);
      ParsedIsClean(block, found.value + 2, AddLine(block[start..found.value], acc));
      ParseStep(block, start, acc, found.value);
    }
  }

  /** The round trip of the headers hs gives back their map exactly when all of them are clean. */
  lemma {:induction false} RoundTripIff(m: Headers, hs: seq<Header>)
    requires Enumerates(hs, m)
    ensures ParseFrom(Block(hs), 0, map[]) == m <==> forall i :: 0 <= i < |hs| ==> Clean(hs[i])
  {
    if forall i :: 0 <= i < |hs| ==> Clean(hs[i]) {
      HeaderRoundTrip(m, hs);
    } else {
      ParsedIsClean(Block(hs), 0, map[]);
      var i :| 0 <= i < |hs| && !Clean(hs[i]);
      assert hs[i].key in m && Header(hs[i].key, m[hs[i].key]) == hs[i];
    }
  }

  /** Parsing any block, printing the result in any order and parsing again changes nothing. */
  lemma {:induction false} ParsePrintParse(block: Text, hs: seq<Header>)
    requires Enumerates(hs, ParseFrom(block, 0, map[]))
    ensures ParseFrom(Block(hs), 0, map[]) == ParseFrom(block, 0, map[])
  {
    var m := ParseFrom(block, 0, map[]);
    ParsedIsClean(block, 0, map[]);
    forall i | 0 <= i < |hs|
      ensures Clean(hs[i])
    {
      assert hs[i].key in m && Header(hs[i].key, m[hs[i].key]) == hs[i];
    }
    RoundTripIff(m, hs);
  }
}
