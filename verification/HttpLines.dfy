/** Which headers a block of lines gives, line by line: any block at all, and printed ones with repeated keys. */
module HttpLines {
  import opened Common
  import opened Http
  import opened HttpClean

  /** The lines of a block that are ended by a line break, from position `start` on. */
  function LinesFrom(block: Text, start: nat): seq<Text>
    requires start <= |block|
    decreases |block| - start
  {
    match Find(block, CRLF, start)
    case None => []
    case Some(end) => [block[start..end]] + LinesFrom(block, end + 2)
  }

  /** What follows the last line break. */
  function RestFrom(block: Text, start: nat): Text
    requires start <= |block|
    decreases |block| - start
  {
    match Find(block, CRLF, start)
    case None => block[start..]
    case Some(end) => RestFrom(block, end + 2)
  }

  function Joined(lines: seq<Text>): Text {
    if lines == [] then [] else lines[0] + CRLF + Joined(lines[1..])
  }

  /** The block is these lines with a break after each, and the rest. */
  lemma {:induction false} JoinedLines(block: Text, start: nat)
    requires start <= |block|
    ensures block[start..] == Joined(LinesFrom(block, start)) + RestFrom(block, start)
    decreases |block| - start
  {
    FoundIsFirst(block, CRLF, start);
    match Find(block, CRLF, start)
    case None =>
    case Some(end) =>
      JoinedLines(block, end + 2);
      AtBreak(block, start, end);
      assert LinesFrom(block, start)[1..] == LinesFrom(block, end + 2);
      Regroup(block[start..end] + CRLF, Joined(LinesFrom(block, end + 2)), RestFrom(block, end + 2));
  }

  lemma {:induction false} AtBreak(block: Text, start: nat, end: nat)
    requires start <= end && OccursAt(block, CRLF, end)
    ensures block[start..] == block[start..end] + CRLF + block[end + 2..]
  {
    assert block[end..end + 2] == CRLF;
    assert block[start..] == block[start..end] + block[end..end + 2] + block[end + 2..];
  }

  /** No line break is left in any of them. */
  lemma {:induction false} NoBreakLeft(block: Text, start: nat)
    requires start <= |block|
    ensures Find(RestFrom(block, start), CRLF, 0) == None
    ensures forall i :: 0 <= i < |LinesFrom(block, start)| ==> Find(LinesFrom(block, start)[i], CRLF, 0) == None
    decreases |block| - start
  {
    match Find(block, CRLF, start)
    case None => RestHasNone(block, start);
    case Some(end) =>
      LineHasNone(block, start, end);
      NoBreakLeft(block, end + 2);
  }

  lemma {:induction false} RestHasNone(block: Text, start: nat)
    requires start <= |block| && Find(block, CRLF, start) == None
    ensures Find(block[start..], CRLF, 0) == None
  {
    var rest := block[start..];
    FoundIsFirst(rest, CRLF, 0);
    if Find(rest, CRLF, 0).Some? {
      var i := Find(rest, CRLF, 0).value;
      assert block[start + i..start + i + 2] == rest[i..i + 2];
      assert OccursAt(block, CRLF, start + i);
      FoundIsFirst(block, CRLF, start);
    }
  }

  // ---- What a line says ----

  /** The text before the first colon of the line is k. */
  predicate Names(line: Text, k: Text) {
    |k| < |line| && line[..|k|] == k && line[|k|] == ':' && ':' !in k
  }

  lemma {:induction false} ColonAt(line: Text, i: int)
    ensures OccursAt(line, [':'], i) <==> 0 <= i < |line| && line[i] == ':'
  {
    if 0 <= i < |line| {
      assert line[i..i + 1] == [line[i]];
    }
  }

  lemma {:induction false} NamedIsFound(line: Text, k: Text)
    requires Names(line, k)
    ensures Find(line, [':'], 0) == Some(|k|)
  {
    forall i | 0 <= i < |k|
      ensures !OccursAt(line, [':'], i)
    {
      ColonAt(line, i);
      assert line[i] == k[i];
    }
    ColonAt(line, |k|);
    FirstIsFound(line, [':'], 0, |k|);
  }

  lemma {:induction false} FoundIsNamed(line: Text)
    requires Find(line, [':'], 0).Some?
    ensures Names(line, line[..Find(line, [':'], 0).value])
  {
    var d := Find(line, [':'], 0).value;
    FoundIsFirst(line, [':'], 0);
    ColonAt(line, d);
    forall i | 0 <= i < d
      ensures line[..d][i] != ':'
    {
      ColonAt(line, i);
    }
  }

  lemma {:induction false} NoColon(line: Text)
    requires ':' !in line
    ensures Find(line, [':'], 0) == None
  {
    FoundIsFirst(line, [':'], 0);
    if Find(line, [':'], 0).Some? {
      ColonAt(line, Find(line, [':'], 0).value);
    }
  }

  /** The value of a line that names a key of the given length. */
  function ValueAfter(line: Text, key: nat): Text
    requires key < |line|
  {
    Trim(line[key + 1..])
  }

  /** A line adds what it names, unless that is there already; a line without a colon adds nothing. */
  lemma {:induction false} LineAdds(line: Text, acc: Headers, k: Text)
    ensures k in acc ==> k in AddLine(line, acc) && AddLine(line, acc)[k] == acc[k]
    ensures k !in acc && !Names(line, k) ==> k !in AddLine(line, acc)
    ensures k !in acc && Names(line, k) ==> k in AddLine(line, acc) && AddLine(line, acc)[k] == ValueAfter(line, |k|)
    ensures ':' !in line ==> AddLine(line, acc) == acc
  {
    if Names(line, k) {
      NamedIsFound(line, k);
    }
    if Find(line, [':'], 0).Some? {
      FoundIsNamed(line);
    }
    if ':' !in line {
      NoColon(line);
    }
  }

  // ---- What a block says ----

  /** The first line that names k. */
  predicate FirstNaming(lines: seq<Text>, k: Text, i: int) {
    0 <= i < |lines| && Names(lines[i], k) && forall j :: 0 <= j < i ==> !Names(lines[j], k)
  }

  /** What lines add one after the other. */
  function Folded(lines: seq<Text>, acc: Headers): Headers {
    if lines == [] then acc else Folded(lines[1..], AddLine(lines[0], acc))
  }

  lemma {:induction false} ParsedIsFolded(block: Text, start: nat, acc: Headers)
    requires start <= |block|
    ensures ParseFrom(block, start, acc) == Folded(LinesFrom(block, start), acc)
    decreases |block| - start
  {
    match Find(block, CRLF, start)
    case None =>
    case Some(end) =>
      ParsedIsFolded(block, end + 2, AddLine(block[start..end], acc));
      assert LinesFrom(block, start)[1..] == LinesFrom(block, end + 2);
  }

  lemma {:induction false} FoldKeeps(lines: seq<Text>, acc: Headers, k: Text)
    requires k in acc
    ensures k in Folded(lines, acc) && Folded(lines, acc)[k] == acc[k]
    decreases |lines|
  {
    if lines != [] {
      LineAdds(lines[0], acc, k);
      FoldKeeps(lines[1..], AddLine(lines[0], acc), k);
    }
  }

  lemma {:induction false} FoldFirst(lines: seq<Text>, acc: Headers, k: Text, i: int)
    requires k !in acc && FirstNaming(lines, k, i)
    ensures k in Folded(lines, acc) && Folded(lines, acc)[k] == ValueAfter(lines[i], |k|)
    decreases |lines|
  {
    LineAdds(lines[0], acc, k);
    if i == 0 {
      FoldKeeps(lines[1..], AddLine(lines[0], acc), k);
    } else {
      FoldFirst(lines[1..], AddLine(lines[0], acc), k, i - 1);
    }
  }

  lemma {:induction false} FoldNone(lines: seq<Text>, acc: Headers, k: Text)
    requires k !in acc && forall i :: 0 <= i < |lines| ==> !Names(lines[i], k)
    ensures k !in Folded(lines, acc)
    decreases |lines|
  {
    if lines != [] {
      LineAdds(lines[0], acc, k);
      FoldNone(lines[1..], AddLine(lines[0], acc), k);
    }
  }

  /** A key that is there already keeps its value, whatever the block says. */
  lemma {:induction false} FoundKeysStay(block: Text, start: nat, acc: Headers, k: Text)
    requires start <= |block| && k in acc
    ensures k in ParseFrom(block, start, acc) && ParseFrom(block, start, acc)[k] == acc[k]
  {
    ParsedIsFolded(block, start, acc);
    FoldKeeps(LinesFrom(block, start), acc, k);
  }

  /** A block gives a header for exactly the keys that its lines name. */
  lemma {:induction false} ParsedKeys(block: Text, k: Text)
    ensures k in ParseFrom(block, 0, map[]) <==>
            exists i :: 0 <= i < |LinesFrom(block, 0)| && Names(LinesFrom(block, 0)[i], k)
  {
    var lines := LinesFrom(block, 0);
    ParsedIsFolded(block, 0, map[]);
    if i :| 0 <= i < |lines| && Names(lines[i], k) {
      var first := FirstOf(lines, k, i);
      FoldFirst(lines, map[], k, first);
    } else {
      FoldNone(lines, map[], k);
    }
  }

  lemma {:induction false} FirstOf(lines: seq<Text>, k: Text, i: nat) returns (first: nat)
    requires i < |lines| && Names(lines[i], k)
    ensures FirstNaming(lines, k, first)
  {
    first := 0;
    while !Names(lines[first], k)
      invariant first <= i && forall j :: 0 <= j < first ==> !Names(lines[j], k)
      decreases i - first
    {
      first := first + 1;
    }
  }

  /** Of several lines that name the same key the first one wins, in any block. */
  lemma {:induction false} FirstLineWins(block: Text, k: Text, i: int)
    requires FirstNaming(LinesFrom(block, 0), k, i)
    ensures k in ParseFrom(block, 0, map[]) && ParseFrom(block, 0, map[])[k] == ValueAfter(LinesFrom(block, 0)[i], |k|)
  {
    ParsedIsFolded(block, 0, map[]);
    FoldFirst(LinesFrom(block, 0), map[], k, i);
  }

  // ---- Printed headers with repeated keys ----

  function Bares(hs: seq<Header>): (lines: seq<Text>)
    ensures |lines| == |hs| && forall i :: 0 <= i < |hs| ==> lines[i] == Bare(hs[i])
  {
    if hs == [] then [] else [Bare(hs[0])] + Bares(hs[1..])
  }

  lemma {:induction false} PrintedLine(pre: Text, h: Header, rest: Text)
    requires Clean(h)
    ensures var s := pre + HeaderLine(h) + rest;
            LinesFrom(s, |pre|) == [Bare(h)] + LinesFrom(s, |pre + HeaderLine(h)|)
  {
    LineEnd(pre, h, rest);
    LineText(pre, h, rest);
  }

  lemma {:induction false} PrintedLines(pre: Text, hs: seq<Header>)
    requires forall i :: 0 <= i < |hs| ==> Clean(hs[i])
    ensures LinesFrom(pre + Block(hs), |pre|) == Bares(hs)
    decreases |hs|
  {
    if hs == [] {
      NothingAfter(pre);
    } else {
      PrintedLines(pre + HeaderLine(hs[0]), hs[1..]);
      PrintedLine(pre, hs[0], Block(hs[1..]));
      Regroup(pre, HeaderLine(hs[0]), Block(hs[1..]));
    }
  }

  lemma {:induction false} NothingAfter(pre: Text)
    ensures pre + [] == pre && LinesFrom(pre, |pre|) == []
  {
  }

  lemma {:induction false} BareNames(h: Header, k: Text)
    requires Clean(h)
    ensures Names(Bare(h), k) <==> h.key == k
    ensures ValueAfter(Bare(h), |h.key|) == h.value
  {
    FoundIsFirst(h.key, [':'], 0);
    forall i | 0 <= i < |h.key|
      ensures h.key[i] != ':'
    {
      ColonAt(h.key, i);
    }
    assert Bare(h)[..|h.key|] == h.key && Bare(h)[|h.key|] == ':';
    NamedIsFound(Bare(h), h.key);
    if Names(Bare(h), k) {
      NamedIsFound(Bare(h), k);
    }
    assert Bare(h)[|h.key| + 1..] == [' '] + h.value;
    TrimCut([' '] + h.value);
    assert ([' '] + h.value)[1..] == h.value;
  }

  /** Printed headers are parsed to exactly their keys, each with the value of its first header. */
  lemma {:induction false} FirstHeaderWins(hs: seq<Header>, i: nat)
    requires i < |hs| && (forall j :: 0 <= j < |hs| ==> Clean(hs[j]))
    requires forall j :: 0 <= j < i ==> hs[j].key != hs[i].key
    ensures var m := ParseFrom(Block(hs), 0, map[]); hs[i].key in m && m[hs[i].key] == hs[i].value
  {
    PrintedLines([], hs);
    assert [] + Block(hs) == Block(hs);
    forall j | 0 <= j < |hs|
      ensures Names(Bares(hs)[j], hs[i].key) <==> hs[j].key == hs[i].key
    {
      BareNames(hs[j], hs[i].key);
    }
    BareNames(hs[i], hs[i].key);
    FirstLineWins(Block(hs), hs[i].key, i);
  }

  lemma {:induction false} OnlyPrintedKeys(hs: seq<Header>, k: Text)
    requires forall j :: 0 <= j < |hs| ==> Clean(hs[j])
    ensures k in ParseFrom(Block(hs), 0, map[]) ==> exists j :: 0 <= j < |hs| && hs[j].key == k
  {
    PrintedLines([], hs);
    assert [] + Block(hs) == Block(hs);
    ParsedKeys(Block(hs), k);
    forall j | 0 <= j < |hs|
      ensures Names(Bares(hs)[j], k) <==> hs[j].key == k
    {
      BareNames(hs[j], k);
    }
  }

  /** What a header looks like in print. */
  lemma {:induction false} PrintedHost()
    ensures Block([Header("Host", "a"), Header("Host", "b")]) == "Host: a\r\nHost: b\r\n"
  {
    var hs := [Header("Host", "a"), Header("Host", "b")];
    assert HeaderLine(hs[0]) == "Host: a\r\n" && HeaderLine(hs[1]) == "Host: b\r\n";
    assert hs[1..] == [hs[1]] && hs[1..][1..] == [];
  }
}
