/** Printing and reparsing lock files, unambiguity of their grammar, and rejection of repeated packages. */
module LockRoundTrip {
  import opened Options
  import opened LockFile
  import opened LockGrammar

  // ---------- every line belongs to one block ----------

  lemma SameTail(a: seq<string>, x: seq<string>, b: seq<string>, y: seq<string>)
    requires a + x == b + y && |a| == |b|
    ensures a == b && x == y
  {
    assert a == (a + x)[..|a|] && b == (b + y)[..|b|];
    assert x == (a + x)[|a|..] && y == (b + y)[|b|..];
  }

  lemma {:induction false} HashesUnambiguous(g: seq<string>, x: seq<string>, h: seq<string>, y: seq<string>)
    requires g != [] && h != [] && AllDigests(g) && AllDigests(h)
    requires HashLines(g) + x == HashLines(h) + y
    ensures g == h && x == y
    decreases |g|
  {
    assert (HashLines(g) + x)[0] == HashLines(g)[0] && (HashLines(h) + y)[0] == HashLines(h)[0];
    HashLineRead(g[0], 0 < |g| - 1);
    HashLineRead(h[0], 0 < |h| - 1);
    SameTail([HashLines(g)[0]], HashLines(g[1..]) + x, [HashLines(h)[0]], HashLines(h[1..]) + y) by {
      Regroup(HashLines(g)[0], HashLines(g[1..]), x);
      Regroup(HashLines(h)[0], HashLines(h[1..]), y);
    }
    if |g| > 1 {
      HashesUnambiguous(g[1..], x, h[1..], y);
      assert g == [g[0]] + g[1..] && h == [h[0]] + h[1..];
    } else {
      assert g == [g[0]] && h == [h[0]];
      assert HashLines(g[1..]) + x == x && HashLines(h[1..]) + y == y;
    }
  }

  lemma Regroup(a: string, b: seq<string>, c: seq<string>)
    ensures [a] + b + c == [a] + (b + c)
  {
  }

  lemma FirstLine(blocks: seq<Block>)
    requires blocks != [] && AllWellFormed(blocks)
    ensures Flatten(blocks) != []
    ensures var line := Flatten(blocks)[0];
            match blocks[0]
            case Gap(gap) => line == gap && IsGap(line)
            case Entry(name, version, _) =>
              line == EntryLine(name, version) && !IsGap(line) && MatchEntry(line) == Some(Head(name, version))
  {
    assert WellFormed(blocks[0]);
    if blocks[0].Entry? {
      GapIsNoHead(blocks[0].name, blocks[0].version);
      EntryLineRead(blocks[0].name, blocks[0].version);
    }
  }

  /** Two readings of the same lines are the same: each line belongs to exactly one block, in one role. */
  lemma {:induction false} Unambiguous(a: seq<Block>, b: seq<Block>)
    requires AllWellFormed(a) && AllWellFormed(b) && Flatten(a) == Flatten(b)
    ensures a == b
    decreases |a|
  {
    if a != [] {
      FirstLine(a);
    }
    if b != [] {
      FirstLine(b);
    }
    if a != [] {
      SameFirst(a, b);
      Unambiguous(a[1..], b[1..]);
    }
  }

  lemma SameFirst(a: seq<Block>, b: seq<Block>)
    requires a != [] && b != [] && WellFormed(a[0]) && WellFormed(b[0]) && AllWellFormed(a) && AllWellFormed(b)
    requires Flatten(a) == Flatten(b)
    ensures a[0] == b[0] && Flatten(a[1..]) == Flatten(b[1..])
  {
    FirstLine(a);
    FirstLine(b);
    var line := Flatten(a)[0];
    if a[0].Gap? {
      SameTail([line], Flatten(a[1..]), [line], Flatten(b[1..]));
    } else {
      Regroup(line, HashLines(a[0].hashes), Flatten(a[1..]));
      Regroup(line, HashLines(b[0].hashes), Flatten(b[1..]));
      SameTail([line], HashLines(a[0].hashes) + Flatten(a[1..]), [line], HashLines(b[0].hashes) + Flatten(b[1..]));
      HashesUnambiguous(a[0].hashes, Flatten(a[1..]), b[0].hashes, Flatten(b[1..]));
    }
  }

  // ---------- printing ----------

  predicate CanonicalEntry(name: string, l: Locked) {
    && IsName(name) && IsNormal(name) && IsVersion(l.version)
    && l.hashes != {} && forall h | h in l.hashes :: IsDigest(h)
  }

  /** Entries as an accepted file has them. */
  predicate Canonical(m: Entries) {
    forall name | name in m :: CanonicalEntry(name, m[name])
  }

  /** A block that prints one entry of m. */
  predicate PrintsOne(b: Block, m: Entries) {
    b.Entry? && b.name in m && m[b.name] == Locked(b.version, Elements(b.hashes)) && Distinct(b.hashes)
  }

  predicate IsFor(b: Block, name: string) {
    b.Entry? && b.name == name
  }

  predicate AllPrint(blocks: seq<Block>, m: Entries) {
    forall i | 0 <= i < |blocks| :: PrintsOne(blocks[i], m)
  }

  predicate Covers(blocks: seq<Block>, m: Entries) {
    forall name | name in m :: exists i | 0 <= i < |blocks| :: IsFor(blocks[i], name)
  }

  /** Blocks that print m: one entry per package, hashes in any order, entries in any order. */
  predicate Prints(blocks: seq<Block>, m: Entries) {
    AllPrint(blocks, m) && Distinct(Names(blocks)) && Covers(blocks, m)
  }

  lemma ElementsEmpty(s: seq<string>)
    ensures s == [] <==> Elements(s) == {}
  {
    if s != [] {
      assert s[0] in Elements(s);
    }
  }

  lemma PrintedWellFormed(b: Block, m: Entries)
    requires Canonical(m) && PrintsOne(b, m)
    ensures WellFormed(b) && Normalize(b.name) == b.name
  {
    assert CanonicalEntry(b.name, m[b.name]);
    NormalExactly(b.name);
    ElementsEmpty(b.hashes);
    forall i | 0 <= i < |b.hashes|
      ensures IsDigest(b.hashes[i])
    {
      assert b.hashes[i] in m[b.name].hashes;
    }
  }

  /** Entries among those of m, and none outside. */
  predicate Part(entries: Entries, m: Entries) {
    forall name | name in entries :: name in m && entries[name] == m[name]
  }

  /** The names of printed entries are as they stand in the map. */
  predicate NamesAsPrinted(blocks: seq<Block>) {
    && |Names(blocks)| == |blocks|
    && forall i | 0 <= i < |blocks| :: blocks[i].Entry? && Names(blocks)[i] == blocks[i].name
  }

  lemma {:induction false} PrintedNames(blocks: seq<Block>, m: Entries)
    requires Canonical(m) && AllPrint(blocks, m)
    ensures NamesAsPrinted(blocks)
    decreases |blocks|
  {
    if blocks != [] {
      PrintedWellFormed(blocks[0], m);
      PrintedNames(blocks[1..], m);
    }
  }

  lemma PrintedAllWellFormed(blocks: seq<Block>, m: Entries)
    requires Canonical(m) && AllPrint(blocks, m)
    ensures AllWellFormed(blocks)
  {
    forall i | 0 <= i < |blocks|
      ensures WellFormed(blocks[i])
    {
      PrintedWellFormed(blocks[i], m);
    }
  }

  lemma {:induction false} PrintedMap(entries: Entries, blocks: seq<Block>, m: Entries)
    requires Canonical(m) && Part(entries, m) && AllPrint(blocks, m)
    ensures Part(MapOf(entries, blocks), m)
    decreases |blocks|
  {
    if blocks != [] {
      PrintedWellFormed(blocks[0], m);
      PrintedMap(Added(entries, blocks[0]), blocks[1..], m);
    }
  }

  lemma CoveredMap(blocks: seq<Block>, m: Entries)
    requires Covers(blocks, m) && Part(MapOf(map[], blocks), m) && NamesAsPrinted(blocks)
    ensures MapOf(map[], blocks) == m
  {
    forall name | name in m
      ensures name in MapOf(map[], blocks)
    {
      var i :| 0 <= i < |blocks| && IsFor(blocks[i], name);
      NamesMapped(map[], blocks, i);
    }
  }

  /** Parsing a printed map gives the map back, in whatever order it was printed. */
  lemma RoundTrip(m: Entries, blocks: seq<Block>)
    requires Canonical(m) && m != map[] && Prints(blocks, m)
    ensures Parsed(Flatten(blocks)) == Ok(m)
  {
    PrintedMap(map[], blocks, m);
    PrintedNames(blocks, m);
    PrintedAllWellFormed(blocks, m);
    CoveredMap(blocks, m);
    if Names(blocks) == [] {
      NamesOfMap(map[], blocks);
    }
    GrammaticalAccepted(Flatten(blocks), blocks);
  }

  lemma {:induction false} Listing(s: set<string>) returns (list: seq<string>)
    ensures Distinct(list) && Elements(list) == s
    decreases s
  {
    if s == {} {
      list := [];
    } else {
      var x :| x in s;
      var rest := Listing(s - {x});
      list := [x] + rest;
      DistinctMore(x, rest);
      assert forall i | 0 <= i < |rest| :: list[i + 1] == rest[i];
      forall i | 0 <= i < |rest|
        ensures rest[i] != x
      {
        assert rest[i] in Elements(rest);
      }
      assert Elements(list) == {x} + Elements(rest) by {
        assert list[0] == x;
        forall y | y in Elements(rest)
          ensures y in Elements(list)
        {
          var i :| 0 <= i < |rest| && rest[i] == y;
          assert list[i + 1] == y;
        }
      }
    }
  }

  /** Every canonical map of entries can be printed. */
  lemma {:induction false} Printable(m: Entries) returns (blocks: seq<Block>)
    requires Canonical(m)
    ensures Prints(blocks, m)
    decreases m.Keys
  {
    if m == map[] {
      blocks := [];
    } else {
      var name :| name in m;
      var smaller := m - {name};
      assert name in m.Keys && name !in smaller.Keys;
      assert smaller.Keys < m.Keys;
      var rest := Printable(smaller);
      var hashes := Listing(m[name].hashes);
      blocks := [Entry(name, m[name].version, hashes)] + rest;
      PrintedNames(rest, smaller);
      PrintsMore(m, name, blocks[0], rest);
    }
  }

  lemma PrintsMore(m: Entries, name: string, b: Block, rest: seq<Block>)
    requires Canonical(m) && name in m && Prints(rest, m - {name}) && PrintsOne(b, m) && IsFor(b, name)
    requires NamesAsPrinted(rest)
    ensures Prints([b] + rest, m)
  {
    CoversMore(m, name, b, rest);
    PrintedWellFormed(b, m);
    forall i | 0 <= i < |Names(rest)|
      ensures Names(rest)[i] != name
    {
      assert PrintsOne(rest[i], m - {name});
    }
    DistinctMore(name, Names(rest));
    assert ([b] + rest)[1..] == rest;
  }

  lemma CoversMore(m: Entries, name: string, b: Block, rest: seq<Block>)
    requires name in m && IsFor(b, name) && Covers(rest, m - {name})
    ensures Covers([b] + rest, m)
  {
    var blocks := [b] + rest;
    forall k | k in m
      ensures exists i | 0 <= i < |blocks| :: IsFor(blocks[i], k)
    {
      if k == name {
        assert IsFor(blocks[0], k);
      } else {
        assert k in m - {name};
        var i :| 0 <= i < |rest| && IsFor(rest[i], k);
        assert blocks[i + 1] == rest[i];
      }
    }
  }

  // ---------- reparsing ----------

  lemma AddedCanonical(entries: Entries, b: Block)
    requires Canonical(entries) && WellFormed(b)
    ensures Canonical(Added(entries, b))
  {
    if b.Entry? {
      NormalizedName(b.name);
      NormalizedIsNormal(b.name);
      assert b.hashes[0] in Elements(b.hashes);
      assert CanonicalEntry(Normalize(b.name), Locked(b.version, Elements(b.hashes)));
    }
  }

  lemma {:induction false} MapCanonical(entries: Entries, blocks: seq<Block>)
    requires Canonical(entries) && AllWellFormed(blocks)
    ensures Canonical(MapOf(entries, blocks))
    decreases |blocks|
  {
    if blocks != [] {
      AddedCanonical(entries, blocks[0]);
      MapCanonical(Added(entries, blocks[0]), blocks[1..]);
    }
  }

  /** What is parsed is canonical, so printing it and parsing again changes nothing. */
  lemma ReparseStable(lines: seq<string>, m: Entries, blocks: seq<Block>)
    requires Parsed(lines) == Ok(m) && Prints(blocks, m)
    ensures Canonical(m) && m != map[]
    ensures Parsed(Flatten(blocks)) == Ok(m)
  {
    var original := AcceptedGrammatical(lines, m);
    MapCanonical(map[], original);
    AcceptedNotEmpty(lines, 0, START, m);
    RoundTrip(m, blocks);
  }

  // ---------- repeated packages ----------

  lemma {:induction false} NamesMapped(entries: Entries, blocks: seq<Block>, i: nat)
    requires i < |Names(blocks)|
    ensures Names(blocks)[i] in MapOf(entries, blocks)
    decreases |blocks|
  {
    var rest := blocks[1..];
    if blocks[0].Gap? {
      NamesMapped(Added(entries, blocks[0]), rest, i);
    } else if i > 0 {
      assert Names(blocks)[i] == Names(rest)[i - 1];
      NamesMapped(Added(entries, blocks[0]), rest, i - 1);
    } else {
      MapGrows(Added(entries, blocks[0]), rest);
      assert Normalize(blocks[0].name) in Added(entries, blocks[0]).Keys;
    }
  }

  lemma RepeatStep(lines: seq<string>, n: nat, entries: Entries, name: string, version: string)
    requires n < |lines| && lines[n] == EntryLine(name, version) && IsName(name) && IsVersion(version)
    requires Normalize(name) in entries
    ensures Outcome(lines, n, State(entries, Idle)) == Err(RepeatsPackage(n + 1, Normalize(name)))
  {
    GapIsNoHead(name, version);
    EntryLineRead(name, version);
  }

  lemma BlocksThen(lines: seq<string>, blocks: seq<Block>, line: string, rest: seq<string>)
    requires AllWellFormed(blocks) && Distinct(Names(blocks))
    requires lines == Flatten(blocks) + ([line] + rest)
    ensures |lines| > |Flatten(blocks)| && lines[|Flatten(blocks)|] == line
    ensures Parsed(lines) == Outcome(lines, |Flatten(blocks)|, State(MapOf(map[], blocks), Idle))
  {
    var nothing: seq<string> := [];
    FreshExactly(map[], blocks);
    BlocksParsed(nothing, blocks, [line] + rest, map[]);
    assert nothing + Flatten(blocks) == Flatten(blocks);
  }

  /** A second head line for a package, however its name is spelled, is rejected where it stands. */
  lemma DuplicateRejected(lines: seq<string>, blocks: seq<Block>, i: nat, line: string, rest: seq<string>)
    requires AllWellFormed(blocks) && Distinct(Names(blocks))
    requires lines == Flatten(blocks) + ([line] + rest)
    requires MatchEntry(line).Some? && i < |Names(blocks)|
    requires Normalize(MatchEntry(line).value.name) == Names(blocks)[i]
    ensures Parsed(lines) == Err(RepeatsPackage(|Flatten(blocks)| + 1, Names(blocks)[i]))
  {
    NamesMapped(map[], blocks, i);
    BlocksThen(lines, blocks, line, rest);
    EntryLineWritten(line);
    RepeatStep(lines, |Flatten(blocks)|, MapOf(map[], blocks), MatchEntry(line).value.name,
               MatchEntry(line).value.version);
  }

  // ---------- the text of a file ----------

  /** Where Python ends a line. */
  predicate IsBreak(c: char) {
    || '\n' <= c <= '\r'
    || '\U{1c}' <= c <= '\U{1e}'
    || c == '\U{85}' || c == '\U{2028}' || c == '\U{2029}'
  }

  predicate Unbroken(line: string) {
    forall i | 0 <= i < |line| :: !IsBreak(line[i])
  }

  function FirstBreak(text: string): (i: nat)
    ensures i <= |text|
    ensures i < |text| ==> IsBreak(text[i])
    ensures forall j | 0 <= j < i :: !IsBreak(text[j])
  {
    if text == "" || IsBreak(text[0]) then 0 else 1 + FirstBreak(text[1..])
  }

  /** A carriage return and a line feed after it end a line together. */
  function BreakLength(text: string, i: nat): (n: nat)
    requires i < |text|
    ensures 1 <= n && i + n <= |text|
  {
    if text[i] == '\r' && i + 1 < |text| && text[i + 1] == '\n' then 2 else 1
  }

  const LINE_FEED := "\n"

  function SplitLines(text: string): seq<string>
    decreases |text|
  {
    if text == "" then []
    else
      var i := FirstBreak(text);
      if i == |text| then [text] else [text[..i]] + SplitLines(text[i + BreakLength(text, i)..])
  }

  function JoinLines(lines: seq<string>): string {
    if lines == [] then "" else lines[0] + LINE_FEED + JoinLines(lines[1..])
  }

  lemma {:induction false} FirstBreakAfter(line: string, rest: string)
    requires Unbroken(line)
    ensures FirstBreak(line + LINE_FEED + rest) == |line|
  {
    var text := line + LINE_FEED + rest;
    if line != "" {
      assert text[1..] == line[1..] + LINE_FEED + rest;
      assert text[0] == line[0];
      FirstBreakAfter(line[1..], rest);
    }
  }

  lemma SplitFirst(line: string, rest: string)
    requires Unbroken(line)
    ensures SplitLines(line + LINE_FEED + rest) == [line] + SplitLines(rest)
  {
    var text := line + LINE_FEED + rest;
    FirstBreakAfter(line, rest);
    assert text[|line|] == '\n';
    assert text[..|line|] == line && text[|line| + 1..] == rest;
  }

  /** Splitting joined lines gives the lines back. */
  lemma {:induction false} SplitJoined(lines: seq<string>)
    requires forall i | 0 <= i < |lines| :: Unbroken(lines[i])
    ensures SplitLines(JoinLines(lines)) == lines
  {
    if lines != [] {
      SplitFirst(lines[0], JoinLines(lines[1..]));
      SplitJoined(lines[1..]);
    }
  }

  lemma BlockUnbroken(b: Block)
    requires b.Entry? && WellFormed(b)
    ensures forall i | 0 <= i < |Lines(b)| :: Unbroken(Lines(b)[i])
  {
    forall i | 0 <= i < |Lines(b)|
      ensures Unbroken(Lines(b)[i])
    {
      if i > 0 {
        assert Lines(b)[i] == HashLines(b.hashes)[i - 1];
      }
    }
  }

  lemma {:induction false} PrintedUnbroken(blocks: seq<Block>, m: Entries)
    requires Canonical(m) && AllPrint(blocks, m)
    ensures forall i | 0 <= i < |Flatten(blocks)| :: Unbroken(Flatten(blocks)[i])
    decreases |blocks|
  {
    if blocks != [] {
      assert PrintsOne(blocks[0], m);
      PrintedWellFormed(blocks[0], m);
      BlockUnbroken(blocks[0]);
      PrintedUnbroken(blocks[1..], m);
    }
  }

  /** The round trip on the text of a file. */
  lemma TextRoundTrip(m: Entries, blocks: seq<Block>)
    requires Canonical(m) && m != map[] && Prints(blocks, m)
    ensures Parsed(SplitLines(JoinLines(Flatten(blocks)))) == Ok(m)
  {
    PrintedUnbroken(blocks, m);
    SplitJoined(Flatten(blocks));
    RoundTrip(m, blocks);
  }
}
