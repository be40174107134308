/**
 The grammar the lock parser accepts: gaps and entries, each entry a head line and its hash lines.
 The parser accepts exactly the files of the grammar, and printing undoes parsing.
 */
module LockGrammar {
  import opened Options
  import opened LockFile

  // ---------- names ----------

  /** No capital letter, no separator but single hyphens. */
  predicate IsNormal(s: string) {
    && (forall i | 0 <= i < |s| :: !IsUpper(s[i]) && s[i] != '_' && s[i] != '.')
    && (forall i | 0 <= i < |s| - 1 :: s[i] != '-' || s[i + 1] != '-')
  }

  lemma {:induction false} NormalizedIsNormal(s: string)
    ensures IsNormal(Normalize(s))
    ensures s == "" <==> Normalize(s) == ""
    ensures s != "" ==> (Normalize(s)[0] == '-' <==> IsSeparator(s[0]))
    decreases |s|
  {
    if s != "" {
      var rest := if IsSeparator(s[0]) then DropSeparators(s[1..]) else s[1..];
      NormalizedIsNormal(rest);
      assert Normalize(s)[1..] == Normalize(rest);
    }
  }

  /** Normalization leaves a name alone exactly when the name is normal; so normalizing twice is normalizing once. */
  lemma {:induction false} NormalExactly(s: string)
    ensures IsNormal(s) <==> Normalize(s) == s
    decreases |s|
  {
    NormalizedIsNormal(s);
    if IsNormal(s) && s != "" {
      var rest := s[1..];
      assert IsNormal(rest);
      if IsSeparator(s[0]) {
        assert s[0] == '-';
        assert rest != "" ==> rest[0] == s[1];
        assert DropSeparators(rest) == rest;
      }
      NormalExactly(rest);
      assert s == [s[0]] + rest;
    }
  }

  lemma {:induction false} NormalizedKeepsName(s: string)
    requires forall i | 0 <= i < |s| :: IsAlphanumeric(s[i]) || IsSeparator(s[i])
    ensures forall i | 0 <= i < |Normalize(s)| :: IsAlphanumeric(Normalize(s)[i]) || IsSeparator(Normalize(s)[i])
    ensures s != "" && IsAlphanumeric(s[0]) ==> Normalize(s) != "" && IsAlphanumeric(Normalize(s)[0])
    decreases |s|
  {
    if s != "" {
      if IsSeparator(s[0]) {
        DroppedSuffix(s[1..]);
        NormalizedKeepsName(DropSeparators(s[1..]));
      } else {
        NormalizedKeepsName(s[1..]);
      }
    }
  }

  lemma {:induction false} DroppedSuffix(s: string)
    ensures exists k | 0 <= k <= |s| :: DropSeparators(s) == s[k..]
  {
    if s != "" && IsSeparator(s[0]) {
      DroppedSuffix(s[1..]);
      var k :| 0 <= k <= |s[1..]| && DropSeparators(s[1..]) == s[1..][k..];
      assert s[1..][k..] == s[k + 1..];
    } else {
      assert s[0..] == s;
    }
  }

  lemma NormalizedName(name: string)
    requires IsName(name)
    ensures IsName(Normalize(name)) && Normalize(Normalize(name)) == Normalize(name)
  {
    NormalizedKeepsName(name);
    NormalizedIsNormal(name);
    NormalExactly(Normalize(name));
  }

  // ---------- lines ----------

  lemma {:induction false} FirstEqualsAt(a: string, b: string)
    requires forall i | 0 <= i < |a| :: a[i] != '='
    ensures FirstEquals(a + "=" + b) == |a|
  {
    if a == "" {
      assert (a + "=" + b)[0] == '=';
    } else {
      assert (a + "=" + b)[1..] == a[1..] + "=" + b;
      assert (a + "=" + b)[0] == a[0];
      FirstEqualsAt(a[1..], b);
    }
  }

  /** A head line is read exactly as it is written. */
  lemma EntryLineRead(name: string, version: string)
    requires IsName(name) && IsVersion(version)
    ensures MatchEntry(EntryLine(name, version)) == Some(Head(name, version))
  {
    var line := EntryLine(name, version);
    var body := line[..|line| - 2];
    assert line[|line| - 2..] == CONTINUED;
    assert body == name + "=" + ("=" + version);
    FirstEqualsAt(name, "=" + version);
    assert body[..|name|] == name && body[|name| + 2..] == version && body[|name| + 1] == '=';
  }

  lemma EntryLineWritten(line: string)
    requires MatchEntry(line).Some?
    ensures var head := MatchEntry(line).value;
            IsName(head.name) && IsVersion(head.version) && line == EntryLine(head.name, head.version)
  {
    var body := line[..|line| - 2];
    var i := FirstEquals(body);
    assert line == body + CONTINUED;
    assert body == body[..i] + "==" + body[i + 2..];
  }

  lemma HashLineRead(hash: string, more: bool)
    requires IsDigest(hash)
    ensures MatchHash(HashLine(hash, more)) == Some(Continuation(hash, more))
  {
    var line, n := HashLine(hash, more), |HASH_PREFIX|;
    assert line[..n] == HASH_PREFIX;
    assert line[n..n + DIGEST] == hash;
    assert line[n + DIGEST..] == if more then CONTINUED else "";
    if !more {
      assert line[n..] == hash;
    }
  }

  lemma HashLineWritten(line: string)
    requires MatchHash(line).Some?
    ensures var m := MatchHash(line).value;
            IsDigest(m.hash) && line == HashLine(m.hash, m.more)
  {
    var n := |HASH_PREFIX|;
    assert line == line[..n] + line[n..n + DIGEST] + line[n + DIGEST..];
    if line[n + DIGEST..] == "" {
      assert line[n..] == line[n..n + DIGEST];
    }
  }

  /** A head line is neither empty nor a comment. */
  lemma GapIsNoHead(name: string, version: string)
    requires IsName(name)
    ensures !IsGap(EntryLine(name, version))
  {
    assert EntryLine(name, version)[0] == name[0];
    assert !IsSpace(name[0]);
  }

  // ---------- blocks ----------

  datatype Block = Gap(line: string) | Entry(name: string, version: string, hashes: seq<string>)

  /** The hash lines of an entry: all but the last are continued. */
  function HashLines(hashes: seq<string>): (lines: seq<string>)
    ensures |lines| == |hashes|
    ensures forall i | 0 <= i < |hashes| :: lines[i] == HashLine(hashes[i], i < |hashes| - 1)
  {
    if hashes == [] then [] else [HashLine(hashes[0], |hashes| > 1)] + HashLines(hashes[1..])
  }

  function Lines(b: Block): seq<string> {
    match b
    case Gap(line) => [line]
    case Entry(name, version, hashes) => [EntryLine(name, version)] + HashLines(hashes)
  }

  function Flatten(blocks: seq<Block>): seq<string> {
    if blocks == [] then [] else Lines(blocks[0]) + Flatten(blocks[1..])
  }

  predicate AllDigests(hashes: seq<string>) {
    forall i | 0 <= i < |hashes| :: IsDigest(hashes[i])
  }

  predicate WellFormed(b: Block) {
    match b
    case Gap(line) => IsGap(line)
    case Entry(name, version, hashes) =>
      IsName(name) && IsVersion(version) && hashes != [] && AllDigests(hashes) && Distinct(hashes)
  }

  predicate AllWellFormed(blocks: seq<Block>) {
    forall i | 0 <= i < |blocks| :: WellFormed(blocks[i])
  }

  /** The normalized names of the entries, in order. */
  function Names(blocks: seq<Block>): seq<string> {
    if blocks == [] then []
    else if blocks[0].Gap? then Names(blocks[1..])
    else [Normalize(blocks[0].name)] + Names(blocks[1..])
  }

  function Added(entries: Entries, b: Block): Entries {
    match b
    case Gap(_) => entries
    case Entry(name, version, hashes) => entries[Normalize(name) := Locked(version, Elements(hashes))]
  }

  function MapOf(entries: Entries, blocks: seq<Block>): Entries
    decreases |blocks|
  {
    if blocks == [] then entries else MapOf(Added(entries, blocks[0]), blocks[1..])
  }

  /** No entry names a package a second time. */
  predicate Fresh(entries: Entries, blocks: seq<Block>)
    decreases |blocks|
  {
    blocks == [] ||
    ((blocks[0].Entry? ==> Normalize(blocks[0].name) !in entries) && Fresh(Added(entries, blocks[0]), blocks[1..]))
  }

  /** The blocks of a file the grammar admits. */
  predicate Grammatical(lines: seq<string>, blocks: seq<Block>) {
    && Flatten(blocks) == lines
    && AllWellFormed(blocks)
    && Distinct(Names(blocks))
    && Names(blocks) != []
  }

  /** None of the names is taken. */
  predicate Untaken(entries: Entries, names: seq<string>) {
    forall i | 0 <= i < |names| :: names[i] !in entries
  }

  lemma {:induction false} FreshExactly(entries: Entries, blocks: seq<Block>)
    ensures Fresh(entries, blocks) <==> Distinct(Names(blocks)) && Untaken(entries, Names(blocks))
    decreases |blocks|
  {
    if blocks != [] {
      FreshExactly(Added(entries, blocks[0]), blocks[1..]);
      if blocks[0].Entry? {
        var name := Normalize(blocks[0].name);
        DistinctMore(name, Names(blocks[1..]));
        UntakenMore(entries, name, Locked(blocks[0].version, Elements(blocks[0].hashes)), Names(blocks[1..]));
      }
    }
  }

  lemma UntakenMore(entries: Entries, x: string, l: Locked, s: seq<string>)
    ensures Untaken(entries, [x] + s) <==> x !in entries && Untaken(entries, s)
    ensures Untaken(entries[x := l], s) <==> Untaken(entries, s) && forall i | 0 <= i < |s| :: s[i] != x
  {
    var t := [x] + s;
    assert t[0] == x;
    assert forall i | 0 <= i < |s| :: t[i + 1] == s[i];
    if Untaken(entries, t) {
      forall i | 0 <= i < |s|
        ensures s[i] !in entries
      {
        assert t[i + 1] !in entries;
      }
    }
    if Untaken(entries[x := l], s) {
      forall i | 0 <= i < |s|
        ensures s[i] !in entries && s[i] != x
      {
        assert s[i] !in entries[x := l];
      }
    }
  }

  lemma DistinctMore(x: string, s: seq<string>)
    ensures Distinct([x] + s) <==> Distinct(s) && forall i | 0 <= i < |s| :: s[i] != x
  {
    var t := [x] + s;
    assert forall i | 0 <= i < |s| :: t[i + 1] == s[i];
    if Distinct(t) {
      forall i, j | 0 <= i < j < |s|
        ensures s[i] != s[j]
      {
        assert t[i + 1] != t[j + 1];
      }
      forall i | 0 <= i < |s|
        ensures s[i] != x
      {
        assert t[0] != t[i + 1];
      }
    }
  }

  // ---------- every grammatical file is accepted ----------

  /** What the lines of an entry are at place n of a file. */
  predicate EntryAt(lines: seq<string>, n: nat, name: string, version: string, hashes: seq<string>) {
    && n + 1 + |hashes| <= |lines|
    && lines[n] == EntryLine(name, version)
    && forall i | 0 <= i < |hashes| :: lines[n + 1 + i] == HashLine(hashes[i], i < |hashes| - 1)
  }

  lemma {:induction false} HashesParsed(lines: seq<string>, n: nat, entries: Entries, name: string, version: string,
                                        hashes: seq<string>, i: nat)
    requires EntryAt(lines, n, name, version, hashes) && i < |hashes|
    requires AllDigests(hashes) && Distinct(hashes)
    ensures Outcome(lines, n + 1 + i, State(entries, Reading(Normalize(name), version, hashes[..i], n + 1)))
         == Outcome(lines, n + 1 + |hashes|, State(Added(entries, Entry(name, version, hashes)), Idle))
    decreases |hashes| - i
  {
    var line := lines[n + 1 + i];
    assert line == HashLine(hashes[i], i < |hashes| - 1);
    HashLineRead(hashes[i], i < |hashes| - 1);
    assert hashes[..i] + [hashes[i]] == hashes[..i + 1];
    if i < |hashes| - 1 {
      HashesParsed(lines, n, entries, name, version, hashes, i + 1);
    } else {
      assert hashes[..i + 1] == hashes;
    }
  }

  lemma EntryParsed(lines: seq<string>, n: nat, entries: Entries, name: string, version: string, hashes: seq<string>)
    requires EntryAt(lines, n, name, version, hashes) && WellFormed(Entry(name, version, hashes))
    requires Normalize(name) !in entries
    ensures Outcome(lines, n, State(entries, Idle))
         == Outcome(lines, n + 1 + |hashes|, State(Added(entries, Entry(name, version, hashes)), Idle))
  {
    EntryLineRead(name, version);
    GapIsNoHead(name, version);
    assert hashes[..0] == [];
    HashesParsed(lines, n, entries, name, version, hashes, 0);
  }

  lemma {:induction false} BlocksParsed(before: seq<string>, blocks: seq<Block>, after: seq<string>, entries: Entries)
    requires AllWellFormed(blocks) && Fresh(entries, blocks)
    ensures Outcome(before + Flatten(blocks) + after, |before|, State(entries, Idle))
         == Outcome(before + Flatten(blocks) + after, |before + Flatten(blocks)|, State(MapOf(entries, blocks), Idle))
    decreases |blocks|
  {
    var lines := before + Flatten(blocks) + after;
    if blocks == [] {
      assert before + Flatten(blocks) == before;
    } else {
      var b := blocks[0];
      var next := before + Lines(b);
      Regrouped(before, Lines(b), Flatten(blocks[1..]), after);
      assert lines == next + Flatten(blocks[1..]) + after;
      assert WellFormed(b);
      BlockParsed(before, b, Flatten(blocks[1..]) + after, entries);
      BlocksParsed(next, blocks[1..], after, Added(entries, b));
    }
  }

  lemma Regrouped(a: seq<string>, b: seq<string>, c: seq<string>, d: seq<string>)
    ensures a + (b + c) + d == a + b + c + d
    ensures a + (b + c) + d == a + b + (c + d)
    ensures a + (b + c) == a + b + c
  {
  }

  lemma BlockParsed(before: seq<string>, b: Block, after: seq<string>, entries: Entries)
    requires WellFormed(b) && (b.Entry? ==> Normalize(b.name) !in entries)
    ensures Outcome(before + Lines(b) + after, |before|, State(entries, Idle))
         == Outcome(before + Lines(b) + after, |before + Lines(b)|, State(Added(entries, b), Idle))
  {
    match b
    case Gap(line) => GapParsed(before, line, after, entries);
    case Entry(name, version, hashes) => EntryBlockParsed(before, name, version, hashes, after, entries);
  }

  lemma GapParsed(before: seq<string>, line: string, after: seq<string>, entries: Entries)
    requires IsGap(line)
    ensures Outcome(before + [line] + after, |before|, State(entries, Idle))
         == Outcome(before + [line] + after, |before + [line]|, State(entries, Idle))
  {
    assert (before + [line] + after)[|before|] == line;
  }

  lemma EntryBlockParsed(before: seq<string>, name: string, version: string, hashes: seq<string>, after: seq<string>,
                         entries: Entries)
    requires WellFormed(Entry(name, version, hashes)) && Normalize(name) !in entries
    ensures Outcome(before + Lines(Entry(name, version, hashes)) + after, |before|, State(entries, Idle))
         == Outcome(before + Lines(Entry(name, version, hashes)) + after,
                    |before + Lines(Entry(name, version, hashes))|,
                    State(Added(entries, Entry(name, version, hashes)), Idle))
  {
    EntryRead(before, Lines(Entry(name, version, hashes)), after, entries, name, version, hashes);
  }

  lemma EntryRead(before: seq<string>, block: seq<string>, after: seq<string>, entries: Entries, name: string,
                  version: string, hashes: seq<string>)
    requires WellFormed(Entry(name, version, hashes)) && Normalize(name) !in entries && |block| == 1 + |hashes|
    requires EntryAt(before + block + after, |before|, name, version, hashes)
    ensures Outcome(before + block + after, |before|, State(entries, Idle))
         == Outcome(before + block + after, |before + block|, State(Added(entries, Entry(name, version, hashes)), Idle))
  {
    EntryParsed(before + block + after, |before|, entries, name, version, hashes);
  }

  lemma {:induction false} MapGrows(entries: Entries, blocks: seq<Block>)
    ensures entries.Keys <= MapOf(entries, blocks).Keys
    ensures Names(blocks) != [] ==> MapOf(entries, blocks) != map[]
    decreases |blocks|
  {
    if blocks != [] {
      MapGrows(Added(entries, blocks[0]), blocks[1..]);
      if blocks[0].Entry? {
        assert Normalize(blocks[0].name) in Added(entries, blocks[0]).Keys;
        assert Normalize(blocks[0].name) in MapOf(entries, blocks);
      }
    }
  }

  lemma BlocksParsedWhole(blocks: seq<Block>)
    requires AllWellFormed(blocks) && Fresh(map[], blocks)
    ensures Parsed(Flatten(blocks)) == End(State(MapOf(map[], blocks), Idle))
  {
    var nothing: seq<string> := [];
    BlocksParsed(nothing, blocks, nothing, map[]);
    assert nothing + Flatten(blocks) + nothing == Flatten(blocks);
    assert nothing + Flatten(blocks) == Flatten(blocks);
  }

  lemma GrammaticalAccepted(lines: seq<string>, blocks: seq<Block>)
    requires Grammatical(lines, blocks)
    ensures Parsed(lines) == Ok(MapOf(map[], blocks))
  {
    FreshExactly(map[], blocks);
    BlocksParsedWhole(blocks);
    MapGrows(map[], blocks);
  }

  // ---------- every accepted file is grammatical ----------

  /** Blocks that take the parser from place n to its end. */
  predicate Completes(lines: seq<string>, n: nat, entries: Entries, m: Entries, blocks: seq<Block>)
    requires n <= |lines|
  {
    && Flatten(blocks) == lines[n..]
    && AllWellFormed(blocks) && Fresh(entries, blocks) && MapOf(entries, blocks) == m
  }

  /** Hash lines and blocks that take the parser from the middle of an entry, which leaves `after`, to the end. */
  predicate CompletesEntry(lines: seq<string>, n: nat, after: Entries, m: Entries, hashes: seq<string>,
                           blocks: seq<Block>)
    requires n <= |lines|
  {
    && hashes != [] && AllDigests(hashes)
    && HashLines(hashes) + Flatten(blocks) == lines[n..]
    && AllWellFormed(blocks) && Fresh(after, blocks) && MapOf(after, blocks) == m
  }

  /** A suffix that starts with a line and continues with two parts. */
  lemma Tail(lines: seq<string>, n: nat, a: seq<string>, b: seq<string>)
    requires n < |lines| && lines[n + 1..] == a + b
    ensures lines[n..] == [lines[n]] + a + b
  {
  }

  lemma CompletesHead(lines: seq<string>, n: nat, entries: Entries, m: Entries, name: string, version: string,
                      hashes: seq<string>, rest: seq<Block>)
    requires n < |lines| && IsName(name) && IsVersion(version) && lines[n] == EntryLine(name, version)
    requires Normalize(name) !in entries && Distinct(hashes)
    requires CompletesEntry(lines, n + 1, entries[Normalize(name) := Locked(version, Elements(hashes))], m, hashes,
                            rest)
    ensures Completes(lines, n, entries, m, [Entry(name, version, hashes)] + rest)
  {
    Tail(lines, n, HashLines(hashes), Flatten(rest));
  }

  lemma CompletesMore(lines: seq<string>, n: nat, after: Entries, m: Entries, hash: string, rest: seq<string>,
                      blocks: seq<Block>)
    requires n < |lines| && lines[n] == HashLine(hash, true) && IsDigest(hash)
    requires CompletesEntry(lines, n + 1, after, m, rest, blocks)
    ensures CompletesEntry(lines, n, after, m, [hash] + rest, blocks)
  {
    Tail(lines, n, HashLines(rest), Flatten(blocks));
  }

  lemma Onward(done: seq<string>, hash: string, rest: seq<string>)
    ensures done + [hash] + rest == done + ([hash] + rest)
    ensures [] + rest == rest
  {
  }

  /** What the machine found at a line outside an entry. */
  lemma HeadStep(lines: seq<string>, n: nat, entries: Entries, m: Entries) returns (name: string, version: string)
    requires n < |lines| && !IsGap(lines[n]) && Outcome(lines, n, State(entries, Idle)) == Ok(m)
    ensures IsName(name) && IsVersion(version) && lines[n] == EntryLine(name, version)
    ensures Normalize(name) !in entries
    ensures Outcome(lines, n + 1, State(entries, Reading(Normalize(name), version, [], n + 1))) == Ok(m)
  {
    var head := MatchEntry(lines[n]).value;
    EntryLineWritten(lines[n]);
    name, version := head.name, head.version;
  }

  /** And inside one. */
  lemma HashStep(lines: seq<string>, n: nat, entries: Entries, name: string, version: string, done: seq<string>,
                 start: nat, m: Entries) returns (hash: string, more: bool)
    requires n <= |lines| && Outcome(lines, n, State(entries, Reading(name, version, done, start))) == Ok(m)
    ensures n < |lines| && IsDigest(hash) && lines[n] == HashLine(hash, more)
    ensures more ==> Outcome(lines, n + 1, State(entries, Reading(name, version, done + [hash], start))) == Ok(m)
    ensures !more ==>
              && Distinct(done + [hash])
              && Outcome(lines, n + 1, State(entries[name := Locked(version, Elements(done + [hash]))], Idle)) == Ok(m)
  {
    var found := MatchHash(lines[n]).value;
    HashLineWritten(lines[n]);
    hash, more := found.hash, found.more;
  }

  lemma {:induction false} AcceptedBlocks(lines: seq<string>, n: nat, entries: Entries, m: Entries)
    returns (blocks: seq<Block>)
    requires n <= |lines| && Outcome(lines, n, State(entries, Idle)) == Ok(m)
    ensures Completes(lines, n, entries, m, blocks)
    decreases |lines| - n, 1
  {
    if n == |lines| {
      blocks := [];
    } else if IsGap(lines[n]) {
      var rest := AcceptedBlocks(lines, n + 1, entries, m);
      blocks := [Gap(lines[n])] + rest;
    } else {
      var name, version := HeadStep(lines, n, entries, m);
      var hashes, rest := AcceptedHashes(lines, n + 1, entries, Normalize(name), version, [], n + 1, m);
      Onward([], "", hashes);
      CompletesHead(lines, n, entries, m, name, version, hashes, rest);
      blocks := [Entry(name, version, hashes)] + rest;
    }
  }

  lemma {:induction false} AcceptedHashes(lines: seq<string>, n: nat, entries: Entries, name: string, version: string,
                                          done: seq<string>, start: nat, m: Entries)
    returns (hashes: seq<string>, blocks: seq<Block>)
    requires n <= |lines|
    requires Outcome(lines, n, State(entries, Reading(name, version, done, start))) == Ok(m)
    ensures Distinct(done + hashes)
    ensures CompletesEntry(lines, n, entries[name := Locked(version, Elements(done + hashes))], m, hashes, blocks)
    decreases |lines| - n, 0
  {
    var hash, more := HashStep(lines, n, entries, name, version, done, start, m);
    if more {
      var rest;
      rest, blocks := AcceptedHashes(lines, n + 1, entries, name, version, done + [hash], start, m);
      Onward(done, hash, rest);
      hashes := [hash] + rest;
      CompletesMore(lines, n, entries[name := Locked(version, Elements(done + hashes))], m, hash, rest, blocks);
    } else {
      hashes := [hash];
      blocks := AcceptedBlocks(lines, n + 1, entries[name := Locked(version, Elements(done + hashes))], m);
    }
  }

  lemma NamesOfMap(entries: Entries, blocks: seq<Block>)
    requires Names(blocks) == []
    ensures MapOf(entries, blocks) == entries
    decreases |blocks|
  {
    if blocks != [] {
      NamesOfMap(entries, blocks[1..]);
    }
  }

  lemma {:induction false} AcceptedNotEmpty(lines: seq<string>, n: nat, s: State, m: Entries)
    requires n <= |lines| && Outcome(lines, n, s) == Ok(m)
    ensures m != map[]
    decreases |lines| - n
  {
    if n < |lines| {
      AcceptedNotEmpty(lines, n + 1, Step(s, lines[n], n + 1).value, m);
    }
  }

  /** The blocks of an accepted file. */
  lemma AcceptedGrammatical(lines: seq<string>, m: Entries) returns (blocks: seq<Block>)
    requires Parsed(lines) == Ok(m)
    ensures Grammatical(lines, blocks) && MapOf(map[], blocks) == m
  {
    blocks := AcceptedBlocks(lines, 0, map[], m);
    assert lines[0..] == lines;
    FreshExactly(map[], blocks);
    AcceptedNotEmpty(lines, 0, START, m);
    if Names(blocks) == [] {
      NamesOfMap(map[], blocks);
    }
  }

  /** The parser accepts exactly the files of the grammar, with the entries the blocks name. */
  lemma GrammarExact(lines: seq<string>, m: Entries)
    ensures Parsed(lines) == Ok(m) <==> exists blocks :: Grammatical(lines, blocks) && MapOf(map[], blocks) == m
  {
    if Parsed(lines) == Ok(m) {
      var blocks := AcceptedGrammatical(lines, m);
    }
    if blocks :| Grammatical(lines, blocks) && MapOf(map[], blocks) == m {
      GrammaticalAccepted(lines, blocks);
    }
  }
}
