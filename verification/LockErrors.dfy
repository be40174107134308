/** Why a lock file is refused, at which line; and the names, lines and characters of the grammar in literals. */
module LockErrors {
  import opened Options
  import opened LockFile
  import opened LockGrammar

  // ---------- characters ----------

  predicate LetterOrDigit(c: char) {
    'a' <= c <= 'z' || 'A' <= c <= 'Z' || '0' <= c <= '9'
  }

  lemma InSequence(s: string)
    ensures forall i | 0 <= i < |s| :: s[i] in s
    ensures s != "" ==> forall c | c in s :: c == s[0] || exists i | 0 < i < |s| :: s[i] == c
  {
    if s != "" {
      forall c | c in s ensures c == s[0] || exists i | 0 < i < |s| :: s[i] == c {
        var i :| 0 <= i < |s| && s[i] == c;
      }
    }
  }

  lemma NameSpelled(s: string)
    ensures IsName(s) <==>
            s != "" && LetterOrDigit(s[0]) && forall c | c in s :: LetterOrDigit(c) || c in {'.', '_', '-'}
    ensures IsVersion(s) <==>
            s != "" && LetterOrDigit(s[0])
            && forall c | c in s :: LetterOrDigit(c) || c in {'.', '_', '+', '!', '-'}
  {
    InSequence(s);
  }

  lemma DigestSpelled(s: string)
    ensures IsDigest(s) <==> |s| == 64 && forall c | c in s :: '0' <= c <= '9' || 'a' <= c <= 'f'
  {
    InSequence(s);
  }

  /** A gap is an empty line, or white space and a hash sign with anything after it. */
  lemma {:induction false} GapSpelled(line: string)
    ensures IsGap(line) <==>
            line == "" || exists k | 0 <= k < |line| :: line[k] == '#' && forall j | 0 <= j < k :: IsSpace(line[j])
  {
    StrippedSpelled(line);
  }

  lemma {:induction false} StrippedSpelled(s: string)
    ensures StripLeft(s) != "" && StripLeft(s)[0] == '#' <==>
            exists k | 0 <= k < |s| :: s[k] == '#' && forall j | 0 <= j < k :: IsSpace(s[j])
  {
    if s != "" {
      if IsSpace(s[0]) {
        var t := s[1..];
        StrippedSpelled(t);
        assert forall i | 0 <= i < |t| :: t[i] == s[i + 1];
        if k :| 0 <= k < |t| && t[k] == '#' && forall j | 0 <= j < k :: IsSpace(t[j]) {
          assert s[k + 1] == '#' && forall j | 0 <= j < k + 1 :: IsSpace(s[j]);
        }
        if k :| 0 <= k < |s| && s[k] == '#' && forall j | 0 <= j < k :: IsSpace(s[j]) {
          assert k > 0;
          assert t[k - 1] == '#' && forall j | 0 <= j < k - 1 :: IsSpace(t[j]);
        }
      } else {
        if s[0] == '#' {
          var k := 0;
          assert s[k] == '#';
        }
        if k :| 0 <= k < |s| && s[k] == '#' && forall j | 0 <= j < k :: IsSpace(s[j]) {
          assert k == 0;
        }
      }
    }
  }

  // ---------- lines ----------

  /** The two lines of the grammar. */
  lemma LinesSpelled(name: string, version: string, hash: string)
    ensures EntryLine(name, version) == name + "==" + version + " \\"
    ensures HashLine(hash, true) == "    --hash=sha256:" + hash + " \\"
    ensures HashLine(hash, false) == "    --hash=sha256:" + hash
  {
  }

  // ---------- normalized names ----------

  /** Letters and digits one by one: capitals become small, anything else stays. */
  lemma NormalCharacter(c: char, rest: string)
    requires !IsSeparator(c)
    ensures 'A' <= c <= 'Z' ==> Normalize([c] + rest) == ['a' + (c - 'A')] + Normalize(rest)
    ensures !('A' <= c <= 'Z') ==> Normalize([c] + rest) == [c] + Normalize(rest)
  {
    assert ([c] + rest)[1..] == rest;
    if 'A' <= c <= 'Z' {
      assert Lower(c) == 'a' + (c - 'A');
    }
  }

  /** A run of hyphens, underscores and dots becomes one hyphen. */
  lemma {:induction false} NormalRun(run: string, rest: string)
    requires run != "" && (forall c | c in run :: c in {'-', '_', '.'})
    requires rest == "" || rest[0] !in {'-', '_', '.'}
    ensures Normalize(run + rest) == "-" + Normalize(rest)
  {
    assert run[0] in run && forall c | c in run[1..] :: c in run;
    assert (run + rest)[1..] == run[1..] + rest;
    DroppedRun(run[1..], rest);
  }

  lemma {:induction false} DroppedRun(run: string, rest: string)
    requires forall c | c in run :: c in {'-', '_', '.'}
    requires rest == "" || rest[0] !in {'-', '_', '.'}
    ensures DropSeparators(run + rest) == rest
  {
    if run == "" {
      assert run + rest == rest;
    } else {
      assert run[0] in run && forall c | c in run[1..] :: c in run;
      assert (run + rest)[1..] == run[1..] + rest;
      DroppedRun(run[1..], rest);
    }
  }

  // ---------- where the parser stands ----------

  /** The first n lines are whole gaps and entries, and these are the entries. */
  predicate Between(lines: seq<string>, n: nat, entries: Entries, blocks: seq<Block>) {
    && n <= |lines|
    && Flatten(blocks) == lines[..n]
    && AllWellFormed(blocks)
    && Distinct(Names(blocks))
    && entries == MapOf(map[], blocks)
    && entries.Keys == set name | name in Names(blocks)
  }

  /** The entry that starts at a line (counted from one) and its continued hash lines up to the first n lines. */
  predicate Within(lines: seq<string>, n: nat, raw: string, version: string, hashes: seq<string>, start: nat) {
    && 0 < start <= n <= |lines| && |hashes| == n - start
    && IsName(raw) && IsVersion(version) && lines[start - 1] == EntryLine(raw, version)
    && forall i | 0 <= i < |hashes| :: IsDigest(hashes[i]) && lines[start + i] == HashLine(hashes[i], true)
  }

  predicate IsHead(line: string) {
    MatchEntry(line).Some?
  }

  lemma HeadExactly(line: string)
    ensures IsHead(line) <==> exists name, version :: Heads(line, name, version)
  {
    if IsHead(line) {
      EntryLineWritten(line);
      assert Heads(line, MatchEntry(line).value.name, MatchEntry(line).value.version);
    }
    if name, version :| Heads(line, name, version) {
      EntryLineRead(name, version);
    }
  }

  predicate Heads(line: string, name: string, version: string) {
    IsName(name) && IsVersion(version) && line == EntryLine(name, version)
  }

  predicate Continues(line: string, hash: string, more: bool) {
    IsDigest(hash) && line == HashLine(hash, more)
  }

  lemma ContinuationExactly(line: string)
    ensures MatchHash(line).Some? <==> exists hash, more :: Continues(line, hash, more)
  {
    if MatchHash(line).Some? {
      HashLineWritten(line);
      assert Continues(line, MatchHash(line).value.hash, MatchHash(line).value.more);
    }
    if hash, more :| Continues(line, hash, more) {
      HashLineRead(hash, more);
    }
  }

  // ---------- why a file is refused ----------

  /** The first n lines are whole. */
  ghost predicate Stands(lines: seq<string>, n: nat) {
    exists entries, blocks :: Between(lines, n, entries, blocks)
  }

  /** They are whole and have an entry of this name, as this line would begin. */
  ghost predicate Repeated(lines: seq<string>, n: nat, line: string, name: string) {
    exists entries, blocks, raw, version ::
      Between(lines, n, entries, blocks) && Repeats(line, raw, version, name, blocks)
  }

  /** They break off within an entry of this name that starts at line k. */
  ghost predicate Broken(lines: seq<string>, n: nat, name: string, k: nat) {
    exists raw, version, hashes :: Within(lines, n, raw, version, hashes, k) && Normalize(raw) == name
  }

  ghost predicate BrokenOff(lines: seq<string>, n: nat, name: string) {
    exists k :: Broken(lines, n, name, k)
  }

  ghost predicate NoHead(line: string) {
    !exists name, version :: Heads(line, name, version)
  }

  ghost predicate NoContinuation(line: string) {
    !exists hash, more :: Continues(line, hash, more)
  }

  /** What each error says about the file; line numbers start at one. */
  ghost predicate Explained(lines: seq<string>, error: LockError) {
    match error
    case Unsupported(k) =>
      0 < k <= |lines| && Stands(lines, k - 1) && !IsGap(lines[k - 1]) && NoHead(lines[k - 1])
    case RepeatsPackage(k, name) => 0 < k <= |lines| && Repeated(lines, k - 1, lines[k - 1], name)
    case NotContinuation(k, name) =>
      && 0 < k <= |lines| && NoContinuation(lines[k - 1])
      && BrokenOff(lines, k - 1, name)
    case NotHashLocked(_, _) => false
    case RepeatsHash(k, name) =>
      exists n, raw, version, hashes, hash :: HashRepeated(lines, n, raw, version, hashes, hash, k, name)
    case Unterminated(k) => exists name :: Broken(lines, |lines|, name, k)
    case NoPackages => forall i | 0 <= i < |lines| :: IsGap(lines[i])
  }

  predicate Repeats(line: string, raw: string, version: string, name: string, blocks: seq<Block>) {
    Heads(line, raw, version) && Normalize(raw) == name && name in Names(blocks)
  }

  /** An entry that starts at line k ends at line n + 1 with a hash it has had before. */
  predicate HashRepeated(lines: seq<string>, n: nat, raw: string, version: string, hashes: seq<string>, hash: string,
                         k: nat, name: string)
  {
    && n < |lines| && Within(lines, n, raw, version, hashes, k) && Normalize(raw) == name
    && Continues(lines[n], hash, false) && !Distinct(hashes + [hash])
  }

  // ---------- one block more ----------

  lemma {:induction false} FlattenSnoc(blocks: seq<Block>, b: Block)
    ensures Flatten(blocks + [b]) == Flatten(blocks) + Lines(b)
  {
    if blocks == [] {
      assert ([] + [b])[1..] == [] && Lines(b) + [] == Lines(b);
    } else {
      assert (blocks + [b])[1..] == blocks[1..] + [b];
      FlattenSnoc(blocks[1..], b);
    }
  }

  lemma {:induction false} MapSnoc(entries: Entries, blocks: seq<Block>, b: Block)
    ensures MapOf(entries, blocks + [b]) == Added(MapOf(entries, blocks), b)
    decreases |blocks|
  {
    if blocks == [] {
      assert ([] + [b])[1..] == [];
    } else {
      assert (blocks + [b])[1..] == blocks[1..] + [b];
      MapSnoc(Added(entries, blocks[0]), blocks[1..], b);
    }
  }

  function NameOf(b: Block): seq<string> {
    if b.Gap? then [] else [Normalize(b.name)]
  }

  lemma {:induction false} NamesSnoc(blocks: seq<Block>, b: Block)
    ensures Names(blocks + [b]) == Names(blocks) + NameOf(b)
  {
    if blocks == [] {
      assert ([] + [b])[1..] == [];
    } else {
      assert (blocks + [b])[1..] == blocks[1..] + [b];
      NamesSnoc(blocks[1..], b);
    }
  }

  lemma DistinctLast(s: seq<string>, x: string)
    requires Distinct(s) && x !in s
    ensures Distinct(s + [x])
  {
  }

  lemma BetweenMore(lines: seq<string>, n: nat, m: nat, entries: Entries, blocks: seq<Block>, b: Block)
    requires Between(lines, n, entries, blocks) && n <= m <= |lines| && lines[n..m] == Lines(b) && WellFormed(b)
    requires b.Entry? ==> Normalize(b.name) !in entries
    ensures Between(lines, m, Added(entries, b), blocks + [b])
  {
    FlattenSnoc(blocks, b);
    MapSnoc(map[], blocks, b);
    NamesSnoc(blocks, b);
    assert lines[..m] == lines[..n] + lines[n..m];
    if b.Entry? {
      DistinctLast(Names(blocks), Normalize(b.name));
    }
  }

  lemma EntryWhole(lines: seq<string>, n: nat, raw: string, version: string, hashes: seq<string>, hash: string,
                   start: nat)
    requires Within(lines, n, raw, version, hashes, start) && n < |lines| && Continues(lines[n], hash, false)
    requires Distinct(hashes + [hash])
    ensures lines[start - 1..n + 1] == Lines(Entry(raw, version, hashes + [hash]))
    ensures WellFormed(Entry(raw, version, hashes + [hash]))
  {
    var all := hashes + [hash];
    forall i | 0 <= i < |all| ensures IsDigest(all[i]) && lines[start + i] == HashLine(all[i], i < |all| - 1) {
      assert i < |hashes| ==> all[i] == hashes[i];
    }
    assert lines[start - 1..n + 1] == [lines[start - 1]] + lines[start..n + 1];
    assert lines[start..n + 1] == HashLines(all);
  }

  // ---------- walking through the file ----------

  lemma {:induction false} WalkIdle(lines: seq<string>, n: nat, entries: Entries, blocks: seq<Block>, error: LockError)
    requires Between(lines, n, entries, blocks) && Outcome(lines, n, State(entries, Idle)) == Err(error)
    ensures Explained(lines, error)
    decreases |lines| - n, 1
  {
    if n == |lines| {
      NoEntries(lines, entries, blocks);
    } else if IsGap(lines[n]) {
      assert lines[n..n + 1] == [lines[n]];
      BetweenMore(lines, n, n + 1, entries, blocks, Gap(lines[n]));
      WalkIdle(lines, n + 1, entries, blocks + [Gap(lines[n])], error);
    } else {
      HeadExactly(lines[n]);
      if IsHead(lines[n]) {
        var head := MatchEntry(lines[n]).value;
        EntryLineWritten(lines[n]);
        var name := Normalize(head.name);
        if name in entries {
          assert Repeats(lines[n], head.name, head.version, name, blocks);
        } else {
          WalkReading(lines, n + 1, entries, blocks, head.name, head.version, [], n + 1, error);
        }
      }
    }
  }

  lemma {:induction false} WalkReading(lines: seq<string>, n: nat, entries: Entries, blocks: seq<Block>, raw: string,
                                       version: string, hashes: seq<string>, start: nat, error: LockError)
    requires 0 < start && Between(lines, start - 1, entries, blocks) && Normalize(raw) !in entries
    requires Within(lines, n, raw, version, hashes, start)
    requires Outcome(lines, n, State(entries, Reading(Normalize(raw), version, hashes, start))) == Err(error)
    ensures Explained(lines, error)
    decreases |lines| - n, 0
  {
    if n == |lines| || MatchHash(lines[n]).None? {
      ReadingEnds(lines, n, entries, raw, version, hashes, start, error);
    } else if MatchHash(lines[n]).value.more {
      ReadingMore(lines, n, entries, raw, version, hashes, start, error);
      WalkReading(lines, n + 1, entries, blocks, raw, version, hashes + [MatchHash(lines[n]).value.hash], start, error);
    } else if Distinct(hashes + [MatchHash(lines[n]).value.hash]) {
      var b := Entry(raw, version, hashes + [MatchHash(lines[n]).value.hash]);
      ReadingDone(lines, n, entries, blocks, raw, version, hashes, start, error);
      WalkIdle(lines, n + 1, Added(entries, b), blocks + [b], error);
    } else {
      ReadingRepeats(lines, n, entries, raw, version, hashes, start, error);
    }
  }

  lemma ReadingMore(lines: seq<string>, n: nat, entries: Entries, raw: string, version: string, hashes: seq<string>,
                    start: nat, error: LockError)
    requires Within(lines, n, raw, version, hashes, start) && n < |lines|
    requires MatchHash(lines[n]).Some? && MatchHash(lines[n]).value.more
    requires Outcome(lines, n, State(entries, Reading(Normalize(raw), version, hashes, start))) == Err(error)
    ensures var all := hashes + [MatchHash(lines[n]).value.hash];
            && Within(lines, n + 1, raw, version, all, start)
            && Outcome(lines, n + 1, State(entries, Reading(Normalize(raw), version, all, start))) == Err(error)
  {
    HashLineWritten(lines[n]);
    WithinMore(lines, n, raw, version, hashes, start, MatchHash(lines[n]).value.hash);
    ReadingGoesOn(lines, n, entries, raw, version, hashes, start, MatchHash(lines[n]).value);
  }

  lemma ReadingDone(lines: seq<string>, n: nat, entries: Entries, blocks: seq<Block>, raw: string, version: string,
                    hashes: seq<string>, start: nat, error: LockError)
    requires 0 < start && Between(lines, start - 1, entries, blocks) && Normalize(raw) !in entries
    requires Within(lines, n, raw, version, hashes, start) && n < |lines|
    requires MatchHash(lines[n]).Some? && !MatchHash(lines[n]).value.more
    requires Distinct(hashes + [MatchHash(lines[n]).value.hash])
    requires Outcome(lines, n, State(entries, Reading(Normalize(raw), version, hashes, start))) == Err(error)
    ensures var b := Entry(raw, version, hashes + [MatchHash(lines[n]).value.hash]);
            && Between(lines, n + 1, Added(entries, b), blocks + [b])
            && Outcome(lines, n + 1, State(Added(entries, b), Idle)) == Err(error)
  {
    HashLineWritten(lines[n]);
    EntryDone(lines, n, entries, blocks, raw, version, hashes, MatchHash(lines[n]).value.hash, start);
    ReadingGoesOn(lines, n, entries, raw, version, hashes, start, MatchHash(lines[n]).value);
  }

  lemma ReadingRepeats(lines: seq<string>, n: nat, entries: Entries, raw: string, version: string, hashes: seq<string>,
                       start: nat, error: LockError)
    requires Within(lines, n, raw, version, hashes, start) && n < |lines|
    requires MatchHash(lines[n]).Some? && !MatchHash(lines[n]).value.more
    requires !Distinct(hashes + [MatchHash(lines[n]).value.hash])
    requires Outcome(lines, n, State(entries, Reading(Normalize(raw), version, hashes, start))) == Err(error)
    ensures Explained(lines, error)
  {
    HashLineWritten(lines[n]);
    ReadingGoesOn(lines, n, entries, raw, version, hashes, start, MatchHash(lines[n]).value);
    RepeatedExplained(lines, n, raw, version, hashes, MatchHash(lines[n]).value.hash, start);
  }

  lemma EntryDone(lines: seq<string>, n: nat, entries: Entries, blocks: seq<Block>, raw: string, version: string,
                  hashes: seq<string>, hash: string, start: nat)
    requires 0 < start && Between(lines, start - 1, entries, blocks) && Normalize(raw) !in entries
    requires Within(lines, n, raw, version, hashes, start) && n < |lines| && Continues(lines[n], hash, false)
    requires Distinct(hashes + [hash])
    ensures var b := Entry(raw, version, hashes + [hash]); Between(lines, n + 1, Added(entries, b), blocks + [b])
  {
    EntryWhole(lines, n, raw, version, hashes, hash, start);
    BetweenMore(lines, start - 1, n + 1, entries, blocks, Entry(raw, version, hashes + [hash]));
  }

  lemma RepeatedExplained(lines: seq<string>, n: nat, raw: string, version: string, hashes: seq<string>, hash: string,
                          start: nat)
    requires Within(lines, n, raw, version, hashes, start) && n < |lines| && Continues(lines[n], hash, false)
    requires !Distinct(hashes + [hash])
    ensures Explained(lines, RepeatsHash(start, Normalize(raw)))
  {
    assert HashRepeated(lines, n, raw, version, hashes, hash, start, Normalize(raw));
  }

  lemma ReadingEnds(lines: seq<string>, n: nat, entries: Entries, raw: string, version: string, hashes: seq<string>,
                    start: nat, error: LockError)
    requires Within(lines, n, raw, version, hashes, start)
    requires Outcome(lines, n, State(entries, Reading(Normalize(raw), version, hashes, start))) == Err(error)
    requires n == |lines| || MatchHash(lines[n]).None?
    ensures Explained(lines, error)
  {
    assert Broken(lines, n, Normalize(raw), start);
    if n < |lines| {
      ContinuationExactly(lines[n]);
    }
  }

  lemma ReadingGoesOn(lines: seq<string>, n: nat, entries: Entries, raw: string, version: string, hashes: seq<string>,
                      start: nat, found: Continuation)
    requires n < |lines| && MatchHash(lines[n]) == Some(found)
    ensures var name, all := Normalize(raw), hashes + [found.hash];
            Outcome(lines, n, State(entries, Reading(name, version, hashes, start))) ==
            if found.more then Outcome(lines, n + 1, State(entries, Reading(name, version, all, start)))
            else if Distinct(all) then
              Outcome(lines, n + 1, State(Added(entries, Entry(raw, version, all)), Idle))
            else Err(RepeatsHash(start, name))
  {
  }

  lemma WithinMore(lines: seq<string>, n: nat, raw: string, version: string, hashes: seq<string>, start: nat,
                   hash: string)
    requires Within(lines, n, raw, version, hashes, start) && n < |lines| && Continues(lines[n], hash, true)
    ensures Within(lines, n + 1, raw, version, hashes + [hash], start)
  {
  }

  lemma NoEntries(lines: seq<string>, entries: Entries, blocks: seq<Block>)
    requires Between(lines, |lines|, entries, blocks) && entries == map[]
    ensures forall i | 0 <= i < |lines| :: IsGap(lines[i])
  {
    assert lines[..|lines|] == lines;
    forall name ensures name !in Names(blocks) {
      assert name !in entries;
    }
    AllGaps(blocks);
  }

  lemma {:induction false} AllGaps(blocks: seq<Block>)
    requires AllWellFormed(blocks) && forall name :: name !in Names(blocks)
    ensures forall i | 0 <= i < |Flatten(blocks)| :: IsGap(Flatten(blocks)[i])
  {
    if blocks != [] {
      assert blocks[0].Entry? ==> Names(blocks)[0] in Names(blocks);
      assert blocks[0].Gap?;
      assert Names(blocks) == Names(blocks[1..]);
      AllGaps(blocks[1..]);
    }
  }

  /** A refused file is refused for what its error says. */
  lemma ErrorsExplained(lines: seq<string>, error: LockError)
    requires Parsed(lines) == Err(error)
    ensures Explained(lines, error)
  {
    assert Flatten([]) == lines[..0];
    WalkIdle(lines, 0, map[], [], error);
  }
}
