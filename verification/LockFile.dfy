/** The line-driven parser of the hash-locked requirement files, over the lines of a file. */
module LockFile {
  import opened Options

  datatype Result<+T> = Ok(value: T) | Err(error: LockError)

  /** Line numbers start at one. */
  datatype LockError =
    | Unsupported(line: nat)
    | RepeatsPackage(line: nat, name: string)
    | NotContinuation(line: nat, name: string)
    | NotHashLocked(line: nat, name: string)
    | RepeatsHash(line: nat, name: string)
    | Unterminated(line: nat)
    | NoPackages

  datatype Locked = Locked(version: string, hashes: set<string>)

  type Entries = map<string, Locked>

  // ---------- names ----------

  predicate IsUpper(c: char) {
    'A' <= c <= 'Z'
  }

  predicate IsAlphanumeric(c: char) {
    IsUpper(c) || 'a' <= c <= 'z' || '0' <= c <= '9'
  }

  predicate IsSeparator(c: char) {
    c == '-' || c == '_' || c == '.'
  }

  predicate IsName(s: string) {
    && s != ""
    && IsAlphanumeric(s[0])
    && forall i | 0 < i < |s| :: IsAlphanumeric(s[i]) || IsSeparator(s[i])
  }

  predicate IsVersion(s: string) {
    && s != ""
    && IsAlphanumeric(s[0])
    && forall i | 0 < i < |s| :: IsAlphanumeric(s[i]) || IsSeparator(s[i]) || s[i] == '+' || s[i] == '!'
  }

  function Lower(c: char): char {
    if IsUpper(c) then (c as int + 32) as char else c
  }

  function DropSeparators(s: string): (r: string)
    ensures |r| <= |s|
    ensures r != "" ==> !IsSeparator(r[0])
  {
    if s != "" && IsSeparator(s[0]) then DropSeparators(s[1..]) else s
  }

  /** Each run of separators becomes one hyphen, each letter a small one. */
  function Normalize(name: string): string
    decreases |name|
  {
    if name == "" then ""
    else if IsSeparator(name[0]) then "-" + Normalize(DropSeparators(name[1..]))
    else [Lower(name[0])] + Normalize(name[1..])
  }

  // ---------- lines ----------

  /** White space as Python strips it. */
  predicate IsSpace(c: char) {
    || '\t' <= c <= '\r'
    || '\U{1c}' <= c <= ' '
    || c == '\U{85}' || c == '\U{a0}' || c == '\U{1680}'
    || '\U{2000}' <= c <= '\U{200a}'
    || c == '\U{2028}' || c == '\U{2029}' || c == '\U{202f}' || c == '\U{205f}' || c == '\U{3000}'
  }

  function StripLeft(s: string): string {
    if s != "" && IsSpace(s[0]) then StripLeft(s[1..]) else s
  }

  /** An empty line, or a comment. */
  predicate IsGap(line: string) {
    line == "" || (StripLeft(line) != "" && StripLeft(line)[0] == '#')
  }

  const CONTINUED := " \\"

  function EntryLine(name: string, version: string): string {
    name + "==" + version + CONTINUED
  }

  datatype Head = Head(name: string, version: string)

  /** Where the first equals sign is; the length when there is none. */
  function FirstEquals(s: string): (i: nat)
    ensures i <= |s|
    ensures i < |s| ==> s[i] == '='
    ensures forall j | 0 <= j < i :: s[j] != '='
  {
    if s == "" || s[0] == '=' then 0 else 1 + FirstEquals(s[1..])
  }

  /** The head line of an entry, taken apart. */
  function MatchEntry(line: string): Option<Head> {
    if |line| < 2 || line[|line| - 2..] != CONTINUED then None
    else
      var body := line[..|line| - 2];
      var i := FirstEquals(body);
      if i + 2 <= |body| && body[i + 1] == '=' && IsName(body[..i]) && IsVersion(body[i + 2..]) then
        Some(Head(body[..i], body[i + 2..]))
      else None
  }

  const HASH_PREFIX := "    --hash=sha256:"

  const DIGEST := 64

  predicate IsDigest(s: string) {
    |s| == DIGEST && forall i | 0 <= i < |s| :: '0' <= s[i] <= '9' || 'a' <= s[i] <= 'f'
  }

  function HashLine(hash: string, more: bool): string {
    HASH_PREFIX + hash + if more then CONTINUED else ""
  }

  datatype Continuation = Continuation(hash: string, more: bool)

  /** A hash line, taken apart. */
  function MatchHash(line: string): Option<Continuation> {
    var n := |HASH_PREFIX|;
    if |line| < n + DIGEST || line[..n] != HASH_PREFIX || !IsDigest(line[n..n + DIGEST]) then None
    else if line[n + DIGEST..] == "" then Some(Continuation(line[n..], false))
    else if line[n + DIGEST..] == CONTINUED then Some(Continuation(line[n..n + DIGEST], true))
    else None
  }

  // ---------- the parser as a machine ----------

  datatype Current = Idle | Reading(name: string, version: string, hashes: seq<string>, line: nat)

  datatype State = State(entries: Entries, current: Current)

  predicate Distinct(s: seq<string>) {
    forall i, j | 0 <= i < j < |s| :: s[i] != s[j]
  }

  function Elements(s: seq<string>): set<string> {
    set i | 0 <= i < |s| :: s[i]
  }

  function Finished(entries: Entries, name: string, version: string, hashes: seq<string>, line: nat): Result<Entries> {
    if hashes == [] then Err(NotHashLocked(line, name))
    else if !Distinct(hashes) then Err(RepeatsHash(line, name))
    else Ok(entries[name := Locked(version, Elements(hashes))])
  }

  /** What one line does. */
  function Step(s: State, line: string, number: nat): Result<State> {
    match s.current
    case Idle =>
      if IsGap(line) then Ok(s)
      else
        var head := MatchEntry(line);
        if head.None? then Err(Unsupported(number))
        else
          var name := Normalize(head.value.name);
          if name in s.entries then Err(RepeatsPackage(number, name))
          else Ok(s.(current := Reading(name, head.value.version, [], number)))
    case Reading(name, version, hashes, start) =>
      var m := MatchHash(line);
      if m.None? then Err(NotContinuation(number, name))
      else if m.value.more then Ok(s.(current := s.current.(hashes := hashes + [m.value.hash])))
      else
        var entries := Finished(s.entries, name, version, hashes + [m.value.hash], start);
        if entries.Err? then Err(entries.error) else Ok(State(entries.value, Idle))
  }

  function End(s: State): Result<Entries> {
    if s.current.Reading? then Err(Unterminated(s.current.line))
    else if s.entries == map[] then Err(NoPackages)
    else Ok(s.entries)
  }

  /** What the parser answers when it has reached line n in state s. */
  function Outcome(lines: seq<string>, n: nat, s: State): Result<Entries>
    requires n <= |lines|
    decreases |lines| - n
  {
    if n == |lines| then End(s)
    else
      var next := Step(s, lines[n], n + 1);
      if next.Err? then Err(next.error) else Outcome(lines, n + 1, next.value)
  }

  const START := State(map[], Idle)

  function Parsed(lines: seq<string>): Result<Entries> {
    Outcome(lines, 0, START)
  }

  // ---------- the parser as a loop ----------

  method AllDistinct(s: seq<string>) returns (yes: bool)
    ensures yes == Distinct(s)
  {
    var seen: set<string> := {};
    for n := 0 to |s|
      invariant Distinct(s[..n])
      invariant forall x :: x in seen <==> x in s[..n]
    {
      if s[n] in seen {
        var i :| 0 <= i < n && s[..n][i] == s[n];
        assert s[i] == s[n];
        return false;
      }
      seen := seen + {s[n]};
      assert s[..n + 1] == s[..n] + [s[n]];
    }
    assert s[..|s|] == s;
    return true;
  }

  method FinishLockEntry(name: string, version: string, hashes: seq<string>, line: nat, entries: Entries)
    returns (r: Result<Entries>)
    ensures r == Finished(entries, name, version, hashes, line)
  {
    if hashes == [] {
      return Err(NotHashLocked(line, name));
    }
    var distinct := AllDistinct(hashes);
    if !distinct {
      return Err(RepeatsHash(line, name));
    }
    return Ok(entries[name := Locked(version, Elements(hashes))]);
  }

  /** The loop variables as a state of the machine. */
  function View(entries: Entries, name: Option<string>, version: string, hashes: seq<string>, line: nat): State {
    State(entries, if name.None? then Idle else Reading(name.value, version, hashes, line))
  }

  method ParseLock(lines: seq<string>) returns (r: Result<Entries>)
    ensures r == Parsed(lines)
  {
    var entries: Entries := map[];
    var currentName: Option<string> := None;
    var currentVersion, currentHashes, entryLine := "", [], 0;
    for n := 0 to |lines|
      invariant Parsed(lines) == Outcome(lines, n, View(entries, currentName, currentVersion, currentHashes, entryLine))
    {
      var line := lines[n];
      if currentName.None? {
        if IsGap(line) {
          continue;
        }
        var head := MatchEntry(line);
        if head.None? {
          return Err(Unsupported(n + 1));
        }
        currentName := Some(Normalize(head.value.name));
        currentVersion := head.value.version;
        entryLine := n + 1;
        currentHashes := [];
        if currentName.value in entries {
          return Err(RepeatsPackage(n + 1, currentName.value));
        }
        continue;
      }
      var m := MatchHash(line);
      if m.None? {
        return Err(NotContinuation(n + 1, currentName.value));
      }
      currentHashes := currentHashes + [m.value.hash];
      if !m.value.more {
        var finished := FinishLockEntry(currentName.value, currentVersion, currentHashes, entryLine, entries);
        if finished.Err? {
          return Err(finished.error);
        }
        entries := finished.value;
        currentName := None;
        currentVersion := "";
        currentHashes := [];
      }
    }
    if currentName.Some? {
      return Err(Unterminated(entryLine));
    }
    if entries == map[] {
      return Err(NoPackages);
    }
    return Ok(entries);
  }
}
