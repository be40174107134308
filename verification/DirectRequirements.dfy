/**
 The direct requirement files: the closed specifier grammar, what reading a file accepts, and what that leaves a
 locked version to be judged by.
 */
module DirectRequirements {
  import opened Options
  import opened Versions
  import LockFile

  // ---------- the closed specifier grammar ----------

  predicate IsDigit(c: char) {
    '0' <= c <= '9'
  }

  /** How many characters of an operator a text starts with. */
  function OperatorWidth(s: string): (w: nat)
    ensures w <= |s|
  {
    if |s| >= 2 && s[1] == '=' && (s[0] == '=' || s[0] == '<' || s[0] == '>') then 2
    else if s != "" && (s[0] == '<' || s[0] == '>') then 1
    else 0
  }

  function DigitRun(s: string): (n: nat)
    ensures n <= |s|
    ensures forall i | 0 <= i < n :: IsDigit(s[i])
    ensures n < |s| ==> !IsDigit(s[n])
  {
    if s != "" && IsDigit(s[0]) then 1 + DigitRun(s[1..]) else 0
  }

  /** How much of a text digits make up, and more digits after single dots; nothing when it starts with no digit. */
  function VersionRun(s: string): (n: nat)
    ensures n <= |s|
    decreases |s|
  {
    var n := DigitRun(s);
    if n == 0 || n == |s| || s[n] != '.' then n
    else
      var more := VersionRun(s[n + 1..]);
      if more == 0 then n else n + 1 + more
  }

  /** Operators and numeric versions in turn, with commas between the pairs. */
  predicate ClosedSpecifier(s: string)
    decreases |s|
  {
    var w := OperatorWidth(s);
    && w > 0
    && var n := VersionRun(s[w..]);
       && n > 0
       && (w + n == |s| || (s[w + n] == ',' && ClosedSpecifier(s[w + n + 1..])))
  }

  // ---------- the grammar and the parser of clauses ----------

  lemma DigitsWhole(s: string)
    ensures IsDigits(s) <==> s != "" && DigitRun(s) == |s|
  {
    assert forall i | 0 <= i < |s| :: IsDigit(s[i]) <==> '0' <= s[i] <= '9';
  }

  /** What a first dot splits a version into. */
  lemma RunAtDot(s: string, i: nat)
    requires i < |s| && s[i] == '.' && '.' !in s[..i]
    ensures s != "" && VersionRun(s) == |s| <==>
            IsDigits(s[..i]) && s[i + 1..] != "" && VersionRun(s[i + 1..]) == |s[i + 1..]|
  {
    PrefixRun(s, i);
    DigitsWhole(s[..i]);
    var n := DigitRun(s);
    if n < i {
      assert s[n] == s[..i][n];
    }
  }

  lemma SplitFirst(s: string, c: char)
    ensures var i := Find(s, c);
            && c !in s[..i]
            && Split(s, c) == if i == |s| then [s] else [s[..i]] + Split(s[i + 1..], c)
  {
  }

  /** A numeric version is a text that is all version. */
  lemma {:induction false} NumericExactly(s: string)
    ensures NumericVersion(s).Some? <==> s != "" && VersionRun(s) == |s|
    decreases |s|
  {
    var i := Find(s, '.');
    SplitFirst(s, '.');
    if i == |s| {
      DigitsWhole(s);
      NoDot(s);
    } else {
      NumericExactly(s[i + 1..]);
      HeadDigits(s[..i], Split(s[i + 1..], '.'));
      RunAtDot(s, i);
    }
  }

  lemma NoDot(s: string)
    requires '.' !in s
    ensures VersionRun(s) == DigitRun(s) && AllDigits([s]) == IsDigits(s)
  {
    assert [s][0] == s;
  }

  lemma HeadDigits(first: string, more: seq<string>)
    ensures AllDigits([first] + more) <==> IsDigits(first) && AllDigits(more)
  {
    var all := [first] + more;
    assert all[0] == first && forall k | 0 <= k < |more| :: all[k + 1] == more[k];
    if IsDigits(first) && AllDigits(more) {
      assert forall k | 0 < k < |all| :: all[k] == more[k - 1];
    }
  }

  lemma {:induction false} PrefixRun(s: string, i: nat)
    requires i < |s| && !IsDigit(s[i])
    ensures DigitRun(s) == DigitRun(s[..i])
  {
    if i > 0 && IsDigit(s[0]) {
      assert s[1..][..i - 1] == s[..i][1..];
      PrefixRun(s[1..], i - 1);
    }
  }

  lemma DropAfter(c: string, rest: string, k: nat)
    requires k <= |c|
    ensures (c + rest)[k..] == c[k..] + rest
  {
  }

  /** A comma ends a version as the end of the text does. */
  lemma {:induction false} VersionStops(a: string, rest: string)
    requires rest == "" || rest[0] == ','
    ensures VersionRun(a + rest) == VersionRun(a)
    decreases |a|
  {
    var n := DigitRun(a);
    DigitsStop(a, rest);
    if n == |a| {
      assert n == |a + rest| || (a + rest)[n] == rest[0];
    } else {
      assert (a + rest)[n] == a[n];
      if a[n] == '.' && n > 0 {
        DropAfter(a, rest, n + 1);
        VersionStops(a[n + 1..], rest);
      }
    }
  }

  lemma {:induction false} DigitsStop(a: string, rest: string)
    requires rest == "" || rest[0] == ','
    ensures DigitRun(a + rest) == DigitRun(a)
  {
    if a == "" {
      assert a + rest == rest;
    } else if IsDigit(a[0]) {
      assert (a + rest)[1..] == a[1..] + rest;
      DigitsStop(a[1..], rest);
    }
  }

  /** One clause of the grammar. */
  predicate ClosedClause(c: string) {
    var w := OperatorWidth(c);
    w > 0 && w < |c| && VersionRun(c[w..]) == |c| - w
  }

  lemma ClauseExactly(c: string)
    ensures ParseClause(c).Some? <==> ClosedClause(c)
  {
    var w := OperatorWidth(c);
    NumericExactly(c[w..]);
  }

  lemma OperatorStops(c: string, rest: string)
    requires rest == "" || rest[0] == ','
    ensures OperatorWidth(c + rest) == OperatorWidth(c)
  {
    if |c| == 1 && rest != "" {
      assert (c + rest)[1] == rest[0];
    }
  }

  /** A specifier is a clause up to its first comma and a specifier after it. */
  lemma ClosedStep(c: string, rest: string)
    requires ',' !in c && (rest == "" || rest[0] == ',')
    ensures ClosedSpecifier(c + rest) <==> ClosedClause(c) && (rest == "" || ClosedSpecifier(rest[1..]))
  {
    var w := OperatorWidth(c);
    OperatorStops(c, rest);
    DropAfter(c, rest, w);
    VersionStops(c[w..], rest);
    var n := VersionRun(c[w..]);
    DropAfter(c, rest, w + n);
    if w + n < |c| {
      assert (c + rest)[w + n] == c[w + n];
    } else if rest != "" {
      assert (c + rest)[w + n + 1..] == rest[1..];
    }
  }

  /** Every clause of a text parses exactly when the text is in the grammar. */
  lemma {:induction false} ClosedExactly(s: string)
    ensures ClosedSpecifier(s) <==> !SomeMalformed(Split(s, ','))
    decreases |s|
  {
    var i := Find(s, ',');
    SplitFirst(s, ',');
    var c, rest := s[..i], s[i..];
    assert s == c + rest;
    ClosedStep(c, rest);
    ClauseExactly(c);
    if i == |s| {
      assert c == s && [s][0] == s;
    } else {
      assert rest[1..] == s[i + 1..];
      ClosedExactly(s[i + 1..]);
      MalformedHead(c, Split(s[i + 1..], ','));
    }
  }

  lemma MalformedHead(first: string, more: seq<string>)
    ensures SomeMalformed([first] + more) <==> IsMalformed(first) || SomeMalformed(more)
  {
    var all := [first] + more;
    assert all[0] == first && forall k | 0 <= k < |more| :: all[k + 1] == more[k];
    assert forall k | 0 < k < |all| :: all[k] == more[k - 1];
  }

  /**
   The clauses of a closed specifier may come in any order: no version is judged differently, and none of them is
   ever found malformed.
   */
  lemma ClosedOrderIndependent(version: string, a: string, b: string)
    requires ClosedSpecifier(a) && Permuted(Split(a, ','), Split(b, ','))
    ensures Satisfying(version, a) == Satisfying(version, b) != MalformedClause
  {
    ClosedExactly(a);
    var locked := NumericVersion(version);
    if locked.Some? {
      OrderMattersExactly(locked.value, Split(a, ','));
      VerdictFound(locked.value, Split(a, ','));
      assert !OrdersDisagree(locked.value, Split(a, ','), Split(b, ','));
    }
  }

  // ---------- reading a requirement file ----------

  function StripRight(s: string): string {
    if s != "" && LockFile.IsSpace(s[|s| - 1]) then StripRight(s[..|s| - 1]) else s
  }

  function Strip(s: string): string {
    StripRight(LockFile.StripLeft(s))
  }

  /** A line without its comment and the white space around it. */
  function Content(line: string): string {
    Strip(line[..Find(line, '#')])
  }

  /** How far the name goes: up to the first character of an operator. */
  function NameRun(s: string): (n: nat)
    ensures n <= |s|
  {
    if s != "" && (LockFile.IsAlphanumeric(s[0]) || LockFile.IsSeparator(s[0])) then 1 + NameRun(s[1..]) else 0
  }

  const BOUND := 512

  /** Nothing to strip, and not too long. */
  predicate Canonical(value: string) {
    value != "" && value == Strip(value) && |value| <= BOUND
  }

  datatype DirectError = Unbounded | Open | Repeats(name: string) | Empty

  datatype DirectValue = Entry(requirement: Requirement) | Bad(error: DirectError)

  /** One requirement: a bounded text with nothing to strip, a name and a closed specifier. */
  function ParseDirectValue(value: string): DirectValue {
    if !Canonical(value) then Bad(Unbounded)
    else
      var n := NameRun(value);
      if LockFile.IsName(value[..n]) && ClosedSpecifier(value[n..]) then
        Entry(Requirement(LockFile.Normalize(value[..n]), value[n..]))
      else Bad(Open)
  }

  /** A name and a closed specifier in one text come apart again. */
  lemma NameSpecifier(name: string, specifier: string)
    requires LockFile.IsName(name) && ClosedSpecifier(specifier)
    ensures NameRun(name + specifier) == |name|
    ensures (name + specifier)[..|name|] == name && (name + specifier)[|name|..] == specifier
  {
    NameStops(name, specifier);
  }

  lemma {:induction false} NameStops(name: string, specifier: string)
    requires ClosedSpecifier(specifier)
    requires forall i | 0 <= i < |name| :: LockFile.IsAlphanumeric(name[i]) || LockFile.IsSeparator(name[i])
    ensures NameRun(name + specifier) == |name|
  {
    if name == "" {
      assert name + specifier == specifier && OperatorWidth(specifier) > 0;
    } else {
      assert (name + specifier)[1..] == name[1..] + specifier;
      NameStops(name[1..], specifier);
    }
  }

  predicate Spells(value: string, name: string, r: Requirement) {
    LockFile.IsName(name) && value == name + r.specifier && r.name == LockFile.Normalize(name)
  }

  /** A value is read exactly when it is a name and a closed specifier, within bounds; that is its only reading. */
  lemma DirectValueExactly(value: string, r: Requirement)
    ensures ParseDirectValue(value) == Entry(r) <==>
            Canonical(value) && ClosedSpecifier(r.specifier) && exists name :: Spells(value, name, r)
  {
    var n := NameRun(value);
    if ParseDirectValue(value) == Entry(r) {
      assert value == value[..n] + r.specifier;
      assert Spells(value, value[..n], r);
    }
    if name :| Canonical(value) && ClosedSpecifier(r.specifier) && Spells(value, name, r) {
      NameSpecifier(name, r.specifier);
    }
  }

  datatype DirectResult = Read(requirements: seq<Requirement>) | Refused(line: nat, error: DirectError)

  function DirectNames(requirements: seq<Requirement>): seq<string> {
    seq(|requirements|, i requires 0 <= i < |requirements| => requirements[i].name)
  }

  /** The requirements of the lines that have content; none when one is not a requirement. */
  function Requirements(lines: seq<string>): Option<seq<Requirement>> {
    if lines == [] then Some([])
    else
      var content := Content(lines[|lines| - 1]);
      match Requirements(lines[..|lines| - 1])
      case None => None
      case Some(before) =>
        if content == "" then Some(before)
        else match ParseDirectValue(content) case Entry(r) => Some(before + [r]) case Bad(_) => None
  }

  /** The lines are requirements with distinct names. */
  predicate Readable(lines: seq<string>) {
    Requirements(lines).Some? && LockFile.Distinct(DirectNames(Requirements(lines).value))
  }

  /** `parse_direct_requirements`, on the lines of the file. */
  method ParseDirectRequirements(lines: seq<string>) returns (r: DirectResult)
    ensures r.Read? <==> Readable(lines) && Requirements(lines) != Some([])
    ensures r.Read? ==> Requirements(lines) == Some(r.requirements)
    ensures r.Refused? && r.error == Empty ==> Requirements(lines) == Some([])
    ensures r.Refused? && r.error != Empty ==>
              && 0 < r.line <= |lines| && Readable(lines[..r.line - 1])
              && match ParseDirectValue(Content(lines[r.line - 1]))
                 case Bad(error) => r.error == error && Content(lines[r.line - 1]) != ""
                 case Entry(entry) =>
                   && r.error == Repeats(entry.name)
                   && entry.name in DirectNames(Requirements(lines[..r.line - 1]).value)
  {
    var requirements: seq<Requirement> := [];
    for n := 0 to |lines|
      invariant Requirements(lines[..n]) == Some(requirements)
      invariant LockFile.Distinct(DirectNames(requirements))
    {
      assert lines[..n + 1][..n] == lines[..n];
      var content := Content(lines[n]);
      if content == "" {
        continue;
      }
      match ParseDirectValue(content) {
        case Bad(error) =>
          RefusedStays(lines, n + 1);
          return Refused(n + 1, error);
        case Entry(entry) =>
          if exists i | 0 <= i < |requirements| :: requirements[i].name == entry.name {
            NamesSnoc(requirements, entry);
            RefusedStays(lines, n + 1);
            return Refused(n + 1, Repeats(entry.name));
          }
          NamesSnoc(requirements, entry);
          requirements := requirements + [entry];
      }
    }
    assert lines[..|lines|] == lines;
    if requirements == [] {
      return Refused(|lines|, Empty);
    }
    return Read(requirements);
  }

  lemma NamesSnoc(requirements: seq<Requirement>, r: Requirement)
    ensures var names := DirectNames(requirements);
            && DirectNames(requirements + [r]) == names + [r.name]
            && (r.name in names <==> exists i | 0 <= i < |requirements| :: requirements[i].name == r.name)
            && (LockFile.Distinct(names + [r.name]) <==> LockFile.Distinct(names) && r.name !in names)
  {
    var names := DirectNames(requirements);
    DistinctSnoc(names, r.name);
    if i :| 0 <= i < |requirements| && requirements[i].name == r.name {
      assert names[i] == r.name;
    }
  }

  lemma DistinctSnoc(names: seq<string>, name: string)
    ensures LockFile.Distinct(names + [name]) <==> LockFile.Distinct(names) && name !in names
  {
    var more := names + [name];
    assert more[|names|] == name && forall i | 0 <= i < |names| :: more[i] == names[i];
    if LockFile.Distinct(more) {
      forall i, j | 0 <= i < j < |names| ensures names[i] != names[j] {
        assert more[i] != more[j];
      }
    }
  }

  lemma {:induction false} RefusedStays(lines: seq<string>, n: nat)
    requires n <= |lines| && !Readable(lines[..n])
    ensures !Readable(lines)
  {
    if n == |lines| {
      assert lines[..n] == lines;
    } else {
      var init := lines[..|lines| - 1];
      assert init[..n] == lines[..n];
      RefusedStays(init, n);
      if Requirements(lines).Some? {
        var before := Requirements(init).value;
        if Content(lines[|lines| - 1]) != "" {
          NamesSnoc(before, ParseDirectValue(Content(lines[|lines| - 1])).requirement);
        }
      }
    }
  }

  // ---------- what that leaves to be judged ----------

  /** A name is its own normal form and a specifier is closed. */
  ghost predicate ClosedRequirement(r: Requirement) {
    ClosedSpecifier(r.specifier) && exists value, name :: Spells(value, name, r)
  }

  lemma {:induction false} RequirementsClosed(lines: seq<string>)
    requires Requirements(lines).Some?
    ensures forall i | 0 <= i < |Requirements(lines).value| :: ClosedRequirement(Requirements(lines).value[i])
  {
    if lines != [] {
      RequirementsClosed(lines[..|lines| - 1]);
      var content := Content(lines[|lines| - 1]);
      if content != "" {
        DirectValueExactly(content, ParseDirectValue(content).requirement);
      }
    }
  }

  /**
   Whatever a requirement file says, each specifier it passes on is judged the same in any order of its clauses, and
   is never found malformed: only a locked version that is not numeric is unreadable.
   */
  lemma PassedSpecifiers(lines: seq<string>, i: nat, version: string, other: string)
    requires Requirements(lines).Some? && i < |Requirements(lines).value|
    requires Permuted(Split(Requirements(lines).value[i].specifier, ','), Split(other, ','))
    ensures var specifier := Requirements(lines).value[i].specifier;
            && Satisfying(version, specifier) == Satisfying(version, other)
            && (Satisfying(version, specifier) == MalformedVersion <==> NumericVersion(version).None?)
            && Satisfying(version, specifier) != MalformedClause
  {
    RequirementsClosed(lines);
    var specifier := Requirements(lines).value[i].specifier;
    assert ClosedRequirement(Requirements(lines).value[i]);
    ClosedOrderIndependent(version, specifier, other);
    if NumericVersion(version).Some? {
      VerdictFound(NumericVersion(version).value, Split(specifier, ','));
    }
  }
}
