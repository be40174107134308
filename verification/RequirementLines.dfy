/** The lines of a requirement file and the clauses of a specifier, in literals. */
module RequirementLines {
  import opened Options
  import opened Versions
  import opened DirectRequirements
  import opened VersionMeaning
  import LockFile

  // ---------- clauses ----------

  const OPERATORS: set<string> := {"==", "<=", ">=", "<", ">"}

  /** A clause can be read exactly when it is one of five operators before a numeric version. */
  lemma ClauseSpelled(c: string)
    ensures ParseClause(c).Some? <==> exists op, bound :: Clausal(c, op, bound)
  {
    if ParseClause(c).Some? {
      ClauseExactly(c);
      var w := OperatorWidth(c);
      NumericExactly(c[w..]);
      OperatorSpelled(c);
      assert Clausal(c, c[..w], c[w..]);
    }
    if op, bound :| Clausal(c, op, bound) {
      Spelled(bound, NumericVersion(bound).value);
    }
  }

  predicate Clausal(c: string, op: string, bound: string) {
    op in OPERATORS && NumericVersion(bound).Some? && c == op + bound
  }

  lemma OperatorSpelled(c: string)
    requires OperatorWidth(c) > 0
    ensures c[..OperatorWidth(c)] in OPERATORS
  {
    if OperatorWidth(c) == 2 {
      assert c[..2] == [c[0], c[1]];
    } else {
      assert c[..1] == [c[0]];
    }
  }

  // ---------- white space and comments ----------

  /** White space is these twenty-nine characters. */
  lemma SpaceSpelled(c: char)
    ensures LockFile.IsSpace(c) <==>
            c as int in {9, 10, 11, 12, 13, 0x1C, 0x1D, 0x1E, 0x1F, 0x20, 0x85, 0xA0, 0x1680, 0x2000, 0x2001, 0x2002,
                         0x2003, 0x2004, 0x2005, 0x2006, 0x2007, 0x2008, 0x2009, 0x200A, 0x2028, 0x2029, 0x202F, 0x205F,
                         0x3000}
  {
  }

  predicate AllSpace(s: string) {
    forall i | 0 <= i < |s| :: LockFile.IsSpace(s[i])
  }

  /** Text with nothing to strip at either end. */
  predicate Tight(s: string) {
    s == "" || (!LockFile.IsSpace(s[0]) && !LockFile.IsSpace(s[|s| - 1]))
  }

  lemma {:induction false} LeftStripped(before: string, s: string)
    requires AllSpace(before) && (s == "" || !LockFile.IsSpace(s[0]))
    ensures LockFile.StripLeft(before + s) == s
  {
    if before == "" {
      assert before + s == s;
    } else {
      assert (before + s)[1..] == before[1..] + s;
      LeftStripped(before[1..], s);
    }
  }

  lemma {:induction false} RightStripped(s: string, after: string)
    requires AllSpace(after) && (s == "" || !LockFile.IsSpace(s[|s| - 1]))
    ensures StripRight(s + after) == s
  {
    if after == "" {
      assert s + after == s;
    } else {
      var n := |after| - 1;
      assert (s + after)[..|s + after| - 1] == s + after[..n];
      RightStripped(s, after[..n]);
    }
  }

  /** Stripping takes the white space off both ends and nothing else. */
  lemma StripSpelled(before: string, s: string, after: string)
    requires AllSpace(before) && AllSpace(after) && Tight(s)
    ensures Strip(before + s + after) == s
  {
    if s == "" {
      assert before + s + after == (before + after) + "";
      LeftStripped(before + after, "");
      assert LockFile.StripLeft(before + s + after) == "";
    } else {
      assert before + s + after == before + (s + after);
      LeftStripped(before, s + after);
      RightStripped(s, after);
    }
  }

  /** What a line says ends at its first hash sign. */
  lemma ContentSpelled(a: string, comment: string)
    requires '#' !in a
    ensures Content(a) == Strip(a) && Content(a + "#" + comment) == Strip(a)
  {
    var s := a + "#" + comment;
    assert s[|a|] == '#';
    assert forall i | 0 <= i < |a| :: s[i] == a[i] && a[i] in a;
    assert Find(a, '#') == |a| && Find(s, '#') == |a|;
    assert a[..|a|] == a && s[..|a|] == a;
  }

  // ---------- requirements ----------

  lemma {:induction false} SpecifierEnds(s: string)
    requires ClosedSpecifier(s)
    ensures s != "" && IsDigit(s[|s| - 1]) && !LockFile.IsSpace(s[|s| - 1])
    decreases |s|
  {
    var w := OperatorWidth(s);
    var n := VersionRun(s[w..]);
    VersionEnds(s[w..]);
    if w + n < |s| {
      SpecifierEnds(s[w + n + 1..]);
    } else {
      assert s[|s| - 1] == s[w..][n - 1];
    }
  }

  lemma {:induction false} VersionEnds(s: string)
    requires VersionRun(s) > 0
    ensures IsDigit(s[VersionRun(s) - 1])
    decreases |s|
  {
    var n := DigitRun(s);
    if n < |s| && s[n] == '.' && VersionRun(s[n + 1..]) > 0 {
      VersionEnds(s[n + 1..]);
    }
  }

  /** A name and a closed specifier of at most 512 characters together are read as such; longer ones are refused. */
  lemma RequirementSpelled(name: string, specifier: string)
    requires LockFile.IsName(name) && ClosedSpecifier(specifier)
    ensures ParseDirectValue(name + specifier) ==
            if |name| + |specifier| <= 512 then Entry(Requirement(LockFile.Normalize(name), specifier))
            else Bad(Unbounded)
  {
    var value, r := name + specifier, Requirement(LockFile.Normalize(name), specifier);
    SpecifierEnds(specifier);
    assert Tight(value);
    StripSpelled("", value, "");
    assert "" + value + "" == value;
    assert Spells(value, name, r);
    DirectValueExactly(value, r);
  }

  predicate SpelledAt(value: string, k: nat)
    requires k <= |value|
  {
    LockFile.IsName(value[..k]) && ClosedSpecifier(value[k..])
  }

  /** Anything else that is not too long is refused as no closed requirement. */
  lemma RefusalSpelled(value: string)
    requires value != "" && Tight(value) && |value| <= 512
    requires forall k | 0 <= k <= |value| :: !SpelledAt(value, k)
    ensures ParseDirectValue(value) == Bad(Open)
  {
    StripSpelled("", value, "");
    assert "" + value + "" == value;
    assert !SpelledAt(value, NameRun(value));
  }

  // ---------- files ----------

  /** What one line says: nothing, a requirement, or something that is none. */
  lemma LineSpelled(line: string)
    ensures Requirements([line]) ==
            if Content(line) == "" then Some([])
            else match ParseDirectValue(Content(line)) case Entry(r) => Some([r]) case Bad(_) => None
  {
    assert [line][..0] == [];
    assert forall r: Requirement :: [] + [r] == [r];
  }

  function Both(a: Option<seq<Requirement>>, b: Option<seq<Requirement>>): Option<seq<Requirement>> {
    if a.Some? && b.Some? then Some(a.value + b.value) else None
  }

  lemma BothMore(a: Option<seq<Requirement>>, b: Option<seq<Requirement>>, r: Requirement)
    ensures Both(a, if b.Some? then Some(b.value + [r]) else None)
         == if Both(a, b).Some? then Some(Both(a, b).value + [r]) else None
  {
    if a.Some? && b.Some? {
      assert a.value + (b.value + [r]) == (a.value + b.value) + [r];
    }
  }

  /** The lines of a file say what its parts say, one after the other. */
  lemma {:induction false} LinesJoined(a: seq<string>, b: seq<string>)
    ensures Requirements(a + b) == Both(Requirements(a), Requirements(b))
  {
    if b == [] {
      assert a + b == a;
      if Requirements(a).Some? {
        assert Requirements(a).value + [] == Requirements(a).value;
      }
    } else {
      var n := |b| - 1;
      assert (a + b)[..|a + b| - 1] == a + b[..n] && (a + b)[|a + b| - 1] == b[n];
      LinesJoined(a, b[..n]);
      var content := Content(b[n]);
      if content != "" && ParseDirectValue(content).Entry? {
        BothMore(Requirements(a), Requirements(b[..n]), ParseDirectValue(content).requirement);
      }
    }
  }
}
