/** Which versions a specifier admits, said on the texts and on the components of versions. */
module VersionMeaning {
  import opened Options
  import opened Versions
  import opened DirectRequirements

  // ---------- the order of versions ----------

  /** Component i, zero where a version has ended. */
  function At(v: Version, i: nat): nat {
    if i < |v| then v[i] else 0
  }

  /** The two agree before component i, where the first is smaller. */
  predicate SmallerAt(v: Version, w: Version, i: nat) {
    At(v, i) < At(w, i) && forall j: nat | j < i :: At(v, j) == At(w, j)
  }

  ghost predicate Earlier(v: Version, w: Version) {
    exists i: nat :: SmallerAt(v, w, i)
  }

  ghost predicate Same(v: Version, w: Version) {
    forall i: nat :: At(v, i) == At(w, i)
  }

  lemma RestAt(v: Version, i: nat)
    ensures At(v, i + 1) == At(Rest(v), i) && At(v, 0) == First(v)
  {
  }

  lemma SmallerRest(v: Version, w: Version, i: nat)
    ensures SmallerAt(v, w, i + 1) <==> First(v) == First(w) && SmallerAt(Rest(v), Rest(w), i)
  {
    RestAt(v, i);
    RestAt(w, i);
    forall j: nat | j < i ensures At(v, j + 1) == At(Rest(v), j) && At(w, j + 1) == At(Rest(w), j) {
      RestAt(v, j);
      RestAt(w, j);
    }
    if First(v) == First(w) && SmallerAt(Rest(v), Rest(w), i) {
      forall j: nat | j < i + 1 ensures At(v, j) == At(w, j) {
        if j > 0 {
          assert At(Rest(v), j - 1) == At(Rest(w), j - 1);
          RestAt(v, j - 1);
          RestAt(w, j - 1);
        }
      }
    }
    if SmallerAt(v, w, i + 1) {
      assert At(v, 0) == At(w, 0);
      forall j: nat | j < i ensures At(Rest(v), j) == At(Rest(w), j) {
        assert At(v, j + 1) == At(w, j + 1);
      }
    }
  }

  lemma EarlierRest(v: Version, w: Version)
    ensures Earlier(v, w) <==> First(v) < First(w) || (First(v) == First(w) && Earlier(Rest(v), Rest(w)))
  {
    if i: nat :| SmallerAt(v, w, i) {
      if i > 0 {
        SmallerRest(v, w, i - 1);
      }
    }
    if First(v) < First(w) {
      assert SmallerAt(v, w, 0);
    }
    if First(v) == First(w) && Earlier(Rest(v), Rest(w)) {
      var i: nat :| SmallerAt(Rest(v), Rest(w), i);
      SmallerRest(v, w, i);
    }
  }

  lemma NoneEarlier()
    ensures !Earlier([], [])
  {
  }

  lemma {:induction false} EarlierExactly(v: Version, w: Version)
    ensures Earlier(v, w) <==> Order(v, w) < 0
    decreases |v| + |w|
  {
    if v == [] && w == [] {
      NoneEarlier();
    } else {
      EarlierRest(v, w);
      EarlierExactly(Rest(v), Rest(w));
    }
  }

  lemma {:induction false} SameExactly(v: Version, w: Version)
    ensures Same(v, w) <==> Order(v, w) == 0
    decreases |v| + |w|
  {
    if v != [] || w != [] {
      SameRest(v, w);
      SameExactly(Rest(v), Rest(w));
    }
  }

  lemma SameRest(v: Version, w: Version)
    ensures Same(v, w) <==> First(v) == First(w) && Same(Rest(v), Rest(w))
  {
    if Same(v, w) {
      RestAt(v, 0);
      RestAt(w, 0);
      forall i: nat ensures At(Rest(v), i) == At(Rest(w), i) {
        RestAt(v, i);
        RestAt(w, i);
      }
    }
    if First(v) == First(w) && Same(Rest(v), Rest(w)) {
      forall i: nat ensures At(v, i) == At(w, i) {
        if i > 0 {
          RestAt(v, i - 1);
          RestAt(w, i - 1);
        }
      }
    }
  }

  // ---------- one clause ----------

  lemma {:induction false} NumericCharacters(s: string)
    requires NumericVersion(s).Some?
    ensures s != "" && forall i | 0 <= i < |s| :: '0' <= s[i] <= '9' || s[i] == '.'
    decreases |s|
  {
    var i := Find(s, '.');
    SplitFirst(s, '.');
    if i == |s| {
      assert IsDigits([s][0]);
    } else {
      HeadDigits(s[..i], Split(s[i + 1..], '.'));
      NumericCharacters(s[i + 1..]);
      forall k | 0 <= k < |s| ensures '0' <= s[k] <= '9' || s[k] == '.' {
        if k < i {
          assert s[..i][k] == s[k];
        } else if k > i {
          assert s[i + 1..][k - i - 1] == s[k];
        }
      }
    }
  }

  lemma NoComma(s: string)
    requires ',' !in s
    ensures Split(s, ',') == [s]
  {
    SplitFirst(s, ',');
    assert forall i | 0 <= i < |s| :: s[i] in s;
  }

  lemma OneClause(version: string, v: Version, c: string)
    requires NumericVersion(version) == Some(v) && ',' !in c && ParseClause(c).Some?
    ensures Satisfying(version, c) == if Meets(v, ParseClause(c).value) then Satisfied else Violated
  {
    NoComma(c);
    assert Judge(v, [c][1..]) == Satisfied;
  }

  /** The five operators, each before a numeric version. */
  lemma OperatorMeaning(version: string, v: Version, bound: string, w: Version)
    requires NumericVersion(version) == Some(v) && NumericVersion(bound) == Some(w)
    ensures Satisfying(version, "==" + bound) == if Order(v, w) == 0 then Satisfied else Violated
    ensures Satisfying(version, "<=" + bound) == if Order(v, w) <= 0 then Satisfied else Violated
    ensures Satisfying(version, ">=" + bound) == if Order(v, w) >= 0 then Satisfied else Violated
    ensures Satisfying(version, "<" + bound) == if Order(v, w) < 0 then Satisfied else Violated
    ensures Satisfying(version, ">" + bound) == if Order(v, w) > 0 then Satisfied else Violated
  {
    CompareIsOrder(v, w);
    Spelled(bound, w);
    OneClause(version, v, "==" + bound);
    OneClause(version, v, "<=" + bound);
    OneClause(version, v, ">=" + bound);
    OneClause(version, v, "<" + bound);
    OneClause(version, v, ">" + bound);
  }

  lemma Spelled(bound: string, w: Version)
    requires NumericVersion(bound) == Some(w)
    ensures ParseClause("==" + bound) == Some(Clause(Equal, w)) && ',' !in "==" + bound
    ensures ParseClause("<=" + bound) == Some(Clause(AtMost, w)) && ',' !in "<=" + bound
    ensures ParseClause(">=" + bound) == Some(Clause(AtLeast, w)) && ',' !in ">=" + bound
    ensures ParseClause("<" + bound) == Some(Clause(Below, w)) && ',' !in "<" + bound
    ensures ParseClause(">" + bound) == Some(Clause(Above, w)) && ',' !in ">" + bound
  {
    NumericCharacters(bound);
    assert ("==" + bound)[2..] == bound && ("<=" + bound)[2..] == bound && (">=" + bound)[2..] == bound;
    assert ("<" + bound)[1..] == bound && (">" + bound)[1..] == bound;
  }

  /** What each operator admits, component by component. */
  lemma Admits(version: string, v: Version, bound: string, w: Version)
    requires NumericVersion(version) == Some(v) && NumericVersion(bound) == Some(w)
    ensures Satisfying(version, "==" + bound) == Satisfied <==> Same(v, w)
    ensures Satisfying(version, "<=" + bound) == Satisfied <==> Same(v, w) || Earlier(v, w)
    ensures Satisfying(version, ">=" + bound) == Satisfied <==> Same(v, w) || Earlier(w, v)
    ensures Satisfying(version, "<" + bound) == Satisfied <==> Earlier(v, w)
    ensures Satisfying(version, ">" + bound) == Satisfied <==> Earlier(w, v)
  {
    OperatorMeaning(version, v, bound, w);
    EarlierExactly(v, w);
    EarlierExactly(w, v);
    SameExactly(v, w);
    OrderAntisymmetric(v, w);
  }

  // ---------- several clauses ----------

  /** Clauses joined by a comma are all to be satisfied. */
  lemma Conjunction(version: string, c: string, rest: string)
    requires NumericVersion(version).Some? && ',' !in c
    ensures Satisfying(version, c + "," + rest) == Satisfied <==>
            Satisfying(version, c) == Satisfied && Satisfying(version, rest) == Satisfied
  {
    var s := c + "," + rest;
    FirstComma(c, rest);
    SplitFirst(s, ',');
    assert s[..|c|] == c && s[|c| + 1..] == rest;
    NoComma(c);
    assert Split(s, ',') == [c] + Split(rest, ',');
    JudgeHead(NumericVersion(version).value, c, Split(rest, ','));
    JudgeHead(NumericVersion(version).value, c, []);
    assert [c] + [] == [c];
  }

  lemma JudgeHead(v: Version, c: string, more: seq<string>)
    ensures Judge(v, [c] + more) == if IsMalformed(c) then MalformedClause
                                    else if Fails(v, c) then Violated else Judge(v, more)
  {
    assert ([c] + more)[1..] == more;
  }

  lemma FirstComma(c: string, rest: string)
    requires ',' !in c
    ensures Find(c + "," + rest, ',') == |c|
  {
    var s := c + "," + rest;
    assert s[|c|] == ',';
    assert forall i | 0 <= i < |c| :: s[i] == c[i] && c[i] in c;
  }

  /** A range is from the lower bound on, up to but not with the upper one. */
  lemma Range(version: string, v: Version, low: string, l: Version, high: string, h: Version)
    requires NumericVersion(version) == Some(v) && NumericVersion(low) == Some(l) && NumericVersion(high) == Some(h)
    ensures Satisfying(version, ">=" + low + ",<" + high) == Satisfied <==> !Earlier(v, l) && Earlier(v, h)
  {
    Spelled(low, l);
    Conjunction(version, ">=" + low, "<" + high);
    assert ">=" + low + ",<" + high == (">=" + low) + "," + ("<" + high);
    OperatorMeaning(version, v, low, l);
    OperatorMeaning(version, v, high, h);
    EarlierExactly(v, l);
    EarlierExactly(v, h);
  }

  // ---------- versions as text ----------

  function Digits(n: nat): (s: string)
    ensures s != ""
  {
    if n < 10 then ["0123456789"[n]] else Digits(n / 10) + ["0123456789"[n % 10]]
  }

  /** Decimal numbers with dots between them. */
  function Dotted(v: Version): string
    requires v != []
  {
    if |v| == 1 then Digits(v[0]) else Digits(v[0]) + "." + Dotted(v[1..])
  }

  lemma DigitCharacter(d: nat)
    requires d < 10
    ensures '0' <= "0123456789"[d] <= '9' && "0123456789"[d] as int == '0' as int + d
  {
  }

  lemma {:induction false} DigitsRead(n: nat)
    ensures IsDigits(Digits(n)) && Number(Digits(n)) == n
  {
    if n < 10 {
      DigitCharacter(n);
      assert [Digits(n)[0]][..0] == "";
    } else {
      DigitsRead(n / 10);
      DigitCharacter(n % 10);
      assert Digits(n)[..|Digits(n)| - 1] == Digits(n / 10);
    }
  }

  lemma FirstDot(a: string, rest: string)
    requires IsDigits(a)
    ensures Find(a, '.') == |a|
    ensures Find(a + "." + rest, '.') == |a|
  {
    var s := a + "." + rest;
    assert s[|a|] == '.';
    assert forall i | 0 <= i < |a| :: '0' <= a[i] <= '9' && s[i] == a[i];
  }

  lemma {:induction false} DottedPieces(v: Version)
    requires v != []
    ensures |Split(Dotted(v), '.')| == |v|
    ensures forall i | 0 <= i < |v| :: Split(Dotted(v), '.')[i] == Digits(v[i])
  {
    DigitsRead(v[0]);
    if |v| == 1 {
      FirstDot(Digits(v[0]), "");
      SplitFirst(Dotted(v), '.');
    } else {
      var rest := Dotted(v[1..]);
      var s := Digits(v[0]) + "." + rest;
      FirstDot(Digits(v[0]), rest);
      SplitFirst(s, '.');
      assert s[..|Digits(v[0])|] == Digits(v[0]) && s[|Digits(v[0])| + 1..] == rest;
      DottedPieces(v[1..]);
    }
  }

  /** A version written out reads as that version. */
  lemma DottedRead(v: Version)
    requires v != []
    ensures NumericVersion(Dotted(v)) == Some(v)
  {
    DottedPieces(v);
    forall i | 0 <= i < |v| ensures IsDigits(Split(Dotted(v), '.')[i]) && Number(Split(Dotted(v), '.')[i]) == v[i] {
      DigitsRead(v[i]);
    }
    assert Numbers(Split(Dotted(v), '.')) == v;
  }
}
