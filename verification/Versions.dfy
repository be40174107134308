/** Numeric versions, their comparison with zero padding, and the specifiers a locked version must satisfy. */
module Versions {
  import opened Options

  type Version = seq<nat>

  // ---------- text ----------

  predicate IsDigits(s: string) {
    s != "" && forall i | 0 <= i < |s| :: '0' <= s[i] <= '9'
  }

  function Number(s: string): nat
    requires forall i | 0 <= i < |s| :: '0' <= s[i] <= '9'
  {
    if s == "" then 0 else 10 * Number(s[..|s| - 1]) + (s[|s| - 1] as int - '0' as int)
  }

  function Find(s: string, c: char): (i: nat)
    ensures i <= |s|
    ensures i < |s| ==> s[i] == c
    ensures forall j | 0 <= j < i :: s[j] != c
  {
    if s == "" || s[0] == c then 0 else 1 + Find(s[1..], c)
  }

  /** The pieces between the separators; one piece when there is none. */
  function Split(s: string, c: char): (pieces: seq<string>)
    ensures pieces != []
    decreases |s|
  {
    var i := Find(s, c);
    if i == |s| then [s] else [s[..i]] + Split(s[i + 1..], c)
  }

  predicate AllDigits(pieces: seq<string>) {
    forall i | 0 <= i < |pieces| :: IsDigits(pieces[i])
  }

  function Numbers(pieces: seq<string>): (v: Version)
    requires AllDigits(pieces)
    ensures |v| == |pieces|
  {
    seq(|pieces|, i requires 0 <= i < |pieces| => Number(pieces[i]))
  }

  /** A closed numeric version: digits, and more digits after single dots. */
  function NumericVersion(value: string): Option<Version> {
    var pieces := Split(value, '.');
    if AllDigits(pieces) then Some(Numbers(pieces)) else None
  }

  // ---------- comparison ----------

  function Zeros(n: nat): Version {
    seq(n, _ => 0)
  }

  /** Tuples as Python orders them. */
  predicate Less(a: Version, b: Version) {
    b != [] && (a == [] || a[0] < b[0] || (a[0] == b[0] && Less(a[1..], b[1..])))
  }

  function Width(a: Version, b: Version): nat {
    if |a| >= |b| then |a| else |b|
  }

  function Padded(a: Version, width: nat): Version
    requires |a| <= width
  {
    a + Zeros(width - |a|)
  }

  function Compare(a: Version, b: Version): int {
    var width := Width(a, b);
    var left, right := Padded(a, width), Padded(b, width);
    (if Less(right, left) then 1 else 0) - (if Less(left, right) then 1 else 0)
  }

  /** The first component, zero where a version has ended. */
  function First(a: Version): nat {
    if a == [] then 0 else a[0]
  }

  function Rest(a: Version): Version {
    if a == [] then [] else a[1..]
  }

  /** The reference order: component by component, an ended version going on with zeros. */
  function Order(a: Version, b: Version): int
    decreases |a| + |b|
  {
    if a == [] && b == [] then 0
    else if First(a) < First(b) then -1
    else if First(a) > First(b) then 1
    else Order(Rest(a), Rest(b))
  }

  lemma PaddedRest(a: Version, width: nat)
    requires |a| <= width && width > 0
    ensures |Rest(a)| <= width - 1
    ensures Padded(a, width) == [First(a)] + Padded(Rest(a), width - 1)
  {
  }

  lemma {:induction false} LessPadded(a: Version, b: Version, width: nat)
    requires |a| <= width && |b| <= width
    ensures Less(Padded(a, width), Padded(b, width)) <==> Order(a, b) < 0
    decreases width
  {
    if width > 0 {
      PaddedRest(a, width);
      PaddedRest(b, width);
      LessPadded(Rest(a), Rest(b), width - 1);
    }
  }

  lemma {:induction false} OrderAntisymmetric(a: Version, b: Version)
    ensures Order(b, a) == -Order(a, b)
    ensures -1 <= Order(a, b) <= 1
    decreases |a| + |b|
  {
    if a != [] || b != [] {
      OrderAntisymmetric(Rest(a), Rest(b));
    }
  }

  /** Comparing padded tuples is comparing component by component. */
  lemma CompareIsOrder(a: Version, b: Version)
    ensures Compare(a, b) == Order(a, b)
  {
    LessPadded(a, b, Width(a, b));
    LessPadded(b, a, Width(a, b));
    OrderAntisymmetric(a, b);
  }

  lemma {:induction false} OrderTransitive(a: Version, b: Version, c: Version)
    requires Order(a, b) <= 0 && Order(b, c) <= 0
    ensures Order(a, c) <= 0
    ensures Order(a, b) < 0 || Order(b, c) < 0 ==> Order(a, c) < 0
    decreases |a| + |b| + |c|
  {
    if (a != [] || b != [] || c != []) && First(a) == First(b) == First(c) {
      OrderTransitive(Rest(a), Rest(b), Rest(c));
    }
  }

  /** Comparison is a total preorder. */
  lemma CompareTotalPreorder(a: Version, b: Version, c: Version)
    ensures Compare(a, a) == 0
    ensures Compare(a, b) == -Compare(b, a)
    ensures Compare(a, b) <= 0 || Compare(b, a) <= 0
    ensures Compare(a, b) <= 0 && Compare(b, c) <= 0 ==> Compare(a, c) <= 0
    ensures Compare(a, b) < 0 && Compare(b, c) <= 0 ==> Compare(a, c) < 0
    ensures Compare(a, b) <= 0 && Compare(b, c) < 0 ==> Compare(a, c) < 0
  {
    CompareIsOrder(a, a);
    CompareIsOrder(a, b);
    CompareIsOrder(b, a);
    CompareIsOrder(b, c);
    CompareIsOrder(a, c);
    OrderAntisymmetric(a, a);
    OrderAntisymmetric(a, b);
    if Order(a, b) <= 0 && Order(b, c) <= 0 {
      OrderTransitive(a, b, c);
    }
  }

  /** A version without its trailing zeros. */
  function Trimmed(a: Version): Version {
    if a != [] && a[|a| - 1] == 0 then Trimmed(a[..|a| - 1]) else a
  }

  function Cons(x: nat, a: Version): Version {
    if x == 0 && a == [] then [] else [x] + a
  }

  lemma {:induction false} TrimmedFront(a: Version)
    ensures Trimmed(a) == Cons(First(a), Trimmed(Rest(a)))
  {
    if |a| > 1 && a[|a| - 1] == 0 {
      var front := a[..|a| - 1];
      TrimmedFront(front);
      assert front[1..] == a[1..][..|a| - 2];
    } else if |a| > 1 {
      assert a == [a[0]] + a[1..];
    }
  }

  lemma {:induction false} OrderTrimmed(a: Version, b: Version)
    ensures Order(a, b) == 0 <==> Trimmed(a) == Trimmed(b)
    decreases |a| + |b|
  {
    if a != [] || b != [] {
      TrimmedFront(a);
      TrimmedFront(b);
      OrderTrimmed(Rest(a), Rest(b));
      ConsInjective(First(a), Trimmed(Rest(a)), First(b), Trimmed(Rest(b)));
    }
  }

  lemma ConsInjective(x: nat, a: Version, y: nat, b: Version)
    ensures Cons(x, a) == Cons(y, b) <==> x == y && a == b
  {
    if Cons(x, a) == Cons(y, b) && Cons(x, a) != [] {
      assert Cons(x, a)[0] == x && Cons(y, b)[0] == y;
      assert Cons(x, a)[1..] == a && Cons(y, b)[1..] == b;
    }
  }

  /** Versions compare equal exactly when they are the same up to trailing zeros. */
  lemma CompareEqualExactly(a: Version, b: Version)
    ensures Compare(a, b) == 0 <==> Trimmed(a) == Trimmed(b)
  {
    CompareIsOrder(a, b);
    OrderTrimmed(a, b);
  }

  // ---------- specifiers ----------

  datatype Operator = Equal | AtMost | AtLeast | Below | Above

  datatype Clause = Clause(operator: Operator, bound: Version)

  function Bounded(operator: Operator, text: string): Option<Clause> {
    var bound := NumericVersion(text);
    if bound.None? then None else Some(Clause(operator, bound.value))
  }

  /** One clause of a specifier: an operator and a closed numeric version. */
  function ParseClause(text: string): Option<Clause> {
    if |text| < 2 then None
    else if text[0] == '=' && text[1] == '=' then Bounded(Equal, text[2..])
    else if text[0] == '<' && text[1] == '=' then Bounded(AtMost, text[2..])
    else if text[0] == '>' && text[1] == '=' then Bounded(AtLeast, text[2..])
    else if text[0] == '<' then Bounded(Below, text[1..])
    else if text[0] == '>' then Bounded(Above, text[1..])
    else None
  }

  predicate Meets(locked: Version, c: Clause) {
    var comparison := Compare(locked, c.bound);
    match c.operator
    case Equal => comparison == 0
    case AtMost => comparison <= 0
    case AtLeast => comparison >= 0
    case Below => comparison < 0
    case Above => comparison > 0
  }

  predicate IsMalformed(text: string) {
    ParseClause(text).None?
  }

  predicate Fails(locked: Version, text: string) {
    ParseClause(text).Some? && !Meets(locked, ParseClause(text).value)
  }

  predicate Passes(locked: Version, text: string) {
    ParseClause(text).Some? && Meets(locked, ParseClause(text).value)
  }

  datatype Verdict = Satisfied | Violated | MalformedVersion | MalformedClause

  /** The first clause that does not pass decides. */
  function Judge(locked: Version, clauses: seq<string>): Verdict {
    if clauses == [] then Satisfied
    else if IsMalformed(clauses[0]) then MalformedClause
    else if Fails(locked, clauses[0]) then Violated
    else Judge(locked, clauses[1..])
  }

  function Satisfying(version: string, specifier: string): Verdict {
    var locked := NumericVersion(version);
    if locked.None? then MalformedVersion else Judge(locked.value, Split(specifier, ','))
  }

  method LockedVersionSatisfies(version: string, specifier: string) returns (r: Verdict)
    ensures r == Satisfying(version, specifier)
  {
    var locked := NumericVersion(version);
    if locked.None? {
      return MalformedVersion;
    }
    var clauses := Split(specifier, ',');
    for n := 0 to |clauses|
      invariant Judge(locked.value, clauses) == Judge(locked.value, clauses[n..])
    {
      var clause := ParseClause(clauses[n]);
      if clause.None? {
        return MalformedClause;
      }
      if !Meets(locked.value, clause.value) {
        return Violated;
      }
    }
    return Satisfied;
  }

  /** A specifier is satisfied exactly when every clause passes. */
  lemma {:induction false} SatisfiedExactly(locked: Version, clauses: seq<string>)
    ensures Judge(locked, clauses) == Satisfied <==> forall i | 0 <= i < |clauses| :: Passes(locked, clauses[i])
  {
    if clauses != [] {
      SatisfiedExactly(locked, clauses[1..]);
      assert forall i | 0 < i < |clauses| :: clauses[i] == clauses[1..][i - 1];
    }
  }

  lemma MeetsConvex(a: Version, b: Version, c: Version, clause: Clause)
    requires Compare(a, b) <= 0 && Compare(b, c) <= 0
    requires Meets(a, clause) && Meets(c, clause)
    ensures Meets(b, clause)
  {
    CompareTotalPreorder(a, b, clause.bound);
    CompareTotalPreorder(b, c, clause.bound);
    CompareTotalPreorder(clause.bound, a, b);
    CompareTotalPreorder(clause.bound, b, c);
  }

  /** The versions that satisfy a specifier form a convex set. */
  lemma SatisfiedConvex(a: Version, b: Version, c: Version, clauses: seq<string>)
    requires Compare(a, b) <= 0 && Compare(b, c) <= 0
    requires Judge(a, clauses) == Satisfied && Judge(c, clauses) == Satisfied
    ensures Judge(b, clauses) == Satisfied
  {
    SatisfiedExactly(a, clauses);
    SatisfiedExactly(b, clauses);
    SatisfiedExactly(c, clauses);
    forall i | 0 <= i < |clauses|
      ensures Passes(b, clauses[i])
    {
      assert Passes(a, clauses[i]) && Passes(c, clauses[i]);
      MeetsConvex(a, b, c, ParseClause(clauses[i]).value);
    }
  }

  // ---------- the order of the clauses ----------

  predicate SomeMalformed(clauses: seq<string>) {
    exists i | 0 <= i < |clauses| :: IsMalformed(clauses[i])
  }

  predicate SomeFails(locked: Version, clauses: seq<string>) {
    exists i | 0 <= i < |clauses| :: Fails(locked, clauses[i])
  }

  lemma {:induction false} VerdictFound(locked: Version, clauses: seq<string>)
    ensures Judge(locked, clauses) == MalformedClause ==> SomeMalformed(clauses)
    ensures Judge(locked, clauses) == Violated ==> SomeFails(locked, clauses)
    ensures Judge(locked, clauses) == Satisfied ==> !SomeMalformed(clauses) && !SomeFails(locked, clauses)
    ensures Judge(locked, clauses) != MalformedVersion
  {
    if clauses != [] {
      VerdictFound(locked, clauses[1..]);
      assert forall i | 0 < i < |clauses| :: clauses[i] == clauses[1..][i - 1];
    }
  }

  predicate Permuted(a: seq<string>, b: seq<string>) {
    multiset(a) == multiset(b)
  }

  lemma SomePermuted(locked: Version, a: seq<string>, b: seq<string>)
    requires Permuted(a, b)
    ensures SomeMalformed(a) ==> SomeMalformed(b)
    ensures SomeFails(locked, a) ==> SomeFails(locked, b)
  {
    forall i | 0 <= i < |a|
      ensures a[i] in b
    {
      assert a[i] in multiset(a);
    }
  }

  lemma MovedToFront(clauses: seq<string>, i: nat) returns (moved: seq<string>)
    requires i < |clauses|
    ensures Permuted(moved, clauses) && moved != [] && moved[0] == clauses[i]
  {
    moved := [clauses[i]] + clauses[..i] + clauses[i + 1..];
    assert clauses == clauses[..i] + [clauses[i]] + clauses[i + 1..];
  }

  /** Two orders of the same clauses with different verdicts. */
  predicate OrdersDisagree(locked: Version, a: seq<string>, b: seq<string>) {
    Permuted(a, b) && Judge(locked, a) != Judge(locked, b)
  }

  /**
   Whether the order of the clauses can change the verdict: exactly when one clause is malformed and another fails,
   because the loop returns at the first failing clause without looking at the ones after it.
   */
  lemma OrderMattersExactly(locked: Version, clauses: seq<string>)
    ensures (exists other: seq<string> :: OrdersDisagree(locked, clauses, other))
       <==> SomeMalformed(clauses) && SomeFails(locked, clauses)
  {
    VerdictFound(locked, clauses);
    if SomeMalformed(clauses) && SomeFails(locked, clauses) {
      var i :| 0 <= i < |clauses| && IsMalformed(clauses[i]);
      var j :| 0 <= j < |clauses| && Fails(locked, clauses[j]);
      var x := MovedToFront(clauses, i);
      var y := MovedToFront(clauses, j);
      assert Judge(locked, x) == MalformedClause && Judge(locked, y) == Violated;
      assert OrdersDisagree(locked, clauses, x) || OrdersDisagree(locked, clauses, y);
    }
    if other :| OrdersDisagree(locked, clauses, other) {
      VerdictFound(locked, other);
      SomePermuted(locked, clauses, other);
      SomePermuted(locked, other, clauses);
    }
  }

  /** An order-dependent specifier. */
  lemma OrderMatters()
    ensures Satisfying("1", "<1,x") == Violated
    ensures Satisfying("1", "x,<1") == MalformedClause
  {
    assert Split("1", '.') == ["1"];
    assert "<1,x"[3..] == "x" && "<1,x"[..2] == "<1";
    assert Find("<1,x", ',') == 2;
    assert Split("x", ',') == ["x"];
    assert Split("<1,x", ',') == ["<1"] + Split("x", ',');
    assert ParseClause("<1") == Bounded(Below, "1") by {
      assert "<1"[1..] == "1";
    }
    var one := NumericVersion("1").value;
    CompareTotalPreorder(one, one, one);
    assert Fails(one, "<1");
    assert Find("x,<1", ',') == 1;
    assert "x,<1"[..1] == "x";
    assert Split("x,<1", ',')[0] == "x";
    assert IsMalformed("x");
  }

  // ---------- direct requirements against a lock ----------

  datatype Requirement = Requirement(name: string, specifier: string)

  datatype LockVerdict = Locked | Omitted(names: set<string>) | Unsatisfied(name: string) | Unreadable(name: string)

  predicate InLock(r: Requirement, locked: map<string, string>) {
    r.name in locked && Satisfying(locked[r.name], r.specifier) == Satisfied
  }

  function OmittedFrom(direct: seq<Requirement>, locked: map<string, string>): set<string> {
    set i | 0 <= i < |direct| && direct[i].name !in locked :: direct[i].name
  }

  /** `locked` gives the locked version of each package. */
  method ValidateDirectLocks(direct: seq<Requirement>, locked: map<string, string>) returns (r: LockVerdict)
    ensures r == Locked <==> forall i | 0 <= i < |direct| :: InLock(direct[i], locked)
    ensures r.Omitted? <==> OmittedFrom(direct, locked) != {}
    ensures r.Omitted? ==> r.names == OmittedFrom(direct, locked)
    ensures r.Unsatisfied? || r.Unreadable? ==>
              exists i | 0 <= i < |direct| ::
                && (forall j | 0 <= j < i :: InLock(direct[j], locked))
                && direct[i].name == r.name && r.name in locked
                && (if r.Unsatisfied? then Satisfying(locked[r.name], direct[i].specifier) == Violated
                    else Satisfying(locked[r.name], direct[i].specifier) in {MalformedVersion, MalformedClause})
  {
    var missing := OmittedFrom(direct, locked);
    if missing != {} {
      return Omitted(missing);
    }
    for n := 0 to |direct|
      invariant forall i | 0 <= i < n :: InLock(direct[i], locked)
    {
      assert direct[n].name in locked by {
        assert direct[n].name !in missing;
      }
      var verdict := LockedVersionSatisfies(locked[direct[n].name], direct[n].specifier);
      match verdict {
        case Satisfied =>
        case Violated => return Unsatisfied(direct[n].name);
        case _ => return Unreadable(direct[n].name);
      }
    }
    return Locked;
  }
}
