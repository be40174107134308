/** Python text: sequences of Unicode code points, surrogates included, with the order Python sorts them by. */
module PyText {

  type CodePoint = c: int | 0 <= c < 0x110000

  type Text = seq<CodePoint>

  /** The text of an ASCII literal. */
  function Lit(s: string): (t: Text)
    ensures |t| == |s|
    ensures forall i :: 0 <= i < |s| ==> t[i] == s[i] as int
  {
    seq(|s|, i requires 0 <= i < |s| => s[i] as int)
  }

  /** Strict code-point order on text, as `sorted` compares dictionary keys. */
  predicate Below(a: Text, b: Text) {
    b != [] && (a == [] || a[0] < b[0] || (a[0] == b[0] && Below(a[1..], b[1..])))
  }

  lemma {:induction false} BelowIrreflexive(a: Text)
    ensures !Below(a, a)
  {
    if a != [] {
      BelowIrreflexive(a[1..]);
    }
  }

  lemma {:induction false} BelowTransitive(a: Text, b: Text, c: Text)
    requires Below(a, b) && Below(b, c)
    ensures Below(a, c)
  {
    if a != [] && a[0] == b[0] == c[0] {
      BelowTransitive(a[1..], b[1..], c[1..]);
    }
  }

  lemma {:induction false} BelowTotal(a: Text, b: Text)
    ensures a == b || Below(a, b) || Below(b, a)
  {
    if a != [] && b != [] && a[0] == b[0] {
      BelowTotal(a[1..], b[1..]);
      assert a == [a[0]] + a[1..] && b == [b[0]] + b[1..];
    }
  }

  predicate IsLeast(k: Text, s: set<Text>) {
    k in s && forall j | j in s :: j == k || Below(k, j)
  }

  lemma {:induction false} LeastExists(s: set<Text>)
    requires s != {}
    ensures exists k :: IsLeast(k, s)
    decreases s
  {
    var x :| x in s;
    var others := s - {x};
    if others == {} {
      assert s == {x};
      assert IsLeast(x, s);
    } else {
      LeastExists(others);
      var k :| IsLeast(k, others);
      BelowTotal(x, k);
      if Below(x, k) {
        forall j | j in s ensures j == x || Below(x, j) {
          if j != x && j != k {
            BelowTransitive(x, k, j);
          }
        }
        assert IsLeast(x, s);
      } else {
        assert IsLeast(k, s);
      }
    }
  }

  lemma LeastUnique(s: set<Text>, a: Text, b: Text)
    requires IsLeast(a, s) && IsLeast(b, s)
    ensures a == b
  {
    if a != b {
      BelowTransitive(a, b, a);
      BelowIrreflexive(a);
    }
  }

  function Least(s: set<Text>): (k: Text)
    requires s != {}
    ensures IsLeast(k, s)
  {
    LeastExists(s);
    assert forall a, b | IsLeast(a, s) && IsLeast(b, s) :: a == b by {
      forall a, b | IsLeast(a, s) && IsLeast(b, s) ensures a == b {
        LeastUnique(s, a, b);
      }
    }
    var k :| IsLeast(k, s);
    k
  }

  /** Strictly increasing in code-point order; so free of repetitions. */
  predicate Increasing(ks: seq<Text>) {
    forall i, j | 0 <= i < j < |ks| :: Below(ks[i], ks[j])
  }

  function Elements(ks: seq<Text>): set<Text> {
    set k | k in ks
  }

  /** `sorted(keys)`. */
  function SortedKeys(s: set<Text>): (ks: seq<Text>)
    ensures forall k | k in ks :: k in s
    decreases s
  {
    if s == {} then []
    else
      var k := Least(s);
      [k] + SortedKeys(s - {k})
  }

  /** The sorted keys list the set, in strictly increasing order. */
  lemma {:induction false} SortedKeysMeaning(s: set<Text>)
    ensures Elements(SortedKeys(s)) == s
    ensures Increasing(SortedKeys(s))
    decreases s
  {
    if s != {} {
      var k := Least(s);
      SortedKeysMeaning(s - {k});
      PrependLeast(k, SortedKeys(s - {k}), s);
    }
  }

  lemma PrependLeast(k: Text, rest: seq<Text>, s: set<Text>)
    requires IsLeast(k, s)
    requires Increasing(rest) && Elements(rest) == s - {k}
    ensures Increasing([k] + rest)
    ensures Elements([k] + rest) == s
  {
    var ks := [k] + rest;
    forall i, j | 0 <= i < j < |ks| ensures Below(ks[i], ks[j]) {
      assert ks[j] == rest[j - 1] && rest[j - 1] in Elements(rest);
    }
    assert forall x :: x in rest <==> x in Elements(rest);
    assert forall x :: x in Elements(ks) <==> x == k || x in rest;
  }

  lemma ElementsNonempty(ks: seq<Text>)
    ensures ks != [] ==> Elements(ks) != {}
  {
    if ks != [] {
      assert ks[0] in Elements(ks);
    }
  }

  /** There is only one increasing listing of a set of keys. */
  lemma {:induction false} IncreasingUnique(a: seq<Text>, b: seq<Text>)
    requires Increasing(a) && Increasing(b)
    requires Elements(a) == Elements(b)
    ensures a == b
  {
    if a == [] {
      ElementsNonempty(b);
    } else {
      assert a[0] in Elements(a);
      var j :| 0 <= j < |b| && b[j] == a[0];
      assert b[0] in Elements(b);
      var i :| 0 <= i < |a| && a[i] == b[0];
      if j > 0 && i > 0 {
        BelowTransitive(a[0], a[i], a[0]);
        BelowIrreflexive(a[0]);
      }
      assert a[0] == b[0] by {
        if j == 0 || i == 0 {
        }
      }
      DropFirst(a);
      DropFirst(b);
      IncreasingUnique(a[1..], b[1..]);
      assert a == [a[0]] + a[1..] && b == [b[0]] + b[1..];
    }
  }

  lemma DropFirst(a: seq<Text>)
    requires a != [] && Increasing(a)
    ensures Increasing(a[1..])
    ensures Elements(a[1..]) == Elements(a) - {a[0]}
  {
    BelowIrreflexive(a[0]);
    forall k | k in Elements(a) - {a[0]} ensures k in Elements(a[1..]) {
      var i :| 0 <= i < |a| && a[i] == k;
      assert a[1..][i - 1] == k;
    }
    assert forall k | k in Elements(a[1..]) :: k in a[1..];
  }
}
