/** Evidence events, and what can be collected from a list of them. */
module Events {
  import opened FeatureContract

  datatype Integrity = Verified | Unverified | Failed | Unknown(text: string)

  /** Times are in seconds; `instructional` says that the free text addresses an agent. */
  datatype Event = Event(
    id: string,
    source: Source,
    attributes: Attributes,
    provenance: string,
    integrity: Integrity,
    observedAt: real,
    collectedAt: real,
    trust: real,
    instructional: bool
  )

  datatype Case = Case(fields: Fields, events: seq<Event>)

  function Max(x: real, y: real): real {
    if x >= y then x else y
  }

  function Min(x: real, y: real): real {
    if x <= y then x else y
  }

  /** Between 0 and 1. */
  function Clamp(x: real): (y: real)
    ensures 0.0 <= y <= 1.0
    ensures 0.0 <= x <= 1.0 ==> y == x
  {
    Max(0.0, Min(1.0, x))
  }

  /** An accepted event states a flag as true. */
  predicate Raises(e: Event, key: Key) {
    key in e.attributes && e.attributes[key] == Bool(true)
  }

  /** The modeled attributes of an event are as they must be. */
  predicate Admissible(e: Event) {
    ValidSource(e.source) && Accepts(e.source, e.attributes)
  }

  /** What reading an admissible event finds. */
  lemma ReadsTrue(e: Event, key: Key)
    requires Accepts(e.source, e.attributes) && IsFlag(key)
    ensures var modeled := Projection(e.source, e.attributes);
            && (key in modeled <==> key in e.attributes)
            && (key in modeled ==> modeled[key].Flag? && e.source in Authority(key))
            && (key in modeled && modeled[key] == Flag(true) <==> Raises(e, key))
  {
    if key in e.attributes {
      assert Reading(e.source, key, e.attributes[key]).Ok?;
    }
  }

  // ---------- identifiers of the events that have a property, in order ----------

  function Ids(events: seq<Event>, p: Event -> bool): seq<string> {
    if events == [] then []
    else Ids(events[..|events| - 1], p) + if p(events[|events| - 1]) then [events[|events| - 1].id] else []
  }

  lemma {:induction false} IdsJoined(a: seq<Event>, b: seq<Event>, p: Event -> bool)
    ensures Ids(a + b, p) == Ids(a, p) + Ids(b, p)
  {
    if b == [] {
      assert a + b == a;
    } else {
      var front := b[..|b| - 1];
      assert (a + b)[..|a + b| - 1] == a + front;
      IdsJoined(a, front, p);
    }
  }

  /** An identifier is listed exactly when an event with the property carries it. */
  lemma {:induction false} IdsExactly(events: seq<Event>, p: Event -> bool, id: string)
    ensures id in Ids(events, p) <==> exists i | 0 <= i < |events| :: p(events[i]) && events[i].id == id
  {
    if events != [] {
      var n := |events| - 1;
      IdsExactly(events[..n], p, id);
      assert forall i | 0 <= i < n :: events[..n][i] == events[i];
    }
  }

  lemma {:induction false} IdsEmpty(events: seq<Event>, p: Event -> bool)
    ensures Ids(events, p) == [] <==> forall i | 0 <= i < |events| :: !p(events[i])
  {
    if events != [] {
      var n := |events| - 1;
      IdsEmpty(events[..n], p);
      assert forall i | 0 <= i < n :: events[..n][i] == events[i];
    }
  }

  // ---------- totals ----------

  function Total(events: seq<Event>, f: Event -> real): real {
    if events == [] then 0.0 else Total(events[..|events| - 1], f) + f(events[|events| - 1])
  }

  lemma {:induction false} TotalJoined(a: seq<Event>, b: seq<Event>, f: Event -> real)
    ensures Total(a + b, f) == Total(a, f) + Total(b, f)
  {
    if b == [] {
      assert a + b == a;
    } else {
      var front := b[..|b| - 1];
      assert (a + b)[..|a + b| - 1] == a + front;
      TotalJoined(a, front, f);
    }
  }

  /** Totals over lists compare as their terms do. */
  lemma {:induction false} TotalMonotone(a: seq<Event>, b: seq<Event>, f: Event -> real)
    requires |a| == |b| && forall i | 0 <= i < |a| :: f(a[i]) <= f(b[i])
    ensures Total(a, f) <= Total(b, f)
  {
    if a != [] {
      TotalMonotone(a[..|a| - 1], b[..|b| - 1], f);
    }
  }

  lemma {:induction false} TotalBounds(events: seq<Event>, f: Event -> real)
    requires forall i | 0 <= i < |events| :: 0.0 <= f(events[i]) <= 1.0
    ensures 0.0 <= Total(events, f) <= |events| as real
  {
    if events != [] {
      TotalBounds(events[..|events| - 1], f);
    }
  }

  // ---------- the order of the events ----------

  predicate Permuted(a: seq<Event>, b: seq<Event>) {
    multiset(a) == multiset(b)
  }

  lemma PermutedMembers(a: seq<Event>, b: seq<Event>)
    requires Permuted(a, b)
    ensures |a| == |b|
    ensures forall e :: e in a <==> e in b
  {
    assert |multiset(a)| == |a| && |multiset(b)| == |b|;
    forall e
      ensures e in a <==> e in b
    {
      assert e in a <==> e in multiset(a);
      assert e in b <==> e in multiset(b);
    }
  }

  /** A permutation splits around the last event of the other list. */
  lemma SplitLast(a: seq<Event>, b: seq<Event>) returns (x: seq<Event>, y: seq<Event>)
    requires a != [] && Permuted(a, b)
    ensures b == x + [a[|a| - 1]] + y
    ensures Permuted(a[..|a| - 1], x + y)
  {
    PermutedMembers(a, b);
    var e := a[|a| - 1];
    assert e in a;
    var i :| 0 <= i < |b| && b[i] == e;
    x, y := b[..i], b[i + 1..];
    assert b == x + [e] + y;
    assert a == a[..|a| - 1] + [e];
    assert multiset(x + y) == multiset(x) + multiset(y);
    assert multiset(a) == multiset(a[..|a| - 1]) + multiset{e};
    assert multiset(b) == multiset(x) + multiset{e} + multiset(y);
    assert multiset(a[..|a| - 1]) == multiset(a) - multiset{e};
    assert multiset(x + y) == multiset(b) - multiset{e};
  }

  lemma {:induction false} TotalPermuted(a: seq<Event>, b: seq<Event>, f: Event -> real)
    requires Permuted(a, b)
    ensures Total(a, f) == Total(b, f)
    decreases |a|
  {
    PermutedMembers(a, b);
    if a != [] {
      var x, y := SplitLast(a, b);
      TotalPermuted(a[..|a| - 1], x + y, f);
      TotalJoined(x, y, f);
      TotalJoined(x, [a[|a| - 1]], f);
      TotalJoined(x + [a[|a| - 1]], y, f);
      assert [a[|a| - 1]][..0] == [];
    }
  }

  lemma {:induction false} IdsPermuted(a: seq<Event>, b: seq<Event>, p: Event -> bool)
    requires Permuted(a, b)
    ensures multiset(Ids(a, p)) == multiset(Ids(b, p))
    decreases |a|
  {
    PermutedMembers(a, b);
    if a != [] {
      var x, y := SplitLast(a, b);
      IdsPermuted(a[..|a| - 1], x + y, p);
      IdsJoined(x, y, p);
      IdsJoined(x, [a[|a| - 1]], p);
      IdsJoined(x + [a[|a| - 1]], y, p);
      assert [a[|a| - 1]][..0] == [];
    }
  }
}
