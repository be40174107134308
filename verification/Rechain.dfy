/** Rebuilding a hash chain in place over edited rows, and rehashing a decision record. */
module Rechain {
  import opened PyText
  import opened Json
  import opened AuditChain
  import opened AuditRows
  import opened AuditReadBack

  /** One row renumbered, relinked and resealed; everything else stays. */
  function RechainRow(rt: Runtime, sequence: int, previous: Text, row: Dict): Dict {
    var body := row[SEQUENCE := Int(sequence)][PREVIOUS_HASH := Str(previous)] - {RECORD_HASH};
    body[RECORD_HASH := Str(rt.hashJson(body))]
  }

  function Rechained(rt: Runtime, rows: seq<Dict>): (r: seq<Dict>)
    ensures |r| == |rows|
  {
    if rows == [] then []
    else
      var n := |rows| - 1;
      var done := Rechained(rt, rows[..n]);
      done + [RechainRow(rt, n, Tip(rt, done), rows[n])]
  }

  /** The rechain loop: overwrites each row, carrying the hash of the one before. */
  method RechainInPlace(rt: Runtime, rows: array<Dict>)
    modifies rows
    ensures rows[..] == Rechained(rt, old(rows[..]))
  {
    var previous: Text := GENESIS;
    ghost var before := rows[..];
    for sequence := 0 to rows.Length
      invariant rows[..sequence] == Rechained(rt, before[..sequence])
      invariant rows[sequence..] == before[sequence..]
      invariant previous == Tip(rt, rows[..sequence])
    {
      assert before[..sequence + 1][..sequence] == before[..sequence];
      var row := rows[sequence];
      assert row == before[sequence];
      row := row[SEQUENCE := Int(sequence)];
      row := row[PREVIOUS_HASH := Str(previous)];
      row := row - {RECORD_HASH};
      row := row[RECORD_HASH := Str(rt.hashJson(row))];
      rows[sequence] := row;
      previous := PyStr(rt, row[RECORD_HASH]);
      assert rows[..sequence + 1] == rows[..sequence] + [row];
    }
    assert rows[..rows.Length] == rows[..];
    assert before[..rows.Length] == before;
  }

  predicate Numbered(rows: seq<Dict>) {
    forall i | 0 <= i < |rows| :: Get(rows[i], SEQUENCE) == Int(i)
  }

  predicate SameRest(a: Dict, b: Dict) {
    a - {SEQUENCE, PREVIOUS_HASH, RECORD_HASH} == b - {SEQUENCE, PREVIOUS_HASH, RECORD_HASH}
  }

  /** Same rows in the same order, but for numbers, links and hashes. */
  predicate SameContents(a: seq<Dict>, b: seq<Dict>) {
    |a| == |b| && forall i | 0 <= i < |a| :: SameRest(a[i], b[i])
  }

  lemma RechainRowMeaning(rt: Runtime, sequence: int, previous: Text, row: Dict)
    ensures var r := RechainRow(rt, sequence, previous, row);
            && Get(r, SEQUENCE) == Int(sequence)
            && Get(r, PREVIOUS_HASH) == Str(previous)
            && HashHolds(rt, r)
            && SameRest(r, row)
  {
    KeysDistinct();
    var body := row[SEQUENCE := Int(sequence)][PREVIOUS_HASH := Str(previous)] - {RECORD_HASH};
    assert Body(RechainRow(rt, sequence, previous, row)) == body;
  }

  lemma BodyParts(row: Dict)
    requires SEQUENCE in row && PREVIOUS_HASH in row
    ensures Body(row) == (row - {SEQUENCE, PREVIOUS_HASH, RECORD_HASH})
                         [SEQUENCE := row[SEQUENCE]][PREVIOUS_HASH := row[PREVIOUS_HASH]]
  {
    KeysDistinct();
  }

  /** A row is fixed by its number, its link, its own hash and the rest of its members. */
  lemma RowDetermined(rt: Runtime, a: Dict, b: Dict)
    requires SEQUENCE in a && SEQUENCE in b && a[SEQUENCE] == b[SEQUENCE]
    requires PREVIOUS_HASH in a && PREVIOUS_HASH in b && a[PREVIOUS_HASH] == b[PREVIOUS_HASH]
    requires HashHolds(rt, a) && HashHolds(rt, b) && SameRest(a, b)
    ensures a == b
  {
    BodyParts(a);
    BodyParts(b);
    BodyAndHash(a);
    BodyAndHash(b);
  }

  /** Rechaining any rows makes them verify, numbers them from zero and changes nothing else. */
  lemma {:induction false} RechainedMeaning(rt: Runtime, rows: seq<Dict>)
    ensures Verifies(rt, Rechained(rt, rows))
    ensures Numbered(Rechained(rt, rows))
    ensures SameContents(Rechained(rt, rows), rows)
  {
    if rows != [] {
      var n := |rows| - 1;
      var done := Rechained(rt, rows[..n]);
      RechainedMeaning(rt, rows[..n]);
      RechainRowMeaning(rt, n, Tip(rt, done), rows[n]);
      ExtensionVerifies(rt, done, Rechained(rt, rows)[n]);
      assert forall i | 0 <= i < n :: rows[i] == rows[..n][i];
    }
  }

  /** And it is the only such chain: one that verifies, is numbered and has these contents is the rechained one. */
  lemma {:induction false} RechainedUnique(rt: Runtime, rows: seq<Dict>, chain: seq<Dict>)
    requires Verifies(rt, chain) && Numbered(chain) && SameContents(chain, rows)
    ensures chain == Rechained(rt, rows)
  {
    if rows != [] {
      var n := |rows| - 1;
      LastRowHolds(rt, chain);
      assert forall i | 0 <= i < n :: rows[..n][i] == rows[i] && chain[..n][i] == chain[i];
      assert SameRest(chain[n], rows[n]);
      RechainedUnique(rt, rows[..n], chain[..n]);
      var done := Rechained(rt, rows[..n]);
      var row := RechainRow(rt, n, Tip(rt, done), rows[n]);
      RechainRowMeaning(rt, n, Tip(rt, done), rows[n]);
      assert SEQUENCE in chain[n] && PREVIOUS_HASH in chain[n];
      RowDetermined(rt, chain[n], row);
    }
  }

  /** Rechaining leaves alone exactly the numbered chains that already verify. */
  lemma RechainFixedPoints(rt: Runtime, rows: seq<Dict>)
    ensures Rechained(rt, rows) == rows <==> Verifies(rt, rows) && Numbered(rows)
    ensures Rechained(rt, Rechained(rt, rows)) == Rechained(rt, rows)
  {
    RechainedMeaning(rt, rows);
    if Verifies(rt, rows) && Numbered(rows) {
      RechainedUnique(rt, rows, rows);
    }
    RechainedUnique(rt, Rechained(rt, rows), Rechained(rt, rows));
  }

  /** In particular whatever a logger appended to a new log. */
  lemma RechainLogged(rt: Runtime, rows: seq<Dict>)
    requires Continues(rt, [], 0, rows)
    ensures Rechained(rt, rows) == rows
  {
    ContinuesVerifies(rt, [], 0, rows);
    EmptyBase(rows);
    forall i | 0 <= i < |rows| ensures Get(rows[i], SEQUENCE) == Int(i) {
      assert ContinuesAt(rt, [], 0, rows, i);
    }
    RechainFixedPoints(rt, rows);
  }

  /**
   Rechaining edited rows keeps the final hash of the original chain only by restoring
   that chain, unless the hash collides or hits 64 zeros; in particular it changes if
   any content was edited.
   */
  lemma RechainedEditMovesTip(rt: Runtime, original: seq<Dict>, edited: seq<Dict>)
    requires Verifies(rt, original) && Numbered(original)
    requires Tip(rt, Rechained(rt, edited)) == Tip(rt, original)
    ensures (Rechained(rt, edited) == original && SameContents(edited, original))
            || Broken(rt, Rechained(rt, edited), original)
  {
    RechainedMeaning(rt, edited);
    SameTipSameChain(rt, Rechained(rt, edited), original);
  }

  // ---------- decision records ----------

  const DECISION_HASH := Lit("decision_record_hash")

  function Rehashed(rt: Runtime, decision: Dict): Dict {
    var core := decision - {DECISION_HASH};
    core[DECISION_HASH := Str(rt.hashJson(core))]
  }

  class DecisionRecord {
    var fields: Dict

    /** `_rehash_decision`: pops the stored hash and stores that of the rest. */
    method Rehash(rt: Runtime)
      modifies this
      ensures fields == Rehashed(rt, old(fields))
      ensures var rest := old(fields) - {Lit("decision_record_hash")};
              fields == rest[Lit("decision_record_hash") := Str(rt.hashJson(rest))]
    {
      fields := fields - {DECISION_HASH};
      fields := fields[DECISION_HASH := Str(rt.hashJson(fields))];
    }
  }

  /** The stored hash never feeds into itself; a record is left alone exactly when its hash is the right one. */
  lemma RehashMeaning(rt: Runtime, decision: Dict)
    ensures Rehashed(rt, decision) - {DECISION_HASH} == decision - {DECISION_HASH}
    ensures Rehashed(rt, Rehashed(rt, decision)) == Rehashed(rt, decision)
    ensures Rehashed(rt, decision) == decision <==>
            Get(decision, DECISION_HASH) == Str(rt.hashJson(decision - {DECISION_HASH}))
  {
    var core := decision - {DECISION_HASH};
    assert Rehashed(rt, decision) - {DECISION_HASH} == core;
    if DECISION_HASH in decision {
      assert decision == core[DECISION_HASH := decision[DECISION_HASH]];
    }
  }
}
