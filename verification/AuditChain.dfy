/**
 The hash chain of audit rows: what `_verify_indexed_rows` reports, what a chain
 that verifies pins down, and which errors an edit produces.

 `sha256_json` is a parameter.  Where a law of the source rests on its strength,
 the lemma says so by naming the two row bodies that would have to collide.
 */
module AuditChain {
  import opened Options
  import opened PyText
  import opened Json

  predicate IsDigest(t: Text) {
    |t| == 64 && forall i | 0 <= i < |t| :: 48 <= t[i] <= 57 || 97 <= t[i] <= 102
  }

  function Zeros(n: nat): (t: Text)
    ensures |t| == n && forall i | 0 <= i < n :: t[i] == 48
  {
    if n == 0 then [] else [48] + Zeros(n - 1)
  }

  /** The hash a first row links to: 64 zeros. */
  const GENESIS: Text := Zeros(64)

  const SEQUENCE := Lit("sequence")
  const RECORDED_AT := Lit("recorded_at")
  const RECORD_TYPE := Lit("record_type")
  const PREVIOUS_HASH := Lit("previous_hash")
  const PAYLOAD := Lit("payload")
  const RECORD_HASH := Lit("record_hash")

  lemma KeysDistinct()
    ensures SEQUENCE != RECORDED_AT && SEQUENCE != RECORD_TYPE && SEQUENCE != PREVIOUS_HASH
    ensures SEQUENCE != PAYLOAD && SEQUENCE != RECORD_HASH
    ensures RECORDED_AT != RECORD_TYPE && RECORDED_AT != PREVIOUS_HASH
    ensures RECORDED_AT != PAYLOAD && RECORDED_AT != RECORD_HASH
    ensures RECORD_TYPE != PREVIOUS_HASH && RECORD_TYPE != PAYLOAD && RECORD_TYPE != RECORD_HASH
    ensures PREVIOUS_HASH != PAYLOAD && PREVIOUS_HASH != RECORD_HASH && PAYLOAD != RECORD_HASH
  {
    assert RECORDED_AT[6] == 'e' as int && RECORD_TYPE[6] == '_' as int && RECORD_HASH[6] == '_' as int;
    assert RECORD_TYPE[7] == 't' as int && RECORD_HASH[7] == 'h' as int;
  }

  /**
   What the chain takes from outside: `sha256_json` of a dictionary, and Python's `str` and `int` on values that are
   not text or integers.
   */
  datatype Runtime = Runtime(hashJson: Dict -> Text, show: Json -> Text, toInt: Json -> Option<int>)

  /** `dict.get`, with `None` and JSON null alike. */
  function Get(row: Dict, key: Text): Json {
    if key in row then row[key] else Null
  }

  /** `str(value)`. */
  function PyStr(rt: Runtime, v: Json): Text {
    if v.Str? then v.s else rt.show(v)
  }

  function Body(row: Dict): Dict {
    row - {RECORD_HASH}
  }

  function Claimed(row: Dict): Json {
    Get(row, RECORD_HASH)
  }

  function Calculated(rt: Runtime, row: Dict): Text {
    rt.hashJson(Body(row))
  }

  /** The hash that the row at a position must carry as its `previous_hash`. */
  function TipAt(rt: Runtime, rows: seq<Dict>, i: nat): Text
    requires i <= |rows|
  {
    if i == 0 then GENESIS else PyStr(rt, Claimed(rows[i - 1]))
  }

  function Tip(rt: Runtime, rows: seq<Dict>): Text {
    TipAt(rt, rows, |rows|)
  }

  predicate LinkHolds(rt: Runtime, rows: seq<Dict>, i: nat)
    requires i < |rows|
  {
    Get(rows[i], PREVIOUS_HASH) == Str(TipAt(rt, rows, i))
  }

  predicate HashHolds(rt: Runtime, row: Dict) {
    Claimed(row) == Str(Calculated(rt, row))
  }

  predicate RowHolds(rt: Runtime, rows: seq<Dict>, i: nat)
    requires i < |rows|
  {
    LinkHolds(rt, rows, i) && HashHolds(rt, rows[i])
  }

  predicate Verifies(rt: Runtime, rows: seq<Dict>) {
    forall i | 0 <= i < |rows| :: RowHolds(rt, rows, i)
  }

  datatype ChainError = PreviousHashMismatch(index: int) | HashInvalid(index: int)

  /** What the verifier finds about one row: is it linked to its predecessor, is its own hash right? */
  datatype Mark = Mark(linked: bool, sealed: bool)

  /** At most two errors for a row, a broken link before a broken hash. */
  function Report(m: Mark, at: int): seq<ChainError> {
    match m
    case Mark(true, true) => []
    case Mark(true, false) => [HashInvalid(at)]
    case Mark(false, true) => [PreviousHashMismatch(at)]
    case Mark(false, false) => [PreviousHashMismatch(at), HashInvalid(at)]
  }

  /** The errors of the first `n` rows, in row order. */
  function Reports(marks: seq<Mark>, labels: seq<int>, n: nat): seq<ChainError>
    requires n <= |marks| == |labels|
  {
    if n == 0 then [] else Reports(marks, labels, n - 1) + Report(marks[n - 1], labels[n - 1])
  }

  function MarkAt(rt: Runtime, rows: seq<Dict>, i: nat): Mark
    requires i < |rows|
  {
    Mark(LinkHolds(rt, rows, i), HashHolds(rt, rows[i]))
  }

  function Marks(rt: Runtime, rows: seq<Dict>): (marks: seq<Mark>)
    ensures |marks| == |rows|
  {
    seq(|rows|, i requires 0 <= i < |rows| => MarkAt(rt, rows, i))
  }

  function Violations(rt: Runtime, labels: seq<int>, rows: seq<Dict>): seq<ChainError>
    requires |labels| == |rows|
  {
    Reports(Marks(rt, rows), labels, |rows|)
  }

  function Positions(n: nat): (ps: seq<int>)
    ensures |ps| == n && forall i | 0 <= i < n :: ps[i] == i
  {
    if n == 0 then [] else Positions(n - 1) + [n - 1]
  }

  function Errors(rt: Runtime, rows: seq<Dict>): seq<ChainError> {
    Violations(rt, Positions(|rows|), rows)
  }

  /**
   `_verify_indexed_rows`: one pass that follows the hash each row claims.
   Its errors are exactly the broken links and hashes, in order.
   */
  method VerifyIndexedRows(rt: Runtime, labels: seq<int>, rows: seq<Dict>)
    returns (valid: bool, errors: seq<ChainError>)
    requires |labels| == |rows|
    ensures errors == Violations(rt, labels, rows)
    ensures valid <==> Verifies(rt, rows)
  {
    var previous: Text := GENESIS;
    errors := [];
    for i := 0 to |rows|
      invariant previous == TipAt(rt, rows, i)
      invariant errors == Reports(Marks(rt, rows), labels, i)
    {
      var row := rows[i];
      var claimed := Get(row, RECORD_HASH);
      row := row - {RECORD_HASH};
      ghost var before := errors;
      if Get(row, PREVIOUS_HASH) != Str(previous) {
        errors := errors + [PreviousHashMismatch(labels[i])];
      }
      var calculated := rt.hashJson(row);
      if claimed != Str(calculated) {
        errors := errors + [HashInvalid(labels[i])];
      }
      assert errors == before + Report(MarkAt(rt, rows, i), labels[i]);
      previous := PyStr(rt, claimed);
    }
    valid := errors == [];
    NoViolations(rt, labels, rows);
  }

  /** `AuditLogger.verify_rows`. */
  method VerifyRows(rt: Runtime, rows: seq<Dict>) returns (valid: bool, errors: seq<ChainError>)
    ensures errors == Errors(rt, rows)
    ensures valid <==> Verifies(rt, rows)
  {
    valid, errors := VerifyIndexedRows(rt, Positions(|rows|), rows);
  }

  lemma {:induction false} NoReports(marks: seq<Mark>, labels: seq<int>, n: nat)
    requires n <= |marks| == |labels|
    ensures Reports(marks, labels, n) == [] <==> forall i | 0 <= i < n :: marks[i] == Mark(true, true)
  {
    if n > 0 {
      NoReports(marks, labels, n - 1);
    }
  }

  lemma NoViolations(rt: Runtime, labels: seq<int>, rows: seq<Dict>)
    requires |labels| == |rows|
    ensures Violations(rt, labels, rows) == [] <==> Verifies(rt, rows)
  {
    NoReports(Marks(rt, rows), labels, |rows|);
    forall i | 0 <= i < |rows| ensures RowHolds(rt, rows, i) <==> Marks(rt, rows)[i] == Mark(true, true) {
      assert Marks(rt, rows)[i] == MarkAt(rt, rows, i);
    }
  }

  lemma {:induction false} ReportsAt(marks: seq<Mark>, labels: seq<int>, n: nat, i: nat)
    requires n <= |marks| == |labels| && i < |marks|
    requires forall j | 0 <= j < |labels| :: labels[j] == j
    ensures PreviousHashMismatch(i) in Reports(marks, labels, n) <==> i < n && !marks[i].linked
    ensures HashInvalid(i) in Reports(marks, labels, n) <==> i < n && !marks[i].sealed
  {
    if n > 0 {
      ReportsAt(marks, labels, n - 1, i);
    }
  }

  /** Every reported error names a row that breaks that rule, and every broken rule is reported. */
  lemma ErrorsAreViolations(rt: Runtime, rows: seq<Dict>, i: nat)
    requires i < |rows|
    ensures PreviousHashMismatch(i) in Errors(rt, rows) <==> !LinkHolds(rt, rows, i)
    ensures HashInvalid(i) in Errors(rt, rows) <==> !HashHolds(rt, rows[i])
  {
    ReportsAt(Marks(rt, rows), Positions(|rows|), |rows|, i);
  }

  // ---------- prefixes and extensions ----------

  lemma PrefixVerifies(rt: Runtime, rows: seq<Dict>, k: nat)
    requires Verifies(rt, rows) && k <= |rows|
    ensures Verifies(rt, rows[..k])
  {
    forall i | 0 <= i < k ensures RowHolds(rt, rows[..k], i) {
      assert RowHolds(rt, rows, i);
    }
  }

  lemma ExtensionVerifies(rt: Runtime, rows: seq<Dict>, row: Dict)
    ensures Verifies(rt, rows + [row]) <==>
            Verifies(rt, rows) && Get(row, PREVIOUS_HASH) == Str(Tip(rt, rows)) && HashHolds(rt, row)
  {
    var all := rows + [row];
    var n := |rows|;
    assert all[..n] == rows;
    assert RowHolds(rt, all, n) <==> Get(row, PREVIOUS_HASH) == Str(Tip(rt, rows)) && HashHolds(rt, row);
    if Verifies(rt, all) {
      PrefixVerifies(rt, all, n);
    } else if Verifies(rt, rows) && RowHolds(rt, all, n) {
      forall i | 0 <= i < n ensures RowHolds(rt, all, i) {
        assert RowHolds(rt, rows, i);
      }
    }
  }

  // ---------- a final hash pins down the whole chain ----------

  predicate Collision(rt: Runtime, a: Dict, b: Dict) {
    a != b && rt.hashJson(a) == rt.hashJson(b)
  }

  /** Two of these rows have distinct bodies with one digest. */
  predicate RowsCollide(rt: Runtime, a: seq<Dict>, b: seq<Dict>) {
    exists i, j | 0 <= i < |a| && 0 <= j < |b| :: Collision(rt, Body(a[i]), Body(b[j]))
  }

  /** Some row body has the all-zero digest. */
  predicate ZeroDigest(rt: Runtime, a: seq<Dict>) {
    exists i | 0 <= i < |a| :: Calculated(rt, a[i]) == GENESIS
  }

  lemma BodyAndHash(row: Dict)
    requires RECORD_HASH in row
    ensures row == Body(row)[RECORD_HASH := row[RECORD_HASH]]
  {
  }

  lemma SealedRowsEqual(rt: Runtime, a: Dict, b: Dict)
    requires HashHolds(rt, a) && HashHolds(rt, b)
    requires Body(a) == Body(b)
    ensures a == b
  {
    BodyAndHash(a);
    BodyAndHash(b);
  }

  lemma LastRowHolds(rt: Runtime, rows: seq<Dict>)
    requires Verifies(rt, rows) && rows != []
    ensures var n := |rows| - 1;
            && rows == rows[..n] + [rows[n]]
            && Verifies(rt, rows[..n])
            && HashHolds(rt, rows[n])
            && Get(rows[n], PREVIOUS_HASH) == Str(Tip(rt, rows[..n]))
            && Tip(rt, rows) == Calculated(rt, rows[n])
  {
    PrefixVerifies(rt, rows, |rows| - 1);
    assert RowHolds(rt, rows, |rows| - 1);
  }

  predicate Broken(rt: Runtime, a: seq<Dict>, b: seq<Dict>) {
    RowsCollide(rt, a, b) || ZeroDigest(rt, a) || ZeroDigest(rt, b)
  }

  lemma BrokenPrefix(rt: Runtime, a: seq<Dict>, b: seq<Dict>, m: nat, n: nat)
    requires m <= |a| && n <= |b| && Broken(rt, a[..m], b[..n])
    ensures Broken(rt, a, b)
  {
    if RowsCollide(rt, a[..m], b[..n]) {
      var i, j :| 0 <= i < m && 0 <= j < n && Collision(rt, Body(a[..m][i]), Body(b[..n][j]));
      assert Collision(rt, Body(a[i]), Body(b[j]));
    } else if ZeroDigest(rt, a[..m]) {
      var i :| 0 <= i < m && Calculated(rt, a[..m][i]) == GENESIS;
      assert Calculated(rt, a[i]) == GENESIS;
    } else {
      var j :| 0 <= j < n && Calculated(rt, b[..n][j]) == GENESIS;
      assert Calculated(rt, b[j]) == GENESIS;
    }
  }

  /**
   Two chains that verify and end in the same hash are the same, length included,
   unless SHA-256 collides on their own row bodies or maps one of them to 64 zeros.
   */
  lemma {:induction false} SameTipSameChain(rt: Runtime, a: seq<Dict>, b: seq<Dict>)
    requires Verifies(rt, a) && Verifies(rt, b)
    requires Tip(rt, a) == Tip(rt, b)
    ensures a == b || RowsCollide(rt, a, b) || ZeroDigest(rt, a) || ZeroDigest(rt, b)
    decreases |a|, 1
  {
    if a == [] || b == [] {
      if a != [] {
        LastRowHolds(rt, a);
        assert Calculated(rt, a[|a| - 1]) == GENESIS;
      }
      if b != [] {
        LastRowHolds(rt, b);
        assert Calculated(rt, b[|b| - 1]) == GENESIS;
      }
    } else {
      SameLastRow(rt, a, b);
    }
  }

  lemma {:induction false} SameLastRow(rt: Runtime, a: seq<Dict>, b: seq<Dict>)
    requires Verifies(rt, a) && Verifies(rt, b) && a != [] && b != []
    requires Tip(rt, a) == Tip(rt, b)
    ensures a == b || Broken(rt, a, b)
    decreases |a|, 0
  {
    var m, n := |a| - 1, |b| - 1;
    LastRowHolds(rt, a);
    LastRowHolds(rt, b);
    if Body(a[m]) != Body(b[n]) {
      assert Collision(rt, Body(a[m]), Body(b[n]));
    } else {
      SealedRowsEqual(rt, a[m], b[n]);
      SameTipSameChain(rt, a[..m], b[..n]);
      if a[..m] != b[..n] {
        BrokenPrefix(rt, a, b, m, n);
      }
    }
  }

  /** So any edit, insertion, deletion or reordering that keeps the final hash is reported. */
  lemma TamperingReported(rt: Runtime, original: seq<Dict>, altered: seq<Dict>)
    requires Verifies(rt, original)
    requires altered != original && Tip(rt, altered) == Tip(rt, original)
    ensures Errors(rt, altered) != []
            || RowsCollide(rt, altered, original) || ZeroDigest(rt, altered) || ZeroDigest(rt, original)
  {
    NoViolations(rt, Positions(|altered|), altered);
    if Errors(rt, altered) == [] {
      SameTipSameChain(rt, altered, original);
    }
  }

  // ---------- the exact errors an edit produces ----------

  /** What replacing row `i` by `row` makes the verifier report. */
  function ReplacementReport(rt: Runtime, labels: seq<int>, rows: seq<Dict>, i: nat, row: Dict): seq<ChainError>
    requires |labels| == |rows| && i < |rows|
  {
    Report(Mark(Get(row, PREVIOUS_HASH) == Get(rows[i], PREVIOUS_HASH), HashHolds(rt, row)), labels[i])
    + if i + 1 == |rows| then []
      else Report(Mark(PyStr(rt, Claimed(row)) == PyStr(rt, Claimed(rows[i])), true), labels[i + 1])
  }

  lemma {:induction false} QuietTail(marks: seq<Mark>, labels: seq<int>, k: nat, n: nat)
    requires k <= n <= |marks| == |labels|
    requires forall j | k <= j < n :: marks[j] == Mark(true, true)
    ensures Reports(marks, labels, n) == Reports(marks, labels, k)
  {
    if n > k {
      QuietTail(marks, labels, k, n - 1);
    }
  }

  /** After a quiet prefix, the first reports are those of one mark. */
  lemma FirstReport(marks: seq<Mark>, labels: seq<int>, i: nat)
    requires i < |marks| == |labels|
    requires forall j | 0 <= j < i :: marks[j] == Mark(true, true)
    ensures Reports(marks, labels, i + 1) == Report(marks[i], labels[i])
  {
    NoReports(marks, labels, i);
  }

  /** Marks that are fine but for those at `i` and `i + 1`: only these two report. */
  lemma TwoReports(marks: seq<Mark>, labels: seq<int>, i: nat)
    requires i < |marks| == |labels|
    requires forall j | 0 <= j < |marks| && j != i && j != i + 1 :: marks[j] == Mark(true, true)
    ensures Reports(marks, labels, |marks|) ==
            Report(marks[i], labels[i]) + if i + 1 == |marks| then [] else Report(marks[i + 1], labels[i + 1])
  {
    FirstReport(marks, labels, i);
    var first := Report(marks[i], labels[i]);
    if i + 1 == |marks| {
      assert first + [] == first;
    } else {
      QuietTail(marks, labels, i + 2, |marks|);
    }
  }

  /** Replacing one row of a chain that verifies: the report depends on three comparisons only. */
  lemma ReplacementErrors(rt: Runtime, labels: seq<int>, rows: seq<Dict>, i: nat, row: Dict)
    requires Verifies(rt, rows) && i < |rows| && |labels| == |rows|
    ensures Violations(rt, labels, rows[i := row]) == ReplacementReport(rt, labels, rows, i, row)
  {
    var marks := Marks(rt, rows[i := row]);
    forall j | 0 <= j < |rows| ensures marks[j] == ReplacementMark(rt, rows, i, row, j) {
      ReplacementMarkAt(rt, rows, i, row, j);
    }
    TwoReports(marks, labels, i);
  }

  function ReplacementMark(rt: Runtime, rows: seq<Dict>, i: nat, row: Dict, j: nat): Mark
    requires i < |rows|
  {
    if j == i then Mark(Get(row, PREVIOUS_HASH) == Get(rows[i], PREVIOUS_HASH), HashHolds(rt, row))
    else if j == i + 1 then Mark(PyStr(rt, Claimed(row)) == PyStr(rt, Claimed(rows[i])), true)
    else Mark(true, true)
  }

  lemma ReplacementMarkAt(rt: Runtime, rows: seq<Dict>, i: nat, row: Dict, j: nat)
    requires Verifies(rt, rows) && i < |rows| && j < |rows|
    ensures MarkAt(rt, rows[i := row], j) == ReplacementMark(rt, rows, i, row, j)
  {
    assert RowHolds(rt, rows, j);
  }

  lemma PayloadEditBody(row: Dict, payload: Json)
    ensures Body(row[PAYLOAD := payload]) == Body(row)[PAYLOAD := payload]
    ensures Claimed(row[PAYLOAD := payload]) == Claimed(row)
    ensures Get(row[PAYLOAD := payload], PREVIOUS_HASH) == Get(row, PREVIOUS_HASH)
  {
    KeysDistinct();
  }

  /** Editing a payload in place yields exactly one error, at that row's hash, unless the two bodies collide. */
  lemma PayloadEditErrors(rt: Runtime, rows: seq<Dict>, i: nat, payload: Json)
    requires Verifies(rt, rows) && i < |rows|
    requires Get(rows[i], PAYLOAD) != payload
    ensures var row := rows[i][PAYLOAD := payload];
            Errors(rt, rows[i := row]) == [HashInvalid(i)] || Collision(rt, Body(row), Body(rows[i]))
  {
    var row := rows[i][PAYLOAD := payload];
    PayloadEditBody(rows[i], payload);
    ReplacementErrors(rt, Positions(|rows|), rows, i, row);
    assert RowHolds(rt, rows, i);
    PayloadEditDiffers(rows[i], payload);
  }

  lemma PayloadEditDiffers(row: Dict, payload: Json)
    requires Get(row, PAYLOAD) != payload
    ensures Body(row[PAYLOAD := payload]) != Body(row)
  {
    KeysDistinct();
    var edited := row[PAYLOAD := payload];
    PayloadEditBody(row, payload);
    assert PAYLOAD in Body(edited) && Body(edited)[PAYLOAD] == payload;
    assert PAYLOAD in Body(row) ==> Body(row)[PAYLOAD] == Get(row, PAYLOAD);
  }

  /** A row with its own hash recomputed. */
  function Reseal(rt: Runtime, row: Dict): Dict {
    row[RECORD_HASH := Str(Calculated(rt, row))]
  }

  lemma ResealHolds(rt: Runtime, row: Dict)
    ensures Body(Reseal(rt, row)) == Body(row)
    ensures HashHolds(rt, Reseal(rt, row))
    ensures Get(Reseal(rt, row), PREVIOUS_HASH) == Get(row, PREVIOUS_HASH)
  {
    KeysDistinct();
  }

  /**
   Editing a payload and recomputing that row's own hash yields exactly one error,
   the successor's link, or none at all when the row is the last.
   */
  lemma ResealedEditErrors(rt: Runtime, rows: seq<Dict>, i: nat, payload: Json)
    requires Verifies(rt, rows) && i < |rows|
    requires Get(rows[i], PAYLOAD) != payload
    ensures var row := rows[i][PAYLOAD := payload];
            Errors(rt, rows[i := Reseal(rt, row)]) ==
              (if i + 1 < |rows| then [PreviousHashMismatch(i + 1)] else [])
            || Collision(rt, Body(row), Body(rows[i]))
  {
    var row := rows[i][PAYLOAD := payload];
    PayloadEditBody(rows[i], payload);
    PayloadEditDiffers(rows[i], payload);
    ResealHolds(rt, row);
    assert RowHolds(rt, rows, i);
    ReplacementErrors(rt, Positions(|rows|), rows, i, Reseal(rt, row));
  }
}
