/** The report on a chain as one pass over the rows, in the names and constants of the stored rows. */
module ChainReport {
  import opened Options
  import opened PyText
  import opened Json
  import opened AuditChain
  import opened AuditReadBack

  const EIGHT: Text := Lit("00000000")

  /** 64 zeros. */
  const NO_HASH: Text := EIGHT + EIGHT + EIGHT + EIGHT + EIGHT + EIGHT + EIGHT + EIGHT

  /** The text the next row is to link to: the claimed hash, or how a claim that is no text prints. */
  function ClaimedText(rt: Runtime, row: Dict): Text {
    if Lit("record_hash") !in row then rt.show(Null)
    else match row[Lit("record_hash")] case Str(hash) => hash case other => rt.show(other)
  }

  function LinkFinding(row: Dict, previous: Text, at: int): seq<ChainError> {
    if Lit("previous_hash") in row && row[Lit("previous_hash")] == Str(previous) then [] else [PreviousHashMismatch(at)]
  }

  /** The hash of everything else in the row. */
  function HashFinding(rt: Runtime, row: Dict, at: int): seq<ChainError> {
    if Lit("record_hash") in row && row[Lit("record_hash")] == Str(rt.hashJson(row - {Lit("record_hash")})) then []
    else [HashInvalid(at)]
  }

  /** Row by row, the link before the hash, under the label of the row. */
  function Findings(rt: Runtime, labels: seq<int>, rows: seq<Dict>, previous: Text): seq<ChainError>
    requires |labels| == |rows|
  {
    if rows == [] then []
    else LinkFinding(rows[0], previous, labels[0]) + HashFinding(rt, rows[0], labels[0])
         + Findings(rt, labels[1..], rows[1..], ClaimedText(rt, rows[0]))
  }

  lemma RowFindings(rt: Runtime, rows: seq<Dict>, i: nat, at: int)
    requires i < |rows|
    ensures Report(MarkAt(rt, rows, i), at)
         == LinkFinding(rows[i], TipAt(rt, rows, i), at) + HashFinding(rt, rows[i], at)
    ensures TipAt(rt, rows, i + 1) == ClaimedText(rt, rows[i])
  {
  }

  lemma Regrouped(a: seq<ChainError>, b: seq<ChainError>, c: seq<ChainError>)
    ensures a + b + c == a + (b + c)
  {
  }

  lemma {:induction false} FindingsFrom(rt: Runtime, labels: seq<int>, rows: seq<Dict>, k: nat)
    requires |labels| == |rows| && k <= |rows|
    ensures Violations(rt, labels, rows)
         == Reports(Marks(rt, rows), labels, k) + Findings(rt, labels[k..], rows[k..], TipAt(rt, rows, k))
    decreases |rows| - k
  {
    if k < |rows| {
      FindingsFrom(rt, labels, rows, k + 1);
      RowFindings(rt, rows, k, labels[k]);
      assert labels[k..][1..] == labels[k + 1..] && rows[k..][1..] == rows[k + 1..];
      Regrouped(Reports(Marks(rt, rows), labels, k), Report(MarkAt(rt, rows, k), labels[k]),
                Findings(rt, labels[k + 1..], rows[k + 1..], TipAt(rt, rows, k + 1)));
    }
  }

  lemma NoHashSpelled()
    ensures GENESIS == NO_HASH
  {
    var zeros := "00000000";
    assert zeros[0] == zeros[1] == zeros[2] == zeros[3] == zeros[4] == zeros[5] == zeros[6] == zeros[7] == '0';
    assert EIGHT == [48, 48, 48, 48, 48, 48, 48, 48];
    assert |NO_HASH| == 64;
    assert forall i | 0 <= i < 64 :: NO_HASH[i] == 48;
  }

  /** What the verifier reports is what one such pass finds, from 64 zeros on. */
  lemma ReportSpelled(rt: Runtime, labels: seq<int>, rows: seq<Dict>)
    requires |labels| == |rows|
    ensures Violations(rt, labels, rows) == Findings(rt, labels, rows, NO_HASH)
  {
    FindingsFrom(rt, labels, rows, 0);
    NoHashSpelled();
    assert labels[0..] == labels && rows[0..] == rows;
  }

  /** Where a log is resumed whose last row this is. */
  function ResumedAt(rt: Runtime, rows: seq<Dict>, last: Dict): Opening {
    if Lit("sequence") !in last then BadSequence
    else
      match last[Lit("sequence")]
      case Int(n) => Ready(ClaimedText(rt, last), n + 1, rows)
      case other =>
        match rt.toInt(other) case None => BadSequence case Some(n) => Ready(ClaimedText(rt, last), n + 1, rows)
  }

  lemma ResumedSpelled(rt: Runtime, rows: seq<Dict>)
    requires rows != [] && Verifies(rt, rows)
    ensures Opened(rt, false, Some(rows)) == ResumedAt(rt, rows, rows[|rows| - 1])
  {
  }

  /** An empty file is a new log; one that does not read back is refused. */
  lemma OpeningNothing(rt: Runtime, found: Option<seq<Dict>>)
    ensures Opened(rt, true, found) == Ready(NO_HASH, 0, [])
    ensures Opened(rt, false, None) == Unreadable
  {
    NoHashSpelled();
  }

  lemma OpeningRefused(rt: Runtime, rows: seq<Dict>)
    ensures !Verifies(rt, rows) ==> Opened(rt, false, Some(rows)) == Rejected(Errors(rt, rows))
    ensures Verifies(rt, rows) && rows == [] ==> Opened(rt, false, Some(rows)) == NoRows
  {
  }

  /** What opening makes of the rows it reads, in the same terms. */
  lemma OpeningSpelled(rt: Runtime, rows: seq<Dict>)
    ensures var findings := Findings(rt, Positions(|rows|), rows, NO_HASH);
            Opened(rt, false, Some(rows)) ==
            if findings != [] then Rejected(findings) else if rows == [] then NoRows
            else ResumedAt(rt, rows, rows[|rows| - 1])
  {
    ReportSpelled(rt, Positions(|rows|), rows);
    NoViolations(rt, Positions(|rows|), rows);
    OpeningRefused(rt, rows);
    if rows != [] && Verifies(rt, rows) {
      ResumedSpelled(rt, rows);
    }
  }
}
