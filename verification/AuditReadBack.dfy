/** What reading an audit log back, or reopening it, makes of everything a logger appended. */
module AuditReadBack {
  import opened Options
  import opened PyText
  import opened Json
  import opened JsonStrings
  import opened JsonCanonical
  import opened AuditChain
  import opened AuditFile
  import opened AuditRows

  /** No appended payload has keys whose order decoding changes. */
  predicate AllStable(rows: seq<Dict>) {
    forall i | 0 <= i < |rows| :: StableAt(rows, i)
  }

  predicate StableAt(rows: seq<Dict>, i: nat)
    requires i < |rows|
  {
    KeyStable(Get(rows[i], PAYLOAD))
  }

  /** Some appended row and its decoded form have distinct body texts with one digest. */
  predicate ReadBackCollides(p: Platform, rows: seq<Dict>, back: seq<Dict>)
    requires |back| == |rows|
  {
    exists i | 0 <= i < |rows| :: TextCollision(p, BodyText(rows[i]), BodyText(back[i]))
  }

  lemma {:induction false} NormRowsAt(rows: seq<Dict>)
    ensures NormRows(rows).Some? <==> forall i | 0 <= i < |rows| :: NormRow(rows[i]).Some?
    ensures NormRows(rows).Some? ==>
              forall i | 0 <= i < |rows| :: NormRow(rows[i]) == Some(NormRows(rows).value[i])
  {
    if rows != [] {
      var n := |rows| - 1;
      NormRowsAt(rows[..n]);
      NormRowsSnoc(rows);
      assert forall i | 0 <= i < n :: rows[..n][i] == rows[i];
    }
  }

  function PreviousOf(rt: Runtime, base: seq<Dict>, appended: seq<Dict>, i: nat): Text
    requires i <= |appended|
  {
    if i == 0 then Tip(rt, base) else PyStr(rt, Claimed(appended[i - 1]))
  }

  lemma TipIsDigest(p: Platform, base: seq<Dict>)
    requires HexDigests(p) && Verifies(p.Rt(), base)
    ensures IsDigest(Tip(p.Rt(), base))
  {
    if base != [] {
      LastRowHolds(p.Rt(), base);
      CalculatedText(p, base[|base| - 1]);
    }
  }

  lemma PreviousIsDigest(p: Platform, base: seq<Dict>, start: int, appended: seq<Dict>, i: nat)
    requires HexDigests(p) && Verifies(p.Rt(), base) && Continues(p.Rt(), base, start, appended) && i < |appended|
    ensures IsDigest(PreviousOf(p.Rt(), base, appended, i))
    ensures IsLoggerRow(p.Rt(), appended[i], start + i, PreviousOf(p.Rt(), base, appended, i))
  {
    assert ContinuesAt(p.Rt(), base, start, appended, i);
    if i == 0 {
      TipIsDigest(p, base);
    } else {
      assert ContinuesAt(p.Rt(), base, start, appended, i - 1);
      CalculatedText(p, appended[i - 1]);
    }
  }

  // ---------- a chain copied row by row ----------

  /** Row `i` of the copy has the number, the link and the claimed hash of the appended one. */
  predicate CopiesAt(rt: Runtime, base: seq<Dict>, start: int, appended: seq<Dict>, back: seq<Dict>, i: nat)
    requires |back| == |appended| && i < |appended|
  {
    && Get(back[i], SEQUENCE) == Int(start + i)
    && Get(back[i], PREVIOUS_HASH) == Str(PreviousOf(rt, base, appended, i))
    && Claimed(back[i]) == Claimed(appended[i])
  }

  predicate Copies(rt: Runtime, base: seq<Dict>, start: int, appended: seq<Dict>, back: seq<Dict>) {
    |back| == |appended| && forall i | 0 <= i < |appended| :: CopiesAt(rt, base, start, appended, back, i)
  }

  lemma CopyTip(rt: Runtime, base: seq<Dict>, start: int, appended: seq<Dict>, back: seq<Dict>, i: nat)
    requires Copies(rt, base, start, appended, back) && i <= |appended|
    ensures TipAt(rt, base + back, |base| + i) == PreviousOf(rt, base, appended, i)
    ensures TipAt(rt, base + appended, |base| + i) == PreviousOf(rt, base, appended, i)
  {
    if i > 0 {
      assert CopiesAt(rt, base, start, appended, back, i - 1);
    }
  }

  /** On top of a base that verifies, the links of a copy always hold; only its hashes can fail. */
  lemma CopyVerifies(rt: Runtime, base: seq<Dict>, start: int, appended: seq<Dict>, back: seq<Dict>)
    requires Verifies(rt, base) && Copies(rt, base, start, appended, back)
    ensures Verifies(rt, base + back) <==> forall i | 0 <= i < |back| :: HashHolds(rt, back[i])
  {
    forall i | 0 <= i < |base + back|
      ensures RowHolds(rt, base + back, i) <==> i < |base| || HashHolds(rt, back[i - |base|])
    {
      if i < |base| {
        assert RowHolds(rt, base, i);
      } else {
        assert CopiesAt(rt, base, start, appended, back, i - |base|);
        CopyTip(rt, base, start, appended, back, i - |base|);
      }
    }
    if Verifies(rt, base + back) {
      forall i | 0 <= i < |back| ensures HashHolds(rt, back[i]) {
        assert RowHolds(rt, base + back, |base| + i);
      }
    }
  }

  /** Decoding copies the chain. */
  lemma DecodingCopies(p: Platform, base: seq<Dict>, start: int, appended: seq<Dict>)
    requires HexDigests(p) && Verifies(p.Rt(), base) && Continues(p.Rt(), base, start, appended)
    requires NormRows(appended).Some?
    ensures Copies(p.Rt(), base, start, appended, NormRows(appended).value)
  {
    NormRowsAt(appended);
    var back := NormRows(appended).value;
    forall i | 0 <= i < |appended| ensures CopiesAt(p.Rt(), base, start, appended, back, i) {
      PreviousIsDigest(p, base, start, appended, i);
      assert NormRow(appended[i]) == Some(back[i]);
      RowReadBack(p, appended[i], start + i, PreviousOf(p.Rt(), base, appended, i));
    }
  }

  lemma DecodedHash(p: Platform, base: seq<Dict>, start: int, appended: seq<Dict>, i: nat, back: Dict)
    requires HexDigests(p) && Verifies(p.Rt(), base) && Continues(p.Rt(), base, start, appended)
    requires i < |appended| && NormRow(appended[i]) == Some(back)
    ensures HashSurvives(p, appended[i], back)
  {
    PreviousIsDigest(p, base, start, appended, i);
    HashReadBack(p, appended[i], back, start + i, PreviousOf(p.Rt(), base, appended, i));
  }

  /**
   Reading back what a logger appended to a verifying base.  The decoded rows keep
   their numbers and the chain its tip; they verify if every payload is key-stable,
   and otherwise only if SHA-256 collides on a row and its decoded form.
   */
  lemma ReadBackExact(p: Platform, base: seq<Dict>, start: int, appended: seq<Dict>)
    requires HexDigests(p) && Verifies(p.Rt(), base) && Continues(p.Rt(), base, start, appended)
    ensures AllStable(appended) ==>
              NormRows(appended).Some? && Verifies(p.Rt(), base + NormRows(appended).value)
    ensures NormRows(appended).Some? && Verifies(p.Rt(), base + NormRows(appended).value) ==>
              AllStable(appended) || ReadBackCollides(p, appended, NormRows(appended).value)
    ensures NormRows(appended).Some? ==>
              var back := NormRows(appended).value;
              && Tip(p.Rt(), base + back) == Tip(p.Rt(), base + appended)
              && forall i | 0 <= i < |back| :: Get(back[i], SEQUENCE) == Int(start + i)
  {
    if AllStable(appended) {
      AllStableAccepted(p, base, start, appended);
    }
    if NormRows(appended).Some? {
      var back := NormRows(appended).value;
      DecodingCopies(p, base, start, appended);
      CopyTip(p.Rt(), base, start, appended, back, |appended|);
      CopyVerifies(p.Rt(), base, start, appended, back);
      forall i | 0 <= i < |back| ensures Get(back[i], SEQUENCE) == Int(start + i) {
        assert CopiesAt(p.Rt(), base, start, appended, back, i);
      }
      HashesReadBack(p, base, start, appended);
    }
  }

  lemma HashesReadBack(p: Platform, base: seq<Dict>, start: int, appended: seq<Dict>)
    requires HexDigests(p) && Verifies(p.Rt(), base) && Continues(p.Rt(), base, start, appended)
    requires NormRows(appended).Some?
    ensures AllStable(appended) ==> forall i | 0 <= i < |appended| :: HashHolds(p.Rt(), NormRows(appended).value[i])
    ensures (forall i | 0 <= i < |appended| :: HashHolds(p.Rt(), NormRows(appended).value[i])) ==>
              AllStable(appended) || ReadBackCollides(p, appended, NormRows(appended).value)
  {
    var back := NormRows(appended).value;
    NormRowsAt(appended);
    forall i | 0 <= i < |appended| ensures HashSurvives(p, appended[i], back[i]) {
      DecodedHash(p, base, start, appended, i, back[i]);
    }
    SurvivorsMeaning(p, appended, back);
  }

  lemma SurvivorsMeaning(p: Platform, rows: seq<Dict>, back: seq<Dict>)
    requires |back| == |rows| && forall i | 0 <= i < |rows| :: HashSurvives(p, rows[i], back[i])
    ensures AllStable(rows) ==> forall i | 0 <= i < |rows| :: HashHolds(p.Rt(), back[i])
    ensures (forall i | 0 <= i < |rows| :: HashHolds(p.Rt(), back[i])) ==>
              AllStable(rows) || ReadBackCollides(p, rows, back)
  {
    if AllStable(rows) {
      forall i | 0 <= i < |rows| ensures HashHolds(p.Rt(), back[i]) {
        assert StableAt(rows, i) && HashSurvives(p, rows[i], back[i]);
      }
    } else {
      var i :| 0 <= i < |rows| && !StableAt(rows, i);
      assert HashSurvives(p, rows[i], back[i]);
    }
  }

  lemma AllStableAccepted(p: Platform, base: seq<Dict>, start: int, appended: seq<Dict>)
    requires HexDigests(p) && Verifies(p.Rt(), base) && Continues(p.Rt(), base, start, appended)
    requires AllStable(appended)
    ensures NormRows(appended).Some?
  {
    NormRowsAt(appended);
    forall i | 0 <= i < |appended| ensures NormRow(appended[i]).Some? {
      assert StableAt(appended, i);
      StableRowAccepted(p, base, start, appended, i);
    }
  }

  lemma StableRowAccepted(p: Platform, base: seq<Dict>, start: int, appended: seq<Dict>, i: nat)
    requires HexDigests(p) && Verifies(p.Rt(), base) && Continues(p.Rt(), base, start, appended)
    requires i < |appended| && KeyStable(Get(appended[i], PAYLOAD))
    ensures NormRow(appended[i]).Some?
  {
    PreviousIsDigest(p, base, start, appended, i);
    var previous := PreviousOf(p.Rt(), base, appended, i);
    RowReadBack(p, appended[i], start + i, previous);
    StableExact(appended[i][PAYLOAD]);
  }

  // ---------- reopening ----------

  /** What `AuditLogger.__init__` makes of the text at its path. */
  datatype Opening =
    | Ready(previousHash: Text, sequence: int, rows: seq<Dict>)
    | Unreadable
    | Rejected(errors: seq<ChainError>)
    | NoRows
    | BadSequence

  /** `int(value)`. */
  function PyInt(rt: Runtime, v: Json): Option<int> {
    if v.Int? then Some(v.i) else rt.toInt(v)
  }

  /** The tip and the number to resume at: `found` is what reading a non-empty file gave. */
  function Opened(rt: Runtime, empty: bool, found: Option<seq<Dict>>): Opening {
    if empty then Ready(GENESIS, 0, [])
    else
      match found
      case None => Unreadable
      case Some(rows) =>
        if !Verifies(rt, rows) then Rejected(Errors(rt, rows))
        else if rows == [] then NoRows
        else
          var last := rows[|rows| - 1];
          if SEQUENCE !in last then BadSequence
          else
            match PyInt(rt, last[SEQUENCE])
            case None => BadSequence
            case Some(n) => Ready(Tip(rt, rows), n + 1, rows)
  }

  lemma ReadNothing(rows: Option<seq<Dict>>)
    ensures ReadRows([]) == Some([])
    ensures Both(Some([]), rows) == rows
  {
    if rows.Some? {
      assert [] + rows.value == rows.value;
    }
  }

  lemma EmptyBase(rows: seq<Dict>)
    ensures [] + rows == rows
  {
  }

  /** A whole log of stable payloads, read back: it verifies, numbered from zero, with the same tip. */
  lemma BackVerifies(p: Platform, rows: seq<Dict>)
    requires HexDigests(p) && Continues(p.Rt(), [], 0, rows) && AllStable(rows)
    ensures NormRows(rows).Some? && Resumable(p.Rt(), rows, NormRows(rows).value)
  {
    ReadBackExact(p, [], 0, rows);
    EmptyBase(rows);
    EmptyBase(NormRows(rows).value);
  }

  predicate Resumable(rt: Runtime, rows: seq<Dict>, back: seq<Dict>) {
    && |back| == |rows|
    && Verifies(rt, back)
    && Tip(rt, back) == Tip(rt, rows)
    && forall i | 0 <= i < |back| :: Get(back[i], SEQUENCE) == Int(0 + i)
  }

  lemma OpenedReady(rt: Runtime, rows: seq<Dict>, back: seq<Dict>)
    requires Resumable(rt, rows, back)
    ensures Opened(rt, rows == [], Some(back)) == Ready(Tip(rt, rows), |rows|, back)
  {
    if rows != [] {
      assert Get(back[|back| - 1], SEQUENCE) == Int(0 + (|back| - 1));
    }
  }

  /** What reopening finds at a path that holds these appended rows. */
  function Reopened(p: Platform, rows: seq<Dict>): Opening {
    Opened(p.Rt(), rows == [], NormRows(rows))
  }

  /** That is what the file's text gives. */
  lemma ReopenedFromText(p: Platform, rows: seq<Dict>)
    ensures Reopened(p, rows) == Opened(p.Rt(), Frames(rows) == [], ReadRows(Frames(rows)))
  {
    ReadFrames(rows);
  }

  /** Reopening a log of stable payloads resumes at exactly the tip and number the writer had. */
  lemma ReopenResumes(p: Platform, rows: seq<Dict>)
    requires HexDigests(p) && Continues(p.Rt(), [], 0, rows) && AllStable(rows)
    ensures NormRows(rows).Some?
    ensures Reopened(p, rows) == Ready(Tip(p.Rt(), rows), |rows|, NormRows(rows).value)
  {
    BackVerifies(p, rows);
    OpenedReady(p.Rt(), rows, NormRows(rows).value);
  }

  /** Otherwise it refuses: the file is unreadable or the chain is reported invalid, short of a collision. */
  lemma ReopenRefuses(p: Platform, rows: seq<Dict>)
    requires HexDigests(p) && Continues(p.Rt(), [], 0, rows) && !AllStable(rows)
    ensures NormRows(rows).None? ==> Reopened(p, rows) == Unreadable
    ensures NormRows(rows).Some? ==>
              || Reopened(p, rows) == Rejected(Errors(p.Rt(), NormRows(rows).value))
              || ReadBackCollides(p, rows, NormRows(rows).value)
  {
    ReadBackExact(p, [], 0, rows);
    if NormRows(rows).Some? {
      EmptyBase(NormRows(rows).value);
    }
  }

  /**
   Such payloads exist.  Of these two keys the written-out surrogate pair sorts first,
   and the supplementary character it decodes to sorts last.
   */
  lemma UnstablePayload()
    ensures !KeyStable(Obj(map[[0xD800, 0xDC00] := Null, [0xE000] := Null]))
  {
    var pair: Text := [0xD800, 0xDC00];
    var other: Text := [0xE000];
    var ks := [pair, other];
    assert Below(pair, other);
    assert Elements(ks) == {pair, other};
    var v := Obj(map[pair := Null, other := Null]);
    assert v.members.Keys == {pair, other};
    SortedKeysMeaning(v.members.Keys);
    IncreasingUnique(SortedKeys(v.members.Keys), ks);
    assert pair[2..] == [];
    assert Merge(pair) == [0x10000] && Merge(other)[0] == 0xE000;
    assert !Below(MergeAll(ks)[0], MergeAll(ks)[1]);
  }
}
