/**
 The rows an `AuditLogger` writes, and what they are once read back from the file:
 a chain that verifies exactly when no payload's keys change order in decoding.
 */
module AuditRows {
  import opened Options
  import opened PyText
  import opened Json
  import opened JsonDecode
  import opened JsonStrings
  import opened JsonRoundTrip
  import opened JsonCanonical
  import opened AuditChain
  import opened AuditFile
  import opened DecodedText

  /** SHA-256 over text, with Python's `str` and `int` on values that are neither text nor integers. */
  datatype Platform = Platform(sha256: Text -> Text, show: Json -> Text, toInt: Json -> Option<int>) {
    /** `sha256_json` is the digest of the canonical text. */
    function Rt(): Runtime {
      Runtime((d: Dict) => sha256(Encode(Obj(d))), show, toInt)
    }
  }

  /** Digests are 64 hexadecimal characters, as `hexdigest` returns. */
  ghost predicate HexDigests(p: Platform) {
    forall t: Text :: IsDigest(p.sha256(t))
  }

  predicate TextCollision(p: Platform, a: Text, b: Text) {
    a != b && p.sha256(a) == p.sha256(b)
  }

  function BodyText(row: Dict): Text {
    Encode(Obj(Body(row)))
  }

  lemma CalculatedText(p: Platform, row: Dict)
    ensures Calculated(p.Rt(), row) == p.sha256(BodyText(row))
    ensures HexDigests(p) ==> IsDigest(Calculated(p.Rt(), row))
  {
  }

  // ---------- tampering with files ----------

  /** Two of these rows have distinct body texts with one digest. */
  predicate BodiesCollide(p: Platform, a: seq<Dict>, b: seq<Dict>) {
    exists i, j | 0 <= i < |a| && 0 <= j < |b| :: TextCollision(p, BodyText(a[i]), BodyText(b[j]))
  }

  lemma BodyPairFree(row: Dict)
    requires PairFree(Obj(row))
    ensures PairFree(Obj(Body(row)))
  {
    forall k | k in Body(row) ensures NoPair(k) && PairFree(Body(row)[k]) {
      assert k in row;
    }
  }

  lemma CollisionOfTexts(p: Platform, a: seq<Dict>, b: seq<Dict>)
    requires PairFreeRows(a) && PairFreeRows(b)
    requires RowsCollide(p.Rt(), a, b)
    ensures BodiesCollide(p, a, b)
  {
    var i, j :| 0 <= i < |a| && 0 <= j < |b| && Collision(p.Rt(), Body(a[i]), Body(b[j]));
    BodyPairFree(a[i]);
    BodyPairFree(b[j]);
    EncodeInjective(Obj(Body(a[i])), Obj(Body(b[j])));
    assert TextCollision(p, BodyText(a[i]), BodyText(b[j]));
  }

  /**
   Two audit files that both verify and end in the same record hash hold the same rows,
   unless SHA-256 collides on two of their own row bodies or maps one to 64 zeros.
   */
  lemma SameTipSameFile(p: Platform, a: Text, b: Text)
    requires NoSurrogate(a) && NoSurrogate(b)
    requires ReadRows(a).Some? && ReadRows(b).Some?
    requires Verifies(p.Rt(), ReadRows(a).value) && Verifies(p.Rt(), ReadRows(b).value)
    requires Tip(p.Rt(), ReadRows(a).value) == Tip(p.Rt(), ReadRows(b).value)
    ensures ReadRows(a) == ReadRows(b)
            || BodiesCollide(p, ReadRows(a).value, ReadRows(b).value)
            || ZeroDigest(p.Rt(), ReadRows(a).value) || ZeroDigest(p.Rt(), ReadRows(b).value)
  {
    var r, s := ReadRows(a).value, ReadRows(b).value;
    ReadRowsPairFree(a);
    ReadRowsPairFree(b);
    SameTipSameChain(p.Rt(), r, s);
    if RowsCollide(p.Rt(), r, s) {
      CollisionOfTexts(p, r, s);
    }
  }

  // ---------- logger rows ----------

  function LoggerBody(sequence: int, now: Text, recordType: Text, previous: Text, payload: Dict): Dict {
    map[
      SEQUENCE := Int(sequence),
      RECORDED_AT := Str(now),
      RECORD_TYPE := Str(recordType),
      PREVIOUS_HASH := Str(previous),
      PAYLOAD := Obj(payload)
    ]
  }

  function LoggerRow(rt: Runtime, sequence: int, now: Text, recordType: Text, previous: Text, payload: Dict): Dict {
    var body := LoggerBody(sequence, now, recordType, previous, payload);
    body[RECORD_HASH := Str(rt.hashJson(body))]
  }

  const ROW_KEYS := {SEQUENCE, RECORDED_AT, RECORD_TYPE, PREVIOUS_HASH, PAYLOAD, RECORD_HASH}

  /** A row as `append` makes it: numbered, linked to the given hash, sealed with its own. */
  predicate IsLoggerRow(rt: Runtime, row: Dict, sequence: int, previous: Text) {
    && row.Keys == ROW_KEYS
    && row[SEQUENCE] == Int(sequence)
    && row[RECORDED_AT].Str?
    && row[RECORD_TYPE].Str?
    && row[PREVIOUS_HASH] == Str(previous)
    && row[PAYLOAD].Obj?
    && HashHolds(rt, row)
  }

  lemma LoggerRowIs(rt: Runtime, sequence: int, now: Text, recordType: Text, previous: Text, payload: Dict)
    ensures IsLoggerRow(rt, LoggerRow(rt, sequence, now, recordType, previous, payload), sequence, previous)
    ensures LoggerRow(rt, sequence, now, recordType, previous, payload)[PAYLOAD] == Obj(payload)
  {
    KeysDistinct();
    var row := LoggerRow(rt, sequence, now, recordType, previous, payload);
    assert Body(row) == LoggerBody(sequence, now, recordType, previous, payload);
  }

  /** What an appended row says, member by member: its number, time, type, link, payload and seal. */
  predicate RowSays(p: Platform, row: Dict, sequence: int, now: Text, recordType: Text, previous: Text, payload: Dict) {
    && row.Keys == {Lit("sequence"), Lit("recorded_at"), Lit("record_type"), Lit("previous_hash"), Lit("payload"),
                    Lit("record_hash")}
    && row[Lit("sequence")] == Int(sequence)
    && row[Lit("recorded_at")] == Str(now)
    && row[Lit("record_type")] == Str(recordType)
    && row[Lit("previous_hash")] == Str(previous)
    && row[Lit("payload")] == Obj(payload)
    && row[Lit("record_hash")] == Str(p.sha256(Encode(Obj(row - {Lit("record_hash")}))))
  }

  lemma LoggerRowSays(p: Platform, sequence: int, now: Text, recordType: Text, previous: Text, payload: Dict)
    ensures RowSays(p, LoggerRow(p.Rt(), sequence, now, recordType, previous, payload),
                    sequence, now, recordType, previous, payload)
  {
    KeysDistinct();
    var row := LoggerRow(p.Rt(), sequence, now, recordType, previous, payload);
    LoggerRowIs(p.Rt(), sequence, now, recordType, previous, payload);
    CalculatedText(p, row);
    assert Body(row) == LoggerBody(sequence, now, recordType, previous, payload);
  }

  /** Row `i` of the appended ones carries on from everything before it. */
  predicate ContinuesAt(rt: Runtime, base: seq<Dict>, start: int, appended: seq<Dict>, i: nat)
    requires i < |appended|
  {
    IsLoggerRow(rt, appended[i], start + i, if i == 0 then Tip(rt, base) else PyStr(rt, Claimed(appended[i - 1])))
  }

  /** The appended rows are numbered from `start` and continue the chain of `base`. */
  predicate Continues(rt: Runtime, base: seq<Dict>, start: int, appended: seq<Dict>) {
    forall i | 0 <= i < |appended| :: ContinuesAt(rt, base, start, appended, i)
  }

  lemma ContinuesSnoc(rt: Runtime, base: seq<Dict>, start: int, appended: seq<Dict>, row: Dict)
    requires Continues(rt, base, start, appended)
    requires IsLoggerRow(rt, row, start + |appended|, Tip(rt, base + appended))
    ensures Continues(rt, base, start, appended + [row])
    ensures Tip(rt, base + (appended + [row])) == PyStr(rt, Claimed(row))
  {
    forall i | 0 <= i < |appended + [row]| ensures ContinuesAt(rt, base, start, appended + [row], i) {
      if i < |appended| {
        assert ContinuesAt(rt, base, start, appended, i);
      } else if i > 0 {
        assert (base + appended)[|base + appended| - 1] == appended[i - 1];
      } else {
        assert base + appended == base;
      }
    }
    assert (base + (appended + [row]))[|base + appended|] == row;
  }

  /** A logger's rows verify on top of any chain that does. */
  lemma {:induction false} ContinuesVerifies(rt: Runtime, base: seq<Dict>, start: int, appended: seq<Dict>)
    requires Verifies(rt, base) && Continues(rt, base, start, appended)
    ensures Verifies(rt, base + appended)
  {
    if appended == [] {
      assert base + appended == base;
    } else {
      var n := |appended| - 1;
      var init := appended[..n];
      forall i | 0 <= i < n ensures ContinuesAt(rt, base, start, init, i) {
        assert ContinuesAt(rt, base, start, appended, i);
      }
      ContinuesVerifies(rt, base, start, init);
      assert ContinuesAt(rt, base, start, appended, n);
      KeysDistinct();
      assert n > 0 ==> (base + init)[|base + init| - 1] == appended[n - 1];
      assert n == 0 ==> base + init == base;
      ExtensionVerifies(rt, base + init, appended[n]);
      assert base + appended == (base + init) + [appended[n]];
    }
  }

  // ---------- rows read back ----------

  lemma AsciiNoPair(t: Text)
    requires forall i | 0 <= i < |t| :: t[i] < 128
    ensures NoPair(t)
  {
  }

  lemma RowKeysNoPair()
    ensures forall k | k in ROW_KEYS :: NoPair(k)
  {
    forall k | k in ROW_KEYS ensures NoPair(k) {
      AsciiNoPair(k);
    }
  }

  function Decoded(m: Dict): Dict
    requires forall k | k in m :: Norm(m[k]).Some?
  {
    map k | k in m :: Norm(m[k]).value
  }

  lemma MergedKeys(m: Dict, ks: seq<Text>)
    requires (forall k | k in m :: NoPair(k)) && ks == SortedKeys(m.Keys)
    ensures MergeAll(ks) == ks
    ensures forall k :: k in ks <==> k in m
  {
    MembersOf(Obj(m));
    forall i | 0 <= i < |ks| ensures Merge(ks[i]) == ks[i] {
      MergeIdentity(ks[i]);
    }
  }

  /** An object whose own keys are free of pairs is decoded member by member. */
  lemma NormPlainKeys(m: Dict)
    requires forall k | k in m :: NoPair(k)
    ensures Norm(Obj(m)).Some? <==> forall k | k in m :: Norm(m[k]).Some?
    ensures Norm(Obj(m)).Some? ==> Norm(Obj(m)) == Some(Obj(Decoded(m)))
  {
    var ks := SortedKeys(m.Keys);
    MergedKeys(m, ks);
    NormObject(Obj(m));
    NormMembersAt(Obj(m), ks);
    if forall k | k in m :: Norm(m[k]).Some? {
      NormPlainAccepted(m, ks);
    } else {
      var k :| k in m && Norm(m[k]).None?;
      var i :| 0 <= i < |ks| && ks[i] == k;
    }
  }

  lemma NormPlainAccepted(m: Dict, ks: seq<Text>)
    requires (forall k | k in m :: NoPair(k)) && ks == SortedKeys(m.Keys)
    requires forall k | k in m :: Norm(m[k]).Some?
    ensures NormMembers(Obj(m), ks).Some? && Collect(NormMembers(Obj(m), ks).value) == Some(Decoded(m))
  {
    MergedKeys(m, ks);
    SortedKeysMeaning(m.Keys);
    NormMembersAt(Obj(m), ks);
    assert forall i | 0 <= i < |ks| :: MergeAll(ks)[i] == ks[i];
    CollectBack(Decoded(m), ks, NormMembers(Obj(m), ks).value);
  }

  lemma StablePlainKeys(m: Dict)
    requires forall k | k in m :: NoPair(k)
    ensures KeyStable(Obj(m)) <==> forall k | k in m :: KeyStable(m[k])
  {
    MergedKeys(m, SortedKeys(m.Keys));
    SortedKeysMeaning(m.Keys);
  }

  /** Every member of a row but its payload is an integer or a string. */
  predicate PlainRow(row: Dict) {
    row.Keys == ROW_KEYS && forall k | k in row && k != PAYLOAD :: row[k].Int? || row[k].Str?
  }

  lemma LoggerRowPlain(rt: Runtime, row: Dict, sequence: int, previous: Text)
    requires IsLoggerRow(rt, row, sequence, previous)
    ensures PlainRow(row) && row[RECORD_HASH] == Str(Calculated(rt, row)) == Claimed(row)
  {
    KeysDistinct();
    assert RECORD_HASH in row;
    forall k | k in row && k != PAYLOAD ensures row[k].Int? || row[k].Str? {
      assert k in ROW_KEYS;
    }
  }

  /** The payload of a logger row decides whether its body prints the same after decoding. */
  lemma BodyStable(rt: Runtime, row: Dict, sequence: int, previous: Text)
    requires IsLoggerRow(rt, row, sequence, previous)
    ensures KeyStable(Obj(Body(row))) <==> KeyStable(row[PAYLOAD])
  {
    LoggerRowPlain(rt, row, sequence, previous);
    RowKeysNoPair();
    KeysDistinct();
    var body := Body(row);
    StablePlainKeys(body);
    assert PAYLOAD in body && body[PAYLOAD] == row[PAYLOAD];
  }

  lemma DigestMerges(t: Text)
    requires IsDigest(t)
    ensures Merge(t) == t
  {
    AsciiNoPair(t);
    MergeIdentity(t);
  }

  lemma PlainRowDecodes(row: Dict)
    requires PlainRow(row)
    ensures Norm(row[PAYLOAD]).Some? <==> forall k | k in row :: Norm(row[k]).Some?
    ensures NormRow(row).Some? <==> Norm(row[PAYLOAD]).Some?
    ensures NormRow(row).Some? ==> NormRow(row) == Some(Decoded(row))
  {
    RowKeysNoPair();
    NormPlainKeys(row);
  }

  lemma DecodedBody(row: Dict)
    requires PlainRow(row) && NormRow(row).Some?
    ensures NormRow(row).value.Keys == ROW_KEYS
    ensures Norm(Obj(Body(row))) == Some(Obj(Body(NormRow(row).value)))
  {
    PlainRowDecodes(row);
    RowKeysNoPair();
    NormPlainKeys(Body(row));
    assert Body(Decoded(row)) == Decoded(Body(row));
  }

  /** A logger row read back: accepted if its payload is, with number, link and claimed hash unchanged. */
  lemma RowReadBack(p: Platform, row: Dict, sequence: int, previous: Text)
    requires HexDigests(p) && IsDigest(previous)
    requires IsLoggerRow(p.Rt(), row, sequence, previous)
    ensures NormRow(row).Some? <==> Norm(row[PAYLOAD]).Some?
    ensures NormRow(row).Some? ==>
              var back := NormRow(row).value;
              && back.Keys == ROW_KEYS
              && back[SEQUENCE] == Int(sequence)
              && back[PREVIOUS_HASH] == Str(previous)
              && Norm(row[PAYLOAD]) == Some(back[PAYLOAD])
              && Claimed(back) == Claimed(row) == Str(Calculated(p.Rt(), row))
  {
    LoggerRowPlain(p.Rt(), row, sequence, previous);
    PlainRowDecodes(row);
    CalculatedText(p, row);
    DigestMerges(Calculated(p.Rt(), row));
    DigestMerges(previous);
  }

  /** The decoded row's hash holds exactly when decoding did not reorder keys, or the two texts collide. */
  predicate HashSurvives(p: Platform, row: Dict, back: Dict) {
    && (KeyStable(Get(row, PAYLOAD)) ==> HashHolds(p.Rt(), back))
    && (HashHolds(p.Rt(), back) ==> KeyStable(Get(row, PAYLOAD)) || TextCollision(p, BodyText(row), BodyText(back)))
  }

  lemma HashReadBack(p: Platform, row: Dict, back: Dict, sequence: int, previous: Text)
    requires HexDigests(p) && IsDigest(previous)
    requires IsLoggerRow(p.Rt(), row, sequence, previous) && NormRow(row) == Some(back)
    ensures HashSurvives(p, row, back)
  {
    LoggerRowPlain(p.Rt(), row, sequence, previous);
    RowReadBack(p, row, sequence, previous);
    DecodedBody(row);
    BodyStable(p.Rt(), row, sequence, previous);
    StableExact(Obj(Body(row)));
  }
}
