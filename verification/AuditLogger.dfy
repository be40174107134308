/**
 `AuditLogger`: the tip it carries in memory against the rows it has appended, through complete, short and
 durability-ambiguous writes, descriptor binding and reopening; and what its file then reads back.
 */
module AuditLogger {
  import opened Options
  import opened PyText
  import opened Json
  import opened JsonTorn
  import opened AuditChain
  import opened AuditFile
  import opened AuditAppend
  import opened AuditRows
  import opened AuditReadBack

  /** The file behind a logger's path. */
  class AuditStorage {
    var text: Text

    constructor (text: Text)
      ensures this.text == text
    {
      this.text := text;
    }
  }

  /**
   What the system does with one append: the results of successive `os.write` calls on
   a bound descriptor, how much of an unbound write reaches the file, and `fsync`.
   */
  datatype Io = Io(writes: seq<int>, flushed: nat, synced: bool)

  datatype AppendResult =
    | Returned(row: Dict)     // the decoded row
    | Undecodable             // the row is stored, but its text has a repeated member
    | DurabilityAmbiguous     // AuditDurabilityError: stored, fsync failed
    | Incomplete(stored: nat) // OSError: only so much of the row's text was stored

  /** How much of `n` characters a series of write results stores before one makes no progress. */
  function Drained(n: nat, writes: seq<int>): (stored: nat)
    ensures stored <= n
  {
    if n == 0 || writes == [] || writes[0] <= 0 then 0
    else
      var taken := if writes[0] < n then writes[0] else n;
      taken + Drained(n - taken, writes[1..])
  }

  function Smaller(a: nat, b: nat): nat {
    if a < b then a else b
  }

  function Total(writes: seq<int>): int {
    if writes == [] then 0 else writes[0] + Total(writes[1..])
  }

  predicate Progress(writes: seq<int>, k: nat, n: nat)
    requires k <= |writes|
  {
    (forall i | 0 <= i < k :: writes[i] > 0) && Total(writes[..k]) >= n
  }

  /** A row is stored whole exactly when some run of writes, each making progress, adds up to it. */
  lemma {:induction false} DrainedExact(n: nat, writes: seq<int>)
    ensures Drained(n, writes) == n <==> exists k | 0 <= k <= |writes| :: Progress(writes, k, n)
    decreases |writes|
  {
    if n == 0 {
      assert Progress(writes, 0, n);
    } else if writes != [] && writes[0] > 0 {
      var taken := if writes[0] < n then writes[0] else n;
      DrainedExact(n - taken, writes[1..]);
      if Drained(n - taken, writes[1..]) == n - taken {
        var k :| 0 <= k <= |writes[1..]| && Progress(writes[1..], k, n - taken);
        ProgressStep(writes, k, n, taken);
      }
      if k :| 0 <= k <= |writes| && Progress(writes, k, n) {
        assert k > 0;
        assert writes[..k][1..] == writes[1..][..k - 1];
        TotalPositive(writes[1..], k - 1);
        assert Progress(writes[1..], k - 1, n - taken);
      }
    } else {
      forall k | 0 <= k <= |writes| ensures !Progress(writes, k, n) {
        StuckAtOnce(writes, k, n);
      }
    }
  }

  /** In any case it stores what the writes add up to before one makes no progress, and no more than the row. */
  lemma {:induction false} DrainedAmount(n: nat, writes: seq<int>, k: nat)
    requires k <= |writes| && forall i | 0 <= i < k :: writes[i] > 0
    requires k == |writes| || writes[k] <= 0
    ensures Drained(n, writes) == if Total(writes[..k]) < n then Total(writes[..k]) else n
    decreases |writes|
  {
    TotalPositive(writes, k);
    if k > 0 && n > 0 {
      var taken := if writes[0] < n then writes[0] else n;
      assert writes[..k][1..] == writes[1..][..k - 1];
      TotalPositive(writes[1..], k - 1);
      DrainedAmount(n - taken, writes[1..], k - 1);
    }
  }

  lemma StuckAtOnce(writes: seq<int>, k: nat, n: nat)
    requires n > 0 && k <= |writes| && (writes == [] || writes[0] <= 0)
    ensures !Progress(writes, k, n)
  {
  }

  lemma {:induction false} TotalPositive(writes: seq<int>, k: nat)
    requires k <= |writes| && forall i | 0 <= i < k :: writes[i] > 0
    ensures Total(writes[..k]) >= 0
  {
    if k > 0 {
      assert writes[..k][1..] == writes[1..][..k - 1];
      TotalPositive(writes[1..], k - 1);
    }
  }

  lemma ProgressStep(writes: seq<int>, k: nat, n: nat, taken: nat)
    requires writes != [] && writes[0] > 0 && k < |writes| && n >= taken
    requires taken <= writes[0] && Progress(writes[1..], k, n - taken)
    ensures Progress(writes, k + 1, n)
  {
    assert writes[..k + 1][1..] == writes[1..][..k];
    assert forall i | 0 < i < k + 1 :: writes[i] == writes[1..][i - 1];
  }

  /** The state an append, a read or a reopening acts on, for a logger with a path. */
  datatype LogState = LogState(text: Text, previousHash: Text, sequence: int, bound: bool)

  function AppendRow(p: Platform, s: LogState, recordType: Text, payload: Dict, now: Text): Dict {
    LoggerRow(p.Rt(), s.sequence, now, recordType, s.previousHash, payload)
  }

  /** The effect of an append whose row is stored whole, durable or not. */
  function AfterAppend(p: Platform, s: LogState, recordType: Text, payload: Dict, now: Text): LogState {
    var row := AppendRow(p, s, recordType, payload, now);
    s.(text := s.text + Frame(row), previousHash := PyStr(p.Rt(), Claimed(row)), sequence := s.sequence + 1)
  }

  lemma SnocFrames(base: Text, rows: seq<Dict>, row: Dict)
    ensures base + Frames(rows + [row]) == base + Frames(rows) + Frame(row)
  {
    assert (rows + [row])[..|rows|] == rows;
    FramesSnoc(base, rows + [row]);
  }

  /** The appended rows continue a verifying base up to this tip and this next number. */
  predicate Chained(rt: Runtime, base: seq<Dict>, start: int, appended: seq<Dict>, tip: Text, sequence: int) {
    && Verifies(rt, base)
    && Continues(rt, base, start, appended)
    && tip == Tip(rt, base + appended)
    && sequence == start + |appended|
  }

  lemma ChainedSnoc(rt: Runtime, base: seq<Dict>, start: int, appended: seq<Dict>, tip: Text, sequence: int, row: Dict)
    requires Chained(rt, base, start, appended, tip, sequence) && IsLoggerRow(rt, row, sequence, tip)
    ensures Chained(rt, base, start, appended + [row], PyStr(rt, Claimed(row)), sequence + 1)
    ensures RECORD_HASH in row && (row[RECORD_HASH].Str? ==> PyStr(rt, Claimed(row)) == row[RECORD_HASH].s)
  {
    ContinuesSnoc(rt, base, start, appended, row);
  }

  lemma WholeWritten(t: Text, row: Dict)
    ensures Written(t, row, |Frame(row)|) == t + Frame(row)
  {
    assert Frame(row)[..|Frame(row)|] == Frame(row);
  }

  /** Either the logger, or why there is none. */
  datatype OpenResult = Logger(logger: AuditLogger) | Failed(opening: Opening)

  class AuditLogger {
    const platform: Platform
    const storage: AuditStorage?
    var memory: seq<Dict>
    var previousHash: Text
    var sequence: int
    var bound: bool

    ghost var base: seq<Dict>
    ghost var baseText: Text
    ghost var start: int
    ghost var appended: seq<Dict>
    ghost var intact: bool // no failing write has left part of a row behind

    /**
     The file read back as `base` when it was opened; the appended rows continue that chain up to the tip and the
     number held in memory, and as long as every write was whole or empty they are what follows in the file.
     */
    ghost predicate Valid()
      reads this, storage
    {
      && Chained(platform.Rt(), base, start, appended, previousHash, sequence)
      && (storage == null ==> base == [] && start == 0 && memory == appended && !bound)
      && (storage != null ==> memory == [] && ReadRows(baseText) == Some(base))
      && (storage != null && intact ==> storage.text == baseText + Frames(appended))
    }

    ghost function State(): LogState
      reads this, storage
      requires storage != null
    {
      LogState(storage.text, previousHash, sequence, bound)
    }

    constructor Fresh(platform: Platform, storage: AuditStorage?, previousHash: Text, sequence: int,
                      ghost base: seq<Dict>)
      requires Verifies(platform.Rt(), base) && previousHash == Tip(platform.Rt(), base)
      requires storage == null ==> base == [] && sequence == 0
      requires storage != null ==> ReadRows(storage.text) == Some(base)
      ensures Valid() && intact && this.platform == platform && this.storage == storage && !bound
      ensures this.previousHash == previousHash && this.sequence == sequence
      ensures this.base == base && appended == [] && start == sequence
      ensures storage != null ==> baseText == storage.text
    {
      this.platform, this.storage := platform, storage;
      memory, bound := [], false;
      this.previousHash, this.sequence := previousHash, sequence;
      this.base, start, appended, intact := base, sequence, [], true;
      baseText := if storage == null then [] else storage.text;
      new;
      assert base + [] == base;
      if storage != null {
        assert storage.text + [] == storage.text;
      }
    }

    /** `__init__`: a new log, or the tip of an existing one that reads back and verifies. */
    static method Open(platform: Platform, storage: AuditStorage?) returns (r: OpenResult)
      ensures r.Logger? ==>
                && fresh(r.logger) && r.logger.Valid() && r.logger.storage == storage
                && r.logger.platform == platform && r.logger.appended == [] && r.logger.intact
      ensures storage == null ==> r.Logger? && r.logger.previousHash == GENESIS && r.logger.sequence == 0
      ensures storage != null ==>
                var opening := Opened(platform.Rt(), storage.text == [], ReadRows(storage.text));
                && (r.Logger? <==> opening.Ready?)
                && (r.Failed? ==> r.opening == opening)
                && (r.Logger? ==>
                      && r.logger.State() == LogState(storage.text, opening.previousHash, opening.sequence, false)
                      && r.logger.base == opening.rows && r.logger.baseText == storage.text)
    {
      if storage == null {
        var logger := new AuditLogger.Fresh(platform, storage, GENESIS, 0, []);
        return Logger(logger);
      }
      var opening := Opened(platform.Rt(), storage.text == [], ReadRows(storage.text));
      if opening.Ready? {
        ReadNothing(None);
        assert Verifies(platform.Rt(), opening.rows) && opening.previousHash == Tip(platform.Rt(), opening.rows);
        var logger := new AuditLogger.Fresh(platform, storage, opening.previousHash, opening.sequence, opening.rows);
        return Logger(logger);
      }
      return Failed(opening);
    }

    /** `bind_descriptor`, entered: refused without a path or when already bound. */
    method Bind() returns (ok: bool)
      requires Valid()
      modifies this`bound
      ensures Valid()
      ensures ok <==> storage != null && !old(bound)
      ensures bound == (old(bound) || ok)
    {
      ok := storage != null && !bound;
      if ok {
        bound := true;
      }
    }

    /** `bind_descriptor`, left. */
    method Unbind()
      requires Valid()
      modifies this`bound
      ensures Valid() && !bound
    {
      bound := false;
    }

    /** Drains the encoded row through `os.write`; stops short only when a call makes no progress. */
    method WriteBound(encoded: Text, writes: seq<int>) returns (stored: nat)
      requires storage != null
      modifies storage
      ensures stored == Drained(|encoded|, writes)
      ensures storage.text == old(storage.text) + encoded[..stored]
    {
      var view := encoded;
      var call := 0;
      stored := 0;
      while view != []
        invariant call <= |writes|
        invariant stored <= |encoded|
        invariant view == encoded[stored..]
        invariant storage.text == old(storage.text) + encoded[..stored]
        invariant Drained(|encoded|, writes) == stored + Drained(|view|, writes[call..])
        decreases |view|
      {
        var written := if call < |writes| then writes[call] else 0;
        if written <= 0 {
          return;
        }
        call := call + 1;
        var n := if written < |view| then written else |view|;
        storage.text := storage.text + view[..n];
        view := view[n..];
        stored := stored + n;
      }
    }

    /** Writes the row's line, through the bound descriptor if there is one, and says how much was stored. */
    method Store(row: Dict, io: Io) returns (stored: nat)
      requires Valid() && storage != null
      modifies this`intact, storage
      ensures stored == if bound then Drained(|Frame(row)|, io.writes) else Smaller(io.flushed, |Frame(row)|)
      ensures stored <= |Frame(row)| && storage.text == Written(old(storage.text), row, stored)
      ensures intact == (old(intact) && (stored == 0 || stored == |Frame(row)|))
      ensures stored < |Frame(row)| ==> Valid()
    {
      var encoded := Encode(Obj(row)) + [NEWLINE];
      if bound {
        stored := WriteBound(encoded, io.writes);
      } else {
        stored := Smaller(io.flushed, |encoded|);
        storage.text := storage.text + encoded[..stored];
      }
      intact := intact && (stored == 0 || stored == |encoded|);
    }

    /**
     `append`.  Once the row's text is stored whole the tip moves, whether or not `fsync`
     succeeds and whether or not the text decodes; if it is not, the tip stays and the file
     is intact only if nothing was stored.
     */
    method Append(recordType: Text, payload: Dict, now: Text, io: Io) returns (r: AppendResult)
      requires Valid()
      modifies this, storage
      ensures Valid()
      ensures bound == old(bound) && base == old(base) && baseText == old(baseText) && start == old(start)
      ensures intact == (old(intact) && (r.Incomplete? ==> r.stored == 0))
      ensures !r.Incomplete? ==>
                && |appended| == |old(appended)| + 1
                && RowSays(platform, appended[|old(appended)|], old(sequence), now, recordType, old(previousHash),
                           payload)
                && Str(previousHash) == appended[|old(appended)|][Lit("record_hash")]
                && sequence == old(sequence) + 1
                && (storage != null ==>
                      storage.text == old(storage.text) + Encode(Obj(appended[|old(appended)|])) + [10])
      ensures var row := LoggerRow(platform.Rt(), old(sequence), now, recordType, old(previousHash), payload);
              if r.Incomplete? then
                && storage != null && r.stored < |Frame(row)|
                && r.stored == (if old(bound) then Drained(|Frame(row)|, io.writes) else io.flushed)
                && State() == old(State()).(text := Written(old(storage.text), row, r.stored))
                && appended == old(appended)
              else
                && appended == old(appended) + [row]
                && (storage != null && old(bound) ==> Drained(|Frame(row)|, io.writes) == |Frame(row)|)
                && (storage != null && !old(bound) ==> io.flushed >= |Frame(row)|)
                && (storage != null ==> State() == AfterAppend(platform, old(State()), recordType, payload, now))
                && (r.DurabilityAmbiguous? <==> storage != null && !io.synced)
                && (r.Undecodable? <==> !r.DurabilityAmbiguous? && NormRow(row).None?)
                && (r.Returned? ==> NormRow(row) == Some(r.row))
    {
      var body := LoggerBody(sequence, now, recordType, previousHash, payload);
      body := body[RECORD_HASH := Str(platform.Rt().hashJson(body))];
      assert body == LoggerRow(platform.Rt(), sequence, now, recordType, previousHash, payload);
      LoggerRowIs(platform.Rt(), sequence, now, recordType, previousHash, payload);
      LoggerRowSays(platform, sequence, now, recordType, previousHash, payload);
      if storage == null {
        memory := memory + [body];
      } else {
        var stored := Store(body, io);
        if stored < |Frame(body)| {
          return Incomplete(stored);
        }
        WholeWritten(old(storage.text), body);
      }
      Advance(body);
      if storage != null && !io.synced {
        return DurabilityAmbiguous;
      }
      ObjectLine(body);
      match DecodeRow(Encode(Obj(body)))
      case Some(row) => return Returned(row);
      case None => return Undecodable;
    }

    /** Moves the tip over a row that is now stored. */
    method Advance(row: Dict)
      requires RECORD_HASH in row && row[RECORD_HASH].Str?
      requires Chained(platform.Rt(), base, start, appended, previousHash, sequence)
      requires IsLoggerRow(platform.Rt(), row, sequence, previousHash)
      requires storage == null ==> base == [] && start == 0 && memory == appended + [row] && !bound
      requires storage != null ==> memory == [] && ReadRows(baseText) == Some(base)
      requires storage != null && intact ==> storage.text == baseText + Frames(appended) + Frame(row)
      modifies this
      ensures Valid() && appended == old(appended) + [row]
      ensures bound == old(bound) && intact == old(intact)
      ensures base == old(base) && baseText == old(baseText) && start == old(start)
      ensures previousHash == PyStr(platform.Rt(), Claimed(row)) && sequence == old(sequence) + 1
    {
      ChainedSnoc(platform.Rt(), base, start, appended, previousHash, sequence, row);
      SnocFrames(baseText, appended, row);
      previousHash := row[RECORD_HASH].s;
      sequence := sequence + 1;
      appended := appended + [row];
    }

    /** `read_all`: the rows held in memory, or the decoded lines of the file. */
    method ReadAll() returns (rows: Option<seq<Dict>>)
      requires Valid()
      ensures rows == if storage == null then Some(appended) else ReadRows(storage.text)
    {
      if storage == null {
        return Some(memory);
      }
      return ReadRows(storage.text);
    }

    /** The file of a logger whose writes were all whole or empty reads back unless its opened text was unended. */
    lemma ReadsBack()
      requires Valid() && storage != null && intact
      ensures ReadRows(storage.text) ==
              if appended == [] || Appendable(baseText) then Both(Some(base), NormRows(appended)) else None
    {
      RowsNamed(platform.Rt(), base, start, appended);
      ReadAppendedExactly(baseText, appended);
    }

    /** And what it reads back keeps the chain held in memory. */
    lemma ReadsBackKept()
      requires Valid() && storage != null && intact && HexDigests(platform)
      ensures ReadRows(storage.text).Some? <== (appended == [] || Appendable(baseText)) && AllStable(appended)
      ensures ReadRows(storage.text).Some? ==>
                && (appended == [] || Appendable(baseText))
                && NormRows(appended).Some? && ReadRows(storage.text).value == base + NormRows(appended).value
                && Kept(platform, base, start, appended, NormRows(appended).value, previousHash)
    {
      ReadsBack();
      AppendedKept(platform, base, start, appended);
    }
  }

  /**
   Appended rows as they read back, after a verifying base: they have this tip and the numbers the logger gave, and
   verify if every payload appended is key-stable, otherwise only if SHA-256 collides on a row and its decoded form.
   */
  predicate Kept(p: Platform, base: seq<Dict>, start: int, appended: seq<Dict>, back: seq<Dict>, tip: Text) {
    && |back| == |appended|
    && Tip(p.Rt(), base + back) == tip
    && (forall i | 0 <= i < |back| :: Get(back[i], SEQUENCE) == Int(start + i))
    && (AllStable(appended) ==> Errors(p.Rt(), base + back) == [])
    && (Errors(p.Rt(), base + back) == [] ==> AllStable(appended) || ReadBackCollides(p, appended, back))
  }

  lemma AppendedKept(p: Platform, base: seq<Dict>, start: int, appended: seq<Dict>)
    requires HexDigests(p) && Verifies(p.Rt(), base) && Continues(p.Rt(), base, start, appended)
    ensures AllStable(appended) ==> NormRows(appended).Some?
    ensures NormRows(appended).Some? ==>
              Kept(p, base, start, appended, NormRows(appended).value, Tip(p.Rt(), base + appended))
  {
    ReadBackExact(p, base, start, appended);
    if NormRows(appended).Some? {
      var rows := base + NormRows(appended).value;
      NoViolations(p.Rt(), Positions(|rows|), rows);
    }
  }

  /** Every name in a logger's row starts with a lower-case letter. */
  lemma RowsNamed(rt: Runtime, base: seq<Dict>, start: int, appended: seq<Dict>)
    requires Continues(rt, base, start, appended)
    ensures NamedRows(appended)
  {
    forall i | 0 <= i < |appended| ensures Named(appended[i]) {
      assert ContinuesAt(rt, base, start, appended, i);
      RowNamed(appended[i]);
    }
  }

  lemma RowNamed(row: Dict)
    requires row.Keys == ROW_KEYS
    ensures Named(row)
  {
    assert PAYLOAD in row;
    forall k | k in row ensures k != [] && Letter(k[0]) {
      assert k in ROW_KEYS;
    }
  }

  /** A logger held in memory always verifies, whatever its payloads. */
  lemma MemoryVerifies(rt: Runtime, appended: seq<Dict>)
    requires Continues(rt, [], 0, appended)
    ensures Errors(rt, appended) == []
  {
    ContinuesVerifies(rt, [], 0, appended);
    EmptyBase(appended);
    NoViolations(rt, Positions(|appended|), appended);
  }
}
