/** Every sequence of calls on `AuditLogger` objects sharing one path is a run of steps. */
module AuditCalls {
  import opened Options
  import opened PyText
  import opened Json
  import opened AuditFile
  import opened AuditRows
  import opened AuditReadBack
  import opened AuditLogger
  import opened AuditRuns

  /** A call, with what the system does with its writes. */
  datatype Call =
    | AppendCall(recordType: Text, payload: Dict, now: Text, io: Io)
    | ReadCall
    | BindCall
    | UnbindCall
    | ReopenCall // the logger is dropped and another one made on the same path

  /** How much of the row's line a call stores, by the descriptor the logger writes through. */
  function StoredBy(s: LogState, row: Dict, io: Io): (k: nat)
    ensures k <= |Frame(row)|
  {
    if s.bound then Drained(|Frame(row)|, io.writes) else Smaller(io.flushed, |Frame(row)|)
  }

  /** The step a call is. */
  function StepOf(p: Platform, s: LogState, call: Call): Step {
    match call
    case AppendCall(recordType, payload, now, io) =>
      var row := AppendRow(p, s, recordType, payload, now);
      var k := StoredBy(s, row, io);
      if k == |Frame(row)| then Append(recordType, payload, now) else Torn(recordType, payload, now, k)
    case ReadCall => Read
    case BindCall => Bind
    case UnbindCall => Unbind
    case ReopenCall => Reopen
  }

  /** The steps of the calls, up to a reopening that is refused. */
  function StepsOf(p: Platform, calls: seq<Call>): seq<Step> {
    if calls == [] then []
    else
      var steps := StepsOf(p, calls[..|calls| - 1]);
      match Run(p, steps)
      case None => steps
      case Some(s) => steps + [StepOf(p, s, calls[|calls| - 1])]
  }

  /** The calls go through and leave this state. */
  predicate Reaches(p: Platform, calls: seq<Call>, s: LogState) {
    Run(p, StepsOf(p, calls)) == Some(s)
  }

  /** Some reopening among the calls is refused. */
  predicate Refuses(p: Platform, calls: seq<Call>) {
    Run(p, StepsOf(p, calls)) == None
  }

  lemma ReachesNext(p: Platform, calls: seq<Call>, i: nat, s: LogState)
    requires i < |calls| && Reaches(p, calls[..i], s)
    ensures match After(p, s, StepOf(p, s, calls[i]))
            case Some(after) => Reaches(p, calls[..i + 1], after)
            case None => Refuses(p, calls)
  {
    var some := calls[..i + 1];
    var steps := StepsOf(p, calls[..i]);
    var step := StepOf(p, s, calls[i]);
    assert some[..i] == calls[..i] && some[i] == calls[i];
    assert (steps + [step])[..|steps|] == steps;
    if After(p, s, step).None? {
      RefusedStays(p, calls, i + 1);
    }
  }

  lemma {:induction false} RefusedStays(p: Platform, calls: seq<Call>, i: nat)
    requires i <= |calls| && Refuses(p, calls[..i])
    ensures Refuses(p, calls)
  {
    if i < |calls| {
      assert calls[..|calls| - 1][..i] == calls[..i];
      RefusedStays(p, calls[..|calls| - 1], i);
    } else {
      assert calls[..i] == calls;
    }
  }

  method Put(logger: AuditLogger, recordType: Text, payload: Dict, now: Text, io: Io)
    requires logger.Valid() && logger.storage != null
    modifies logger, logger.storage
    ensures logger.Valid()
    ensures After(logger.platform, old(logger.State()),
                  StepOf(logger.platform, old(logger.State()), AppendCall(recordType, payload, now, io)))
            == Some(logger.State())
  {
    ghost var row := AppendRow(logger.platform, logger.State(), recordType, payload, now);
    var result := logger.Append(recordType, payload, now, io);
    if result.Incomplete? {
      StoredTorn(row, result.stored);
    }
  }

  /** One call. */
  method Do(logger: AuditLogger, call: Call) returns (r: OpenResult)
    requires logger.Valid() && logger.storage != null
    modifies logger, logger.storage
    ensures var after := After(logger.platform, old(logger.State()),
                               StepOf(logger.platform, old(logger.State()), call));
            match r
            case Logger(next) =>
              && next.Valid() && next.storage == logger.storage && next.platform == logger.platform
              && after == Some(next.State())
              && (next == logger || fresh(next))
            case Failed(_) => after == None
  {
    match call {
      case AppendCall(recordType, payload, now, io) =>
        Put(logger, recordType, payload, now, io);
      case ReadCall =>
        var _ := logger.ReadAll();
      case BindCall =>
        var _ := logger.Bind();
      case UnbindCall =>
        logger.Unbind();
      case ReopenCall =>
        r := AuditLogger.Open(logger.platform, logger.storage);
        return;
    }
    r := Logger(logger);
  }

  lemma StoredTorn(row: Dict, k: nat)
    requires k < |Frame(row)|
    ensures Stored(row, k) == k
  {
  }

  /** Calls in order on a new file: the loggers go through the run, and stop when its next reopening is refused. */
  method Drive(platform: Platform, storage: AuditStorage, calls: seq<Call>) returns (r: OpenResult)
    requires storage.text == []
    modifies storage
    ensures match r
            case Logger(logger) =>
              && logger.Valid() && logger.storage == storage && logger.platform == platform
              && Reaches(platform, calls, logger.State())
            case Failed(_) => Refuses(platform, calls)
  {
    ReadNothing(None);
    r := AuditLogger.Open(platform, storage);
    for i := 0 to |calls|
      invariant r.Logger?
      invariant fresh(r.logger) && r.logger.Valid() && r.logger.storage == storage && r.logger.platform == platform
      invariant Reaches(platform, calls[..i], r.logger.State())
    {
      ReachesNext(platform, calls, i, r.logger.State());
      r := Do(r.logger, calls[i]);
      if r.Failed? {
        return;
      }
    }
    assert calls[..|calls|] == calls;
  }
}
