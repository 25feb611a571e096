/** The token-aware sliding window over the `token_usage` table. Each call is one transaction. */
module RateLimiter {
  import opened Scanner

  datatype Row = Row(id: nat, key: string, tokens: int, createdAt: real, committed: bool)

  datatype Limits = Limits(limit: int, window: real)

  datatype Op =
    | Reserve(key: string, estimate: int, now: real, id: nat)
    | Commit(id: nat, actual: int)
    | Release(id: nat)
    | Usage(key: string, now: real)

  datatype Reply =
    | Reserved(id: nat)
    | Exceeded(used: int, limit: int, retryAfter: real)
    | NegativeEstimate
    | Done
    | Used(tokens: int)

  // The SQL statements

  /** SELECT COALESCE(SUM(tokens), 0) ... WHERE api_key = ? AND created_at >= ? */
  function Sum(rows: seq<Row>, key: string, cutoff: real): int {
    if rows == [] then 0
    else (if rows[0].key == key && rows[0].createdAt >= cutoff then rows[0].tokens else 0) + Sum(rows[1..], key, cutoff)
  }

  /** SELECT MIN(created_at) ... WHERE api_key = ? AND created_at >= ? */
  function Oldest(rows: seq<Row>, key: string, cutoff: real): Option<real> {
    if rows == [] then None
    else
      var rest := Oldest(rows[1..], key, cutoff);
      if rows[0].key == key && rows[0].createdAt >= cutoff
         && (rest == None || rows[0].createdAt <= rest.value) then Some(rows[0].createdAt)
      else rest
  }

  /** DELETE ... WHERE created_at < ? */
  function Evict(rows: seq<Row>, cutoff: real): seq<Row> {
    if rows == [] then []
    else if rows[0].createdAt < cutoff then Evict(rows[1..], cutoff)
    else [rows[0]] + Evict(rows[1..], cutoff)
  }

  function CommittedRow(row: Row, id: nat, actual: int): Row {
    if row.id == id then row.(tokens := actual, committed := true) else row
  }

  /** UPDATE ... SET tokens = ?, state = 'committed' WHERE id = ? */
  function SetCommitted(rows: seq<Row>, id: nat, actual: int): seq<Row> {
    if rows == [] then []
    else [CommittedRow(rows[0], id, actual)] + SetCommitted(rows[1..], id, actual)
  }

  /** DELETE ... WHERE id = ? */
  function Delete(rows: seq<Row>, id: nat): seq<Row> {
    if rows == [] then []
    else if rows[0].id == id then Delete(rows[1..], id)
    else [rows[0]] + Delete(rows[1..], id)
  }

  /** Python's `round(x, 3)`: to the nearest thousandth, ties to the even one. */
  function Round3(x: real): real {
    var floor := (x * 1000.0).Floor;
    var part := x * 1000.0 - floor as real;
    (if part < 0.5 || (part == 0.5 && floor % 2 == 0) then floor else floor + 1) as real / 1000.0
  }

  /** How long until the oldest row falls out of the window; a timestamp of 0 counts as no row. */
  function RetryAfter(oldest: Option<real>, window: real, now: real): real {
    if oldest.Some? && oldest.value != 0.0 && oldest.value + window - now > 0.0 then oldest.value + window - now
    else 0.0
  }

  // The calls

  /** With `evicts` false, the limiter that never deletes an old row. */
  function Apply(cfg: Limits, rows: seq<Row>, op: Op, evicts: bool): (seq<Row>, Reply) {
    match op
    case Reserve(key, estimate, now, id) =>
      var cutoff := now - cfg.window;
      var used := Sum(rows, key, cutoff);
      if estimate < 0 then (rows, NegativeEstimate)
      else if used + estimate > cfg.limit then
        (rows, Exceeded(used, cfg.limit, Round3(RetryAfter(Oldest(rows, key, cutoff), cfg.window, now))))
      else
        ((if evicts then Evict(rows, cutoff) else rows) + [Row(id, key, estimate, now, false)], Reserved(id))
    case Commit(id, actual) => (SetCommitted(rows, id, actual), Done)
    case Release(id) => (Delete(rows, id), Done)
    case Usage(key, now) => (rows, Used(Sum(rows, key, now - cfg.window)))
  }

  function Run(cfg: Limits, ops: seq<Op>, evicts: bool): (seq<Row>, seq<Reply>) {
    if ops == [] then ([], [])
    else
      var (rows, replies) := Run(cfg, ops[..|ops| - 1], evicts);
      var (rows', reply) := Apply(cfg, rows, ops[|ops| - 1], evicts);
      (rows', replies + [reply])
  }

  function TimeOf(op: Op): Option<real> {
    if op.Reserve? || op.Usage? then Some(op.now) else None
  }

  /** The last time that a call was given, or `start`. */
  function Clock(ops: seq<Op>, start: real): real {
    if ops == [] then start
    else if TimeOf(ops[|ops| - 1]).Some? then TimeOf(ops[|ops| - 1]).value
    else Clock(ops[..|ops| - 1], start)
  }

  /** In the order in which the calls take effect, time does not run backwards. */
  predicate InTimeOrder(ops: seq<Op>, start: real) {
    ops == [] ||
    (&& InTimeOrder(ops[..|ops| - 1], start)
     && Clock(ops[..|ops| - 1], start) <= Clock(ops, start))
  }

  class SlidingWindowRateLimiter {
    const cfg: Limits
    var rows: seq<Row>

    constructor (limit: int, window: real)
      ensures cfg == Limits(limit, window) && rows == []
    {
      cfg, rows := Limits(limit, window), [];
    }

    /** `id` is the fresh identifier that the call draws. */
    method ReserveTokens(key: string, estimate: int, now: real, id: nat) returns (reply: Reply)
      modifies this
      ensures (rows, reply) == Apply(cfg, old(rows), Reserve(key, estimate, now, id), true)
    {
      if estimate < 0 {
        return NegativeEstimate;
      }
      var cutoff := now - cfg.window;
      var used := Sum(rows, key, cutoff);
      if used + estimate > cfg.limit {
        var oldest := Oldest(rows, key, cutoff);
        return Exceeded(used, cfg.limit, Round3(RetryAfter(oldest, cfg.window, now)));
      }
      rows := Evict(rows, cutoff);
      rows := rows + [Row(id, key, estimate, now, false)];
      return Reserved(id);
    }

    method CommitTokens(id: nat, actual: int)
      modifies this
      ensures rows == Apply(cfg, old(rows), Commit(id, actual), true).0
    {
      rows := SetCommitted(rows, id, actual);
    }

    method ReleaseTokens(id: nat)
      modifies this
      ensures rows == Apply(cfg, old(rows), Release(id), true).0
    {
      rows := Delete(rows, id);
    }

    method UsedTokens(key: string, now: real) returns (reply: Reply)
      ensures (rows, reply) == Apply(cfg, rows, Usage(key, now), true)
    {
      reply := Used(Sum(rows, key, now - cfg.window));
    }
  }
}
