/** The adaptive history scan: block ranges that halve on timeouts and double on success. */
module LogScan {
  import opened Wrappers

  const MAX_LOG_BLOCK_RANGE := 5_000_000
  const MIN_LOG_BLOCK_RANGE := 500
  const RPC_RATE_LIMIT_ATTEMPTS := 4

  /** A number of blocks to ask for. */
  type Range = r: nat | r >= MIN_LOG_BLOCK_RANGE witness MIN_LOG_BLOCK_RANGE

  /** One answer of the provider; an error message may look like both kinds at once. */
  datatype Reply = Logs | Refused(rateLimited: bool, rangeTimeout: bool)

  /** The logs of each block, the answer to the i-th query, and whether the caller has cancelled by then. */
  datatype Provider<!Log> = Provider(
    logsAt: nat -> seq<Log>,
    reply: (nat, nat, nat) -> Reply,
    cancelled: nat -> bool)

  datatype ScanError = Cancelled | QueryFailed(reply: Reply) | TimedOutAtMinimum

  /** The logs of blocks from..to, `to` excluded, in order. */
  function LogsOf<Log>(p: Provider<Log>, from: nat, to: nat): seq<Log>
    decreases to - from
  {
    if from >= to then [] else p.logsAt(from) + LogsOf(p, from + 1, to)
  }

  lemma {:induction false} LogsJoin<Log>(p: Provider<Log>, from: nat, mid: nat, to: nat)
    requires from <= mid <= to
    ensures LogsOf(p, from, to) == LogsOf(p, from, mid) + LogsOf(p, mid, to)
    decreases mid - from
  {
    if from < mid {
      LogsJoin(p, from + 1, mid, to);
    }
  }

  // ----- What a scan asks -----

  /** A chunk of blocks, `to` included, and the query whose answer settled it. */
  datatype Chunk = Chunk(from: nat, to: nat, query: nat) {
    function Width(): int {
      to + 1 - from
    }
  }

  function Answer<Log>(p: Provider<Log>, c: Chunk): Reply {
    p.reply(c.from, c.to, c.query)
  }

  /** Where a scan stands: the next block, the range to try, and the queries made so far. */
  datatype Scan = Scan(cursor: nat, range: Range, queries: nat)

  function Doubled(range: Range): (r: Range)
    ensures range <= MAX_LOG_BLOCK_RANGE ==> range <= r <= MAX_LOG_BLOCK_RANGE
  {
    if range < MAX_LOG_BLOCK_RANGE then
      if range * 2 > MAX_LOG_BLOCK_RANGE then MAX_LOG_BLOCK_RANGE else range * 2
    else range
  }

  function Reduced(attempted: int): (r: Range)
    ensures MIN_LOG_BLOCK_RANGE < attempted ==> r < attempted
  {
    if attempted / 2 < MIN_LOG_BLOCK_RANGE then MIN_LOG_BLOCK_RANGE else attempted / 2
  }

  function ChunkEnd(cursor: nat, range: Range, to: nat): (end: nat)
    requires cursor <= to
    ensures cursor <= end <= to && end < cursor + range
    ensures end == to || end + 1 == cursor + range
  {
    if cursor + range - 1 < to then cursor + range - 1 else to
  }

  function After<Log>(p: Provider<Log>, s: Scan, c: Chunk): Scan {
    if Answer(p, c).Logs? then Scan(c.to + 1, Doubled(s.range), c.query + 1)
    else Scan(s.cursor, Reduced(c.Width()), c.query + 1)
  }

  /** Where the answers to these chunks lead. */
  function Reached<Log>(p: Provider<Log>, asked: seq<Chunk>, from: nat): Scan {
    if asked == [] then Scan(from, MAX_LOG_BLOCK_RANGE, 0)
    else After(p, Reached(p, asked[..|asked| - 1], from), asked[|asked| - 1])
  }

  /**
   * The chunk's query is the last of at most four, none of them cancelled, each but the last
   * refused for its rate; the last may only be refused for its rate when it is the fourth.
   */
  ghost predicate Asks<Log>(p: Provider<Log>, c: Chunk, start: nat) {
    && Retries(p, c.from, c.to, start, c.query)
    && !p.cancelled(c.query)
    && (RateLimited(Answer(p, c)) ==> c.query + 1 == start + RPC_RATE_LIMIT_ATTEMPTS)
  }

  /** The query is the first to the fourth for these blocks, after others refused for their rate. */
  ghost predicate Retries<Log>(p: Provider<Log>, from: nat, to: nat, start: nat, query: nat) {
    && start <= query < start + RPC_RATE_LIMIT_ATTEMPTS
    && forall i: nat :: start <= i < query ==> !p.cancelled(i) && RateLimited(p.reply(from, to, i))
  }

  predicate RateLimited(r: Reply) {
    r.Refused? && r.rateLimited
  }

  /** The chunk that a scan asks for next. */
  ghost predicate AsksNext<Log>(p: Provider<Log>, s: Scan, c: Chunk, to: nat) {
    s.cursor <= to && c.from == s.cursor && c.to == ChunkEnd(s.cursor, s.range, to) && Asks(p, c, s.queries)
  }

  /** The scan goes on after this chunk: it has its logs, or a timeout of a range it can reduce. */
  ghost predicate GoesOn<Log>(p: Provider<Log>, c: Chunk) {
    Answer(p, c).Logs? || (Answer(p, c).rangeTimeout && c.Width() > MIN_LOG_BLOCK_RANGE)
  }

  /** The chunks of a scan so far: each where the answers before it lead. */
  ghost predicate Follows<Log>(p: Provider<Log>, asked: seq<Chunk>, from: nat, to: nat) {
    asked == [] ||
    var front, last := asked[..|asked| - 1], asked[|asked| - 1];
    Follows(p, front, from, to) && AsksNext(p, Reached(p, front, from), last, to) && GoesOn(p, last)
  }

  /** The scan ends here with this error. */
  ghost predicate FailsAt<Log>(p: Provider<Log>, s: Scan, to: nat, error: ScanError) {
    match error
    case Cancelled =>
      && s.cursor <= to
      && exists i: nat :: p.cancelled(i) && Retries(p, s.cursor, ChunkEnd(s.cursor, s.range, to), s.queries, i)
    case QueryFailed(reply) =>
      exists c: Chunk :: AsksNext(p, s, c, to) && Answer(p, c) == reply && reply.Refused? && !reply.rangeTimeout
    case TimedOutAtMinimum =>
      exists c: Chunk :: AsksNext(p, s, c, to) && Answer(p, c).Refused? && Answer(p, c).rangeTimeout
                         && c.Width() <= MIN_LOG_BLOCK_RANGE
  }

  function Answered<Log>(p: Provider<Log>, asked: seq<Chunk>): nat {
    if asked == [] then 0
    else Answered(p, asked[..|asked| - 1]) + if Answer(p, asked[|asked| - 1]).Logs? then 1 else 0
  }

  function TimedOut<Log>(p: Provider<Log>, asked: seq<Chunk>): nat {
    if asked == [] then 0
    else TimedOut(p, asked[..|asked| - 1]) + if Answer(p, asked[|asked| - 1]).Refused? then 1 else 0
  }

  lemma Append<Log>(p: Provider<Log>, asked: seq<Chunk>, c: Chunk, from: nat, to: nat)
    requires Follows(p, asked, from, to) && AsksNext(p, Reached(p, asked, from), c, to) && GoesOn(p, c)
    ensures Follows(p, asked + [c], from, to)
    ensures Reached(p, asked + [c], from) == After(p, Reached(p, asked, from), c)
  {
    assert (asked + [c])[..|asked|] == asked;
  }

  // ----- What a scan costs -----

  /** A ladder of ranges: the minimum at the bottom, each rung twice the one below. */
  datatype Ladder = Bottom | Rung(below: Ladder) {
    function Top(): (range: nat)
      ensures range >= MIN_LOG_BLOCK_RANGE
    {
      if Bottom? then MIN_LOG_BLOCK_RANGE else 2 * below.Top()
    }

    function Height(): nat {
      if Bottom? then 0 else 1 + below.Height()
    }
  }

  /** Four rungs multiply the top by sixteen. */
  function FourRungs(ladder: Ladder): (r: Ladder)
    ensures r.Height() == ladder.Height() + 4 && r.Top() == 16 * ladder.Top()
  {
    var two := Rung(Rung(ladder));
    assert two.Height() == ladder.Height() + 2 && two.Top() == 4 * ladder.Top();
    Rung(Rung(two))
  }

  lemma StartingLadder() returns (ladder: Ladder)
    ensures ladder.Height() == 14 && MAX_LOG_BLOCK_RANGE <= ladder.Top()
  {
    ladder := Rung(Rung(FourRungs(FourRungs(FourRungs(Bottom)))));
  }

  /** One chunk for each 500 blocks of the range, rounded up. */
  function MostChunks(from: nat, to: nat): nat
    requires from <= to
  {
    (to - from + 1 + 499) / 500
  }

  /** What a scan has covered, and what that has cost. */
  ghost predicate OnTrack(s: Scan, successes: nat, timeouts: nat, ladder: Ladder, from: nat, to: nat)
    requires from <= to
  {
    && from <= s.cursor <= to + 1
    && s.range <= MAX_LOG_BLOCK_RANGE
    && (s.cursor <= to ==> 500 * successes <= s.cursor - from)
    && successes <= MostChunks(from, to)
    && s.range <= ladder.Top()
    && timeouts + ladder.Height() <= 14 + successes
    && s.queries <= 4 * (timeouts + successes)
  }

  lemma AfterLogs<Log>(
    p: Provider<Log>, s: Scan, c: Chunk, successes: nat, timeouts: nat, ladder: Ladder, from: nat, to: nat)
    requires from <= to && OnTrack(s, successes, timeouts, ladder, from, to)
    requires AsksNext(p, s, c, to) && Answer(p, c).Logs?
    ensures OnTrack(After(p, s, c), successes + 1, timeouts, Rung(ladder), from, to)
  {
  }

  lemma AfterTimeout<Log>(
    p: Provider<Log>, s: Scan, c: Chunk, successes: nat, timeouts: nat, ladder: Ladder, from: nat, to: nat)
    requires from <= to && OnTrack(s, successes, timeouts, ladder, from, to)
    requires AsksNext(p, s, c, to) && Answer(p, c).Refused? && GoesOn(p, c)
    ensures ladder.Rung?
    ensures OnTrack(After(p, s, c), successes, timeouts + 1, ladder.below, from, to)
  {
  }

  lemma {:induction false} StaysOnTrack<Log>(p: Provider<Log>, asked: seq<Chunk>, from: nat, to: nat)
    returns (ladder: Ladder)
    requires from <= to && Follows(p, asked, from, to)
    ensures OnTrack(Reached(p, asked, from), Answered(p, asked), TimedOut(p, asked), ladder, from, to)
    decreases |asked|
  {
    if asked == [] {
      ladder := StartingLadder();
    } else {
      var front, last := asked[..|asked| - 1], asked[|asked| - 1];
      ladder := StaysOnTrack(p, front, from, to);
      var s, successes, timeouts := Reached(p, front, from), Answered(p, front), TimedOut(p, front);
      if Answer(p, last).Logs? {
        AfterLogs(p, s, last, successes, timeouts, ladder, from, to);
        ladder := Rung(ladder);
      } else {
        AfterTimeout(p, s, last, successes, timeouts, ladder, from, to);
        ladder := ladder.below;
      }
    }
  }

  /**
   * The price of any scan, for every pattern of answers: at most one answered chunk per 500
   * blocks, at most 14 more timeouts than answered chunks, at most four queries for each.
   */
  lemma ScanIsCheap<Log>(p: Provider<Log>, asked: seq<Chunk>, from: nat, to: nat)
    requires from <= to && Follows(p, asked, from, to)
    ensures |asked| == Answered(p, asked) + TimedOut(p, asked)
    ensures Answered(p, asked) <= MostChunks(from, to)
    ensures TimedOut(p, asked) <= 14 + Answered(p, asked)
    ensures Reached(p, asked, from).queries <= 4 * |asked|
  {
    var _ := StaysOnTrack(p, asked, from, to);
    CountsAddUp(p, asked);
  }

  lemma {:induction false} CountsAddUp<Log>(p: Provider<Log>, asked: seq<Chunk>)
    ensures |asked| == Answered(p, asked) + TimedOut(p, asked)
    decreases |asked|
  {
    if asked != [] { CountsAddUp(p, asked[..|asked| - 1]); }
  }

  // ----- The scan itself -----

  /** Nobody cancels, and the only errors are timeouts of ranges above the minimum. */
  ghost predicate OnlyWideTimeouts<Log>(p: Provider<Log>) {
    && (forall i: nat :: !p.cancelled(i))
    && forall from: nat, to: nat, i: nat ::
         var r := p.reply(from, to, i);
         r.Refused? ==> !r.rateLimited && r.rangeTimeout && to + 1 - from > MIN_LOG_BLOCK_RANGE
  }

  /** A cancelled scan ends where it is. */
  lemma CancelledHere<Log>(p: Provider<Log>, s: Scan, to: nat, i: nat)
    requires s.cursor <= to && p.cancelled(i) && Retries(p, s.cursor, ChunkEnd(s.cursor, s.range, to), s.queries, i)
    ensures FailsAt(p, s, to, Cancelled) && !OnlyWideTimeouts(p)
  {
  }

  /** A refusal after which a scan does not go on ends it. */
  lemma StopsHere<Log>(p: Provider<Log>, s: Scan, c: Chunk, to: nat, error: ScanError)
    requires AsksNext(p, s, c, to) && !GoesOn(p, c)
    requires error == if Answer(p, c).rangeTimeout then TimedOutAtMinimum else QueryFailed(Answer(p, c))
    ensures FailsAt(p, s, to, error) && !OnlyWideTimeouts(p)
  {
  }

  /** Queries one range, retrying at most four times while the provider limits the rate. */
  method RetryRateLimited<Log>(p: Provider<Log>, from: nat, to: nat, start: nat)
    returns (r: Result<seq<Log>, ScanError>, used: nat)
    requires from <= to
    ensures used <= RPC_RATE_LIMIT_ATTEMPTS
    ensures r.Success? ==>
              && used > 0 && Asks(p, Chunk(from, to, start + used - 1), start)
              && r.value == LogsOf(p, from, to + 1) && p.reply(from, to, start + used - 1).Logs?
    ensures r.Failure? ==> r.error.Cancelled? || r.error.QueryFailed?
    ensures r.Failure? && r.error.Cancelled? ==> Retries(p, from, to, start, start + used) && p.cancelled(start + used)
    ensures r.Failure? && r.error.QueryFailed? ==>
              && used > 0 && Asks(p, Chunk(from, to, start + used - 1), start)
              && r.error.reply == p.reply(from, to, start + used - 1)
              && r.error.reply.Refused?
              && (!r.error.reply.rateLimited || used == RPC_RATE_LIMIT_ATTEMPTS)
    ensures forall i: nat :: start <= i && i + 1 < start + used ==> RateLimited(p.reply(from, to, i))
  {
    used := 0;
    while true
      invariant used < RPC_RATE_LIMIT_ATTEMPTS
      invariant forall i: nat :: start <= i < start + used ==> !p.cancelled(i) && RateLimited(p.reply(from, to, i))
      decreases RPC_RATE_LIMIT_ATTEMPTS - used
    {
      if p.cancelled(start + used) {
        return Failure(Cancelled), used;
      }
      var reply := p.reply(from, to, start + used);
      used := used + 1;
      if reply.Logs? {
        return Success(LogsOf(p, from, to + 1)), used;
      }
      if !reply.rateLimited || used >= RPC_RATE_LIMIT_ATTEMPTS {
        return Failure(QueryFailed(reply)), used;
      }
    }
  }

  /** One turn of the scan: asks for the next chunk and moves on, or retries a smaller range, or fails. */
  method ScanChunk<Log>(p: Provider<Log>, s: Scan, to: nat)
    returns (r: Result<seq<Log>, ScanError>, next: Scan, ghost chunk: Chunk)
    requires s.cursor <= to && s.range <= MAX_LOG_BLOCK_RANGE
    ensures s.queries <= next.queries <= s.queries + RPC_RATE_LIMIT_ATTEMPTS
    ensures r.Success? ==> AsksNext(p, s, chunk, to) && GoesOn(p, chunk) && next == After(p, s, chunk)
    ensures r.Success? ==> r.value == LogsOf(p, s.cursor, next.cursor)
    ensures r.Success? ==> next.cursor > s.cursor || (next.cursor == s.cursor && next.range < s.range)
    ensures r.Failure? ==> FailsAt(p, s, to, r.error) && !OnlyWideTimeouts(p)
  {
    next, chunk := s, Chunk(0, 0, 0);
    if p.cancelled(s.queries) {
      CancelledHere(p, s, to, s.queries);
      return Failure(Cancelled), next, chunk;
    }
    var chunkEnd := ChunkEnd(s.cursor, s.range, to);
    var answer, used := RetryRateLimited(p, s.cursor, chunkEnd, s.queries);
    next := s.(queries := s.queries + used);
    if answer.Failure? && answer.error.Cancelled? {
      CancelledHere(p, s, to, next.queries);
      return Failure(Cancelled), next, chunk;
    }
    chunk := Chunk(s.cursor, chunkEnd, next.queries - 1);
    if answer.Success? {
      return answer, Scan(chunkEnd + 1, Doubled(s.range), next.queries), chunk;
    }
    if !answer.error.reply.rangeTimeout {
      StopsHere(p, s, chunk, to, answer.error);
      return answer, next, chunk;
    }
    var attemptedRange := chunkEnd - s.cursor + 1;
    if attemptedRange <= MIN_LOG_BLOCK_RANGE {
      StopsHere(p, s, chunk, to, TimedOutAtMinimum);
      return Failure(TimedOutAtMinimum), next, chunk;
    }
    return Success([]), next.(range := Reduced(attemptedRange)), chunk;
  }

  /**
   * For every pattern of answers the scan asks exactly for chunks that follow one another.
   * If it succeeds they have led past the last block and it returns the logs of every block
   * of the range once and in order; if it fails, the provider or the caller makes it fail
   * where they have led. Its price is that of `ScanIsCheap`.
   */
  method GetLogsInBlockRanges<Log>(p: Provider<Log>, fromBlock: nat, toBlock: int)
    returns (r: Result<seq<Log>, ScanError>, queries: nat, ghost asked: seq<Chunk>)
    ensures toBlock < fromBlock ==> r == Success([]) && queries == 0 && asked == []
    ensures fromBlock <= toBlock ==> Follows(p, asked, fromBlock, toBlock)
    ensures fromBlock <= toBlock && r.Success? ==>
              && Reached(p, asked, fromBlock).cursor == toBlock + 1 && Reached(p, asked, fromBlock).queries == queries
              && r.value == LogsOf(p, fromBlock, toBlock + 1)
    ensures r.Failure? ==> fromBlock <= toBlock && FailsAt(p, Reached(p, asked, fromBlock), toBlock, r.error)
    ensures fromBlock <= toBlock ==>
              && Answered(p, asked) <= MostChunks(fromBlock, toBlock)
              && TimedOut(p, asked) <= 14 + Answered(p, asked)
              && queries <= 4 * (|asked| + 1)
    ensures OnlyWideTimeouts(p) ==> r.Success?
  {
    asked := [];
    if toBlock < fromBlock {
      return Success([]), 0, asked;
    }
    var logs, s := [], Scan(fromBlock, MAX_LOG_BLOCK_RANGE, 0);
    while s.cursor <= toBlock
      invariant Follows(p, asked, fromBlock, toBlock) && Reached(p, asked, fromBlock) == s
      invariant fromBlock <= s.cursor <= toBlock + 1 && s.range <= MAX_LOG_BLOCK_RANGE && s.queries <= 4 * |asked|
      invariant logs == LogsOf(p, fromBlock, s.cursor)
      decreases toBlock + 1 - s.cursor, s.range
    {
      var found, next, chunk := ScanChunk(p, s, toBlock);
      if found.Failure? {
        ScanIsCheap(p, asked, fromBlock, toBlock);
        return Failure(found.error), next.queries, asked;
      }
      Append(p, asked, chunk, fromBlock, toBlock);
      LogsJoin(p, fromBlock, s.cursor, next.cursor);
      logs, s, asked := logs + found.value, next, asked + [chunk];
    }
    ScanIsCheap(p, asked, fromBlock, toBlock);
    return Success(logs), s.queries, asked;
  }
}
