/** The callback-driven cursor loop: its request bound, and what it delivers from a streaming server. */
module DriveCursor {
  import opened Wrappers
  import opened Bytes
  import opened Transports
  import opened Response
  import opened Cursor
  import opened ServerStreams

  function Min(a: nat, b: nat): nat {
    if a < b then a else b
  }

  function AtLeastOne(n: nat): nat {
    if n == 0 then 1 else n
  }

  /** One of the first 99 replies to Receive is ready. */
  ghost predicate BecomesReady(server: Server, log: seq<Request>) {
    exists k: nat :: 1 <= k && IsReady(server, log, k)
  }

  /** Everything the comparison with the runner assumes of a server, about the statement prepared last in this log. */
  ghost predicate Cooperates(server: Server, recordSize: nat, all: seq<Item>, limit: nat, log: seq<Request>) {
    && BecomesReady(server, log) && QuietHandshake(server, recordSize, log)
    && HasResult(server, recordSize, all, limit, log) && InFullBlocks(server, recordSize, all, log)
  }

  // ----- when the callback has had enough -----

  /** The first row, counting on from the i-th up to the n-th, that the callback declines to go on after; else n. */
  function Until(all: seq<Item>, i: nat, n: nat, keep: RowCallback): (k: nat)
    requires i <= n <= |all|
    ensures i <= k <= n && (i < n ==> i < k)
    ensures forall m :: i < m < k ==> keep(all[..m])
    ensures k < n ==> !keep(all[..k])
    decreases n - i
  {
    if i == n || !keep(all[..i + 1]) then Min(i + 1, n) else Until(all, i + 1, n, keep)
  }

  /** It declines to go on after one of these rows. */
  predicate Declines(all: seq<Item>, i: nat, n: nat, keep: RowCallback)
    requires i <= n <= |all|
  {
    exists m :: i < m <= n && !keep(all[..m])
  }

  /** Where nothing was declined the count goes on, and where something was it is over. */
  lemma {:induction false} UntilGoesOn(all: seq<Item>, i: nat, m: nat, n: nat, keep: RowCallback)
    requires i <= m <= n <= |all|
    ensures Declines(all, i, n, keep) <==> Declines(all, i, m, keep) || Declines(all, m, n, keep)
    ensures Until(all, i, n, keep) == if Declines(all, i, m, keep) then Until(all, i, m, keep) else Until(all, m, n, keep)
    decreases m - i
  {
    if i < m && keep(all[..i + 1]) {
      UntilGoesOn(all, i + 1, m, n, keep);
    }
  }

  // ----- what processing a body delivers -----

  lemma {:induction false} DeliverAll(items: seq<Item>, seen: seq<Item>, target: nat, keep: RowCallback, all: seq<Item>)
    requires seen + items <= all && |seen| + |items| <= target
    ensures var (i, n) := (|seen|, |seen| + |items|);
            && Deliver(items, seen, target, keep) == (Declines(all, i, n, keep), all[..Until(all, i, n, keep)])
    decreases |items|
  {
    var (i, n) := (|seen|, |seen| + |items|);
    if items == [] {
      assert seen == all[..i];
    } else {
      var seen' := seen + [items[0]];
      assert seen' + items[1..] == seen + items;
      assert seen' == all[..i + 1];
      if keep(seen') {
        DeliverAll(items[1..], seen', target, keep, all);
        UntilGoesOn(all, i, i + 1, n, keep);
        assert !Declines(all, i, i + 1, keep);
      } else {
        assert Declines(all, i, n, keep);
      }
    }
  }

  // ----- what any body delivers -----

  /** Never more than the target, and nothing after the callback declined. */
  predicate Heeded(rows: seq<Item>, target: nat, keep: RowCallback) {
    |rows| <= target && forall n :: 0 < n < |rows| ==> keep(rows[..n])
  }

  /** And it did not decline yet. */
  predicate Willing(rows: seq<Item>, target: nat, keep: RowCallback) {
    Heeded(rows, target, keep) && (rows != [] ==> keep(rows))
  }

  lemma OneMoreHeeded(rows: seq<Item>, item: Item, target: nat, keep: RowCallback)
    requires Willing(rows, target, keep) && |rows| < target
    ensures Heeded(rows + [item], target, keep)
  {
    var more := rows + [item];
    forall n | 0 < n < |more|
      ensures keep(more[..n])
    {
      assert more[..n] == if n == |rows| then rows else rows[..n];
    }
  }

  lemma {:induction false} DeliverHeeds(items: seq<Item>, seen: seq<Item>, target: nat, keep: RowCallback)
    requires Willing(seen, target, keep)
    ensures var (stop, rows) := Deliver(items, seen, target, keep);
            Heeded(rows, target, keep) && (!stop ==> Willing(rows, target, keep))
    decreases |items|
  {
    hide Heeded;
    if items != [] && |seen| < target {
      OneMoreHeeded(seen, items[0], target, keep);
      if keep(seen + [items[0]]) {
        DeliverHeeds(items[1..], seen + [items[0]], target, keep);
      }
    }
  }

  lemma {:induction false} ProcessHeeds(body: Buffer, pos: nat, kind: ReplyKind, recordSize: nat, seen: seq<Item>, target: nat, keep: RowCallback)
    requires Willing(seen, target, keep)
    ensures var (stop, rows) := ProcessFrom(body, pos, kind, recordSize, seen, target, keep);
            Heeded(rows, target, keep) && (!stop ==> Willing(rows, target, keep))
    decreases |body| - pos
  {
    hide Heeded, Deliver, ReadOne;
    var batch := ReadOne(kind, body, pos, recordSize);
    if batch.Ok? && batch.value.Some? {
      var (b, next) := batch.value.value;
      DeliverHeeds(Items(b.rows, b.bookmarks), seen, target, keep);
      var (stop, seen') := Deliver(Items(b.rows, b.bookmarks), seen, target, keep);
      if !stop && b.code == RESULT_OK && next < |body| {
        ProcessHeeds(body, next, kind, recordSize, seen', target, keep);
      }
    }
  }

  lemma BodyHeeds(body: Buffer, kind: ReplyKind, recordSize: nat, seen: seq<Item>, target: nat, keep: RowCallback)
    requires Willing(seen, target, keep)
    ensures var (stop, rows) := ProcessBody(body, kind, recordSize, seen, target, keep);
            Heeded(rows, target, keep) && (!stop ==> Willing(rows, target, keep))
  {
    hide Heeded;
    ProcessHeeds(body, PACK_STREAM_OFFSET, kind, recordSize, seen, target, keep);
  }

  lemma NothingHeeded(target: nat, keep: RowCallback)
    ensures Willing([], target, keep)
  {
  }

  lemma QuietBody(reply: Reply, recordSize: nat, seen: seq<Item>, target: nat, keep: RowCallback)
    requires Quiet(reply, recordSize)
    ensures ProcessBody(reply.body, SingleRow, recordSize, seen, target, keep) == (false, seen)
  {
    hide ReadBatch;
    if Readable(reply.body) {
      var batch := ReadOne(SingleRow, reply.body, PACK_STREAM_OFFSET, recordSize);
      if batch.Ok? && batch.value.Some? {
        var (b, next) := batch.value.value;
        assert Items(b.rows, b.bookmarks) == [];
        if next < |reply.body| {
          assert ProcessFrom(reply.body, next, SingleRow, recordSize, seen, target, keep) == (false, seen);
        }
      }
    }
  }

  lemma QuietHasBody(reply: Reply, recordSize: nat)
    requires Quiet(reply, recordSize)
    ensures reply.Body?
  {
  }

  lemma BlockBody(reply: Reply, recordSize: nat, seen: seq<Item>, target: nat, keep: RowCallback, all: seq<Item>)
    requires HasBlock(reply, recordSize) && OneBatch(reply, recordSize) && seen + ItemsIn(reply, recordSize) <= all
    requires |seen| + |ItemsIn(reply, recordSize)| <= target
    ensures var (i, n) := (|seen|, |seen| + |ItemsIn(reply, recordSize)|);
            && ProcessBody(reply.body, RecordBlock, recordSize, seen, target, keep)
               == (IsLast(reply, recordSize) || Declines(all, i, n, keep), all[..Until(all, i, n, keep)])
  {
    hide ReadBlock, Declines, Until;
    var batch := ReadOne(RecordBlock, reply.body, PACK_STREAM_OFFSET, recordSize);
    var (b, next) := batch.value.value;
    var n := |seen| + |ItemsIn(reply, recordSize)|;
    var seen' := all[..Until(all, |seen|, n, keep)];
    DeliverAll(ItemsIn(reply, recordSize), seen, target, keep, all);
    if next < |reply.body| {
      assert ProcessFrom(reply.body, next, RecordBlock, recordSize, seen', target, keep) == (false, seen');
    }
  }

  // ----- the loop -----

  /** The state between reads: what has been delivered is what the callback saw, a prefix of the result. */
  ghost predicate InStep(server: Server, recordSize: nat, all: seq<Item>, base: seq<Request>, log: seq<Request>, rows: seq<Item>) {
    && InSession(base, log) && Live(server, recordSize, base, log)
    && Delivered(server, recordSize, base, log) == rows && rows <= all
  }

  lemma ReadFull(server: Server, recordSize: nat, all: seq<Item>, limit: nat, base: seq<Request>, log: seq<Request>, rows: seq<Item>,
                 req: Request, target: nat, keep: RowCallback)
    requires Streams(server, recordSize, all, limit, base) && FullBlocks(server, recordSize, all, base)
    requires InStep(server, recordSize, all, base, log, rows) && IsNextRead(base, log, req) && |rows| + req.n <= target
    ensures var reply := ReplyTo(server, log, req);
            var (i, n) := (|rows|, Min(|rows| + req.n, |all|));
            && reply.Body? && i <= n
            && ProcessBody(reply.body, RecordBlock, recordSize, rows, target, keep)
               == (IsLast(reply, recordSize) || Declines(all, i, n, keep), all[..Until(all, i, n, keep)])
            && (IsLast(reply, recordSize) ==> n == |all|)
            && (!IsLast(reply, recordSize) ==>
                  InStep(server, recordSize, all, base, log + [req], all[..n]) && n == |rows| + req.n
                  && ReadCount(base, log + [req]) > 0)
  {
    hide BlockOf, HasBlock, ProcessBody, InSession, ReadCount, Delivered, Live, Until, Declines;
    var reply := ReplyTo(server, log, req);
    ReadStep(server, recordSize, all, limit, base, log, req);
    assert HasBlock(reply, recordSize) && OneBatch(reply, recordSize);
    BlockBody(reply, recordSize, rows, target, keep, all);
    var out := rows + ItemsIn(reply, recordSize);
    assert out <= all && |out| == Min(|rows| + req.n, |all|);
    assert out == all[..|out|];
    assert reply.Body? by {
      HasBody(reply, recordSize);
    }
  }

  lemma HasBody(reply: Reply, recordSize: nat)
    requires HasBlock(reply, recordSize)
    ensures reply.Body?
  {
  }

  /** Whether the assumptions of the comparison hold for a session that starts with this log. */
  ghost predicate Cooperating(server: Server, recordSize: nat, target: nat, all: seq<Item>, limit: nat, log: seq<Request>) {
    target > 0 && Cooperates(server, recordSize, all, limit, log)
  }

  /** The rows the callback is to see: up to the target, the end, or the row it declines to go on after. */
  function Heard(all: seq<Item>, target: nat, keep: RowCallback): seq<Item> {
    all[..Until(all, 0, Min(target, |all|), keep)]
  }

  /** One handshake request; its reply is offered to the callback like any other. */
  method Shake(t: Transport, req: Request, recordSize: nat, target: nat, keep: RowCallback, seen: seq<Item>)
    returns (r: Result<Buffer, CursorError>, stop: bool, rows: seq<Item>)
    requires req.ExecuteStatement? || req.Receive? || req.SetToBegin?
    modifies t
    ensures t.log == old(t.log) + [req]
    ensures r.Ok? <==> ReplyTo(t.server, old(t.log), req).Body?
    ensures r.Ok? ==> r.value == ReplyTo(t.server, old(t.log), req).body
    ensures Quiet(ReplyTo(t.server, old(t.log), req), recordSize) ==> r.Ok? && !stop && rows == seen
    ensures Willing(seen, target, keep) ==> Heeded(rows, target, keep) && (!stop ==> Willing(rows, target, keep))
  {
    hide ProcessBody, Quiet, Heeded;
    var reply := t.SendRecv(req);
    if Quiet(reply, recordSize) { QuietHasBody(reply, recordSize); }
    if reply.Lost? { return Err(TransportLost), false, seen; }
    if Quiet(reply, recordSize) {
      QuietBody(reply, recordSize, seen, target, keep);
    }
    if Willing(seen, target, keep) {
      BodyHeeds(reply.body, SingleRow, recordSize, seen, target, keep);
    }
    stop, rows := ProcessBodyOf(reply.body, SingleRow, recordSize, seen, target, keep);
    return Ok(reply.body), stop, rows;
  }

  /**
   * Execute, polls and SetToBegin: at most 102 requests; done early if a reply stops the callback loop. On
   * a quiet server that becomes ready no row is delivered and the statement's cursor is open.
   */
  method Begin(t: Transport, recordSize: nat, target: nat, keep: RowCallback)
    returns (r: Result<seq<Item>, CursorError>, done: bool)
    modifies t
    ensures |t.log| <= |old(t.log)| + 102
    ensures exists sent :: t.log == old(t.log) + sent && NoReads(sent)
    ensures QuietHandshake(t.server, recordSize, old(t.log)) && BecomesReady(t.server, old(t.log)) ==>
              r == Ok([]) && !done && IsOpening(t.server, old(t.log), t.log)
    ensures r.Ok? ==> Heeded(r.value, target, keep) && (!done ==> Willing(r.value, target, keep))
  {
    hide Heeded, Willing, NotReady, Quiet, QuietHandshake, BecomesReady, Polling, IsReady, Opening, NoReads;
    ghost var log0 := t.log;
    ghost var coop := QuietHandshake(t.server, recordSize, t.log) && BecomesReady(t.server, t.log);
    var rows: seq<Item> := [];
    NothingHeeded(target, keep);
    var body: Result<Buffer, CursorError>;
    var stop: bool;
    OpeningSteps(log0, 0);
    HandshakeStep(t.server, recordSize, log0, 0);
    body, stop, rows := Shake(t, ExecuteStatement, recordSize, target, keep, rows);
    if body.Err? { return Err(body.error), true; }
    if stop { return Ok(rows), true; }
    var polls: nat := 0;
    while true
      invariant polls < MAX_RECEIVE_POLLS && Polling(t.server, log0, polls + 1)
      invariant t.log == log0 + Opening(polls)
      invariant coop ==> rows == [] && polls + 1 < MAX_RECEIVE_POLLS
      invariant Willing(rows, target, keep)
      decreases MAX_RECEIVE_POLLS - polls
    {
      OpeningSteps(log0, polls);
      OpeningSteps(log0, polls + 1);
      HandshakeStep(t.server, recordSize, log0, polls + 1);
      body, stop, rows := Shake(t, Receive, recordSize, target, keep, rows);
      if body.Err? { return Err(body.error), true; }
      var notReady := NotReady(body.value);
      if stop { return Ok(rows), true; }
      if !notReady { break; }
      polls := polls + 1;
      if coop { StillPolling(t.server, log0, polls); }
      if polls >= MAX_RECEIVE_POLLS { return Err(StillNotReady), true; }
    }
    body, stop, rows := Shake(t, SetToBegin, recordSize, target, keep, rows);
    if body.Err? { return Err(body.error), true; }
    return Ok(rows), stop;
  }

  /** What the handshake is known to bring at its k-th step. */
  lemma HandshakeStep(server: Server, recordSize: nat, log: seq<Request>, k: nat)
    ensures Polling(server, log, 0) && Polling(server, log, 1)
    ensures Polling(server, log, k) && server(log + Opening(k)).Body? && NotReady(server(log + Opening(k)).body) ==>
              Polling(server, log, k + 1)
    ensures Polling(server, log, k) && QuietHandshake(server, recordSize, log) && k < MAX_RECEIVE_POLLS ==>
              Quiet(server(log + Opening(k)), recordSize)
    ensures Polling(server, log, k) && QuietHandshake(server, recordSize, log) && k < MAX_RECEIVE_POLLS
            && server(log + Opening(k)).Body? && !NotReady(server(log + Opening(k)).body) ==>
              && Quiet(server(log + Opening(k) + [SetToBegin]), recordSize)
              && (server(log + Opening(k) + [SetToBegin]).Body? ==> IsOpening(server, log, log + Opening(k) + [SetToBegin]))
  {
    hide Quiet, NotReady;
    assert ReplyTo(server, log + Opening(k), SetToBegin) == server(log + Opening(k) + [SetToBegin]);
    if Polling(server, log, k) && k < MAX_RECEIVE_POLLS && server(log + Opening(k)).Body? && !NotReady(server(log + Opening(k)).body) {
      assert IsReady(server, log, k);
    }
  }

  lemma OpeningSteps(log: seq<Request>, k: nat)
    ensures log + Opening(0) == log + [ExecuteStatement]
    ensures log + Opening(k) + [Receive] == log + Opening(k + 1)
    ensures NoReads(Opening(k)) && NoReads(Opening(k) + [SetToBegin])
    ensures log + Opening(k) + [SetToBegin] == log + (Opening(k) + [SetToBegin])
    ensures |Opening(k)| == k + 1
  {
  }

  /** As long as no poll was ready, the one that is comes later. */
  lemma StillPolling(server: Server, log: seq<Request>, polls: nat)
    requires BecomesReady(server, log) && Polling(server, log, polls + 1)
    ensures polls + 1 < MAX_RECEIVE_POLLS
  {
    hide NotReady;
    var k: nat :| 1 <= k && IsReady(server, log, k);
  }

  /** One read request and its body. */
  method Fetch(t: Transport, req: Request, recordSize: nat, target: nat, keep: RowCallback, seen: seq<Item>,
               ghost coop: bool, ghost all: seq<Item>, ghost limit: nat, ghost base: seq<Request>)
    returns (r: Result<(), CursorError>, stop: bool, rows: seq<Item>)
    requires IsRead(req) && Willing(seen, target, keep)
    requires coop ==>
               && Streams(t.server, recordSize, all, limit, base) && FullBlocks(t.server, recordSize, all, base)
               && InStep(t.server, recordSize, all, base, t.log, seen) && IsNextRead(base, t.log, req) && |seen| + req.n <= target
               && !Declines(all, 0, |seen|, keep)
    modifies t
    ensures t.log == old(t.log) + [req]
    ensures r.Ok? ==> Heeded(rows, target, keep) && (!stop ==> Willing(rows, target, keep))
    ensures coop ==> r.Ok?
    ensures coop && stop ==> rows == Heard(all, target, keep)
    ensures coop && !stop ==>
              && InStep(t.server, recordSize, all, base, t.log, rows) && |rows| == |seen| + req.n
              && !Declines(all, 0, |rows|, keep) && ReadCount(base, t.log) > 0
  {
    hide ProcessBody, InSession, ReadCount, Delivered, Live, Until, Declines, FullBlocks, Streams, Heeded, Willing;
    if coop {
      ReadFull(t.server, recordSize, all, limit, base, t.log, seen, req, target, keep);
      var n := Min(|seen| + req.n, |all|);
      UntilGoesOn(all, 0, |seen|, n, keep);
      UntilGoesOn(all, 0, n, Min(target, |all|), keep);
      NothingDeclined(all, |seen|, n, keep);
      if n == |all| { NothingDeclined(all, 0, n, keep); }
    }
    var reply := t.SendRecv(req);
    if reply.Lost? { return Err(TransportLost), true, seen; }
    BodyHeeds(reply.body, RecordBlock, recordSize, seen, target, keep);
    stop, rows := ProcessBodyOf(reply.body, RecordBlock, recordSize, seen, target, keep);
    return Ok(()), stop, rows;
  }

  lemma NothingDeclined(all: seq<Item>, i: nat, n: nat, keep: RowCallback)
    requires i <= n <= |all|
    ensures !Declines(all, i, n, keep) ==> Until(all, i, n, keep) == n
    ensures Until(all, n, n, keep) == n && !Declines(all, n, n, keep)
  {
  }

  /**
   * drive_cursor. On any server it halts within target/batch + 113 requests, and delivers no more than
   * `target` rows and none after the callback declined. On a cooperating one it delivers exactly the first
   * `target` rows of the result, in order, or those up to the one after which the callback declines.
   */
  method Drive(t: Transport, recordSize: nat, target: nat, batch: nat, keep: RowCallback,
               ghost all: seq<Item>, ghost limit: nat)
    returns (r: Result<seq<Item>, CursorError>)
    requires batch > 0
    modifies t
    ensures |t.log| <= |old(t.log)| + target / batch + 113
    ensures ModestReads(old(t.log), t.log, batch)
    ensures r.Ok? ==> |r.value| <= target && forall n :: 0 < n < |r.value| ==> keep(r.value[..n])
    ensures Cooperating(t.server, recordSize, target, all, limit, old(t.log)) ==> r == Ok(Heard(all, target, keep))
  {
    hide Willing, Quiet, FullBlocks, Streams, BecomesReady, QuietHandshake, IsOpening, InSession, ReadCount, Delivered, Live, Until, Declines, Heard;
    ghost var coop := Cooperating(t.server, recordSize, target, all, limit, t.log);
    ghost var sent := |t.log|;
    var begun, done := Begin(t, recordSize, target, keep);
    if begun.Err? || done { return begun; }
    var rows := begun.value;
    ghost var base := t.log;
    assert ModestReads(old(t.log), base, batch);
    JustOpened(t.server, recordSize, base);
    NothingDeclined(all, 0, 0, keep);

    var n := AtLeastOne(Min(target, batch));
    var ok: Result<(), CursorError>;
    var stop: bool;
    ok, stop, rows := Fetch(t, ReadFirst(n), recordSize, target, keep, rows, coop, all, limit, base);
    if ok.Err? { return Err(ok.error); }
    if stop { return Ok(rows); }

    r := FetchRest(t, recordSize, target, batch, keep, rows, coop, all, limit, base);
  }

  /** Every read since asks for at least one row and for no more than the batch size. */
  predicate ModestReads(before: seq<Request>, log: seq<Request>, batch: nat) {
    before <= log && forall i :: |before| <= i < |log| && IsRead(log[i]) ==> 1 <= log[i].n <= batch
  }

  /** How many rows full blocks have brought after the first block and b more. */
  function Brought(b: nat, batch: nat): nat {
    (b + 1) * batch
  }

  lemma BroughtStep(b: nat, batch: nat)
    ensures Brought(0, batch) == batch
    ensures Brought(b + 1, batch) == Brought(b, batch) + batch
  {
  }

  /** The ReadNext loop, capped at target/batch + 10 batches. */
  method FetchRest(t: Transport, recordSize: nat, target: nat, batch: nat, keep: RowCallback, seen: seq<Item>,
                   ghost coop: bool, ghost all: seq<Item>, ghost limit: nat, ghost base: seq<Request>)
    returns (r: Result<seq<Item>, CursorError>)
    requires batch > 0 && Willing(seen, target, keep)
    requires coop ==>
               && Streams(t.server, recordSize, all, limit, base) && FullBlocks(t.server, recordSize, all, base)
               && InStep(t.server, recordSize, all, base, t.log, seen) && |seen| == Min(target, batch) && ReadCount(base, t.log) > 0
               && !Declines(all, 0, |seen|, keep)
    modifies t
    ensures |t.log| <= |old(t.log)| + target / batch + 10
    ensures ModestReads(old(t.log), t.log, batch)
    ensures r.Ok? ==> Heeded(r.value, target, keep)
    ensures coop ==> r == Ok(Heard(all, target, keep))
  {
    hide Heeded, FullBlocks, Streams, Brought, InSession, ReadCount, Delivered, Live, Until, Declines;
    var maxBatches := target / batch + 10;
    ghost var sent := |t.log|;
    var rows := seen;
    var b: nat := 0;
    BroughtStep(0, batch);
    while b < maxBatches && |rows| < target
      invariant b <= maxBatches && |t.log| <= sent + b && ModestReads(old(t.log), t.log, batch)
      invariant coop ==> InStep(t.server, recordSize, all, base, t.log, rows) && |rows| <= target && ReadCount(base, t.log) > 0
      invariant Willing(rows, target, keep)
      invariant coop ==> (|rows| == target || |rows| >= Brought(b, batch)) && !Declines(all, 0, |rows|, keep)
      decreases maxBatches - b
    {
      var n := AtLeastOne(Min(target - |rows|, batch));
      var ok: Result<(), CursorError>;
      var stop: bool;
      ok, stop, rows := Fetch(t, ReadNext(n), recordSize, target, keep, rows, coop, all, limit, base);
      if ok.Err? { return Err(ok.error); }
      if stop { return Ok(rows); }
      BroughtStep(b, batch);
      b := b + 1;
    }
    if coop {
      if |rows| < target {
        CapIsEnough(target, batch, b);
      }
      assert rows == all[..|rows|] && |rows| == target;
      NothingDeclined(all, 0, |rows|, keep);
    }
    return Ok(rows);
  }

  /** The cap of target/batch + 10 batches is past the target. */
  lemma CapIsEnough(target: nat, batch: nat, b: nat)
    requires batch > 0 && b == target / batch + 10
    ensures Brought(b, batch) > target
  {
    assert target == (target / batch) * batch + target % batch;
    assert (b + 1) * batch == (target / batch) * batch + 11 * batch;
  }
}
