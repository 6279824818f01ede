/**
 * A server with a result table for each statement it knows, that answers byte for byte and keeps to the
 * protocol: it refuses reads and blob requests unless a cursor is open. What is assumed of servers elsewhere
 * holds of it, for any tables that fit into replies.
 */
module SampleServer {
  import opened Wrappers
  import opened Bytes
  import opened Transports
  import opened Response
  import opened Cursor
  import opened ServerStreams
  import opened DriveCursor
  import opened Client
  import opened BlobResolution
  import opened DecodedStream
  import opened Query
  import opened SampleTables
  import Blob

  type Db = map<string, Table>

  ghost predicate Serves(db: Db) {
    forall sql :: sql in db ==> db[sql].Fits()
  }

  // ----- the protocol -----

  /** Where a connection stands: nothing, a statement prepared, executing after some polls, or its cursor at a row. */
  datatype Phase =
    | Idle
    | Ready(sql: string)
    | Running(sql: string, polls: nat)
    | Open(sql: string, position: nat, started: bool)

  predicate Known(db: Db, ph: Phase) {
    !ph.Idle? ==> ph.sql in db && (ph.Open? ==> ph.position <= |db[ph.sql].rows|)
  }

  /** How far a read moves the cursor; a read that asks for none is given one. */
  function After(t: Table, p: nat, req: Request): (q: nat)
    requires p <= |t.rows| && IsRead(req)
    ensures p <= q <= |t.rows|
  {
    Min(p + AtLeastOne(req.n), |t.rows|)
  }

  /** ReadFirst once, then ReadNext. */
  predicate TakesRead(ph: Phase, req: Request) {
    ph.Open? && IsRead(req) && (req.ReadFirst? <==> !ph.started)
  }

  function Step(db: Db, ph: Phase, req: Request): (next: Phase)
    requires Known(db, ph)
    ensures Known(db, next)
  {
    match req
    case Prepare(sql) => if sql in db then Ready(sql) else Idle
    case ExecuteStatement => if ph.Ready? then Running(ph.sql, 0) else ph
    case Receive => if ph.Running? then Running(ph.sql, ph.polls + 1) else ph
    case SetToBegin => if ph.Running? && ph.polls >= db[ph.sql].delay then Open(ph.sql, 0, false) else ph
    case ReadFirst(_) => if TakesRead(ph, req) then Open(ph.sql, After(db[ph.sql], ph.position, req), true) else ph
    case ReadNext(_) => if TakesRead(ph, req) then Open(ph.sql, After(db[ph.sql], ph.position, req), true) else ph
    case OpenBlob(_, _) => ph
    case FreeBlob(_, _) => ph
    case FreeAllBlobs => ph
    case _ => Idle
  }

  function PhaseOf(db: Db, log: seq<Request>): (ph: Phase)
    ensures Known(db, ph)
  {
    if log == [] then Idle else Step(db, PhaseOf(db, log[..|log| - 1]), log[|log| - 1])
  }

  /** The blob a slot names, if the slot is long enough for a key. */
  function BlobAnswer(t: Table, ordinal: nat, slot: Buffer): Reply {
    if t.columns == [] || |slot| < LeastSlot(t.columns[0].max as nat) then Lost
    else BlobReply(slot, t.blobs(LeValue(slot[1..5]), slot[9..25], slot[26..26 + t.columns[0].max], ordinal))
  }

  function Answer(db: Db, ph: Phase, req: Request): Reply
    requires Known(db, ph)
  {
    match req
    case Prepare(sql) => Body(if sql in db then SchemaBody(db[sql].columns) else [])
    case ExecuteStatement => if ph.Ready? then PollReply(db[ph.sql].delay == 0, 0) else Lost
    case Receive => if ph.Running? then PollReply(ph.polls + 1 >= db[ph.sql].delay, ph.polls + 1) else Lost
    case SetToBegin => if ph.Running? && ph.polls >= db[ph.sql].delay then Body([]) else Lost
    case ReadFirst(_) =>
      if TakesRead(ph, req) then BlockReply(db[ph.sql], ph.position, After(db[ph.sql], ph.position, req)) else Lost
    case ReadNext(_) =>
      if TakesRead(ph, req) then BlockReply(db[ph.sql], ph.position, After(db[ph.sql], ph.position, req)) else Lost
    case OpenBlob(ordinal, slot) => if ph.Open? then BlobAnswer(db[ph.sql], ordinal, slot) else Lost
    case FreeBlob(_, _) => if ph.Open? then Body([]) else Lost
    case FreeAllBlobs => if ph.Open? then Body([]) else Lost
    case _ => Body([])
  }

  function Serve(db: Db): Server {
    log => if log == [] then Body([]) else Answer(db, PhaseOf(db, log[..|log| - 1]), log[|log| - 1])
  }

  lemma Served(db: Db, log: seq<Request>, req: Request)
    ensures ReplyTo(Serve(db), log, req) == Answer(db, PhaseOf(db, log), req) == Serve(db)(log + [req])
    ensures PhaseOf(db, log + [req]) == Step(db, PhaseOf(db, log), req)
  {
    assert (log + [req])[..|log|] == log;
  }

  /** Nothing is read, and no blob opened, unless a cursor is open: in particular not before Execute. */
  lemma RefusesOutsideSessions(db: Db, log: seq<Request>, req: Request)
    requires IsRead(req) || IsBlobRequest(req)
    ensures ReplyTo(Serve(db), log, req).Body? ==> PhaseOf(db, log).Open?
  {
    hide Serve, PhaseOf, SchemaBody, BlobAnswer, BlockReply;
    Served(db, log, req);
  }

  /** Nor after cleanup. */
  lemma CleanupEnds(db: Db, log: seq<Request>)
    ensures PhaseOf(db, log + CLEANUP).Idle?
  {
    hide Serve, PhaseOf;
    var before := log + [CloseCursor, ResetStatement];
    Served(db, before, RemoveAllTables);
    assert log + CLEANUP == before + [RemoveAllTables];
  }

  // ----- the handshake -----

  /** After the k-th poll the statement is running, and the reply to that poll says whether its cursor is ready. */
  lemma {:induction false} Polled(db: Db, sql: string, log: seq<Request>, k: nat)
    requires sql in db && PhaseOf(db, log) == Ready(sql)
    ensures PhaseOf(db, log + Opening(k)) == Running(sql, k)
    ensures Serve(db)(log + Opening(k)) == PollReply(k >= db[sql].delay, k)
  {
    hide Serve, PollReply;
    if k == 0 {
      assert log + Opening(0) == log + [ExecuteStatement];
      Served(db, log, ExecuteStatement);
    } else {
      Polled(db, sql, log, k - 1);
      OpeningSteps(log, k - 1);
      Served(db, log + Opening(k - 1), Receive);
    }
  }

  /** A statement's cursor stands before its first row when it has been opened. */
  lemma OpenedAtStart(db: Db, sql: string, log: seq<Request>, base: seq<Request>)
    requires sql in db && PhaseOf(db, log) == Ready(sql) && IsOpening(Serve(db), log, base)
    ensures PhaseOf(db, base) == Open(sql, 0, false)
  {
    hide Serve, NotReady, PollReply, Polling;
    var k: nat :| IsReady(Serve(db), log, k) && base == log + Opening(k) + [SetToBegin];
    Polled(db, sql, log, k);
    PollReplied(k >= db[sql].delay, k, 0);
    Served(db, log + Opening(k), SetToBegin);
  }

  lemma Preparing(db: Db, sql: string, log: seq<Request>)
    requires Serves(db) && sql in db
    ensures PhaseOf(db, log + [Prepare(sql)]) == Ready(sql)
    ensures Prepared(Serve(db), log, sql) == Ok(db[sql].columns)
  {
    hide Serve, Schema.Parse;
    Served(db, log, Prepare(sql));
    assert db[sql].Fits();
    SchemaBack(db[sql].columns);
  }

  /** The handshake is quiet. */
  lemma HandshakeIsQuiet(db: Db, sql: string, log: seq<Request>, recordSize: nat)
    requires sql in db && PhaseOf(db, log) == Ready(sql)
    ensures QuietHandshake(Serve(db), recordSize, log)
  {
    hide Serve, NotReady, Quiet, PollReply, Polling;
    forall k: nat
      ensures Quiet(Serve(db)(log + Opening(k)), recordSize)
    {
      Polled(db, sql, log, k);
      PollReplied(k >= db[sql].delay, k, recordSize);
    }
    forall k: nat | IsReady(Serve(db), log, k)
      ensures Quiet(ReplyTo(Serve(db), log + Opening(k), SetToBegin), recordSize)
    {
      ReadyToOpen(db, sql, log, k);
      NothingQuiet(recordSize);
    }
  }

  lemma ReadyToOpen(db: Db, sql: string, log: seq<Request>, k: nat)
    requires sql in db && PhaseOf(db, log) == Ready(sql) && IsReady(Serve(db), log, k)
    ensures ReplyTo(Serve(db), log + Opening(k), SetToBegin) == Body([])
  {
    hide Serve, NotReady, Quiet, PollReply, Polling;
    Polled(db, sql, log, k);
    PollReplied(k >= db[sql].delay, k, 0);
    Served(db, log + Opening(k), SetToBegin);
  }

  /** The cursor becomes ready after as many polls as the table says. */
  lemma ReadyInTime(db: Db, sql: string, log: seq<Request>)
    requires sql in db && PhaseOf(db, log) == Ready(sql) && db[sql].delay < MAX_RECEIVE_POLLS
    ensures BecomesReady(Serve(db), log)
  {
    hide Serve, NotReady, PollReply, Quiet;
    var m := if db[sql].delay == 0 then 1 else db[sql].delay;
    forall k: nat | k <= m
      ensures Serve(db)(log + Opening(k)).Body? && (NotReady(Serve(db)(log + Opening(k)).body) <==> k < db[sql].delay)
    {
      Polled(db, sql, log, k);
      PollReplied(k >= db[sql].delay, k, 0);
    }
    assert IsReady(Serve(db), log, m);
  }

  lemma NothingQuiet(recordSize: nat)
    ensures Quiet(Body([]), recordSize)
  {
  }

  // ----- sessions -----

  lemma Adjacent<T>(s: seq<T>, p: nat, q: nat)
    requires p <= q <= |s|
    ensures s[..p] + s[p..q] == s[..q]
  {
  }

  /** In a session the cursor stands behind the rows it has delivered. */
  ghost predicate AtRow(db: Db, sql: string, base: seq<Request>, log: seq<Request>)
    requires sql in db
  {
    var ph, t := PhaseOf(db, log), db[sql];
    && ph.Open? && ph.sql == sql && (ph.started <==> ReadCount(base, log) > 0)
    && Delivered(Serve(db), t.Width(), base, log) == t.rows[..ph.position]
    && (Live(Serve(db), t.Width(), base, log) ==>
          ReadCount(base, log) <= ph.position && (ReadCount(base, log) > 0 ==> ph.position < |t.rows|))
  }

  lemma {:induction false} DeliveredSoFar(db: Db, sql: string, base: seq<Request>, log: seq<Request>)
    requires Serves(db) && sql in db && PhaseOf(db, base) == Open(sql, 0, false) && InSession(base, log)
    ensures AtRow(db, sql, base, log)
    decreases |log|
  {
    hide Serve, AtRow, Delivered, Live, ReadCount;
    if |log| <= |base| {
      FreshCursor(db, sql, base);
    } else {
      var before, req := log[..|log| - 1], log[|log| - 1];
      assert log == before + [req];
      DeliveredSoFar(db, sql, base, before);
      RowStep(db, sql, base, before, req);
    }
  }

  lemma FreshCursor(db: Db, sql: string, base: seq<Request>)
    requires sql in db && PhaseOf(db, base) == Open(sql, 0, false)
    ensures AtRow(db, sql, base, base)
  {
    hide Serve;
    JustOpened(Serve(db), db[sql].Width(), base);
  }

  /** A read that belongs to the session, and its reply. */
  lemma ReadServed(db: Db, sql: string, base: seq<Request>, log: seq<Request>, req: Request)
    requires Serves(db) && sql in db && AtRow(db, sql, base, log) && IsNextRead(base, log, req)
    ensures var (ph, t, reply) := (PhaseOf(db, log), db[sql], ReplyTo(Serve(db), log, req));
            var q := After(t, ph.position, req);
            && PhaseOf(db, log + [req]) == Open(sql, q, true)
            && HasBlock(reply, t.Width()) && OneBatch(reply, t.Width())
            && ItemsIn(reply, t.Width()) == t.rows[ph.position..q] && (IsLast(reply, t.Width()) <==> q == |t.rows|)
  {
    hide Serve, HasBlock, OneBatch, ItemsIn, IsLast, BlockReply, Delivered, Live, ReadCount;
    var ph, t := PhaseOf(db, log), db[sql];
    Served(db, log, req);
    assert t.Fits();
    BlockReplied(t, ph.position, After(t, ph.position, req));
  }

  lemma RowStep(db: Db, sql: string, base: seq<Request>, log: seq<Request>, req: Request)
    requires Serves(db) && sql in db && AtRow(db, sql, base, log) && InSession(base, log)
    requires IsBlobRequest(req) || IsNextRead(base, log, req)
    ensures AtRow(db, sql, base, log + [req])
  {
    hide Serve, HasBlock, OneBatch, ItemsIn, IsLast, Delivered, Live, ReadCount, InSession;
    var ph, t := PhaseOf(db, log), db[sql];
    NotShorter(base, log);
    OneMore(Serve(db), t.Width(), base, log, req);
    Served(db, log, req);
    if IsNextRead(base, log, req) {
      ReadServed(db, sql, base, log, req);
      Adjacent(t.rows, ph.position, After(t, ph.position, req));
    }
  }

  /** One read of a live session: the next rows, a full block of them unless they run out. */
  lemma ServesOneRead(db: Db, sql: string, base: seq<Request>, log: seq<Request>, req: Request)
    requires Serves(db) && sql in db && PhaseOf(db, base) == Open(sql, 0, false) && InSession(base, log)
    requires IsNextRead(base, log, req) && Live(Serve(db), db[sql].Width(), base, log)
    ensures var t := db[sql];
            var (reply, before) := (ReplyTo(Serve(db), log, req), Delivered(Serve(db), t.Width(), base, log));
            var out := before + ItemsIn(reply, t.Width());
            && HasBlock(reply, t.Width()) && OneBatch(reply, t.Width())
            && out <= t.rows
            && (IsLast(reply, t.Width()) ==> out == t.rows)
            && (ReadCount(base, log) >= |t.rows| ==> IsLast(reply, t.Width()))
            && |before| <= |t.rows| && |ItemsIn(reply, t.Width())| == Min(req.n, |t.rows| - |before|)
            && (!IsLast(reply, t.Width()) ==> |ItemsIn(reply, t.Width())| == req.n)
  {
    hide Serve, HasBlock, OneBatch, ItemsIn, IsLast, Delivered, Live, ReadCount, InSession, PhaseOf;
    var t, ph := db[sql], PhaseOf(db, log);
    DeliveredSoFar(db, sql, base, log);
    ReadServed(db, sql, base, log, req);
    Adjacent(t.rows, ph.position, After(t, ph.position, req));
  }

  lemma StreamsSession(db: Db, sql: string, base: seq<Request>)
    requires Serves(db) && sql in db && PhaseOf(db, base) == Open(sql, 0, false)
    ensures Streams(Serve(db), db[sql].Width(), db[sql].rows, |db[sql].rows| + 1, base)
  {
    hide HasBlock, ItemsIn, IsLast, OneBatch, Live, Delivered, ReadCount, Serve, InSession, IsNextRead, PhaseOf;
    var t := db[sql];
    forall log: seq<Request>, req: Request {:trigger ReplyTo(Serve(db), log, req)}
      | InSession(base, log) && IsNextRead(base, log, req) && Live(Serve(db), t.Width(), base, log)
      ensures var reply := ReplyTo(Serve(db), log, req);
              var out := Delivered(Serve(db), t.Width(), base, log) + ItemsIn(reply, t.Width());
              && HasBlock(reply, t.Width())
              && out <= t.rows
              && (IsLast(reply, t.Width()) ==> out == t.rows)
              && (ReadCount(base, log) + 1 >= |t.rows| + 1 ==> IsLast(reply, t.Width()))
    {
      ServesOneRead(db, sql, base, log, req);
    }
  }

  lemma FullSession(db: Db, sql: string, base: seq<Request>)
    requires Serves(db) && sql in db && PhaseOf(db, base) == Open(sql, 0, false)
    ensures FullBlocks(Serve(db), db[sql].Width(), db[sql].rows, base)
  {
    hide HasBlock, ItemsIn, IsLast, OneBatch, Live, Delivered, ReadCount, Serve, InSession, PhaseOf;
    var t := db[sql];
    forall log: seq<Request>, req: Request {:trigger ReplyTo(Serve(db), log, req)}
      | InSession(base, log) && IsNextRead(base, log, req) && Live(Serve(db), t.Width(), base, log)
      ensures var reply := ReplyTo(Serve(db), log, req);
              var before := Delivered(Serve(db), t.Width(), base, log);
              && OneBatch(reply, t.Width())
              && |before| <= |t.rows| && |ItemsIn(reply, t.Width())| == Min(req.n, |t.rows| - |before|)
              && (!IsLast(reply, t.Width()) ==> |ItemsIn(reply, t.Width())| == req.n)
    {
      ServesOneRead(db, sql, base, log, req);
    }
  }

  /**
   * So everything the comparison of the two cursor loops assumes holds of this server, for every statement it
   * knows, whatever the connection was used for before.
   */
  lemma SampleCooperates(db: Db, sql: string, log: seq<Request>)
    requires Serves(db) && sql in db
    ensures var t := db[sql];
            && Prepared(Serve(db), log, sql) == Ok(t.columns)
            && Cooperates(Serve(db), SizeOf(t.columns), t.rows, |t.rows| + 1, log + [Prepare(sql)])
            && Yields(Serve(db), log, sql, t.rows, |t.rows| + 1)
            && Opens(Serve(db), log + [Prepare(sql)])
  {
    hide Serve, Streams, FullBlocks, QuietHandshake, BecomesReady, IsOpening;
    var t, after := db[sql], log + [Prepare(sql)];
    Preparing(db, sql, log);
    HandshakeIsQuiet(db, sql, after, t.Width());
    assert t.Fits();
    ReadyInTime(db, sql, after);
    CooperatingOpens(Serve(db), t.Width(), after);
    forall base: seq<Request> | IsOpening(Serve(db), after, base)
      ensures Streams(Serve(db), t.Width(), t.rows, |t.rows| + 1, base) && FullBlocks(Serve(db), t.Width(), t.rows, base)
    {
      OpenedAtStart(db, sql, after, base);
      StreamsSession(db, sql, base);
      FullSession(db, sql, base);
    }
  }

  // ----- blobs -----

  lemma SessionIsOpen(db: Db, sql: string, base: seq<Request>, log: seq<Request>)
    requires Serves(db) && sql in db && PhaseOf(db, base) == Open(sql, 0, false) && InSession(base, log)
    ensures PhaseOf(db, log).Open? && PhaseOf(db, log).sql == sql
  {
    hide InSession, Serve;
    DeliveredSoFar(db, sql, base, log);
  }

  /** The server's reply to a slot that names a record. */
  lemma SlotAnswered(db: Db, sql: string, log: seq<Request>, task: BlobTask, slot: Buffer)
    requires Serves(db) && sql in db && PhaseOf(db, log).Open? && PhaseOf(db, log).sql == sql
    requires var width := db[sql].columns[0].max as nat;
             Fits(width, task) && GoodLength(width, |slot|) && Blob.Slot(task.phys, task.md5, task.pk, |slot|) == Ok(slot)
    ensures ReplyTo(Serve(db), log, OpenBlob(Ordinal(task), slot)) == BlobReply(slot, PayloadOf(db[sql].blobs, task))
    ensures Blob.ParseReply(BlobReply(slot, PayloadOf(db[sql].blobs, task)).body) == Ok(Blob.Outcome(PayloadOf(db[sql].blobs, task), slot))
  {
    hide Blob.Slot, Blob.ParseReply, Serve, PhaseOf;
    var t := db[sql];
    Blob.SlotNamesRecord(task.phys, task.md5, task.pk, |slot|);
    Served(db, log, OpenBlob(Ordinal(task), slot));
    assert t.Fits();
    Blob.ReplyRoundTrip(0, slot, PayloadOf(t.blobs, task));
  }

  /** A slot built for a task gets the task's payload, with the slot echoed as it is. */
  lemma BlobServed(db: Db, sql: string, base: seq<Request>, log: seq<Request>, task: BlobTask, length: nat)
    requires Serves(db) && sql in db && PhaseOf(db, base) == Open(sql, 0, false) && InSession(base, log)
    requires var width := db[sql].columns[0].max as nat; Fits(width, task) && GoodLength(width, length)
    ensures var (log', outcome) := Client.Open(Serve(db), log, task, length);
            && outcome.Some? && |outcome.value.slotEcho| == length && outcome.value.payload == PayloadOf(db[sql].blobs, task)
            && InSession(base, log')
  {
    hide Blob.Slot, Blob.ParseReply, InSession, Serve, PhaseOf, BlobReply;
    SessionIsOpen(db, sql, base, log);
    SlotFits(task, length);
    SlotHasLength(task, length);
    var slot := Blob.Slot(task.phys, task.md5, task.pk, length).value;
    SlotAnswered(db, sql, log, task, slot);
    var req := OpenBlob(Ordinal(task), slot);
    assert ReplyTo(Serve(db), log, req) == Serve(db)(log + [req]);
    assert BlobReply(slot, PayloadOf(db[sql].blobs, task)).Body?;
    assert OnlyBlobs([req]);
    BlobsKeepSession(base, log, [req]);
  }

  /** What is assumed of stable blobs holds of it, the table's own blobs being the store. */
  lemma SampleBlobsAreStable(db: Db, sql: string, log: seq<Request>, o: Settings)
    requires Serves(db) && sql in db
    requires HasBlobColumn(db[sql].columns) ==> GoodLength(db[sql].columns[0].max, o.slotLength)
    ensures KeepsBlobs(Serve(db), log, sql, o, db[sql].rows, db[sql].blobs)
  {
    hide Serve, IsOpening, HasBlobColumn, StableBlobs;
    var t := db[sql];
    Preparing(db, sql, log);
    forall base: seq<Request> | IsOpening(Serve(db), log + [Prepare(sql)], base)
      ensures StableFor(Serve(db), t.blobs, DecodingOf(o, t.columns), t.rows, base)
    {
      OpenedAtStart(db, sql, log + [Prepare(sql)], base);
      StableSession(db, sql, o, base);
    }
  }

  lemma StableSession(db: Db, sql: string, o: Settings, base: seq<Request>)
    requires Serves(db) && sql in db && PhaseOf(db, base) == Open(sql, 0, false) && db[sql].columns != []
    ensures StableBlobs(Serve(db), db[sql].blobs, DecodingOf(o, db[sql].columns), db[sql].rows, base)
  {
    hide Serve, InSession, Named, Client.Open;
    var t := db[sql];
    forall log: seq<Request>, task: BlobTask, length: nat {:trigger FetchTask(Serve(db), log, task, length)}
      | InSession(base, log) && Named(t.columns, t.rows, o.ieee, task) && GoodLength(t.columns[0].max, length)
      ensures var f := FetchTask(Serve(db), log, task, length);
              f.stored == Some(PayloadOf(t.blobs, task)) && GoodLength(t.columns[0].max, f.slotLength)
    {
      NamedFits(t.columns, t.rows, o.ieee, task);
      BlobServed(db, sql, base, log, task, length);
    }
  }

  lemma ReleasesServed(db: Db, sql: string, base: seq<Request>, log: seq<Request>, req: Request)
    requires Serves(db) && sql in db && PhaseOf(db, base) == Open(sql, 0, false) && InSession(base, log)
    requires req.FreeBlob? || req.FreeAllBlobs?
    ensures ReplyTo(Serve(db), log, req).Body?
  {
    hide Serve, InSession, PhaseOf, SchemaBody, BlobAnswer, BlockReply;
    SessionIsOpen(db, sql, base, log);
    Served(db, log, req);
  }

  lemma AskedIsServed(db: Db, sql: string, o: Settings, base: seq<Request>, log: seq<Request>, req: Request)
    requires Serves(db) && sql in db && PhaseOf(db, base) == Open(sql, 0, false) && db[sql].columns != [] && InSession(base, log)
    requires Asks(DecodingOf(o, db[sql].columns), db[sql].rows, req)
    ensures var reply := ReplyTo(Serve(db), log, req);
            && reply.Body? && Blob.ParseReply(reply.body).Ok?
            && GoodLength(db[sql].columns[0].max, |Blob.ParseReply(reply.body).value.slotEcho|)
  {
    hide Serve, InSession, Named, Blob.ParseReply, Blob.Slot, PhaseOf, BlobReply;
    var t := db[sql];
    SessionIsOpen(db, sql, base, log);
    var task: BlobTask :| Named(t.columns, t.rows, o.ieee, task) && req == OpenBlob(Ordinal(task), req.slot)
                          && Blob.Slot(task.phys, task.md5, task.pk, |req.slot|) == Ok(req.slot);
    NamedFits(t.columns, t.rows, o.ieee, task);
    SlotAnswered(db, sql, log, task, req.slot);
  }

  lemma AnsweredSession(db: Db, sql: string, o: Settings, base: seq<Request>)
    requires Serves(db) && sql in db && PhaseOf(db, base) == Open(sql, 0, false) && db[sql].columns != []
    ensures FlushesAnswered(Serve(db), base)
    ensures BlobsAnswered(Serve(db), DecodingOf(o, db[sql].columns), db[sql].rows, base)
  {
    hide Serve, InSession, Asks, Blob.ParseReply, PhaseOf, Serves;
    var t, d := db[sql], DecodingOf(o, db[sql].columns);
    forall log: seq<Request> | InSession(base, log)
      ensures ReplyTo(Serve(db), log, FreeAllBlobs).Body?
    {
      ReleasesServed(db, sql, base, log, FreeAllBlobs);
    }
    forall log: seq<Request>, req: Request {:trigger ReplyTo(Serve(db), log, req)} | InSession(base, log)
      ensures var reply := ReplyTo(Serve(db), log, req);
              && (req.FreeBlob? ==> reply.Body?)
              && (Asks(d, t.rows, req) ==>
                    && reply.Body? && Blob.ParseReply(reply.body).Ok?
                    && GoodLength(t.columns[0].max, |Blob.ParseReply(reply.body).value.slotEcho|))
    {
      if req.FreeBlob? {
        ReleasesServed(db, sql, base, log, req);
      }
      if Asks(d, t.rows, req) {
        AskedIsServed(db, sql, o, base, log, req);
      }
    }
  }

  /** So every statement it knows completes: leniently always, strictly if its rows decode. */
  lemma SampleCompletes(db: Db, sql: string, log: seq<Request>, o: Settings)
    requires Serves(db) && sql in db
    requires HasBlobColumn(db[sql].columns) ==> GoodLength(db[sql].columns[0].max, o.slotLength)
    requires o.lenient || (db[sql].columns != [] && AllDecode(db[sql].columns, db[sql].rows, o.ieee))
    ensures Completes(Serve(db), log, sql, o, db[sql].rows)
  {
    hide Serve, IsOpening, HasBlobColumn, BlobsAnswered, FlushesAnswered, AllDecode, Opens;
    var t := db[sql];
    assert t.Fits();
    SampleCooperates(db, sql, log);
    Preparing(db, sql, log);
    forall base: seq<Request> | IsOpening(Serve(db), log + [Prepare(sql)], base)
      ensures Decodable(Serve(db), DecodingOf(o, t.columns), t.rows, base)
    {
      OpenedAtStart(db, sql, log + [Prepare(sql)], base);
      AnsweredSession(db, sql, o, base);
    }
  }

  /** All three for one statement of a fresh connection. */
  lemma SampleServes(db: Db, sql: string, o: Settings)
    requires Serves(db) && sql in db
    requires HasBlobColumn(db[sql].columns) ==> GoodLength(db[sql].columns[0].max, o.slotLength)
    requires o.lenient || (db[sql].columns != [] && AllDecode(db[sql].columns, db[sql].rows, o.ieee))
    ensures Prepared(Serve(db), [], sql) == Ok(db[sql].columns)
    ensures Yields(Serve(db), [], sql, db[sql].rows, |db[sql].rows| + 1)
    ensures KeepsBlobs(Serve(db), [], sql, o, db[sql].rows, db[sql].blobs)
    ensures Completes(Serve(db), [], sql, o, db[sql].rows)
  {
    hide Serve, Yields, KeepsBlobs, Completes, Prepared, Cooperates, Opens, HasBlobColumn, AllDecode;
    SampleCooperates(db, sql, []);
    SampleCompletes(db, sql, [], o);
    SampleBlobsAreStable(db, sql, [], o);
  }
}
