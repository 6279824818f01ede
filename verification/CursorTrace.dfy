/** What a cursor runner sends over its whole life, whatever the server replies and wherever it throws. */
module CursorTrace {
  import opened Wrappers
  import opened Transports
  import opened Cursor

  /** A reply that ends the cursor: end of cursor, nothing readable, or nothing there. */
  predicate Ends(reply: Reply, recordSize: nat) {
    BlockOf(reply, recordSize).Ok? && BlockOf(reply, recordSize).value.eoc
  }

  /** The log after a number of next_block calls, each made whether or not the one before it threw. */
  function ReadLog(server: Server, recordSize: nat, batch: nat, log: seq<Request>, first: bool, eoc: bool, calls: nat): seq<Request>
    decreases calls
  {
    if calls == 0 || eoc then log
    else
      var req := if first then ReadFirst(batch) else ReadNext(batch);
      var reply := ReplyTo(server, log, req);
      ReadLog(server, recordSize, batch, log + [req], first && reply.Lost?, Ends(reply, recordSize), calls - 1)
  }

  /** i requests of one kind after each other: none of the replies but the last may satisfy `stop`. */
  ghost predicate Uninterrupted(server: Server, log: seq<Request>, req: Request, n: nat, stop: Reply -> bool) {
    forall m :: 1 <= m < n ==> !stop(server(log + Repeat(req, m)))
  }

  lemma RepeatCons(log: seq<Request>, req: Request, m: nat)
    requires m > 0
    ensures log + [req] + Repeat(req, m - 1) == log + Repeat(req, m)
  {
  }

  /** Once the first block has come, only ReadNext follows, and none after a reply that ends the cursor. */
  lemma {:induction false} NextReads(server: Server, recordSize: nat, batch: nat, log: seq<Request>, eoc: bool, calls: nat)
    returns (j: nat)
    ensures j <= calls && (eoc ==> j == 0)
    ensures ReadLog(server, recordSize, batch, log, false, eoc, calls) == log + Repeat(ReadNext(batch), j)
    ensures Uninterrupted(server, log, ReadNext(batch), j, (r: Reply) => Ends(r, recordSize))
    decreases calls
  {
    if calls == 0 || eoc {
      return 0;
    }
    var req := ReadNext(batch);
    var log' := log + [req];
    var j' := NextReads(server, recordSize, batch, log', Ends(server(log'), recordSize), calls - 1);
    j := j' + 1;
    RepeatCons(log, req, j);
    forall m | 1 <= m < j
      ensures !Ends(server(log + Repeat(req, m)), recordSize)
    {
      RepeatCons(log, req, m);
      if m == 1 {
        assert log + Repeat(req, 1) == log';
      }
    }
  }

  /**
   * The reads of a runner: ReadFirst until one gets a reply, then ReadNext. So more than one ReadFirst
   * is sent only by a caller that calls again after a ReadFirst that threw, and nothing is read after
   * a reply that ends the cursor.
   */
  lemma {:induction false} Reads(server: Server, recordSize: nat, batch: nat, log: seq<Request>, calls: nat)
    returns (i: nat, j: nat)
    ensures i + j <= calls && (calls > 0 ==> i > 0)
    ensures ReadLog(server, recordSize, batch, log, true, false, calls)
         == log + Repeat(ReadFirst(batch), i) + Repeat(ReadNext(batch), j)
    ensures Uninterrupted(server, log, ReadFirst(batch), i, (r: Reply) => !r.Lost?)
    ensures j > 0 ==> server(log + Repeat(ReadFirst(batch), i)).Body?
                      && !Ends(server(log + Repeat(ReadFirst(batch), i)), recordSize)
    ensures Uninterrupted(server, log + Repeat(ReadFirst(batch), i), ReadNext(batch), j, (r: Reply) => Ends(r, recordSize))
    ensures i > 1 <==> calls > 1 && ReplyTo(server, log, ReadFirst(batch)).Lost?
    decreases calls
  {
    if calls == 0 {
      return 0, 0;
    }
    var req := ReadFirst(batch);
    var log' := log + [req];
    var reply := server(log');
    assert log + Repeat(req, 1) == log';
    if reply.Lost? {
      var i', j' := Reads(server, recordSize, batch, log', calls - 1);
      i, j := i' + 1, j';
      RepeatCons(log, req, i);
      forall m | 1 <= m < i
        ensures server(log + Repeat(req, m)).Lost?
      {
        RepeatCons(log, req, m);
      }
    } else {
      j := NextReads(server, recordSize, batch, log', Ends(reply, recordSize), calls - 1);
      i := 1;
    }
  }

  /**
   * One runner from construction to destruction. The log grows by a complete trace: Execute alone if
   * it threw; else polls, perhaps SetToBegin, the reads described above, and the three cleanup
   * requests, once and last.
   */
  method Lifetime(t: Transport, recordSize: nat, batch: nat, calls: nat) returns (constructed: bool, ghost polls: nat, ghost i: nat, ghost j: nat)
    modifies t
    ensures ReplyTo(t.server, old(t.log), ExecuteStatement).Lost? ==> !constructed && t.log == old(t.log) + [ExecuteStatement]
    ensures !constructed && !ReplyTo(t.server, old(t.log), ExecuteStatement).Lost? ==>
              polls < MAX_RECEIVE_POLLS
              && (t.log == old(t.log) + Opening(polls) + CLEANUP
                  || t.log == old(t.log) + Opening(polls) + [SetToBegin] + CLEANUP)
    ensures constructed ==>
              var base := old(t.log) + Opening(polls) + [SetToBegin];
              && polls < MAX_RECEIVE_POLLS && i + j <= calls
              && t.log == base + Repeat(ReadFirst(batch), i) + Repeat(ReadNext(batch), j) + CLEANUP
              && (i > 1 <==> calls > 1 && ReplyTo(t.server, base, ReadFirst(batch)).Lost?)
              && Uninterrupted(t.server, base, ReadFirst(batch), i, (r: Reply) => !r.Lost?)
              && Uninterrupted(t.server, base + Repeat(ReadFirst(batch), i), ReadNext(batch), j, (r: Reply) => Ends(r, recordSize))
              && (j > 0 ==> !Ends(t.server(base + Repeat(ReadFirst(batch), i)), recordSize))
  {
    polls, i, j := 0, 0, 0;
    ghost var log0 := t.log;
    assert log0 + Opening(0) == log0 + [ExecuteStatement];
    var runner := OpenRunner(t, recordSize, batch);
    if runner.Err? {
      if !ReplyTo(t.server, log0, ExecuteStatement).Lost? {
        polls :| 0 <= polls < MAX_RECEIVE_POLLS
                 && (t.log == log0 + Opening(polls) + CLEANUP || t.log == log0 + Opening(polls) + [SetToBegin] + CLEANUP);
      }
      return false, polls, i, j;
    }
    constructed := true;
    polls :| 0 <= polls < MAX_RECEIVE_POLLS && t.log == log0 + Opening(polls) + [SetToBegin];
    ghost var base := t.log;
    var c := runner.value;
    var left := calls;
    while left > 0
      invariant ReadLog(t.server, recordSize, batch, base, true, false, calls)
             == ReadLog(t.server, recordSize, batch, t.log, c.firstBlock, c.eoc, left)
      modifies t, c
    {
      var block := c.NextBlock();
      left := left - 1;
    }
    i, j := Reads(t.server, recordSize, batch, base, calls);
    c.Cleanup();
  }
}
