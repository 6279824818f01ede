/**
 * The request/reply channel. A server is any function from the requests so far to its reply, so a
 * statement about every server covers every behaviour a session can meet, lost replies included.
 */
module Transports {
  import opened Bytes

  datatype Request =
    | Prepare(sql: string)
    | ExecuteStatement
    | Receive
    | SetToBegin
    | ReadFirst(n: nat)
    | ReadNext(n: nat)
    | CloseCursor
    | ResetStatement
    | RemoveAllTables
    | OpenBlob(ordinal: nat, slot: Buffer)
    | FreeBlob(ordinal: nat, slot: Buffer)
    | FreeAllBlobs

  /** A reply body, or the exception send_recv threw instead. */
  datatype Reply = Lost | Body(body: Buffer)

  type Server = seq<Request> -> Reply

  /** The reply to one more request. */
  function ReplyTo(server: Server, log: seq<Request>, req: Request): Reply {
    server(log + [req])
  }

  class Transport {
    const server: Server
    var log: seq<Request>

    constructor (server: Server)
      ensures this.server == server && log == []
    {
      this.server := server;
      log := [];
    }

    /** send_recv_auto: the attempt is logged whether or not a reply arrives. */
    method SendRecv(req: Request) returns (reply: Reply)
      modifies this
      ensures log == old(log) + [req]
      ensures reply == ReplyTo(server, old(log), req)
    {
      log := log + [req];
      reply := server(log);
    }
  }

  predicate IsRead(req: Request) {
    req.ReadFirst? || req.ReadNext?
  }

  predicate IsBlobRequest(req: Request) {
    req.OpenBlob? || req.FreeBlob? || req.FreeAllBlobs?
  }

  predicate OnlyBlobs(log: seq<Request>) {
    forall i :: 0 <= i < |log| ==> IsBlobRequest(log[i])
  }

  predicate NoReads(log: seq<Request>) {
    forall i :: 0 <= i < |log| ==> !IsRead(log[i])
  }

  function Repeat(req: Request, k: nat): (r: seq<Request>)
    ensures |r| == k && forall i :: 0 <= i < k ==> r[i] == req
  {
    seq(k, _ => req)
  }
}
