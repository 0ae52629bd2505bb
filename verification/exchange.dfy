/**
  `exchange`, which both guest adapters run a request under: on any throw the
  pooled socket is dropped, a new one opened, and the request sent once more.
 */
module Exchange {
  import opened Text

  /** A run of the request on one socket: whether it was written, and the reply unless the run threw. */
  datatype Try<T> = Try(written: bool, reply: Option<T>)

  /** What the sockets do: whether one is pooled or can be opened, then reopened, and what a run on each does. */
  datatype Sockets<T> = Sockets(pooled: bool, opens: bool, first: Try<T>, reopens: bool, second: Try<T>)

  predicate RunsFirst<T>(s: Sockets<T>) { s.pooled || s.opens }

  predicate FirstReplies<T>(s: Sockets<T>) { RunsFirst(s) && s.first.reply.Some? }

  function Count(b: bool): nat { if b then 1 else 0 }

  /** The code as it runs, with the number of times the request was written. */
  method Run<T>(s: Sockets<T>) returns (reply: Option<T>, writes: nat, pooled: bool)
    ensures writes <= 2
    ensures writes == 2 <==> RunsFirst(s) && s.first.written && s.first.reply.None? && s.reopens && s.second.written
    ensures writes == Count(RunsFirst(s) && s.first.written) + Count(!FirstReplies(s) && s.reopens && s.second.written)
    ensures FirstReplies(s) ==> reply == s.first.reply
    ensures !FirstReplies(s) ==> reply == if s.reopens then s.second.reply else None
    ensures reply.Some? ==> pooled
  {
    writes, pooled, reply := 0, s.pooled, None;
    if !pooled && s.opens {
      pooled := true;
    }
    if pooled {
      writes := writes + Count(s.first.written);
      reply := s.first.reply;
      if reply.Some? {
        return;
      }
    }
    pooled := false;
    if s.reopens {
      pooled := true;
      writes := writes + Count(s.second.written);
      reply := s.second.reply;
    }
  }
}
