/**
 * The websocket transport of the Rust client, reduced to what the exporter
 * does with it: send one frame, then read incoming frames until a text frame
 * arrives, answering pings and close frames on the way. The socket is a
 * finite sequence of incoming frames with a read cursor, and the frames the
 * client writes are recorded in order.
 */
module Transport {
  import opened Wrappers
  import opened Errors

  newtype byte = x: int | 0 <= x < 256

  datatype CloseData = CloseData(statusCode: nat, reason: string)

  datatype Frame =
    | Text(text: string)
    | Binary(data: seq<byte>)
    | Ping(data: seq<byte>)
    | Pong(data: seq<byte>)
    | Close(closeData: Option<CloseData>)

  /** What one read of the receiver yields: a frame, or a receive error. */
  datatype Incoming = Arrived(frame: Frame) | ReceiveError(reason: string)

  /** A frame that ends the wait: a text frame or a receive error. */
  predicate Stops(m: Incoming) {
    m.ReceiveError? || m.frame.Text?
  }

  /** What the client writes back for a frame that does not end the wait:
      a pong with the ping's data, a close without data for a close,
      nothing for pongs and binary frames. */
  function Reply(f: Frame): (out: seq<Frame>)
    ensures |out| <= 1
    ensures out != [] <==> f.Ping? || f.Close?
    ensures f.Ping? ==> out == [Pong(f.data)]
    ensures f.Close? ==> out == [Close(None)]
  {
    match f
    case Ping(d) => [Pong(d)]
    case Close(_) => [Close(None)]
    case _ => []
  }

  function ReplyTo(m: Incoming): seq<Frame> {
    if m.Arrived? then Reply(m.frame) else []
  }

  /** The replies to a run of incoming items, in arrival order. */
  function Replies(ms: seq<Incoming>): seq<Frame> {
    if ms == [] then [] else Replies(ms[..|ms| - 1]) + ReplyTo(ms[|ms| - 1])
  }

  /** The outcome of draining: the frames written back, the result, and how
      many incoming items were read. */
  datatype Drained = Drained(replies: seq<Frame>, result: Result<string, ClientError>, consumed: nat)

  /** Reading incoming items until one ends the wait. */
  function Drain(incoming: seq<Incoming>): (d: Drained)
    ensures d.consumed <= |incoming|
    ensures incoming != [] ==> d.consumed >= 1
    ensures d.result.Success? ==> d.consumed >= 1 && incoming[d.consumed - 1] == Arrived(Text(d.result.value))
  {
    if incoming == [] then Drained([], Failure(NoResponse), 0)
    else
      match incoming[0]
      case ReceiveError(e) => Drained([], Failure(ReceiveFailed(e)), 1)
      case Arrived(f) =>
        if f.Text? then Drained([], Success(f.text), 1)
        else
          var d := Drain(incoming[1..]);
          Drained(Reply(f) + d.replies, d.result, d.consumed + 1)
  }

  lemma {:induction false} RepliesCons(m: Incoming, ms: seq<Incoming>)
    ensures Replies([m] + ms) == ReplyTo(m) + Replies(ms)
    decreases |ms|
  {
    if ms == [] {
      assert [m] + ms == [m];
      assert Replies([m]) == Replies([]) + ReplyTo(m);
    } else {
      var init := ms[..|ms| - 1];
      assert ([m] + ms)[..|[m] + ms| - 1] == [m] + init;
      RepliesCons(m, init);
    }
  }

  /** The wait ends at the first text frame or receive error: everything before
      it is answered in order, the text frame's payload is the result, a
      receive error is propagated, and nothing after it is read. */
  lemma {:induction false} DrainStopsAtFirst(incoming: seq<Incoming>, k: nat)
    requires k < |incoming| && Stops(incoming[k])
    requires forall j :: 0 <= j < k ==> !Stops(incoming[j])
    ensures Drain(incoming).replies == Replies(incoming[..k])
    ensures Drain(incoming).consumed == k + 1
    ensures Drain(incoming).result
         == if incoming[k].ReceiveError? then Failure(ReceiveFailed(incoming[k].reason))
            else Success(incoming[k].frame.text)
    decreases k
  {
    if k == 0 {
      assert incoming[..0] == [];
    } else {
      var rest := incoming[1..];
      DrainStopsAtFirst(rest, k - 1);
      assert incoming[..k] == [incoming[0]] + rest[..k - 1];
      RepliesCons(incoming[0], rest[..k - 1]);
    }
  }

  /** When no text frame and no receive error comes, every frame is answered
      and the wait fails with "no response". */
  lemma {:induction false} DrainExhausted(incoming: seq<Incoming>)
    requires forall j :: 0 <= j < |incoming| ==> !Stops(incoming[j])
    ensures Drain(incoming) == Drained(Replies(incoming), Failure(NoResponse), |incoming|)
    decreases |incoming|
  {
    if incoming != [] {
      var rest := incoming[1..];
      DrainExhausted(rest);
      assert incoming == [incoming[0]] + rest;
      RepliesCons(incoming[0], rest);
    }
  }

  /** The payloads of the text frames among `frames`, in order: the requests
      the client issued, as opposed to the pongs and close frames it answered with. */
  function Requests(frames: seq<Frame>): seq<string> {
    if frames == [] then []
    else
      var last := frames[|frames| - 1];
      Requests(frames[..|frames| - 1]) + (if last.Text? then [last.text] else [])
  }

  lemma {:induction false} RequestsAppend(a: seq<Frame>, b: seq<Frame>)
    ensures Requests(a + b) == Requests(a) + Requests(b)
    decreases |b|
  {
    if b == [] {
      assert a + b == a;
    } else {
      assert (a + b)[..|a + b| - 1] == a + b[..|b| - 1];
      RequestsAppend(a, b[..|b| - 1]);
    }
  }

  /** Draining never writes a text frame: the only frames written back are
      pongs and close frames. */
  lemma {:induction false} DrainWritesNoRequest(incoming: seq<Incoming>)
    ensures Requests(Drain(incoming).replies) == []
    decreases |incoming|
  {
    if incoming != [] && incoming[0].Arrived? && !incoming[0].frame.Text? {
      var f := incoming[0].frame;
      DrainWritesNoRequest(incoming[1..]);
      RequestsAppend(Reply(f), Drain(incoming[1..]).replies);
      assert Reply(f) == [] || Reply(f) == [Reply(f)[0]];
      assert Requests(Reply(f)) == [] by {
        if Reply(f) != [] {
          assert Reply(f)[..0] == [];
        }
      }
    }
  }

  /** Draining from `start` has written `answered` so far and reached
      position c; what remains is draining from c. */
  ghost predicate DrainedFrom(incoming: seq<Incoming>, start: nat, c: nat, answered: seq<Frame>, whole: Drained) {
    && start <= c <= |incoming|
    && var d := Drain(incoming[c..]);
       whole == Drained(answered + d.replies, d.result, c - start + d.consumed)
  }

  lemma DrainAdvance(incoming: seq<Incoming>, start: nat, c: nat, answered: seq<Frame>, whole: Drained)
    requires DrainedFrom(incoming, start, c, answered, whole)
    requires c < |incoming| && !Stops(incoming[c])
    ensures DrainedFrom(incoming, start, c + 1, answered + Reply(incoming[c].frame), whole)
  {
    assert incoming[c..][0] == incoming[c] && incoming[c..][1..] == incoming[c + 1..];
    var next := Drain(incoming[c + 1..]);
    assert Drain(incoming[c..]) == Drained(Reply(incoming[c].frame) + next.replies, next.result, next.consumed + 1);
    assert answered + (Reply(incoming[c].frame) + next.replies) == answered + Reply(incoming[c].frame) + next.replies;
  }

  lemma DrainEnds(incoming: seq<Incoming>, start: nat, c: nat, answered: seq<Frame>, whole: Drained)
    requires DrainedFrom(incoming, start, c, answered, whole)
    requires c < |incoming| && Stops(incoming[c])
    ensures whole.replies == answered && whole.consumed == c + 1 - start
    ensures whole.result == if incoming[c].ReceiveError? then Failure(ReceiveFailed(incoming[c].reason))
                            else Success(incoming[c].frame.text)
  {
    assert incoming[c..][0] == incoming[c];
  }

  lemma DrainedAll(incoming: seq<Incoming>, start: nat, answered: seq<Frame>, whole: Drained)
    requires DrainedFrom(incoming, start, |incoming|, answered, whole)
    ensures whole == Drained(answered, Failure(NoResponse), |incoming| - start)
  {
    assert incoming[|incoming|..] == [];
  }

  /** The socket: incoming items, the read position, and the frames written so far. */
  class Connection {
    var incoming: seq<Incoming>
    var cursor: nat
    var sent: seq<Frame>

    predicate Valid()
      reads this
    {
      cursor <= |incoming|
    }

    constructor (incoming: seq<Incoming>)
      ensures Valid()
      ensures this.incoming == incoming && cursor == 0 && sent == []
    {
      this.incoming := incoming;
      cursor := 0;
      sent := [];
    }

    /** send_and_await: writes `message`, then drains incoming frames. */
    method SendAndAwait(message: Frame) returns (r: Result<string, ClientError>)
      requires Valid()
      modifies this
      ensures Valid() && incoming == old(incoming)
      ensures var d := Drain(old(incoming)[old(cursor)..]);
        && sent == old(sent) + [message] + d.replies
        && cursor == old(cursor) + d.consumed
        && r == d.result
    {
      ghost var start := cursor;
      ghost var whole := Drain(incoming[start..]);
      sent := sent + [message];
      ghost var answered: seq<Frame> := [];
      assert [] + whole.replies == whole.replies;
      while cursor < |incoming|
        invariant incoming == old(incoming) && start == old(cursor)
        invariant whole == Drain(old(incoming)[old(cursor)..])
        invariant sent == old(sent) + [message] + answered
        invariant DrainedFrom(incoming, start, cursor, answered, whole)
        decreases |incoming| - cursor
      {
        var m := incoming[cursor];
        if Stops(m) {
          DrainEnds(incoming, start, cursor, answered, whole);
          cursor := cursor + 1;
          assert sent == old(sent) + [message] + whole.replies && cursor == old(cursor) + whole.consumed;
          if m.ReceiveError? {
            return Failure(ReceiveFailed(m.reason));
          }
          return Success(m.frame.text);
        }
        DrainAdvance(incoming, start, cursor, answered, whole);
        var out := Reply(m.frame);
        sent := sent + out;
        answered := answered + out;
        cursor := cursor + 1;
      }
      DrainedAll(incoming, start, answered, whole);
      assert sent == old(sent) + [message] + whole.replies && cursor == old(cursor) + whole.consumed;
      return Failure(NoResponse);
    }
  }
}
