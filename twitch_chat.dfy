/**
 * The chat client: connection state, the authentication handshake, the
 * keepalive reply, and the handler that turns an inbound payload into chat
 * messages for the dispatch queue.
 *
 * The WebSocket is abstracted to its ready state (`ws`, `None` for no socket)
 * and the sequence of commands sent through it (`outbox`).  Its `open`,
 * `close` and `error` events are methods the transport calls.  The queue is
 * an explicit instance given to the client when it is made.
 */
module TwitchChat {
  import opened Wrappers
  import opened IrcLine
  import opened ChatQueue

  const Nickname: string := "nthnunes"
  const PongReply: string := "PONG :tmi.twitch.tv"

  /** The ready states of a WebSocket. */
  datatype ReadyState = Connecting | Open | Closing | Closed

  /** The commands sent when the socket opens, in the order the server needs:
      authenticate, identify, join. */
  function Handshake(token: string): seq<string> {
    ["PASS oauth:" + token, "NICK " + Nickname, "JOIN #" + Nickname]
  }

  /** The keepalive reply owed for one line: one for a probe, none otherwise. */
  function ReplyTo(line: string): seq<string> {
    if Classify(line) == Ping then [PongReply] else []
  }

  /** The chat message one line yields, stamped `now`, if it is one. */
  function ChatOf(line: string, now: int): seq<ChatMessage> {
    match Classify(line)
    case Chat(u, b) => [ChatMessage(u, b, now)]
    case _ => []
  }

  /** Keepalive: a line starting with `PING` gets exactly one `PONG` and is
      never taken for chat; any other line gets no reply. */
  lemma ProbeGetsOnlyReply(line: string, now: int)
    ensures ReplyTo(line) == (if StartsWith(line, PingKeyword) then [PongReply] else [])
    ensures StartsWith(line, PingKeyword) ==> ChatOf(line, now) == []
  {
  }

  /** The keepalive replies owed for a batch of lines: one per probe. */
  function Replies(lines: seq<string>): (r: seq<string>)
    ensures forall k :: 0 <= k < |r| ==> r[k] == PongReply
  {
    if |lines| == 0 then [] else ReplyTo(lines[0]) + Replies(lines[1..])
  }

  /** The chat messages a batch of lines yields, in order, all stamped `now`. */
  function ChatsOf(lines: seq<string>, now: int): seq<ChatMessage>
  {
    if |lines| == 0 then [] else ChatOf(lines[0], now) + ChatsOf(lines[1..], now)
  }

  /** Both are computed line by line, in order. */
  lemma BatchAppend(a: seq<string>, b: seq<string>, now: int)
    ensures Replies(a + b) == Replies(a) + Replies(b)
    ensures ChatsOf(a + b, now) == ChatsOf(a, now) + ChatsOf(b, now)
  {
    RepliesAppend(a, b);
    ChatsOfAppend(a, b, now);
  }

  lemma {:induction false} RepliesAppend(a: seq<string>, b: seq<string>)
    ensures Replies(a + b) == Replies(a) + Replies(b)
    decreases |a|
  {
    if |a| == 0 {
      assert a + b == b;
    } else {
      var ab := a + b;
      assert ab[0] == a[0];
      assert ab[1..] == a[1..] + b;
      RepliesAppend(a[1..], b);
      calc {
        Replies(ab);
        ReplyTo(a[0]) + Replies(a[1..] + b);
        ReplyTo(a[0]) + (Replies(a[1..]) + Replies(b));
        (ReplyTo(a[0]) + Replies(a[1..])) + Replies(b);
      }
    }
  }

  lemma {:induction false} ChatsOfAppend(a: seq<string>, b: seq<string>, now: int)
    ensures ChatsOf(a + b, now) == ChatsOf(a, now) + ChatsOf(b, now)
    decreases |a|
  {
    if |a| == 0 {
      assert a + b == b;
    } else {
      var ab := a + b;
      assert ab[0] == a[0];
      assert ab[1..] == a[1..] + b;
      ChatsOfAppend(a[1..], b, now);
      calc {
        ChatsOf(ab, now);
        ChatOf(a[0], now) + ChatsOf(a[1..] + b, now);
        ChatOf(a[0], now) + (ChatsOf(a[1..], now) + ChatsOf(b, now));
        (ChatOf(a[0], now) + ChatsOf(a[1..], now)) + ChatsOf(b, now);
      }
    }
  }

  /** Extending a prefix of the batch by one line extends its replies and
      its chat messages by those of that line. */
  lemma PrefixStep(lines: seq<string>, i: nat, now: int)
    requires i < |lines|
    ensures Replies(lines[..i + 1]) == Replies(lines[..i]) + ReplyTo(lines[i])
    ensures ChatsOf(lines[..i + 1], now) == ChatsOf(lines[..i], now) + ChatOf(lines[i], now)
  {
    var x := lines[i];
    assert lines[..i + 1] == lines[..i] + [x];
    RepliesAppend(lines[..i], [x]);
    ChatsOfAppend(lines[..i], [x], now);
    SingleLine(x, now);
  }

  lemma SingleLine(line: string, now: int)
    ensures Replies([line]) == ReplyTo(line)
    ensures ChatsOf([line], now) == ChatOf(line, now)
  {
    assert [line][1..] == [];
  }

  /** The number of lines that start with `PING`. */
  function Probes(lines: seq<string>): nat
  {
    if |lines| == 0 then 0
    else (if StartsWith(lines[0], PingKeyword) then 1 else 0) + Probes(lines[1..])
  }

  /** One reply per probe: a batch owes exactly as many replies as it has
      lines starting with `PING`, so none exactly when no line is a probe. */
  lemma {:induction false} RepliesCountProbes(lines: seq<string>)
    ensures |Replies(lines)| == Probes(lines)
    ensures Replies(lines) == [] <==> forall k :: 0 <= k < |lines| ==> !StartsWith(lines[k], PingKeyword)
    ensures |Replies(lines)| <= |lines|
  {
    if |lines| > 0 {
      RepliesCountProbes(lines[1..]);
      assert forall k :: 1 <= k < |lines| ==> lines[k] == lines[1..][k - 1];
    }
  }

  /** Every message the feed produces has a non-empty `\w+` user name and a
      non-empty one-line body. */
  lemma {:induction false} ChatsAreWellFormed(lines: seq<string>, now: int)
    ensures forall m :: m in ChatsOf(lines, now) ==>
      IsWord(m.username) && IsBody(m.message) && m.timestamp == now
  {
    if |lines| > 0 {
      ChatsAreWellFormed(lines[1..], now);
      ChatOfWellFormed(lines[0], now);
    }
  }

  lemma ChatOfWellFormed(line: string, now: int)
    ensures forall m :: m in ChatOf(line, now) ==>
      IsWord(m.username) && IsBody(m.message) && m.timestamp == now
  {
    if Classify(line).Chat? {
      HostAndChannelIsSeparator();
      ParseSound(line, HostAndChannel);
    }
  }

  /** What handling one line does to the queue's state: a chat message is
      added and the queue is asked to dispatch if idle; any other line leaves
      the queue as it was. */
  ghost function AfterLine(s: Snapshot, line: string, now: int): Snapshot {
    if ChatOf(line, now) == [] then s else AfterForce(AfterAdd(s, ChatOf(line, now)[0]))
  }

  /** The queue's state after handling `lines`, in order, from `s`. */
  ghost function AfterLines(s: Snapshot, lines: seq<string>, now: int): Snapshot
    decreases |lines|
  {
    if |lines| == 0 then s
    else AfterLine(AfterLines(s, lines[..|lines| - 1], now), lines[|lines| - 1], now)
  }

  /** A batch's whole effect on the queue: its chat messages are appended in
      order, at most the head is delivered (when the queue was idle and has a
      consumer), and nothing is discarded or reordered. */
  lemma {:induction false} AfterLinesAbsorbs(s: Snapshot, lines: seq<string>, now: int)
    ensures Absorbed(s, ChatsOf(lines, now), AfterLines(s, lines, now))
    decreases |lines|
  {
    if |lines| == 0 {
      AbsorbedNone(s);
    } else {
      var n := |lines| - 1;
      var r := AfterLines(s, lines[..n], now);
      AfterLinesAbsorbs(s, lines[..n], now);
      PrefixStep(lines, n, now);
      assert lines[..n + 1] == lines;
      var x := lines[n];
      if ChatOf(x, now) == [] {
        assert ChatsOf(lines[..n], now) + [] == ChatsOf(lines[..n], now);
      } else {
        assert ChatOf(x, now) == [ChatOf(x, now)[0]];
        AbsorbOne(s, ChatsOf(lines[..n], now), r, ChatOf(x, now)[0]);
      }
    }
  }

  lemma AfterLinesStep(s: Snapshot, lines: seq<string>, i: nat, now: int)
    requires i < |lines|
    ensures AfterLines(s, lines[..i + 1], now) == AfterLine(AfterLines(s, lines[..i], now), lines[i], now)
  {
    assert lines[..i + 1][..i] == lines[..i];
  }

  class TwitchChat {
    /** The socket, by its ready state; `None` when there is none. */
    var ws: Option<ReadyState>
    var isConnected: bool
    /** The token the pending `open` handler authenticates with. */
    var authToken: string
    /** Every command sent through the socket, in order. */
    var outbox: seq<string>
    const queue: TwitchChatQueue

    ghost predicate Valid()
      reads this, queue
    {
      queue.Valid() && (isConnected ==> ws.Some?)
    }

    constructor (q: TwitchChatQueue)
      requires q.Valid()
      ensures Valid()
      ensures queue == q && ws == None && !isConnected && outbox == []
    {
      queue := q;
      ws := None;
      isConnected := false;
      authToken := "";
      outbox := [];
    }

    /** A missing or empty token ends the attempt before any socket exists;
        otherwise a socket is created in the connecting state. */
    method Connect(token: Option<string>)
      requires Valid()
      modifies this
      ensures Valid()
      ensures token.None? || token.value == [] ==>
        ws == old(ws) && authToken == old(authToken)
      ensures token.Some? && token.value != [] ==>
        ws == Some(Connecting) && authToken == token.value
      ensures isConnected == old(isConnected) && outbox == old(outbox)
    {
      if token.None? || token.value == [] {
        return;
      }
      ws := Some(Connecting);
      authToken := token.value;
    }

    /** The socket opened: connected, and the three handshake commands go out
        in order. */
    method OnOpen()
      requires Valid() && ws == Some(Connecting)
      modifies this`ws, this`isConnected, this`outbox
      ensures Valid()
      ensures ws == Some(Open) && isConnected
      ensures outbox == old(outbox) + Handshake(authToken)
    {
      ws := Some(Open);
      isConnected := true;
      SendCommand("PASS oauth:" + authToken);
      SendCommand("NICK " + Nickname);
      SendCommand("JOIN #" + Nickname);
    }

    /** The socket closed. */
    method OnClose()
      requires Valid()
      modifies this`ws, this`isConnected
      ensures Valid()
      ensures !isConnected && ws == (if old(ws).Some? then Some(Closed) else None)
    {
      if ws.Some? {
        ws := Some(Closed);
      }
      isConnected := false;
    }

    /** The socket reported an error. */
    method OnError()
      requires Valid()
      modifies this`isConnected
      ensures Valid() && !isConnected
    {
      isConnected := false;
    }

    /** Sends only through a socket that exists and is open. */
    method SendCommand(command: string)
      modifies this`outbox
      ensures outbox == old(outbox) + (if ws == Some(Open) then [command] else [])
    {
      if ws.Some? && ws.value == Open {
        outbox := outbox + [command];
      }
    }

    /** One line of a payload: a probe gets its reply and nothing else; a chat
        line is queued and the queue is asked to dispatch if idle; anything
        else changes nothing. */
    method HandleLine(line: string, now: int)
      requires Valid()
      modifies this`outbox, queue
      ensures Valid()
      ensures old(queue.Synced()) ==> queue.Synced()
      ensures Classify(line) == Ping ==>
        outbox == old(outbox) + (if ws == Some(Open) then [PongReply] else []) && unchanged(queue)
      ensures Classify(line) == Ignore ==> outbox == old(outbox) && unchanged(queue)
      ensures Classify(line).Chat? ==>
        var m := ChatMessage(Classify(line).username, Classify(line).body, now);
        var dispatch := !old(queue.isProcessing) && queue.processCallback.Some?;
        outbox == old(outbox) &&
        queue.enqueued == old(queue.enqueued) + [m] &&
        queue.queue == (if dispatch then (old(queue.queue) + [m])[1..] else old(queue.queue) + [m]) &&
        queue.isProcessing == (old(queue.isProcessing) || dispatch) &&
        queue.log == (if dispatch then old(queue.log) + [Delivered(queue.processCallback.value, (old(queue.queue) + [m])[0])]
                      else old(queue.log))
      ensures outbox == old(outbox) + (if ws == Some(Open) then ReplyTo(line) else [])
      ensures queue.enqueued == old(queue.enqueued) + ChatOf(line, now)
      ensures ChatOf(line, now) == [] ==> unchanged(queue)
      ensures queue.processCallback == old(queue.processCallback)
      ensures queue.State() == AfterLine(old(queue.State()), line, now)
    {
      match Classify(line)
      case Ping =>
        SendCommand(PongReply);
      case Chat(username, message) =>
        queue.AddMessage(username, message, now);
        queue.ForceProcessIfIdle();
      case Ignore =>
    }

    /** An inbound payload: split on CR LF, blank lines dropped, every other
        line handled in order.  All messages of one payload carry the same
        timestamp `now`.  The queue absorbs the payload's chat messages: all
        appended in order, at most the head delivered, nothing discarded. */
    method HandleMessage(data: string, now: int)
      requires Valid()
      modifies this`outbox, queue
      ensures Valid()
      ensures old(queue.Synced()) ==> queue.Synced()
      ensures outbox == old(outbox) + (if ws == Some(Open) then Replies(Lines(data)) else [])
      ensures queue.State() == AfterLines(old(queue.State()), Lines(data), now)
      ensures Absorbed(old(queue.State()), ChatsOf(Lines(data), now), queue.State())
    {
      HandleLines(Lines(data), now);
    }

    /** The `for` loop over the kept lines. */
    method HandleLines(lines: seq<string>, now: int)
      requires Valid()
      modifies this`outbox, queue
      ensures Valid()
      ensures old(queue.Synced()) ==> queue.Synced()
      ensures outbox == old(outbox) + (if ws == Some(Open) then Replies(lines) else [])
      ensures queue.State() == AfterLines(old(queue.State()), lines, now)
      ensures Absorbed(old(queue.State()), ChatsOf(lines, now), queue.State())
    {
      ghost var out0 := outbox;
      ghost var q0 := queue.State();
      var i := 0;
      while i < |lines|
        invariant 0 <= i <= |lines|
        invariant Valid() && HandledUpTo(lines, i, now, out0, q0)
      {
        HandleNextLine(lines, i, now, out0, q0);
        i := i + 1;
      }
      assert lines[..i] == lines;
      AfterLinesAbsorbs(q0, lines, now);
    }

    /** What handling `lines[..i]` leaves, from the outbox `out0` and the
        queue state `q0`: one reply per probe, and the queue state folded
        over those lines. */
    ghost predicate HandledUpTo(lines: seq<string>, i: nat, now: int, out0: seq<string>, q0: Snapshot)
      requires i <= |lines|
      reads this, queue
    {
      outbox == out0 + (if ws == Some(Open) then Replies(lines[..i]) else []) &&
      queue.State() == AfterLines(q0, lines[..i], now)
    }

    /** The loop step of `HandleMessage`: handling line `i` extends what was
        done for `lines[..i]` to `lines[..i + 1]`. */
    method HandleNextLine(lines: seq<string>, i: nat, now: int, ghost out0: seq<string>, ghost q0: Snapshot)
      requires Valid() && i < |lines| && HandledUpTo(lines, i, now, out0, q0)
      modifies this`outbox, queue
      ensures Valid() && HandledUpTo(lines, i + 1, now, out0, q0)
    {
      PrefixStep(lines, i, now);
      AfterLinesStep(q0, lines, i, now);
      HandleLine(lines[i], now);
    }

    /** Closes and drops the socket, if any; never connected afterwards,
        whatever the state before, so a second call changes nothing. */
    method Disconnect()
      requires Valid()
      modifies this`ws, this`isConnected
      ensures Valid()
      ensures ws == None && !isConnected
    {
      if ws.Some? {
        ws := None;
      }
      isConnected := false;
    }

    function GetConnected(): (r: bool)
      requires Valid()
      reads this, queue
      ensures r ==> ws.Some?
    {
      isConnected
    }
  }
}
