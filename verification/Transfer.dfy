/**
 The blocking transfers over one connection: the partial-transfer loops, the delimited read and the two
 halves of a half-close exchange; and the loops of a writer and a reader that share a bounded channel.
 */
module Transfer {
  import opened Errors
  import opened Runs
  import opened Text
  import opened Streams

  // ------------------------------------------- over a connection that may break at any time

  /** Some of the bytes were sent before the connection broke. */
  ghost predicate SentPart(before: string, data: string, after: string) {
    exists k :: 0 <= k < |data| && after == before + data[..k]
  }

  /** Some of the bytes were received, and are lost. */
  ghost predicate LostPart(before: string, after: string) {
    exists k :: 0 <= k <= |before| && after == before[k..]
  }

  /**
   The write loop: whatever the partial counts, the bytes arrive as if sent at once, or a proper part of
   them does and the error is the connection's.
   */
  method WriteToSocket(conn: Connection, buffer: string) returns (ec: ErrorCode)
    modifies conn`outgoing, conn`broken
    ensures conn.broken == None ==> ec == Ok
    ensures ec == Ok ==> conn.outgoing == old(conn.outgoing) + buffer
    ensures ec != Ok ==>
              && conn.broken.Some? && ec == Other(conn.broken.value)
              && SentPart(old(conn.outgoing), buffer, conn.outgoing)
  {
    var totalBytesWritten := 0;
    while totalBytesWritten != |buffer|
      invariant 0 <= totalBytesWritten <= |buffer|
      invariant conn.outgoing == old(conn.outgoing) + buffer[..totalBytesWritten]
      decreases |buffer| - totalBytesWritten
    {
      conn.MayBreak();
      if conn.broken.Some? {
        return Other(conn.broken.value);
      }
      var rest := buffer[totalBytesWritten..];
      var n := conn.WriteSome(rest);
      assert buffer[..totalBytesWritten + n] == buffer[..totalBytesWritten] + rest[..n];
      totalBytesWritten := totalBytesWritten + n;
    }
    assert buffer[..totalBytesWritten] == buffer;
    return Ok;
  }

  /** What `read_some` has received is put at its place in the buffer. */
  method Store(buffer: array<char>, at: nat, chunk: string)
    requires at + |chunk| <= buffer.Length
    modifies buffer
    ensures buffer[..at + |chunk|] == old(buffer[..at]) + chunk
  {
    forall k | 0 <= k < |chunk| {
      buffer[at + k] := chunk[k];
    }
  }

  /**
   The read loop, which fills a buffer in place: exactly the next `size` bytes, or an error, and then the
   stream has ended before that many or the connection is broken.
   */
  method ReadFromSocket(conn: Connection, size: nat) returns (result: Option<string>)
    modifies conn`incoming, conn`broken
    ensures result.Some? ==>
              && size <= |old(conn.incoming)|
              && result.value == old(conn.incoming)[..size]
              && conn.incoming == old(conn.incoming)[size..]
    ensures result.None? && conn.broken == None ==> |old(conn.incoming)| < size && conn.incoming == ""
    ensures result.None? ==> LostPart(old(conn.incoming), conn.incoming)
  {
    var buffer := new char[size](_ => ' ');
    var totalBytesRead := 0;
    while totalBytesRead != size
      invariant 0 <= totalBytesRead <= size
      invariant buffer[..totalBytesRead] + conn.incoming == old(conn.incoming)
      decreases size - totalBytesRead
    {
      conn.MayBreak();
      if conn.broken.Some? || conn.incoming == "" {
        assert conn.incoming == old(conn.incoming)[totalBytesRead..];
        return None;
      }
      var chunk := conn.ReadSome(size - totalBytesRead);
      Store(buffer, totalBytesRead, chunk);
      totalBytesRead := totalBytesRead + |chunk|;
    }
    assert buffer[..size] == buffer[..];
    return Some(buffer[..]);
  }

  lemma SplitAtDelimiter(received: string, delimiter: char)
    requires 0 <= Find(received, [delimiter])
    ensures var (v, output) := GetlineOf(Open(received), "", delimiter);
            received == output + [delimiter] + v.rest && delimiter !in output
  {
    FindByte(received, delimiter);
  }

  /** `asio::read_until` into an empty buffer, which the connection may break off before the delimiter. */
  method ReadUntilOrBreak(conn: Connection, buf: StreamBuf, delimiter: char) returns (ec: ErrorCode)
    requires buf.limit == Unbounded && buf.bytes == ""
    modifies conn`incoming, conn`broken, buf
    ensures buf.bytes + conn.incoming == old(conn.incoming)
    ensures ec == Ok ==> 0 <= Find(buf.bytes, [delimiter])
    ensures ec != Ok && conn.broken == None ==> delimiter !in old(conn.incoming) && conn.incoming == ""
  {
    conn.MayBreak();
    if conn.broken.Some? {
      var n :| 0 <= n <= |conn.incoming|;
      buf.bytes, conn.incoming := conn.incoming[..n], conn.incoming[n..];
      return Other(conn.broken.value);
    }
    assert "" + conn.incoming == conn.incoming;
    FindByte(conn.incoming, delimiter);
    ec := ReadUntil(conn, buf, [delimiter]);
  }

  /**
   The delimited read: the bytes before the first delimiter, or an error, and then there was no delimiter
   or the connection is broken. What had been received after the delimiter is dropped with the local
   buffer, so the connection keeps some suffix of what follows.
   */
  method ReadFromSocketByDelimiter(conn: Connection, delimiter: char) returns (result: Option<string>)
    modifies conn`incoming, conn`broken
    ensures result.Some? ==>
              && delimiter !in result.value
              && exists dropped :: old(conn.incoming) == result.value + [delimiter] + dropped + conn.incoming
    ensures result.None? && conn.broken == None ==> delimiter !in old(conn.incoming) && conn.incoming == ""
    ensures result.None? ==> LostPart(old(conn.incoming), conn.incoming)
  {
    ghost var stream := conn.incoming;
    var buffer := new StreamBuf(Unbounded);
    var ec := ReadUntilOrBreak(conn, buffer, delimiter);
    ghost var received := buffer.bytes;
    if ec != Ok {
      assert conn.incoming == stream[|received|..];
      return None;
    }
    SplitAtDelimiter(received, delimiter);
    var input := new InputStream(buffer);
    var output := input.Getline("", delimiter);
    assert stream == received + conn.incoming;
    return Some(output);
  }

  /** `asio::write`, which the connection may break off. */
  method WriteOrBreak(conn: Connection, data: string) returns (ec: ErrorCode)
    modifies conn`outgoing, conn`broken
    ensures conn.broken == None ==> ec == Ok
    ensures old(conn.broken).Some? ==> conn.broken == old(conn.broken)
    ensures ec == Ok ==> conn.outgoing == old(conn.outgoing) + data
    ensures ec != Ok ==> conn.broken.Some? && SentPart(old(conn.outgoing), data, conn.outgoing)
  {
    conn.MayBreak();
    if conn.broken.Some? && data != "" {
      var k :| 0 <= k < |data|;
      conn.outgoing := conn.outgoing + data[..k];
      return Other(conn.broken.value);
    }
    WriteAll(conn, data);
    return Ok;
  }

  /** `asio::read` into an empty buffer: it ends with the stream, or the connection breaks. */
  method ReadAllOrBreak(conn: Connection, buf: StreamBuf) returns (ec: ErrorCode)
    requires buf.limit == Unbounded && buf.bytes == ""
    modifies conn`incoming, conn`broken, buf
    ensures conn.broken == None ==> ec == Eof
    ensures old(conn.broken).Some? ==> conn.broken == old(conn.broken)
    ensures ec == Eof ==> buf.bytes == old(conn.incoming) && conn.incoming == ""
    ensures ec != Eof ==> conn.broken.Some?
  {
    conn.MayBreak();
    if conn.broken.Some? {
      var n :| 0 <= n <= |conn.incoming|;
      buf.bytes, conn.incoming := conn.incoming[..n], conn.incoming[n..];
      return Other(conn.broken.value);
    }
    assert "" + conn.incoming == conn.incoming;
    ec := ReadAll(conn, buf);
  }

  method TakeFirstLine(buf: StreamBuf) returns (line: string)
    modifies buf
    ensures IsFirstLine(line, old(buf.bytes))
  {
    var input := new InputStream(buf);
    assert input.V() == Open(old(buf.bytes));
    line := input.Getline("", LF);
    FirstLineExactly(line, old(buf.bytes));
  }

  /**
   The asking half of an exchange: the whole request, the end of it, then the reply's first line; or an
   error, and then the connection is broken, and the end was told only if the request was sent whole.
   */
  method SendRequestAndGetReplay(conn: Connection, request: string) returns (line: Option<string>)
    modifies conn
    ensures conn.broken == None ==> line.Some?
    ensures line.Some? ==>
              && conn.outgoing == old(conn.outgoing) + request && conn.sendClosed
              && IsFirstLine(line.value, old(conn.incoming)) && conn.incoming == ""
    ensures line.None? ==>
              || (conn.outgoing == old(conn.outgoing) + request && conn.sendClosed)
              || (SentPart(old(conn.outgoing), request, conn.outgoing) && conn.sendClosed == old(conn.sendClosed))
  {
    var ec := WriteOrBreak(conn, request);
    if ec != Ok {
      return None;
    }
    conn.sendClosed := true;
    var response := new StreamBuf(Unbounded);
    ec := ReadAllOrBreak(conn, response);
    if ec != Eof {
      return None;
    }
    var output := TakeFirstLine(response);
    return Some(output);
  }

  /**
   The answering half: everything up to the end of the request, the whole reply, the end of it; or an
   error, and then the connection is broken, and nothing is sent unless the request was received whole.
   */
  method GetRequestAndSendReplay(conn: Connection, reply: string) returns (line: Option<string>)
    modifies conn
    ensures conn.broken == None ==> line.Some?
    ensures line.Some? ==>
              && conn.outgoing == old(conn.outgoing) + reply && conn.sendClosed
              && IsFirstLine(line.value, old(conn.incoming)) && conn.incoming == ""
    ensures line.None? ==>
              && conn.sendClosed == old(conn.sendClosed)
              && (conn.outgoing == old(conn.outgoing)
                  || (conn.incoming == "" && SentPart(old(conn.outgoing), reply, conn.outgoing)))
  {
    var request := new StreamBuf(Unbounded);
    var ec := ReadAllOrBreak(conn, request);
    if ec != Eof {
      return None;
    }
    ec := WriteOrBreak(conn, reply);
    if ec != Ok {
      return None;
    }
    conn.sendClosed := true;
    var output := TakeFirstLine(request);
    return Some(output);
  }

  // ------------------------------------------------------- a writer and a reader at once

  /**
   `WriteToSocket` of `source` at one end of a channel that holds at most `capacity` bytes while
   `ReadFromSocket` of `size` bytes runs at the other end.
   */
  datatype State = State(source: string, size: nat, capacity: nat, sent: nat, queue: string, got: string)

  /** One `write_some` or `read_some` that moves `n` bytes. */
  datatype Action = Write(n: nat) | Read(n: nat)

  predicate Enabled(st: State, action: Action) {
    match action
    case Write(n) => 1 <= n <= |st.source| - st.sent && |st.queue| + n <= st.capacity
    case Read(n) => 1 <= n <= |st.queue| && n <= st.size - |st.got|
  }

  function Do(st: State, action: Action): State
    requires Enabled(st, action)
  {
    match action
    case Write(n) => st.(sent := st.sent + n, queue := st.queue + st.source[st.sent..st.sent + n])
    case Read(n) => st.(queue := st.queue[n..], got := st.got + st.queue[..n])
  }

  function Init(source: string, size: nat, capacity: nat): State {
    State(source, size, capacity, 0, "", "")
  }

  ghost predicate Performs(st: State, action: Action, st': State) {
    Enabled(st, action) && st' == Do(st, action)
  }

  /** What was received and what is in flight is exactly what was sent, which is a prefix of the source. */
  ghost predicate Conserved(st: State) {
    && st.sent <= |st.source|
    && st.got + st.queue == st.source[..st.sent]
    && |st.queue| <= st.capacity
    && |st.got| <= st.size
  }

  lemma ActionConserves(st: State, action: Action)
    requires Conserved(st) && Enabled(st, action)
    ensures Conserved(Do(st, action))
  {
    match action {
      case Write(n) =>
        var more := st.source[st.sent..st.sent + n];
        assert st.got + (st.queue + more) == st.got + st.queue + more;
        assert st.source[..st.sent + n] == st.source[..st.sent] + more;
      case Read(n) =>
        assert st.queue == st.queue[..n] + st.queue[n..];
        assert st.got + st.queue[..n] + st.queue[n..] == st.got + st.queue;
    }
  }

  /** Over every run bytes are conserved, and every step moves at least one. */
  lemma {:induction false} NothingIsLost(source: string, size: nat, capacity: nat,
                                         actions: seq<Action>, states: seq<State>, n: nat)
    requires Run(Performs, Init(source, size, capacity), actions, states) && n <= |actions|
    ensures var st := states[n];
            && Conserved(st) && st.source == source && st.size == size && st.capacity == capacity
            && n <= st.sent + |st.got|
    decreases n
  {
    if n > 0 {
      NothingIsLost(source, size, capacity, actions, states, n - 1);
      assert Performs(states[n - 1], actions[n - 1], states[n]);
      ActionConserves(states[n - 1], actions[n - 1]);
    }
  }

  /** Neither loop can move a byte. */
  ghost predicate Stuck(st: State) {
    forall action :: !Enabled(st, action)
  }

  function Min(a: nat, b: nat): nat {
    if a <= b then a else b
  }

  /**
   Where any schedule ends: it is finite, the reader has the bytes it asked for or all there are, and the
   writer has sent everything unless the channel is full of bytes nobody reads.
   */
  lemma {:induction false} TransferOutcome(source: string, size: nat, capacity: nat,
                                           actions: seq<Action>, states: seq<State>)
    requires 1 <= capacity && Run(Performs, Init(source, size, capacity), actions, states)
    ensures |actions| <= |source| + size
    ensures var st := states[|actions|];
            Stuck(st) <==>
              && st.got == source[..Min(size, |source|)]
              && st.sent == Min(|source|, size + capacity)
  {
    var st := states[|actions|];
    NothingIsLost(source, size, capacity, actions, states, |actions|);
    assert |st.got| + |st.queue| == st.sent by {
      assert |st.got + st.queue| == |source[..st.sent]|;
    }
    assert st.got == source[..|st.got|] by {
      assert st.got == (st.got + st.queue)[..|st.got|];
    }
    if Stuck(st) {
      assert !Enabled(st, Write(1)) && !Enabled(st, Read(1));
    }
  }

  /**
   A write of N bytes interleaved with a read of N bytes ends, and it has ended exactly when the two
   buffers are equal.
   */
  lemma {:induction false} EqualBuffers(source: string, capacity: nat, actions: seq<Action>, states: seq<State>)
    requires 1 <= capacity && Run(Performs, Init(source, |source|, capacity), actions, states)
    ensures |actions| <= 2 * |source|
    ensures Stuck(states[|actions|]) <==> states[|actions|].got == source
  {
    var st := states[|actions|];
    NothingIsLost(source, |source|, capacity, actions, states, |actions|);
    TransferOutcome(source, |source|, capacity, actions, states);
    assert source[..|source|] == source;
    if st.got == source {
      assert |st.got + st.queue| == |source[..st.sent]|;
    }
  }
}
