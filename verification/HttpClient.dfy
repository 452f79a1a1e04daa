/**
 The HTTP client's side of the bytes: the request it prints and the handlers that take a response
 apart while it arrives, with cancellation between handlers; module `HttpCancellation` interleaves it.
 */
module HttpClient {
  import opened Errors
  import opened Text
  import opened Streams
  import opened HeaderFields

  // ---------------------------------------------------------------- specification

  /** The bytes of a request. */
  function RequestBytes(uri: string, host: string): string {
    RequestText(uri) + CRLF + (Block([HostLine(host)]) + CRLF)
  }

  function RequestText(uri: string): string {
    "GET" + " " + uri + " " + "HTTP/1.1"
  }

  function HostLine(host: string): string {
    FieldLine("Host", " " + host)
  }

  lemma RequestPieces(uri: string, host: string)
    ensures "" + ("GET " + uri + " HTTP/1.1\r\n") + ("Host: " + host + "\r\n") + "\r\n"
         == RequestBytes(uri, host)
  {
    assert "GET " + uri + " HTTP/1.1\r\n" == RequestText(uri) + CRLF;
    assert "Host: " + host + "\r\n" == Block([HostLine(host)]);
  }

  /** What the status-line handler makes of the bytes received so far. */
  datatype StatusLine = Malformed | Status(code: nat, message: string, rest: string)

  function TakeStatusLine(buffer: string): StatusLine {
    var (v1, version) := WordOf(Open(buffer), "");
    if version != "HTTP/1.1" then Malformed
    else
      var (v2, word) := WordOf(v1, "");
      match Stoul(word)
      case None => Malformed
      case Some(code) =>
        var (v3, message) := GetlineOf(v2, "", CR);
        Status(code, message, GetOf(v3).rest)
  }

  /** What the user's callback sees, or `Spinning` when the header loop never ends. */
  datatype Outcome =
    | Finished(ec: ErrorCode, code: nat, message: string, headers: Headers, body: string)
    | Spinning

  /** The outcome once the status line is taken; `k2` bytes of `rest` are there when headers are parsed. */
  function AfterStatusLine(code: nat, message: string, rest: string, k2: nat): Outcome
    requires k2 <= |rest|
  {
    if Find(rest, CRLFCRLF) < 0 then Finished(Eof, code, message, map[], rest)
    else
      match ClientFields(rest[..k2], map[])
      case Hung => Spinning
      case Done(headers, left) => Finished(Ok, code, message, headers, left + rest[k2..])
  }

  /**
   The outcome for a response `stream` ended by end of stream, when `k1` bytes had been received as
   the status line was parsed, and `k2` unread ones were there as the headers were.
   */
  function OutcomeHaving(stream: string, k1: nat, k2: nat): Outcome
    requires Fragmentation(stream, k1, k2)
  {
    if Find(stream, CRLF) < 0 then Finished(Eof, 0, "", map[], stream)
    else
      match TakeStatusLine(stream[..k1])
      case Malformed => Finished(InvalidResponse, 0, "", map[], "")
      case Status(code, message, rest) => AfterStatusLine(code, message, rest + stream[k1..], k2)
  }

  /** `k1` and `k2` are possible when each parse starts only after its delimiter has been received. */
  predicate Fragmentation(stream: string, k1: nat, k2: nat) {
    && k1 <= |stream|
    && (0 <= Find(stream, CRLF) ==>
          && 0 <= Find(stream[..k1], CRLF)
          && match TakeStatusLine(stream[..k1])
             case Malformed => true
             case Status(_, _, rest) =>
               var all := rest + stream[k1..];
               && |rest| <= k2 <= |all|
               && (0 <= Find(all, CRLFCRLF) ==> 0 <= Find(all[..k2], CRLFCRLF)))
  }

  // ------------------------------------------------------------- responses in general

  /** A response as a server prints it: status line, field lines, blank line, body. */
  function Response(code: string, reason: string, lines: seq<string>, body: string): string {
    StatusText(code, reason) + CRLF + (Block(lines) + CRLF + body)
  }

  function StatusText(code: string, reason: string): string {
    "HTTP/1.1" + " " + code + (" " + reason)
  }

  predicate WellFormed(code: string, reason: string, lines: seq<string>) {
    && IsWord(code) && Stoul(code).Some?
    && CR !in reason
    && PlainLines(lines)
  }

  lemma StatusTextIsCrFree(code: string, reason: string)
    requires IsWord(code) && CR !in reason
    ensures CR !in StatusText(code, reason)
  {
    assert forall c :: c in code ==> c != CR;
  }

  /** The status-line handler takes a status line apart and leaves exactly what follows it. */
  lemma TakesStatusLine(code: string, reason: string, tail: string)
    requires IsWord(code) && Stoul(code).Some? && CR !in reason
    ensures TakeStatusLine(StatusText(code, reason) + CRLF + tail)
         == Status(Stoul(code).value, " " + reason, tail)
  {
    Reassociate("HTTP/1.1" + " " + code, " " + reason, CRLF, tail);
    TakesVersionAndCode(" ", code, " " + reason + CRLF + tail);
    GetlineCrlf(" " + reason, tail);
  }

  lemma Reassociate(a: string, b: string, c: string, d: string)
    ensures a + b + c + d == a + (b + c + d)
  {
  }

  lemma TakesVersionAndCode(blank: string, code: string, after: string)
    requires blank != "" && forall i :: 0 <= i < |blank| ==> IsSpace(blank[i])
    requires IsWord(code) && Stoul(code).Some? && after != "" && IsSpace(after[0])
    ensures TakeStatusLine("HTTP/1.1" + blank + code + after)
         == (var (v, message) := GetlineOf(Open(after), "", CR);
             Status(Stoul(code).value, message, GetOf(v).rest))
  {
    assert IsWord("HTTP/1.1");
    TwoWordsApart("HTTP/1.1", blank, code, after);
  }

  /** Once its line break is in, a prefix of the stream holds the whole line and part of the tail. */
  lemma PrefixPastLine(line: string, tail: string, k: nat)
    requires CR !in line
    requires k <= |line + CRLF + tail| && 0 <= Find((line + CRLF + tail)[..k], CRLF)
    ensures var n := |line| + 2;
            && n <= k
            && (line + CRLF + tail)[..k] == line + CRLF + tail[..k - n]
            && (line + CRLF + tail)[k..] == tail[k - n..]
            && tail[..k - n] + tail[k - n..] == tail
  {
    var stream := line + CRLF + tail;
    FindCrlfAfter(line, tail);
    FindPrefix(stream[..k], stream, CRLF);
  }

  /** Whatever has been received when it is parsed, the status line is taken and nothing else. */
  lemma TakesStatusLineOfPrefix(code: string, reason: string, tail: string, k: nat)
    requires IsWord(code) && Stoul(code).Some? && CR !in reason
    requires var stream := StatusText(code, reason) + CRLF + tail;
             k <= |stream| && 0 <= Find(stream[..k], CRLF)
    ensures var stream := StatusText(code, reason) + CRLF + tail;
            && |stream| - k <= |tail|
            && TakeStatusLine(stream[..k])
               == Status(Stoul(code).value, " " + reason, tail[..|tail| - (|stream| - k)])
            && tail[..|tail| - (|stream| - k)] + stream[k..] == tail
  {
    var line := StatusText(code, reason);
    StatusTextIsCrFree(code, reason);
    PrefixPastLine(line, tail, k);
    TakesStatusLine(code, reason, tail[..k - |line| - 2]);
  }

  /** The blank line of a block of plain lines is found where the block ends, not later. */
  lemma {:induction false} BlankLineFound(lines: seq<string>, body: string)
    requires lines != [] && PlainLines(lines)
    ensures At(Block(lines) + CRLF + body, CRLFCRLF, |Block(lines)| - 2)
    ensures 0 <= Find(Block(lines) + CRLF + body, CRLFCRLF) <= |Block(lines)| - 2
    decreases lines
  {
    var all := Block(lines) + CRLF + body;
    if |lines| == 1 {
      assert Block(lines) == lines[0] + CRLF + Block([]);
      assert all[|lines[0]|..|lines[0]| + 4] == CRLFCRLF;
      assert At(all, CRLFCRLF, |lines[0]|);
    } else {
      var more := Block(lines[1..]) + CRLF + body;
      BlankLineFound(lines[1..], body);
      assert all == lines[0] + CRLF + more;
      var i := |Block(lines[1..])| - 2;
      LineInFront(lines[0], more);
      AtSuffix(all, |lines[0]| + 2, CRLFCRLF, i);
      assert |Block(lines)| - 2 == |lines[0]| + 2 + i;
    }
  }

  /** In a block of plain lines the first blank line is the one that ends the block. */
  lemma NoBlankLineInside(lines: seq<string>, body: string, k: nat)
    requires PlainLines(lines)
    requires k < |Block(lines)| + 2
    ensures Find((Block(lines) + CRLF + body)[..k], CRLFCRLF) < 0
  {
    var all := Block(lines) + CRLF;
    assert (all + body)[..k] == all[..k];
    forall j ensures !At(all[..k], CRLFCRLF, j) {
      if At(all[..k], CRLFCRLF, j) {
        AtPrefix(all[..k], all, CRLFCRLF, j);
        BlankLineOnlyAtEnd(lines, j);
      }
    }
  }

  lemma PlainBlockStart(lines: seq<string>)
    requires PlainLines(lines)
    ensures (Block(lines) + CRLF)[0] == CR <==> lines == []
  {
    if lines != [] {
      assert (Block(lines) + CRLF)[0] == lines[0][0];
      assert lines[0][0] in lines[0];
    }
  }

  /** Where a blank line can be when a plain line is in front. */
  lemma BlankLineAfterLine(line: string, more: string, j: nat)
    requires PlainLine(line) && more != "" && At(line + CRLF + more, CRLFCRLF, j)
    ensures (j == |line| && more[0] == CR) || (|line| + 2 <= j && At(more, CRLFCRLF, j - |line| - 2))
  {
    var all, n := line + CRLF + more, |line|;
    BlankLineBytes(all, j);
    LineInFront(line, more);
    assert forall t :: 0 <= t < n ==> line[t] in line;
    if n + 2 <= j {
      AtSuffix(all, n + 2, CRLFCRLF, j - n - 2);
    }
  }

  lemma {:induction false} BlankLineOnlyAtEnd(lines: seq<string>, j: int)
    requires PlainLines(lines)
    requires At(Block(lines) + CRLF, CRLFCRLF, j)
    ensures j == |Block(lines)| - 2
    decreases lines
  {
    if lines != [] {
      var more := Block(lines[1..]) + CRLF;
      assert Block(lines) + CRLF == lines[0] + CRLF + more;
      BlankLineAfterLine(lines[0], more, j);
      PlainBlockStart(lines[1..]);
      if j != |lines[0]| {
        BlankLineOnlyAtEnd(lines[1..], j - |lines[0]| - 2);
      }
    }
  }

  lemma LineInFront(line: string, more: string)
    requires more != ""
    ensures var all := line + CRLF + more;
            && (forall t :: 0 <= t < |line| ==> all[t] == line[t])
            && all[|line| + 1] == LF && all[|line| + 2] == more[0] && all[|line| + 2..] == more
  {
  }

  /**
   Round trip: for every well-formed response with at least one field line, every body and every
   fragmentation, the client finishes with success, having recovered the status code, the message,
   the fields and exactly the body.
   */
  lemma ClientRecoversResponse(code: string, reason: string, lines: seq<string>, body: string, k1: nat, k2: nat)
    requires WellFormed(code, reason, lines) && lines != []
    requires Fragmentation(Response(code, reason, lines, body), k1, k2)
    ensures OutcomeHaving(Response(code, reason, lines, body), k1, k2)
         == Finished(Ok, Stoul(code).value, " " + reason, Fold(map[], lines), body)
  {
    var stream := Response(code, reason, lines, body);
    var tail := Block(lines) + CRLF + body;
    StatusTextIsCrFree(code, reason);
    FindCrlfAfter(StatusText(code, reason), tail);
    TakesStatusLineOfPrefix(code, reason, tail, k1);
    var kept := tail[..|tail| - (|stream| - k1)];
    assert kept + stream[k1..] == tail;
    RecoversBlock(Stoul(code).value, " " + reason, lines, body, k2);
  }

  /** The headers and the body, however many bytes are there when the headers are parsed. */
  lemma RecoversBlock(code: nat, message: string, lines: seq<string>, body: string, k2: nat)
    requires PlainLines(lines) && lines != []
    requires var tail := Block(lines) + CRLF + body;
             k2 <= |tail| && (0 <= Find(tail, CRLFCRLF) ==> 0 <= Find(tail[..k2], CRLFCRLF))
    ensures AfterStatusLine(code, message, Block(lines) + CRLF + body, k2)
         == Finished(Ok, code, message, Fold(map[], lines), body)
  {
    var block := Block(lines) + CRLF;
    var tail := block + body;
    BlankLineFound(lines, body);
    assert |block| <= k2 by {
      if k2 < |block| {
        NoBlankLineInside(lines, body, k2);
      }
    }
    CutInBody(block, body, k2);
    ClientLoopOnBlock(lines, body[..k2 - |block|], map[]);
  }

  lemma CutInBody(block: string, body: string, k: nat)
    requires |block| <= k <= |block + body|
    ensures (block + body)[..k] == block + body[..k - |block|]
    ensures body[..k - |block|] + (block + body)[k..] == body
  {
  }

  /** The body itself supplies the half of the blank line that is missing after a status line. */
  ghost predicate CompletesBlankLine(body: string) {
    CRLF <= body || exists i :: At(body, CRLFCRLF, i)
  }

  lemma {:induction false} CompletesExactly(body: string)
    ensures CompletesBlankLine(body) <==> 0 <= Find(CRLF + body, CRLFCRLF)
  {
    var tail := CRLF + body;
    assert tail[2..] == body;
    if CRLF <= body {
      assert tail[..4] == CRLFCRLF && At(tail, CRLFCRLF, 0);
    } else if exists i :: At(body, CRLFCRLF, i) {
      var i :| At(body, CRLFCRLF, i);
      AtSuffix(tail, 2, CRLFCRLF, i);
    }
    var j := Find(tail, CRLFCRLF);
    if 0 <= j {
      BlankLineBytes(tail, j);
      if j == 0 {
        assert body[0] == tail[2] == CR && body[1] == tail[3] == LF;
        assert body[..2] == CRLF;
      } else {
        assert tail[1] == LF;
        AtSuffix(tail, 2, CRLFCRLF, j - 2);
      }
    }
  }

  /** What is left of the response when a status line without field lines has been taken. */
  lemma RecoversNoFields(code: nat, message: string, body: string, k2: nat)
    requires var tail := CRLF + body;
             k2 <= |tail| && (0 <= Find(tail, CRLFCRLF) ==> 0 <= Find(tail[..k2], CRLFCRLF))
    ensures AfterStatusLine(code, message, CRLF + body, k2)
         == if CompletesBlankLine(body) then Finished(Ok, code, message, map[], body)
            else Finished(Eof, code, message, map[], CRLF + body)
  {
    var tail := CRLF + body;
    CompletesExactly(body);
    if 0 <= Find(tail, CRLFCRLF) {
      var early := body[..k2 - 2];
      assert tail[..k2] == Block([]) + CRLF + early;
      ClientLoopOnBlock([], early, map[]);
      assert early + tail[k2..] == body;
    }
  }

  /**
   Without field lines the blank line is already half consumed when it is searched for: the client
   stores the status and then either reports the end of the stream or, when the body supplies the
   other half, breaks out of the header loop at once and succeeds with exactly the body.
   */
  lemma ClientNeedsAField(code: string, reason: string, body: string, k1: nat, k2: nat)
    requires WellFormed(code, reason, [])
    requires Fragmentation(Response(code, reason, [], body), k1, k2)
    ensures OutcomeHaving(Response(code, reason, [], body), k1, k2)
         == if CompletesBlankLine(body) then Finished(Ok, Stoul(code).value, " " + reason, map[], body)
            else Finished(Eof, Stoul(code).value, " " + reason, map[], CRLF + body)
  {
    var stream := Response(code, reason, [], body);
    var tail := CRLF + body;
    assert Block([]) + CRLF + body == tail;
    StatusTextIsCrFree(code, reason);
    FindCrlfAfter(StatusText(code, reason), tail);
    TakesStatusLineOfPrefix(code, reason, tail, k1);
    var kept := tail[..|tail| - (|stream| - k1)];
    assert kept + stream[k1..] == tail;
    RecoversNoFields(Stoul(code).value, " " + reason, body, k2);
  }

  /** With no body either there is nothing to complete the blank line. */
  lemma NoFieldsNoBody(code: string, reason: string, k1: nat, k2: nat)
    requires WellFormed(code, reason, [])
    requires Fragmentation(Response(code, reason, [], ""), k1, k2)
    ensures OutcomeHaving(Response(code, reason, [], ""), k1, k2)
         == Finished(Eof, Stoul(code).value, " " + reason, map[], CRLF)
  {
    ClientNeedsAField(code, reason, "", k1, k2);
    assert CRLF + "" == CRLF;
  }

  /**
   The exact acceptance condition: under every fragmentation a well-formed response is recovered, with
   success, if and only if it has a field line or its body completes the blank line.
   */
  lemma ClientRecoversExactly(code: string, reason: string, lines: seq<string>, body: string, k1: nat, k2: nat)
    requires WellFormed(code, reason, lines)
    requires Fragmentation(Response(code, reason, lines, body), k1, k2)
    ensures OutcomeHaving(Response(code, reason, lines, body), k1, k2)
         == Finished(Ok, Stoul(code).value, " " + reason, Fold(map[], lines), body)
       <==> lines != [] || CompletesBlankLine(body)
  {
    if lines == [] {
      ClientNeedsAField(code, reason, body, k1, k2);
    } else {
      ClientRecoversResponse(code, reason, lines, body, k1, k2);
    }
  }

  /** Once the status line has been taken, everything else may be received before the headers are parsed. */
  lemma RestAtOnce(stream: string, k1: nat) returns (k2: nat)
    requires k1 <= |stream| && (0 <= Find(stream, CRLF) ==> 0 <= Find(stream[..k1], CRLF))
    ensures Fragmentation(stream, k1, k2)
  {
    k2 := 0;
    var taken := TakeStatusLine(stream[..k1]);
    if taken.Status? {
      var all := taken.rest + stream[k1..];
      k2 := |all|;
      assert all[..k2] == all;
    }
  }

  /**
   Such responses are there: whatever the code and the reason, one without field lines whose body starts
   with a line break is accepted, with that break in the body.
   */
  lemma HeaderlessAccepted(code: string, reason: string, more: string) returns (k1: nat, k2: nat)
    requires WellFormed(code, reason, [])
    ensures var stream := Response(code, reason, [], CRLF + more);
            && Fragmentation(stream, k1, k2)
            && OutcomeHaving(stream, k1, k2) == Finished(Ok, Stoul(code).value, " " + reason, map[], CRLF + more)
  {
    var body := CRLF + more;
    var stream := Response(code, reason, [], body);
    k1 := |stream|;
    assert stream[..k1] == stream;
    k2 := RestAtOnce(stream, k1);
    assert CRLF <= body;
    ClientNeedsAField(code, reason, body, k1, k2);
  }

  // ------------------------------------------------------------------ the handler object

  datatype Operation = Resolve | Connect | WriteRequest | ReadStatusLine | ReadHeaders | ReadBody

  class Request {
    const conn: Connection
    const uri: string
    const host: string
    const responseBuf: StreamBuf
    var requestBuf: string
    var statusCode: nat
    var statusMessage: string
    var headers: Headers
    var wasCancelled: bool
    var pending: Option<Operation>
    /** The error codes the callback has been called with. */
    var callbacks: seq<ErrorCode>
    /** The header loop is running and will never end. */
    var spinning: bool

    /** One operation is outstanding until the callback has been called, once; a spinning handler does neither. */
    ghost predicate Valid()
      reads this, responseBuf
    {
      && responseBuf.limit == Unbounded
      && |callbacks| + (if pending.Some? then 1 else 0) + (if spinning then 1 else 0) <= 1
      && (pending == Some(Resolve) || pending == Some(Connect) ==> requestBuf == "")
      && (pending == Some(WriteRequest) ==> requestBuf == RequestBytes(uri, host))
      && (pending.Some? && !pending.value.ReadHeaders? && !pending.value.ReadBody? ==>
            statusCode == 0 && statusMessage == "")
      && (pending.Some? && !pending.value.ReadBody? ==> headers == map[])
    }

    /** How many operations are still to complete at most. */
    ghost function Remaining(): nat
      reads this
    {
      match pending
      case None => 0
      case Some(Resolve) => 6
      case Some(Connect) => 5
      case Some(WriteRequest) => 4
      case Some(ReadStatusLine) => 3
      case Some(ReadHeaders) => 2
      case Some(ReadBody) => 1
    }

    /** After a handler: an operation nearer to the end is outstanding, or the request is over. */
    ghost predicate Advanced(remaining: nat, ec: ErrorCode)
      reads this
    {
      if pending.Some? then Remaining() < remaining && !wasCancelled && ec == Ok
      else (|callbacks| == 1 || spinning) && (callbacks == [Ok] ==> remaining == 1)
    }

    /** Nothing has been parsed yet. */
    ghost predicate Unparsed()
      reads this
    {
      statusCode == 0 && statusMessage == "" && headers == map[]
    }

    ghost predicate CalledBack(ec: ErrorCode)
      reads this
    {
      callbacks == [ec] && pending == None && !spinning
    }

    constructor (conn: Connection, uri: string, host: string)
      ensures Valid() && fresh(responseBuf) && responseBuf.bytes == ""
      ensures this.conn == conn && this.uri == uri && this.host == host
      ensures pending == None && callbacks == [] && !spinning && requestBuf == ""
      ensures Unparsed() && !wasCancelled
    {
      this.conn, this.uri, this.host := conn, uri, host;
      this.responseBuf := new StreamBuf(Unbounded);
      this.requestBuf, this.statusCode, this.statusMessage, this.headers := "", 0, "", map[];
      this.pending, this.callbacks, this.spinning, this.wasCancelled := None, [], false, false;
    }

    /** The caller's `execute()`: unless the request is cancelled already, the name is resolved. */
    method Execute()
      requires Valid() && pending == None && callbacks == [] && !spinning && requestBuf == "" && Unparsed()
      modifies this`pending, this`callbacks
      ensures Valid()
      ensures if wasCancelled then CalledBack(Aborted) else pending == Some(Resolve) && callbacks == []
    {
      if wasCancelled {
        OnFinish(Aborted);
        return;
      }
      pending := Some(Resolve);
    }

    method Cancel()
      requires Valid()
      modifies this`wasCancelled
      ensures Valid() && wasCancelled
    {
      wasCancelled := true;
    }

    method OnHostNameResolved(ec: ErrorCode)
      requires Valid() && pending == Some(Resolve)
      modifies this`pending, this`callbacks
      ensures Valid()
      ensures ec != Ok ==> CalledBack(ec)
      ensures ec == Ok ==> if wasCancelled then CalledBack(Aborted) else pending == Some(Connect) && callbacks == []
    {
      pending := None;
      if ec != Ok {
        OnFinish(ec);
        return;
      }
      if wasCancelled {
        OnFinish(Aborted);
        return;
      }
      pending := Some(Connect);
    }

    method OnConnectionEstablished(ec: ErrorCode)
      requires Valid() && pending == Some(Connect)
      modifies this`requestBuf, this`pending, this`callbacks
      ensures Valid()
      ensures ec != Ok ==> CalledBack(ec) && requestBuf == ""
      ensures ec == Ok ==>
                && requestBuf == RequestBytes(uri, host)
                && if wasCancelled then CalledBack(Aborted) else pending == Some(WriteRequest) && callbacks == []
    {
      pending := None;
      if ec != Ok {
        OnFinish(ec);
        return;
      }
      requestBuf := requestBuf + ("GET " + uri + " HTTP/1.1\r\n");
      requestBuf := requestBuf + ("Host: " + host + "\r\n");
      requestBuf := requestBuf + "\r\n";
      RequestPieces(uri, host);
      if wasCancelled {
        OnFinish(Aborted);
        return;
      }
      pending := Some(WriteRequest);
    }

    method OnRequestSent(ec: ErrorCode)
      requires Valid() && pending == Some(WriteRequest)
      modifies this`pending, this`callbacks, conn`sendClosed
      ensures Valid()
      ensures ec != Ok ==> CalledBack(ec)
      ensures ec == Ok ==>
                && conn.sendClosed
                && if wasCancelled then CalledBack(Aborted) else pending == Some(ReadStatusLine) && callbacks == []
    {
      pending := None;
      if ec != Ok {
        OnFinish(ec);
        return;
      }
      conn.sendClosed := true;
      if wasCancelled {
        OnFinish(Aborted);
        return;
      }
      pending := Some(ReadStatusLine);
    }

    /** The status line has been taken, or rejected, and the handler has gone on accordingly. */
    ghost predicate WentOn(taken: StatusLine)
      reads this, responseBuf
    {
      match taken
      case Malformed => CalledBack(InvalidResponse) && Unparsed()
      case Status(code, message, rest) =>
        && statusCode == code && statusMessage == message && responseBuf.bytes == rest && headers == map[]
        && if wasCancelled then CalledBack(Aborted) else pending == Some(ReadHeaders) && callbacks == []
    }

    method OnStatusLineReceived(ec: ErrorCode)
      requires Valid() && pending == Some(ReadStatusLine)
      modifies this`statusCode, this`statusMessage, this`pending, this`callbacks, responseBuf
      ensures Valid()
      ensures Advanced(3, ec)
      ensures ec != Ok ==> CalledBack(ec) && responseBuf.bytes == old(responseBuf.bytes) && Unparsed()
      ensures ec == Ok ==> WentOn(TakeStatusLine(old(responseBuf.bytes)))
    {
      pending := None;
      if ec != Ok {
        OnFinish(ec);
        return;
      }
      TakeStatus(old(responseBuf.bytes));
    }

    method TakeStatus(ghost bytes: string)
      requires bytes == responseBuf.bytes
      requires responseBuf.limit == Unbounded && pending == None && callbacks == [] && !spinning && Unparsed()
      modifies this`statusCode, this`statusMessage, this`pending, this`callbacks, responseBuf
      ensures Valid() && Advanced(3, Ok)
      ensures WentOn(TakeStatusLine(bytes))
    {
      var taken := ParseStatusLine();
      ActOnStatus(taken);
    }

    method ActOnStatus(taken: StatusLine)
      requires responseBuf.limit == Unbounded && pending == None && callbacks == [] && !spinning && headers == map[]
      requires taken.Status? ==> taken == Status(statusCode, statusMessage, responseBuf.bytes)
      requires taken.Malformed? ==> Unparsed()
      modifies this`pending, this`callbacks
      ensures Valid() && Advanced(3, Ok) && WentOn(taken)
    {
      if taken.Malformed? {
        OnFinish(InvalidResponse);
        return;
      }
      if wasCancelled {
        OnFinish(Aborted);
        return;
      }
      pending := Some(ReadHeaders);
    }

    method ParseStatusLine() returns (taken: StatusLine)
      modifies this`statusCode, this`statusMessage, responseBuf
      ensures taken == TakeStatusLine(old(responseBuf.bytes))
      ensures taken.Status? ==> taken == Status(statusCode, statusMessage, responseBuf.bytes)
      ensures taken.Malformed? ==> statusCode == old(statusCode) && statusMessage == old(statusMessage)
    {
      var responseStream := new InputStream(responseBuf);
      var version := responseStream.Word("");
      if version != "HTTP/1.1" {
        return Malformed;
      }
      var word := responseStream.Word("");
      var code := Stoul(word);
      if code == None {
        return Malformed;
      }
      var message := responseStream.Getline("", CR);
      responseStream.Get();
      statusCode, statusMessage := code.value, message;
      return Status(code.value, message, responseBuf.bytes);
    }

    method OnHeadersReceived(ec: ErrorCode)
      requires Valid() && pending == Some(ReadHeaders)
      modifies this`headers, this`pending, this`callbacks, this`spinning, responseBuf
      ensures Valid() && Advanced(2, ec)
      ensures ec != Ok ==> CalledBack(ec) && responseBuf.bytes == old(responseBuf.bytes) && headers == map[]
      ensures ec == Ok ==>
                match ClientFields(old(responseBuf.bytes), map[])
                case Hung => spinning && callbacks == [] && pending == None
                case Done(m, rest) =>
                  && headers == m && responseBuf.bytes == rest && !spinning
                  && if wasCancelled then CalledBack(Aborted) else pending == Some(ReadBody) && callbacks == []
    {
      pending := None;
      if ec != Ok {
        OnFinish(ec);
        return;
      }
      var finished := ParseHeaders();
      if !finished {
        spinning := true;
        return;
      }
      if wasCancelled {
        OnFinish(Aborted);
        return;
      }
      pending := Some(ReadBody);
    }

    /**
     The header loop. It is cut short, with `finished` false, in a pass that leaves the stream failed
     and the header non-empty: no later pass changes either, so the original goes on for ever.
     */
    method ParseHeaders() returns (finished: bool)
      modifies this`headers, responseBuf
      ensures match ClientFields(old(responseBuf.bytes), old(headers))
              case Hung => !finished
              case Done(m, rest) => finished && headers == m && responseBuf.bytes == rest
    {
      var responseStream := new InputStream(responseBuf);
      var header := "";
      while true
        invariant responseStream.buf == responseBuf && fresh(responseStream)
        invariant responseStream.V().Good()
        invariant ClientFields(responseBuf.bytes, headers) == ClientFields(old(responseBuf.bytes), old(headers))
        modifies this`headers, responseBuf, responseStream
        decreases |responseBuf.bytes|
      {
        ghost var before := responseBuf.bytes;
        ghost var p := Find(before, "\r");
        ghost var m := headers;
        if 0 < p && p + 1 < |before| {
          GoodPass(before, header, m);
        } else {
          LastPass(before, header, m);
        }
        ghost var pass := Iteration(LoopState(responseStream.V(), header, m));
        header := responseStream.Getline(header, CR);
        responseStream.Get();
        assert responseStream.V() == pass.v && header == pass.header;
        if header == "" {
          return true;
        }
        StoreHeader(header);
        assert headers == pass.m;
        if responseStream.eof || responseStream.fail {
          return false;
        }
      }
    }

    /** A line with a colon in it is a field. */
    method StoreHeader(header: string)
      modifies this`headers
      ensures headers == AddLine(old(headers), header)
    {
      var separator := Find(header, ":");
      if 0 <= separator {
        var name := header[..separator];
        var value := "";
        if separator < |header| - 1 {
          value := header[separator + 1..];
        }
        AddHeader(name, value);
      }
    }

    method AddHeader(name: string, value: string)
      modifies this`headers
      ensures headers == old(headers)[name := value]
    {
      headers := headers[name := value];
    }

    method OnResponseBodyReceived(ec: ErrorCode)
      requires Valid() && pending == Some(ReadBody)
      modifies this`pending, this`callbacks
      ensures Valid() && Advanced(1, ec)
      ensures CalledBack(if ec == Eof then Ok else ec)
    {
      pending := None;
      if ec == Eof {
        OnFinish(Ok);
      } else {
        OnFinish(ec);
      }
    }

    method OnFinish(ec: ErrorCode)
      requires callbacks == []
      modifies this`callbacks
      ensures callbacks == [ec]
    {
      callbacks := callbacks + [ec];
    }

    method CompleteSending(ec: ErrorCode)
      requires Valid() && 4 <= Remaining()
      modifies this`requestBuf, this`pending, this`callbacks, conn`sendClosed
      ensures Valid() && Advanced(old(Remaining()), ec)
    {
      match pending.value
      case Resolve => OnHostNameResolved(ec);
      case Connect => OnConnectionEstablished(ec);
      case WriteRequest => OnRequestSent(ec);
    }

    method CompleteReading(ec: ErrorCode)
      requires Valid() && 0 < Remaining() < 4
      modifies this`statusCode, this`statusMessage, this`headers, this`pending, this`callbacks, this`spinning
      modifies responseBuf
      ensures Valid() && Advanced(old(Remaining()), ec)
    {
      if pending == Some(ReadStatusLine) {
        OnStatusLineReceived(ec);
      } else if pending == Some(ReadHeaders) {
        OnHeadersReceived(ec);
      } else {
        OnResponseBodyReceived(ec);
      }
    }

    /** The outstanding operation completes, with any error code at all. */
    method Complete(ec: ErrorCode)
      requires Valid() && pending.Some?
      modifies this, responseBuf, conn`sendClosed
      ensures Valid() && wasCancelled == old(wasCancelled)
      ensures Advanced(old(Remaining()), ec)
    {
      if pending.value.Resolve? || pending.value.Connect? || pending.value.WriteRequest? {
        CompleteSending(ec);
      } else {
        CompleteReading(ec);
      }
    }

    /** What the callback's caller can see of the finished request. */
    ghost predicate Shows(outcome: Outcome)
      reads this, responseBuf
    {
      match outcome
      case Spinning => spinning && callbacks == []
      case Finished(ec, code, message, m, body) =>
        && CalledBack(ec) && statusCode == code && statusMessage == message && headers == m
        && (ec != InvalidResponse ==> responseBuf.bytes == body)
    }
  }

  /** The read of the status line and its handler. */
  method ReceiveStatusLine(conn: Connection, request: Request) returns (ghost k1: nat)
    requires request.Valid() && request.pending == Some(ReadStatusLine) && !request.wasCancelled
    requires request.responseBuf.bytes == ""
    modifies conn`incoming, request, request.responseBuf
    ensures request.Valid()
    ensures var stream := old(conn.incoming);
            && k1 <= |stream|
            && (Find(stream, CRLF) < 0 ==> request.Shows(Finished(Eof, 0, "", map[], stream)))
            && (0 <= Find(stream, CRLF) ==>
                  && 0 <= Find(stream[..k1], CRLF)
                  && match TakeStatusLine(stream[..k1])
                     case Malformed => request.Shows(Finished(InvalidResponse, 0, "", map[], ""))
                     case Status(code, message, rest) =>
                       && request.pending == Some(ReadHeaders) && request.headers == map[] && !request.wasCancelled
                       && request.statusCode == code && request.statusMessage == message
                       && request.responseBuf.bytes == rest && conn.incoming == stream[k1..])
  {
    ghost var stream := conn.incoming;
    var ec := ReadUntil(conn, request.responseBuf, CRLF);
    k1 := |request.responseBuf.bytes|;
    assert "" + stream == stream;
    assert request.responseBuf.bytes == stream[..k1] && conn.incoming == stream[k1..];
    request.OnStatusLineReceived(ec);
  }

  /** The reads of the headers and the body, and their handlers. */
  method ReceiveRest(conn: Connection, request: Request) returns (ghost k2: nat)
    requires request.Valid() && request.pending == Some(ReadHeaders) && request.headers == map[]
    requires !request.wasCancelled
    modifies conn`incoming, request, request.responseBuf
    ensures var rest := old(request.responseBuf.bytes + conn.incoming);
            && old(|request.responseBuf.bytes|) <= k2 <= |rest|
            && (0 <= Find(rest, CRLFCRLF) ==> 0 <= Find(rest[..k2], CRLFCRLF))
            && request.Shows(AfterStatusLine(old(request.statusCode), old(request.statusMessage), rest, k2))
  {
    ghost var rest := request.responseBuf.bytes + conn.incoming;
    var ec := ReadUntil(conn, request.responseBuf, CRLFCRLF);
    k2 := |request.responseBuf.bytes|;
    assert request.responseBuf.bytes == rest[..k2] && conn.incoming == rest[k2..];
    request.OnHeadersReceived(ec);
    if request.pending == Some(ReadBody) {
      ec := ReadAll(conn, request.responseBuf);
      request.OnResponseBodyReceived(ec);
    }
  }

  /**
   One request without transport errors or cancellation. The request sent is `RequestBytes`; whatever
   the fragmentation of the response, the callback sees the outcome for some amounts `k1` and `k2`
   received as the two parses started.
   */
  method Fetch(conn: Connection, uri: string, host: string)
    returns (request: Request, ghost k1: nat, ghost k2: nat)
    modifies conn
    ensures conn.outgoing == old(conn.outgoing) + RequestBytes(uri, host) && conn.sendClosed
    ensures Fragmentation(old(conn.incoming), k1, k2)
    ensures request.Shows(OutcomeHaving(old(conn.incoming), k1, k2))
  {
    request := new Request(conn, uri, host);
    request.Execute();
    request.OnHostNameResolved(Ok);
    request.OnConnectionEstablished(Ok);
    WriteAll(conn, request.requestBuf);
    request.OnRequestSent(Ok);
    k1 := ReceiveStatusLine(conn, request);
    k2 := 0;
    if request.pending == Some(ReadHeaders) {
      k2 := ReceiveRest(conn, request);
    }
  }

  /**
   Whatever the operations report and the peer sends, and whenever `cancel()` is called between two
   handlers, the callback is called exactly once, unless the header loop never ends; and it reports
   success only if every cancellation came after the read of the body had begun.
   */
  method RunWithAnyErrors(conn: Connection, uri: string, host: string)
    returns (request: Request, cancelledBeforeBody: bool)
    modifies conn
    ensures request.pending == None && (request.spinning <==> |request.callbacks| == 0)
    ensures |request.callbacks| <= 1
    ensures cancelledBeforeBody ==> request.callbacks != [Ok]
  {
    request := new Request(conn, uri, host);
    cancelledBeforeBody := *;
    if cancelledBeforeBody {
      request.Cancel();
    }
    request.Execute();
    while request.pending.Some?
      invariant request.Valid() && fresh(request) && fresh(request.responseBuf)
      invariant request.conn == conn
      invariant request.pending.Some? || |request.callbacks| == 1 || request.spinning
      invariant cancelledBeforeBody ==> request.wasCancelled && request.pending != Some(ReadBody)
      invariant cancelledBeforeBody ==> request.callbacks != [Ok]
      invariant request.pending.Some? ==> request.callbacks == []
      decreases request.Remaining()
    {
      var cancelNow: bool := *;
      if cancelNow {
        cancelledBeforeBody := cancelledBeforeBody || request.pending != Some(ReadBody);
        request.Cancel();
      }
      request.responseBuf.bytes := *;
      var ec: ErrorCode := *;
      request.Complete(ec);
    }
  }
}
