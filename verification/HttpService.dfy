/**
 The HTTP server's connection handler: a bounded read up to the request line, the status decision, a
 bounded read up to the blank line, the header loop, and one reply.
 */
module HttpService {
  import opened Errors
  import opened Text
  import opened Streams
  import opened HeaderFields

  const REQUEST_LIMIT := 4096

  /** `http_status_table`; each text is the code, a blank and the reason phrase. */
  const STATUS_TABLE: map<nat, string> := map[
    200 := "200" + " " + "OK",
    404 := "404" + " " + "Not Found",
    413 := "413" + " " + "Request Entity Too Large",
    500 := "500" + " " + "Server Error",
    501 := "501" + " " + "Not Implemented",
    505 := "505" + " " + "HTTP Version Not Supported"
  ]

  /** The file system, seen through the server's three questions. */
  datatype FileState = Missing | Unreadable | File(bytes: string)

  type FileSystem = string -> FileState

  // ---------------------------------------------------------------- specification

  datatype RequestLine = NotGet | BadVersion | Get(resource: string)

  /** What the three `>>` reads make of the request line. */
  function JudgeLine(line: string): RequestLine {
    var (v1, verb) := WordOf(Open(line), "");
    if verb != "GET" then NotGet
    else
      var (v2, resource) := WordOf(v1, "");
      var (_, version) := WordOf(v2, "");
      if version != "HTTP/1.1" then BadVersion else Get(resource)
  }

  /** The verdict on the first line of `buffer`, and the bytes left unread. */
  function TakeRequestLine(buffer: string): (RequestLine, string) {
    var (v, line) := GetlineOf(Open(buffer), "", CR);
    (JudgeLine(line), GetOf(v).rest)
  }

  datatype Decision = Drop | TooLarge | NotImplemented | VersionNotSupported | Serve(resource: string)

  /** The decision once the request line has been taken, `rest` being all bytes after it. */
  function DecideAfterLine(line: RequestLine, rest: string): Decision {
    match line
    case NotGet => NotImplemented
    case BadVersion => VersionNotSupported
    case Get(resource) =>
      match ReadUntilOutcome(rest, CRLFCRLF, AtMost(REQUEST_LIMIT))
      case Ok => Serve(resource)
      case NotFound => TooLarge
      case _ => Drop
  }

  /** The decision as a function of the peer's whole byte stream, ended by end of stream. */
  function Decide(stream: string): Decision {
    match ReadUntilOutcome(stream, CRLF, AtMost(REQUEST_LIMIT))
    case Ok => var (line, rest) := TakeRequestLine(stream); DecideAfterLine(line, rest)
    case NotFound => TooLarge
    case _ => Drop
  }

  /** The decision of a run in which `k` bytes had been received when the request line was parsed. */
  function DecideHaving(stream: string, k: nat): Decision
    requires k <= |stream|
  {
    match ReadUntilOutcome(stream, CRLF, AtMost(REQUEST_LIMIT))
    case Ok =>
      var (line, rest) := TakeRequestLine(stream[..k]);
      DecideAfterLine(line, rest + stream[k..])
    case NotFound => TooLarge
    case _ => Drop
  }

  function Path(resource: string): string {
    "sample" + resource
  }

  function StatusOf(d: Decision, fs: FileSystem): (status: nat)
    requires !d.Drop?
    ensures status in STATUS_TABLE
    ensures status == 200 <==> d.Serve? && fs("sample" + d.resource).File?
  {
    match d
    case TooLarge => 413
    case NotImplemented => 501
    case VersionNotSupported => 505
    case Serve(resource) =>
      match fs(Path(resource))
      case Missing => 404
      case Unreadable => 500
      case File(_) => 200
  }

  function BodyOf(d: Decision, fs: FileSystem): string {
    if d.Serve? && fs(Path(d.resource)).File? then fs(Path(d.resource)).bytes else ""
  }

  /** The field lines of a reply: a length for status 200, none otherwise. */
  function ReplyFields(status: nat, body: string): seq<string> {
    if status == 200 then [FieldLine("content-length", " " + Decimal(|body|))] else []
  }

  function StatusLine(status: nat): string
    requires status in STATUS_TABLE
  {
    "HTTP/1.1 " + STATUS_TABLE[status] + CRLF
  }

  /** The bytes of a reply. */
  function Reply(status: nat, body: string): string
    requires status in STATUS_TABLE
  {
    StatusLine(status) + (Block(ReplyFields(status, body)) + CRLF) + body
  }

  /** The bytes the peer gets for its stream: a reply, or nothing when the connection is dropped. */
  function Answer(stream: string, fs: FileSystem): string {
    var d := Decide(stream);
    if d.Drop? then "" else Reply(StatusOf(d, fs), BodyOf(d, fs))
  }

  /** A reply handed to a write: the status and the body it was made for, and its bytes. */
  datatype Sent = Sent(status: nat, body: string, bytes: string)

  /** The status is in the table, and there is a length, that of the body, if and only if it is 200. */
  predicate Proper(sent: Sent) {
    && sent.status in STATUS_TABLE
    && (sent.status != 200 ==> sent.body == "")
    && sent.bytes == "HTTP/1.1 " + STATUS_TABLE[sent.status] + CRLF
                     + (if sent.status == 200 then "content-length: " + Decimal(|sent.body|) + CRLF else "")
                     + CRLF + sent.body
  }

  lemma ReplyIsProper(status: nat, body: string)
    requires status in STATUS_TABLE && (status != 200 ==> body == "")
    ensures Proper(Sent(status, body, Reply(status, body)))
  {
    if status == 200 {
      var length := Decimal(|body|);
      assert ReplyFields(status, body) == [FieldLine("content-length", " " + length)];
      assert Block(ReplyFields(status, body)) == FieldLine("content-length", " " + length) + CRLF + Block([]);
      assert FieldLine("content-length", " " + length) == "content-length: " + length;
    }
  }

  // --------------------------------------------------------- fragmentation independence

  /** A buffer with a line break in it has a first CR with a byte after it. */
  lemma FirstCr(buffer: string)
    requires 0 <= Find(buffer, CRLF)
    ensures 0 <= Find(buffer, [CR]) && Find(buffer, [CR]) + 1 < |buffer|
  {
    var i := Find(buffer, CRLF);
    assert buffer[i] == buffer[i..i + 2][0] == CR;
    FindByte(buffer, CR);
    var p := Find(buffer, [CR]);
    assert forall t :: 0 <= t < p ==> buffer[..p][t] == buffer[t];
  }

  /** Taking the request line cuts the buffer at its first CR. */
  lemma TakeAtCr(buffer: string)
    requires 0 <= Find(buffer, [CR]) && Find(buffer, [CR]) + 1 < |buffer|
    ensures var p := Find(buffer, [CR]);
            TakeRequestLine(buffer) == (JudgeLine(buffer[..p]), buffer[p + 2..])
  {
    var p := Find(buffer, [CR]);
    assert buffer[p + 1..][1..] == buffer[p + 2..];
  }

  /** Over-reading past the request line changes neither the verdict nor what follows the line. */
  lemma RequestLineOfPrefix(stream: string, k: nat)
    requires k <= |stream| && 0 <= Find(stream[..k], CRLF)
    ensures var (line, rest) := TakeRequestLine(stream[..k]);
            TakeRequestLine(stream) == (line, rest + stream[k..])
  {
    var buffer := stream[..k];
    FirstCr(buffer);
    TakeAtCr(buffer);
    FindPrefix(buffer, stream, [CR]);
    TakeAtCr(stream);
    var p := Find(buffer, [CR]);
    assert buffer[..p] == stream[..p];
    assert buffer[p + 2..] + stream[k..] == stream[p + 2..];
  }

  /**
   The decision is a function of the peer's whole stream alone, however many bytes the read of the
   request line happened to receive.
   */
  lemma DecisionIgnoresFragmentation(stream: string, k: nat)
    requires k <= |stream|
    requires 0 <= Find(stream[..k], CRLF) || ReadUntilOutcome(stream, CRLF, AtMost(REQUEST_LIMIT)) != Ok
    ensures DecideHaving(stream, k) == Decide(stream)
  {
    if 0 <= Find(stream[..k], CRLF) {
      RequestLineOfPrefix(stream, k);
    }
  }

  /** `d` does not end within the first 4096 bytes, and at least that many arrive. */
  ghost predicate Overflows(stream: string, d: string) {
    && 4096 <= |stream|
    && forall i :: At(stream, d, i) ==> 4096 < i + |d|
  }

  lemma OverflowsIffNotFound(stream: string, d: string)
    ensures Overflows(stream, d) <==> ReadUntilOutcome(stream, d, AtMost(REQUEST_LIMIT)) == NotFound
  {
  }

  /** 413 arises exactly when the delimiter a read is after overflows the buffer. */
  lemma TooLargeExactly(stream: string)
    ensures Decide(stream) == TooLarge <==>
            || Overflows(stream, CRLF)
            || (&& 0 <= Find(stream, CRLF) && Find(stream, CRLF) + 2 <= 4096
                && TakeRequestLine(stream).0.Get?
                && Overflows(TakeRequestLine(stream).1, CRLFCRLF))
  {
    OverflowsIffNotFound(stream, CRLF);
    OverflowsIffNotFound(TakeRequestLine(stream).1, CRLFCRLF);
  }

  // ------------------------------------------------- the answer to every stream, on the bytes

  /** The three words read from a request line, in order. */
  lemma JudgedByWords(line: string)
    ensures var verb, resource := FirstWord(line), FirstWord(AfterWord(line));
            var version := FirstWord(AfterWord(AfterWord(line)));
            JudgeLine(line)
            == if verb != "GET" then NotGet else if version != "HTTP/1.1" then BadVersion else Get(resource)
  {
    WordOfIsFirstWord(line, "");
    if FirstWord(line) == "GET" {
      WordOfIsFirstWord(AfterWord(line), "");
      WordOfIsFirstWord(AfterWord(AfterWord(line)), "");
    }
  }

  /** A stream with a line break in it has a line before its first CR, and a byte after that. */
  lemma LineIsThere(stream: string) returns (line: string, c: char, rest: string)
    requires 0 <= Find(stream, CRLF)
    ensures stream == line + [CR] + ([c] + rest) && CR !in line
  {
    FirstCr(stream);
    FindByte(stream, CR);
    var p := Find(stream, [CR]);
    line, c, rest := stream[..p], stream[p + 1], stream[p + 2..];
  }

  lemma TakesLine(stream: string, line: string, c: char, rest: string)
    requires stream == line + [CR] + ([c] + rest) && CR !in line
    ensures TakeRequestLine(stream) == (JudgeLine(line), rest)
  {
    FindByteAfter(line, CR, [c] + rest);
    TakeAtCr(stream);
    assert stream[..|line|] == line && stream[|line| + 2..] == rest;
  }

  /** A reply without field lines and body. */
  function BareReply(code: string, reason: string): string {
    "HTTP/1.1 " + (code + " " + reason) + CRLF + CRLF
  }

  lemma ReplyIsBare(status: nat, code: string, reason: string)
    requires status in STATUS_TABLE && status != 200 && STATUS_TABLE[status] == code + " " + reason
    ensures Reply(status, "") == BareReply(code, reason)
  {
    ReplyIsProper(status, "");
    NothingMore(StatusLine(status));
  }

  lemma NothingMore(line: string)
    ensures line + "" + CRLF + "" == line + CRLF
  {
  }

  /** A reply with a length and a body. */
  function FullReply(body: string): string {
    "HTTP/1.1 " + ("200" + " " + "OK") + CRLF + ("content-length: " + Decimal(|body|) + CRLF) + CRLF + body
  }

  lemma ReplyIsFull(body: string)
    ensures Reply(200, body) == FullReply(body)
  {
    ReplyIsProper(200, body);
  }

  /** The decision when the first line does not end within the limit. */
  lemma DecideWithoutLine(stream: string)
    requires Find(stream, CRLF) < 0 || 4096 < Find(stream, CRLF) + 2
    ensures Decide(stream) == if 4096 <= |stream| then TooLarge else Drop
  {
  }

  /** And when it does, by the verdict on it. */
  lemma DecideByLine(stream: string, line: RequestLine, rest: string)
    requires 0 <= Find(stream, CRLF) && TakeRequestLine(stream) == (line, rest)
    ensures Decide(stream) == if Find(stream, CRLF) + 2 <= 4096 then DecideAfterLine(line, rest) else TooLarge
  {
  }

  lemma DecideOnRest(resource: string, rest: string)
    ensures DecideAfterLine(Get(resource), rest)
         == if 0 <= Find(rest, CRLFCRLF) && Find(rest, CRLFCRLF) + 4 <= 4096 then Serve(resource)
            else if 4096 <= |rest| then TooLarge
            else Drop
  {
  }

  /**
   On the bytes: 501 unless the first word of the line, which is cut at the first CR, is GET; 505 unless the
   third is HTTP/1.1; and otherwise the second word is what is served, if the blank line ends within the limit
   of what follows.
   */
  lemma DecideOnLine(stream: string, line: string, c: char, rest: string)
    requires 0 <= Find(stream, CRLF) && Find(stream, CRLF) + 2 <= 4096
    requires stream == line + [CR] + ([c] + rest) && CR !in line
    ensures var verb, resource := FirstWord(line), FirstWord(AfterWord(line));
            var version := FirstWord(AfterWord(AfterWord(line)));
            Decide(stream)
            == if verb != "GET" then NotImplemented
               else if version != "HTTP/1.1" then VersionNotSupported
               else if 0 <= Find(rest, CRLFCRLF) && Find(rest, CRLFCRLF) + 4 <= 4096 then Serve(resource)
               else if 4096 <= |rest| then TooLarge
               else Drop
  {
    TakesLine(stream, line, c, rest);
    DecideByLine(stream, JudgeLine(line), rest);
    DecideOnWords(line, rest);
  }

  lemma DecideOnWords(line: string, rest: string)
    ensures var verb, resource := FirstWord(line), FirstWord(AfterWord(line));
            var version := FirstWord(AfterWord(AfterWord(line)));
            DecideAfterLine(JudgeLine(line), rest)
            == if verb != "GET" then NotImplemented
               else if version != "HTTP/1.1" then VersionNotSupported
               else if 0 <= Find(rest, CRLFCRLF) && Find(rest, CRLFCRLF) + 4 <= 4096 then Serve(resource)
               else if 4096 <= |rest| then TooLarge
               else Drop
  {
    JudgedByWords(line);
    DecideOnRest(FirstWord(AfterWord(line)), rest);
  }

  /** What is sent for a decision, to the byte. */
  function AnswerText(d: Decision, fs: FileSystem): string {
    match d
    case Drop => ""
    case TooLarge => BareReply("413", "Request Entity Too Large")
    case NotImplemented => BareReply("501", "Not Implemented")
    case VersionNotSupported => BareReply("505", "HTTP Version Not Supported")
    case Serve(resource) => FileText(fs("sample" + resource))
  }

  function FileText(file: FileState): string {
    match file
    case Missing => BareReply("404", "Not Found")
    case Unreadable => BareReply("500", "Server Error")
    case File(bytes) => FullReply(bytes)
  }

  lemma ReplyToRefused(d: Decision, fs: FileSystem)
    requires d.TooLarge? || d.NotImplemented? || d.VersionNotSupported?
    ensures Reply(StatusOf(d, fs), BodyOf(d, fs)) == AnswerText(d, fs)
  {
    match d {
      case TooLarge => ReplyIsBare(413, "413", "Request Entity Too Large");
      case NotImplemented => ReplyIsBare(501, "501", "Not Implemented");
      case VersionNotSupported => ReplyIsBare(505, "505", "HTTP Version Not Supported");
    }
  }

  lemma ReplyToServed(resource: string, fs: FileSystem)
    ensures Reply(StatusOf(Serve(resource), fs), BodyOf(Serve(resource), fs)) == FileText(fs("sample" + resource))
  {
    match fs("sample" + resource) {
      case Missing => ReplyIsBare(404, "404", "Not Found");
      case Unreadable => ReplyIsBare(500, "500", "Server Error");
      case File(bytes) => ReplyIsFull(bytes);
    }
  }

  lemma AnswerIsText(stream: string, fs: FileSystem)
    ensures Answer(stream, fs) == AnswerText(Decide(stream), fs)
  {
    var d := Decide(stream);
    if d.Serve? {
      ReplyToServed(d.resource, fs);
    } else if !d.Drop? {
      ReplyToRefused(d, fs);
    }
  }

  /** What is sent for every decision. */
  lemma AnswerOfDecision(stream: string, d: Decision, fs: FileSystem)
    requires d == Decide(stream)
    ensures Answer(stream, fs)
         == match d
            case Drop => ""
            case TooLarge => BareReply("413", "Request Entity Too Large")
            case NotImplemented => BareReply("501", "Not Implemented")
            case VersionNotSupported => BareReply("505", "HTTP Version Not Supported")
            case Serve(resource) =>
              match fs("sample" + resource)
              case Missing => BareReply("404", "Not Found")
              case Unreadable => BareReply("500", "Server Error")
              case File(bytes) => FullReply(bytes)
  {
    AnswerIsText(stream, fs);
  }

  /** Which request lines are answered with 501 and which with 505. */
  lemma AnswerOnLine(stream: string, line: string, c: char, rest: string, fs: FileSystem)
    requires 0 <= Find(stream, CRLF) && Find(stream, CRLF) + 2 <= 4096
    requires stream == line + [CR] + ([c] + rest) && CR !in line
    ensures FirstWord(line) != "GET" ==> Answer(stream, fs) == BareReply("501", "Not Implemented")
    ensures FirstWord(line) == "GET" && FirstWord(AfterWord(AfterWord(line))) != "HTTP/1.1" ==>
              Answer(stream, fs) == BareReply("505", "HTTP Version Not Supported")
  {
    DecideOnLine(stream, line, c, rest);
    AnswerIsText(stream, fs);
  }

  // ------------------------------------------------------------------ the handler object

  datatype Operation = ReadLine | ReadHeaders | WriteReply

  class Service {
    const conn: Connection
    const fs: FileSystem
    const request: StreamBuf
    var requestHeaders: Headers
    var requestedResource: string
    var resourceBuffer: string
    var statusCode: nat
    var responseHeaders: string
    /** The bytes handed to the write that is outstanding. */
    var reply: string
    /** The operation that is outstanding, if any. */
    var pending: Option<Operation>
    /** How often the object has been deleted. */
    var frees: nat

    /**
     What holds between handlers: one operation is outstanding until the object is freed, once; a
     reply that is being written has a status of the table, and a content-length field, giving the
     length of its body, if and only if that status is 200.
     */
    ghost predicate Valid()
      reads this, request
    {
      && request.limit == AtMost(REQUEST_LIMIT) && request.limit.Allows(|request.bytes|)
      && statusCode in STATUS_TABLE
      && frees <= 1
      && (pending.Some? ==> frees == 0)
      && (pending == Some(ReadLine) || pending == Some(ReadHeaders) ==>
            statusCode == 200 && responseHeaders == "" && resourceBuffer == "")
      && (pending == Some(ReadLine) ==> requestedResource == "" && requestHeaders == map[])
      && (pending == Some(ReadHeaders) ==> requestHeaders == map[])
      && (pending == Some(WriteReply) ==>
            && reply == Reply(statusCode, resourceBuffer)
            && (statusCode != 200 ==> resourceBuffer == ""))
    }

    ghost predicate Freed()
      reads this
    {
      frees == 1 && pending == None
    }

    /** How many operations can still be started. */
    ghost function Remaining(): nat
      reads this
    {
      match pending
      case None => 0
      case Some(ReadLine) => 3
      case Some(ReadHeaders) => 2
      case Some(WriteReply) => 1
    }

    /** The object is freed, or has one operation outstanding and at most `n` to come, that one included. */
    ghost predicate OnlyLeft(n: nat)
      reads this
    {
      if pending.Some? then frees == 0 && Remaining() <= n else frees == 1
    }

    /** The reply for status `status` is being written. */
    ghost predicate Replying(status: nat, body: string)
      reads this
    {
      pending == Some(WriteReply) && status in STATUS_TABLE && statusCode == status && reply == Reply(status, body)
    }

    constructor (conn: Connection, fs: FileSystem)
      ensures Valid() && frees == 0 && pending == None && request.bytes == "" && fresh(request)
      ensures this.conn == conn && this.fs == fs
      ensures statusCode == 200 && responseHeaders == "" && resourceBuffer == ""
      ensures requestedResource == "" && requestHeaders == map[]
    {
      this.conn := conn;
      this.fs := fs;
      this.request := new StreamBuf(AtMost(REQUEST_LIMIT));
      this.requestHeaders := map[];
      this.requestedResource, this.resourceBuffer, this.responseHeaders, this.reply := "", "", "", "";
      this.statusCode := 200;
      this.pending := None;
      this.frees := 0;
    }

    method HandleRequest()
      requires Valid() && frees == 0 && pending == None
      requires statusCode == 200 && responseHeaders == "" && resourceBuffer == ""
      requires requestedResource == "" && requestHeaders == map[]
      modifies this`pending
      ensures Valid() && pending == Some(ReadLine)
    {
      pending := Some(ReadLine);
    }

    method OnRequestLineReceived(ec: ErrorCode)
      requires Valid() && pending == Some(ReadLine)
      modifies this, request
      ensures Valid() && OnlyLeft(2)
      ensures ec == NotFound ==> Replying(413, "")
      ensures ec != Ok && ec != NotFound ==> Freed()
      ensures ec == Ok ==>
                var (line, rest) := TakeRequestLine(old(request.bytes));
                && request.bytes == rest
                && match line
                   case NotGet => Replying(501, "")
                   case BadVersion => Replying(505, "")
                   case Get(resource) => pending == Some(ReadHeaders) && requestedResource == resource
    {
      pending := None;
      if ec != Ok {
        if ec == NotFound {
          statusCode := 413;
          SendResponse();
        } else {
          OnFinish();
        }
        return;
      }
      var line := ParseRequestLine();
      ActOnLine(line);
    }

    method ActOnLine(line: RequestLine)
      requires pending == None && frees == 0 && statusCode == 200 && responseHeaders == "" && resourceBuffer == ""
      requires requestHeaders == map[] && (line.Get? ==> requestedResource == line.resource)
      requires request.limit == AtMost(REQUEST_LIMIT) && request.limit.Allows(|request.bytes|)
      modifies this`statusCode, this`responseHeaders, this`reply, this`pending
      ensures Valid() && OnlyLeft(2)
      ensures match line
              case NotGet => Replying(501, "")
              case BadVersion => Replying(505, "")
              case Get(resource) => pending == Some(ReadHeaders)
    {
      match line
      case NotGet =>
        statusCode := 501;
        SendResponse();
      case BadVersion =>
        statusCode := 505;
        SendResponse();
      case Get(_) =>
        pending := Some(ReadHeaders);
    }

    method ParseRequestLine() returns (line: RequestLine)
      requires requestedResource == ""
      modifies this`requestedResource, request
      ensures (line, request.bytes) == TakeRequestLine(old(request.bytes))
      ensures |request.bytes| <= old(|request.bytes|)
      ensures line.Get? ==> requestedResource == line.resource
    {
      var requestStream := new InputStream(request);
      var requestLine := requestStream.Getline("", CR);
      requestStream.Get();
      var lineBuf := new StreamBuf.Of(requestLine);
      var lineStream := new InputStream(lineBuf);
      var verb := lineStream.Word("");
      if verb != "GET" {
        return NotGet;
      }
      requestedResource := lineStream.Word(requestedResource);
      var version := lineStream.Word("");
      if version != "HTTP/1.1" {
        return BadVersion;
      }
      return Get(requestedResource);
    }

    method OnHeadersReceived(ec: ErrorCode)
      requires Valid() && pending == Some(ReadHeaders)
      modifies this, request
      ensures Valid() && OnlyLeft(1)
      ensures ec == NotFound ==> Replying(413, "")
      ensures ec != Ok && ec != NotFound ==> Freed()
      ensures requestedResource == old(requestedResource)
      ensures ec == Ok ==>
                && request.bytes == ""
                && requestHeaders == ServerFields(old(request.bytes), map[])
                && var d := Serve(old(requestedResource));
                   Replying(StatusOf(d, fs), BodyOf(d, fs))
    {
      pending := None;
      if ec != Ok {
        if ec == NotFound {
          statusCode := 413;
          SendResponse();
        } else {
          OnFinish();
        }
        return;
      }
      ParseHeaders();
      ProcessRequest();
      SendResponse();
    }

    /** The header loop: split at ':', then at CR, until the buffer is exhausted. */
    method ParseHeaders()
      requires request.limit.Allows(|request.bytes|)
      modifies this`requestHeaders, request
      ensures request.bytes == ""
      ensures requestHeaders == ServerFields(old(request.bytes), old(requestHeaders))
    {
      var requestStream := new InputStream(request);
      var headerName, headerValue := "", "";
      while !requestStream.eof
        invariant requestStream.buf == request && fresh(requestStream)
        invariant requestStream.fail ==> requestStream.eof
        invariant requestStream.eof ==> request.bytes == ""
        invariant ServerFields(old(request.bytes), old(requestHeaders))
               == if requestStream.eof then requestHeaders else ServerFields(request.bytes, requestHeaders)
        modifies this`requestHeaders, request, requestStream
        decreases |request.bytes|, !requestStream.eof
      {
        ServerPassIsRound(request.bytes, headerName, headerValue, requestHeaders);
        ghost var pass := ServerPass(request.bytes, headerName, headerValue, requestHeaders);
        headerName := requestStream.Getline(headerName, ':');
        if !requestStream.eof {
          headerValue := requestStream.Getline(headerValue, CR);
          requestStream.Get();
          requestHeaders := requestHeaders[headerName := headerValue];
        }
        assert (requestStream.V(), requestHeaders) == pass;
      }
    }

    method ProcessRequest()
      requires statusCode == 200 && responseHeaders == "" && resourceBuffer == ""
      modifies this`statusCode, this`resourceBuffer, this`responseHeaders
      ensures var d := Serve(requestedResource);
              && statusCode == StatusOf(d, fs)
              && resourceBuffer == BodyOf(d, fs)
              && responseHeaders == Block(ReplyFields(statusCode, resourceBuffer))
    {
      match fs(Path(requestedResource))
      case Missing =>
        statusCode := 404;
      case Unreadable =>
        statusCode := 500;
      case File(bytes) =>
        resourceBuffer := bytes;
        responseHeaders := responseHeaders + "content-length" + ": " + Decimal(|bytes|) + CRLF;
        assert responseHeaders == FieldLine("content-length", " " + Decimal(|bytes|)) + CRLF + Block([]);
    }

    method SendResponse()
      requires pending == None && frees == 0 && statusCode in STATUS_TABLE
      requires responseHeaders == Block(ReplyFields(statusCode, resourceBuffer))
      modifies this`responseHeaders, this`reply, this`pending
      ensures pending == Some(WriteReply) && reply == Reply(statusCode, resourceBuffer)
    {
      var statusLine := "HTTP/1.1 " + STATUS_TABLE[statusCode] + CRLF;
      responseHeaders := responseHeaders + CRLF;
      reply := statusLine;
      if 0 < |responseHeaders| {
        reply := reply + responseHeaders;
      }
      if 0 < |resourceBuffer| {
        reply := reply + resourceBuffer;
      }
      pending := Some(WriteReply);
    }

    method OnResponseSent(ec: ErrorCode)
      requires Valid() && pending == Some(WriteReply)
      modifies this`pending, this`frees
      ensures Valid() && Freed()
    {
      pending := None;
      OnFinish();
    }

    method OnFinish()
      requires frees == 0 && pending == None
      modifies this`frees
      ensures frees == 1
    {
      frees := frees + 1;
    }

    /** The outstanding operation completes with any error code at all. */
    method Complete(ec: ErrorCode)
      requires Valid() && pending.Some?
      modifies this, request
      ensures Valid() && OnlyLeft(old(Remaining()) - 1)
    {
      match pending.value
      case ReadLine => OnRequestLineReceived(ec);
      case ReadHeaders => OnHeadersReceived(ec);
      case WriteReply => OnResponseSent(ec);
    }
  }

  /**
   Whatever the peer sends and the operations report, the object ends freed exactly once with nothing
   outstanding, and at most one reply is written, a proper one.
   */
  method RunWithAnyErrors(conn: Connection, fs: FileSystem) returns (service: Service, replies: seq<Sent>)
    ensures service.Freed()
    ensures |replies| <= 1 && forall i :: 0 <= i < |replies| ==> Proper(replies[i])
  {
    service := new Service(conn, fs);
    service.HandleRequest();
    replies := [];
    while service.pending.Some?
      invariant service.Valid() && fresh(service) && fresh(service.request)
      invariant service.pending.Some? || service.Freed()
      invariant service.pending.Some? && !service.pending.value.WriteReply? ==> replies == []
      invariant |replies| <= 1 && forall i :: 0 <= i < |replies| ==> Proper(replies[i])
      decreases service.Remaining()
    {
      var bytes: string := *;
      if |bytes| <= REQUEST_LIMIT {
        service.request.bytes := bytes;
      }
      var ec: ErrorCode := *;
      var sending := service.pending == Some(WriteReply);
      service.Complete(ec);
      if !sending && service.pending == Some(WriteReply) {
        ReplyIsProper(service.statusCode, service.resourceBuffer);
        replies := replies + [Sent(service.statusCode, service.resourceBuffer, service.reply)];
      }
    }
  }

  /** The read of the request line and its handler, over any fragmentation. */
  method ReceiveLine(conn: Connection, service: Service)
    requires service.Valid() && service.pending == Some(ReadLine) && service.request.bytes == ""
    modifies conn`incoming, service, service.request
    ensures service.Valid()
    ensures var stream := old(conn.incoming);
            match ReadUntilOutcome(stream, CRLF, AtMost(REQUEST_LIMIT))
            case NotFound => service.Replying(413, "")
            case Ok =>
              var (line, rest) := TakeRequestLine(stream);
              && service.request.bytes + conn.incoming == rest
              && (match line
                  case NotGet => service.Replying(501, "")
                  case BadVersion => service.Replying(505, "")
                  case Get(resource) =>
                    service.pending == Some(ReadHeaders) && service.requestedResource == resource)
            case _ => service.Freed()
  {
    ghost var stream := conn.incoming;
    var ec := ReadUntil(conn, service.request, CRLF);
    ghost var k := |service.request.bytes|;
    assert "" + stream == stream;
    assert service.request.bytes == stream[..k] && conn.incoming == stream[k..];
    if ec == Ok {
      RequestLineOfPrefix(stream, k);
    }
    service.OnRequestLineReceived(ec);
  }

  /** The read up to the blank line and its handler, over any fragmentation. */
  method ReceiveHeaders(conn: Connection, service: Service) returns (ghost headerBytes: string)
    requires service.Valid() && service.pending == Some(ReadHeaders)
    modifies conn`incoming, service, service.request
    ensures service.Valid()
    ensures var rest := old(service.request.bytes + conn.incoming);
            match ReadUntilOutcome(rest, CRLFCRLF, AtMost(REQUEST_LIMIT))
            case NotFound => service.Replying(413, "")
            case Ok =>
              var d := Serve(old(service.requestedResource));
              && headerBytes <= rest && 0 <= Find(headerBytes, CRLFCRLF)
              && service.requestHeaders == ServerFields(headerBytes, map[])
              && service.Replying(StatusOf(d, service.fs), BodyOf(d, service.fs))
            case _ => service.Freed()
    ensures service.requestedResource == old(service.requestedResource)
  {
    ghost var rest := service.request.bytes + conn.incoming;
    var ec := ReadUntil(conn, service.request, CRLFCRLF);
    headerBytes := service.request.bytes;
    assert headerBytes <= rest;
    service.OnHeadersReceived(ec);
  }

  /** Both reads and their handlers: the decision is taken, and acted on. */
  method Receive(conn: Connection, service: Service) returns (ghost headerBytes: string)
    requires service.Valid() && service.pending == Some(ReadLine) && service.request.bytes == ""
    modifies conn`incoming, service, service.request
    ensures service.Valid()
    ensures var d := Decide(old(conn.incoming));
            if d.Drop? then service.Freed()
            else service.Replying(StatusOf(d, service.fs), BodyOf(d, service.fs))
    ensures Decide(old(conn.incoming)).Serve? ==>
              && service.requestedResource == Decide(old(conn.incoming)).resource
              && headerBytes <= TakeRequestLine(old(conn.incoming)).1
              && 0 <= Find(headerBytes, CRLFCRLF)
              && service.requestHeaders == ServerFields(headerBytes, map[])
  {
    headerBytes := "";
    ReceiveLine(conn, service);
    if service.pending == Some(ReadHeaders) {
      headerBytes := ReceiveHeaders(conn, service);
    }
  }

  /** The write of the reply and its handler. */
  method FinishReply(conn: Connection, service: Service)
    requires service.Valid() && service.pending == Some(WriteReply)
    modifies conn`outgoing, service
    ensures conn.outgoing == old(conn.outgoing) + old(service.reply)
    ensures service.Freed()
    ensures service.requestedResource == old(service.requestedResource)
    ensures service.requestHeaders == old(service.requestHeaders)
  {
    WriteAll(conn, service.reply);
    service.OnResponseSent(Ok);
  }

  /**
   One connection without transport errors. For every fragmentation of the peer's stream the bytes
   sent back are `Answer` of the stream; the header map is the one of the `headerBytes` that had been
   received when the blank line was found, which is all that fragmentation can change.
   */
  method ServeConnection(conn: Connection, fs: FileSystem) returns (service: Service, ghost headerBytes: string)
    modifies conn
    ensures conn.outgoing == old(conn.outgoing) + Answer(old(conn.incoming), fs)
    ensures service.Freed()
    ensures Decide(old(conn.incoming)).Serve? ==>
              && service.requestedResource == Decide(old(conn.incoming)).resource
              && headerBytes <= TakeRequestLine(old(conn.incoming)).1
              && 0 <= Find(headerBytes, CRLFCRLF)
              && service.requestHeaders == ServerFields(headerBytes, map[])
  {
    headerBytes := "";
    service := new Service(conn, fs);
    service.HandleRequest();
    headerBytes := Receive(conn, service);
    if service.pending == Some(WriteReply) {
      FinishReply(conn, service);
    } else {
      assert conn.outgoing == conn.outgoing + "";
    }
    conn.sendClosed := true;
  }
}
