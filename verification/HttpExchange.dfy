/** The client and the server composed: what each recovers of what the other printed. */
module HttpExchange {
  import opened Errors
  import opened Text
  import opened Streams
  import opened HeaderFields
  import Server = HttpService
  import Client = HttpClient

  // ------------------------------------------------------------ the request, at the server

  lemma RequestTextIsJudged(uri: string)
    requires IsWord(uri)
    ensures Server.JudgeLine(Client.RequestText(uri)) == Server.Get(uri)
  {
    assert IsWord("GET");
    assert IsWord("HTTP/1.1");
    ThreeWords("GET", uri, "HTTP/1.1");
  }

  lemma RequestTextIsCrFree(uri: string)
    requires IsWord(uri)
    ensures CR !in Client.RequestText(uri) && |Client.RequestText(uri)| == |uri| + 13
  {
    assert forall c :: c in uri ==> c != CR;
  }

  lemma HostLineIsPlain(host: string)
    requires CR !in host
    ensures PlainLine(Client.HostLine(host)) && IsField(Client.HostLine(host))
    ensures |Client.HostLine(host)| == |host| + 6
    ensures AddLine(map[], Client.HostLine(host)) == map["Host" := " " + host]
  {
    assert Client.HostLine(host)[4] == ':';
    AddLineOfField(map[], "Host", " " + host);
  }

  /** Taking a CR-free request line leaves what follows it. */
  lemma LineIsTaken(line: string, tail: string)
    requires CR !in line
    ensures Server.TakeRequestLine(line + CRLF + tail) == (Server.JudgeLine(line), tail)
    ensures Find(line + CRLF + tail, CRLF) == |line|
  {
    FindCrlfAfter(line, tail);
    GetlineCrlf(line, tail);
  }

  /** Where the blank line of a block of plain lines is. */
  lemma BlankLinePosition(lines: seq<string>)
    requires lines != [] && PlainLines(lines)
    ensures Find(Block(lines) + CRLF, CRLFCRLF) == |Block(lines)| - 2
  {
    assert Block(lines) + CRLF + "" == Block(lines) + CRLF;
    Client.BlankLineFound(lines, "");
    Client.BlankLineOnlyAtEnd(lines, Find(Block(lines) + CRLF, CRLFCRLF));
  }

  lemma BlankLineOfOne(line: string)
    requires PlainLine(line)
    ensures |Block([line])| == |line| + 2
    ensures Find(Block([line]) + CRLF, CRLFCRLF) == |line|
  {
    assert Block([line]) == line + CRLF + Block([]);
    BlankLinePosition([line]);
  }

  /** The decision in terms of where the blank line is. */
  lemma DecideByBlankLine(uri: string, rest: string)
    requires 0 <= Find(rest, CRLFCRLF)
    ensures Server.DecideAfterLine(Server.Get(uri), rest)
         == if Find(rest, CRLFCRLF) + 4 <= 4096 then Server.Serve(uri) else Server.TooLarge
  {
  }

  /** The decision on a request line `text` that asks for `uri` and one header line `line`. */
  lemma DecideOn(text: string, uri: string, line: string)
    requires CR !in text && Server.JudgeLine(text) == Server.Get(uri) && PlainLine(line)
    ensures Server.Decide(text + CRLF + (Block([line]) + CRLF))
         == if |text| + 2 <= 4096 && |line| + 4 <= 4096
            then Server.Serve(uri) else Server.TooLarge
  {
    var rest := Block([line]) + CRLF;
    LineIsTaken(text, rest);
    Server.DecideByLine(text + CRLF + rest, Server.Get(uri), rest);
    BlankLineOfOne(line);
    DecideByBlankLine(uri, rest);
  }

  /**
   Request round trip, exactly: for a white-space-free URI and a CR-free host the server serves that
   URI if and only if both parts of the request fit its buffer, and answers 413 otherwise.
   */
  lemma RequestRoundTrip(uri: string, host: string)
    requires IsWord(uri) && CR !in host
    ensures Server.Decide(Client.RequestBytes(uri, host))
         == if |uri| + 15 <= 4096 && |host| + 10 <= 4096
            then Server.Serve(uri) else Server.TooLarge
  {
    RequestTextIsJudged(uri);
    RequestTextIsCrFree(uri);
    HostLineIsPlain(host);
    DecideOn(Client.RequestText(uri), uri, Client.HostLine(host));
  }

  /** A prefix of a one-line block in which the blank line is found is the whole block. */
  lemma FoundMeansWhole(line: string, bytes: string)
    requires PlainLine(line) && IsField(line)
    requires bytes <= Block([line]) + CRLF && 0 <= Find(bytes, CRLFCRLF)
    ensures ServerFields(bytes, map[]) == AddLine(map[], line)
  {
    var block := Block([line]) + CRLF;
    assert block + "" == block;
    assert bytes == (block + "")[..|bytes|];
    if |bytes| < |block| {
      Client.NoBlankLineInside([line], "", |bytes|);
    }
    assert bytes == block;
    OneField(line);
  }

  lemma OneField(line: string)
    requires PlainLine(line) && IsField(line)
    ensures ServerFields(Block([line]) + CRLF, map[]) == AddLine(map[], line)
  {
    ServerLoopOnFields([line], CRLF, map[]);
    FoldOne(map[], line);
  }

  /**
   Whatever prefix of the header block has been received when its blank line is found, the header map
   is the printed one: nothing follows the block, so there is nothing to over-read.
   */
  lemma RequestHeadersRoundTrip(uri: string, host: string, headerBytes: string)
    requires IsWord(uri) && CR !in host
    requires headerBytes <= Server.TakeRequestLine(Client.RequestBytes(uri, host)).1
    requires 0 <= Find(headerBytes, CRLFCRLF)
    ensures ServerFields(headerBytes, map[]) == map["Host" := " " + host]
  {
    RequestTextIsCrFree(uri);
    LineIsTaken(Client.RequestText(uri), Block([Client.HostLine(host)]) + CRLF);
    HostLineIsPlain(host);
    FoundMeansWhole(Client.HostLine(host), headerBytes);
  }

  // -------------------------------------------------------------- the reply, at the client

  /** The reason phrases, without the codes. */
  function Reason(status: nat): (reason: string)
    requires status in Server.STATUS_TABLE
    ensures CR !in reason
  {
    if status == 200 then "OK"
    else if status == 404 then "Not Found"
    else if status == 413 then "Request Entity Too Large"
    else if status == 500 then "Server Error"
    else if status == 501 then "Not Implemented"
    else "HTTP Version Not Supported"
  }

  lemma ReasonOk()
    ensures " " + Reason(200) == " OK"
  {
  }

  lemma ThreeDigits(n: nat)
    requires 100 <= n < 1000
    ensures Decimal(n) == [DigitChar(n / 100), DigitChar(n / 10 % 10), DigitChar(n % 10)]
  {
    assert Decimal(n) == Decimal(n / 10) + [DigitChar(n % 10)];
    assert Decimal(n / 10) == Decimal(n / 10 / 10) + [DigitChar(n / 10 % 10)];
  }

  /** The codes, as texts. */
  function Code(status: nat): string
    requires status in Server.STATUS_TABLE
  {
    if status == 200 then "200"
    else if status == 404 then "404"
    else if status == 413 then "413"
    else if status == 500 then "500"
    else if status == 501 then "501"
    else "505"
  }

  lemma DigitTexts()
    ensures DigitChar(0) == '0' && DigitChar(1) == '1' && DigitChar(2) == '2' && DigitChar(3) == '3'
    ensures DigitChar(4) == '4' && DigitChar(5) == '5'
  {
  }

  lemma CodeIsDecimal(status: nat)
    requires status in Server.STATUS_TABLE
    ensures Code(status) == Decimal(status)
  {
    DigitTexts();
    ThreeDigits(status);
    CodeDigits(status);
  }

  lemma CodeDigits(status: nat)
    requires status in Server.STATUS_TABLE
    ensures status == 100 * (status / 100) + 10 * (status / 10 % 10) + status % 10
    ensures Code(status) == [DigitChar(status / 100), DigitChar(status / 10 % 10), DigitChar(status % 10)]
  {
    DigitTexts();
  }

  lemma TableTexts(status: nat)
    requires status in Server.STATUS_TABLE
    ensures Server.STATUS_TABLE[status] == Code(status) + " " + Reason(status)
  {
  }

  /** Each entry of the status table is its key in decimal, a blank and a reason phrase. */
  lemma TableEntry(status: nat)
    requires status in Server.STATUS_TABLE
    ensures Server.STATUS_TABLE[status] == Decimal(status) + " " + Reason(status)
  {
    CodeIsDecimal(status);
    TableTexts(status);
  }

  /** A reply is a well-formed response. */
  lemma ReplyIsResponse(status: nat, body: string)
    requires status in Server.STATUS_TABLE
    ensures Server.Reply(status, body)
         == Client.Response(Decimal(status), Reason(status), Server.ReplyFields(status, body), body)
  {
    TableEntry(status);
    SplitAfterVersion(Decimal(status), Reason(status));
  }

  lemma SplitAfterVersion(code: string, reason: string)
    ensures "HTTP/1.1 " + (code + " " + reason) == Client.StatusText(code, reason)
  {
  }

  lemma LengthLineIsPlain(n: nat)
    ensures var line := FieldLine("content-length", " " + Decimal(n));
            PlainLine(line) && AddLine(map[], line) == map["content-length" := " " + Decimal(n)]
  {
    DecimalIsWord(n);
    AddLineOfField(map[], "content-length", " " + Decimal(n));
  }

  lemma LengthFieldIsPlain(status: nat, body: string)
    requires status == 200
    ensures var lines := Server.ReplyFields(status, body);
            && PlainLines(lines) && lines != []
            && Fold(map[], lines) == map["content-length" := " " + Decimal(|body|)]
  {
    LengthLineIsPlain(|body|);
    FoldOne(map[], FieldLine("content-length", " " + Decimal(|body|)));
  }

  /**
   The acceptance boundary of the composed pair. A 200 reply, whatever its body and fragmentation,
   ends in success with the status, the message, the length field and exactly the body; each of the
   five other replies leaves the right status in place and ends with the end-of-stream error.
   */
  lemma ClientAcceptsExactly200(status: nat, body: string, k1: nat, k2: nat)
    requires status in Server.STATUS_TABLE && (status != 200 ==> body == "")
    requires Client.Fragmentation(Server.Reply(status, body), k1, k2)
    ensures Client.OutcomeHaving(Server.Reply(status, body), k1, k2)
         == if status == 200
            then Client.Finished(Ok, 200, " OK", map["content-length" := " " + Decimal(|body|)], body)
            else Client.Finished(Eof, status, " " + Reason(status), map[], CRLF)
  {
    if status == 200 {
      ClientAcceptsOk(status, body, k1, k2);
      ReasonOk();
    } else {
      ClientReportsEof(status, k1, k2);
    }
  }

  lemma AcceptsResponse(stream: string, code: nat, reason: string, lines: seq<string>, body: string, k1: nat, k2: nat)
    requires code < ULONG_RANGE && CR !in reason && PlainLines(lines) && lines != []
    requires stream == Client.Response(Decimal(code), reason, lines, body) && Client.Fragmentation(stream, k1, k2)
    ensures Client.OutcomeHaving(stream, k1, k2) == Client.Finished(Ok, code, " " + reason, Fold(map[], lines), body)
  {
    DecimalIsWord(code);
    StoulDecimal(code);
    Client.ClientRecoversResponse(Decimal(code), reason, lines, body, k1, k2);
  }

  lemma ClientAcceptsOk(status: nat, body: string, k1: nat, k2: nat)
    requires status == 200 && Client.Fragmentation(Server.Reply(status, body), k1, k2)
    ensures Client.OutcomeHaving(Server.Reply(status, body), k1, k2)
         == Client.Finished(Ok, status, " " + Reason(status), map["content-length" := " " + Decimal(|body|)], body)
  {
    ReplyIsResponse(status, body);
    LengthFieldIsPlain(status, body);
    AcceptsResponse(Server.Reply(status, body), status, Reason(status), Server.ReplyFields(status, body), body, k1, k2);
  }

  /** A decimal code and a CR-free reason make a well-formed response without field lines. */
  lemma NoFieldsIsWellFormed(code: nat, reason: string)
    requires code < ULONG_RANGE && CR !in reason
    ensures Client.WellFormed(Decimal(code), reason, []) && Stoul(Decimal(code)) == Some(code)
  {
    DecimalIsWord(code);
    StoulDecimal(code);
  }

  lemma OtherRepliesHaveNoFields(status: nat)
    requires status in Server.STATUS_TABLE && status != 200
    ensures Server.Reply(status, "") == Client.Response(Decimal(status), Reason(status), [], "")
  {
    ReplyIsResponse(status, "");
    assert Server.ReplyFields(status, "") == [];
  }

  lemma ClientReportsEof(status: nat, k1: nat, k2: nat)
    requires status in Server.STATUS_TABLE && status != 200
    requires Client.Fragmentation(Server.Reply(status, ""), k1, k2)
    ensures Client.OutcomeHaving(Server.Reply(status, ""), k1, k2)
         == Client.Finished(Eof, status, " " + Reason(status), map[], CRLF)
  {
    OtherRepliesHaveNoFields(status);
    NoFieldsIsWellFormed(status, Reason(status));
    Client.NoFieldsNoBody(Decimal(status), Reason(status), k1, k2);
  }

  // ------------------------------------------------------------------------ end to end

  /** What the client's callback sees when it fetches `uri` from this server. */
  function Fetched(uri: string, host: string, fs: Server.FileSystem): Client.Outcome {
    if 4096 < |uri| + 15 || 4096 < |host| + 10 then Failed(413, "Request Entity Too Large")
    else FetchedFile(fs("sample" + uri))
  }

  function FetchedFile(file: Server.FileState): Client.Outcome {
    match file
    case Missing => Failed(404, "Not Found")
    case Unreadable => Failed(500, "Server Error")
    case File(bytes) =>
      Client.Finished(Ok, 200, " OK", map["content-length" := " " + Decimal(|bytes|)], bytes)
  }

  function Failed(status: nat, reason: string): Client.Outcome {
    Client.Finished(Eof, status, " " + reason, map[], CRLF)
  }

  lemma FetchedBare(status: nat, reason: string, reply: string, k1: nat, k2: nat)
    requires status in Server.STATUS_TABLE && status != 200 && reason == Reason(status)
    requires reply == Server.Reply(status, "") && Client.Fragmentation(reply, k1, k2)
    ensures Client.OutcomeHaving(reply, k1, k2) == Failed(status, reason)
  {
    ClientAcceptsExactly200(status, "", k1, k2);
  }

  lemma FetchedServed(uri: string, fs: Server.FileSystem, reply: string, k1: nat, k2: nat)
    requires reply == Server.Reply(Server.StatusOf(Server.Serve(uri), fs), Server.BodyOf(Server.Serve(uri), fs))
    requires Client.Fragmentation(reply, k1, k2)
    ensures Client.OutcomeHaving(reply, k1, k2) == FetchedFile(fs("sample" + uri))
  {
    match fs("sample" + uri) {
      case Missing => FetchedBare(404, "Not Found", reply, k1, k2);
      case Unreadable => FetchedBare(500, "Server Error", reply, k1, k2);
      case File(bytes) => ClientAcceptsExactly200(200, bytes, k1, k2);
    }
  }

  lemma FetchOutcome(uri: string, host: string, fs: Server.FileSystem, k1: nat, k2: nat)
    requires IsWord(uri) && CR !in host
    requires Client.Fragmentation(Server.Answer(Client.RequestBytes(uri, host), fs), k1, k2)
    ensures Client.OutcomeHaving(Server.Answer(Client.RequestBytes(uri, host), fs), k1, k2) == Fetched(uri, host, fs)
  {
    RequestRoundTrip(uri, host);
    if Server.Decide(Client.RequestBytes(uri, host)).TooLarge? {
      FetchedBare(413, "Request Entity Too Large", Server.Answer(Client.RequestBytes(uri, host), fs), k1, k2);
    } else {
      FetchedServed(uri, fs, Server.Answer(Client.RequestBytes(uri, host), fs), k1, k2);
    }
  }

  /**
   Both programs at work: the server serves the client's request and the client reads the server's
   answer, each under any fragmentation. The callback sees `Fetched`, and the server has recovered
   the URI and the host.
   */
  method Fetch(uri: string, host: string, fs: Server.FileSystem)
    returns (request: Client.Request, service: Server.Service)
    requires IsWord(uri) && CR !in host
    ensures request.Shows(Fetched(uri, host, fs))
    ensures service.Freed()
    ensures |uri| + 15 <= 4096 && |host| + 10 <= 4096 ==>
              service.requestedResource == uri && service.requestHeaders == map["Host" := " " + host]
  {
    var atServer := new Connection(Client.RequestBytes(uri, host));
    ghost var headerBytes;
    service, headerBytes := Server.ServeConnection(atServer, fs);
    RequestRoundTrip(uri, host);
    if Server.Decide(Client.RequestBytes(uri, host)).Serve? {
      RequestHeadersRoundTrip(uri, host, headerBytes);
    }
    var answer := atServer.outgoing;
    assert answer == Server.Answer(Client.RequestBytes(uri, host), fs);
    var atClient := new Connection(answer);
    ghost var k1, k2;
    request, k1, k2 := Client.Fetch(atClient, uri, host);
    assert atClient.outgoing == Client.RequestBytes(uri, host);
    FetchOutcome(uri, host, fs, k1, k2);
  }
}
