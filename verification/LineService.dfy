/** The line service: it reads one line, answers it and frees itself. */
module LineService {
  import opened Errors
  import opened Text
  import opened Streams

  const PREFIX := "request is processed!: "

  /** The answer to one line. */
  function LineReply(line: string): string {
    PREFIX + line + "\n"
  }

  /** The bytes a peer gets for its whole stream: nothing unless a line break arrives. */
  function Answer(stream: string): string {
    if LF in stream then LineReply(FirstLine(stream)) else ""
  }

  /** The answer depends on the first line alone. */
  lemma AnswerToLine(line: string, tail: string)
    requires LF !in line
    ensures Answer(line + "\n" + tail) == LineReply(line)
  {
    FirstLineOfLine(line, tail);
    assert (line + "\n" + tail)[|line|] == LF;
  }

  /** The answer to every stream: the fixed prefix and its first line, or nothing without a line break. */
  lemma AnswerExactly(stream: string, line: string)
    requires IsFirstLine(line, stream)
    ensures Answer(stream) == if LF in stream then "request is processed!: " + line + "\n" else ""
  {
    FirstLineExactly(line, stream);
  }

  /** Read by line, the answer is the fixed prefix and the line that was sent. */
  lemma AnswerReadByLine(line: string, tail: string)
    requires LF !in line
    ensures LF in Answer(line + "\n" + tail)
    ensures FirstLine(Answer(line + "\n" + tail)) == "request is processed!: " + line
  {
    AnswerToLine(line, tail);
    assert PREFIX + line + "\n" == PREFIX + line + "\n" + "";
    FirstLineOfLine(PREFIX + line, "");
    assert (PREFIX + line + "\n")[|PREFIX + line|] == LF;
  }

  datatype Operation = ReadRequest | WriteAnswer

  class Service {
    const buffer: StreamBuf
    var response: string
    /** The one operation in progress. */
    var pending: Option<Operation>
    /** How often the object has been deleted. */
    var frees: nat

    /** Between `HandleRequest` and the deletion exactly one operation is outstanding. */
    ghost predicate Valid()
      reads this
    {
      && buffer.limit == Unbounded
      && frees == (if pending.Some? then 0 else 1)
    }

    constructor ()
      ensures pending == None && frees == 0 && response == ""
      ensures fresh(buffer) && buffer.limit == Unbounded && buffer.bytes == ""
    {
      buffer := new StreamBuf(Unbounded);
      response, pending, frees := "", None, 0;
    }

    method HandleRequest()
      requires pending == None && frees == 0 && buffer.limit == Unbounded
      modifies this`pending
      ensures Valid() && pending == Some(ReadRequest)
    {
      pending := Some(ReadRequest);
    }

    method ReceiveRequest(ec: ErrorCode)
      requires Valid() && pending == Some(ReadRequest)
      modifies this, buffer
      ensures Valid()
      ensures ec != Ok ==> pending == None && response == old(response)
      ensures ec == Ok ==> pending == Some(WriteAnswer) && response == LineReply(FirstLine(old(buffer.bytes)))
    {
      pending := None;
      if ec != Ok {
        Clean();
        return;
      }
      response := ProcessRequest();
      pending := Some(WriteAnswer);
    }

    method ProcessRequest() returns (answer: string)
      modifies buffer
      ensures answer == LineReply(FirstLine(old(buffer.bytes)))
    {
      var input := new InputStream(buffer);
      assert input.V() == Open(old(buffer.bytes));
      var output := input.Getline("", LF);
      return "request is processed!: " + output + "\n";
    }

    method SendAnswer(ec: ErrorCode)
      requires Valid() && pending == Some(WriteAnswer)
      modifies this`pending, this`frees
      ensures Valid() && pending == None
    {
      pending := None;
      Clean();
    }

    method Clean()
      requires pending == None && frees == 0
      modifies this`frees
      ensures frees == 1
    {
      frees := frees + 1;
    }
  }

  /**
   One connection without transport errors: for every fragmentation of the peer's stream the bytes sent
   back are `Answer` of the stream, and the service is freed exactly once with nothing outstanding.
   */
  method ServeConnection(conn: Connection) returns (service: Service)
    modifies conn
    ensures conn.outgoing == old(conn.outgoing) + Answer(old(conn.incoming))
    ensures service.Valid() && service.pending == None && service.frees == 1
  {
    ghost var stream := conn.incoming;
    service := new Service();
    service.HandleRequest();
    assert "" + stream == stream;
    FindByte(stream, LF);
    var ec := ReadUntil(conn, service.buffer, [LF]);
    if ec == Ok {
      FindByte(service.buffer.bytes, LF);
      assert service.buffer.bytes <= stream;
      FirstLineOfPrefix(service.buffer.bytes, stream);
    }
    service.ReceiveRequest(ec);
    if service.pending == Some(WriteAnswer) {
      WriteAll(conn, service.response);
      service.SendAnswer(Ok);
    } else {
      assert conn.outgoing == conn.outgoing + "";
    }
    conn.sendClosed := true;
  }

  /** Whatever the peer sends and the operations report, the service is freed exactly once. */
  method RunWithAnyErrors(bytes: string, readError: ErrorCode, writeError: ErrorCode) returns (service: Service)
    ensures service.Valid() && service.pending == None && service.frees == 1
    ensures service.response == if readError == Ok then LineReply(FirstLine(bytes)) else ""
  {
    service := new Service();
    service.HandleRequest();
    service.buffer.bytes := bytes;
    service.ReceiveRequest(readError);
    if service.pending == Some(WriteAnswer) {
      service.SendAnswer(writeError);
    }
  }
}
