/**
 The library pieces the handlers are written against: a bounded stream buffer, the formatted and
 unformatted reads of an input stream over it, and a connection whose reads deliver the peer's bytes
 in chunks of arbitrary non-zero size.
 */
module Streams {
  import opened Errors
  import opened Text

  // ------------------------------------------------------- input stream, as a value

  /** The unread bytes of an input stream with its error bits. */
  datatype View = View(rest: string, eof: bool, fail: bool) {
    predicate Good() {
      !eof && !fail
    }
  }

  /** A fresh stream over a buffer. */
  function Open(rest: string): View {
    View(rest, false, false)
  }

  /**
   `std::getline(stream, target, d)`. The target is erased only when the stream is good on entry.
   */
  function GetlineOf(v: View, target: string, d: char): (View, string) {
    if !v.Good() then (v.(fail := true), target)
    else
      var i := Find(v.rest, [d]);
      if 0 <= i then (v.(rest := v.rest[i + 1..]), v.rest[..i])
      else (View("", true, v.rest == ""), v.rest)
  }

  /** `stream.get()`. */
  function GetOf(v: View): View {
    if !v.Good() then v.(fail := true)
    else if v.rest == "" then View("", true, true)
    else v.(rest := v.rest[1..])
  }

  /** `stream >> target`. The target is erased only when a word is there to be read. */
  function WordOf(v: View, target: string): (View, string) {
    if !v.Good() then (v.(fail := true), target)
    else
      var s := v.rest[Blanks(v.rest)..];
      if s == "" then (View("", true, true), target)
      else
        var k := Solid(s);
        (View(s[k..], k == |s|, false), s[..k])
  }

  /** The first word of a text, or nothing, and what follows it. */
  function FirstWord(text: string): string {
    var s := text[Blanks(text)..];
    s[..Solid(s)]
  }

  function AfterWord(text: string): string {
    var s := text[Blanks(text)..];
    s[Solid(s)..]
  }

  /** That is what `>>` reads and what it leaves. */
  lemma WordOfIsFirstWord(text: string, target: string)
    ensures WordOf(Open(text), target)
         == if FirstWord(text) == "" then (View("", true, true), target)
            else (View(AfterWord(text), AfterWord(text) == "", false), FirstWord(text))
  {
  }

  /** The parts of a text that has a word in it. */
  lemma WordParts(text: string) returns (blank: string)
    requires FirstWord(text) != ""
    ensures text == blank + FirstWord(text) + AfterWord(text)
    ensures forall i :: 0 <= i < |blank| ==> IsSpace(blank[i])
    ensures IsWord(FirstWord(text)) && (AfterWord(text) == "" || IsSpace(AfterWord(text)[0]))
  {
    blank := text[..Blanks(text)];
    var s := text[Blanks(text)..];
    assert s == FirstWord(text) + AfterWord(text);
    assert forall i :: 0 <= i < |blank| ==> blank[i] == text[i];
  }

  lemma SolidOfWord(w: string, tail: string)
    requires IsWord(w)
    requires tail == "" || IsSpace(tail[0])
    ensures Solid(w + tail) == |w| && Blanks(w + tail) == 0
  {
    var s := w + tail;
    assert w[0] in w && s[0] == w[0];
    assert forall i :: 0 <= i < |w| ==> s[i] == w[i] && w[i] in w;
    assert tail != "" ==> s[|w|] == tail[0];
  }

  lemma BlanksBefore(blank: string, rest: string)
    requires forall i :: 0 <= i < |blank| ==> IsSpace(blank[i])
    requires rest != "" && !IsSpace(rest[0])
    ensures Blanks(blank + rest) == |blank| && (blank + rest)[|blank|..] == rest
  {
    var s := blank + rest;
    assert forall i :: 0 <= i < |blank| ==> s[i] == blank[i];
    assert s[|blank|] == rest[0];
  }

  /** A word between white space is the first word. */
  lemma WordAmongBlanks(blank: string, w: string, tail: string)
    requires forall i :: 0 <= i < |blank| ==> IsSpace(blank[i])
    requires IsWord(w)
    requires tail == "" || IsSpace(tail[0])
    ensures FirstWord(blank + w + tail) == w && AfterWord(blank + w + tail) == tail
  {
    var rest := w + tail;
    assert blank + w + tail == blank + rest;
    assert rest[0] == w[0] && w[0] in w;
    BlanksBefore(blank, rest);
    SolidOfWord(w, tail);
    assert rest[|w|..] == tail && rest[..|w|] == w;
  }

  /** Reading a word that is there consumes the white space before it and the word, nothing else. */
  lemma WordAfterBlank(blank: string, w: string, tail: string, target: string)
    requires forall i :: 0 <= i < |blank| ==> IsSpace(blank[i])
    requires IsWord(w)
    requires tail == "" || IsSpace(tail[0])
    ensures WordOf(Open(blank + w + tail), target) == (View(tail, tail == "", false), w)
  {
    WordAmongBlanks(blank, w, tail);
    WordOfIsFirstWord(blank + w + tail, target);
  }

  /** A word that is followed by white space is not changed by what comes after that. */
  lemma WordThenMore(text: string, more: string)
    requires FirstWord(text) != ""
    requires AfterWord(text) + more == "" || IsSpace((AfterWord(text) + more)[0])
    ensures FirstWord(text + more) == FirstWord(text) && AfterWord(text + more) == AfterWord(text) + more
  {
    var blank := WordParts(text);
    assert text + more == blank + FirstWord(text) + (AfterWord(text) + more);
    WordAmongBlanks(blank, FirstWord(text), AfterWord(text) + more);
  }

  /** In any case it can only get longer. */
  lemma WordGrows(text: string, more: string)
    requires FirstWord(text) != ""
    ensures FirstWord(text) <= FirstWord(text + more)
  {
    var blank := WordParts(text);
    var w, tail := FirstWord(text), AfterWord(text) + more;
    assert text + more == blank + (w + tail);
    assert (w + tail)[0] == w[0] && w[0] in w;
    BlanksBefore(blank, w + tail);
    WordAtFront(w, tail);
  }

  lemma WordAtFront(w: string, tail: string)
    requires IsWord(w)
    ensures w <= (w + tail)[..Solid(w + tail)]
  {
    var s := w + tail;
    assert forall i :: 0 <= i < |w| ==> s[i] == w[i] && w[i] in w;
    assert |w| <= Solid(s);
  }

  /** Two words in a row, with some white space between them. */
  lemma TwoWordsApart(v: string, blank: string, w: string, tail: string)
    requires IsWord(v) && IsWord(w) && blank != "" && forall i :: 0 <= i < |blank| ==> IsSpace(blank[i])
    requires tail == "" || IsSpace(tail[0])
    ensures var (v1, first) := WordOf(Open(v + blank + w + tail), "");
            first == v && WordOf(v1, "") == (View(tail, tail == "", false), w)
  {
    var after := blank + w + tail;
    assert "" + v + after == v + blank + w + tail;
    WordAfterBlank("", v, after, "");
    WordAfterBlank(blank, w, tail, "");
  }

  lemma TwoWords(v: string, w: string, tail: string)
    requires IsWord(v) && IsWord(w)
    requires tail == "" || IsSpace(tail[0])
    ensures var (v1, first) := WordOf(Open(v + " " + w + tail), "");
            first == v && WordOf(v1, "") == (View(tail, tail == "", false), w)
  {
    TwoWordsApart(v, " ", w, tail);
  }

  /** Three words in a row, with nothing after them. */
  lemma ThreeWords(a: string, b: string, c: string)
    requires IsWord(a) && IsWord(b) && IsWord(c)
    ensures var (v1, first) := WordOf(Open(a + " " + b + " " + c), "");
            && first == a
            && (var (v2, second) := WordOf(v1, "");
                second == b && WordOf(v2, "").1 == c)
  {
    var tail := " " + c;
    assert a + " " + b + " " + c == a + " " + b + tail;
    TwoWords(a, b, tail);
    assert " " + c + "" == tail;
    WordAfterBlank(" ", c, "", "");
  }

  /** A CR-free line and its line break are consumed by `getline` to CR and one `get`. */
  lemma GetlineCrlf(line: string, tail: string)
    requires CR !in line
    ensures var (v, got) := GetlineOf(Open(line + CRLF + tail), "", CR);
            got == line && GetOf(v) == Open(tail)
  {
    var s := line + CRLF + tail;
    assert s == line + [CR] + ("\n" + tail);
    FindByteAfter(line, CR, "\n" + tail);
    assert s[..|line|] == line && s[|line| + 1..] == "\n" + tail;
    assert ("\n" + tail)[1..] == tail;
  }

  /** The first line of a buffer, as `std::getline` reads it. */
  function FirstLine(buffer: string): string {
    GetlineOf(Open(buffer), "", LF).1
  }

  /** What that is, on the bytes: everything before the first line break, or all there is if there is none. */
  predicate IsFirstLine(line: string, text: string) {
    LF !in line && (line == text || line + "\n" <= text)
  }

  lemma FirstLineExactly(line: string, text: string)
    ensures line == FirstLine(text) <==> IsFirstLine(line, text)
  {
    FindByte(text, LF);
    var i := Find(text, [LF]);
    if 0 <= i {
      assert text[..i] + "\n" == text[..i + 1];
    }
    if line + "\n" <= text && LF !in line {
      FindByteAfter(line, LF, text[|line| + 1..]);
      assert text == line + [LF] + text[|line| + 1..];
    }
  }

  /** The first line of a prefix that has a line break is the first line of the whole. */
  lemma FirstLineOfPrefix(buffer: string, whole: string)
    requires buffer <= whole && LF in buffer
    ensures LF in whole && FirstLine(buffer) == FirstLine(whole)
  {
    FindByte(buffer, LF);
    FindPrefix(buffer, whole, [LF]);
    var i := Find(buffer, [LF]);
    assert whole[i] == buffer[i];
    assert buffer[..i] == whole[..i];
  }

  /** The first line of a line with its line break is the line, whatever follows. */
  lemma FirstLineOfLine(line: string, tail: string)
    requires LF !in line
    ensures FirstLine(line + "\n" + tail) == line
  {
    FindByteAfter(line, LF, tail);
    assert line + "\n" + tail == line + [LF] + tail;
  }

  // ---------------------------------------------------------- reading up to a delimiter

  /** How much a stream buffer may hold. */
  datatype Limit = Unbounded | AtMost(n: nat) {
    predicate Allows(k: nat) {
      AtMost? ==> k <= n
    }
  }

  /**
   What `read_until` reports, as a function of everything that is or will be in the buffer: the
   delimiter is found exactly when it ends within the limit; otherwise a full buffer is reported
   before the end of the stream is.
   */
  function ReadUntilOutcome(all: string, d: string, limit: Limit): ErrorCode {
    if 0 <= Find(all, d) && limit.Allows(Find(all, d) + |d|) then Ok
    else if limit.AtMost? && limit.n <= |all| then NotFound
    else Eof
  }

  // ----------------------------------------------------------------- mutable objects

  /** `asio::streambuf`: the bytes received and not yet consumed. */
  class StreamBuf {
    var bytes: string
    const limit: Limit

    constructor (limit: Limit)
      ensures bytes == "" && this.limit == limit
    {
      this.bytes := "";
      this.limit := limit;
    }

    constructor Of(bytes: string)
      ensures this.bytes == bytes && this.limit == Unbounded
    {
      this.bytes := bytes;
      this.limit := Unbounded;
    }
  }

  /** `std::istream` over a stream buffer it shares with its creator. */
  class InputStream {
    const buf: StreamBuf
    var eof: bool
    var fail: bool

    ghost function V(): View
      reads this, buf
    {
      View(buf.bytes, eof, fail)
    }

    constructor (buf: StreamBuf)
      ensures this.buf == buf && !eof && !fail
    {
      this.buf := buf;
      this.eof, this.fail := false, false;
    }

    method Getline(target: string, d: char) returns (line: string)
      modifies this, buf
      ensures (V(), line) == GetlineOf(old(V()), target, d)
    {
      if eof || fail {
        fail := true;
        return target;
      }
      var i := Find(buf.bytes, [d]);
      if 0 <= i {
        line := buf.bytes[..i];
        buf.bytes := buf.bytes[i + 1..];
      } else {
        line := buf.bytes;
        eof, fail, buf.bytes := true, buf.bytes == "", "";
      }
    }

    method Get()
      modifies this, buf
      ensures V() == GetOf(old(V()))
    {
      if eof || fail {
        fail := true;
      } else if buf.bytes == "" {
        eof, fail := true, true;
      } else {
        buf.bytes := buf.bytes[1..];
      }
    }

    method Word(target: string) returns (word: string)
      modifies this, buf
      ensures (V(), word) == WordOf(old(V()), target)
    {
      if eof || fail {
        fail := true;
        return target;
      }
      buf.bytes := buf.bytes[Blanks(buf.bytes)..];
      if buf.bytes == "" {
        eof, fail := true, true;
        return target;
      }
      var k := Solid(buf.bytes);
      word := buf.bytes[..k];
      eof := k == |buf.bytes|;
      buf.bytes := buf.bytes[k..];
    }
  }

  /**
   One end of a TCP connection. `incoming` is everything the peer has still to deliver before its
   end of stream; `outgoing` is everything written so far.
   */
  class Connection {
    var incoming: string
    var outgoing: string
    var sendClosed: bool
    /** The transport error that has broken the connection, if one has. */
    var broken: Option<nat>

    constructor (incoming: string)
      ensures this.incoming == incoming && outgoing == "" && !sendClosed && broken == None
    {
      this.incoming := incoming;
      this.outgoing := "";
      this.sendClosed := false;
      this.broken := None;
    }

    /** The connection may break now, and stays broken. */
    method MayBreak()
      modifies this`broken
      ensures old(broken).Some? ==> broken == old(broken)
    {
      var breaks: bool, code: nat := *, *;
      if breaks && broken == None {
        broken := Some(code);
      }
    }

    /** `read_some` before the end of the stream: any non-empty chunk of at most `max` bytes. */
    method ReadSome(max: nat) returns (chunk: string)
      requires 0 < max && incoming != ""
      modifies this`incoming
      ensures 0 < |chunk| <= max && chunk + incoming == old(incoming)
    {
      var n :| 1 <= n <= |incoming| && n <= max;
      chunk, incoming := incoming[..n], incoming[n..];
    }

    /** `write_some`: any non-empty prefix of `data` is accepted. */
    method WriteSome(data: string) returns (n: nat)
      requires data != ""
      modifies this`outgoing
      ensures 0 < n <= |data| && outgoing == old(outgoing) + data[..n]
    {
      n :| 1 <= n <= |data|;
      outgoing := outgoing + data[..n];
    }
  }

  /**
   `asio::read_until`: search; if the delimiter is absent and the buffer is full report `NotFound`;
   otherwise append a non-empty chunk or report `Eof`. Whatever the chunks are, no byte is lost or
   reordered and the report is the one `ReadUntilOutcome` gives; how far the buffer is filled past
   the delimiter is not determined.
   */
  method ReadUntil(conn: Connection, buf: StreamBuf, d: string) returns (ec: ErrorCode)
    requires buf.limit.Allows(|buf.bytes|)
    modifies conn`incoming, buf
    ensures buf.bytes + conn.incoming == old(buf.bytes + conn.incoming)
    ensures old(buf.bytes) <= buf.bytes && buf.limit.Allows(|buf.bytes|)
    ensures ec == ReadUntilOutcome(old(buf.bytes + conn.incoming), d, buf.limit)
    ensures ec == Ok <==> 0 <= Find(buf.bytes, d)
    ensures ec == Eof ==> conn.incoming == ""
  {
    ghost var all := buf.bytes + conn.incoming;
    while true
      invariant buf.bytes + conn.incoming == all
      invariant old(buf.bytes) <= buf.bytes && buf.limit.Allows(|buf.bytes|)
      decreases |conn.incoming|
    {
      FindPrefix(buf.bytes, all, d);
      if 0 <= Find(buf.bytes, d) {
        return Ok;
      }
      if buf.limit.AtMost? && |buf.bytes| == buf.limit.n {
        return NotFound;
      }
      if conn.incoming == "" {
        assert buf.bytes == all;
        return Eof;
      }
      var room := if buf.limit.AtMost? then buf.limit.n - |buf.bytes| else |conn.incoming|;
      var chunk := conn.ReadSome(room);
      assert buf.bytes + (chunk + conn.incoming) == buf.bytes + chunk + conn.incoming;
      buf.bytes := buf.bytes + chunk;
    }
  }

  /** `asio::read` into an unbounded buffer: it ends with `Eof` and everything received. */
  method ReadAll(conn: Connection, buf: StreamBuf) returns (ec: ErrorCode)
    requires buf.limit == Unbounded
    modifies conn`incoming, buf
    ensures ec == Eof && conn.incoming == ""
    ensures buf.bytes == old(buf.bytes + conn.incoming)
  {
    buf.bytes := buf.bytes + conn.incoming;
    conn.incoming := "";
    ec := Eof;
  }

  /** `asio::write`, which completes when everything is sent. */
  method WriteAll(conn: Connection, data: string)
    modifies conn`outgoing
    ensures conn.outgoing == old(conn.outgoing) + data
  {
    conn.outgoing := conn.outgoing + data;
  }
}
