/**
 What the HTTP client makes of a response, and fragmentation: exactly which responses give the callback
 different things depending on how many bytes had been received when the two parses started.
 */
module HttpFragmentation {
  import opened Errors
  import opened Text
  import opened Streams
  import opened HeaderFields
  import opened HttpClient

  // ------------------------------------------------------------- the condition, on the bytes

  /** The line holds every word that is read from it: a version, and a code if the version is right. */
  predicate HoldsItsWords(line: string) {
    && FirstWord(line) != ""
    && (FirstWord(line) == "HTTP/1.1" ==> FirstWord(AfterWord(line)) != "")
  }

  /** The word begins with a digit, or with a sign and a digit. */
  predicate CodeBegins(word: string) {
    word != "" && (IsDigit(word[0]) || (IsSign(word[0]) && 1 < |word| && IsDigit(word[1])))
  }

  predicate IsSign(c: char) {
    c == '+' || c == '-'
  }

  /**
   The header loop, started on these bytes, comes to the second byte of the first blank line, and there
   are bytes after the blank line.
   */
  ghost predicate Shifted(rest: string) {
    var b := Find(rest, CRLFCRLF);
    0 <= b && b + 4 < |rest| && ShiftedAt(rest, b)
  }

  /**
   The first line does not hold the words that are read from it, and a version and the beginning of a
   code are there to be read; or it does, is accepted, and the header loop is shifted into the blank line.
   */
  ghost predicate Sensitive(stream: string) {
    var n := Find(stream, CRLF);
    0 <= n &&
    if HoldsItsWords(stream[..n]) then TakeStatusLine(stream).Status? && Shifted(TakeStatusLine(stream).rest)
    else FirstWord(stream) == "HTTP/1.1" && CodeBegins(FirstWord(AfterWord(stream)))
  }

  /** Some fragmentation of the stream shows the callback this. */
  ghost predicate Shows(stream: string, outcome: Outcome) {
    exists k1, k2 :: Fragmentation(stream, k1, k2) && OutcomeHaving(stream, k1, k2) == outcome
  }

  /** Two fragmentations of the stream show the callback different things. */
  ghost predicate Varies(stream: string) {
    exists one, other :: Shows(stream, one) && Shows(stream, other) && one != other
  }

  // ----------------------------------------------------------- the status line, by its words

  /** What is read after the code: the message, up to CR, and one byte. */
  function TakeMessage(code: nat, left: string): StatusLine {
    var (v, message) := GetlineOf(Open(left), "", CR);
    Status(code, message, GetOf(v).rest)
  }

  function TakeWords(buffer: string): StatusLine {
    var word := FirstWord(AfterWord(buffer));
    if FirstWord(buffer) != "HTTP/1.1" || word == "" then Malformed
    else
      match Stoul(word)
      case None => Malformed
      case Some(code) => TakeMessage(code, AfterWord(AfterWord(buffer)))
  }

  lemma NoNumberInNothing()
    ensures Stoul("") == None
  {
    assert Blanks("") == 0 && Digits("") == 0;
  }

  /** The handler's reads, in those terms. */
  lemma TakesWords(buffer: string)
    ensures TakeStatusLine(buffer) == TakeWords(buffer)
  {
    WordOfIsFirstWord(buffer, "");
    NoNumberInNothing();
    if FirstWord(buffer) == "HTTP/1.1" {
      WordOfIsFirstWord(AfterWord(buffer), "");
    }
  }

  /** The message ends at the first CR, which is at the line break at the latest. */
  lemma MessageInLine(code: nat, left: string, more: string)
    ensures var (taken, whole) := (TakeMessage(code, left + CRLF), TakeMessage(code, left + CRLF + more));
            && whole == taken.(rest := taken.rest + more)
            && |taken.rest| <= |left| && taken.rest == (left + CRLF)[|left| + 2 - |taken.rest|..]
  {
    var line := left + CRLF;
    assert line[|left|] == CR;
    FindByte(line, CR);
    var p := Find(line, "\r");
    assert CR !in line[..p] && p <= |left|;
    FindPrefix(line, line + more, "\r");
    assert (line + more)[..p] == line[..p];
    assert line[p + 1..][1..] == line[p + 2..];
    assert (line + more)[p + 1..][1..] == line[p + 2..] + more;
  }

  /** Both words are read from a line that holds them, whatever comes after its break. */
  lemma WordsInLine(line: string, more: string)
    requires HoldsItsWords(line) && more != "" && IsSpace(more[0])
    ensures FirstWord(line + more) == FirstWord(line)
    ensures FirstWord(line) == "HTTP/1.1" ==>
              && FirstWord(AfterWord(line + more)) == FirstWord(AfterWord(line))
              && AfterWord(AfterWord(line + more)) == AfterWord(AfterWord(line)) + more
  {
    WordThenSpace(line, more);
    if FirstWord(line) == "HTTP/1.1" {
      WordThenSpace(AfterWord(line), more);
    }
  }

  lemma WordThenSpace(text: string, more: string)
    requires FirstWord(text) != "" && more != "" && IsSpace(more[0])
    ensures FirstWord(text + more) == FirstWord(text) && AfterWord(text + more) == AfterWord(text) + more
  {
    var blank := WordParts(text);
    WordThenMore(text, more);
  }

  lemma WordIsSuffix(text: string)
    ensures |AfterWord(text)| <= |text| && AfterWord(text) == text[|text| - |AfterWord(text)|..]
  {
  }

  lemma LeftIsSuffix(line: string)
    ensures var left := AfterWord(AfterWord(line)); |left| <= |line| && left == line[|line| - |left|..]
  {
    WordIsSuffix(line);
    WordIsSuffix(AfterWord(line));
    SuffixAgain(line, AfterWord(line), AfterWord(AfterWord(line)));
  }

  lemma SuffixAgain(a: string, b: string, c: string)
    requires |b| <= |a| && b == a[|a| - |b|..] && |c| <= |b| && c == b[|b| - |c|..]
    ensures c == a[|a| - |c|..]
  {
  }

  lemma Associate(a: string, b: string, c: string)
    ensures a + b + c == a + (b + c)
  {
  }

  lemma SuffixOfSuffix(line: string, left: string, rest: string)
    requires |left| <= |line| && left == line[|line| - |left|..]
    requires |rest| <= |left| + 2 && rest == (left + CRLF)[|left| + 2 - |rest|..]
    ensures rest == (line + CRLF)[|line| + 2 - |rest|..]
  {
    assert line + CRLF == line[..|line| - |left|] + (left + CRLF);
  }

  /** A longer buffer gives the same, with more left unread; what was left before is the end of the line. */
  ghost predicate Prolongs(line: string, more: string, taken: StatusLine, whole: StatusLine) {
    match taken
    case Malformed => whole == Malformed
    case Status(code, message, rest) =>
      && whole == Status(code, message, rest + more)
      && |rest| <= |line| && rest == (line + CRLF)[|line| + 2 - |rest|..]
  }

  lemma TakesAccepted(buffer: string, code: nat, left: string)
    requires FirstWord(buffer) == "HTTP/1.1" && FirstWord(AfterWord(buffer)) != ""
    requires Stoul(FirstWord(AfterWord(buffer))) == Some(code) && left == AfterWord(AfterWord(buffer))
    ensures TakeWords(buffer) == TakeMessage(code, left)
  {
  }

  /** The same by what is left of the line after its two words. */
  lemma LeftProlongs(line: string, left: string, more: string, code: nat)
    requires |left| <= |line| && left == line[|line| - |left|..]
    ensures Prolongs(line, more, TakeMessage(code, left + CRLF), TakeMessage(code, left + (CRLF + more)))
  {
    Associate(left, CRLF, more);
    MessageInLine(code, left, more);
    SuffixOfSuffix(line, left, TakeMessage(code, left + CRLF).rest);
  }

  lemma AcceptedLine(line: string, more: string, code: nat)
    requires HoldsItsWords(line) && FirstWord(line) == "HTTP/1.1" && more != "" && IsSpace(more[0])
    requires Stoul(FirstWord(AfterWord(line))) == Some(code)
    ensures TakeWords(line + more) == TakeMessage(code, AfterWord(AfterWord(line)) + more)
  {
    WordsInLine(line, more);
    TakesAccepted(line + more, code, AfterWord(AfterWord(line)) + more);
  }

  lemma AcceptedLineProlongs(line: string, more: string, code: nat)
    requires HoldsItsWords(line) && FirstWord(line) == "HTTP/1.1"
    requires Stoul(FirstWord(AfterWord(line))) == Some(code)
    ensures Prolongs(line, more, TakeWords(line + CRLF), TakeWords(line + (CRLF + more)))
  {
    AcceptedLine(line, CRLF, code);
    AcceptedLine(line, CRLF + more, code);
    LeftIsSuffix(line);
    LeftProlongs(line, AfterWord(AfterWord(line)), more, code);
  }

  /** What is made of a line that holds its words: bytes received after its break are only left unread. */
  lemma TakesLine(line: string, more: string)
    requires HoldsItsWords(line)
    ensures Prolongs(line, more, TakeWords(line + CRLF), TakeWords(line + CRLF + more))
  {
    Associate(line, CRLF, more);
    var code := Stoul(FirstWord(AfterWord(line)));
    if FirstWord(line) == "HTTP/1.1" && code.Some? {
      AcceptedLineProlongs(line, more, code.value);
    } else {
      WordsInLine(line, CRLF);
      WordsInLine(line, CRLF + more);
    }
  }

  // ------------------------------------------------- the first line holds its words

  lemma SplitAtBreak(stream: string, n: nat, k: nat)
    requires At(stream, CRLF, n) && n + 2 <= k <= |stream|
    ensures stream[..n + 2] == stream[..n] + CRLF
    ensures stream[..k] == stream[..n] + CRLF + stream[n + 2..k]
  {
    assert stream[n..n + 2] == CRLF;
    assert stream[..n + 2] == stream[..n] + stream[n..n + 2];
    assert stream[..k] == stream[..n + 2] + stream[n + 2..k];
  }

  lemma JoinAgain(rest: string, stream: string, n: nat, k: nat)
    requires n <= k <= |stream|
    ensures rest + stream[n..k] + stream[k..] == rest + stream[n..|stream|] && stream[..|stream|] == stream
  {
    assert stream[n..k] + stream[k..] == stream[n..|stream|];
  }

  /** The status line is what it is as soon as its break has been received. */
  lemma TakesFirstLine(stream: string, n: nat, k: nat)
    requires n == Find(stream, CRLF) && n + 2 <= k <= |stream| && HoldsItsWords(stream[..n])
    ensures Prolongs(stream[..n], stream[n + 2..k], TakeStatusLine(stream[..n + 2]), TakeStatusLine(stream[..k]))
  {
    SplitAtBreak(stream, n, k);
    TakesLine(stream[..n], stream[n + 2..k]);
    TakesWords(stream[..n + 2]);
    TakesWords(stream[..k]);
  }

  /** No fragmentation parses before the break. */
  lemma PastBreak(stream: string, k1: nat, k2: nat)
    requires Fragmentation(stream, k1, k2) && 0 <= Find(stream, CRLF)
    ensures Find(stream, CRLF) + 2 <= k1
  {
    FindPrefix(stream[..k1], stream, CRLF);
  }

  /** What every fragmentation shows, by the bytes the header parse starts on. */
  lemma OutcomeOfLine(stream: string, k1: nat, k2: nat)
    requires Fragmentation(stream, k1, k2) && 0 <= Find(stream, CRLF)
    requires HoldsItsWords(stream[..Find(stream, CRLF)])
    ensures match TakeStatusLine(stream)
            case Malformed => OutcomeHaving(stream, k1, k2) == Finished(InvalidResponse, 0, "", map[], "")
            case Status(code, message, rest) =>
              && k2 <= |rest| && (0 <= Find(rest, CRLFCRLF) ==> 0 <= Find(rest[..k2], CRLFCRLF))
              && OutcomeHaving(stream, k1, k2) == AfterStatusLine(code, message, rest, k2)
  {
    var n := Find(stream, CRLF);
    PastBreak(stream, k1, k2);
    TakesFirstLine(stream, n, k1);
    TakesFirstLine(stream, n, |stream|);
    JoinAgain("", stream, n + 2, k1);
    var early := TakeStatusLine(stream[..n + 2]);
    if early.Status? {
      JoinAgain(early.rest, stream, n + 2, k1);
    }
  }

  /** The outcome by what the header parse leaves of the first `k` bytes. */
  lemma AfterLineIs(code: nat, message: string, rest: string, k: nat, headers: Headers, left: string)
    requires 0 <= Find(rest, CRLFCRLF) && k <= |rest|
    requires ClientFields(rest[..k], map[]) == Done(headers, left)
    ensures AfterStatusLine(code, message, rest, k) == Finished(Ok, code, message, headers, left + rest[k..])
  {
  }

  lemma UnshiftedOutcome(code: nat, message: string, rest: string, k: nat, j: nat)
    requires 0 <= Find(rest, CRLFCRLF) && !ShiftedAt(rest, Find(rest, CRLFCRLF))
    requires Find(rest, CRLFCRLF) + 4 <= k <= |rest| && Find(rest, CRLFCRLF) + 4 <= j <= |rest|
    ensures AfterStatusLine(code, message, rest, k) == AfterStatusLine(code, message, rest, j)
  {
    var b := Find(rest, CRLFCRLF);
    var headers, left := UnshiftedParse(rest, b, map[]);
    AfterLineIs(code, message, rest, k, headers, left + rest[b + 4..k]);
    AfterLineIs(code, message, rest, j, headers, left + rest[b + 4..j]);
    JoinAgain(left, rest, b + 4, k);
    JoinAgain(left, rest, b + 4, j);
  }

  /** Unless the loop is shifted, the number of bytes the header parse starts on makes no difference. */
  lemma AfterLineIgnoresFragmentation(code: nat, message: string, rest: string, k: nat, j: nat)
    requires !Shifted(rest) && k <= |rest| && j <= |rest|
    requires 0 <= Find(rest, CRLFCRLF) ==> 0 <= Find(rest[..k], CRLFCRLF) && 0 <= Find(rest[..j], CRLFCRLF)
    ensures AfterStatusLine(code, message, rest, k) == AfterStatusLine(code, message, rest, j)
  {
    var b := Find(rest, CRLFCRLF);
    if 0 <= b {
      FindPrefix(rest[..k], rest, CRLFCRLF);
      FindPrefix(rest[..j], rest, CRLFCRLF);
      if b + 4 < |rest| {
        UnshiftedOutcome(code, message, rest, k, j);
      }
    }
  }

  /** With one byte past the blank line, it is lost if it is a CR, and the loop never ends if it is not. */
  lemma OneBytePastBlankLine(b: nat, code: nat, message: string, rest: string, headers: Headers)
    requires b == Find(rest, CRLFCRLF) && b + 4 < |rest|
    requires ClientFields(rest[..b + 5], map[]) == if rest[b + 4] == CR then Done(headers, "") else Hung
    ensures AfterStatusLine(code, message, rest, b + 5)
            == if rest[b + 4] == CR then Finished(Ok, code, message, headers, rest[b + 5..]) else Spinning
  {
    if rest[b + 4] == CR {
      NothingLeft(code, message, rest, b + 5, headers);
    }
  }

  /**
   If the loop is shifted one byte does: with the blank line received and nothing after it the request succeeds with all
   that follows as its body; with one byte more it loses that byte if it is a CR, and never ends if it is not.
   */
  lemma OneByteMatters(b: nat, code: nat, message: string, rest: string) returns (headers: Headers)
    requires b == Find(rest, CRLFCRLF) && Shifted(rest)
    ensures AfterStatusLine(code, message, rest, b + 4) == Finished(Ok, code, message, headers, rest[b + 4..])
    ensures AfterStatusLine(code, message, rest, b + 5)
            == if rest[b + 4] == CR then Finished(Ok, code, message, headers, rest[b + 5..]) else Spinning
  {
    headers := ShiftedParse(rest, b, map[]);
    NothingLeft(code, message, rest, b + 4, headers);
    OneBytePastBlankLine(b, code, message, rest, headers);
  }

  lemma NothingLeft(code: nat, message: string, rest: string, k: nat, headers: Headers)
    requires 0 <= Find(rest, CRLFCRLF) && k <= |rest|
    requires ClientFields(rest[..k], map[]) == Done(headers, "")
    ensures AfterStatusLine(code, message, rest, k) == Finished(Ok, code, message, headers, rest[k..])
  {
    AfterLineIs(code, message, rest, k, headers, "");
    assert "" + rest[k..] == rest[k..];
  }

  /** The status line's leftover ends before the blank line does, so either number of bytes can be there. */
  lemma LeftoverIsShort(line: string, early: string, more: string)
    requires Find(line + CRLF + more, CRLF) == |line|
    requires |early| <= |line| && early == (line + CRLF)[|line| + 2 - |early|..]
    requires 0 <= Find(early + more, CRLFCRLF)
    ensures |early| <= Find(early + more, CRLFCRLF) + 2
  {
    var b := Find(early + more, CRLFCRLF);
    var stream, q := line + CRLF + more, |line| + 2 - |early|;
    assert stream[q..] == early + more;
    AtSuffix(stream, q, CRLFCRLF, b);
    assert stream[q + b..q + b + 2] == stream[q + b..q + b + 4][..2];
    assert At(stream, CRLF, q + b);
  }

  /** What is made of the first line if it holds its words. */
  function HeldStatus(stream: string): StatusLine {
    var n := Find(stream, CRLF);
    if 0 <= n && HoldsItsWords(stream[..n]) then TakeStatusLine(stream) else Malformed
  }

  lemma WholeProlongs(stream: string, n: nat, whole: StatusLine)
    requires n == Find(stream, CRLF) && whole == HeldStatus(stream) && whole.Status?
    ensures n + 2 <= |stream| && Prolongs(stream[..n], stream[n + 2..], TakeStatusLine(stream[..n + 2]), whole)
  {
    FirstBreakReceived(stream, n);
    TakesFirstLine(stream, n, |stream|);
    JoinAgain("", stream, n + 2, |stream|);
  }

  /** The status line's leftover is no longer than the rest up to its blank line. */
  lemma EarlyIsShort(stream: string, n: nat, early: StatusLine, code: nat, message: string, rest: string)
    requires n == Find(stream, CRLF) && n + 2 <= |stream|
    requires Prolongs(stream[..n], stream[n + 2..], early, Status(code, message, rest))
    requires 0 <= Find(rest, CRLFCRLF)
    ensures early.Status? && rest == early.rest + stream[n + 2..] && |early.rest| <= Find(rest, CRLFCRLF) + 2
  {
    SplitAtBreak(stream, n, |stream|);
    JoinAgain("", stream, n + 2, |stream|);
    LeftoverIsShort(stream[..n], early.rest, stream[n + 2..]);
  }

  lemma FragmentationOf(stream: string, n: nat, b: nat, k2: nat, early: StatusLine,
                        code: nat, message: string, rest: string)
    requires n == Find(stream, CRLF) && n + 2 <= |stream| && early == TakeStatusLine(stream[..n + 2])
    requires Prolongs(stream[..n], stream[n + 2..], early, Status(code, message, rest))
    requires b == Find(rest, CRLFCRLF) && b + 4 <= k2 <= |rest|
    ensures Fragmentation(stream, n + 2, k2)
  {
    EarlyIsShort(stream, n, early, code, message, rest);
    FirstBreakReceived(stream, n);
    FindInPrefix(rest, CRLFCRLF, k2);
    IsFragmentation(stream, n + 2, k2, early, rest);
  }

  /** The fragmentation in which the line has just been received, and then these first bytes of the rest. */
  lemma EarlyFragmentation(stream: string, n: nat, b: nat, k2: nat, code: nat, message: string, rest: string)
    requires n == Find(stream, CRLF) && HeldStatus(stream) == Status(code, message, rest)
    requires b == Find(rest, CRLFCRLF) && b + 4 <= k2 <= |rest|
    ensures Fragmentation(stream, n + 2, k2)
  {
    WholeProlongs(stream, n, Status(code, message, rest));
    FragmentationOf(stream, n, b, k2, TakeStatusLine(stream[..n + 2]), code, message, rest);
  }

  lemma IsFragmentation(stream: string, k1: nat, k2: nat, early: StatusLine, rest: string)
    requires k1 <= |stream| && 0 <= Find(stream[..k1], CRLF)
    requires early == TakeStatusLine(stream[..k1]) && early.Status? && rest == early.rest + stream[k1..]
    requires |early.rest| <= k2 <= |rest| && 0 <= Find(rest[..k2], CRLFCRLF)
    ensures Fragmentation(stream, k1, k2)
  {
  }

  lemma FindInPrefix(text: string, d: string, k: nat)
    requires 0 <= Find(text, d) && Find(text, d) + |d| <= k <= |text|
    ensures 0 <= Find(text[..k], d)
  {
    FindPrefix(text[..k], text, d);
  }

  lemma FirstBreakReceived(stream: string, n: nat)
    requires n == Find(stream, CRLF)
    ensures n + 2 <= |stream| && 0 <= Find(stream[..n + 2], CRLF)
  {
    FindInPrefix(stream, CRLF, n + 2);
  }

  /** What a fragmentation shows. */
  lemma FragmentationShows(stream: string, k1: nat, k2: nat, code: nat, message: string, rest: string)
    requires Fragmentation(stream, k1, k2) && HeldStatus(stream) == Status(code, message, rest)
    ensures k2 <= |rest| && Shows(stream, AfterStatusLine(code, message, rest, k2))
  {
    OutcomeOfLine(stream, k1, k2);
  }

  lemma EarlyOutcome(stream: string, n: nat, b: nat, k2: nat, code: nat, message: string, rest: string)
    requires n == Find(stream, CRLF) && HeldStatus(stream) == Status(code, message, rest)
    requires b == Find(rest, CRLFCRLF) && b + 4 <= k2 <= |rest|
    ensures Shows(stream, AfterStatusLine(code, message, rest, k2))
  {
    EarlyFragmentation(stream, n, b, k2, code, message, rest);
    FragmentationShows(stream, n + 2, k2, code, message, rest);
  }

  lemma EarlyOutcomes(stream: string, n: nat, b: nat, code: nat, message: string, rest: string)
    requires n == Find(stream, CRLF) && HeldStatus(stream) == Status(code, message, rest)
    requires b == Find(rest, CRLFCRLF) && b + 4 < |rest|
    ensures Shows(stream, AfterStatusLine(code, message, rest, b + 4))
    ensures Shows(stream, AfterStatusLine(code, message, rest, b + 5))
  {
    EarlyOutcome(stream, n, b, b + 4, code, message, rest);
    EarlyOutcome(stream, n, b, b + 5, code, message, rest);
  }

  /** What a shifted header loop shows: success in one fragmentation, and in another something else. */
  lemma SuccessOrNot(stream: string, b: nat, code: nat, message: string, rest: string)
    returns (headers: Headers)
    requires HeldStatus(stream) == Status(code, message, rest)
    requires b == Find(rest, CRLFCRLF) && Shifted(rest)
    ensures Shows(stream, Finished(Ok, code, message, headers, rest[b + 4..]))
    ensures rest[b + 4] == CR ==> Shows(stream, Finished(Ok, code, message, headers, rest[b + 5..]))
    ensures rest[b + 4] != CR ==> Shows(stream, Spinning)
  {
    headers := OneByteMatters(b, code, message, rest);
    EarlyOutcomes(stream, Find(stream, CRLF), b, code, message, rest);
  }

  /** It makes the outcome vary. */
  lemma ShiftedVaries(stream: string, b: nat, code: nat, message: string, rest: string)
    requires HeldStatus(stream) == Status(code, message, rest)
    requires b == Find(rest, CRLFCRLF) && Shifted(rest)
    ensures Varies(stream)
  {
    var headers := SuccessOrNot(stream, b, code, message, rest);
    assert |rest[b + 4..]| != |rest[b + 5..]|;
  }

  // -------------------------------------------- the first line does not hold its words

  /** A number begins like one. */
  lemma NumberBegins(word: string)
    requires IsWord(word) && Stoul(word).Some?
    ensures CodeBegins(word)
  {
    assert word[0] in word;
    assert Blanks(word) == 0 && word[0..] == word;
  }

  /** The beginning of a code is a number as soon as its first digit has been received. */
  lemma FirstDigitIsNumber(word: string) returns (c: nat)
    requires CodeBegins(word)
    ensures 0 < c <= |word| && Stoul(word[..c]).Some?
  {
    c := if IsDigit(word[0]) then 1 else 2;
    var s := word[..c];
    assert !IsSpace(s[0]);
    assert Blanks(s) == 0 && s[0..] == s;
    if c == 1 {
      OneDigit(s);
    } else {
      assert s[1..] == [word[1]];
      OneDigit(s[1..]);
    }
  }

  lemma OneDigit(s: string)
    requires |s| == 1 && IsDigit(s[0])
    ensures Digits(s) == 1 && (forall c :: c in s[..1] ==> IsDigit(c)) && DigitsValue(s[..1]) < 10
  {
    assert s[1..] == "" && s[..1] == s;
    assert s[..0] == "";
    assert Digits(s) == 1 + Digits(s[1..]);
  }

  lemma AcceptedWords(text: string)
    requires TakeStatusLine(text).Status?
    ensures FirstWord(text) == "HTTP/1.1"
    ensures FirstWord(AfterWord(text)) != "" && Stoul(FirstWord(AfterWord(text))).Some?
  {
    TakesWords(text);
  }

  /** Two words stay what they are when more is received, but the second may get longer. */
  lemma WordsOfLonger(text: string, more: string)
    requires FirstWord(text) != "" && FirstWord(AfterWord(text)) != ""
    ensures FirstWord(text + more) == FirstWord(text)
    ensures FirstWord(AfterWord(text)) <= FirstWord(AfterWord(text + more))
  {
    var blank := WordParts(text);
    assert AfterWord(text) != "";
    WordThenMore(text, more);
    WordGrows(AfterWord(text), more);
  }

  lemma LongerCodeBegins(word: string, longer: string)
    requires CodeBegins(word) && word <= longer
    ensures CodeBegins(longer)
  {
  }

  lemma Halves(stream: string, k: nat)
    requires k <= |stream|
    ensures stream == stream[..k] + stream[k..]
  {
  }

  /** A status line accepted in part of a stream means that the stream begins so. */
  lemma AcceptedMeansBegins(stream: string, k: nat)
    requires k <= |stream| && TakeStatusLine(stream[..k]).Status?
    ensures FirstWord(stream) == "HTTP/1.1" && CodeBegins(FirstWord(AfterWord(stream)))
  {
    Halves(stream, k);
    LongerBegins(stream[..k], stream[k..]);
  }

  lemma LongerBegins(text: string, more: string)
    requires TakeStatusLine(text).Status?
    ensures FirstWord(text + more) == "HTTP/1.1" && CodeBegins(FirstWord(AfterWord(text + more)))
  {
    AcceptedWords(text);
    WordsOfLonger(text, more);
    SecondWordBegins(AfterWord(text));
    LongerCodeBegins(FirstWord(AfterWord(text)), FirstWord(AfterWord(text + more)));
  }

  lemma SecondWordBegins(after: string)
    requires FirstWord(after) != "" && Stoul(FirstWord(after)).Some?
    ensures CodeBegins(FirstWord(after))
  {
    var blank := WordParts(after);
    NumberBegins(FirstWord(after));
  }

  /** White space has no word in it. */
  lemma BlankHasNoWord(text: string)
    ensures FirstWord(text) == "" <==> forall i :: 0 <= i < |text| ==> IsSpace(text[i])
  {
    var b := Blanks(text);
    if b < |text| {
      assert text[b..][0] == text[b];
    }
  }

  /** A line that lacks a word is rejected when nothing has been received after it. */
  lemma LackingLineIsRejected(line: string)
    requires !HoldsItsWords(line)
    ensures TakeStatusLine(line + CRLF) == Malformed
  {
    TakesWords(line + CRLF);
    if FirstWord(line) == "" {
      BlankAndBreak(line);
    } else {
      WordThenSpace(line, CRLF);
      BlankAndBreak(AfterWord(line));
    }
  }

  lemma BlankAndBreak(text: string)
    requires FirstWord(text) == ""
    ensures FirstWord(text + CRLF) == ""
  {
    BlankHasNoWord(text);
    BlankHasNoWord(text + CRLF);
  }

  /** The parts of a stream that begins with a version and the beginning of a code. */
  lemma StreamParts(stream: string) returns (before: string, code: string, tail: string)
    requires FirstWord(stream) == "HTTP/1.1" && CodeBegins(FirstWord(AfterWord(stream)))
    ensures stream == before + code + tail && CodeBegins(code) && IsWord(code)
    ensures FirstWord(before) == "HTTP/1.1" && FirstWord(AfterWord(before)) == ""
    ensures AfterWord(before) != ""
  {
    var b1 := WordParts(stream);
    var after := AfterWord(stream);
    var b2 := WordParts(after);
    code, tail := FirstWord(after), AfterWord(after);
    before := b1 + "HTTP/1.1" + b2;
    StreamIsParts(stream, b1, b2, code, tail);
    assert b2 != "" by {
      assert after[0] == (b2 + code + tail)[0] && code[0] in code;
    }
    WordAmongBlanks(b1, "HTTP/1.1", b2);
    BlankHasNoWord(b2);
  }

  lemma StreamIsParts(stream: string, b1: string, b2: string, code: string, tail: string)
    requires stream == b1 + "HTTP/1.1" + (b2 + code + tail)
    ensures stream == b1 + "HTTP/1.1" + b2 + code + tail
  {
  }

  /** With part of the code received the status line is accepted. */
  lemma BegunIsAccepted(before: string, code: string)
    requires FirstWord(before) == "HTTP/1.1" && AfterWord(before) != "" && FirstWord(AfterWord(before)) == ""
    requires IsWord(code) && Stoul(code).Some?
    ensures TakeStatusLine(before + code).Status?
  {
    var blank := WordParts(before);
    WordThenMore(before, code);
    BlankHasNoWord(AfterWord(before));
    WordAmongBlanks(AfterWord(before), code, "");
    assert AfterWord(before) + code + "" == AfterWord(before) + code;
    TakesWords(before + code);
  }

  lemma SplitAt(stream: string, before: string, f: nat, n: nat)
    requires f <= n <= |stream| && before == stream[..f]
    ensures stream[..n] == before + stream[f..n]
  {
  }

  /** A version and more than white space after it are the words of a line. */
  lemma HeldByPrefix(before: string, more: string)
    requires FirstWord(before) == "HTTP/1.1" && AfterWord(before) != "" && more != "" && !IsSpace(more[0])
    ensures HoldsItsWords(before + more)
  {
    var blank := WordParts(before);
    WordThenMore(before, more);
    BlankHasNoWord(AfterWord(before) + more);
    assert (AfterWord(before) + more)[|AfterWord(before)|] == more[0];
  }

  /** The code begins after the break of a first line that lacks a word. */
  lemma CodeIsPastBreak(stream: string, n: nat, before: string, code: string, tail: string)
    requires n == Find(stream, CRLF) && !HoldsItsWords(stream[..n])
    requires stream == before + code + tail && IsWord(code)
    requires FirstWord(before) == "HTTP/1.1" && AfterWord(before) != ""
    ensures n + 2 <= |before|
  {
    var f := |before|;
    assert stream[f] == code[0] && code[0] in code;
    assert stream[n..n + 2] == CRLF;
    assert stream[n] == stream[n..n + 2][0] && stream[n + 1] == stream[n..n + 2][1];
    if f < n {
      SplitAt(stream, before, f, n);
      HeldByPrefix(before, stream[f..n]);
    }
  }

  lemma OutcomeOfRejected(stream: string, k1: nat, k2: nat)
    requires Fragmentation(stream, k1, k2) && 0 <= Find(stream, CRLF) && TakeStatusLine(stream[..k1]).Malformed?
    ensures OutcomeHaving(stream, k1, k2) == Finished(InvalidResponse, 0, "", map[], "")
  {
  }

  lemma OutcomeOfAccepted(stream: string, k1: nat, k2: nat)
    requires Fragmentation(stream, k1, k2) && 0 <= Find(stream, CRLF) && TakeStatusLine(stream[..k1]).Status?
    ensures OutcomeHaving(stream, k1, k2) != Finished(InvalidResponse, 0, "", map[], "")
  {
  }

  /** With nothing received after a first line that lacks a word, the response is rejected. */
  lemma EarlyRejected(stream: string, n: nat)
    requires n == Find(stream, CRLF) && !HoldsItsWords(stream[..n])
    ensures Shows(stream, Finished(InvalidResponse, 0, "", map[], ""))
  {
    FirstBreakReceived(stream, n);
    SplitAtBreak(stream, n, n + 2);
    LackingLineIsRejected(stream[..n]);
    OutcomeOfRejected(stream, n + 2, 0);
  }

  /** With part of the code received, it is not. */
  lemma BegunPrefix(stream: string, before: string, code: string, tail: string, c: nat, k: nat)
    requires k == |before| + c && stream == before + code + tail
    requires 0 < c <= |code| && IsWord(code) && Stoul(code[..c]).Some?
    requires FirstWord(before) == "HTTP/1.1" && AfterWord(before) != "" && FirstWord(AfterWord(before)) == ""
    ensures TakeStatusLine(stream[..k]).Status?
  {
    assert forall x :: x in code[..c] ==> x in code;
    assert stream[..k] == before + code[..c];
    BegunIsAccepted(before, code[..c]);
  }

  lemma AcceptedShows(stream: string, n: nat, k: nat) returns (outcome: Outcome)
    requires n == Find(stream, CRLF) && n + 2 <= k <= |stream| && TakeStatusLine(stream[..k]).Status?
    ensures Shows(stream, outcome) && outcome != Finished(InvalidResponse, 0, "", map[], "")
  {
    FindInPrefix(stream, CRLF, k);
    var k2 := RestAtOnce(stream, k);
    OutcomeOfAccepted(stream, k, k2);
    outcome := OutcomeHaving(stream, k, k2);
  }

  lemma BegunAccepted(stream: string, n: nat) returns (k: nat)
    requires n == Find(stream, CRLF) && !HoldsItsWords(stream[..n])
    requires FirstWord(stream) == "HTTP/1.1" && CodeBegins(FirstWord(AfterWord(stream)))
    ensures n + 2 <= k <= |stream| && TakeStatusLine(stream[..k]).Status?
  {
    var before, code, tail := StreamParts(stream);
    CodeIsPastBreak(stream, n, before, code, tail);
    var c := FirstDigitIsNumber(code);
    k := |before| + c;
    BegunPrefix(stream, before, code, tail, c, k);
  }

  /** A code that begins after the first line makes the outcome vary. */
  lemma BegunVaries(stream: string, n: nat)
    requires n == Find(stream, CRLF) && !HoldsItsWords(stream[..n])
    requires FirstWord(stream) == "HTTP/1.1" && CodeBegins(FirstWord(AfterWord(stream)))
    ensures Varies(stream)
  {
    EarlyRejected(stream, n);
    var k := BegunAccepted(stream, n);
    var outcome := AcceptedShows(stream, n, k);
  }

  // ---------------------------------------------------------------------------- the exact result

  /** Unless the stream is sensitive, any two fragmentations show the callback the same. */
  lemma {:induction false} OutcomeIgnoresFragmentation(stream: string, k1: nat, k2: nat, j1: nat, j2: nat)
    requires !Sensitive(stream)
    requires Fragmentation(stream, k1, k2) && Fragmentation(stream, j1, j2)
    ensures OutcomeHaving(stream, k1, k2) == OutcomeHaving(stream, j1, j2)
  {
    var n := Find(stream, CRLF);
    if 0 <= n {
      if HoldsItsWords(stream[..n]) {
        HoldingIgnoresFragmentation(stream, k1, k2, j1, j2);
      } else {
        LackingIsRejected(stream, k1, k2);
        LackingIsRejected(stream, j1, j2);
      }
    }
  }

  lemma HoldingIgnoresFragmentation(stream: string, k1: nat, k2: nat, j1: nat, j2: nat)
    requires !Sensitive(stream) && 0 <= Find(stream, CRLF) && HoldsItsWords(stream[..Find(stream, CRLF)])
    requires Fragmentation(stream, k1, k2) && Fragmentation(stream, j1, j2)
    ensures OutcomeHaving(stream, k1, k2) == OutcomeHaving(stream, j1, j2)
  {
    OutcomeOfLine(stream, k1, k2);
    OutcomeOfLine(stream, j1, j2);
    var taken := TakeStatusLine(stream);
    if taken.Status? {
      AfterLineIgnoresFragmentation(taken.code, taken.message, taken.rest, k2, j2);
    }
  }

  lemma LackingIsRejected(stream: string, k1: nat, k2: nat)
    requires !Sensitive(stream) && 0 <= Find(stream, CRLF) && !HoldsItsWords(stream[..Find(stream, CRLF)])
    requires Fragmentation(stream, k1, k2)
    ensures OutcomeHaving(stream, k1, k2) == Finished(InvalidResponse, 0, "", map[], "")
  {
    if TakeStatusLine(stream[..k1]).Status? {
      AcceptedMeansBegins(stream, k1);
    }
    OutcomeOfRejected(stream, k1, k2);
  }

  /** If it is, two fragmentations show different things. */
  lemma {:induction false} FragmentationMatters(stream: string)
    requires Sensitive(stream)
    ensures Varies(stream)
  {
    if HoldsItsWords(stream[..Find(stream, CRLF)]) {
      var Status(code, message, rest) := TakeStatusLine(stream);
      ShiftedVaries(stream, Find(rest, CRLFCRLF), code, message, rest);
    } else {
      BegunVaries(stream, Find(stream, CRLF));
    }
  }

  /** Exactly which responses show the callback different things under different fragmentations. */
  lemma {:induction false} VariesExactly(stream: string)
    ensures Varies(stream) <==> Sensitive(stream)
  {
    if Sensitive(stream) {
      FragmentationMatters(stream);
    } else if Varies(stream) {
      var one, other :| Shows(stream, one) && Shows(stream, other) && one != other;
      var k1, k2 :| Fragmentation(stream, k1, k2) && OutcomeHaving(stream, k1, k2) == one;
      var j1, j2 :| Fragmentation(stream, j1, j2) && OutcomeHaving(stream, j1, j2) == other;
      OutcomeIgnoresFragmentation(stream, k1, k2, j1, j2);
    }
  }

  // ------------------------------------------------- the first line, whatever the fragmentation

  /** Without a line break the end of the stream is reported. */
  lemma NoLineIsEof(stream: string, k1: nat, k2: nat)
    requires Fragmentation(stream, k1, k2) && forall i :: !At(stream, CRLF, i)
    ensures OutcomeHaving(stream, k1, k2) == Finished(Eof, 0, "", map[], stream)
  {
  }

  /** The words of a line that holds them are those of the stream. */
  lemma StreamWords(stream: string, line: string, tail: string)
    requires stream == line + (CRLF + tail) && HoldsItsWords(line)
    ensures FirstWord(stream) == FirstWord(line)
    ensures FirstWord(line) == "HTTP/1.1" ==> FirstWord(AfterWord(stream)) == FirstWord(AfterWord(line))
  {
    WordsInLine(line, CRLF + tail);
  }

  lemma MalformedByWords(stream: string)
    requires FirstWord(stream) == "HTTP/1.1" ==> FirstWord(AfterWord(stream)) != ""
    ensures TakeStatusLine(stream).Malformed?
       <==> FirstWord(stream) != "HTTP/1.1" || Stoul(FirstWord(AfterWord(stream))) == None
  {
    TakesWords(stream);
  }

  /** A first line that holds its words is rejected exactly when its version or its code is wrong. */
  lemma RejectedExactly(stream: string, line: string, tail: string, k1: nat, k2: nat)
    requires Fragmentation(stream, k1, k2)
    requires stream == line + (CRLF + tail) && Find(stream, CRLF) == |line| && HoldsItsWords(line)
    ensures OutcomeHaving(stream, k1, k2) == Finished(InvalidResponse, 0, "", map[], "")
       <==> FirstWord(line) != "HTTP/1.1" || Stoul(FirstWord(AfterWord(line))) == None
  {
    FirstLineIs(stream, line, tail);
    StreamWords(stream, line, tail);
    MalformedByWords(stream);
    OutcomeOfLine(stream, k1, k2);
  }

  lemma MessageUpToCr(code: nat, left: string, message: string, more: string)
    requires left == message + [CR] + more && CR !in message
    ensures TakeMessage(code, left) == Status(code, message, TakeMessage(code, left).rest)
  {
    FindByteAfter(message, CR, more);
    assert left[..|message|] == message;
  }

  lemma StatusByWords(stream: string, line: string, tail: string, message: string, more: string, code: nat)
    requires stream == line + (CRLF + tail) && HoldsItsWords(line)
    requires FirstWord(line) == "HTTP/1.1" && Stoul(FirstWord(AfterWord(line))) == Some(code)
    requires AfterWord(AfterWord(line)) + (CRLF + tail) == message + [CR] + more && CR !in message
    ensures TakeStatusLine(stream) == Status(code, message, TakeMessage(code, message + [CR] + more).rest)
  {
    TakesWords(stream);
    AcceptedLine(line, CRLF + tail, code);
    MessageUpToCr(code, message + [CR] + more, message, more);
  }

  /** Otherwise its second word is the code, and what follows that up to the first CR is the message. */
  lemma StatusIsStored(stream: string, line: string, tail: string, message: string, more: string, code: nat,
                       k1: nat, k2: nat)
    requires Fragmentation(stream, k1, k2)
    requires stream == line + (CRLF + tail) && Find(stream, CRLF) == |line| && HoldsItsWords(line)
    requires FirstWord(line) == "HTTP/1.1" && Stoul(FirstWord(AfterWord(line))) == Some(code)
    requires AfterWord(AfterWord(line)) + (CRLF + tail) == message + [CR] + more && CR !in message
    ensures match OutcomeHaving(stream, k1, k2)
            case Spinning => true
            case Finished(ec, code', message', _, _) => (ec == Ok || ec == Eof) && code' == code && message' == message
  {
    FirstLineIs(stream, line, tail);
    StatusByWords(stream, line, tail, message, more, code);
    StatusIsKept(stream, k1, k2, code, message, TakeMessage(code, message + [CR] + more).rest);
  }

  lemma FirstLineIs(stream: string, line: string, tail: string)
    requires stream == line + (CRLF + tail)
    ensures stream[..|line|] == line
  {
  }

  lemma StatusIsKept(stream: string, k1: nat, k2: nat, code: nat, message: string, rest: string)
    requires Fragmentation(stream, k1, k2) && HeldStatus(stream) == Status(code, message, rest)
    ensures match OutcomeHaving(stream, k1, k2)
            case Spinning => true
            case Finished(ec, code', message', _, _) => (ec == Ok || ec == Eof) && code' == code && message' == message
  {
    OutcomeOfLine(stream, k1, k2);
  }

  // ------------------------------------------------------- responses that vary and that do not

  /** A code on the second line. */
  lemma SecondLineCodeVaries(stream: string, code: string, after: string)
    requires stream == "HTTP/1.1" + CRLF + code + after
    requires IsWord(code) && CodeBegins(code) && (after == "" || IsSpace(after[0]))
    ensures Sensitive(stream) && Varies(stream)
  {
    SecondLineIsSensitive(stream, "HTTP/1.1", Find(stream, CRLF), code, after);
    FragmentationMatters(stream);
  }

  lemma SecondLineIsSensitive(stream: string, version: string, n: int, code: string, after: string)
    requires version == "HTTP/1.1" && stream == version + CRLF + code + after && n == Find(stream, CRLF)
    requires IsWord(code) && CodeBegins(code) && (after == "" || IsSpace(after[0]))
    ensures Sensitive(stream)
  {
    SecondLineParts(stream, version, code, after);
    LoneVersion(version, stream[..n]);
    SecondLineWords(stream, version, code, after);
  }

  lemma SecondLineParts(stream: string, version: string, code: string, after: string)
    requires stream == version + CRLF + code + after && CR !in version
    ensures Find(stream, CRLF) == |version| && stream[..|version|] == version
  {
    assert stream == version + CRLF + (code + after);
    FindCrlfAfter(version, code + after);
  }

  lemma SecondLineWords(stream: string, version: string, code: string, after: string)
    requires stream == version + CRLF + code + after
    requires IsWord(version) && IsWord(code) && (after == "" || IsSpace(after[0]))
    ensures FirstWord(stream) == version && FirstWord(AfterWord(stream)) == code
  {
    var left := CRLF + code + after;
    assert stream == "" + version + left;
    WordAmongBlanks("", version, left);
    WordAmongBlanks(CRLF, code, after);
  }

  lemma LoneVersion(version: string, line: string)
    requires version == "HTTP/1.1" && line == version
    ensures !HoldsItsWords(line)
  {
    assert line == "" + version + "";
    WordAmongBlanks("", version, "");
    BlankHasNoWord("");
  }

  lemma StatusTextHoldsItsWords(code: string, reason: string)
    requires IsWord(code)
    ensures HoldsItsWords(StatusText(code, reason))
  {
    var after := " " + code + (" " + reason);
    assert StatusText(code, reason) == "" + "HTTP/1.1" + after;
    WordAmongBlanks("", "HTTP/1.1", after);
    WordAmongBlanks(" ", code, " " + reason);
    assert code != "";
  }

  /** A line with a CR after it that belongs to no line break. */
  lemma BareCrShifts(line: string, more: string)
    requires PlainLine(line) && more != ""
    ensures var rest := line + [CR] + (CRLFCRLF + more);
            Find(rest, CRLFCRLF) == |line| + 1 && rest[|line| + 5..] == more && Shifted(rest)
  {
    var rest, b := line + [CR] + (CRLFCRLF + more), |line| + 1;
    assert rest[b..b + 4] == CRLFCRLF;
    assert At(rest, CRLFCRLF, b);
    forall j | 0 <= j < b ensures !At(rest, CRLFCRLF, j) {
      BareCrAt(line, more, j);
    }
    JoinedOne(line, CR, "");
    assert rest[..b + 1] == line + [CR] + ([CR] + "");
    assert Joined([(line, CR)]) + "" == Joined([(line, CR)]);
    assert PlainPieces([(line, CR)]);
  }

  lemma BareCrAt(line: string, more: string, j: nat)
    requires PlainLine(line) && j <= |line|
    ensures !At(line + [CR] + (CRLFCRLF + more), CRLFCRLF, j)
  {
    var rest := line + [CR] + (CRLFCRLF + more);
    if At(rest, CRLFCRLF, j) {
      BlankLineBytes(rest, j);
    }
  }

  /**
   A response with such a line: if the blank line is the last thing received, the request succeeds and the
   rest is its body; if the first byte of the body has been received too, and is no CR, it never ends.
   */
  lemma BareCrSucceedsOrSpins(stream: string, code: string, reason: string, line: string, more: string)
    returns (headers: Headers)
    requires WellFormed(code, reason, [line]) && more != "" && more[0] != CR
    requires stream == StatusText(code, reason) + CRLF + (line + [CR] + (CRLFCRLF + more))
    ensures Sensitive(stream)
    ensures Shows(stream, Finished(Ok, Stoul(code).value, " " + reason, headers, more)) && Shows(stream, Spinning)
  {
    var rest := line + [CR] + (CRLFCRLF + more);
    assert PlainLine([line][0]);
    BareCrShifts(line, more);
    TakesStatusLine(code, reason, rest);
    FirstLineOf(stream, code, reason, rest);
    headers := SuccessOrNot(stream, |line| + 1, Stoul(code).value, " " + reason, rest);
  }

  lemma FirstLineOf(stream: string, code: string, reason: string, rest: string)
    requires IsWord(code) && CR !in reason && stream == StatusText(code, reason) + CRLF + rest
    ensures var n := |StatusText(code, reason)|; n == Find(stream, CRLF) && HoldsItsWords(stream[..n])
  {
    StatusTextIsCrFree(code, reason);
    FindCrlfAfter(StatusText(code, reason), rest);
    StatusTextHoldsItsWords(code, reason);
    assert stream[..|StatusText(code, reason)|] == StatusText(code, reason);
  }

  /** A first line that holds its words, and no bare CR before the blank line, are enough for one outcome. */
  lemma CleanResponseDoesNotVary(stream: string)
    requires var n := Find(stream, CRLF); 0 <= n ==> HoldsItsWords(stream[..n])
    requires var taken := TakeStatusLine(stream);
             taken.Status? ==> NoBareCr(taken.rest, Find(taken.rest, CRLFCRLF))
    ensures !Varies(stream)
  {
    VariesExactly(stream);
    var taken := TakeStatusLine(stream);
    if taken.Status? {
      CleanIsUnshifted(taken.rest);
    }
  }

  lemma CleanIsUnshifted(rest: string)
    requires NoBareCr(rest, Find(rest, CRLFCRLF))
    ensures !Shifted(rest)
  {
    var b := Find(rest, CRLFCRLF);
    if Shifted(rest) {
      var pieces :| PlainPieces(pieces) && rest[..b + 1] == Joined(pieces);
      CleanIsNotShifted(rest, b, pieces);
    }
  }
}
