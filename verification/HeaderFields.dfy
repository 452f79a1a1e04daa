/**
 Header fields: the printer's format, the two loops that parse it (the server splits at ':' and then
 at CR, the client splits at CR and then looks for ':'), when each terminates, and exactly when they
 agree.
 */
module HeaderFields {
  import opened Errors
  import opened Text
  import opened Streams

  type Headers = map<string, string>

  // ------------------------------------------------------------------ the format

  /** A field line as the printers write it. */
  function FieldLine(name: string, value: string): string {
    name + ":" + value
  }

  /** Lines, each ended by a line break. */
  function Block(lines: seq<string>): string {
    if lines == [] then "" else lines[0] + CRLF + Block(lines[1..])
  }

  /** A line a well-behaved sender may put in a header block. */
  predicate PlainLine(line: string) {
    line != "" && CR !in line
  }

  predicate PlainLines(lines: seq<string>) {
    forall i :: 0 <= i < |lines| ==> PlainLine(lines[i])
  }

  /** `line` holds a field: a name, a colon and a value. */
  predicate IsField(line: string) {
    ':' in line
  }

  /** What one line adds to the map; a line without a colon adds nothing. */
  function AddLine(m: Headers, line: string): Headers {
    var colon := Find(line, ":");
    if colon < 0 then m else m[line[..colon] := line[colon + 1..]]
  }

  /** The left fold of `AddLine`: the last of several equal names wins. */
  function Fold(m: Headers, lines: seq<string>): Headers
    decreases lines
  {
    if lines == [] then m else Fold(AddLine(m, lines[0]), lines[1..])
  }

  lemma FoldOne(m: Headers, line: string)
    ensures Fold(m, [line]) == AddLine(m, line)
  {
    assert Fold(m, [line]) == Fold(AddLine(m, line), []);
  }

  /** The field a printed line holds is the field that was printed. */
  lemma AddLineOfField(m: Headers, name: string, value: string)
    requires ':' !in name
    ensures AddLine(m, FieldLine(name, value)) == m[name := value]
  {
    var line := FieldLine(name, value);
    assert line == name + [':'] + value;
    FindByteAfter(name, ':', value);
    assert line[..|name|] == name && line[|name| + 1..] == value;
  }

  // ------------------------------------------------------------- the server's loop

  /** One round of the server's loop: it reads a name, a value, and may leave the stream good. */
  datatype Round = NoName | Last(name: string, value: string) | More(name: string, value: string, rest: string)

  function ServerRound(rest: string): (r: Round)
    ensures r.More? ==> |r.rest| < |rest|
    ensures r.NoName? <==> ':' !in rest
    ensures !r.NoName? ==> |r.name| < |rest| && r.name == rest[..|r.name|] && rest[|r.name|] == ':'
  {
    FindByte(rest, ':');
    var i := Find(rest, ":");
    if i < 0 then NoName
    else
      var name, after := rest[..i], rest[i + 1..];
      var j := Find(after, "\r");
      if j < 0 then Last(name, after)
      else if j + 1 == |after| then Last(name, after[..j])
      else More(name, after[..j], after[j + 2..])
  }

  /** The same round read by read: a name up to ':', and, unless that hit the end, a value up to CR. */
  function ServerPass(rest: string, name: string, value: string, m: Headers): (View, Headers) {
    var (v, n) := GetlineOf(Open(rest), name, ':');
    if v.eof then (v, m)
    else
      var (v', x) := GetlineOf(v, value, CR);
      (GetOf(v'), m[n := x])
  }

  lemma ServerPassIsRound(rest: string, name: string, value: string, m: Headers)
    ensures var (v, m') := ServerPass(rest, name, value, m);
            match ServerRound(rest)
            case NoName => v.eof && v.rest == "" && m' == m
            case Last(n, x) => v.eof && v.rest == "" && m' == m[n := x]
            case More(n, x, rest') => v == Open(rest') && m' == m[n := x]
  {
    FindByte(rest, ':');
    var i := Find(rest, ":");
    if 0 <= i {
      assert GetlineOf(Open(rest), name, ':') == (Open(rest[i + 1..]), rest[..i]);
      ReadValue(rest[i + 1..], value);
      RoundWithName(rest);
    }
  }

  /** A round that finds a name, spelled out. */
  lemma RoundWithName(rest: string)
    requires ':' in rest
    ensures var i := Find(rest, ":");
            && 0 <= i
            && (var j := Find(rest[i + 1..], "\r");
                ServerRound(rest)
                == if j < 0 then Last(rest[..i], rest[i + 1..])
                   else if j + 1 == |rest[i + 1..]| then Last(rest[..i], rest[i + 1..][..j])
                   else More(rest[..i], rest[i + 1..][..j], rest[i + 1..][j + 2..]))
  {
    FindByte(rest, ':');
  }

  /** Reading a value up to CR, and one byte after it. */
  lemma ReadValue(after: string, value: string)
    ensures var j := Find(after, "\r");
            var (v, x) := GetlineOf(Open(after), value, CR);
            && x == (if j < 0 then after else after[..j])
            && GetOf(v) == if 0 <= j && j + 1 < |after| then Open(after[j + 2..])
                           else View("", true, j < 0 || after[j + 1..] == "")
  {
    var j := Find(after, "\r");
    assert 0 <= j && j + 1 < |after| ==> after[j + 1..][1..] == after[j + 2..];
  }

  /** The map the server's loop ends with when it starts on `rest`. */
  function ServerFields(rest: string, m: Headers): Headers
    decreases |rest|
  {
    match ServerRound(rest)
    case NoName => m
    case Last(name, value) => m[name := value]
    case More(name, value, rest') => ServerFields(rest', m[name := value])
  }

  /** Once a name is in the map it stays there. */
  lemma {:induction false} ServerFieldsKeepKeys(rest: string, m: Headers)
    ensures m.Keys <= ServerFields(rest, m).Keys
    decreases |rest|
  {
    var r := ServerRound(rest);
    if r.More? {
      ServerFieldsKeepKeys(r.rest, m[r.name := r.value]);
    }
  }

  /** The first name the server's loop reads is in the final map. */
  lemma {:induction false} ServerStoresName(rest: string, m: Headers)
    requires ':' in rest
    ensures ServerRound(rest).name in ServerFields(rest, m)
  {
    var r := ServerRound(rest);
    if r.More? {
      ServerFieldsKeepKeys(r.rest, m[r.name := r.value]);
      assert r.name in m[r.name := r.value].Keys;
    }
  }

  /** One round of the server's loop on a printed field. */
  lemma ServerRoundOfField(name: string, value: string, tail: string)
    requires ':' !in name && CR !in value
    ensures ServerRound(FieldLine(name, value) + CRLF + tail) == More(name, value, tail)
  {
    var rest := FieldLine(name, value) + CRLF + tail;
    var after := value + CRLF + tail;
    assert rest == name + [':'] + after;
    FindByteAfter(name, ':', after);
    assert rest[..|name|] == name && rest[|name| + 1..] == after;
    assert after == value + [CR] + ("\n" + tail);
    FindByteAfter(value, CR, "\n" + tail);
    assert after[..|value|] == value && after[|value| + 2..] == tail;
  }

  /** A well-formed field line at the front costs the server's loop one round. */
  lemma {:induction false} ServerTakesLine(line: string, tail: string, m: Headers)
    requires CR !in line && IsField(line)
    ensures ServerFields(line + CRLF + tail, m) == ServerFields(tail, AddLine(m, line))
  {
    FindByte(line, ':');
    var i := Find(line, ":");
    assert line == FieldLine(line[..i], line[i + 1..]);
    ServerRoundOfField(line[..i], line[i + 1..], tail);
  }

  /** The server's loop folds well-formed field lines and goes on with whatever follows them. */
  lemma {:induction false} ServerLoopOnFields(lines: seq<string>, tail: string, m: Headers)
    requires forall i :: 0 <= i < |lines| ==> CR !in lines[i] && IsField(lines[i])
    ensures ServerFields(Block(lines) + tail, m) == ServerFields(tail, Fold(m, lines))
    decreases lines
  {
    if lines == [] {
      assert Block(lines) + tail == tail;
    } else {
      assert Block(lines) + tail == lines[0] + CRLF + (Block(lines[1..]) + tail);
      ServerTakesLine(lines[0], Block(lines[1..]) + tail, m);
      ServerLoopOnFields(lines[1..], tail, AddLine(m, lines[0]));
    }
  }

  // ------------------------------------------------------------- the client's loop

  /** How the client's `while (true)` loop ends, if it does. */
  datatype ClientLoop = Done(headers: Headers, rest: string) | Hung

  function ClientFields(rest: string, m: Headers): ClientLoop
    decreases |rest|
  {
    var p := Find(rest, "\r");
    if p < 0 then
      if rest == "" then Done(m, "") else Hung
    else if p == 0 then
      Done(m, if |rest| == 1 then "" else rest[2..])
    else if p + 1 == |rest| then Hung
    else ClientFields(rest[p + 2..], AddLine(m, rest[..p]))
  }

  /** A plain line at the front, a CR and any one byte cost the client's loop one round. */
  lemma ClientTakesPiece(line: string, c: char, tail: string, m: Headers)
    requires PlainLine(line)
    ensures ClientFields(line + [CR] + ([c] + tail), m) == ClientFields(tail, AddLine(m, line))
  {
    var rest := line + [CR] + ([c] + tail);
    FindByteAfter(line, CR, [c] + tail);
    var p := Find(rest, "\r");
    assert p == |line| && 0 < p && p + 1 < |rest|;
    assert rest[..p] == line && rest[p + 2..] == tail;
    assert ClientFields(rest, m) == ClientFields(rest[p + 2..], AddLine(m, rest[..p]));
  }

  lemma LineAndBreak(line: string, tail: string)
    ensures line + CRLF + tail == line + [CR] + ([LF] + tail)
  {
  }

  lemma ClientTakesLine(line: string, tail: string, m: Headers)
    requires PlainLine(line)
    ensures ClientFields(line + CRLF + tail, m) == ClientFields(tail, AddLine(m, line))
  {
    LineAndBreak(line, tail);
    ClientTakesPiece(line, LF, tail, m);
  }

  /**
   On any block of plain lines the client's loop ends, with the bytes after the block untouched and
   the fold of the lines in the map.
   */
  lemma {:induction false} ClientLoopOnBlock(lines: seq<string>, tail: string, m: Headers)
    requires PlainLines(lines)
    ensures ClientFields(Block(lines) + CRLF + tail, m) == Done(Fold(m, lines), tail)
    decreases lines
  {
    if lines == [] {
      var rest := CRLF + tail;
      assert Block(lines) + CRLF + tail == rest;
      assert rest == [] + [CR] + ("\n" + tail);
      FindByteAfter([], CR, "\n" + tail);
      assert rest[2..] == tail;
    } else {
      var more := Block(lines[1..]) + CRLF + tail;
      assert Block(lines) + CRLF + tail == lines[0] + CRLF + more;
      ClientTakesLine(lines[0], more, m);
      ClientLoopOnBlock(lines[1..], tail, AddLine(m, lines[0]));
    }
  }

  // ------------------------------------ the client's loop, iteration by iteration

  /** The variables the client's loop updates. */
  datatype LoopState = LoopState(v: View, header: string, m: Headers)

  /** One pass through the loop body; the loop breaks when `header` is empty after it. */
  function Iteration(s: LoopState): LoopState {
    var (v, header) := GetlineOf(s.v, s.header, CR);
    LoopState(GetOf(v), header, if header == "" then s.m else AddLine(s.m, header))
  }

  function Iterations(s: LoopState, n: nat): LoopState
    decreases n
  {
    if n == 0 then s else Iterations(Iteration(s), n - 1)
  }

  /** The loop started on `rest` breaks in its `n`-th pass. */
  predicate BreaksAt(rest: string, header: string, m: Headers, n: nat) {
    0 < n && Iterations(LoopState(Open(rest), header, m), n).header == ""
  }

  /** A failed stream with a non-empty header never recovers. */
  lemma {:induction false} StuckStaysStuck(s: LoopState, n: nat)
    requires !s.v.Good() && s.header != ""
    ensures Iterations(s, n).header == s.header
    decreases n
  {
    if 0 < n {
      StuckStaysStuck(Iteration(s), n - 1);
    }
  }

  /** A pass that finds a CR with a byte after it leaves a good stream. */
  lemma GoodPass(rest: string, header: string, m: Headers)
    requires 0 < Find(rest, "\r") && Find(rest, "\r") + 1 < |rest|
    ensures var p := Find(rest, "\r");
            Iteration(LoopState(Open(rest), header, m))
            == LoopState(Open(rest[p + 2..]), rest[..p], AddLine(m, rest[..p]))
  {
    var p := Find(rest, "\r");
    assert rest[p + 1..][1..] == rest[p + 2..];
  }

  /** The last pass: the header is empty, or the stream is spoilt and the header is not. */
  lemma LastPass(rest: string, header: string, m: Headers)
    requires !(0 < Find(rest, "\r") && Find(rest, "\r") + 1 < |rest|)
    ensures var s := Iteration(LoopState(Open(rest), header, m));
            match ClientFields(rest, m)
            case Done(m', rest') => s.header == "" && s.m == m' && s.v.rest == rest'
            case Hung => s.header != "" && !s.v.Good()
  {
    var p := Find(rest, "\r");
    var (v, got) := GetlineOf(Open(rest), header, CR);
    if p < 0 {
      assert (v, got) == (View("", true, rest == ""), rest);
      assert ClientFields(rest, m) == if rest == "" then Done(m, "") else Hung;
    } else {
      assert (v, got) == (Open(rest[p + 1..]), rest[..p]);
      assert p == 0 && 1 < |rest| ==> rest[1..][1..] == rest[2..];
    }
  }

  lemma {:induction false} HungNeverBreaks(rest: string, header: string, m: Headers, n: nat)
    requires ClientFields(rest, m).Hung? && 0 < n
    ensures !BreaksAt(rest, header, m, n)
    decreases n
  {
    var p := Find(rest, "\r");
    if 0 < p && p + 1 < |rest| {
      GoodPass(rest, header, m);
      if 1 < n {
        HungNeverBreaks(rest[p + 2..], rest[..p], AddLine(m, rest[..p]), n - 1);
      }
    } else {
      LastPass(rest, header, m);
      StuckStaysStuck(Iteration(LoopState(Open(rest), header, m)), n - 1);
    }
  }

  /** In how many passes the loop breaks when it does. */
  function Passes(rest: string): (n: nat)
    ensures 0 < n
    decreases |rest|
  {
    var p := Find(rest, "\r");
    if 0 < p && p + 1 < |rest| then 1 + Passes(rest[p + 2..]) else 1
  }

  lemma {:induction false} DoneBreaks(rest: string, header: string, m: Headers)
    requires ClientFields(rest, m).Done?
    ensures var s := Iterations(LoopState(Open(rest), header, m), Passes(rest));
            s.header == "" && ClientFields(rest, m) == Done(s.m, s.v.rest)
    decreases |rest|
  {
    var p := Find(rest, "\r");
    if 0 < p && p + 1 < |rest| {
      GoodPass(rest, header, m);
      DoneBreaks(rest[p + 2..], rest[..p], AddLine(m, rest[..p]));
    } else {
      LastPass(rest, header, m);
      var t := Iteration(LoopState(Open(rest), header, m));
      assert Iterations(t, 0) == t;
    }
  }

  /** No earlier pass leaves the header empty, so that pass is the one the loop breaks in. */
  lemma {:induction false} NoEarlierBreak(rest: string, header: string, m: Headers, k: nat)
    requires 0 < k < Passes(rest)
    ensures !BreaksAt(rest, header, m, k)
    decreases |rest|
  {
    var p := Find(rest, "\r");
    GoodPass(rest, header, m);
    var t := Iteration(LoopState(Open(rest), header, m));
    if k == 1 {
      assert Iterations(t, 0) == t;
    } else {
      NoEarlierBreak(rest[p + 2..], rest[..p], AddLine(m, rest[..p]), k - 1);
    }
  }

  // ------------------------------------- exactly the bytes on which the client's loop ends

  /** Lines, each ended by a CR and one byte of any kind, which is what the loop takes at a time. */
  function Joined(pieces: seq<(string, char)>): string
    decreases pieces
  {
    if pieces == [] then "" else pieces[0].0 + [CR] + ([pieces[0].1] + Joined(pieces[1..]))
  }

  function LinesOf(pieces: seq<(string, char)>): (lines: seq<string>)
    ensures |lines| == |pieces| && forall i :: 0 <= i < |pieces| ==> lines[i] == pieces[i].0
    decreases pieces
  {
    if pieces == [] then [] else [pieces[0].0] + LinesOf(pieces[1..])
  }

  predicate PlainPieces(pieces: seq<(string, char)>) {
    forall i :: 0 <= i < |pieces| ==> PlainLine(pieces[i].0)
  }

  /** Nothing, or a CR to begin with. */
  predicate BlockEnd(tail: string) {
    tail == "" || tail[0] == CR
  }

  /** What follows the first two bytes. */
  function Beyond(tail: string): string {
    if |tail| < 2 then "" else tail[2..]
  }

  /** The bytes are such lines and then an end. */
  ghost predicate Framed(rest: string) {
    exists pieces, tail :: PlainPieces(pieces) && BlockEnd(tail) && rest == Joined(pieces) + tail
  }

  lemma JoinedCons(line: string, c: char, more: seq<(string, char)>, tail: string)
    ensures Joined([(line, c)] + more) + tail == line + [CR] + ([c] + (Joined(more) + tail))
  {
    assert ([(line, c)] + more)[1..] == more;
  }

  /** On such bytes the loop folds the lines and leaves what is beyond the end. */
  lemma {:induction false} ClientLoopOnPieces(pieces: seq<(string, char)>, tail: string, m: Headers)
    requires PlainPieces(pieces) && BlockEnd(tail)
    ensures ClientFields(Joined(pieces) + tail, m) == Done(Fold(m, LinesOf(pieces)), Beyond(tail))
    decreases pieces
  {
    var rest := Joined(pieces) + tail;
    if pieces == [] {
      assert rest == tail;
      FindByte(tail, CR);
      if tail != "" {
        assert tail == [] + [CR] + tail[1..];
        FindByteAfter([], CR, tail[1..]);
      }
    } else {
      var line, more := pieces[0].0, Joined(pieces[1..]) + tail;
      assert pieces == [(line, pieces[0].1)] + pieces[1..];
      JoinedCons(line, pieces[0].1, pieces[1..], tail);
      ClientTakesPiece(line, pieces[0].1, more, m);
      ClientLoopOnPieces(pieces[1..], tail, AddLine(m, line));
      assert LinesOf(pieces)[1..] == LinesOf(pieces[1..]);
    }
  }

  /** There are no other bytes on which it ends. */
  lemma {:induction false} DoneMeansFramed(rest: string, m: Headers)
    returns (pieces: seq<(string, char)>, tail: string)
    requires ClientFields(rest, m).Done?
    ensures PlainPieces(pieces) && BlockEnd(tail) && rest == Joined(pieces) + tail
    decreases |rest|
  {
    FindByte(rest, CR);
    var p := Find(rest, "\r");
    if 0 < p {
      var more;
      more, tail := DoneMeansFramed(rest[p + 2..], AddLine(m, rest[..p]));
      pieces := [(rest[..p], rest[p + 1])] + more;
      JoinedCons(rest[..p], rest[p + 1], more, tail);
      assert rest == rest[..p] + [CR] + ([rest[p + 1]] + rest[p + 2..]);
    } else {
      pieces, tail := [], rest;
    }
  }

  lemma {:induction false} DoneExactly(rest: string, m: Headers)
    ensures ClientFields(rest, m).Done? <==> Framed(rest)
  {
    if ClientFields(rest, m).Done? {
      var pieces, tail := DoneMeansFramed(rest, m);
    }
    if Framed(rest) {
      var pieces, tail :| PlainPieces(pieces) && BlockEnd(tail) && rest == Joined(pieces) + tail;
      ClientLoopOnPieces(pieces, tail, m);
    }
  }

  /**
   The exact termination condition, on the bytes alone: the loop breaks in some pass if and only if the
   bytes are non-empty CR-free strings, each followed by a CR and one byte of any kind, and then nothing
   or a CR.
   */
  lemma {:induction false} ClientLoopTerminatesExactly(rest: string, header: string, m: Headers)
    ensures (exists n: nat :: BreaksAt(rest, header, m, n)) <==> Framed(rest)
  {
    DoneExactly(rest, m);
    if ClientFields(rest, m).Done? {
      DoneBreaks(rest, header, m);
      assert BreaksAt(rest, header, m, Passes(rest));
    } else {
      forall n: nat ensures !BreaksAt(rest, header, m, n) {
        if 0 < n {
          HungNeverBreaks(rest, header, m, n);
        }
      }
    }
  }

  /** Then it breaks first in pass `Passes(rest)`, with the map and the unread bytes of `ClientFields`. */
  lemma {:induction false} ClientLoopBreaksFirst(rest: string, header: string, m: Headers)
    requires Framed(rest)
    ensures BreaksAt(rest, header, m, Passes(rest))
    ensures forall k: nat :: k < Passes(rest) ==> !BreaksAt(rest, header, m, k)
    ensures var s := Iterations(LoopState(Open(rest), header, m), Passes(rest));
            ClientFields(rest, m) == Done(s.m, s.v.rest)
  {
    DoneExactly(rest, m);
    DoneBreaks(rest, header, m);
    forall k: nat | 0 < k < Passes(rest) ensures !BreaksAt(rest, header, m, k) {
      NoEarlierBreak(rest, header, m, k);
    }
  }

  /** Before position `b` every CR is the first half of a line break. */
  predicate NoBareCr(rest: string, b: int) {
    forall i :: 0 <= i < b && i + 1 < |rest| && rest[i] == CR ==> rest[i + 1] == LF
  }

  /** The first blank line begins at `b` and no bare CR comes before it. */
  ghost predicate CleanBlock(rest: string, b: nat) {
    && At(rest, CRLFCRLF, b) && (forall j :: 0 <= j < b ==> !At(rest, CRLFCRLF, j))
    && NoBareCr(rest, b)
  }

  lemma BlankLineBytes(rest: string, b: nat)
    requires At(rest, CRLFCRLF, b)
    ensures b + 4 <= |rest| && rest[b] == CR && rest[b + 1] == LF && rest[b + 2] == CR && rest[b + 3] == LF
  {
    var slice := rest[b..b + 4];
    assert rest[b] == slice[0] && rest[b + 1] == slice[1] && rest[b + 2] == slice[2] && rest[b + 3] == slice[3];
  }

  lemma NoBlankLineAt(rest: string, p: nat)
    requires p + 4 <= |rest| && !At(rest, CRLFCRLF, p)
    ensures !(rest[p] == CR && rest[p + 1] == LF && rest[p + 2] == CR && rest[p + 3] == LF)
  {
    var slice := rest[p..p + 4];
    assert slice == [rest[p], rest[p + 1], rest[p + 2], rest[p + 3]];
  }

  /** A line at the front of a clean block may be taken off. */
  lemma CleanBlockAfterLine(rest: string, b: nat, p: nat)
    requires CleanBlock(rest, b) && 0 < p < b && rest[p] == CR
    ensures p + 2 < b && rest[p + 1] == LF && rest[p + 2] != CR && CleanBlock(rest[p + 2..], b - p - 2)
  {
    var more := rest[p + 2..];
    BlankLineBytes(rest, b);
    assert p + 1 != b && !At(rest, CRLFCRLF, p);
    NoBlankLineAt(rest, p);
    AtSuffix(rest, p + 2, CRLFCRLF, b - p - 2);
    forall j | 0 <= j < b - p - 2 ensures !At(more, CRLFCRLF, j) {
      AtSuffix(rest, p + 2, CRLFCRLF, j);
    }
  }

  /** Where the client's loop leaves off: past the blank line, or past the first break when that comes first. */
  function Start(rest: string, b: nat): nat
    requires rest != ""
  {
    if rest[0] == CR then 2 else b + 4
  }

  /** A clean block is framed, with its end at the blank line, or at once when it starts with a CR. */
  lemma {:induction false} CleanBlockIsFramed(rest: string, b: nat)
    returns (pieces: seq<(string, char)>, tail: string)
    requires CleanBlock(rest, b)
    ensures PlainPieces(pieces) && 2 <= |tail| && tail[0] == CR
    ensures b + 4 <= |rest| && rest[..b + 4] == Joined(pieces) + tail
    ensures Beyond(tail) == rest[Start(rest, b)..b + 4]
    decreases |rest|
  {
    BlankLineBytes(rest, b);
    FindByte(rest, CR);
    var p := Find(rest, "\r");
    if p == 0 {
      pieces, tail := [], rest[..b + 4];
    } else if p == b {
      pieces, tail := [(rest[..b], LF)], CRLF;
      JoinedCons(rest[..b], LF, [], CRLF);
      assert pieces == [(rest[..b], LF)] + [];
      assert rest[..b + 4] == rest[..b] + [CR] + ([LF] + CRLF);
    } else {
      CleanBlockAfterLine(rest, b, p);
      var more;
      more, tail := CleanBlockIsFramed(rest[p + 2..], b - p - 2);
      pieces := [(rest[..p], LF)] + more;
      PiecePut(rest, p, b + 4, more, tail);
    }
  }

  lemma SplitAgain(rest: string, n: nat, k: nat, start: nat, head: string, tail: string)
    requires start <= n <= k <= |rest| && rest[..n] == head + tail
    requires 2 <= |tail| && tail[0] == CR && Beyond(tail) == rest[start..n]
    ensures rest[..k] == head + (tail + rest[n..k])
    ensures BlockEnd(tail + rest[n..k]) && Beyond(tail + rest[n..k]) == rest[start..k]
  {
    assert rest[..k] == rest[..n] + rest[n..k];
    assert rest[start..k] == rest[start..n] + rest[n..k];
  }

  /** The same clean block with any number of the bytes after it. */
  lemma CleanBlockWithMore(rest: string, b: nat, k: nat, pieces: seq<(string, char)>, tail: string, m: Headers)
    requires b + 4 <= k <= |rest| && rest[..b + 4] == Joined(pieces) + tail
    requires PlainPieces(pieces) && 2 <= |tail| && tail[0] == CR && Beyond(tail) == rest[Start(rest, b)..b + 4]
    ensures Framed(rest[..k])
    ensures ClientFields(rest[..k], m) == Done(Fold(m, LinesOf(pieces)), rest[Start(rest, b)..k])
  {
    SplitAgain(rest, b + 4, k, Start(rest, b), Joined(pieces), tail);
    ClientLoopOnPieces(pieces, tail + rest[b + 4..k], m);
  }

  /**
   What the handler can rely on: when the blank line has been found and no bare CR comes before it, the
   loop ends however many bytes have been received after it, always with the same map, and the unread
   bytes are those after the blank line, or after the first line break when that comes first.
   */
  lemma {:induction false} CleanBlockEndsLoop(rest: string, b: nat, k: nat, m: Headers)
    requires CleanBlock(rest, b) && b + 4 <= k <= |rest|
    ensures Framed(rest[..k])
    ensures ClientFields(rest[..k], m).Done? && ClientFields(rest, m).Done?
    ensures ClientFields(rest[..k], m).headers == ClientFields(rest, m).headers
    ensures ClientFields(rest[..k], m).rest == rest[Start(rest, b)..k]
  {
    var pieces, tail := CleanBlockIsFramed(rest, b);
    CleanBlockWithMore(rest, b, k, pieces, tail, m);
    CleanBlockWithMore(rest, b, |rest|, pieces, tail, m);
    assert rest[..|rest|] == rest;
  }

  // ------------------------------- bytes received past the blank line, in the client's loop

  /** Lines and single bytes take up everything before the blank line and the first byte of it. */
  ghost predicate ShiftedAt(rest: string, b: nat) {
    b < |rest| && exists pieces :: PlainPieces(pieces) && rest[..b + 1] == Joined(pieces)
  }

  /** Up to a blank line the loop either has come to an end, with two bytes of it, or is shifted into it. */
  lemma {:induction false} WalkToBlankLine(rest: string, b: nat)
    returns (pieces: seq<(string, char)>, tail: string)
    requires At(rest, CRLFCRLF, b)
    ensures PlainPieces(pieces) && rest[..b + 4] == Joined(pieces) + tail
    ensures (2 <= |tail| && tail[0] == CR) || rest[..b + 1] == Joined(pieces)
    decreases |rest|
  {
    BlankLineBytes(rest, b);
    FindByte(rest, CR);
    var p := Find(rest, "\r");
    if p == 0 {
      pieces, tail := [], rest[..b + 4];
    } else if p == b {
      pieces, tail := [(rest[..b], LF)], CRLF;
      JoinedOne(rest[..b], LF, CRLF);
      assert rest[..b + 4] == rest[..b] + [CR] + ([LF] + CRLF);
    } else if p + 1 == b {
      pieces, tail := [(rest[..p], CR)], rest[b + 1..b + 4];
      JoinedOne(rest[..p], CR, tail);
      JoinedOne(rest[..p], CR, "");
      assert rest[..b + 4] == rest[..p] + [CR] + ([CR] + tail);
      assert rest[..b + 1] == rest[..p] + [CR] + ([CR] + "");
    } else {
      var more;
      AtSuffix(rest, p + 2, CRLFCRLF, b - p - 2);
      more, tail := WalkToBlankLine(rest[p + 2..], b - p - 2);
      pieces := [(rest[..p], rest[p + 1])] + more;
      PiecePut(rest, p, b + 4, more, tail);
      if rest[p + 2..][..b - p - 1] == Joined(more) {
        PiecePut(rest, p, b + 1, more, "");
      }
    }
  }

  lemma JoinedOne(line: string, c: char, tail: string)
    ensures Joined([(line, c)]) + tail == line + [CR] + ([c] + tail)
  {
    JoinedCons(line, c, [], tail);
    assert [(line, c)] + [] == [(line, c)];
  }

  /** The first piece put before those of the rest. */
  lemma PiecePut(rest: string, p: nat, n: nat, more: seq<(string, char)>, tail: string)
    requires p + 2 <= n <= |rest| && rest[p] == CR
    requires rest[p + 2..][..n - p - 2] == Joined(more) + tail
    ensures rest[..n] == Joined([(rest[..p], rest[p + 1])] + more) + tail
  {
    JoinedCons(rest[..p], rest[p + 1], more, tail);
    CutAtCr(rest, p, n, Joined(more) + tail);
  }

  lemma CutAtCr(rest: string, p: nat, n: nat, back: string)
    requires p + 2 <= n <= |rest| && rest[p] == CR && back == rest[p + 2..][..n - p - 2]
    ensures rest[..n] == rest[..p] + [CR] + ([rest[p + 1]] + back)
  {
    assert back == rest[p + 2..n];
  }

  lemma BeyondMore(tail: string, more: string)
    requires 2 <= |tail| && tail[0] == CR
    ensures BlockEnd(tail + more) && Beyond(tail + more) == Beyond(tail) + more
  {
  }

  /** Unless it is shifted, the loop ends with one map and the same unread bytes, whatever is there already. */
  lemma {:induction false} UnshiftedParse(rest: string, b: nat, m: Headers) returns (headers: Headers, left: string)
    requires At(rest, CRLFCRLF, b) && !ShiftedAt(rest, b)
    ensures forall k :: b + 4 <= k <= |rest| ==> ClientFields(rest[..k], m) == Done(headers, left + rest[b + 4..k])
  {
    var pieces, tail := WalkToBlankLine(rest, b);
    headers, left := Fold(m, LinesOf(pieces)), Beyond(tail);
    forall k | b + 4 <= k <= |rest|
      ensures ClientFields(rest[..k], m) == Done(headers, left + rest[b + 4..k])
    {
      var more := rest[b + 4..k];
      assert rest[..k] == rest[..b + 4] + more;
      assert rest[..k] == Joined(pieces) + (tail + more);
      BeyondMore(tail, more);
      ClientLoopOnPieces(pieces, tail + more, m);
    }
  }

  /** Bytes without a CR after such lines keep the loop going for ever. */
  lemma {:induction false} HungAfterPieces(pieces: seq<(string, char)>, tail: string, m: Headers)
    requires PlainPieces(pieces) && tail != "" && CR !in tail
    ensures ClientFields(Joined(pieces) + tail, m) == Hung
    decreases pieces
  {
    if pieces == [] {
      assert Joined(pieces) + tail == tail;
      FindByte(tail, CR);
    } else {
      var line, more := pieces[0].0, Joined(pieces[1..]) + tail;
      assert pieces == [(line, pieces[0].1)] + pieces[1..];
      JoinedCons(line, pieces[0].1, pieces[1..], tail);
      ClientTakesPiece(line, pieces[0].1, more, m);
      HungAfterPieces(pieces[1..], tail, AddLine(m, line));
    }
  }

  lemma {:induction false} JoinedSnoc(pieces: seq<(string, char)>, line: string, c: char)
    ensures Joined(pieces + [(line, c)]) == Joined(pieces) + (line + [CR] + [c])
    decreases pieces
  {
    if pieces == [] {
      JoinedOne(line, c, "");
      assert pieces + [(line, c)] == [(line, c)];
      assert Joined([(line, c)]) + "" == Joined([(line, c)]);
      assert Joined(pieces) + (line + [CR] + [c]) == line + [CR] + ([c] + "");
    } else {
      JoinedSnoc(pieces[1..], line, c);
      assert (pieces + [(line, c)])[1..] == pieces[1..] + [(line, c)];
      assert pieces[0].0 + [CR] + ([pieces[0].1] + (Joined(pieces[1..]) + (line + [CR] + [c])))
          == pieces[0].0 + [CR] + ([pieces[0].1] + Joined(pieces[1..])) + (line + [CR] + [c]);
    }
  }

  /**
   A shifted loop takes the blank line for a line and a byte. It ends if nothing has been received after
   that; one byte more is taken for the end if it is a CR, and keeps the loop going for ever if it is not.
   */
  lemma {:induction false} ShiftedParse(rest: string, b: nat, m: Headers) returns (headers: Headers)
    requires At(rest, CRLFCRLF, b) && ShiftedAt(rest, b) && b + 4 < |rest|
    ensures ClientFields(rest[..b + 4], m) == Done(headers, "")
    ensures ClientFields(rest[..b + 5], m) == if rest[b + 4] == CR then Done(headers, "") else Hung
  {
    BlankLineBytes(rest, b);
    var pieces :| PlainPieces(pieces) && rest[..b + 1] == Joined(pieces);
    var all := pieces + [("\n", LF)];
    headers := Fold(m, LinesOf(all));
    JoinedSnoc(pieces, "\n", LF);
    assert rest[..b + 4] == rest[..b + 1] + ("\n" + [CR] + [LF]);
    assert rest[..b + 4] == Joined(all) + "";
    assert rest[..b + 5] == rest[..b + 4] + [rest[b + 4]];
    ClientLoopOnPieces(all, "", m);
    if rest[b + 4] == CR {
      ClientLoopOnPieces(all, [CR], m);
    } else {
      HungAfterPieces(all, [rest[b + 4]], m);
    }
  }

  /** Without a bare CR before the first blank line the loop is not shifted. */
  lemma {:induction false} CleanIsNotShifted(rest: string, b: nat, pieces: seq<(string, char)>)
    requires CleanBlock(rest, b) && PlainPieces(pieces)
    ensures b < |rest| && rest[..b + 1] != Joined(pieces)
    decreases |rest|
  {
    BlankLineBytes(rest, b);
    if rest[..b + 1] == Joined(pieces) {
      assert pieces != [];
      var line, c, more := pieces[0].0, pieces[0].1, Joined(pieces[1..]);
      var p := |line|;
      assert rest[..b + 1] == line + [CR] + ([c] + more);
      assert rest[p] == rest[..b + 1][p] == CR && rest[p + 1] == rest[..b + 1][p + 1] == c;
      assert p < b;
      CleanBlockAfterLine(rest, b, p);
      assert rest[p + 2..][..b - p - 1] == rest[..b + 1][p + 2..] == more;
      CleanIsNotShifted(rest[p + 2..], b - p - 2, pieces[1..]);
    }
  }

  /**
   Finding the blank line first, as the client does, is not enough for the loop to end: a bare CR
   before it shifts the split positions past it, and the first body byte then keeps the loop alive
   for ever.
   */
  lemma BlankLineIsNotEnough(n: nat)
    ensures var buffer := "A\r\r\n\r\nX";
            0 <= Find(buffer, CRLFCRLF) && !BreaksAt(buffer, "", map[], n)
  {
    var buffer := "A\r\r\n\r\nX";
    assert buffer[2..6] == CRLFCRLF;
    assert At(buffer, CRLFCRLF, 2);
    assert buffer == "A" + [CR] + "\r\n\r\nX";
    FindByteAfter("A", CR, "\r\n\r\nX");
    var rest := buffer[3..];
    assert rest == "\n" + [CR] + "\nX";
    FindByteAfter("\n", CR, "\nX");
    assert rest[3..] == "X";
    FindByte("X", CR);
    if 0 < n {
      HungNeverBreaks(buffer, "", map[], n);
    }
  }

  // ------------------------------------------------------------ the two loops agree

  /** No line without a colon stands before a line with one. */
  predicate FieldsFirst(lines: seq<string>) {
    forall i, j :: 0 <= i < j < |lines| && IsField(lines[j]) ==> IsField(lines[i])
  }

  lemma {:induction false} ByteInBlock(lines: seq<string>, k: nat, c: char)
    requires k < |lines| && c in lines[k]
    ensures c in Block(lines)
    decreases lines
  {
    if 0 < k {
      ByteInBlock(lines[1..], k - 1, c);
    }
  }

  lemma {:induction false} NoColonInBlock(lines: seq<string>)
    requires forall i :: 0 <= i < |lines| ==> !IsField(lines[i])
    ensures ':' !in Block(lines)
    decreases lines
  {
    if lines != [] {
      NoColonInBlock(lines[1..]);
    }
  }

  lemma {:induction false} FoldOfNoFields(m: Headers, lines: seq<string>)
    requires forall i :: 0 <= i < |lines| ==> !IsField(lines[i])
    ensures Fold(m, lines) == m
    decreases lines
  {
    if lines != [] {
      FindByte(lines[0], ':');
      FoldOfNoFields(m, lines[1..]);
    }
  }

  ghost predicate CrFreeKeys(m: Headers) {
    forall k :: k in m ==> CR !in k
  }

  lemma {:induction false} FoldKeysAreCrFree(m: Headers, lines: seq<string>)
    requires PlainLines(lines) && CrFreeKeys(m)
    ensures CrFreeKeys(Fold(m, lines))
    decreases lines
  {
    if lines != [] {
      FoldKeysAreCrFree(AddLine(m, lines[0]), lines[1..]);
    }
  }

  /** A line without a colon before one with a colon ends up inside a server-side name. */
  lemma ServerSwallowsLine(line: string, tail: string, m: Headers)
    requires PlainLine(line) && !IsField(line) && ':' in tail
    ensures !CrFreeKeys(ServerFields(line + CRLF + tail, m))
  {
    var rest := line + CRLF + tail;
    assert ':' in rest by {
      var k :| 0 <= k < |tail| && tail[k] == ':';
      assert rest[|line| + 2 + k] == ':';
    }
    var name := ServerRound(rest).name;
    assert rest[|line|] == CR;
    assert |line| < |name| by {
      assert rest[|name|] == ':';
      assert forall k :: 0 <= k < |line| ==> rest[k] == line[k] && line[k] in line;
    }
    assert name[|line|] == CR;
    ServerStoresName(rest, m);
  }

  lemma {:induction false} AgreeWhenFieldsFirst(lines: seq<string>, m: Headers)
    requires PlainLines(lines) && FieldsFirst(lines)
    ensures ServerFields(Block(lines) + CRLF, m) == Fold(m, lines)
    decreases lines
  {
    if lines == [] || !IsField(lines[0]) {
      NoColonInBlock(lines);
      FoldOfNoFields(m, lines);
    } else {
      assert Block(lines) + CRLF == lines[0] + CRLF + (Block(lines[1..]) + CRLF);
      ServerTakesLine(lines[0], Block(lines[1..]) + CRLF, m);
      AgreeWhenFieldsFirst(lines[1..], AddLine(m, lines[0]));
    }
  }

  lemma {:induction false} DisagreeOtherwise(lines: seq<string>, m: Headers)
    requires PlainLines(lines) && !FieldsFirst(lines)
    ensures !CrFreeKeys(ServerFields(Block(lines) + CRLF, m))
    decreases lines
  {
    var i, j :| 0 <= i < j < |lines| && IsField(lines[j]) && !IsField(lines[i]);
    var tail := Block(lines[1..]) + CRLF;
    assert Block(lines) + CRLF == lines[0] + CRLF + tail;
    if IsField(lines[0]) {
      assert lines[1..][i - 1] == lines[i] && lines[1..][j - 1] == lines[j];
      ServerTakesLine(lines[0], tail, m);
      DisagreeOtherwise(lines[1..], AddLine(m, lines[0]));
    } else {
      ByteInBlock(lines[1..], j - 1, ':');
      ServerSwallowsLine(lines[0], tail, m);
    }
  }

  /**
   On every block of plain lines with nothing after it, the server's loop and the client's loop build
   the same map if and only if no line without a colon stands before a line with one.
   */
  lemma ParsersAgreeExactly(lines: seq<string>)
    requires PlainLines(lines)
    ensures var block := Block(lines) + CRLF;
            ClientFields(block, map[]) == Done(ServerFields(block, map[]), "") <==> FieldsFirst(lines)
  {
    var block := Block(lines) + CRLF;
    assert block + "" == block;
    ClientLoopOnBlock(lines, "", map[]);
    if FieldsFirst(lines) {
      AgreeWhenFieldsFirst(lines, map[]);
    } else {
      DisagreeOtherwise(lines, map[]);
      FoldKeysAreCrFree(map[], lines);
    }
  }

  /** Both loops invert the printer: one field line per pair, the last of equal names winning. */
  function Print(fields: seq<(string, string)>): (lines: seq<string>)
    ensures |lines| == |fields|
    ensures forall i :: 0 <= i < |fields| ==> lines[i] == FieldLine(fields[i].0, fields[i].1)
  {
    seq(|fields|, i requires 0 <= i < |fields| => FieldLine(fields[i].0, fields[i].1))
  }

  /** The value the last pair named `k` gives, if there is one. */
  function LastValue(fields: seq<(string, string)>, k: string): Option<string>
    decreases fields
  {
    if fields == [] then None
    else
      var last := fields[|fields| - 1];
      if last.0 == k then Some(last.1) else LastValue(fields[..|fields| - 1], k)
  }

  lemma {:induction false} FoldLast(m: Headers, lines: seq<string>)
    requires lines != []
    ensures Fold(m, lines) == AddLine(Fold(m, lines[..|lines| - 1]), lines[|lines| - 1])
    decreases lines
  {
    if |lines| == 1 {
      assert Fold(m, lines) == Fold(AddLine(m, lines[0]), []);
    } else {
      FoldLast(AddLine(m, lines[0]), lines[1..]);
      assert lines[1..][..|lines| - 2] == lines[..|lines| - 1][1..];
    }
  }

  lemma {:induction false} FoldInvertsPrint(fields: seq<(string, string)>, k: string)
    requires forall i :: 0 <= i < |fields| ==> ':' !in fields[i].0
    ensures var m := Fold(map[], Print(fields));
            LastValue(fields, k) == if k in m then Some(m[k]) else None
    decreases fields
  {
    if fields != [] {
      var n := |fields| - 1;
      FoldInvertsPrint(fields[..n], k);
      FoldLast(map[], Print(fields));
      assert Print(fields)[..n] == Print(fields[..n]);
      AddLineOfField(Fold(map[], Print(fields[..n])), fields[n].0, fields[n].1);
    }
  }

  /**
   Printing fields and parsing them back, on either side, looks up every name's last value and
   nothing else; the client also leaves whatever follows the block unread.
   */
  lemma PrintThenParse(fields: seq<(string, string)>, tail: string, k: string)
    requires forall i :: 0 <= i < |fields| ==>
               ':' !in fields[i].0 && CR !in fields[i].0 && CR !in fields[i].1
    ensures var block := Block(Print(fields)) + CRLF;
            var served := ServerFields(block, map[]);
            && ClientFields(block + tail, map[]) == Done(served, tail)
            && LastValue(fields, k) == if k in served then Some(served[k]) else None
  {
    var lines := Print(fields);
    forall i | 0 <= i < |lines| ensures CR !in lines[i] && IsField(lines[i]) {
      assert lines[i][|fields[i].0|] == ':';
    }
    ServerLoopOnFields(lines, CRLF, map[]);
    ClientLoopOnBlock(lines, tail, map[]);
    FoldInvertsPrint(fields, k);
  }
}
