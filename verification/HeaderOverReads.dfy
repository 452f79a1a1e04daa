/**
 Bytes received past the blank line: what the server's header loop, which parses everything in the
 buffer, makes of them, and exactly when they show in the header map.
 */
module HeaderOverReads {
  import opened Text
  import opened HeaderFields

  /** Every colon has a CR after it, and that CR has a byte after it. */
  ghost predicate ColonsClosed(bytes: string) {
    forall i :: 0 <= i < |bytes| && bytes[i] == ':' ==> ClosedAfter(bytes, i)
  }

  ghost predicate ClosedAfter(bytes: string, i: nat) {
    exists k :: i <= k < |bytes| - 1 && bytes[k] == CR
  }

  lemma BlankLineClosesColons(bytes: string)
    requires 4 <= |bytes| && bytes[|bytes| - 4..] == CRLFCRLF
    ensures ColonsClosed(bytes)
  {
    var n := |bytes| - 4;
    var end := bytes[n..];
    assert bytes[n] == end[0] && bytes[n + 1] == end[1] && bytes[n + 2] == end[2] && bytes[n + 3] == end[3];
    forall i | 0 <= i < |bytes| && bytes[i] == ':' ensures ClosedAfter(bytes, i) {
      assert i < n && bytes[n] == CR;
    }
  }

  lemma ColonsClosedInSuffix(bytes: string, n: nat)
    requires ColonsClosed(bytes) && n <= |bytes|
    ensures ColonsClosed(bytes[n..])
  {
    var rest := bytes[n..];
    forall i | 0 <= i < |rest| && rest[i] == ':' ensures ClosedAfter(rest, i) {
      assert bytes[n + i] == ':' && ClosedAfter(bytes, n + i);
      var k :| n + i <= k < |bytes| - 1 && bytes[k] == CR;
      assert rest[k - n] == CR;
    }
  }

  /** The parts a round takes such bytes into. */
  lemma RoundParts(bytes: string) returns (name: string, value: string, c: char, rest: string)
    requires ColonsClosed(bytes) && ':' in bytes
    ensures ':' !in name && CR !in value && ColonsClosed(rest)
    ensures bytes == name + [':'] + (value + [CR] + ([c] + rest))
  {
    FindByte(bytes, ':');
    var i := Find(bytes, ":");
    var after := bytes[i + 1..];
    assert ClosedAfter(bytes, i);
    var k :| i <= k < |bytes| - 1 && bytes[k] == CR;
    assert after[k - i - 1] == CR;
    assert after[k - i - 1] in after[..|after| - 1];
    FindByte(after[..|after| - 1], CR);
    var j := Find(after[..|after| - 1], "\r");
    name, value, c, rest := bytes[..i], after[..j], after[j + 1], after[j + 2..];
    assert value == after[..|after| - 1][..j];
    assert rest == bytes[i + j + 3..];
    ColonsClosedInSuffix(bytes, i + j + 3);
  }

  lemma RoundOfParts(name: string, value: string, c: char, rest: string)
    requires ':' !in name && CR !in value
    ensures ServerRound(name + [':'] + (value + [CR] + ([c] + rest))) == More(name, value, rest)
  {
    var after := value + [CR] + ([c] + rest);
    var bytes := name + [':'] + after;
    FindByteAfter(name, ':', after);
    FindByteAfter(value, CR, [c] + rest);
    assert bytes[..|name|] == name && bytes[|name| + 1..] == after;
    assert after[..|value|] == value && after[|value| + 2..] == rest;
  }

  lemma PartsAndMore(name: string, value: string, c: char, rest: string, extra: string)
    ensures name + [':'] + (value + [CR] + ([c] + rest)) + extra
         == name + [':'] + (value + [CR] + ([c] + (rest + extra)))
  {
  }

  /** A round of the server's loop on such bytes is the same whatever follows them. */
  lemma RoundIgnoresMore(bytes: string, extra: string)
    requires ColonsClosed(bytes) && ':' in bytes
    ensures var r := ServerRound(bytes);
            && r.More? && ColonsClosed(r.rest)
            && ServerRound(bytes + extra) == More(r.name, r.value, r.rest + extra)
  {
    var name, value, c, rest := RoundParts(bytes);
    RoundOfParts(name, value, c, rest);
    RoundOfParts(name, value, c, rest + extra);
    PartsAndMore(name, value, c, rest, extra);
  }

  lemma {:induction false} ColonFreeExtraChangesNothing(bytes: string, extra: string, m: Headers)
    requires ColonsClosed(bytes) && ':' !in extra
    ensures ServerFields(bytes + extra, m) == ServerFields(bytes, m)
    decreases |bytes|
  {
    if ':' in bytes {
      RoundIgnoresMore(bytes, extra);
      var r := ServerRound(bytes);
      ColonFreeExtraChangesNothing(r.rest, extra, m[r.name := r.value]);
    }
  }

  /**
   Without a colon past the first blank line the header map does not depend on fragmentation, whatever
   the header bytes are.
   */
  lemma {:induction false} NoColonNoChange(stream: string, k: nat, m: Headers)
    requires 0 <= Find(stream, CRLFCRLF) && Find(stream, CRLFCRLF) + 4 <= k <= |stream|
    requires ':' !in stream[Find(stream, CRLFCRLF) + 4..]
    ensures ServerFields(stream[..k], m) == ServerFields(stream[..Find(stream, CRLFCRLF) + 4], m)
  {
    var n := Find(stream, CRLFCRLF) + 4;
    var head, extra := stream[..n], stream[n..k];
    assert head[n - 4..] == stream[n - 4..n];
    BlankLineClosesColons(head);
    assert forall c :: c in extra ==> c in stream[n..] by {
      assert extra == stream[n..][..k - n];
    }
    ColonFreeExtraChangesNothing(head, extra, m);
    assert stream[..k] == head + extra;
  }

  /** A name that can be read off a block of plain lines: no CR at its start, none two bytes after another. */
  ghost predicate NameInBlock(name: string) {
    && (name != "" ==> name[0] != CR)
    && forall i :: 0 <= i < |name| - 2 && name[i] == CR ==> name[i + 2] != CR
  }

  ghost predicate NamesInBlock(m: Headers) {
    forall k :: k in m ==> NameInBlock(k)
  }

  lemma {:induction false} PlainTextIsNameInBlock(lines: seq<string>, s: string)
    requires PlainLines(lines) && CR !in s
    ensures NameInBlock(Block(lines) + s)
    decreases lines
  {
    if lines == [] {
      assert Block(lines) + s == s;
    } else {
      var name, line, more := Block(lines) + s, lines[0], Block(lines[1..]) + s;
      PlainTextIsNameInBlock(lines[1..], s);
      assert name == line + CRLF + more;
      assert forall i :: 0 <= i < |line| ==> name[i] == line[i] && line[i] in line;
      assert forall i :: 0 <= i < |more| ==> name[|line| + 2 + i] == more[i];
      forall i | 0 <= i < |name| - 2 && name[i] == CR ensures name[i + 2] != CR {
        if |line| + 2 <= i {
          assert more[i - |line| - 2] == CR;
        }
      }
    }
  }

  /** A name that runs into the blank line cannot. */
  lemma {:induction false} BlankLineIsNotInName(lines: seq<string>, s: string)
    requires PlainLines(lines)
    ensures !NameInBlock(Block(lines) + CRLF + s)
  {
    var name := Block(lines) + CRLF + s;
    if lines == [] {
      assert name[0] == CR;
    } else {
      BlockEndsInBreak(lines);
      var n := |Block(lines)|;
      assert name[n - 2] == Block(lines)[n - 2] && name[n] == CR;
    }
  }

  lemma {:induction false} BlockEndsInBreak(lines: seq<string>)
    requires lines != []
    ensures var n := |Block(lines)| - 2;
            0 <= n && Block(lines)[n] == CR && Block(lines)[n + 1] == LF
    decreases lines
  {
    if 1 < |lines| {
      BlockEndsInBreak(lines[1..]);
    } else {
      assert Block(lines) == lines[0] + CRLF + Block([]);
    }
  }

  lemma {:induction false} BlockOfMore(pre: seq<string>, line: string)
    ensures Block(pre + [line]) == Block(pre) + line + CRLF
    decreases pre
  {
    if pre != [] {
      BlockOfMore(pre[1..], line);
      assert (pre + [line])[1..] == pre[1..] + [line];
    } else {
      assert Block([line]) == line + CRLF + Block([]);
    }
  }

  /** The first of the lines, taken off the front of them or put at the end of those before. */
  lemma MoveFirstLine(pre: seq<string>, lines: seq<string>, end: string)
    requires lines != []
    ensures Block(pre) + (Block(lines) + end) == Block(pre) + lines[0] + CRLF + (Block(lines[1..]) + end)
    ensures Block(pre) + (Block(lines) + end) == Block(pre + [lines[0]]) + (Block(lines[1..]) + end)
  {
    BlockOfMore(pre, lines[0]);
    FiveParts(Block(pre), lines[0], CRLF, Block(lines[1..]), end);
  }

  lemma FiveParts(a: string, b: string, c: string, d: string, e: string)
    ensures a + (b + c + d + e) == a + b + c + (d + e)
  {
  }

  /** A printed field costs the server's loop one round. */
  lemma ServerTakesField(name: string, value: string, tail: string, m: Headers)
    requires ':' !in name && CR !in value
    ensures ServerFields(FieldLine(name, value) + CRLF + tail, m) == ServerFields(tail, m[name := value])
  {
    ServerRoundOfField(name, value, tail);
  }

  /** Lines without a colon before a field line become part of its name. */
  lemma LongName(pre: seq<string>, line: string) returns (name: string, value: string)
    requires PlainLines(pre) && (forall i :: 0 <= i < |pre| ==> !IsField(pre[i]))
    requires PlainLine(line) && IsField(line)
    ensures NameInBlock(name) && ':' !in name && CR !in value
    ensures Block(pre) + line == FieldLine(name, value)
  {
    FindByte(line, ':');
    var colon := Find(line, ":");
    name, value := Block(pre) + line[..colon], line[colon + 1..];
    NoColonInBlock(pre);
    assert forall c :: c in line[..colon] ==> c in line;
    assert forall c :: c in value ==> c in line;
    PlainTextIsNameInBlock(pre, line[..colon]);
    SplitAtColon(Block(pre), line, colon);
  }

  lemma SplitAtColon(before: string, line: string, colon: nat)
    requires colon < |line| && line[colon] == ':'
    ensures before + line == FieldLine(before + line[..colon], line[colon + 1..])
  {
    assert line == line[..colon] + ":" + line[colon + 1..];
  }

  /** A field line after lines without a colon is taken in one round, under a name in the block. */
  lemma ServerTakesLines(pre: seq<string>, line: string, tail: string, m: Headers) returns (m': Headers)
    requires PlainLines(pre) && (forall i :: 0 <= i < |pre| ==> !IsField(pre[i]))
    requires PlainLine(line) && IsField(line)
    ensures NamesInBlock(m) ==> NamesInBlock(m')
    ensures ServerFields(Block(pre) + line + CRLF + tail, m) == ServerFields(Block([]) + tail, m')
  {
    var name, value := LongName(pre, line);
    ServerTakesField(name, value, tail, m);
    m' := m[name := value];
    assert Block([]) + tail == tail;
  }

  /** With nothing after the blank line every name lies inside the block. */
  lemma {:induction false} BlockGivesNamesInBlock(pre: seq<string>, lines: seq<string>, m: Headers)
    requires PlainLines(pre) && (forall i :: 0 <= i < |pre| ==> !IsField(pre[i])) && PlainLines(lines)
    requires NamesInBlock(m)
    ensures NamesInBlock(ServerFields(Block(pre) + (Block(lines) + CRLF), m))
    decreases lines
  {
    if lines == [] {
      NoColonInBlock(pre);
      assert ':' !in Block(pre) + (Block(lines) + CRLF);
    } else {
      var line, tail := lines[0], Block(lines[1..]) + CRLF;
      MoveFirstLine(pre, lines, CRLF);
      if IsField(line) {
        var m' := ServerTakesLines(pre, line, tail, m);
        BlockGivesNamesInBlock([], lines[1..], m');
      } else {
        BlockGivesNamesInBlock(pre + [line], lines[1..], m);
      }
    }
  }

  lemma ColonAfterBlankLine(pre: seq<string>, extra: string, m: Headers)
    requires PlainLines(pre) && (forall i :: 0 <= i < |pre| ==> !IsField(pre[i]))
    requires ':' in extra
    ensures !NamesInBlock(ServerFields(Block(pre) + CRLF + extra, m))
  {
    NoColonInBlock(pre);
    FindByte(extra, ':');
    var e := Find(extra, ":");
    var name, rest := Block(pre) + CRLF + extra[..e], Block(pre) + CRLF + extra;
    BlankLineIsNotInName(pre, extra[..e]);
    assert rest == name + [':'] + extra[e + 1..];
    FindByteAfter(name, ':', extra[e + 1..]);
    assert rest[|name|] == ':' && rest[..|name|] == name;
    RoundWithName(rest);
    ServerStoresName(rest, m);
  }

  /** With a colon after it some name does not. */
  lemma {:induction false} ExtraColonShows(pre: seq<string>, lines: seq<string>, extra: string, m: Headers)
    requires PlainLines(pre) && (forall i :: 0 <= i < |pre| ==> !IsField(pre[i])) && PlainLines(lines)
    requires ':' in extra
    ensures !NamesInBlock(ServerFields(Block(pre) + (Block(lines) + (CRLF + extra)), m))
    decreases lines
  {
    if lines == [] {
      assert Block(pre) + (Block(lines) + (CRLF + extra)) == Block(pre) + CRLF + extra;
      ColonAfterBlankLine(pre, extra, m);
    } else {
      var line, tail := lines[0], Block(lines[1..]) + (CRLF + extra);
      MoveFirstLine(pre, lines, CRLF + extra);
      if IsField(line) {
        var m' := ServerTakesLines(pre, line, tail, m);
        ExtraColonShows([], lines[1..], extra, m');
      } else {
        ExtraColonShows(pre + [line], lines[1..], extra, m);
      }
    }
  }

  /**
   The header map, unlike the decision, does depend on fragmentation: after any block of plain lines,
   fields or not, bytes `extra` received past the blank line change it if and only if they hold a colon.
   */
  lemma {:induction false} HeaderMapIgnoresExtraExactly(lines: seq<string>, extra: string)
    requires PlainLines(lines)
    ensures ServerFields(Block(lines) + CRLF + extra, map[]) == ServerFields(Block(lines) + CRLF, map[])
       <==> ':' !in extra
  {
    var block := Block(lines) + CRLF;
    assert Block([]) + block == block && Block([]) + (Block(lines) + (CRLF + extra)) == block + extra;
    if ':' in extra {
      BlockGivesNamesInBlock([], lines, map[]);
      ExtraColonShows([], lines, extra, map[]);
    } else {
      BlockClosesColons(lines);
      ColonFreeExtraChangesNothing(block, extra, map[]);
    }
  }

  lemma {:induction false} BlockClosesColons(lines: seq<string>)
    ensures ColonsClosed(Block(lines) + CRLF)
  {
    var bytes := Block(lines) + CRLF;
    if lines != [] {
      BlockEndsInBreak(lines);
      var n := |Block(lines)|;
      forall i | 0 <= i < |bytes| && bytes[i] == ':' ensures ClosedAfter(bytes, i) {
        assert bytes[n] == CR;
      }
    }
  }

  /** Receiving the first `k` bytes of what follows the request line is enough to parse the fields. */
  predicate Receivable(rest: string, k: nat, limit: nat) {
    k <= |rest| && k <= limit && 0 <= Find(rest[..k], CRLFCRLF)
  }

  /**
   Two of the prefixes the server may have received when it parses: the block with its blank line, and
   that with a piece of what follows. They give different maps whenever the piece holds a colon.
   */
  lemma {:induction false} FragmentationShows(lines: seq<string>, extra: string, limit: nat)
    requires lines != [] && PlainLines(lines) && ':' in extra
    requires |Block(lines) + CRLF + extra| <= limit
    ensures var rest := Block(lines) + CRLF + extra;
            var k := |Block(lines)| + 2;
            && Receivable(rest, k, limit) && Receivable(rest, |rest|, limit)
            && ServerFields(rest[..k], map[]) != ServerFields(rest, map[])
  {
    var rest, k := Block(lines) + CRLF + extra, |Block(lines)| + 2;
    assert rest[..k] == Block(lines) + CRLF && rest[..|rest|] == rest;
    BlockEndsInBlankLine(lines);
    FindPrefix(rest[..k], rest, CRLFCRLF);
    HeaderMapIgnoresExtraExactly(lines, extra);
  }

  lemma {:induction false} BlockEndsInBlankLine(lines: seq<string>)
    requires lines != []
    ensures 0 <= Find(Block(lines) + CRLF, CRLFCRLF)
  {
    BlockEndsInBreak(lines);
    var bytes, n := Block(lines) + CRLF, |Block(lines)| - 2;
    assert bytes[n..n + 4] == CRLFCRLF;
    assert At(bytes, CRLFCRLF, n);
  }

  /**
   Outside blocks of plain lines a colon past the blank line need not show: after an empty line, any
   field, and the blank line, the same field again is read under the same name, line break included.
   */
  lemma {:induction false} ColonNeedNotShow(name: string, value: string)
    requires PlainLine(name) && ':' !in name && CR !in value
    ensures var extra := FieldLine(name, value);
            var head := CRLF + extra + CRLFCRLF;
            && Find(head, CRLFCRLF) == |head| - 4 && ':' in extra
            && ServerFields(head + extra, map[]) == ServerFields(head, map[])
  {
    var extra := FieldLine(name, value);
    PlainField(name, value);
    BlankLineAfterEmptyLine(extra);
    assert CRLFCRLF == CRLF + CRLF;
    FieldAfterBreak(CRLF, name, value);
    RepeatedField(CRLF + name, value);
  }

  lemma PlainField(name: string, value: string)
    requires CR !in name && CR !in value
    ensures PlainLine(FieldLine(name, value)) && ':' in FieldLine(name, value)
  {
    assert FieldLine(name, value)[|name|] == ':';
  }

  /** A break before a field may be read as part of its name. */
  lemma FieldAfterBreak(brk: string, name: string, value: string)
    ensures var line, long := FieldLine(name, value), FieldLine(brk + name, value);
            && brk + line + (brk + brk) == long + brk + brk
            && brk + line + (brk + brk) + line == long + brk + long
  {
  }

  /** The same field twice, the second time with nothing after its value, or once and a line break. */
  lemma RepeatedField(name: string, value: string)
    requires ':' !in name && CR !in value
    ensures ServerFields(FieldLine(name, value) + CRLF + FieldLine(name, value), map[])
         == ServerFields(FieldLine(name, value) + CRLF + CRLF, map[])
  {
    var m: Headers := map[][name := value];
    ServerTakesField(name, value, FieldLine(name, value), map[]);
    ServerTakesField(name, value, CRLF, map[]);
    LastField(name, value);
    assert m[name := value] == m;
    assert ServerFields(FieldLine(name, value), m) == m;
    assert ServerFields(CRLF, m) == m;
  }

  /** A field with nothing after its value is the loop's last round. */
  lemma LastField(name: string, value: string)
    requires ':' !in name && CR !in value
    ensures ServerRound(FieldLine(name, value)) == Last(name, value)
  {
    var rest := FieldLine(name, value);
    assert rest == name + [':'] + value;
    FindByteAfter(name, ':', value);
    FindByte(value, CR);
    assert rest[..|name|] == name && rest[|name| + 1..] == value;
    assert rest[|name|] == ':';
    RoundWithName(rest);
  }

  lemma BlankLineAfterEmptyLine(line: string)
    requires PlainLine(line)
    ensures Find(CRLF + line + CRLFCRLF, CRLFCRLF) == |line| + 2
  {
    var head, n := CRLF + line + CRLFCRLF, |line| + 2;
    assert At(head, CRLFCRLF, n) by {
      assert head[n..n + 4] == CRLFCRLF;
    }
    forall j | 0 <= j < n ensures !At(head, CRLFCRLF, j) {
      NoBlankLineBefore(line, j);
    }
  }

  lemma NoBlankLineBefore(line: string, j: nat)
    requires PlainLine(line) && j < |line| + 2
    ensures !At(CRLF + line + CRLFCRLF, CRLFCRLF, j)
  {
    var head := CRLF + line + CRLFCRLF;
    assert head[1] == LF && head[2] == line[0] && line[0] in line;
    assert 2 <= j ==> head[j] == line[j - 2] && line[j - 2] in line;
    if At(head, CRLFCRLF, j) {
      BlankLineBytes(head, j);
    }
  }
}
