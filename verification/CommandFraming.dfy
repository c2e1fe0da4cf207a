/** How a controller cuts its input into commands (src/controller.c): a fixed
    receive buffer, lines that do not fit are discarded but still reported, and
    an optional final newline at the end of the stream.
  */
module CommandFraming {

  const RECV_BUF_SIZE: nat := 1024

  datatype Record = Command(line: string) | TooLong(first: char)

  // ---------------------------------------------------------------- the framing of a stream

  function FirstNewline(s: string): (i: nat)
    ensures i <= |s| && '\n' !in s[..i] && (i < |s| ==> s[i] == '\n')
  {
    if s == [] || s[0] == '\n' then 0 else 1 + FirstNewline(s[1..])
  }

  // One record per line; `long` says that the first line is already known to be too long.
  function Records(long: bool, s: string): seq<Record>
    decreases |s|
  {
    var i := FirstNewline(s);
    if i == |s| then []
    else
      [if |s[..i]| > 0 && (long || i >= RECV_BUF_SIZE) then TooLong(s[0]) else Command(s[..i])] +
      Records(false, s[i + 1..])
  }

  function Frame(stream: string): seq<Record> { Records(false, stream) }

  lemma FirstNewlineIs(line: string, rest: string)
    requires '\n' !in line
    ensures FirstNewline(line + ['\n'] + rest) == |line|
  {
    var s := line + ['\n'] + rest;
    var i := FirstNewline(s);
    assert s[|line|] == '\n';
  }

  lemma FirstNewlineAt(s: string, i: nat)
    requires i < |s| && s[i] == '\n' && '\n' !in s[..i]
    ensures FirstNewline(s) == i
  {
    var j := FirstNewline(s);
    InPrefix(s, i, j);
    InPrefix(s, j, i);
  }

  lemma InPrefix(s: string, i: nat, j: nat)
    ensures j < i <= |s| ==> s[j] in s[..i]
  {
    if j < i <= |s| { assert s[..i][j] == s[j]; }
  }

  lemma RecordsLine(long: bool, line: string, rest: string)
    requires '\n' !in line && (long ==> line != "")
    ensures Records(long, line + ['\n'] + rest)
         == [if long || |line| >= RECV_BUF_SIZE then TooLong(line[0]) else Command(line)] + Records(false, rest)
  {
    var s := line + ['\n'] + rest;
    FirstNewlineIs(line, rest);
    assert s[..|line|] == line && s[|line| + 1..] == rest;
  }

  lemma RecordsNone(long: bool, s: string)
    requires '\n' !in s
    ensures Records(long, s) == []
  {
    assert FirstNewline(s) == |s|;
  }

  // Forgetting all but the first character of a line that fills the buffer changes nothing.
  lemma RecordsDiscard(long: bool, t: string, rest: string)
    requires '\n' !in t && |t| >= RECV_BUF_SIZE
    ensures Records(long, t + rest) == Records(true, [t[0]] + rest)
  {
    var i := FirstNewline(rest);
    if i == |rest| {
      assert rest[..i] == rest;
      RecordsNone(long, t + rest);
      RecordsNone(true, [t[0]] + rest);
    } else {
      var line, tail := rest[..i], rest[i + 1..];
      assert rest == line + ['\n'] + tail;
      assert t + rest == (t + line) + ['\n'] + tail;
      assert [t[0]] + rest == ([t[0]] + line) + ['\n'] + tail;
      RecordsLine(long, t + line, tail);
      RecordsLine(true, [t[0]] + line, tail);
    }
  }

  // What the promise is worth: every line of at most RECV_BUF_SIZE - 1 bytes is a command.
  lemma {:induction false} ShortLinesAreCommands(lines: seq<string>)
    requires forall i :: 0 <= i < |lines| ==> '\n' !in lines[i]
    ensures |Frame(Unlines(lines))| == |lines|
    ensures forall i :: 0 <= i < |lines| ==>
      Frame(Unlines(lines))[i] == if |lines[i]| < RECV_BUF_SIZE then Command(lines[i]) else TooLong(lines[i][0])
  {
    if lines != [] {
      ShortLinesAreCommands(lines[1..]);
      RecordsLine(false, lines[0], Unlines(lines[1..]));
      forall i | 0 < i < |lines|
        ensures Frame(Unlines(lines))[i] ==
          if |lines[i]| < RECV_BUF_SIZE then Command(lines[i]) else TooLong(lines[i][0])
      {
        assert lines[i] == lines[1..][i - 1];
      }
    }
  }

  function Unlines(lines: seq<string>): string {
    if lines == [] then "" else lines[0] + ['\n'] + Unlines(lines[1..])
  }

  // ---------------------------------------------------------------- the controller

  datatype State = Next | Run | End | Closed

  // Whether, and how, the final newline was supplied.
  datatype Final = NotAppended | AppendedToLine | MergedLines

  predicate Unterminated(s: string) { s != "" && s[|s| - 1] != '\n' }

  // The text of a buffer that is not yet dispatched.  The newline of the current line
  // has been overwritten with NUL.
  ghost function HeldOf(state: State, lineLen: nat, text: string): string
    requires lineLen <= |text|
  {
    match state
    case Next => text
    case Run => (if lineLen > 0 then text[..lineLen - 1] + ['\n'] else "") + text[lineLen..]
    case End => text[lineLen..]
    case Closed => ""
  }

  lemma HeldGrows(state: State, lineLen: nat, text: string, more: string)
    requires lineLen <= |text| && !state.Closed?
    ensures HeldOf(state, lineLen, text + more) == HeldOf(state, lineLen, text) + more
  {
    assert (text + more)[lineLen..] == text[lineLen..] + more;
    if state.Run? && lineLen > 0 {
      assert (text + more)[..lineLen - 1] == text[..lineLen - 1];
      var line := text[..lineLen - 1] + ['\n'];
      assert line + (text[lineLen..] + more) == (line + text[lineLen..]) + more;
    }
  }

  // With the newline of the only line restored.
  lemma HeldWhole(whole: string, text: string)
    requires whole == text + ['\0']
    ensures HeldOf(Run, |whole|, whole) == text + ['\n']
  {
    assert whole[..|whole| - 1] == text && whole[|whole|..] == "";
  }

  lemma Regroup(held: string, piece: string, rest: string, extra: string)
    ensures (held + piece) + (rest + extra) == held + ((piece + rest) + extra)
  {
  }

  // ---------------------------------------------------------------- what is buffered when the stream ends

  // The buffer of an open connection, and what the peer has still to send.
  datatype Buffered = Buffered(state: State, lineLen: nat, text: string, left: string)

  // The text after the line that is being dispatched, if any.
  function Rest(state: State, lineLen: nat, text: string): string {
    if (state.Run? || state.End?) && lineLen <= |text| then text[lineLen..] else text
  }

  function AfterWork(b: Buffered): Buffered {
    match b.state
    case Next =>
      var i := FirstNewline(b.text);
      if i < |b.text| then b.(state := Run, lineLen := i + 1, text := b.text[i := '\0'])
      else if |b.text| >= RECV_BUF_SIZE then b.(text := b.text[..1])
      else b
    case Run => b.(state := End)
    case End => Buffered(Next, 0, Rest(b.state, b.lineLen, b.text), b.left)
    case Closed => b
  }

  function Min(a: nat, b: nat): nat { if a <= b then a else b }

  function AfterRead(b: Buffered, n: nat): Buffered {
    if |b.text| >= RECV_BUF_SIZE then b
    else
      var k := Min(n, Min(RECV_BUF_SIZE - |b.text|, |b.left|));
      b.(text := b.text + b.left[..k], left := b.left[k..])
  }

  // The read finds the end of the stream.
  predicate AtEnd(b: Buffered) { |b.text| < RECV_BUF_SIZE && b.left == "" }

  datatype Op = Read(bytes: nat) | Work

  /** Under this schedule of reads and work the end of the stream is seen while a complete
      line is still waiting behind the one being dispatched. */
  predicate LineWaitsAtEnd(b: Buffered, schedule: seq<Op>)
    decreases |schedule|
  {
    schedule != [] &&
    match schedule[0]
    case Work => LineWaitsAtEnd(AfterWork(b), schedule[1..])
    case Read(n) =>
      if n > 0 && AtEnd(b) then '\n' in Rest(b.state, b.lineLen, b.text)
      else LineWaitsAtEnd(if n > 0 then AfterRead(b, n) else b, schedule[1..])
  }

  class Framer {
    const recvBuf: array<char>
    var recvBufPos: nat
    var recvOverflow: bool
    var recvOpen: bool             // recv_fd != -1
    const appendFinalNewline: bool
    var lineLen: nat
    var state: State
    const input: string            // all the peer will ever send ...
    var consumed: nat              // ... and how much of it has been read
    var dispatched: seq<Record>
    ghost var final: Final

    // The text not yet dispatched that is in the buffer.
    ghost function Held(): string
      reads this, recvBuf
      requires lineLen <= recvBufPos <= recvBuf.Length
    {
      HeldOf(state, lineLen, recvBuf[..recvBufPos])
    }

    ghost function View(): Buffered
      reads this, recvBuf
      requires recvBufPos <= recvBuf.Length && consumed <= |input|
    {
      Buffered(state, lineLen, recvBuf[..recvBufPos], input[consumed..])
    }

    // The stream has ended and the final newline will be put behind more than one line.
    ghost predicate Doomed()
      reads this, recvBuf
    {
      || final == MergedLines
      || (final == NotAppended && !state.Closed? && recvBufPos <= recvBuf.Length
          && '\n' in Rest(state, lineLen, recvBuf[..recvBufPos]))
    }

    ghost predicate Shape()
      reads this, recvBuf
    {
      && recvBuf.Length == RECV_BUF_SIZE && lineLen <= recvBufPos <= RECV_BUF_SIZE && consumed <= |input|
      && (state.Next? || state.Closed? ==> lineLen == 0)
      && (state.Run? || state.End? ==> lineLen > 0)
      && (!recvOpen ==> consumed == |input|)
      && (!recvOpen && state.Next? ==> recvBufPos < RECV_BUF_SIZE)
      && (state.Closed? ==> !recvOpen)
      && (state.Next? && recvOverflow ==> recvBufPos > 0 && recvBuf[0] != '\n')
      && (state.Run? && recvOverflow ==> lineLen > 1)
      && (state.End? ==> !recvOverflow)
      && (state.Run? && final != MergedLines ==> '\n' !in recvBuf[..lineLen - 1])
    }

    // What has been dispatched plus what is still to come is the framing of the stream.
    ghost predicate Ledger(extra: string)
      reads this, recvBuf
      requires lineLen <= recvBufPos <= recvBuf.Length && consumed <= |input|
    {
      Frame(input + extra) == dispatched + Records(recvOverflow, Held() + (input[consumed..] + extra))
    }

    ghost predicate Valid()
      reads this, recvBuf
    {
      && Shape()
      && match final
         case NotAppended =>
           && Ledger("") && (!state.Closed? ==> Ledger("\n"))
           && (!state.Closed? ==> Unterminated(input) == Unterminated(Held() + input[consumed..]))
           && (state.Closed? ==> !(appendFinalNewline && Unterminated(input)))
         case AppendedToLine =>
           && !recvOpen && appendFinalNewline && Unterminated(input)
           && Frame(input + "\n") == dispatched + Records(recvOverflow, Held())
           && lineLen == recvBufPos
         case MergedLines =>
           && !recvOpen && appendFinalNewline && Unterminated(input) && lineLen == recvBufPos
           && |Frame(input + "\n")| > |dispatched| + if state.Run? then 1 else 0
    }

    constructor (stream: string, append: bool)
      ensures Valid() && state == Next && recvOpen && input == stream && appendFinalNewline == append
      ensures dispatched == [] && consumed == 0 && final == NotAppended && recvBufPos == 0 && lineLen == 0
      ensures !recvOverflow
      ensures fresh(recvBuf)
    {
      recvBuf := new char[RECV_BUF_SIZE];
      recvBufPos, recvOverflow, recvOpen, lineLen, state := 0, false, true, 0, Next;
      appendFinalNewline, input, consumed, dispatched, final := append, stream, 0, [], NotAppended;
      new;
      assert input[0..] == input && "" + (input + "") == input + "" && "" + input == input;
      assert "" + (input + "\n") == input + "\n";
    }

    // ctl_read_more: up to `n` bytes arrive, or the end of the stream is seen.
    method ReadMore(n: nat)
      requires Valid() && n > 0
      modifies this`recvBufPos, this`recvOpen, this`consumed, recvBuf
      ensures Valid() && consumed >= old(consumed) && (recvOpen ==> old(recvOpen))
      ensures old(recvOpen && recvBufPos < RECV_BUF_SIZE) ==> consumed > old(consumed) || !recvOpen
      ensures old(recvOpen && recvBufPos < RECV_BUF_SIZE && consumed == |input|) ==> !recvOpen
      ensures old(recvOpen) ==> recvOpen == !old(AtEnd(View()))
      ensures View() == if old(recvOpen) && recvOpen then AfterRead(old(View()), n) else old(View())
      ensures final == old(final) && state == old(state) && lineLen == old(lineLen)
    {
      hide Records, HeldOf, Frame;
      if !recvOpen || recvBufPos >= RECV_BUF_SIZE {
        return;
      }
      if consumed == |input| {
        recvOpen := false;
        return;
      }
      var room, left := RECV_BUF_SIZE - recvBufPos, |input| - consumed;
      var k := Min(n, Min(room, left));
      ghost var text, held, rest := recvBuf[..recvBufPos], Held(), input[consumed..];
      var piece := input[consumed..consumed + k];
      HeldGrows(state, lineLen, text, piece);
      Fill(piece);
      consumed := consumed + k;
      assert rest == piece + input[consumed..];
      Regroup(held, piece, input[consumed..], "");
      Regroup(held, piece, input[consumed..], "\n");
    }

    method Fill(piece: string)
      requires lineLen <= recvBufPos && recvBufPos + |piece| <= recvBuf.Length
      modifies this`recvBufPos, recvBuf
      ensures recvBufPos == old(recvBufPos) + |piece|
      ensures recvBuf[..recvBufPos] == old(recvBuf[..recvBufPos]) + piece
    {
      forall j | 0 <= j < |piece| {
        recvBuf[recvBufPos + j] := piece[j];
      }
      recvBufPos := recvBufPos + |piece|;
    }

    // memchr(recv_buf, newline, recv_buf_pos)
    method FindEol() returns (eol: int)
      requires recvBufPos <= recvBuf.Length
      ensures -1 <= eol < recvBufPos
      ensures eol < 0 ==> '\n' !in recvBuf[..recvBufPos]
      ensures eol >= 0 ==> recvBuf[eol] == '\n' && '\n' !in recvBuf[..eol]
    {
      eol := 0;
      while eol < recvBufPos && recvBuf[eol] != '\n'
        invariant 0 <= eol <= recvBufPos && '\n' !in recvBuf[..eol]
      {
        eol := eol + 1;
      }
      if eol == recvBufPos {
        eol := -1;
      }
    }

    // The buffer is full without a newline: keep the first character only.
    method Discard()
      requires Valid() && state.Next? && final.NotAppended? && recvOpen
      requires recvBufPos == RECV_BUF_SIZE && '\n' !in recvBuf[..recvBufPos]
      modifies this`recvOverflow, this`recvBufPos
      ensures Valid() && recvOverflow && recvBufPos == 1 && recvBuf[..1] == old(recvBuf[..recvBufPos])[..1]
    {
      hide Records;
      ghost var text, rest := recvBuf[..recvBufPos], input[consumed..];
      RecordsDiscard(recvOverflow, text, rest + "");
      RecordsDiscard(recvOverflow, text, rest + "\n");
      recvOverflow := true;
      recvBufPos := 1;
      assert recvBuf[..1] == [text[0]];
      assert text[0] in text && text[|text| - 1] in text;
      assert rest != "" ==> (text + rest)[|text + rest| - 1] == rest[|rest| - 1];
      assert rest != "" ==> ([text[0]] + rest)[|[text[0]] + rest| - 1] == rest[|rest| - 1];
    }

    // A complete line is in the buffer: cut it off with a NUL.
    method TakeLine(eol: nat)
      requires Valid() && state.Next? && final.NotAppended?
      requires eol < recvBufPos && recvBuf[eol] == '\n' && '\n' !in recvBuf[..eol]
      modifies this`lineLen, this`state, recvBuf
      ensures Valid() && state.Run? && lineLen == eol + 1 && recvBuf[..eol] == old(recvBuf[..eol])
      ensures recvBuf[..recvBufPos] == old(recvBuf[..recvBufPos])[eol := '\0']
    {
      hide Records;
      ghost var text := recvBuf[..recvBufPos];
      lineLen := eol + 1;
      recvBuf[eol] := '\0';
      state := Run;
      assert recvBuf[..recvBufPos][..eol] == text[..eol] && recvBuf[..recvBufPos][eol + 1..] == text[eol + 1..];
      assert recvBuf[..eol] == text[..eol];
      assert text == text[..eol] + ['\n'] + text[eol + 1..];
      assert Held() == text;
    }

    // End of stream without a final newline: supply one, and take everything in the buffer as the line.
    method AppendNewline(eol: int)
      requires Valid() && state.Next? && final.NotAppended? && !recvOpen && appendFinalNewline
      requires recvBufPos > 0 && recvBuf[recvBufPos - 1] != '\n'
      requires -1 <= eol < recvBufPos && (eol < 0 ==> '\n' !in recvBuf[..recvBufPos])
      requires eol >= 0 ==> recvBuf[eol] == '\n' && '\n' !in recvBuf[..eol]
      modifies this, recvBuf
      ensures Valid() && state.Run? && !recvOpen && dispatched == old(dispatched)
      ensures final == if eol < 0 then AppendedToLine else MergedLines
      ensures lineLen == old(recvBufPos) + 1 && recvBuf[..lineLen - 1] == old(recvBuf[..recvBufPos])
      ensures recvOverflow == old(recvOverflow)
    {
      hide Records, Frame, HeldOf;
      ghost var text := recvBuf[..recvBufPos];
      EndsAsInput();
      AppendedText(eol);
      PutNul();
      lineLen := recvBufPos;
      state := Run;
      HeldWhole(recvBuf[..recvBufPos], text);
      if eol < 0 {
        final := AppendedToLine;
      } else {
        final := MergedLines;
      }
    }

    // The NUL that takes the place of the supplied newline.
    method PutNul()
      requires recvBufPos < recvBuf.Length
      modifies this`recvBufPos, recvBuf
      ensures recvBufPos == old(recvBufPos) + 1 && recvBuf[..recvBufPos] == old(recvBuf[..recvBufPos]) + ['\0']
      ensures recvBuf[..recvBufPos - 1] == old(recvBuf[..recvBufPos])
    {
      recvBuf[recvBufPos] := '\0';
      recvBufPos := recvBufPos + 1;
    }

    // What the stream with its last newline still has to give, at its end.
    lemma AppendedText(eol: int)
      requires Valid() && state.Next? && final.NotAppended? && !recvOpen
      requires -1 <= eol < recvBufPos && (eol >= 0 ==> recvBuf[eol] == '\n' && '\n' !in recvBuf[..eol])
      ensures Frame(input + "\n") == dispatched + Records(recvOverflow, recvBuf[..recvBufPos] + ['\n'])
      ensures eol >= 0 ==> |Records(recvOverflow, recvBuf[..recvBufPos] + ['\n'])| >= 2
    {
      hide Records, Frame;
      ghost var text := recvBuf[..recvBufPos];
      assert input[consumed..] == "" && text + ("" + "\n") == text + ['\n'];
      if eol >= 0 {
        assert text[..eol] == recvBuf[..eol] && text == text[..eol] + ['\n'] + text[eol + 1..];
        assert recvOverflow ==> text[..eol] != "";
        MergedCount(recvOverflow, text[..eol], text[eol + 1..]);
      }
    }

    method Close()
      requires Valid() && state.Next? && !recvOpen
      requires recvBufPos > 0 ==> final.NotAppended? && '\n' !in recvBuf[..recvBufPos] && !appendFinalNewline
      modifies this`state, this`recvBufPos
      ensures Valid() && state.Closed? && recvBufPos == 0
    {
      ghost var text := recvBuf[..recvBufPos];
      assert input[consumed..] == "" && text + ("" + "") == text;
      RecordsNone(recvOverflow, text);
      recvBufPos := 0;
      state := Closed;
    }

    // At the end of the stream the buffer lacks its last newline if the stream does.
    lemma EndsAsInput()
      requires Valid() && state.Next? && !recvOpen && final.NotAppended?
      ensures Unterminated(input) == Unterminated(recvBuf[..recvBufPos])
    {
      assert Held() + input[consumed..] == recvBuf[..recvBufPos];
    }

    // ctl_state_next_command; false means that more input must be read first.
    method NextCommand() returns (again: bool)
      requires Valid() && state.Next?
      modifies this, recvBuf
      ensures Valid() && dispatched == old(dispatched) && consumed == old(consumed) && recvOpen == old(recvOpen)
      ensures final != old(final) ==> state.Run? && old(final) == NotAppended
      ensures again && final == old(final) ==>
        recvBufPos < old(recvBufPos) || (recvBufPos == old(recvBufPos) && !state.Next?)
      ensures !again ==>
        state.Next? && recvOpen && recvBufPos < RECV_BUF_SIZE && final == old(final) && recvBufPos == old(recvBufPos)
      ensures
        appendFinalNewline &&
        old(!recvOpen && recvBufPos > 0 && Unterminated(input) && '\n' in recvBuf[..recvBufPos]) ==>
        final == MergedLines && state.Run? && recvOverflow == old(recvOverflow)
      ensures old(!recvOpen && recvBufPos == 0) ==> state.Closed?
      ensures final == MergedLines && old(final) != MergedLines ==>
        && '\n' in old(recvBuf[..recvBufPos]) && lineLen == old(recvBufPos) + 1
        && recvBuf[..lineLen - 1] == old(recvBuf[..recvBufPos])
      ensures !again ==> '\n' !in recvBuf[..recvBufPos]
      ensures old(recvOpen) ==> View() == AfterWork(old(View()))
      ensures old(!recvOpen && Unterminated(input)) && appendFinalNewline ==> Doomed() == old(Doomed())
    {
      hide Records, HeldOf, Frame;
      var eol := FindEol();
      if eol >= 0 {
        FirstNewlineAt(recvBuf[..recvBufPos], eol);
      }
      if eol < 0 && recvOpen {
        if recvBufPos >= RECV_BUF_SIZE {
          Discard();
          return true;
        }
        return false;
      }
      if !recvOpen {
        if recvBufPos == 0 {
          Close();
          return true;
        }
        if recvBuf[recvBufPos - 1] != '\n' && appendFinalNewline {
          AppendNewline(eol);
          return true;
        }
        if eol < 0 {
          Close();
          return true;
        }
        EndsAsInput();
      }
      TakeLine(eol);
      return true;
    }

    // ctl_state_run_command: report a line that was too long, or dispatch the command.
    method RunCommand()
      requires Valid() && state.Run?
      modifies this`dispatched, this`recvOverflow, this`state
      ensures Valid() && state.End?
      ensures dispatched ==
        old(dispatched) + [if old(recvOverflow) then TooLong(recvBuf[0]) else Command(recvBuf[..lineLen - 1])]
    {
      hide Records;
      ghost var text := recvBuf[..recvBufPos];
      ghost var line, rest := recvBuf[..lineLen - 1], recvBuf[lineLen..recvBufPos];
      assert text[..lineLen - 1] == line && text[lineLen..] == rest;
      ghost var all := input[consumed..];
      assert Held() == line + ['\n'] + rest;
      if final == AppendedToLine {
        assert Held() + "" == Held() && rest + "" == rest;
        Dispatch(dispatched, recvOverflow, line, rest, "");
      } else if final == NotAppended {
        Dispatch(dispatched, recvOverflow, line, rest, all + "");
        Dispatch(dispatched, recvOverflow, line, rest, all + "\n");
        LineFirst(line, rest, all);
        EndsAlike(line + ['\n'], rest + all);
      }
      assert HeldOf(End, lineLen, text) == rest;
      hide HeldOf;
      if recvOverflow {
        recvOverflow := false;
        dispatched := dispatched + [TooLong(recvBuf[0])];
      } else {
        dispatched := dispatched + [Command(recvBuf[..lineLen - 1])];
      }
      state := End;
    }

    // ctl_state_end_command: shift the rest of the buffer down.
    method EndCommand()
      requires Valid() && state.End?
      modifies this`recvBufPos, this`lineLen, this`state, recvBuf
      ensures Valid() && state.Next? && lineLen == 0 && recvBufPos == old(recvBufPos - lineLen) < old(recvBufPos)
      ensures recvBuf[..recvBufPos] == old(recvBuf[..recvBufPos])[old(lineLen)..]
    {
      hide Records;
      ghost var held := Held();
      recvBufPos := recvBufPos - lineLen;
      forall k | 0 <= k < recvBufPos {
        recvBuf[k] := recvBuf[k + lineLen];
      }
      lineLen := 0;
      state := Next;
      assert Held() == held;
    }

    lemma Outcome()
      requires Valid() && state.Closed?
      ensures final == NotAppended ==> dispatched == Frame(input) && !(appendFinalNewline && Unterminated(input))
      ensures final == AppendedToLine ==> dispatched == Frame(input + "\n") && appendFinalNewline && Unterminated(input)
      ensures final == MergedLines ==> dispatched != Frame(input + "\n") && appendFinalNewline && Unterminated(input)
    {
      assert Held() == "" && input[consumed..] == "" && input + "" == input;
      RecordsNone(recvOverflow, "");
    }

    method Step() returns (again: bool)
      requires Valid() && !state.Closed?
      modifies this, recvBuf
      ensures Valid() && consumed == old(consumed) && recvOpen == old(recvOpen)
      ensures final != old(final) ==> old(final) == NotAppended
      ensures again && final == old(final) ==>
        recvBufPos < old(recvBufPos) || (recvBufPos == old(recvBufPos) && Rank(state) < Rank(old(state)))
      ensures !again ==>
        state.Next? && recvOpen && recvBufPos < RECV_BUF_SIZE && final == old(final) && recvBufPos <= old(recvBufPos)
      ensures !again ==> '\n' !in recvBuf[..recvBufPos]
      ensures old(recvOpen) ==> View() == AfterWork(old(View()))
      ensures old(!recvOpen && Unterminated(input)) && appendFinalNewline ==> Doomed() == old(Doomed())
    {
      hide Records, HeldOf, Frame;
      match state {
        case Next => again := NextCommand();
        case Run => RunCommand(); again := true;
        case End => EndCommand(); again := true;
      }
    }
  }

  function Rank(s: State): nat {
    match s case Next => 3 case Run => 2 case End => 1 case Closed => 0
  }

  lemma LineFirst(line: string, rest: string, more: string)
    ensures (line + ['\n'] + rest) + more == line + ['\n'] + (rest + more)
  {
  }

  // Dispatching the first line moves one record from the rest to the dispatched ones.
  lemma Dispatch(done: seq<Record>, long: bool, line: string, rest: string, more: string)
    requires '\n' !in line && (long ==> line != "") && |line| < RECV_BUF_SIZE
    ensures done + Records(long, (line + ['\n'] + rest) + more)
         == (done + [if long then TooLong(line[0]) else Command(line)]) + Records(false, rest + more)
  {
    LineFirst(line, rest, more);
    RecordsLine(long, line, rest + more);
  }

  lemma EndsAlike(a: string, b: string)
    requires a != "" && a[|a| - 1] == '\n'
    ensures Unterminated(a + b) == Unterminated(b)
  {
  }

  // ---------------------------------------------------------------- whole runs

  // A new connection to a peer that will send the stream.
  function Start(input: string): Buffered { Buffered(Next, 0, "", input) }

  // One schedule step keeps track of whether a line will be waiting at the end.
  lemma WaitsStep(b: Buffered, schedule: seq<Op>, i: nat)
    requires i < |schedule|
    ensures LineWaitsAtEnd(b, schedule[i..]) ==
      match schedule[i]
      case Work => LineWaitsAtEnd(AfterWork(b), schedule[i + 1..])
      case Read(n) =>
        if n > 0 && AtEnd(b) then '\n' in Rest(b.state, b.lineLen, b.text)
        else LineWaitsAtEnd(if n > 0 then AfterRead(b, n) else b, schedule[i + 1..])
  {
    assert schedule[i..][1..] == schedule[i + 1..];
  }

  /** The end of the stream has been seen and the final newline is to be supplied: what is
      dispatched in the end is the framing of the stream with that newline if and only if no
      complete line is waiting in the buffer now. */
  method Drain(f: Framer)
    requires f.Valid() && !f.recvOpen && !f.state.Closed? && f.final == NotAppended
    requires f.appendFinalNewline && Unterminated(f.input)
    modifies f, f.recvBuf
    ensures f.Valid() && f.state.Closed?
    ensures f.dispatched == Frame(f.input + "\n") <==> '\n' !in old(Rest(f.state, f.lineLen, f.recvBuf[..f.recvBufPos]))
  {
    hide Records, Frame, HeldOf, Rest;
    while !f.state.Closed?
      invariant f.Valid() && !f.recvOpen && f.Doomed() == old(f.Doomed())
      decreases f.final == NotAppended, f.recvBufPos, Rank(f.state)
    {
      var _ := f.Step();
    }
    f.Outcome();
  }

  /** The whole life of an input stream.  However it is split into reads, and whenever
      the controller gets to work in between, the records dispatched are the framing of
      the stream.  With append_final_newline on a stream that lacks its last newline,
      this holds of the stream with that newline if and only if the schedule does not let
      the stream end while a complete line is waiting. */
  method Serve(input: string, append: bool, schedule: seq<Op>) returns (records: seq<Record>)
    ensures !(append && Unterminated(input)) ==> records == Frame(input)
    ensures append && Unterminated(input) ==>
      (records == Frame(input + "\n") <==> !LineWaitsAtEnd(Start(input), schedule))
  {
    hide Records, Frame, HeldOf, Rest, LineWaitsAtEnd, AfterWork, AfterRead;
    var f := new Framer(input, append);
    ghost var waits := LineWaitsAtEnd(Start(input), schedule);
    ghost var special := append && Unterminated(input);
    var i := 0;
    assert schedule[0..] == schedule && input[0..] == input && f.recvBuf[..0] == "";
    while i < |schedule| && !f.state.Closed?
      invariant 0 <= i <= |schedule| && f.Valid() && fresh(f) && fresh(f.recvBuf)
      invariant f.recvOpen ==> f.final == NotAppended && waits == LineWaitsAtEnd(f.View(), schedule[i..])
      invariant !f.recvOpen && special ==> waits == f.Doomed()
    {
      WaitsStep(f.View(), schedule, i);
      match schedule[i] {
        case Read(n) => if n > 0 { f.ReadMore(n); }
        case Work => var _ := f.Step();
      }
      i := i + 1;
    }
    NoMoreSteps(f.View(), schedule, i);
    ServeRest(f, special, waits);
    f.Outcome();
    return f.dispatched;
  }

  // After the schedule: work until more input is needed, then read as much as there is.
  method ServeRest(f: Framer, ghost special: bool, ghost waits: bool)
    requires f.Valid() && (special ==> f.appendFinalNewline && Unterminated(f.input))
    requires f.recvOpen ==> f.final == NotAppended && !waits
    requires !f.recvOpen && special ==> waits == f.Doomed()
    modifies f, f.recvBuf
    ensures f.Valid() && f.state.Closed? && (special ==> waits == f.Doomed())
  {
    hide Records, Frame, HeldOf, Rest, LineWaitsAtEnd, AfterWork, AfterRead;
    while !f.state.Closed?
      invariant f.Valid()
      invariant f.recvOpen ==> f.final == NotAppended && !waits
      invariant !f.recvOpen && special ==> waits == f.Doomed()
      decreases |f.input| - f.consumed, f.recvOpen, f.final == NotAppended, f.recvBufPos, Rank(f.state)
    {
      var again := f.Step();
      if !again {
        RestOfNext(f.lineLen, f.recvBuf[..f.recvBufPos]);
        f.ReadMore(RECV_BUF_SIZE);
      }
    }
  }

  lemma NoMoreSteps(b: Buffered, schedule: seq<Op>, i: nat)
    requires i <= |schedule|
    ensures i == |schedule| ==> !LineWaitsAtEnd(b, schedule[i..])
  {
  }

  lemma RestOfNext(lineLen: nat, text: string)
    ensures Rest(Next, lineLen, text) == text
  {
  }

  lemma MergedCount(long: bool, a: string, b: string)
    requires '\n' !in a && (long ==> a != "")
    ensures |Records(long, (a + ['\n'] + b) + ['\n'])| >= 2
  {
    assert (a + ['\n'] + b) + ['\n'] == a + ['\n'] + (b + ['\n']);
    RecordsLine(long, a, b + ['\n']);
    var i := FirstNewline(b + ['\n']);
    assert (b + ['\n'])[|b|] == '\n';
  }

  method TwoReads(stream: string) returns (f: Framer)
    requires 0 < |stream| < RECV_BUF_SIZE
    ensures f.Valid() && f.input == stream && f.appendFinalNewline && !f.recvOpen && f.state.Next?
    ensures f.final == NotAppended
    ensures f.recvBufPos == |stream| && f.recvBuf[..f.recvBufPos] == stream && f.dispatched == [] && fresh(f)
    ensures fresh(f.recvBuf)
    ensures !f.recvOverflow
  {
    hide Records, Frame, HeldOf;
    f := new Framer(stream, true);
    assert f.View() == Buffered(Next, 0, "", stream);
    f.ReadMore(|stream|);
    assert f.View() == Buffered(Next, 0, stream, "");
    f.ReadMore(1);
  }

  // Two short lines and the end of the stream arrive before the controller gets to work:
  // they are dispatched as one command.
  method MergedExample() returns (f: Framer)
    ensures f.Valid() && f.input == "a\nb" && f.appendFinalNewline && f.state.Closed?
    ensures f.dispatched == [Command("a\nb")] && f.dispatched != Frame(f.input + "\n")
  {
    hide Records, Frame, HeldOf;
    f := TwoReads("a\nb");
    assert "a\nb"[1] == '\n';
    var _ := f.NextCommand();
    f.RunCommand();
    f.EndCommand();
    var _ := f.NextCommand();
    f.Outcome();
  }

  // The same, as a schedule.
  lemma MergedSchedule()
    ensures LineWaitsAtEnd(Start("a\nb"), [Read(3), Read(1)]) && !LineWaitsAtEnd(Start("a\nb"), [])
  {
    var b := Start("a\nb");
    assert [Read(3), Read(1)][1..] == [Read(1)];
    assert AfterRead(b, 3).text == "a\nb" && AfterRead(b, 3).left == "";
    assert "a\nb"[1] == '\n';
  }
}
