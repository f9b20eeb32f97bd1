/**
Reading inverts writing: for one item exactly when its text keeps clear of the framing, and hence for
every sequence of such items. What a stream cut anywhere inside an end frame can still be read as.
*/
module ProtocolRoundTrip {
  import opened Bytes
  import opened Protocol

  /** One thing a worker puts on its output: a control frame, or a line the case printed. */
  datatype Item = Frame(event: Event) | Printed(text: Text)

  function WireOf(i: Item): (b: Text)
    ensures b != []
  {
    match i
    case Frame(e) => WriteEvent(e)
    case Printed(text) => text + [NL]
  }

  function LineOf(i: Item): Line {
    match i
    case Frame(e) => Control(e)
    case Printed(text) => Output(text)
  }

  /** Fits on one line and survives the trimming of line ends. */
  predicate OneLine(s: Text) {
    NL !in s && (s == [] || s[|s| - 1] != CR)
  }

  predicate WellFormed(i: Item) {
    match i
    case Frame(Start(name)) => OneLine(name)
    case Frame(End(_, millis, message)) => millis <= U64_MAX && |message| <= U64_MAX
    case Printed(text) => OneLine(text) && !HasPrefix(text, [CONTROL])
  }

  /** The machine integers: a time and a message length that fit their 64-bit fields. */
  predicate Sized(i: Item) {
    i.Frame? && i.event.End? ==> i.event.millis <= U64_MAX && |i.event.message| <= U64_MAX
  }

  function Wire(items: seq<Item>): Text {
    if items == [] then [] else WireOf(items[0]) + Wire(items[1..])
  }

  function Lines(items: seq<Item>): (r: seq<Line>)
    ensures |r| == |items| && forall i :: 0 <= i < |items| ==> r[i] == LineOf(items[i])
  {
    seq(|items|, i requires 0 <= i < |items| => LineOf(items[i]))
  }

  /** A whole line is classified by its first byte. */
  lemma {:induction false} ReadLineAt(line: Text, rest: Text)
    requires OneLine(line)
    ensures ReadLine(line + [NL] + rest)
         == if HasPrefix(line, [CONTROL]) then ReadFrame(line[1..], rest) else Got(Output(line), rest)
  {
    hide ReadFrame;
    SplitLineAt(line, rest);
    if line != [] {
      assert line[|line| - 1] in line;
    }
    TrimOne(line);
  }

  lemma {:induction false} ReadStart(name: Text, rest: Text)
    requires OneLine(name)
    ensures ReadLine(WriteEvent(Start(name)) + rest) == Got(Control(Start(name)), rest)
  {
    hide ReadLine;
    var line := [CONTROL] + START_ + name;
    ReadLineAt(line, rest);
    assert line[1..] == START_ + name;
    assert (START_ + name)[|START_|..] == name;
  }

  lemma {:induction false} ReadPrinted(text: Text, rest: Text)
    requires OneLine(text) && !HasPrefix(text, [CONTROL])
    ensures ReadLine(WireOf(Printed(text)) + rest) == Got(Output(text), rest)
  {
    hide ReadLine;
    ReadLineAt(text, rest);
  }

  lemma {:induction false} HeaderLine(status: Status, millis: nat, len: nat)
    ensures var h := Header(status, millis, len);
            NL !in h && h[|h| - 1] !in {CR, NL} && HasPrefix(h, END_) && !HasPrefix(h, START_)
  {
    NoSpaces(millis, status);
    NoSpaces(len, status);
    var h, d := Header(status, millis, len), Decimal(len);
    assert h[|h| - 1] == d[|d| - 1];
    assert h[0] == END_[0];
  }

  /** A header followed by enough bytes is an end frame, and takes exactly the bytes it declares. */
  lemma {:induction false} ReadFrameEnd(status: Status, millis: nat, message: Text, rest: Text)
    requires millis <= U64_MAX && |message| <= U64_MAX
    ensures ReadFrame(Header(status, millis, |message|), message + rest)
         == Got(Control(End(status, millis, message)), rest)
  {
    hide Header, ParseEnd;
    HeaderLine(status, millis, |message|);
    ParseEndInverts(status, millis, |message|);
    assert (message + rest)[..|message|] == message && (message + rest)[|message|..] == rest;
  }

  lemma {:induction false} ReadEnd(status: Status, millis: nat, message: Text, rest: Text)
    requires millis <= U64_MAX && |message| <= U64_MAX
    ensures ReadLine(WriteEvent(End(status, millis, message)) + rest)
         == Got(Control(End(status, millis, message)), rest)
  {
    hide ReadLine, ReadFrame, Header;
    var h := Header(status, millis, |message|);
    var line := [CONTROL] + h;
    HeaderLine(status, millis, |message|);
    ReadLineAt(line, message + rest);
    Assoc(line + [NL], message, rest);
    assert line[1..] == h;
    ReadFrameEnd(status, millis, message, rest);
  }

  lemma {:induction false} ReadItem(i: Item, rest: Text)
    requires WellFormed(i)
    ensures ReadLine(WireOf(i) + rest) == Got(LineOf(i), rest)
  {
    match i
    case Frame(Start(name)) => ReadStart(name, rest);
    case Frame(End(status, millis, message)) => ReadEnd(status, millis, message, rest);
    case Printed(text) => ReadPrinted(text, rest);
  }

  /** A line read back ends where its newline was: nothing read from one line holds or precedes a newline. */
  lemma {:induction false} SplitLineFirst(b: Text)
    ensures var raw := SplitLine(b).0;
            raw != [] ==> NL !in raw[..|raw| - 1] && (raw[|raw| - 1] == NL || raw == b)
  {
    if b != [] && b[0] != NL {
      SplitLineFirst(b[1..]);
      var tail := SplitLine(b[1..]).0;
      var raw := SplitLine(b).0;
      if tail != [] {
        assert raw[..|raw| - 1] == [b[0]] + tail[..|tail| - 1];
      }
    }
  }

  lemma {:induction false} LineTextIsOneLine(b: Text)
    ensures OneLine(TrimEnd(SplitLine(b).0))
  {
    var raw := SplitLine(b).0;
    SplitLineFirst(b);
    TrimEndPrefix(raw);
    var line := TrimEnd(raw);
    if NL in line {
      assert false;
    }
  }

  /** Whatever a read yields is itself well formed, so nothing else can come back as written. */
  lemma {:induction false} ReadIsWellFormed(b: Text)
    requires ReadLine(b).Got?
    ensures match ReadLine(b).line
            case Output(text) => WellFormed(Printed(text))
            case Control(Start(name)) => OneLine(name)
            case Control(End(_, _, _)) => true
  {
    LineTextIsOneLine(b);
    var line := TrimEnd(SplitLine(b).0);
    if HasPrefix(line, [CONTROL]) && HasPrefix(line[1..], START_) {
      var name := line[1..][|START_|..];
      assert name == line[1 + |START_|..];
    }
  }

  /** One item is read back as itself, whatever follows it, exactly when it is well formed. */
  lemma {:induction false} ItemRoundTrip(i: Item)
    requires Sized(i)
    ensures (forall rest :: ReadLine(WireOf(i) + rest) == Got(LineOf(i), rest)) <==> WellFormed(i)
  {
    if WellFormed(i) {
      forall rest ensures ReadLine(WireOf(i) + rest) == Got(LineOf(i), rest) {
        ReadItem(i, rest);
      }
    } else {
      assert WireOf(i) + [] == WireOf(i);
      if ReadLine(WireOf(i)) == Got(LineOf(i), []) {
        ReadIsWellFormed(WireOf(i));
      }
      assert ReadLine(WireOf(i) + []) != Got(LineOf(i), []);
    }
  }

  lemma {:induction false} EmptyIsEof()
    ensures ReadLine([]) == Eof
  {
  }

  /** Any sequence of well-formed frames and lines is read back in order, and then the end. */
  lemma {:induction false} StreamRoundTrip(items: seq<Item>)
    requires forall k :: 0 <= k < |items| ==> WellFormed(items[k])
    ensures ReadAll(Wire(items)) == (Lines(items), true)
  {
    hide ReadLine, WireOf;
    if items == [] {
      assert ReadLine([]) == Eof by { EmptyIsEof(); }
    } else {
      ReadItem(items[0], Wire(items[1..]));
      StreamRoundTrip(items[1..]);
      assert Lines(items) == [LineOf(items[0])] + Lines(items[1..]);
    }
  }

  /**
  Output that does not end its line takes the header of the following end frame with it: the message is left on
  the stream to be read as whatever it looks like.
  */
  lemma {:induction false} UnterminatedOutputHidesFrame(text: Text, status: Status, millis: nat, message: Text,
                                                        rest: Text)
    requires text != [] && NL !in text && text[0] != CONTROL
    ensures var h := [CONTROL] + Header(status, millis, |message|);
            && ReadLine(text + WriteEvent(End(status, millis, message)) + rest) == Got(Output(text + h), message + rest)
            && (message == [] && rest == [] ==>
                  ReadAll(text + WriteEvent(End(status, millis, message)) + rest) == ([Output(text + h)], true))
  {
    hide Header, ReadLine, ReadAll;
    var h := [CONTROL] + Header(status, millis, |message|);
    HeaderLine(status, millis, |message|);
    ReadLineAt(text + h, message + rest);
    var b := text + WriteEvent(End(status, millis, message)) + rest;
    assert b == (text + h) + [NL] + (message + rest);
    if message == [] && rest == [] {
      ReadAllOne(b, Output(text + h));
    }
  }

  lemma {:induction false} ReadAllOne(b: Text, line: Line)
    requires ReadLine(b) == Got(line, [])
    ensures ReadAll(b) == ([line], true)
  {
    assert ReadAll([]) == ([], true) by {
      assert ReadLine([]) == Eof;
    }
    assert [line] + [] == [line];
  }

  // ---------------------------------------------------------------- requests

  lemma {:induction false} ReadRequestInverts(r: Request, rest: Text)
    requires r.Run? ==> OneLine(r.name)
    ensures ReadRequest(WriteRequest(r) + rest) == (Some(r), rest)
  {
    match r
    case Run(name) =>
      var line := RUN + [SPACE] + name;
      SplitLineAt(line, rest);
      TrimOne(line);
      SplitOnceAt(RUN, name);
      assert line == RUN + ([SPACE] + name);
    case Quit =>
      SplitLineAt(QUIT, rest);
      TrimOne(QUIT);
      SplitOnceNone(QUIT);
  }

  /** A request reads back as itself, spaces and all, exactly when its name keeps to one line. */
  lemma {:induction false} RequestRoundTrip(r: Request)
    ensures (forall rest :: ReadRequest(WriteRequest(r) + rest) == (Some(r), rest))
       <==> (r.Run? ==> OneLine(r.name))
  {
    if r.Run? ==> OneLine(r.name) {
      forall rest ensures ReadRequest(WriteRequest(r) + rest) == (Some(r), rest) {
        ReadRequestInverts(r, rest);
      }
    } else {
      var b := WriteRequest(r);
      assert b + [] == b;
      if ReadRequest(b) == (Some(r), []) {
        LineTextIsOneLine(b);
        SplitOnceKeeps(TrimEnd(SplitLine(b).0));
      }
      assert ReadRequest(b + []) != (Some(r), []);
    }
  }

  lemma {:induction false} SplitOnceKeeps(s: Text)
    ensures match SplitOnce(s) case None => true case Some((a, b)) => s == a + [SPACE] + b
  {
    if s != [] && s[0] != SPACE {
      SplitOnceKeeps(s[1..]);
      if SplitOnce(s[1..]).Some? {
        var (a, b) := SplitOnce(s[1..]).value;
        assert s == [s[0]] + (a + [SPACE] + b);
      }
    }
  }
}
