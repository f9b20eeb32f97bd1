/**
The code at the two ends of the pipe: the stream reader, the runner leasing a case to a worker, and the
worker's request loop, each proved against the functions of `Protocol` and `WorkerStream`.
*/
module WorkerProcess {
  import opened Bytes
  import opened Protocol
  import opened ProtocolRoundTrip
  import opened WorkerStream

  datatype NextLine = AtEnd | Malformed | Next(line: Line)

  /** A buffered input: the bytes not read yet. */
  class Input {
    var data: Text

    constructor (data: Text)
      ensures this.data == data
    {
      this.data := data;
    }

    /** The text up to and including the next newline; empty at the end of the input. */
    method RawLine() returns (raw: Text)
      modifies this
      ensures (raw, data) == SplitLine(old(data))
      ensures raw + data == old(data)
    {
      var split := SplitLine(data);
      raw := split.0;
      data := split.1;
    }

    method Event() returns (r: NextLine)
      modifies this
      ensures match ReadLine(old(data))
              case Eof => r == AtEnd && data == []
              case Broken => r == Malformed
              case Got(line, rest) => r == Next(line) && data == rest
    {
      var raw := RawLine();
      if raw == [] {
        return AtEnd;
      }
      var trimmed := TrimEnd(raw);
      if !HasPrefix(trimmed, [CONTROL]) {
        return Next(Output(trimmed));
      }
      var frame := trimmed[1..];
      if HasPrefix(frame, START_) {
        return Next(Control(Start(frame[|START_|..])));
      }
      if !HasPrefix(frame, END_) {
        return Malformed;
      }
      match ParseEnd(frame[|END_|..]) {
        case None => return Malformed;
        case Some((status, millis, len)) =>
          if |data| < len {
            return Malformed;
          }
          r := Next(Control(End(status, millis, data[..len])));
          data := data[len..];
      }
    }

    method Request() returns (r: Option<Request>)
      modifies this
      ensures (r, data) == ReadRequest(old(data))
    {
      var raw := RawLine();
      if raw == [] {
        return None;
      }
      var line := TrimEnd(raw);
      match SplitOnce(line) {
        case Some((verb, name)) =>
          if verb == RUN {
            return Some(Run(name));
          }
        case None =>
      }
      r := if line == QUIT then Some(Quit) else None;
    }
  }

  // ---------------------------------------------------------------- the runner's end

  datatype CaseEnd = Finished(result: CaseResult) | Died(output: seq<Text>) | TimedOut(output: seq<Text>)

  /** What reading at most `patience` lines before the deadline comes to. */
  function CollectWithin(name: Text, b: Text, output: seq<Text>, patience: nat): CaseEnd
    decreases patience
  {
    if patience == 0 then TimedOut(output) else
    match ReadLine(b)
    case Eof => Died(output)
    case Broken => Died(output)
    case Got(Output(text), rest) => CollectWithin(name, rest, output + [text], patience - 1)
    case Got(Control(Start(_)), rest) => CollectWithin(name, rest, output, patience - 1)
    case Got(Control(End(status, millis, message)), _) =>
      Finished(CaseResult(name, status, millis, message, output))
  }

  /** A deadline changes nothing but whether the verdict is waited for: it never alters one. */
  lemma {:induction false} DeadlineOnlyCuts(name: Text, b: Text, output: seq<Text>, patience: nat)
    ensures var r := CollectWithin(name, b, output, patience);
            r.TimedOut? || match Collect(name, b, output)
                           case Reported(result, _) => r == Finished(result)
                           case Crashed(lines) => r == Died(lines)
    ensures CollectWithin(name, b, output, patience).TimedOut? ==> patience <= |b|
    decreases patience
  {
    hide ReadLine;
    if patience > 0 {
      match ReadLine(b)
      case Got(Output(text), rest) => DeadlineOnlyCuts(name, rest, output + [text], patience - 1);
      case Got(Control(Start(_)), rest) => DeadlineOnlyCuts(name, rest, output, patience - 1);
      case _ =>
    }
  }

  class Worker {
    var stdin: Text
    const lines: Input
    var killed: bool

    constructor (output: Text)
      ensures stdin == [] && lines.data == output && fresh(lines) && !killed
    {
      stdin := [];
      lines := new Input(output);
      killed := false;
    }

    /**
    Leases one case. `writable` is whether the worker still takes requests; `patience` the number of lines
    that arrive before the deadline.
    */
    method RunCase(name: Text, writable: bool, patience: nat) returns (r: CaseEnd)
      modifies this, lines
      ensures stdin == if writable then old(stdin) + WriteRequest(Run(name)) else old(stdin)
      ensures !writable ==> r == Died([]) && lines.data == old(lines.data) && killed == old(killed)
      ensures writable ==> r == CollectWithin(name, old(lines.data), [], patience)
      ensures writable ==> killed == (old(killed) || r.TimedOut?)
      ensures writable && r.Finished? ==> Collect(name, old(lines.data), []) == Reported(r.result, lines.data)
    {
      hide ReadLine, WriteRequest;
      if !writable {
        return Died([]);
      }
      stdin := stdin + WriteRequest(Run(name));
      var left: nat := patience;
      var output: seq<Text> := [];
      while true
        invariant killed == old(killed) && stdin == old(stdin) + WriteRequest(Run(name))
        invariant CollectWithin(name, lines.data, output, left)
               == CollectWithin(name, old(lines.data), [], patience)
        invariant Collect(name, lines.data, output) == Collect(name, old(lines.data), [])
        decreases left
      {
        if left == 0 {
          killed := true;
          return TimedOut(output);
        }
        left := left - 1;
        var next := lines.Event();
        match next {
          case AtEnd => return Died(output);
          case Malformed => return Died(output);
          case Next(Output(text)) => output := output + [text];
          case Next(Control(Start(_))) =>
          case Next(Control(End(status, millis, message))) =>
            return Finished(CaseResult(name, status, millis, message, output));
        }
      }
    }
  }

  // ---------------------------------------------------------------- the worker's end

  /** Where a worker and its case both write. */
  class Stdout {
    var data: Text

    constructor ()
      ensures data == []
    {
      data := [];
    }

    method Print(lines: seq<Text>)
      modifies this
      ensures data == old(data) + Wire(Prints(lines))
    {
      hide WireOf;
      var i := 0;
      assert Wire([]) == [];
      while i < |lines|
        invariant 0 <= i <= |lines|
        invariant data == old(data) + Wire(Prints(lines[..i]))
      {
        data := data + lines[i] + [NL];
        WirePrintsOneMore(lines[..i], lines[i]);
        assert lines[..i + 1] == lines[..i] + [lines[i]];
        Assoc(old(data), Wire(Prints(lines[..i])), WireOf(Printed(lines[i])));
        i := i + 1;
      }
      assert lines[..i] == lines;
    }
  }

  lemma {:induction false} WireAppend(a: seq<Item>, b: seq<Item>)
    ensures Wire(a + b) == Wire(a) + Wire(b)
  {
    hide WireOf;
    if a == [] {
      assert a + b == b;
    } else {
      WireAppend(a[1..], b);
      assert (a + b)[1..] == a[1..] + b;
      Assoc(WireOf(a[0]), Wire(a[1..]), Wire(b));
    }
  }

  lemma {:induction false} WireOne(i: Item)
    ensures Wire([i]) == WireOf(i)
  {
    assert [i][1..] == [];
  }

  lemma {:induction false} WirePrintsOneMore(lines: seq<Text>, line: Text)
    ensures Wire(Prints(lines + [line])) == Wire(Prints(lines)) + (line + [NL])
  {
    assert Prints(lines + [line]) == Prints(lines) + [Printed(line)];
    WireAppend(Prints(lines), [Printed(line)]);
    WireOne(Printed(line));
  }

  /**
  One case, between its frames. Lines of `before` reach the stream ahead of the case's start frame; the end frame is
  that of a result that tells how the case ended.
  */
  method RunOne(out: Stdout, name: Text, b: Behaviour)
    modifies out
    ensures out.data == old(out.data) + CaseWire(name, b)
    ensures exists r :: Tells(r, name, b) && Ending(b) == Frame(End(r.status, r.millis, r.message))
  {
    hide WriteEvent, Prints, Tells;
    OwnResultTells(name, b);
    out.Print(b.before);
    out.data := out.data + WriteEvent(Start(name));
    out.Print(b.during);
    var verdict := match b.outcome
      case Pass(None) => (Passed, [])
      case Pass(Some(summary)) => (Passed, summary)
      case Skip(reason) => (Skipped, reason)
      case Fail(reason) => (Failed, reason)
      case Panic(message) => (Failed, message);
    out.data := out.data + WriteEvent(End(verdict.0, b.millis, verdict.1));
    CaseBytes(name, b, old(out.data));
  }

  lemma {:induction false} CaseBytes(name: Text, b: Behaviour, was: Text)
    ensures was + Wire(Prints(b.before)) + WriteEvent(Start(name)) + Wire(Prints(b.during)) + WireOf(Ending(b))
         == was + CaseWire(name, b)
  {
    hide WriteEvent, Prints;
    var s := Frame(Start(name));
    WireAppend(Prints(b.before) + [s], Prints(b.during));
    WireAppend(Prints(b.before), [s]);
    WireOne(s);
    var (x, y, z, e) := (Wire(Prints(b.before)), WireOf(s), Wire(Prints(b.during)), WireOf(Ending(b)));
    Assoc(was, x, y);
    Assoc(was, x + y, z);
    Assoc(was, x + y + z, e);
  }

  /** Serves requests until told to stop, the input ends or makes no sense, or the process is killed. */
  method ServeRequests(input: Input, out: Stdout, bs: seq<Behaviour>)
    modifies input, out
    ensures out.data == old(out.data) + Serve(old(input.data), bs)
  {
    hide CaseWire, ReadRequest;
    var served := 0;
    assert old(out.data) + [] == old(out.data);
    ghost var sent: Text := [];
    while served < |bs|
      invariant 0 <= served <= |bs|
      invariant out.data == old(out.data) + sent
      invariant Serve(old(input.data), bs) == sent + Serve(input.data, bs[served..])
    {
      var request := input.Request();
      match request {
        case None => break;
        case Some(Quit) => break;
        case Some(Run(name)) =>
          RunOne(out, name, bs[served]);
          ghost var wire := CaseWire(name, bs[served]);
          assert bs[served..][1..] == bs[served + 1..];
          Assoc(sent, wire, Serve(input.data, bs[served + 1..]));
          Assoc(old(out.data), sent, wire);
          sent := sent + wire;
          served := served + 1;
      }
    }
  }
}
