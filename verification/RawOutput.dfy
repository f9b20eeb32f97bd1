/**
Arbitrary output: exactly which bytes a case may print, before and after its start frame, without costing it
its own verdict.
*/
module RawOutput {
  import opened Bytes
  import opened Protocol
  import opened ProtocolRoundTrip
  import opened WorkerStream

  predicate LineStart(o: Text, k: nat) {
    k < |o| && (k == 0 || o[k - 1] == NL)
  }

  const START_FRAME: Text := [CONTROL] + START_

  /** No line begins with the control byte other than as a start frame. */
  predicate NoStray(o: Text) {
    forall k: nat :: k < |o| && LineStart(o, k) && o[k] == CONTROL ==> HasPrefix(o[k..], START_FRAME)
  }

  predicate Terminated(o: Text) {
    o == [] || o[|o| - 1] == NL
  }

  /** The case is reported with this verdict, and exactly `rest` is left for the next. */
  predicate Own(r: Reply, status: Status, millis: nat, message: Text, rest: Text) {
    && r.Reported? && r.rest == rest
    && r.result.status == status && r.result.millis == millis && r.result.message == message
  }

  /** The lines of output that are not frames. */
  function OutputLines(o: Text): seq<Text>
    decreases |o|
  {
    if o == [] then []
    else
      var (raw, more) := SplitLine(o);
      var t := TrimEnd(raw);
      (if HasPrefix(t, [CONTROL]) then [] else [t]) + OutputLines(more)
  }

  // ---------------------------------------------------------------- numbers and fields hold no control byte

  lemma {:induction false} NoDigits(t: Text)
    requires CONTROL in t
    ensures DigitsValue(t) == None
  {
    var n := |t| - 1;
    if IsDigit(t[n]) {
      assert CONTROL in t[..n];
      NoDigits(t[..n]);
    }
  }

  lemma {:induction false} NoNumber(t: Text)
    requires CONTROL in t
    ensures ParseU64(t) == None
  {
    var digits := if t[0] == PLUS then t[1..] else t;
    assert CONTROL in digits;
    NoDigits(digits);
  }

  /** A field with the control byte is neither a status nor a number. */
  lemma {:induction false} NoFields(t: Text)
    requires CONTROL in t
    ensures ParseEnd(t) == None
  {
    hide ParseU64, SplitOnce;
    SplitOnceKeeps(t);
    if SplitOnce(t).Some? {
      var (first, more) := SplitOnce(t).value;
      if CONTROL !in first {
        assert CONTROL in more;
        SplitOnceKeeps(more);
        if SplitOnce(more).Some? {
          var (second, third) := SplitOnce(more).value;
          if CONTROL in second {
            NoNumber(second);
          } else {
            assert CONTROL in third;
            NoNumber(third);
          }
        } else {
          NoNumber(more);
        }
      }
    }
  }

  // ---------------------------------------------------------------- reading past a line

  /** A verdict is read from a frame of its own: more bytes than its message and what is left. */
  lemma {:induction false} VerdictTakesBytes(name: Text, b: Text, output: seq<Text>, status: Status, millis: nat,
                                             message: Text, rest: Text)
    requires Own(Collect(name, b, output), status, millis, message, rest)
    ensures |b| > |message| + |rest|
    decreases |b|
  {
    match ReadLine(b)
    case Got(Output(text), more) =>
      VerdictTakesBytes(name, more, output + [text], status, millis, message, rest);
    case Got(Control(Start(_)), more) =>
      VerdictTakesBytes(name, more, output, status, millis, message, rest);
    case Got(Control(End(_, _, m)), more) =>
      EndTakesBytes(b);
  }

  lemma {:induction false} EndTakesBytes(b: Text)
    requires ReadLine(b).Got? && ReadLine(b).line.Control? && ReadLine(b).line.event.End?
    ensures |b| > |ReadLine(b).line.event.message| + |ReadLine(b).rest|
  {
    hide ParseEnd, TrimEnd;
  }

  lemma {:induction false} TrimKeepsFront(line: Text)
    requires NL !in line
    ensures var t := TrimEnd(line + [NL]);
            && (HasPrefix(t, [CONTROL]) <==> HasPrefix(line, [CONTROL]))
            && (HasPrefix(t, START_FRAME) <==> HasPrefix(line, START_FRAME))
  {
    var s := line + [NL];
    var t := TrimEnd(s);
    TrimEndPrefix(s);
    if HasPrefix(line, [CONTROL]) {
      assert line[0] == CONTROL == s[0];
    }
    if HasPrefix(line, START_FRAME) {
      assert s[|START_FRAME| - 1] == START_FRAME[|START_FRAME| - 1] == SPACE;
      assert |t| >= |START_FRAME|;
      assert t[..|START_FRAME|] == s[..|START_FRAME|] == line[..|START_FRAME|];
    }
    if HasPrefix(t, START_FRAME) {
      assert s[..|START_FRAME|] == START_FRAME;
      assert |line| >= |START_FRAME|;
      assert line[..|START_FRAME|] == s[..|START_FRAME|];
    }
  }

  /** How the reader takes a line that ends, carriage returns and all. */
  lemma {:induction false} ReadWholeLine(line: Text, more: Text)
    requires NL !in line
    ensures var t := TrimEnd(line + [NL]);
            && (HasPrefix(line, [CONTROL]) ==> t != [])
            && ReadLine(line + [NL] + more)
               == (if HasPrefix(line, [CONTROL]) then ReadFrame(t[1..], more) else Got(Output(t), more))
            && (HasPrefix(line, START_FRAME) ==> HasPrefix(t[1..], START_))
            && (HasPrefix(line, [CONTROL]) && HasPrefix(t[1..], START_) ==> HasPrefix(line, START_FRAME))
  {
    hide ReadFrame, TrimEnd;
    SplitLineAt(line, more);
    TrimKeepsFront(line);
    var t := TrimEnd(line + [NL]);
    if HasPrefix(t, START_FRAME) {
      assert t[1..][..|START_|] == t[..|START_FRAME|][1..];
    }
    if HasPrefix(line, [CONTROL]) && HasPrefix(t[1..], START_) {
      assert t[..|START_FRAME|] == [t[0]] + t[1..][..|START_|];
    }
  }

  /** Whether output keeps framing is decided line by line. */
  lemma {:induction false} FramingByLine(line: Text, more: Text)
    requires NL !in line
    ensures var o := line + [NL] + more;
            && (Terminated(o) <==> Terminated(more))
            && (NoStray(o) <==> (HasPrefix(line, [CONTROL]) ==> HasPrefix(line, START_FRAME)) && NoStray(more))
  {
    var o := line + [NL] + more;
    var n := |line| + 1;
    forall k: nat | k < |more| ensures LineStart(o, n + k) == LineStart(more, k) && o[n + k..] == more[k..] {
    }
    forall k: nat | 0 < k < n ensures !LineStart(o, k) {
      assert o[k - 1] == line[k - 1];
    }
    FrontOfLine(line, more);
    if NoStray(o) {
      forall k: nat | k < |more| && LineStart(more, k) && more[k] == CONTROL ensures HasPrefix(more[k..], START_FRAME) {
        assert LineStart(o, n + k) && o[n + k] == CONTROL;
        assert HasPrefix(o[n + k..], START_FRAME);
      }
      if HasPrefix(line, [CONTROL]) {
        assert LineStart(o, 0) && o[0] == line[0] == CONTROL;
        assert o[0..] == o;
      }
    } else {
      var k: nat :| k < |o| && LineStart(o, k) && o[k] == CONTROL && !HasPrefix(o[k..], START_FRAME);
      if k == 0 {
        assert o[0..] == o && line != [];
        assert line[..1] == [CONTROL];
      } else {
        assert k >= n && LineStart(more, k - n) && more[k - n] == CONTROL;
        assert o[k..] == more[k - n..];
      }
    }
  }

  lemma {:induction false} FrontOfLine(line: Text, more: Text)
    requires NL !in line
    ensures HasPrefix(line + [NL] + more, START_FRAME) <==> HasPrefix(line, START_FRAME)
  {
    var o := line + [NL] + more;
    var n := |START_FRAME|;
    if |line| < n {
      assert NL !in START_FRAME;
      Differs(o, START_FRAME, |line|);
    } else {
      assert o[..n] == line[..n];
    }
  }

  lemma {:induction false} Differs(s: Text, p: Text, i: nat)
    requires i < |s| && i < |p| && s[i] != p[i]
    ensures !HasPrefix(s, p)
  {
    assert |p| <= |s| ==> s[..|p|][i] == s[i];
  }

  // ---------------------------------------------------------------- exactly which output is harmless

  /** Everything the case put on its stream since the previous verdict, then its own. */
  function WithVerdict(o: Text, status: Status, millis: nat, message: Text, rest: Text): Text {
    o + (WriteEvent(End(status, millis, message)) + rest)
  }

  /**
  Over any output whatever, whatever follows: the case gets its own verdict and leaves exactly what follows if
  and only if the output is empty or ends in a newline and no line of it begins with the control byte other than
  as a start frame; its lines are then the case's output, in order.
  */
  lemma {:induction false} RawOutputExact(name: Text, o: Text, output: seq<Text>, status: Status, millis: nat,
                                          message: Text, rest: Text)
    requires millis <= U64_MAX && |message| <= U64_MAX
    ensures Own(Collect(name, WithVerdict(o, status, millis, message, rest), output), status, millis, message, rest)
       <==> Terminated(o) && NoStray(o)
    ensures Terminated(o) && NoStray(o) ==>
      Collect(name, WithVerdict(o, status, millis, message, rest), output)
      == Reported(CaseResult(name, status, millis, message, output + OutputLines(o)), rest)
    decreases |o|
  {
    hide ReadLine, WriteEvent, NoStray, SplitLine;
    if o == [] {
      assert WithVerdict(o, status, millis, message, rest) == WriteEvent(End(status, millis, message)) + rest;
      ReadEnd(status, millis, message, rest);
      NothingStray();
      assert output + [] == output;
    } else if NL in o {
      var line, more := FirstLine(o);
      WholeLineExact(name, line, more, output, status, millis, message, rest);
    } else {
      FragmentLoses(name, o, output, status, millis, message, rest);
    }
  }

  lemma {:induction false} NothingStray()
    ensures NoStray([])
  {
  }

  lemma {:induction false} FirstLine(o: Text) returns (line: Text, more: Text)
    requires NL in o
    ensures NL !in line && o == line + [NL] + more && |more| < |o|
  {
    if o[0] == NL {
      line, more := [], o[1..];
    } else {
      line, more := FirstLine(o[1..]);
      line := [o[0]] + line;
      assert o == [o[0]] + o[1..];
    }
  }

  lemma {:induction false} WholeLineExact(name: Text, line: Text, more: Text, output: seq<Text>, status: Status,
                                          millis: nat, message: Text, rest: Text)
    requires NL !in line && millis <= U64_MAX && |message| <= U64_MAX
    ensures var o := line + [NL] + more;
            var r := Collect(name, WithVerdict(o, status, millis, message, rest), output);
            && (Own(r, status, millis, message, rest) <==> Terminated(o) && NoStray(o))
            && (Terminated(o) && NoStray(o) ==>
                  r == Reported(CaseResult(name, status, millis, message, output + OutputLines(o)), rest))
    decreases |line + [NL] + more|, 0
  {
    hide ReadLine, ReadFrame, WriteEvent, NoStray, Terminated, TrimEnd;
    var o := line + [NL] + more;
    var left := WithVerdict(more, status, millis, message, rest);
    assert WithVerdict(o, status, millis, message, rest) == line + [NL] + left;
    FramingByLine(line, more);
    ReadWholeLine(line, left);
    TrimKeepsFront(line);
    SplitLineAt(line, more);
    var t := TrimEnd(line + [NL]);
    if !HasPrefix(line, [CONTROL]) {
      RawOutputExact(name, more, output + [t], status, millis, message, rest);
      assert output + [t] + OutputLines(more) == output + ([t] + OutputLines(more));
    } else if HasPrefix(line, START_FRAME) {
      StartRead(t[1..], left);
      RawOutputExact(name, more, output, status, millis, message, rest);
      assert [] + OutputLines(more) == OutputLines(more);
    } else {
      StrayFrame(name, t[1..], more, output, status, millis, message, rest, line + [NL] + left);
    }
  }

  lemma {:induction false} StartRead(frame: Text, left: Text)
    requires HasPrefix(frame, START_)
    ensures ReadFrame(frame, left) == Got(Control(Start(frame[|START_|..])), left)
  {
  }

  /** A frame that is no start frame ends the reading of the case: with an error, or with a verdict not its own. */
  lemma {:induction false} StrayFrame(name: Text, frame: Text, more: Text, output: seq<Text>, status: Status,
                                      millis: nat, message: Text, rest: Text, b: Text)
    requires !HasPrefix(frame, START_)
    requires ReadLine(b) == ReadFrame(frame, WithVerdict(more, status, millis, message, rest))
    ensures !Own(Collect(name, b, output), status, millis, message, rest)
  {
    hide ReadLine, ParseEnd;
    var left := WithVerdict(more, status, millis, message, rest);
    assert |left| > |message| + |rest|;
  }

  /** An unterminated line swallows the header of the verdict. */
  lemma {:induction false} FragmentLoses(name: Text, o: Text, output: seq<Text>, status: Status, millis: nat,
                                         message: Text, rest: Text)
    requires o != [] && NL !in o
    ensures !Own(Collect(name, WithVerdict(o, status, millis, message, rest), output), status, millis, message, rest)
  {
    hide Header, ReadLine, ReadFrame;
    var h := Header(status, millis, |message|);
    var line := o + ([CONTROL] + h);
    HeaderLine(status, millis, |message|);
    var b := WithVerdict(o, status, millis, message, rest);
    assert b == line + [NL] + (message + rest);
    ReadLineAt(line, message + rest);
    assert line[0] == o[0];
    if Own(Collect(name, b, output), status, millis, message, rest) {
      if o[0] == CONTROL {
        FragmentFrame(o, h, message + rest);
        VerdictTakesBytes(name, message + rest, output, status, millis, message, rest);
      } else {
        VerdictTakesBytes(name, message + rest, output + [line], status, millis, message, rest);
      }
    }
  }

  /** Behind a control byte the swallowed header makes a start frame, or no frame at all. */
  lemma {:induction false} FragmentFrame(o: Text, h: Text, left: Text)
    requires o != []
    ensures var r := ReadFrame((o + ([CONTROL] + h))[1..], left);
            r == Broken || (r.Got? && r.line.Control? && r.line.event.Start? && r.rest == left)
  {
    hide ParseEnd;
    var frame := (o + ([CONTROL] + h))[1..];
    assert frame[|o| - 1] == CONTROL;
    if |o| - 1 < |END_| {
      Differs(frame, END_, |o| - 1);
    } else if HasPrefix(frame, END_) {
      assert frame[|END_|..][|o| - 1 - |END_|] == CONTROL;
      NoFields(frame[|END_|..]);
    }
  }

  // ---------------------------------------------------------------- before and after the start frame

  /**
  Of what is printed before a case's start frame only stray control lines hurt it, for the frame ends an
  unterminated one; what it prints after must also end its last line. Exactly then the case has its own verdict.
  */
  lemma {:induction false} CaseOutputExact(name: Text, before: Text, during: Text, status: Status, millis: nat,
                                           message: Text, rest: Text)
    requires OneLine(name) && millis <= U64_MAX && |message| <= U64_MAX
    ensures var o := before + WriteEvent(Start(name)) + during;
            (Own(Collect(name, WithVerdict(o, status, millis, message, rest), []), status, millis, message, rest)
             <==> NoStray(before) && NoStray(during) && Terminated(during))
  {
    hide NoStray, Terminated, Own, Collect, WriteEvent;
    RawOutputExact(name, before + WriteEvent(Start(name)) + during, [], status, millis, message, rest);
    AroundStart(name, before, during);
  }

  lemma {:induction false} AroundStart(name: Text, before: Text, during: Text)
    requires OneLine(name)
    ensures var o := before + WriteEvent(Start(name)) + during;
            && (Terminated(o) <==> Terminated(during))
            && (NoStray(o) <==> NoStray(before) && NoStray(during))
  {
    hide NoStray;
    var start := START_FRAME + name + [NL];
    assert WriteEvent(Start(name)) == start;
    var o := before + start + during;
    var n := |before| + |start|;
    assert o[n - 1] == NL;
    forall k: nat | k < |before| ensures StrayAt(o, k) == StrayAt(before, k) {
      BeforeStart(name, before, during, k);
    }
    forall k: nat | |before| <= k < n ensures !StrayAt(o, k) {
      InStart(name, before, during, k);
    }
    forall k: nat | k < |during| ensures StrayAt(o, n + k) == StrayAt(during, k) {
      assert o[n + k..] == during[k..];
    }
    StrayIs(o);
    StrayIs(before);
    StrayIs(during);
    hide StrayAt;
    assert NoStray(o) ==> forall k: nat :: k < |before| ==> !StrayAt(before, k);
    if NoStray(o) {
      forall k: nat | k < |during| ensures !StrayAt(during, k) {
        assert !StrayAt(o, n + k);
      }
    }
    if NoStray(before) && NoStray(during) {
      forall k: nat | k < |o| ensures !StrayAt(o, k) {
        if k >= n {
          assert StrayAt(o, n + (k - n)) == StrayAt(during, k - n);
        }
      }
    }
  }

  predicate StrayAt(o: Text, k: nat) {
    k < |o| && LineStart(o, k) && o[k] == CONTROL && !HasPrefix(o[k..], START_FRAME)
  }

  lemma {:induction false} StrayIs(o: Text)
    ensures NoStray(o) <==> forall k: nat :: k < |o| ==> !StrayAt(o, k)
  {
    if forall k: nat :: k < |o| ==> !StrayAt(o, k) {
      forall k: nat | k < |o| && LineStart(o, k) && o[k] == CONTROL ensures HasPrefix(o[k..], START_FRAME) {
        assert !StrayAt(o, k);
      }
    }
  }

  lemma {:induction false} BeforeStart(name: Text, before: Text, during: Text, k: nat)
    requires k < |before|
    ensures StrayAt(before + (START_FRAME + name + [NL]) + during, k) == StrayAt(before, k)
  {
    var o := before + (START_FRAME + name + [NL]) + during;
    var n := |START_FRAME|;
    assert LineStart(o, k) == LineStart(before, k) && o[k] == before[k];
    if |before| - k >= n {
      assert o[k..][..n] == before[k..][..n];
    } else {
      assert o[k..][|before| - k] == o[|before|] == CONTROL;
      assert START_FRAME[|before| - k] == START_[|before| - k - 1];
      Differs(o[k..], START_FRAME, |before| - k);
    }
  }

  lemma {:induction false} InStart(name: Text, before: Text, during: Text, k: nat)
    requires OneLine(name) && |before| <= k < |before| + |START_FRAME + name + [NL]|
    ensures !StrayAt(before + (START_FRAME + name + [NL]) + during, k)
  {
    var start := START_FRAME + name + [NL];
    var o := before + start + during;
    if k == |before| {
      assert o[k..][..|START_FRAME|] == START_FRAME;
    } else {
      var j := k - |before| - 1;
      assert o[k - 1] == start[j] == (START_FRAME + name)[j];
      assert NL !in START_FRAME + name;
    }
  }
}
