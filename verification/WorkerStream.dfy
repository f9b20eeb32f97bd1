/**
One live worker and the runner reading it: which output line and which verdict each case gets, over any
sequence of cases, and over a stream cut off anywhere because the worker died.
*/
module WorkerStream {
  import opened Bytes
  import opened Protocol
  import opened ProtocolRoundTrip

  datatype CaseResult = CaseResult(name: Text, status: Status, millis: nat, message: Text, output: seq<Text>)

  /** How a handler ends. */
  datatype Outcome = Pass(summary: Option<Text>) | Skip(reason: Text) | Fail(reason: Text) | Panic(message: Text)

  function Verdict(o: Outcome): (Status, Text) {
    match o
    case Pass(summary) => (Passed, match summary case None => [] case Some(s) => s)
    case Skip(reason) => (Skipped, reason)
    case Fail(reason) => (Failed, reason)
    case Panic(message) => (Failed, message)
  }

  /** What a worker does around one case: lines it printed since the last end frame, then the case's own. */
  datatype Behaviour = Behaviour(before: seq<Text>, during: seq<Text>, outcome: Outcome, millis: nat)

  function Prints(lines: seq<Text>): (r: seq<Item>)
    ensures |r| == |lines| && forall i :: 0 <= i < |lines| ==> r[i] == Printed(lines[i])
  {
    seq(|lines|, i requires 0 <= i < |lines| => Printed(lines[i]))
  }

  function Opening(name: Text, b: Behaviour): seq<Item> {
    Prints(b.before) + [Frame(Start(name))] + Prints(b.during)
  }

  function Ending(b: Behaviour): Item {
    Frame(End(Verdict(b.outcome).0, b.millis, Verdict(b.outcome).1))
  }

  /** Everything one case puts on the worker's stream. */
  function CaseWire(name: Text, b: Behaviour): Text {
    Wire(Opening(name, b)) + WireOf(Ending(b))
  }

  predicate Behaved(name: Text, b: Behaviour) {
    && (forall k :: 0 <= k < |Opening(name, b)| ==> WellFormed(Opening(name, b)[k]))
    && WellFormed(Ending(b))
  }

  /** The result that is the case's own. */
  function OwnResult(name: Text, b: Behaviour): CaseResult {
    CaseResult(name, Verdict(b.outcome).0, b.millis, Verdict(b.outcome).1, b.before + b.during)
  }

  /**
  What a result says of the case it stands for, read off how the handler ended: passed only if it passed, skipped
  only if it was skipped, failed if it failed or panicked, with the summary, the reason or the panic text.
  */
  predicate Tells(r: CaseResult, name: Text, b: Behaviour) {
    && r.name == name && r.millis == b.millis && r.output == b.before + b.during
    && (r.status == Passed <==> b.outcome.Pass?)
    && (r.status == Skipped <==> b.outcome.Skip?)
    && (r.status == Failed <==> b.outcome.Fail? || b.outcome.Panic?)
    && (b.outcome.Pass? ==> r.message == if b.outcome.summary.Some? then b.outcome.summary.value else [])
    && (b.outcome.Skip? || b.outcome.Fail? ==> r.message == b.outcome.reason)
    && (b.outcome.Panic? ==> r.message == b.outcome.message)
  }

  lemma {:induction false} OwnResultTells(name: Text, b: Behaviour)
    ensures Tells(OwnResult(name, b), name, b)
  {
  }

  // ---------------------------------------------------------------- the runner's side

  datatype Reply = Reported(result: CaseResult, rest: Text) | Crashed(output: seq<Text>)

  /** Reads the stream until an end frame, gathering output. */
  function Collect(name: Text, b: Text, output: seq<Text>): Reply
    decreases |b|
  {
    match ReadLine(b)
    case Eof => Crashed(output)
    case Broken => Crashed(output)
    case Got(Output(text), rest) => Collect(name, rest, output + [text])
    case Got(Control(Start(_)), rest) => Collect(name, rest, output)
    case Got(Control(End(status, millis, message)), rest) =>
      Reported(CaseResult(name, status, millis, message, output), rest)
  }

  /** Cases leased one after another to the same worker, while it lives. */
  function RunCases(names: seq<Text>, b: Text): Option<(seq<CaseResult>, Text)> {
    if names == [] then Some(([], b)) else
    match Collect(names[0], b, [])
    case Crashed(_) => None
    case Reported(r, rest) =>
      match RunCases(names[1..], rest)
      case None => None
      case Some((rs, rest')) => Some(([r] + rs, rest'))
  }

  // ---------------------------------------------------------------- the worker's side

  /** Serves the requests on its input; `bs` is what it does for each in turn. */
  function Serve(input: Text, bs: seq<Behaviour>): Text
    decreases |bs|
  {
    if bs == [] then [] else
    match ReadRequest(input)
    case (Some(Run(name)), rest) => CaseWire(name, bs[0]) + Serve(rest, bs[1..])
    case _ => []
  }

  function Requests(names: seq<Text>): Text {
    if names == [] then WriteRequest(Quit) else WriteRequest(Run(names[0])) + Requests(names[1..])
  }

  function OwnResults(names: seq<Text>, bs: seq<Behaviour>): (r: seq<CaseResult>)
    requires |names| == |bs|
    ensures |r| == |bs| && forall k :: 0 <= k < |bs| ==> r[k] == OwnResult(names[k], bs[k])
  {
    seq(|bs|, k requires 0 <= k < |bs| => OwnResult(names[k], bs[k]))
  }

  // ---------------------------------------------------------------- attribution

  function PrintedText(i: Item): seq<Text> {
    match i
    case Printed(t) => [t]
    case Frame(_) => []
  }

  /** The text of every printed item, in order. */
  function Texts(items: seq<Item>): seq<Text> {
    if items == [] then [] else PrintedText(items[0]) + Texts(items[1..])
  }

  /** No end frame among the items. */
  predicate Open(items: seq<Item>) {
    forall k :: 0 <= k < |items| ==> items[k].Frame? ==> items[k].event.Start?
  }

  lemma {:induction false} TextsOfPrints(lines: seq<Text>)
    ensures Texts(Prints(lines)) == lines
  {
    if lines != [] {
      TextsOfPrints(lines[1..]);
      assert Prints(lines)[1..] == Prints(lines[1..]);
    }
  }

  lemma {:induction false} TextsAppend(a: seq<Item>, b: seq<Item>)
    ensures Texts(a + b) == Texts(a) + Texts(b)
  {
    hide PrintedText;
    if a == [] {
      assert a + b == b;
    } else {
      TextsAppend(a[1..], b);
      assert (a + b)[1..] == a[1..] + b;
    }
  }

  lemma {:induction false} OpeningTexts(name: Text, b: Behaviour)
    ensures Open(Opening(name, b)) && Texts(Opening(name, b)) == b.before + b.during
  {
    var s := [Frame(Start(name))];
    TextsAppend(Prints(b.before) + s, Prints(b.during));
    TextsAppend(Prints(b.before), s);
    TextsOfPrints(b.before);
    TextsOfPrints(b.during);
    assert Texts(s) == [] by { assert s[1..] == []; }
  }

  lemma {:induction false} CollectOpen(name: Text, items: seq<Item>, tail: Text, output: seq<Text>)
    requires Open(items) && forall k :: 0 <= k < |items| ==> WellFormed(items[k])
    ensures Collect(name, Wire(items) + tail, output) == Collect(name, tail, output + Texts(items))
    decreases |items|
  {
    hide WireOf, ReadLine, WellFormed;
    if items == [] {
      assert Wire(items) + tail == tail && output + Texts(items) == output;
    } else {
      var more := Wire(items[1..]) + tail;
      Assoc(WireOf(items[0]), Wire(items[1..]), tail);
      ReadItem(items[0], more);
      match items[0]
      case Printed(t) =>
        CollectOpen(name, items[1..], tail, output + [t]);
        assert output + [t] + Texts(items[1..]) == output + Texts(items);
      case Frame(_) =>
        CollectOpen(name, items[1..], tail, output);
        assert Texts(items) == Texts(items[1..]);
    }
  }

  /** A case gets its own verdict and exactly the lines since the previous end frame, and no byte more. */
  lemma {:induction false} CaseAttributed(name: Text, b: Behaviour, rest: Text)
    requires Behaved(name, b)
    ensures Collect(name, CaseWire(name, b) + rest, []) == Reported(OwnResult(name, b), rest)
    ensures var reply := Collect(name, CaseWire(name, b) + rest, []);
            reply.Reported? && Tells(reply.result, name, b) && reply.rest == rest
  {
    hide WireOf, ReadLine, Opening, Tells;
    OwnResultTells(name, b);
    var tail := WireOf(Ending(b)) + rest;
    Assoc(Wire(Opening(name, b)), WireOf(Ending(b)), rest);
    OpeningTexts(name, b);
    CollectOpen(name, Opening(name, b), tail, []);
    ReadItem(Ending(b), rest);
    assert [] + (b.before + b.during) == b.before + b.during;
  }

  /**
  Any sequence of cases served by one live worker: result k carries case k's name, verdict, time and
  message, and exactly the lines printed since end frame k - 1. Nothing is left over.
  */
  lemma {:induction false} StreamAttributed(names: seq<Text>, bs: seq<Behaviour>)
    requires |names| == |bs| && forall k :: 0 <= k < |bs| ==> Behaved(names[k], bs[k])
    ensures RunCases(names, Serve(Requests(names), bs)) == Some((OwnResults(names, bs), []))
    ensures var r := RunCases(names, Serve(Requests(names), bs));
            && r.Some? && |r.value.0| == |bs| && r.value.1 == []
            && forall k :: 0 <= k < |bs| ==> Tells(r.value.0[k], names[k], bs[k])
    decreases |bs|
  {
    hide Collect, CaseWire, ReadRequest, WriteRequest, OwnResult, Tells;
    forall k | 0 <= k < |bs| ensures Tells(OwnResults(names, bs)[k], names[k], bs[k]) {
      OwnResultTells(names[k], bs[k]);
    }
    if bs == [] {
      assert OwnResults(names, bs) == [];
    } else {
      BehavedName(names[0], bs[0]);
      ReadRequestInverts(Run(names[0]), Requests(names[1..]));
      StreamAttributed(names[1..], bs[1..]);
      CaseAttributed(names[0], bs[0], Serve(Requests(names[1..]), bs[1..]));
      assert OwnResults(names, bs) == [OwnResult(names[0], bs[0])] + OwnResults(names[1..], bs[1..]);
    }
  }

  lemma {:induction false} BehavedName(name: Text, b: Behaviour)
    requires Behaved(name, b)
    ensures OneLine(name)
  {
    assert Opening(name, b)[|b.before|] == Frame(Start(name));
  }

  // ---------------------------------------------------------------- a worker that dies mid-case

  predicate StrictPrefix(p: Text, w: Text) {
    |p| < |w| && p == w[..|p|]
  }

  lemma {:induction false} ReadNoNewline(p: Text)
    requires NL !in p
    ensures ReadLine(p) == if p == [] then Eof
                           else if HasPrefix(TrimEnd(p), [CONTROL]) then ReadFrame(TrimEnd(p)[1..], [])
                           else Got(Output(TrimEnd(p)), [])
  {
    SplitLineNone(p);
  }

  lemma {:induction false} CutPrinted(text: Text, p: Text)
    requires WellFormed(Printed(text)) && StrictPrefix(p, text + [NL])
    ensures ReadLine(p) == Eof || (ReadLine(p).Got? && ReadLine(p).line.Output? && ReadLine(p).rest == [])
  {
    assert p == text[..|p|];
    ReadNoNewline(p);
    TrimEndPrefix(p);
  }

  /** A frame cut before its newline is read as far as it goes, less any trailing carriage returns. */
  lemma {:induction false} ReadCutFrame(p: Text)
    requires NL !in p && p != [] && p[0] == CONTROL
    ensures 0 < |TrimEnd(p)| <= |p| && TrimEnd(p) == p[..|TrimEnd(p)|]
    ensures ReadLine(p) == ReadFrame(p[1..|TrimEnd(p)|], [])
  {
    hide ReadFrame;
    ReadNoNewline(p);
    TrimEndPrefix(p);
    var t := TrimEnd(p);
    assert t[1..] == p[1..|t|];
    assert t[..1] == [p[0]];
  }

  lemma {:induction false} FirstByte(s: Text, p: Text)
    requires s != [] && p != [] && s[0] != p[0]
    ensures !HasPrefix(s, p)
  {
  }

  lemma {:induction false} CutStartFrame(name: Text, frame: Text)
    requires HasPrefix(START_ + name, frame)
    ensures var r := ReadFrame(frame, []);
            r == Broken || (r.Got? && r.line.Control? && r.line.event.Start? && r.rest == [])
  {
    hide ParseEnd;
    if frame != [] {
      assert frame[0] == (START_ + name)[0] == 83;
      FirstByte(frame, END_);
    }
  }

  lemma {:induction false} CutStart(name: Text, p: Text)
    requires OneLine(name) && StrictPrefix(p, WriteEvent(Start(name)))
    ensures var r := ReadLine(p);
            r == Eof || r == Broken || (r.Got? && r.line.Control? && r.line.event.Start? && r.rest == [])
  {
    hide ReadFrame, ReadLine, TrimEnd;
    var w := [CONTROL] + START_ + name;
    assert WriteEvent(Start(name)) == w + [NL];
    assert p == w[..|p|];
    if p == [] {
      EmptyIsEof();
    } else {
      ReadCutFrame(p);
      var frame := p[1..|TrimEnd(p)|];
      assert frame == (START_ + name)[..|frame|];
      CutStartFrame(name, frame);
    }
  }

  lemma {:induction false} DecimalPrefixPositive(n: nat, v: Text)
    requires n > 0 && v != [] && HasPrefix(Decimal(n), v)
    ensures DigitsValue(v).Some? && DigitsValue(v).value > 0
  {
    if n < 10 {
      assert v == [48 + n];
      assert v[..0] == [];
    } else if |v| == |Decimal(n)| {
      assert v == Decimal(n);
      DigitsInvert(n);
    } else {
      assert v == Decimal(n / 10)[..|v|];
      DecimalPrefixPositive(n / 10, v);
    }
  }

  /** A length cut short is missing or positive; only the whole of a zero reads as zero. */
  lemma {:induction false} CutLength(len: nat, v: Text)
    requires len <= U64_MAX && HasPrefix(Decimal(len), v)
    ensures ParseU64(v) == None || (ParseU64(v).value > 0) || (len == 0 && v == Decimal(len))
  {
    if v != [] {
      assert IsDigit(v[0]);
      if len > 0 {
        DecimalPrefixPositive(len, v);
      } else {
        assert |v| == 1;
      }
    }
  }

  lemma {:induction false} PrefixSplit(a: Text, b: Text, t: Text)
    requires SPACE !in a && HasPrefix(a + ([SPACE] + b), t)
    ensures if |t| <= |a| then SplitOnce(t) == None
            else SplitOnce(t) == Some((a, t[|a| + 1..])) && HasPrefix(b, t[|a| + 1..])
  {
    var w := a + ([SPACE] + b);
    if |t| <= |a| {
      assert t == a[..|t|];
      SplitOnceNone(t);
    } else {
      var u := t[|a| + 1..];
      assert u == b[..|u|] by { assert w[|a| + 1..] == b; }
      assert t == a + ([SPACE] + u) by { assert t == w[..|t|]; }
      SplitOnceAt(a, u);
    }
  }

  /** Only the whole of a header's fields with a zero length parses to a zero length. */
  lemma {:induction false} CutFields(status: Status, millis: nat, len: nat, t: Text)
    requires millis <= U64_MAX && len <= U64_MAX
    requires HasPrefix(Spell(status) + ([SPACE] + (Decimal(millis) + ([SPACE] + Decimal(len)))), t)
    ensures ParseEnd(t).None? || ParseEnd(t).value.2 > 0
         || (len == 0 && |t| == |Spell(status)| + 1 + |Decimal(millis)| + 1 + |Decimal(len)|)
  {
    hide Spell, ParseU64, SplitOnce, HasPrefix;
    var tail := Decimal(millis) + ([SPACE] + Decimal(len));
    NoSpaces(millis, status);
    PrefixSplit(Spell(status), tail, t);
    if |t| > |Spell(status)| {
      var u := t[|Spell(status)| + 1..];
      PrefixSplit(Decimal(millis), Decimal(len), u);
      if |u| > |Decimal(millis)| {
        CutLength(len, u[|Decimal(millis)| + 1..]);
      }
    }
  }

  lemma {:induction false} CutHeader(status: Status, millis: nat, len: nat, frame: Text)
    requires millis <= U64_MAX && len <= U64_MAX && HasPrefix(Header(status, millis, len), frame)
    ensures ReadFrame(frame, []) == Broken || (len == 0 && frame == Header(status, millis, len))
  {
    hide ParseEnd, Spell;
    var h := Header(status, millis, len);
    if frame != [] {
      assert frame[0] == h[0] == END_[0];
      FirstByte(frame, START_);
      if |frame| >= |END_| {
        var fields := Spell(status) + ([SPACE] + (Decimal(millis) + ([SPACE] + Decimal(len))));
        var t := frame[|END_|..];
        assert h[|END_|..] == fields;
        assert t == fields[..|t|];
        CutFields(status, millis, len, t);
      }
    }
  }

  lemma {:induction false} HeaderClean(status: Status, millis: nat, len: nat)
    ensures NL !in Header(status, millis, len) && CR !in Header(status, millis, len)
  {
    NoSpaces(millis, status);
    NoSpaces(len, status);
  }

  lemma {:induction false} CutInHeader(status: Status, millis: nat, len: nat, p: Text)
    requires millis <= U64_MAX && len <= U64_MAX
    requires HasPrefix([CONTROL] + Header(status, millis, len), p)
    ensures if len == 0 && |p| == 1 + |Header(status, millis, len)|
            then ReadLine(p) == Got(Control(End(status, millis, [])), [])
            else ReadLine(p) in {Eof, Broken}
  {
    hide ReadFrame, ReadLine, TrimEnd, Header;
    var h := Header(status, millis, len);
    if p == [] {
      EmptyIsEof();
    } else {
      HeaderClean(status, millis, len);
      assert p[1..] == h[..|p| - 1];
      assert p[0] == CONTROL && NL !in p && CR !in p;
      ReadCutFrame(p);
      Untrimmed(p);
      assert p[1..|TrimEnd(p)|] == p[1..];
      CutHeader(status, millis, len, p[1..]);
      if len == 0 && |p| == 1 + |h| {
        ReadFrameEnd(status, millis, [], []);
        var none: Text := []; assert p[1..] == h && none + none == none;
      }
    }
  }

  lemma {:induction false} Untrimmed(p: Text)
    requires NL !in p && CR !in p
    ensures TrimEnd(p) == p
  {
  }

  lemma {:induction false} CutInMessage(status: Status, millis: nat, message: Text, m: Text)
    requires millis <= U64_MAX && |message| <= U64_MAX && |m| < |message|
    ensures ReadLine([CONTROL] + Header(status, millis, |message|) + [NL] + m) == Broken
  {
    hide Header, ReadLine, ParseEnd;
    var h := Header(status, millis, |message|);
    HeaderLine(status, millis, |message|);
    ReadLineAt([CONTROL] + h, m);
    assert ([CONTROL] + h)[1..] == h;
    ParseEndInverts(status, millis, |message|);
  }

  /** An end frame cut short is no frame, unless all that is missing is the newline of an empty message. */
  lemma {:induction false} CutEnd(status: Status, millis: nat, message: Text, p: Text)
    requires WellFormed(Frame(End(status, millis, message)))
    requires StrictPrefix(p, WriteEvent(End(status, millis, message)))
    ensures if message == [] && |p| + 1 == |WriteEvent(End(status, millis, message))|
            then ReadLine(p) == Got(Control(End(status, millis, message)), [])
            else ReadLine(p) in {Eof, Broken}
  {
    hide Header, ReadLine;
    var h := Header(status, millis, |message|);
    var line := [CONTROL] + h;
    var w := WriteEvent(End(status, millis, message));
    assert w == line + [NL] + message;
    if |p| <= |line| {
      assert p == line[..|p|];
      CutInHeader(status, millis, |message|, p);
    } else {
      var m := p[|line| + 1..];
      assert m == message[..|m|];
      assert p == line + [NL] + m;
      CutInMessage(status, millis, message, m);
    }
  }

  /** All the case wrote but the newline after the header of an empty message. */
  predicate LacksOnlyTheNewline(name: Text, b: Behaviour, p: Text) {
    Verdict(b.outcome).1 == [] && |p| + 1 == |CaseWire(name, b)|
  }

  /** Reading a prefix of the opening never finds a verdict. */
  lemma {:induction false} CutOpening(name: Text, items: seq<Item>, p: Text, output: seq<Text>)
    requires Open(items) && forall k :: 0 <= k < |items| ==> WellFormed(items[k])
    requires StrictPrefix(p, Wire(items))
    ensures Collect(name, p, output).Crashed?
    decreases |items|
  {
    hide WireOf, ReadLine, WellFormed;
    var i, more := items[0], Wire(items[1..]);
    var w := WireOf(i);
    if |p| < |w| {
      assert p == w[..|p|];
      CutItem(name, i, p, output);
    } else {
      var q := p[|w|..];
      assert q == more[..|q|];
      assert p == w + q;
      ReadItem(i, q);
      match i
      case Printed(t) => CutOpening(name, items[1..], q, output + [t]);
      case Frame(_) => CutOpening(name, items[1..], q, output);
    }
  }

  lemma {:induction false} CutItem(name: Text, i: Item, p: Text, output: seq<Text>)
    requires WellFormed(i) && (i.Frame? ==> i.event.Start?) && StrictPrefix(p, WireOf(i))
    ensures Collect(name, p, output).Crashed?
  {
    match i
    case Printed(t) => CutPrinted(t, p);
    case Frame(e) => CutStart(e.name, p);
    hide ReadLine;
    EmptyIsEof();
    CollectEmpty(name, output);
    if ReadLine(p).Got? && ReadLine(p).line.Output? {
      CollectEmpty(name, output + [ReadLine(p).line.text]);
    }
  }

  lemma {:induction false} CollectEmpty(name: Text, output: seq<Text>)
    ensures Collect(name, [], output) == Crashed(output)
  {
  }

  /**
  A worker that dies anywhere inside a case never yields a wrong result: the case is reported crashed, or,
  when only the newline of an empty verdict is missing, with its own result in full.
  */
  lemma {:induction false} CutCase(name: Text, b: Behaviour, p: Text)
    requires Behaved(name, b) && StrictPrefix(p, CaseWire(name, b))
    ensures if LacksOnlyTheNewline(name, b, p) then Collect(name, p, []) == Reported(OwnResult(name, b), [])
            else Collect(name, p, []).Crashed?
    ensures Collect(name, p, []).Reported? ==> Tells(Collect(name, p, []).result, name, b)
  {
    hide WireOf, ReadLine, Opening, Collect, Wire, Tells;
    OwnResultTells(name, b);
    var items := Opening(name, b);
    var head, tail := Wire(items), WireOf(Ending(b));
    OpeningTexts(name, b);
    if |p| < |head| {
      assert p == head[..|p|];
      WireOfEnding(b);
      CutOpening(name, items, p, []);
    } else {
      var q := p[|head|..];
      assert q == tail[..|q|];
      assert p == head + q;
      CollectOpen(name, items, q, []);
      assert [] + (b.before + b.during) == b.before + b.during;
      CutEnding(name, b, q, b.before + b.during);
    }
  }

  lemma {:induction false} WireOfEnding(b: Behaviour)
    ensures |WireOf(Ending(b))| > 1
  {
  }

  lemma {:induction false} CutEnding(name: Text, b: Behaviour, q: Text, output: seq<Text>)
    requires WellFormed(Ending(b)) && StrictPrefix(q, WireOf(Ending(b)))
    ensures if Verdict(b.outcome).1 == [] && |q| + 1 == |WireOf(Ending(b))|
            then Collect(name, q, output)
              == Reported(CaseResult(name, Verdict(b.outcome).0, b.millis, Verdict(b.outcome).1, output), [])
            else Collect(name, q, output) == Crashed(output)
  {
    hide ReadLine, WriteEvent;
    CutEnd(Verdict(b.outcome).0, b.millis, Verdict(b.outcome).1, q);
  }
}
