/** The protocol's bytes spelled out: what each message looks like on the wire, and what a number or a line may be. */
module ProtocolBytes {
  import opened Bytes
  import opened Protocol
  import opened ProtocolRoundTrip

  // ---------------------------------------------------------------- numbers

  predicate AllDigits(t: Text) {
    forall i :: 0 <= i < |t| ==> '0' <= t[i] as char <= '9'
  }

  /** What a string of digits is worth. */
  function Worth(t: Text): int {
    if t == [] then 0 else 10 * Worth(t[..|t| - 1]) + (t[|t| - 1] as char as int - '0' as int)
  }

  /** The numeral of `n`: digits only, no leading zero but for zero itself. */
  predicate Numeral(t: Text, n: nat) {
    t != [] && AllDigits(t) && Worth(t) == n && (t[0] as char == '0' ==> |t| == 1)
  }

  lemma {:induction false} DecimalIsNumeral(n: nat)
    ensures Numeral(Decimal(n), n) && (Decimal(n)[0] as char == '0' ==> n == 0)
  {
    if n >= 10 {
      DecimalIsNumeral(n / 10);
      assert Decimal(n)[..|Decimal(n)| - 1] == Decimal(n / 10);
    } else {
      assert Decimal(n)[..0] == [];
    }
  }

  lemma {:induction false} DigitsWorth(t: Text)
    ensures DigitsValue(t).Some? <==> AllDigits(t)
    ensures DigitsValue(t).Some? ==> DigitsValue(t).value == Worth(t)
  {
    if t != [] {
      DigitsWorth(t[..|t| - 1]);
    }
  }

  /** A number field is digits after at most one plus sign, and fits 64 bits. */
  lemma {:induction false} ParseExact(t: Text, v: nat)
    ensures ParseU64(t) == Some(v) <==>
              v <= 0xFFFF_FFFF_FFFF_FFFF && exists d :: IsBody(t, d) && d != [] && AllDigits(d) && Worth(d) == v
  {
    var d := if t != [] && t[0] == PLUS then t[1..] else t;
    DigitsWorth(d);
    assert IsBody(t, d);
    assert t != [] && t[0] == PLUS ==> !AllDigits(t) by {
      assert t != [] ==> t[0] as char == t[0] as int as char;
    }
    assert forall e :: IsBody(t, e) && AllDigits(e) ==> e == d;
  }

  /** What is left of a number field without its plus sign, if it has one. */
  predicate IsBody(t: Text, d: Text) {
    d == t || (t != [] && t[0] as char == '+' && d == t[1..])
  }

  // ---------------------------------------------------------------- messages

  function Word(s: Status): string {
    match s case Passed => "ok" case Failed => "fail" case Skipped => "skip"
  }

  /** A request to run a case is `RUN `, its name and a newline; the request to stop is `QUIT` and a newline. */
  lemma {:induction false} RequestBytes(name: Text)
    ensures var b := WriteRequest(Run(name)); |b| >= 4 && Spells(b[..4], "RUN ") && b[4..] == name + [0x0a]
    ensures Spells(WriteRequest(Quit), "QUIT\n")
  {
    var b := WriteRequest(Run(name));
    assert b[..4] == [82, 85, 78, 32] && b[4..] == name + [NL];
  }

  /** The line a stream begins with, without what ends it. */
  function FirstLine(b: Text): Text {
    TrimEnd(SplitLine(b).0)
  }

  /** A line is read as the request it spells, and any other as none. */
  lemma {:induction false} RequestMeans(b: Text)
    ensures ReadRequest(b).0 == Some(Quit) <==> Spells(FirstLine(b), "QUIT")
    ensures forall name :: ReadRequest(b).0 == Some(Run(name)) <==>
              |FirstLine(b)| >= 4 && Spells(FirstLine(b)[..4], "RUN ") && name == FirstLine(b)[4..]
  {
    hide SplitLine, TrimEnd, SplitOnce;
    var line := FirstLine(b);
    assert Spells(line, "QUIT") <==> line == QUIT;
    EmptyTrims();
    SplitOnceKeeps(line);
    SplitOnceNone(QUIT);
    if |line| >= 4 && Spells(line[..4], "RUN ") {
      assert line[..4] == [82, 85, 78, 32];
      assert line == RUN + ([SPACE] + line[4..]);
      SplitOnceAt(RUN, line[4..]);
    }
    forall name | ReadRequest(b).0 == Some(Run(name)) ensures name == line[4..] {
      assert line == RUN + [SPACE] + name;
    }
  }

  lemma {:induction false} EmptyTrims()
    ensures TrimEnd([]) == []
  {
  }

  /** A start frame is the control byte, `START `, the name and a newline. */
  lemma {:induction false} StartBytes(name: Text)
    ensures var b := WriteEvent(Start(name));
            |b| >= 7 && b[0] == 0x1e && Spells(b[1..7], "START ") && b[7..] == name + [0x0a]
  {
    var b := WriteEvent(Start(name));
    assert b[1..7] == [83, 84, 65, 82, 84, 32] && b[7..] == name + [NL];
  }

  /**
  An end frame is the control byte, `END `, the status word, the time and the message's length in decimal, with
  single spaces between them, a newline and the message.
  */
  lemma {:induction false} EndBytes(status: Status, millis: nat, message: Text)
    returns (tag: Text, word: Text, time: Text, len: Text)
    ensures WriteEvent(End(status, millis, message))
         == [0x1e] + tag + word + [0x20] + time + [0x20] + len + [0x0a] + message
    ensures Spells(tag, "END ") && Spells(word, Word(status))
    ensures Numeral(time, millis) && Numeral(len, |message|)
  {
    hide Decimal, Numeral;
    tag, word, time, len := END_, Spell(status), Decimal(millis), Decimal(|message|);
    DecimalIsNumeral(millis);
    DecimalIsNumeral(|message|);
    var sp := [SPACE];
    assert tag + (word + (sp + (time + (sp + len)))) == tag + word + sp + time + sp + len;
    assert [CONTROL] + (tag + word + sp + time + sp + len) == [CONTROL] + tag + word + sp + time + sp + len;
  }

  // ---------------------------------------------------------------- lines

  /** A line may end in a carriage return as well, which is not part of its text. */
  lemma {:induction false} CarriageReturnIgnored(text: Text, rest: Text)
    requires OneLine(text) && (text == [] || text[0] != 0x1e)
    ensures ReadLine(text + [0x0d, 0x0a] + rest) == ReadLine(text + [0x0a] + rest) == Got(Output(text), rest)
  {
    ReadPrinted(text, rest);
    var raw := text + [CR];
    SplitLineAt(raw, rest);
    assert raw + [NL] + rest == text + [0x0d, 0x0a] + rest;
    var line := raw + [NL];
    assert line[..|line| - 1] == raw && raw[..|raw| - 1] == text;
    assert TrimEnd(line) == TrimEnd(raw) == TrimEnd(text) == text;
  }

  /** What is left of a stream after `n` lines, if they can be read. */
  function Left(b: Text, n: nat): Option<Text>
    decreases n
  {
    if n == 0 then Some(b)
    else match ReadLine(b)
      case Got(_, rest) => Left(rest, n - 1)
      case _ => None
  }

  /** Reading on ends cleanly exactly if after the lines read the stream is at its end, and not in a bad frame. */
  lemma {:induction false} ReadAllStops(b: Text)
    ensures var (lines, clean) := ReadAll(b);
            && Left(b, |lines|).Some?
            && (clean <==> ReadLine(Left(b, |lines|).value) == Eof)
            && (!clean <==> ReadLine(Left(b, |lines|).value) == Broken)
    decreases |b|
  {
    hide ReadLine;
    if ReadLine(b).Got? {
      ReadAllStops(ReadLine(b).rest);
    }
  }
}
