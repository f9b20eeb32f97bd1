/**
The line-framed protocol between the runner and its workers: requests one way, control frames mixed
with the case's own output the other way.
*/
module Protocol {
  import opened Bytes

  const NL: byte := 10
  const CR: byte := 13
  const SPACE: byte := 32
  const PLUS: byte := 43
  const CONTROL: byte := 0x1e

  const RUN: Text := [82, 85, 78]
  const QUIT: Text := [81, 85, 73, 84]
  const START_: Text := [83, 84, 65, 82, 84, 32]
  const END_: Text := [69, 78, 68, 32]

  datatype Status = Passed | Failed | Skipped

  function Spell(s: Status): Text {
    match s
    case Passed => [111, 107]
    case Failed => [102, 97, 105, 108]
    case Skipped => [115, 107, 105, 112]
  }

  function ParseStatus(t: Text): Option<Status> {
    if t == Spell(Passed) then Some(Passed)
    else if t == Spell(Failed) then Some(Failed)
    else if t == Spell(Skipped) then Some(Skipped)
    else None
  }

  datatype Request = Run(name: Text) | Quit

  datatype Event = Start(name: Text) | End(status: Status, millis: nat, message: Text)

  datatype Line = Control(event: Event) | Output(text: Text)

  // ---------------------------------------------------------------- text primitives

  /** Everything up to and including the first newline, or everything if there is none. */
  function SplitLine(b: Text): (r: (Text, Text))
    ensures r.0 + r.1 == b && (b != [] ==> |r.0| > 0)
  {
    if b == [] then ([], [])
    else if b[0] == NL then ([NL], b[1..])
    else var (l, rest) := SplitLine(b[1..]); ([b[0]] + l, rest)
  }

  function TrimEnd(s: Text): Text {
    if s != [] && s[|s| - 1] in {CR, NL} then TrimEnd(s[..|s| - 1]) else s
  }

  /** The parts before and after the first space. */
  function SplitOnce(s: Text): Option<(Text, Text)> {
    if s == [] then None
    else if s[0] == SPACE then Some(([], s[1..]))
    else match SplitOnce(s[1..])
      case None => None
      case Some((a, b)) => Some(([s[0]] + a, b))
  }

  predicate IsDigit(c: byte) { 48 <= c <= 57 }

  function Decimal(n: nat): (t: Text)
    ensures t != [] && forall i :: 0 <= i < |t| ==> IsDigit(t[i])
  {
    if n < 10 then [48 + n] else Decimal(n / 10) + [48 + n % 10]
  }

  function DigitsValue(t: Text): Option<nat> {
    if t == [] then Some(0)
    else if !IsDigit(t[|t| - 1]) then None
    else match DigitsValue(t[..|t| - 1])
      case None => None
      case Some(v) => Some(10 * v + (t[|t| - 1] - 48))
  }

  /** An unsigned 64-bit number: one optional plus sign, at least one digit, no overflow. */
  function ParseU64(t: Text): Option<nat> {
    var digits := if t != [] && t[0] == PLUS then t[1..] else t;
    if digits == [] then None
    else match DigitsValue(digits)
      case None => None
      case Some(v) => if v <= U64_MAX then Some(v) else None
  }

  // ---------------------------------------------------------------- writing

  function WriteRequest(r: Request): Text {
    match r
    case Run(name) => RUN + [SPACE] + name + [NL]
    case Quit => QUIT + [NL]
  }

  function Header(status: Status, millis: nat, len: nat): Text {
    END_ + (Spell(status) + ([SPACE] + (Decimal(millis) + ([SPACE] + Decimal(len)))))
  }

  function WriteEvent(e: Event): Text {
    match e
    case Start(name) => [CONTROL] + START_ + name + [NL]
    case End(status, millis, message) => [CONTROL] + Header(status, millis, |message|) + [NL] + message
  }

  // ---------------------------------------------------------------- reading

  /** `None` is both end of input and a line that is no request: the worker stops at either. */
  function ReadRequest(b: Text): (Option<Request>, Text) {
    var (raw, rest) := SplitLine(b);
    if raw == [] then (None, rest) else
    var line := TrimEnd(raw);
    match SplitOnce(line)
    case Some((verb, name)) =>
      if verb == RUN then (Some(Run(name)), rest)
      else if line == QUIT then (Some(Quit), rest) else (None, rest)
    case None => if line == QUIT then (Some(Quit), rest) else (None, rest)
  }

  /** What one read of the worker's stream yields. A failed read ends the stream for the runner. */
  datatype Read = Eof | Got(line: Line, rest: Text) | Broken

  predicate HasPrefix(s: Text, p: Text) {
    |p| <= |s| && s[..|p|] == p
  }

  /** The status, time and message length of an end frame's header, after its `END `. */
  function ParseEnd(t: Text): Option<(Status, nat, nat)> {
    var (first, tail) := match SplitOnce(t) case None => (t, None) case Some((a, b)) => (a, Some(b));
    match ParseStatus(first)
    case None => None
    case Some(status) =>
      match tail
      case None => None
      case Some(more) =>
        var (second, third) := match SplitOnce(more) case None => (more, None) case Some((a, b)) => (a, Some(b));
        match ParseU64(second)
        case None => None
        case Some(millis) =>
          match third
          case None => None
          case Some(digits) =>
            match ParseU64(digits)
            case None => None
            case Some(len) => Some((status, millis, len))
  }

  function ReadFrame(frame: Text, rest: Text): Read {
    if HasPrefix(frame, START_) then Got(Control(Start(frame[|START_|..])), rest)
    else if !HasPrefix(frame, END_) then Broken
    else match ParseEnd(frame[|END_|..])
      case None => Broken
      case Some((status, millis, len)) =>
        if |rest| < len then Broken
        else Got(Control(End(status, millis, rest[..len])), rest[len..])
  }

  function ReadLine(b: Text): (r: Read)
    ensures r.Got? ==> |r.rest| < |b|
  {
    var (raw, rest) := SplitLine(b);
    if raw == [] then Eof else
    var line := TrimEnd(raw);
    if HasPrefix(line, [CONTROL]) then ReadFrame(line[1..], rest)
    else Got(Output(line), rest)
  }

  /** Every line up to the end of the stream, and whether the end was a clean one. */
  function ReadAll(b: Text): (seq<Line>, bool)
    decreases |b|
  {
    match ReadLine(b)
    case Eof => ([], true)
    case Broken => ([], false)
    case Got(line, rest) => var (more, clean) := ReadAll(rest); ([line] + more, clean)
  }

  // ---------------------------------------------------------------- primitives invert

  lemma {:induction false} SplitLineAt(a: Text, rest: Text)
    requires NL !in a
    ensures SplitLine(a + [NL] + rest) == (a + [NL], rest)
  {
    var b := a + [NL] + rest;
    if a == [] {
      assert b == [NL] + rest;
    } else {
      SplitLineAt(a[1..], rest);
      assert b[1..] == a[1..] + [NL] + rest;
      assert [a[0]] + (a[1..] + [NL]) == a + [NL];
    }
  }

  lemma {:induction false} SplitLineNone(a: Text)
    requires NL !in a
    ensures SplitLine(a) == (a, [])
  {
    if a != [] {
      SplitLineNone(a[1..]);
      assert [a[0]] + a[1..] == a;
    }
  }

  /** A text whose trailing line ends are exactly one newline comes back without it. */
  lemma {:induction false} TrimOne(a: Text)
    requires a == [] || a[|a| - 1] !in {CR, NL}
    ensures TrimEnd(a + [NL]) == a
  {
    assert (a + [NL])[..|a|] == a;
  }

  lemma {:induction false} TrimEndPrefix(s: Text)
    ensures |TrimEnd(s)| <= |s| && TrimEnd(s) == s[..|TrimEnd(s)|]
    ensures TrimEnd(s) == [] || TrimEnd(s)[|TrimEnd(s)| - 1] !in {CR, NL}
    ensures forall i :: |TrimEnd(s)| <= i < |s| ==> s[i] in {CR, NL}
  {
    if s != [] && s[|s| - 1] in {CR, NL} {
      TrimEndPrefix(s[..|s| - 1]);
    }
  }

  lemma {:induction false} SplitOnceAt(a: Text, b: Text)
    requires SPACE !in a
    ensures SplitOnce(a + ([SPACE] + b)) == Some((a, b))
  {
    var s := a + ([SPACE] + b);
    if a == [] {
      assert s == [SPACE] + b;
    } else {
      SplitOnceAt(a[1..], b);
      assert s[1..] == a[1..] + ([SPACE] + b);
      assert [a[0]] + a[1..] == a;
    }
  }

  lemma {:induction false} SplitOnceNone(a: Text)
    requires SPACE !in a
    ensures SplitOnce(a) == None
  {
    if a != [] {
      SplitOnceNone(a[1..]);
    }
  }

  lemma {:induction false} DigitsInvert(n: nat)
    ensures DigitsValue(Decimal(n)) == Some(n)
  {
    var t := Decimal(n);
    if n < 10 {
      assert t[..0] == [];
    } else {
      DigitsInvert(n / 10);
      assert t[..|t| - 1] == Decimal(n / 10);
    }
  }

  lemma {:induction false} ParseInverts(n: nat)
    requires n <= U64_MAX
    ensures ParseU64(Decimal(n)) == Some(n)
  {
    DigitsInvert(n);
    assert IsDigit(Decimal(n)[0]);
  }

  lemma {:induction false} NoSpaces(n: nat, s: Status)
    ensures SPACE !in Decimal(n) && NL !in Decimal(n) && SPACE !in Spell(s) && NL !in Spell(s)
  {
  }

  lemma {:induction false} ParseEndInverts(status: Status, millis: nat, len: nat)
    requires millis <= U64_MAX && len <= U64_MAX
    ensures ParseEnd(Header(status, millis, len)[|END_|..]) == Some((status, millis, len))
  {
    var tail := Decimal(millis) + ([SPACE] + Decimal(len));
    assert Header(status, millis, len)[|END_|..] == Spell(status) + ([SPACE] + tail);
    NoSpaces(millis, status);
    NoSpaces(len, status);
    SplitOnceAt(Spell(status), tail);
    SplitOnceAt(Decimal(millis), Decimal(len));
    ParseInverts(millis);
    ParseInverts(len);
  }
}
