/**
The guarded kernel call: fatal exits trapped, output captured through a pipe, and every piece of thread and
process state put back on each of the four ways a call can end.
*/
module Guard {
  import opened Bytes

  /** The message buffer stops growing once it is this long. */
  const UI_CAP: nat := 8192
  /** A formatted message never fills its buffer of 1024 bytes. */
  const CHUNK_MAX: nat := 1023
  const ABORT_EXIT_CODE: int := 134

  const STDOUT: nat := 1
  const STDERR: nat := 2

  /** What a descriptor refers to; calls do not nest, so there is one capture pipe at a time. */
  datatype Open = File(id: nat) | ReadEnd | WriteEnd

  type Fds = map<nat, Open>

  datatype Event = ToStdout(text: Text) | ToStderr(text: Text) | Message(text: Text)

  datatype Ending = Returns(value: int) | Exits(status: int) | Aborts | InternalError

  /** What the kernel does inside one guarded call. */
  datatype Body = Body(events: seq<Event>, ending: Ending)

  predicate Fatal(e: Ending) { !e.Returns? }

  predicate Formatted(events: seq<Event>) {
    forall i :: 0 <= i < |events| ==> events[i].Message? ==> |events[i].text| <= CHUNK_MAX
  }

  /** The descriptors the system hands out when asked for a pipe and for two duplicates, or its refusals. */
  datatype Grants = Grants(pipe: Option<(nat, nat)>, savedOut: Option<nat>, savedErr: Option<nat>)

  function Taken(fds: Fds, g: Grants): seq<nat> {
    (if g.pipe.Some? then [g.pipe.value.0, g.pipe.value.1] else [])
    + (if g.savedOut.Some? then [g.savedOut.value] else [])
    + (if g.savedErr.Some? then [g.savedErr.value] else [])
  }

  /** Descriptors are granted fresh and distinct. */
  predicate Grantable(fds: Fds, g: Grants) {
    && (forall i :: 0 <= i < |Taken(fds, g)| ==> Taken(fds, g)[i] !in fds)
    && (forall i, j :: 0 <= i < j < |Taken(fds, g)| ==> Taken(fds, g)[i] != Taken(fds, g)[j])
  }

  // ---------------------------------------------------------------- what a call should leave behind

  /** What reaches the pipe: everything written to either stream, in order, as far as the pipe has room. */
  function Piped(events: seq<Event>, room: nat): Text {
    if events == [] then []
    else
      var n := |events| - 1;
      var before := Piped(events[..n], room);
      if events[n].Message? then before else Fill(before, events[n].text, room)
  }

  function Fill(buffer: Text, text: Text, room: nat): Text {
    if |buffer + text| <= room then buffer + text
    else if |buffer| >= room then buffer
    else (buffer + text)[..room]
  }

  /** The messages kept: whole ones, until the limit is reached. */
  function Messages(events: seq<Event>): Text {
    if events == [] then []
    else
      var n := |events| - 1;
      var before := Messages(events[..n]);
      if events[n].Message? && |before| < UI_CAP then before + events[n].text else before
  }

  predicate Blank(t: Text) {
    forall i :: 0 <= i < |t| ==> t[i] in {9, 10, 13, 32}
  }

  /** The diagnostic of a call: what was written, or the messages if that is blank. */
  function Diagnostic(piped: Text, messages: Text): Text {
    if messages != [] && Blank(piped) then messages else piped
  }

  // ---------------------------------------------------------------- what that comes to

  /** Everything written to either stream, in order. */
  function Written(events: seq<Event>): Text {
    if events == [] then []
    else
      var n := |events| - 1;
      Written(events[..n]) + match events[n]
        case ToStdout(text) => text
        case ToStderr(text) => text
        case Message(_) => []
  }

  /** Every message, in order. */
  function Spoken(events: seq<Event>): Text {
    if events == [] then []
    else
      var n := |events| - 1;
      Spoken(events[..n]) + if events[n].Message? then events[n].text else []
  }

  /** What the capture hears: what was written, cut at the pipe's room; nothing without a pipe. */
  function Heard(g: Grants, events: seq<Event>, room: nat): Text {
    var all := Written(events);
    if g.pipe.None? then [] else if |all| <= room then all else all[..room]
  }

  lemma {:induction false} PipedMeans(events: seq<Event>, room: nat)
    ensures Piped(events, room) == if |Written(events)| <= room then Written(events) else Written(events)[..room]
  {
    if events != [] {
      PipedMeans(events[..|events| - 1], room);
    }
  }

  /** The messages kept are all up to the first point at which 8192 bytes were reached. */
  ghost predicate KeptUpTo(events: seq<Event>, k: nat) {
    && k <= |events| && Messages(events) == Spoken(events[..k])
    && (forall j :: 0 <= j < k ==> |Spoken(events[..j])| < 8192)
    && (k < |events| ==> |Spoken(events[..k])| >= 8192)
  }

  /** What one more event adds to what was said and to what is kept. */
  lemma {:induction false} OneMoreSaid(events: seq<Event>)
    requires events != []
    ensures var (n, last) := (|events| - 1, events[|events| - 1]);
            && (forall j :: 0 <= j <= n ==> Spoken(events[..n][..j]) == Spoken(events[..j]))
            && Spoken(events[..n + 1]) == Spoken(events[..n]) + (if last.Message? then last.text else [])
            && Messages(events)
            == Messages(events[..n])
               + if last.Message? && |Messages(events[..n])| < 8192 then last.text else []
  {
    var n := |events| - 1;
    assert forall j :: 0 <= j <= n ==> events[..n][..j] == events[..j];
    assert events[..n + 1] == events;
  }

  lemma {:induction false} MessagesMean(events: seq<Event>) returns (k: nat)
    ensures KeptUpTo(events, k)
  {
    hide Spoken, Messages;
    k := 0;
    if events == [] {
      NothingSaid();
    } else {
      var n := |events| - 1;
      k := MessagesMean(events[..n]);
      OneMoreSaid(events);
      if k == n && |Spoken(events[..n])| < 8192 {
        k := k + 1;
      }
    }
  }

  lemma {:induction false} NothingSaid()
    ensures Messages([]) == [] && Spoken([]) == []
  {
  }

  /** The output says what was heard unless that is only spaces, tabs and line ends and a message was kept. */
  predicate Says(output: Text, heard: Text, kept: Text) {
    && ((exists i :: 0 <= i < |heard| && heard[i] != 32 && heard[i] != 9 && heard[i] != 13 && heard[i] != 10) ==>
          output == heard)
    && ((forall i :: 0 <= i < |heard| ==> heard[i] == 32 || heard[i] == 9 || heard[i] == 13 || heard[i] == 10) ==>
          output == if kept == [] then heard else kept)
  }

  lemma {:induction false} OutputSays(g: Grants, events: seq<Event>, room: nat)
    ensures Says(OutputAfter(true, g, events, room), Heard(g, events, room), Messages(events))
  {
    PipedMeans(events, room);
    hide Written, Messages, Piped;
  }

  // ---------------------------------------------------------------- the process

  datatype Capture = Capture(rd: Option<nat>, wr: nat, savedOut: Option<nat>, savedErr: Option<nat>)

  const NO_CAPTURE := Capture(None, 0, None, None)

  /** How a guarded call ends for its caller; `Hangs` is a read that never sees the end of the pipe. */
  datatype Outcome = Value(value: int) | Hangs

  class Facade {
    var exitGuarded: bool
    var trapped: bool
    var exitCode: int
    var output: Text
    var uiOutput: Text
    var interrThrows: bool
    var hooked: bool
    var fds: Fds
    var pipe: Text
    const room: nat

    constructor (fds: Fds, room: nat)
      requires Ordinary(fds)
      ensures Quiet() && this.fds == fds && this.room == room && !interrThrows
    {
      this.fds := fds;
      this.room := room;
      exitGuarded, trapped, exitCode, output, uiOutput := false, false, 0, [], [];
      interrThrows, hooked, pipe := false, false, [];
    }

    /** No call in progress. */
    ghost predicate Quiet()
      reads this
    {
      !exitGuarded && !hooked && uiOutput == [] && Ordinary(fds)
    }

    // -------------------------------------------------------------- descriptors

    method Dup2(from: nat, to: nat)
      requires from in fds
      modifies this`fds
      ensures fds == old(fds)[to := old(fds)[from]]
    {
      fds := fds[to := fds[from]];
    }

    method Close(fd: nat)
      modifies this`fds
      ensures fds == old(fds) - {fd}
    {
      fds := fds - {fd};
    }

    method Write(fd: nat, text: Text)
      modifies this`pipe
      ensures pipe == if fd in fds && fds[fd].WriteEnd? then Fill(old(pipe), text, room) else old(pipe)
    {
      if fd in fds && fds[fd].WriteEnd? {
        pipe := Fill(pipe, text, room);
      }
    }

    // -------------------------------------------------------------- capture

    method BeginCapture(g: Grants) returns (cap: Capture)
      requires Ordinary(fds) && Grantable(fds, g)
      modifies this`fds, this`pipe
      ensures g.pipe.None? ==> cap == NO_CAPTURE && fds == old(fds)
      ensures g.pipe.Some? ==> cap == CaptureOf(g) && fds == Redirected(old(fds), g) && pipe == []
      ensures g.pipe.Some? ==> 1 in fds && 2 in fds && fds[1] == fds[2] == WriteEnd
    {
      match g.pipe {
        case None => return NO_CAPTURE;
        case Some((rd, wr)) =>
          GrantsFresh(fds, g);
          fds := fds[rd := ReadEnd][wr := WriteEnd];
          pipe := [];
          cap := Capture(Some(rd), wr, g.savedOut, g.savedErr);
          if g.savedOut.Some? {
            Dup2(STDOUT, g.savedOut.value);
          }
          if g.savedErr.Some? {
            Dup2(STDERR, g.savedErr.value);
          }
          Dup2(wr, STDOUT);
          Dup2(wr, STDERR);
      }
    }

    /** Restores what was saved and drains the pipe; the drain never ends while the pipe has a writer. */
    method EndCapture(cap: Capture) returns (hangs: bool)
      modifies this`fds, this`output
      ensures cap.rd.None? ==> !hangs && fds == old(fds) && output == old(output)
      ensures cap.rd.Some? ==> hangs == HasWriter(Restored(old(fds), cap))
      ensures cap.rd.Some? && !hangs ==> fds == Restored(old(fds), cap) - {cap.rd.value} && output == pipe
    {
      if cap.rd.None? {
        return false;
      }
      if cap.savedOut.Some? {
        if cap.savedOut.value in fds {
          Dup2(cap.savedOut.value, STDOUT);
        }
        Close(cap.savedOut.value);
      }
      if cap.savedErr.Some? {
        if cap.savedErr.value in fds {
          Dup2(cap.savedErr.value, STDERR);
        }
        Close(cap.savedErr.value);
      }
      Close(cap.wr);
      output := [];
      if HasWriter(fds) {
        return true;
      }
      output := pipe;
      Close(cap.rd.value);
      hangs := false;
    }

    method BeginUiCapture()
      modifies this`uiOutput, this`hooked
      ensures uiOutput == [] && hooked
    {
      uiOutput := [];
      hooked := true;
    }

    method UiMessage(text: Text)
      modifies this`uiOutput
      ensures uiOutput == if hooked && |old(uiOutput)| < UI_CAP then old(uiOutput) + text else old(uiOutput)
    {
      if hooked && |uiOutput| < UI_CAP {
        uiOutput := uiOutput + text;
      }
    }

    method EndUiCapture()
      modifies this`uiOutput, this`hooked, this`output
      ensures uiOutput == [] && !hooked && output == Diagnostic(old(output), old(uiOutput))
    {
      hooked := false;
      if uiOutput != [] && Blank(output) {
        output := uiOutput;
      }
      uiOutput := [];
    }

    // -------------------------------------------------------------- fatal traps

    /** The stand-in for `exit`: true if it jumps back to the guard, false if the process really exits. */
    method TrapExit(status: int) returns (jumps: bool)
      modifies this`exitGuarded, this`exitCode
      ensures jumps == old(exitGuarded) && !exitGuarded
      ensures exitCode == if jumps then status else old(exitCode)
    {
      jumps := exitGuarded;
      if exitGuarded {
        exitGuarded := false;
        exitCode := status;
      }
    }

    method TrapAbort() returns (jumps: bool)
      modifies this`exitGuarded, this`exitCode
      ensures jumps == old(exitGuarded) && !exitGuarded
      ensures exitCode == if jumps then ABORT_EXIT_CODE else old(exitCode)
    {
      jumps := TrapExit(ABORT_EXIT_CODE);
    }

    // -------------------------------------------------------------- the guarded call

    method RunBody(events: seq<Event>)
      modifies this`pipe, this`uiOutput
      ensures Capturing(fds) && old(pipe) == [] ==> pipe == Piped(events, room)
      ensures hooked && old(uiOutput) == [] ==> uiOutput == Messages(events)
      ensures !hooked ==> uiOutput == old(uiOutput)
    {
      assert events[..0] == [];
      for i := 0 to |events|
        invariant Capturing(fds) && old(pipe) == [] ==> pipe == Piped(events[..i], room)
        invariant hooked && old(uiOutput) == [] ==> uiOutput == Messages(events[..i])
        invariant !hooked ==> uiOutput == old(uiOutput)
      {
        assert events[..i + 1][..i] == events[..i];
        match events[i] {
          case ToStdout(text) => Write(STDOUT, text);
          case ToStderr(text) => Write(STDERR, text);
          case Message(text) => UiMessage(text);
        }
      }
      assert events[..|events|] == events;
    }

    /** The four ways back: a return, a jump from either stand-in, a caught internal error. */
    method EndBody(ending: Ending)
      requires exitGuarded && !trapped && (ending.InternalError? ==> interrThrows)
      modifies this`exitGuarded, this`exitCode, this`trapped
      ensures !exitGuarded && trapped == Fatal(ending) && exitCode == CodeAfter(old(exitCode), ending)
    {
      match ending {
        case Returns(_) =>
          exitGuarded := false;
        case Exits(status) =>
          var jumps := TrapExit(status);
          assert jumps;
          trapped := true;
        case Aborts =>
          var jumps := TrapAbort();
          assert jumps;
          trapped := true;
        case InternalError =>
          exitGuarded := false;
          trapped := true;
      }
    }

    /** What every exit path runs; a capture that hangs never gets past its drain. */
    method Finish(previousThrows: bool, cap: Capture, capture: bool) returns (hangs: bool)
      modifies this
      ensures interrThrows == previousThrows
      ensures exitGuarded == old(exitGuarded) && trapped == old(trapped) && exitCode == old(exitCode)
      ensures hangs == (cap.rd.Some? && HasWriter(Restored(old(fds), cap)))
      ensures !hangs ==> fds == if cap.rd.None? then old(fds) else Restored(old(fds), cap) - {cap.rd.value}
      ensures !hangs && capture ==> !hooked && uiOutput == []
      ensures !hangs && capture ==>
        output == Diagnostic(if cap.rd.None? then old(output) else old(pipe), old(uiOutput))
      ensures !hangs && !capture ==> hooked == old(hooked) && uiOutput == old(uiOutput)
      ensures !hangs && !capture ==> output == if cap.rd.None? then old(output) else old(pipe)
    {
      interrThrows := previousThrows;
      hangs := EndCapture(cap);
      if hangs {
        return;
      }
      if capture {
        EndUiCapture();
      }
    }

    /**
    Runs one kernel call. It comes back however the call ends, with descriptors, error mode, hook and armed
    flag as they were, exactly when capturing did not lose a descriptor it could not duplicate.
    */
    method Guarded(trapValue: int, capture: bool, body: Body, g: Grants) returns (r: Outcome)
      requires Quiet() && Grantable(fds, g)
      modifies this
      ensures r.Hangs? <==> capture && LosesDescriptor(g)
      ensures !r.Hangs? ==> Quiet() && fds == old(fds) && interrThrows == old(interrThrows)
      ensures !r.Hangs? ==> trapped == Fatal(body.ending)
      ensures !r.Hangs? ==> r == Value(if body.ending.Returns? then body.ending.value else trapValue)
      ensures !r.Hangs? ==> exitCode == CodeAfter(old(exitCode), body.ending)
      ensures !r.Hangs? && body.ending.Exits? ==> exitCode == body.ending.status
      ensures !r.Hangs? && body.ending.Aborts? ==> exitCode == 134
      ensures !r.Hangs? && (body.ending.Returns? || body.ending.InternalError?) ==> exitCode == old(exitCode)
      ensures !r.Hangs? ==> output == OutputAfter(capture, g, body.events, room)
      ensures !r.Hangs? && capture ==> Says(output, Heard(g, body.events, room), Messages(body.events))
      ensures !r.Hangs? && !capture ==> output == []
    {
      hide Piped, Messages, Restored, Redirected, Blank, Grantable, Capturing, HasWriter, Says, Heard;
      OutputSays(g, body.events, room);
      trapped := false;
      output := [];
      var cap := NO_CAPTURE;
      ghost var before := fds;
      if capture {
        cap := BeginCapture(g);
        BeginUiCapture();
      }
      if cap.rd.Some? {
        RedirectedCaptures(before, g);
        RestoredExactly(before, g);
      }
      var previous := interrThrows;
      interrThrows := true;
      exitGuarded := true;
      RunBody(body.events);
      EndBody(body.ending);
      var hangs := Finish(previous, cap, capture);
      if hangs {
        return Hangs;
      }
      r := Value(if body.ending.Returns? then body.ending.value else trapValue);
    }

    /** Any number of calls one after another, each able to duplicate its descriptors. */
    method RunCalls(calls: seq<Call>) returns (values: seq<int>)
      requires Quiet() && forall i :: 0 <= i < |calls| ==> Grantable(fds, calls[i].grants)
      requires forall i :: 0 <= i < |calls| ==> calls[i].capture ==> !LosesDescriptor(calls[i].grants)
      modifies this
      ensures Quiet() && fds == old(fds) && interrThrows == old(interrThrows)
      ensures |values| == |calls| && forall i :: 0 <= i < |calls| ==>
        values[i] == if calls[i].body.ending.Returns? then calls[i].body.ending.value else calls[i].trapValue
      ensures calls != [] ==> trapped == Fatal(calls[|calls| - 1].body.ending)
      ensures exitCode == LastCode(old(exitCode), calls)
      ensures calls != [] ==>
        var c := calls[|calls| - 1]; output == OutputAfter(c.capture, c.grants, c.body.events, room)
    {
      hide Grantable, OutputAfter;
      values := [];
      assert calls[..0] == [];
      for i := 0 to |calls|
        invariant Quiet() && fds == old(fds) && interrThrows == old(interrThrows)
        invariant |values| == i && forall j :: 0 <= j < i ==>
          values[j] == if calls[j].body.ending.Returns? then calls[j].body.ending.value else calls[j].trapValue
        invariant i > 0 ==> trapped == Fatal(calls[i - 1].body.ending)
        invariant exitCode == LastCode(old(exitCode), calls[..i])
        invariant i > 0 ==> var c := calls[i - 1]; output == OutputAfter(c.capture, c.grants, c.body.events, room)
      {
        var c := calls[i];
        assert calls[..i + 1][..i] == calls[..i];
        var r := Guarded(c.trapValue, c.capture, c.body, c.grants);
        values := values + [r.value];
      }
      assert calls[..|calls|] == calls;
    }
  }

  datatype Call = Call(trapValue: int, capture: bool, body: Body, grants: Grants)

  /** A pipe was made, but one of the standard descriptors could not be duplicated. */
  predicate LosesDescriptor(g: Grants) {
    g.pipe.Some? && (g.savedOut.None? || g.savedErr.None?)
  }

  /** The exit code kept after a call: an internal error leaves an earlier call's in place. */
  function CodeAfter(code: int, e: Ending): int {
    match e
    case Exits(status) => status
    case Aborts => ABORT_EXIT_CODE
    case _ => code
  }

  function LastCode(code: int, calls: seq<Call>): int {
    if calls == [] then code
    else CodeAfter(LastCode(code, calls[..|calls| - 1]), calls[|calls| - 1].body.ending)
  }

  function OutputAfter(capture: bool, g: Grants, events: seq<Event>, room: nat): Text {
    if !capture then [] else Diagnostic(if g.pipe.Some? then Piped(events, room) else [], Messages(events))
  }

  predicate HasWriter(fds: Fds) {
    exists fd :: fd in fds && fds[fd] == WriteEnd
  }

  /** Outside a captured call the standard descriptors are open, and none is a capture pipe's. */
  predicate Ordinary(fds: Fds) {
    STDOUT in fds && STDERR in fds && forall fd :: fd in fds ==> fds[fd].File?
  }

  predicate Capturing(fds: Fds) {
    STDOUT in fds && STDERR in fds && fds[STDOUT] == fds[STDERR] == WriteEnd
  }

  function CaptureOf(g: Grants): Capture
    requires g.pipe.Some?
  {
    Capture(Some(g.pipe.value.0), g.pipe.value.1, g.savedOut, g.savedErr)
  }

  function Saved(fds: Fds, at: Option<nat>, what: Open): Fds {
    match at case None => fds case Some(s) => fds[s := what]
  }

  /** The descriptors while output is redirected. */
  function Redirected(fds: Fds, g: Grants): Fds
    requires Ordinary(fds) && g.pipe.Some?
  {
    var (rd, wr) := g.pipe.value;
    var piped := fds[rd := ReadEnd][wr := WriteEnd];
    Saved(Saved(piped, g.savedOut, fds[STDOUT]), g.savedErr, fds[STDERR])[STDOUT := WriteEnd][STDERR := WriteEnd]
  }

  /** The descriptors after the saved ones are put back and the write end is closed. */
  function Restored(fds: Fds, cap: Capture): Fds {
    PutBack(PutBack(fds, cap.savedOut, STDOUT), cap.savedErr, STDERR) - {cap.wr}
  }

  function PutBack(fds: Fds, saved: Option<nat>, to: nat): Fds {
    match saved
    case None => fds
    case Some(s) => (if s in fds then fds[to := fds[s]] else fds) - {s}
  }

  /** What being granted fresh and distinct comes to, descriptor by descriptor. */
  lemma {:induction false} GrantsFresh(fds: Fds, g: Grants)
    requires Ordinary(fds) && Grantable(fds, g) && g.pipe.Some?
    ensures var (rd, wr) := g.pipe.value;
            && rd !in fds && wr !in fds && rd != wr
            && (g.savedOut.Some? ==> var o := g.savedOut.value; o !in fds && o != rd && o != wr)
            && (g.savedErr.Some? ==> var e := g.savedErr.value; e !in fds && e != rd && e != wr)
            && (g.savedOut.Some? && g.savedErr.Some? ==> g.savedOut.value != g.savedErr.value)
  {
    var t := Taken(fds, g);
    assert t[0] == g.pipe.value.0 && t[1] == g.pipe.value.1;
    if g.savedOut.Some? {
      assert t[2] == g.savedOut.value;
      if g.savedErr.Some? {
        assert t[3] == g.savedErr.value;
      }
    } else if g.savedErr.Some? {
      assert t[2] == g.savedErr.value;
    }
  }

  lemma {:induction false} RedirectedCaptures(fds: Fds, g: Grants)
    requires Ordinary(fds) && g.pipe.Some?
    ensures Capturing(Redirected(fds, g))
  {
  }

  /**
  Undoing a redirection leaves every descriptor as it was if both standard ones were saved; if either was
  not, it still writes to the pipe.
  */
  lemma {:induction false} RestoredExactly(fds: Fds, g: Grants)
    requires Ordinary(fds) && Grantable(fds, g) && g.pipe.Some?
    ensures var after := Restored(Redirected(fds, g), CaptureOf(g));
            && (HasWriter(after) <==> LosesDescriptor(g))
            && (!LosesDescriptor(g) ==> after - {g.pipe.value.0} == fds)
  {
    GrantsFresh(fds, g);
    var after := Restored(Redirected(fds, g), CaptureOf(g));
    if g.savedOut.None? {
      assert STDOUT in after && after[STDOUT] == WriteEnd;
    } else if g.savedErr.None? {
      assert STDERR in after && after[STDERR] == WriteEnd;
    } else {
      assert after == fds[g.pipe.value.0 := ReadEnd];
    }
  }

  /** The message text kept never passes the limit by more than one formatted message. */
  lemma {:induction false} MessagesBounded(events: seq<Event>)
    requires Formatted(events)
    ensures |Messages(events)| < 8192 + 1023
  {
    if events != [] {
      MessagesBounded(events[..|events| - 1]);
    }
  }

  /** After an internal error the kept exit code is whatever an earlier trapped call left. */
  lemma {:induction false} InternalErrorKeepsOldCode(earlier: Call, status: int, latest: Call, code: int)
    requires earlier.body.ending == Exits(status) && latest.body.ending.InternalError?
    ensures LastCode(code, [earlier, latest]) == status && Fatal(latest.body.ending)
  {
    assert [earlier, latest][..1] == [earlier];
    assert [earlier][..0] == [];
  }

  /** The calls since, and with, the last one that ended fatally. */
  predicate LastFatalFirst(calls: seq<Call>) {
    calls != [] && Fatal(calls[0].body.ending)
    && forall i :: 1 <= i < |calls| ==> !Fatal(calls[i].body.ending)
  }

  lemma {:induction false} LastCodeIs(code: int, earlier: seq<Call>, calls: seq<Call>)
    requires LastFatalFirst(calls)
    ensures LastCode(code, earlier + calls) == CodeAfter(LastCode(code, earlier), calls[0].body.ending)
    decreases |calls|
  {
    var all := earlier + calls;
    if |calls| == 1 {
      assert all[..|all| - 1] == earlier;
    } else {
      assert all[..|all| - 1] == earlier + calls[..|calls| - 1];
      LastCodeIs(code, earlier, calls[..|calls| - 1]);
    }
  }

  /**
  Over any calls, the kept code is that of the last fatal one, whatever was kept before it, if and only if that
  one did not end in an internal error; after one it is just what was kept before.
  */
  lemma {:induction false} KeptCodeExactly(calls: seq<Call>)
    requires LastFatalFirst(calls)
    ensures !calls[0].body.ending.InternalError?
       <==> forall code, code', earlier, earlier' ::
              LastCode(code, earlier + calls) == LastCode(code', earlier' + calls)
    ensures calls[0].body.ending.InternalError? ==>
      forall code, earlier :: LastCode(code, earlier + calls) == LastCode(code, earlier)
  {
    forall code, earlier
      ensures LastCode(code, earlier + calls) == CodeAfter(LastCode(code, earlier), calls[0].body.ending)
    {
      LastCodeIs(code, earlier, calls);
    }
    if calls[0].body.ending.InternalError? {
      assert LastCode(0, []) == 0 && LastCode(1, []) == 1;
      assert LastCode(0, [] + calls) != LastCode(1, [] + calls);
    }
  }
}
