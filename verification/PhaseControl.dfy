/** The controlled-perf coordinator and the clients it exchanges phase messages with.

    The coordinator's loop is proved to accept one language of messages and to answer each message with the reply its
    sender waits for.  Composed with the driver and the stop client over two queues, measured work runs only while the
    phase's counter is enabled.
*/
module PhaseControl {
  import opened Text
  import opened LineReader

  const PHASES := ["load", "warm"]

  // ----- messages -----

  datatype Message = Message(event: string, phase: string) | Malformed

  predicate IsDigits(s: string) { s != [] && forall c :: c in s ==> '0' <= c <= '9' }

  /** Lines are decoded as ASCII; anything else is an error. */
  predicate IsAscii(s: string) { forall c :: c in s ==> c < '\U{80}' }

  function Parse(line: string): Message {
    var parts := Words(line);
    if !IsAscii(line) || |parts| != 3 || !IsDigits(parts[2]) then Malformed else Message(parts[0], parts[1])
  }

  /** What the driver and the stop client write, before the newline. */
  function Render(event: string, phase: string, pid: string): string {
    event + " " + phase + " " + pid
  }

  /** A message survives being written and read, through any chunks. */
  lemma ParseOfRender(event: string, phase: string, pid: string, rest: string)
    requires event != [] && phase != [] && Blankless(event) && Blankless(phase) && IsDigits(pid)
    requires IsAscii(event) && IsAscii(phase)
    ensures var line := NextLine(Render(event, phase, pid) + [NEWLINE] + rest);
            line.Line? && Parse(line.text) == Message(event, phase)
    ensures AfterLine(Render(event, phase, pid) + [NEWLINE] + rest) == rest
  {
    var words := [event, phase, pid];
    assert words[1..] == [phase, pid] && words[1..][1..] == [pid];
    assert Join([phase, pid], ' ') == phase + [' '] + pid;
    assert Join(words, ' ') == event + [' '] + (phase + [' '] + pid) == Render(event, phase, pid);
    assert Blankless(pid) && IsAscii(pid) && IsAscii(Render(event, phase, pid));
    WordsOfJoin(words);
    SplitOnce(Render(event, phase, pid), NEWLINE, rest);
  }

  // ----- the coordinator -----

  /** One turn of the loop: the line read, and whether the perf process did what it was told. */
  datatype Input = Input(line: Line, perfOk: bool)

  datatype Action = Enable(phase: string) | Disable(phase: string)

  /** The coordinator's variables: the phase whose counter is enabled, if any, and how many phases are complete. */
  datatype State = State(active: bool, index: nat)

  datatype Turn = Fails | Goes(next: State, reply: string, actions: seq<Action>)

  /** What one message does. */
  function Take(s: State, input: Input): Turn
    requires s.index < |PHASES|
  {
    match input.line
    case TimedOut => Fails
    case Line(text) =>
      match Parse(text)
      case Malformed => Fails
      case Message(event, phase) =>
        if phase != PHASES[s.index] then Fails
        else if event == "READY" then
          if s.active || !input.perfOk then Fails
          else Goes(s.(active := true), "GO " + phase, [Enable(phase)])
        else if event == "WORK_DONE" then
          if !s.active then Fails
          else if phase == "warm" then
            if !input.perfOk then Fails else Goes(State(false, s.index + 1), "DONE " + phase, [Disable(phase)])
          else Goes(s, "ACK " + phase, [])
        else if event == "STOP" then
          if phase != "load" || !s.active || !input.perfOk then Fails
          else Goes(State(false, s.index + 1), "DONE " + phase, [Disable(phase)])
        else Fails
  }

  predicate Carries(input: Input, event: string, phase: string) {
    input.line.Line? && Parse(input.line.text) == Message(event, phase)
  }

  predicate Told(input: Input, event: string, phase: string) {
    Carries(input, event, phase) && input.perfOk
  }

  /** READY load, then any number of WORK_DONE load. */
  ghost predicate Loading(inputs: seq<Input>) {
    && |inputs| >= 1 && Told(inputs[0], "READY", "load")
    && forall i :: 1 <= i < |inputs| ==> Carries(inputs[i], "WORK_DONE", "load")
  }

  /** The language: READY load, any number of WORK_DONE load, STOP load, READY warm, WORK_DONE warm; with perf obeying
      each time it is told to start or stop.
  */
  ghost predicate Accepted(inputs: seq<Input>) {
    var n := |inputs|;
    && n >= 4 && Loading(inputs[..n - 3])
    && Told(inputs[n - 3], "STOP", "load")
    && Told(inputs[n - 2], "READY", "warm")
    && Told(inputs[n - 1], "WORK_DONE", "warm")
  }

  datatype Progress = At(state: State) | Failed

  /** The loop over a list of inputs: it fails at the first turn that fails, and reads nothing once complete. */
  ghost function Run(inputs: seq<Input>): Progress {
    if inputs == [] then At(State(false, 0))
    else
      var before := Run(inputs[..|inputs| - 1]);
      if before.Failed? || before.state.index >= |PHASES| then Failed
      else
        var turn := Take(before.state, inputs[|inputs| - 1]);
        if turn.Fails? then Failed else At(turn.next)
  }

  /** What leads to each state of the coordinator. */
  ghost predicate LeadsTo(inputs: seq<Input>, s: State) {
    var n := |inputs|;
    if s == State(false, 0) then n == 0
    else if s == State(true, 0) then Loading(inputs)
    else if s == State(false, 1) then n >= 2 && Loading(inputs[..n - 1]) && Told(inputs[n - 1], "STOP", "load")
    else if s == State(true, 1) then
      n >= 3 && Loading(inputs[..n - 2]) && Told(inputs[n - 2], "STOP", "load") && Told(inputs[n - 1], "READY", "warm")
    else s == State(false, 2) && Accepted(inputs)
  }

  lemma Literals()
    ensures "load" != "warm" && PHASES[0] == "load" && PHASES[1] == "warm"
    ensures "READY" != "WORK_DONE" && "READY" != "STOP" && "WORK_DONE" != "STOP"
  {
    assert "load"[0] != "warm"[0] && |"READY"| == 5 && |"WORK_DONE"| == 9 && |"STOP"| == 4;
  }

  /** A turn continues the language. */
  lemma TakeLeadsTo(before: seq<Input>, r: State, input: Input)
    requires r.index < |PHASES| && LeadsTo(before, r) && Take(r, input).Goes?
    ensures LeadsTo(before + [input], Take(r, input).next)
  {
    Literals();
    var all, n := before + [input], |before| + 1;
    assert all[..n - 1] == before && all[n - 1] == input;
    if n >= 2 { assert all[..n - 2] == before[..n - 2]; }
    if n >= 3 { assert all[..n - 3] == before[..n - 3]; }
  }

  /** The language can only be continued by a turn. */
  lemma LeadsToByTurn(before: seq<Input>, input: Input, s: State) returns (r: State)
    requires LeadsTo(before + [input], s)
    ensures r.index < |PHASES| && LeadsTo(before, r) && Take(r, input).Goes? && Take(r, input).next == s
  {
    Literals();
    var all, n := before + [input], |before| + 1;
    assert all[..n - 1] == before && all[n - 1] == input;
    if n >= 2 { assert all[..n - 2] == before[..n - 2]; }
    if n >= 3 { assert all[..n - 3] == before[..n - 3]; }
    if s == State(true, 0) {
      r := if n == 1 then State(false, 0) else State(true, 0);
    } else if s == State(false, 1) {
      r := State(true, 0);
    } else if s == State(true, 1) {
      r := State(false, 1);
    } else {
      r := State(true, 1);
    }
  }

  lemma {:induction false} RunLeadsTo(inputs: seq<Input>, s: State)
    ensures Run(inputs) == At(s) <==> LeadsTo(inputs, s)
    decreases |inputs|
  {
    if inputs != [] {
      var before, last := inputs[..|inputs| - 1], inputs[|inputs| - 1];
      assert inputs == before + [last];
      if Run(inputs) == At(s) {
        RunLeadsTo(before, Run(before).state);
        TakeLeadsTo(before, Run(before).state, last);
      }
      if LeadsTo(inputs, s) {
        var r := LeadsToByTurn(before, last, s);
        RunLeadsTo(before, r);
      }
    }
  }

  /** The coordinator completes exactly on the language. */
  lemma CompletesExactlyOnTheLanguage(inputs: seq<Input>)
    ensures Run(inputs) == At(State(false, |PHASES|)) <==> Accepted(inputs)
  {
    RunLeadsTo(inputs, State(false, |PHASES|));
  }

  /** The reply the sender of a message waits for. */
  function Awaited(event: string, phase: string): string {
    if event == "READY" then "GO " + phase
    else if event == "WORK_DONE" && phase != "warm" then "ACK " + phase
    else "DONE " + phase
  }

  predicate Answers(input: Input, reply: string) {
    input.line.Line? && Parse(input.line.text).Message?
    && reply == Awaited(Parse(input.line.text).event, Parse(input.line.text).phase)
  }

  /** Each reply is the one the sender of the message in its place waits for. */
  ghost predicate Answered(inputs: seq<Input>, replies: seq<string>) {
    |replies| <= |inputs| && forall i :: 0 <= i < |replies| ==> Answers(inputs[i], replies[i])
  }

  lemma RunStep(inputs: seq<Input>, c: nat)
    requires c < |inputs| && Run(inputs[..c]).At? && Run(inputs[..c]).state.index < |PHASES|
    ensures Run(inputs[..c + 1]) ==
            var turn := Take(Run(inputs[..c]).state, inputs[c]);
            if turn.Fails? then Failed else At(turn.next)
  {
    assert inputs[..c + 1][..c] == inputs[..c];
  }

  /** After a failure or completion nothing more is taken. */
  lemma {:induction false} NothingFollows(inputs: seq<Input>, m: nat, n: nat)
    requires m < n <= |inputs|
    ensures Run(inputs[..m]).Failed? || Run(inputs[..m]).state.index >= |PHASES| ==> Run(inputs[..n]).Failed?
    decreases n
  {
    assert inputs[..n][..n - 1] == inputs[..n - 1];
    if m < n - 1 { NothingFollows(inputs, m, n - 1); }
  }

  ghost predicate CompleteAt(inputs: seq<Input>, n: nat)
    requires n <= |inputs|
  {
    Run(inputs[..n]).At? && Run(inputs[..n]).state.index >= |PHASES|
  }

  lemma AcceptedMeansComplete(inputs: seq<Input>, n: nat)
    requires n <= |inputs|
    ensures Accepted(inputs[..n]) ==> CompleteAt(inputs, n)
  {
    CompletesExactlyOnTheLanguage(inputs[..n]);
  }

  /** A run that is incomplete at `c`, where the inputs end or the next one fails, has no accepted part. */
  lemma NoneAccepted(inputs: seq<Input>, c: nat)
    requires c <= |inputs| && Run(inputs[..c]).At? && Run(inputs[..c]).state.index < |PHASES|
    requires c == |inputs| || Run(inputs[..c + 1]).Failed?
    ensures forall n: nat :: n <= |inputs| ==> !Accepted(inputs[..n])
  {
    forall n: nat | n <= |inputs|
      ensures !Accepted(inputs[..n])
    {
      AcceptedMeansComplete(inputs, n);
      NotCompleteAt(inputs, c, n);
    }
  }

  lemma NotCompleteAt(inputs: seq<Input>, c: nat, n: nat)
    requires c <= |inputs| && Run(inputs[..c]).At? && Run(inputs[..c]).state.index < |PHASES|
    requires (c == |inputs| || Run(inputs[..c + 1]).Failed?) && n <= |inputs|
    ensures !CompleteAt(inputs, n)
  {
    if n < c { NothingFollows(inputs, n, c); }
    if c + 1 < n { NothingFollows(inputs, c + 1, n); }
  }

  /** Some state of the coordinator is reached by these inputs: they can all be taken. */
  ghost predicate Viable(inputs: seq<Input>) { exists s :: LeadsTo(inputs, s) }

  lemma ViableIff(inputs: seq<Input>)
    ensures Viable(inputs) <==> Run(inputs).At?
  {
    if Run(inputs).At? { RunLeadsTo(inputs, Run(inputs).state); }
    if s :| LeadsTo(inputs, s) { RunLeadsTo(inputs, s); }
  }

  /** The whole course of the counters. */
  const COURSE := [Enable("load"), Disable("load"), Enable("warm"), Disable("warm")]

  /** How much of the course is over. */
  function Taken(s: State): nat { 2 * s.index + if s.active then 1 else 0 }

  lemma ActionsFollow(s: State, input: Input)
    requires s.index < |PHASES| && Take(s, input).Goes?
    ensures Taken(s) <= Taken(Take(s, input).next) <= 4
    ensures COURSE[..Taken(s)] + Take(s, input).actions == COURSE[..Taken(Take(s, input).next)]
  {
    Literals();
  }

  /** The coordinator's loop.  It completes exactly when some first part of the inputs is in the language.  It has taken as
      many inputs as can be taken, answered each of them, in order, with the reply its sender waits for, and carried the
      counters that far through their course: to its end if it completes.
  */
  method Coordinate(inputs: seq<Input>) returns (completed: bool, replies: seq<string>, actions: seq<Action>, consumed: nat)
    ensures consumed <= |inputs| && |replies| == consumed
    ensures completed <==> exists n: nat :: n <= |inputs| && Accepted(inputs[..n])
    ensures completed ==> Accepted(inputs[..consumed]) && actions == COURSE
    ensures Viable(inputs[..consumed]) && (!completed && consumed < |inputs| ==> !Viable(inputs[..consumed + 1]))
    ensures Answered(inputs, replies)
    ensures exists s :: LeadsTo(inputs[..consumed], s) && Taken(s) <= 4 && actions == COURSE[..Taken(s)]
  {
    Literals();
    var active, index: nat := false, 0;
    replies, actions, consumed := [], [], 0;
    while index < |PHASES|
      invariant index <= |PHASES| && consumed <= |inputs| && |replies| == consumed
      invariant Run(inputs[..consumed]) == At(State(active, index))
      invariant index == |PHASES| ==> !active
      invariant Answered(inputs, replies)
      invariant Taken(State(active, index)) <= 4 && actions == COURSE[..Taken(State(active, index))]
      decreases |inputs| - consumed
    {
      RunLeadsTo(inputs[..consumed], State(active, index));
      if consumed == |inputs| {
        NoneAccepted(inputs, consumed);
        return false, replies, actions, consumed;
      }
      RunStep(inputs, consumed);
      var goes, reply, acts;
      ghost var was := State(active, index);
      active, index, goes, reply, acts := Turned(active, index, inputs[consumed]);
      if !goes {
        NoneAccepted(inputs, consumed);
        ViableIff(inputs[..consumed + 1]);
        return false, replies, actions, consumed;
      }
      ActionsFollow(was, inputs[consumed]);
      consumed := consumed + 1;
      replies := replies + [reply];
      actions := actions + acts;
    }
    RunLeadsTo(inputs[..consumed], State(false, |PHASES|));
    assert Accepted(inputs[..consumed]);
    completed := true;
  }

  /** The body of the loop: one message against the coordinator's two variables. */
  method Turned(active0: bool, index0: nat, input: Input)
    returns (active: bool, index: nat, goes: bool, reply: string, acts: seq<Action>)
    requires index0 < |PHASES|
    ensures goes <==> Take(State(active0, index0), input).Goes?
    ensures !goes ==> active == active0 && index == index0
    ensures goes ==> Take(State(active0, index0), input) == Goes(State(active, index), reply, acts) && Answers(input, reply)
    ensures index == |PHASES| && goes ==> !active
  {
    Literals();
    active, index, goes, reply, acts := active0, index0, false, "", [];
    if input.line.TimedOut? { return; }
    var parts := Words(input.line.text);
    if !IsAscii(input.line.text) || |parts| != 3 || !IsDigits(parts[2]) { return; }
    var event, phase := parts[0], parts[1];
    if phase != PHASES[index] { return; }
    if event == "READY" {
      if active || !input.perfOk { return; }
      active, goes, reply, acts := true, true, "GO " + phase, [Enable(phase)];
    } else if event == "WORK_DONE" {
      if !active { return; }
      if phase == "warm" {
        if !input.perfOk { return; }
        active, index, goes, reply, acts := false, index + 1, true, "DONE " + phase, [Disable(phase)];
      } else {
        goes, reply := true, "ACK " + phase;
      }
    } else if event == "STOP" {
      if phase != "load" || !active || !input.perfOk { return; }
      active, index, goes, reply, acts := false, index + 1, true, "DONE " + phase, [Disable(phase)];
    }
  }
}
