/**
 A guarded child process: two output streams, a redactor on each, and one pair of flags.

 `Run` is the event handlers as functions over any interleaving of chunks; the class below it updates flags and
 redactors in place and is proved equal to it.
*/
module GuardedRun {
  import opened RedactorSpec
  import opened Redactor

  datatype Event = Out(chunk: string) | Err(chunk: string)

  /** What the parent process writes: text of the child's two streams, and the notice that it was stopped. */
  datatype Written = Stdout(text: string) | Stderr(text: string) | Blocked

  datatype Guard = Guard(out: Scan, err: Scan, stopped: bool, log: seq<Written>)

  const START := Guard(Scan("", false), Scan("", false), false, [])

  function Emit(log: seq<Written>, written: Written): seq<Written>
    requires !written.Blocked?
  {
    if written.text == "" then log else log + [written]
  }

  function Noticed(log: seq<Written>, leaked: bool): seq<Written> {
    if leaked then log + [Blocked] else log
  }

  function AfterOut(g: Guard, step: Step): Guard {
    Guard(step.scan, g.err, step.leaked, Noticed(Emit(g.log, Stdout(step.output)), step.leaked))
  }

  function AfterErr(g: Guard, step: Step): Guard {
    Guard(g.out, step.scan, step.leaked, Noticed(Emit(g.log, Stderr(step.output)), step.leaked))
  }

  function React(values: seq<string>, g: Guard, event: Event): Guard {
    if g.stopped then g
    else match event
      case Out(chunk) => AfterOut(g, RedactorSpec.Write(values, g.out, chunk))
      case Err(chunk) => AfterErr(g, RedactorSpec.Write(values, g.err, chunk))
  }

  function Run(values: seq<string>, events: seq<Event>): Guard {
    if events == [] then START else React(values, Run(values, events[..|events| - 1]), events[|events| - 1])
  }

  /** The rest a decoder still holds counts as one more chunk, unless it is empty. */
  function WithRest(events: seq<Event>, rest: Event): seq<Event> {
    if rest.chunk == "" then events else events + [rest]
  }

  function EndOut(values: seq<string>, g: Guard): Guard {
    if g.stopped then g else AfterOut(g, RedactorSpec.End(values, g.out))
  }

  function EndErr(values: seq<string>, g: Guard): Guard {
    if g.stopped then g else AfterErr(g, RedactorSpec.End(values, g.err))
  }

  /** The whole run: all chunks, then the close handler. */
  function Closed(values: seq<string>, events: seq<Event>, lastOut: string, lastErr: string): Guard {
    EndErr(values, EndOut(values, Run(values, WithRest(WithRest(events, Out(lastOut)), Err(lastErr)))))
  }

  function OutChunks(events: seq<Event>): seq<string> {
    if events == [] then []
    else OutChunks(events[..|events| - 1]) + if events[|events| - 1].Out? then [events[|events| - 1].chunk] else []
  }

  function ErrChunks(events: seq<Event>): seq<string> {
    if events == [] then []
    else ErrChunks(events[..|events| - 1]) + if events[|events| - 1].Err? then [events[|events| - 1].chunk] else []
  }

  function OutText(log: seq<Written>): string {
    if log == [] then ""
    else OutText(log[..|log| - 1]) + if log[|log| - 1].Stdout? then log[|log| - 1].text else ""
  }

  function ErrText(log: seq<Written>): string {
    if log == [] then ""
    else ErrText(log[..|log| - 1]) + if log[|log| - 1].Stderr? then log[|log| - 1].text else ""
  }

  // ---- before detection: two independent redactors ----------------------------------------------------------------

  /** Not stopped: each redactor has read exactly its own stream, and its whole output was forwarded. */
  ghost predicate Forwarding(values: seq<string>, events: seq<Event>, g: Guard) {
    && !g.stopped && Blocked !in g.log
    && g.out == Feed(values, OutChunks(events)).scan && !Feed(values, OutChunks(events)).leaked
    && g.err == Feed(values, ErrChunks(events)).scan && !Feed(values, ErrChunks(events)).leaked
    && OutText(g.log) == Feed(values, OutChunks(events)).output
    && ErrText(g.log) == Feed(values, ErrChunks(events)).output
  }

  /** `output` is the beginning of `stream` without a complete value, then the marker. */
  ghost predicate CutBeforeLeak(values: seq<string>, stream: string, output: string) {
    && Leaks(values, stream)
    && exists n: nat :: n <= |stream| && !Leaks(values, stream[..n]) && output == stream[..n] + REDACTION
  }

  /** `output` is the beginning of `stream` without a complete value. */
  ghost predicate CleanPrefix(values: seq<string>, stream: string, output: string) {
    output <= stream && !Leaks(values, output)
  }

  /** Stopped: the notice was written once, after everything of the child, one stream was cut before its leak,
      and of the other a clean beginning was forwarded. */
  ghost predicate Halted(values: seq<string>, outStream: string, errStream: string, g: Guard) {
    && g.stopped && g.log != [] && g.log[|g.log| - 1] == Blocked && Blocked !in g.log[..|g.log| - 1]
    && ((CutBeforeLeak(values, outStream, OutText(g.log)) && CleanPrefix(values, errStream, ErrText(g.log))) ||
        (CutBeforeLeak(values, errStream, ErrText(g.log)) && CleanPrefix(values, outStream, OutText(g.log))))
  }

  ghost predicate Guarded(values: seq<string>, events: seq<Event>, g: Guard) {
    Forwarding(values, events, g) || Halted(values, Concat(OutChunks(events)), Concat(ErrChunks(events)), g)
  }

  lemma EmitText(log: seq<Written>, written: Written, leaked: bool)
    requires !written.Blocked?
    ensures var grown := Noticed(Emit(log, written), leaked);
            && OutText(grown) == OutText(log) + (if written.Stdout? then written.text else "")
            && ErrText(grown) == ErrText(log) + (if written.Stderr? then written.text else "")
            && (Blocked !in log ==> Blocked !in Emit(log, written))
  {
    var emitted := Emit(log, written);
    if written.text != "" { assert (log + [written])[..|log|] == log; }
    assert OutText(log) + "" == OutText(log) && ErrText(log) + "" == ErrText(log);
    assert OutText(emitted) + "" == OutText(emitted) && ErrText(emitted) + "" == ErrText(emitted);
    assert (emitted + [Blocked])[..|emitted|] == emitted;
  }

  lemma PrefixIsClean(values: seq<string>, stream: string, text: string)
    requires text <= stream && !Leaks(values, stream)
    ensures CleanPrefix(values, stream, text)
  {
    forall i: nat, k | 0 <= k < |values| && OccursAt(values[k], text, i) ensures false {
      assert stream[i..i + |values[k]|] == text[i..i + |values[k]|];
      assert MatchAt(values, stream, i);
    }
  }

  lemma LongerStreamLeaks(values: seq<string>, stream: string, more: string)
    requires Leaks(values, stream)
    ensures Leaks(values, stream + more)
  {
    var i: nat :| MatchAt(values, stream, i);
    var k :| 0 <= k < |values| && OccursAt(values[k], stream, i);
    assert (stream + more)[i..i + |values[k]|] == stream[i..i + |values[k]|];
    assert MatchAt(values, stream + more, i);
  }

  /** A clean redactor has forwarded a clean beginning of its stream. */
  lemma FeedIsClean(values: seq<string>, chunks: seq<string>)
    requires AllNonEmpty(values) && !Feed(values, chunks).leaked
    ensures CleanPrefix(values, Concat(chunks), Feed(values, chunks).output)
    ensures !Feed(values, chunks).scan.stopped && !Leaks(values, Concat(chunks))
  {
    TracksFeed(values, chunks);
    var step := Feed(values, chunks);
    assert step.output == (step.output + step.scan.carry)[..|step.output|];
    PrefixIsClean(values, Concat(chunks), step.output);
  }

  /** A redactor that has just reported forwarded its stream up to the leak. */
  lemma FeedIsCut(values: seq<string>, chunks: seq<string>)
    requires AllNonEmpty(values) && Feed(values, chunks).leaked
    ensures CutBeforeLeak(values, Concat(chunks), Feed(values, chunks).output)
  {
    TracksFeed(values, chunks);
    var step, read := Feed(values, chunks), Concat(chunks);
    var n: nat :| n <= |read| && DetectedAfter(values, read, n, step.output);
    PrefixLeaks(values, read, n);
    BeforeFirstMatch(values, read, n);
    var i := FirstMatch(values, read[..n]).value;
    assert read[..n][..i] == read[..i];
  }

  lemma FeedLast(values: seq<string>, chunks: seq<string>, chunk: string)
    ensures Concat(chunks + [chunk]) == Concat(chunks) + chunk
    ensures var before := Feed(values, chunks); var step := RedactorSpec.Write(values, before.scan, chunk);
            Feed(values, chunks + [chunk]) == Step(step.scan, before.output + step.output, before.leaked || step.leaked)
  {
    assert (chunks + [chunk])[..|chunks|] == chunks;
  }

  lemma ReactOut(values: seq<string>, events: seq<Event>, g: Guard, chunk: string)
    requires AllNonEmpty(values) && Forwarding(values, events, g)
    ensures Guarded(values, events + [Out(chunk)], React(values, g, Out(chunk)))
  {
    var outs, errs, grown := OutChunks(events), ErrChunks(events), events + [Out(chunk)];
    assert grown[..|events|] == events;
    assert OutChunks(grown) == outs + [chunk] && ErrChunks(grown) == errs + [] == errs;
    var step := RedactorSpec.Write(values, g.out, chunk);
    FeedLast(values, outs, chunk);
    EmitText(g.log, Stdout(step.output), step.leaked);
    assert ErrText(g.log) + "" == ErrText(g.log);
    FeedIsClean(values, errs);
    if step.leaked { FeedIsCut(values, outs + [chunk]); }
  }

  lemma ReactErr(values: seq<string>, events: seq<Event>, g: Guard, chunk: string)
    requires AllNonEmpty(values) && Forwarding(values, events, g)
    ensures Guarded(values, events + [Err(chunk)], React(values, g, Err(chunk)))
  {
    var outs, errs, grown := OutChunks(events), ErrChunks(events), events + [Err(chunk)];
    assert grown[..|events|] == events;
    assert ErrChunks(grown) == errs + [chunk] && OutChunks(grown) == outs + [] == outs;
    var step := RedactorSpec.Write(values, g.err, chunk);
    FeedLast(values, errs, chunk);
    EmitText(g.log, Stderr(step.output), step.leaked);
    assert OutText(g.log) + "" == OutText(g.log);
    FeedIsClean(values, outs);
    if step.leaked { FeedIsCut(values, errs + [chunk]); }
  }

  lemma CutStaysCut(values: seq<string>, stream: string, more: string, output: string)
    ensures CutBeforeLeak(values, stream, output) ==> CutBeforeLeak(values, stream + more, output)
    ensures CleanPrefix(values, stream, output) ==> CleanPrefix(values, stream + more, output)
  {
    if CutBeforeLeak(values, stream, output) {
      LongerStreamLeaks(values, stream, more);
      var n: nat :| n <= |stream| && !Leaks(values, stream[..n]) && output == stream[..n] + REDACTION;
      assert (stream + more)[..n] == stream[..n];
    }
  }

  lemma StreamsGrow(events: seq<Event>, event: Event)
    ensures Concat(OutChunks(events + [event])) == Concat(OutChunks(events)) + if event.Out? then event.chunk else ""
    ensures Concat(ErrChunks(events + [event])) == Concat(ErrChunks(events)) + if event.Err? then event.chunk else ""
  {
    assert (events + [event])[..|events|] == events;
    FeedLast([], OutChunks(events), event.chunk);
    FeedLast([], ErrChunks(events), event.chunk);
    assert OutChunks(events) + [] == OutChunks(events) && ErrChunks(events) + [] == ErrChunks(events);
    assert Concat(OutChunks(events)) + "" == Concat(OutChunks(events));
    assert Concat(ErrChunks(events)) + "" == Concat(ErrChunks(events));
  }

  lemma ReactHalted(values: seq<string>, events: seq<Event>, g: Guard, event: Event)
    requires Halted(values, Concat(OutChunks(events)), Concat(ErrChunks(events)), g)
    ensures Guarded(values, events + [event], React(values, g, event))
  {
    StreamsGrow(events, event);
    var out, err := Concat(OutChunks(events)), Concat(ErrChunks(events));
    CutStaysCut(values, out, if event.Out? then event.chunk else "", OutText(g.log));
    CutStaysCut(values, err, if event.Err? then event.chunk else "", ErrText(g.log));
  }

  /** Whatever the interleaving, the guard is forwarding both streams or has halted at a leak. */
  lemma {:induction false} RunIsGuarded(values: seq<string>, events: seq<Event>)
    requires AllNonEmpty(values)
    ensures Guarded(values, events, Run(values, events))
    decreases |events|
  {
    if events == [] {
      assert Forwarding(values, events, START);
    } else {
      var before, event := events[..|events| - 1], events[|events| - 1];
      RunIsGuarded(values, before);
      assert events == before + [event];
      var g := Run(values, before);
      if !Forwarding(values, before, g) {
        ReactHalted(values, before, g, event);
      } else if event.Out? {
        ReactOut(values, before, g, event.chunk);
      } else {
        ReactErr(values, before, g, event.chunk);
      }
    }
  }

  // ---- main results -----------------------------------------------------------------------------------------------

  /** Once a leak is detected, no later chunk and no part of the close handler writes anything. */
  lemma {:induction false} NothingAfterDetection(values: seq<string>, events: seq<Event>, later: seq<Event>)
    requires Run(values, events).stopped
    ensures Run(values, events + later) == Run(values, events)
    ensures forall lastOut, lastErr :: Closed(values, events + later, lastOut, lastErr) == Run(values, events)
    decreases |later|
  {
    if later == [] {
      assert events + later == events;
    } else {
      var before := later[..|later| - 1];
      NothingAfterDetection(values, events, before);
      assert (events + later)[..|events + later| - 1] == events + before;
    }
    forall lastOut, lastErr ensures Closed(values, events + later, lastOut, lastErr) == Run(values, events) {
      StoppedStays(values, events + later, Out(lastOut));
      StoppedStays(values, WithRest(events + later, Out(lastOut)), Err(lastErr));
    }
  }

  lemma StoppedStays(values: seq<string>, events: seq<Event>, rest: Event)
    requires Run(values, events).stopped
    ensures Run(values, WithRest(events, rest)) == Run(values, events)
  {
    assert (events + [rest])[..|events|] == events;
  }

  function OutStream(events: seq<Event>, lastOut: string): string { Concat(OutChunks(events)) + lastOut }

  function ErrStream(events: seq<Event>, lastErr: string): string { Concat(ErrChunks(events)) + lastErr }

  lemma RestStreams(events: seq<Event>, lastOut: string, lastErr: string)
    ensures var all := WithRest(WithRest(events, Out(lastOut)), Err(lastErr));
            && Concat(OutChunks(all)) == OutStream(events, lastOut)
            && Concat(ErrChunks(all)) == ErrStream(events, lastErr)
  {
    StreamsGrow(events, Out(lastOut));
    StreamsGrow(events, Err(lastErr));
    StreamsGrow(WithRest(events, Out(lastOut)), Err(lastErr));
    assert Concat(OutChunks(events)) + "" == Concat(OutChunks(events));
    assert Concat(ErrChunks(events)) + "" == Concat(ErrChunks(events));
  }

  /** Without a leak, the two ends forward what the redactors still carried, and report nothing. */
  lemma EndsForward(values: seq<string>, events: seq<Event>)
    requires AllNonEmpty(values) && Forwarding(values, events, Run(values, events))
    ensures var g := EndErr(values, EndOut(values, Run(values, events)));
            && !g.stopped && Blocked !in g.log
            && OutText(g.log) == Concat(OutChunks(events)) && ErrText(g.log) == Concat(ErrChunks(events))
  {
    var g := Run(values, events);
    var outs, errs := OutChunks(events), ErrChunks(events);
    FeedIsClean(values, outs);
    FeedIsClean(values, errs);
    TracksFeed(values, outs);
    TracksFeed(values, errs);
    EndNeverMatches(values, outs);
    EndNeverMatches(values, errs);
    var middle := EndOut(values, g);
    EmitText(g.log, Stdout(g.out.carry), false);
    EmitText(middle.log, Stderr(g.err.carry), false);
    assert ErrText(g.log) + "" == ErrText(g.log);
    assert OutText(middle.log) + "" == OutText(middle.log);
  }

  /** The run is reported as a leak exactly when one of the child's two full streams contains a value; if neither
      does, both are forwarded unchanged; if one does, the notice comes after everything of the child, and what was
      written before it holds no complete value. */
  lemma GuardedRunIsSafe(values: seq<string>, events: seq<Event>, lastOut: string, lastErr: string)
    requires AllNonEmpty(values)
    ensures var g := Closed(values, events, lastOut, lastErr);
            var out, err := OutStream(events, lastOut), ErrStream(events, lastErr);
            && (g.stopped <==> Leaks(values, out) || Leaks(values, err))
            && (g.stopped <==> Blocked in g.log)
            && (!g.stopped ==> OutText(g.log) == out && ErrText(g.log) == err)
            && (g.stopped ==> Halted(values, out, err, g))
  {
    var all := WithRest(WithRest(events, Out(lastOut)), Err(lastErr));
    RestStreams(events, lastOut, lastErr);
    RunIsGuarded(values, all);
    var g := Run(values, all);
    if Forwarding(values, all, g) {
      EndsForward(values, all);
      FeedIsClean(values, OutChunks(all));
      FeedIsClean(values, ErrChunks(all));
    }
  }

  // ---- the handlers -----------------------------------------------------------------------------------------------

  class GuardedChild {
    const stdoutRedactor: SecretRedactor
    const stderrRedactor: SecretRedactor
    var leakDetected: bool
    var outputForwardingStopped: bool
    var log: seq<Written>
    ghost const values: seq<string>

    ghost predicate Valid() reads this, stdoutRedactor, stderrRedactor {
      && stdoutRedactor != stderrRedactor && stdoutRedactor.Valid() && stderrRedactor.Valid()
      && stdoutRedactor.values == values && stderrRedactor.values == values
      && leakDetected == outputForwardingStopped
    }

    ghost function State(): Guard reads this, stdoutRedactor, stderrRedactor {
      Guard(stdoutRedactor.State(), stderrRedactor.State(), outputForwardingStopped, log)
    }

    constructor (leakValues: seq<string>)
      ensures Valid() && State() == START && values == Kept(leakValues)
      ensures fresh(stdoutRedactor) && fresh(stderrRedactor)
    {
      stdoutRedactor := new SecretRedactor(leakValues);
      stderrRedactor := new SecretRedactor(leakValues);
      values := Kept(leakValues);
      leakDetected, outputForwardingStopped, log := false, false, [];
    }

    method HandleLeak()
      modifies this`leakDetected, this`outputForwardingStopped, this`log
      ensures leakDetected && (!old(leakDetected) ==> outputForwardingStopped)
      ensures log == if old(leakDetected) then old(log) else old(log) + [Blocked]
      ensures old(leakDetected) ==> outputForwardingStopped == old(outputForwardingStopped)
    {
      if leakDetected { return; }
      leakDetected, outputForwardingStopped, log := true, true, log + [Blocked];
    }

    method OnStdout(chunk: string)
      requires Valid()
      modifies this, stdoutRedactor`carry, stdoutRedactor`stopped
      ensures Valid() && State() == React(values, old(State()), Out(chunk))
    {
      if outputForwardingStopped { return; }
      var output, leaked := stdoutRedactor.Write(chunk);
      if output != "" { log := log + [Stdout(output)]; }
      if leaked { HandleLeak(); }
    }

    method OnStderr(chunk: string)
      requires Valid()
      modifies this, stderrRedactor`carry, stderrRedactor`stopped
      ensures Valid() && State() == React(values, old(State()), Err(chunk))
    {
      if outputForwardingStopped { return; }
      var output, leaked := stderrRedactor.Write(chunk);
      if output != "" { log := log + [Stderr(output)]; }
      if leaked { HandleLeak(); }
    }

    method EndStdout()
      requires Valid()
      modifies this, stdoutRedactor`carry, stdoutRedactor`stopped
      ensures Valid() && State() == EndOut(values, old(State()))
    {
      if outputForwardingStopped { return; }
      var output, leaked := stdoutRedactor.End();
      if output != "" { log := log + [Stdout(output)]; }
      if leaked { HandleLeak(); }
    }

    method EndStderr()
      requires Valid()
      modifies this, stderrRedactor`carry, stderrRedactor`stopped
      ensures Valid() && State() == EndErr(values, old(State()))
    {
      if outputForwardingStopped { return; }
      var output, leaked := stderrRedactor.End();
      if output != "" { log := log + [Stderr(output)]; }
      if leaked { HandleLeak(); }
    }

    /** The close handler: what the two decoders still held, then the two carries. */
    method OnClose(lastStdout: string, lastStderr: string, ghost events: seq<Event>)
      requires Valid() && State() == Run(values, events)
      modifies this, stdoutRedactor`carry, stdoutRedactor`stopped, stderrRedactor`carry, stderrRedactor`stopped
      ensures Valid() && State() == Closed(values, events, lastStdout, lastStderr)
    {
      RestReact(values, events, Out(lastStdout));
      if !outputForwardingStopped && lastStdout != "" { OnStdout(lastStdout); }
      RestReact(values, WithRest(events, Out(lastStdout)), Err(lastStderr));
      if !outputForwardingStopped && lastStderr != "" { OnStderr(lastStderr); }
      EndStdout();
      EndStderr();
    }
  }

  lemma RestReact(values: seq<string>, events: seq<Event>, rest: Event)
    ensures Run(values, WithRest(events, rest)) ==
              if rest.chunk == "" then Run(values, events) else React(values, Run(values, events), rest)
  {
    assert (events + [rest])[..|events|] == events;
  }

  /** A whole run of the handlers, for any order in which the two streams deliver their chunks. */
  method Supervise(leakValues: seq<string>, events: seq<Event>, lastStdout: string, lastStderr: string)
    returns (log: seq<Written>, leakDetected: bool)
    ensures var values := Kept(leakValues);
            var out, err := OutStream(events, lastStdout), ErrStream(events, lastStderr);
            && log == Closed(values, events, lastStdout, lastStderr).log
            && (leakDetected <==> Leaks(values, out) || Leaks(values, err))
            && (leakDetected <==> Blocked in log)
            && (!leakDetected ==> OutText(log) == out && ErrText(log) == err)
  {
    var child := new GuardedChild(leakValues);
    for n := 0 to |events|
      invariant child.Valid() && child.values == Kept(leakValues) && child.State() == Run(child.values, events[..n])
      invariant fresh(child) && fresh(child.stdoutRedactor) && fresh(child.stderrRedactor)
    {
      assert events[..n + 1][..n] == events[..n];
      match events[n] {
        case Out(chunk) => child.OnStdout(chunk);
        case Err(chunk) => child.OnStderr(chunk);
      }
    }
    assert events[..|events|] == events;
    child.OnClose(lastStdout, lastStderr, events);
    GuardedRunIsSafe(child.values, events, lastStdout, lastStderr);
    return child.log, child.leakDetected;
  }
}
