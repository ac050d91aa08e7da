/**
 One submitted command: the streamed request, the server's pipeline behind it, and
 the fallback POST of apps/web/components/command-bar.tsx and
 apps/web/components/executive-agent-context.tsx.  Events may interleave in any
 order; an event that is not enabled changes nothing.
 */
module CommandProtocol {
  import opened Common
  import opened CommandStream

  /**
   `eager` is a server whose pipeline does work before the client has its first event; the
   fallback rule of the client is written for servers that are not.
   */
  datatype World = World(parse: Parser, eager: bool)

  datatype Phase = Waiting | Reading | Ended(outcome: Outcome) | Posted

  datatype Submission = Submission(
    phase: Phase,
    sent: string,         // what the server has written to the stream
    received: string,     // what the client has read of it
    streamRuns: nat,      // executions by the streamed request
    posts: nat,           // fallback requests sent
    postRuns: nat)        // executions by fallback requests

  const SUBMITTED := Submission(Waiting, "", "", 0, 0, 0)

  datatype Event =
    | FetchFails             // fetch rejects
    | Refused                // the response is not ok or has no body
    | Opened                 // the response is a stream
    | ServerWrites(text: string)
    | Delivered(n: nat)      // n more characters reach the client
    | PipelineWorks          // the streamed request executes the command
    | StreamEnds             // the reader reports done
    | StreamLost             // the reader rejects
    | Fallback               // the client sends the buffered POST
    | PostWorks              // the POST executes the command

  /** Some event's line has reached the client in full. */
  predicate EventDelivered(w: World, received: string) {
    exists k :: 0 <= k < |received| && received[k] == '\n' && SomeEvent(w.parse, Lines(received[..k]))
  }

  function Next(w: World, s: Submission, e: Event): Submission {
    match e
    case FetchFails => if s.phase.Waiting? then s.(phase := Ended(Escaped)) else s
    case Refused => if s.phase.Waiting? then s.(phase := Ended(StreamError(false))) else s
    case Opened => if s.phase.Waiting? then s.(phase := Reading) else s
    case ServerWrites(text) => s.(sent := s.sent + text)
    case Delivered(n) =>
      if s.phase.Reading? && |s.received| + n <= |s.sent| then s.(received := s.sent[..|s.received| + n]) else s
    case PipelineWorks =>
      if s.streamRuns == 0 && (w.eager || EventDelivered(w, s.received)) then s.(streamRuns := 1) else s
    case StreamEnds => if s.phase.Reading? then s.(phase := Ended(OutcomeOf(w.parse, s.received))) else s
    case StreamLost => if s.phase.Reading? then s.(phase := Ended(Escaped)) else s
    case Fallback => if s.phase == Ended(StreamError(false)) then s.(phase := Posted, posts := s.posts + 1) else s
    case PostWorks => if s.postRuns < s.posts then s.(postRuns := s.postRuns + 1) else s
  }

  function Run(w: World, s: Submission, es: seq<Event>): Submission
    decreases es
  {
    if es == [] then s else Run(w, Next(w, s, es[0]), es[1..])
  }

  // ------------------------------------------------------------------ safety

  ghost predicate Inv(w: World, s: Submission) {
    && s.received <= s.sent
    && (s.phase.Waiting? ==> s.received == "")
    && s.streamRuns <= 1 && s.postRuns <= s.posts <= 1
    && (s.posts == 1 <==> s.phase.Posted?)
    && (!w.eager && s.streamRuns == 1 ==> EventDelivered(w, s.received))
    && (s.phase.Posted? || s.phase == Ended(StreamError(false)) ==> !EventDelivered(w, s.received))
  }

  lemma DeliveredEventIsRead(w: World, received: string)
    requires EventDelivered(w, received)
    ensures SomeEvent(w.parse, Lines(received))
  {
    hide Lines, SomeEvent;
    var k :| 0 <= k < |received| && received[k] == '\n' && SomeEvent(w.parse, Lines(received[..k]));
    EventStays(w.parse, received[..k], received[k + 1..]);
    assert received == received[..k] + "\n" + received[k + 1..];
  }

  lemma DeliveryGrows(w: World, received: string, longer: string)
    requires received <= longer && EventDelivered(w, received)
    ensures EventDelivered(w, longer)
  {
    var k :| 0 <= k < |received| && received[k] == '\n' && SomeEvent(w.parse, Lines(received[..k]));
    assert longer[..k] == received[..k];
  }

  lemma NextKeepsInv(w: World, s: Submission, e: Event)
    requires Inv(w, s)
    ensures Inv(w, Next(w, s, e))
  {
    hide EventDelivered, OutcomeOf, SomeEvent, SomeCrash, Lines;
    match e
    case Delivered(n) =>
      var t := Next(w, s, e);
      if EventDelivered(w, s.received) && s.received <= t.received {
        DeliveryGrows(w, s.received, t.received);
      }
    case StreamEnds =>
      RetryableMeansNoEvent(w.parse, s.received);
      if EventDelivered(w, s.received) {
        DeliveredEventIsRead(w, s.received);
      }
    case Refused =>
      NothingDelivered(w);
    case _ =>
  }

  lemma NothingDelivered(w: World)
    ensures !EventDelivered(w, "")
  {
  }

  lemma {:induction false} RunKeepsInv(w: World, s: Submission, es: seq<Event>)
    requires Inv(w, s)
    ensures Inv(w, Run(w, s, es))
    decreases es
  {
    if es != [] {
      NextKeepsInv(w, s, es[0]);
      RunKeepsInv(w, Next(w, s, es[0]), es[1..]);
    }
  }

  ghost function Executions(s: Submission): nat {
    s.streamRuns + s.postRuns
  }

  /** The fallback is sent at most once, and never after an event has been delivered, even by an eager server. */
  lemma FallbackMeansNoEvent(w: World, es: seq<Event>)
    ensures var s := Run(w, SUBMITTED, es);
      s.posts <= 1 && (s.posts == 1 ==> !EventDelivered(w, s.received))
  {
    NothingDelivered(w);
    RunKeepsInv(w, SUBMITTED, es);
  }

  lemma NoLinesNoEvent(parse: Parser)
    ensures !SomeEvent(parse, []) && !SomeCrash(parse, [])
  {
  }

  /** A server that works before its first event is delivered can be made to run the command twice. */
  lemma EagerServerRunsTwice(w: World)
    requires w.eager
    ensures Executions(Run(w, SUBMITTED, [Opened, PipelineWorks, StreamEnds, Fallback, PostWorks])) == 2
  {
    hide OutcomeOf, SomeEvent, SomeCrash, EventDelivered, Blank, Lines, Run;
    BlankHasNoLines("");
    RetryableMeansNoEvent(w.parse, "");
    NoLinesNoEvent(w.parse);
    var s1 := Next(w, SUBMITTED, Opened);
    var s2 := Next(w, s1, PipelineWorks);
    var s3 := Next(w, s2, StreamEnds);
    assert s3.phase == Ended(StreamError(false));
    var s4 := Next(w, s3, Fallback);
    var s5 := Next(w, s4, PostWorks);
    RunFive(w, SUBMITTED, Opened, PipelineWorks, StreamEnds, Fallback, PostWorks);
  }

  /**
   Over all interleavings of server progress, delivery and stream loss a command is executed at
   most once, exactly if the pipeline does no work before its first event has reached the client.
   */
  lemma AtMostOnce(w: World)
    ensures (forall es: seq<Event> :: Executions(Run(w, SUBMITTED, es)) <= 1) <==> !w.eager
  {
    hide Run, Next, EventDelivered, OutcomeOf;
    if w.eager {
      EagerServerRunsTwice(w);
    } else {
      NothingDelivered(w);
      forall es: seq<Event>
        ensures Executions(Run(w, SUBMITTED, es)) <= 1
      {
        RunKeepsInv(w, SUBMITTED, es);
      }
    }
  }

  lemma RunFive(w: World, s: Submission, a: Event, b: Event, c: Event, d: Event, e: Event)
    ensures Run(w, s, [a, b, c, d, e]) == Next(w, Next(w, Next(w, Next(w, Next(w, s, a), b), c), d), e)
  {
    hide Next;
    var s4 := Next(w, Next(w, Next(w, Next(w, s, a), b), c), d);
    var s3 := Next(w, Next(w, Next(w, s, a), b), c);
    var s2 := Next(w, Next(w, s, a), b);
    assert [e][1..] == [] && Run(w, s4, [e]) == Run(w, Next(w, s4, e), []);
    assert [d, e][1..] == [e] && Run(w, s3, [d, e]) == Run(w, s4, [e]);
    assert [c, d, e][1..] == [d, e] && Run(w, s2, [c, d, e]) == Run(w, s3, [d, e]);
    assert [b, c, d, e][1..] == [c, d, e] && [a, b, c, d, e][1..] == [b, c, d, e];
  }

  lemma {:induction false} RunConcat(w: World, s: Submission, a: seq<Event>, b: seq<Event>)
    ensures Run(w, s, a + b) == Run(w, Run(w, s, a), b)
    decreases a
  {
    hide Next;
    if a == [] {
      assert a + b == b;
    } else {
      assert (a + b)[0] == a[0] && (a + b)[1..] == a[1..] + b;
      RunConcat(w, Next(w, s, a[0]), a[1..], b);
    }
  }

  /** One more event at the end of a run. */
  lemma RunOneMore(w: World, s: Submission, es: seq<Event>, e: Event)
    ensures Run(w, s, es + [e]) == Next(w, Run(w, s, es), e)
  {
    hide Next;
    RunConcat(w, s, es, [e]);
    var t := Run(w, s, es);
    assert [e][1..] == [] && Run(w, t, [e]) == Run(w, Next(w, t, e), []);
  }

  // ------------------------------------------------------------ how runs end

  /** Each way for a request to end, and what has arrived by then. */
  ghost predicate EndsInOrder(w: World, s: Submission) {
    && (s.phase.Waiting? ==> s.received == "")
    && (s.phase.Ended? ==>
          || s.phase.outcome == Escaped
          || s.phase.outcome == OutcomeOf(w.parse, s.received)
          || (s.phase.outcome == StreamError(false) && s.received == ""))
  }

  lemma {:induction false} RunEndsInOrder(w: World, s: Submission, es: seq<Event>)
    requires EndsInOrder(w, s)
    ensures EndsInOrder(w, Run(w, s, es))
    decreases es
  {
    hide OutcomeOf;
    if es != [] {
      RunEndsInOrder(w, Next(w, s, es[0]), es[1..]);
    }
  }

  /** A run that resolves, or fails after the start, has read the text that makes the stream do so. */
  lemma EndedMeansRead(w: World, es: seq<Event>)
    ensures var s := Run(w, SUBMITTED, es);
      && (s.phase == Ended(StreamError(true)) ==> OutcomeOf(w.parse, s.received) == StreamError(true))
      && (forall result :: s.phase == Ended(Resolved(result)) ==> OutcomeOf(w.parse, s.received) == Resolved(result))
  {
    hide OutcomeOf, Run;
    RunEndsInOrder(w, SUBMITTED, es);
  }

  /** A request that fails or breaks off escapes; a response that is no stream, and only that, lets the POST follow at once. */
  lemma ShortRuns(w: World, text: string)
    ensures Run(w, SUBMITTED, [FetchFails, Fallback]) == Submission(Ended(Escaped), "", "", 0, 0, 0)
    ensures Run(w, SUBMITTED, [Refused, Fallback]) == Submission(Posted, "", "", 0, 1, 0)
    ensures Run(w, SUBMITTED, [Opened, ServerWrites(text), Delivered(|text|), StreamLost, Fallback])
         == Submission(Ended(Escaped), text, text, 0, 0, 0)
  {
    hide Run, EventDelivered, OutcomeOf;
    RunTwo(w, SUBMITTED, FetchFails, Fallback);
    RunTwo(w, SUBMITTED, Refused, Fallback);
    RunFive(w, SUBMITTED, Opened, ServerWrites(text), Delivered(|text|), StreamLost, Fallback);
    assert "" + text == text && text[..|text|] == text;
  }

  /** Any text can be delivered in full, and then the call ends as the text says. */
  lemma FullRun(w: World, text: string)
    ensures Run(w, SUBMITTED, [Opened, ServerWrites(text), Delivered(|text|), StreamEnds])
         == Submission(Ended(OutcomeOf(w.parse, text)), text, text, 0, 0, 0)
  {
    hide Run, EventDelivered, OutcomeOf;
    RunFour(w, SUBMITTED, Opened, ServerWrites(text), Delivered(|text|), StreamEnds);
    assert "" + text == text && text[..|text|] == text;
  }

  lemma RunTwo(w: World, s: Submission, a: Event, b: Event)
    ensures Run(w, s, [a, b]) == Next(w, Next(w, s, a), b)
  {
    hide Next;
    var s1 := Next(w, s, a);
    assert [a, b][1..] == [b] && [b][1..] == [];
    assert Run(w, s, [a, b]) == Run(w, s1, [b]);
    assert Run(w, s1, [b]) == Run(w, Next(w, s1, b), []);
  }

  lemma RunFour(w: World, s: Submission, a: Event, b: Event, c: Event, d: Event)
    ensures Run(w, s, [a, b, c, d]) == Next(w, Next(w, Next(w, Next(w, s, a), b), c), d)
  {
    hide Next, Run;
    RunTwo(w, s, a, b);
    RunTwo(w, Next(w, Next(w, s, a), b), c, d);
    RunConcat(w, s, [a, b], [c, d]);
    assert [a, b] + [c, d] == [a, b, c, d];
  }

  // -------------------------------------------------------- the agent's session

  /**
   `sendMessage`: blank text and text sent while a message is being processed are ignored.  The
   server may go on working for a submission the client has given up on.
   */
  datatype Session = Session(loading: bool, current: nat, submissions: seq<Submission>)

  datatype Action =
    | Send(text: string)
    | Progress(k: nat, e: Event)    // something happens to submission k
    | Finish                        // the finally block of the message being processed

  /** Whether the client has nothing more to do for a submission: the fallback, if due, has been sent. */
  predicate ClientDone(s: Submission) {
    s.phase.Posted? || (s.phase.Ended? && s.phase != Ended(StreamError(false)))
  }

  function Act(w: World, c: Session, a: Action): Session {
    match a
    case Send(text) =>
      if Trim(text) == "" || c.loading then c else Session(true, |c.submissions|, c.submissions + [SUBMITTED])
    case Progress(k, e) =>
      if k < |c.submissions| then c.(submissions := c.submissions[k := Next(w, c.submissions[k], e)]) else c
    case Finish =>
      if c.loading && c.current < |c.submissions| && ClientDone(c.submissions[c.current]) then c.(loading := false) else c
  }

  function Session0(): Session {
    Session(false, 0, [])
  }

  function RunSession(w: World, c: Session, actions: seq<Action>): Session
    decreases actions
  {
    if actions == [] then c else RunSession(w, Act(w, c, actions[0]), actions[1..])
  }

  ghost function TotalExecutions(ss: seq<Submission>): nat {
    if ss == [] then 0 else TotalExecutions(ss[..|ss| - 1]) + Executions(ss[|ss| - 1])
  }

  /** Only the message being processed can still have requests to send. */
  ghost predicate SessionInv(w: World, c: Session) {
    && (c.loading ==> c.current < |c.submissions|)
    && (forall k :: 0 <= k < |c.submissions| ==> Inv(w, c.submissions[k]))
    && (forall k :: 0 <= k < |c.submissions| && !ClientDone(c.submissions[k]) ==> c.loading && k == c.current)
  }

  lemma ActKeepsInv(w: World, c: Session, a: Action)
    requires SessionInv(w, c)
    ensures SessionInv(w, Act(w, c, a))
  {
    hide Inv, Next;
    match a
    case Progress(k, e) =>
      if k < |c.submissions| {
        NextKeepsInv(w, c.submissions[k], e);
        DoneStays(w, c.submissions[k], e);
      }
    case Send(text) =>
      SubmittedInv(w);
    case Finish =>
  }

  lemma SubmittedInv(w: World)
    ensures Inv(w, SUBMITTED)
  {
    NothingDelivered(w);
  }

  lemma DoneStays(w: World, s: Submission, e: Event)
    ensures ClientDone(s) ==> ClientDone(Next(w, s, e))
  {
  }

  lemma {:induction false} RunSessionKeepsInv(w: World, c: Session, actions: seq<Action>)
    requires SessionInv(w, c)
    ensures SessionInv(w, RunSession(w, c, actions))
    decreases actions
  {
    hide SessionInv, Act;
    if actions != [] {
      ActKeepsInv(w, c, actions[0]);
      RunSessionKeepsInv(w, Act(w, c, actions[0]), actions[1..]);
    }
  }

  lemma {:induction false} ExecutionsBounded(w: World, ss: seq<Submission>)
    requires !w.eager && forall k :: 0 <= k < |ss| ==> Inv(w, ss[k])
    ensures TotalExecutions(ss) <= |ss|
    decreases |ss|
  {
    if ss != [] {
      ExecutionsBounded(w, ss[..|ss| - 1]);
    }
  }

  /** At most one accepted message is in flight, and the commands executed never outnumber the messages accepted. */
  lemma SessionIsSafe(w: World, actions: seq<Action>)
    ensures var c := RunSession(w, Session0(), actions);
      && (forall j, k :: 0 <= j < k < |c.submissions| ==> ClientDone(c.submissions[j]) || ClientDone(c.submissions[k]))
      && (!w.eager ==> TotalExecutions(c.submissions) <= |c.submissions|)
  {
    RunSessionKeepsInv(w, Session0(), actions);
    var c := RunSession(w, Session0(), actions);
    if !w.eager {
      ExecutionsBounded(w, c.submissions);
    }
  }
}
