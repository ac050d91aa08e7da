/**
 The two callers of the streaming client: `handleSubmit` of
 apps/web/components/command-bar.tsx and `sendMessage` of
 apps/web/components/executive-agent-context.tsx.  How the stream and the fallback POST
 end are parameters; the state changes are those of the submission protocol.
 */
module CommandUi {
  import opened Common
  import opened CommandStream
  import P = CommandProtocol

  // ------------------------------------------------------------- command bar

  /** What the command bar shows: nothing, a result, "your command started", or "nothing ran". */
  datatype Shown = Nothing | Reply(value: Json) | Dropped | Unreachable

  /** `post` is the parsed body of the fallback POST, or None when that request or its parsing throws. */
  function ShownFor(stream: Outcome, post: Option<Json>, unwrap: Json -> Json): Shown {
    match stream
    case Resolved(result) => Reply(unwrap(result))
    case StreamError(true) => Dropped
    case StreamError(false) => if post.Some? then Reply(unwrap(unwrap(post.value))) else Unreachable
    case Escaped => Unreachable
  }

  const HISTORY_MAX := 10

  class CommandBar {
    var isProcessing: bool
    var result: Shown
    var history: seq<Json>
    var postsSent: nat

    constructor ()
      ensures !isProcessing && result == Nothing && history == [] && postsSent == 0
    {
      isProcessing, result, history, postsSent := false, Nothing, [], 0;
    }

    /** The POST is sent exactly when the stream failed before its pipeline started. */
    method HandleSubmit(stream: Outcome, post: Option<Json>, unwrap: Json -> Json, worthKeeping: Json -> bool)
      modifies this
      ensures !isProcessing && result == ShownFor(stream, post, unwrap)
      ensures postsSent == old(postsSent) + if stream == StreamError(false) then 1 else 0
      ensures stream == StreamError(true) ==> result == Dropped
      ensures stream == Escaped || (stream == StreamError(false) && post == None) ==> result == Unreachable
      ensures stream.Resolved? ==> result == Reply(unwrap(stream.result))
      ensures stream == StreamError(false) && post.Some? ==> result == Reply(unwrap(unwrap(post.value)))
      ensures history == if result.Reply? && worthKeeping(result.value)
        then [result.value] + old(history)[..if |old(history)| < 10 then |old(history)| else 9]
        else old(history)
    {
      isProcessing, result := true, Nothing;
      var data := Null;
      var threw := false;
      match stream {
        case Resolved(value) =>
          data := value;
        case StreamError(started) =>
          if started {
            threw := true;
          } else {
            postsSent := postsSent + 1;
            if post.Some? {
              data := unwrap(post.value);
            } else {
              threw := true;
            }
          }
        case Escaped =>
          threw := true;
      }
      if threw {
        // only an error of the stream can say that the pipeline had started
        result := if stream == StreamError(true) then Dropped else Unreachable;
      } else {
        var newResult := unwrap(data);
        result := Reply(newResult);
        if worthKeeping(newResult) {
          var longer := [newResult] + history;
          history := if |longer| > HISTORY_MAX then longer[..HISTORY_MAX] else longer;
        }
      }
      isProcessing := false;
    }
  }

  /** What the bar shows of a submission that is over for the client; before that there is nothing to show. */
  function ShownIn(s: P.Submission, post: Option<Json>, unwrap: Json -> Json): Option<Shown> {
    match s.phase
    case Ended(outcome) => if outcome == StreamError(false) then None else Some(ShownFor(outcome, post, unwrap))
    case Posted => Some(ShownFor(StreamError(false), post, unwrap))
    case _ => None
  }

  /** What every run shows: one message for each way in which a request and its POST can end. */
  lemma ShownExactly(w: P.World, es: seq<P.Event>, post: Option<Json>, unwrap: Json -> Json)
    ensures var s := P.Run(w, P.SUBMITTED, es);
      var shown := ShownIn(s, post, unwrap);
      && (shown == Some(Dropped) <==> s.phase == P.Ended(StreamError(true)))
      && (shown == Some(Unreachable) <==> s.phase == P.Ended(Escaped) || (s.phase == P.Posted && post == None))
      && (shown == None <==> s.phase in {P.Waiting, P.Reading, P.Ended(StreamError(false))})
      && (forall result :: s.phase == P.Ended(Resolved(result)) ==> shown == Some(Reply(unwrap(result))))
      && (forall body :: s.phase == P.Posted && post == Some(body) ==> shown == Some(Reply(unwrap(unwrap(body)))))
  {
  }

  /**
   What is shown when the reader reports the end of the stream, by the text received.  Unless a
   line threw or the call resolved, one event is enough for "your command started".
   */
  lemma ShownAtStreamEnd(w: P.World, es: seq<P.Event>, post: Option<Json>, unwrap: Json -> Json)
    requires P.Run(w, P.SUBMITTED, es).phase.Reading?
    ensures var s := P.Run(w, P.SUBMITTED, es + [P.StreamEnds]);
      var lines := Lines(s.received);
      var shown := ShownIn(s, post, unwrap);
      && s.received == P.Run(w, P.SUBMITTED, es).received
      && (shown == Some(Unreachable) <==> SomeCrash(w.parse, lines))
      && (shown == None <==> !SomeCrash(w.parse, lines) && !SomeEvent(w.parse, lines))
      && (shown == Some(Dropped) <==> !SomeCrash(w.parse, lines) && SomeEvent(w.parse, lines) && !HasResult(w.parse, lines))
      && (!SomeCrash(w.parse, lines) && HasResult(w.parse, lines) ==>
            shown == Some(Reply(unwrap(LastDone(w.parse, lines).value))))
  {
    hide P.Run, Lines, HasResult, LastDone, SomeCrash, SomeEvent, OutcomeOf;
    P.RunOneMore(w, P.SUBMITTED, es, P.StreamEnds);
    var text := P.Run(w, P.SUBMITTED, es).received;
    OutcomeCases(w.parse, text);
    RetryableMeansNoEvent(w.parse, text);
  }

  /** The run `es`, with this text received and so many POSTs sent, ends in this message. */
  ghost predicate Shows(w: P.World, es: seq<P.Event>, post: Option<Json>, unwrap: Json -> Json,
                        received: string, posts: nat, shown: Shown)
  {
    var s := P.Run(w, P.SUBMITTED, es);
    s.received == received && s.posts == posts && ShownIn(s, post, unwrap) == Some(shown)
  }

  /** "Nothing was re-run" is true of every run: a drop after the start sends no second request. */
  lemma DroppedMeansNoPost(w: P.World, es: seq<P.Event>, post: Option<Json>, unwrap: Json -> Json)
    ensures var s := P.Run(w, P.SUBMITTED, es);
      ShownIn(s, post, unwrap) == Some(Dropped) ==> s.posts == 0 && P.Executions(s) <= 1
  {
    hide P.Run, P.EventDelivered;
    P.NothingDelivered(w);
    P.RunKeepsInv(w, P.SUBMITTED, es);
  }

  /** Every run that ends in "nothing ran", with this text received and so many POSTs sent, executed nothing. */
  ghost predicate NothingRan(w: P.World, received: string, posts: nat, unwrap: Json -> Json) {
    forall es: seq<P.Event>, post: Option<Json> ::
      Shows(w, es, post, unwrap, received, posts, Unreachable) ==> P.Executions(P.Run(w, P.SUBMITTED, es)) == 0
  }

  /** Without eagerness, POST and delivered event, nothing can have run. */
  lemma NothingRanHolds(w: P.World, es: seq<P.Event>, post: Option<Json>, unwrap: Json -> Json, received: string)
    requires !w.eager && !P.EventDelivered(w, received) && Shows(w, es, post, unwrap, received, 0, Unreachable)
    ensures P.Executions(P.Run(w, P.SUBMITTED, es)) == 0
  {
    hide P.Run, P.EventDelivered;
    P.NothingDelivered(w);
    P.RunKeepsInv(w, P.SUBMITTED, es);
  }

  /** In every other case the server may still have done the work: one more event, unseen by the client, shows it. */
  lemma NothingRanFails(w: P.World, es: seq<P.Event>, post: Option<Json>, unwrap: Json -> Json, received: string, posts: nat)
    returns (longer: seq<P.Event>)
    requires Shows(w, es, post, unwrap, received, posts, Unreachable)
    requires w.eager || posts > 0 || P.EventDelivered(w, received)
    ensures Shows(w, longer, post, unwrap, received, posts, Unreachable)
    ensures P.Executions(P.Run(w, P.SUBMITTED, longer)) > 0
  {
    hide P.Run, P.EventDelivered;
    var e := if posts > 0 then P.PostWorks else P.PipelineWorks;
    longer := es + [e];
    P.RunOneMore(w, P.SUBMITTED, es, e);
  }

  /**
   "Nothing ran" is shown when the stream's request or reader threw, or the POST did.  Of the runs
   that show it with a given text received and a given number of POSTs sent, none executed the
   command exactly if the server is not eager, no POST was sent and no event had been delivered.
   */
  lemma NothingRanExactly(w: P.World, es: seq<P.Event>, post: Option<Json>, unwrap: Json -> Json, received: string, posts: nat)
    requires Shows(w, es, post, unwrap, received, posts, Unreachable)
    ensures NothingRan(w, received, posts, unwrap) <==> !w.eager && posts == 0 && !P.EventDelivered(w, received)
  {
    hide Shows, P.Run, P.Executions, P.EventDelivered;
    if !w.eager && posts == 0 && !P.EventDelivered(w, received) {
      forall fs: seq<P.Event>, q: Option<Json> | Shows(w, fs, q, unwrap, received, posts, Unreachable)
        ensures P.Executions(P.Run(w, P.SUBMITTED, fs)) == 0
      {
        NothingRanHolds(w, fs, q, unwrap, received);
      }
    } else {
      var longer := NothingRanFails(w, es, post, unwrap, received, posts);
    }
  }

  /** Such runs exist: a reader that rejects after any text at all, and a POST whose reply is lost. */
  lemma NothingRanIsShown(w: P.World, text: string, unwrap: Json -> Json)
    ensures Shows(w, [P.Opened, P.ServerWrites(text), P.Delivered(|text|), P.StreamLost], None, unwrap, text, 0, Unreachable)
    ensures Shows(w, [P.Refused, P.Fallback], None, unwrap, "", 1, Unreachable)
  {
    hide P.Run, P.EventDelivered, OutcomeOf;
    P.RunTwo(w, P.SUBMITTED, P.Refused, P.Fallback);
    P.RunFour(w, P.SUBMITTED, P.Opened, P.ServerWrites(text), P.Delivered(|text|), P.StreamLost);
    assert "" + text == text && text[..|text|] == text;
  }

  /** For every text with a delivered event, a reader that rejects shows it although the command ran. */
  lemma NothingRanIsWrongAfterEvent(w: P.World, text: string, unwrap: Json -> Json) returns (es: seq<P.Event>)
    requires P.EventDelivered(w, text)
    ensures Shows(w, es, None, unwrap, text, 0, Unreachable) && P.Executions(P.Run(w, P.SUBMITTED, es)) == 1
  {
    hide P.Run, P.EventDelivered, Shows;
    NothingRanIsShown(w, text, unwrap);
    var seen := [P.Opened, P.ServerWrites(text), P.Delivered(|text|), P.StreamLost];
    es := NothingRanFails(w, seen, None, unwrap, text, 0);
    P.NothingDelivered(w);
    P.RunKeepsInv(w, P.SUBMITTED, es);
    ShownRuns(w, es, unwrap, text);
  }

  lemma ShownRuns(w: P.World, es: seq<P.Event>, unwrap: Json -> Json, text: string)
    requires Shows(w, es, None, unwrap, text, 0, Unreachable) && P.Inv(w, P.Run(w, P.SUBMITTED, es))
    ensures P.Executions(P.Run(w, P.SUBMITTED, es)) <= 1
  {
  }

  // -------------------------------------------------------- executive agent

  datatype Message = User(text: string) | Assistant(text: string) | DroppedNote | ErrorNote

  /** What the assistant says at the end of a submission. */
  function FinalNote(phase: P.Phase, reply: Option<string>): Message {
    if phase == P.Ended(StreamError(true)) then DroppedNote
    else if phase.Ended? && phase.outcome.Escaped? then ErrorNote
    else if reply.Some? then Assistant(reply.value)
    else ErrorNote
  }

  /** What every run that is over for the client leaves in the thread; "I did not run it again" is true. */
  lemma NoteExactly(w: P.World, es: seq<P.Event>, reply: Option<string>)
    requires P.ClientDone(P.Run(w, P.SUBMITTED, es))
    ensures var s := P.Run(w, P.SUBMITTED, es);
      var note := FinalNote(s.phase, reply);
      && (note == DroppedNote <==> s.phase == P.Ended(StreamError(true)))
      && (note == DroppedNote ==> s.posts == 0 && OutcomeOf(w.parse, s.received) == StreamError(true))
      && (note == ErrorNote <==> s.phase == P.Ended(Escaped) || (s.phase != P.Ended(StreamError(true)) && reply == None))
      && (forall text :: note == Assistant(text) <==> (s.phase == P.Posted || (s.phase.Ended? && s.phase.outcome.Resolved?)) && reply == Some(text))
  {
    hide P.Run, P.EventDelivered, OutcomeOf;
    P.NothingDelivered(w);
    P.RunKeepsInv(w, P.SUBMITTED, es);
    P.EndedMeansRead(w, es);
  }

  class ExecutiveAgent {
    const world: P.World
    var loadingRef: bool
    var messages: seq<Message>
    var current: nat
    var submissions: seq<P.Submission>

    function View(): P.Session
      reads this
    {
      P.Session(loadingRef, current, submissions)
    }

    constructor (w: P.World)
      ensures world == w && View() == P.Session0() && messages == []
      ensures P.SessionInv(world, View())
    {
      world := w;
      loadingRef, messages, current, submissions := false, [], 0, [];
    }

    /** `sendMessage` up to the streamed request. */
    method SendMessage(text: string) returns (accepted: bool)
      requires P.SessionInv(world, View())
      modifies this
      ensures accepted <==> Trim(text) != "" && !old(loadingRef)
      ensures View() == P.Act(world, old(View()), P.Send(text)) && P.SessionInv(world, View())
      ensures messages == old(messages) + if accepted then [User(Trim(text))] else []
    {
      P.ActKeepsInv(world, View(), P.Send(text));
      if |Trim(text)| == 0 || loadingRef {
        return false;
      }
      loadingRef := true;
      messages := messages + [User(Trim(text))];
      current := |submissions|;
      submissions := submissions + [P.SUBMITTED];
      accepted := true;
    }

    /** What happens to a submission while its request is under way; the POST is the client's own doing. */
    method OnEvent(k: nat, e: P.Event)
      requires P.SessionInv(world, View()) && k < |submissions| && e != P.Fallback
      modifies this`submissions
      ensures View() == P.Act(world, old(View()), P.Progress(k, e)) && P.SessionInv(world, View())
      ensures forall j :: 0 <= j < |submissions| && j != k ==> submissions[j] == old(submissions)[j]
    {
      P.ActKeepsInv(world, View(), P.Progress(k, e));
      submissions := submissions[k := P.Next(world, submissions[k], e)];
    }

    /** The `catch` around the stream: the POST, exactly when the pipeline had not started. */
    method OnStreamEnded() returns (posted: bool)
      requires P.SessionInv(world, View()) && loadingRef && submissions[current].phase.Ended?
      modifies this`submissions
      ensures posted <==> old(submissions)[current].phase == P.Ended(StreamError(false))
      ensures View() == P.Act(world, old(View()), P.Progress(current, P.Fallback)) && P.SessionInv(world, View())
      ensures P.ClientDone(submissions[current])
    {
      P.ActKeepsInv(world, View(), P.Progress(current, P.Fallback));
      var s := submissions[current];
      posted := s.phase == P.Ended(StreamError(false));
      if posted {
        submissions := submissions[current := s.(phase := P.Posted, posts := s.posts + 1)];
      }
    }

    /** The reply or the error message, and the `finally` that lets the next message in. */
    method Settle(reply: Option<string>)
      requires P.SessionInv(world, View()) && loadingRef && P.ClientDone(submissions[current])
      modifies this
      ensures View() == P.Act(world, old(View()), P.Finish) && !loadingRef && P.SessionInv(world, View())
      ensures messages == old(messages) + [FinalNote(old(submissions)[current].phase, reply)]
      ensures old(submissions)[current].phase == P.Ended(StreamError(true)) ==> messages == old(messages) + [DroppedNote]
      ensures old(submissions)[current].phase == P.Ended(Escaped) ==> messages == old(messages) + [ErrorNote]
    {
      P.ActKeepsInv(world, View(), P.Finish);
      var phase := submissions[current].phase;
      var failed := reply.None? || (phase.Ended? && !phase.outcome.Resolved?);
      if failed {
        var dropped := phase == P.Ended(StreamError(true));
        messages := messages + [if dropped then DroppedNote else ErrorNote];
      } else {
        messages := messages + [Assistant(reply.value)];
      }
      loadingRef := false;
    }
  }
}
