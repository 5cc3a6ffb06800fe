/** The React front end (src/App.tsx): one session state record and the
    handlers that update it. Every handler is a transition of the record on
    an event; what the network answered and what `JSON.parse` made of the
    typed text are part of the event, because they come from outside. */
module Session {
  import opened Json

  const Questions: seq<string> := [
    "What's your go-to outfit for a casual day?",
    "How would you describe your ideal evening wear?",
    "What's your favorite accessory?",
    "Which color palette do you prefer?",
    "How do you feel about following fashion trends?"
  ]

  /** The values of the radio buttons under every quiz question. */
  const QuizOptions: set<string> := {"classic", "bohemian", "minimalist", "preppy", "edgy", "romantic"}

  /** The values of the body-type select. */
  const BodyTypes: set<string> := {"hourglass", "pear", "apple", "rectangle", "inverted triangle"}

  const NewDataError := "Error submitting new data. Please check the format and try again."

  /** The component's state hooks. */
  datatype SessionState = SessionState(
    occasion: string,
    preferredColor: string,
    bodyType: string,
    recommendation: string,
    trends: seq<string>,
    quizOpen: bool,
    quizAnswers: seq<string>,
    quizResult: string,
    newDataOpen: bool,
    newData: string,
    snackbarOpen: bool,
    snackbarMessage: string)

  /** The /api/style_quiz answer, with the description as the template
      literal renders it. */
  datatype QuizReply = QuizReply(dominantStyle: string, description: string)

  /** What the user does. A `reply` of None is a request that failed (axios
      throws on a network error or an error status); `parsed` of None is a
      text that `JSON.parse` refuses. */
  datatype Event =
    | OccasionTyped(text: string)
    | ColorTyped(text: string)
    | BodyTypeSelected(choice: string)
    | NewDataTyped(text: string)
    | AnswerSelected(index: nat, value: string)
    | QuizOpened
    | QuizClosed
    | NewDataOpened
    | NewDataClosed
    | SnackbarClosed
    | RecommendationRequested(message: Option<string>)
    | TrendsRequested(currentTrends: Option<seq<string>>)
    | QuizSubmitted(reply: Option<QuizReply>)
    | NewDataSubmitted(parsed: Option<Value>, trainMessage: Option<string>)

  /** The request a handler sends to the backend. */
  datatype Request =
    | NoRequest
    | PostRecommendation(occasion: string, preferredColor: string, bodyType: string)
    | GetTrends
    | PostQuiz(answers: seq<string>)
    | PostTrainAi(newData: Value)

  /** The state of a freshly mounted component: empty fields, closed
      dialogs and one empty answer per question. */
  function Initial(): (s: SessionState)
    ensures |s.quizAnswers| == |Questions| == 5
    ensures forall i :: 0 <= i < |s.quizAnswers| ==> s.quizAnswers[i] == ""
    ensures !s.quizOpen && !s.newDataOpen && !s.snackbarOpen
    ensures s.recommendation == "" && s.trends == [] && s.quizResult == ""
    ensures Valid(s)
  {
    SessionState("", "", "", "", [], false, seq(|Questions|, _ => ""), "", false, "", false, "")
  }

  /** The text the quiz result card shows. */
  function QuizResultText(reply: QuizReply): (t: string)
    ensures var lead := "Your dominant style is " + reply.dominantStyle + ": ";
      |lead| <= |t| && t[..|lead|] == lead && t[|lead|..] == reply.description
  {
    "Your dominant style is " + reply.dominantStyle + ": " + reply.description
  }

  /** The only answer events the quiz dialog produces: one of its five
      questions, one of its options; and the only body types the select
      offers. */
  predicate Allowed(e: Event)
  {
    match e
    case AnswerSelected(index, value) => index < |Questions| && value in QuizOptions
    case BodyTypeSelected(choice) => choice in BodyTypes
    case _ => true
  }

  /** The state the handlers maintain: one answer slot per question, each
      empty or an option, and a body type that is empty or offered. */
  predicate Valid(s: SessionState)
  {
    && |s.quizAnswers| == |Questions|
    && (forall i :: 0 <= i < |s.quizAnswers| ==> s.quizAnswers[i] == "" || s.quizAnswers[i] in QuizOptions)
    && (s.bodyType == "" || s.bodyType in BodyTypes)
  }

  /** The state after the handler of `e` has run to completion. */
  function Next(s: SessionState, e: Event): (r: SessionState)
    requires e.AnswerSelected? ==> e.index < |s.quizAnswers|
    ensures |r.quizAnswers| == |s.quizAnswers|
    ensures e.AnswerSelected? ==> r.quizAnswers[e.index] == e.value
    ensures !e.AnswerSelected? ==> r.quizAnswers == s.quizAnswers
  {
    match e
    case OccasionTyped(text) => s.(occasion := text)
    case ColorTyped(text) => s.(preferredColor := text)
    case BodyTypeSelected(choice) => s.(bodyType := choice)
    case NewDataTyped(text) => s.(newData := text)
    case AnswerSelected(index, value) => s.(quizAnswers := s.quizAnswers[index := value])
    case QuizOpened => s.(quizOpen := true)
    case QuizClosed => s.(quizOpen := false)
    case NewDataOpened => s.(newDataOpen := true)
    case NewDataClosed => s.(newDataOpen := false)
    case SnackbarClosed => s.(snackbarOpen := false)
    case RecommendationRequested(message) =>
      if message.Some? then s.(recommendation := message.value) else s
    case TrendsRequested(currentTrends) =>
      if currentTrends.Some? then s.(trends := currentTrends.value) else s
    case QuizSubmitted(reply) =>
      if reply.Some? then s.(quizResult := QuizResultText(reply.value), quizOpen := false) else s
    case NewDataSubmitted(parsed, trainMessage) =>
      if parsed.Some? && trainMessage.Some? then
        s.(snackbarMessage := trainMessage.value, snackbarOpen := true, newDataOpen := false)
      else s.(snackbarMessage := NewDataError, snackbarOpen := true)
  }

  /** The request the handler of `e` sends from state `s`. */
  function Issued(s: SessionState, e: Event): (r: Request)
    ensures r != NoRequest <==>
      e.RecommendationRequested? || e.TrendsRequested? || e.QuizSubmitted? || (e.NewDataSubmitted? && e.parsed.Some?)
    ensures r.PostQuiz? ==> r.answers == s.quizAnswers
    ensures r.PostTrainAi? ==> e.NewDataSubmitted? && r.newData == e.parsed.value
  {
    match e
    case RecommendationRequested(_) => PostRecommendation(s.occasion, s.preferredColor, s.bodyType)
    case TrendsRequested(_) => GetTrends
    case QuizSubmitted(_) => PostQuiz(s.quizAnswers)
    case NewDataSubmitted(parsed, _) => if parsed.Some? then PostTrainAi(parsed.value) else NoRequest
    case _ => NoRequest
  }

  /** Selecting an answer changes that slot only. */
  lemma AnswerChangesOneSlot(s: SessionState, index: nat, value: string)
    requires index < |s.quizAnswers|
    ensures var t := Next(s, AnswerSelected(index, value));
      && |t.quizAnswers| == |s.quizAnswers|
      && t.quizAnswers[index] == value
      && (forall j :: 0 <= j < |s.quizAnswers| && j != index ==> t.quizAnswers[j] == s.quizAnswers[j])
      && t.(quizAnswers := s.quizAnswers) == s
  {
  }

  /** An open or close action sets its own flag and nothing else. */
  lemma TogglesSetOnlyTheirFlag(s: SessionState)
    ensures Next(s, QuizOpened).quizOpen && Next(s, QuizOpened).(quizOpen := s.quizOpen) == s
    ensures !Next(s, QuizClosed).quizOpen && Next(s, QuizClosed).(quizOpen := s.quizOpen) == s
    ensures Next(s, NewDataOpened).newDataOpen && Next(s, NewDataOpened).(newDataOpen := s.newDataOpen) == s
    ensures !Next(s, NewDataClosed).newDataOpen && Next(s, NewDataClosed).(newDataOpen := s.newDataOpen) == s
    ensures !Next(s, SnackbarClosed).snackbarOpen && Next(s, SnackbarClosed).(snackbarOpen := s.snackbarOpen) == s
  {
  }

  /** A successful quiz submit posts the answers, shows the result text and
      closes the dialog; a failed one changes nothing. */
  lemma QuizSubmitOutcome(s: SessionState, reply: Option<QuizReply>)
    ensures Issued(s, QuizSubmitted(reply)) == PostQuiz(s.quizAnswers)
    ensures reply.Some? ==> var t := Next(s, QuizSubmitted(reply));
      && t.quizResult == QuizResultText(reply.value) && !t.quizOpen
      && t.(quizResult := s.quizResult, quizOpen := s.quizOpen) == s
    ensures reply.None? ==> Next(s, QuizSubmitted(reply)) == s
  {
  }

  /** Text that does not parse sends nothing and opens the snackbar with the
      fixed error message, whatever the server would have said; the dialog
      stays as it was. */
  lemma UnparsableNewData(s: SessionState, trainMessage: Option<string>)
    ensures Issued(s, NewDataSubmitted(None, trainMessage)) == NoRequest
    ensures var t := Next(s, NewDataSubmitted(None, trainMessage));
      && t.snackbarOpen && t.snackbarMessage == NewDataError
      && t.(snackbarOpen := s.snackbarOpen, snackbarMessage := s.snackbarMessage) == s
  {
  }

  /** Parsed text is posted as it parsed; on success the snackbar shows the
      server's message and the dialog closes; a failed post shows the error
      message and leaves the dialog open. */
  lemma ParsedNewData(s: SessionState, parsed: Value, trainMessage: Option<string>)
    ensures Issued(s, NewDataSubmitted(Some(parsed), trainMessage)) == PostTrainAi(parsed)
    ensures trainMessage.Some? ==> var t := Next(s, NewDataSubmitted(Some(parsed), trainMessage));
      && t.snackbarOpen && t.snackbarMessage == trainMessage.value && !t.newDataOpen
      && t.(snackbarOpen := s.snackbarOpen, snackbarMessage := s.snackbarMessage, newDataOpen := s.newDataOpen) == s
    ensures trainMessage.None? ==>
      Next(s, NewDataSubmitted(Some(parsed), trainMessage)) == Next(s, NewDataSubmitted(None, trainMessage))
  {
  }

  /** A successful recommendation or trend call replaces exactly its field
      with what the server sent; a failed one changes nothing. */
  lemma FetchOutcomes(s: SessionState, message: Option<string>, currentTrends: Option<seq<string>>)
    ensures Issued(s, RecommendationRequested(message)) == PostRecommendation(s.occasion, s.preferredColor, s.bodyType)
    ensures Issued(s, TrendsRequested(currentTrends)) == GetTrends
    ensures message.Some? ==> var t := Next(s, RecommendationRequested(message));
      t.recommendation == message.value && t.(recommendation := s.recommendation) == s
    ensures message.None? ==> Next(s, RecommendationRequested(message)) == s
    ensures currentTrends.Some? ==> var t := Next(s, TrendsRequested(currentTrends));
      t.trends == currentTrends.value && t.(trends := s.trends) == s
    ensures currentTrends.None? ==> Next(s, TrendsRequested(currentTrends)) == s
  {
  }

  /** Every event the page can produce keeps the state valid. */
  lemma NextPreservesValid(s: SessionState, e: Event)
    requires Valid(s) && Allowed(e)
    ensures (e.AnswerSelected? ==> e.index < |s.quizAnswers|) && Valid(Next(s, e))
  {
    if e.AnswerSelected? {
      var t := Next(s, e);
      forall i | 0 <= i < |t.quizAnswers|
        ensures t.quizAnswers[i] == "" || t.quizAnswers[i] in QuizOptions
      {
        if i != e.index {
          assert t.quizAnswers[i] == s.quizAnswers[i];
        }
      }
    }
  }

  /** The state after a run of events the page can produce, in order. */
  function Run(s: SessionState, events: seq<Event>): (t: SessionState)
    requires Valid(s) && forall i :: 0 <= i < |events| ==> Allowed(events[i])
    ensures Valid(t)
    decreases |events|
  {
    if |events| == 0 then s
    else
      var n := |events| - 1;
      var before := Run(s, events[..n]);
      NextPreservesValid(before, events[n]);
      Next(before, events[n])
  }

  /** A recommendation call that the server answered. */
  predicate RecommendationReplied(e: Event)
  {
    e.RecommendationRequested? && e.message.Some?
  }

  /** Only an answered recommendation call changes the recommendation. */
  lemma RecommendationStep(s: SessionState, e: Event)
    requires e.AnswerSelected? ==> e.index < |s.quizAnswers|
    ensures Next(s, e).recommendation == if RecommendationReplied(e) then e.message.value else s.recommendation
  {
  }

  /** Event j is the last recommendation call that the server answered. */
  predicate LastRecommendationReply(events: seq<Event>, j: int)
  {
    && 0 <= j < |events| && RecommendationReplied(events[j])
    && forall i :: j < i < |events| ==> !RecommendationReplied(events[i])
  }

  /** The recommendation shown is the message of the last answered
      recommendation call, or the one shown before when no call was
      answered. */
  lemma {:induction false} RecommendationIsLastReply(s: SessionState, events: seq<Event>)
    requires Valid(s) && forall i :: 0 <= i < |events| ==> Allowed(events[i])
    ensures (forall i :: 0 <= i < |events| ==> !RecommendationReplied(events[i]))
            ==> Run(s, events).recommendation == s.recommendation
    ensures (exists i :: 0 <= i < |events| && RecommendationReplied(events[i]))
            ==> exists j :: LastRecommendationReply(events, j)
                         && Run(s, events).recommendation == events[j].message.value
    decreases |events|
  {
    if |events| > 0 {
      var n := |events| - 1;
      var prefix := events[..n];
      assert forall i :: 0 <= i < n ==> prefix[i] == events[i];
      RecommendationIsLastReply(s, prefix);
      var before := Run(s, prefix);
      assert Run(s, events) == Next(before, events[n]);
      RecommendationStep(before, events[n]);
      if RecommendationReplied(events[n]) {
        assert LastRecommendationReply(events, n);
      } else if exists i :: 0 <= i < |events| && RecommendationReplied(events[i]) {
        var i :| 0 <= i < |events| && RecommendationReplied(events[i]);
        assert RecommendationReplied(prefix[i]);
        var j :| LastRecommendationReply(prefix, j) && before.recommendation == prefix[j].message.value;
        LastReplyStays(events, j);
      }
    }
  }

  /** An event that is not an answered recommendation call keeps the last
      answered one the last. */
  lemma LastReplyStays(events: seq<Event>, j: int)
    requires |events| > 0 && !RecommendationReplied(events[|events| - 1])
    requires LastRecommendationReply(events[..|events| - 1], j)
    ensures LastRecommendationReply(events, j) && events[j] == events[..|events| - 1][j]
  {
    var prefix := events[..|events| - 1];
    forall i | j < i < |events| ensures !RecommendationReplied(events[i]) {
      if i < |prefix| {
        assert events[i] == prefix[i];
      }
    }
  }

  /** Starting from a mounted component, a recommendation is shown only
      after a call that the server answered with exactly that message. */
  lemma RecommendationNeedsReply(events: seq<Event>)
    requires forall i :: 0 <= i < |events| ==> Allowed(events[i])
    ensures var shown := Run(Initial(), events).recommendation;
      shown != "" ==> exists j :: 0 <= j < |events| && events[j] == RecommendationRequested(Some(shown))
  {
    RecommendationIsLastReply(Initial(), events);
  }

  /** A trend call that the server answered. */
  predicate TrendsReplied(e: Event)
  {
    e.TrendsRequested? && e.currentTrends.Some?
  }

  /** A quiz submit that the server answered with a result whose card
      reads `text`. */
  predicate QuizRepliedWith(e: Event, text: string)
  {
    e.QuizSubmitted? && e.reply.Some? && QuizResultText(e.reply.value) == text
  }

  /** Only an answered trend call changes the trends, and only an answered
      quiz submit changes the quiz result. */
  lemma TrendsAndQuizStep(s: SessionState, e: Event)
    requires e.AnswerSelected? ==> e.index < |s.quizAnswers|
    ensures Next(s, e).trends == if TrendsReplied(e) then e.currentTrends.value else s.trends
    ensures e.QuizSubmitted? && e.reply.Some? ==> QuizRepliedWith(e, Next(s, e).quizResult)
    ensures !(e.QuizSubmitted? && e.reply.Some?) ==> Next(s, e).quizResult == s.quizResult
  {
  }

  /** The trends and the quiz result shown are each what they were before
      the run, or what some answered call of the run returned. */
  lemma {:induction false} TrendsAndQuizFromReplies(s: SessionState, events: seq<Event>)
    requires Valid(s) && forall i :: 0 <= i < |events| ==> Allowed(events[i])
    ensures var t := Run(s, events);
      t.trends == s.trends || exists j :: 0 <= j < |events| && events[j] == TrendsRequested(Some(t.trends))
    ensures var t := Run(s, events);
      t.quizResult == s.quizResult || exists j :: 0 <= j < |events| && QuizRepliedWith(events[j], t.quizResult)
    decreases |events|
  {
    if |events| > 0 {
      var n := |events| - 1;
      var prefix := events[..n];
      assert forall i :: 0 <= i < n ==> prefix[i] == events[i];
      TrendsAndQuizFromReplies(s, prefix);
      var before := Run(s, prefix);
      var t := Run(s, events);
      assert t == Next(before, events[n]);
      TrendsAndQuizStep(before, events[n]);
      if !TrendsReplied(events[n]) && t.trends != s.trends {
        var j :| 0 <= j < n && prefix[j] == TrendsRequested(Some(before.trends));
        assert events[j] == TrendsRequested(Some(t.trends));
      }
      if !(events[n].QuizSubmitted? && events[n].reply.Some?) && t.quizResult != s.quizResult {
        var j :| 0 <= j < n && QuizRepliedWith(prefix[j], before.quizResult);
        assert QuizRepliedWith(events[j], t.quizResult);
      }
    }
  }

  /** Starting from a mounted component, trends are shown only after a
      trend call the server answered with exactly those trends, and a quiz
      result only after a quiz submit whose reply renders to that text. */
  lemma TrendsAndQuizNeedReplies(events: seq<Event>)
    requires forall i :: 0 <= i < |events| ==> Allowed(events[i])
    ensures var t := Run(Initial(), events);
      t.trends != [] ==> exists j :: 0 <= j < |events| && events[j] == TrendsRequested(Some(t.trends))
    ensures var t := Run(Initial(), events);
      t.quizResult != "" ==> exists j :: (0 <= j < |events| && events[j].QuizSubmitted? && events[j].reply.Some?
                                          && QuizResultText(events[j].reply.value) == t.quizResult)
  {
    TrendsAndQuizFromReplies(Initial(), events);
  }

  /** The quiz answers change only by selecting answers: a run with no
      answer event leaves them as they were. */
  lemma {:induction false} AnswersNeedSelection(s: SessionState, events: seq<Event>)
    requires Valid(s) && forall i :: 0 <= i < |events| ==> Allowed(events[i])
    requires forall i :: 0 <= i < |events| ==> !events[i].AnswerSelected?
    ensures Run(s, events).quizAnswers == s.quizAnswers
    decreases |events|
  {
    if |events| > 0 {
      var n := |events| - 1;
      assert forall i :: 0 <= i < n ==> events[..n][i] == events[i];
      AnswersNeedSelection(s, events[..n]);
      var before := Run(s, events[..n]);
      assert Run(s, events) == Next(before, events[n]);
    }
  }

  /** The component, with one field per state hook. Each handler method
      runs the handler to completion with the outcome of its request given;
      the request it sends is its result. */
  class Page {
    var occasion: string
    var preferredColor: string
    var bodyType: string
    var recommendation: string
    var trends: seq<string>
    var quizOpen: bool
    var quizAnswers: seq<string>
    var quizResult: string
    var newDataOpen: bool
    var newData: string
    var snackbarOpen: bool
    var snackbarMessage: string

    function State(): SessionState
      reads this
    {
      SessionState(occasion, preferredColor, bodyType, recommendation, trends, quizOpen,
                   quizAnswers, quizResult, newDataOpen, newData, snackbarOpen, snackbarMessage)
    }

    constructor ()
      ensures State() == Initial()
    {
      occasion, preferredColor, bodyType, recommendation := "", "", "", "";
      trends := [];
      quizOpen := false;
      quizAnswers := seq(|Questions|, _ => "");
      quizResult := "";
      newDataOpen := false;
      newData := "";
      snackbarOpen := false;
      snackbarMessage := "";
    }

    method ChangeOccasion(text: string)
      modifies this
      ensures State() == Next(old(State()), OccasionTyped(text))
    {
      occasion := text;
    }

    method ChangePreferredColor(text: string)
      modifies this
      ensures State() == Next(old(State()), ColorTyped(text))
    {
      preferredColor := text;
    }

    method ChangeBodyType(choice: string)
      modifies this
      ensures State() == Next(old(State()), BodyTypeSelected(choice))
    {
      bodyType := choice;
    }

    method ChangeNewData(text: string)
      modifies this
      ensures State() == Next(old(State()), NewDataTyped(text))
    {
      newData := text;
    }

    /** The radio group's onChange: copy the answers, set one slot, store
        the copy. */
    method ChangeQuizAnswer(index: nat, value: string)
      requires index < |quizAnswers|
      modifies this
      ensures State() == Next(old(State()), AnswerSelected(index, value))
    {
      var newAnswers := quizAnswers;
      newAnswers := newAnswers[index := value];
      quizAnswers := newAnswers;
    }

    method SetQuizOpen(open: bool)
      modifies this
      ensures State() == Next(old(State()), if open then QuizOpened else QuizClosed)
    {
      quizOpen := open;
    }

    method SetNewDataOpen(open: bool)
      modifies this
      ensures State() == Next(old(State()), if open then NewDataOpened else NewDataClosed)
    {
      newDataOpen := open;
    }

    method CloseSnackbar()
      modifies this
      ensures State() == Next(old(State()), SnackbarClosed)
    {
      snackbarOpen := false;
    }

    method GetStyleRecommendation(message: Option<string>) returns (request: Request)
      modifies this
      ensures request == Issued(old(State()), RecommendationRequested(message))
      ensures State() == Next(old(State()), RecommendationRequested(message))
    {
      request := PostRecommendation(occasion, preferredColor, bodyType);
      if message.Some? {
        recommendation := message.value;
      }
    }

    method GetTrendAnalysis(currentTrends: Option<seq<string>>) returns (request: Request)
      modifies this
      ensures request == Issued(old(State()), TrendsRequested(currentTrends))
      ensures State() == Next(old(State()), TrendsRequested(currentTrends))
    {
      request := GetTrends;
      if currentTrends.Some? {
        trends := currentTrends.value;
      }
    }

    method HandleQuizSubmit(reply: Option<QuizReply>) returns (request: Request)
      modifies this
      ensures request == Issued(old(State()), QuizSubmitted(reply))
      ensures State() == Next(old(State()), QuizSubmitted(reply))
    {
      request := PostQuiz(quizAnswers);
      if reply.Some? {
        quizResult := "Your dominant style is " + reply.value.dominantStyle + ": " + reply.value.description;
        quizOpen := false;
      }
    }

    method HandleNewDataSubmit(parsed: Option<Value>, trainMessage: Option<string>) returns (request: Request)
      modifies this
      ensures request == Issued(old(State()), NewDataSubmitted(parsed, trainMessage))
      ensures State() == Next(old(State()), NewDataSubmitted(parsed, trainMessage))
    {
      request := NoRequest;
      if parsed.None? {
        snackbarMessage := NewDataError;
        snackbarOpen := true;
        return;
      }
      request := PostTrainAi(parsed.value);
      if trainMessage.None? {
        snackbarMessage := NewDataError;
        snackbarOpen := true;
        return;
      }
      snackbarMessage := trainMessage.value;
      snackbarOpen := true;
      newDataOpen := false;
    }
  }
}
