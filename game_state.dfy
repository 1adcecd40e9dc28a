/** The game session of the GameUI component (src/components/game-ui.tsx) as a
    value, and the transitions its event handlers make. Each asynchronous
    handler is cut at its `await`: a submit event covers the setters before the
    request, a resolution event covers the `try` body or the `catch` together
    with the `finally` that returns the screen to idle. */
module GameState {
  import opened Wrappers
  import opened Validation

  /** Which request, if any, is in flight. */
  datatype LoadingState = Idle | LoadingEnvironment | LoadingObjective

  /** The objective generator's output: the quest text and its reward. */
  datatype PlayerObjective = PlayerObjective(objective: string, reward: string)

  datatype ToastVariant = Default | Destructive

  /** A notification shown to the player. */
  datatype Toast = Toast(variant: ToastVariant, title: string, description: string)

  /** What a rejected generator call threw: an Error object with its message,
      or any other value. */
  datatype Thrown = ErrorObject(message: string) | OtherValue

  const UnknownError := "An unknown error occurred."
  const EnvironmentErrorTitle := "Error Creating Nightmare"
  const ObjectiveErrorTitle := "Error Devising Fate"
  const CompletedTitle := "Objective Complete!"
  const RewardPrefix := "You've been rewarded with: "
  const PointsPerObjective := 100

  /** The description an error toast shows: the Error's message, or the fallback text. */
  function ErrorDescription(t: Thrown): string
  {
    match t
    case ErrorObject(message) => message
    case OtherValue => UnknownError
  }

  function ErrorToast(title: string, t: Thrown): Toast
  {
    Toast(Destructive, title, ErrorDescription(t))
  }

  function RewardToast(reward: string): Toast
  {
    Toast(Default, CompletedTitle, RewardPrefix + reward)
  }

  /** The five pieces of component state, plus the last toast shown.
      An empty `environment` means none has been generated yet. */
  datatype Session = Session(
    environment: string,
    objective: Option<PlayerObjective>,
    inventory: seq<string>,
    score: int,
    loading: LoadingState,
    lastToast: Option<Toast>)

  /** The state the component mounts with. */
  const Initial := Session("", None, [], 0, Idle, None)

  /** Invariant kept by every legal transition: each completed objective is
      worth 100 points and one inventory entry, and while a request is in
      flight no objective is shown (and an objective request always has an
      environment to work from). */
  ghost predicate Inv(s: Session)
  {
    && s.score == PointsPerObjective * |s.inventory|
    && (s.loading == LoadingEnvironment ==> s.environment == "" && s.objective == None)
    && (s.loading == LoadingObjective ==> s.environment != "" && s.objective == None)
  }

  /** The "Generate Environment" button is enabled only while nothing is loading. */
  predicate EnvironmentSubmitEnabled(s: Session)
  {
    s.loading == Idle
  }

  /** The "Choose Your Fate" card is enabled only once an environment exists and nothing is loading. */
  predicate ObjectiveSubmitEnabled(s: Session)
  {
    s.environment != "" && s.loading == Idle
  }

  /** A call to one of the two generators. */
  datatype Request =
    | EnvironmentRequest(prompt: string)
    | ObjectiveRequest(environmentDescription: string, difficulty: Difficulty)

  /** What can happen to the session: a form submission with the raw field
      value, a generator call resolving or rejecting, or a click on
      "Complete Objective". */
  datatype Event =
    | SubmitEnvironment(prompt: string)
    | EnvironmentGenerated(description: string)
    | EnvironmentFailed(error: Thrown)
    | SubmitObjective(difficulty: Option<string>)
    | ObjectiveGenerated(result: PlayerObjective)
    | ObjectiveFailed(error: Thrown)
    | CompleteObjective

  /** The event can occur in this state: a submit only when the UI enables it,
      a resolution only for the request in flight. */
  predicate Enabled(s: Session, e: Event)
  {
    match e
    case SubmitEnvironment(_) => EnvironmentSubmitEnabled(s)
    case EnvironmentGenerated(_) => s.loading == LoadingEnvironment
    case EnvironmentFailed(_) => s.loading == LoadingEnvironment
    case SubmitObjective(_) => ObjectiveSubmitEnabled(s)
    case ObjectiveGenerated(_) => s.loading == LoadingObjective
    case ObjectiveFailed(_) => s.loading == LoadingObjective
    case CompleteObjective => true
  }

  /** The session after an enabled event. A submission whose field fails its
      schema changes nothing; a completion with no objective changes nothing. */
  function Step(s: Session, e: Event): (r: Session)
    requires Enabled(s, e)
    ensures Inv(s) ==> Inv(r)
    ensures r.score >= s.score && s.inventory <= r.inventory
    ensures e != CompleteObjective ==> r.score == s.score && r.inventory == s.inventory
  {
    match e
    case SubmitEnvironment(prompt) =>
      if ValidatePrompt(prompt).Err? then s
      else s.(loading := LoadingEnvironment, environment := "", objective := None)
    case EnvironmentGenerated(description) =>
      s.(environment := description, loading := Idle)
    case EnvironmentFailed(error) =>
      s.(lastToast := Some(ErrorToast(EnvironmentErrorTitle, error)), loading := Idle)
    case SubmitObjective(raw) =>
      if ParseDifficulty(raw).Err? then s
      else s.(loading := LoadingObjective, objective := None)
    case ObjectiveGenerated(result) =>
      s.(objective := Some(result), loading := Idle)
    case ObjectiveFailed(error) =>
      s.(lastToast := Some(ErrorToast(ObjectiveErrorTitle, error)), loading := Idle)
    case CompleteObjective =>
      match s.objective
      case None => s
      case Some(o) =>
        s.(score := s.score + PointsPerObjective,
           inventory := s.inventory + [o.reward],
           objective := None,
           lastToast := Some(RewardToast(o.reward)))
  }

  /** The generator call an event issues, if any. */
  function Issued(s: Session, e: Event): (r: Option<Request>)
    requires Enabled(s, e)
    ensures r.Some? <==> s.loading == Idle && Step(s, e).loading != Idle
    ensures r.Some? && r.value.ObjectiveRequest? ==> r.value.environmentDescription == s.environment != ""
  {
    match e
    case SubmitEnvironment(prompt) =>
      if ValidatePrompt(prompt).Ok? then Some(EnvironmentRequest(prompt)) else None
    case SubmitObjective(raw) =>
      (match ParseDifficulty(raw)
       case Ok(d) => Some(ObjectiveRequest(s.environment, d))
       case Err(_) => None)
    case _ => None
  }

  /** Submitting the environment form issues exactly one request, for the
      prompt as typed, when the prompt has 15 to 300 UTF-16 code units, and
      otherwise issues none and leaves the session as it was. An accepted
      submission clears the environment and the objective, and keeps score,
      inventory and the last toast. */
  lemma EnvironmentSubmission(s: Session, prompt: string)
    requires EnvironmentSubmitEnabled(s)
    ensures var r := Issued(s, SubmitEnvironment(prompt));
      r.Some? <==> PromptMin <= Utf16Length(prompt) <= PromptMax
    ensures Issued(s, SubmitEnvironment(prompt)).Some? ==>
      Issued(s, SubmitEnvironment(prompt)) == Some(EnvironmentRequest(prompt)) &&
      Step(s, SubmitEnvironment(prompt)) ==
        Session("", None, s.inventory, s.score, LoadingEnvironment, s.lastToast)
    ensures Issued(s, SubmitEnvironment(prompt)).None? ==> Step(s, SubmitEnvironment(prompt)) == s
  {
  }

  /** Submitting the objective form issues a request exactly when a difficulty
      from the enumeration is chosen; the request carries the current
      environment and that difficulty, and the objective is cleared until it
      resolves. Otherwise nothing changes. */
  lemma ObjectiveSubmission(s: Session, raw: Option<string>)
    requires ObjectiveSubmitEnabled(s)
    ensures forall d ::
      (Issued(s, SubmitObjective(raw)) == Some(ObjectiveRequest(s.environment, d))
       <==> raw == Some(DifficultyName(d)))
    ensures Issued(s, SubmitObjective(raw)).Some? <==> ParseDifficulty(raw).Ok?
    ensures Issued(s, SubmitObjective(raw)).Some? ==>
      Step(s, SubmitObjective(raw)) == s.(loading := LoadingObjective, objective := None)
    ensures Issued(s, SubmitObjective(raw)).None? ==> Step(s, SubmitObjective(raw)) == s
  {
  }

  /** Completing an objective raises the score by exactly 100, appends exactly
      its reward to the end of the inventory and clears it; with no objective
      it changes nothing. */
  lemma Completion(s: Session)
    ensures s.objective.Some? ==>
      var r := Step(s, CompleteObjective);
      r.score == s.score + 100 && r.inventory == s.inventory + [s.objective.value.reward] &&
      r.objective == None && r.environment == s.environment && r.loading == s.loading
    ensures s.objective.None? ==> Step(s, CompleteObjective) == s
  {
  }

  /** Every resolution of a request in flight returns the screen to idle; a
      successful one stores the generator's result, a failed one leaves
      environment and objective as the submission left them and shows the
      error's text in a destructive toast. */
  lemma Resolution(s: Session, e: Event)
    requires Inv(s) && Enabled(s, e)
    requires e.EnvironmentGenerated? || e.EnvironmentFailed? || e.ObjectiveGenerated? || e.ObjectiveFailed?
    ensures Step(s, e).loading == Idle
    ensures e.EnvironmentGenerated? ==> Step(s, e).environment == e.description && Step(s, e).objective == None
    ensures e.ObjectiveGenerated? ==> Step(s, e).objective == Some(e.result) && Step(s, e).environment == s.environment
    ensures e.EnvironmentFailed? ==>
      (Step(s, e).environment == "" && Step(s, e).objective == None &&
       Step(s, e).lastToast == Some(Toast(Destructive, EnvironmentErrorTitle, ErrorDescription(e.error))))
    ensures e.ObjectiveFailed? ==>
      (Step(s, e).environment == s.environment && Step(s, e).objective == None &&
       Step(s, e).lastToast == Some(Toast(Destructive, ObjectiveErrorTitle, ErrorDescription(e.error))))
  {
  }

  /** A sequence of events each of which is enabled when it occurs. */
  ghost predicate Legal(s: Session, events: seq<Event>)
    decreases |events|
  {
    events == [] || (Enabled(s, events[0]) && Legal(Step(s, events[0]), events[1..]))
  }

  ghost function Run(s: Session, events: seq<Event>): Session
    requires Legal(s, events)
    decreases |events|
  {
    if events == [] then s else Run(Step(s, events[0]), events[1..])
  }

  /** The number of events that complete an objective actually present. */
  ghost function Completions(s: Session, events: seq<Event>): nat
    requires Legal(s, events)
    decreases |events|
  {
    if events == [] then 0
    else
      (if events[0] == CompleteObjective && s.objective.Some? then 1 else 0) +
      Completions(Step(s, events[0]), events[1..])
  }

  /** Along any legal run the invariant holds, the score never decreases, the
      inventory only grows at its end, and both move exactly with the
      completed objectives: 100 points and one entry each. */
  lemma {:induction false} RunKeepsScoreWithInventory(s: Session, events: seq<Event>)
    requires Inv(s) && Legal(s, events)
    ensures Inv(Run(s, events))
    ensures Run(s, events).score >= s.score
    ensures s.inventory <= Run(s, events).inventory
    ensures |Run(s, events).inventory| == |s.inventory| + Completions(s, events)
    ensures Run(s, events).score == s.score + PointsPerObjective * Completions(s, events)
    decreases |events|
  {
    if events != [] {
      RunKeepsScoreWithInventory(Step(s, events[0]), events[1..]);
    }
  }

  /** After any legal run the environment is empty, unchanged, or the
      description that an environment-generated event of that run delivered. */
  lemma {:induction false} EnvironmentOrigin(s: Session, events: seq<Event>)
    requires Legal(s, events)
    ensures var env := Run(s, events).environment;
      env == "" || env == s.environment ||
      exists i :: 0 <= i < |events| && events[i] == EnvironmentGenerated(env)
    decreases |events|
  {
    if events != [] {
      var s1 := Step(s, events[0]);
      var env := Run(s, events).environment;
      EnvironmentOrigin(s1, events[1..]);
      if env != "" && env != s1.environment {
        var i :| 0 <= i < |events[1..]| && events[1..][i] == EnvironmentGenerated(env);
        assert events[i + 1] == EnvironmentGenerated(env);
      } else if env != "" && env != s.environment {
        assert events[0] == EnvironmentGenerated(env);
      }
    }
  }

  /** The objective form is enabled only after the environment generator has
      delivered the very description the objective request will carry: an
      objective can never be requested before an environment exists. */
  lemma ObjectiveUnlockedByEnvironment(events: seq<Event>)
    requires Legal(Initial, events)
    requires ObjectiveSubmitEnabled(Run(Initial, events))
    ensures exists i :: 0 <= i < |events| && events[i] == EnvironmentGenerated(Run(Initial, events).environment)
  {
    EnvironmentOrigin(Initial, events);
  }

  /** From the mounted state, every reachable session keeps score == 100 * |inventory|. */
  lemma ReachableScore(events: seq<Event>)
    requires Legal(Initial, events)
    ensures Run(Initial, events).score == PointsPerObjective * |Run(Initial, events).inventory|
    ensures |Run(Initial, events).inventory| == Completions(Initial, events)
  {
    RunKeepsScoreWithInventory(Initial, events);
  }

  /** Runs in which no objective is completed leave score and inventory as they were. */
  lemma {:induction false} GenerationOnlyRun(s: Session, events: seq<Event>)
    requires Legal(s, events)
    requires forall i :: 0 <= i < |events| ==> events[i] != CompleteObjective
    ensures Run(s, events).score == s.score && Run(s, events).inventory == s.inventory
    decreases |events|
  {
    if events != [] {
      GenerationOnlyRun(Step(s, events[0]), events[1..]);
    }
  }

  /** A whole playthrough from the mounted state: an accepted prompt issues its
      request, the generated description is stored, an objective of the chosen
      difficulty is requested for that description and, once completed, leaves
      100 points and exactly its reward in the inventory. */
  lemma Playthrough(prompt: string, description: string, d: Difficulty, quest: PlayerObjective)
    requires ValidatePrompt(prompt).Ok? && description != ""
    ensures var events := [SubmitEnvironment(prompt), EnvironmentGenerated(description),
                           SubmitObjective(Some(DifficultyName(d))), ObjectiveGenerated(quest), CompleteObjective];
      && Legal(Initial, events)
      && Issued(Initial, events[0]) == Some(EnvironmentRequest(prompt))
      && Issued(Step(Step(Initial, events[0]), events[1]), events[2]) == Some(ObjectiveRequest(description, d))
      && Run(Initial, events) ==
         Session(description, None, [quest.reward], 100, Idle, Some(RewardToast(quest.reward)))
  {
    var events := [SubmitEnvironment(prompt), EnvironmentGenerated(description),
                   SubmitObjective(Some(DifficultyName(d))), ObjectiveGenerated(quest), CompleteObjective];
    var s1 := Step(Initial, events[0]);
    assert s1 == Session("", None, [], 0, LoadingEnvironment, None);
    var s2 := Step(s1, events[1]);
    var s3 := Step(s2, events[2]);
    assert s3 == Session(description, None, [], 0, LoadingObjective, None);
    var s4 := Step(s3, events[3]);
    var s5 := Step(s4, events[4]);
    assert s5 == Session(description, None, [quest.reward], 100, Idle, Some(RewardToast(quest.reward)));
    var tail := events[1..];
    assert tail[1..][1..][1..][1..] == [];
    assert Legal(s5, tail[1..][1..][1..][1..]);
    assert Legal(s4, tail[1..][1..][1..]);
    assert Legal(s3, tail[1..][1..]);
    assert Legal(s2, tail[1..]);
    assert Legal(s1, tail);
    assert Run(s4, tail[1..][1..][1..]) == s5;
    assert Run(s3, tail[1..][1..]) == s5;
    assert Run(s2, tail[1..]) == s5;
    assert Run(s1, tail) == s5;
  }

  const HospitalPrompt := "an abandoned hospital where the clocks are stuck at midnight"

  /** The hospital prompt (60 characters) is accepted and issues its request,
      so Playthrough applies to it. */
  lemma HospitalPromptAccepted()
    ensures Issued(Initial, SubmitEnvironment(HospitalPrompt)) == Some(EnvironmentRequest(HospitalPrompt))
  {
    PromptLengthInCharacters(HospitalPrompt);
  }

  /** A ten-character prompt is rejected: no request, nothing changes. */
  lemma ShortPromptRejected()
    ensures Issued(Initial, SubmitEnvironment("dark woods")) == None
    ensures Step(Initial, SubmitEnvironment("dark woods")) == Initial
  {
    assert Utf16Length("dark woods") == 10;
  }
}
