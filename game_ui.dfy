/** The GameUI component's session state as an object whose fields its event
    handlers update in place (src/components/game-ui.tsx:60-128). Every
    handler is split at its `await` into a Begin step and a Succeed or Fail
    step; the generators' replies and errors arrive as parameters. Each step
    keeps Valid() and moves State() exactly as GameState.Step describes. */
module GameUI {
  import opened Wrappers
  import opened Validation
  import opened GameState

  class Game {
    var environment: string
    var objective: Option<PlayerObjective>
    var inventory: seq<string>
    var score: int
    var loadingState: LoadingState
    var lastToast: Option<Toast>

    /** The whole state of the component as a value. */
    function State(): Session
      reads this
    {
      Session(environment, objective, inventory, score, loadingState, lastToast)
    }

    ghost predicate Valid()
      reads this
    {
      Inv(State())
    }

    constructor ()
      ensures Valid() && State() == Initial
    {
      environment := "";
      objective := None;
      inventory := [];
      score := 0;
      loadingState := Idle;
      lastToast := None;
    }

    /** The synchronous part of onEnvironmentSubmit, reached with a prompt that
        passed its schema while the submit button is enabled. */
    method BeginEnvironment(prompt: string) returns (request: Request)
      requires Valid() && EnvironmentSubmitEnabled(State())
      requires ValidatePrompt(prompt).Ok?
      modifies this
      ensures Valid()
      ensures request == EnvironmentRequest(prompt)
      ensures loadingState == LoadingEnvironment && environment == "" && objective == None
      ensures score == old(score) && inventory == old(inventory) && lastToast == old(lastToast)
      ensures State() == Step(old(State()), SubmitEnvironment(prompt))
    {
      loadingState := LoadingEnvironment;
      environment := "";
      objective := None;
      request := EnvironmentRequest(prompt);
    }

    /** The environment form's submit: the prompt schema runs first, and only a
        prompt that passes reaches onEnvironmentSubmit; a failing one yields the
        inline message and changes nothing. */
    method SubmitEnvironmentForm(prompt: string) returns (r: Result<Request, string>)
      requires Valid() && EnvironmentSubmitEnabled(State())
      modifies this
      ensures Valid()
      ensures r.Ok? <==> PromptMin <= Utf16Length(prompt) <= PromptMax
      ensures r.Ok? ==> r.value == EnvironmentRequest(prompt)
      ensures r.Err? ==> r.error == ValidatePrompt(prompt).error && State() == old(State())
      ensures State() == Step(old(State()), SubmitEnvironment(prompt))
    {
      var checked := ValidatePrompt(prompt);
      if checked.Err? {
        r := Err(checked.error);
      } else {
        var request := BeginEnvironment(prompt);
        r := Ok(request);
      }
    }

    /** The `try` body after the environment generator resolves, then `finally`. */
    method SucceedEnvironment(description: string)
      requires Valid() && loadingState == LoadingEnvironment
      modifies this
      ensures Valid()
      ensures environment == description && loadingState == Idle
      ensures objective == old(objective) == None
      ensures score == old(score) && inventory == old(inventory) && lastToast == old(lastToast)
      ensures State() == Step(old(State()), EnvironmentGenerated(description))
    {
      environment := description;
      loadingState := Idle;
    }

    /** The `catch` after the environment generator rejects, then `finally`. */
    method FailEnvironment(error: Thrown)
      requires Valid() && loadingState == LoadingEnvironment
      modifies this
      ensures Valid()
      ensures environment == "" && objective == None && loadingState == Idle
      ensures lastToast == Some(Toast(Destructive, EnvironmentErrorTitle, ErrorDescription(error)))
      ensures score == old(score) && inventory == old(inventory)
      ensures State() == Step(old(State()), EnvironmentFailed(error))
    {
      lastToast := Some(ErrorToast(EnvironmentErrorTitle, error));
      loadingState := Idle;
    }

    /** The synchronous part of onObjectiveSubmit, reached with a difficulty
        from the enumeration while the objective card is enabled. */
    method BeginObjective(difficulty: Difficulty) returns (request: Request)
      requires Valid() && ObjectiveSubmitEnabled(State())
      modifies this
      ensures Valid()
      ensures request == ObjectiveRequest(old(environment), difficulty)
      ensures loadingState == LoadingObjective && objective == None
      ensures environment == old(environment) && score == old(score) && inventory == old(inventory)
      ensures lastToast == old(lastToast)
      ensures State() == Step(old(State()), SubmitObjective(Some(DifficultyName(difficulty))))
    {
      loadingState := LoadingObjective;
      objective := None;
      request := ObjectiveRequest(environment, difficulty);
    }

    /** The objective form's submit: the difficulty schema runs first, then
        onObjectiveSubmit; a missing or unknown choice yields the field's inline
        message and changes nothing. */
    method SubmitObjectiveForm(raw: Option<string>) returns (r: Result<Request, string>)
      requires Valid() && ObjectiveSubmitEnabled(State())
      modifies this
      ensures Valid()
      ensures r.Ok? <==> ParseDifficulty(raw).Ok?
      ensures forall d :: (r == Ok(ObjectiveRequest(old(environment), d)) <==> raw == Some(DifficultyName(d)))
      ensures r.Err? ==> r.error == DifficultyMessage(ParseDifficulty(raw).error) && State() == old(State())
      ensures raw == None ==> r == Err(DifficultyRequired)
      ensures State() == Step(old(State()), SubmitObjective(raw))
    {
      var parsed := ParseDifficulty(raw);
      match parsed
      case Err(e) =>
        r := Err(DifficultyMessage(e));
      case Ok(d) =>
        var request := BeginObjective(d);
        r := Ok(request);
    }

    /** The `try` body after the objective generator resolves, then `finally`. */
    method SucceedObjective(result: PlayerObjective)
      requires Valid() && loadingState == LoadingObjective
      modifies this
      ensures Valid()
      ensures objective == Some(result) && loadingState == Idle
      ensures environment == old(environment) && score == old(score) && inventory == old(inventory)
      ensures lastToast == old(lastToast)
      ensures State() == Step(old(State()), ObjectiveGenerated(result))
    {
      objective := Some(result);
      loadingState := Idle;
    }

    /** The `catch` after the objective generator rejects, then `finally`. */
    method FailObjective(error: Thrown)
      requires Valid() && loadingState == LoadingObjective
      modifies this
      ensures Valid()
      ensures objective == None && loadingState == Idle
      ensures lastToast == Some(Toast(Destructive, ObjectiveErrorTitle, ErrorDescription(error)))
      ensures environment == old(environment) && score == old(score) && inventory == old(inventory)
      ensures State() == Step(old(State()), ObjectiveFailed(error))
    {
      lastToast := Some(ErrorToast(ObjectiveErrorTitle, error));
      loadingState := Idle;
    }

    /** handleCompleteObjective: with an objective, 100 more points, its reward
        appended to the inventory, the objective cleared and a toast naming the
        reward; without one, nothing at all. */
    method CompleteObjective()
      requires Valid()
      modifies this
      ensures Valid()
      ensures old(objective).Some? ==>
        && score == old(score) + PointsPerObjective
        && inventory == old(inventory) + [old(objective).value.reward]
        && objective == None
        && lastToast == Some(RewardToast(old(objective).value.reward))
        && environment == old(environment) && loadingState == old(loadingState)
      ensures old(objective).None? ==> State() == old(State())
      ensures State() == Step(old(State()), GameState.CompleteObjective)
    {
      if objective.None? {
        return;
      }
      var reward := objective.value.reward;
      score := score + PointsPerObjective;
      inventory := inventory + [reward];
      objective := None;
      lastToast := Some(RewardToast(reward));
    }
  }

  /** A client of the class: one full round from a freshly mounted component,
      where the player types a prompt, both generators succeed, and the player
      completes the objective. It returns the score and inventory shown at the end. */
  method OneRound(prompt: string, description: string, difficulty: Difficulty, quest: PlayerObjective)
    returns (score: int, inventory: seq<string>, requests: seq<Request>)
    requires PromptMin <= Utf16Length(prompt) <= PromptMax && description != ""
    ensures score == 100 && inventory == [quest.reward]
    ensures requests == [EnvironmentRequest(prompt), ObjectiveRequest(description, difficulty)]
  {
    var game := new Game();
    var first := game.SubmitEnvironmentForm(prompt);
    game.SucceedEnvironment(description);
    var second := game.SubmitObjectiveForm(Some(DifficultyName(difficulty)));
    assert second == Ok(ObjectiveRequest(description, difficulty));
    game.SucceedObjective(quest);
    game.CompleteObjective();
    score, inventory := game.score, game.inventory;
    requests := [first.value, second.value];
  }
}
