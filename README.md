# October Nightmares: game session model

This project models the game session of the `GameUI` component of a small horror
game front-end (`src/components/game-ui.tsx`). The player describes a scene. A text
generator turns it into an environment description. The player then picks a difficulty.
A second generator produces an objective with a reward. Completing the objective adds
100 points to the score and appends the reward to the inventory.

The model has four modules:

- `Wrappers`: `Option` and `Result`.
- `Validation`: the two form schemas. The prompt must be 15 to 300 long, measured as
  JavaScript measures strings, in UTF-16 code units (`Utf16Length`). The difficulty must
  be one of `easy`, `medium`, `hard`. Each schema returns the inline message the
  form shows when it refuses.
- `GameState`: the session as a value (`Session`: environment, objective, inventory,
  score, loading state, last toast). It gives the transitions as `Step` over `Event`s and
  the requests each event sends to a generator as `Issued`. It states the invariant
  `score == 100 * |inventory|` with the loading-phase facts (`Inv`) and proves the
  properties over single steps and whole runs.
- `GameUI`: the class `Game`. Its fields are the component's five `useState` values and
  the last toast. Each asynchronous handler is cut at its `await` into separate
  methods. A Begin method covers the setters before the request. A Succeed method covers
  the `try` body plus `finally`, and a Fail method covers the `catch` plus `finally`. Each
  method states its effect on every field. It also states
  `State() == Step(old(State()), event)`, so every lemma of `GameState` applies to the object.

The generators' results and the values they throw are method parameters. The UI's
enablement guards (lines 171 and 186) are `requires` clauses on the Begin and Submit
methods. They are also the `Enabled` predicate of `GameState`.

Facts about the code that the model follows:

- A failed generation leaves the environment `""` (or the objective null), not the
  value from before the call, because the Begin step (line 81, line 100) already
  cleared it.
- Prompt length counts UTF-16 code units, not characters. A prompt with characters
  outside the Basic Multilingual Plane can pass with fewer than 15 characters.
  `PromptLengthInCharacters` gives the exact character bounds.
- The placeholder prompt of line 159 has 60 characters and passes the schema.
- The objective card's `disabled` (lines 186 and 343) only sets a CSS class with
  `pointer-events-none`, and the submit button at line 225 has no `disabled`
  attribute, so the guard stops mouse clicks but not keyboard submission. The model
  assumes the guard holds.

## Model

| member | source | states |
|---|---|---|
| `Validation.Utf16Length` | src/components/game-ui.tsx:48-49 | the JavaScript `length` that `.min` and `.max` compare: one code unit per Basic Multilingual Plane character, two for any other |
| `Validation.DifficultyMessage` | src/components/game-ui.tsx:53-55 | the inline message of a refused difficulty is "You must choose your fate." exactly when no value was chosen |
| `Validation.Utf16LengthBounds` | src/components/game-ui.tsx:46-49 | the length zod checks (UTF-16 code units) lies between the number of characters and twice that number |
| `Validation.Utf16LengthOfBmp` | src/components/game-ui.tsx:46-49 | for text with only Basic Multilingual Plane characters, the length zod checks equals the number of characters |
| `Validation.PromptIssues` | src/components/game-ui.tsx:46-49 | the prompt schema's chain `.min(15, …).max(300, …)` reports the too-short message exactly when the length is below 15 and the too-long message exactly when it is above 300 |
| `Validation.ValidatePrompt` | src/components/game-ui.tsx:45-50 | a prompt is accepted, unchanged, iff its length is 15 to 300 inclusive; otherwise it is refused with "too short" exactly when below 15 and "too elaborate" exactly when above 300 |
| `Validation.PromptLengthInCharacters` | src/components/game-ui.tsx:45-50 | at most 7 characters is always refused, more than 300 always refused, 15 to 150 always accepted; for BMP text, accepted iff 15 to 300 characters |
| `Validation.ParseDifficulty` | src/components/game-ui.tsx:52-56 | accepts exactly the three radio values, each to its own difficulty (Ok(d) iff the raw value is d's name), refuses a missing choice with "You must choose your fate." and any other string as not an option |
| `GameState.ErrorDescription` | src/components/game-ui.tsx:91 | an error toast shows the thrown Error's message, or "An unknown error occurred." for any other thrown value (also line 112) |
| `GameState.ErrorToast` | src/components/game-ui.tsx:87-92 | a failure toast is destructive, carries the handler's title ("Error Creating Nightmare", or "Error Devising Fate" at lines 108-113) and the error description |
| `GameState.RewardToast` | src/components/game-ui.tsx:124-127 | the completion toast is titled "Objective Complete!" and names the reward |
| `GameState.EnvironmentSubmitEnabled` | src/components/game-ui.tsx:171 | the environment submit button is enabled only while nothing is loading; every environment submission, in `Enabled` and in the class, requires it |
| `GameState.ObjectiveSubmitEnabled` | src/components/game-ui.tsx:186 | the objective card is enabled only when an environment exists and nothing is loading; every objective submission requires it |
| `GameState.Step` | src/components/game-ui.tsx:79-128 | every enabled transition preserves the invariant (score = 100 × inventory size, no objective while loading, an environment exists while an objective loads); score never decreases; the old inventory is a prefix of the new one; only completion touches score or inventory |
| `GameState.Issued` | src/components/game-ui.tsx:84-105 | a generator request is issued exactly when an idle session starts loading; an objective request carries the current, non-empty environment |
| `GameState.EnvironmentSubmission` | src/components/game-ui.tsx:79-84 | with the button enabled, one request for the typed prompt is issued iff its length is 15 to 300; then loading is "environment", environment and objective are cleared, and score, inventory and toast are kept; otherwise nothing changes |
| `GameState.ObjectiveSubmission` | src/components/game-ui.tsx:98-105 | with the card enabled, a request is issued iff the difficulty schema accepts the chosen value, and it carries the current environment and difficulty d iff the value is d's name; then loading is "objective" and the objective is cleared, else nothing changes |
| `GameState.Resolution` | src/components/game-ui.tsx:84-116 | every resolution returns to idle; success stores the description or the objective result; failure leaves environment "" and objective null (or the environment unchanged and objective null) and shows a destructive toast with the error's message or the unknown-error fallback |
| `GameState.Completion` | src/components/game-ui.tsx:119-128 | with an objective: score + 100, exactly its reward appended at the end of the inventory, objective cleared, environment and loading kept; with none: no change |
| `GameState.RunKeepsScoreWithInventory` | src/components/game-ui.tsx:79-128 | along every legal run the invariant holds, the score never decreases, the inventory only grows at its end, and score and inventory grow by 100 points and one entry per effective completion |
| `GameState.EnvironmentOrigin` | src/components/game-ui.tsx:81-85 | after any legal run the environment is empty, unchanged, or exactly a description an environment-generated event of the run delivered |
| `GameState.ObjectiveUnlockedByEnvironment` | src/components/game-ui.tsx:186 | in every legal run from mount, the objective form is enabled only after the environment generator delivered the description now shown, so no objective is requested before an environment exists |
| `GameState.ReachableScore` | src/components/game-ui.tsx:61-66 | from the mounted state (score 0, empty inventory) every reachable session has score == 100 × inventory size, and the inventory size equals the number of completed objectives |
| `GameState.GenerationOnlyRun` | src/components/game-ui.tsx:79-117 | a run of submissions and generator outcomes without completions leaves score and inventory untouched |
| `GameState.Playthrough` | src/components/game-ui.tsx:79-128 | from the mounted state, accepted prompt → description → objective of difficulty d → completion is a legal run that issues the prompt's request and one for (description, d), and ends with score 100 and inventory [reward] |
| `GameState.HospitalPromptAccepted` | src/components/game-ui.tsx:45-50 | the 60-character hospital prompt issues its environment request |
| `GameState.ShortPromptRejected` | src/components/game-ui.tsx:45-50 | the 10-character prompt "dark woods" issues no request and leaves the mounted state unchanged |
| `GameUI.Game.constructor` | src/components/game-ui.tsx:61-66 | the component mounts with no environment, no objective, empty inventory, score 0, idle, and the invariant holds |
| `GameUI.Game.BeginEnvironment` | src/components/game-ui.tsx:79-82 | allowed only when idle (line 171) with a valid prompt; sets loading to "environment", clears environment and objective, keeps score, inventory and toast, and returns the request for the prompt |
| `GameUI.Game.SubmitEnvironmentForm` | src/components/game-ui.tsx:366 | the environment form passes a prompt to the handler iff the schema accepts it; a refused prompt yields the inline message and changes nothing |
| `GameUI.Game.SucceedEnvironment` | src/components/game-ui.tsx:84-95 | the environment becomes the returned description, loading returns to idle, objective stays null, nothing else changes |
| `GameUI.Game.FailEnvironment` | src/components/game-ui.tsx:86-95 | loading returns to idle, environment stays "" and objective null, a destructive "Error Creating Nightmare" toast carries the error's message, score and inventory are kept |
| `GameUI.Game.BeginObjective` | src/components/game-ui.tsx:98-105 | allowed only with an environment and idle (line 186); sets loading to "objective", clears the objective and returns the request carrying the current environment and the difficulty; nothing else changes |
| `GameUI.Game.SubmitObjectiveForm` | src/components/game-ui.tsx:188 | the objective form passes a difficulty to the handler iff the chosen value is one of the three radio values, and the request carries that difficulty and the current environment; a missing choice yields "You must choose your fate.", any refusal yields the field's inline message and changes nothing |
| `GameUI.Game.SucceedObjective` | src/components/game-ui.tsx:106-116 | the objective becomes the generator's result, loading returns to idle, nothing else changes |
| `GameUI.Game.FailObjective` | src/components/game-ui.tsx:107-116 | loading returns to idle, objective stays null, a destructive "Error Devising Fate" toast carries the error's message, nothing else changes |
| `GameUI.Game.CompleteObjective` | src/components/game-ui.tsx:119-128 | with an objective: score + 100, its reward appended, objective cleared, toast naming the reward; with none: no change |
| `GameUI.OneRound` | src/components/game-ui.tsx:79-128 | a client of the class: one round from mount with both generators succeeding ends with score 100 and inventory [reward], after exactly the two expected requests |

## Left out

- The generators (`src/ai/flows/generate-spooky-environment.ts`, `src/ai/flows/generate-player-objectives.ts`) call an opaque AI SDK. Their results and thrown values are method parameters only.
- `src/app/actions.ts` logs to the console and rethrows an `Error` with a fixed message per generator. The message is treated as opaque text inside `Thrown.ErrorObject`, and the logging is I/O.
- Concurrency: overlapping requests and late (stale) responses are not modelled. Resolutions require the matching loading state, and submissions require the UI guards.
- `GameUI.Game.BeginObjective`, `GameUI.Game.SubmitObjectiveForm`: the guard of line 186 is assumed to hold, although in the code it is only CSS (`pointer-events-none`) and does not stop keyboard submission.
- Score is a JavaScript number (a double). It is modelled as an unbounded integer, which is exact up to 2^53, about 9 × 10^13 completions.
- The form library's own state (the inline error display, field registration, default values) is not modelled. The schemas' outcomes are returned instead.
- `Validation.ParseDifficulty`: zod's default wording for a value outside the enumeration is written out as text. The radio group only ever submits the three listed values or nothing.
- Toasts: only the last toast shown is kept. Its queueing, display and dismissal are not modelled.
- `src/components/spooky-apparition.tsx` (timers, `Math.random`, floating-point positions) and `src/app/page.tsx` (component composition) are not part of this model. Neither does anything with the game state.
- JSX rendering, styling, skeletons and loaders are not modelled.
