/** The two form schemas of the game screen (src/components/game-ui.tsx):
    the environment prompt must be 15 to 300 characters long, and the
    objective form needs a difficulty chosen from easy, medium and hard.
    A JavaScript string's length counts UTF-16 code units, so that is what
    the prompt bounds are measured in here. */
module Validation {
  import opened Wrappers

  const PromptMin: nat := 15
  const PromptMax: nat := 300
  const PromptTooShort := "The description of your nightmare is too short."
  const PromptTooLong := "The nightmare is becoming too elaborate."
  const DifficultyRequired := "You must choose your fate."

  /** Number of UTF-16 code units JavaScript uses for `s`: one for a character of
      the Basic Multilingual Plane, two (a surrogate pair) for any other. */
  function Utf16Length(s: string): nat
  {
    if s == [] then 0
    else (if s[0] as int < 0x1_0000 then 1 else 2) + Utf16Length(s[1..])
  }

  /** Every character of `s` is in the Basic Multilingual Plane (ASCII text, say). */
  ghost predicate InBmp(s: string)
  {
    forall i :: 0 <= i < |s| ==> s[i] as int < 0x1_0000
  }

  lemma {:induction false} Utf16LengthBounds(s: string)
    ensures |s| <= Utf16Length(s) <= 2 * |s|
  {
    if s != [] {
      Utf16LengthBounds(s[1..]);
    }
  }

  lemma {:induction false} Utf16LengthOfBmp(s: string)
    requires InBmp(s)
    ensures Utf16Length(s) == |s|
  {
    if s != [] {
      assert InBmp(s[1..]) by {
        forall i | 0 <= i < |s[1..]| ensures s[1..][i] as int < 0x1_0000 {
          assert s[1..][i] == s[i + 1];
        }
      }
      Utf16LengthOfBmp(s[1..]);
    }
  }

  /** One link of a zod string schema chain: `.min(n, message)` or `.max(n, message)`. */
  datatype LengthCheck = Min(bound: nat, message: string) | Max(bound: nat, message: string)

  /** The prompt schema, in the order its checks are declared. */
  const PromptChecks := [Min(PromptMin, PromptTooShort), Max(PromptMax, PromptTooLong)]

  /** The messages of the checks that a string of the given length fails, in declaration order. */
  function Issues(length: nat, checks: seq<LengthCheck>): seq<string>
  {
    if checks == [] then []
    else
      var c := checks[0];
      var fails := match c
        case Min(n, _) => length < n
        case Max(n, _) => length > n;
      (if fails then [c.message] else []) + Issues(length, checks[1..])
  }

  lemma PromptIssues(length: nat)
    ensures Issues(length, PromptChecks) ==
      (if length < PromptMin then [PromptTooShort] else []) +
      (if length > PromptMax then [PromptTooLong] else [])
  {
    var rest := PromptChecks[1..];
    assert rest == [Max(PromptMax, PromptTooLong)];
    assert rest[1..] == [];
    assert Issues(length, rest) == (if length > PromptMax then [PromptTooLong] else []) + Issues(length, []);
    assert Issues(length, PromptChecks) == (if length < PromptMin then [PromptTooShort] else []) + Issues(length, rest);
  }

  /** Runs the prompt schema: the prompt itself when it passes, otherwise the
      first failing check's message, which the form shows under the text box. */
  function ValidatePrompt(prompt: string): (r: Result<string, string>)
    ensures r.Ok? <==> PromptMin <= Utf16Length(prompt) <= PromptMax
    ensures r.Ok? ==> r.value == prompt
    ensures r == Err(PromptTooShort) <==> Utf16Length(prompt) < PromptMin
    ensures r == Err(PromptTooLong) <==> Utf16Length(prompt) > PromptMax
  {
    var issues := Issues(Utf16Length(prompt), PromptChecks);
    PromptIssues(Utf16Length(prompt));
    if issues == [] then Ok(prompt) else Err(issues[0])
  }

  /** A prompt of 7 characters or fewer is always too short, one of more than
      300 characters always too long; one of 15 to 150 characters always fits
      (whatever its characters), and a BMP-only prompt is accepted exactly
      when it has 15 to 300 characters. */
  lemma PromptLengthInCharacters(prompt: string)
    ensures |prompt| < 8 ==> ValidatePrompt(prompt) == Err(PromptTooShort)
    ensures |prompt| > PromptMax ==> ValidatePrompt(prompt) == Err(PromptTooLong)
    ensures PromptMin <= |prompt| <= PromptMax / 2 ==> ValidatePrompt(prompt) == Ok(prompt)
    ensures InBmp(prompt) ==>
      (ValidatePrompt(prompt).Ok? <==> PromptMin <= |prompt| <= PromptMax)
  {
    Utf16LengthBounds(prompt);
    if InBmp(prompt) {
      Utf16LengthOfBmp(prompt);
    }
  }

  datatype Difficulty = Easy | Medium | Hard

  /** The value each radio button of the difficulty group submits. */
  function DifficultyName(d: Difficulty): string
  {
    match d
    case Easy => "easy"
    case Medium => "medium"
    case Hard => "hard"
  }

  /** Why the difficulty schema refuses a value: nothing chosen (shown as
      DifficultyRequired), or a string outside the enumeration. */
  datatype DifficultyError = Missing | NotAnOption(received: string)

  /** The message the difficulty field shows under the radio group for a refusal. */
  function DifficultyMessage(e: DifficultyError): (m: string)
    ensures e == Missing <==> m == DifficultyRequired
  {
    match e
    case Missing => DifficultyRequired
    case NotAnOption(received) => "Invalid enum value. Expected 'easy' | 'medium' | 'hard', received '" + received + "'"
  }

  /** Runs the difficulty schema on the form's raw value (None when no radio button is checked). */
  function ParseDifficulty(raw: Option<string>): (r: Result<Difficulty, DifficultyError>)
    ensures forall d :: r == Ok(d) <==> raw == Some(DifficultyName(d))
    ensures r == Err(Missing) <==> raw == None
    ensures r.Err? && raw.Some? ==> r.error == NotAnOption(raw.value)
  {
    match raw
    case None => Err(Missing)
    case Some(s) =>
      if s == "easy" then Ok(Easy)
      else if s == "medium" then Ok(Medium)
      else if s == "hard" then Ok(Hard)
      else Err(NotAnOption(s))
  }
}
