/**
 * The player service: validates a play request, picks the computer's choice,
 * asks the game service for the result, saves the score on a best-effort basis
 * and answers with both choices, the result and a fun fact.
 *
 * Each remote call is an input: the outcome the call would have, given in advance.
 */
module PlayerService {
  import opened Strings
  import opened GameConstants
  import opened GameChoiceExtensions
  import GameService

  /** A JSON body as the client reads it: the value, a JSON `null`, or something that does not parse. */
  datatype Body<T> = Value(value: T) | NullValue | Malformed

  /**
   * The outcome of one HTTP call made with a five-second timeout: an answer with
   * its status code and body, a transport failure, or the timeout firing first.
   */
  datatype CallOutcome<T> =
    | Answered(status: int, body: Body<T>)
    | TransportError
    | TimedOut

  /** `EnsureSuccessStatusCode` passes. */
  predicate IsSuccessStatus(status: int) {
    200 <= status <= 299
  }

  /** A play request: the raw player choice id and the optional user id. */
  datatype PlayRequest = PlayRequest(playerChoiceId: int, userId: NullableString)

  /** What is posted to the score service. */
  datatype ScorePayload = ScorePayload(userId: string, playerChoice: int, computerChoice: GameChoice, result: string)

  /** The remote calls a round makes, in order. */
  datatype RemoteCall =
    | RandomNumberCall
    | ComputeCall(playerChoice: GameChoice, computerChoice: GameChoice)
    | SaveScoreCall(score: ScorePayload)

  datatype GamePlayResponse = GamePlayResponse(
    playerChoice: GameChoice,
    computerChoice: GameChoice,
    result: string,
    funFact: string)

  /** The exception that aborts a round: its HTTP status code and message. */
  datatype RoundFault = RoundFault(status: int, message: string)

  /** What `Play` produces: 200 with a response, 400 with an error, or an escaping fault. */
  datatype PlayResult =
    | Ok(response: GamePlayResponse)
    | BadRequest(error: string)
    | Faulted(fault: RoundFault)

  const ChoiceRequired: string := "PlayerChoiceId is required."
  const GameServiceUnavailable: RoundFault := RoundFault(503, "Game service is currently unavailable.")
  const GameServiceTimedOut: RoundFault := RoundFault(503, "Game service timed out.")
  const InvalidGameServiceResponse: RoundFault := RoundFault(500, "Invalid response from game service.")
  const AnonymousUser: string := "Anonymous"

  /** A player choice id the game can be played with: defined and not `None`. */
  predicate IsPlayableId(id: int) {
    IsDefinedId(id) && id != Id(None)
  }

  /** The random-number answer is usable: a success status and a number from 1 to 100. */
  predicate IsUsableRandomNumber(call: CallOutcome<int>) {
    && call.Answered?
    && IsSuccessStatus(call.status)
    && call.body.Value?
    && 1 <= call.body.value <= 100
  }

  /**
   * `computerChoice` is one of `choices`, and the one the random number selects
   * when that number is usable.
   */
  predicate IsOpponentChoice(choices: seq<GameChoice>, randomCall: CallOutcome<int>, computerChoice: GameChoice)
    requires |choices| > 0
  {
    && computerChoice in choices
    && (IsUsableRandomNumber(randomCall) ==>
          computerChoice == choices[OpponentIndex(randomCall.body.value, |choices|)])
  }

  /** Maps a number from 1 to 100 onto an index of a list of `count` choices. */
  function OpponentIndex(n: int, count: nat): (i: nat)
    requires 1 <= n <= 100 && count > 0
    ensures i < count
    ensures n <= count ==> i == n - 1
  {
    (n - 1) % count
  }

  /** How many of the numbers 1..m select index `i` out of `count`. */
  function SelectingNumbers(m: nat, count: nat, i: nat): nat
    requires m <= 100 && count > 0
  {
    if m == 0 then 0
    else SelectingNumbers(m - 1, count, i) + (if OpponentIndex(m, count) == i then 1 else 0)
  }

  /** The number after a multiple `b` of five, plus `j`, selects index `j`. */
  lemma SelectingNextNumber(b: nat, j: nat, i: nat)
    requires b % 5 == 0 && j < 5 && b + j < 100
    ensures SelectingNumbers(b + j + 1, 5, i) == SelectingNumbers(b + j, 5, i) + (if i == j then 1 else 0)
  {
    assert OpponentIndex(b + j + 1, 5) == j;
  }

  /**
   * With five choices every index is selected by exactly `k` of the numbers
   * 1..5k: each block of five consecutive numbers selects each index once.
   */
  lemma {:induction false} SelectingNumbersPerIndex(k: nat, i: nat)
    requires 5 * k <= 100 && i < 5
    ensures SelectingNumbers(5 * k, 5, i) == k
  {
    if k > 0 {
      SelectingNumbersPerIndex(k - 1, i);
      SelectingBlock(5 * (k - 1), i);
    }
  }

  /** Five consecutive numbers after a multiple of five select each index once. */
  lemma SelectingBlock(b: nat, i: nat)
    requires b % 5 == 0 && b + 5 <= 100 && i < 5
    ensures SelectingNumbers(b + 5, 5, i) == SelectingNumbers(b, 5, i) + 1
  {
    SelectingNextNumber(b, 0, i);
    SelectingNextNumber(b, 1, i);
    SelectingNextNumber(b, 2, i);
    SelectingNextNumber(b, 3, i);
    SelectingNextNumber(b, 4, i);
  }

  /**
   * A uniform number from 1 to 100 selects each of the five valid choices with the
   * same odds: 20 of the 100 numbers each.
   */
  lemma OpponentSelectionIsFair(i: nat)
    requires i < |GetValidChoices()|
    ensures SelectingNumbers(100, |GetValidChoices()|, i) == 20
  {
    SelectingNumbersPerIndex(20, i);
  }

  /** The number 1 selects the first valid choice, Rock. */
  lemma FirstNumberSelectsRock()
    ensures GetValidChoices()[OpponentIndex(1, |GetValidChoices()|)] == Rock
  {
  }

  /**
   * `GetComputerChoiceAsync`: the choice the random-number service selects when its
   * answer is usable, otherwise a locally drawn one; always one of `choices`.
   */
  method GetComputerChoice(choices: seq<GameChoice>, randomCall: CallOutcome<int>) returns (computerChoice: GameChoice)
    requires |choices| > 0
    ensures IsOpponentChoice(choices, randomCall, computerChoice)
  {
    if IsUsableRandomNumber(randomCall) {
      computerChoice := choices[OpponentIndex(randomCall.body.value, |choices|)];
    } else {
      // Random.Shared.Next(choices.Length)
      var i :| 0 <= i < |choices|;
      computerChoice := choices[i];
    }
  }

  /** The outcome of asking the game service: a result label, or the fault that aborts the round. */
  datatype GameCallResult = Resolved(result: string) | Aborted(fault: RoundFault)

  /**
   * `CalculateGameResultAsync`: a transport failure or an unsuccessful status is
   * "unavailable", a timeout is "timed out", and a body that is missing, does not
   * parse, or carries a null or empty result is an invalid response.
   */
  function CalculateGameResult(call: CallOutcome<NullableString>): (r: GameCallResult)
    ensures r.Resolved? <==>
      call.Answered? && IsSuccessStatus(call.status) && call.body.Value? && !IsNullOrEmpty(call.body.value)
    ensures r.Resolved? ==> r.result == call.body.value.value && r.result != ""
    ensures r == Aborted(GameServiceUnavailable) <==>
      call.TransportError? || (call.Answered? && !IsSuccessStatus(call.status))
    ensures r == Aborted(GameServiceTimedOut) <==> call.TimedOut?
    ensures r == Aborted(InvalidGameServiceResponse) <==>
      call.Answered? && IsSuccessStatus(call.status) && !(call.body.Value? && !IsNullOrEmpty(call.body.value))
  {
    match call
    case TransportError => Aborted(GameServiceUnavailable)
    case TimedOut => Aborted(GameServiceTimedOut)
    case Answered(status, body) =>
      if !IsSuccessStatus(status) then Aborted(GameServiceUnavailable)
      else if body.Value? && !IsNullOrEmpty(body.value) then Resolved(body.value.value)
      else Aborted(InvalidGameServiceResponse)
  }

  /** The user id saved with a score: the request's own, or "Anonymous" when it is null or empty. */
  function EffectiveUserId(userId: NullableString): (u: string)
    ensures u != ""
    ensures !IsNullOrEmpty(userId) ==> u == userId.value
    ensures IsNullOrEmpty(userId) ==> u == AnonymousUser
  {
    if IsNullOrEmpty(userId) then AnonymousUser else userId.value
  }

  /**
   * `SaveScoreAsync`: builds the score to post and reports whether the score
   * service accepted it; a failure is only reported, never raised.
   */
  method SaveScore(request: PlayRequest, computerChoice: GameChoice, result: string, saveCall: CallOutcome<()>)
    returns (score: ScorePayload, saved: bool)
    ensures score == ScorePayload(EffectiveUserId(request.userId), request.playerChoiceId, computerChoice, result)
    ensures saved <==> saveCall.Answered? && IsSuccessStatus(saveCall.status)
  {
    score := ScorePayload(EffectiveUserId(request.userId), request.playerChoiceId, computerChoice, result);
    saved := saveCall.Answered? && IsSuccessStatus(saveCall.status);
  }

  /** `GetGameResult`: the response for a finished round, with a fun fact for its choices and result. */
  method GetGameResult(playerChoice: GameChoice, computerChoice: GameChoice, result: string)
    returns (response: GamePlayResponse)
    ensures response.playerChoice == playerChoice && response.computerChoice == computerChoice
    ensures response.result == result
    ensures response.funFact in FunFactChoices(playerChoice, computerChoice, result)
  {
    var funFact := GetFunFactCorrected(playerChoice, computerChoice, result);
    response := GamePlayResponse(playerChoice, computerChoice, result, funFact);
  }

  /**
   * What one round with a playable choice produces: a random-number call, then a
   * compute call with the player's choice and a valid opponent (the one the number
   * selects when it is usable); a game-service failure ends the round there with
   * its fault, otherwise the score is posted and the response carries both
   * choices, the game service's label unchanged and a fun fact for them.
   */
  ghost predicate RoundPlayed(
    request: PlayRequest,
    randomCall: CallOutcome<int>,
    computeCall: CallOutcome<NullableString>,
    result: PlayResult,
    calls: seq<RemoteCall>)
    requires IsPlayableId(request.playerChoiceId)
  {
    var player := ChoiceOf(request.playerChoiceId);
    && 2 <= |calls| <= 3
    && calls[0] == RandomNumberCall
    && calls[1].ComputeCall?
    && calls[1].playerChoice == player
    && IsOpponentChoice(GetValidChoices(), randomCall, calls[1].computerChoice)
    && match CalculateGameResult(computeCall) {
         case Aborted(fault) =>
           result == Faulted(fault) && |calls| == 2
         case Resolved(outcome) =>
           var opponent := calls[1].computerChoice;
           && |calls| == 3
           && calls[2] == SaveScoreCall(ScorePayload(EffectiveUserId(request.userId), request.playerChoiceId, opponent, outcome))
           && result.Ok?
           && result.response == GamePlayResponse(player, opponent, outcome, result.response.funFact)
           && result.response.funFact in FunFactChoices(player, opponent, outcome)
       }
  }

  /**
   * `Play`: a missing or undefined choice is rejected before any remote call;
   * a playable one plays a round.
   */
  method Play(
    request: PlayRequest,
    randomCall: CallOutcome<int>,
    computeCall: CallOutcome<NullableString>,
    saveCall: CallOutcome<()>)
    returns (result: PlayResult, calls: seq<RemoteCall>)
    ensures request.playerChoiceId == Id(None) ==>
      result == BadRequest(ChoiceRequired) && calls == []
    ensures request.playerChoiceId != Id(None) && !IsDefinedId(request.playerChoiceId) ==>
      result == BadRequest(InvalidChoiceMessage()) && calls == []
    ensures IsPlayableId(request.playerChoiceId) ==>
      RoundPlayed(request, randomCall, computeCall, result, calls)
  {
    if request.playerChoiceId == Id(None) {
      return BadRequest(ChoiceRequired), [];
    }
    if !IsDefinedId(request.playerChoiceId) {
      return BadRequest(InvalidChoiceMessage()), [];
    }
    result, calls := PlayRound(request, randomCall, computeCall, saveCall);
  }

  /**
   * The body of `Play` after validation: opponent, result, score and response, in
   * that order; only a game-service failure aborts the round, and nothing is
   * saved then.
   */
  method PlayRound(
    request: PlayRequest,
    randomCall: CallOutcome<int>,
    computeCall: CallOutcome<NullableString>,
    saveCall: CallOutcome<()>)
    returns (result: PlayResult, calls: seq<RemoteCall>)
    requires IsPlayableId(request.playerChoiceId)
    ensures RoundPlayed(request, randomCall, computeCall, result, calls)
  {
    var player := ChoiceOf(request.playerChoiceId);
    var choices := GetValidChoices();
    var computerChoice := GetComputerChoice(choices, randomCall);
    var gameResult := CalculateGameResult(computeCall);
    if gameResult.Aborted? {
      return Faulted(gameResult.fault), [RandomNumberCall, ComputeCall(player, computerChoice)];
    }
    var score, _ := SaveScore(request, computerChoice, gameResult.result, saveCall);
    calls := [RandomNumberCall, ComputeCall(player, computerChoice), SaveScoreCall(score)];
    var response := GetGameResult(player, computerChoice, gameResult.result);
    result := Ok(response);
  }

  /** The game service's answer to a compute request, as the player service receives it. */
  function EngineReply(request: GameService.ComputeRequest): CallOutcome<NullableString> {
    match GameService.Compute(request)
    case Ok(outcome) => Answered(200, Value(Str(outcome)))
    case BadRequest(_) => Answered(400, NullValue)
    case InternalServerError(_) => Answered(500, NullValue)
  }

  /** A real choice's id passes the game service's validation and decodes back to the choice. */
  lemma RealChoiceIdIsValid(c: GameChoice)
    requires c != None
    ensures GameService.IsValidChoiceId(Id(c)) && ChoiceOf(Id(c)) == c
  {
    IdRoundTrip(c);
  }

  /** A label the game service answers with reaches the player service unchanged. */
  lemma EngineLabelArrives(request: GameService.ComputeRequest)
    ensures var answer := GameService.Compute(request);
      answer.Ok? && answer.result != "" ==> CalculateGameResult(EngineReply(request)) == Resolved(answer.result)
  {
  }

  /**
   * Against a working game service a round with valid choices is never aborted,
   * and its label says who wins according to `WinsAgainst`.
   */
  lemma EngineResolvesEveryRound(player: GameChoice, computer: GameChoice)
    requires player != None && computer != None
    ensures var r := CalculateGameResult(EngineReply(GameService.ComputeRequest(Id(player), Id(computer))));
      && r.Resolved?
      && (r.result == TieResult <==> player == computer)
      && (r.result == PlayerWinsResult <==> Beats(player, computer))
      && (r.result == ComputerWinsResult <==> Beats(computer, player))
  {
    RealChoiceIdIsValid(player);
    RealChoiceIdIsValid(computer);
    GameService.ComputeTotalOnValidChoices(Id(player), Id(computer));
    EngineLabelArrives(GameService.ComputeRequest(Id(player), Id(computer)));
    assert GameService.Compute(GameService.ComputeRequest(Id(player), Id(computer))).result != "";
  }

  /** A worked round, opponent step: the number 3 selects Scissors. */
  lemma ThreeSelectsScissors()
    ensures GetValidChoices()[OpponentIndex(3, |GetValidChoices()|)] == Scissors
  {
  }

  /** A worked round, response step: the fun fact is the Rock-crushes-scissors entry. */
  lemma RockBeatsScissorsFact()
    ensures FunFactChoices(Rock, Scissors, PlayerWinsResult) == {"Rock crushes scissors... sharp edges beware!"}
  {
    assert Beats(Rock, Scissors) && PlayerWinsResult != TieResult;
    FunFactsByCase(Rock, Scissors, PlayerWinsResult);
  }
}
