/** The game service: resolves one pair of choices into a result label. */
module GameService {
  import opened GameConstants
  import opened GameChoiceExtensions

  /** The compute request: both choices as raw enumeration values. */
  datatype ComputeRequest = ComputeRequest(playerChoice: int, computerChoice: int)

  /** What `Compute` answers: 200 with a result label, 400 with an error, or 500. */
  datatype ComputeResponse =
    | Ok(result: string)
    | BadRequest(error: string)
    | InternalServerError(error: string)

  const InvalidGameChoices: string := "Invalid game choices."
  const InternalError: string := "Internal server error."

  /** `GetValidChoices().Contains((GameChoice)id)`: the id is one of the five real choices. */
  predicate IsValidChoiceId(id: int) {
    IsDefinedId(id) && ChoiceOf(id) in GetValidChoices()
  }

  /**
   * `Compute`: rejects the sentinel, then any value outside the valid choices,
   * then answers "Tie" for equal choices and otherwise asks `WinsAgainst`
   * whether the player's choice defeats the computer's.
   */
  function Compute(request: ComputeRequest): (r: ComputeResponse)
    ensures r == BadRequest(InvalidGameChoices) <==>
      request.playerChoice == Id(None) || request.computerChoice == Id(None)
    ensures r == BadRequest(InvalidChoiceMessage()) <==>
      request.playerChoice != Id(None) && request.computerChoice != Id(None) &&
      !(IsValidChoiceId(request.playerChoice) && IsValidChoiceId(request.computerChoice))
    ensures IsValidChoiceId(request.playerChoice) && IsValidChoiceId(request.computerChoice) ==>
      var p, c := ChoiceOf(request.playerChoice), ChoiceOf(request.computerChoice);
      && r.Ok?
      && (r.result == TieResult <==> p == c)
      && (r.result == PlayerWinsResult <==> Beats(p, c))
      && (r.result == ComputerWinsResult <==> Beats(c, p))
    ensures !r.InternalServerError?
  {
    var player, computer := request.playerChoice, request.computerChoice;
    if player == Id(None) || computer == Id(None) then
      BadRequest(InvalidGameChoices)
    else if !IsValidChoiceId(player) || !IsValidChoiceId(computer) then
      ErrorMessagesDiffer();
      BadRequest(InvalidChoiceMessage())
    else if player == computer then
      BeatsIrreflexive();
      Ok(TieResult)
    else
      var p, c := ChoiceOf(player), ChoiceOf(computer);
      ValidIdsAreRealChoices(player);
      ValidIdsAreRealChoices(computer);
      WinsAgainstKeys();
      BeatsExactlyOneDirection();
      if p !in WinsAgainst then InternalServerError(InternalError)
      else if c in WinsAgainst[p] then Ok(PlayerWinsResult)
      else Ok(ComputerWinsResult)
  }

  /** The two 400 messages are different strings. */
  lemma ErrorMessagesDiffer()
    ensures InvalidChoiceMessage() != InvalidGameChoices
  {
    assert |InvalidChoiceMessage()| > |InvalidChoicePrefix| > |InvalidGameChoices|;
  }

  /** A valid id is the id of a real choice, and different valid ids are different choices. */
  lemma ValidIdsAreRealChoices(id: int)
    requires IsValidChoiceId(id)
    ensures 0 <= id <= 4 && ChoiceOf(id) != None
  {
  }

  /** Swapping two different valid choices swaps the winner. */
  lemma ComputeSwapsWinner(a: int, b: int)
    requires IsValidChoiceId(a) && IsValidChoiceId(b) && a != b
    ensures Compute(ComputeRequest(a, b)) == Ok(PlayerWinsResult) <==>
      Compute(ComputeRequest(b, a)) == Ok(ComputerWinsResult)
    ensures Compute(ComputeRequest(a, b)).result != TieResult
  {
    IdRoundTrip(ChoiceOf(a));
    IdRoundTrip(ChoiceOf(b));
  }

  /** Every pair of valid choices gets one of the three labels; the 500 answer never happens. */
  lemma ComputeTotalOnValidChoices(a: int, b: int)
    requires IsValidChoiceId(a) && IsValidChoiceId(b)
    ensures Compute(ComputeRequest(a, b)).Ok?
    ensures Compute(ComputeRequest(a, b)).result in {TieResult, PlayerWinsResult, ComputerWinsResult}
  {
    BeatsExactlyOneDirection();
    IdRoundTrip(ChoiceOf(a));
    IdRoundTrip(ChoiceOf(b));
  }
}
