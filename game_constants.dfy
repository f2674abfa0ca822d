/**
 * The shared game vocabulary: the `GameChoice` enumeration, the "wins against"
 * table, the fun-fact corpora and the fun-fact lookup.
 */
module GameConstants {

  /**
   * `GameChoice`: the five real choices and the `None` sentinel that stands for
   * "no choice given". On the wire a choice is the enumeration's underlying
   * integer (see `Id`); an integer that is not one of these six values is an
   * undefined enumeration value.
   */
  datatype GameChoice = None | Rock | Paper | Scissors | Lizard | Spock

  /** The underlying integer of each enumeration member: `None` is -1, `Rock`..`Spock` are 0..4. */
  function Id(c: GameChoice): int {
    match c
    case None => -1
    case Rock => 0
    case Paper => 1
    case Scissors => 2
    case Lizard => 3
    case Spock => 4
  }

  /** `Enum.IsDefined(typeof(GameChoice), id)`. */
  predicate IsDefinedId(id: int) {
    -1 <= id <= 4
  }

  /** The cast `(GameChoice)id` of a defined integer. */
  function ChoiceOf(id: int): (c: GameChoice)
    requires IsDefinedId(id)
    ensures Id(c) == id
  {
    if id == -1 then None
    else if id == 0 then Rock
    else if id == 1 then Paper
    else if id == 2 then Scissors
    else if id == 3 then Lizard
    else Spock
  }

  /** Ids are exactly the defined integers, and casting back gives the member again. */
  lemma IdRoundTrip(c: GameChoice)
    ensures IsDefinedId(Id(c)) && ChoiceOf(Id(c)) == c
  {
  }

  /** An integer is defined exactly when some member has it as its underlying value. */
  lemma DefinedIdsAreIds(id: int)
    ensures IsDefinedId(id) <==> exists c :: Id(c) == id
  {
    if IsDefinedId(id) {
      assert Id(ChoiceOf(id)) == id;
    }
  }

  /**
   * `Enum.GetValues<GameChoice>()`: every member, ordered by the unsigned value of
   * its underlying integer, so that `None` (-1) comes last.
   */
  const AllValues: seq<GameChoice> := [Rock, Paper, Scissors, Lizard, Spock, None]

  /** The position of a member in `AllValues`. */
  function Ordinal(c: GameChoice): (k: nat)
    ensures k < |AllValues| && AllValues[k] == c
  {
    match c
    case Rock => 0
    case Paper => 1
    case Scissors => 2
    case Lizard => 3
    case Spock => 4
    case None => 5
  }

  /** `Enum.GetValues` lists the members in `Ordinal` order. */
  lemma AllValuesInOrdinalOrder()
    ensures forall i :: 0 <= i < |AllValues| ==> Ordinal(AllValues[i]) == i
  {
  }

  /** `Enum.GetValues` lists every member exactly once. */
  lemma AllValuesOnce(c: GameChoice)
    ensures multiset(AllValues)[c] == 1
  {
  }

  /** `c.ToString()`: the member's declared name. */
  function Name(c: GameChoice): string {
    match c
    case None => "None"
    case Rock => "Rock"
    case Paper => "Paper"
    case Scissors => "Scissors"
    case Lizard => "Lizard"
    case Spock => "Spock"
  }

  /** The result labels the game service emits. */
  const TieResult: string := "Tie"
  const PlayerWinsResult: string := "Player wins!"
  const ComputerWinsResult: string := "Computer wins!"

  /** `WinsAgainst`: for each real choice, the two choices it defeats. */
  const WinsAgainst: map<GameChoice, seq<GameChoice>> := map[
    Rock := [Scissors, Lizard],
    Paper := [Rock, Spock],
    Scissors := [Paper, Lizard],
    Lizard := [Paper, Spock],
    Spock := [Rock, Scissors]
  ]

  /** `a` defeats `b` according to `WinsAgainst`. */
  predicate Beats(a: GameChoice, b: GameChoice) {
    a in WinsAgainst && b in WinsAgainst[a]
  }

  /** The (winner, loser) edges of the `WinsAgainst` relation. */
  function BeatsEdges(): set<(GameChoice, GameChoice)> {
    set a, b | a in WinsAgainst && b in WinsAgainst[a] :: (a, b)
  }

  /** `WinsAgainst` has an entry for every real choice and none for `None`. */
  lemma WinsAgainstKeys()
    ensures forall c :: c in WinsAgainst <==> c != None
  {
  }

  /** No choice defeats itself. */
  lemma BeatsIrreflexive()
    ensures forall c :: !Beats(c, c)
  {
  }

  /** Every entry of `WinsAgainst` lists exactly two different real choices. */
  lemma WinsAgainstTwoEach()
    ensures forall c :: c in WinsAgainst ==>
      |WinsAgainst[c]| == 2 && WinsAgainst[c][0] != WinsAgainst[c][1] && None !in WinsAgainst[c]
  {
  }

  /** Of two different real choices, exactly one defeats the other. */
  lemma BeatsExactlyOneDirection()
    ensures forall a, b :: a != None && b != None && a != b ==> (Beats(a, b) <==> !Beats(b, a))
  {
  }

  /** The edges of `WinsAgainst`, written out. */
  const ExplicitEdges: set<(GameChoice, GameChoice)> := {
    (Rock, Scissors), (Rock, Lizard), (Paper, Rock), (Paper, Spock), (Scissors, Paper),
    (Scissors, Lizard), (Lizard, Paper), (Lizard, Spock), (Spock, Rock), (Spock, Scissors)
  }

  lemma BeatsEdgesExplicit()
    ensures BeatsEdges() == ExplicitEdges
  {
    forall e | e in BeatsEdges() ensures e in ExplicitEdges {
      var (a, b) := e;
      assert a in WinsAgainst && b in WinsAgainst[a];
    }
    forall e | e in ExplicitEdges ensures e in BeatsEdges() {
      var (a, b) := e;
      assert a in WinsAgainst && b in WinsAgainst[a];
    }
  }

  /** The relation has ten edges: one per unordered pair of the five real choices. */
  lemma BeatsEdgesCount()
    ensures |BeatsEdges()| == 10
  {
    BeatsEdgesExplicit();
    ExplicitEdgesCount();
  }

  lemma ExplicitEdgesCount()
    ensures |ExplicitEdges| == 10
  {
  }

  /** `FunFacts`: a fact for each (winner, loser) pair. */
  const FunFacts: map<(GameChoice, GameChoice), string> := map[
    (Rock, Scissors) := "Rock crushes scissors... sharp edges beware!",
    (Rock, Lizard) := "Rock crushes lizard... ouch, flat as a pancake!",
    (Paper, Rock) := "Paper covers rock... simple yet effective!",
    (Paper, Spock) := "Paper disproves Spock... logic can't beat bureaucracy!",
    (Scissors, Paper) := "Scissors cuts paper... snip snip!",
    (Scissors, Lizard) := "Scissors decapitates lizard... ouch!",
    (Lizard, Paper) := "Lizard eats paper... nom nom nom!",
    (Lizard, Spock) := "Lizard poisons Spock... live long and prosper? Not today!",
    (Spock, Rock) := "Spock vaporizes rock... poof, it's gone!",
    (Spock, Scissors) := "Spock smashes scissors... Vulcan strength wins!"
  ]

  const TieFunFacts: seq<string> := [
    "It's a tie! Even the universe can't decide!",
    "A draw! The cosmos is in balance!"
  ]

  const GeneralFunFacts: seq<string> := [
    "Rock, Paper, Scissors, Lizard, Spock: The ultimate test of strategy!",
    "Did you know? This game was popularized by The Big Bang Theory!"
  ]

  /** The keys of `FunFacts` are exactly the edges of `WinsAgainst`. */
  lemma FunFactKeysAreBeatsEdges()
    ensures FunFacts.Keys == BeatsEdges()
  {
    BeatsEdgesCount();
  }

  /** The strings a random index into `corpus` can select. */
  function Corpus(corpus: seq<string>): (facts: set<string>)
    ensures forall f :: f in facts <==> f in corpus
    ensures |corpus| > 0 ==> facts != {}
  {
    var facts := set f | f in corpus;
    assert |corpus| > 0 ==> corpus[0] in facts;
    facts
  }

  /** A fact of one of the three corpora. */
  predicate IsKnownFact(f: string) {
    f in FunFacts.Values || f in TieFunFacts || f in GeneralFunFacts
  }

  /**
   * The facts `GetFunFact` may return, as the lookup is written: a tie fact when the
   * result label is "Tie!", the pair's own fact when (player, computer) is a key,
   * and a general fact otherwise. The random index into a corpus is modelled by
   * returning the whole set the index ranges over.
   */
  function FunFactChoicesAsWritten(player: GameChoice, computer: GameChoice, gameResult: string): set<string> {
    if gameResult == "Tie!" then Corpus(TieFunFacts)
    else if (player, computer) in FunFacts then {FunFacts[(player, computer)]}
    else Corpus(GeneralFunFacts)
  }

  /**
   * As written: a label "Tie!" draws from the tie corpus, a winning pair from its own
   * fact, and anything else from the general corpus; there is always a known fact.
   */
  lemma FunFactsByCaseAsWritten(player: GameChoice, computer: GameChoice, gameResult: string)
    ensures var facts := FunFactChoicesAsWritten(player, computer, gameResult);
      && facts != {}
      && (forall f :: f in facts ==> IsKnownFact(f) && f != "")
      && (gameResult == "Tie!" ==> forall f :: f in facts ==> f in TieFunFacts)
      && (gameResult != "Tie!" && Beats(player, computer) ==> facts == {FunFacts[(player, computer)]})
      && (gameResult != "Tie!" && !Beats(player, computer) ==> forall f :: f in facts ==> f in GeneralFunFacts)
  {
    FunFactKeysAreBeatsEdges();
    if gameResult != "Tie!" && (player, computer) in FunFacts {
      assert FunFacts[(player, computer)] in FunFacts.Values;
    }
  }

  /**
   * The game service labels a tie "Tie", so the as-written lookup never reaches the
   * tie corpus for a real round: a tie gets a general fact instead.
   */
  lemma TieRoundMissesTieFactsAsWritten(c: GameChoice)
    ensures forall f :: f in FunFactChoicesAsWritten(c, c, TieResult) ==> f in GeneralFunFacts && f !in TieFunFacts
  {
    BeatsIrreflexive();
    FunFactKeysAreBeatsEdges();
  }

  /**
   * The facts `GetFunFact` may return once the tie test matches the game service's
   * own label `TieResult`.
   */
  function FunFactChoices(player: GameChoice, computer: GameChoice, gameResult: string): set<string> {
    if gameResult == TieResult then Corpus(TieFunFacts)
    else if (player, computer) in FunFacts then {FunFacts[(player, computer)]}
    else Corpus(GeneralFunFacts)
  }

  /**
   * A tie draws from the tie corpus, a winning pair from its own fact, and anything
   * else from the general corpus; there is always a known fact to pick.
   */
  lemma FunFactsByCase(player: GameChoice, computer: GameChoice, gameResult: string)
    ensures var facts := FunFactChoices(player, computer, gameResult);
      && facts != {}
      && (forall f :: f in facts ==> IsKnownFact(f) && f != "")
      && (gameResult == TieResult ==> forall f :: f in facts ==> f in TieFunFacts)
      && (gameResult != TieResult && Beats(player, computer) ==> facts == {FunFacts[(player, computer)]})
      && (gameResult != TieResult && !Beats(player, computer) ==> forall f :: f in facts ==> f in GeneralFunFacts)
  {
    FunFactKeysAreBeatsEdges();
    if gameResult != TieResult && (player, computer) in FunFacts {
      assert FunFacts[(player, computer)] in FunFacts.Values;
    }
  }

  /** With the corrected test a tie round draws from the tie corpus, and from nothing else. */
  lemma TieRoundGetsTieFact(c: GameChoice)
    ensures FunFactChoices(c, c, TieResult) == Corpus(TieFunFacts)
  {
  }

  /**
   * Off the two tie labels the lookups agree: the corrected test changes only what
   * a "Tie" or "Tie!" label draws.
   */
  lemma FunFactLookupsAgreeOffTies(player: GameChoice, computer: GameChoice, gameResult: string)
    ensures gameResult != TieResult && gameResult != "Tie!" ==>
      FunFactChoicesAsWritten(player, computer, gameResult) == FunFactChoices(player, computer, gameResult)
  {
  }

  /**
   * `GetFunFact` as written: picks one fact from `FunFactChoicesAsWritten`;
   * `Random.Shared.Next(n)` is an arbitrary index below `n`.
   */
  method GetFunFact(player: GameChoice, computer: GameChoice, gameResult: string) returns (fact: string)
    ensures fact in FunFactChoicesAsWritten(player, computer, gameResult)
  {
    if gameResult == "Tie!" {
      var i :| 0 <= i < |TieFunFacts|;
      fact := TieFunFacts[i];
    } else if (player, computer) in FunFacts {
      fact := FunFacts[(player, computer)];
    } else {
      var i :| 0 <= i < |GeneralFunFacts|;
      fact := GeneralFunFacts[i];
    }
  }

  /** `GetFunFact` with the tie test corrected to `TieResult`: picks one fact from `FunFactChoices`. */
  method GetFunFactCorrected(player: GameChoice, computer: GameChoice, gameResult: string) returns (fact: string)
    ensures fact in FunFactChoices(player, computer, gameResult)
  {
    if gameResult == TieResult {
      var i :| 0 <= i < |TieFunFacts|;
      fact := TieFunFacts[i];
    } else if (player, computer) in FunFacts {
      fact := FunFacts[(player, computer)];
    } else {
      var i :| 0 <= i < |GeneralFunFacts|;
      fact := GeneralFunFacts[i];
    }
  }
}
