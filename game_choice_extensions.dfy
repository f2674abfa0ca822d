/** The valid choices and their names, as offered to players and quoted in error messages. */
module GameChoiceExtensions {
  import opened Collections
  import opened Strings
  import opened GameConstants
  import EnumHelper

  /** The filter `GetValidChoices` applies: anything but the sentinel. */
  predicate IsValidChoice(c: GameChoice) {
    c != None
  }

  /** `GetValidChoices`: the real choices in declaration order, without the `None` sentinel. */
  function GetValidChoices(): (r: seq<GameChoice>)
    ensures None !in r
    ensures forall c :: c != None ==> c in r
    ensures r == [Rock, Paper, Scissors, Lizard, Spock]
  {
    Where(AllValues, IsValidChoice)
  }

  /** Excluding the sentinel with the generic helper gives the same list. */
  lemma ValuesWithoutNoneAreValidChoices()
    ensures EnumHelper.GetValuesWithout(None) == GetValidChoices()
  {
    var w := EnumHelper.GetValuesWithout(None);
    assert w == GetValidChoices();
  }

  /** `c.ToString().ToLowerInvariant()`. */
  function LowerName(c: GameChoice): string {
    ToLowerInvariant(Name(c))
  }

  /** The lower-cased names of the five real choices, spelled out. */
  lemma LowerNamesSpelled()
    ensures LowerName(Rock) == "rock" && LowerName(Paper) == "paper"
    ensures LowerName(Scissors) == "scissors" && LowerName(Lizard) == "lizard"
    ensures LowerName(Spock) == "spock"
  {
    assert LowerChar('R') == 'r' && LowerChar('P') == 'p' && LowerChar('S') == 's' && LowerChar('L') == 'l';
    assert ToLowerInvariant("Rock") == "rock";
    assert ToLowerInvariant("Paper") == "paper";
    assert ToLowerInvariant("Scissors") == "scissors";
    assert ToLowerInvariant("Lizard") == "lizard";
    assert ToLowerInvariant("Spock") == "spock";
  }

  /** `GetValidChoiceNames`: the lower-cased name of each valid choice, in the same order. */
  function GetValidChoiceNames(): (r: seq<string>)
    ensures |r| == |GetValidChoices()|
    ensures forall i :: 0 <= i < |r| ==> r[i] == LowerName(GetValidChoices()[i])
    ensures r == ["rock", "paper", "scissors", "lizard", "spock"]
  {
    var r := Select(GetValidChoices(), LowerName);
    ValidChoiceNamesSpelled();
    r
  }

  /** The names are non-empty and carry no upper-case letter. */
  lemma ValidChoiceNamesLower()
    ensures var r := GetValidChoiceNames();
      forall i :: 0 <= i < |r| ==> HasNoUpper(r[i]) && r[i] != ""
  {
    var r := GetValidChoiceNames();
    forall i | 0 <= i < |r| ensures HasNoUpper(r[i]) && r[i] != "" {
      var c := GetValidChoices()[i];
      assert r[i] == ToLowerInvariant(Name(c));
      assert |Name(c)| > 0;
    }
  }

  /** No two names are equal. */
  lemma ValidChoiceNamesDistinct()
    ensures var r := GetValidChoiceNames();
      forall i, j :: 0 <= i < j < |r| ==> r[i] != r[j]
  {
    SpelledNamesDistinct(GetValidChoiceNames());
  }

  /** The five spelled-out names differ in length or in their first letter. */
  lemma SpelledNamesDistinct(r: seq<string>)
    requires r == ["rock", "paper", "scissors", "lizard", "spock"]
    ensures forall i, j :: 0 <= i < j < |r| ==> r[i] != r[j]
  {
    var lengths, initials := [4, 5, 8, 6, 5], "rpsls";
    assert forall i :: 0 <= i < |r| ==> |r[i]| == lengths[i] && r[i][0] == initials[i];
    forall i, j | 0 <= i < j < |r| ensures r[i] != r[j] {
      assert lengths[i] != lengths[j] || initials[i] != initials[j];
    }
  }

  /** Mapping the valid choices to their lower-cased names spells out the five names. */
  lemma ValidChoiceNamesSpelled()
    ensures Select(GetValidChoices(), LowerName) == ["rock", "paper", "scissors", "lizard", "spock"]
  {
    LowerNamesSpelled();
    var r := Select(GetValidChoices(), LowerName);
    assert r[0] == LowerName(Rock) && r[1] == LowerName(Paper) && r[2] == LowerName(Scissors);
    assert r[3] == LowerName(Lizard) && r[4] == LowerName(Spock);
  }

  /** The prefix of the message that lists the valid choice names. */
  const InvalidChoicePrefix: string := "Invalid choice. Choose "

  /** The error message that lists the valid choice names, comma-separated. */
  function InvalidChoiceMessage(): (msg: string)
    ensures |msg| > |InvalidChoicePrefix| && msg[..|InvalidChoicePrefix|] == InvalidChoicePrefix
    ensures forall i :: 0 <= i < |GetValidChoiceNames()| ==> IsInfix(GetValidChoiceNames()[i], msg)
  {
    ListingMessage(InvalidChoicePrefix, GetValidChoiceNames())
  }

  /**
   * `prefix + string.Join(", ", names) + "."`: starts with the prefix and contains
   * every name.
   */
  function ListingMessage(prefix: string, names: seq<string>): (msg: string)
    ensures |msg| > |prefix| && msg[..|prefix|] == prefix
    ensures forall i :: 0 <= i < |names| ==> IsInfix(names[i], msg)
  {
    var joined := Join(", ", names);
    var msg := prefix + joined + ".";
    forall i | 0 <= i < |names| ensures IsInfix(names[i], msg) {
      JoinContainsEach(", ", names, i);
      var k :| 0 <= k <= |joined| - |names[i]| && OccursAt(names[i], joined, k);
      assert msg[|prefix| + k..|prefix| + k + |names[i]|] == joined[k..k + |names[i]|];
      assert OccursAt(names[i], msg, |prefix| + k);
    }
    msg
  }
}
