/**
 * The score service: an unbounded in-memory store of game results, written by
 * `Add`, emptied by `Reset` and `ClearGameResultsForTesting`, and read by
 * `GetRecent`, which returns the ten entries with the latest timestamps.
 */
module ScoreService {
  import opened Strings
  import opened Collections

  /** A stored game result; choices are raw enumeration values, timestamps are ticks. */
  datatype GameResult = GameResult(
    userId: NullableString,
    playerChoice: int,
    computerChoice: int,
    result: NullableString,
    timestamp: int)

  /** The record `GetRecent` returns for each selected entry. */
  datatype RecentResponse = RecentResponse(
    userId: NullableString,
    playerChoice: int,
    computerChoice: int,
    result: NullableString,
    timestamp: int)

  datatype AddResponse = Ok | BadRequest(error: string)

  const InvalidGameResult: string := "Invalid game result."

  /** How many entries `GetRecent` returns at most. */
  const RecentLimit: nat := 10

  function Min(a: nat, b: nat): nat {
    if a <= b then a else b
  }

  /** Timestamps do not increase from one entry to the next. */
  ghost predicate SortedByTimestampDesc(s: seq<GameResult>) {
    forall i, j :: 0 <= i < j < |s| ==> s[i].timestamp >= s[j].timestamp
  }

  /** Places `x` into a sequence sorted by descending timestamp, before the entries it does not trail. */
  function InsertByTimestamp(x: GameResult, s: seq<GameResult>): (r: seq<GameResult>)
    requires SortedByTimestampDesc(s)
    ensures SortedByTimestampDesc(r)
    ensures multiset(r) == multiset(s) + multiset{x}
    ensures |r| == |s| + 1 && (r[0] == x || (s != [] && r[0] == s[0]))
  {
    if s == [] || s[0].timestamp <= x.timestamp then
      [x] + s
    else
      var rest := InsertByTimestamp(x, s[1..]);
      assert s == [s[0]] + s[1..];
      assert s[0].timestamp >= rest[0].timestamp;
      [s[0]] + rest
  }

  /** `OrderByDescending(r => r.Timestamp)`: the same entries, latest first. */
  function SortByTimestampDesc(s: seq<GameResult>): (r: seq<GameResult>)
    ensures SortedByTimestampDesc(r)
    ensures multiset(r) == multiset(s)
  {
    if s == [] then []
    else
      assert s == [s[0]] + s[1..];
      InsertByTimestamp(s[0], SortByTimestampDesc(s[1..]))
  }

  /**
   * `OrderByDescending(Timestamp).Take(count)`: at most `count` entries of the
   * store, latest first, and none of the entries left out is later than any
   * entry selected.
   */
  function MostRecent(store: seq<GameResult>, count: nat): (r: seq<GameResult>)
    ensures |r| == Min(count, |store|)
    ensures SortedByTimestampDesc(r)
    ensures multiset(r) <= multiset(store)
    ensures forall x :: x in r ==> x in store
    ensures forall x, y :: x in r && y in multiset(store) - multiset(r) ==> x.timestamp >= y.timestamp
    ensures |store| <= count ==> multiset(r) == multiset(store)
  {
    var sorted := SortByTimestampDesc(store);
    var n := Min(count, |store|);
    assert |sorted| == |store| by {
      assert |multiset(sorted)| == |multiset(store)|;
    }
    assert |store| <= count ==> sorted[..n] == sorted;
    SplitSorted(sorted, n);
    assert forall x :: x in sorted[..n] ==> x in multiset(store);
    sorted[..n]
  }

  /**
   * An entry is selected when the whole store fits, and whenever it is later than
   * the last entry selected.
   */
  lemma MostRecentKeepsLater(store: seq<GameResult>, count: nat, g: GameResult)
    requires g in store
    ensures |store| <= count ==> g in MostRecent(store, count)
    ensures var r := MostRecent(store, count);
      r != [] && g.timestamp > r[|r| - 1].timestamp ==> g in r
  {
    var r := MostRecent(store, count);
    if g !in r {
      assert g in multiset(store) - multiset(r);
      if r != [] {
        assert r[|r| - 1] in r;
      }
    }
  }

  /** Cutting a sorted sequence: the front part is sorted, and no entry behind the cut is later. */
  lemma SplitSorted(s: seq<GameResult>, n: nat)
    requires SortedByTimestampDesc(s) && n <= |s|
    ensures SortedByTimestampDesc(s[..n])
    ensures multiset(s) - multiset(s[..n]) == multiset(s[n..])
    ensures forall x, y :: x in s[..n] && y in multiset(s[n..]) ==> x.timestamp >= y.timestamp
  {
    assert s == s[..n] + s[n..];
    forall x, y | x in s[..n] && y in multiset(s[n..]) ensures x.timestamp >= y.timestamp {
      var i :| 0 <= i < n && s[..n][i] == x;
      var j :| 0 <= j < |s[n..]| && s[n..][j] == y;
      assert s[i] == x && s[n + j] == y;
    }
  }

  /** The response record that copies every field of a stored entry. */
  function ToRecent(g: GameResult): RecentResponse {
    RecentResponse(g.userId, g.playerChoice, g.computerChoice, g.result, g.timestamp)
  }

  /** A selected entry's copy is among the copies. */
  lemma CopiesOfSelected(recent: seq<GameResult>, g: GameResult)
    ensures g in recent ==> ToRecent(g) in Select(recent, ToRecent)
  {
    if g in recent {
      var k :| 0 <= k < |recent| && recent[k] == g;
      assert Select(recent, ToRecent)[k] == ToRecent(g);
    }
  }

  /** `GetRecent` over a store given as a sequence: copies of the latest ten entries. */
  function Recent(store: seq<GameResult>): seq<RecentResponse> {
    Select(MostRecent(store, RecentLimit), ToRecent)
  }

  /** At most ten copies, and all of them when the store is no larger. */
  lemma RecentLength(store: seq<GameResult>)
    ensures |Recent(store)| == Min(RecentLimit, |store|)
  {
  }

  /** The copies are latest first. */
  lemma RecentOrdered(store: seq<GameResult>)
    ensures var r := Recent(store);
      forall i, j :: 0 <= i < j < |r| ==> r[i].timestamp >= r[j].timestamp
  {
    var recent := MostRecent(store, RecentLimit);
    assert forall i :: 0 <= i < |recent| ==> Recent(store)[i].timestamp == recent[i].timestamp;
  }

  /** Each copy copies a stored entry. */
  lemma RecentFromStore(store: seq<GameResult>)
    ensures var r := Recent(store);
      forall i :: 0 <= i < |r| ==> exists g :: g in store && r[i] == ToRecent(g)
  {
    var recent := MostRecent(store, RecentLimit);
    var r := Recent(store);
    forall i | 0 <= i < |r| ensures exists g :: g in store && r[i] == ToRecent(g) {
      var g := recent[i];
      assert g in recent;
      assert g in store && r[i] == ToRecent(g);
    }
  }

  /** A stored entry has as many copies among the copies of `s` as it has occurrences in `s`. */
  lemma {:induction false} CopyCount(s: seq<GameResult>, g: GameResult)
    ensures multiset(Select(s, ToRecent))[ToRecent(g)] == multiset(s)[g]
  {
    if s != [] {
      CopyCount(s[1..], g);
      assert s == [s[0]] + s[1..];
      assert Select(s, ToRecent) == [ToRecent(s[0])] + Select(s[1..], ToRecent);
    }
  }

  /**
   * No copy of a stored entry is left out in favour of an earlier one: every copy
   * the answer omits (counting duplicates) is no later than any returned record,
   * and a store of ten or fewer is returned whole, duplicates included.
   */
  lemma RecentKeepsLater(store: seq<GameResult>)
    ensures var r := Recent(store);
      && (|store| <= RecentLimit ==> multiset(r) == multiset(Select(store, ToRecent)))
      && (forall y, i :: y in multiset(Select(store, ToRecent)) - multiset(r) && 0 <= i < |r| ==>
            r[i].timestamp >= y.timestamp)
  {
    var recent := MostRecent(store, RecentLimit);
    if |store| <= RecentLimit {
      SelectSubMultiset(recent, store, ToRecent);
      SelectSubMultiset(store, recent, ToRecent);
    }
    forall y, i | y in multiset(Select(store, ToRecent)) - multiset(Recent(store)) && 0 <= i < |Recent(store)|
      ensures Recent(store)[i].timestamp >= y.timestamp
    {
      OmittedCopyNotLater(store, y, i);
    }
  }

  /** One omitted copy against one returned record: the omitted copy is no later. */
  lemma OmittedCopyNotLater(store: seq<GameResult>, y: RecentResponse, i: int)
    requires y in multiset(Select(store, ToRecent)) - multiset(Recent(store))
    requires 0 <= i < |Recent(store)|
    ensures Recent(store)[i].timestamp >= y.timestamp
  {
    var recent := MostRecent(store, RecentLimit);
    var copies := Select(store, ToRecent);
    assert y in copies;
    var k :| 0 <= k < |copies| && copies[k] == y;
    var g := store[k];
    CopyCount(store, g);
    CopyCount(recent, g);
    assert g in multiset(store) - multiset(recent);
    assert recent[i] in recent;
  }

  /** The copies are drawn from the store without repetition: no entry is copied more often than it is stored. */
  lemma RecentDrawnFromStore(store: seq<GameResult>)
    ensures multiset(Recent(store)) <= multiset(Select(store, ToRecent))
  {
    SelectSubMultiset(MostRecent(store, RecentLimit), store, ToRecent);
  }

  /**
   * `r` answers a query for the latest entries of `store`: at most ten copies
   * (all of them when the store is no larger), latest first, each copying a
   * stored entry and no entry more often than it is stored, and no copy left out
   * (counting duplicates) later than any copy returned.
   */
  ghost predicate IsRecentOf(r: seq<RecentResponse>, store: seq<GameResult>) {
    && |r| == Min(RecentLimit, |store|)
    && (forall i, j :: 0 <= i < j < |r| ==> r[i].timestamp >= r[j].timestamp)
    && (forall i :: 0 <= i < |r| ==> exists g :: g in store && r[i] == ToRecent(g))
    && multiset(r) <= multiset(Select(store, ToRecent))
    && (|store| <= RecentLimit ==> multiset(r) == multiset(Select(store, ToRecent)))
    && (forall y, i :: y in multiset(Select(store, ToRecent)) - multiset(r) && 0 <= i < |r| ==>
          r[i].timestamp >= y.timestamp)
  }

  /** `Recent` meets the query's specification on every store. */
  lemma RecentIsRecentOf(store: seq<GameResult>)
    ensures IsRecentOf(Recent(store), store)
  {
    RecentLength(store);
    RecentOrdered(store);
    RecentFromStore(store);
    RecentKeepsLater(store);
    RecentDrawnFromStore(store);
  }

  /**
   * The controller's static `GameResults` bag. ASP.NET creates a controller per
   * request, but the bag is static, so one `ScoreController` object stands for the
   * process-wide store that every request sees. The order of `gameResults` stands
   * for the bag's enumeration order, which is unspecified; nothing stated about
   * `GetRecent` depends on it.
   */
  class ScoreController {
    var gameResults: seq<GameResult>

    constructor ()
      ensures gameResults == []
    {
      gameResults := [];
    }

    /** `Add`: rejects a null or empty result; otherwise stores the entry as given. */
    method Add(request: GameResult) returns (response: AddResponse)
      modifies this
      ensures IsNullOrEmpty(request.result) ==>
        response == BadRequest(InvalidGameResult) && gameResults == old(gameResults)
      ensures !IsNullOrEmpty(request.result) ==>
        response == Ok && gameResults == old(gameResults) + [request]
    {
      if IsNullOrEmpty(request.result) {
        return BadRequest(InvalidGameResult);
      }
      gameResults := gameResults + [request];
      response := Ok;
    }

    /**
     * `GetRecent`: copies of the (at most ten) stored entries with the latest
     * timestamps, latest first; the store is only read.
     */
    function GetRecent(): (r: seq<RecentResponse>)
      reads this
      ensures IsRecentOf(r, gameResults)
    {
      RecentIsRecentOf(gameResults);
      Recent(gameResults)
    }

    /** `Reset`: empties the store. */
    method Reset()
      modifies this
      ensures gameResults == []
    {
      gameResults := [];
    }

    /** `ClearGameResultsForTesting`: takes entries out of the bag, one at a time, until none is left. */
    method ClearGameResultsForTesting()
      modifies this
      ensures gameResults == []
    {
      while gameResults != []
        decreases |gameResults|
      {
        var i :| 0 <= i < |gameResults|;
        assert gameResults == gameResults[..i] + [gameResults[i]] + gameResults[i + 1..];
        gameResults := gameResults[..i] + gameResults[i + 1..];
      }
    }
  }
}
