/** `GetValuesWithout`: the members of the `GameChoice` enumeration other than one. */
module EnumHelper {
  import opened Collections
  import opened GameConstants

  /**
   * Every enumeration member except `excluded`, in `Enum.GetValues` order: the
   * excluded member is absent, every other member is present exactly once, and
   * the declaration order of the remaining members is kept.
   */
  function GetValuesWithout(excluded: GameChoice): (r: seq<GameChoice>)
    ensures excluded !in r
    ensures forall c :: c != excluded ==> c in r
    ensures forall c :: multiset(r)[c] == if c == excluded then 0 else 1
    ensures |r| == |AllValues| - 1
    ensures forall i, j :: 0 <= i < j < |r| ==> Ordinal(r[i]) < Ordinal(r[j])
  {
    var keep := x => x != excluded;
    WithoutCounts(excluded, keep);
    WithoutLength(excluded, keep);
    WithoutOrder(keep);
    Where(AllValues, keep)
  }

  lemma WithoutCounts(excluded: GameChoice, keep: GameChoice -> bool)
    requires forall x :: keep(x) == (x != excluded)
    ensures forall c :: multiset(Where(AllValues, keep))[c] == if c == excluded then 0 else 1
    ensures excluded !in Where(AllValues, keep)
    ensures forall c :: c != excluded ==> c in Where(AllValues, keep)
  {
    var r := Where(AllValues, keep);
    forall c ensures multiset(r)[c] == if c == excluded then 0 else 1 {
      WhereCount(AllValues, keep, c);
      AllValuesOnce(c);
    }
    assert excluded !in multiset(r);
    forall c | c != excluded ensures c in r {
      assert c in multiset(r);
    }
  }

  lemma WithoutLength(excluded: GameChoice, keep: GameChoice -> bool)
    requires forall x :: keep(x) == (x != excluded)
    ensures |Where(AllValues, keep)| == |AllValues| - 1
  {
    AllValuesOnce(excluded);
    WhereDropsOne(AllValues, keep, excluded);
  }

  lemma WithoutOrder(keep: GameChoice -> bool)
    ensures var r := Where(AllValues, keep);
      forall i, j :: 0 <= i < j < |r| ==> Ordinal(r[i]) < Ordinal(r[j])
  {
    var key := c => Ordinal(c);
    AllValuesInOrdinalOrder();
    assert StrictlyIncreasingBy(AllValues, key);
    WhereKeepsOrder(AllValues, keep, key);
    var r := Where(AllValues, keep);
    forall i, j | 0 <= i < j < |r| ensures Ordinal(r[i]) < Ordinal(r[j]) {
      assert key(r[i]) < key(r[j]);
    }
  }
}
