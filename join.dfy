/**
 * The keyed data join that `render` hands to d3 (`selection.data(data, key)`),
 * stated as a partition over the key values of the rows already in the body
 * (`oldKeys`, one per row, in document order) and of the new data (`newKeys`).
 * The policy for repeated keys is d3's: the first row with a key owns it, and
 * only the first datum with a key can claim that row.
 * Without a key function rows are matched by position, which is the join on
 * the keys 0, 1, 2, ... (see IndexJoin).
 */
module Join {
  import opened Options

  /** Where a new datum goes: a freshly entered row, or an existing row (by index) that it updates. */
  datatype Binding = Enter | Update(row: nat)

  /** The index of the first occurrence of k in s. */
  function FirstIndex<K(==)>(s: seq<K>, k: K): (r: Option<nat>)
    ensures r.None? <==> k !in s
    ensures r.Some? ==> r.value < |s| && s[r.value] == k && k !in s[..r.value]
  {
    if |s| == 0 then None
    else if s[0] == k then Some(0)
    else
      match FirstIndex(s[1..], k)
      case None => None
      case Some(i) =>
        assert s[..i + 1] == [s[0]] + s[1..][..i];
        Some(i + 1)
  }

  /** The binding of new datum j. */
  function Bind<K(==)>(oldKeys: seq<K>, newKeys: seq<K>, j: nat): Binding
    requires j < |newKeys|
  {
    if newKeys[j] in newKeys[..j] then Enter
    else
      match FirstIndex(oldKeys, newKeys[j])
      case None => Enter
      case Some(i) => Update(i)
  }

  /** Whether existing row i leaves the body: it does not own its key, or no new datum has that key. */
  predicate Exits<K(==)>(oldKeys: seq<K>, newKeys: seq<K>, i: nat)
    requires i < |oldKeys|
  {
    FirstIndex(oldKeys, oldKeys[i]) != Some(i) || oldKeys[i] !in newKeys
  }

  predicate Distinct<K(==)>(s: seq<K>) {
    forall i, j | 0 <= i < j < |s| :: s[i] != s[j]
  }

  lemma {:induction false} FirstIndexOfDistinct<K>(s: seq<K>, i: nat)
    requires Distinct(s) && i < |s|
    ensures FirstIndex(s, s[i]) == Some(i)
  {
    assert forall k | 0 <= k < |s| && s[k] == s[i] :: k == i;
  }

  /** An updated row stays, and the datum updating it has its key. */
  lemma {:induction false} UpdatedRowsStay<K>(oldKeys: seq<K>, newKeys: seq<K>, j: nat)
    requires j < |newKeys| && Bind(oldKeys, newKeys, j).Update?
    ensures Bind(oldKeys, newKeys, j).row < |oldKeys|
    ensures oldKeys[Bind(oldKeys, newKeys, j).row] == newKeys[j]
    ensures !Exits(oldKeys, newKeys, Bind(oldKeys, newKeys, j).row)
  {
  }

  /** Every row that stays is updated by some new datum ... */
  lemma {:induction false} StayingRowsAreUpdated<K>(oldKeys: seq<K>, newKeys: seq<K>, i: nat)
    requires i < |oldKeys| && !Exits(oldKeys, newKeys, i)
    ensures exists j :: 0 <= j < |newKeys| && Bind(oldKeys, newKeys, j) == Update(i)
  {
    var j := FirstIndex(newKeys, oldKeys[i]).value;
    assert Bind(oldKeys, newKeys, j) == Update(i);
  }

  /** ... and by one only: no two data share a row. */
  lemma {:induction false} UpdatesAreOneToOne<K>(oldKeys: seq<K>, newKeys: seq<K>, j1: nat, j2: nat)
    requires j1 < |newKeys| && j2 < |newKeys|
    requires Bind(oldKeys, newKeys, j1).Update? && Bind(oldKeys, newKeys, j1) == Bind(oldKeys, newKeys, j2)
    ensures j1 == j2
  {
    var i := Bind(oldKeys, newKeys, j1).row;
    assert newKeys[j1] == oldKeys[i] == newKeys[j2];
    assert forall k | 0 <= k < j2 :: newKeys[..j2][k] == newKeys[k];
    assert forall k | 0 <= k < j1 :: newKeys[..j1][k] == newKeys[k];
  }

  /** With distinct keys on both sides, a row keeps its identity exactly when its key is among the new keys. */
  lemma {:induction false} KeyedIdentity<K>(oldKeys: seq<K>, newKeys: seq<K>)
    requires Distinct(oldKeys) && Distinct(newKeys)
    ensures forall i | 0 <= i < |oldKeys| :: !Exits(oldKeys, newKeys, i) <==> oldKeys[i] in newKeys
    ensures forall j | 0 <= j < |newKeys| :: Bind(oldKeys, newKeys, j).Update? <==> newKeys[j] in oldKeys
  {
    forall i | 0 <= i < |oldKeys|
      ensures !Exits(oldKeys, newKeys, i) <==> oldKeys[i] in newKeys
    {
      FirstIndexOfDistinct(oldKeys, i);
    }
    forall j | 0 <= j < |newKeys|
      ensures Bind(oldKeys, newKeys, j).Update? <==> newKeys[j] in oldKeys
    {
      assert forall k | 0 <= k < j :: newKeys[..j][k] == newKeys[k] != newKeys[j];
    }
  }

  /** The keys 0, 1, ..., n - 1: a row's position is its identity. */
  function Positions(n: nat): (s: seq<nat>)
    ensures |s| == n && forall i | 0 <= i < n :: s[i] == i
  {
    seq(n, i => i)
  }

  /**
   * Joining by position: the first min(m, n) rows are updated in place, the
   * remaining data enter, and the rows past the new length exit.
   */
  lemma {:induction false} IndexJoin(m: nat, n: nat)
    ensures forall j | 0 <= j < n :: Bind(Positions(m), Positions(n), j) == if j < m then Update(j) else Enter
    ensures forall i | 0 <= i < m :: Exits(Positions(m), Positions(n), i) <==> n <= i
  {
    var olds, news := Positions(m), Positions(n);
    forall j | 0 <= j < n
      ensures Bind(olds, news, j) == if j < m then Update(j) else Enter
    {
      assert news[j] !in news[..j];
      if j < m {
        FirstIndexOfDistinct(olds, j);
      } else {
        assert news[j] !in olds;
      }
    }
    forall i | 0 <= i < m
      ensures Exits(olds, news, i) <==> n <= i
    {
      FirstIndexOfDistinct(olds, i);
      if i < n {
        assert news[i] == i;
      }
    }
  }
}
