/** Balances kept per address, and their total. Addresses are the text form of a Stellar
    address; a missing entry reads as 0, as the contracts' `unwrap_or(0)` does. */
module Totals {

  type Address = string

  type Balances = map<Address, int>

  function Get(m: Balances, k: Address): int { if k in m then m[k] else 0 }

  /** From m to n, k's balance moves by `change` and no other balance moves. */
  ghost predicate Moved(m: Balances, n: Balances, k: Address, change: int)
  {
    forall j :: Get(n, j) == Get(m, j) + (if j == k then change else 0)
  }

  ghost predicate NonNegative(m: Balances) { forall k :: k in m ==> m[k] >= 0 }

  /** The sum of all entries. */
  ghost function Total(m: Balances): int
  {
    if m == map[] then 0
    else
      var k :| k in m;
      m[k] + Total(m - {k})
  }

  /** The sum does not depend on the order in which entries are taken. */
  lemma {:induction false} TotalRemove(m: Balances, k: Address)
    requires k in m
    ensures Total(m) == m[k] + Total(m - {k})
    decreases |m|
  {
    var j :| j in m && Total(m) == m[j] + Total(m - {j});
    if j != k {
      TotalRemove(m - {j}, k);
      TotalRemove(m - {k}, j);
      assert m - {j} - {k} == m - {k} - {j};
    }
  }

  lemma TotalUpdate(m: Balances, k: Address, v: int)
    ensures Total(m[k := v]) == Total(m) - Get(m, k) + v
  {
    var n := m[k := v];
    TotalRemove(n, k);
    if k in m {
      TotalRemove(m, k);
      assert n - {k} == m - {k};
    } else {
      assert n - {k} == m;
    }
  }

  lemma {:induction false} TotalNonNegative(m: Balances)
    requires NonNegative(m)
    ensures 0 <= Total(m)
    decreases |m|
  {
    if m != map[] {
      var k :| k in m && Total(m) == m[k] + Total(m - {k});
      TotalNonNegative(m - {k});
    }
  }

  /** With no negative entry, every entry is at most the sum. */
  lemma EntryAtMostTotal(m: Balances, k: Address)
    requires NonNegative(m)
    ensures 0 <= Get(m, k) <= Total(m)
  {
    if k in m {
      TotalRemove(m, k);
      TotalNonNegative(m - {k});
    } else {
      TotalNonNegative(m);
    }
  }

  predicate AllZero(m: Balances) { forall k :: k in m ==> m[k] == 0 }

  /** With no negative entry, the sum is 0 exactly when every entry is. */
  lemma {:induction false} TotalZeroIff(m: Balances)
    requires NonNegative(m)
    ensures Total(m) == 0 <==> AllZero(m)
    decreases |m|
  {
    if m == map[] {
    } else {
      var j :| j in m && Total(m) == m[j] + Total(m - {j});
      TotalZeroIff(m - {j});
      TotalNonNegative(m - {j});
      if AllZero(m - {j}) && m[j] == 0 {
        forall k | k in m ensures m[k] == 0 { if k != j { assert k in m - {j}; } }
      }
    }
  }
}
