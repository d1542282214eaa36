/** Signer sets as both bridges store them: one flag per address and a separate count. */
module Quorum {
  import opened Totals

  type Signers = map<Address, bool>

  predicate IsSigner(signers: Signers, a: Address) { a in signers && signers[a] }

  function Active(signers: Signers): set<Address> { set a | a in signers && signers[a] }

  /** The stored count is the size of the active set and covers the threshold. */
  ghost predicate QuorumOk(signers: Signers, count: int, threshold: int)
  {
    count == |Active(signers)| && 1 <= threshold <= count
  }

  lemma AddActive(signers: Signers, a: Address)
    requires !IsSigner(signers, a)
    ensures |Active(signers[a := true])| == |Active(signers)| + 1
  {
    assert Active(signers[a := true]) == Active(signers) + {a};
  }

  lemma RemoveActive(signers: Signers, a: Address)
    requires IsSigner(signers, a)
    ensures |Active(signers[a := false])| == |Active(signers)| - 1
  {
    assert Active(signers[a := false]) == Active(signers) - {a};
  }

  predicate Distinct(list: seq<Address>)
  {
    forall i, j :: 0 <= i < j < |list| ==> list[i] != list[j]
  }

  function Members(list: seq<Address>): set<Address> { set a | a in list }

  /** A list names as many addresses as it has entries exactly when it has no repeats. */
  lemma {:induction false} DistinctCount(list: seq<Address>)
    ensures |Members(list)| <= |list|
    ensures |Members(list)| == |list| <==> Distinct(list)
  {
    if list == [] {
      assert Members(list) == {};
    } else {
      var last, init := list[|list| - 1], list[..|list| - 1];
      DistinctCount(init);
      assert Members(list) == Members(init) + {last};
      if last in init {
        var i :| 0 <= i < |init| && init[i] == last;
        assert list[i] == list[|list| - 1];
        assert Members(list) == Members(init);
      } else {
        assert last !in Members(init);
        if Distinct(init) { assert Distinct(list); }
        if Distinct(list) { assert Distinct(init); }
      }
    }
  }

  /** The flags `initialize` sets. */
  function Enrol(list: seq<Address>): Signers { map a | a in list :: true }

  /** What `initialize` sets is in order exactly when the initial list has no repeats: a repeat
      makes the count exceed the number of signers. */
  lemma EnrolQuorum(list: seq<Address>, threshold: int)
    requires 1 <= threshold <= |list|
    ensures Active(Enrol(list)) == Members(list)
    ensures QuorumOk(Enrol(list), |list|, threshold) <==> Distinct(list)
  {
    DistinctCount(list);
    assert Active(Enrol(list)) == Members(list);
  }

  /** `threshold` different addresses out of `active` stand behind something. */
  ghost predicate Backed(voters: seq<Address>, active: set<Address>, threshold: int)
  {
    Distinct(voters) && Members(voters) <= active && 1 <= threshold <= |Members(voters)|
  }
}
