/**
 * Counting facts about lists of integers: duplicate-free lists, the set of their
 * elements and the pigeonhole principle on 1..n. The board validation and the
 * termination argument of the searches both rest on these.
 */
module Lists {
  /** No element occurs twice. */
  predicate NoDup(s: seq<int>) {
    forall i, j :: 0 <= i < j < |s| ==> s[i] != s[j]
  }

  /** The elements of a list, as a set. */
  function Elems(s: seq<int>): set<int> {
    set x | x in s
  }

  /** The integers 1..n. */
  function Range(n: nat): set<int> {
    if n == 0 then {} else Range(n - 1) + {n}
  }

  lemma {:induction false} RangeMembers(n: nat)
    ensures forall x :: x in Range(n) <==> 1 <= x <= n
  {
    if n > 0 {
      RangeMembers(n - 1);
    }
  }

  lemma {:induction false} RangeCard(n: nat)
    ensures |Range(n)| == n
  {
    if n > 0 {
      RangeCard(n - 1);
      RangeMembers(n - 1);
      assert n !in Range(n - 1);
    }
  }

  /** A subset is no larger, and a subset of the same size is the whole set. */
  lemma SubsetCard(a: set<int>, b: set<int>)
    requires a <= b
    ensures |a| <= |b|
    ensures |a| == |b| ==> a == b
  {
    assert b == a + (b - a);
    assert a * (b - a) == {};
  }

  /** A list has at most as many distinct elements as entries, and exactly as many when it has no duplicates. */
  lemma {:induction false} ElemsCard(s: seq<int>)
    ensures |Elems(s)| <= |s|
    ensures |Elems(s)| == |s| <==> NoDup(s)
  {
    if s != [] {
      var init := s[..|s| - 1];
      var last := s[|s| - 1];
      ElemsCard(init);
      assert Elems(s) == Elems(init) + {last} by {
        forall x | x in s ensures x in init || x == last {
          var i :| 0 <= i < |s| && s[i] == x;
          if i < |s| - 1 {
            assert init[i] == x;
          }
        }
        forall x | x in init ensures x in s {
          var i :| 0 <= i < |init| && init[i] == x;
          assert s[i] == x;
        }
      }
      if last in init {
        var i :| 0 <= i < |init| && init[i] == last;
        assert s[i] == s[|s| - 1];
        assert Elems(s) == Elems(init);
      } else {
        assert NoDup(s) <==> NoDup(init) by {
          if NoDup(init) {
            forall i, j | 0 <= i < j < |s| ensures s[i] != s[j] {
              if j == |s| - 1 {
                assert s[i] == init[i];
              } else {
                assert s[i] == init[i] && s[j] == init[j];
              }
            }
          }
          if NoDup(s) {
            forall i, j | 0 <= i < j < |init| ensures init[i] != init[j] {
              assert s[i] == init[i] && s[j] == init[j];
            }
          }
        }
      }
    }
  }

  /** Pigeonhole: n distinct values drawn from 1..n include each of 1..n. */
  lemma Pigeonhole(s: seq<int>)
    requires NoDup(s)
    requires forall i :: 0 <= i < |s| ==> 1 <= s[i] <= |s|
    ensures forall v :: 1 <= v <= |s| ==> v in s
  {
    ElemsCard(s);
    RangeCard(|s|);
    RangeMembers(|s|);
    assert Elems(s) <= Range(|s|);
    SubsetCard(Elems(s), Range(|s|));
    forall v | 1 <= v <= |s| ensures v in s {
      assert v in Range(|s|);
    }
  }

  /**
   * The converse: n entries that include each of 1..n have no duplicates and no
   * value outside 1..n.
   */
  lemma Cover(s: seq<int>)
    requires forall v :: 1 <= v <= |s| ==> v in s
    ensures NoDup(s)
    ensures forall i :: 0 <= i < |s| ==> 1 <= s[i] <= |s|
  {
    ElemsCard(s);
    RangeCard(|s|);
    RangeMembers(|s|);
    assert Range(|s|) <= Elems(s) by {
      forall v | v in Range(|s|) ensures v in Elems(s) {
        assert v in s;
      }
    }
    SubsetCard(Range(|s|), Elems(s));
    forall i | 0 <= i < |s| ensures 1 <= s[i] <= |s| {
      assert s[i] in Elems(s);
    }
  }

  /** A duplicate-free list of values drawn from 1..bound has at most `bound` entries. */
  lemma BoundedNoDup(s: seq<int>, bound: nat)
    requires NoDup(s)
    requires forall i :: 0 <= i < |s| ==> 1 <= s[i] <= bound
    ensures |s| <= bound
  {
    ElemsCard(s);
    RangeCard(bound);
    RangeMembers(bound);
    assert Elems(s) <= Range(bound);
    SubsetCard(Elems(s), Range(bound));
  }
}
