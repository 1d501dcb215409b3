/**
 * The cycling position shared by every filter stream of the repository: an index
 * into a list of count filters that moves on by (index + 1) % count.
 */
module CyclicIndex {
  import opened Arith

  /** (i + 1) % count: the position after i, wrapping from the last back to the first. */
  function Next(count: nat, i: int): (j: int)
    requires 0 <= i < count
    ensures 0 <= j < count
    ensures j == if i == count - 1 then 0 else i + 1
  {
    (i + 1) % count
  }

  /** The position after n moves from i. */
  function Advance(count: nat, i: int, n: nat): (j: int)
    requires 0 <= i < count
    ensures 0 <= j < count
  {
    if n == 0 then i else Next(count, Advance(count, i, n - 1))
  }

  /** n moves go n places round the list. */
  lemma {:induction false} AdvanceAdds(count: nat, i: int, n: nat)
    requires 0 <= i < count
    ensures Advance(count, i, n) == (i + n) % count
  {
    if n > 0 {
      AdvanceAdds(count, i, n - 1);
      ModSucc(i + n - 1, count);
    }
  }

  /** As many moves as there are filters bring the position back to where it started. */
  lemma CycleCloses(count: nat, i: int)
    requires 0 <= i < count
    ensures Advance(count, i, count) == i
  {
    AdvanceAdds(count, i, count);
    DivModUnique(i + count, count, 1, i);
  }

  /** Every position is reached: the one k places on from i is Advance(count, i, k). */
  lemma EveryPositionVisited(count: nat, i: int, target: int)
    requires 0 <= i < count && 0 <= target < count
    ensures Advance(count, i, (target - i) % count) == target
  {
    var q, r := (target - i) / count, (target - i) % count;
    AdvanceAdds(count, i, r);
    DivModUnique(i + r, count, -q, target);
  }
}
