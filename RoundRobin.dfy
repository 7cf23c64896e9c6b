/**
 * The round-robin proxy cursors of the spiders and the middleware: each step moves
 * the cursor to `(c + 1) % n` over a pool of `n` entries.
 */
module RoundRobin {
  /** One step of a cursor on a pool of `n`: the next position, back to 0 past the end. */
  function NextSlot(c: int, n: nat): (r: int)
    requires 0 <= c < n
    ensures 0 <= r < n
  {
    if c + 1 < n then c + 1 else 0
  }

  /** The step is the source's `(c + 1) % n` for every cursor on the pool. */
  lemma NextSlotIsMod(c: int, n: nat)
    requires 0 <= c < n
    ensures NextSlot(c, n) == (c + 1) % n
  {
    if c + 1 < n {
      ModBelow(c + 1, n);
    } else {
      ModSelf(n);
    }
  }

  /** The cursor after `k` steps from `c` round a pool of `n`. */
  function Advance(c: int, n: nat, k: nat): (r: int)
    requires 0 <= c < n
    ensures 0 <= r < n
  {
    if k == 0 then c else NextSlot(Advance(c, n, k - 1), n)
  }

  /** One more step moves the cursor on to `(cursor + 1) % n`. */
  lemma AdvanceStep(c: int, n: nat, k: nat)
    requires 0 <= c < n
    ensures Advance(c, n, k + 1) == (Advance(c, n, k) + 1) % n
  {
    NextSlotIsMod(Advance(c, n, k), n);
  }

  /** Within one lap the cursor is `c + k`, wrapped once past the end. */
  lemma {:induction false} AdvanceWithinLap(c: int, n: nat, k: nat)
    requires 0 <= c < n && k <= n
    ensures Advance(c, n, k) == if c + k < n then c + k else c + k - n
  {
    if k > 0 {
      AdvanceWithinLap(c, n, k - 1);
    }
  }

  lemma ModBelow(x: int, n: int)
    requires 0 <= x < n
    ensures x % n == x
  {
  }

  lemma ModSelf(n: int)
    requires n > 0
    ensures n % n == 0
  {
  }

  /** The positions the cursor takes in `n` steps from `c`. */
  function Visited(c: int, n: nat): set<int>
    requires 0 <= c < n
  {
    set k | 1 <= k <= n :: Advance(c, n, k)
  }

  /** `n` consecutive steps visit every position of the pool, and the last of them is
      back at the start. */
  lemma RoundRobinCoversPool(c: int, n: nat)
    requires 0 <= c < n
    ensures Advance(c, n, n) == c
    ensures forall t :: 0 <= t < n <==> t in Visited(c, n)
  {
    AdvanceWithinLap(c, n, n);
    var visited := Visited(c, n);
    forall t | 0 <= t < n
      ensures t in visited
    {
      var k := if t > c then t - c else t - c + n;
      AdvanceWithinLap(c, n, k);
      assert Advance(c, n, k) == t;
    }
    forall k | 1 <= k <= n
      ensures 0 <= Advance(c, n, k) < n
    {
      AdvanceWithinLap(c, n, k);
    }
  }
}
