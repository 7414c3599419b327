/** The shared `-n` byte budget (`src/budget.rs`).

    Other send loops act between any two of our atomic operations. `Rival`
    records what they left in the counter just before one of our
    `compare_exchange_weak` calls, and whether that call fails spuriously. */
module Budget {
  import opened Basics

  datatype Rival = Rival(left: nat, spurious: bool)

  /** One turn of the claim loop, given the value last observed. */
  datatype Attempt =
    | Nothing                          // nothing to grant: return 0
    | Won(granted: nat, left: nat)     // the exchange stored `left`
    | Lost(observed: nat)              // the exchange failed, retry from `observed`

  function TryClaim(current: nat, remaining: nat, want: nat, spurious: bool): Attempt {
    var granted := Min(current, want);
    if granted == 0 then Nothing
    else if remaining == current && !spurious then Won(granted, current - granted)
    else Lost(remaining)
  }

  /** The claim loop from the value `current`: the bytes granted (`None` while
      still retrying when the rivals' script ends) and the counter it leaves. */
  function ClaimOutcome(current: nat, remaining: nat, want: nat, rivals: seq<Rival>): (Option<nat>, nat)
    decreases |rivals|
  {
    if Min(current, want) == 0 then (Some(0), remaining)
    else if rivals == [] then (None, remaining)
    else
      match TryClaim(current, rivals[0].left, want, rivals[0].spurious)
      case Nothing => (Some(0), rivals[0].left)
      case Won(granted, left) => (Some(granted), left)
      case Lost(observed) => ClaimOutcome(observed, rivals[0].left, want, rivals[1..])
  }

  /** The retry loop is linearizable. A positive grant is an atomic "take
      `min(counter, want)`" at the exchange that succeeded; a zero grant means
      the counter was last seen empty (or nothing was asked for), and then the
      counter is left as it was. A claim still spinning has met nothing but
      failures: each exchange either failed spuriously or found the counter
      changed since the last observation. */
  lemma {:induction false} ClaimIsAtomic(remaining: nat, want: nat, rivals: seq<Rival>)
    ensures var (granted, left) := ClaimOutcome(remaining, remaining, want, rivals);
      match granted
      case Some(g) =>
        if g == 0 then want == 0 || left == 0
        else exists k ::
          && 0 <= k < |rivals|
          && !rivals[k].spurious
          && g == Min(rivals[k].left, want)
          && left == rivals[k].left - g
      case None =>
        && want > 0 && left > 0
        && left == (if rivals == [] then remaining else rivals[|rivals| - 1].left)
        && forall k :: 0 <= k < |rivals| ==>
             rivals[k].spurious || rivals[k].left != if k == 0 then remaining else rivals[k - 1].left
    decreases |rivals|
  {
    if Min(remaining, want) != 0 && rivals != [] {
      if rivals[0].spurious || rivals[0].left != remaining {
        ClaimIsAtomic(rivals[0].left, want, rivals[1..]);
      } else {
        assert !rivals[0].spurious && Min(remaining, want) == Min(rivals[0].left, want);
      }
    }
  }

  /** A claim of `want` bytes that nobody disturbs returns 0. */
  predicate GetsNothing(remaining: nat, want: nat) {
    ClaimOutcome(remaining, remaining, want, []).0 == Some(0)
  }

  class ByteBudget {
    var remaining: nat

    ghost predicate Valid()
      reads this
    {
      remaining <= U64_MAX
    }

    constructor (total: nat)
      requires total <= U64_MAX
      ensures Valid() && remaining == total
    {
      remaining := total;
    }

    /** Other send loops act on the shared counter. */
    method Interfere(left: nat)
      requires left <= U64_MAX
      modifies this
      ensures Valid() && remaining == left
    {
      remaining := left;
    }

    method CompareExchangeWeak(current: nat, next: nat, spurious: bool) returns (swapped: bool, observed: nat)
      requires Valid() && next <= U64_MAX
      modifies this
      ensures Valid() && observed == old(remaining)
      ensures swapped <==> !spurious && old(remaining) == current
      ensures remaining == if swapped then next else old(remaining)
    {
      observed := remaining;
      swapped := !spurious && remaining == current;
      if swapped {
        remaining := next;
      }
    }

    /** The claim loop, as many turns as the rivals' script makes it. */
    method Claim(want: nat, rivals: seq<Rival>) returns (granted: Option<nat>)
      requires Valid()
      requires forall k :: 0 <= k < |rivals| ==> rivals[k].left <= U64_MAX
      modifies this
      ensures Valid()
      ensures (granted, remaining) == ClaimOutcome(old(remaining), old(remaining), want, rivals)
      ensures granted.Some? ==> granted.value <= want
    {
      var current: nat := remaining;
      var k := 0;
      while true
        invariant 0 <= k <= |rivals| && Valid() && current <= U64_MAX
        invariant ClaimOutcome(current, remaining, want, rivals[k..])
               == ClaimOutcome(old(remaining), old(remaining), want, rivals)
        decreases |rivals| - k
      {
        var take := Min(current, want);
        if take == 0 {
          return Some(0);
        }
        if k == |rivals| {
          return None;
        }
        Interfere(rivals[k].left);
        var swapped, observed := CompareExchangeWeak(current, current - take, rivals[k].spurious);
        assert rivals[k..][1..] == rivals[k + 1..];
        if swapped {
          return Some(take);
        }
        current := observed;
        k := k + 1;
      }
    }

    /** `fetch_add`, skipped when there is nothing to give back. */
    method Refund(bytes: nat)
      requires Valid()
      modifies this
      ensures Valid() && remaining == WrapAdd(old(remaining), bytes) == (old(remaining) + bytes) % 0x1_0000_0000_0000_0000
    {
      if bytes > 0 {
        remaining := WrapAdd(remaining, bytes);
      }
    }

    /** Spent: a claim made now gets nothing, however much it wants. */
    method IsSpent() returns (spent: bool)
      ensures spent <==> forall want: nat :: GetsNothing(remaining, want)
    {
      spent := remaining == 0;
      assert GetsNothing(remaining, 1) ==> spent;
    }
  }

  /** Without a budget every write is a full chunk. */
  method ClaimOrFull(budget: ByteBudget?, want: nat, rivals: seq<Rival>) returns (granted: Option<nat>)
    requires budget != null ==> budget.Valid()
    requires forall k :: 0 <= k < |rivals| ==> rivals[k].left <= U64_MAX
    modifies budget
    ensures budget == null ==> granted == Some(want)
    ensures budget != null ==> budget.Valid()
    ensures budget != null ==>
      (granted, budget.remaining) == ClaimOutcome(old(budget.remaining), old(budget.remaining), want, rivals)
    ensures granted.Some? ==> granted.value <= want
  {
    if budget == null {
      granted := Some(want);
    } else {
      granted := budget.Claim(want, rivals);
    }
  }

  /** What a claim covered and no write used goes back, if there is a budget. */
  method RefundUnwritten(budget: ByteBudget?, claimed: nat, written: nat)
    requires budget != null ==> budget.Valid()
    modifies budget
    ensures budget != null ==> budget.Valid()
    ensures budget != null ==> budget.remaining == WrapAdd(old(budget.remaining), SatSub(claimed, written))
  {
    if budget != null {
      budget.Refund(SatSub(claimed, written));
    }
  }
}
