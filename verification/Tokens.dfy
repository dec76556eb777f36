/** The token contracts the ledgers talk to, reduced to who holds how much of what, and the
    `i128` arithmetic the ledgers use. */
module Tokens {
  import opened Options

  type Address = nat

  const I128_MAX: int := 170141183460469231731687303715884105727
  const U32_MAX: int := 0xFFFF_FFFF
  const U64_MAX: int := 0xFFFF_FFFF_FFFF_FFFF

  function Min(a: int, b: int): int { if a <= b then a else b }

  function Max(a: int, b: int): int { if a >= b then a else b }

  /** `i128::saturating_add`. */
  function SatAdd(a: int, b: int): int {
    Max(-I128_MAX - 1, Min(a + b, I128_MAX))
  }

  /** `saturating_add` on an unsigned type with maximum `top`. */
  function SatAddTo(top: int, a: int, b: int): int {
    Min(a + b, top)
  }

  /** `saturating_sub` on an unsigned type. */
  function SatSub(a: int, b: int): int {
    Max(a - b, 0)
  }

  /** Balances by (token, holder). */
  type Accounts = map<(Address, Address), int>

  function Held(a: Accounts, token: Address, who: Address): int {
    if (token, who) in a then a[(token, who)] else 0
  }

  ghost predicate AccountsOk(a: Accounts) {
    forall k :: k in a ==> 0 <= a[k] <= I128_MAX
  }

  /** `transfer`: traps when the sender is short or the receiver would overflow. */
  function Transfer(a: Accounts, token: Address, from: Address, to: Address, amount: int): Option<Accounts> {
    if amount < 0 || Held(a, token, from) < amount then None
    else if from == to then Some(a)
    else if Held(a, token, to) + amount > I128_MAX then None
    else Some(a[(token, from) := Held(a, token, from) - amount][(token, to) := Held(a, token, to) + amount])
  }

  /** A transfer that does not trap moves `amount` between the two holders and touches
      nothing else. */
  lemma TransferMoves(a: Accounts, token: Address, from: Address, to: Address, amount: int)
    requires AccountsOk(a) && Transfer(a, token, from, to, amount).Some?
    ensures var b := Transfer(a, token, from, to, amount).value;
            && AccountsOk(b)
            && (from != to ==> Held(b, token, from) == Held(a, token, from) - amount)
            && (from != to ==> Held(b, token, to) == Held(a, token, to) + amount <= I128_MAX)
            && (forall t: Address, w: Address :: (t, w) != (token, from) && (t, w) != (token, to) ==> Held(b, t, w) == Held(a, t, w))
            && (from == to ==> b == a)
  {
  }
}
