/**
 * The token program's transfer, as the escrow program consumes it: a move of
 * `amount` units between two token accounts of one mint. Mint and decimals
 * checks, signatures and the account layout are not part of this model.
 */
module SplToken {
  import opened Outcomes
  import opened CheckedMath
  import opened Totals

  /** The token program's own errors that a transfer between existing accounts can raise. */
  datatype TokenError = InsufficientFunds | Overflow

  /**
   * The amounts after `amount` units leave `source` and arrive at `destination`:
   * those two accounts change by exactly `amount` and no other account changes.
   */
  function Moved<A(==)>(amounts: map<A, u64>, source: A, destination: A, amount: u64): (m: map<A, u64>)
    requires source in amounts && destination in amounts && source != destination
    requires amounts[source] >= amount && amounts[destination] + amount <= U64_MAX
    ensures m.Keys == amounts.Keys
    ensures m[source] + amount == amounts[source] && m[destination] == amounts[destination] + amount
    ensures forall a | a in amounts && a != source && a != destination :: m[a] == amounts[a]
  {
    amounts[source := amounts[source] - amount][destination := amounts[destination] + amount]
  }

  /**
   * `transfer_checked` on a map from token account to amount: the source must
   * hold `amount` (checked first), a transfer to itself changes nothing, and the
   * destination's new amount is a checked addition.
   */
  function Transfer<A(==)>(amounts: map<A, u64>, source: A, destination: A, amount: u64): (r: Result<map<A, u64>, TokenError>)
    requires source in amounts && destination in amounts
    ensures r == Err(InsufficientFunds) <==> amounts[source] < amount
    ensures r == Err(Overflow) <==>
      amounts[source] >= amount && source != destination && amounts[destination] + amount > U64_MAX
    ensures r.Ok? && source == destination ==> r.value == amounts
    ensures r.Ok? && source != destination ==> r.value == Moved(amounts, source, destination, amount)
    // no tokens are created or destroyed, over all accounts and over any set holding both ends
    ensures r.Ok? ==> Sum(r.value, r.value.Keys) == Sum(amounts, amounts.Keys)
    ensures r.Ok? ==> forall keys: set<A> | keys <= amounts.Keys && source in keys && destination in keys ::
      Sum(r.value, keys) == Sum(amounts, keys)
  {
    if amounts[source] < amount then Err(InsufficientFunds)
    else if source == destination then Ok(amounts)
    else
      match CheckedAdd(amounts[destination], amount)
      case None => Err(Overflow)
      case Some(credited) =>
        MovedKeepsSums(amounts, source, destination, amount);
        Ok(Moved(amounts, source, destination, amount))
  }

  /** A move between two accounts keeps every sum over a set of accounts that holds both. */
  lemma MovedKeepsSums<A>(amounts: map<A, u64>, source: A, destination: A, amount: u64)
    requires source in amounts && destination in amounts && source != destination
    requires amounts[source] >= amount && amounts[destination] + amount <= U64_MAX
    ensures forall keys: set<A> | keys <= amounts.Keys && source in keys && destination in keys ::
      Sum(Moved(amounts, source, destination, amount), keys) == Sum(amounts, keys)
  {
    forall keys: set<A> | keys <= amounts.Keys && source in keys && destination in keys
      ensures Sum(Moved(amounts, source, destination, amount), keys) == Sum(amounts, keys)
    {
      SumMove(amounts, keys, source, destination, amount);
    }
  }
}
