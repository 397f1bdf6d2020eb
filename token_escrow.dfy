/**
 * The token escrow program: per-(mint, owner) escrow records that account for
 * tokens pooled in token accounts the records control, and the handlers that
 * create records, deposit into them, move accounted balance between them while
 * they are delegated to the ephemeral rollup, and settle pooled tokens between
 * them afterwards.
 *
 * A handler that fails aborts the whole instruction: whatever it wrote before
 * the failure is discarded by the runtime, so every method below leaves the
 * state exactly as it found it when it returns an error.
 */
module TokenTransferEr {
  import opened Outcomes
  import opened CheckedMath
  import opened Totals
  import SplToken

  /** A 32-byte public key; only equality between keys matters here. */
  type Pubkey = nat

  /**
   * The address of an escrow record, derived from the seeds
   * `["token_escrow", mint, owner]`: distinct (mint, owner) pairs give distinct records.
   */
  datatype EscrowKey = EscrowKey(mint: Pubkey, owner: Pubkey)

  /** Token accounts are associated token accounts, determined by their mint and authority. */
  datatype TokenAccount =
    | WalletAta(mint: Pubkey, wallet: Pubkey)  // held by a user's wallet
    | EscrowAta(escrow: EscrowKey)             // the pooled account held by an escrow record

  /** The persisted escrow record. */
  datatype TokenEscrow = TokenEscrow(
    authority: Pubkey,
    mint: Pubkey,
    escrowTokenAccount: TokenAccount,
    balance: u64,
    isDelegated: bool,
    bump: u8)

  /** The program's own error codes. `CustomError` and `InsufficientFunds` are never raised. */
  datatype ErrorCode =
    | CustomError
    | InsufficientFunds
    | InvalidAuthority
    | AccountAlreadyDelegated
    | InvalidAmount
    | InsufficientBalance
    | MathOverflow

  /** Every way an instruction can fail. */
  datatype Error =
    | Program(code: ErrorCode)              // raised by the handler itself
    | AccountNotInitialized                 // an account the instruction names does not exist
    | AccountAlreadyInUse                   // `init` on an address that already holds an account
    | Token(tokenError: SplToken.TokenError) // raised by the token program's transfer
    | Sdk(sdkCode: nat)                     // raised by the ephemeral-rollups SDK

  /** The sum of the accounted balances of the given records. */
  ghost function TotalAccounted(escrows: map<EscrowKey, TokenEscrow>): int {
    Sum(Balances(escrows), escrows.Keys)
  }

  function Balances(escrows: map<EscrowKey, TokenEscrow>): (b: map<EscrowKey, int>)
    ensures b.Keys == escrows.Keys
  {
    map k | k in escrows :: escrows[k].balance
  }

  /** The pooled accounts among the given token accounts. */
  function PoolAccounts(tokens: map<TokenAccount, u64>): (p: set<TokenAccount>)
    ensures p <= tokens.Keys
  {
    set a | a in tokens && a.EscrowAta?
  }

  /** The tokens held by all pooled accounts. */
  ghost function TotalPooled(tokens: map<TokenAccount, u64>): int {
    Sum(tokens, PoolAccounts(tokens))
  }

  /** The tokens held by all token accounts. */
  ghost function TotalTokens(tokens: map<TokenAccount, u64>): int {
    Sum(tokens, tokens.Keys)
  }

  /**
   * The records have the same addresses before and after, and each one differs
   * at most in its accounted balance.
   */
  ghost predicate OnlyBalancesChanged(before: map<EscrowKey, TokenEscrow>, after: map<EscrowKey, TokenEscrow>) {
    && before.Keys == after.Keys
    && forall k | k in before :: after[k] == before[k].(balance := after[k].balance)
  }

  /** The records after the one at `k` has its accounted balance set to `balance`. */
  function WithBalance(escrows: map<EscrowKey, TokenEscrow>, k: EscrowKey, balance: u64): (e: map<EscrowKey, TokenEscrow>)
    requires k in escrows
    ensures OnlyBalancesChanged(escrows, e)
    ensures e[k].balance == balance
    ensures forall j | j in escrows && j != k :: e[j] == escrows[j]
  {
    escrows[k := escrows[k].(balance := balance)]
  }

  /** Setting one record's balance changes the total by the difference. */
  lemma TotalAccountedUpdate(escrows: map<EscrowKey, TokenEscrow>, k: EscrowKey, balance: u64)
    requires k in escrows
    ensures TotalAccounted(WithBalance(escrows, k, balance)) == TotalAccounted(escrows) - escrows[k].balance + balance
  {
    var after := WithBalance(escrows, k, balance);
    assert after.Keys == escrows.Keys;
    assert Balances(after) == Balances(escrows)[k := balance];
    SumUpdate(Balances(escrows), escrows.Keys, k, balance);
  }

  /** The program's accounts: escrow records by address, and token account amounts. */
  class EscrowProgram {
    var escrows: map<EscrowKey, TokenEscrow>
    var tokens: map<TokenAccount, u64>

    /**
     * What the seeds and `create_token_escrow` guarantee of every record: it
     * stores the owner and mint of its own address and its own pooled account,
     * that pooled account exists, and the record is not marked delegated (only
     * creation writes the flag, and it writes `false`).
     */
    ghost predicate Consistent()
      reads this
    {
      forall k | k in escrows ::
        && escrows[k].authority == k.owner
        && escrows[k].mint == k.mint
        && escrows[k].escrowTokenAccount == EscrowAta(k)
        && EscrowAta(k) in tokens
        && !escrows[k].isDelegated
    }

    /** No escrow records yet; token accounts as given (minted and created elsewhere). */
    constructor (initialTokens: map<TokenAccount, u64>)
      ensures escrows == map[] && tokens == initialTokens
      ensures Consistent()
    {
      escrows := map[];
      tokens := initialTokens;
    }

    /**
     * `create_token_escrow`: `init` on the record's address fails if a record is
     * already there; the pooled account is created empty unless it already
     * exists (`init_if_needed`). `bump` is the bump seed the framework found.
     */
    method CreateTokenEscrow(authority: Pubkey, mint: Pubkey, bump: u8) returns (r: Result<(), Error>)
      modifies this
      ensures var key := EscrowKey(mint, authority);
        if key in old(escrows) then
          r == Err(AccountAlreadyInUse) && escrows == old(escrows) && tokens == old(tokens)
        else
          && r == Ok(())
          && escrows == old(escrows)[key := TokenEscrow(authority, mint, EscrowAta(key), 0, false, bump)]
          && EscrowAta(key) in tokens
          && tokens == if EscrowAta(key) in old(tokens) then old(tokens) else old(tokens)[EscrowAta(key) := 0]
      ensures old(Consistent()) ==> Consistent()
      // records are never replaced, only added
      ensures forall k | k in old(escrows) :: k in escrows && escrows[k] == old(escrows)[k]
    {
      var key := EscrowKey(mint, authority);
      if key in escrows {
        return Err(AccountAlreadyInUse);
      }
      var pool := EscrowAta(key);
      if pool !in tokens {
        tokens := tokens[pool := 0];
      }
      escrows := escrows[key := TokenEscrow(authority, mint, pool, 0, false, bump)];
      r := Ok(());
    }

    /**
     * `process_token_escrow_deposit`: the signer moves `amount` tokens from
     * their own token account into the pooled account of their record for
     * `mint`, and the record's balance grows by `amount`.
     */
    method Deposit(authority: Pubkey, mint: Pubkey, amount: u64) returns (r: Result<(), Error>)
      modifies this
      ensures var key, user := EscrowKey(mint, authority), WalletAta(mint, authority);
        if key !in old(escrows) || EscrowAta(key) !in old(tokens) || user !in old(tokens) then
          r == Err(AccountNotInitialized)
        else
          var rec, pool := old(escrows)[key], EscrowAta(key);
          r == if rec.authority != authority then Err(Program(InvalidAuthority))
               else if rec.isDelegated then Err(Program(AccountAlreadyDelegated))
               else if amount == 0 then Err(Program(InvalidAmount))
               else if old(tokens)[user] < amount then Err(Program(InsufficientBalance))
               else if old(tokens)[pool] + amount > U64_MAX then Err(Token(SplToken.Overflow))
               else if rec.balance + amount > U64_MAX then Err(Program(MathOverflow))
               else Ok(())
      ensures r.Err? ==> escrows == old(escrows) && tokens == old(tokens)
      ensures r.Ok? ==>
        var key, user := EscrowKey(mint, authority), WalletAta(mint, authority);
        var pool := EscrowAta(key);
        && escrows == WithBalance(old(escrows), key, old(escrows)[key].balance + amount)
        && tokens == SplToken.Moved(old(tokens), user, pool, amount)
      ensures OnlyBalancesChanged(old(escrows), escrows)
      // in every state the handlers can reach, the authority and delegation guards never fire
      ensures old(Consistent()) ==> Consistent()
      ensures old(Consistent()) ==> r != Err(Program(InvalidAuthority)) && r != Err(Program(AccountAlreadyDelegated))
    {
      var key, user := EscrowKey(mint, authority), WalletAta(mint, authority);
      var pool := EscrowAta(key);
      if key !in escrows || pool !in tokens || user !in tokens {
        return Err(AccountNotInitialized);
      }
      var rec := escrows[key];
      if rec.authority != authority {
        return Err(Program(InvalidAuthority));
      }
      if rec.isDelegated {
        return Err(Program(AccountAlreadyDelegated));
      }
      if amount == 0 {
        return Err(Program(InvalidAmount));
      }
      if tokens[user] < amount {
        return Err(Program(InsufficientBalance));
      }
      var entryTokens := tokens;
      var moved := SplToken.Transfer(tokens, user, pool, amount);
      if moved.Err? {
        return Err(Token(moved.error));
      }
      tokens := moved.value;
      var credited := CheckedAdd(rec.balance, amount);
      if credited.None? {
        // the runtime discards the token move made above
        tokens := entryTokens;
        return Err(Program(MathOverflow));
      }
      escrows := escrows[key := rec.(balance := credited.value)];
      r := Ok(());
    }

    /**
     * `delegate_escrow`: hands the signer's record for `mint` to the ephemeral
     * rollup. The hand-over is done by the SDK, whose outcome is `sdk`; no
     * field of any record changes (this method modifies nothing).
     */
    method DelegateEscrow(payer: Pubkey, mint: Pubkey, commitFrequency: u32, validator: Pubkey, sdk: Result<(), nat>)
      returns (r: Result<(), Error>)
      ensures EscrowKey(mint, payer) !in escrows ==> r == Err(AccountNotInitialized)
      ensures EscrowKey(mint, payer) in escrows ==> r == if sdk.Ok? then Ok(()) else Err(Sdk(sdk.error))
    {
      if EscrowKey(mint, payer) !in escrows {
        return Err(AccountNotInitialized);
      }
      if sdk.Err? {
        return Err(Sdk(sdk.error));
      }
      r := Ok(());
    }

    /**
     * `token_escrow_transfer_er`: moves accounted balance from the signer's
     * record to the receiver's record; no tokens move. Neither record's
     * delegation flag is consulted.
     */
    method TransferEr(sender: Pubkey, receiver: Pubkey, mint: Pubkey, amount: u64) returns (r: Result<(), Error>)
      requires sender != receiver
      modifies this
      ensures var sKey, rKey := EscrowKey(mint, sender), EscrowKey(mint, receiver);
        if sKey !in old(escrows) || rKey !in old(escrows) then
          r == Err(AccountNotInitialized)
        else
          r == if amount == 0 then Err(Program(InvalidAmount))
               else if old(escrows)[sKey].balance < amount then Err(Program(InsufficientBalance))
               else if old(escrows)[rKey].balance + amount > U64_MAX then Err(Program(MathOverflow))
               else Ok(())
      ensures r.Err? ==> escrows == old(escrows)
      ensures r.Ok? ==>
        var sKey, rKey := EscrowKey(mint, sender), EscrowKey(mint, receiver);
        var debited := WithBalance(old(escrows), sKey, old(escrows)[sKey].balance - amount);
        escrows == WithBalance(debited, rKey, old(escrows)[rKey].balance + amount)
      // no token account changes
      ensures tokens == old(tokens)
      ensures OnlyBalancesChanged(old(escrows), escrows)
      ensures old(Consistent()) ==> Consistent()
    {
      var sKey, rKey := EscrowKey(mint, sender), EscrowKey(mint, receiver);
      if sKey !in escrows || rKey !in escrows {
        return Err(AccountNotInitialized);
      }
      var s := escrows[sKey];
      if amount == 0 {
        return Err(Program(InvalidAmount));
      }
      if s.balance < amount {
        return Err(Program(InsufficientBalance));
      }
      var entryEscrows := escrows;
      // checked_sub cannot fail after the balance check
      var debited := CheckedSub(s.balance, amount).value;
      escrows := escrows[sKey := s.(balance := debited)];
      var t := escrows[rKey];
      var credited := CheckedAdd(t.balance, amount);
      if credited.None? {
        // the runtime discards the debit made above
        escrows := entryEscrows;
        return Err(Program(MathOverflow));
      }
      escrows := escrows[rKey := t.(balance := credited.value)];
      r := Ok(());
    }

    /**
     * `process_commit_and_undelegate`: commits the sender's and receiver's
     * records for `mint` from the rollup and returns them to the base layer.
     * The SDK does the work and its outcome is `sdk`; no field of any record
     * changes (this method modifies nothing).
     */
    method CommitAndUndelegate(payer: Pubkey, sender: Pubkey, receiver: Pubkey, mint: Pubkey, sdk: Result<(), nat>)
      returns (r: Result<(), Error>)
      ensures EscrowKey(mint, sender) !in escrows || EscrowKey(mint, receiver) !in escrows ==>
        r == Err(AccountNotInitialized)
      ensures EscrowKey(mint, sender) in escrows && EscrowKey(mint, receiver) in escrows ==>
        r == if sdk.Ok? then Ok(()) else Err(Sdk(sdk.error))
    {
      if EscrowKey(mint, sender) !in escrows || EscrowKey(mint, receiver) !in escrows {
        return Err(AccountNotInitialized);
      }
      if sdk.Err? {
        return Err(Sdk(sdk.error));
      }
      r := Ok(());
    }

    /**
     * `process_withdraw_from_escrow`: moves `amount` tokens from the sender
     * record's pooled account to the receiver record's pooled account, signed
     * by the sender record itself, then sets each record's balance to what its
     * pooled account holds afterwards. `signer` pays for the instruction and is
     * checked against nothing; the sender's accounted balance is not checked
     * either.
     */
    method Withdraw(signer: Pubkey, sender: Pubkey, receiver: Pubkey, mint: Pubkey, amount: u64)
      returns (r: Result<(), Error>)
      requires sender != receiver
      modifies this
      ensures var sKey, rKey := EscrowKey(mint, sender), EscrowKey(mint, receiver);
        if sKey !in old(escrows) || EscrowAta(sKey) !in old(tokens)
           || rKey !in old(escrows) || EscrowAta(rKey) !in old(tokens) then
          r == Err(AccountNotInitialized)
        else
          r == if amount == 0 then Err(Program(InvalidAmount))
               else if old(escrows)[sKey].isDelegated then Err(Program(AccountAlreadyDelegated))
               else if old(escrows)[rKey].isDelegated then Err(Program(AccountAlreadyDelegated))
               else if old(tokens)[EscrowAta(sKey)] < amount then Err(Program(InsufficientBalance))
               else if old(tokens)[EscrowAta(rKey)] + amount > U64_MAX then Err(Token(SplToken.Overflow))
               else Ok(())
      ensures r.Err? ==> escrows == old(escrows) && tokens == old(tokens)
      ensures r.Ok? ==>
        var sKey, rKey := EscrowKey(mint, sender), EscrowKey(mint, receiver);
        var sPool, rPool := EscrowAta(sKey), EscrowAta(rKey);
        && tokens == SplToken.Moved(old(tokens), sPool, rPool, amount)
        // each balance is resynchronised to its pooled account, whatever it was before
        && escrows == WithBalance(WithBalance(old(escrows), sKey, tokens[sPool]), rKey, tokens[rPool])
        && escrows[sKey].balance == old(tokens)[sPool] - amount
        && escrows[rKey].balance == old(tokens)[rPool] + amount
      ensures OnlyBalancesChanged(old(escrows), escrows)
      ensures old(Consistent()) ==> Consistent()
      ensures old(Consistent()) ==> r != Err(Program(AccountAlreadyDelegated))
    {
      var sKey, rKey := EscrowKey(mint, sender), EscrowKey(mint, receiver);
      var sPool, rPool := EscrowAta(sKey), EscrowAta(rKey);
      if sKey !in escrows || sPool !in tokens || rKey !in escrows || rPool !in tokens {
        return Err(AccountNotInitialized);
      }
      var s, t := escrows[sKey], escrows[rKey];
      if amount == 0 {
        return Err(Program(InvalidAmount));
      }
      if s.isDelegated {
        return Err(Program(AccountAlreadyDelegated));
      }
      if t.isDelegated {
        return Err(Program(AccountAlreadyDelegated));
      }
      if tokens[sPool] < amount {
        return Err(Program(InsufficientBalance));
      }
      // the amounts the handler read before the transfer
      var sHeld, rHeld := tokens[sPool], tokens[rPool];
      var moved := SplToken.Transfer(tokens, sPool, rPool, amount);
      if moved.Err? {
        return Err(Token(moved.error));
      }
      tokens := moved.value;
      // neither unwrap can panic: the balance check and the transfer rule them out
      var sBalance := CheckedSub(sHeld, amount).value;
      var rBalance := CheckedAdd(rHeld, amount).value;
      escrows := escrows[sKey := s.(balance := sBalance)][rKey := t.(balance := rBalance)];
      r := Ok(());
    }
  }

  /**
   * A successful deposit raises the accounted total and the pooled total by the
   * deposited amount, and moves tokens without creating any.
   */
  lemma DepositRaisesBothSides(escrows: map<EscrowKey, TokenEscrow>, tokens: map<TokenAccount, u64>,
                               key: EscrowKey, user: TokenAccount, amount: u64)
    requires key in escrows && escrows[key].balance + amount <= U64_MAX
    requires user in tokens && !user.EscrowAta? && tokens[user] >= amount
    requires EscrowAta(key) in tokens && tokens[EscrowAta(key)] + amount <= U64_MAX
    ensures TotalAccounted(WithBalance(escrows, key, escrows[key].balance + amount)) == TotalAccounted(escrows) + amount
    ensures TotalPooled(SplToken.Moved(tokens, user, EscrowAta(key), amount)) == TotalPooled(tokens) + amount
    ensures TotalTokens(SplToken.Moved(tokens, user, EscrowAta(key), amount)) == TotalTokens(tokens)
  {
    TotalAccountedUpdate(escrows, key, escrows[key].balance + amount);
    var after := SplToken.Moved(tokens, user, EscrowAta(key), amount);
    assert PoolAccounts(after) == PoolAccounts(tokens);
    SumMoveIn(tokens, PoolAccounts(tokens), user, EscrowAta(key), amount);
    SumMove(tokens, tokens.Keys, user, EscrowAta(key), amount);
  }

  /** A successful accounted transfer between two records leaves the accounted total unchanged. */
  lemma TransferErPreservesAccounted(escrows: map<EscrowKey, TokenEscrow>, sKey: EscrowKey, rKey: EscrowKey, amount: u64)
    requires sKey in escrows && rKey in escrows && sKey != rKey
    requires escrows[sKey].balance >= amount && escrows[rKey].balance + amount <= U64_MAX
    ensures var debited := WithBalance(escrows, sKey, escrows[sKey].balance - amount);
      TotalAccounted(WithBalance(debited, rKey, escrows[rKey].balance + amount)) == TotalAccounted(escrows)
  {
    var debited := WithBalance(escrows, sKey, escrows[sKey].balance - amount);
    TotalAccountedUpdate(escrows, sKey, escrows[sKey].balance - amount);
    TotalAccountedUpdate(debited, rKey, escrows[rKey].balance + amount);
  }

  /**
   * A successful withdrawal moves tokens between two pooled accounts, so the
   * pooled total and the total over all accounts are unchanged.
   */
  lemma WithdrawPreservesPooled(tokens: map<TokenAccount, u64>, sKey: EscrowKey, rKey: EscrowKey, amount: u64)
    requires EscrowAta(sKey) in tokens && EscrowAta(rKey) in tokens && sKey != rKey
    requires tokens[EscrowAta(sKey)] >= amount && tokens[EscrowAta(rKey)] + amount <= U64_MAX
    ensures TotalPooled(SplToken.Moved(tokens, EscrowAta(sKey), EscrowAta(rKey), amount)) == TotalPooled(tokens)
    ensures TotalTokens(SplToken.Moved(tokens, EscrowAta(sKey), EscrowAta(rKey), amount)) == TotalTokens(tokens)
  {
    var after := SplToken.Moved(tokens, EscrowAta(sKey), EscrowAta(rKey), amount);
    assert PoolAccounts(after) == PoolAccounts(tokens);
    SumMove(tokens, PoolAccounts(tokens), EscrowAta(sKey), EscrowAta(rKey), amount);
    SumMove(tokens, tokens.Keys, EscrowAta(sKey), EscrowAta(rKey), amount);
  }

  /**
   * Creating a record, with a zero balance, and its pooled account if missing,
   * with zero tokens, leaves the accounted, pooled and overall totals unchanged.
   */
  lemma CreatePreservesTotals(escrows: map<EscrowKey, TokenEscrow>, tokens: map<TokenAccount, u64>,
                              key: EscrowKey, created: TokenEscrow)
    requires key !in escrows && created.balance == 0
    ensures TotalAccounted(escrows[key := created]) == TotalAccounted(escrows)
    ensures var pooled := if EscrowAta(key) in tokens then tokens else tokens[EscrowAta(key) := 0];
      TotalPooled(pooled) == TotalPooled(tokens) && TotalTokens(pooled) == TotalTokens(tokens)
  {
    var after := escrows[key := created];
    assert after.Keys == escrows.Keys + {key};
    assert Balances(after) == Balances(escrows)[key := 0];
    SumPick(Balances(after), after.Keys, key);
    assert after.Keys - {key} == escrows.Keys;
    SumFrame(Balances(escrows), Balances(after), escrows.Keys);
    if EscrowAta(key) !in tokens {
      var pool := EscrowAta(key);
      var grown := tokens[pool := 0];
      assert grown.Keys == tokens.Keys + {pool};
      SumPick(grown, grown.Keys, pool);
      assert grown.Keys - {pool} == tokens.Keys;
      SumFrame(tokens, grown, tokens.Keys);
      assert PoolAccounts(grown) == PoolAccounts(tokens) + {pool};
      SumPick(grown, PoolAccounts(grown), pool);
      assert PoolAccounts(grown) - {pool} == PoolAccounts(tokens);
      SumFrame(tokens, grown, PoolAccounts(tokens));
    }
  }
}
