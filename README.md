# Token escrow with ephemeral-rollup transfers — a Dafny model

This project models the escrow bookkeeping of the `token_transfer_er` Solana
program. Each (mint, owner) pair has at most one escrow record, at the address
derived from the seeds `["token_escrow", mint, owner]`. A record holds its
owner (`authority`), its mint, its pooled token account, an accounted `balance`
(a `u64`), an `is_delegated` flag and its bump seed. The program's instructions
work on those records and on the token accounts they control:

- `create_token_escrow` creates a record with balance 0 and its pooled account.
- `process_token_escrow_deposit` moves tokens from the owner's token account
  into the pooled account and raises the accounted balance.
- `delegate_escrow` hands a record to the ephemeral rollup.
- `token_escrow_transfer_er` moves accounted balance between two records. No
  tokens move.
- `process_commit_and_undelegate` commits two records back from the rollup.
- `process_withdraw_from_escrow` moves tokens between two pooled accounts. It
  then sets both records' balances from the pooled amounts.

Modules, one per file:

- `Outcomes` (`outcomes.dfy`): `Option` and `Result`.
- `CheckedMath` (`checked_math.dfy`): `u8`, `u32`, `u64` and Rust's
  `checked_add` / `checked_sub` on `u64`.
- `Totals` (`totals.dfy`): sums of a map's values over a set of keys. It has
  the lemmas that let a sum be taken apart at any key.
- `SplToken` (`spl_token.dfy`): the token program's transfer, as a function on
  a map from token account to amount.
- `TokenTransferEr` (`token_escrow.dfy`): the record and account types, the
  error codes, and the class `EscrowProgram`. The class holds
  `escrows: map<EscrowKey, TokenEscrow>` and `tokens: map<TokenAccount, u64>`
  and has one method per instruction. The module also has the lemmas about
  what each instruction does to the accounted, pooled and overall totals.
- `Scenarios` (`scenarios.dfy`): whole instruction sequences, checked against
  the handlers' contracts.

A failing instruction is rolled back by the runtime. Each handler therefore
returns `Err(..)` with the state exactly as it found it. This holds even when
the error comes after a write: the `MathOverflow` in deposit comes after the
token move, and the one in `transfer_er` comes after the sender's debit. Each
handler's contract states:

- the error it returns, in the order the source checks;
- the whole new state on success;
- that no record field other than `balance` changes (`OnlyBalancesChanged`);
- that it preserves `Consistent()`. That predicate holds in every reachable
  state: each record stores its own owner, mint and pooled account, that
  account exists, and `is_delegated` is false.

From `Consistent()` the model proves that the `InvalidAuthority` check in
deposit, and the `AccountAlreadyDelegated` checks in deposit and withdraw,
never fire in a reachable state.

There is no global "accounted total equals pooled total" invariant, and the
model claims none. Each instruction has its own conservation lemma:

- deposit raises both totals by the amount deposited;
- `transfer_er` keeps the accounted total;
- withdraw keeps the pooled total and the total over all token accounts;
- create changes no total.

## Model

| member | source | states |
|---|---|---|
| CheckedMath.CheckedAdd | programs/token-transfer-er/src/lib.rs:96-98 | `checked_add` on `u64` fails exactly when the true sum exceeds `u64::MAX`; otherwise it returns the sum |
| CheckedMath.CheckedSub | programs/token-transfer-er/src/lib.rs:92-94 | `checked_sub` on `u64` fails exactly when the result would be negative; otherwise it returns the difference |
| SplToken.Moved | programs/token-transfer-er/src/lib.rs:148-158 | a token move changes the source by exactly minus `amount` and the destination by exactly plus `amount`; no other account and no key changes |
| SplToken.Transfer | programs/token-transfer-er/src/lib.rs:44-54 | the `transfer_checked` call fails with `InsufficientFunds` exactly when the source holds less than `amount` (checked first), and with `Overflow` exactly when the destination would pass `u64::MAX`; a self-transfer changes nothing; otherwise it is `Moved`; it creates no tokens, over all accounts or any set of accounts that holds both ends |
| SplToken.MovedKeepsSums | programs/token-transfer-er/src/lib.rs:148-158 | a move between two accounts keeps the sum over every set of accounts that contains both |
| TokenTransferEr.EscrowProgram.CreateTokenEscrow | programs/token-transfer-er/src/lib.rs:19-33 | fails with `AccountAlreadyInUse` and no change if a record exists for (mint, authority), which is the effect of `init`; otherwise adds a record with the given authority and mint, its own pooled account, balance 0, not delegated, and the given bump; the pooled account is created with 0 tokens only if it is missing (`init_if_needed`); existing records are untouched; `Consistent()` is preserved |
| TokenTransferEr.EscrowProgram.Deposit | programs/token-transfer-er/src/lib.rs:35-63 | a missing account gives `AccountNotInitialized`; then, in order: `InvalidAuthority`, `AccountAlreadyDelegated`, `InvalidAmount` for 0, `InsufficientBalance` when the user account holds less than `amount`, the token program's `Overflow`, and `MathOverflow` when balance + `amount` passes `u64::MAX`; every error leaves the state unchanged; on success balance = old + `amount`, the user account loses `amount`, the pooled account gains `amount`, nothing else changes; in a `Consistent()` state the authority and delegation errors cannot occur |
| TokenTransferEr.EscrowProgram.DelegateEscrow | programs/token-transfer-er/src/lib.rs:65-85 | modifies nothing; fails with `AccountNotInitialized` if the payer has no record for the mint, otherwise returns the SDK's outcome |
| TokenTransferEr.EscrowProgram.TransferEr | programs/token-transfer-er/src/lib.rs:87-109 | `InvalidAmount` for 0 and `InsufficientBalance` when the sender's balance is below `amount`, with no change; `MathOverflow` when the receiver's balance would pass `u64::MAX`, with the sender's debit rolled back; on success the sender loses exactly `amount`, the receiver gains exactly `amount`, and no token account changes; the delegation flag is not consulted |
| TokenTransferEr.EscrowProgram.CommitAndUndelegate | programs/token-transfer-er/src/lib.rs:111-124 | modifies nothing; fails with `AccountNotInitialized` if either record is missing, otherwise returns the SDK's outcome |
| TokenTransferEr.EscrowProgram.Withdraw | programs/token-transfer-er/src/lib.rs:126-173 | in order: `InvalidAmount` for 0, `AccountAlreadyDelegated` for either record, `InsufficientBalance` when the sender's pooled account holds less than `amount`; the sender's accounted balance and the signer are not checked; every error leaves the state unchanged; on success the sender's pool loses `amount`, the receiver's gains it, and each balance is set to its pool's new amount (old pool − `amount`, old pool + `amount`), whatever it was; neither `unwrap` can panic |
| TokenTransferEr.DepositRaisesBothSides | programs/token-transfer-er/src/lib.rs:44-56 | a successful deposit raises the accounted total and the pooled total by the same `amount`, and keeps the total over all token accounts |
| TokenTransferEr.TransferErPreservesAccounted | programs/token-transfer-er/src/lib.rs:92-98 | a successful accounted transfer between two distinct records keeps the accounted total |
| TokenTransferEr.WithdrawPreservesPooled | programs/token-transfer-er/src/lib.rs:158-161 | a successful withdrawal keeps the pooled total and the total over all token accounts |
| TokenTransferEr.CreatePreservesTotals | programs/token-transfer-er/src/lib.rs:19-33 | creating a record with balance 0, and a missing pooled account with 0 tokens, changes none of the accounted, pooled and overall totals |
| Scenarios.IntegrationScript | tests/token-transfer-er.ts:107-263 | the repository's integration sequence: create, deposit 100, delegate both, accounted transfer of 100, commit-and-undelegate, then the user's withdrawal of 50. That withdrawal fails with `InsufficientBalance`: the user's record accounts for 100, but its pooled account holds 0 |
| Scenarios.SettleAfterRollupTransfer | programs/token-transfer-er/src/lib.rs:126-173 | deposit 100, accounted transfer of 30, undelegate, withdraw 70 to the other escrow: this succeeds and leaves balances 30 and 70, equal to the pools, so the accounted transfer of 30 is overwritten |

## Design and code

The program's design description and its code disagree in the places below.
The model follows the code in each case.

- Delegation is described as setting `is_delegated` and as failing when a
  record is already delegated. In the code, `delegate_escrow` only calls the
  SDK, and no instruction sets the flag to true. So `AccountAlreadyDelegated`
  never fires in a reachable state, as `Deposit` and `Withdraw` prove from
  `Consistent()`.
- The accounted transfer is described as running only between delegated
  records. `token_escrow_transfer_er` does not check the flag, and neither
  does the model.
- Withdrawal is described as keeping the accounted-balance check. In the code
  that check is commented out (lib.rs:132), and the signer is not tied to the
  sender (lib.rs:316-318). The model checks neither; `signer` appears in no
  clause of `Withdraw`'s contract.
- The described end-to-end example expects balances 0 and 100 after a
  withdrawal of 70 that follows an accounted transfer of 30. The code gives 30
  and 70, because withdrawal overwrites both balances from the pooled amounts
  (`Scenarios.SettleAfterRollupTransfer`).

## Left out

- `initialize` and every `msg!` log line: they have no effect on state.
- Mint accounts, decimals, and the token program's checks of mint, owner and
  signature. Token-account creation and rent are also left out. The token
  program appears only as `SplToken.Transfer`.
- PDA hashing and the bump search. Addresses are the injective key
  `EscrowKey(mint, owner)`, and pooled accounts are `EscrowAta(key)`. The bump
  is a parameter of `CreateTokenEscrow`.
- Anchor account validation, except that a missing account gives
  `AccountNotInitialized`. Accounts are derived from keys, so a wrong account
  cannot be passed in.
- The ephemeral-rollups SDK's delegation config, commit frequency and
  ownership hand-over, and the commit transport. The SDK's outcome is the
  `sdk` parameter. The model does not capture that a delegated account is
  owned by the delegation program and so cannot be written on the base layer.
- The rollup as a separate execution context: every instruction runs on one
  ledger.
- TokenTransferEr.EscrowProgram.TransferEr: requires `sender != receiver`.
  When the same record is passed twice, Anchor's behaviour depends on its
  write-back order, which is not modelled.
- TokenTransferEr.EscrowProgram.Withdraw: requires `sender != receiver`, for
  the same reason.
- The `CustomError` and `InsufficientFunds` codes exist in the enum but are
  never raised.
