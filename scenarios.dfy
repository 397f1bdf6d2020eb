/**
 * Whole sequences of instructions, run against the handlers' contracts alone.
 * They show what the escrow program does end to end with two owners of one mint.
 */
module Scenarios {
  import opened Outcomes
  import opened CheckedMath
  import opened TokenTransferEr

  /**
   * The integration script's sequence: both owners create escrows (their pooled
   * accounts already exist, empty), the payer, holding 500 tokens, deposits 100,
   * both records are delegated, 100 accounted tokens move from the payer's
   * record to the user's, both records are committed and undelegated, and the
   * user then withdraws 50 from their escrow to the payer's. That withdrawal
   * fails: the user's record accounts for 100 tokens but its pooled account
   * holds none, and withdrawal checks the pooled account only.
   */
  method IntegrationScript(payer: Pubkey, user: Pubkey, mint: Pubkey) returns (withdrawal: Result<(), Error>, payerBalance: u64, userBalance: u64,
                                     payerPool: u64, userPool: u64)
    requires payer != user
    ensures withdrawal == Err(Program(InsufficientBalance))
    ensures payerBalance == 0 && userBalance == 100
    ensures payerPool == 100 && userPool == 0
  {
    var payerKey, userKey := EscrowKey(mint, payer), EscrowKey(mint, user);
    var program := new EscrowProgram(map[EscrowAta(payerKey) := 0, EscrowAta(userKey) := 0,
                                         WalletAta(mint, payer) := 500]);
    var r := program.CreateTokenEscrow(payer, mint, 255);
    assert r == Ok(());
    r := program.CreateTokenEscrow(user, mint, 254);
    assert r == Ok(());
    r := program.Deposit(payer, mint, 100);
    assert r == Ok(());
    r := program.DelegateEscrow(payer, mint, 30000, 7, Ok(()));
    assert r == Ok(());
    r := program.DelegateEscrow(user, mint, 30000, 7, Ok(()));
    assert r == Ok(());
    r := program.TransferEr(payer, user, mint, 100);
    assert r == Ok(());
    r := program.CommitAndUndelegate(payer, payer, user, mint, Ok(()));
    assert r == Ok(());
    withdrawal := program.Withdraw(user, user, payer, mint, 50);
    payerBalance, userBalance := program.escrows[payerKey].balance, program.escrows[userKey].balance;
    payerPool, userPool := program.tokens[EscrowAta(payerKey)], program.tokens[EscrowAta(userKey)];
  }

  /**
   * With both pooled accounts present and empty, the payer holding 100 tokens:
   * deposit 100 into the payer's escrow, move 30 accounted tokens to the user's
   * record, undelegate, and withdraw 70 from the payer's escrow to the user's.
   * The withdrawal succeeds, since the payer's pooled account holds 100, and it
   * then sets each balance to its pooled account's new amount: 30 and 70. The
   * 30 tokens moved by the accounted transfer are not reflected in the result.
   */
  method SettleAfterRollupTransfer(payer: Pubkey, user: Pubkey, mint: Pubkey) returns (withdrawal: Result<(), Error>, payerBalance: u64, userBalance: u64,
                                              payerPool: u64, userPool: u64)
    requires payer != user
    ensures withdrawal == Ok(())
    ensures payerBalance == 30 && userBalance == 70
    ensures payerPool == 30 && userPool == 70
  {
    var payerKey, userKey := EscrowKey(mint, payer), EscrowKey(mint, user);
    var program := new EscrowProgram(map[EscrowAta(payerKey) := 0, EscrowAta(userKey) := 0,
                                         WalletAta(mint, payer) := 100]);
    var r := program.CreateTokenEscrow(payer, mint, 255);
    assert r == Ok(());
    r := program.CreateTokenEscrow(user, mint, 254);
    assert r == Ok(());
    r := program.Deposit(payer, mint, 100);
    assert r == Ok(());
    assert program.tokens[EscrowAta(payerKey)] == 100 && program.tokens[EscrowAta(userKey)] == 0;
    r := program.DelegateEscrow(payer, mint, 400, 7, Ok(()));
    assert r == Ok(());
    r := program.DelegateEscrow(user, mint, 400, 7, Ok(()));
    assert r == Ok(());
    r := program.TransferEr(payer, user, mint, 30);
    assert r == Ok(());
    assert program.escrows[payerKey].balance == 70 && program.escrows[userKey].balance == 30;
    r := program.CommitAndUndelegate(payer, payer, user, mint, Ok(()));
    assert r == Ok(());
    withdrawal := program.Withdraw(payer, payer, user, mint, 70);
    payerBalance, userBalance := program.escrows[payerKey].balance, program.escrows[userKey].balance;
    payerPool, userPool := program.tokens[EscrowAta(payerKey)], program.tokens[EscrowAta(userKey)];
  }
}
