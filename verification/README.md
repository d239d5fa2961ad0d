# Async vault: a verified model

This project models the parts of the async-vault repository on which its users' money depends, and proves what
they are for. It covers the on-chain program, its Rust and TypeScript clients, and the web app's library code.

- **Strategy policies** (`PolicyLeaf`, `PolicyTree`, `PolicyTreeCounts`, `PolicyClient`, `TypeScriptPolicyClient`,
  `PolicyVerifier`). A curator compiles a list of capabilities into a Merkle root; the program lets a strategist's
  call through if a proof leads from the call's leaf to that root. The leaf encoding is uniquely decodable, both
  clients compute one and the same tree, and the program authorizes exactly the granted calls. SHA-256 is a
  parameter: an arbitrary function from byte strings to 32-byte strings. Where a result rests on the hash it reads
  "the claim holds, or two different strings in this named, finite set of hashed strings have the same digest".
- **Share, asset and fee arithmetic** (`VaultMath`, `ConversionRuns`). Exact success domains, round-trip bounds at
  every NAV, and what whole runs of conversions, split payments and fees add up to.
- **The vault's books** (`VaultLedger`, `VaultTerms`, `VaultAccess`, `VaultInvariants`, `VaultQueues`, `VaultSoundness`,
  `VaultLimits`, `VaultProgram`, `RollingLimit`). The instructions for requests, settlement, instant settlement, withdrawals, venue
  positions, NAV updates and set-up are functions from the books before to the books after (`VaultLedger`); the
  vault account is a class whose handlers follow those functions and keep its invariant (`VaultProgram`). Every
  instruction has its exact condition, its signer and its effect (`VaultAccess`), every settlement its exact fees and
  amounts (`VaultTerms`). Over every
  run of them from the creation of a vault the books balance, refunds and claims are covered, nobody is diluted at a
  fixed NAV, the deposit cap and the rolling limits hold, nobody settles at a price known when the request was made,
  and queued requests are processed first in, first out. Managed calls, which sign as the vault, are not among these
  instructions: what a venue does with that signature is outside the runs.
- **Account extensions** (`VaultTlv`). The program's writer and readers of the TLV area, in place over an array,
  against the web app's parser, and the offsets at which the two start reading one account.
- **Web library** (`TokenAmount` with `Text`, `ErrorLogs`). Printing and parsing of token amounts, and the
  depth-first walk over a shared, possibly cyclic graph of error objects.

`Arithmetic`, `Bytes` and `Wrappers` hold what the others share. Check the project with
`dafny verify dfyconfig.toml`.

Where a property one might expect fails, lemmas name failing inputs and say exactly when it holds:

- The web app shows what the program wrote into a vault account exactly when the 400 bytes it reads first, from the
  middle of the breaker's address to the end of the account structure, happen to be complete entries of unknown types
  (`VaultTlv.WebReadsWrittenIff`): it starts at byte 272, the program at byte 672. Two zero bytes at 272 hide every
  extension (`VaultTlv.ZerosHideEverything`), other values make it throw (`VaultTlv.ShortThresholdThrows`).
- A rolling limit bounds a window, not every span of a window's length. The least bound for such spans is twice the
  limit, or twice less one where charges of nothing cannot occur (`RollingLimit.SharpBoundIsLeast`), so the limit
  itself holds exactly for windows of one slot and two corner cases (`RollingLimit.LimitHoldsForSpansIff`).
- Equal roots determine the set of leaves but not their number (`PolicyTree.RepeatedLastLeafKeepsRoot`); where nothing
  collides they determine the leaves with repetitions exactly if the lists are of one length
  (`PolicyTreeCounts.EqualRootsEqualLeavesIff`).
- FIFO order relies on at most 2^64 requests waiting, which is exactly where ids start to repeat
  (`VaultQueues.OldestOnlyIffLineFits`); the source's comment states only that order is kept "within any active
  request window".
- A printed amount can be read back as printed exactly from zero to below one thousand whole tokens, because of the
  grouping commas (`TokenAmount.PrintedReadableIff`); without the commas it is exact up to six decimals and truncated
  beyond.
- The amount charged to a manager's rolling limit is fixed by the capability exactly when its eight bytes are also
  ingested (`PolicyVerifier.AmountFixedIffCovered`).
- The web app reads a fee with an unknown discriminant as a fixed fee, where the program refuses it
  (`VaultTlv.FeeReadersAgreeIff`).

## Model

| member | source | states |
|---|---|---|
| PolicyLeaf.NormalizeAt | clients/rust/async_vault_v2/src/merkle_strategy_policy.rs:90-102 | entry by entry, only the vault's own account changes: it signs and is never writable |
| PolicyLeaf.NormalizeIdempotent | clients/rust/async_vault_v2/src/merkle_strategy_policy.rs:90-102 | normalizing twice is normalizing once |
| PolicyLeaf.RefusedIffNotAccepted | clients/rust/async_vault_v2/src/merkle_strategy_policy.rs:107-186 | the encoder's first-error chain raises no error exactly for the declaratively accepted calls |
| PolicyLeaf.EncodeInjective | clients/rust/async_vault_v2/src/merkle_strategy_policy.rs:107-186 | two valid commitments with one encoding are equal, although the operators' items differ in length |
| PolicyLeaf.UniquelyDecodable | clients/rust/async_vault_v2/src/merkle_strategy_policy.rs:104-187 | two accepted calls have the same pre-hash bytes if and only if they agree on every committed field, ingested range and ingested account |
| PolicyLeaf.PreimageLayout | clients/rust/async_vault_v2/src/merkle_strategy_policy.rs:117-127 | which bytes of a leaf string are the domain, program, vault, strategist, version, target, discriminator and the three counts |
| PolicyLeaf.ItemLayout | clients/rust/async_vault_v2/src/merkle_strategy_policy.rs:132-182 | which bytes of an operator's item are its tag, offset, length, ingested bytes, account index, address, signer and writable flags |
| PolicyLeaf.OperatorErrorMeans | clients/rust/async_vault_v2/src/merkle_strategy_policy.rs:132-182 | each error of an operator tells which of its checks failed first, in terms of bounds, earlier limits and the bytes ingested so far |
| PolicyLeaf.RefusalOfSizes | clients/rust/async_vault_v2/src/merkle_strategy_policy.rs:107-115 | sizes are refused before operators, in the order data, accounts, operators |
| Bytes.LittleEndianAt | clients/rust/async_vault_v2/src/merkle_strategy_policy.rs:122-126 | byte k of a stored number is its k-th digit to the base 256 |
| Bytes.LexAtFirstDifference | clients/typescript/src/merkleStrategyPolicy.ts:220-225 | strings of one length are ordered by the first byte in which they differ |
| PolicyTree.NodeInputSymmetric | clients/rust/async_vault_v2/src/merkle_strategy_policy.rs:189-200 | the node string does not depend on the order of the children |
| PolicyTree.NodeInputForm | clients/rust/async_vault_v2/src/merkle_strategy_policy.rs:189-200 | a node string is the domain, then the smaller child, then the larger |
| PolicyTree.NodeInputInjective | clients/rust/async_vault_v2/src/merkle_strategy_policy.rs:189-200 | a node string determines the unordered pair of children |
| PolicyTree.LeafIsNotNode | clients/rust/async_vault_v2/src/merkle_strategy_policy.rs:7-8 | the domains keep leaf strings and node strings apart |
| PolicyTree.LevelSizes | clients/rust/async_vault_v2/src/merkle_strategy_policy.rs:202-230 | level k has ceil(n / 2^k) nodes and only the last has one |
| PolicyTree.LevelCount | clients/rust/async_vault_v2/src/merkle_strategy_policy.rs:202-230 | the number of levels above the leaves is ceil(log2 n) |
| PolicyTree.DepthBound | clients/rust/async_vault_v2/src/merkle_strategy_policy.rs:13 | at most 4096 leaves give proofs of at most 12 digests |
| PolicyTree.LeafProof | clients/rust/async_vault_v2/src/merkle_strategy_policy.rs:232-251 | a proof has exactly one digest per level above the leaves |
| PolicyTree.ProofReachesRoot | clients/rust/async_vault_v2/src/merkle_strategy_policy.rs:202-271 | every leaf's proof folds to the root, odd levels included, and the fold hashes only strings the tree hashed |
| PolicyTree.TreeProofsVerify | clients/rust/async_vault_v2/src/merkle_strategy_policy.rs:202-251 | every proof taken from a built tree leads from its leaf to the tree's root |
| PolicyTree.ProofSound | clients/rust/async_vault_v2/src/merkle_strategy_policy.rs:7-8 | a proof of any length from a leaf string to the root shows that string among the leaves, or a collision among the strings hashed |
| PolicyTree.EqualRootsEqualLeafSets | clients/rust/async_vault_v2/src/merkle_strategy_policy.rs:202-230 | equal roots, even of trees of different sizes, mean equal leaf sets or a collision |
| PolicyTree.RepeatedLastLeafKeepsRoot | clients/rust/async_vault_v2/src/merkle_strategy_policy.rs:213-227 | the failing inputs for "a root fixes the list": an odd list and the list with its last leaf repeated have one root |
| PolicyTreeCounts.RootAndCountFixLeaves | clients/rust/async_vault_v2/src/merkle_strategy_policy.rs:202-230 | for lists of one length, equal roots mean permuted lists and equal sorted leaves, or a collision; permuted lists have equal roots |
| PolicyTreeCounts.EqualRootsEqualLeavesIff | clients/rust/async_vault_v2/src/merkle_strategy_policy.rs:202-230 | where roots are equal, the lists are permutations exactly when they are of one length, or strings collide |
| PolicyTreeCounts.EqualRootsEqualUnfoldings | clients/rust/async_vault_v2/src/merkle_strategy_policy.rs:213-227 | trees of one size and one root have the same leaves once every repeated node is written out, unless strings collide |
| PolicyTree.SiblingsOfShaped | clients/rust/async_vault_v2/src/merkle_strategy_policy.rs:232-251 | in a tree of the builder's shape a prover misses no sibling and finds exactly the proof |
| PolicyTree.CanonicalTree | clients/rust/async_vault_v2/src/merkle_strategy_policy.rs:211-229 | permuting the leaves changes neither leaves, levels nor root |
| PolicyClient.EncodeOperator | clients/rust/async_vault_v2/src/merkle_strategy_policy.rs:131-184 | one turn of the encoder's loop: this operator's item or its first error, flag and counter kept |
| PolicyClient.EncodeOperators | clients/rust/async_vault_v2/src/merkle_strategy_policy.rs:128-186 | the loop appends every item or stops at the first error in operator order |
| PolicyClient.HashStrategyPolicyLeaf | clients/rust/async_vault_v2/src/merkle_strategy_policy.rs:104-187 | hashes the leaf string of an accepted call, otherwise reports the first reason of refusal |
| PolicyClient.HashPairs | clients/rust/async_vault_v2/src/merkle_strategy_policy.rs:213-227 | the chunk loop computes one level from the one below |
| PolicyClient.BuildStrategyPolicyMerkleTree | clients/rust/async_vault_v2/src/merkle_strategy_policy.rs:202-230 | the tree over the sorted leaves, or the error for none or more than 4096 |
| PolicyClient.StrategyPolicyProof | clients/rust/async_vault_v2/src/merkle_strategy_policy.rs:232-251 | out of any tree, well made or not: the sibling of every level on the way up, the out-of-bounds error, or the panic where a level is too short |
| TypeScriptPolicyClient.EveryLeafHasTypedInput | clients/typescript/src/merkleStrategyPolicy.ts:21-31 | every call of the Rust client is one of the TypeScript client's inputs |
| TypeScriptPolicyClient.ConcatBytes | clients/typescript/src/merkleStrategyPolicy.ts:209-218 | filling one buffer at a moving offset gives the concatenation |
| TypeScriptPolicyClient.CompareBytes | clients/typescript/src/merkleStrategyPolicy.ts:220-225 | the comparator is the lexicographic order the Rust sort uses |
| TypeScriptPolicyClient.EncodeOperator | clients/typescript/src/merkleStrategyPolicy.ts:88-145 | one turn of the loop, with the checks on fractions, infinities, NaN and ranges that the other client gets from its types |
| TypeScriptPolicyClient.EncodeOperators | clients/typescript/src/merkleStrategyPolicy.ts:84-146 | the pushed parts concatenate to the same operator bytes, with the same first error on typed input |
| TypeScriptPolicyClient.HashStrategyPolicyLeaf | clients/typescript/src/merkleStrategyPolicy.ts:56-149 | on any numbers, fractions and NaN included: succeeds exactly on typed, accepted input, with the digest and the refusals of the Rust client |
| TypeScriptPolicyClient.HashStrategyPolicyNode | clients/typescript/src/merkleStrategyPolicy.ts:190-203 | the same node hash, refusing children that are not 32 bytes |
| TypeScriptPolicyClient.BuildLevels | clients/typescript/src/merkleStrategyPolicy.ts:158-169 | the level loop computes the same levels |
| TypeScriptPolicyClient.BuildStrategyPolicyMerkleTree | clients/typescript/src/merkleStrategyPolicy.ts:151-172 | the same tree as the Rust client's, and the errors for empty, oversized or malformed lists |
| TypeScriptPolicyClient.GetStrategyPolicyProof | clients/typescript/src/merkleStrategyPolicy.ts:174-188 | out of any tree the same siblings, undefined where the Rust client panics; indexes that are fractional, negative or too large are refused |
| PolicyVerifier.LimitAmountAt | programs/async_vault_v2/src/utils/merkle.rs:118-136 | the charged amount is the little-endian u64 at the limit operator's offset |
| PolicyVerifier.EncodeOperator | programs/async_vault_v2/src/utils/merkle.rs:83-138 | one turn of the program's loop agrees with the clients' and keeps the amount read so far |
| PolicyVerifier.EncodeOperators | programs/async_vault_v2/src/utils/merkle.rs:81-138 | the program's loop appends the same bytes, with its own error codes |
| PolicyVerifier.HashStrategyLeaf | programs/async_vault_v2/src/utils/merkle.rs:42-141 | the program hashes the same leaf string as the clients and returns the amount to charge |
| PolicyVerifier.VerifyStrategyProof | programs/async_vault_v2/src/utils/merkle.rs:156-164 | accepts exactly the proofs of at most 12 digests that fold to the root |
| PolicyVerifier.AuthorizeManagedCall | programs/async_vault_v2/src/instructions/manage_vault_with_merkle_verification.rs:79-148 | succeeds exactly for authorized calls, otherwise names the first failing check, the handler's own size checks ahead of the leaf's |
| PolicyVerifier.CallRefusal | programs/async_vault_v2/src/instructions/manage_vault_with_merkle_verification.rs:79-148 | no reason to refuse before the proof exactly when the policy applies and the leaf is acceptable |
| PolicyVerifier.LeafOfCall | programs/async_vault_v2/src/instructions/manage_vault_with_merkle_verification.rs:126-147 | the program hashes the call's own fields, with the vault as a signer that is never writable and every other account as given |
| PolicyVerifier.VaultFlagsIgnored | programs/async_vault_v2/src/instructions/manage_vault_with_merkle_verification.rs:130-136 | the privileges with which the outer transaction passes the vault do not affect authorization |
| PolicyVerifier.RefusalMeans | programs/async_vault_v2/src/instructions/manage_vault_with_merkle_verification.rs:79-86 | each refusal by the policy tells the first failing check: vault, strategist, pause, zero root, reentrancy, version |
| PolicyVerifier.CallRefusalMeans | programs/async_vault_v2/src/instructions/manage_vault_with_merkle_verification.rs:114-121 | under a policy that applies, oversized data, too many accounts, short data and too many operators are refused in this order |
| PolicyVerifier.Unauthorized | programs/async_vault_v2/src/state/async_vault_v2.rs:825-842 | a policy that is not bound to the call, paused, executing, without a root or of another version authorizes nothing, nor does a proof of more than 12 digests |
| PolicyVerifier.AuthorizedOnlyIfGranted | programs/async_vault_v2/src/instructions/manage_vault_with_merkle_verification.rs:118-148 | whatever proof is offered, an authorized call agrees with a granted capability on every committed field, or strings collide |
| PolicyVerifier.GrantedIsAuthorized | programs/async_vault_v2/src/instructions/manage_vault_with_merkle_verification.rs:118-148 | every call that agrees with a capability is authorized by the proof the client extracts for it |
| PolicyVerifier.StaleCapabilitiesRevoked | programs/async_vault_v2/src/instructions/manage_vault_with_merkle_verification.rs:79-86 | after a version bump, or for another vault, strategist or program, nothing under the old root is authorized without a collision |
| PolicyVerifier.CoveredByteFixed | programs/async_vault_v2/src/utils/merkle.rs:85-106 | bytes in the discriminator or an ingested range are the same in every call of a capability |
| PolicyVerifier.UncoveredByteFree | programs/async_vault_v2/src/utils/merkle.rs:85-106 | any other byte may be changed without leaving the capability |
| PolicyVerifier.AmountFixedIffCovered | programs/async_vault_v2/src/utils/merkle.rs:85-136 | the charged amount is fixed by the capability if and only if all its eight bytes are covered |
| VaultMath.SharesDomain | programs/async_vault_v2/src/utils.rs:423-433 | conversion to shares succeeds exactly when the NAV is set and 10^d, the product and the quotient fit |
| VaultMath.AssetsDomain | programs/async_vault_v2/src/utils.rs:438-451 | conversion to assets succeeds exactly when everything fits and the quotient is not zero |
| VaultMath.DecimalsThreshold | programs/async_vault_v2/src/utils.rs:423-451 | no u64 amount overflows before the division up to 19 decimals; at 20 the largest does; from 39 all conversions fail |
| VaultMath.SharesValue | programs/async_vault_v2/src/utils.rs:419-433 | shares received are worth at most the amount paid, and one more would be worth more |
| VaultMath.AssetsValue | programs/async_vault_v2/src/utils.rs:435-451 | assets received are worth at most the shares given, and one more would be worth more |
| VaultMath.AssetRoundTrip | programs/async_vault_v2/src/utils.rs:492-515 | at any NAV and decimals, assets to shares and back returns at most the amount and at least ceil((nav-1)/10^d) less, failing only on zero |
| VaultMath.ShareRoundTrip | programs/async_vault_v2/src/utils.rs:423-451 | shares to assets and back always succeeds, returns no more, and at most ceil((10^d-1)/nav) fewer |
| VaultMath.FeeIsCeiling | libs/vault_common/src/fee.rs:29-38 | a percentage fee is the exact fraction rounded up, and fails exactly when that exceeds a u64 |
| VaultTerms.FixedFeeIsItself | libs/vault_common/src/fee.rs:39 | a fixed fee is its amount, whatever the total |
| VaultTerms.ExtensionFeeIs | libs/vault_common/src/fee.rs:27-41 | no extension charges nothing, a fixed fee its amount, a percentage the least number of units not below it; nothing else fails |
| VaultMath.ValidatedFee | libs/vault_common/src/fee.rs:16-41 | a fee never exceeds the total exactly when the percentage validates or the total is zero |
| VaultMath.SplitConserves | programs/async_vault_v2/src/utils.rs:41-55 | a split fails exactly above 10000 bps on a non-zero fee; parts add up and the protocol's is its share rounded up |
| VaultTerms.SplitIs | programs/async_vault_v2/src/utils.rs:41-55 | the protocol gets its share rounded up and the recipient the rest, exactly when the rate is a rate or there is nothing to split |
| ConversionRuns.ConvertBounds | programs/async_vault_v2/src/utils.rs:423-451 | one conversion loses between nothing and nav-1, or 10^d-1, of the holder's worth |
| ConversionRuns.NoValueCreated | programs/async_vault_v2/src/utils.rs:423-451 | over any interleaving of deposits and redemptions worth never rises, and k steps lose at most k*(max(nav,10^d)-1) |
| ConversionRuns.NoFreeAssets | programs/async_vault_v2/src/utils.rs:492-515 | nobody ends a run with more assets and as many shares, or more shares and as many assets |
| ConversionRuns.SplittingDeposits | programs/async_vault_v2/src/utils.rs:423-433 | if the whole deposit converts so does every piece; n pieces give at most the whole's shares and at least n-1 fewer |
| ConversionRuns.SplittingRedemptions | programs/async_vault_v2/src/utils.rs:438-451 | pieces that convert give at most the whole's assets |
| ConversionRuns.FeesOnPieces | libs/vault_common/src/fee.rs:27-41 | fees on n pieces total at least the fee on the whole and at most n-1 more |
| ConversionRuns.SplitsOverRuns | programs/async_vault_v2/src/utils.rs:41-55 | over n splits the protocol is never behind its exact share and ahead by less than one unit each |
| ConversionRuns.PayOutBounds | programs/async_vault_v2/src/utils.rs:41-55 | conversion, percentage fee and split together pay exactly the gross assets, and fail only if the conversion does |
| VaultLimits.ValidatedRedeemPricedIff | programs/async_vault_v2/src/instructions/approve_request.rs:541-568 | with a fee that validates, a redemption is priced exactly if its shares convert and the rolling limit has room, and pays out exactly the gross |
| ConversionRuns.RedemptionsConserve | programs/async_vault_v2/src/utils.rs:435-451 | over any run of redemptions all payouts together are the gross assets, worth at most the shares burned and less by under one unit each |
| RollingLimit.Bucket.ConsumeRollingLimit | programs/async_vault_v2/src/state/async_vault_v2.rs:636-670 | the account's window after a charge, and the error of a refused one |
| RollingLimit.NoLimit | programs/async_vault_v2/src/state/async_vault_v2.rs:644-646 | a limit of zero accepts every charge of every run and keeps no window |
| RollingLimit.ChargeAcceptedIff | programs/async_vault_v2/src/state/async_vault_v2.rs:647-669 | with a limit, a charge is accepted exactly if the window can be used and what is used up at its slot leaves room; the window after it |
| RollingLimit.BlockedIff | programs/async_vault_v2/src/state/async_vault_v2.rs:647-651 | no charge at all is accepted exactly if windows have no length or the current one ends beyond the last slot |
| RollingLimit.BlockedForever | programs/async_vault_v2/src/state/async_vault_v2.rs:647-651 | and then nothing is accepted in any run after it |
| RollingLimit.ConsumeBounded | programs/async_vault_v2/src/state/async_vault_v2.rs:636-670 | an accepted charge keeps the window's amount equal to what was spent in it, and every span within twice the limit less what opens a window |
| RollingLimit.RunBounded | programs/async_vault_v2/src/state/async_vault_v2.rs:636-670 | a run from any bounded state keeps every span within that bound |
| RollingLimit.AnySpanWithinBound | programs/async_vault_v2/src/state/async_vault_v2.rs:595-670 | from an unused bucket, any span of one window length sees at most the sharp bound |
| RollingLimit.TwoWindowsAccepted | programs/async_vault_v2/src/state/async_vault_v2.rs:655-659 | a window opened by any charge, used up in its last slot, and the next used up in the slot after, is accepted |
| RollingLimit.BoundAttained | programs/async_vault_v2/src/state/async_vault_v2.rs:636-670 | for every limit and window length some run, of positive charges if required, has a span that sees exactly the sharp bound |
| RollingLimit.SharpBoundIsLeast | programs/async_vault_v2/src/state/async_vault_v2.rs:636-670 | a number bounds every span of every run if and only if it is at least the sharp bound |
| RollingLimit.LimitHoldsForSpansIff | programs/async_vault_v2/src/state/async_vault_v2.rs:636-670 | the limit bounds every span exactly for windows of at most one slot, or the longest window and a limit of one; with positive charges, exactly for windows of one slot or a limit of one |
| VaultLimits.ApproveCharged | programs/async_vault_v2/src/instructions/approve_request.rs:541-640 | an approval charges the redemption window with exactly what the vault's total drops by |
| VaultLimits.MovesWithinBound | programs/async_vault_v2/src/state/async_vault_v2.rs:595-634 | over any run from a vault's creation at one configuration, any window-length span sees redemptions within twice the limit less one, and manager moves within twice the limit |
| VaultLedger.PriceDeposit | programs/async_vault_v2/src/instructions/approve_request.rs:469-493 | a priced deposit splits the amount into net and fees without remainder, and nets something for some shares |
| VaultTerms.DepositPricedIff | programs/async_vault_v2/src/instructions/approve_request.rs:469-493 | under any deposit fee: priced exactly if the fee leaves something that converts to shares and the protocol's rate is a rate; the net is the amount less that fee, the shares their floor at the NAV, the fee split at the protocol's rate |
| VaultLedger.PriceRedeem | programs/async_vault_v2/src/instructions/approve_request.rs:541-569 | a priced redemption splits the gross assets without remainder |
| VaultTerms.RedeemPricedIff | programs/async_vault_v2/src/instructions/approve_request.rs:541-568 | under any withdrawal fee: priced exactly if the fee is at most the gross assets, the rolling limit has room for the gross and the protocol's rate is a rate; the net, the split and the window charged |
| VaultLedger.InstantFeeAndNet | programs/async_vault_v2/src/instructions/instant_redeem.rs:187-203 | both instant fees and the net are the gross, and the net is not zero |
| VaultTerms.InstantFeeIs | programs/async_vault_v2/src/instructions/instant_redeem.rs:187-203 | the withdrawal fee and the instant percentage are both charged on the gross, exactly if they leave something |
| VaultTerms.DepositApproved | programs/async_vault_v2/src/instructions/approve_request.rs:468-685 | an approved deposit: the request claims the floor of the net's worth, the net is in the reserve and the total, the fee is paid in its two parts, nothing else changes |
| VaultTerms.RedemptionApproved | programs/async_vault_v2/src/instructions/approve_request.rs:541-685 | an approved redemption: the floor of the shares' worth leaves reserve and total, the net of it is claimable from the escrow, the fee is paid in its two parts, nothing else changes |
| VaultTerms.InstantlyDeposited | programs/async_vault_v2/src/instructions/instant_deposit.rs:126-234 | an instant deposit: the user pays the amount and gets the floor of the net's worth in shares, the fee is paid in its two parts, nothing else changes |
| VaultTerms.InstantlyRedeemed | programs/async_vault_v2/src/instructions/instant_redeem.rs:132-263 | an instant redemption: the shares are burned, the user gets the floor of their worth less both fees, these are paid in their two parts, nothing else changes |
| VaultAccess.DepositAcceptedIff | programs/async_vault_v2/src/instructions/create_deposit_request.rs:87-215 | a deposit request is accepted exactly if the vault is in use, the cap has room, the fee leaves something, the user can pay and the counters fit |
| VaultAccess.RedemptionAcceptedIff | programs/async_vault_v2/src/instructions/create_redeem_request.rs:68-156 | a redemption request is accepted exactly if the vault is in use, the user has the shares and the counter fits |
| VaultAccess.RequestCreated | programs/async_vault_v2/src/instructions/create_deposit_request.rs:150-165 | a new request is its user's, of the kind and amount asked for, pending, at the NAV version of the moment |
| VaultAccess.PaidOnCreation | programs/async_vault_v2/src/instructions/create_deposit_request.rs:73-190 | a deposit is paid into the escrow and counted as pending, the shares of a redemption are burned, nothing else moves |
| VaultAccess.ApprovedIff | programs/async_vault_v2/src/instructions/approve_request.rs:333-686 | approval succeeds exactly if the vault is in use, curator or fulfiller sign, the request is pending and next in its queue, the NAV is set, fresh and recent, and the amounts can be settled |
| VaultAccess.RejectedIff | programs/async_vault_v2/src/instructions/reject_request.rs:194-300 | rejection succeeds exactly if curator or fulfiller sign, the request is pending and next in its queue and can be given back |
| VaultAccess.CanceledIff | programs/async_vault_v2/src/instructions/cancel_request.rs:165-251 | only the owner of a pending request cancels it, exactly in the way its queue prescribes and while the vault is in use |
| VaultAccess.PaidOnRejection | programs/async_vault_v2/src/instructions/reject_request.rs:238-300 | rejecting pays the deposit back out of the escrow or mints the burned shares again, and nothing else moves |
| VaultAccess.PaidOnCancellation | programs/async_vault_v2/src/instructions/cancel_request.rs:190-250 | so does either way of canceling |
| VaultAccess.SkippedIff | programs/async_vault_v2/src/extensions/fifo_queues/skip_canceled_queue_request.rs:38-85 | exactly the canceled request next in its queue is skipped, by anyone |
| VaultAccess.ClaimedIff | programs/async_vault_v2/src/instructions/claim.rs:133-207 | only owner or operator of a settled request claim it, exactly while the vault is in use and supply or escrow suffice |
| VaultAccess.PaidOnClaim | programs/async_vault_v2/src/instructions/claim.rs:81-131 | a claim mints a settled deposit's shares or pays a settled redemption out of the escrow, and nothing else moves |
| VaultAccess.InstantDepositIff | programs/async_vault_v2/src/instructions/instant_deposit.rs:126-234 | an instant deposit succeeds exactly if instant settlement is open at a recent NAV, the cap has room, the deposit has a price and everything fits |
| VaultAccess.InstantRedeemIff | programs/async_vault_v2/src/instructions/instant_redeem.rs:132-263 | an instant redemption succeeds exactly if instant settlement is open at a recent NAV, the reserve covers the gross, the limit has room and both fees leave something |
| VaultAccess.MovedIff | programs/async_vault_v2/src/instructions/deploy_venue_position.rs:101-188 | assets move between reserve and position exactly for the manager, or the hot manager at a routine-safe venue, within the limit and what is there |
| VaultAccess.PullUndoesDeploy | programs/async_vault_v2/src/instructions/pull_venue_position.rs:101-192 | a position grows by what the reserve gives, no other changes, and pulling the amount back restores everything but the limit's window |
| VaultAccess.StepKeepsRequests | programs/async_vault_v2/src/state/async_vault_v2.rs:35-136 | an instruction changes at most the request it names: its state from one given state to one other, by approval its amount, by its owner its operator |
| VaultAccess.RunKeepsIdentity | programs/async_vault_v2/src/state/request.rs:25-52 | over any run a request keeps its owner, kind, price stamp and place in the queue |
| VaultAccess.ClosedForGood | programs/async_vault_v2/src/instructions/claim.rs:133-207 | nothing is paid twice: every instruction about a closed request fails, whatever run lies between |
| VaultAccess.OnlyOwnerAppoints | programs/async_vault_v2/src/instructions/set_operator.rs:5-21 | nobody but its owner changes who else may claim a request |
| VaultAccess.StrangersChangeNothing | programs/async_vault_v2/src/state/async_vault_v2.rs:503-519 | an instruction not signed by whom it needs fails and changes nothing, in a vault in use because of its signer |
| VaultAccess.UnusableIsFrozen | programs/async_vault_v2/src/state/async_vault_v2.rs:492-496 | while a vault is paused or uninitialized, nothing but a rejection moves assets or shares, and requests and settlements are refused for that reason |
| VaultAccess.NavStored | programs/async_vault_v2/src/instructions/update_nav.rs:49-77 | curator or fulfiller store a NAV and its slot under the next version, and nothing else changes |
| VaultAccess.OnlyNavUpdatesPrice | programs/async_vault_v2/src/instructions/update_nav.rs:49-77 | no other instruction changes the NAV, its version or its age |
| VaultAccess.Withdrawn | programs/async_vault_v2/src/instructions/withdraw_assets.rs:75-85 | the curator of a vault in use withdraws what the reserve has, and nothing but the reserve changes |
| VaultAccess.SetUp | programs/async_vault_v2/src/instructions/initialize_vault.rs:5-26 | who may add queues, initialize, configure and pause, when, and what that changes |
| VaultAccess.InitializedForGood | programs/async_vault_v2/src/instructions/initialize_vault.rs:20-26 | over any run an initialized vault stays so and keeps exactly the queues it has |
| VaultInvariants.ApproveDepositBalanced | programs/async_vault_v2/src/instructions/approve_request.rs:468-540 | settling a deposit keeps the books balanced and does not lower the margin |
| VaultInvariants.ApproveRedeemBalanced | programs/async_vault_v2/src/instructions/approve_request.rs:541-616 | settling a redemption keeps the books balanced and does not lower the margin |
| VaultInvariants.RefundBalanced | programs/async_vault_v2/src/instructions/cancel_request.rs:190-250 | a refund keeps the books balanced and the margin unchanged |
| VaultInvariants.InstantDepositBalanced | programs/async_vault_v2/src/instructions/instant_deposit.rs:169-233 | an instant deposit keeps the books balanced and does not lower the margin |
| VaultInvariants.InstantRedeemBalanced | programs/async_vault_v2/src/instructions/instant_redeem.rs:177-262 | an instant redemption keeps the books balanced and does not lower the margin |
| VaultInvariants.VenueBalanced | programs/async_vault_v2/src/instructions/deploy_venue_position.rs:101-188 | moving assets to a venue or back keeps the books balanced and the margin unchanged |
| VaultInvariants.StepBalanced | programs/async_vault_v2/src/state/async_vault_v2.rs:35-136 | every modelled instruction keeps the counters equal to the requests, the escrow equal to what is owed from it, the total equal to reserve, venues and withdrawals, and all assets accounted for; only a NAV update can lower the margin |
| VaultInvariants.RunBalanced | programs/async_vault_v2/src/state/async_vault_v2.rs:35-136 | every run of modelled instructions keeps the books balanced |
| VaultInvariants.ReachableBalanced | programs/async_vault_v2/src/instructions/create_vault.rs:97-162 | the books of a vault balance after any run since its creation, managed calls apart |
| VaultInvariants.StepWithinCap | programs/async_vault_v2/src/state/async_vault_v2.rs:545-560 | every instruction but a reconfiguration keeps settled plus pending deposits within the cap |
| VaultInvariants.RunWithinCap | programs/async_vault_v2/src/state/async_vault_v2.rs:545-560 | so does every run without one, however requests, settlements and instant deposits mix |
| VaultInvariants.SettledAtRecentNav | programs/async_vault_v2/src/state/async_vault_v2.rs:531-543 | whatever is settled, instantly or not, is settled at a set NAV at most the configured number of slots old |
| VaultInvariants.NoSettlementAtKnownNav | programs/async_vault_v2/src/state/async_vault_v2.rs:521-529 | where fresh prices are required, whatever run follows a request's creation, it is not approved before a NAV update |
| VaultSoundness.StepSound | programs/async_vault_v2/src/state/async_vault_v2.rs:35-136 | every instruction keeps the books balanced and, for the first 2^64 requests, the lines in order |
| VaultInvariants.NoDilution | programs/async_vault_v2/src/utils.rs:419-451 | over any run without a NAV update the assets behind all existing and owed shares never shrink relative to them |
| VaultInvariants.RefundCovered | programs/async_vault_v2/src/instructions/cancel_request.rs:165-251 | with balanced books a pending deposit can always be taken back while the vault is usable; a pending redemption exactly if the supply has room |
| VaultInvariants.ClaimCovered | programs/async_vault_v2/src/instructions/claim.rs:133-207 | with balanced books a settled redemption is always paid; a settled deposit is minted exactly if the supply has room |
| VaultQueues.OnlyOldestAccepted | programs/async_vault_v2/src/extensions/fifo_queues/fifo_queue.rs:89-116 | with at most 2^64 waiting the accepted id is the oldest waiting request's |
| VaultQueues.ProcessKeepsOrder | programs/async_vault_v2/src/extensions/fifo_queues/fifo_queue.rs:89-116 | processing the accepted request keeps ids, counters and order |
| VaultQueues.CreateKeepsOrder | programs/async_vault_v2/src/extensions/fifo_queues/fifo_queue.rs:40-58 | a new request joins the end of its line, with the wrapped count as id |
| VaultQueues.StepOrdered | programs/async_vault_v2/src/extensions/fifo_queues/fifo_queue.rs:40-116 | every instruction keeps both lines in order |
| VaultQueues.RunOrdered | programs/async_vault_v2/src/extensions/fifo_queues/fifo_queue.rs:40-116 | every run in which the lines fit keeps both lines in order |
| VaultQueues.FirstInFirstOut | programs/async_vault_v2/src/extensions/fifo_queues/fifo_queue.rs:89-116 | when a queued request has been processed so has every earlier one of its kind |
| VaultQueues.ReachableFirstInFirstOut | programs/async_vault_v2/src/extensions/subscription_queue/processor.rs:48-55 | first in, first out for the first 2^64 instructions of any vault |
| VaultQueues.OldestOnlyIffLineFits | programs/async_vault_v2/src/extensions/fifo_queues/fifo_queue.rs:108-112 | the check admits only the oldest waiting request if and only if at most 2^64 wait |
| VaultProgram.AsyncVault.constructor | programs/async_vault_v2/src/instructions/create_vault.rs:97-162 | a new vault has the books of a created, uninitialized vault, and the invariant holds |
| VaultProgram.AsyncVault.AddQueue | programs/async_vault_v2/src/extensions/vault_extensions.rs:91-116 | adds an empty queue exactly before initialization and once, keeping the invariant |
| VaultProgram.AsyncVault.InitializeVault | programs/async_vault_v2/src/instructions/initialize_vault.rs:20-26 | initializes exactly once, keeping the invariant |
| VaultProgram.AsyncVault.Deploy | programs/async_vault_v2/src/instructions/deploy_venue_position.rs:101-188 | moves assets from the reserve to a position within the manager's limit, keeping the invariant |
| VaultProgram.AsyncVault.Pull | programs/async_vault_v2/src/instructions/pull_venue_position.rs:101-192 | moves assets from a position back to the reserve within the manager's limit, keeping the invariant |
| VaultProgram.AsyncVault.WithdrawAssets | programs/async_vault_v2/src/instructions/withdraw_assets.rs:75-85 | takes assets out of the reserve but not off the total, keeping the invariant |
| VaultProgram.AsyncVault.UpdateNav | programs/async_vault_v2/src/instructions/update_nav.rs:49-77 | sets the NAV, its version and its slot, keeping the invariant |
| VaultProgram.AsyncVault.Pause | programs/async_vault_v2/src/instructions/pause_vault.rs:20-26 | keeps the invariant, follows the ledger's instruction, and is untouched on failure |
| VaultProgram.AsyncVault.TakeQueueId | programs/async_vault_v2/src/extensions/fifo_queues/fifo_queue.rs:40-58 | takes the next id of a queue, and only changes that queue |
| VaultProgram.AsyncVault.QueuePast | programs/async_vault_v2/src/extensions/fifo_queues/fifo_queue.rs:89-116 | the advanced queue, or the missing-id or out-of-order error |
| VaultProgram.AsyncVault.CreateDepositRequest | programs/async_vault_v2/src/instructions/create_deposit_request.rs:87-215 | keeps the invariant, follows the ledger's instruction, and is untouched on failure |
| VaultProgram.AsyncVault.CreateRedeemRequest | programs/async_vault_v2/src/instructions/create_redeem_request.rs:68-156 | keeps the invariant, follows the ledger's instruction, and is untouched on failure |
| VaultProgram.AsyncVault.ApproveRequest | programs/async_vault_v2/src/instructions/approve_request.rs:333-686 | keeps the invariant, follows the ledger's instruction, and is untouched on failure, queue included |
| VaultProgram.AsyncVault.SettleDeposit | programs/async_vault_v2/src/instructions/approve_request.rs:468-686 | moves escrow to reserve and fees as the ledger's settlement says |
| VaultProgram.AsyncVault.SettleRedeem | programs/async_vault_v2/src/instructions/approve_request.rs:541-686 | moves reserve to escrow and fees as the ledger's settlement says |
| VaultProgram.AsyncVault.GiveBack | programs/async_vault_v2/src/instructions/cancel_request.rs:190-250 | returns assets or shares as the ledger's refund says |
| VaultProgram.AsyncVault.RejectRequest | programs/async_vault_v2/src/instructions/reject_request.rs:194-300 | keeps the invariant, follows the ledger's instruction, and is untouched on failure, queue included |
| VaultProgram.AsyncVault.CancelRequest | programs/async_vault_v2/src/instructions/cancel_request.rs:165-251 | keeps the invariant, follows the ledger's instruction, and is untouched on failure |
| VaultProgram.AsyncVault.CancelQueuedRequest | programs/async_vault_v2/src/extensions/subscription_queue/instructions/cancel_queued_deposit_request.rs:98-163 | keeps the invariant and follows the ledger's instruction, leaving a tombstone in the queue |
| VaultProgram.AsyncVault.SkipCanceledRequest | programs/async_vault_v2/src/extensions/fifo_queues/skip_canceled_queue_request.rs:38-85 | keeps the invariant and follows the ledger's instruction: the queue passes a tombstone in its turn |
| VaultProgram.AsyncVault.Claim | programs/async_vault_v2/src/instructions/claim.rs:133-207 | keeps the invariant, follows the ledger's instruction, and is untouched on failure |
| VaultProgram.AsyncVault.SetOperator | programs/async_vault_v2/src/instructions/set_operator.rs:5-21 | keeps the invariant, follows the ledger's instruction, and is untouched on failure |
| VaultProgram.AsyncVault.InstantDeposit | programs/async_vault_v2/src/instructions/instant_deposit.rs:126-234 | keeps the invariant, follows the ledger's instruction, and is untouched on failure |
| VaultProgram.AsyncVault.InstantRedeem | programs/async_vault_v2/src/instructions/instant_redeem.rs:132-263 | keeps the invariant, follows the ledger's instruction, and is untouched on failure |
| VaultTlv.ParseExtensions | apps/web/src/lib/extensions.ts:55-103 | on any bytes the cursor loop ends and computes the entry-by-entry parse of what follows the base |
| VaultTlv.FeeShown | apps/web/src/lib/extensions.ts:71-81 | a stored deposit or withdrawal fee, fixed or percentage, is shown as that fee with that value |
| VaultTlv.FlagShown | apps/web/src/lib/extensions.ts:82-86 | a stored pause flag is shown as that flag, set or not |
| VaultTlv.FlagReadersAgreeIff | programs/async_vault_v2/src/extensions/pausable_subscriptions/processor.rs:20-29 | the web app and the program take a flag byte for the same exactly if it is zero or one |
| VaultTlv.QueueShown | apps/web/src/lib/extensions.ts:87-93 | a stored queue is shown with its total as head and its last processed id as tail |
| VaultTlv.ThresholdShown | apps/web/src/lib/extensions.ts:94-98 | a stored minimum is shown as that minimum |
| VaultTlv.OnlyUnknownHidden | apps/web/src/lib/extensions.ts:70-99 | the two types the web app does not know are left out whatever they hold, and nothing else is |
| VaultTlv.TypesNumbered | programs/async_vault_v2/src/extensions/vault_extensions.rs:13-42 | the types are numbered from one to ten, each with a number of its own |
| VaultTlv.ParseAfterEntries | apps/web/src/lib/extensions.ts:61-101 | parsing distributes over a complete sequence of entries followed by anything |
| VaultTlv.ParseInvertsEncode | apps/web/src/lib/extensions.ts:55-103 | entries and any zero padding parse to exactly the known entries in order, unknown types skipped |
| VaultTlv.ParseThrowsIff | apps/web/src/lib/extensions.ts:72-98 | the parser throws exactly when some known entry is shorter than its fields |
| VaultTlv.TlvUsedLen | programs/async_vault_v2/src/extensions/tlv.rs:137-160 | the loop finds where the entries end |
| VaultTlv.GetExtensionBytes | programs/async_vault_v2/src/extensions/tlv.rs:13-28 | the loop finds the first entry of a type, if there is one |
| VaultTlv.UsedLengthOfEntries | programs/async_vault_v2/src/extensions/tlv.rs:137-160 | entries and padding use exactly the entries' length |
| VaultTlv.LookupOfEntries | programs/async_vault_v2/src/extensions/tlv.rs:13-28 | looking a type up in entries and padding gives its first entry's value |
| VaultTlv.WriteExtension | programs/async_vault_v2/src/extensions/tlv.rs:51-99 | writes one zero-padded entry in place, or fails and writes nothing |
| VaultTlv.InitVaultExtension | programs/async_vault_v2/src/extensions/vault_extensions.rs:91-116 | on any region: writes an entry behind the last complete one exactly when the vault is not initialized, the type is not found and it fits |
| VaultTlv.InitAddsEntry | programs/async_vault_v2/src/extensions/vault_extensions.rs:91-116 | on a region of entries that adds one entry and keeps the others |
| VaultTlv.UpdateExtension | programs/async_vault_v2/src/extensions/tlv.rs:101-135 | on any region: overwrites the first entry of the type, or names the error, or panics on an entry shorter than the value |
| VaultTlv.UpdateReplacesValue | programs/async_vault_v2/src/extensions/tlv.rs:101-135 | on a region of entries that replaces one value and keeps everything else |
| VaultTlv.WritingKeepsForm | programs/async_vault_v2/src/extensions/vault_extensions.rs:91-131 | initializing and updating keep one entry per type, each of its type's length |
| VaultTlv.SameStartReadable | programs/async_vault_v2/src/extensions/tlv.rs:13-28 | the program finds every value it wrote, and a parser started at the same byte would read the known types without throwing |
| VaultTlv.WebReadsWrittenIff | apps/web/src/lib/extensions.ts:55-60 | the web app reads every region the program can write exactly when bytes 272 to 671 of the account are complete entries of unknown types |
| VaultTlv.ZerosHideEverything | apps/web/src/lib/extensions.ts:55-66 | zeros at byte 272 make it show no extension, whatever was written |
| VaultTlv.ShortThresholdThrows | apps/web/src/lib/extensions.ts:94-98 | the bytes 7, 0, 1, 0 there make it throw, whatever was written |
| VaultTlv.FeeRoundTrip | programs/async_vault_v2/src/extensions/fee/processor.rs:20-53 | both readers get back the fee that was written |
| VaultTlv.FeeReadersAgreeIff | apps/web/src/lib/extensions.ts:72-82 | the two readers agree on nine bytes exactly when the discriminant is 0 or 1 |
| TokenAmount.ParseTruncates | apps/web/src/lib/format.ts:20-27 | digits beyond the decimals are cut off, missing ones count as zero |
| TokenAmount.ParsedIff | apps/web/src/lib/format.ts:20-24 | an input is accepted exactly if, without the spaces around it, it is nothing, digits, or digits, one dot and digits; a refusal names the input |
| TokenAmount.ParsedValue | apps/web/src/lib/format.ts:20-27 | blank input is zero, and whatever spaces surround a number it means its digits, floored to the decimals |
| TokenAmount.Malformed | apps/web/src/lib/format.ts:23 | "1.", ".5", "1.2.3", a sign and a comma are refused |
| TokenAmount.PrintedWhole | apps/web/src/lib/format.ts:8-15 | a missing amount is a dash, whole amounts have no dot, negative ones a minus |
| TokenAmount.FractionShown | apps/web/src/lib/format.ts:16-17 | the fraction is shown from its first digit, at most six digits; where only zeros follow none is shown, otherwise exactly six are |
| TokenAmount.CutLeavesZeros | apps/web/src/lib/format.ts:16 | one token and one unit in the seventh decimal is shown with six zeros, because zeros are stripped before the digits are cut |
| Text.CommaPlaces | apps/web/src/lib/format.ts:15-17 | commas stand at every fourth place from the right of a grouped number and nowhere else |
| Text.TrimIsCore | apps/web/src/lib/format.ts:21 | trimming cuts blank ends off and leaves nothing blank at either end |
| Text.CoreIsTrim | apps/web/src/lib/format.ts:21 | and it finds exactly that core, whatever blanks surround it |
| TokenAmount.PrintParse | apps/web/src/lib/format.ts:7-27 | a printed amount without its commas parses to the amount less its part below six decimals |
| TokenAmount.PrintParseExact | apps/web/src/lib/format.ts:7-27 | with at most six decimals it parses to the amount itself |
| TokenAmount.PrintedReadableIff | apps/web/src/lib/format.ts:7-27 | a printed amount parses as it stands if and only if it is from zero to below one thousand whole tokens |
| ErrorLogs.DedupParts | apps/web/src/lib/transactionErrors.ts:210 | deduplicating in every nested call gives the same lines in the same order as once at the end |
| ErrorLogs.NodeLinesAttached | apps/web/src/lib/transactionErrors.ts:179-201 | a line is taken from an object exactly if it is a non-blank string in the array under its logs, its context's logs or its data's logs |
| ErrorLogs.NodeLinesInOrder | apps/web/src/lib/transactionErrors.ts:191-201 | an object's lines come in the order preflight context, logs, context, data, each array in its own order |
| ErrorLogs.DedupKeepsFirst | apps/web/src/lib/transactionErrors.ts:210 | of equal lines the first is kept, and kept lines stay in order |
| ErrorLogs.PreorderUnwrappedFirst | apps/web/src/lib/transactionErrors.ts:204-208 | what an error unwraps to is walked before its cause |
| ErrorLogs.CollectLogs | apps/web/src/lib/transactionErrors.ts:184-211 | with any set visited before, walks exactly the new nodes in depth-first order and ends on cyclic graphs |
| ErrorLogs.CollectAllLogs | apps/web/src/lib/transactionErrors.ts:179-211 | exactly the non-blank lines of the reachable objects, each once, in the order first met |
| ErrorLogs.ClosedContains | apps/web/src/lib/transactionErrors.ts:204-208 | a set with the start that is closed under steps contains every reachable object |
| ErrorLogs.PreflightAmongCauses | apps/web/src/lib/transactionErrors.ts:213-225 | the walk with a shared visited set loses no preflight error |
| ErrorLogs.IsPreflightFailure | apps/web/src/lib/transactionErrors.ts:213-225 | true exactly when a preflight error is reachable through causes |

## Left out

Policies:

- The hash function and address encoding: SHA-256 is a parameter, addresses are 32 bytes, and the program's own
  address is a parameter of the leaf.
- The library sorts of both clients are modelled by their result, the ascending arrangement; the asynchrony of the
  TypeScript client's digest call is not modelled.
- PolicyVerifier.AuthorizeManagedCall: starts after the vault's own pause check, and leaves out the venue checks
  between the policy's and the sizes', the venue's list of discriminators, the charge to the rolling limit, the
  cross-program call, the reentrancy flag around it and the share-supply comparison after it.

Vault:

- Tranches (their share mints, queues, supply caches, junior ratio and NAV waterfall) and secondary assets.
- VaultInvariants.StepBalanced: managed calls sign as the vault and can move the reserve
  and the escrow wherever the called venue takes them; they are not instructions of these runs.
- VaultInvariants.RunBalanced: runs leave out managed calls.
- VaultInvariants.ReachableBalanced: runs leave out managed calls.
- VaultInvariants.RefundCovered: holds while the books balance, so until a managed call takes assets out of the escrow.
- VaultInvariants.ClaimCovered: holds while the books balance, so until a managed call takes assets out of the escrow.
- VaultLedger.UpdateNav: sets any NAV; the limits on change and yield, the performance fee (which mints shares and so
  may lower the margin, but only in a NAV update) and the tranche waterfall are not part of this model.
- VaultLedger.Configure: replaces the whole configuration at once and stands for every direct and timelocked update.
- VaultLedger.Deploy: a position and its token account hold the same amount, of the primary asset; approving and
  pausing venues and removing emptied positions are left out.
- VaultLedger.WithdrawAssets: leaves out the externally-managed-withdrawals flag, its venue and its rolling limit.
- VaultAccess.DepositAcceptedIff: exact for the checks of CreateDepositRequest as modelled, see there.
- VaultAccess.RedemptionAcceptedIff: exact for the checks of CreateRedeemRequest as modelled, see there.
- VaultAccess.ApprovedIff: exact for the checks of ApproveRequest as modelled, see there.
- VaultAccess.RejectedIff: exact for the checks of RejectRequest as modelled, see there.
- VaultAccess.InstantDepositIff: exact for the checks of InstantDeposit as modelled, see there.
- VaultAccess.InstantRedeemIff: exact for the checks of InstantRedeem as modelled, see there.
- VaultAccess.MovedIff: leaves out paused venues and the mint of the position.
- VaultAccess.NavStored: exact for the checks of UpdateNav as modelled, see there.
- VaultAccess.Withdrawn: exact for the checks of WithdrawAssets as modelled, see there.
- VaultProgram.AsyncVault.CreateDepositRequest: leaves out the pausable, minimum-amount, mint and tranche checks, which can only refuse.
- VaultProgram.AsyncVault.CreateRedeemRequest: leaves out the pausable, minimum-amount, mint and tranche checks, which can only refuse.
- VaultProgram.AsyncVault.ApproveRequest: leaves out the copies of request fields among the arguments and the mint, account and tranche checks.
- VaultProgram.AsyncVault.SettleDeposit: leaves out the tranche supply cache and the junior ratio.
- VaultProgram.AsyncVault.SettleRedeem: leaves out the tranche supply cache and the junior ratio.
- VaultProgram.AsyncVault.RejectRequest: leaves out the copies of request fields among the arguments and the mint checks.
- VaultProgram.AsyncVault.CancelRequest: leaves out mint validation.
- VaultProgram.AsyncVault.CancelQueuedRequest: leaves out mint validation.
- VaultProgram.AsyncVault.SkipCanceledRequest: leaves out tranche queues.
- VaultProgram.AsyncVault.Claim: leaves out mint and account validation.
- VaultProgram.AsyncVault.InstantDeposit: leaves out amount bounds and per-user limits.
- VaultProgram.AsyncVault.InstantRedeem: leaves out amount bounds and per-user limits.
- Wallet balances are parameters; tokens sent to the vault's accounts from outside do not occur; transfers and mints
  fail only for lack of balance or a full u64.
- A request account that is closed stays in the list as `Closed`; timestamps and request prices are dropped.
- RollingLimit.Bucket.ConsumeRollingLimit: a refused charge writes nothing, where the source may reset the window first
  and relies on the runtime to undo it; the handlers of AsyncVault likewise check before they write, or undo.
- RollingLimit.AnySpanWithinBound: the limit and the window length stay fixed during the run.
- Request extensions' byte layout, rent, PDA derivation and serialization.

Web library:

- The web app shows the two queue counters under the names head and tail; what they count is not compared.
- TokenAmount.FormatTokenAmount: groups digits as in en-US only.
- `unwrapSimulationError` is given per object; a value that is not an object unwraps to itself.
- Wording and patterns of error messages, and everything that draws the page.
