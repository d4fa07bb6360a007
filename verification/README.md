# Stride: verified models of fee distribution, transactional execution, config rewriting, vesting and the IBC transfer stack

This project models six parts of the Stride chain in Dafny and proves what they guarantee.
`dafny verify dfyconfig.toml` checks everything.

- **Fee distribution** (`LegacyDec`, `Coins`, `Allocation`, `Distribution`, `DistributionRuns`).
  Each block empties the fee collector: 15% goes to the POA account, the rest to the
  distribution account, where bonded validators are credited by stake and the community pool
  takes the remainder. All arithmetic is 18-digit fixed point with truncation. An allocation
  is specified denomination by denomination (`Allocated`), the code is a class proved against
  that relation, and over every run of mints, fee payments, blocks and exports the
  distribution account holds exactly what validators and the community are owed.
- **Transactional execution** (`CacheCtx`, `CacheCtxTheorems`). `ApplyFuncIfNoError` runs a
  function in a cached context. Functions are trees of reads, writes, branches, gas charges,
  errors, panics and nested calls; the machine keeps a stack of overlays with clean and dirty
  entries and flushes or drops them. It is proved equal to saving and restoring one plain
  store, and further theorems follow from that simple form.
- **Config rewriting** (`Text`, `MapKeys`, `ConfigRewrite`). The line scan that overwrites
  listed keys of a TOML file, with the loop over sorted keys, and the file written out and
  scanned again. The law that two rewrites compose fails for three kinds of values: one with
  a line feed, one ending in a carriage return, and one ending with `]` for a key that starts
  with `[`, which makes the line a section header. `FileComposesIff` shows, for every file,
  that these are all the failures, and `FileMeaningKeptIff` says exactly when a rewritten file
  still says what it should.
- **Vesting** (`Vesting`, `VestingAccount`). `GetVestedCoinsAt` with its 64-bit wrap-around
  and its roundings, and the account that adds up many grants. The account's shortcuts
  (nothing before its first grant starts, everything after its end time) agree with the sum
  of the grants under an exact condition on the grants' fields (`AgreesIffGrantsInOrder`).
  Accounts as claims make them fail it at one instant: a free claim is a grant of length zero,
  and when it starts at the account's end time it is counted before it vests
  (`OrderlyAccountAgreesIff`, `FreeClaimCountedEarly`).
- **The IBC transfer stack** (`IbcStack`, `Autopilot`). Acknowledgements and timeouts through
  stacks of layers that act before or after the layers below them, and autopilot's handling
  of received packets including its memo parser.
- **Escrow** (`Escrow`). Transfers of one token to Stride and back, in any interleaving, over
  the two previous models: escrow always equals voucher supply plus what is still in flight.

Parameters stand for what is outside the modelled code: the bonded validators, the community
tax, which keeper calls fail, the order of map iteration, the codec (only decode-of-encode is
assumed), address validity and hashing, the application below autopilot, and keeper actions.
`Escrow.Sound` states what is relied on there, for one port and channel of Stride and one token:
a successful transfer of a packet that arrives over that channel with the token's denomination
mints the amount in its data; autopilot's actions neither mint nor burn vouchers; and for a
packet that left over that channel with the vouchers' denomination, the transfer application
mints the amount in its data back on an error or timeout and nothing on success, while the
record keepers and the fallback only move coins. Nothing is asked about any other packet, and
the handlers see only the packet and how it ended.
Core IBC is taken to commit a received packet only on a success acknowledgement and to revert
a failing acknowledgement or timeout, as the "Packet relay" section of ICS-20 and ICS-30 have it.

Where code and comments differ the model follows the code: app/app.go:942-952 lists staketia
above stakedym, but lines 977-981 put stakedym above staketia; the remark at
x/claim/vesting/types/vesting_account.go:236 that a new grant starts later than the first is
not enforced, and `EarlierGrantIsHidden` states what happens otherwise.

## Model

| member | source | states |
|---|---|---|
| LegacyDec.ChopRound | utils/utils.go:247-250 | rounding of the vesting decimals is to nearest, within half a unit, and a tie goes to the even neighbour |
| LegacyDec.WholeProduct | app/distrwrapper/module.go:191 | a whole number of coins times a fraction needs no truncation and no rounding, so only the second truncation of a reward loses anything |
| LegacyDec.WholeQuotient | app/distrwrapper/module.go:189-190 | a stake fraction depends only on the ratio of the two whole numbers |
| Allocation.PoaShareExact | app/distrwrapper/module.go:130-132 | the two truncations of the POA share together give exactly floor(15 * fees / 100) |
| Allocation.PoaShare | app/distrwrapper/module.go:50 | the POA share is at most the fees and falls short of 15% by less than one coin |
| Allocation.StakingShare | app/distrwrapper/module.go:145-148 | fees leave a non-zero staking share, so the zero-share return is never taken |
| Allocation.PaidBounds | app/distrwrapper/module.go:185-198 | summed over any validators, truncated stake fractions and truncated rewards never exceed the exact values and are less than one unit a validator below them |
| Allocation.PaidWithinSlice | app/distrwrapper/module.go:185-198 | all rewards together never exceed the slice they are cut from |
| Allocation.DustBound | app/distrwrapper/module.go:181-206 | with n validators and staking share S, truncation loses less than n + (n-1) * S units of 10^-18 |
| Allocation.RewardMonotone | app/distrwrapper/module.go:189-191 | more stake never earns less |
| Allocation.OrderFree | app/distrwrapper/module.go:164-200 | bonded total, total paid and each operator's pay are the same for every order of the validators |
| Distribution.PoaCoins | app/distrwrapper/module.go:130-132 | per denomination, the coins sent to POA are 15% of the fees rounded down |
| Distribution.RewardCoins | app/distrwrapper/module.go:189-191 | per denomination, a validator's reward is the taxed share times its truncated stake fraction, truncated |
| Distribution.RemainingCovers | app/distrwrapper/module.go:183-197 | at every iteration the remaining coins cover the next reward in every denomination, so the subtraction cannot panic |
| Distribution.ShareIsNonZero | app/distrwrapper/module.go:145-148 | the early return on a zero staking share is unreachable |
| Distribution.Module.SendCoinsFromModuleToModule | app/distrwrapper/module.go:135-139 | moves the coins, or fails and changes nothing exactly when the bank refuses the transfer or the sender is short |
| Distribution.Module.SweepFees | app/distrwrapper/module.go:129-155 | the fee collector ends empty, POA and distribution get their shares, no other account changes; it fails exactly when the bank refuses a transfer that is made, never for lack of funds |
| Distribution.Module.TotalBondedTokens | app/distrwrapper/module.go:162-169 | the first pass sums the stake of all bonded validators |
| Distribution.Module.RewardValidators | app/distrwrapper/module.go:183-203 | credits each operator its rewards and leaves exactly the unpaid part; if some credit is rejected it stops there, with all validators before it credited |
| Distribution.Module.AllocateTokens | app/distrwrapper/module.go:122-208 | which error it returns for which keeper failures, with the pool untouched, and otherwise the new balances, rewards and pool in closed form for every denomination |
| Distribution.Module.BeginBlock | app/distrwrapper/module.go:106-116 | nothing happens up to height 1, an allocation afterwards; it returns an error exactly for the blocks that runs do not commit |
| Distribution.FailsIff | app/distrwrapper/module.go:134-207 | an allocation fails if and only if a keeper call it makes fails: the POA transfer when some denomination gives POA a whole coin, the other transfer, the fee pool read or write, the first pass, and with tokens bonded the tax read, the second pass or some credit |
| Distribution.FirstErrorIsReported | app/distrwrapper/module.go:134-207 | for each error, exactly when it is returned: when its call fails and none before it in the code did |
| Distribution.Module.DonateScraps | app/export.go:127-155 | visited validators end with nothing outstanding, the others and the bank are untouched, and pool plus outstanding is unchanged |
| DistributionRuns.RewardedTotal | app/distrwrapper/module.go:185-200 | the total owed to all validators grows by exactly what was paid |
| DistributionRuns.SweepConserves | app/distrwrapper/module.go:134-155 | sweeping the fees keeps the supply of every denomination |
| DistributionRuns.AllocationKeepsSolvency | app/distrwrapper/module.go:122-208 | an allocation keeps the distribution balance equal to outstanding rewards plus community pool |
| DistributionRuns.DonationKeepsSolvency | app/export.go:126-155 | so does the scrap donation |
| DistributionRuns.RunsAreSolvent | app/distrwrapper/module.go:122-208 | in every state of every run, balance times 10^18 equals outstanding rewards plus community pool, for every denomination |
| DistributionRuns.RunsConserveSupply | app/distrwrapper/module.go:122-208 | over every run the supply changes only by what is minted |
| DistributionRuns.RunsPayPoa | app/distrwrapper/module.go:123-155 | for every denomination, over a run whose allocating blocks found fees F, k of them a non-zero amount, POA's credit P satisfies 0 <= 15F - 100P <= 99k |
| DistributionRuns.PoaStep | app/distrwrapper/module.go:129-155 | an allocating block credits POA its share and leaves the fee collector empty; no other event touches POA |
| DistributionRuns.CommunityPoolGain | app/distrwrapper/module.go:181-207 | the pool gains at least its exact tax and less than n + (n-1) * S units more |
| DistributionRuns.NoStakeNoRewards | app/distrwrapper/module.go:171-175 | with nothing bonded the whole staking share goes to the pool and no reward is credited |
| DistributionRuns.RewardsAreFair | app/distrwrapper/module.go:185-200 | a validator with at least as much stake gains at least as much, in every denomination |
| DistributionRuns.AllocationIsOrderFree | app/distrwrapper/module.go:185-207 | permuting the validators changes no balance, no reward and no pool amount |
| DistributionRuns.ExportEmptiesRewards | app/export.go:126-155 | if all with rewards are visited, nothing stays outstanding and the pool owns the whole distribution account |
| CacheCtx.Report | utils/cache_ctx.go:26-46 | nil is returned exactly when the function ended well, and only gas panics are raised again |
| CacheCtx.IsOutOfGasError | utils/cache_ctx.go:51-60 | true with the descriptor exactly for out-of-gas and gas-overflow panics |
| CacheCtx.FetchIsTransparent | utils/cache_ctx.go:38-39 | a read through the cached layers returns what the top layer sees and changes what no layer sees |
| CacheCtx.WriteIsLocal | utils/cache_ctx.go:38-39 | a write is seen at its key by the top layer and by no layer below |
| CacheCtx.Context.WriteBack | utils/cache_ctx.go:44 | flushing makes the parent see exactly what the child saw, and no lower layer sees a change |
| CacheCtx.Context.Exec | utils/cache_ctx.go:24-47 | a program in a cached context ends, reads, charges and writes as in the reference semantics, and no lower layer sees a change |
| CacheCtx.Context.ApplyFuncIfNoError | utils/cache_ctx.go:24-47 | a call equals saving the store, running, and restoring it on any failure |
| CacheCtx.RunInOverlays | utils/cache_ctx.go:24-47 | for every nested program the overlay machine gives the same outcome, store, gas, variables and reads as snapshot and rollback |
| CacheCtxTheorems.GasIsNeverRefunded | utils/cache_ctx.go:22-31 | gas spent in a dropped context stays spent, and gas beyond the limit always leaves the program as a gas panic |
| CacheCtxTheorems.GasIsExact | utils/cache_ctx.go:22-31 | the meter ends with the sum of all charges made at any depth, in dropped contexts too, capped at 64 bits; charging beyond limit or cap ends the program in the matching gas panic of the last charge |
| CacheCtxTheorems.GasPanicIff | utils/cache_ctx.go:26-31 | a program whose own panics are not gas panics ends in a gas panic if and only if it charges beyond limit or cap |
| CacheCtxTheorems.OnlyGasPanicsEscape | utils/cache_ctx.go:26-35 | if every panic stands inside some call, only gas panics escape |
| CacheCtxTheorems.EscapingPanicEndsProgram | utils/cache_ctx.go:26-46 | over every program, among the panics raised at any depth a gas panic, or one outside all calls, is the last and is the outcome; no other panic is |
| CacheCtxTheorems.GasPanicCrossesLevels | utils/cache_ctx.go:28-30 | a gas panic of a statement anywhere in a program ends all of it, and what remains is what was written before the outermost call around it |
| CacheCtxTheorems.FailureStopsAtItsLevel | utils/cache_ctx.go:31-42 | any other failure, anywhere in the body of a call, becomes a non-nil error of that call, whose caller finds its store as before and carries on |
| CacheCtxTheorems.ReturnEndsCall | utils/cache_ctx.go:38-46 | a return anywhere in the body of a call hands its error to the caller; what was written up to there is kept exactly when the error is nil |
| CacheCtxTheorems.PanicEndsCall | utils/cache_ctx.go:26-35 | a panic anywhere in the body drops its writes and becomes the fixed error, except that out-of-gas and gas-overflow panics go on |
| CacheCtxTheorems.AssignReachesCaller | utils/cache_ctx.go:38-46 | variables assigned in the body are what its later statements and its caller see, also when the call fails |
| CacheCtxTheorems.ReadReachesCaller | utils/cache_ctx.go:38-46 | a read anywhere in the body gets the last value written to its key, before the call or in it, and otherwise the initial one; this is what the body goes on with and the caller sees |
| CacheCtxTheorems.StoreIsReplayedLog | utils/cache_ctx.go:38-46 | the final store is the initial one with exactly the writes of successful calls replayed in order |
| MapKeys.KeysInOrderUnique | utils/utils.go:55-62 | the sorted key list is the same for every map iteration order |
| MapKeys.Sort | utils/utils.go:60 | sorting yields a sorted permutation |
| MapKeys.SortedKeys | utils/utils.go:55-62 | the keys are listed once each, in strictly increasing order |
| MapKeys.StringLessIsStrictTotalOrder | utils/utils.go:60 | the order on strings is strict and total |
| MapKeys.StringLessIff | utils/utils.go:60 | a string comes before another if and only if it is a proper prefix of it or has the smaller character where they first differ |
| MapKeys.StringMapKeys | utils/utils.go:55-62 | the keys of a string map, each once, every one before the next by prefix or first difference |
| MapKeys.IntMapKeys | utils/utils.go:64-80 | the same for integer keys |
| Text.ReadBackIffClean | cmd/strided/config_defaults.go:213-216 | lines written out scan back unchanged exactly when none ends in a carriage return |
| Text.ScanSplits | cmd/strided/config_defaults.go:213-216 | for every text: its scanned lines are the parts between line feeds, with a last part unless it is empty, each less one final carriage return |
| Text.TrimSpaceOf | cmd/strided/config_defaults.go:230 | trimming takes away all white space around a text and nothing else |
| Text.SpacesAre | cmd/strided/config_defaults.go:230 | white space is the 25 characters with that Unicode property |
| ConfigRewrite.BuildConfigMap | cmd/strided/config_defaults.go:195-209 | the map answers, for each section and key, the formatted value of the last matching entry |
| ConfigRewrite.RewriteLine | cmd/strided/config_defaults.go:222-235 | the loop over sorted keys with its break equals one lookup of the line's key |
| ConfigRewrite.OverwriteLines | cmd/strided/config_defaults.go:211-239 | each line is replaced as its own section and key ask, independently of how the scan got there |
| ConfigRewrite.IsHeaderIff | cmd/strided/config_defaults.go:218 | a line is a section header if and only if it is `[`, a name and `]` |
| ConfigRewrite.SectionAtIff | cmd/strided/config_defaults.go:214-219 | a line is in section s if and only if the last line of the form [name] before it names s, or there is none and s is empty |
| ConfigRewrite.CutAtEquals | cmd/strided/config_defaults.go:225-230 | a line is cut at its first equals sign and both parts are trimmed |
| ConfigRewrite.NewValueIs | cmd/strided/config_defaults.go:195-209 | the value for a key is that of the last entry for its section and key |
| ConfigRewrite.NoNewValueIff | cmd/strided/config_defaults.go:195-209 | a key has no value exactly when no entry is for its section and key |
| ConfigRewrite.ListedLineIs | cmd/strided/config_defaults.go:211-239 | a line k=v in section s whose key is listed there becomes the key, an equals sign between spaces and the last listed value, a string in quotes, which reads back as that |
| ConfigRewrite.OtherLinesStay | cmd/strided/config_defaults.go:211-239 | headers, lines without equals sign and lines whose key is not listed for their section stay as they are |
| ConfigRewrite.AssignmentReadsBack | cmd/strided/config_defaults.go:225-232 | a written line reads back as its key and its trimmed value |
| ConfigRewrite.SectionsKept | cmd/strided/config_defaults.go:218-219 | when no line is rewritten into a header-like one, every line stays in its section |
| ConfigRewrite.RewritePreservesMeaning | cmd/strided/config_defaults.go:211-239 | listed assignments read as the new value, every other line is untouched and reads as before |
| ConfigRewrite.MeaningKeptIff | cmd/strided/config_defaults.go:211-239 | on lines, every line says what it has to say after a rewrite if and only if no assignment becomes header-like |
| ConfigRewrite.StringsReadBack | cmd/strided/config_defaults.go:204-205 | a string value is written in quotes and reads back with exactly them |
| ConfigRewrite.SafeRewritesCompose | cmd/strided/config_defaults.go:195-239 | on lines, rewriting with A and then B equals one rewrite with A followed by B when no line becomes header-like |
| ConfigRewrite.FileComposesIff | cmd/strided/config_defaults.go:195-263 | on each file, written out and scanned again in between, that law holds for all B if and only if no line written has a line feed or a final carriage return, and no assignment becomes header-like |
| ConfigRewrite.FilesComposeIffSafe | cmd/strided/config_defaults.go:195-263 | it holds for all B and all clean files if and only if every value of A that some scanned line can receive has no line feed, no final carriage return, and is not header-like |
| ConfigRewrite.HeaderLikeBreaks | cmd/strided/config_defaults.go:218-232 | for every file in which a line becomes header-like, a list B that does not compose: the value with a character added |
| ConfigRewrite.CarriageReturnBreaks | cmd/strided/config_defaults.go:213-232 | for every file written with a line that ends in a carriage return, the empty list does not compose |
| ConfigRewrite.LineFeedBreaks | cmd/strided/config_defaults.go:213-232 | for every file written with a line that holds a line feed, blank values for the keys of A do not compose |
| ConfigRewrite.FileMeaningKeptIff | cmd/strided/config_defaults.go:211-263 | a rewritten clean file, scanned again, has as many lines, each saying what it has to say, if and only if no value written has a line feed or, less a final carriage return, is header-like |
| ConfigRewrite.FileRewritePreservesMeaning | cmd/strided/config_defaults.go:211-263 | under that condition every line that is not overwritten is also the same to the letter |
| ConfigRewrite.FileRewriteIsIdempotent | cmd/strided/config_defaults.go:211-263 | under that condition the rewrite of a clean file done twice is the rewrite done once |
| ConfigRewrite.FileRewritesCompose | cmd/strided/config_defaults.go:211-263 | the sufficient half of the law of composition for a file |
| ConfigRewrite.FileRereadIffClean | cmd/strided/config_defaults.go:211-263 | an empty rewrite keeps the scanned lines exactly when none ends in a carriage return |
| Vesting.InProgressIff | utils/utils.go:235-244 | the computed branch is reached exactly strictly inside a period whose end fits 64 bits |
| Vesting.GetVestedCoinsAt | utils/utils.go:232-255 | it panics exactly when an amount beyond 64 bits is converted, and otherwise each coin keeps its place and denomination and has its vested amount, with no coins before the start |
| Vesting.VestedWithinGrant | utils/utils.go:232-255 | never more than the grant vests |
| Vesting.VestedMonotone | utils/utils.go:232-255 | vesting never goes back, across all branches, zero length and overflow included |
| Vesting.OverflowVestsAtOnce | utils/utils.go:239-244 | a period whose end overflows 64 bits vests entirely just after its start |
| Vesting.VestedOutside | utils/utils.go:233-244 | nothing has vested up to the start or with a negative start or length, everything once the period is over |
| Coins.FromListAt | utils/utils.go:249-251 | coins of different denominations hold each listed amount, and nothing else |
| Vesting.ReleasesTelescope | utils/utils.go:232-255 | over any increasing times each release is non-negative, and they add up to at most the grant, and to all of it when the times span the period |
| Vesting.PortionError | utils/utils.go:247 | the elapsed portion is within 1/2 + 10^-18 units of 10^-18 of the exact quotient |
| Vesting.VestedError | utils/utils.go:246-252 | the vested amount is within 1/2 + amount * (1/2 + 10^-18) / 10^18 of amount * elapsed / length |
| VestingAccount.StridePeriodicVestingAccount.constructor | x/claim/vesting/types/vesting_account.go:212-232 | the account ends at the latest end of its periods, at least zero; without periods it has no base account |
| VestingAccount.StridePeriodicVestingAccount.AddNewGrant | x/claim/vesting/types/vesting_account.go:235-240 | the grant is appended, the end time is the later of the two ends and the total grows by the grant; it panics exactly without a base account |
| VestingAccount.StridePeriodicVestingAccount.GetVestedCoins | x/claim/vesting/types/vesting_account.go:244-263 | the sum over the grants between the guards, and exactly when it panics: on a conversion, or on a missing base account |
| VestingAccount.StridePeriodicVestingAccount.GetVestingCoins | x/claim/vesting/types/vesting_account.go:267-269 | the total less what vested, and exactly when it panics: on a missing base account, on a conversion, or when more has vested than the total |
| VestingAccount.GrantsKeepAccountWellBuilt | x/claim/vesting/types/vesting_account.go:235-240 | after any grants the total is their sum and the end time their latest end |
| VestingAccount.VestedWithinOriginal | x/claim/vesting/types/vesting_account.go:244-263 | a funded account never vests more than its total |
| VestingAccount.AccountVestsMonotonically | x/claim/vesting/types/vesting_account.go:244-263 | what an account vested never shrinks, across both guards |
| VestingAccount.AgreesIffGrantsInOrder | x/claim/vesting/types/vesting_account.go:250-263 | the account equals the sum of its grants at all times if and only if each funded grant has not started by the first start, or is so early in it that it rounds to zero, and starts before the account counts as fully vested |
| VestingAccount.OrderlyAccountVests | x/claim/vesting/types/vesting_account.go:244-263 | for grants as claims make them, zero length included, the account vests at every time the sum of its grants plus the zero-length grants it counts early |
| VestingAccount.OrderlyAccountAgreesIff | x/claim/vesting/types/vesting_account.go:250-256 | it disagrees with its grants exactly at its end time, when a funded zero-length grant starts then and the first grant earlier |
| VestingAccount.GrantAddsItsShare | x/claim/vesting/types/vesting_account.go:235-263 | a later grant adds its own vested part at every time, exactly up to the zero-length grants counted early before and after |
| VestingAccount.FreeClaimCountedEarly | x/claim/keeper/claim.go:103-110 | a free claim is counted as vested at once, and no longer when another claim of the same moment moves the end |
| VestingAccount.EarlierGrantIsHidden | x/claim/vesting/types/vesting_account.go:250-251 | any grant that has vested something by the first start is reported as nothing until then |
| IbcStack.OrderIsDownBaseUp | x/autopilot/module_ibc.go:270-303 | any stack runs its before-layers downwards, then the base, then its after-layers upwards |
| IbcStack.TraceIsPrefix | x/records/module_ibc.go:157-205 | who ran is a prefix of that order, whole exactly without error, otherwise cut after the first failure |
| IbcStack.LastRunsOnTheRest | x/records/module_ibc.go:157-205 | the last handler runs on what the others left, and its state and error are the outcome |
| IbcStack.RanOnlyAfterSuccess | x/stakedym/ibc_middleware.go:95-124 | a handler runs only if all before it succeeded |
| IbcStack.Chain.Deliver | x/staketia/ibc_middleware.go:95-124 | calling down any stack equals running the flattened order until the first error |
| IbcStack.BuildTransferStack | app/app.go:977-981 | the layers built are those of `TransferStack`, and over any lower stack the order is records, stakedym, staketia, lower stack, autopilot |
| IbcStack.RefundAndFallbackInOrder | x/autopilot/module_ibc.go:278-302 | no refund after a failed record keeper, no fallback before the refund |
| Autopilot.ParserAccepts | x/autopilot/types/parser.go:64-129 | the parser accepts exactly memos without autopilot business and memos with exactly one supported route, whose fallback address is the receiver |
| Autopilot.Module.OnRecvPacket | x/autopilot/module_ibc.go:131-267 | state, acknowledgement and calls are those of the specification |
| Autopilot.Module.TransferAndRoute | x/autopilot/module_ibc.go:210-267 | the transfer below, then the routed action; success exactly when the transfer succeeds, the switch of the route's own module is on and its action returns no error |
| Autopilot.SuccessAckIff | x/autopilot/module_ibc.go:131-267 | a success acknowledgement if and only if all checks pass and either the plain transfer succeeds, or the receivers match, the transfer succeeds, the route is active and its action succeeds |
| Autopilot.PlanIs | x/autopilot/module_ibc.go:141-207 | which packets are refused, passed on or routed, and with which data and route |
| Autopilot.CallsIff | x/autopilot/module_ibc.go:141-262 | exactly which calls are made: none if refused, a plain packet passed on as it came with its acknowledgement returned, and the action exactly after a successful transfer with its module's switch on |
| Autopilot.StakeibcOutcome | x/autopilot/module_ibc.go:213-246 | state, acknowledgement and calls of a stakeibc route, by the stakeibc switch and the result of the stake or redemption |
| Autopilot.ClaimOutcome | x/autopilot/module_ibc.go:248-262 | the same for a claim route and the claim switch |
| Autopilot.LowerCalledOnce | x/autopilot/module_ibc.go:163-245 | the app below is called at most once and first, with data unchanged except the receiver, which is replaced exactly for a liquid stake with a non-empty ibc receiver; at most one matching action follows |
| Autopilot.StateIsEffectOfCalls | x/autopilot/module_ibc.go:213-262 | the state changes by the recorded calls in order and nothing else |
| Escrow.SuccessMintsAmount | x/autopilot/module_ibc.go:204-262 | a packet of the token over the channel that is acknowledged as a success has minted exactly the amount in its data, whatever its route |
| Escrow.ErrorAckAfterMint | x/autopilot/module_ibc.go:213-229 | an error acknowledgement can follow a transfer that minted, so core must discard its state |
| Escrow.ClosingMovesRefund | x/autopilot/module_ibc.go:270-303 | closing a packet of vouchers through the transfer stack mints the amount in its data back exactly once on an error or timeout, and nothing on success |
| Escrow.StepStaysBacked | x/autopilot/module_ibc.go:131-303 | every step keeps escrow equal to voucher supply plus pending amounts |
| Escrow.RunsStayBacked | x/autopilot/module_ibc.go:131-303 | so does every run of sends, receipts, acknowledgements and timeouts both ways |
| Escrow.EscrowCoversDue | x/autopilot/module_ibc.go:131-303 | in every run escrow covers each refund and return still due and the whole voucher supply |
| Escrow.SoundIsSatisfiable | x/autopilot/module_ibc.go:239-247 | the assumptions on the surroundings can be met by a chain on which a routed packet succeeds and refunds are read from the packet |

## Left out

- Distribution.Module.AllocateTokens: says nothing of the ledger when it returns an error, because a block whose BeginBlock fails is not committed; `DistributionRuns.Next` keeps the old ledger then.
- Distribution.Module.RewardValidators: does not split a reward into commission and shared rewards, which the distribution keeper does inside its own module.
- Distribution.Module.SendCoinsFromModuleToModule: a missing module account, on which the bank panics, is not modelled.
- The size limit at which fixed-point decimals panic, and the withdrawal of rewards and commission.
- Distribution.Module.DonateScraps: the rest of the zero-height export (delegations, heights, jailing, signing infos) only resets fields.
- CacheCtx.Context.Exec: iterators, loops, events and logging are not statements of the model; the code's own comment advises against iterators.
- CacheCtx.Context.WriteBack: flushes in any order of keys, where the store sorts them.
- MapKeys.SortedKeys: sorts a sequence by insertion; the library's sort works in place on a slice.
- ConfigRewrite.OverwriteLines: works on characters; invalid UTF-8, lines beyond the scanner's buffer and file handling are not modelled.
- Text.ReadBackIffClean: assumes lines without line feeds, which scanned lines are.
- ConfigRewrite.FileMeaningKeptIff: speaks of clean files; on a file with a scanned line that ends in a carriage return already the empty rewrite changes what is scanned, as `FileRereadIffClean` states.
- ConfigRewrite.FileRewriteIsIdempotent: one way only; a line that becomes a header can leave the later lines as they are.
- Delegation tracking, validation and encoding of the vesting account.
- Vesting.GetVestedCoinsAt: amounts are non-negative and denominations unique, as the coin type has them.
- Autopilot.Module.OnRecvPacket: error texts are abbreviated, lengths count characters rather than bytes, and an asynchronous (nil) acknowledgement from below is not modelled.
- IbcStack.BuildTransferStack: the rate limiter, ibc-hooks, packet forwarding and the transfer application are one handler.
- Escrow.StepStaysBacked: follows one token native to the other chain; tokens native to Stride go the mirrored way.
- The keeper code behind autopilot's actions and its fallback addresses, the other modules, upgrades, commands and wiring.
