# Verified model of the Call Stake trading protocol

A Dafny model of the parts of Call Stake that carry state, windows, graphs and rounding, with
proofs over every input, every run or every reachable state:

- **Deployment manifests**: the three-colour depth-first search for dependency cycles
  (`DependencyCycle`) and the StrKey validation with its CRC16-XModem checksum (`StrKey`,
  `StrKeyText`, `StrKeyEncoding`).
- **Fixed-point statistics**: Newton square roots (`FixedPoint`), the Pearson correlation of
  price histories (`Correlation`) and the risk-adjusted provider score (`RiskScore`).
- **Orders and exits**: tiered take-profits with trailing stops (`ExitStrategies`,
  `ExitStrategyRuns`, `ExitStrategyPrices`), conditional orders with their active index
  (`ConditionalOrders`, `ConditionalOrderRuns`, `ConditionalOrderMarkets`) and iceberg orders
  (`IcebergOrders`, `IcebergRuns`).
- **Schedulers and limiters**: the action queue (`PriorityQueue`), the transfer limits with
  pruned histories (`TransferLimits`) and the daily execution cap (`DailyCap`).
- **Referrals, hedges, cache and replay**: the referral graph (`Referrals`), portfolio
  insurance (`PortfolioInsurance`, `HedgeDecisions`), the analytics query cache (`QueryCache`)
  and the replay of contract events into a snapshot (`EventReplay`).

`Common` holds the types they share.

Code that updates storage or locals step by step is a class or a method with a loop, proved
against a function on values. The functions are the transitions of a state machine; a `Run`
folds them over a list of operations, and the properties are lemmas about every run. Contract
storage becomes fields, ledger time and prices become parameters, and an aborted call is an
error that changes nothing. What the transitions compute is stated a second time without
them, in prices, amounts and times, with every rounded quantity multiplied out. Division
truncates toward zero (`FixedPoint.TruncDiv`), as in the contracts.

`dafny verify dfyconfig.toml` checks the whole project.

## Where the code and its descriptions differ

The model follows the code. Each difference is a lemma:

- `has_cycle` searches a hundred steps only, so longer referral cycles can close:
  `Referrals.NoShortCycle`, `Referrals.RegisterAcyclicIff`, `Referrals.CycleOf102`.
- One referee can be deducted twice from the active count: `Referrals.ExactIffDeductedOnce`,
  `Referrals.DeductedTwice`.
- The daily cap is described as a rolling window; it is a fixed window that opens with an
  execution, so a day can hold up to twice the cap: `DailyCap.ClosedDayHoldsTwiceTheCap`,
  `DailyCap.TwiceTheCapIsReached`, `DailyCap.SlidingCapIff`.
- An iceberg order whose visible amount does not divide its total is never marked Filled, and a
  price update then offers more than remains: `IcebergRuns.AlwaysSafeIffDivides`,
  `IcebergRuns.NonDividingOrderOverOffers`, and at most `IcebergRuns.NeverBeyondRoundedTotal`.
- Tier percentages are not bounded at creation, and an oversold strategy may be given a position
  again: `ExitStrategyRuns.TierNeverOversells`, `ExitStrategyRuns.SellsBothIffExposed`,
  `ExitStrategyRuns.OversizedTierCounterexample`.
- Trails are not bounded either: `ExitStrategyRuns.TrailRatchetsIff`.
- Different pairs of assets can share a key of the correlation matrix:
  `Correlation.MatrixRightIff`, `Correlation.PairKeyIdentifiesIff`, `Correlation.PairKeyCollision`.
- A minimum sample of 0 or 1 lets the score divide by zero: `RiskScore.ComputeRiskAdjustedScore`.
- Replay is described as deterministic for pages out of order; oracle prices that share ledger
  and id are the one exception: `EventReplay.OrderIndependentIff`,
  `EventReplay.SharedKeyCounterexample`.

## Model

| member | source | states |
|---|---|---|
| DependencyCycle.FindDependencyCycle | call-stake/scripts/validate_deployment_manifest.py:222-254 | A returned list is a cycle of `depends_on` edges that repeats no contract before it closes; nothing is returned if and only if the graph has no cycle, and if and only if some order deploys every contract after its dependencies. |
| DependencyCycle.CycleFinder.constructor | call-stake/scripts/validate_deployment_manifest.py:225-227 | The search starts with every contract white, an empty path and nothing finished. |
| DependencyCycle.CycleFinder.Visit | call-stake/scripts/validate_deployment_manifest.py:229-247 | From a valid search state: either a simple cycle, or the state is valid again with the path restored, the visited contract finished, nothing unfinished again, and fewer contracts white (which is why it terminates). |
| DependencyCycle.CycleFinder.Follow | call-stake/scripts/validate_deployment_manifest.py:238-244 | One known dependency of the contract at the end of the path: a simple cycle, or the dependency is finished and the path is as before. |
| DependencyCycle.CycleFinder.FollowAll | call-stake/scripts/validate_deployment_manifest.py:232-244 | The dependencies of one contract in order: a simple cycle, or all known ones are finished and the path is as before. |
| DependencyCycle.CycleFinder.BackEdge | call-stake/scripts/validate_deployment_manifest.py:239-240 | The path from a gray dependency to its end, closed by that dependency, is a simple cycle. |
| DependencyCycle.CycleFinder.Enter | call-stake/scripts/validate_deployment_manifest.py:230-231 | Turns a white contract gray at the end of the path; the gray contracts stay exactly the path, which stays a walk without repetition. |
| DependencyCycle.CycleFinder.Leave | call-stake/scripts/validate_deployment_manifest.py:245-247 | Turns the last contract of the path black once all its dependencies are; the finishing order still puts dependencies first. |
| DependencyCycle.CycleFinder.Search | call-stake/scripts/validate_deployment_manifest.py:249-254 | A simple cycle, or the finishing order is a deployment order of all contracts. |
| DependencyCycle.DeploymentOrderImpliesAcyclic | call-stake/scripts/validate_deployment_manifest.py:222-224 | If every contract can be placed after its dependencies, no cycle exists, so the search is complete. |
| DependencyCycle.WalkDescends | call-stake/scripts/validate_deployment_manifest.py:245-246 | A walk of any length along dependencies moves strictly to earlier positions of a dependencies-first order. |
| DependencyCycle.MutualDependency | call-stake/scripts/validate_deployment_manifest.py:232-240 | Two contracts that name each other under `depends_on` form a cycle; without the second name they can be deployed, the named one first. |
| StrKey.Crc16XModem | call-stake/scripts/validate_deployment_manifest.py:85-95 | The nested loops compute the CRC16-XModem register of the whole byte string. |
| StrKey.ShiftByte | call-stake/scripts/validate_deployment_manifest.py:90-94 | The inner loop is eight shifts of the register with polynomial 0x1021. |
| StrKey.CheckValue | call-stake/scripts/validate_deployment_manifest.py:85-95 | The digits 1 to 9 give 0x31C3, the published check value of CRC-16/XMODEM. |
| StrKey.CrcLinear | call-stake/scripts/validate_deployment_manifest.py:85-95 | The XOR of two registers is the register of the XOR of the inputs, for strings of any equal length and any two starting values. |
| StrKey.ZeroBytes | call-stake/scripts/validate_deployment_manifest.py:90-94 | Zero bytes never turn a nonzero register into zero: each bit step is invertible. |
| StrKey.OneByteChangesCrc | call-stake/scripts/validate_deployment_manifest.py:85-95 | For byte strings of any equal length that agree outside one byte, the checksums agree if and only if the strings do. |
| StrKey.AdjacentBytesChangeCrc | call-stake/scripts/validate_deployment_manifest.py:85-95 | The same for strings that agree outside two adjacent bytes. |
| StrKey.UndetectedIffInKernel | call-stake/scripts/validate_deployment_manifest.py:117-120 | Whether a corrupted valid key still passes the checksum depends only on the corruption pattern. |
| StrKey.PairWindow | call-stake/scripts/validate_deployment_manifest.py:117-120 | A nonzero corruption of two adjacent bytes that passes the checksum is 0x89, 0xA1 across the payload boundary. |
| StrKey.TripleWindow | call-stake/scripts/validate_deployment_manifest.py:117-120 | No nonzero corruption of ten neighbouring bits that reaches into three bytes passes the checksum. |
| StrKey.AdjacentBytesCorruption | call-stake/scripts/validate_deployment_manifest.py:117-120 | Changing two adjacent bytes of a valid decoded key goes unnoticed if and only if nothing changed, or the change is exactly 0x89, 0xA1 at bytes 32 and 33. |
| StrKey.OneByteCorruption | call-stake/scripts/validate_deployment_manifest.py:117-120 | Changing one byte of a valid decoded key, payload or checksum, is always noticed. |
| StrKeyText.DecodeLinear | call-stake/scripts/validate_deployment_manifest.py:111-112 | Base32 decoding maps character differences to byte differences, for texts of any equal length. |
| StrKeyText.DecodeKernel | call-stake/scripts/validate_deployment_manifest.py:111-112 | Only the zero difference decodes to zero bytes. |
| StrKeyText.AdjacentTypoRejected | call-stake/scripts/validate_deployment_manifest.py:98-128 | A valid key in which one or two adjacent characters are replaced by anything is rejected, whatever version is expected. |
| StrKeyText.SingleTypoRejected | call-stake/scripts/validate_deployment_manifest.py:98-128 | A valid key with one character changed is rejected. |
| StrKeyText.SwapRejected | call-stake/scripts/validate_deployment_manifest.py:98-128 | A valid key with two different adjacent characters exchanged is rejected. |
| StrKeyEncoding.DecodeEncode | call-stake/scripts/validate_deployment_manifest.py:75-82 | Decoding undoes base32 encoding for all byte strings of whole five-byte groups. |
| StrKeyEncoding.DecodeInjective | call-stake/scripts/validate_deployment_manifest.py:111-112 | Texts that decode to the same bytes are equal. |
| StrKeyEncoding.AcceptedIff | call-stake/scripts/validate_deployment_manifest.py:98-128 | A text is accepted if and only if it is the base32 form of 33 bytes that start with the expected version byte, followed by their CRC low byte first. |
| StrKeyEncoding.AlphabetInOrder | call-stake/scripts/validate_deployment_manifest.py:79-79 | Each base32 character stands for its position in the alphabet. |
| StrKeyEncoding.DecodeKeepsBits | call-stake/scripts/validate_deployment_manifest.py:111-112 | Base32 decoding regroups the bits: bit r of every group of forty is the same among its eight characters and its five bytes. |
| FixedPoint.Isqrt | call-stake/contracts/auto_trade/src/correlation.rs:78-89 | Newton iteration returns exactly the floor of the square root for positive numbers, and 0 otherwise. |
| FixedPoint.NewtonStep | call-stake/contracts/auto_trade/src/correlation.rs:84-87 | A Newton step from any positive guess never lands below the floor root. |
| FixedPoint.NewtonStop | call-stake/contracts/analytics/src/risk_score.rs:62-68 | When a step no longer decreases the guess, the guess is the floor root. |
| FixedPoint.TruncDivMeaning | call-stake/contracts/auto_trade/src/correlation.rs:147-147 | Division rounds toward zero, stated by multiplication only; the contracts divide this way throughout. |
| Correlation.PriceFeed.Record | call-stake/contracts/auto_trade/src/risk.rs:117-130 | The ring of thirty slots holds the most recent thirty prices after every record. |
| Correlation.PriceFeed.History | call-stake/contracts/auto_trade/src/correlation.rs:373-396 | Reading the ring backwards yields exactly the most recent prices, oldest first: as many as asked for, recorded and still in the ring. |
| Correlation.ComputeReturns | call-stake/contracts/auto_trade/src/correlation.rs:398-408 | The loop computes `Returns`, whose meaning the next lemma gives. |
| Correlation.ReturnsAreRelativeChanges | call-stake/contracts/auto_trade/src/correlation.rs:400-406 | There is one return, in order, for every position with a positive earlier price: the change in basis points of that price, rounded toward zero, stated by multiplication only. |
| Correlation.CalculateCorrelation | call-stake/contracts/auto_trade/src/correlation.rs:103-148 | The two loops compute the Pearson coefficient of the aligned returns from truncated means and an exact floor root, 0 when there is too little history or no variation. |
| Correlation.CorrelationOfReturns | call-stake/contracts/auto_trade/src/correlation.rs:108-119 | Two histories correlate by their first returns, as many as both have; fewer than two give 0. |
| Correlation.CoefficientMeaning | call-stake/contracts/auto_trade/src/correlation.rs:121-147 | Between its extremes too: with the rounded means, the mixed moment over the floor root of the product of the squared ones, in basis points, rounded toward zero, stated by multiplication only. |
| Correlation.SumAdds | call-stake/contracts/auto_trade/src/correlation.rs:121-126 | Sums are additive over concatenation and give the value of a single element. |
| Correlation.MomentAdds | call-stake/contracts/auto_trade/src/correlation.rs:134-140 | So are the moments, where a single pair gives the product of its deviations. |
| Correlation.CauchySchwarz | call-stake/contracts/auto_trade/src/correlation.rs:130-142 | The squared mixed moment is at most the product of the squared ones, for any two samples and any centres. |
| Correlation.CorrelationRangeAndSymmetry | call-stake/contracts/auto_trade/src/correlation.rs:100-148 | For all price histories the coefficient lies in [-10000, 10000] and does not depend on the order of the assets. |
| Correlation.SelfCorrelation | call-stake/contracts/auto_trade/src/correlation.rs:103-148 | An asset scores exactly 10000 against itself if some return differs from the truncated mean, and 0 otherwise. |
| Correlation.MirrorCoefficient | call-stake/contracts/auto_trade/src/correlation.rs:121-147 | Returns of opposite sign score exactly -10000 if some return differs from the truncated mean, and 0 otherwise: truncation keeps the mirror exact. |
| Correlation.PairKeyIdentifiesIff | call-stake/contracts/auto_trade/src/correlation.rs:94-96 | The key identifies every ordered pair of ids below n if and only if n is at most one million. |
| Correlation.PairKeyCollision | call-stake/contracts/auto_trade/src/correlation.rs:94-96 | The input on which it fails: (0, 1000000) and (1, 0) share a key. |
| Correlation.BuildCorrelationMatrix | call-stake/contracts/auto_trade/src/correlation.rs:153-171 | The nested loops build `Matrix`; every entry lies in [-10000, 10000], and when no two different pairs of listed ids share a key, the entry of every two listed positions is their correlation, in both orders. |
| Correlation.MatrixRightIff | call-stake/contracts/auto_trade/src/correlation.rs:153-171 | For all price histories every two listed positions find their correlation in the matrix, if and only if no two different ordered pairs of listed ids share a key. |
| Correlation.SharedKeyFails | call-stake/contracts/auto_trade/src/correlation.rs:162-163 | When two different pairs share a key, no matrix at all serves a market in which only the first pair has prices. |
| Correlation.SmallIdsAreApart | call-stake/contracts/auto_trade/src/correlation.rs:94-96 | Lists of ids below one million never share keys. |
| Correlation.MatrixInRange | call-stake/contracts/auto_trade/src/correlation.rs:153-171 | Whatever the ids, every entry of the matrix lies in [-10000, 10000]. |
| RiskScore.ReturnWindow.Record | call-stake/contracts/analytics/src/risk_score.rs:102-116 | After appending, the window holds the last outcomes, at most the window size. |
| RiskScore.WindowIsSuffix | call-stake/contracts/analytics/src/risk_score.rs:102-116 | Over every run of recordings, with the window size changed at will, the stored window is a suffix of all outcomes. |
| RiskScore.FixedWindow | call-stake/contracts/analytics/src/risk_score.rs:102-116 | Under one window size w it is exactly the last w outcomes, or all of them while there are fewer. |
| RiskScore.ComputeRiskAdjustedScore | call-stake/contracts/analytics/src/risk_score.rs:118-163 | A score exists if and only if the window holds the minimum sample and at least two returns; with a minimum sample of 0 or 1 shorter windows abort on a division by zero. The score is the truncated mean over the floor-root deviation plus one. |
| RiskScore.ScoreMeaning | call-stake/contracts/analytics/src/risk_score.rs:126-162 | What the score is, by multiplication only: rounded mean, squared deviations each rounded down at scale 10000, their sum over n - 1, the floor root at that scale, and the mean over that root plus one. |
| RiskScore.QuotientBounds | call-stake/contracts/analytics/src/risk_score.rs:147-162 | The score is zero or has the sign of the mean, and is at most 10000 times the mean in size. |
| RiskScore.VarianceNeverHelpsIff | call-stake/contracts/analytics/src/risk_score.rs:145-162 | More variance never scores higher, for all variances, if and only if the mean is not negative. |
| RiskScore.VarianceShrinksScore | call-stake/contracts/analytics/src/risk_score.rs:145-162 | For any mean more variance brings the score closer to zero. |
| RiskScore.MeanBounds | call-stake/contracts/analytics/src/risk_score.rs:128-133 | The truncated mean lies between the smallest and the largest outcome. |
| RiskScore.VarianceBounds | call-stake/contracts/analytics/src/risk_score.rs:135-145 | The computed variance never exceeds the sample variance at scale 10000, and misses it only by the stated rounding. |
| RiskScore.SteadyScore | call-stake/contracts/analytics/src/risk_score.rs:154-162 | A provider who always returns c scores exactly 10000 * c, the most that mean allows. |
| ExitStrategies.ExitBook.CreateExitStrategy | call-stake/contracts/auto_trade/src/exit_strategy.rs:227-265 | Refuses non-positive prices and sizes and empty tier lists without change; otherwise stores an active strategy under a fresh id with the peak at the entry price and lists it for the user. |
| ExitStrategies.ExitBook.CheckAndExecuteExits | call-stake/contracts/auto_trade/src/exit_strategy.rs:112-223 | One stored check is the transition `Check`, whose runs the lemmas below are about; other strategies are untouched. |
| ExitStrategies.ExitBook.AdjustPositionSize | call-stake/contracts/auto_trade/src/exit_strategy.rs:279-298 | Only the owner may set a nonnegative size; size zero completes the strategy. |
| ExitStrategies.ExecuteTiers | call-stake/contracts/auto_trade/src/exit_strategy.rs:131-160 | The tier loop considers the tiers in order against the shrinking position. |
| ExitStrategies.ActivateStops | call-stake/contracts/auto_trade/src/exit_strategy.rs:171-178 | The loop activates exactly the stops whose profit trigger is reached and leaves the others as they are. |
| ExitStrategies.FindTightestTrail | call-stake/contracts/auto_trade/src/exit_strategy.rs:181-190 | The loop finds the smallest trail among the active stops, if any. |
| ExitStrategyRuns.NeverBoth | call-stake/contracts/auto_trade/src/exit_strategy.rs:112-223 | With targets above the entry price no check in any run both executes a tier and fires the stop, whatever the tiers, as long as no accepted adjustment gives an active, oversold strategy a position again. |
| ExitStrategyRuns.ChecksNeverReopen | call-stake/contracts/auto_trade/src/exit_strategy.rs:112-223 | Runs of checks alone satisfy that condition. |
| ExitStrategyRuns.BoundedNeverReopen | call-stake/contracts/auto_trade/src/exit_strategy.rs:134-147 | So does every run when tiers close at most 100%. |
| ExitStrategyRuns.SellsBothIffExposed | call-stake/contracts/auto_trade/src/exit_strategy.rs:279-298 | The condition cannot be widened: an active, oversold strategy can be brought by one check and one adjustment to sell both ways at a positive price, if and only if that price reaches an unexecuted tier, reaches only tiers below 100%, and some stop trails by less than 100%. |
| ExitStrategyRuns.SellsBothIff | call-stake/contracts/auto_trade/src/exit_strategy.rs:130-214 | For every active strategy, whatever its history: some size makes a price sell both ways in one check, if and only if the price reaches an unexecuted tier, reaches only tiers below 100%, and lies below the stop. |
| ExitStrategyRuns.NotBothInOneCheck | call-stake/contracts/auto_trade/src/exit_strategy.rs:123-214 | While every tier at or below the peak has executed, a price below its own stop reaches no tier. |
| ExitStrategyRuns.OversizedTierCounterexample | call-stake/contracts/auto_trade/src/exit_strategy.rs:134-160 | A strategy that creation accepts, with a tier above 100%: one check oversells it, and after a reopening one price sells both ways. |
| ExitStrategyRuns.LowTargetCounterexample | call-stake/contracts/auto_trade/src/exit_strategy.rs:134-212 | A target below the entry price does bring both sales into one check. |
| ExitStrategyRuns.TierNeverOversells | call-stake/contracts/auto_trade/src/exit_strategy.rs:135-146 | A tier never closes more than the position, for every position size, if and only if it is at most 100%. |
| ExitStrategyRuns.CloseIsShare | call-stake/contracts/auto_trade/src/exit_strategy.rs:135-136 | A tier closes its share rounded down, and one unit when that is zero; 100% closes everything. |
| ExitStrategyRuns.RunConserves | call-stake/contracts/auto_trade/src/exit_strategy.rs:112-298 | In every run, whatever the tiers: initial size plus manual changes equals sold plus remaining. |
| ExitStrategyRuns.PositionNeverNegative | call-stake/contracts/auto_trade/src/exit_strategy.rs:131-219 | With tiers of at most 100% the position never goes negative, and an active strategy has something left. |
| ExitStrategyRuns.RunLedger | call-stake/contracts/auto_trade/src/exit_strategy.rs:131-214 | Over a whole run every tier sells at most once, every sale is positive, and a stop sale is the last sale. |
| ExitStrategyRuns.EndedStaysEnded | call-stake/contracts/auto_trade/src/exit_strategy.rs:119-121 | A strategy that has left Active never sells again and never becomes Active again. |
| ExitStrategyRuns.RunRatchets | call-stake/contracts/auto_trade/src/exit_strategy.rs:106-126 | With trails of at most 100% the peak and the effective stop price never fall during a run. |
| ExitStrategyRuns.TrailRatchetsIff | call-stake/contracts/auto_trade/src/exit_strategy.rs:106-108 | A higher peak never lowers the stop of one trail, for all peaks, if and only if the trail is at most 100%. |
| ExitStrategyRuns.TightestIsLeast | call-stake/contracts/auto_trade/src/exit_strategy.rs:180-190 | The trail in force is that of some active stop, and no active stop is tighter. |
| ExitStrategyRuns.OpenMeansAboveStop | call-stake/contracts/auto_trade/src/exit_strategy.rs:192-214 | A check that leaves a position open saw a price at or above the effective stop. |
| ExitStrategyRuns.StopSaleClosesAll | call-stake/contracts/auto_trade/src/exit_strategy.rs:192-213 | A stop sale happens below the stop price, leaves nothing, and ends the strategy as stopped. |
| ExitStrategyRuns.CheckSellsReachedTiers | call-stake/contracts/auto_trade/src/exit_strategy.rs:131-160 | Only unexecuted tiers whose price is reached sell, and all of them do as long as a position remains. |
| ExitStrategyPrices.StopBecomesActiveIff | call-stake/contracts/auto_trade/src/exit_strategy.rs:163-178 | A check makes an inactive stop with trigger t active if and only if the tiers leave a position and 100 * (price - entry) is at least t times the entry price, or more than minus the entry price for t = 0; terms of stops never change and active stops stay active. |
| ExitStrategyPrices.StopSaleNeedsTrigger | call-stake/contracts/auto_trade/src/exit_strategy.rs:170-214 | Over every run: a stop sale under stops created inactive needs a check, no later than it, that reached some trigger. |
| ExitStrategyPrices.StopFiresIff | call-stake/contracts/auto_trade/src/exit_strategy.rs:192-213 | A check fires the stop if and only if the tiers leave a position and the price lies a whole unit below the share of the peak that some active trail leaves, multiplied out. |
| ExitStrategyPrices.StopIsShareOfPeak | call-stake/contracts/auto_trade/src/exit_strategy.rs:106-108 | A trail of at most 100% puts the stop at its share of the peak, rounded down. |
| ExitStrategyPrices.CheckSellsShares | call-stake/contracts/auto_trade/src/exit_strategy.rs:132-160 | The tier sales come first and in order, each the share its tier has of what the earlier ones left, rounded down and at least one unit; only a stop sale may follow. |
| ExitStrategyPrices.PeakIsHighest | call-stake/contracts/auto_trade/src/exit_strategy.rs:119-126 | Over every run the peak is the highest of its starting value and the prices checked while active. |
| ExitStrategyPrices.CreateAccepts | call-stake/contracts/auto_trade/src/exit_strategy.rs:236-253 | Creation accepts exactly positive prices and sizes with at least one tier, and starts active with the peak at the entry price. |
| ExitStrategyPrices.AdjustAccepts | call-stake/contracts/auto_trade/src/exit_strategy.rs:285-296 | Adjustment accepts exactly the owner and sizes that are not negative; zero completes, and nothing else changes. |
| Referrals.HasCycle | call-stake/contracts/auto_trade/src/referral.rs:81-95 | The bounded walk answers yes if and only if the candidate is one of the first hundred referrers above the start. |
| Referrals.ReferralBook.SetReferrer | call-stake/contracts/auto_trade/src/referral.rs:101-149 | The four refusals in order, without change; otherwise one entry and both counters are added. |
| Referrals.ReferralBook.ProcessReferralReward | call-stake/contracts/auto_trade/src/referral.rs:155-219 | One stored reward step is the transition `Reward`, whose runs the lemmas below are about. |
| Referrals.NoShortCycle | call-stake/contracts/auto_trade/src/referral.rs:81-219 | After every run of registrations, rewards and expiries there is no cycle of 101 or fewer members. |
| Referrals.AcyclicUnderShortChains | call-stake/contracts/auto_trade/src/referral.rs:81-149 | If every accepted registration happens below a chain of at most a hundred referrers, the graph has no cycle at all. |
| Referrals.RegisterAcyclicIff | call-stake/contracts/auto_trade/src/referral.rs:101-149 | An accepted registration keeps an acyclic graph acyclic if and only if the referee is nowhere above the referrer beyond the hundred steps searched. |
| Referrals.CycleOf102 | call-stake/contracts/auto_trade/src/referral.rs:84-94 | The bound is sharp: a run of 102 accepted registrations closes a cycle of 102 members. |
| Referrals.CounterHolds | call-stake/contracts/auto_trade/src/referral.rs:121-205 | Over every run the active count respects the cap of 100 and never exceeds the entries with fewer than 100 rewarded trades; entries past their 90 days count until a trade removes them. |
| Referrals.ExactIffDeductedOnce | call-stake/contracts/auto_trade/src/referral.rs:171-205 | A step keeps the count equal to the entries with fewer than 100 rewarded trades, if and only if it is not a further trade of a referee with 100 of them while the referrer has entries with fewer. |
| Referrals.CountIsExact | call-stake/contracts/auto_trade/src/referral.rs:121-205 | A run without such a trade counts exactly the entries with fewer than 100 rewarded trades. |
| Referrals.DeductedTwice | call-stake/contracts/auto_trade/src/referral.rs:171-177 | A run with such a trade: after 101 trades of one referee the count is 0 while another entry has no trade yet. |
| Referrals.RewardIsATenth | call-stake/contracts/auto_trade/src/referral.rs:161-188 | A reward is paid if and only if the referee is registered, within 90 days and 100 rewarded trades, and the fee is at least 10; it is a tenth of the fee rounded down. |
| Referrals.RegisteredIff | call-stake/contracts/auto_trade/src/referral.rs:106-136 | A registration is accepted if and only if the two differ, the referee has no entry, is not among the first hundred referrers above, and the referrer counts fewer than 100; it adds one entry and counts once, and a refusal names what stands in the way. |
| Referrals.TradeEffect | call-stake/contracts/auto_trade/src/referral.rs:161-206 | A trade removes an entry past 90 days or 100 rewarded trades, counts a rewarded trade, and changes no other entry and no statistics but those of the referrer. |
| Referrals.TotalCountsRegistrations | call-stake/contracts/auto_trade/src/referral.rs:134-136 | Over every run the stored total is the number of accepted registrations. |
| Referrals.EarningsAreRewards | call-stake/contracts/auto_trade/src/referral.rs:194-206 | Stored earnings, in total and per asset, equal the rewards credited over the whole run. |
| PortfolioInsurance.InsuranceBook.Configure | call-stake/contracts/auto_trade/src/portfolio_insurance.rs:70-105 | Accepted if and only if both ratios lie in (0, 10000]; hedges and high-water mark of an existing policy are kept. |
| PortfolioInsurance.InsuranceBook.CalculateDrawdown | call-stake/contracts/auto_trade/src/portfolio_insurance.rs:109-126 | Raises the mark to the current value and returns the drawdown from it. |
| PortfolioInsurance.InsuranceBook.CheckAndApplyHedge | call-stake/contracts/auto_trade/src/portfolio_insurance.rs:130-178 | Opens hedges only for an enabled policy without hedges whose drawdown reaches the threshold. |
| PortfolioInsurance.InsuranceBook.RebalanceHedges | call-stake/contracts/auto_trade/src/portfolio_insurance.rs:181-263 | One stored rebalance is the transition `Rebalance` the lemmas below are about; the mark and the settings stay. |
| PortfolioInsurance.InsuranceBook.RemoveHedgesIfRecovered | call-stake/contracts/auto_trade/src/portfolio_insurance.rs:266-298 | Closes all hedges if and only if the drawdown is below 500 basis points. |
| PortfolioInsurance.CalculateOptimalHedges | call-stake/contracts/auto_trade/src/portfolio_insurance.rs:304-349 | The loop opens one hedge per holding with a positive price and a positive amount, for equal shares of the value. |
| PortfolioInsurance.TrimHedges | call-stake/contracts/auto_trade/src/portfolio_insurance.rs:225-251 | The trim loop closes hedges from the front until the value is used up, the last one partially. |
| PortfolioInsurance.ApplyNeverOverHedges | call-stake/contracts/auto_trade/src/portfolio_insurance.rs:148-165 | Opening hedges never hedges more than the configured share of the portfolio, and opens none for a portfolio without value. |
| PortfolioInsurance.IncreaseStaysBelowTarget | call-stake/contracts/auto_trade/src/portfolio_insurance.rs:214-222 | The increase branch ends at or below the target, whatever the prices. |
| PortfolioInsurance.IncreaseComesClose | call-stake/contracts/auto_trade/src/portfolio_insurance.rs:214-222 | With positive prices for all holdings it misses the target only by rounding: less than one per holding plus one unit each. |
| PortfolioInsurance.OptimalHedgesShortfall | call-stake/contracts/auto_trade/src/portfolio_insurance.rs:317-346 | New hedges miss the share they were asked for by at most that rounding. |
| PortfolioInsurance.TrimStaysAboveTarget | call-stake/contracts/auto_trade/src/portfolio_insurance.rs:223-252 | The trim branch ends exactly at target plus excess, where the kept book is a suffix of the old one with at most one hedge reduced to a positive amount, and 0 <= excess <= (p + 98) / 100 for the price p of that hedge. |
| PortfolioInsurance.TrimWorth | call-stake/contracts/auto_trade/src/portfolio_insurance.rs:229-250 | The same for the trim loop on any book and any value to close; when the book is worth less, everything is closed and the rest stays open. |
| PortfolioInsurance.BookAlwaysOk | call-stake/contracts/auto_trade/src/portfolio_insurance.rs:130-298 | Over every run, whatever prices it sees, every open hedge has a positive amount and entry price, and the high-water mark never falls. |
| PortfolioInsurance.DrawdownRange | call-stake/contracts/auto_trade/src/portfolio_insurance.rs:107-126 | The drawdown of a nonnegative portfolio lies in [0, 10000], and is 10000 if and only if everything is lost. |
| HedgeDecisions.OpensOnDrawdown | call-stake/contracts/auto_trade/src/portfolio_insurance.rs:130-165 | An enabled policy without hedges stays empty if (mark - value) * 10000 is below the threshold times the mark; otherwise it opens a book worth the target, short of it only by rounding. |
| HedgeDecisions.OtherwiseNothing | call-stake/contracts/auto_trade/src/portfolio_insurance.rs:133-146 | A disabled policy opens and rebalances nothing, a hedged one opens nothing more, and without hedges nothing is rebalanced or closed. |
| HedgeDecisions.EqualShares | call-stake/contracts/auto_trade/src/portfolio_insurance.rs:317-346 | When every equal share buys a unit there is one hedge per holding, in order, of as many whole units as the share buys at the recorded price, or at 1 without one. |
| HedgeDecisions.ClosesOnRecovery | call-stake/contracts/auto_trade/src/portfolio_insurance.rs:269-289 | All hedges of a portfolio with value are closed if and only if (mark - value) * 10000 is below 500 times the mark. |
| HedgeDecisions.RebalancesWhenOff | call-stake/contracts/auto_trade/src/portfolio_insurance.rs:188-254 | A rebalance acts if and only if the book is off its target by the threshold; it then adds hedges up to the target, or closes from the front, reporting exactly the hedges it touched and keeping the others. |
| HedgeDecisions.TrimsToTarget | call-stake/contracts/auto_trade/src/portfolio_insurance.rs:199-252 | The trim branch ends at or above the target, by at most one unit of one hedge, with the target multiplied out. |
| HedgeDecisions.DrawdownMeaning | call-stake/contracts/auto_trade/src/portfolio_insurance.rs:113-125 | A reading raises the mark to the value; the drawdown is what is missing from the mark in basis points, rounded toward zero. |
| HedgeDecisions.BookIsWorth | call-stake/contracts/auto_trade/src/portfolio_insurance.rs:191-197 | A book is worth the sum of its hedges, and a hedge its units times the recorded price, or its entry price without one, over a hundred. |
| TransferLimits.PruneOldRecords | call-stake/contracts/auto_trade/src/rate_limit.rs:166-190 | The two loops keep exactly the records after the saturated cutoffs, in order. |
| TransferLimits.RateLimiter.IsWhitelisted | call-stake/contracts/auto_trade/src/rate_limit.rs:194-204 | The scan finds exactly the listed users. |
| TransferLimits.RateLimiter.CheckRateLimits | call-stake/contracts/auto_trade/src/rate_limit.rs:266-350 | The checks in their order, on pruned lists; nothing is stored. |
| TransferLimits.RateLimiter.RecordTransfer | call-stake/contracts/auto_trade/src/rate_limit.rs:354-372 | Prunes, appends to both lists, sets the last time and raises the global count. |
| TransferLimits.RateLimiter.RecordViolation | call-stake/contracts/auto_trade/src/rate_limit.rs:236-262 | Counts the violation and sets the penalty of its class; the lists stay. |
| TransferLimits.StoredListsRefineHistory | call-stake/contracts/auto_trade/src/rate_limit.rs:166-372 | In every run each stored list is exactly the part of the full history its window covers. |
| TransferLimits.VolumeLimitsHold | call-stake/contracts/auto_trade/src/rate_limit.rs:308-341 | In every run of a user who is never whitelisted, the transfers of every interval (t - 3600, t] and (t - 86400, t] sum to at most the hourly and the daily limit. |
| TransferLimits.CooldownHolds | call-stake/contracts/auto_trade/src/rate_limit.rs:285-291 | Any two transfers of such a run are at least the cooldown apart. |
| TransferLimits.AcceptedIffWithinLimits | call-stake/contracts/auto_trade/src/rate_limit.rs:266-350 | In every run an attempt is accepted if and only if no penalty is in force, it is at least the minimum, the last transfer is a cooldown ago, the full history of the last 3600 and 86400 seconds leaves room for it, and the counted limits allow it. |
| TransferLimits.RefusalsTellTheTruth | call-stake/contracts/auto_trade/src/rate_limit.rs:266-350 | Every refusal names a limit that really stands in the way, judged by the full history. |
| TransferLimits.NoTransferUnderPenalty | call-stake/contracts/auto_trade/src/rate_limit.rs:236-278 | In every run no attempt goes through before the penalty of an earlier violation is over: an hour for the first two, a day up to the fifth, a week up to the tenth, then thirty days. |
| TransferLimits.TransfersAreAttempts | call-stake/contracts/auto_trade/src/rate_limit.rs:280-283 | Every transfer of a run is what some attempt executed that asked for at least the minimum. |
| ConditionalOrders.EvalCondition | call-stake/contracts/auto_trade/src/conditional.rs:166-216 | The nested returns decide exactly the condition; a missing price or reference never meets one. |
| ConditionalOrders.EvalAll | call-stake/contracts/auto_trade/src/conditional.rs:218-237 | The loops decide the conjunction or the disjunction of all conditions. |
| ConditionalOrders.CheckOrder | call-stake/contracts/auto_trade/src/conditional.rs:338-387 | One order in a check: skipped, expired, or its trough tracked and its conditions evaluated. |
| ConditionalOrders.CheckIds | call-stake/contracts/auto_trade/src/conditional.rs:331-388 | Walking a snapshot of the index while orders leave it checks every listed order exactly once, returns those that were pending and triggered, and leaves the pending ones listed, in order. |
| ConditionalOrders.OrderBook.CreateConditionalOrder | call-stake/contracts/auto_trade/src/conditional.rs:242-295 | Refuses non-positive amounts and empty condition lists; otherwise a new pending order under the next id joins the index. |
| ConditionalOrders.OrderBook.CancelConditionalOrder | call-stake/contracts/auto_trade/src/conditional.rs:298-316 | Only the owner cancels, and only a pending order, which leaves the index. |
| ConditionalOrders.OrderBook.CheckAndTrigger | call-stake/contracts/auto_trade/src/conditional.rs:326-391 | One stored check is `CheckAll`; it starts from a valid index, which every reachable book has (`AlwaysValid`). |
| ConditionalOrders.OrderBook.MarkOrderExecuted | call-stake/contracts/auto_trade/src/conditional.rs:394-413 | Only a triggered order becomes executed; the index stays. |
| ConditionalOrderRuns.AlwaysValid | call-stake/contracts/auto_trade/src/conditional.rs:134-148 | In every reachable state the index is duplicate-free, in creation order, and equals the set of pending orders. |
| ConditionalOrderRuns.CheckReturnsDueOrders | call-stake/contracts/auto_trade/src/conditional.rs:326-391 | A check in a reachable state returns exactly the unexpired pending orders whose combined condition holds, in creation order. |
| ConditionalOrderRuns.LifecycleMovesForward | call-stake/contracts/auto_trade/src/conditional.rs:298-413 | Over every further run an order only moves Pending to Triggered to Executed, or Pending to Expired or Cancelled, and keeps its terms. |
| ConditionalOrderRuns.NeverReturnedTwice | call-stake/contracts/auto_trade/src/conditional.rs:369-373 | No id is returned twice in a run, and every returned order is Triggered or Executed from then on. |
| ConditionalOrderRuns.NoPriceNoTrigger | call-stake/contracts/auto_trade/src/conditional.rs:168-203 | An order whose conditions all need prices nobody recorded is not triggered, in any reachable state. |
| ConditionalOrderRuns.PendingOrdersAreTracked | call-stake/contracts/auto_trade/src/conditional.rs:360-387 | While an order is pending nothing happens to it but the tracking of its trough at every check. |
| ConditionalOrderRuns.TroughIsLowest | call-stake/contracts/auto_trade/src/conditional.rs:363-367 | The tracked trough is the lowest of its starting value and the positive prices seen. |
| ConditionalOrderMarkets.ReturnedIffMet | call-stake/contracts/auto_trade/src/conditional.rs:166-237 | A check in a reachable state returns an order if and only if it is pending, has not expired, and the market meets all its conditions for And, or some of them for Or, each given by prices and multiplied-out bounds. |
| ConditionalOrderMarkets.AboveReturnedIff | call-stake/contracts/auto_trade/src/conditional.rs:176-177 | An order that waits for a price above a threshold is returned if and only if the recorded price is at least that. |
| ConditionalOrderMarkets.BelowReturnedIff | call-stake/contracts/auto_trade/src/conditional.rs:176-178 | One that waits for a price below a threshold, if and only if the recorded price is at most that. |
| ConditionalOrderMarkets.TimeReturnedIff | call-stake/contracts/auto_trade/src/conditional.rs:181-181 | One that waits for a time, if and only if it has come. |
| ConditionalOrderMarkets.DropReboundReturnedIff | call-stake/contracts/auto_trade/src/conditional.rs:182-199 | One that waits for a drop and a rebound, if and only if 10000 * trough is at most reference * (10000 - drop) and 10000 * price is more than trough * (10000 + rebound) - 10000; negative troughs have their own bounds. |
| ConditionalOrderMarkets.BreakoutReturnedIff | call-stake/contracts/auto_trade/src/conditional.rs:200-214 | One that waits for a breakout, if and only if the price is far enough from the reference, either way. |
| ConditionalOrderMarkets.CreatedAsRequested | call-stake/contracts/auto_trade/src/conditional.rs:255-286 | An accepted order gets the next id, keeps every term of the request, expires after the time asked for, and starts from the price of its asset or from 0; other orders stay. |
| ConditionalOrderMarkets.ExpiresIff | call-stake/contracts/auto_trade/src/conditional.rs:343-347 | A check expires exactly the pending orders whose time is over. |
| ConditionalOrderMarkets.CancelsAndExecutes | call-stake/contracts/auto_trade/src/conditional.rs:298-309 | Only the owner cancels, and only a pending order; only a triggered order becomes executed; no other order changes. |
| PriorityQueue.Queue.Enqueue | call-stake/contracts/auto_trade/src/priority_queue.rs:48-91 | The rebuilt list holds the new action in front of the first entry of strictly lower priority; the id is the next one. |
| PriorityQueue.Queue.DrainPriorityBatch | call-stake/contracts/auto_trade/src/priority_queue.rs:95-117 | Splits the list into the batch and the rest. |
| PriorityQueue.AlwaysOrdered | call-stake/contracts/auto_trade/src/priority_queue.rs:46-91 | After every interleaving the queue is strictly ordered by priority descending, then id ascending. |
| PriorityQueue.DrainedOutrankLeft | call-stake/contracts/auto_trade/src/priority_queue.rs:93-117 | No drained action is outranked by one left behind. |
| PriorityQueue.ExactlyOnce | call-stake/contracts/auto_trade/src/priority_queue.rs:48-117 | Every issued id is pending or in exactly one drained batch, never both and never twice; no other id occurs. |
| PriorityQueue.DrainsInOrder | call-stake/contracts/auto_trade/src/priority_queue.rs:68-117 | Over a whole run each trigger type drains in increasing id order, and what waits comes after what was drained. |
| PriorityQueue.OrderedByTrigger | call-stake/contracts/auto_trade/src/priority_queue.rs:14-22 | After every interleaving stop-losses wait before take-profits and those before rebalances, each kind in order of issue. |
| PriorityQueue.DrainsByTrigger | call-stake/contracts/auto_trade/src/priority_queue.rs:93-117 | In the same terms over every run: nothing a drain leaves behind may precede anything it took. |
| PriorityQueue.DrainSplits | call-stake/contracts/auto_trade/src/priority_queue.rs:102-116 | A drain splits the queue into a batch from the front, of up to the limit, and the rest, empty unless the limit is reached. |
| PriorityQueue.EnqueueAdds | call-stake/contracts/auto_trade/src/priority_queue.rs:55-90 | An enqueued action gets the next id and keeps its terms; the others keep their order. |
| IcebergOrders.IcebergBook.CreateIcebergOrder | call-stake/contracts/auto_trade/src/iceberg.rs:121-186 | The four refusals in order, without change; otherwise a new active order whose visible portion rests on the exchange under the given id. |
| IcebergOrders.IcebergBook.OnSdexFill | call-stake/contracts/auto_trade/src/iceberg.rs:193-275 | One fill of the order behind an exchange id: amounts, average, history, and a replenishing order of at most the rest when the visible portion is filled; a fill that makes the total zero aborts on the division. |
| IcebergOrders.IcebergBook.RecordFill | call-stake/contracts/auto_trade/src/iceberg.rs:526-545 | Appends the fill with the running total. |
| IcebergOrders.IcebergBook.CancelIcebergOrder | call-stake/contracts/auto_trade/src/iceberg.rs:290-330 | Only the owner cancels, and only an order that is neither filled nor cancelled. |
| IcebergOrders.IcebergBook.UpdateIcebergPrice | call-stake/contracts/auto_trade/src/iceberg.rs:333-385 | Only the owner reprices an open order; the visible rest is placed anew. |
| IcebergRuns.DividingOrderIsSafe | call-stake/contracts/auto_trade/src/iceberg.rs:121-385 | When the visible amount divides the total, every run of fills, price updates and cancellations keeps filled plus offered at most the total, and a non-cancelled order is Filled if and only if filled equals the total. |
| IcebergRuns.FilledIffDivides | call-stake/contracts/auto_trade/src/iceberg.rs:225-269 | For any order filled to its total by fills alone: it is Filled if and only if the visible amount divides the total. |
| IcebergRuns.FillEverything | call-stake/contracts/auto_trade/src/iceberg.rs:225-269 | From every state reached by fills, further fills of what is offered reach the total. |
| IcebergRuns.NonDividingOrderOverOffers | call-stake/contracts/auto_trade/src/iceberg.rs:355-369 | Every order whose visible amount does not divide its total has a run that fills it completely, leaves it PartiallyFilled, and after a price update offers the rest of the rounded total. |
| IcebergRuns.NeverBeyondRoundedTotal | call-stake/contracts/auto_trade/src/iceberg.rs:121-385 | Every run of every order keeps filled plus offered within the total rounded up to a multiple of the visible amount. |
| IcebergRuns.AlwaysSafeIffDivides | call-stake/contracts/auto_trade/src/iceberg.rs:121-385 | All runs keep filled plus offered within the total and mark exactly the completely filled orders Filled, if and only if the visible amount divides the total. |
| IcebergRuns.AverageOfRun | call-stake/contracts/auto_trade/src/iceberg.rs:202-212 | Over every run the filled amount is the sum of the recorded fills and the last recorded total, and the average times it is at most the true value of the fills and misses at most (k - 1)(F - 1) of it after k fills totalling F. |
| IcebergRuns.AverageBetweenPrices | call-stake/contracts/auto_trade/src/iceberg.rs:206-209 | The average lies between the lowest and the highest fill price. |
| IcebergRuns.CreatesIff | call-stake/contracts/auto_trade/src/iceberg.rs:132-172 | Creation accepts exactly positive totals and prices with a share of 1 to 5000 basis points whose product with the total is at least ten million; the visible amount is that share, rounded down; a refusal names what is wrong. |
| IcebergRuns.OwnerChanges | call-stake/contracts/auto_trade/src/iceberg.rs:297-385 | Only the owner reprices or cancels, and only an open order; repricing needs a positive price and changes nothing else. |
| IcebergRuns.PriceOfRun | call-stake/contracts/auto_trade/src/iceberg.rs:371-373 | Over every run the price is that of the last accepted update. |
| IcebergRuns.ActiveIffUnfilled | call-stake/contracts/auto_trade/src/iceberg.rs:225-269 | Over every run an order is Active if and only if nothing is filled yet and it was not cancelled. |
| DailyCap.DailyCapStore.CheckDailyExecutionCap | call-stake/contracts/auto_trade/src/daily_cap.rs:30-50 | Answers whether the counter as of now is below the cap, and stores a window that was opened; other users are untouched. |
| DailyCap.DailyCapStore.RecordExecution | call-stake/contracts/auto_trade/src/daily_cap.rs:56-70 | Counts one execution in the window as of now, saturating at 32 bits; other users are untouched. |
| DailyCap.WindowsWithinCap | call-stake/contracts/auto_trade/src/daily_cap.rs:30-70 | In every run no counter window holds more executions than the cap; windows do not overlap, last 24 hours, and open with an execution. |
| DailyCap.ClosedDayHoldsTwiceTheCap | call-stake/contracts/auto_trade/src/daily_cap.rs:30-70 | Every 24-hour span with both end points holds at most twice the cap. |
| DailyCap.HalfOpenDayHoldsOneLess | call-stake/contracts/auto_trade/src/daily_cap.rs:30-70 | Every half-open 24-hour span holds at most twice the cap minus one. |
| DailyCap.TwiceTheCapIsReached | call-stake/contracts/auto_trade/src/daily_cap.rs:36-42 | For every cap a run reaches the first bound. |
| DailyCap.OneLessIsReached | call-stake/contracts/auto_trade/src/daily_cap.rs:36-42 | For every cap a run reaches the second bound. |
| DailyCap.SlidingCapIff | call-stake/contracts/auto_trade/src/daily_cap.rs:25-50 | Every half-open day of every run holds at most the cap, if and only if the cap is at most one. |
| DailyCap.LastSecondIsUncapped | call-stake/contracts/auto_trade/src/daily_cap.rs:61-66 | At the last representable second the saturated window end lets every attempt through, for every counter and positive cap; the bounds above hold for all earlier times. |
| DailyCap.ExecutedIff | call-stake/contracts/auto_trade/src/daily_cap.rs:30-70 | In every run an attempt is executed if and only if the cap is positive and no window is open, the last one is over, or it holds fewer executions than the cap. |
| QueryCache.Analytics.ReadCache | call-stake/contracts/analytics/src/query_cache.rs:77-96 | A hit if and only if caching is on and the entry is younger than the TTL. |
| QueryCache.Analytics.WriteCache | call-stake/contracts/analytics/src/query_cache.rs:99-126 | Stores the value with the current time unless caching is off. |
| QueryCache.Analytics.GetCached | call-stake/contracts/analytics/src/lib.rs:441-507 | A hit is returned as it is; a miss returns the current field and caches it. |
| QueryCache.EntriesAreHistoric | call-stake/contracts/analytics/src/query_cache.rs:99-112 | Over every run each cached value is one the snapshot field really had at the time stored with it. |
| QueryCache.BoundedStaleness | call-stake/contracts/analytics/src/query_cache.rs:77-96 | Over every run a getter returns the current value, or one the field really had less than the current TTL ago. |
| QueryCache.FreshAnswers | call-stake/contracts/analytics/src/query_cache.rs:78-81 | With a TTL of zero, and right after an invalidation or an eviction, the answer is the current value. |
| QueryCache.SteadyFieldIsExact | call-stake/contracts/analytics/src/lib.rs:437-461 | A field that has not changed for one TTL is answered exactly. |
| QueryCache.NewTtlBindsAtOnce | call-stake/contracts/analytics/src/query_cache.rs:61-73 | A changed TTL binds at once, also for values cached under the old one: the next answer is current or one the field had less than the new TTL ago, and answers to other queries stay the same. |
| QueryCache.LongerTtlKeepsHits | call-stake/contracts/analytics/src/query_cache.rs:77-96 | A longer TTL keeps every hit and its value. |
| QueryCache.InvalidationIsLocal | call-stake/contracts/analytics/src/query_cache.rs:130-134 | An invalidation changes no answer but that of its own query. |
| QueryCache.UpdateVisibleOnMiss | call-stake/contracts/analytics/src/lib.rs:160-170 | A new snapshot is answered at once where no valid entry is cached, and changes no answer that is. |
| QueryCache.GettersAnswerTheirField | call-stake/contracts/analytics/src/lib.rs:441-507 | After any run, an update and an invalidation the three getters answer total volume, active signals and total executions of the snapshot; without a snapshot they answer 0. |
| QueryCache.DefaultTtl | call-stake/contracts/analytics/src/query_cache.rs:67-73 | Without a configured TTL an entry is a hit for 300 seconds. |
| QueryCache.StalenessReached | call-stake/contracts/analytics/src/query_cache.rs:90-92 | The bound is sharp for every query, every positive TTL and every two snapshots: one second short of the TTL the answer is the old value, and one second later the new one. |
| EventReplay.Reducer.constructor | scripts/replay_state.ts:44-54 | The empty snapshot. |
| EventReplay.Reducer.Apply | scripts/replay_state.ts:65-98 | Folds one event body in and answers whether a reducer handles it; ledger, count and unhandled names stay. |
| EventReplay.Reducer.ApplyAll | scripts/replay_state.ts:112-119 | The loop is the fold of the events in the given order. |
| EventReplay.ReplayEvents | scripts/replay_state.ts:104-123 | Replay is the fold over the stable sort by ledger and id. |
| EventReplay.OrderIndependentIff | scripts/replay_state.ts:104-123 | All permutations of the events replay to the same snapshot if and only if the oracle prices with the highest key agree. |
| EventReplay.OrderIndependent | scripts/replay_state.ts:104-123 | With distinct (ledger, id) keys any permutation replays to the same snapshot. |
| EventReplay.SharedKeyCounterexample | scripts/replay_state.ts:108-110 | Two oracle prices under one ledger and id replay to different snapshots in the two orders. |
| EventReplay.ReplayTotals | scripts/replay_state.ts:108-119 | Everything but the oracle price is the same for the events in any order, sorted or not. |
| EventReplay.StakesAreNet | scripts/replay_state.ts:69-78 | The stake of every account is what it staked minus what it unstaked, and only accounts with such events are listed. |
| EventReplay.TradesAndFees | scripts/replay_state.ts:79-90 | Per signal the number and volume of its trades, and the sum of all fees. |
| EventReplay.LedgerAndNames | scripts/replay_state.ts:112-121 | The last ledger is the highest one seen, every known event counts as applied, and exactly the unknown names are unhandled. |
| EventReplay.ReplayPriceIsLatest | scripts/replay_state.ts:91-94 | The oracle price is that of a price event with the highest key, and absent if and only if there is none. |
| EventReplay.SortedByLedgerAndId | scripts/replay_state.ts:108-110 | The sort puts lower ledgers first and, within a ledger, lower ids, and neither loses nor adds events. |
| EventReplay.PriceByLedgerAndId | scripts/replay_state.ts:91-119 | The oracle price is that of the price event with the highest ledger and, within it, the highest id, and absent if and only if there is none. |
| EventReplay.ReplaySplits | scripts/replay_state.ts:104-119 | Replaying a list split at a ledger boundary equals continuing the fold from the snapshot of the first part. |

## Left out

- Integer widths: i128, u64 and u32 are unbounded integers except where saturation matters (the daily cap); the contracts are built with overflow checks, so an overflow aborts the call and rolls it back.
- `shared::rate_limiter` is not part of this model: whether its transfer counts allow a transfer is a parameter of the check.
- The limits of a rate-limited user are fixed during a run: load adjustment, limit changes and whitelist administration are not modelled.
- Authorization by signature, events, storage rent and token transfers; the caller is a parameter, and the eviction of cache entries is an operation of its own.
- Trade ids of exit sales and the ids of exchange orders: the first are dropped, the second are parameters, and a run of an iceberg order takes them as fresh.
- The asset pair and the unused Failed status of an iceberg order.
- The correlation cache, which is keyed by user and not by the list of assets, the portfolio check on top of it, and the diversification advice.
- Portfolio value and current asset prices come from the risk module as parameters.
- Preset exit strategies, labels and error codes.
- JSON parsing of manifests, StrKey error texts and all other manifest checks; base32 decoding is modelled by its shifts, since only whole eight-character groups reach it. Python's recursion limit is not modelled.
- Event files, number parsing and the fallback between field names in the replay; an event carries its parsed body, ids are compared by rank, and account and signal names that JavaScript objects inherit are treated like any other name.
- Setting or reading a TTL, invalidating an entry and replacing the snapshot are not listed one by one: each touches one stored value, and the lemmas on `QueryCache` runs say what that does to the answers.
- The administrator check and the snapshot fields without a cached getter in the analytics contract.
- The other contracts, the backend, the frontend and the deployment scripts: input and output, or settled by one or two branches.
