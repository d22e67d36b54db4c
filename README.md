# Starbucks offer attribution and recommendation — a Dafny model

This project models two parts of the Starbucks offer pipeline in Dafny and proves properties of them.

The first part is the offer-status scan of `clean_transcript`. Take the event log of receipts, views, completions and transactions. For each customer:

- Find every completed offer whose immediately preceding offer event is a view of the same offer. This is the customer's completed-and-viewed match.
- Trace the match back to the receipt that precedes the view.
- Flag the customer's transactions that fall between the view and the completion.
- Store their total and count on the completion.

Finally, derive each row's net return: the completion's return less its reward, with a missing reward counting as 0.

The second part is `make_recommendation`. It:

- keeps the attributed completions;
- narrows them to a gender / age-bucket / income-bucket segment;
- averages the net return per offer;
- returns the best offers first, cut to `n_top` the way a Python slice cuts.

The two age and income bucketing helpers (`round_age`, `round_income`) and Python's `int()` on a query argument are modelled as well.

Modules, one per file:

- `Wrappers` (wrappers.dfy): the `Option` and `Result` types, for a missing value and for an operation that can fail.
- `Events` (events.dfy): the cleaned event log, one `Event` per row.
- `Timelines` (timelines.dfy): a customer's non-transaction events in log order. This is the source's `person_df` index. It also defines the "previous offer event" of a row.
- `Attribution` (attribution.dfy): each derived column, stated directly on the log as a function or predicate.
- `Transcripts` (transcript.dfy): the scan as the source runs it.
  - The class `Transcript` holds the log and an array of per-row offer-status columns, which its methods update in place.
  - Each method is proved to leave exactly the values `Attribution` specifies.
- `Windows` (windows.dfy): facts about the window totals, and a prefix-sum way of computing them.
- `AttributionProperties` (properties.dfy): properties that relate several rows or several logs.
- `AsWrittenLookback` (as_written_lookback.dfy): the receipt lookback as the source writes it, with its wrap-around; see "## Findings".
- `Scenarios` (scenarios.dfy): small logs worked through by hand.
- `Buckets` (buckets.dfy): `round_age` and `round_income`.
- `IntLiterals` (literals.dfy): `int()` on a string.
- `Recommendation` (recommendation.dfy): `make_recommendation`.
- `RecommendationScenarios` (recommendation_scenarios.dfy): a small table worked through by hand.

Positions in the log stand for the pandas row labels. After `drop_duplicates` the labels still increase strictly in log order. The inclusive label slice `loc[view:completed]` is therefore the closed range of positions from the view to the completion. Amounts are integer cents. Group means are reals.

## Model

| member | source | states |
|---|---|---|
| Events.RewardOrZero | etl_pipeline.py:176 | a missing reward counts as 0 and a present one as itself |
| Timelines.TimelineBefore | etl_pipeline.py:140-143 | the customer's timeline holds only the customer's non-transaction rows below the bound, strictly increasing |
| Timelines.TimelineComplete | etl_pipeline.py:140-143 | the timeline misses none of the customer's non-transaction rows below the bound |
| Timelines.Prev | etl_pipeline.py:152-153 | the previous offer event of a row is an earlier offer event of the same customer |
| Timelines.PrevIsLatest | etl_pipeline.py:152-153 | no offer event of the customer lies between a row and its previous offer event; it is absent exactly when the customer has no earlier offer event |
| Timelines.PrevInTimeline | etl_pipeline.py:143-153 | the entry at timeline position i - 1 is the previous offer event of the entry at position i, and position 0 has none |
| Timelines.TimelinePosition | etl_pipeline.py:143-152 | every offer event of a customer sits at some position of that customer's timeline |
| Attribution.CompletedAndViewed | etl_pipeline.py:154-157 | completed_and_viewed: a completion whose immediately preceding offer event of the customer is a view of the same offer (decided at each scan position by ScanPositionView) |
| Attribution.ViewedOf | etl_pipeline.py:155-157 | the view matched with an attributed completion is an earlier view of the same offer by the same customer |
| Attribution.ReceiptOf | etl_pipeline.py:158-160 | a traced receipt belongs to an attributed completion; it is a receipt of the same offer by the same customer, and it is the offer event immediately before the matched view |
| Attribution.ReceivedAndCompleted | etl_pipeline.py:158-163 | received_and_completed: the row is the receipt that some attributed completion traces back to (set on exactly those rows by FlagReceipts, listed by ReceiptsComplete) |
| Attribution.InfluencedTransaction | etl_pipeline.py:165-168 | influenced_transaction: a transaction of the customer inside the closed window [view, completion] of some attributed completion (see InfluencedCounted) |
| Attribution.CompletedReturn | etl_pipeline.py:169-170 | completed_transaction_return: the total amount of the customer's transactions in the completion's window, 0 for an unattributed row (see CompletedTotals) |
| Attribution.CompletedQty | etl_pipeline.py:171-172 | completed_transaction_qty: the number of the customer's transactions in the completion's window, 0 for an unattributed row (see WindowCountIsCardinality) |
| Attribution.WindowSum | etl_pipeline.py:169-170 | the masked `.sum()`: the total amount of customer p's transactions at positions lo <= t < hi (split by WindowSplit, read off running totals by CompletedTotals) |
| Attribution.WindowCount | etl_pipeline.py:171-172 | the masked `.shape[0]`: the number of customer p's transactions at positions lo <= t < hi (the size of that set by WindowCountIsCardinality) |
| Attribution.NetReturn | etl_pipeline.py:176-178 | net_return: the completion's return less its reward, a missing reward counting as 0 (see DefaultsOutsideMatches) |
| Transcripts.PersonsBefore | etl_pipeline.py:138 | the customers of the log, each exactly once |
| Transcripts.ViewTest | etl_pipeline.py:154-156 | the index test on the customer's timeline: a completion at position i >= 1 right after a view of the same offer (equivalent to CompletedAndViewed by ScanPositionView) |
| Transcripts.ReceiptTest | etl_pipeline.py:158 | the receipt test, with the corrected lookback: the view test, and a receipt of the same offer two positions back, only from position 2 on (equivalent to ReceiptOf by ScanPositionReceipt) |
| Transcripts.ScanPositionView | etl_pipeline.py:154-157 | the view test at a timeline position holds exactly when the completion there is attributed, and the view is the previous entry |
| Transcripts.ScanPositionReceipt | etl_pipeline.py:155-160 | the receipt test at a timeline position (with the corrected lookback) picks exactly the traced receipt |
| Transcripts.ScanStep | etl_pipeline.py:153-160 | one iteration appends the completion with its view exactly when the view test of lines 154-156 passes, and the completion with the receipt before the view exactly when the receipt test passes with the corrected lookback (`pointer >= 1`, no wrap to the last entry) |
| Transcripts.ViewLinks | etl_pipeline.py:149-157 | the completed_viewed list after the scan has passed the first i timeline positions (sound by ViewLinksSound, complete by ViewLinkAt) |
| Transcripts.ReceiptLinks | etl_pipeline.py:150-160 | the completed_viewed_received list after the first i positions, with the corrected lookback (sound by ReceiptLinksSound, complete by ReceiptLinkAt) |
| Transcripts.ViewLinksSound | etl_pipeline.py:152-157 | every entry of the completed-viewed list is an attributed completion of the customer with its view |
| Transcripts.ViewLinkAt | etl_pipeline.py:152-157 | an attributed completion is in the completed-viewed list once the scan has passed it |
| Transcripts.ReceiptLinksSound | etl_pipeline.py:152-160 | every entry of the completed-viewed-received list is a traced receipt of the customer with its completion |
| Transcripts.ReceiptLinkAt | etl_pipeline.py:152-160 | a traced receipt is in the completed-viewed-received list once the scan has passed its completion |
| Transcripts.ListedEverywhere | etl_pipeline.py:140-160 | after the whole timeline, every attributed completion and every traced receipt of the customer is listed |
| Transcripts.ScanCustomer | etl_pipeline.py:140-160 | the two match lists hold every attributed completion of the customer with its view, and every traced receipt with its completion, and nothing else |
| Transcripts.PartialStep | etl_pipeline.py:165-172 | writing one more completed-viewed link changes the customer's rows exactly as that link's three writes do |
| Transcripts.ReceiptsComplete | etl_pipeline.py:162-163 | the receipts named by the completed-viewed-received list are exactly the rows whose received_and_completed is set |
| Transcripts.PartialComplete | etl_pipeline.py:165-172 | once all links of the completed-viewed list are written, each row of the customer holds its specified columns |
| Transcripts.Transcript.constructor | etl_pipeline.py:127-134 | the five offer-status columns start at 0 on every row |
| Transcripts.Transcript.AttributeCustomer | etl_pipeline.py:140-172 | processing one customer gives that customer's rows their specified columns and leaves every other row unchanged |
| Transcripts.Transcript.FlagReceipts | etl_pipeline.py:162-163 | sets received_and_completed exactly on the customer's traced receipts |
| Transcripts.Transcript.WriteCompletions | etl_pipeline.py:165-172 | after the loop over the completed-viewed list, the customer's rows hold the completion flags, the window influence flags and the window totals |
| Transcripts.Transcript.WriteLink | etl_pipeline.py:166-172 | one link flags its completion; flags the customer's transactions from the view through the completion; stores their total and count on the completion; every other row stays unchanged |
| Transcripts.Transcript.FillOfferStatus | etl_pipeline.py:138-172 | after the loop over all customers, every row holds its specified offer-status columns |
| Transcripts.Transcript.ComputeNetReturn | etl_pipeline.py:176-178 | each row's net return is its completed_transaction_return less its reward, a missing reward counting as 0 |
| Transcripts.CleanTranscript | etl_pipeline.py:127-178 | the enriched table: every row holds the specified columns and net return |
| Windows.WindowCountIsCardinality | etl_pipeline.py:171-172 | completed_transaction_qty counts the customer's transactions in the window |
| Windows.WindowSplit | etl_pipeline.py:169-172 | window totals and counts add up across any split point |
| Windows.PrefixTotals | etl_pipeline.py:169-172 | entry k of the running totals is the customer's transaction total and count before position k |
| Windows.CompletedTotals | etl_pipeline.py:169-172 | given the running totals built once for the customer, the difference of two entries equals completed_transaction_return and completed_transaction_qty |
| AttributionProperties.WindowsDisjoint | etl_pipeline.py:152-157 | of two attributed completions of one customer, the later one's view comes after the earlier completion |
| AttributionProperties.InfluencingCompletionUnique | etl_pipeline.py:165-168 | a transaction lies in the window of at most one completion |
| AttributionProperties.InfluencedCounted | etl_pipeline.py:167-172 | a transaction in a completion's window is flagged influenced, and its amount and a count of 1 enter that completion's totals |
| AttributionProperties.DefaultsOutsideMatches | etl_pipeline.py:127-178 | rows outside every match keep 0 in each column, and their net return is minus their reward |
| AttributionProperties.FirstCompletionUnmatched | etl_pipeline.py:153-155 | a completion that is its customer's first offer event is never matched |
| AttributionProperties.TimelineLocal | etl_pipeline.py:140-143 | a customer's timeline depends only on that customer's rows |
| AttributionProperties.WindowLocal | etl_pipeline.py:167-172 | window totals depend only on that customer's rows |
| AttributionProperties.MatchLocal | etl_pipeline.py:152-160 | matches, receipts and totals of a customer's completion depend only on that customer's rows |
| AttributionProperties.ReceivedLocal | etl_pipeline.py:162-163 | received_and_completed of a customer's row depends only on that customer's rows |
| AttributionProperties.InfluencedLocal | etl_pipeline.py:167-168 | influenced_transaction of a customer's row depends only on that customer's rows |
| AttributionProperties.AttributionIsPerCustomer | etl_pipeline.py:138-178 | every column and the net return of a customer's row depend only on that customer's rows, whatever other customers do |
| AsWrittenLookback.WrapIndex | etl_pipeline.py:158 | a negative index counts back from the end of the sequence |
| AsWrittenLookback.ReceiptLookupAsWritten | etl_pipeline.py:152-160 | the as-written lookback only ever flags receipts from the customer's timeline |
| AsWrittenLookback.AsWrittenAgreesOffPositionOne | etl_pipeline.py:153-160 | at every timeline position other than 1, the as-written lookback and the corrected rule agree |
| AsWrittenLookback.WraparoundFlagsLaterReceipt | etl_pipeline.py:153-160 | for view, completion, receipt of one offer, the as-written lookback flags the receipt logged after the completion; the corrected rule flags nothing |
| Scenarios.FullLogMatch | etl_pipeline.py:152-160 | for receipt, view, purchase, completion, the completion is matched with the view and traced to the receipt |
| Scenarios.CompletionAttributed | etl_pipeline.py:165-178 | that completion carries return 10.00 from one transaction, and net return 8.00 after its 2.00 reward |
| Scenarios.ReceiptFlagged | etl_pipeline.py:162-163 | the receipt is flagged received_and_completed |
| Scenarios.ViewUnflagged | etl_pipeline.py:127-134 | the view keeps every default |
| Scenarios.PurchaseInfluenced | etl_pipeline.py:167-168 | the purchase between view and completion is flagged influenced |
| Scenarios.ViewPurchaseCompletion | etl_pipeline.py:152-172 | without a receipt, the completion is still attributed with its window return, and no row is flagged as a traced receipt |
| Buckets.AgeBucketFrom | etl_pipeline.py:50-52 | the search from y finds a bucket exactly when y - 10 < x <= 110; the bucket holds x, is 10 wide and ends on a multiple of 10 |
| Buckets.RoundAge | etl_pipeline.py:41-53 | an age gets a bucket exactly when 10 < x <= 110; the bucket holds x, is 10 wide and ends on a multiple of 10; otherwise the result is 0 |
| Buckets.IncomeBucketFrom | etl_pipeline.py:65-67 | the search from y finds a bucket exactly when (y - 10) * 1000 < x <= 120000; the bucket holds x, is 10000 wide and ends on a multiple of 10000 |
| Buckets.RoundIncome | etl_pipeline.py:56-68 | an income gets a bucket exactly when 20000 < x <= 120000; the bucket holds x, is 10000 wide and ends on a multiple of 10000; otherwise the result is 0 |
| Buckets.RoundAgeIsTheBucket | etl_pipeline.py:41-53 | round_age returns the grid bucket that holds the age |
| Buckets.RoundIncomeIsTheBucket | etl_pipeline.py:56-68 | round_income returns the grid bucket that holds the income |
| IntLiterals.ParseInt | recommendation_system.py:41-47 | `int()` on an argument string: surrounding white space dropped, an optional sign, one or more decimal digits; anything else is an error (partnered by ParseShowInt and ParseIgnoresPadding) |
| IntLiterals.ParseShowInt | recommendation_system.py:42 | int() reads back the decimal literal of every integer, negative ones included |
| IntLiterals.ParseIgnoresPadding | recommendation_system.py:42 | white space around an argument does not change what int() makes of it |
| Recommendation.Where | recommendation_system.py:39 | a boolean mask keeps exactly the rows it accepts |
| Recommendation.WhereCounts | recommendation_system.py:39 | a boolean mask keeps every accepted row as many times as it occurs, and no other row |
| Recommendation.NormaliseAge | recommendation_system.py:41-44 | an age argument fails exactly when it is not an integer literal; it becomes a bucket exactly when the age is in 10 < x <= 110, and the bucket is the one round_age returns: it holds the age and ends on a multiple of 10; otherwise it counts as absent |
| Recommendation.NormaliseIncome | recommendation_system.py:46-49 | an income argument fails exactly when it is not an integer literal; it becomes a bucket exactly when the income is in 20000 < x <= 120000, and the bucket is the one round_income returns: it holds the income and ends on a multiple of 10000; otherwise it counts as absent |
| Recommendation.SegmentRows | recommendation_system.py:51-74 | the eight branches on which of gender, age and income are given, each with its own mask (what they select is stated by SegmentIsConjunction) |
| Recommendation.SegmentIsConjunction | recommendation_system.py:51-74 | each of the eight branches keeps exactly the rows that match every criterion given |
| Recommendation.OffersOf | recommendation_system.py:52 | the group keys are the offers of the rows, each once |
| Recommendation.ReturnSum | recommendation_system.py:52 | the total net return of an offer's rows (bounded by SumAtLeast and SumAtMost) |
| Recommendation.RowCount | recommendation_system.py:52 | an offer has rows exactly when it occurs in the table |
| Recommendation.RowCountIsCardinality | recommendation_system.py:52 | the group size is the number of the offer's rows |
| Recommendation.MeanReturn | recommendation_system.py:52 | the group mean: total net return over the number of rows (bounded by MeanBetween) |
| Recommendation.SumAtLeast | recommendation_system.py:52 | when every row of an offer has net return at least lo, the group total is at least lo times the group size |
| Recommendation.SumAtMost | recommendation_system.py:52 | when every row of an offer has net return at most hi, the group total is at most hi times the group size |
| Recommendation.MeanBetween | recommendation_system.py:52 | an offer's mean lies between the least and the greatest net return of its rows |
| Recommendation.PrependBest | recommendation_system.py:53 | an offer whose mean is at least the head's may go in front of a ranking |
| Recommendation.HeadAboveInsertion | recommendation_system.py:53 | the head of a ranking outranks every offer of an insertion into its tail |
| Recommendation.InsertBehind | recommendation_system.py:53 | inserting behind the head keeps the ranking, the offers and their distinctness |
| Recommendation.InsertByMean | recommendation_system.py:53 | insertion into a ranking gives a ranking with one more offer and loses nothing |
| Recommendation.RankByMean | recommendation_system.py:53 | the sort is a permutation of the offers, highest mean first |
| Recommendation.TakeTop | recommendation_system.py:53 | `[:n_top]` is a prefix of length min(n_top, length) for n_top >= 0, and of length max(0, length + n_top) otherwise |
| Recommendation.TopOffers | recommendation_system.py:52-53 | the result has the slice's length; its offers are distinct, all from the table, best mean first; no offer left out has a higher mean than one kept |
| Recommendation.Selected | recommendation_system.py:39-74 | the rows used are exactly the attributed completions that match the segment, each as many times as it occurs in the table |
| Recommendation.MakeRecommendation | recommendation_system.py:25-76 | the call fails exactly when a supplied age or income is not an integer literal, reporting the age first |
| Recommendation.RecommendationRanksSelected | recommendation_system.py:39-74 | a successful call ranks the offers of the attributed completions matching every given criterion, with age and income replaced by their buckets |
| Recommendation.RecommendedOffersAttributed | recommendation_system.py:39-76 | every recommended offer has an attributed completion by a customer of the segment |
| Recommendation.UnbucketedAgeIgnored | recommendation_system.py:41-44 | an age outside every bucket gives the same answer as no age |
| Recommendation.UnbucketedIncomeIgnored | recommendation_system.py:46-49 | an income outside every bucket gives the same answer as no income |
| Recommendation.SameAgeBucketSameAnswer | recommendation_system.py:41-44 | two ages in the same bucket give the same answer |
| Recommendation.SameIncomeBucketSameAnswer | recommendation_system.py:46-49 | two incomes in the same bucket give the same answer |
| RecommendationScenarios.SmallTableSelected | recommendation_system.py:39 | the unattributed row is dropped |
| RecommendationScenarios.SmallSelectionMeans | recommendation_system.py:52 | the group means of the example are 6.00 and 7.00 |
| RecommendationScenarios.SmallSelectionTop | recommendation_system.py:52-53 | over the attributed rows of the example, the top-1 offer is B |
| RecommendationScenarios.UnfilteredMeansFlip | recommendation_system.py:52 | over all rows of the example, unattributed loss included, B would average -21.50, below A's 6.00 |
| RecommendationScenarios.BestOfferIgnoresUnattributedRows | recommendation_system.py:39-53 | the top-1 recommendation is B, the offer with the higher mean over attributed rows, which counting the unattributed row would reverse |
| RecommendationScenarios.NonNumericAgeRejected | recommendation_system.py:42 | a non-numeric age argument is an error |

## Left out

- Loading and cleaning of the portfolio, profile and transcript JSON, the value-column normalisation, the channel dummies, the merge, and saving to and loading from SQLite (`load_data`) are not modelled. They are I/O and table plumbing. The model starts from the cleaned log: one `Event` per row, with its kind already decoded from the event dummies.
- The web front end (run.py) and the timing and progress prints are not modelled.
- Money is integer cents, not floating point. Group means are exact reals, so float rounding in sums and means is not modelled.
- Transcripts.Transcript.WriteLink assumes that the chained assignment `loc[view:completed, 'influenced_transaction'][mask] = 1` reaches the table. This is the evident intent. pandas may instead write into a temporary copy, leaving the column unchanged.
- Events.RewardOrZero and Attribution.NetReturn assume likewise that `transcript.reward.fillna(0, inplace=True)` (etl_pipeline.py:176), an in-place call on a column, fills the table's reward column. Under pandas copy-on-write it would leave the missing rewards in place, and `net_return` would then be missing on every row without a reward.
- Pandas row labels are modelled as positions in the log. This is exact because labels increase strictly after `drop_duplicates`. Arbitrary index labels are not modelled.
- The customer loop visits customers in order of first appearance, as `unique()` does. The order does not matter: Transcripts.Transcript.AttributeCustomer changes only the given customer's rows, and sets them to `StatusOf` values that depend on the log alone, so any order of visits leaves the same table.
- Transcripts.ScanStep, Transcripts.ScanCustomer, Transcripts.Transcript.FlagReceipts, Transcripts.Transcript.AttributeCustomer, Transcripts.Transcript.FillOfferStatus and Transcripts.CleanTranscript use the corrected receipt lookback: no receipt is looked for before the customer's first offer event. The source's wrap-around at `pointer == 0` is modelled separately, see "## Findings".
- Recommendation.RankByMean fixes one order among offers with equal means. The unstable `sort_values` may order ties differently. Every property proved about `TopOffers` holds for any tie order.
- Recommendation.OffersOf lists group keys in order of first appearance, whereas `groupby` sorts them. After ranking, this only matters for ties.
- Bucket labels are the pair (lo, hi), not the string "lo-hi". Two such labels are equal exactly when their pairs are equal.
- IntLiterals.ParseInt accepts ASCII white space, an optional sign and ASCII digits. It does not accept `int()`'s digit-group underscores, non-ASCII digits, or non-ASCII white space such as a no-break space (U+00A0), which `int()` strips. Arguments are always strings, not numbers already converted.
- The result of `make_recommendation` is the sequence of offer ids, not a pandas Index.

## Findings

| source | as written | input that shows it | evidently intended | confidence | as-written member | corrected member |
|---|---|---|---|---|---|---|
| etl_pipeline.py:158 | with `pointer == 0`, `received[pointer-1]` reads index -1, the customer's last offer event | customer X: view O1, complete O1 (reward 2.00), then receive O1 | no receipt before the first offer event, so the receipt logged after the completion is not flagged | high, not executed | AsWrittenLookback.WraparoundFlagsLaterReceipt | Attribution.ReceiptOf |

`AsWrittenLookback.ReceiptLookupAsWritten` is the source's lookback with the wrap-around. `AsWrittenLookback.AsWrittenAgreesOffPositionOne` proves that it agrees with the corrected rule at every timeline position other than 1, so position 1 is the only place the two can differ. The rest of the model, including `Transcripts.ScanStep` and `Transcripts.ScanCustomer`, uses the corrected rule.

A further consequence of strict adjacency: `AttributionProperties.WindowsDisjoint` shows that two windows of one customer never overlap. The source never de-duplicates transactions across windows, and this shows that it never needs to.
