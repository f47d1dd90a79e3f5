# Verification model of the campaign analyser

This project models the parts of the analyser whose correctness is decided by its own code, and
proves the properties they exist for. `dafny verify dfyconfig.toml` checks all of it.

| part | modules |
|---|---|
| Login-rate limiter: interleaved transactions over a lock table and committed rows | RateWindow, LimiterProtocol, LimiterSafety, LimiterLiveness, LoginRates |
| Sessions and lockout: tables with mutable state, and whole runs of operations | Sessions, SessionRepository, SessionSafety, SessionEffects, Lockout |
| Comparison: compatibility gate, common signatures, ranking, the report | Contracts, Gate, GateFields, Ordering, Ranking, Signatures, Comparison, Report, ReportTheorems, ReportFields, RankedFields, RefusalFields, ChosenValues, UnitsAndEvidence, ConcreteReports |
| Turkish numbers and dates | Digits, DecimalToken, DecimalTheorems, Calendar, DateSelection |
| Keyset cursors, paging, export, the notification feed | Base64Url, Timestamps, Cursor, WireTexts, Pagination, PagingOnce, NotificationCursor, Notifications |
| The sitemap crawl | Crawl, CrawlTheorems, CrawlEffects |
| Evaluation metrics | Metrics |
| Shared by several parts | Wrappers, Clock |

Time is an integer number of microseconds. Money, rates and metrics are exact numbers; the decimal
parser models the 28 digits of the default arithmetic context, because its multiplication by the
scale word rounds to them. Methods stand where the code works step by step, and each is proved
against a function of its inputs or of the old state; the properties are then lemmas about that
function. What an operation does to the fields of its inputs and state is stated beside it without
that function, in the modules whose names end in Fields and Effects.

## What the database and the network are taken to do

- Advisory locks are exclusive and held to the end of the transaction; a transaction that waits for
  a lock sees, once it has it, everything committed before; committed rows are visible before the
  locks are free. A lock key is any integer function of dimension and digest, collisions included.
- One session or user operation is one atomic transaction. Token digests, CSRF digests and session
  ids are inputs; the table refuses duplicates.
- A page of campaigns is one read of a snapshot whose rows stand in the query's order. The order of
  ids is the database's own: it is a parameter, and what depends on it says so.
- The feed of notifications only grows, at its end, between reads.
- Base64, JSON, timestamp and UUID readers may be any that read canonical texts back: for JSON, arrays
  of two strings of printable ASCII without quotes and backslashes. The canonical re-encoding makes
  the rest not matter (`Cursor.ReadersDoNotMatter`). One such set for the campaign cursor is given
  (`Cursor.PlainestConforms`).
- The network may answer anything to each request of the crawl. URL policy, robots.txt decisions and
  the extraction of links and locations are parameters.
- Regular expressions, word lists and Unicode folding are not modelled: match spans, month names
  already read as numbers, and canonical labels are inputs.

## Where the code does something else than one would expect

Each names the members that show it, with a concrete input or the exact condition.

- Pruning reservations with a cut past the start of a window that is still counted lets one grant
  too many through (`LimiterLiveness.LatePruneBreaksBound`). `prune_before` accepts any cut.
- `retry_at` can be too early when stamps are out of order (`LoginRates.ClockSkewBreaksRetry`):
  exactly when some full window still holds its limit of later stamps by then
  (`RateWindow.RetryExactWhenDrained`).
- A clock that goes back can leave two active sessions (`SessionSafety.BackwardClockGivesTwoSessions`):
  by one kind of touch only (`SessionSafety.StaleTouchesExactly`), and never while touches are not
  stamped before their user's last rotation (`SessionSafety.OneSessionIfTouchesAreTimely`).
- A points reward with a money amount is signed as points and ranked by money
  (`ConcreteReports.PointsAgainstMoney`; `ChosenValues.OneUnitExactly` says when a ranking mixes).
- A waiver may stand for a record that also has a price in another currency or mode
  (`ConcreteReports.WaiverMayHideAPrice`; `ChosenValues.HiddenPriceExactly` says when).
- Evidence for the eleventh to the twentieth value counts for the second value too, because pointers
  are matched by prefix (`UnitsAndEvidence.OnlySecondValueBorrows`).
- A number longer than 28 digits loses digits without an error
  (`DecimalTheorems.RenderRoundTripExact` is the exact condition).
- A window over the turn of the year without written years is resolved backwards, and rejected by the
  caller (`DateSelection.ReferenceYearCanReverse`).
- A whole month of the year 0000 fails in the date constructor, not as a normalization result
  (`DateSelection.YearZeroFails`; `DateSelection.CalendarErrorExactly` says when).
- A cursor with a timestamp near either end of the calendar, in a zone that moves it out, ends in an
  overflow error and not in the invalid-cursor error (`Cursor.OverflowExactly`).
- If the database ranks ids otherwise than by code points, paging can repeat a campaign, though it
  skips none (`PagingOnce.FoldedOrderRepeats`, `Pagination.PagingSkipsNone`); it repeats none exactly
  when the two orders agree on the last row of each page (`PagingOnce.OnceExactlyWhenEndsAgree`).
- The export fails on a page end whose id does not fit the cursor's pattern, which record ids need
  not follow (`Pagination.ExportIsLossless`).
- Values predicted for a field that no gold example has do not lower the macro F1
  (`Metrics.PerfectFields`).

## Model

| member | source | states |
|---|---|---|
| LimiterSafety.WindowBoundUnderInterleaving | backend/src/katilim_analiz/auth/repository.py:461-521 | Under every interleaving of any number of login transactions, and with caller clocks in any order, the table never holds more than `limit` stamps of a username or client in any interval (t − window, t], if its attempts ask for no more |
| LimiterSafety.InterleavedRunIsSerial | backend/src/katilim_analiz/auth/repository.py:461-530 | While no attempt counts from below a prune cut, the interleaved run decides exactly what running the attempts one at a time in commit order would decide, and the bound holds of every reservation ever granted, pruned or not |
| LimiterSafety.DefaultLimits | backend/src/katilim_analiz/auth/repository.py:31-34 | The deployed limits: at most 10 reservations a username in any 15 minutes and 20 a client in any 60 seconds |
| LimiterSafety.RetryInstantIsExact | backend/src/katilim_analiz/auth/repository.py:472-507 | In every reachable table that the clock has not overtaken, a denied attempt repeated with nothing in between is denied at every instant before `retry_at` and allowed at it and after it, over both blocked dimensions |
| LimiterSafety.ReachableInv | backend/src/katilim_analiz/auth/repository.py:461-521 | Every step of every run keeps the lock table, the counts in progress, the window bound and the serial history consistent |
| LimiterSafety.Exclusive | backend/src/katilim_analiz/auth/repository.py:461-470 | Two transactions that hold all their locks at once work on different usernames and different clients, even when digests collide |
| LimiterLiveness.NeverDeadlocks | backend/src/katilim_analiz/auth/repository.py:461-470 | In every reachable state with an unfinished transaction some transaction can take its next step |
| LimiterLiveness.AdvancingRunsDrain | backend/src/katilim_analiz/auth/repository.py:461-507 | Without new arrivals every schedule is finite, and one that cannot be extended has finished every transaction |
| LimiterLiveness.AloneIsAtomic | backend/src/katilim_analiz/auth/repository.py:442-507 | A transaction whose locks are free, run to its end, is the single atomic attempt that the repository method is proved to be |
| LimiterLiveness.AbortLeavesNothing | backend/src/katilim_analiz/auth/repository.py:461-507 | A transaction may fail at any point before its commit, and then frees its locks and leaves no row and no record |
| LimiterLiveness.LatePruneBreaksBound | backend/src/katilim_analiz/auth/repository.py:523-530 | The condition on pruning is needed: whatever the limits of an attempt, and for either dimension, a cut past the start of its window lets one grant too many fall inside that window (the other dimension's limit of earlier attempts being no lower) |
| LoginRates.LoginRateRepository.ReserveLoginAttempt | backend/src/katilim_analiz/auth/repository.py:442-507 | The method itself: argument errors in their order without effect; otherwise the grant, the two new rows, and the counts and limits reported, each as the windows hold them once the attempt is done |
| LoginRates.DecisionExactly | backend/src/katilim_analiz/auth/repository.py:461-507 | An attempt is granted exactly when both windows hold fewer rows than their limits; a grant adds one row for each subject; the counts reported, granted or denied, are those the windows hold after the attempt, beside the request's own limits |
| LoginRates.LoginRateRepository.PruneBefore | backend/src/katilim_analiz/auth/repository.py:523-530 | Keeps exactly the rows stamped at or after the cut and counts the others |
| LoginRates.ClockSkewBreaksRetry | backend/src/katilim_analiz/auth/repository.py:479-483 | The forward clock is needed for an exact `retry_at`: two grants and a stamp out of order for which it comes too early |
| RateWindow.GrantKeepsBound | backend/src/katilim_analiz/auth/repository.py:478-496 | A grant below the limit keeps the bound for any stamp, because the query has no upper end |
| RateWindow.OldestIsMinimum | backend/src/katilim_analiz/auth/repository.py:509-521 | The oldest stamp is there exactly when something is counted, lies in the window, and everything counted stays counted until it drops out |
| RateWindow.PruneKeepsBound | backend/src/katilim_analiz/auth/repository.py:523-530 | Deleting rows never breaks a bound |
| RateWindow.PruneInvisible | backend/src/katilim_analiz/auth/repository.py:523-530 | Deleting rows below a cut cannot be seen by a window that starts no earlier than just below it |
| RateWindow.DeniedHasRetry | backend/src/katilim_analiz/auth/models.py:126-147 | A decision carries a retry instant exactly when it denies, as the decision record demands |
| RateWindow.DeniedUntilRetry | backend/src/katilim_analiz/auth/repository.py:479-506 | Before the retry instant the same attempt is denied, whatever the clock did |
| RateWindow.AllowedUnlessOverfull | backend/src/katilim_analiz/auth/repository.py:479-506 | From the retry instant on the attempt is allowed when no full window would still be full without its oldest stamp |
| RateWindow.RetryExactWhenDrained | backend/src/katilim_analiz/auth/repository.py:472-507 | For every denied attempt on any table, `retry_at` is exact if and only if each full window has fewer rows than its limit stamped later than its own length before that instant |
| RateWindow.SetterDrainsUnlessOverfull | backend/src/katilim_analiz/auth/repository.py:479-506 | For a window whose oldest stamp sets `retry_at`, and one always does, that condition says it would not still be full without its oldest stamp |
| RateWindow.RetryExactUnlessOverfull | backend/src/katilim_analiz/auth/repository.py:479-506 | Where one window alone is full, the attempt is allowed at `retry_at` if and only if that window is not overfull |
| RateWindow.AllowedFromRetry | backend/src/katilim_analiz/auth/repository.py:479-506 | From the retry instant on it is allowed, if the windows are bounded and no row is stamped in the future |
| SessionRepository.AuthRepository.RotateSession | backend/src/katilim_analiz/auth/repository.py:274-316 | The new table and result, or the error, in the order of the checks; the new session is active and its user has no other |
| SessionRepository.AuthRepository.CreateSession | backend/src/katilim_analiz/auth/repository.py:318-343 | A rotation that ends at the given instant, idle for at most the default, or the rotation's error |
| SessionRepository.AuthRepository.GetActiveSession | backend/src/katilim_analiz/auth/repository.py:345-364 | The session and its account, exactly when both are active |
| SessionRepository.AuthRepository.TouchActiveSession | backend/src/katilim_analiz/auth/repository.py:366-401 | Moves the last visit and idle deadline only of an active session of an active account, and only after the write interval |
| SessionRepository.AuthRepository.RevokeSession | backend/src/katilim_analiz/auth/repository.py:403-412 | Stamps the session if it was not stamped, and says whether it did |
| SessionRepository.AuthRepository.RevokeSessionByTokenHash | backend/src/katilim_analiz/auth/repository.py:414-423 | The same by token digest |
| SessionRepository.AuthRepository.RevokeUserSessions | backend/src/katilim_analiz/auth/repository.py:425-433 | Stamps every unstamped session of a user and counts them |
| SessionEffects.RevokeUserExactly | backend/src/katilim_analiz/auth/repository.py:425-433 | A user's sessions that bore no stamp carry `now`, none of the user's is active at any instant, every other row is as it was, and the reply counts them; refused exactly when one of them is younger than the stamp |
| SessionEffects.RevokeByIdExactly | backend/src/katilim_analiz/auth/repository.py:403-412 | The same for the rows of one id |
| SessionEffects.RevokeByTokenExactly | backend/src/katilim_analiz/auth/repository.py:414-423 | The same for the one row of a token digest; a malformed digest is refused |
| SessionEffects.RotationExactly | backend/src/katilim_analiz/auth/repository.py:274-316 | A rotation stamps the user's sessions active at its instant, adds one fresh row with the given times, and changes no other |
| SessionEffects.RotationRefusedExactly | backend/src/katilim_analiz/auth/repository.py:285-316 | Which refusal a rotation gets, in the order of the checks, each with its exact condition |
| SessionEffects.CreationExactly | backend/src/katilim_analiz/auth/repository.py:318-343 | Creation is the rotation that ends at the given instant and is idle for at most half an hour |
| SessionEffects.TouchExactly | backend/src/katilim_analiz/auth/repository.py:366-401 | A touch moves the two stamps of one active session of an active account once the write interval has passed, and changes no other row |
| SessionSafety.AtMostOneActiveSession | backend/src/katilim_analiz/auth/repository.py:274-433 | Over every run of the operations whose clock does not go back, each user has at most one active session at the last instant and at every later one |
| SessionSafety.SingleSessionFromStart | backend/src/katilim_analiz/auth/repository.py:274-433 | The same for every run that starts from no sessions |
| SessionSafety.NoResurrection | backend/src/katilim_analiz/auth/repository.py:366-433 | Over every such run a session once inactive, by revocation or either deadline, is never active again |
| SessionSafety.TimeBoundsHold | backend/src/katilim_analiz/auth/models.py:96-123 | Whatever the clock does, every stored session keeps created ≤ last seen < idle ≤ absolute, and idle = min(last seen + idle time, absolute) when one idle time is used |
| SessionSafety.AcceptedTouchKeepsAlive | backend/src/katilim_analiz/auth/repository.py:397-401 | After an accepted touch at `now` the session lives at least to min(now + idle time − write interval, absolute) |
| SessionSafety.AbsoluteDeadlineIsFinal | backend/src/katilim_analiz/auth/repository.py:366-401 | No run of any operations moves the absolute deadline or lets the session live past it |
| SessionSafety.StaleTouchesExactly | backend/src/katilim_analiz/auth/repository.py:274-433 | Whatever its stamp, an operation leaves each user at most one active session if and only if it is not an accepted touch, stamped before the clock, that brings a session expired by the clock back beside another active one of its user |
| SessionSafety.OneSessionIfTouchesAreTimely | backend/src/katilim_analiz/auth/repository.py:274-433 | Over every run, with rotations and revocations stamped in any order, each user has at most one active session at every instant since their last rotation, as long as no touch is stamped before its user's last rotation |
| SessionSafety.BackwardClockGivesTwoSessions | backend/src/katilim_analiz/auth/repository.py:274-401 | A run in which such a touch leaves two active sessions |
| Lockout.AuthUser.RecordLoginFailure | backend/src/katilim_analiz/auth/repository.py:228-247 | Counts the failure; the fifth and later ones set a wait of 30, 60, 120, 240, 480 and then 900 seconds from `now`; the account is eligible again exactly from its end |
| Lockout.AuthUser.RecordLoginSuccess | backend/src/katilim_analiz/auth/repository.py:249-272 | Clears the lockout and stores a rehash, or rejects a malformed one without effect |
| Lockout.DelayRange | backend/src/katilim_analiz/auth/repository.py:240-244 | No wait is below 30 or above 900 seconds, and waits never shrink |
| Lockout.FailuresAreSpread | backend/src/katilim_analiz/auth/repository.py:228-247 | Failures recorded only while the account could log in are spread out by at least the sum of the waits |
| Lockout.BruteForceIsSlow | backend/src/katilim_analiz/auth/repository.py:228-247 | The n-th consecutive failure, n ≥ 10, comes at least 930 + 900 (n − 10) seconds after the fifth |
| Lockout.BoundIsReached | backend/src/katilim_analiz/auth/repository.py:228-247 | That bound is tight for every n |
| Gate.FirstGlobalIncompatibility | backend/src/katilim_analiz/domain/comparison.py:226-341 | The loop over the checks, with its early return, computes the gate as a function of the records, notes in order and none when blocked |
| Gate.GateDecomposes | backend/src/katilim_analiz/domain/comparison.py:226-341 | Two or more records pass if and only if every two of them do, and then every pair leaves exactly the notes the whole set leaves |
| Gate.GateIsOfTheSet | backend/src/katilim_analiz/domain/comparison.py:226-341 | The outcome depends on the set of records alone, not on order or repetition |
| GateFields.GateInFields | backend/src/katilim_analiz/domain/comparison.py:226-341 | The outcome in the records' own fields: the first obstacle in the order status, family, currency, segments, channel, new customer, mechanism, security, as-of, observation, validity; a timestamp without a zone fails; records that pass leave exactly the notes of the axes on which all are silent |
| GateFields.PassesExactly | backend/src/katilim_analiz/domain/comparison.py:226-341 | Records pass if and only if they are validated, of one known family, one stated currency and the same segments, agree or are all silent on each optional axis, were observed by the as-of, and state no window or all one that is open on the selected day |
| Signatures.CommonFeeSignatures | backend/src/katilim_analiz/domain/comparison.py:684-710 | The collecting loop returns exactly the signatures that every record prices or waives, and the all-waived ones that no record prices |
| Signatures.CommonIsComplete | backend/src/katilim_analiz/domain/comparison.py:684-710 | No signature common to all records is missed by collecting from the stated ones |
| Signatures.CommonIsServed | backend/src/katilim_analiz/domain/comparison.py:684-716 | With a common signature every record has an offer that meets it |
| Signatures.MeetingOffersAgree | backend/src/katilim_analiz/domain/comparison.py:713-716 | Two priced offers that meet one signature share it: kind, basis and currency, or rate context |
| Signatures.AllWaivedHidesNoPrice | backend/src/katilim_analiz/domain/comparison.py:707-710 | Under the all-waived signature no record states a price of that kind and basis |
| Report.FindIssue | backend/src/katilim_analiz/domain/comparison.py:517-530 | Finds the first unusable value, in record and value order, or none |
| Report.SelectValues | backend/src/katilim_analiz/domain/comparison.py:531-576 | The shape of the rate, fee and reward comparisons: the chosen value of each record, or the one rejection for all |
| Report.CompareDimension | backend/src/katilim_analiz/domain/comparison.py:969-981 | The outcomes of one dimension, in record order |
| Report.CompareCampaigns | backend/src/katilim_analiz/domain/comparison.py:1029-1067 | The whole comparison, with its argument checks, is the report as a function of its inputs |
| ReportFields.ErrorsExactly | backend/src/katilim_analiz/domain/comparison.py:1039-1049 | When there is no report: fewer than two records, two with one id, no dimension, or a timestamp without a zone that no earlier obstacle hides |
| ReportFields.ReportExactly | backend/src/katilim_analiz/domain/comparison.py:1038-1067 | What stands at each place: dimensions by name, records by id, the gate's obstacle for all or what the dimension decides, and the gate's notes |
| ReportFields.PairReasonsExactly | backend/src/katilim_analiz/domain/comparison.py:1070-1080 | The codes of a pair: none when accepted, otherwise those of the two entries, the smaller id's first and a repeated one once |
| RankedFields.RatesRankByKind | backend/src/katilim_analiz/domain/comparison.py:517-591 | Every successful rate comparison shows one rate of each record, the only one of its context there and all in one context; financing and cost rates rank the lower the better, the other kinds the higher, equal rates tie, and the reason says so |
| RankedFields.LongerTermsRankFirst | backend/src/katilim_analiz/domain/comparison.py:594-636 | Every successful term comparison shows the longest term of each record, and the longer ranks ahead |
| RankedFields.LowerFeesRankFirst | backend/src/katilim_analiz/domain/comparison.py:742-805 | Every successful fee comparison shows one fee of each record, of one kind and basis and the priced ones priced alike; waivers rank first and level, then the lower price |
| RankedFields.HigherRewardsRankFirst | backend/src/katilim_analiz/domain/comparison.py:873-936 | Every successful reward comparison shows one reward of each record, all on the same terms, and the higher figure ranks ahead |
| RankedFields.EveryRankBelowIsUsed | backend/src/katilim_analiz/domain/comparison.py:432-455 | From 1 up to any rank in use every rank is in use |
| RefusalFields.RankedExactly | backend/src/katilim_analiz/domain/comparison.py:458-591 | A rate, fee or reward comparison ranks its records if and only if each states something, nothing stated is unfit to be compared, and there is exactly one comparison that a value of every record serves, each with one value and with evidence |
| RefusalFields.MissingRefuses | backend/src/katilim_analiz/domain/comparison.py:517-526 | A record that states nothing refuses all: its own reason for those without, a peer's for the others |
| RefusalFields.TroubleRefuses | backend/src/katilim_analiz/domain/comparison.py:458-492 | Otherwise the first value unfit to be compared, in record and value order, refuses all for its own reason |
| RefusalFields.NothingSharedRefuses | backend/src/katilim_analiz/domain/comparison.py:507-540 | With nothing shared, all are refused for the first feature that no value has in common over the records |
| RefusalFields.TwoSharedRefuse | backend/src/katilim_analiz/domain/comparison.py:541-542 | With two comparisons open to all records, all are refused for that |
| RefusalFields.TwiceServedRefuses | backend/src/katilim_analiz/domain/comparison.py:547-559 | With one comparison, a record with two values for it refuses all |
| RefusalFields.UnprovenRefuses | backend/src/katilim_analiz/domain/comparison.py:560-581 | With one value each, one without evidence refuses all: its own reason for those without, a peer's for the others |
| RefusalFields.TermsRankedExactly | backend/src/katilim_analiz/domain/comparison.py:594-636 | Terms are ranked if and only if every record states some, none unclear, with evidence |
| RefusalFields.UnprovenTermsRefuse | backend/src/katilim_analiz/domain/comparison.py:615-635 | Terms without evidence refuse all records in the same way |
| RefusalFields.EligibilityExactly | backend/src/katilim_analiz/domain/comparison.py:939-966 | Eligibility is compatible for all records, with its evidence and no rank or figure, if all have evidence for their context; otherwise all are refused, for their own or a peer's |
| RefusalFields.EvidenceExactly | backend/src/katilim_analiz/domain/comparison.py:405-414 | The evidence shown is sorted by id and holds each id as often as the record has evidence of it whose pointer starts with the path, with "/data" or without |
| ReportTheorems.ReportForgetsOrder | backend/src/katilim_analiz/domain/comparison.py:1029-1067 | Permuting the records, and permuting or repeating the dimensions, gives the identical report |
| ReportTheorems.ReportIsComplete | backend/src/katilim_analiz/domain/comparison.py:1029-1067 | One outcome for each record and each distinct dimension, and no other |
| ReportTheorems.ReportIsUniform | backend/src/katilim_analiz/domain/comparison.py:361-402 | Within a dimension all records are accepted, each with evidence, or all are rejected |
| ReportTheorems.CompatibilityReasonsSymmetric | backend/src/katilim_analiz/domain/comparison.py:1070-1080 | The rejection codes of a pair do not depend on which comes first |
| ReportTheorems.NoReasonsMeansAccepted | backend/src/katilim_analiz/domain/comparison.py:1070-1080 | There are no codes exactly when both records are accepted |
| ReportTheorems.RanksAreDense | backend/src/katilim_analiz/domain/comparison.py:417-455 | A rank is 1 plus the number of distinct strictly better values; ranks compare as the values do and equal values tie |
| ReportTheorems.RanksAreContiguous | backend/src/katilim_analiz/domain/comparison.py:432-455 | The ranks in use are exactly 1 to the number of distinct values |
| ReportTheorems.WaivedFeeRanksFirst | backend/src/katilim_analiz/domain/comparison.py:417-429 | A stated waiver has rank 1 and shows no figure, and exactly the priced fees rank after it |
| ReportTheorems.RankedFeesShareContext | backend/src/katilim_analiz/domain/comparison.py:742-805 | Any two ranked fees that are not waived share kind, basis and currency, or rate context; a waived one shares kind and basis |
| ReportTheorems.AllWaivedRankingHidesNothing | backend/src/katilim_analiz/domain/comparison.py:707-710 | When the common signature is the all-waived one no compared record has a price that the ranking leaves out |
| Ranking.DenseRank | backend/src/katilim_analiz/domain/comparison.py:432-455 | The rank computed by sorting the distinct keys is 1 plus the number of distinct strictly better ones |
| Ranking.RanksHaveNoGap | backend/src/katilim_analiz/domain/comparison.py:432-455 | Ranks 1 to k are all in use |
| Ranking.WaiverIsFirst | backend/src/katilim_analiz/domain/comparison.py:417-429 | A waiver ranks ahead of every priced value where lower is better |
| UnitsAndEvidence.OneUnitPerRanking | backend/src/katilim_analiz/domain/comparison.py:569-936 | All figures of one ranking are in one unit: for rates, terms and fees always, for rewards when none states a second figure |
| ChosenValues.OneUnitExactly | backend/src/katilim_analiz/domain/comparison.py:835-917 | A reward ranking is in one unit if and only if the rewards it shows prefer the same figure: points rewards all without an amount or all with one in one currency, discounts by rate all with points or all without |
| ChosenValues.RewardUnitsExactly | backend/src/katilim_analiz/domain/comparison.py:835-917 | The same for any two of the rewards shown |
| ConcreteReports.PointsAgainstMoney | backend/src/katilim_analiz/domain/comparison.py:835-1067 | A report that accepts two points rewards and ranks 500 points first and 100 lira second, because a points reward that also names an amount is ranked by the amount |
| ChosenValues.HiddenPriceExactly | backend/src/katilim_analiz/domain/comparison.py:684-805 | In every fee ranking a record is ranked by a waiver while it prices the kind and basis if and only if it both waives and prices them; a waiver never stands beside a price of the very signature, and under the all-waived signature there is no price at all |
| ConcreteReports.WaiverMayHideAPrice | backend/src/katilim_analiz/domain/comparison.py:684-1067 | A report that ranks a waiver first for a record that also charges 40 dollars for the same kind and basis, ahead of 90 lira |
| UnitsAndEvidence.EvidenceCountsByPrefix | backend/src/katilim_analiz/domain/comparison.py:405-414 | Evidence for value j, with a pointer in either form, counts for value i exactly when the digits of i are a prefix of those of j |
| UnitsAndEvidence.OnlySecondValueBorrows | backend/src/katilim_analiz/domain/comparison.py:405-414 | Among the twenty values a record may state, only the second one borrows evidence, from the eleventh on |
| DecimalTheorems.AcceptedTokens | backend/src/katilim_analiz/domain/normalization.py:205-256 | Which compact tokens are accepted, exactly, and that an accepted one is all its digits in order with the zeros of the scale word (three, six or nine) after them, the separator deciding only the power of ten |
| DecimalTheorems.AcceptedWithSpaces | backend/src/katilim_analiz/domain/normalization.py:205-213 | The same for tokens with spaces and a plus sign |
| DecimalTheorems.RefusedExactly | backend/src/katilim_analiz/domain/normalization.py:212-256 | Which refusal a compact token gets, each with its exact condition |
| DecimalTheorems.NegativeExactly | backend/src/katilim_analiz/domain/normalization.py:206-208 | A minus in front, and nothing else, is refused as a negative value |
| DecimalTheorems.PlusIsDropped | backend/src/katilim_analiz/domain/normalization.py:209-211 | One plus in front is dropped, and only one |
| DecimalTheorems.SpacesExactly | backend/src/katilim_analiz/domain/normalization.py:206 | Which characters are dropped as whitespace |
| DecimalTheorems.ScaleAppendsZeros | backend/src/katilim_analiz/domain/normalization.py:153-157 | A scale word multiplies by ten to the power of three, six or nine |
| DecimalTheorems.SpacesIgnored | backend/src/katilim_analiz/domain/normalization.py:205-213 | Whitespace anywhere in a token changes nothing |
| DecimalTheorems.ParseRendered | backend/src/katilim_analiz/domain/normalization.py:205-256 | Parsing the dot-grouped, comma-decimal rendering of any number and fraction gives its digits times ten to the power of 0, 3, 6 or 9, by the scale word, up to the 28 digits of the arithmetic context |
| DecimalTheorems.RenderRoundTripExact | backend/src/katilim_analiz/domain/normalization.py:252-256 | The value survives exactly if and only if the scaled digits fit 28 digits or end in zeros beyond them |
| DecimalTheorems.LongNumberRounds | backend/src/katilim_analiz/domain/normalization.py:252-256 | Of every whole number of 29 digits the parser drops the last one, and so changes the value unless it is zero |
| DecimalTheorems.RoundedToNearest | backend/src/katilim_analiz/domain/normalization.py:256 | What is kept of a number too long is the nearest multiple of the dropped power, the even one of two equally near |
| DateSelection.TakePattern | backend/src/katilim_analiz/domain/normalization.py:815-836 | The matches of one pattern, kept when they overlap nothing kept before |
| DateSelection.ExtractDateParts | backend/src/katilim_analiz/domain/normalization.py:808-840 | The accepted spans are sorted, pairwise disjoint and maximal, and the flag for written years is right |
| DateSelection.TakenMaximal | backend/src/katilim_analiz/domain/normalization.py:808-840 | Every rejected match overlaps one accepted before it |
| DateSelection.TakenDisjoint | backend/src/katilim_analiz/domain/normalization.py:808-840 | Accepted matches never overlap |
| DateSelection.FirstPatternKept | backend/src/katilim_analiz/domain/normalization.py:808-840 | Every match of the first pattern is accepted |
| DateSelection.InferredYearIsShortest | backend/src/katilim_analiz/domain/normalization.py:903-928 | With exactly one written year a resolved pair is ordered, and no other missing year gives an ordered window as short |
| DateSelection.ReferenceYearCanReverse | backend/src/katilim_analiz/domain/normalization.py:903-928 | With no written year a pair over the turn of the year runs backwards |
| DateSelection.NormalizedWindowIsSound | backend/src/katilim_analiz/domain/normalization.py:931-1064 | A normalized window has a bound, is made of calendar dates, and never ends before it starts |
| DateSelection.FullMonthHoldsItsDays | backend/src/katilim_analiz/domain/normalization.py:990-1010 | A whole-month window holds exactly the days of that month |
| DateSelection.CalendarErrorExactly | backend/src/katilim_analiz/domain/normalization.py:938-1010 | A date error escapes exactly when the text is a whole month, no earlier branch applies, and its year is not one of 1 to 9999 |
| DateSelection.YearZeroFails | backend/src/katilim_analiz/domain/normalization.py:990-1010 | The whole of any month of the year 0000 ends in that error |
| DateSelection.SingleDateExactly | backend/src/katilim_analiz/domain/normalization.py:1040-1064 | An until-word gives the window of exactly the days up to the date, a from-word alone the days from it on; refused when the year is known from neither side, no calendar has the date, or neither word is there |
| DateSelection.MonthWordingsExactly | backend/src/katilim_analiz/domain/normalization.py:944-1010 | Which days a window holds: up to the end of the reference month, from one day of a month to another, or a whole month |
| DateSelection.RangeHoldsExactly | backend/src/katilim_analiz/domain/normalization.py:1011-1036 | Two dates and a range word: the days from the first to the second, each in its own year, or both in the reference year where neither has one |
| DateSelection.ResolvedExactly | backend/src/katilim_analiz/domain/normalization.py:903-928 | When two dates can be read, and the year a missing one gets |
| DateSelection.WordingsRefusedExactly | backend/src/katilim_analiz/domain/normalization.py:944-989 | Which refusal a wording without a list of dates gets |
| DateSelection.DatesRefusedExactly | backend/src/katilim_analiz/domain/normalization.py:1011-1040 | Which refusal a list of dates gets, in order |
| Calendar.OrdinalOrders | backend/src/katilim_analiz/domain/normalization.py:903-928 | Day numbers order dates as year, month and day do |
| Calendar.FromOrdinalInverts | backend/src/katilim_analiz/application/cursor.py:22-58 | Dates and day numbers are in bijection over the years 1 to 9999 |
| Base64Url.DecodeEncode | backend/src/katilim_analiz/application/cursor.py:22-58 | Unpadded URL-safe base64 (sections 3.2 and 5 of RFC 4648) decodes to the bytes it encodes, four characters for three bytes |
| Timestamps.ReadIsoUtc | backend/src/katilim_analiz/application/cursor.py:22-31 | The UTC text of an instant reads back as that instant |
| WireTexts.InstantText | backend/src/katilim_analiz/application/cursor.py:22-31 | The UTC text of an instant by its calendar fields, microseconds only when there are any |
| WireTexts.GroupKeepsNumber | backend/src/katilim_analiz/application/cursor.py:22-31 | Three bytes and the four characters they become stand for the same number (section 4 of RFC 4648) |
| WireTexts.KnownEncodings | backend/src/katilim_analiz/application/cursor.py:22-31 | Two texts as section 10 of RFC 4648 gives them, and the two characters of the URL-safe alphabet |
| WireTexts.CursorText | backend/src/katilim_analiz/application/cursor.py:22-31 | A campaign cursor is the base64url form of a compact JSON array of the UTC text and the id |
| WireTexts.FeedCursorText | backend/src/katilim_analiz/notifications/cursor.py:21-22 | A feed cursor is that of the marker v2 and the digits of the sequence |
| Cursor.DecodeUndoesEncode | backend/src/katilim_analiz/application/cursor.py:22-58 | For every valid position the same instant and id come back, and the text has at most 300 of the 500 characters allowed |
| Cursor.AcceptedAreEncodings | backend/src/katilim_analiz/application/cursor.py:33-58 | A text is accepted if and only if it encodes a valid position, and decodes to that position in UTC |
| Cursor.EncodingIsInjective | backend/src/katilim_analiz/application/cursor.py:22-31 | Two positions share a text exactly when they are the same instant and id |
| Cursor.FitIdsExactly | backend/src/katilim_analiz/application/models.py:56-63 | Which ids a position may carry |
| Cursor.LongTextsRefused | backend/src/katilim_analiz/application/cursor.py:33-35 | A text over 500 characters, or with one outside ASCII, is refused |
| Cursor.ReadersDoNotMatter | backend/src/katilim_analiz/application/cursor.py:33-58 | The canonical check leaves one meaning whichever conforming base64, JSON and timestamp readers are used |
| Cursor.OverflowExactly | backend/src/katilim_analiz/application/cursor.py:45-58 | A cursor whose timestamp names its zone by hours and minutes is rejected, except that it ends in an overflow error exactly when its clock reads less than the offset past the start of the calendar, or within the offset of its end |
| Cursor.OverflowHappens | backend/src/katilim_analiz/application/cursor.py:45-58 | Such texts exist |
| Cursor.PlainestConforms | backend/src/katilim_analiz/application/cursor.py:36-47 | A strict set of readers, with a JSON reader that refuses strings in need of escapes (section 7 of RFC 8259), meets all that is asked of readers |
| Pagination.ConditionSelectsTheRest | backend/src/katilim_analiz/storage/read_adapter.py:93-106 | The query condition on instant and id selects exactly the rows after the one the cursor names |
| Pagination.AdapterServes | backend/src/katilim_analiz/storage/read_adapter.py:75-122 | For rows in the query order the adapter returns the next `limit` rows after any row a cursor names, and whether there are more |
| Pagination.CursorRequestExactly | backend/src/katilim_analiz/storage/read_adapter.py:75-122 | What a request with the cursor of a position answers: a limit outside 1 to 100, an instant after the snapshot, and a position at which no row stands are refused in this order; any other gets the rows after that row |
| Pagination.OtherTextsRefused | backend/src/katilim_analiz/application/cursor.py:33-58 | A text that is the cursor of no position is refused, as a bad cursor unless it overflows |
| Pagination.PagingIsLossless | backend/src/katilim_analiz/application/services.py:180-211 | Following `next_cursor` until null ends and yields every campaign of the snapshot exactly once, newest first, ties by id; it fails if and only if a page ends in a row that cannot be written as a cursor |
| Pagination.PagingSkipsNone | backend/src/katilim_analiz/application/services.py:195-206 | Whatever order the database ranks ids in, no campaign is skipped and the client stops |
| PagingOnce.OnceExactlyWhenEndsAgree | backend/src/katilim_analiz/application/services.py:195-206 | Whatever order the database ranks ids in, following the cursors yields every campaign exactly once if and only if every page but the last ends, by that order, in the row the service sorts last |
| PagingOnce.FoldedOrderRepeats | backend/src/katilim_analiz/application/services.py:180-211 | Over a database that ranks ids without regard to case, following the cursors through pages of two yields one of three campaigns twice |
| Pagination.OtherOrderRepeats | backend/src/katilim_analiz/application/services.py:195-206 | The same for any three rows of which the service sorts the second before the first |
| Pagination.ExportPages | backend/src/katilim_analiz/export/dataset.py:208-224 | The export loop computes what paging collects, never more than 10,000 records, refuses a page end whose id is unfit for a cursor, and ends for every port |
| Pagination.ExportIsLossless | backend/src/katilim_analiz/export/dataset.py:208-224 | Over a snapshot it collects exactly the rows if and only if there are at most 10,000 and no page but the last ends in an id unfit for a cursor; such an id among the first 10,000 is met before the count is exceeded |
| NotificationCursor.DecodeUndoesEncode | backend/src/katilim_analiz/notifications/cursor.py:21-58 | Every feed sequence comes back from its cursor |
| NotificationCursor.AcceptedExactly | backend/src/katilim_analiz/notifications/cursor.py:24-78 | A text means sequence n if and only if it is that sequence's own cursor, or n is 0 and it is a canonical first-version cursor |
| NotificationCursor.LegacyReplays | backend/src/katilim_analiz/notifications/cursor.py:60-78 | Every canonical first-version cursor means the start of the feed |
| NotificationCursor.CanonicalIdExactly | backend/src/katilim_analiz/notifications/cursor.py:60-78 | An event id is five groups of lower-case hexadecimal digits, of 8, 4, 4, 4 and 12 |
| NotificationCursor.OverflowExactly | backend/src/katilim_analiz/notifications/cursor.py:60-78 | A feed cursor overflows exactly when it is a pair of a timestamp outside the calendar in UTC and an event id |
| Notifications.FeedRefusesExactly | backend/src/katilim_analiz/application/services.py:227-243 | What the feed refuses: a text that is no cursor, and otherwise a limit outside 1 to 100 |
| Notifications.FeedIsLossless | backend/src/katilim_analiz/application/services.py:227-261 | However events are appended between reads, a client that follows the cursors and stops has received in order, once each, exactly the events beyond its start that the feed held at its last read |
| Notifications.FeedAtRestFinishes | backend/src/katilim_analiz/application/services.py:244-261 | On a feed at rest it does stop, also at an exhausted feed and from a first-version cursor |
| Notifications.AnySliceGivesCleanPage | backend/src/katilim_analiz/application/services.py:235-243 | Whatever the port returns, a page names no event twice, ascends and stays beyond its cursor |
| Notifications.PageHoldsExactly | backend/src/katilim_analiz/application/services.py:235-243 | A page holds of each event the last that the port returned of it, where that is beyond the cursor |
| Notifications.OnePage | backend/src/katilim_analiz/application/services.py:233-257 | The page and its next cursor exactly, an exhausted feed and the exchange of a first-version cursor included |
| Crawl.BankDiscovery.CollectSitemapUrls | backend/src/katilim_analiz/candidates/runner.py:193-233 | The nested loops compute the crawl as a function of the network's answers, and end for every network, cyclic sitemaps included |
| Crawl.BankDiscovery.DrainQueue | backend/src/katilim_analiz/candidates/runner.py:209-232 | One host's queue worked off within the fetch budget; the measure is the budget, then the queue |
| Crawl.BankDiscovery.TakeLocations | backend/src/katilim_analiz/candidates/runner.py:221-232 | Sitemaps join the queue once, pages join the pool under their canonical URL, and a full pool ends the crawl |
| Crawl.BankDiscovery.CollectInternalLinks | backend/src/katilim_analiz/candidates/runner.py:236-254 | The same for the links of the monitored pages that robots.txt allows |
| CrawlTheorems.AtMostSixSitemaps | backend/src/katilim_analiz/candidates/runner.py:202-217 | At most six sitemaps are fetched over all hosts, whatever they answer |
| CrawlTheorems.PoolIsWhatSitemapsList | backend/src/katilim_analiz/candidates/runner.py:221-232 | The pool holds the canonical pages of the sitemaps read and nothing else, at most 3,000, and loses one only when full |
| CrawlTheorems.NoSitemapForgotten | backend/src/katilim_analiz/candidates/runner.py:203-225 | Unless the pool or the budget ran out, every sitemap declared or named was fetched or noted as outside the allowlist; and only such sitemaps are ever fetched, within the allowlist |
| CrawlTheorems.FirstChannelIsKept | backend/src/katilim_analiz/candidates/runner.py:251-254 | A URL keeps its first discovery channel; new ones come from monitored pages that were read, all of them unless the pool is full |
| CrawlTheorems.EveryPageIsSeen | backend/src/katilim_analiz/candidates/runner.py:243-251 | Every monitored page is read, or noted as denied or unavailable, unless the pool fills up |
| CrawlTheorems.DiscoveryIsBounded | backend/src/katilim_analiz/candidates/runner.py:265-270 | Over both stages the pool stays within 3,000, a URL is marked as a sitemap URL exactly when the sitemap stage found it, and no robots.txt is asked for twice |
| CrawlEffects.RobotsAreAsAnswered | backend/src/katilim_analiz/candidates/runner.py:153-161 | Whatever robots.txt answer the crawl keeps of a host is what that host answered, and status 503 when it could not be reached |
| CrawlEffects.RobotsAreObeyed | backend/src/katilim_analiz/candidates/runner.py:236-254 | Of the monitored pages the stage comes to, exactly those that the kept robots.txt allows are requested, exactly those it denies are noted as denied, and one is noted as unavailable exactly when a request for it brought no status 200 |
| CrawlEffects.QueueIsServedInOrder | backend/src/katilim_analiz/candidates/runner.py:209-225 | The first sitemap of the queue comes next, and what it names goes behind the rest |
| CrawlEffects.RootsOfHost | backend/src/katilim_analiz/candidates/runner.py:203-208 | A host starts with the sitemaps that its robots.txt declares, when it answered with success and declares any, and otherwise with the one at its root |
| Metrics.F1Closed | evals/metrics.py:17-33 | F1 equals 2TP / (2TP + FP + FN), and 0 when that denominator is 0 |
| Metrics.F1Range | evals/metrics.py:27-33 | F1 lies in [0, 1] and is 1 exactly with a hit and no error |
| Metrics.SharesExactly | evals/metrics.py:17-25 | Precision times the number predicted, and recall times the support, are each the true positives; each is 0 where there is nothing to share |
| Metrics.MeanExactly | evals/metrics.py:68-69 | A mean times the number of its values is their sum |
| Metrics.SumAppends | evals/metrics.py:68-69 | The sum takes each value once |
| Metrics.Classify | evals/metrics.py:117-152 | The loop over the labels stores the counts of each class and the macro averages over all of them |
| Metrics.ClassCountsExactly | evals/metrics.py:124-144 | The counts of a class as numbers of ids: in both labellings, in the prediction alone, in the gold labels alone, and in the gold labels |
| Metrics.CountsAreConserved | evals/metrics.py:122-144 | Over all labels supports sum to the gold size, TP + FP to the predicted size and TP + FN to the gold size |
| Metrics.PerfectClassification | evals/metrics.py:117-152 | Macro F1 is 1 exactly when the predictions equal a non-empty gold map |
| Metrics.ReportFields | evals/metrics.py:72-114 | The nested loops count each field over the gold examples and average the fields that occur in them |
| Metrics.CountField | evals/metrics.py:82-107 | The counters equal the numbers of right, wrong, missed and invented values, a wrong one counting twice |
| Metrics.FieldCountsExactly | evals/metrics.py:82-107 | The counts of a field as numbers of gold examples: with the right value, with a prediction that is not right, with a value not found right, and with a value |
| Metrics.FieldPartitions | evals/metrics.py:82-107 | TP + FN is the support, TP + FP the number of gold examples with a prediction |
| Metrics.OutsidersAreIgnored | evals/metrics.py:83-85 | Predictions for examples outside the gold set do not count |
| Metrics.PerfectFields | evals/metrics.py:108-114 | Macro F1 of a field report is 1 exactly when some field occurs in the gold examples and every field that does is predicted as it stands; values invented for other fields cost nothing |

## Left out

- LimiterSafety.InterleavedRunIsSerial: holds while no attempt counts from below a prune cut, because beyond that it is false (LimiterLiveness.LatePruneBreaksBound gives the input).
- LimiterSafety.RetryInstantIsExact: asks that no row be stamped in the future of the denied attempt, because otherwise it can be false; RateWindow.RetryExactWhenDrained gives the exact condition on any table.
- SessionSafety.AtMostOneActiveSession: asks for a clock that does not go back, because otherwise it can be false; SessionSafety.StaleTouchesExactly gives the exact condition for one step, and SessionSafety.OneSessionIfTouchesAreTimely the weaker one it is derived from.
- UnitsAndEvidence.OneUnitPerRanking: asks that no reward state a second figure; ChosenValues.OneUnitExactly gives the exact condition.
- LimiterLiveness.LatePruneBreaksBound: the earlier attempts may ask for a higher limit in the other dimension; with both limits fixed, several subjects of that dimension would be needed, which is not shown.
- Two rotations interleaved inside their transactions: `rotate_session` takes no lock on the user, so operations are modelled one at a time.
- Which integrity error the database reports first for a new session, a missing user or a duplicate key: the model has one error for both.
- Password hashing, token generation, user creation and bootstrap, and the audit log: plain inserts and hashes.
- PostgreSQL, SQLAlchemy, HTTP, pacing and file writing: only the contracts above.
- The report's digest, its ruleset version, display texts and explanations: strings that follow from the modelled outcome.
- Filters, facets, coverage and the choice of the latest version of a campaign: they only decide which rows the snapshot holds.
- `build_public_dataset` after the paging loop: a filter by status and a sort by two keys.
- `normalize_money`, `normalize_rate` and `normalize_terms`: led by word lists around the modelled token parser.
- Ranking, filtering and checking of discovery candidates: led by word lists.
- Binary floating point: metrics and the service's sort key are modelled on exact numbers, so rounding of averages and of microsecond timestamps is not.
- Decimal digits outside ASCII, which the number pattern and constructor read as the digits they stand for: the model has the ten ASCII digits only.
- JSON cursors with escapes, and other texts that library readers accept: covered only by way of the reader parameters.
