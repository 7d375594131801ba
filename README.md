# A verified model of a referral-tree commerce back end

The system is a Node.js/Express back end of a shop that uses a multi-level referral tree.
Every member has a sponsor, the member who referred it. Every member also sits in a ternary
placement tree: each node holds at most three children.

A registration job places a new member under the first open slot near its sponsor. It then
refreshes the counters and levels stored along the path to the root. It pays commissions in
points into wallets: the member's own points, a fifth to the sponsor, and a twentieth to
every ancestor. Wallets book credits and track a monthly balance. From that balance they
assign clubs, create rewards at thresholds and feed a monthly global point pool.

A monthly job shares 1% of last month's pool among the members who qualify. Members can ask
for withdrawals, which an admin processes or rejects. Shop controllers run carts, wishlists,
orders, reward redemption and the password rule for new accounts.

The model works on documents as values, as Mongoose hands them out. The store is a value `Db`:
- members keyed by `userId` (`Users.User`);
- wallets keyed by owner (`Wallets.WalletRecord`);
- rewards, reward thresholds and point pools.

The shop side uses a value `Shop.Store` of products, carts, wishlists and orders. Every
`findOne` gives a copy, and a `save()` writes back only the paths the copy changed
(`Users.PatchUser`). The post-save hooks of the member schema then run: the rank hook and
the wallet hook (`Store.SaveUser`). A wallet document, whose methods update its own fields,
is a class (`WalletDocs.WalletDoc`).

Each job, loop or controller that works step by step is a `method`. Each method is proved
equal to a specification function on the store, for example:
- `Unified.UpdateAncestors` equals `Unified.AncestorsWalk`;
- `Orders.CreateOrder` equals `Orders.Ordered`;
- `Carts.Pass` equals `Carts.Normalised`.

The properties the system promises are lemmas about those functions:
- where a placement puts the member;
- that the tree stays a forest;
- which counters and levels a walk refreshes;
- who is paid what and that nobody is paid twice within one run of a plan;
- that stock never goes below zero;
- that a reward is redeemed once;
- round trips and idempotence.

Modules follow the program's structure.

| module | what |
|---|---|
| `Common` | Option/Result, `Math.min`, `Math.floor`, filters |
| `Users` | the member document, its defaults, the rank table and hook, save deltas |
| `Wallets` | the wallet document as a value: balances, ledger, club, withdrawals |
| `Pools` | the global point pool and its find-or-create |
| `Store` | the store, a member save with its hooks, rewards, clubs, one credit |
| `WalletDocs` | the wallet document as an object with its methods |
| `Credits` | a sequence of credits (a commission plan) and what it pays |
| `Tree` | tree links, acyclicity, subtrees, ancestor chains, breadth-first order, attaching a leaf |
| `Unified` | `processWithRetry`, the breadth-first slot search, the count walks, `processCommissions` |
| `UnifiedJob` | `processJob`: the placement, the walks and the commissions |
| `Descendants`, `RegSearch`, `Registration`, `RegJob` | the registration queue worker |
| `CommissionQueue` | the commission queue worker |
| `PointJob` | the monthly pool distribution |
| `Shop`, `Carts`, `Wishlists`, `Orders`, `Rewards`, `Passwords` | the controllers |

The source is followed where its behaviour departs from what its messages or comments
suggest, except at the four defects under "## Findings". There the rest of the model runs
the corrected code, and the code as written is modelled beside it:
- **The pool update** (models/GlobalPointPool.js:35): the model file exports nothing, so a
  credit never reaches the month's pool. The model grows the pool (`Pools.UpdatePool`); as
  written: `Pools.UpdatePoolAsWritten`.
- **The monthly distribution** (jobs/GlobalPointPoolJob.js:20-27): it throws before paying
  anyone. The model shares last month's pool (`PointJob.Distributed`); as written:
  `PointJob.DistributedAsWritten`.
- **The reward check** (models/Wallet.js:214-230): the threshold schema has no
  `rewardPoints`, which the reward schema requires, so `reward.save()` throws, and the credit
  that reached the threshold is never saved. The model creates the reward with the
  threshold's reward points and saves the credit (`Store.CheckForReward`,
  `Store.CreditWallet`); as written: `Store.CreditWalletAsWritten`,
  `Credits.RunCreditsAsWritten` and `Rewards.RedeemedAsWritten`.
- **The order `createOrder` builds** (controllers/orderController.js:29-38): it has no
  `totalPoints`, which the order schema requires, so `order.save` throws, the transaction
  aborts and the answer is 500. The model places the order (`Orders.Ordered`); as written:
  `Orders.OrderedAsWritten`.

The cases followed as written:
- **Missing product in `createOrder`.** For a product that no longer exists, `createOrder`
  answers 500, not 400. Building the refusal message reads `product.name` of `null`, which
  throws.
- **`getRewardByUserId` always answers 200.** The array `find` returns is never falsy.
- **`depth` is not a path of the member schema.** The slot test of
  `unifiedQueue.findNextAvailableSpot` (`depth < 15`) therefore never passes on stored
  members. The model keeps that test as written: `Unified.NoDepthNoSlot` and
  `UnifiedJob.JobNeverPlaces` state the consequence, and the placement lemmas state what a
  job does whenever a slot is found.
- **A second wallet for one member.** The wallet hook creates a wallet whenever the saved
  document has no wallet reference, and a wallet's `userId` is unique. A stale copy saved
  after a fresh copy of the same member already received its wallet therefore throws.
  `Store.SaveThrows` states when, and the walks and jobs end where the source does.
- **`getUserWishlist` never saves.** `populate` leaves out of the array every id whose
  product is gone, so the filter for null keeps everything, the lengths agree and the
  pruning save never runs: the answer lists the existing products and the stored ids stay.

## Model

| member | source | states |
|---|---|---|
| Users.NewUser | models/User.js:17-117 | a new member has the schema defaults: no parent, children or referrals, level and counters 0, inactive, no wallet, club None, no rank, and its counters agree with its children |
| Users.FindFromTop | models/User.js:119-125 | the reversed-keys `find` yields the row with the highest threshold not above the count among the first n rows, or nothing when the count is below every one of them |
| Users.RankTableAscending | models/User.js:7-15 | the rank table rises strictly in both threshold and withdrawal limit |
| Users.RankForSpec | models/User.js:119-125 | a rank is selected exactly from three referrals on, and it is the highest table row the count reaches |
| Users.RankMonotone | models/User.js:7-15 | more referrals never give a lower rank or a smaller withdrawal limit |
| Users.RankHook | models/User.js:119-130 | the rank hook changes only rank and limit: an active member gets the rank and limit of its referred count, and an inactive member or one below three referrals keeps what it had |
| Users.RankHookIdempotent | models/User.js:119-130 | re-running the hook's re-save with an unchanged count changes nothing |
| Users.PatchUser | queues/processRegistrationQueue.js:27-36 | a save of a copy never changes which member is stored under the id |
| Users.PatchFresh | queues/processRegistrationQueue.js:27-31 | saving a copy that is still current writes the copy; saving an unmodified copy writes nothing |
| Wallets.NewWallet | models/User.js:132-140 | a wallet the wallet hook creates belongs to the member, holds nothing, has empty ledgers, and its ledger is consistent |
| Wallets.WithdrawableAmount | models/Wallet.js:96-103 | nothing below a monthly balance of 500; otherwise 90% of the whole rupees of the balance at 5 points a rupee, so never more than balance/5 |
| Wallets.ClubOf | models/Wallet.js:233-241 | Gold exactly from a monthly balance of 10000, Silver exactly from 5000 below 10000, None below 5000 |
| Wallets.ClubMonotone | models/Wallet.js:233-241 | a larger monthly balance never gives a lower club |
| Wallets.EligibleMonotone | models/Wallet.js:106-110 | more referrals and a larger monthly balance never make an eligible member ineligible |
| Wallets.CreditKeepsEligible | models/Wallet.js:106-110 | a credit of a non-negative amount keeps an eligible wallet eligible |
| Wallets.ResetEligible | models/Wallet.js:106-122 | the first reset of a new month makes every wallet ineligible; a reset within the month leaves eligibility as it was |
| Wallets.Reset | models/Wallet.js:113-122 | in a new month or year the monthly balance and the monthly incomes drop to 0 and the reset date moves; in the same month nothing changes |
| Wallets.ResetIdempotent | models/Wallet.js:113-122 | resetting twice is resetting once; the balance is untouched and the ledger stays consistent |
| Wallets.Credited | models/Wallet.js:124-199 | a credit raises the balance by the amount, the monthly balance only for a purchase credit, direct or level income by the amount according to the kind, and appends one credit transaction with the kind's description |
| Wallets.CreditedConsistent | models/Wallet.js:124-199 | a credit keeps the ledger invariant: the balance equals all credits less all processed withdrawals |
| Wallets.PointsFor | models/Wallet.js:276-277 | the points withdrawn for r rupees are the largest p with 0.9·p not above 5·r |
| Wallets.Request | models/Wallet.js:256-290 | a request fails above the withdrawable amount, then with a missing member, then when not eligible or above the rank limit, in that order; it succeeds exactly when all checks pass, and then a pending entry of the floored amount and its points is appended |
| Wallets.Process | models/Wallet.js:292-318 | an unknown entry is not found and a non-pending one is refused; processing succeeds exactly for a pending entry the withdrawable amount covers, marks only that entry processed and takes its points from the balance |
| Wallets.Reject | models/Wallet.js:320-336 | rejection succeeds exactly for a pending entry, marks only that entry rejected and moves no balance |
| Wallets.WithdrawalsConsistent | models/Wallet.js:256-336 | requests, processing and rejection all keep the ledger invariant |
| Wallets.WithdrawalFinal | models/Wallet.js:299-301 | processed and rejected entries are final: neither processing nor rejection applies to them again |
| Pools.Find | models/GlobalPointPool.js:25 | the pool found is the first with the month's key, and none is found exactly when no pool has it |
| Pools.FindOrCreate | models/GlobalPointPool.js:20-33 | the existing pool of the month is returned with the list unchanged; otherwise one pool with total 0 is appended and returned |
| Pools.FindOrCreateOnePerKey | models/GlobalPointPool.js:20-33 | find-or-create never gives two pools for one month and is idempotent |
| Pools.UpdatePoolEffect | models/Wallet.js:201-212 | the corrected pool update raises the month's total by exactly the amount, keeps every other month's total and keeps one pool per month |
| Pools.PoolUpdateLost | models/GlobalPointPool.js:35 | as written, a non-zero credit never reaches the month's pool: the month's total differs from the intended one |
| Store.SaveUser | models/User.js:119-140 | a member save writes only that member (its delta, then rank and limit from the hook), creates a wallet for a member without a reference and without a stored wallet, creates none when the save throws on a stored one, never creates one for another member, and keeps every other member, reward, threshold and pool |
| Store.SaveFresh | models/User.js:119-130 | saving a current copy stores the copy with the rank and limit the hook assigns from its referred count |
| Store.SaveKeepsShape | models/User.js:119-140 | a save that changes no tree link keeps the tree shape |
| Store.HighestThreshold | models/Wallet.js:215 | the threshold chosen has the highest points not above the balance, and none is chosen exactly when every threshold is above it |
| Store.CheckForReward | models/Wallet.js:214-230 | the corrected reward check of "## Findings": a reward for the highest threshold reached, carrying the threshold's reward points, is appended unless the member holds one already, and afterwards the member holds one |
| Store.CheckForRewardOnePerThreshold | models/Wallet.js:214-230 | the reward check only appends and never creates a second reward for one member and threshold |
| Store.AssignClub | models/Wallet.js:244-253 | only a Gold or Silver club is written, to that member only, and nothing else of the member changes besides status paths |
| Store.ClubNeverToNone | models/Wallet.js:249-252 | a club, once assigned, is never taken back to None |
| Store.CreditActive | models/Wallet.js:129-145 | crediting an active member's wallet stores the credited wallet, applies the corrected pool update of "## Findings" (the month's pool grows by the amount; as written it stays, `Pools.PoolUpdateLost`), runs the corrected reward check at the new balance (as written it throws, `Store.CreditLost`) and assigns the club of the new monthly balance |
| Store.CreditWallet | models/Wallet.js:124-199 | with the corrected reward check, a credit throws exactly when the wallet's member is not stored; an inactive member's wallet is left alone; otherwise the credit of an active member happens, and other wallets and rewards stay |
| Store.CreditWalletAsWritten | models/Wallet.js:124-230 | as written, a credit succeeds exactly when the member is stored and is not an active member whose new balance reaches a threshold it holds no reward for; no reward is ever created, and a failing credit stores no wallet and no member change |
| Store.CreditLost | models/Wallet.js:214-230 | when a reward is due, the credit as written fails with the wallets unchanged, while the corrected one stores the credited wallet and one more reward; otherwise both agree |
| Credits.StatusOnlyShape | models/Wallet.js:244-253 | credits change only status paths of members, so tree shape and activity are kept |
| Credits.Step | queues/unifiedQueue.js:200-203 | one credit skips a member without a wallet, keeps members keyed, the tree, activity and thresholds, and only appends rewards |
| Credits.RunCredits | queues/unifiedQueue.js:198-237 | a run of credits keeps the same facts, stopping at the first one that throws |
| Credits.RunCreditsCons | queues/unifiedQueue.js:198-237 | a run is its first credit followed, when that did not throw, by the rest |
| Credits.CreditIfWallet | queues/unifiedQueue.js:200-203 | the wallet lookup and credit equal one credit step |
| Credits.Each | queues/unifiedQueue.js:225-232 | one credit of the amount per listed member, in order |
| Credits.GainEach | queues/unifiedQueue.js:225-232 | a member listed once gains the amount, one not listed nothing |
| Credits.StepGain | models/Wallet.js:149-172 | a credit to a stored member completes, creates no wallet, and raises a balance by the amount exactly when it is that member's and the member is active |
| Credits.StepKeeps | models/Wallet.js:124-128 | a credit to a stored member never throws and keeps wallets under their owners |
| Credits.RunCreditsGain | queues/unifiedQueue.js:198-237 | a plan of credits to stored members completes, creates no wallet, and raises each active member's balance by exactly its total in the plan |
| Credits.CreditAndSave | queues/processCommissionQueue.js:22-26 | a credit through the wallet document plus the second save equals one credit step |
| Credits.StepAsWritten | models/Wallet.js:214-230 | one credit as written keeps members keyed and creates no reward; it throws whenever a reward is due and otherwise equals the corrected step |
| Credits.RunCreditsAsWritten | queues/unifiedQueue.js:198-237 | a run of credits as written never creates a reward |
| Credits.RunAgrees | queues/unifiedQueue.js:198-237 | a run as written completes exactly when no credit reached in it has a reward due and the corrected run completes, and with no reward due it equals the corrected run |
| Credits.RunCreditsGainAsWritten | queues/unifiedQueue.js:198-237 | as written, a plan of credits to stored members completes exactly when no reward falls due in it, and then raises each active member's balance by exactly its total in the plan |
| WalletDocs.WalletDoc.Load | models/Wallet.js:53-94 | the loaded document carries the stored wallet's values |
| WalletDocs.WalletDoc.Save | models/Wallet.js:145 | saving replaces the stored wallet with the document's values |
| WalletDocs.WalletDoc.IsEligibleForWithdrawal | models/Wallet.js:106-110 | a missing member throws; otherwise the answer is the eligibility rule |
| WalletDocs.WalletDoc.ResetMonthlyBalance | models/Wallet.js:113-122 | the document becomes its monthly reset |
| WalletDocs.WalletDoc.UpdateGlobalPointPool | models/Wallet.js:201-212 | the store's pools become the corrected pool update |
| WalletDocs.WalletDoc.CheckForReward | models/Wallet.js:214-230 | the rewards become the reward check at the document's balance, keeping one reward per threshold |
| WalletDocs.WalletDoc.AssignClubMembership | models/Wallet.js:244-253 | the store becomes the club assignment of the document's tier |
| WalletDocs.WalletDoc.BookFields | models/Wallet.js:129-139 | the document becomes its credited value |
| WalletDocs.WalletDoc.BookCredit | models/Wallet.js:129-145 | the document is credited and the store becomes the effects of an active credit |
| WalletDocs.WalletDoc.Credit | models/Wallet.js:124-128 | document, store and outcome are those of the credit function |
| WalletDocs.WalletDoc.AddDirectIncomePersonal | models/Wallet.js:124-147 | a purchase credit, as the credit function states |
| WalletDocs.WalletDoc.AddDirectIncome | models/Wallet.js:149-172 | a referral credit, as the credit function states |
| WalletDocs.WalletDoc.AddLevelIncome | models/Wallet.js:174-199 | a level credit, as the credit function states |
| WalletDocs.WalletDoc.WithdrawRequest | models/Wallet.js:256-290 | a refused request changes nothing and returns the refusal; an accepted one returns the new pending entry and saves the wallet |
| WalletDocs.WalletDoc.Withdraw | models/Wallet.js:292-318 | a refusal changes nothing; otherwise the processed wallet is saved and its entry returned |
| WalletDocs.WalletDoc.Reject | models/Wallet.js:320-336 | a refusal changes nothing; otherwise the rejected wallet is saved and its entry returned |
| Tree.ExistingFrom | queues/unifiedQueue.js:257 | the `$in` query returns each existing listed id once, and no other |
| Tree.Kids | queues/unifiedQueue.js:257 | a member's existing children, each once |
| Tree.Sub | queues/unifiedQueue.js:249-259 | a subtree holds its top and only stored members |
| Tree.Below | queues/unifiedQueue.js:157-165 | the `$graphLookup` result holds only stored members |
| Tree.NotBelowItself | queues/unifiedQueue.js:157-165 | on an acyclic tree a member is never its own descendant |
| Tree.ChainDescends | queues/unifiedQueue.js:216-223 | the ancestor chain holds stored members only, strictly descending in rank, without repetition and without the member itself |
| Tree.Bfs | queues/unifiedQueue.js:249-259 | the queue loop dequeues only stored members |
| Tree.BfsCovers | queues/unifiedQueue.js:249-259 | the breadth-first order dequeues exactly the members of the queued members' subtrees |
| Tree.AddLeaf | queues/unifiedQueue.js:69-73 | attaching a member changes no member set |
| Tree.UnplacedOutside | queues/unifiedQueue.js:47-55 | a member nobody links to is in no other member's subtree or ancestry |
| Tree.AddLeafAcyclic | queues/unifiedQueue.js:69-75 | attaching an unplaced member below a member keeps the tree acyclic |
| Tree.AddLeafChain | queues/unifiedQueue.js:69-75 | attaching a member leaves every other member's ancestors as they were |
| Tree.AddLeafChainOfLeaf | queues/unifiedQueue.js:69-78 | the attached member's ancestors are the slot and the slot's ancestors |
| Tree.SubAddLeafMember | queues/unifiedQueue.js:157-165 | after attachment a member is in x's subtree exactly when it was before, or it is the attached member and the slot is in x's subtree |
| Tree.SubAddLeaf | queues/unifiedQueue.js:157-165 | attachment adds the member to exactly the subtrees holding the slot |
| Tree.KidsAddLeaf | queues/unifiedQueue.js:69-75 | attachment adds the member to the slot's existing children and nowhere else |
| Tree.BelowIsSubLess | queues/unifiedQueue.js:157-165 | the `$graphLookup` set is the subtree without its top |
| Tree.BelowAddLeaf | queues/unifiedQueue.js:157-165 | attachment adds the member, not there before, to exactly the `$graphLookup` sets of the slot's ancestors and the slot |
| Tree.AddLeafCount | queues/unifiedQueue.js:157-165 | attachment raises the `$graphLookup` count by one for exactly the members whose subtree holds the slot |
| Unified.ProcessWithRetry | queues/unifiedQueue.js:24-43 | the job runs 1 to 3 times; it succeeds exactly when one of the three attempts does, returning the first success; otherwise after three failures it throws the max-retries error; the backoffs are 2^k seconds after the k-th failure; the attempts' outcomes are given, not composed with the job (see "## Left out") |
| Unified.BackoffSchedule | queues/unifiedQueue.js:33 | the three backoffs are 2, 4 and 8 seconds |
| Unified.FirstOpenAt | queues/unifiedQueue.js:250-255 | the position found passes the slot test and none before it does; nothing is found exactly when no member passes |
| Unified.FirstOpen | queues/unifiedQueue.js:250-255 | the member found passes the slot test, and none is found exactly when no member of the order passes it |
| Unified.Climb | queues/unifiedQueue.js:261-263 | the starts of the scans are stored members |
| Unified.SpotFound | queues/unifiedQueue.js:239-275 | a slot is found exactly when some member of the subtree of the start or of one of its ancestors passes the slot test, and the slot found passes it and lies in such a subtree |
| Unified.NoDepthNoSlot | queues/unifiedQueue.js:252 | with no stored depth values the search never finds a slot |
| Unified.FirstOpenStep | queues/unifiedQueue.js:250-258 | one queue step: the head is tested, otherwise its children are queued |
| Unified.ScanSubtree | queues/unifiedQueue.js:249-259 | the inner queue loop returns the first member that passes the slot test in breadth-first order of the subtree |
| Unified.FindNextAvailableSpot | queues/unifiedQueue.js:239-275 | the method returns the search function's result and writes nothing |
| Unified.CommissionShares | queues/unifiedQueue.js:198-232 | a member's share of the plan is its points when it is the buyer, plus a fifth when it is the referrer, plus a twentieth when it is an ancestor, the referrer included |
| Unified.CommissionPlanToMembers | queues/unifiedQueue.js:205-223 | every commission goes to a stored member |
| Unified.CommissionGain | queues/unifiedQueue.js:198-237 | the commissions complete, create no wallet and raise each active member's balance by exactly its share |
| Unified.CommissionGainAsWritten | queues/unifiedQueue.js:198-237 | as written, the commissions complete exactly when no reward falls due in them, and then each active member gains exactly its share |
| Unified.CollectParents | queues/unifiedQueue.js:216-223 | the `parents` loop collects the ancestors, nearest first |
| Unified.PayLevels | queues/unifiedQueue.js:225-232 | the level loop makes one level credit per ancestor in order |
| Unified.ProcessCommissions | queues/unifiedQueue.js:198-237 | a missing user throws and writes nothing; otherwise the credits of the plan are made in order |
| Unified.BookkeepingShape | queues/unifiedQueue.js:99-196 | count and level writes keep the tree and the referrer lookup |
| Unified.SaveBookkeeping | queues/unifiedQueue.js:185-191 | saving a copy with unchanged links is a bookkeeping write |
| Unified.DescendantsCounted | queues/unifiedQueue.js:153-183 | the member's descendant count becomes the size of the `$graphLookup`, nothing else changes, and an unknown member changes nothing |
| Unified.ReferredCounted | queues/unifiedQueue.js:185-196 | the referred count becomes the referral list's length, the rank follows it through the hook, other counters and members stay, only that member's wallet can be created, and an unknown member changes nothing |
| Unified.Recounted | queues/unifiedQueue.js:99-110 | recounting writes bookkeeping only and keeps the tree |
| Unified.RecountedEffect | queues/unifiedQueue.js:99-110 | each listed member gets its descendant count from the links and every other member is unchanged |
| Unified.UpdateAncestorsDescendantCount | queues/unifiedQueue.js:99-110 | the loop refreshes the descendant count of the member and of each ancestor |
| Unified.ChildLevels | queues/unifiedQueue.js:124-127 | children's levels are read exactly when every child is stored, in order |
| Unified.ChildLevelsSame | queues/unifiedQueue.js:124-127 | stores that agree on members and levels read the same child levels |
| Unified.CountsRefreshed | queues/unifiedQueue.js:118-119 | the two count refreshes fix x's descendant and referred counts, give x a wallet reference exactly when it had one or no wallet was stored, create only x's wallet, and change nothing else |
| Unified.VisitSave | queues/unifiedQueue.js:120-141 | the save at the end of a visit writes the child count, completeness and level while the fresh counts stay |
| Unified.Rise | queues/unifiedQueue.js:129-133 | the rise exists exactly when the three children are stored, and it is their smallest level plus one |
| Unified.VisitAt | queues/unifiedQueue.js:117-141 | a visit refreshes x's counts and writes only x; it throws exactly when the referred-count save hits a stored wallet of a member without a reference, on a missing child of a full member, or when the stale copy of a member without a reference is saved after the refresh created its wallet; it stops exactly when the full member's level is already its rise, and otherwise writes level 0 for fewer than three children or the capped rise |
| Unified.RefreshKeepsRise | queues/unifiedQueue.js:118-129 | the count refreshes do not change the rise |
| Unified.RefreshedSave | queues/unifiedQueue.js:118-141 | the counters of x are refreshed and x saved with the given level, nothing else written |
| Unified.AncestorsWalk | queues/unifiedQueue.js:112-151 | the walk writes bookkeeping only |
| Unified.WalkConfined | queues/unifiedQueue.js:112-151 | the walk writes only the member and its ancestors |
| Unified.WalkEarlyStop | queues/unifiedQueue.js:129-131 | at the early stop the walk completes exactly when the member's referred-count save does not throw, and writes only that member's counts, leaving every higher ancestor alone |
| Unified.WalkCounts | queues/unifiedQueue.js:112-145 | the walk visits the first n members of the path to the root, at least the start when it is stored; each visited member then holds its `$graphLookup` count and the length of its referred list, and every member above them is as it was |
| Unified.WalkUnvisited | queues/unifiedQueue.js:112-145 | a member the walk did not visit is as it was |
| Unified.Visit | queues/unifiedQueue.js:117-144 | one loop pass equals the visit function |
| Unified.UpdateAncestors | queues/unifiedQueue.js:112-151 | the loop equals the walk function |
| UnifiedJob.Linked | queues/unifiedQueue.js:70 | the first update activates the member and links it to the slot, changing no other link or activity |
| UnifiedJob.ChildPushed | queues/unifiedQueue.js:71 | the second update adds the member to the slot's children only |
| UnifiedJob.ReferralPushed | queues/unifiedQueue.js:72 | the third update appends the member to the sponsor's referral list only |
| UnifiedJob.Placed | queues/unifiedQueue.js:69-75 | the bulk write attaches the member below the slot, activates it and extends the sponsor's referrals; other activity, every member's descendant and referred counts, and all wallets stay |
| UnifiedJob.SlotNotMember | queues/unifiedQueue.js:55 | the slot found is never the new member |
| UnifiedJob.Activated | queues/unifiedQueue.js:81-85 | without a parent, only the member's flag is set |
| UnifiedJob.Commissioned | queues/unifiedQueue.js:89-90 | the commission step changes only status paths and never answers "no spot" |
| UnifiedJob.Counted | queues/unifiedQueue.js:66-67 | the writes before the bulk write are bookkeeping only; they leave the slot and each of its ancestors with the descendant count of the old tree, and the sponsor with the length of its old referred list |
| UnifiedJob.CountedCounts | queues/unifiedQueue.js:66-67 | the counts the two writes leave, member by member |
| UnifiedJob.AttachedCounts | queues/unifiedQueue.js:59-75 | after the bulk write each member of the path from the slot keeps the old count: one short of the new tree's count when its old subtree held the slot and the member is stored |
| UnifiedJob.AttachedReferredCount | queues/unifiedQueue.js:66-72 | after the bulk write the sponsor's referred count is one short of its referred list |
| UnifiedJob.WalkedCounts | queues/unifiedQueue.js:66-78 | the level walk from the member refreshes the first n members of the member's path (the member, the slot, then the slot's ancestors) from the new tree; every member above them, and the sponsor unless visited, keeps what the bulk write left |
| UnifiedJob.PlacedAfter | queues/unifiedQueue.js:69-75 | the bulk write on a store whose bookkeeping has changed still attaches the member to the original tree and keeps wallets and the referrer |
| UnifiedJob.Attached | queues/unifiedQueue.js:66-75 | after the counts and the bulk write the tree is the old one with the member attached, still acyclic, and the sponsor has one more referral |
| UnifiedJob.Walked | queues/unifiedQueue.js:66-78 | the level walk from the member preserves the placement |
| UnifiedJob.PlacedRun | queues/unifiedQueue.js:66-92 | a job whose search found a slot never answers "no spot" |
| UnifiedJob.PayCommissions | queues/unifiedQueue.js:89-90 | the method equals the commission step |
| UnifiedJob.PlaceMember | queues/unifiedQueue.js:66-92 | the method equals the placement run |
| UnifiedJob.ProcessJob | queues/unifiedQueue.js:45-97 | the job method equals the job function |
| UnifiedJob.PlacedRunPlacement | queues/unifiedQueue.js:66-78 | once the sponsor's refresh saved, whatever the walks and commissions do, the tree is the old one with the member attached below the slot, acyclic; the member is active with the slot as parent; the sponsor has one more referral; no other activity changes |
| UnifiedJob.JobPlacement | queues/unifiedQueue.js:49-79 | a job whose search finds a slot throws the duplicate-key error with only the sponsor's refresh written and the tree unchanged when the sponsor's refresh throws, and otherwise links the member below the slot as above |
| UnifiedJob.JobOutcomes | queues/unifiedQueue.js:49-59 | a missing sponsor throws; the job answers "no spot" exactly when the search finds none; with no slot found nothing is written |
| UnifiedJob.JobNeverPlaces | queues/unifiedQueue.js:61-64 | with no stored depth values, a job with a sponsor writes nothing and never completes |
| UnifiedJob.CommissionedGain | queues/unifiedQueue.js:89-90 | the commission step completes and pays each active member its share |
| UnifiedJob.PlacedRunCompleted | queues/unifiedQueue.js:66-92 | a completed placement's sponsor refresh saved, its walk did not throw, and then it paid the commissions |
| UnifiedJob.AttachedGain | queues/unifiedQueue.js:89-90 | after attachment the commission shares follow the new ancestors: the slot and the slot's ancestors |
| UnifiedJob.PlacedGain | queues/unifiedQueue.js:66-92 | a completed placement pays the member its points, the referrer a fifth and the slot and each of its ancestors a twentieth, on top of the old balances |
| UnifiedJob.JobGain | queues/unifiedQueue.js:45-97 | a completed job with a sponsor pays those shares |
| UnifiedJob.ActivationGain | queues/unifiedQueue.js:80-92 | a job without a sponsor completes, activates the member and pays the shares of its existing ancestors |
| Descendants.SiblingsDisjoint | queues/processRegistrationQueue.js:132-134 | on a well-formed tree the subtrees of two children are disjoint |
| Descendants.ChildrenTotalIsUnion | queues/processRegistrationQueue.js:129-134 | the counts of listed children add up to the size of their subtrees less one each |
| Descendants.TotalIsBelow | queues/processRegistrationQueue.js:122-137 | on a well-formed tree the recursive count equals the `$graphLookup` count, the subtree's size less one |
| Descendants.TotalOfLeaf | queues/processRegistrationQueue.js:123-129 | a missing member or one without children counts 0 |
| Descendants.AddLeafProper | queues/processRegistrationQueue.js:30-35 | attaching a new leaf keeps the tree well formed |
| RegSearch.Insert | queues/processRegistrationQueue.js:76 | insertion adds exactly one element, so the multiset grows by it |
| RegSearch.InsertSorted | queues/processRegistrationQueue.js:76 | insertion keeps a sorted list sorted |
| RegSearch.SortBy | queues/processRegistrationQueue.js:71-76 | the sorted children are the children |
| RegSearch.SortByPermutes | queues/processRegistrationQueue.js:76 | the sort yields a permutation in ascending descendant count |
| RegSearch.SortByStable | queues/processRegistrationQueue.js:76 | the sort is stable: equal counts keep their listed order |
| RegSearch.SortBySorted | queues/processRegistrationQueue.js:76 | already sorted children are tried in their listed order |
| RegSearch.SearchInNone | queues/processRegistrationQueue.js:78-81 | the loop yields nothing exactly when every child yields nothing |
| RegSearch.SearchInFirst | queues/processRegistrationQueue.js:78-81 | a result of the loop is that of the first child that yields one |
| RegSearch.SearchSound | queues/processRegistrationQueue.js:59-85 | a slot found lies in the start's subtree and has fewer than three children |
| RegSearch.SearchInSound | queues/processRegistrationQueue.js:78-84 | a slot the loop finds lies in the top's subtree and has fewer than three children |
| RegSearch.SearchComplete | queues/processRegistrationQueue.js:59-85 | finding nothing means every member of the subtree has three children or more |
| RegSearch.SearchCrash | queues/processRegistrationQueue.js:71-74 | a search throws only when a full member of the subtree lists a missing child |
| RegSearch.SlotNotMember | queues/processRegistrationQueue.js:22 | the slot found from the sponsor is never the new member |
| RegSearch.RecursiveSearch | queues/processRegistrationQueue.js:59-85 | the recursive method equals the search function |
| RegSearch.FindNextAvailableSpot | queues/processRegistrationQueue.js:50-88 | the method equals the search, and an unknown start yields null |
| Registration.GetTotalDescendants | queues/processRegistrationQueue.js:122-137 | the method equals the recursive descendant count |
| Registration.NewLevel | queues/processRegistrationQueue.js:101-113 | fewer or more than three children give level 0; with three, the level exists exactly when all are stored and is the capped smallest child level plus one |
| Registration.Recomputed | queues/processRegistrationQueue.js:96-113 | the recomputed copy keeps the links and has fresh counters |
| Registration.RegVisit | queues/processRegistrationQueue.js:95-118 | a visit throws exactly when the level cannot be read, and otherwise writes only x with fresh counters and the new level, and stores a wallet only for x (the save's wallet hook) |
| Registration.RegWalk | queues/processRegistrationQueue.js:90-120 | the walk writes bookkeeping only and keeps the tree's links; it stops with failure at a visit that cannot read its level or whose save at line 115 throws on a duplicate wallet |
| Registration.RegWalkConfined | queues/processRegistrationQueue.js:90-120 | the walk writes only the member and its ancestors |
| Registration.ChildLevelsAgree | queues/processRegistrationQueue.js:102-105 | stores agreeing on the children read the same levels |
| Registration.VisitRule | queues/processRegistrationQueue.js:96-113 | a visit's level follows the rule from its children's current levels |
| Registration.RegWalkRefreshed | queues/processRegistrationQueue.js:90-120 | after a completed walk every member on the path has fresh counters and the rule's level, and its descendant count is the `$graphLookup` count |
| Registration.RegWalkCompletes | queues/processRegistrationQueue.js:102-115 | on a well-formed tree no visit throws before its save, and the walk completes exactly when no member on the path has a stored wallet but no wallet reference |
| Registration.VisitKeepsUnlinked | queues/processRegistrationQueue.js:115-117 | a visit's save changes no other path member's wallet reference or wallets, so the path above completes as before |
| Registration.Visit | queues/processRegistrationQueue.js:96-115 | one loop pass equals the visit function |
| Registration.UpdateAncestors | queues/processRegistrationQueue.js:90-120 | the loop equals the walk function |
| RegJob.MemberSaved | queues/processRegistrationQueue.js:27-31 | the member's save activates it and sets its parent and nothing else in the tree; its wallet hook creates a wallet only for the member, exactly when it had no wallet reference |
| RegJob.SlotSaved | queues/processRegistrationQueue.js:33-35 | the slot's save adds the member to its children only; its wallet hook creates a wallet only for the slot, exactly when it had no wallet reference |
| RegJob.SponsorSaved | queues/processRegistrationQueue.js:34-36 | the sponsor's save appends the member to its referrals only, and leaves the sponsor linked to its wallet when the save does not throw |
| RegJob.Linked | queues/processRegistrationQueue.js:27-35 | the member's and slot's saves attach the member below the slot and activate it |
| RegJob.Saved3 | queues/processRegistrationQueue.js:27-36 | the three saves give the old tree with the member attached, still acyclic, the member active and the sponsor with one more referral |
| RegJob.PlacedRun | queues/processRegistrationQueue.js:27-42 | a placement that does not throw answers "activated"; one whose save throws on a duplicate wallet answers the wrapped duplicate-key error |
| RegJob.Saves | queues/processRegistrationQueue.js:27-36 | when all three saves succeed the store is the three-save result |
| RegJob.SavesComplete | queues/processRegistrationQueue.js:27-36 | the three saves succeed exactly when neither the member nor the slot has a stored wallet but no wallet reference, and the sponsor's loaded document either has a wallet reference or has no wallet stored even after the slot's save (which creates one when the slot is the sponsor) |
| RegJob.SaveThree | queues/processRegistrationQueue.js:27-36 | the three sequential saves equal the saves function |
| RegJob.SavedLinks | queues/processRegistrationQueue.js:27-36 | the three saves change no other member's wallet link |
| RegJob.SavedLinked | queues/processRegistrationQueue.js:27-36 | after three successful saves the slot and sponsor are linked to their wallets |
| RegJob.SavesThrowWrites | queues/processRegistrationQueue.js:27-36 | what a throwing save leaves written, since each save writes before its hook throws: a throw at the member's save leaves the member active below the slot but not in the slot's children nor the sponsor's referrals; a throw at the slot's save leaves the member attached without the referral; a throw at the sponsor's save leaves all three writes |
| RegJob.JobSaveThrows | queues/processRegistrationQueue.js:22-44 | a job whose save throws answers the wrapped duplicate-key error with the partial writes kept |
| RegJob.PathLinks | queues/processRegistrationQueue.js:27-38 | after the saves the slot's ancestry is unchanged and its members' wallet links are as before |
| RegJob.ProcessRegistration | queues/processRegistrationQueue.js:6-47 | the job method equals the job function |
| RegJob.JobOutcomes | queues/processRegistrationQueue.js:10-25 | no sponsor answers success with nothing written; a missing sponsor, a level-15 sponsor and a failed search each answer as the source does with nothing written; any write means a slot was found |
| RegJob.JobPlacement | queues/processRegistrationQueue.js:22-38 | the slot is in the sponsor's subtree with fewer than three children, and when no save throws the member is attached there, active, in the sponsor's referrals |
| RegJob.PlacedPath | queues/processRegistrationQueue.js:33-38 | after attachment the walk from the slot is the slot and its ancestors, and passes the sponsor |
| RegJob.JobRefreshesPath | queues/processRegistrationQueue.js:22-42 | on a well-formed tree a placement answers "activated" exactly when no save throws, neither in the three saves nor at line 115 of the walk; then the sponsor's referred count and slot's child count grow by one, and every member on the path has fresh counters and the rule's level |
| CommissionQueue.LevelPayees | queues/processCommissionQueue.js:55-60 | the level payees are the ancestors other than the direct referrer |
| CommissionQueue.CommissionRun | queues/processCommissionQueue.js:9-77 | the worker changes only status paths and only appends rewards |
| CommissionQueue.CommissionShares | queues/processCommissionQueue.js:21-74 | a member's share is the points as buyer, a fifth as referrer, and a twentieth as an ancestor that is not the referrer |
| CommissionQueue.CommissionPlanToMembers | queues/processCommissionQueue.js:49-74 | every credit goes to a stored member |
| CommissionQueue.CommissionGain | queues/processCommissionQueue.js:9-77 | an unknown id throws "User not found" with nothing written; otherwise the job completes and each active member gains exactly its share |
| CommissionQueue.CommissionGainAsWritten | queues/processCommissionQueue.js:21-74 | as written, the worker's credits complete exactly when no reward falls due in them, and then each active member gains exactly its share |
| CommissionQueue.ReferrerPaidOnce | queues/processCommissionQueue.js:32-60 | the referrer gains a fifth exactly once, even when it is also an ancestor |
| CommissionQueue.PayReferrer | queues/processCommissionQueue.js:32-47 | the referrer's commission is a completed run of its credit |
| CommissionQueue.CommissionSteps | queues/processCommissionQueue.js:21-74 | the plan runs as the worker makes it: the own credit, then the referrer's, neither throwing, then the level credits |
| CommissionQueue.PayAncestors | queues/processCommissionQueue.js:49-74 | the loop pays each ancestor other than the referrer the level commission and completes |
| CommissionQueue.ProcessCommission | queues/processCommissionQueue.js:9-77 | the worker method equals the run function |
| PointJob.PreviousMonthAndYear | jobs/GlobalPointPoolJob.js:7-12 | the key is the 1-based month before now, with its year, and the month after it is now |
| PointJob.Qualifying | jobs/GlobalPointPoolJob.js:31-36 | the query returns exactly the Silver, Gold or Crown members, each once |
| PointJob.Referencing | jobs/GlobalPointPoolJob.js:49-50 | the members whose document references a wallet, each once |
| PointJob.PerUser | jobs/GlobalPointPoolJob.js:46 | the n shares never exceed 1% of the pool and one more member's worth would |
| PointJob.LastMonthTotal | jobs/GlobalPointPoolJob.js:20-24 | a total exists exactly when last month's pool exists |
| PointJob.Distributed | jobs/GlobalPointPoolJob.js:15-63 | the distribution changes only status paths |
| PointJob.DistributionGain | jobs/GlobalPointPoolJob.js:38-58 | without a pool or a qualifying member nothing changes; otherwise each active qualifying member with a wallet gains exactly the share and every other balance stays |
| PointJob.DistributionLost | jobs/GlobalPointPoolJob.js:27 | as written, a member the intended run pays keeps its balance |
| PointJob.DistributePoints | jobs/GlobalPointPoolJob.js:15-63 | the method equals the corrected distribution |
| Shop.Others | controllers/cartController.js:81 | the filter keeps exactly the entries of other products and keeps one entry per product |
| Carts.Fix | controllers/cartController.js:21-28 | one entry becomes at most one |
| Carts.Normalised | controllers/cartController.js:15-29 | the pass never lengthens a cart and leaves only entries the catalogue can honour |
| Carts.NormalisedShrinks | controllers/cartController.js:15-29 | the pass only drops entries and lowers quantities, keeping order |
| Carts.NormalisedOnePerProduct | controllers/cartController.js:15-29 | one entry per product stays so |
| Carts.NormalisedUnchanged | controllers/cartController.js:31-33 | the cart changes exactly when one of its entries cannot be honoured |
| Carts.NormalisedIdempotent | controllers/cartController.js:7-39 | passing twice is passing once |
| Carts.NormalisedAppend | controllers/cartController.js:17-29 | the pass distributes over concatenation |
| Carts.GetCart | controllers/cartController.js:7-39 | the method equals the cart read, saving only when something changed |
| Carts.Pass | controllers/cartController.js:15-29 | the splice loop gives the normalised cart and reports a change exactly when it differs |
| Carts.FirstEntry | controllers/cartController.js:56 | the index found is the first entry for the product, and none exactly when there is no entry |
| Carts.RemoveOutcome | controllers/cartController.js:72-88 | 404 exactly without a cart and then nothing written; otherwise exactly the other products' entries remain, one per product stays so, and no other cart changes |
| Carts.ClearCart | controllers/cartController.js:91-105 | 404 exactly without a cart and then nothing written; otherwise the cart is empty |
| Carts.AddSetsQuantity | controllers/cartController.js:42-69 | 200 exactly when the product exists with enough stock; then its first entry asks for the quantity, other entries and carts stay, one entry per product stays; on 400 nothing is written |
| Carts.WithQuantityEntry | controllers/cartController.js:56-62 | setting or pushing the entry leaves the product's first entry at the quantity and the others alone |
| Carts.QuantityReplaced | controllers/cartController.js:58-59 | overwriting the existing entry keeps its position |
| Carts.QuantityPushed | controllers/cartController.js:60-61 | a pushed entry becomes the first entry for the product |
| Carts.RemoveAfterAdd | controllers/cartController.js:42-88 | adding then removing a product is removing it alone |
| Wishlists.AddToWishlist | controllers/wishlistController.js:5-29 | 404 exactly for a missing product and then nothing written; otherwise the wishlist holds what it held plus the id, unchanged when it had it, without duplicates |
| Wishlists.AddIdempotent | controllers/wishlistController.js:20-22 | adding twice is adding once |
| Wishlists.Available | controllers/wishlistController.js:40 | exactly the ids that still name a product remain, all of them exactly when all do, without duplicates |
| Wishlists.AvailableInOrder | controllers/wishlistController.js:40 | the pruning keeps the stored order |
| Wishlists.GetWishlist | controllers/wishlistController.js:31-51 | 404 exactly without a wishlist; otherwise the existing products among the stored ids, in the stored order, all of them exactly when every id still names a product, and nothing is written |
| Wishlists.AvailableAll | controllers/wishlistController.js:42 | when every id names a product nothing is dropped |
| Wishlists.GetTwice | controllers/wishlistController.js:31-51 | a read writes nothing, so a second read answers as the first |
| Wishlists.RemoveFromWishlist | controllers/wishlistController.js:53-70 | 404 exactly without a wishlist; otherwise exactly the other ids remain |
| Wishlists.ClearWishlist | controllers/wishlistController.js:72-86 | 404 exactly without a wishlist; otherwise it is empty |
| Wishlists.RemoveAfterAdd | controllers/wishlistController.js:5-70 | after add then remove the id is gone and exactly the other ids held before remain |
| Orders.ParseInt | controllers/orderController.js:26 | `parseInt` truncates toward zero |
| Orders.Refusal | controllers/orderController.js:21-27 | no refusal exactly when every entry can be served; a refusal is 400 or 500 |
| Orders.RefusalAppend | controllers/orderController.js:21-27 | the first refusal of a + b is a's, if any, else b's |
| Orders.Decremented | controllers/orderController.js:40-44 | the second loop keeps the product set |
| Orders.StockTaken | controllers/orderController.js:40-44 | every product's stock drops by exactly what the entries ask of it |
| Orders.AskedOnce | controllers/orderController.js:40-44 | with one entry per product, the product's entry asks its quantity |
| Orders.AskedNone | controllers/orderController.js:40-44 | a product with no entry is asked nothing |
| Orders.StockNeverNegative | controllers/orderController.js:21-44 | with the corrected order of "## Findings", an order takes each product's quantity once and never takes stock below zero; other products keep theirs |
| Orders.OrderPlacement | controllers/orderController.js:9-57 | with the corrected order of "## Findings", an order is placed exactly when the cart has entries and all can be served; then the cart is empty and the new Pending order with the entries and their total is last; otherwise nothing is written and the answer is 400 or 500 |
| Orders.CreateOrder | controllers/orderController.js:9-57 | the method equals the corrected order function |
| Orders.OrderedAsWritten | controllers/orderController.js:9-57 | as written nothing is ever written: 400 exactly for a missing or empty cart or an entry short of stock, 500 otherwise |
| Orders.OrderLost | controllers/orderController.js:29-38 | where the corrected order answers 200 and adds an order, the order as written answers 500 with nothing written; otherwise both agree |
| Orders.TakeStock | controllers/orderController.js:40-44 | the loop equals the decrement function |
| Orders.ParseStatus | controllers/orderController.js:78-80 | a parsed status spells the input, and every spelling parses to its status |
| Orders.UpdateStatus | controllers/orderController.js:75-101 | 400 exactly for an invalid status, 404 for an unknown order, 200 exactly for a caller who placed it or is an admin; only the status changes, nothing on refusal |
| Orders.Cancel | controllers/orderController.js:104-130 | 404 exactly for an unknown order; 200 exactly for a permitted caller on a Pending or Shipped order, which becomes Cancelled; nothing changes otherwise |
| Orders.CancelOnce | controllers/orderController.js:119-121 | a cancelled order cannot be cancelled again |
| Orders.UpdateReopens | controllers/orderController.js:94-95 | a delivered order is refused cancellation but may be set back to Pending |
| Rewards.RewardsOf | controllers/rewardController.js:8 | exactly the member's rewards |
| Rewards.RewardsByUser | controllers/rewardController.js:5-18 | always 200 with exactly the member's rewards |
| Rewards.RedeemReward | controllers/rewardController.js:21-49 | the method equals the redemption function |
| Rewards.RedeemOutcome | controllers/rewardController.js:21-49 | 404 exactly for an unknown reward and 400 exactly for a redeemed one, with nothing written; otherwise the reward is redeemed, other rewards stay, and 500 exactly when its wallet's member is missing |
| Rewards.RedeemOnce | controllers/rewardController.js:30-32 | a second redemption answers 400 with nothing written |
| Rewards.RedeemGain | controllers/rewardController.js:38-43 | an active member's wallet gains exactly the reward points and monthly balances stay |
| Rewards.RedeemedAsWritten | controllers/rewardController.js:21-49 | as written, the flag of an existing unredeemed reward is set and saved, and no reward is ever created |
| Rewards.RedeemLost | controllers/rewardController.js:29-46 | when the redemption's credit has a reward due, as written the reward is marked redeemed and the answer is 500 with no wallet changed; otherwise it agrees with the corrected redemption |
| Rewards.DirectKeepsMonthly | models/Wallet.js:149-172 | a referral credit leaves monthly balances alone |
| Passwords.CheckPassword | controllers/userController.js:10-12 | a refusal carries the weak-password message |
| Passwords.ScanMeaning | controllers/userController.js:10 | the regex scan accepts exactly the all-letters-or-digits inputs with a letter and a digit |
| Passwords.CheckMeaning | controllers/userController.js:10-12 | a password passes exactly when it has 8+ characters, all ASCII letters or digits, with at least one of each |
| Passwords.CheckExamples | controllers/userController.js:10-12 | "abcd1234" passes |
| Passwords.RefusesNoDigit | controllers/userController.js:10-12 | "abcdefgh", which has no digit, is refused |
| Passwords.RefusesOthers | controllers/userController.js:10-12 | "abc 1234" (a space) and "ab12" (too short) are refused |

## Left out

- I/O, logging, HTTP responses beyond the status code and returned values, and the
  success/error middlewares.
- Concurrency:
  - Bull queues, their locks and concurrency setting, the cron schedule and the backoff
    sleep; jobs are modelled one at a time;
  - the unawaited `addDirectIncome` in `jobs/GlobalPointPoolJob.js:53`, modelled as
    awaited;
  - the members' post-save hooks' un-awaited re-saves, modelled as completing before the
    next step.
- Clocks are a `Date` parameter (`now`). `find` order is a parameter (`order`). Document
  ids are strings or indices, so an invalid ObjectId (a cast error) is not modelled.
- Floating point: points, prices and balances are Dafny `real`, exact. `parseInt` is
  modelled for numbers written without an exponent.
- Schema validation beyond the two missing required paths of "## Findings" (`totalPoints`
  of an order, `rewardPoints` of a reward) and `depth`, which is no schema path, so the bulk
  write's `depth` `$set` is dropped.
- Common.TypeError is the leading part of the runtime's message; the property it names in
  parentheses, which depends on the site, is left out.
- Tree.ExistingFrom: the database promises no order for an `$in` query; the model fixes the
  order of first occurrence. The slot search it feeds finds no slot on stored members
  (`Unified.NoDepthNoSlot`), so no stated result depends on that order.
- Transactions and sessions: a refusal inside `createOrder` aborts, which writes nothing,
  and so does the model.
- What the model assumes of the jobs' inputs:
  - members stored under their ids;
  - the links form a forest;
  - a member to be placed is new to the tree (`UnifiedJob.JobReady`, `RegJob.RegReady`);
  - for the registration walk's completion, a well-formed tree (`Descendants.Proper`).
- bcrypt hashing, JWT, token blacklist and authorisation middleware; the caller's id and
  admin flag are parameters.
- Strings are sequences of Dafny characters, not UTF-16 units.
- Controllers outside the core: catalogue, reviews, bank details, admin, auth, `getUserOrders`
  and the other user handlers.
- Users.PatchUser: only states the identity kept; what a save writes is stated through
  `Users.PatchFresh` and `Store.SaveUser`.
- Carts.Fix: states only that one entry gives at most one; its meaning is stated through
  `Carts.Normalised` and the lemmas about it.
- Store.CreditActive, WalletDocs.WalletDoc.UpdateGlobalPointPool and PointJob.DistributePoints
  run the corrected code of the pool rows under "## Findings": the month's pool grows by each
  credit, and last month's pool is shared. Store.CreditActive also runs the corrected reward
  check (`Store.CheckForReward`); as written see `Store.CreditWalletAsWritten`. The pool
  code as written is modelled by `Pools.UpdatePoolAsWritten` (with `Pools.PoolUpdateLost`)
  and `PointJob.DistributedAsWritten` (with `PointJob.DistributionLost`).
- Store.AssignClub: does not model the member save throwing when the member's document has no
  wallet reference while its wallet is stored; the source's credit would then stop before the
  wallet's own save, and the model writes the club and carries on.
- WalletDocs.WalletDoc.AssignClubMembership: the same save throw is not modelled, for the same
  reason as `Store.AssignClub`.
- UnifiedJob.PlacedRun: a walk that stops at a throwing save answers the walk's error value
  (`Common.TypeError`), not the duplicate-key message; only the sponsor refresh before the
  placement answers `Store.DuplicateKey`.
- RegJob.PlacedRun: a walk that stops at a throwing save answers the wrapped walk error value
  (`Common.TypeError`), as a walk whose child lookup fails does; only the three saves before
  the walk answer the wrapped `Store.DuplicateKey`.
- Store.DuplicateKey is the leading part of the database driver's message; the collection,
  index and key it names are left out.
- The reward check is modelled corrected (see "## Findings"). As written, a credit that
  reaches a threshold its member holds no reward for throws unsaved and creates no reward
  (`Store.CreditLost`). Where no reward falls due, the code as written agrees with the model
  (`Credits.RunAgrees`, `Credits.RunCreditsGainAsWritten`). Each member below states the
  corrected check:
- Unified.CommissionGain: states the corrected reward check; as written, see `Unified.CommissionGainAsWritten`.
- CommissionQueue.CommissionGain: states the corrected reward check; as written, see `CommissionQueue.CommissionGainAsWritten`.
- Credits.StepGain: states the corrected reward check; as written, see `Credits.RunAgrees`.
- Credits.StepKeeps: states the corrected reward check; as written, see `Credits.RunAgrees`.
- Credits.RunCreditsGain: states the corrected reward check; as written, see `Credits.RunAgrees`.
- WalletDocs.WalletDoc.CheckForReward: states the corrected reward check; as written, see `Store.CreditWalletAsWritten` and `Store.CreditLost`.
- WalletDocs.WalletDoc.BookCredit: states the corrected reward check; as written, see `Store.CreditWalletAsWritten` and `Store.CreditLost`.
- WalletDocs.WalletDoc.Credit: states the corrected reward check; as written, see `Store.CreditWalletAsWritten` and `Store.CreditLost`.
- WalletDocs.WalletDoc.AddDirectIncomePersonal: states the corrected reward check; as written, see `Store.CreditWalletAsWritten` and `Store.CreditLost`.
- WalletDocs.WalletDoc.AddDirectIncome: states the corrected reward check; as written, see `Store.CreditWalletAsWritten` and `Store.CreditLost`.
- WalletDocs.WalletDoc.AddLevelIncome: states the corrected reward check; as written, see `Store.CreditWalletAsWritten` and `Store.CreditLost`.
- Store.CheckForReward: states the corrected reward check; as written, see `Store.CreditWalletAsWritten` and `Store.CreditLost`.
- Store.CreditWallet: states the corrected reward check; as written, see `Store.CreditWalletAsWritten` and `Store.CreditLost`.
- UnifiedJob.CommissionedGain: states the corrected reward check; as written, see `Credits.RunAgrees`.
- UnifiedJob.PlacedGain: states the corrected reward check; as written, see `Credits.RunAgrees`.
- UnifiedJob.JobGain: states the corrected reward check; as written, see `Credits.RunAgrees`.
- UnifiedJob.ActivationGain: states the corrected reward check; as written, see `Credits.RunAgrees`.
- CommissionQueue.ReferrerPaidOnce: states the corrected reward check; as written, see `Credits.RunAgrees`.
- CommissionQueue.PayReferrer: states the corrected reward check; as written, see `Credits.RunAgrees`.
- CommissionQueue.CommissionSteps: states the corrected reward check; as written, see `Credits.RunAgrees`.
- CommissionQueue.PayAncestors: states the corrected reward check; as written, see `Credits.RunAgrees`.
- PointJob.DistributionGain: states the corrected distribution and reward check; as written the run pays nothing, see `PointJob.DistributionLost`.
- Rewards.RedeemOutcome: states the corrected reward check. As written, when the
  redemption's credit reaches a threshold its member holds no reward for, the reward is
  marked redeemed, no points are credited and the answer is 500 (`Rewards.RedeemLost`).
- Rewards.RedeemReward: states the corrected reward check; as written, see `Rewards.RedeemLost`.
- Rewards.RedeemGain: states the corrected reward check; as written, see `Rewards.RedeemLost`.
- Orders.OrderPlacement: states the corrected order of "## Findings". The model's order
  has no `totalPoints` path at all, so the validation failure is left out here. As written,
  no order is ever placed and no stock taken: where the corrected order answers 200 the code
  answers 500 with nothing written (`Orders.OrderLost`).
- Orders.CreateOrder: states the corrected order; as written, see `Orders.OrderLost`.
- Orders.StockNeverNegative: states the corrected order; as written no stock is taken, see
  `Orders.OrderLost`.
- Unified.ProcessWithRetry: the attempts' outcomes are a parameter and are not composed with
  `UnifiedJob.JobRun`. In the source each retry re-runs `processJob` on the store the failed
  attempt left, with nothing rolled back. So credits saved before a throw in the commission
  step (`UnifiedJob.Commissioned` keeps them) are paid again on every later attempt. The
  model states neither the re-run nor the repeated payment.
- Unified.WalkCounts: states which prefix of the path has fresh counts, not why the walk ended
  there; `Unified.AncestorsWalk` ends early only at a visit that stops (`Unified.Stopped`: the
  member's level is already the one its children give) or crashes.

## Findings

| source | as written | input that shows it | evidently intended | confidence | as-written member | corrected member |
|---|---|---|---|---|---|---|
| models/GlobalPointPool.js:35 | the model file builds the model but exports nothing, so `GlobalPointPool.findOrCreateForCurrentMonth` in `updateGlobalPointPool` is not a function; the error is caught and logged | any credit of a non-zero amount to an active member | the month's pool grows by every credited amount | not executed | Pools.PoolUpdateLost | Pools.UpdatePoolEffect |
| jobs/GlobalPointPoolJob.js:27 | `lastMonthPool` is not defined (the pool found is `globalPointPool`), and `GlobalPointPool.findOne` is undefined for the same missing export; the error is caught and logged | last month's pool holds 10000 points and one active Gold member references its wallet | 1% of last month's pool is shared among the qualifying members | not executed | PointJob.DistributionLost | PointJob.DistributionGain |
| models/Wallet.js:214-230 | the threshold schema has no `rewardPoints`, so the reward built from it lacks the required `rewardPoints`; `reward.save()` throws before the club and the wallet are saved, and the credit is lost | one threshold at 500 points, an active member with balance 400 and no reward, a credit of 100 | the reward is created with the threshold's reward points and the credit is saved | not executed | Store.CreditLost | Store.CheckForReward |
| controllers/orderController.js:29-38 | the order has no `totalPoints`, required by models/Order.js:11, so `order.save` fails validation, the transaction aborts and the answer is 500 | a cart with one entry for an in-stock product | the order is saved, the stock taken and the cart emptied, 200 | not executed | Orders.OrderLost | Orders.OrderPlacement |
