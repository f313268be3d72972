# A model of the exchange and its B-tree

The repository is a small exchange simulator. Traders send BUY, SELL, AMEND and CANCEL
messages; the exchange keeps every order in two trees, one per side and product in
price-time priority and one per trader by order number, matches crossing orders, keeps
positions, cash and fees, and prints the book. The trees are an in-memory B-tree with
bulk loading, search hints, editing scans and a node pool. The model has both halves.

**The B-tree.** `OrderedSeq` is the contract a tree offers: a strictly sorted sequence
under a three-way comparator. `Trees`, `TreeSet` and `TreeDelete` give the tree as a
value and prove what insertion and deletion do to contents, balance and fill. `Nodes`,
`Pools`, `Surgery`, `Mending`, `Setting`, `Deleting`, `Finding`, `Scanning`, `Acting`,
`ActingBack`, `Loading` and `BTrees` are the program: nodes with arrays of items and
children changed in place, each method proved to compute the value-level step. `Visits`
says what a scan shows and what an editing scan leaves.

**The exchange.** `Orders` has the comparators and their meaning and what ints and longs
hold, `Markets` the state and the elementary steps, `Trading` one round of matching,
`Matching` the whole loop against the price-time sweep, `Accounts` positions,
conservation and bounds, `Commands` single commands, `Runs` runs of them, `Settlements`
every settlement of a run, `Overflows`, `Reaches` and `FullBooks` the runs after which
fields and totals no longer fit, `Wraps` the rounds in which an order's own quantity
does not, `TwoLineRuns` what messages of two lines can do to it and to the print, and
`TwoTraders` single trades to the last unit.
`Records` and `Exchanges` are the program: order and trader records changed in place,
proved against the state. `OrderBook` is the printed book, `PriceTrees` the B-tree doing
what the state says of the price trees. `Numbers`, `Messages`, `MessageLines` and
`Framing` take a command through composing, framing, pattern and parser; `Grammar`,
`Radix` and `MessageForms` say which messages are accepted and how fields are read,
character by character.

Quantities and prices of orders are ints of 32 bits throughout, and taking from them
wraps around. The state has the positions and cash as the trades say; the int and long
fields of the records are proved to hold them wrapped to their width, and when that is
the position itself. Signed overflow is taken to wrap around. What the allocator answers
is a parameter of what asks it for memory.

The main results, in one place:

- `BTrees.BTree` keeps order, balance, fill, count and height through every operation and
  implements the sorted-sequence contract; hints never change an answer; an insertion
  runs out of memory only if some is refused, and then changes nothing; each editing scan
  is one walk in spite of its restarts; load is set exactly as long as fast-path items
  exceed the maximum. `Trees.SoundExactly` says node by node what balance and fill are.
- `Matching.MatchSweeps` and `Commands.CommandSweeps`: what a command trades is the
  price-time sweep of its order, in ints. `Wraps.ExactFrom`: nothing wraps in it exactly
  if no negative quantity is entered.
- `Runs.EveryRun` and `Runs.EveryLegalRun`: index consistency, uncrossed books and
  conservation over all runs of any commands; positive orders and bounds over all runs of
  one-line messages. `Commands.PositiveExactly` is the exact condition for other ones.
- `Settlements.SettlementsFit`, `Overflows.IntsBear`, `Reaches.CommandsBear` and
  `Overflows.LongsBear`: how many trades and how many commands int quantities bear, and
  how many traders long cash, exactly.
- `OrderBook.PrintedExactly`: when the printed book is the book.
- `Messages.LastLineDecides`, `Grammar.OneLineGrammar`, `Radix.FieldReads` and
  `MessageLines.AnyNumbersRest`: which messages are accepted, how they are read, and what
  comes through.
- `Framing.StreamRoundTrip`: composed commands arrive as they were sent.

Where the code and what is said about it differ, the model follows the code:

- Bulk load is described as the same as set, in any order. Its fast path compares with
  the last item of the latest slow load, not with the last item; see `Loading.AppendIsPut`,
  `BTrees.BTree.Load` and `BTrees.LoadOutOfOrder`.
- Product numbers are said to be returned for redrawing. Only accepted new orders return
  one; AMEND and CANCEL return -1 (`Commands.RefusedOrNot`).
- Messages that match the pattern are said to be valid commands. The pattern is looked for
  line by line, so a message is accepted for its last line alone
  (`Messages.LastLineDecides`) and read from its first: it is a valid command if it is of
  one line (`Messages.OneLine`, `MessageLines.OneLineLegal`), and otherwise it can enter
  any numbers (`MessageLines.AnyNumbersRest`), lack fields (`MessageLines.FieldMissing`)
  or be no command (`MessageLines.AcceptedSecondLine`).
- Order numbers with leading zeros are read as octal (`Numbers.NumberAsShown`,
  `Messages.OctalNumber`).
- Line totals of the printed book are added up in an int (`OrderBook.FullLine`), and -1
  stands for no price yet, though an order can have it (`OrderBook.LevelsExactly`,
  `TwoLineRuns.HeadlineMisses`, `TwoLineRuns.LineMissing`).
- Composed messages are said to be always valid. They are exactly if their fields are in
  range (`Messages.ComposedAccepted`); numbers beyond 999999 are not.
- The repository's own tree checks allow more items in a node than the code ever leaves.

## Model

| member | source | states |
|---|---|---|
| `OrderedSeq.PutStrict` | btree/btree.c:517-525 | Insert-or-replace keeps a sequence strictly sorted under any three-way comparator that is a total order. |
| `OrderedSeq.LookupAfterPut` | btree/btree.c:517-602 | After a put, the key of the item put finds exactly that item and every other key finds what it found before. |
| `OrderedSeq.LookupAfterRemove` | btree/btree.c:579-759 | After a removal, the key is gone and every other key finds what it found before. |
| `Trees.Gap` | btree/btree.c:290-319 | For every permitted capacity the minimum fill is 40 percent of it up to a part of an item, and at least one item; two minimal nodes leave room for a merge. |
| `Trees.SoundExactly` | btree/btree.c:318-319 | The invariant of a tree is exactly this, of each node at each depth: leaves at the last level only, a child more than items elsewhere, two slots unused, and below the root 40 of every 100 slots filled up to a part of an item. |
| `Trees.SplitFlat` | btree/btree.c:368-398 | Cutting a node around an item keeps the in-order contents. |
| `Trees.JoinFlat` | btree/btree.c:214-224 | Joining two nodes around an item keeps the in-order contents. |
| `Trees.SplitOfJoin` | btree/btree.c:214-224 | Splitting a join at the joining item gives the two nodes and the item back. |
| `TreeSet.CutFills` | btree/btree.c:368-384 | For every permitted capacity both split modes leave both halves at or above the minimum fill; the leaning mode leaves the right half at exactly the minimum, the even mode equal halves. |
| `TreeSet.AbsorbShape` | btree/btree.c:466-473 | A child that filled up is split into two sufficiently filled ones under one more separator, and all leaf depths stay equal. |
| `TreeSet.SetContents` | btree/btree.c:449-475 | Insertion below a node is insert-or-replace on its in-order contents, and returns the item replaced. |
| `TreeSet.SetRootSound` | btree/btree.c:487-515 | Insertion keeps the whole tree balanced and filled; the height grows by exactly one when the tree was empty or the root split. |
| `TreeSet.SetWhole` | btree/btree.c:477-516 | Insertion is insert-or-replace on the contents; the tree stays sound, the contents sorted, and the count grows exactly if nothing was replaced. |
| `TreeDelete.RegripFills` | btree/btree.c:677-716 | When the merge is refused the chosen sibling has an item to spare: both nodes end within their bounds. |
| `TreeDelete.RebalanceFlat` | btree/btree.c:673-716 | Merge and both borrows keep the in-order contents. |
| `TreeDelete.RebalanceShape` | btree/btree.c:673-716 | After a child lost one item, merge or borrow restores the fill of all children and the equal leaf depth. |
| `TreeDelete.MendSizes` | btree/btree.c:684-716 | A poor child and its neighbour become one node exactly if together with the separator they leave two slots of it unused; otherwise the one with more items hands one over, the right one if they have as many. No other child changes its size. |
| `TreeDelete.RebalanceSizes` | btree/btree.c:673-682 | Nothing is mended while 40 of every 100 slots of the child are filled up to a part of an item; otherwise the child is mended with its right neighbour, and the last child with its left one. |
| `TreeDelete.DeleteContents` | btree/btree.c:608-718 | Deletion by key, of the first, of the last item and of a separator's predecessor removes exactly that item from the in-order contents and returns it. |
| `TreeDelete.DeleteRootSound` | btree/btree.c:732-741 | Deletion keeps the whole tree sound; an emptied root gives way to its only child or to nothing and the height falls by one. |
| `TreeDelete.DeleteWhole` | btree/btree.c:720-745 | Deletion on any sound tree removes exactly the named item from the sorted contents and returns it; the tree stays sound, and the count falls exactly if there was one. |
| `Nodes.Node.ShiftRight` | btree/btree.c:226-236 | In place, a slot opens at the index: items and child pointers from there move up by one. |
| `Nodes.Node.ShiftLeft` | btree/btree.c:238-255 | In place, the slot at the index closes; for a merge the child to the right of it goes instead of the left one. |
| `Pools.Pool.GimmeLeaf` | btree/btree.c:135-142 | Hands out the last spare leaf, whose storage leaves the pool; the panic for an empty pool is a precondition every caller proves impossible. |
| `Pools.Pool.GimmeBranch` | btree/btree.c:135-146 | The same for branches. |
| `Pools.Pool.Takeaway` | btree/btree.c:161-180 | A node no longer used becomes the last spare of its kind, and is freed exactly if there are 32 spares already or there is no room for one more and none is granted. |
| `Pools.Pool.Fill` | btree/btree.c:182-212 | It fails exactly if one of its requests for memory is refused, and then loses no node and touches no tree; success leaves one spare leaf and a spare branch per level, no more, after that many requests. |
| `Surgery.SplitNode` | btree/btree.c:368-398 | The in-place split computes the two halves and the median of the value-level split, with a node from the pool. |
| `Surgery.SplitChild` | btree/btree.c:466-473 | Splitting a full child in place and hanging the new half beside it computes the value-level step. |
| `Mending.JoinNodes` | btree/btree.c:214-224 | Copies the right node's items and children behind the left one's. |
| `Mending.Merge` | btree/btree.c:684-693 | Left node, separator and right node become one node whose tree is their join. |
| `Mending.Borrow` | btree/btree.c:694-716 | Moves one item through the separator from the fuller to the poorer sibling, in either direction, with the child that goes with it. |
| `Setting.NodeSet` | btree/btree.c:449-475 | The recursive in-place insertion computes exactly the value-level insertion, uses at most one spare leaf and one spare branch a level, and returns the replaced item. |
| `Setting.SetInTree` | btree/btree.c:499-515 | The in-place insertion with the root split computes the value-level one and the new height. |
| `Deleting.FindTarget` | btree/btree.c:612-635 | Which slot or child a deletion goes to, for each of its four modes. |
| `Deleting.MendChildren` | btree/btree.c:673-716 | Merge or borrow around a poor child, in place, computes the value-level rebalancing, and a node merged away goes to the pool if that takes it. |
| `Deleting.NodeDelete` | btree/btree.c:608-718 | The recursive in-place deletion computes exactly the value-level deletion and returns the item. |
| `Deleting.DeleteInTree` | btree/btree.c:729-744 | The in-place deletion with the root collapse computes the value-level one and the new height. |
| `Finding.Narrow` | btree/btree.c:403-424 | The bounds are the ones on the side of the item the hint byte points at, or of none; whatever the byte, they exclude only items that cannot be the key. |
| `Finding.Find` | btree/btree.c:400-447 | The search returns the rank of the key and whether it is present, whatever the hint and depth; the place is noted in the byte of the depth, the other bytes stay, and a byte that led to the key stays too. |
| `Visits.VisitIsPrefix` | btree/btree.c:801-822 | A scan shows a prefix of the items from its start on, in order; it is a proper answer of false exactly if the callback refused the last item shown. |
| `Scanning.Get` | btree/btree.c:579-596 | The descent finds what a lookup in the sorted contents finds, for every hint. |
| `Scanning.NodeScan` | btree/btree.c:801-822 | The recursive scan is a visit of the whole contents in order. |
| `Scanning.NodeAscend` | btree/btree.c:824-850 | The scan from a pivot is a visit of exactly the items not below it, pivot present or not. |
| `Scanning.NodeReverse` | btree/btree.c:852-876 | The reverse scan is a visit of the reversed contents. |
| `Scanning.NodeDescend` | btree/btree.c:878-908 | The reverse scan from a pivot is a visit of exactly the items not above it, in descending order. |
| `Scanning.RankAboveSplits` | btree/btree.c:878-908 | The items a scan down from a pivot starts with are exactly those that compare at most equal to it. |
| `Visits.WalkShows` | btree/btree.c:967-1032 | An editing walk shows every item from its start on once and in order up to the one that stopped it, and leaves of each exactly what its answer says. |
| `Visits.StoppedByLast` | btree/btree.c:1020-1021 | A walk is stopped only by the last item it showed. |
| `Visits.StoppedByLastBack` | btree/btree.c:1090-1091 | So is a downward walk. |
| `Acting.LeafStep` | btree/btree.c:987-1022 | Showing one item of a leaf and carrying out the answer in place, or handing back a removal that needs rebalancing, is one step of the walk. |
| `Acting.NodeAct` | btree/btree.c:967-1032 | The recursive editing scan makes progress along the walk until it is through, is stopped, or stands at a removal that takes the slow route. |
| `Acting.PassResumes` | btree/btree.c:997-1003 | After the slow removal a restart from the removed key resumes the walk at the very next item. |
| `Visits.WalkBackShows` | btree/btree.c:1034-1104 | A downward editing walk shows every item before its start once, from the last to the first, down to the one that stopped it, and leaves of each exactly what its answer says. |
| `ActingBack.LeafStepBack` | btree/btree.c:1057-1092 | One item of a leaf in the downward scan: the same step, in place or handed back. |
| `ActingBack.BeforePivot` | btree/btree.c:1041-1056 | Children before the pivot's place hold nothing above it, so the downward scan may pass the pivot on to them. |
| `ActingBack.NodeActBack` | btree/btree.c:1034-1104 | The recursive downward editing scan makes progress along the downward walk. |
| `ActingBack.PassResumesBack` | btree/btree.c:1067-1073 | After a slow removal the downward restart resumes at the very next item before it. |
| `Loading.AppendIsPut` | btree/btree.c:543-558 | Appending at the end is insert-or-replace if and only if the item is above the current maximum; otherwise the result is not sorted. |
| `Loading.FindRightmost` | btree/btree.c:563-573 | The descent remembers the rightmost leaf. |
| `Loading.Append` | btree/btree.c:548-557 | Appending to the rightmost leaf appends to the contents, keeps the tree sound while the leaf has room, and leaves every slot taken before as it was. |
| `BTrees.CapacityOf` | btree/btree.c:289-295 | 256 items if no capacity is asked for, otherwise the even number at or below what is, between 4 and 4096. |
| `BTrees.BTree.constructor` | btree/btree.c:263-325 | A new tree is empty and valid, with the capacity the rounding and clamping rules give. |
| `BTrees.BTree.SetX` | btree/btree.c:477-516 | Insert or replace, both split modes, any hint: contents become the put, the previous item is returned, all invariants and the count hold, and the tree and its height are those of the value-level insertion in the given split mode. Memory runs out only if a request is refused, and then nothing has happened to the tree. |
| `BTrees.BTree.DeleteX` | btree/btree.c:720-769 | Delete by key, pop-min and pop-max remove exactly their item, return it and keep all invariants and the count; the tree and its height are those of the value-level deletion. |
| `BTrees.BTree.Get` | btree/btree.c:579-602 | Lookup; the answer does not depend on the hint. |
| `BTrees.BTree.Min` | btree/btree.c:772-784 | The first item of the contents, if any. |
| `BTrees.BTree.Max` | btree/btree.c:786-799 | The last item of the contents, if any. |
| `BTrees.BTree.Ascend` | btree/btree.c:910-932 | Visits exactly the items not below the pivot in ascending order until the callback refuses, and reports whether it did. |
| `BTrees.BTree.Descend` | btree/btree.c:938-960 | Visits exactly the items not above the pivot in descending order until the callback refuses, and reports whether it did. |
| `BTrees.BTree.ActAscend` | btree/btree.c:1107-1140 | The editing scan with restarts ends, and is one walk over the contents: every item shown once, in order, deletions and updates as answered, all invariants kept. |
| `BTrees.BTree.ActDescend` | btree/btree.c:1144-1178 | The same downwards. |
| `BTrees.BTree.Load` | btree/btree.c:537-574 | Load is set in the leaning mode, except on the fast path with an item not above the current maximum: sortedness is lost if and only if that happens. Afterwards the last item of the tree is remembered, or none if one was replaced, and the fast path leaves what is remembered as it was. |
| `BTrees.LoadOutOfOrder` | btree/btree.c:537-558 | Loading 1, 5 and 3 leaves the items in that order: the documented equivalence with set needs ascending loads. |
| `BTrees.LoadTwice` | btree/btree.c:559-562 | Loading 1, 1, 5 and 3 leaves 1, 3 and 5: an item replaced is not remembered. |
| `Orders.NarrowKeepsOrder` | src/exchange_core.c:444-445 | Narrowing a long id to an int keeps the order of all ids below a bound if and only if the bound is at most 2^31. |
| `Orders.ByPriceOrders` | src/exchange_core.c:438-462 | Both price comparators are total orders over the orders as they currently are. |
| `Orders.ByLocalOrders` | src/exchange_core.c:430-436 | The comparator of the traders' trees is a total order. |
| `Orders.StrictIsPriority` | src/exchange_core.c:438-462 | While ids fit an int, a tree is strictly sorted by its comparator if and only if it lists its orders in price-time priority. |
| `Orders.FileOrder` | src/operations.c:101-102 | Setting an order not yet in a price tree keeps the priority and adds exactly that order. |
| `Orders.UnfileOrder` | src/operations.c:130 | Deleting a filed order takes out exactly that one. |
| `Orders.FindOwn` | src/operations.c:109-115 | A lookup by number finds the trader's order exactly if it is in the tree. |
| `Orders.StoredExactly` | lib/exchange_core.h:41-42 | An int or a long holds a value as it is exactly if the value fits. |
| `Orders.StoredSum` | lib/exchange_core.h:41-42 | Adding to what an int or a long holds and storing the result holds what the true sum would be held as: the fields follow the state even after they have wrapped. |
| `Markets.PriceTime` | src/exchange_core.c:438-462 | Every price tree lists the best price first and, of equal prices, the order with the smaller global id first, and holds exactly the live orders of its side and product. |
| `Markets.MakeIndexed` | src/operations.c:90-107 | A new order, under the next numbers, leaves every tree sorted and exactly indexing the live orders. |
| `Markets.AmendIndexed` | src/operations.c:117-138 | An amendment rewrites the key only while the order is out of the price tree; all indexes stay exact and sorted. |
| `Markets.LeaveIndexed` | src/operations.c:140-151 | A cancelled or used-up order leaves both of its trees; no tree refers to it any more. |
| `Markets.ReduceIndexed` | src/operations.c:178 | Taking quantities off orders, wrapped or not, disturbs no index. |
| `Trading.AfterLess` | src/operations.c:177-223 | A trade of the smaller quantity removes at least one of the two orders, whatever their quantities are, and keeps positive ones positive. |
| `Trading.AfterLessens` | src/operations.c:177-223 | Positive quantities stay positive in a trade and none grows. |
| `Trading.TakenExactly` | src/operations.c:177-178 | Both int subtractions of a round are exact if and only if the two quantities differ by less than 2^31, and always if none is negative. |
| `Trading.TradeSound` | src/operations.c:169-223 | Every round of matching keeps the indexes exact and makes the set of live orders strictly smaller, so matching ends, for orders of any quantity and price. |
| `Matching.CrossedOrApart` | src/operations.c:171-175 | The loop's exit test on the two best orders is exactly: every sell price exceeds every buy price. |
| `Matching.NewOrderTrades` | src/operations.c:180-184 | Every trade has the new order on one side, at the older order's price, which is within both limits, with the fee on the new order. |
| `Matching.TradeReady` | src/operations.c:169-223 | Each round keeps what makes that true: all other orders are older and do not cross each other. |
| `Matching.MatchSound` | src/operations.c:166-225 | Matching keeps the indexes, ends with the book uncrossed, and only changes quantities of orders of one product. |
| `Matching.MatchLessens` | src/operations.c:166-225 | If all quantities and prices are positive they stay so, and no quantity grows. |
| `Matching.MatchSweeps` | src/operations.c:166-225 | The loop is the plain price-time sweep of the new order through the resting orders: same trades in the same order, same resting orders, same quantity left over, own side untouched. Every quantity is what the subtractions leave in an int, and an order goes when that is not positive. |
| `Matching.SweepFills` | src/operations.c:155-225 | For positive int quantities the sweep never wraps and trades the smaller of the quantity wanted and the total resting within the limit, only at prices within the limit, and loses nothing. |
| `Matching.MatchFills` | src/operations.c:166-225 | While quantities are positive, what is left of a new order after matching is exactly what its limit did not let it trade. |
| `Accounts.MatchBooked` | src/operations.c:193-202 | After matching, every trader's quantity and cash of the product are the old ones plus what the trades say, self-trades included, and the fees are the old ones plus the trades' fees. |
| `Accounts.SettleBalanced` | src/operations.c:194-202 | One settlement keeps every product's quantities summing to zero and all cash plus fees summing to zero. |
| `Accounts.MatchBalanced` | src/operations.c:166-225 | So does matching as a whole. |
| `Accounts.FeeRounds` | src/operations.c:181-182 | The fee is one percent of the value, rounded half up; of a negative value it is rounded towards zero. |
| `Accounts.FeesNear` | src/operations.c:180-202 | Over n trades a hundred times the fees differs from the traded value by at most 50 n. |
| `Accounts.MatchSmall` | src/operations.c:169-223 | From live orders within six digits, every trade is within six digits. |
| `Accounts.MatchCounts` | src/operations.c:169-223 | There are no more trades than orders that left. |
| `Accounts.MatchWithin` | src/operations.c:193-202 | Quantities, cash and fees stay within the reach of the number of trades made. |
| `Commands.ProductFound` | src/operations.c:20-31 | The product loop finds the first product of the name, and reports none exactly if there is none. |
| `Commands.NewcomerReady` | src/operations.c:32-43 | When matching starts, only the order just made or amended can cross, and it is the newest. |
| `Commands.ProcessSteady` | src/operations.c:3-84 | Every command, whatever its numbers, keeps what holds between commands: exact sorted indexes, no crossed book, conservation; it makes no more trades than orders left or entered, and the fees are those of its trades. |
| `Commands.ProcessTame` | src/operations.c:3-84 | A command with the numbers of a one-line message keeps live orders positive and within six digits, and positions within the reach of the trades made. |
| `Commands.PositiveExactly` | src/operations.c:32-63 | Live orders are positive after a new or amended order exactly if its own quantity and price are, or the opposite side of the book uses it up. |
| `Commands.CarriedOut` | src/operations.c:12-70 | Which commands are carried out, by number, product and live order; what is answered; and that all others change nothing. |
| `Commands.RestsUntraded` | src/operations.c:32-63 | An order, new or amended, that no resting order meets rests with the quantity and price of the command and the next global id, and trades nothing; an amended one keeps its side and product. |
| `Commands.RefusedOrNot` | src/operations.c:12-70 | A command is refused exactly if its number is not the next one or its product unknown, or if the trader has no such live order; a refused command changes nothing and any other one changes something; the product number is answered for accepted new orders only. |
| `Commands.CommandSweeps` | src/operations.c:32-63 | What a command trades and leaves is the sweep of its order, in ints, through the opposite side as it was before the command. |
| `Commands.CommandAccounts` | src/operations.c:32-63 | What a command changes besides its order: positions and fees by its trades, one global id, for a new order the trader's number, quantities of orders of its product, and nothing else. |
| `Commands.CancelTakes` | src/operations.c:64-79 | An accepted CANCEL takes exactly its order away and changes no position. |
| `Runs.OpeningSteady` | src/exchange_core.c:39-81 | The initial state satisfies all of it, with no number used. |
| `Runs.EveryRun` | src/operations.c:3-84 | After any run of up to 2^31 commands of any kind: exact sorted indexes, no crossed book, conservation, fees those of the trades, and at most as many trades and live orders together as order numbers were used. |
| `Runs.NumbersFit` | src/operations.c:33 | Order numbers fit ints after any run of fewer than 2^31 commands. |
| `Runs.EveryLegalRun` | src/operations.c:3-84 | After any run of commands of one-line messages besides: positive orders within six digits, positions within the reach of the trades made, and fees within half a unit a trade of one percent. |
| `Settlements.SettlementsFit` | src/operations.c:180-202 | Of every run of such commands, in every round of matching and not only between commands, the first 2147 settlements fit the int quantities and the first nine million the longs. |
| `Settlements.NineTradersFit` | src/operations.c:180-202 | With at most nine traders, whose order numbers have six digits, every settlement of every run and every state after one fits the longs. |
| `Settlements.FewTradesFit` | lib/exchange_core.h:41 | After a run with at most 2147 trades all quantities fit ints. |
| `Overflows.IntsBear` | lib/exchange_core.h:41 | Quantities fit ints after every run of at most k trades if and only if k is at most 2147; a run of three traders with 2148 trades is given. |
| `Reaches.EveryRunReaches` | src/operations.c:193-200 | After any run of one-line messages, a trader's quantity of a product, with all the trader has on offer, is at most 999999 times the trader's own commands; the same with what the others have on offer and the others' commands. |
| `Reaches.CommandsBear` | lib/exchange_core.h:41 | With two traders or more, quantities fit ints after every run of at most n one-line messages if and only if n is at most 4295; with one trader they always do. |
| `Overflows.StoredResidue` | lib/exchange_core.h:41 | What the int fields hold sums to what the quantities sum to, up to a multiple of 2^32: conservation holds in the fields modulo 2^32. |
| `Overflows.StoredNotBalanced` | lib/exchange_core.h:41 | After the run of 2148 trades the int fields of a product sum to 2^32 and not to zero. |
| `Overflows.LongsBear` | lib/exchange_core.h:42 | Cash and fees fit longs after every run if and only if there are at most nine traders; for ten or more a run is given that leaves them. |
| `Wraps.ExactFrom` | src/operations.c:178 | Every subtraction from an order's quantity, in every round of every run into which no quantity below a bound is entered, is exact if and only if the bound is at least 0. |
| `TwoLineRuns.QuantityWraps` | src/operations.c:178 | SELL 0 GPU 2147483647 1 and then BUY 1 GPU -5 1, each in front of a line CANCEL 1: both orders are gone, though what is left of the first should be more than an int holds. |
| `TwoTraders.IdleOpening` | src/exchange_core.c:39-81 | With one product and two traders the initial state is the one these trades start from. |
| `TwoTraders.OfferAndBid` | src/operations.c:176-202 | One trader offers and another bids at least as much for some of it: the quantity goes over at the price of the offer, the bidder pays the fee, the offer keeps the rest, and nobody has or pays anything else. |
| `TwoTraders.TradeAtFive` | src/operations.c:176-202 | 30 offered at 5 and 12 bid for at 7: 12 are sold for 60, the bidder pays 61, the exchange has 1, and 18 stay on offer. |
| `TwoTraders.LinesArrive` | src/operations.c:3-49 | SELL 0 GPU 30 5 and BUY 0 GPU 12 7 are framed, accepted and read as these two orders. |
| `TwoTraders.TradeBelowZero` | src/operations.c:180-182 | 170 offered and bid for at -1: the value is -170 and the fee -1. |
| `TwoTraders.LowArrives` | src/operations.c:3-49 | SELL 0 GPU 170 -1 and BUY 0 GPU 170 -1, each in front of a line CANCEL 1, are framed, accepted and read as these two orders. |
| `Records.FindByPrice` | src/exchange_core.c:438-462 | Searching a tree of records with the comparator that reads them finds the place the sorted-sequence contract says. |
| `Records.FindByNumber` | src/operations.c:109-115 | The same for a trader's tree and an order number. |
| `Records.TraderRecord.Add` | src/operations.c:194-200 | Adding to the int quantity and the long cash of a trader, in place, holds what the new position is held as. |
| `Exchanges.Exchange.MakeNewOrder` | src/operations.c:90-107 | Allocates and files a record; the state becomes the value-level one. |
| `Exchanges.Exchange.GetOrderByUser` | src/operations.c:109-115 | Returns the trader's live record of a number, or null. |
| `Exchanges.Exchange.AmendRecord` | src/operations.c:125-137 | Takes the record out of its price tree, changes it in place, files it again; the state becomes the value-level one. |
| `Exchanges.Exchange.AmendOrder` | src/operations.c:117-138 | Amends the trader's order of a number, or returns null with nothing changed. |
| `Exchanges.Exchange.CancelOrder` | src/operations.c:140-151 | Takes the trader's order of a number from both trees, or returns null with nothing changed. |
| `Exchanges.Exchange.Terms` | src/operations.c:176-184 | Quantity, price and fees of a trade, computed as the source does, are those of the specification. |
| `Exchanges.Exchange.Pay` | src/operations.c:194-202 | The four position updates in int and long fields and the fees, in place and in order, for different traders and for one and the same. |
| `Exchanges.Exchange.TradeOnce` | src/operations.c:176-223 | One trade on the records, their int quantities reduced as ints are and used-up ones leaving both trees, computes the value-level trade. |
| `Exchanges.Exchange.MatchOrders` | src/operations.c:166-225 | The matching loop on the records ends in the specified state with the specified trades. |
| `Exchanges.Exchange.FindProduct` | src/operations.c:20-27 | The loop over the product names. |
| `Exchanges.Exchange.ProcessCmd` | src/operations.c:3-84 | Every command on the records, whatever its numbers, computes the specified state, trades and answer; order quantities wrap as ints do in both. |
| `Exchanges.Exchange.ProcessMessage` | src/operations.c:3-84 | Any accepted message is read and carried out as specified, if it has the fields the code gets to; one of a single line has all of them, within limits. |
| `Exchanges.Exchange.constructor` | src/exchange_core.c:39-81 | The records, trees and counters of the initial state. |
| `Exchanges.Exchange.PrintProduct` | src/operations.c:268-290 | Per side of a product, what is printed and the level count in its headline, for any orders; OrderBook.PrintedExactly, LevelsExactly and BookPrinted say when that is the book. |
| `OrderBook.LinesGroup` | src/operations.c:248-266 | On orders listed by descending price, grouping runs of equal prices gives one line per price, strictly descending, with its total and count. |
| `OrderBook.IterHelper.OrderIter` | src/operations.c:235-246 | The callback appends the order to the buffer and counts a level when the price changes. |
| `OrderBook.Gather` | src/operations.c:235-283 | A scan gathers all orders in order and counts one level for each line, except that it misses a first price of -1. |
| `OrderBook.PrintLines` | src/operations.c:248-266 | The printing loop prints the runs of equal prices with their totals added up in an int, and no line of price -1 but the last one. |
| `OrderBook.PrintedExactly` | src/operations.c:248-266 | What is printed is the exact grouping if and only if every total fits an int and no price but the lowest is -1. |
| `OrderBook.LevelsExactly` | src/operations.c:235-266 | The headline counts the lines printed if and only if the price -1 is not there, or is either the highest or the lowest but not both. |
| `TwoLineRuns.HeadlineMisses` | src/operations.c:235-266 | BUY 0 GPU 5 -1 in front of a line CANCEL 1: a line is printed and the headline counts none. |
| `TwoLineRuns.LineMissing` | src/operations.c:252-256 | BUY 1 GPU 3 -2 after it: the print is not the grouping any more. |
| `OrderBook.BookPrinted` | src/operations.c:248-287 | With orders of one-line messages, at most 2147 of them at any one price, the print is exactly one line a price, highest first, with its exact total, and the headline counts the lines. |
| `OrderBook.FullLine` | src/operations.c:257-263 | Orders of the largest quantity at one price are printed with their exact total if and only if there are at most 2147. |
| `FullBooks.LinesBear` | src/operations.c:257-263 | Runs of one trader's one-line messages lead to such books of any size up to a million. |
| `OrderBook.ShownDescending` | src/operations.c:270-287 | Sell orders scanned backwards and buy orders scanned forwards both come highest price first. |
| `PriceTrees.File` | src/operations.c:101-102 | The B-tree with the price comparator over the orders as they are files an order as the exchange's specification says, unless memory runs out. |
| `PriceTrees.Unfile` | src/operations.c:130 | It takes one out as the specification says. |
| `PriceTrees.Best` | src/operations.c:171 | Its first item is the head of the book. |
| `PriceTrees.Scan` | src/operations.c:274-282 | Its scans up and down give the orders of a side in the order they are printed. |
| `PriceTrees.OrderStays` | src/operations.c:130-137 | While an order is out of a tree and is changed, the rest stays sorted by the comparator that reads the changed orders. |
| `Numbers.DigitsLength` | src/interface_ops.c:153-160 | A printed number has at most k digits if and only if it is below ten to the k. |
| `Numbers.ReadPrinted` | src/operations.c:7 | A printed number, of either sign, is read back as itself if and only if it fits an int, whatever follows it that is no digit or letter. |
| `Numbers.NumberAsShown` | src/operations.c:7 | A digit string is read as the decimal number it shows if and only if that fits an int and has no leading zero or is at most 7: otherwise base 0 reads it as octal. |
| `Radix.DigitWorth` | src/operations.c:7 | Digits and small letters are worth their places in the alphabet of base 36. |
| `Radix.CapitalWorth` | src/operations.c:7 | So are capital letters. |
| `Radix.NoDigit` | src/operations.c:7 | Nothing else is a digit. |
| `Radix.FieldReads` | src/operations.c:7 | Any field of blanks, a sign, a prefix for base 10, 8 or 16, digits of that base and anything that does not go on with them is read as the number the digits show, with its sign; beyond an int as its last 32 bits, and beyond a long as -1 or 0. |
| `Radix.NothingRead` | src/operations.c:7 | A field without a digit is read as 0. |
| `Messages.CancelReads` | src/operations.c:6-7 | A CANCEL of any digits the pattern accepts is accepted and read as what strtol makes of them. |
| `Messages.OctalNumber` | src/operations.c:7 | CANCEL 010 is accepted and read as the number 8. |
| `Messages.LastLineDecides` | src/exchange_core.c:41-44 | A message with its only semicolon at the end is accepted if and only if its last line is a statement and no byte is zero, whatever its other lines are. |
| `Messages.OneLine` | src/exchange_core.c:41-44 | An accepted message is a statement if and only if it is of one line. |
| `Grammar.OneLineGrammar` | src/exchange_core.c:41-44 | The messages of one line that are accepted are exactly the cancellations, amendments and orders written with one blank between parts, up to six digits, no amount that begins with 0, and names of 1 to 16 letters and digits, all spelled out as alphabets. |
| `Grammar.NameAccepted` | src/exchange_core.c:41-44 | BUY 0, a name and 1 1 is accepted if and only if the name is 1 to 16 letters and digits, whatever else it is. |
| `Messages.ComposedAccepted` | src/interface_ops.c:150-160 | A composed message is accepted if and only if its fields are in range. |
| `Messages.AcceptedLegal` | src/operations.c:5-49 | Every statement is read as a command with numbers of six digits, quantity and price positive. |
| `Messages.ParseFields` | src/operations.c:6-49 | A composed command in range is parsed back to the same kind, number, product, quantity and price. |
| `MessageLines.KindAndNumber` | src/operations.c:6-7 | Every accepted message has the first two parts the parser does not check for. |
| `MessageLines.OneLineLegal` | src/operations.c:6-49 | An accepted message of one line is read as a command within the limits. |
| `MessageLines.SecondLineReads` | src/operations.c:6-49 | In front of a second line that is accepted, every command is read as it is, with any numbers that fit an int. |
| `MessageLines.FieldMissing` | src/operations.c:46-49 | An accepted message of two lines can lack a field that the parser reads. |
| `MessageForms.LongerWord` | src/operations.c:11-64 | A first word that only begins with a command's word is read as that command. |
| `MessageForms.AmendmentRead` | src/operations.c:45-49 | AMEND 3 7 9 is accepted and read as quantity 7 and price 9 for order 3. |
| `MessageForms.ComposedCarried` | src/operations.c:3-84 | A composed command in range is carried out as the command it is. |
| `MessageForms.NothingCarried` | src/operations.c:3-84 | An accepted message that holds no command changes nothing, and -1 is answered. |
| `MessageForms.FirstWordOnly` | src/operations.c:13-32 | BUY in front of a line CANCEL 1 is accepted, and not even a product is there. |
| `MessageForms.NumberOnly` | src/operations.c:13-32 | SELL 0 in front of a line CANCEL 1 is accepted, and the second line is taken for the product. |
| `MessageLines.AcceptedSecondLine` | src/operations.c:9-64 | An accepted message of two lines can be none of the commands. |
| `Framing.Drain` | src/exchange_core.c:374-378 | An overlong message is skipped up to its semicolon and no further. |
| `Framing.ReadFd` | src/exchange_core.c:357-381 | One message is read into the buffer with its terminating zero, and exactly what follows its semicolon remains to be read; the status tells a message, nothing to read, and a cut-off or overlong one. |
| `Framing.StatusExactly` | src/exchange_core.c:357-381 | If there is anything to read, -1 is reported if and only if none of the first 49 bytes is a semicolon, otherwise the place of the first one; without any semicolon nothing remains to be read. |
| `Framing.StatusZero` | src/exchange_core.c:357-371 | Status 0 means an empty stream or an empty message, and does not tell them apart. |
| `Framing.FrameExact` | src/exchange_core.c:357-381 | A message is framed whole exactly if its semicolon is among the first 49 bytes; the rest of the stream is left either way. |
| `Framing.RoundTrip` | src/interface_ops.c:153-160 | Every command in range, composed and put before any stream, is framed alone, leaves the rest, matches the pattern and is read back as it was. |
| `Framing.StreamRoundTrip` | src/exchange_core.c:357-381 | A stream of composed commands in range is received as exactly those commands, in order. |
| `MessageLines.AnyNumbersRest` | src/operations.c:32-43 | Any two numbers that fit an int come through framing, pattern and parser as quantity and price of an order and rest in the book; so orders there need not be positive. |
| `MessageLines.NothingForSale` | src/operations.c:32-43 | SELL 0 GPU 0 5 in front of a line CANCEL 1 enters an order of quantity 0. |
| `MessageLines.LessThanNothing` | src/operations.c:32-43 | BUY 0 GPU -5 1 in front of a line CANCEL 1 enters an order of quantity -5. |

## Left out

- BTrees.BTree.ActAscend: assumes callbacks that keep an item's key; the source warns that others may loop.
- BTrees.BTree.ActDescend: the same assumption.
- BTrees.BTree.ActRound: does the slow removal right after the recursion returns, not inside it; nothing happens in between in the source either.
- BTrees.BTree.Load: returns when memory runs out on an empty tree, where the source goes on with a null root; and its fast path walks to its leaf through the rightmost nodes, so that what is known of each of them can be updated, where the source goes there directly.
- Finding.Find: takes the hint as a value and hands it back, instead of eight bytes changed in place.
- Exchanges.Exchange.MatchOrders: searches trees held as sequences, by the comparator on the records; a B-tree's comparator reads no mutable state in this model, so `PriceTrees` ties the two together between changes of records, step by step.
- Runs.EveryRun: stops at 2^31 commands, where global ids no longer fit an int; `Orders.NarrowKeepsOrder` shows why.
- Markets.Number: counts a trader's order numbers without wrap-around; by `Runs.NumbersFit` they cannot wrap before the 2^31st command.
- MessageLines.Carried: says nothing of messages from which the code reads a missing field; that passes null to a library function. `MessageLines.Answered` says which they are.
- Messages.ComposedAccepted: is about product names without line breaks and semicolons; the product file gives no line breaks.
- Raw bytes of items and their size: items are typed array slots.
- Freeing of trees, pools and nodes, and failure to allocate a tree's own spare buffers.
- Orders' type and status fields other than the side; nothing reads them.
- Texts and delivery of ACCEPTED, MARKET, FILL and INVALID messages; trades and answers are results of the methods instead.
- Positions lines of the printed book, which list fields as they are.
- Disconnection of traders, processes, signals, pipes, polling, threads and locks; commands come one at a time.
- Windows, drawing and widgets, except the format of composed messages.
- Test helpers, benchmarks and the printing of trees.
