# Fee ordering of a block's transactions

A model of `is_ordered_block`, which decides whether the transactions of an
Ethereum block are listed in non-increasing order of priority fee. The block is
given as data: a sequence of transaction records
`Tx(txType, gasPrice, maxPriorityFeePerGas, maxFeePerGas)` and an optional
`baseFeePerGas`. Whether the base fee is present decides the era. Without it
(before the EIP-1559 fee-market change) every transaction is ranked by its
`gasPrice`. With it, a type-0 (legacy) transaction is ranked by its raw
`gasPrice`, a type-2 (fee-market) transaction by
`min(maxPriorityFeePerGas, maxFeePerGas - baseFeePerGas)`, and a transaction of
any other type is skipped.

- `wrappers.dfy`: module `Wrappers`, the `Option` type.
- `is_ordered.dfy`: module `FeeOrdering`. `PriorityFee` is the per-transaction
  rule, and `PriorityFees` lists the fees of the counted transactions in block
  order. `Ordered` says that this list never increases. `IsOrderedBlock` is the
  source's loop. It keeps a running `previous` fee and returns `false` early. It
  is proved equal to `Ordered`. The lemmas state the properties of `Ordered`.

The source starts `previous` at `float('inf')`. The model uses
`previous: Option<int>` instead, where `None` means no transaction has been
counted yet. Fees are unbounded `int`s, because `maxFeePerGas - baseFeePerGas`
can be negative.

The doc-comment of `is_ordered_block` (is_ordered.py:23) says a post-EIP-1559
type-0 transaction's priority fee is `gasPrice - baseFeePerGas`. The code
(is_ordered.py:33-34) uses the raw `gasPrice`. The model follows the code. So,
in a block that mixes type 0 and type 2, a raw gas price is compared with a fee
net of the base fee. `MixedTypesCompareRawGasPrice` shows a block that the check
calls ordered even though the net priority fees increase.

## Model

| member | source | states |
|---|---|---|
| FeeOrdering.PriorityFee | is_ordered.py:31-39 | Without a base fee, the fee is `gasPrice` whatever the type. With one, type 0 gets the raw `gasPrice`, and type 2 gets the largest value that is at most both `maxPriorityFeePerGas` and `maxFeePerGas - baseFee`. A transaction is skipped exactly when a base fee is present and its type is neither 0 nor 2. |
| FeeOrdering.PriorityFees | is_ordered.py:32-39 | There are at most as many fees as transactions. Without a base fee, no transaction is skipped, and fee i is transaction i's `gasPrice`. |
| FeeOrdering.IsOrderedBlock | is_ordered.py:30-43 | The loop's answer, with its running `previous` and early `return False`, equals "the counted fees never increase" over the whole block. |
| FeeOrdering.OrderedStep | is_ordered.py:37-42 | One more transaction keeps the prefix ordered exactly when it is skipped, is the first one counted, or is not above the last counted fee. `previous` moves to its fee only when it is counted. |
| FeeOrdering.NotOrderedExtends | is_ordered.py:40-41 | A violation found in a prefix is a violation of the whole block, so returning early is sound. |
| FeeOrdering.NotOrderedPrefix | is_ordered.py:40-41 | A violation among the first n transactions makes the whole block unordered. |
| FeeOrdering.PriorityFeesAppend | is_ordered.py:32-39 | The fee list of two runs of transactions placed one after the other is their two fee lists joined. |
| FeeOrdering.SkippedContributeNothing | is_ordered.py:37-39 | A run of skipped transactions adds no fee to the chain. |
| FeeOrdering.OnlySkippedIsOrdered | is_ordered.py:30-43 | A block with no transactions, or with only skipped ones, is ordered. |
| FeeOrdering.AtMostOneCountedIsOrdered | is_ordered.py:30-42 | A block with at most one counted transaction is ordered, because the first counted fee is compared with +infinity. Such a block has at most one fee. |
| FeeOrdering.EqualFeesAreOrdered | is_ordered.py:40-42 | Ties are allowed. If every counted transaction has the same fee c, the block is ordered and every fee in the chain is c. |
| FeeOrdering.LegacyOnlyIgnoresBaseFee | is_ordered.py:33-34 | In a block of type-0 transactions only, the presence and the value of the base fee change neither the fees nor the answer. |
| FeeOrdering.SkippedTxIsIgnored | is_ordered.py:37-42 | Inserting a skipped transaction anywhere changes neither the fee list nor the answer. |
| FeeOrdering.NonIncreasingIffSorted | is_ordered.py:18-20 | Checking only neighbouring fees is the same as checking that every fee is at most every earlier fee, in both directions. |
| FeeOrdering.NotOrderedIffAdjacentIncrease | is_ordered.py:32-43 | The answer is false exactly when some counted transaction j has a greater fee than counted transaction i, with every transaction between them skipped. |
| FeeOrdering.LocateIncrease | is_ordered.py:40-41 | An unordered block has two such transactions i and j. |
| FeeOrdering.AdjacentIncreaseBreaksOrder | is_ordered.py:40-41 | Two counted transactions with only skipped ones between them, the later having the greater fee, make the block unordered. |
| FeeOrdering.PreEip1559TiesExample | is_ordered.py:33-42 | Without a base fee, gas prices 100, 100, 50 are ordered for every choice of the three transactions' types and fee-market fields. |
| FeeOrdering.PreEip1559OrderedIffSortedByGasPrice | is_ordered.py:20 | Without a base fee, a block is ordered exactly when every transaction's `gasPrice` is at most every earlier one's. Both directions are proved. |
| FeeOrdering.PreEip1559IncreaseExample | is_ordered.py:40-41 | Without a base fee, gas prices 50, 100 are not ordered. |
| FeeOrdering.MixedTypesCompareRawGasPrice | is_ordered.py:33-36 | Take base fee 10, a type-0 transaction at gas price 15, then a type-2 transaction with priority fee 8. The fees are 15 and 8, and the block counts as ordered. |

## Left out

- Node connection setup and the connectivity message (is_ordered.py:1-12): network I/O through an external library.
- The block fetch `w3.eth.get_block(..., full_transactions=True)` (is_ordered.py:29): a foreign call. The decoded block is the model's input instead.
- The test driver (is_ordered.py:49-72): it samples random block numbers, asserts that the chain is past the London fork block and prints results. It prints the same message on both branches, so it has no logic to model.
- The `float('inf')` start value: this is a sentinel only. It is modelled as `None`, not as a floating-point number.
- Missing fields: the source raises `KeyError` when a record lacks a field its branch reads, for example `maxFeePerGas` on a type-2 transaction. In the model every record carries all four fields, so this failure is not modelled.
