/**
 * The fee-ordering check of `is_ordered_block`: are the transactions of a block
 * listed in non-increasing order of priority fee?
 *
 * A block whose `baseFeePerGas` is present was produced after the EIP-1559
 * fee-market change. In such a block a type-0 (legacy) transaction is ranked by
 * its raw `gasPrice`, a type-2 (fee-market) transaction by
 * min(maxPriorityFeePerGas, maxFeePerGas - baseFeePerGas), and a transaction of
 * any other type is skipped. In a block without a base fee every transaction is
 * ranked by its `gasPrice`.
 */
module FeeOrdering {
  import opened Wrappers

  const LegacyType: int := 0
  const FeeMarketType: int := 2

  /** A decoded transaction record, as the node returns it. */
  datatype Tx = Tx(txType: int, gasPrice: int, maxPriorityFeePerGas: int, maxFeePerGas: int)

  /** A block: its transactions in block order and its base fee, absent before EIP-1559. */
  datatype Block = Block(transactions: seq<Tx>, baseFeePerGas: Option<int>)

  function Min(a: int, b: int): (m: int)
    ensures m <= a && m <= b
    ensures m == a || m == b
  {
    if a <= b then a else b
  }

  /**
   * The priority fee a transaction is ranked by, or None when the check skips it.
   * Only the presence of a base fee selects the era, not the block number.
   */
  function PriorityFee(tx: Tx, baseFee: Option<int>): (fee: Option<int>)
    ensures baseFee.None? ==> fee == Some(tx.gasPrice)
    ensures baseFee.Some? && tx.txType == LegacyType ==> fee == Some(tx.gasPrice)
    ensures baseFee.Some? && tx.txType == FeeMarketType ==>
              && fee.Some?
              && fee.value <= tx.maxPriorityFeePerGas
              && fee.value <= tx.maxFeePerGas - baseFee.value
              && (fee.value == tx.maxPriorityFeePerGas || fee.value == tx.maxFeePerGas - baseFee.value)
    ensures fee.None? <==> baseFee.Some? && tx.txType != LegacyType && tx.txType != FeeMarketType
  {
    if baseFee.None? || tx.txType == LegacyType then
      Some(tx.gasPrice)
    else if tx.txType == FeeMarketType then
      Some(Min(tx.maxPriorityFeePerGas, tx.maxFeePerGas - baseFee.value))
    else
      None
  }

  /** Does the check take this transaction into the comparison chain? */
  predicate Counted(tx: Tx, baseFee: Option<int>) {
    PriorityFee(tx, baseFee).Some?
  }

  /** The priority fees of the counted transactions, in block order. */
  function PriorityFees(txs: seq<Tx>, baseFee: Option<int>): (fees: seq<int>)
    ensures |fees| <= |txs|
    ensures baseFee.None? ==>
              |fees| == |txs| && forall i :: 0 <= i < |txs| ==> fees[i] == txs[i].gasPrice
  {
    if txs == [] then
      []
    else
      match PriorityFee(txs[0], baseFee)
      case None => PriorityFees(txs[1..], baseFee)
      case Some(f) => [f] + PriorityFees(txs[1..], baseFee)
  }

  /** No fee is greater than the one just before it (ties allowed). */
  predicate NonIncreasing(s: seq<int>) {
    forall k :: 0 < k < |s| ==> s[k] <= s[k - 1]
  }

  /** Every fee is at most every earlier fee. */
  ghost predicate SortedDescending(s: seq<int>) {
    forall i, j :: 0 <= i < j < |s| ==> s[j] <= s[i]
  }

  /** The answer `is_ordered_block` gives for these transactions and base fee. */
  predicate Ordered(txs: seq<Tx>, baseFee: Option<int>) {
    NonIncreasing(PriorityFees(txs, baseFee))
  }

  /**
   * Transactions i and j are counted, every transaction between them is
   * skipped, and j's fee is greater than i's: the comparison at j fails.
   */
  ghost predicate AdjacentIncrease(txs: seq<Tx>, baseFee: Option<int>, i: int, j: int) {
    && 0 <= i < j < |txs|
    && Counted(txs[i], baseFee)
    && Counted(txs[j], baseFee)
    && (forall m :: i < m < j ==> !Counted(txs[m], baseFee))
    && PriorityFee(txs[i], baseFee).value < PriorityFee(txs[j], baseFee).value
  }

  /**
   * The loop of `is_ordered_block` over an already fetched block. `previous`
   * is None until the first counted transaction, standing for the +infinity the
   * source starts from; the first violation returns false at once.
   */
  method IsOrderedBlock(block: Block) returns (ordered: bool)
    ensures ordered == Ordered(block.transactions, block.baseFeePerGas)
  {
    var txs := block.transactions;
    var baseFee := block.baseFeePerGas;
    var previous: Option<int> := None;
    var isPostEip1559 := baseFee.Some?;
    for i := 0 to |txs|
      invariant Ordered(txs[..i], baseFee)
      invariant previous == LastFee(PriorityFees(txs[..i], baseFee))
    {
      var tx := txs[i];
      OrderedStep(txs, i, baseFee);
      var fee: int;
      if !isPostEip1559 || tx.txType == LegacyType {
        fee := tx.gasPrice;
      } else if tx.txType == FeeMarketType {
        fee := Min(tx.maxPriorityFeePerGas, tx.maxFeePerGas - baseFee.value);
      } else {
        continue;
      }
      assert PriorityFee(tx, baseFee) == Some(fee);
      if previous.Some? && fee > previous.value {
        NotOrderedPrefix(txs, i + 1, baseFee);
        return false;
      }
      previous := Some(fee);
    }
    assert txs[..|txs|] == txs;
    return true;
  }

  /** The last fee of a sequence, None when it is empty. */
  function LastFee(s: seq<int>): (last: Option<int>) {
    if s == [] then None else Some(s[|s| - 1])
  }

  /**
   * One more transaction keeps the prefix ordered exactly when it is skipped,
   * is the first counted one, or is not above the last counted fee; the last
   * counted fee moves to it when it is counted.
   */
  lemma OrderedStep(txs: seq<Tx>, i: int, baseFee: Option<int>)
    requires 0 <= i < |txs|
    ensures Ordered(txs[..i + 1], baseFee) <==>
            && Ordered(txs[..i], baseFee)
            && (|| PriorityFee(txs[i], baseFee).None?
                || LastFee(PriorityFees(txs[..i], baseFee)).None?
                || PriorityFee(txs[i], baseFee).value <= LastFee(PriorityFees(txs[..i], baseFee)).value)
    ensures LastFee(PriorityFees(txs[..i + 1], baseFee)) ==
            if PriorityFee(txs[i], baseFee).None? then LastFee(PriorityFees(txs[..i], baseFee))
            else PriorityFee(txs[i], baseFee)
  {
    PriorityFeesStep(txs, i, baseFee);
    var s := PriorityFees(txs[..i], baseFee);
    match PriorityFee(txs[i], baseFee)
    case None =>
      assert s + [] == s;
    case Some(f) =>
      NonIncreasingSnoc(s, f);
  }

  /** Appending f keeps a fee sequence non-increasing exactly when f is not above its last fee. */
  lemma NonIncreasingSnoc(s: seq<int>, f: int)
    ensures NonIncreasing(s + [f]) <==> NonIncreasing(s) && (s == [] || f <= s[|s| - 1])
  {
    var t := s + [f];
    if NonIncreasing(t) {
      forall k | 0 < k < |s| ensures s[k] <= s[k - 1] {
        assert t[k] == s[k] && t[k - 1] == s[k - 1];
      }
      if s != [] { assert t[|s|] == f && t[|s| - 1] == s[|s| - 1]; }
    }
  }

  /** One more transaction adds its fee, if it is counted, at the end of the fee sequence. */
  lemma PriorityFeesStep(txs: seq<Tx>, i: int, baseFee: Option<int>)
    requires 0 <= i < |txs|
    ensures PriorityFees(txs[..i + 1], baseFee) ==
            PriorityFees(txs[..i], baseFee) + PriorityFees([txs[i]], baseFee)
    ensures PriorityFees([txs[i]], baseFee) ==
            match PriorityFee(txs[i], baseFee) case None => [] case Some(f) => [f]
  {
    assert txs[..i + 1] == txs[..i] + [txs[i]];
    PriorityFeesAppend(txs[..i], [txs[i]], baseFee);
    assert [txs[i]][1..] == [];
  }

  /** The fee sequence of two runs of transactions is the two fee sequences joined. */
  lemma {:induction false} PriorityFeesAppend(a: seq<Tx>, b: seq<Tx>, baseFee: Option<int>)
    ensures PriorityFees(a + b, baseFee) == PriorityFees(a, baseFee) + PriorityFees(b, baseFee)
  {
    if a != [] {
      assert (a + b)[1..] == a[1..] + b;
      PriorityFeesAppend(a[1..], b, baseFee);
    } else {
      assert a + b == b;
    }
  }

  /** A violation inside `a` is a violation of `a + b` too: returning early is sound. */
  lemma NotOrderedExtends(a: seq<Tx>, b: seq<Tx>, baseFee: Option<int>)
    requires !Ordered(a, baseFee)
    ensures !Ordered(a + b, baseFee)
  {
    PriorityFeesAppend(a, b, baseFee);
    var fa := PriorityFees(a, baseFee);
    var k :| 0 < k < |fa| && fa[k] > fa[k - 1];
    var all := PriorityFees(a + b, baseFee);
    assert all[k] == fa[k] && all[k - 1] == fa[k - 1];
  }

  /** A violation among the first n transactions is a violation of the whole block. */
  lemma NotOrderedPrefix(txs: seq<Tx>, n: int, baseFee: Option<int>)
    requires 0 <= n <= |txs| && !Ordered(txs[..n], baseFee)
    ensures !Ordered(txs, baseFee)
  {
    NotOrderedExtends(txs[..n], txs[n..], baseFee);
    assert txs[..n] + txs[n..] == txs;
  }

  /** A run of skipped transactions contributes no fee. */
  lemma {:induction false} SkippedContributeNothing(txs: seq<Tx>, baseFee: Option<int>)
    requires forall m :: 0 <= m < |txs| ==> !Counted(txs[m], baseFee)
    ensures PriorityFees(txs, baseFee) == []
  {
    if txs != [] {
      assert !Counted(txs[0], baseFee);
      SkippedContributeNothing(txs[1..], baseFee);
    }
  }

  /** A block with no transactions, or only skipped ones, is ordered. */
  lemma OnlySkippedIsOrdered(txs: seq<Tx>, baseFee: Option<int>)
    requires forall m :: 0 <= m < |txs| ==> !Counted(txs[m], baseFee)
    ensures Ordered(txs, baseFee)
  {
    SkippedContributeNothing(txs, baseFee);
  }

  /**
   * A block in which at most one transaction is counted is ordered: the first
   * counted transaction is compared against +infinity and never fails.
   */
  lemma {:induction false} AtMostOneCountedIsOrdered(txs: seq<Tx>, baseFee: Option<int>)
    requires forall i, j :: 0 <= i < j < |txs| && Counted(txs[i], baseFee) ==> !Counted(txs[j], baseFee)
    ensures Ordered(txs, baseFee)
    ensures |PriorityFees(txs, baseFee)| <= 1
  {
    if txs != [] {
      if Counted(txs[0], baseFee) {
        forall m | 0 <= m < |txs[1..]| ensures !Counted(txs[1..][m], baseFee) {
          assert txs[1..][m] == txs[m + 1];
        }
        SkippedContributeNothing(txs[1..], baseFee);
      } else {
        AtMostOneCountedIsOrdered(txs[1..], baseFee);
      }
    }
  }

  /** Ties are allowed: when every counted transaction has the same fee, the block is ordered. */
  lemma {:induction false} EqualFeesAreOrdered(txs: seq<Tx>, baseFee: Option<int>, c: int)
    requires forall m :: 0 <= m < |txs| && Counted(txs[m], baseFee) ==> PriorityFee(txs[m], baseFee).value == c
    ensures Ordered(txs, baseFee)
    ensures forall k :: 0 <= k < |PriorityFees(txs, baseFee)| ==> PriorityFees(txs, baseFee)[k] == c
  {
    if txs != [] {
      assert forall m :: 0 <= m < |txs[1..]| ==> txs[1..][m] == txs[m + 1];
      EqualFeesAreOrdered(txs[1..], baseFee, c);
    }
  }

  /**
   * In a post-EIP-1559 block of legacy transactions only, the base fee changes
   * nothing: each is ranked by its raw `gasPrice`, as before the change.
   */
  lemma {:induction false} LegacyOnlyIgnoresBaseFee(txs: seq<Tx>, baseFee: int)
    requires forall m :: 0 <= m < |txs| ==> txs[m].txType == LegacyType
    ensures PriorityFees(txs, Some(baseFee)) == PriorityFees(txs, None)
    ensures Ordered(txs, Some(baseFee)) == Ordered(txs, None)
  {
    if txs != [] {
      assert forall m :: 0 <= m < |txs[1..]| ==> txs[1..][m] == txs[m + 1];
      LegacyOnlyIgnoresBaseFee(txs[1..], baseFee);
    }
  }

  /** Inserting a skipped transaction anywhere never changes the answer. */
  lemma SkippedTxIsIgnored(before: seq<Tx>, tx: Tx, after: seq<Tx>, baseFee: Option<int>)
    requires !Counted(tx, baseFee)
    ensures PriorityFees(before + [tx] + after, baseFee) == PriorityFees(before + after, baseFee)
    ensures Ordered(before + [tx] + after, baseFee) == Ordered(before + after, baseFee)
  {
    PriorityFeesAppend(before + [tx], after, baseFee);
    PriorityFeesAppend(before, [tx], baseFee);
    PriorityFeesAppend(before, after, baseFee);
  }

  /** The chain check on neighbours is the same as full descending order. */
  lemma NonIncreasingIffSorted(s: seq<int>)
    ensures NonIncreasing(s) <==> SortedDescending(s)
  {
    if NonIncreasing(s) {
      forall i, j | 0 <= i < j < |s| ensures s[j] <= s[i] {
        DescendingChain(s, i, j);
      }
    }
  }

  lemma {:induction false} DescendingChain(s: seq<int>, i: int, j: int)
    requires NonIncreasing(s)
    requires 0 <= i <= j < |s|
    ensures s[j] <= s[i]
    decreases j - i
  {
    if i < j {
      DescendingChain(s, i, j - 1);
    }
  }

  /** The first fee of a non-empty fee sequence belongs to a transaction preceded only by skipped ones. */
  lemma {:induction false} FirstCounted(txs: seq<Tx>, baseFee: Option<int>) returns (j: int)
    requires PriorityFees(txs, baseFee) != []
    ensures 0 <= j < |txs|
    ensures PriorityFee(txs[j], baseFee) == Some(PriorityFees(txs, baseFee)[0])
    ensures forall m :: 0 <= m < j ==> !Counted(txs[m], baseFee)
    ensures PriorityFees(txs, baseFee) == [PriorityFees(txs, baseFee)[0]] + PriorityFees(txs[j + 1..], baseFee)
  {
    if Counted(txs[0], baseFee) {
      j := 0;
    } else {
      var j' := FirstCounted(txs[1..], baseFee);
      j := j' + 1;
      assert txs[1..][j' + 1..] == txs[j + 1..];
      forall m | 0 <= m < j ensures !Counted(txs[m], baseFee) {
        if m > 0 { assert txs[m] == txs[1..][m - 1]; }
      }
    }
  }

  /**
   * The answer is false exactly when some counted transaction's fee is greater
   * than that of the counted transaction just before it.
   */
  lemma {:induction false} NotOrderedIffAdjacentIncrease(txs: seq<Tx>, baseFee: Option<int>)
    ensures !Ordered(txs, baseFee) <==> exists i, j :: AdjacentIncrease(txs, baseFee, i, j)
  {
    if !Ordered(txs, baseFee) {
      var i, j := LocateIncrease(txs, baseFee);
    }
    if exists i, j :: AdjacentIncrease(txs, baseFee, i, j) {
      var i, j :| AdjacentIncrease(txs, baseFee, i, j);
      AdjacentIncreaseBreaksOrder(txs, baseFee, i, j);
    }
  }

  lemma {:induction false} LocateIncrease(txs: seq<Tx>, baseFee: Option<int>) returns (i: int, j: int)
    requires !Ordered(txs, baseFee)
    ensures AdjacentIncrease(txs, baseFee, i, j)
  {
    assert txs != [];
    var rest := txs[1..];
    if !Ordered(rest, baseFee) {
      var i', j' := LocateIncrease(rest, baseFee);
      AdjacentIncreaseShift(txs, baseFee, i', j');
      i, j := i' + 1, j' + 1;
    } else {
      i := 0;
      j := IncreaseAtHead(txs, baseFee);
    }
  }

  /** A witness in the tail is a witness in the whole sequence, one position later. */
  lemma AdjacentIncreaseShift(txs: seq<Tx>, baseFee: Option<int>, i: int, j: int)
    requires txs != [] && AdjacentIncrease(txs[1..], baseFee, i, j)
    ensures AdjacentIncrease(txs, baseFee, i + 1, j + 1)
  {
    forall m | i + 1 < m < j + 1 ensures !Counted(txs[m], baseFee) {
      assert txs[m] == txs[1..][m - 1];
    }
  }

  /** When the tail is ordered but the whole is not, the first transaction and the first counted one after it witness it. */
  lemma IncreaseAtHead(txs: seq<Tx>, baseFee: Option<int>) returns (j: int)
    requires txs != [] && !Ordered(txs, baseFee) && Ordered(txs[1..], baseFee)
    ensures AdjacentIncrease(txs, baseFee, 0, j)
  {
    var rest := txs[1..];
    var f := PriorityFee(txs[0], baseFee).value;
    var fr := PriorityFees(rest, baseFee);
    assert PriorityFees(txs, baseFee) == [f] + fr;
    assert fr != [] && fr[0] > f;
    var j' := FirstCounted(rest, baseFee);
    j := j' + 1;
    forall m | 0 < m < j ensures !Counted(txs[m], baseFee) {
      assert txs[m] == rest[m - 1];
    }
  }

  lemma AdjacentIncreaseBreaksOrder(txs: seq<Tx>, baseFee: Option<int>, i: int, j: int)
    requires AdjacentIncrease(txs, baseFee, i, j)
    ensures !Ordered(txs, baseFee)
  {
    LastFeeAfterSkipped(txs, baseFee, i, j);
    OrderedStep(txs, j, baseFee);
    NotOrderedPrefix(txs, j + 1, baseFee);
  }

  /** After counted transaction i and only skipped ones up to k, the last counted fee is i's. */
  lemma {:induction false} LastFeeAfterSkipped(txs: seq<Tx>, baseFee: Option<int>, i: int, k: int)
    requires 0 <= i < k <= |txs|
    requires Counted(txs[i], baseFee)
    requires forall m :: i < m < k ==> !Counted(txs[m], baseFee)
    ensures LastFee(PriorityFees(txs[..k], baseFee)) == PriorityFee(txs[i], baseFee)
    decreases k
  {
    OrderedStep(txs, k - 1, baseFee);
    if k - 1 > i {
      LastFeeAfterSkipped(txs, baseFee, i, k - 1);
    }
  }

  /**
   * Before EIP-1559, gas prices 100, 100, 50 are ordered whatever the types and
   * fee-market fields: ties are allowed.
   */
  lemma PreEip1559TiesExample(t0: int, t1: int, t2: int, p0: int, p1: int, p2: int, m0: int, m1: int, m2: int)
    ensures Ordered([Tx(t0, 100, p0, m0), Tx(t1, 100, p1, m1), Tx(t2, 50, p2, m2)], None)
  {
  }

  /** Before EIP-1559, gas prices 50, 100 are not ordered. */
  lemma PreEip1559IncreaseExample()
    ensures !Ordered([Tx(0, 50, 0, 0), Tx(0, 100, 0, 0)], None)
  {
  }

  /** Before EIP-1559, a block is ordered exactly when its gas prices descend (ties allowed). */
  lemma PreEip1559OrderedIffSortedByGasPrice(txs: seq<Tx>)
    ensures Ordered(txs, None) <==> forall i, j :: 0 <= i < j < |txs| ==> txs[j].gasPrice <= txs[i].gasPrice
  {
    NonIncreasingIffSorted(PriorityFees(txs, None));
  }

  /**
   * After EIP-1559 a legacy transaction is ranked by its raw gas price, not by
   * gas price minus base fee. With base fee 10, a legacy transaction paying 15
   * (5 above the base fee) followed by a fee-market transaction with priority
   * fee 8 counts as ordered, although 5 < 8.
   */
  lemma MixedTypesCompareRawGasPrice()
    ensures PriorityFees([Tx(0, 15, 0, 0), Tx(2, 18, 8, 100)], Some(10)) == [15, 8]
    ensures Ordered([Tx(0, 15, 0, 0), Tx(2, 18, 8, 100)], Some(10))
  {
  }
}
