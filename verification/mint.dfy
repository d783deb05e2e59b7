/** The token-minting script: one `mint` call per id of the range
    `[startId, startId + totalNum)`, submitted in batches of at most
    `BatchSize` calls. Submitting a batch (an account transaction and the
    wait for it) is modelled as appending `(fromId, toId, calls)` to a log;
    the agent account's address and the parsed parent collection addresses
    are plain parameters. */
module MintTokens {
  import opened Arith

  /** Calls per submitted transaction. */
  const BatchSize: nat := 100

  /** One parent reference `{'collection': addr, 'id': id}`. */
  datatype ParentRef = ParentRef(collection: int, id: int)

  /** A prepared `mint(to, tokenId, parents)` call. */
  datatype MintCall = MintCall(to: int, tokenId: int, parents: seq<ParentRef>)

  /** One submitted batch, with the id range it reports. */
  datatype Batch = Batch(fromId: int, toId: int, calls: seq<MintCall>)

  /** The parent list of the token `id`: one reference per parent address,
      in order, each naming the same id as the minted token. */
  function ParentRefs(addrs: seq<int>, id: int): (r: seq<ParentRef>)
    ensures |r| == |addrs|
    ensures forall i :: 0 <= i < |r| ==> r[i].collection == addrs[i] && r[i].id == id
  {
    if |addrs| == 0 then [] else [ParentRef(addrs[0], id)] + ParentRefs(addrs[1..], id)
  }

  /** The `mint` call prepared for token `id`: addressed to `agent` whatever
      the id, minting `id`, with one parent reference per parent address, in
      order, each naming `id`. */
  function PrepareMint(agent: int, id: int, parentAddrs: seq<int>): (r: MintCall)
    ensures r.to == agent && r.tokenId == id
    ensures |r.parents| == |parentAddrs|
    ensures forall i :: 0 <= i < |parentAddrs| ==> r.parents[i] == ParentRef(parentAddrs[i], id)
  {
    MintCall(agent, id, ParentRefs(parentAddrs, id))
  }

  /** All calls of a log of batches, in submission order. */
  function Flatten(log: seq<Batch>): seq<MintCall>
  {
    if |log| == 0 then [] else Flatten(log[..|log| - 1]) + log[|log| - 1].calls
  }

  /** How many ids `[startId, startId + totalNum)` holds; none when
      `totalNum <= 0`. */
  function RangeSize(totalNum: int): nat
  {
    if totalNum > 0 then totalNum else 0
  }

  /** `calls` is the `mint` call of each id of `[startId, startId + totalNum)`,
      once each, in increasing id order. */
  ghost predicate MintsRange(calls: seq<MintCall>, agent: int, startId: int, totalNum: int, parentAddrs: seq<int>)
  {
    |calls| == RangeSize(totalNum) && MintsFrom(calls, agent, startId, parentAddrs)
  }

  /** `calls` is the `mint` call of each id from `firstId` on, in order. */
  ghost predicate MintsFrom(calls: seq<MintCall>, agent: int, firstId: int, parentAddrs: seq<int>)
  {
    forall k :: 0 <= k < |calls| ==> calls[k] == PrepareMint(agent, firstId + k, parentAddrs)
  }

  /** A batch that is not empty, does not exceed `BatchSize`, and reports
      the ids of its first and last call. */
  ghost predicate LabelledBatch(b: Batch)
  {
    && 1 <= |b.calls| <= BatchSize
    && b.fromId == b.calls[0].tokenId
    && b.toId == b.calls[|b.calls| - 1].tokenId
  }

  lemma FlattenAppend(log: seq<Batch>, b: Batch)
    ensures Flatten(log + [b]) == Flatten(log) + b.calls
  {
    assert (log + [b])[..|log|] == log;
  }

  /** Two consecutive runs of calls form one run. */
  lemma MintsFromConcat(a: seq<MintCall>, b: seq<MintCall>, agent: int, firstId: int, parentAddrs: seq<int>)
    requires MintsFrom(a, agent, firstId, parentAddrs)
    requires MintsFrom(b, agent, firstId + |a|, parentAddrs)
    ensures MintsFrom(a + b, agent, firstId, parentAddrs)
  {
  }

  /** The batches submitted while the loop runs: every one labelled and
      full, each starting right after the previous one, the first at
      `startId`, and `nextId` the id right after the last one. */
  ghost predicate FullBatches(log: seq<Batch>, startId: int, nextId: int)
  {
    && (forall i :: 0 <= i < |log| ==> LabelledBatch(log[i]) && |log[i].calls| == BatchSize)
    && (forall i :: 0 < i < |log| ==> log[i].fromId == log[i - 1].toId + 1)
    && (|log| == 0 ==> nextId == startId)
    && (|log| > 0 ==> log[0].fromId == startId && nextId == log[|log| - 1].toId + 1)
  }

  /** The loop's state after walking `[startId, id)`: the submitted batches
      are full and contiguous and hold the calls of the first ids, and the
      pending `calls`, fewer than `BatchSize`, hold the calls of the ids
      from `batchStartId` up to `id`. */
  ghost predicate Walked(agent: int, startId: int, parentAddrs: seq<int>,
                         log: seq<Batch>, calls: seq<MintCall>, id: int, batchStartId: int)
  {
    && |calls| < BatchSize
    && batchStartId == id - |calls|
    && |Flatten(log)| == |log| * BatchSize
    && batchStartId == startId + |log| * BatchSize
    && MintsFrom(Flatten(log), agent, startId, parentAddrs)
    && MintsFrom(calls, agent, batchStartId, parentAddrs)
    && FullBatches(log, startId, batchStartId)
  }

  /** Preparing one more call that does not fill the batch. */
  lemma WalkedPend(agent: int, startId: int, parentAddrs: seq<int>,
                   log: seq<Batch>, calls: seq<MintCall>, id: int, batchStartId: int)
    requires Walked(agent, startId, parentAddrs, log, calls, id, batchStartId)
    requires |calls| + 1 < BatchSize
    ensures Walked(agent, startId, parentAddrs, log, calls + [PrepareMint(agent, id, parentAddrs)], id + 1, batchStartId)
  {
    MintsFromConcat(calls, [PrepareMint(agent, id, parentAddrs)], agent, batchStartId, parentAddrs);
  }

  /** Preparing the call that fills the batch, and submitting the batch. */
  lemma WalkedFlush(agent: int, startId: int, parentAddrs: seq<int>,
                    log: seq<Batch>, calls: seq<MintCall>, id: int, batchStartId: int)
    requires Walked(agent, startId, parentAddrs, log, calls, id, batchStartId)
    requires |calls| + 1 == BatchSize
    ensures var full := calls + [PrepareMint(agent, id, parentAddrs)];
            Walked(agent, startId, parentAddrs, log + [Batch(batchStartId, id, full)], [], id + 1, id + 1)
  {
    var full := calls + [PrepareMint(agent, id, parentAddrs)];
    var b := Batch(batchStartId, id, full);
    MintsFromConcat(calls, [PrepareMint(agent, id, parentAddrs)], agent, batchStartId, parentAddrs);
    FlattenAppend(log, b);
    MintsFromConcat(Flatten(log), full, agent, startId, parentAddrs);
    FullBatchesAppend(log, startId, b);
  }

  /** Submitting a labelled full batch that starts at `nextId` keeps the log
      made of full contiguous batches. */
  lemma FullBatchesAppend(log: seq<Batch>, startId: int, b: Batch)
    requires FullBatches(log, startId, b.fromId)
    requires LabelledBatch(b) && |b.calls| == BatchSize
    ensures FullBatches(log + [b], startId, b.toId + 1)
  {
  }

  /** The log `mint_tokens` leaves behind, as the script promises it: the
      calls of the whole range in order, in labelled contiguous batches
      that are all full except possibly the last, `ceil(n / BatchSize)` of
      them for a range of `n` ids. */
  ghost predicate MintLog(log: seq<Batch>, agent: int, startId: int, totalNum: int, parentAddrs: seq<int>)
  {
    && MintsRange(Flatten(log), agent, startId, totalNum, parentAddrs)
    && (forall i :: 0 <= i < |log| ==> LabelledBatch(log[i]))
    && (forall i :: 0 <= i < |log| - 1 ==> |log[i].calls| == BatchSize)
    && (forall i :: 0 < i < |log| ==> log[i].fromId == log[i - 1].toId + 1)
    && (|log| > 0 ==> log[0].fromId == startId && log[|log| - 1].toId == startId + totalNum - 1)
    && (totalNum <= 0 ==> log == [])
    && |log| == (RangeSize(totalNum) + BatchSize - 1) / BatchSize
  }

  /** Once the whole range is walked, submitting the non-empty remainder (if
      any) completes the log. */
  lemma WalkedFinish(agent: int, startId: int, totalNum: int, parentAddrs: seq<int>,
                     log: seq<Batch>, calls: seq<MintCall>, batchStartId: int)
    requires Walked(agent, startId, parentAddrs, log, calls, startId + RangeSize(totalNum), batchStartId)
    ensures var id := startId + RangeSize(totalNum);
            |calls| > 0 ==> MintLog(log + [Batch(batchStartId, id - 1, calls)], agent, startId, totalNum, parentAddrs)
    ensures |calls| == 0 ==> MintLog(log, agent, startId, totalNum, parentAddrs)
  {
    if |calls| > 0 {
      FinishRemainder(agent, startId, totalNum, parentAddrs, log, calls, batchStartId);
    } else {
      FinishEmpty(agent, startId, totalNum, parentAddrs, log, calls, batchStartId);
    }
  }

  /** The non-empty remainder becomes the last, possibly short, batch. */
  lemma FinishRemainder(agent: int, startId: int, totalNum: int, parentAddrs: seq<int>,
                        log: seq<Batch>, calls: seq<MintCall>, batchStartId: int)
    requires Walked(agent, startId, parentAddrs, log, calls, startId + RangeSize(totalNum), batchStartId)
    requires |calls| > 0
    ensures MintLog(log + [Batch(batchStartId, startId + RangeSize(totalNum) - 1, calls)], agent, startId, totalNum, parentAddrs)
  {
    var n := RangeSize(totalNum);
    var b := Batch(batchStartId, startId + n - 1, calls);
    FlattenAppend(log, b);
    MintsFromConcat(Flatten(log), calls, agent, startId, parentAddrs);
    assert LabelledBatch(b);
    LastBatchAppend(log, startId, b);
    BatchCount(n, |log|, |calls|);
  }

  /** Appending a labelled batch, full or not, that starts at `nextId` after
      full contiguous batches keeps the shape the final log promises. */
  lemma LastBatchAppend(log: seq<Batch>, startId: int, b: Batch)
    requires FullBatches(log, startId, b.fromId)
    requires LabelledBatch(b)
    ensures var log' := log + [b];
            && (forall i :: 0 <= i < |log'| ==> LabelledBatch(log'[i]))
            && (forall i :: 0 <= i < |log'| - 1 ==> |log'[i].calls| == BatchSize)
            && (forall i :: 0 < i < |log'| ==> log'[i].fromId == log'[i - 1].toId + 1)
            && log'[0].fromId == startId
  {
  }

  /** `n` ids made of `full` full batches and a remainder of 1 to
      `BatchSize` calls take `full + 1` batches. */
  lemma BatchCount(n: nat, full: nat, rest: nat)
    requires 1 <= rest <= BatchSize
    requires n == full * BatchSize + rest
    ensures (n + BatchSize - 1) / BatchSize == full + 1
  {
    DivModUnique(n + BatchSize - 1, BatchSize, full + 1, rest - 1);
  }

  /** With nothing pending, the full batches already form the whole log. */
  lemma FinishEmpty(agent: int, startId: int, totalNum: int, parentAddrs: seq<int>,
                    log: seq<Batch>, calls: seq<MintCall>, batchStartId: int)
    requires Walked(agent, startId, parentAddrs, log, calls, startId + RangeSize(totalNum), batchStartId)
    requires |calls| == 0
    ensures MintLog(log, agent, startId, totalNum, parentAddrs)
  {
    var n := RangeSize(totalNum);
    assert |Flatten(log)| == n;
    DivModUnique(n + BatchSize - 1, BatchSize, |log|, BatchSize - 1);
  }

  /** `mint_tokens`: walks the id range once, preparing one call per id, and
      submits a batch whenever `BatchSize` calls have built up and once more
      for a non-empty remainder. */
  method MintTokens(agent: int, startId: int, totalNum: int, parentAddrs: seq<int>)
    returns (log: seq<Batch>)
    ensures MintLog(log, agent, startId, totalNum, parentAddrs)
  {
    var id := startId;
    var batchStartId := id;
    var calls: seq<MintCall> := [];
    log := [];
    while id < startId + totalNum
      invariant startId <= id <= startId + RangeSize(totalNum)
      invariant Walked(agent, startId, parentAddrs, log, calls, id, batchStartId)
    {
      if |calls| + 1 == BatchSize {
        WalkedFlush(agent, startId, parentAddrs, log, calls, id, batchStartId);
      } else {
        WalkedPend(agent, startId, parentAddrs, log, calls, id, batchStartId);
      }
      calls := calls + [PrepareMint(agent, id, parentAddrs)];
      if |calls| == BatchSize {
        log := log + [Batch(batchStartId, id, calls)];
        batchStartId := id + 1;
        calls := [];
      }
      id := id + 1;
    }
    WalkedFinish(agent, startId, totalNum, parentAddrs, log, calls, batchStartId);
    if |calls| > 0 {
      log := log + [Batch(batchStartId, id - 1, calls)];
    }
  }

  /** The token ids of `calls`, in order. */
  function TokenIds(calls: seq<MintCall>): (r: seq<int>)
    ensures |r| == |calls|
    ensures forall k :: 0 <= k < |calls| ==> r[k] == calls[k].tokenId
  {
    if |calls| == 0 then [] else [calls[0].tokenId] + TokenIds(calls[1..])
  }

  /** Every id of the range is minted, no id outside it is, and ids strictly
      increase along the calls, so each id is minted exactly once. */
  lemma EachIdMintedOnce(calls: seq<MintCall>, agent: int, startId: int, totalNum: int, parentAddrs: seq<int>)
    requires MintsRange(calls, agent, startId, totalNum, parentAddrs)
    ensures forall id :: startId <= id < startId + totalNum ==> id in TokenIds(calls)
    ensures forall id :: id in TokenIds(calls) ==> startId <= id < startId + totalNum
    ensures forall j, k :: 0 <= j < k < |calls| ==> calls[j].tokenId < calls[k].tokenId
  {
    var ids := TokenIds(calls);
    forall id | startId <= id < startId + totalNum
      ensures id in ids
    {
      assert ids[id - startId] == id;
    }
  }

  /** A run of calls split in two is two consecutive runs. */
  lemma MintsFromSplit(a: seq<MintCall>, b: seq<MintCall>, agent: int, firstId: int, parentAddrs: seq<int>)
    requires MintsFrom(a + b, agent, firstId, parentAddrs)
    ensures MintsFrom(a, agent, firstId, parentAddrs)
    ensures MintsFrom(b, agent, firstId + |a|, parentAddrs)
  {
    forall k | 0 <= k < |a|
      ensures a[k] == PrepareMint(agent, firstId + k, parentAddrs)
    {
      assert a[k] == (a + b)[k];
    }
    forall k | 0 <= k < |b|
      ensures b[k] == PrepareMint(agent, firstId + |a| + k, parentAddrs)
    {
      assert b[k] == (a + b)[|a| + k];
    }
  }

  /** When the submitted calls are one run, so is every batch, starting at
      the id of its first call. */
  lemma {:induction false} EachBatchARun(log: seq<Batch>, agent: int, firstId: int, parentAddrs: seq<int>)
    requires MintsFrom(Flatten(log), agent, firstId, parentAddrs)
    ensures forall i :: 0 <= i < |log| && |log[i].calls| > 0 ==>
      MintsFrom(log[i].calls, agent, log[i].calls[0].tokenId, parentAddrs)
    decreases |log|
  {
    if |log| > 0 {
      var init, last := log[..|log| - 1], log[|log| - 1];
      MintsFromSplit(Flatten(init), last.calls, agent, firstId, parentAddrs);
      EachBatchARun(init, agent, firstId, parentAddrs);
      forall i | 0 <= i < |log| && |log[i].calls| > 0
        ensures MintsFrom(log[i].calls, agent, log[i].calls[0].tokenId, parentAddrs)
      {
        if i < |log| - 1 {
          assert log[i] == init[i];
        }
      }
    }
  }

  /** Each batch reports exactly its own ids: its calls mint `fromId`,
      `fromId + 1`, ..., `toId`, in order. */
  lemma BatchesMintTheirRange(log: seq<Batch>, agent: int, startId: int, totalNum: int, parentAddrs: seq<int>)
    requires MintLog(log, agent, startId, totalNum, parentAddrs)
    ensures forall i :: 0 <= i < |log| ==> MintsFrom(log[i].calls, agent, log[i].fromId, parentAddrs)
    ensures forall i :: 0 <= i < |log| ==> log[i].toId == log[i].fromId + |log[i].calls| - 1
  {
    EachBatchARun(log, agent, startId, parentAddrs);
  }

  /** Every call mints to the agent account and carries one parent
      reference per parent address, in order, naming the minted id. */
  lemma CallsShareRecipientAndParents(calls: seq<MintCall>, agent: int, startId: int, totalNum: int, parentAddrs: seq<int>)
    requires MintsRange(calls, agent, startId, totalNum, parentAddrs)
    ensures forall k :: 0 <= k < |calls| ==> calls[k].to == agent
    ensures forall k :: 0 <= k < |calls| ==> |calls[k].parents| == |parentAddrs|
    ensures forall k, p :: 0 <= k < |calls| && 0 <= p < |parentAddrs| ==>
      calls[k].parents[p] == ParentRef(parentAddrs[p], calls[k].tokenId)
  {
  }
}
