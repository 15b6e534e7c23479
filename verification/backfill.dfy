/**
 * The backfill itself: the table the script updates in place, the per-item
 * update, the per-batch counting loop and the run over all batches.
 *
 * Batches run one after another here. The script hands them to a thread
 * pool. `VectorIds.ApplyItemsReorder` shows that any reordering of the
 * calls, and so any interleaving of concurrent batches, leaves the same
 * table. `Batching.SumReorder` shows that the order in which batch counts
 * arrive does not change the total.
 */
module Backfill {
  import opened Batching
  import opened VectorIds

  const BATCH_SIZE: nat := 25

  /** Each batch of flags belongs to the batch of items at the same position. */
  lemma BatchesPaired(items: seq<Item>, fails: seq<bool>)
    requires |fails| == |items| && AllKeysString(items)
    ensures |Batches(fails, BATCH_SIZE)| == |Batches(items, BATCH_SIZE)|
    ensures forall j :: 0 <= j < |Batches(items, BATCH_SIZE)| ==>
      |Batches(fails, BATCH_SIZE)[j]| == |Batches(items, BATCH_SIZE)[j]| && AllKeysString(Batches(items, BATCH_SIZE)[j])
  {
    BatchesAligned(items, fails, BATCH_SIZE);
    forall j, i | 0 <= j < |Batches(items, BATCH_SIZE)| && 0 <= i < |Batches(items, BATCH_SIZE)[j]|
      ensures KeyIsString(Batches(items, BATCH_SIZE)[j][i])
    {
      BatchElement(items, BATCH_SIZE, j, i);
    }
  }

  /**
   * Processing batch `j` after the first `j` batches is processing the
   * items and flags up to the end of batch `j`.
   */
  lemma BatchStep(rows: Table, items: seq<Item>, fails: seq<bool>, sha1: Digest, j: nat)
    requires |fails| == |items| && AllKeysString(items)
    requires j < |Batches(items, BATCH_SIZE)|
    ensures |Batches(fails, BATCH_SIZE)| == |Batches(items, BATCH_SIZE)|
    ensures var b, fb := Batches(items, BATCH_SIZE)[j], Batches(fails, BATCH_SIZE)[j];
      var m, m' := Min(j * BATCH_SIZE, |items|), Min((j + 1) * BATCH_SIZE, |items|);
      && |fb| == |b| && AllKeysString(b)
      && AllKeysString(items[..m]) && AllKeysString(items[..m'])
      && ApplyItems(rows, items[..m'], fails[..m'], sha1) == ApplyItems(ApplyItems(rows, items[..m], fails[..m], sha1), b, fb, sha1)
      && CountUpdates(items[..m'], fails[..m']) == CountUpdates(items[..m], fails[..m]) + CountUpdates(b, fb)
  {
    var batches, failBatches := Batches(items, BATCH_SIZE), Batches(fails, BATCH_SIZE);
    BatchesAligned(items, fails, BATCH_SIZE);
    var m, m' := Min(j * BATCH_SIZE, |items|), Min((j + 1) * BATCH_SIZE, |items|);
    ConcatBatchesPrefix(items, BATCH_SIZE, j);
    ConcatBatchesPrefix(items, BATCH_SIZE, j + 1);
    ConcatBatchesPrefix(fails, BATCH_SIZE, j);
    ConcatBatchesPrefix(fails, BATCH_SIZE, j + 1);
    assert batches[..j + 1][..j] == batches[..j];
    assert failBatches[..j + 1][..j] == failBatches[..j];
    assert items[..m'] == items[..m] + batches[j];
    assert fails[..m'] == fails[..m] + failBatches[j];
    assert AllKeysString(items[..m]) by {
      assert forall i :: 0 <= i < m ==> items[..m][i] == items[i];
    }
    BatchesPaired(items, fails);
    ApplyItemsAppend(rows, items[..m], fails[..m], batches[j], failBatches[j], sha1);
    CountUpdatesAppend(items[..m], fails[..m], batches[j], failBatches[j]);
  }

  /** The photo table the script updates, through the store, in place. */
  class PhotoTable {
    var rows: Table

    constructor (initial: Table)
      ensures rows == initial
    {
      rows := initial;
    }

    /**
     * `update_item_with_vector_id(item)`; `failed` says whether the store
     * answers the update with a client error.
     */
    method UpdateItemWithVectorId(item: Item, failed: bool, sha1: Digest) returns (ok: bool)
      requires KeyIsString(item)
      modifies this
      ensures ok == Succeeds(item, failed)
      ensures rows == UpdateOutcome(old(rows), item, failed, sha1).rows
    {
      var key := ItemKey(item);
      if key.None? {
        return false;
      }
      if VECTOR_ID_FIELD in item {
        return false;
      }
      var vectorId := KeyToId(sha1, key.value);
      if failed {
        return false;
      }
      rows := SetVectorId(rows, key.value, vectorId);
      return true;
    }

    /** `process_batch(batch)`: update each item in turn and count the successes. */
    method ProcessBatch(batch: seq<Item>, fails: seq<bool>, sha1: Digest) returns (updated: nat)
      requires |fails| == |batch| && AllKeysString(batch)
      modifies this
      ensures updated == CountUpdates(batch, fails) <= |batch|
      ensures rows == ApplyItems(old(rows), batch, fails, sha1)
    {
      updated := 0;
      var i := 0;
      while i < |batch|
        invariant 0 <= i <= |batch|
        invariant AllKeysString(batch[..i])
        invariant updated == CountUpdates(batch[..i], fails[..i])
        invariant rows == ApplyItems(old(rows), batch[..i], fails[..i], sha1)
      {
        assert batch[..i + 1][..i] == batch[..i] && fails[..i + 1][..i] == fails[..i];
        var ok := UpdateItemWithVectorId(batch[i], fails[i], sha1);
        if ok {
          updated := updated + 1;
        }
        i := i + 1;
      }
      assert batch[..i] == batch && fails[..i] == fails;
    }

    /**
     * The run `main` performs on the scanned `items`: stop when every item
     * already has a vector ID, otherwise process the batches and add up
     * their counts. `batchCounts` are the per-batch counts it reports.
     */
    method Run(items: seq<Item>, fails: seq<bool>, sha1: Digest) returns (updatedCount: nat, batchCounts: seq<nat>)
      requires |fails| == |items| && AllKeysString(items)
      modifies this
      ensures ItemsToUpdate(items) == 0 ==> rows == old(rows) && updatedCount == 0 && batchCounts == []
      ensures ItemsToUpdate(items) != 0 ==> |batchCounts| == |Batches(items, BATCH_SIZE)|
      ensures forall t :: 0 <= t < |batchCounts| ==>
          var b, fb := Batches(items, BATCH_SIZE), Batches(fails, BATCH_SIZE);
          t < |b| && t < |fb| && |fb[t]| == |b[t]| && AllKeysString(b[t]) &&
          batchCounts[t] == CountUpdates(b[t], fb[t])
      ensures updatedCount == Sum(batchCounts) == CountUpdates(items, fails)
      ensures updatedCount <= ItemsToUpdate(items)
      ensures rows == ApplyItems(old(rows), items, fails, sha1)
    {
      UpdatesWithinItemsToUpdate(items, fails);
      updatedCount, batchCounts := 0, [];
      if ItemsToUpdate(items) == 0 {
        NothingToUpdate(rows, items, fails, sha1);
        return;
      }
      var batches := Batches(items, BATCH_SIZE);
      var failBatches := Batches(fails, BATCH_SIZE);
      BatchesPaired(items, fails);
      var j := 0;
      while j < |batches|
        invariant 0 <= j <= |batches|
        invariant |batchCounts| == j
        invariant updatedCount == Sum(batchCounts)
        invariant forall t :: 0 <= t < j ==> batchCounts[t] == CountUpdates(batches[t], failBatches[t])
        invariant var m := Min(j * BATCH_SIZE, |items|);
          && AllKeysString(items[..m])
          && updatedCount == CountUpdates(items[..m], fails[..m])
          && rows == ApplyItems(old(rows), items[..m], fails[..m], sha1)
      {
        BatchStep(old(rows), items, fails, sha1, j);
        var batchUpdated := ProcessBatch(batches[j], failBatches[j], sha1);
        updatedCount := updatedCount + batchUpdated;
        SumAppend(batchCounts, [batchUpdated]);
        batchCounts := batchCounts + [batchUpdated];
        j := j + 1;
      }
      assert Min(j * BATCH_SIZE, |items|) == |items|;
      assert items[..|items|] == items && fails[..|fails|] == fails;
    }
  }
}
