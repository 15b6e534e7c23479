# Vector-ID backfill of the photo table

This project models the backfill script `add_vector_ids.py` of the photo
viewer API. The script scans the photo table and stamps every item that
lacks one with a `VectorId`. The ID is `SHA1(Key) mod 10^18`, the same
identifier the vector index uses for that photo. The script runs in four
steps:

- it counts the items that already carry an ID and stops when none is missing;
- it splits the scanned items into batches of 25;
- it updates each item of a batch, skipping items without a key or with an ID;
- it adds up how many updates succeeded.

The model has three modules:

- `Batching` (`batching.dfy`): the list comprehension that cuts the items
  into fixed-size batches, flattening, and the running total.
- `VectorIds` (`vector_ids.dfy`): attribute values, items and the table
  (`map<string, map<string, Value>>`, keyed by `Key`), the ID derivation,
  and the specification of the per-item update as pure functions. It also
  holds the lemmas about whole runs.
- `Backfill` (`backfill.dfy`): the class `PhotoTable`, whose `rows` the
  methods update in place as the store is updated. `UpdateItemWithVectorId`,
  `ProcessBatch` (a counting loop) and `Run` (the early exit and the loop
  over batches) are each proved against the functions of `VectorIds`.

The SHA1 digest, read as the integer its hexadecimal form denotes, is the
parameter `sha1: string -> nat`. Only the reduction modulo 10^18 is modelled.
A `ClientError` from the store is a flag `failed` for one call, or a
sequence `fails` aligned with the items for a batch or a run. The store's
`SET VectorId = :vid` on a key is `SetVectorId`. Like DynamoDB's
`UpdateItem`, it creates the item, holding just its key, when the key is
absent.

## Model

| member | source | states |
|---|---|---|
| `VectorIds.KeyToId` | add_vector_ids.py:30-33 | the ID lies in `[0, 10^18)`, differs from the digest by a multiple of 10^18, and equals the digest when the digest is below 10^18; it is a function of the key, so equal keys give equal IDs |
| `VectorIds.ItemKey` | add_vector_ids.py:37-38 | a key is found exactly when the `Key` attribute is present and not the empty string, and it is that string |
| `VectorIds.SetVectorId` | add_vector_ids.py:51-56 | the update under `key` leaves that item holding `VectorId = id`, keeps its other attributes (or creates it with just its key), and leaves every other item alone |
| `VectorIds.UpdateOutcome` | add_vector_ids.py:35-60 | the call answers True exactly when the item has a non-empty key, has no `VectorId` and the store does not fail. A False answer (missing or empty key, existing ID, client error) leaves the table unchanged. A True answer sets that key's `VectorId` to `KeyToId(key)` and changes no other attribute and no other item |
| `Backfill.PhotoTable.UpdateItemWithVectorId` | add_vector_ids.py:35-60 | the in-place update answers as `Succeeds` says and leaves `rows` as `UpdateOutcome` says |
| `VectorIds.CountUpdates` | add_vector_ids.py:62-68 | the number of successful calls over a batch is at most the batch length |
| `VectorIds.CountUpdatesIsCardinality` | add_vector_ids.py:62-68 | that number is exactly the size of the set of positions whose call answers True |
| `Backfill.PhotoTable.ProcessBatch` | add_vector_ids.py:62-68 | the loop returns `CountUpdates(batch)`, so `0 <= result <= len(batch)`, and leaves the table as the calls applied in order leave it |
| `Batching.Batches` | add_vector_ids.py:95-96 | there are `ceil(n / size)` batches; each is non-empty and holds at most `size` items; all but the last hold exactly `size`; the empty input gives no batches, and only it does |
| `Batching.ConcatBatchesPrefix` | add_vector_ids.py:95 | the first `k` batches flatten to the first `min(k * size, n)` items |
| `Batching.ConcatBatches` | add_vector_ids.py:95 | concatenating the batches in order gives back the items |
| `Batching.SumAppend` | add_vector_ids.py:105-109 | accumulating two runs of counts one after the other adds their totals |
| `Batching.SumReorder` | add_vector_ids.py:105-109 | the total of the per-batch counts does not depend on the order in which the batches complete |
| `VectorIds.CountWithVectorId` | add_vector_ids.py:84 | the count of items that carry an ID is at most the number of items, and equals it exactly when every item carries one |
| `VectorIds.CountWithVectorIdIsCardinality` | add_vector_ids.py:84 | the count is exactly the number of positions whose item carries a `VectorId` |
| `VectorIds.ItemsToUpdateIsCardinality` | add_vector_ids.py:84-85 | `items_to_update` is exactly the number of positions whose item lacks a `VectorId` |
| `VectorIds.ItemsToUpdate` | add_vector_ids.py:84-85 | `items_to_update` lies in `[0, total]` and is 0 exactly when every scanned item already has an ID |
| `VectorIds.NothingToUpdate` | add_vector_ids.py:90-92 | when `items_to_update` is 0, processing every item would change no item and count no update, so the early exit loses nothing |
| `VectorIds.UpdatesWithinItemsToUpdate` | add_vector_ids.py:84-109 | the number of successful updates never exceeds `items_to_update` |
| `VectorIds.ApplyItemsAppend` | add_vector_ids.py:62-68 | processing `a + b` leaves the table as processing `a` and then `b` does |
| `VectorIds.CountUpdatesAppend` | add_vector_ids.py:101-109 | the success count over `a + b` is the count over `a` plus the count over `b` |
| `VectorIds.UpdatesCommute` | add_vector_ids.py:102-105 | two calls applied to the same table leave the same table in either order |
| `VectorIds.MoveCallToEnd` | add_vector_ids.py:102-105 | one call can be moved past all the calls that follow it without changing the final table |
| `VectorIds.ApplyItemsReorder` | add_vector_ids.py:102-105 | two runs whose multisets of (item, fails) pairs are equal leave the same table. Any interleaving of the calls that concurrent batches make is such a reordering, so it ends with the table the sequential order gives |
| `VectorIds.OnlyVectorIdsChange` | add_vector_ids.py:47-57 | after any sequence of calls, no item is removed. Every item keeps all of its attributes other than `VectorId`, or is new and holds only its key. Every item that changed now holds its key's derived ID |
| `VectorIds.BackfillOverScan` | add_vector_ids.py:4-9 | over a scan of the table, a run adds no item and never overwrites an existing ID. Every ID in the table is then either the one it had or the derived one. Every keyed item whose update did not fail ends with an ID |
| `Backfill.PhotoTable.Run` | add_vector_ids.py:80-109 | when `items_to_update` is 0, nothing changes and no batch runs. Otherwise one count is reported per batch, and each is that batch's success count. `updated_count` is their sum, equals the successes over all items, and is at most `items_to_update`. The table ends as all calls applied in order leave it |

## Left out

- Reading the AWS region and table, creating the client, and paging through the scan (lines 20-28 and 74-78). The scanned items are the input `items` of `Run`.
- The SHA1 digest and its hexadecimal parsing (line 32). They are the parameter `sha1`; the bound of 2^160 on the digest is not stated.
- The wire form of the update (`UpdateExpression`, `ReturnValues`, the `Decimal` conversion). The stored number is the exact integer `Num(id)`.
- The thread pool and `as_completed` (lines 102-106): batches run one after another. `ApplyItemsReorder` covers every order in which a pool could apply the calls, and `SumReorder` every order in which batch counts could arrive. Timing and thread scheduling themselves are not modelled.
- The per-batch exception handler (lines 111-112). An error from `update_item` other than `ClientError` is not modelled. In the script it ends the rest of that batch, and that batch's count is dropped from `updated_count`. The batch's earlier writes stay in the table, so `updated_count` can then be lower than the number of writes. `Run`'s `updatedCount == CountUpdates(items, fails)` assumes no such error occurs.
- Items whose `Key` is a truthy non-string. `key.encode()` would raise, which only that handler catches. `KeyIsString` (the table's key schema: `Key` is the string partition key) is required of every item.
- Attribute values other than strings and numbers (lists, maps, binary, booleans). They play no part in the update.
- Timing, every `print`, and the progress messages.
