/**
 * The photo table, the vector-ID derivation and the specification of the
 * per-item update that the backfill performs.
 *
 * The table is keyed by each item's `Key` attribute. A stored vector ID is
 * the number `SHA1(Key) mod 10^18`; the SHA1 digest (read as a hexadecimal
 * integer) is a parameter `sha1`, since the hash library is not modelled.
 */
module VectorIds {

  datatype Option<T> = None | Some(value: T)

  /** An attribute value of a stored item: a string or an (exact) number. */
  datatype Value = Str(s: string) | Num(n: int)

  type Item = map<string, Value>

  /** The table, each item under the string value of its `Key` attribute. */
  type Table = map<string, Item>

  /** SHA1 of a key, as the integer its hexadecimal digest denotes. */
  type Digest = string -> nat

  const KEY_FIELD: string := "Key"
  const VECTOR_ID_FIELD: string := "VectorId"
  const ID_MODULUS: nat := 1_000_000_000_000_000_000

  /** `key_to_id`: the stable vector ID of a key, the digest reduced modulo 10^18. */
  function KeyToId(sha1: Digest, key: string): (id: nat)
    ensures id < ID_MODULUS
    ensures (sha1(key) - id) % ID_MODULUS == 0
    ensures sha1(key) < ID_MODULUS ==> id == sha1(key)
  {
    var q := sha1(key) / ID_MODULUS;
    assert sha1(key) - sha1(key) % ID_MODULUS == q * ID_MODULUS;
    sha1(key) % ID_MODULUS
  }

  /** The table's key schema: where an item has a `Key` attribute, it is a string. */
  predicate KeyIsString(item: Item)
  {
    KEY_FIELD in item ==> item[KEY_FIELD].Str?
  }

  predicate AllKeysString(items: seq<Item>)
  {
    forall i :: 0 <= i < |items| ==> KeyIsString(items[i])
  }

  /** `item.get('Key')` when it is truthy: absent and empty keys give None. */
  function ItemKey(item: Item): (k: Option<string>)
    requires KeyIsString(item)
    ensures k.Some? <==> KEY_FIELD in item && item[KEY_FIELD] != Str("")
    ensures k.Some? ==> k.value != "" && item[KEY_FIELD] == Str(k.value)
  {
    if KEY_FIELD in item && item[KEY_FIELD].s != "" then Some(item[KEY_FIELD].s) else None
  }

  predicate HasVectorId(item: Item)
  {
    VECTOR_ID_FIELD in item
  }

  /**
   * Whether `update_item_with_vector_id` returns True for `item`, where
   * `failed` says that the store answers its update with a client error.
   */
  predicate Succeeds(item: Item, failed: bool)
    requires KeyIsString(item)
  {
    ItemKey(item).Some? && !HasVectorId(item) && !failed
  }

  /** The item the store updates under `key`: the stored one, or a new one holding just the key. */
  function Base(rows: Table, key: string): Item
  {
    if key in rows then rows[key] else map[KEY_FIELD := Str(key)]
  }

  /**
   * The store's `SET VectorId = :vid` on the item under `key`: that item
   * gets the attribute (an absent item is created), and nothing else changes.
   */
  function SetVectorId(rows: Table, key: string, id: int): (rows': Table)
    ensures rows'.Keys == rows.Keys + {key}
    ensures VECTOR_ID_FIELD in rows'[key] && rows'[key][VECTOR_ID_FIELD] == Num(id)
    ensures rows'[key] - {VECTOR_ID_FIELD} == Base(rows, key) - {VECTOR_ID_FIELD}
    ensures forall k :: k in rows && k != key ==> rows'[k] == rows[k]
  {
    rows[key := Base(rows, key)[VECTOR_ID_FIELD := Num(id)]]
  }

  /** The table after one call and the call's answer. */
  datatype Outcome = Outcome(rows: Table, updated: bool)

  /**
   * `update_item_with_vector_id(item)` against the table `rows`: an item
   * without a (non-empty) key, or one that already carries a vector ID, is
   * skipped; otherwise the derived ID is written, unless the store fails.
   */
  function UpdateOutcome(rows: Table, item: Item, failed: bool, sha1: Digest): (o: Outcome)
    requires KeyIsString(item)
    ensures o.updated <==> Succeeds(item, failed)
    ensures !o.updated ==> o.rows == rows
    ensures o.updated ==>
      var key := ItemKey(item).value;
      && o.rows.Keys == rows.Keys + {key}
      && VECTOR_ID_FIELD in o.rows[key]
      && o.rows[key][VECTOR_ID_FIELD] == Num(KeyToId(sha1, key))
      && o.rows[key] - {VECTOR_ID_FIELD} == Base(rows, key) - {VECTOR_ID_FIELD}
      && (forall k :: k in rows && k != key ==> o.rows[k] == rows[k])
  {
    match ItemKey(item)
    case None => Outcome(rows, false)
    case Some(key) =>
      if HasVectorId(item) then Outcome(rows, false)
      else if failed then Outcome(rows, false)
      else Outcome(SetVectorId(rows, key, KeyToId(sha1, key)), true)
  }

  /** The table after the calls on `items`, in order, the i-th failing exactly if `fails[i]`. */
  function ApplyItems(rows: Table, items: seq<Item>, fails: seq<bool>, sha1: Digest): Table
    requires |fails| == |items| && AllKeysString(items)
  {
    if items == [] then rows
    else
      var n := |items| - 1;
      UpdateOutcome(ApplyItems(rows, items[..n], fails[..n], sha1), items[n], fails[n], sha1).rows
  }

  /** How many of the calls on `items` return True. */
  function CountUpdates(items: seq<Item>, fails: seq<bool>): (c: nat)
    requires |fails| == |items| && AllKeysString(items)
    ensures c <= |items|
  {
    if items == [] then 0
    else
      var n := |items| - 1;
      CountUpdates(items[..n], fails[..n]) + if Succeeds(items[n], fails[n]) then 1 else 0
  }

  /** `sum(1 for item in items if VECTOR_ID_FIELD in item)`. */
  function CountWithVectorId(items: seq<Item>): (c: nat)
    ensures c <= |items|
    ensures c == |items| <==> forall i :: 0 <= i < |items| ==> HasVectorId(items[i])
  {
    if items == [] then 0
    else
      var n := |items| - 1;
      assert forall i :: 0 <= i < n ==> items[..n][i] == items[i];
      CountWithVectorId(items[..n]) + if HasVectorId(items[n]) then 1 else 0
  }

  /** `items_to_update`: the scanned items that do not yet carry a vector ID. */
  function ItemsToUpdate(items: seq<Item>): (n: int)
    ensures 0 <= n <= |items|
    ensures n == 0 <==> forall i :: 0 <= i < |items| ==> HasVectorId(items[i])
  {
    |items| - CountWithVectorId(items)
  }

  /** The positions of the items that already carry a vector ID. */
  function WithVectorIdAt(items: seq<Item>): set<nat>
  {
    set i: nat | i < |items| && HasVectorId(items[i])
  }

  /** The positions of the items that still lack a vector ID. */
  function WithoutVectorIdAt(items: seq<Item>): set<nat>
  {
    set i: nat | i < |items| && !HasVectorId(items[i])
  }

  /** `CountWithVectorId` counts exactly the items that carry an ID. */
  lemma {:induction false} CountWithVectorIdIsCardinality(items: seq<Item>)
    ensures CountWithVectorId(items) == |WithVectorIdAt(items)|
  {
    if items == [] {
      assert WithVectorIdAt(items) == {};
    } else {
      var n := |items| - 1;
      CountWithVectorIdIsCardinality(items[..n]);
      var prefix := WithVectorIdAt(items[..n]);
      assert forall k :: 0 <= k < n ==> items[..n][k] == items[k];
      assert n !in prefix;
      if HasVectorId(items[n]) {
        assert WithVectorIdAt(items) == prefix + {n};
      } else {
        assert WithVectorIdAt(items) == prefix;
      }
    }
  }

  /** `items_to_update` is exactly the number of items that lack an ID. */
  lemma {:induction false} ItemsToUpdateIsCardinality(items: seq<Item>)
    ensures ItemsToUpdate(items) == |WithoutVectorIdAt(items)|
  {
    if items == [] {
      assert WithoutVectorIdAt(items) == {};
    } else {
      var n := |items| - 1;
      ItemsToUpdateIsCardinality(items[..n]);
      var prefix := WithoutVectorIdAt(items[..n]);
      assert forall k :: 0 <= k < n ==> items[..n][k] == items[k];
      assert n !in prefix;
      if HasVectorId(items[n]) {
        assert WithoutVectorIdAt(items) == prefix;
      } else {
        assert WithoutVectorIdAt(items) == prefix + {n};
      }
    }
  }

  /** The set of positions whose call returns True. */
  function SucceededAt(items: seq<Item>, fails: seq<bool>): set<nat>
    requires |fails| == |items| && AllKeysString(items)
  {
    set i: nat | i < |items| && Succeeds(items[i], fails[i])
  }

  /** The count is exactly the number of positions whose call returns True. */
  lemma {:induction false} CountUpdatesIsCardinality(items: seq<Item>, fails: seq<bool>)
    requires |fails| == |items| && AllKeysString(items)
    ensures CountUpdates(items, fails) == |SucceededAt(items, fails)|
  {
    if items != [] {
      var n := |items| - 1;
      CountUpdatesIsCardinality(items[..n], fails[..n]);
      var prefix := SucceededAt(items[..n], fails[..n]);
      if Succeeds(items[n], fails[n]) {
        assert SucceededAt(items, fails) == prefix + {n};
        assert n !in prefix;
      } else {
        assert SucceededAt(items, fails) == prefix;
      }
    }
  }

  /** No more calls succeed than there are items lacking a vector ID. */
  lemma {:induction false} UpdatesWithinItemsToUpdate(items: seq<Item>, fails: seq<bool>)
    requires |fails| == |items| && AllKeysString(items)
    ensures CountUpdates(items, fails) <= ItemsToUpdate(items)
  {
    if items != [] {
      var n := |items| - 1;
      UpdatesWithinItemsToUpdate(items[..n], fails[..n]);
    }
  }

  /** When every item already has a vector ID, the calls would change nothing: the early exit loses nothing. */
  lemma {:induction false} NothingToUpdate(rows: Table, items: seq<Item>, fails: seq<bool>, sha1: Digest)
    requires |fails| == |items| && AllKeysString(items)
    requires ItemsToUpdate(items) == 0
    ensures ApplyItems(rows, items, fails, sha1) == rows
    ensures CountUpdates(items, fails) == 0
  {
    if items != [] {
      var n := |items| - 1;
      assert HasVectorId(items[n]);
      NothingToUpdate(rows, items[..n], fails[..n], sha1);
    }
  }

  lemma AllKeysStringAppend(a: seq<Item>, b: seq<Item>)
    requires AllKeysString(a) && AllKeysString(b)
    ensures AllKeysString(a + b)
  {
    assert forall i :: 0 <= i < |a + b| ==> (a + b)[i] == if i < |a| then a[i] else b[i - |a|];
  }

  /** Running the calls on `a + b` is running those on `a`, then those on `b`. */
  lemma {:induction false} ApplyItemsAppend(rows: Table, a: seq<Item>, fa: seq<bool>, b: seq<Item>, fb: seq<bool>, sha1: Digest)
    requires |fa| == |a| && |fb| == |b| && AllKeysString(a) && AllKeysString(b)
    ensures AllKeysString(a + b)
    ensures ApplyItems(rows, a + b, fa + fb, sha1) == ApplyItems(ApplyItems(rows, a, fa, sha1), b, fb, sha1)
  {
    AllKeysStringAppend(a, b);
    if b == [] {
      assert a + b == a && fa + fb == fa;
    } else {
      var n := |b| - 1;
      AllKeysStringAppend(a, b[..n]);
      ApplyItemsAppend(rows, a, fa, b[..n], fb[..n], sha1);
      assert (a + b)[..|a| + n] == a + b[..n];
      assert (fa + fb)[..|a| + n] == fa + fb[..n];
      assert (a + b)[|a| + n] == b[n] && (fa + fb)[|a| + n] == fb[n];
    }
  }

  /** The count over `a + b` is the count over `a` plus the count over `b`. */
  lemma {:induction false} CountUpdatesAppend(a: seq<Item>, fa: seq<bool>, b: seq<Item>, fb: seq<bool>)
    requires |fa| == |a| && |fb| == |b| && AllKeysString(a) && AllKeysString(b)
    ensures AllKeysString(a + b)
    ensures CountUpdates(a + b, fa + fb) == CountUpdates(a, fa) + CountUpdates(b, fb)
  {
    AllKeysStringAppend(a, b);
    if b == [] {
      assert a + b == a && fa + fb == fa;
    } else {
      var n := |b| - 1;
      AllKeysStringAppend(a, b[..n]);
      CountUpdatesAppend(a, fa, b[..n], fb[..n]);
      assert (a + b)[..|a| + n] == a + b[..n];
      assert (fa + fb)[..|a| + n] == fa + fb[..n];
      assert (a + b)[|a| + n] == b[n] && (fa + fb)[|a| + n] == fb[n];
    }
  }

  /** Two calls commute: whichever runs first, the table ends the same. */
  lemma UpdatesCommute(rows: Table, a: Item, fa: bool, b: Item, fb: bool, sha1: Digest)
    requires KeyIsString(a) && KeyIsString(b)
    ensures UpdateOutcome(UpdateOutcome(rows, a, fa, sha1).rows, b, fb, sha1).rows
         == UpdateOutcome(UpdateOutcome(rows, b, fb, sha1).rows, a, fa, sha1).rows
  {
    // Both orders write `KeyToId` of their own key; equal keys write equal IDs.
  }

  /** The calls of a run as (item, fails) pairs. */
  function Zip(items: seq<Item>, fails: seq<bool>): (z: seq<(Item, bool)>)
    requires |fails| == |items|
    ensures |z| == |items|
    ensures forall i :: 0 <= i < |z| ==> z[i] == (items[i], fails[i])
  {
    seq(|items|, i requires 0 <= i < |items| => (items[i], fails[i]))
  }

  lemma ZipAppend(a: seq<Item>, fa: seq<bool>, b: seq<Item>, fb: seq<bool>)
    requires |fa| == |a| && |fb| == |b|
    ensures Zip(a + b, fa + fb) == Zip(a, fa) + Zip(b, fb)
  {
    assert forall i :: 0 <= i < |a| + |b| ==> Zip(a + b, fa + fb)[i] == (Zip(a, fa) + Zip(b, fb))[i];
  }

  /** Taking call `i` out of a run takes its pair out of the run's multiset of pairs. */
  lemma ZipWithout(s: seq<Item>, fs: seq<bool>, i: nat)
    requires |fs| == |s| && i < |s| && AllKeysString(s)
    ensures s == s[..i] + [s[i]] + s[i + 1..] && fs == fs[..i] + [fs[i]] + fs[i + 1..]
    ensures AllKeysString(s[..i]) && AllKeysString(s[i + 1..]) && AllKeysString(s[..i] + s[i + 1..])
    ensures multiset(Zip(s[..i] + s[i + 1..], fs[..i] + fs[i + 1..])) == multiset(Zip(s, fs)) - multiset{(s[i], fs[i])}
  {
    var a, fa, b, fb := s[..i], fs[..i], s[i + 1..], fs[i + 1..];
    assert s == a + [s[i]] + b && fs == fa + [fs[i]] + fb;
    assert AllKeysString(a) by { assert forall k :: 0 <= k < i ==> a[k] == s[k]; }
    assert AllKeysString(b) by { assert forall k :: 0 <= k < |b| ==> b[k] == s[i + 1 + k]; }
    AllKeysStringAppend(a, b);
    ZipAppend(a, fa, [s[i]], [fs[i]]);
    ZipAppend(a + [s[i]], fa + [fs[i]], b, fb);
    ZipAppend(a, fa, b, fb);
    assert Zip([s[i]], [fs[i]]) == [(s[i], fs[i])];
  }

  /** The last call of a run acts on the table the earlier calls leave. */
  lemma ApplyLast(rows: Table, s: seq<Item>, fs: seq<bool>, x: Item, fx: bool, sha1: Digest)
    requires |fs| == |s| && AllKeysString(s) && KeyIsString(x)
    ensures AllKeysString(s + [x])
    ensures ApplyItems(rows, s + [x], fs + [fx], sha1) == UpdateOutcome(ApplyItems(rows, s, fs, sha1), x, fx, sha1).rows
  {
    AllKeysStringAppend(s, [x]);
    assert (s + [x])[..|s|] == s && (fs + [fx])[..|s|] == fs;
  }

  /** A call may be moved past every call that follows it without changing the table. */
  lemma {:induction false} MoveCallToEnd(rows: Table, a: seq<Item>, fa: seq<bool>, x: Item, fx: bool, b: seq<Item>, fb: seq<bool>, sha1: Digest)
    requires |fa| == |a| && |fb| == |b| && AllKeysString(a) && AllKeysString(b) && KeyIsString(x)
    ensures AllKeysString(a + [x] + b) && AllKeysString(a + b + [x])
    ensures ApplyItems(rows, a + [x] + b, fa + [fx] + fb, sha1) == ApplyItems(rows, a + b + [x], fa + fb + [fx], sha1)
    decreases |b|
  {
    AllKeysStringAppend(a, [x]);
    AllKeysStringAppend(a + [x], b);
    AllKeysStringAppend(a, b);
    AllKeysStringAppend(a + b, [x]);
    if b == [] {
      assert a + [x] + b == a + b + [x] && fa + [fx] + fb == fa + fb + [fx];
    } else {
      var n := |b| - 1;
      var y, fy, b', fb' := b[n], fb[n], b[..n], fb[..n];
      assert AllKeysString(b') by { assert forall k :: 0 <= k < n ==> b'[k] == b[k]; }
      assert b == b' + [y] && fb == fb' + [fy];
      AllKeysStringAppend(a, b');
      AllKeysStringAppend(a + [x], b');
      var mid := ApplyItems(rows, a + b', fa + fb', sha1);
      calc {
        ApplyItems(rows, a + [x] + b, fa + [fx] + fb, sha1);
        { assert a + [x] + b == (a + [x] + b') + [y] && fa + [fx] + fb == (fa + [fx] + fb') + [fy];
          ApplyLast(rows, a + [x] + b', fa + [fx] + fb', y, fy, sha1); }
        UpdateOutcome(ApplyItems(rows, a + [x] + b', fa + [fx] + fb', sha1), y, fy, sha1).rows;
        { MoveCallToEnd(rows, a, fa, x, fx, b', fb', sha1);
          ApplyLast(rows, a + b', fa + fb', x, fx, sha1); }
        UpdateOutcome(UpdateOutcome(mid, x, fx, sha1).rows, y, fy, sha1).rows;
        { UpdatesCommute(mid, x, fx, y, fy, sha1); }
        UpdateOutcome(UpdateOutcome(mid, y, fy, sha1).rows, x, fx, sha1).rows;
        { assert a + b == (a + b') + [y] && fa + fb == (fa + fb') + [fy];
          ApplyLast(rows, a + b', fa + fb', y, fy, sha1); }
        UpdateOutcome(ApplyItems(rows, a + b, fa + fb, sha1), x, fx, sha1).rows;
        { ApplyLast(rows, a + b, fa + fb, x, fx, sha1); }
        ApplyItems(rows, a + b + [x], fa + fb + [fx], sha1);
      }
    }
  }

  /** One step of `ApplyItemsReorder`: the same call appended to two runs that agree. */
  lemma ReorderStep(rows: Table, p: seq<Item>, fp: seq<bool>, a: seq<Item>, fa: seq<bool>, x: Item, fx: bool, b: seq<Item>, fb: seq<bool>, sha1: Digest)
    requires |fp| == |p| && |fa| == |a| && |fb| == |b|
    requires AllKeysString(p) && AllKeysString(a) && AllKeysString(b) && AllKeysString(a + b) && KeyIsString(x)
    requires ApplyItems(rows, p, fp, sha1) == ApplyItems(rows, a + b, fa + fb, sha1)
    ensures AllKeysString(p + [x]) && AllKeysString(a + [x] + b)
    ensures ApplyItems(rows, p + [x], fp + [fx], sha1) == ApplyItems(rows, a + [x] + b, fa + [fx] + fb, sha1)
  {
    calc {
      ApplyItems(rows, a + [x] + b, fa + [fx] + fb, sha1);
      { MoveCallToEnd(rows, a, fa, x, fx, b, fb, sha1); }
      ApplyItems(rows, a + b + [x], fa + fb + [fx], sha1);
      { ApplyLast(rows, a + b, fa + fb, x, fx, sha1); }
      UpdateOutcome(ApplyItems(rows, a + b, fa + fb, sha1), x, fx, sha1).rows;
      UpdateOutcome(ApplyItems(rows, p, fp, sha1), x, fx, sha1).rows;
      { ApplyLast(rows, p, fp, x, fx, sha1); }
      ApplyItems(rows, p + [x], fp + [fx], sha1);
    }
  }

  /**
   * The table a run leaves depends only on which calls it makes, not on
   * their order: any permutation of the (item, fails) pairs, and so any
   * interleaving of the calls that concurrent batches make, gives the same
   * table as the sequential order.
   */
  lemma {:induction false} ApplyItemsReorder(rows: Table, items: seq<Item>, fails: seq<bool>, items': seq<Item>, fails': seq<bool>, sha1: Digest)
    requires |fails| == |items| && AllKeysString(items)
    requires |fails'| == |items'| && AllKeysString(items')
    requires multiset(Zip(items, fails)) == multiset(Zip(items', fails'))
    ensures ApplyItems(rows, items, fails, sha1) == ApplyItems(rows, items', fails', sha1)
    decreases |items|
  {
    var z, z' := Zip(items, fails), Zip(items', fails');
    if items == [] {
      assert |items'| == |z'| == |multiset(z')| == 0;
    } else {
      var n := |items| - 1;
      var x, fx := items[n], fails[n];
      assert z[n] == (x, fx);
      assert (x, fx) in multiset(z');
      var i :| 0 <= i < |z'| && z'[i] == (x, fx);
      var a, fa, b, fb := items'[..i], fails'[..i], items'[i + 1..], fails'[i + 1..];
      var p, fp := items[..n], fails[..n];
      assert items' == a + [x] + b && fails' == fa + [fx] + fb
          && AllKeysString(a) && AllKeysString(b) && AllKeysString(a + b)
          && multiset(Zip(a + b, fa + fb)) == multiset(z') - multiset{(x, fx)} by {
        ZipWithout(items', fails', i);
      }
      assert items == p + [x] && fails == fp + [fx] && AllKeysString(p)
          && multiset(Zip(p, fp)) == multiset(z) - multiset{(x, fx)} by {
        ZipWithout(items, fails, n);
        assert items[n + 1..] == [] && fails[n + 1..] == [];
        assert p + items[n + 1..] == p && fp + fails[n + 1..] == fp;
      }
      ApplyItemsReorder(rows, p, fp, a + b, fa + fb, sha1);
      ReorderStep(rows, p, fp, a, fa, x, fx, b, fb, sha1);
    }
  }

  /**
   * Across a whole run, every item that differs from the start (or is new)
   * differs only in its `VectorId`, which is then its key's derived ID: no
   * other attribute and no other item changes.
   */
  lemma {:induction false} OnlyVectorIdsChange(rows: Table, items: seq<Item>, fails: seq<bool>, sha1: Digest)
    requires |fails| == |items| && AllKeysString(items)
    ensures var r := ApplyItems(rows, items, fails, sha1);
      && rows.Keys <= r.Keys
      && (forall k :: k in r ==> r[k] - {VECTOR_ID_FIELD} == Base(rows, k) - {VECTOR_ID_FIELD})
      && (forall k :: k in r && (k !in rows || r[k] != rows[k]) ==>
            VECTOR_ID_FIELD in r[k] && r[k][VECTOR_ID_FIELD] == Num(KeyToId(sha1, k)))
  {
    if items != [] {
      var n := |items| - 1;
      OnlyVectorIdsChange(rows, items[..n], fails[..n], sha1);
      var mid := ApplyItems(rows, items[..n], fails[..n], sha1);
      if Succeeds(items[n], fails[n]) {
        var key := ItemKey(items[n]).value;
        assert Base(mid, key) - {VECTOR_ID_FIELD} == Base(rows, key) - {VECTOR_ID_FIELD};
      }
    }
  }

  /** `items` is a scan of `rows`: each keyed item is the table's item under its key. */
  predicate ScannedFrom(rows: Table, items: seq<Item>)
    requires AllKeysString(items)
  {
    forall i :: 0 <= i < |items| && ItemKey(items[i]).Some? ==>
      ItemKey(items[i]).value in rows && rows[ItemKey(items[i]).value] == items[i]
  }

  /** The vector ID a key should end up with: the one it has, or the derived one. */
  function ExpectedId(rows: Table, key: string, sha1: Digest): Value
  {
    if key in rows && VECTOR_ID_FIELD in rows[key] then rows[key][VECTOR_ID_FIELD] else Num(KeyToId(sha1, key))
  }

  /**
   * A run over a scan of the table never overwrites an existing vector ID,
   * adds no item, and leaves every key with either no ID or its expected one;
   * after it, every keyed item whose update did not fail carries an ID.
   */
  lemma {:induction false} BackfillOverScan(rows: Table, items: seq<Item>, fails: seq<bool>, sha1: Digest)
    requires |fails| == |items| && AllKeysString(items)
    requires ScannedFrom(rows, items)
    ensures var r := ApplyItems(rows, items, fails, sha1);
      && r.Keys == rows.Keys
      && (forall k :: k in rows && VECTOR_ID_FIELD in rows[k] ==>
            VECTOR_ID_FIELD in r[k] && r[k][VECTOR_ID_FIELD] == rows[k][VECTOR_ID_FIELD])
      && (forall k :: k in r && VECTOR_ID_FIELD in r[k] ==> r[k][VECTOR_ID_FIELD] == ExpectedId(rows, k, sha1))
      && (forall i :: 0 <= i < |items| && ItemKey(items[i]).Some? && !fails[i] ==>
            VECTOR_ID_FIELD in r[ItemKey(items[i]).value])
  {
    if items != [] {
      var n := |items| - 1;
      assert ScannedFrom(rows, items[..n]) by {
        forall i | 0 <= i < n && ItemKey(items[..n][i]).Some?
          ensures ItemKey(items[..n][i]).value in rows && rows[ItemKey(items[..n][i]).value] == items[..n][i]
        {
          assert items[..n][i] == items[i];
        }
      }
      BackfillOverScan(rows, items[..n], fails[..n], sha1);
      OnlyVectorIdsChange(rows, items[..n], fails[..n], sha1);
      var mid := ApplyItems(rows, items[..n], fails[..n], sha1);
      var r := ApplyItems(rows, items, fails, sha1);
      forall i | 0 <= i < |items| && ItemKey(items[i]).Some? && !fails[i]
        ensures VECTOR_ID_FIELD in r[ItemKey(items[i]).value]
      {
        if i < n {
          assert items[..n][i] == items[i] && fails[..n][i] == fails[i];
        } else if HasVectorId(items[n]) {
          assert rows[ItemKey(items[n]).value] == items[n];
        }
      }
    }
  }
}
