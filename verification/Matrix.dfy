/** The stored requirement matrix of one solicitation: the key-based merge that persists a mining
    result, and the other operations that add or delete rows. */
module Matrix {
  import opened Basics
  import opened Pages
  import opened FuzzyMatch
  import opened Chunking
  import opened Mining
  import opened Audit

  type Id = nat

  const RESTORED: string := "(restored)"

  datatype Requirement =
    Requirement(seqNo: nat, clauseId: string, section: string, page: int, body: string, excerpt: string,
                response: string, verifiedAt: Option<int>, tags: seq<string>, modelOutput: Option<Id>)

  /** The two normalisers that make up a key. The merge is correct for any; the program's are `Reprocess.SOURCE`. */
  datatype Normalizers = Normalizers(clause: string -> string, text: string -> string)

  datatype Key = Key(clause: string, page: int, text: string)

  function ItemKey(item: MinedItem, n: Normalizers): Key { Key(n.clause(item.clauseId), item.page, n.text(item.text)) }

  function RowKey(row: Requirement, n: Normalizers): Key { Key(n.clause(row.clauseId), row.page, n.text(row.body)) }

  // ---------------------------------------------------- document order

  /** `(page, doc_order)`, in order. */
  predicate InOrder(a: MinedItem, b: MinedItem) { a.page < b.page || (a.page == b.page && a.docOrder <= b.docOrder) }

  function InsertInOrder<T>(x: T, xs: seq<T>, of: T -> MinedItem): seq<T> {
    if xs == [] || InOrder(of(x), of(xs[0])) then [x] + xs else [xs[0]] + InsertInOrder(x, xs[1..], of)
  }

  /** Stable sort by `(page, doc_order)` of the item behind each element. */
  function SortByOrder<T>(xs: seq<T>, of: T -> MinedItem): seq<T> {
    if xs == [] then [] else InsertInOrder(xs[0], SortByOrder(xs[1..], of), of)
  }

  ghost predicate IsOrdered<T>(xs: seq<T>, of: T -> MinedItem) {
    forall i, j | 0 <= i < j < |xs| :: InOrder(of(xs[i]), of(xs[j]))
  }

  lemma {:induction false} InsertKeeps<T>(x: T, xs: seq<T>, of: T -> MinedItem)
    ensures multiset(InsertInOrder(x, xs, of)) == multiset(xs) + multiset{x}
    ensures |InsertInOrder(x, xs, of)| == |xs| + 1
  {
    if xs != [] && !InOrder(of(x), of(xs[0])) {
      InsertKeeps(x, xs[1..], of);
      assert xs == [xs[0]] + xs[1..];
    }
  }

  lemma InsertedMember<T>(x: T, xs: seq<T>, of: T -> MinedItem, j: nat)
    requires j < |InsertInOrder(x, xs, of)|
    ensures InsertInOrder(x, xs, of)[j] == x || InsertInOrder(x, xs, of)[j] in xs
  {
    InsertKeeps(x, xs, of);
    assert InsertInOrder(x, xs, of)[j] in multiset(InsertInOrder(x, xs, of));
  }

  lemma {:induction false} InsertKeepsOrder<T>(x: T, xs: seq<T>, of: T -> MinedItem)
    requires IsOrdered(xs, of)
    ensures IsOrdered(InsertInOrder(x, xs, of), of)
  {
    if xs != [] && !InOrder(of(x), of(xs[0])) {
      InsertKeepsOrder(x, xs[1..], of);
      var r := InsertInOrder(x, xs[1..], of);
      forall j | 0 <= j < |r| ensures InOrder(of(xs[0]), of(r[j])) {
        InsertedMember(x, xs[1..], of, j);
      }
    }
  }

  lemma {:induction false} SortOrders<T>(xs: seq<T>, of: T -> MinedItem)
    ensures IsOrdered(SortByOrder(xs, of), of)
    ensures multiset(SortByOrder(xs, of)) == multiset(xs)
    ensures |SortByOrder(xs, of)| == |xs|
  {
    if xs != [] {
      SortOrders(xs[1..], of);
      InsertKeepsOrder(xs[0], SortByOrder(xs[1..], of), of);
      InsertKeeps(xs[0], SortByOrder(xs[1..], of), of);
      assert xs == [xs[0]] + xs[1..];
    }
  }

  function Itself(item: MinedItem): MinedItem { item }

  function FailedItem(f: AuditFailure): MinedItem { f.item }

  // ---------------------------------------------------- deduplication

  function KeysOf(items: seq<MinedItem>, n: Normalizers): set<Key> {
    set i | 0 <= i < |items| :: ItemKey(items[i], n)
  }

  /** The first item of each key. */
  function Survivors(items: seq<MinedItem>, n: Normalizers): seq<MinedItem> {
    if items == [] then []
    else
      var before, item := Survivors(items[..|items| - 1], n), items[|items| - 1];
      if ItemKey(item, n) in KeysOf(before, n) then before else before + [item]
  }

  ghost predicate DistinctKeys(items: seq<MinedItem>, n: Normalizers) {
    forall i, j | 0 <= i < j < |items| :: ItemKey(items[i], n) != ItemKey(items[j], n)
  }

  lemma {:induction false} SurvivorsKeys(items: seq<MinedItem>, n: Normalizers)
    ensures DistinctKeys(Survivors(items, n), n)
    ensures KeysOf(Survivors(items, n), n) == KeysOf(items, n)
  {
    if items != [] {
      var rest, item := items[..|items| - 1], items[|items| - 1];
      SurvivorsKeys(rest, n);
      KeysOfOneMore(rest, item, n);
      KeysOfOneMore(Survivors(rest, n), item, n);
      assert items == rest + [item];
    }
  }

  lemma {:induction false} SurvivorsOrder(items: seq<MinedItem>, n: Normalizers)
    requires IsOrdered(items, Itself)
    ensures IsOrdered(Survivors(items, n), Itself)
    ensures forall item | item in Survivors(items, n) :: item in items
  {
    if items != [] {
      var rest, item := items[..|items| - 1], items[|items| - 1];
      assert IsOrdered(rest, Itself);
      SurvivorsOrder(rest, n);
      var before := Survivors(rest, n);
      forall i | 0 <= i < |before| ensures InOrder(Itself(before[i]), Itself(item)) {
        assert before[i] in rest;
        var k :| 0 <= k < |rest| && rest[k] == before[i];
        assert InOrder(Itself(items[k]), Itself(items[|items| - 1]));
      }
    }
  }

  lemma KeysOfOneMore(items: seq<MinedItem>, item: MinedItem, n: Normalizers)
    ensures KeysOf(items + [item], n) == KeysOf(items, n) + {ItemKey(item, n)}
  {
    var all := items + [item];
    forall k | k in KeysOf(items, n) + {ItemKey(item, n)} ensures k in KeysOf(all, n) {
      if k == ItemKey(item, n) {
        assert all[|items|] == item;
      } else {
        var i :| 0 <= i < |items| && k == ItemKey(items[i], n);
        assert all[i] == items[i];
      }
    }
  }

  method Deduplicate(items: seq<MinedItem>, n: Normalizers) returns (surviving: seq<MinedItem>, seenKeys: set<Key>)
    ensures surviving == Survivors(items, n) && seenKeys == KeysOf(surviving, n)
  {
    surviving, seenKeys := [], {};
    for k := 0 to |items|
      invariant surviving == Survivors(items[..k], n) && seenKeys == KeysOf(surviving, n)
    {
      assert items[..k + 1][..k] == items[..k];
      var key := ItemKey(items[k], n);
      if key !in seenKeys {
        KeysOfOneMore(surviving, items[k], n);
        seenKeys := seenKeys + {key};
        surviving := surviving + [items[k]];
      }
    }
    assert items[..|items|] == items;
  }

  // ------------------------------------------------------- raw outputs

  /** `output_ids`: the id of the last recorded call of each chunk, when ids start at `base`. */
  function OutputIds(calls: seq<CallRecord>, base: Id): map<int, Id> {
    if calls == [] then map[]
    else OutputIds(calls[..|calls| - 1], base)[calls[|calls| - 1].chunkIndex := base + |calls| - 1]
  }

  function OutputFor(outputs: map<int, Id>, chunkIndex: int): Option<Id> {
    if chunkIndex in outputs then Some(outputs[chunkIndex]) else None
  }

  /** The back-reference of a row leads to the last raw output of the chunk it was mined from. */
  lemma {:induction false} OutputIdsPointBack(calls: seq<CallRecord>, base: Id, chunk: int)
    ensures chunk in OutputIds(calls, base) <==> exists k | 0 <= k < |calls| :: calls[k].chunkIndex == chunk
    ensures chunk in OutputIds(calls, base) ==>
              var k := OutputIds(calls, base)[chunk] - base;
              && 0 <= k < |calls| && calls[k].chunkIndex == chunk
              && forall m | k < m < |calls| :: calls[m].chunkIndex != chunk
  {
    if calls != [] {
      var rest := calls[..|calls| - 1];
      OutputIdsPointBack(rest, base, chunk);
      if k :| 0 <= k < |rest| && rest[k].chunkIndex == chunk {
        assert calls[k].chunkIndex == chunk;
      }
    }
  }

  /** A raw output belongs to the run that recorded it. */
  datatype RawOutput = RawOutput(run: nat, call: CallRecord)

  /** The raw outputs with one record a call added, from `base` on. */
  function Recorded(raw: map<Id, RawOutput>, base: Id, run: nat, calls: seq<CallRecord>): map<Id, RawOutput> {
    if calls == [] then raw
    else Recorded(raw, base, run, calls[..|calls| - 1])[base + |calls| - 1 := RawOutput(run, calls[|calls| - 1])]
  }

  /** One fresh record a call, and the older ones as they were. */
  lemma {:induction false} RecordedFacts(raw: map<Id, RawOutput>, base: Id, run: nat, calls: seq<CallRecord>, id: Id)
    requires forall id | id in raw :: id < base
    ensures id in Recorded(raw, base, run, calls) <==> id in raw || base <= id < base + |calls|
    ensures id in raw ==> Recorded(raw, base, run, calls)[id] == raw[id]
    ensures base <= id < base + |calls| ==> Recorded(raw, base, run, calls)[id] == RawOutput(run, calls[id - base])
  {
    if calls != [] {
      RecordedFacts(raw, base, run, calls[..|calls| - 1], id);
    }
  }

  // ------------------------------------------------------------ the merge

  function UpdatedRow(row: Requirement, item: MinedItem, seqNo: nat, output: Option<Id>, n: Normalizers): Requirement {
    row.(seqNo := seqNo, clauseId := n.clause(item.clauseId), section := item.section, page := item.page,
         body := item.text, excerpt := item.excerpt, modelOutput := output)
  }

  function NewRow(item: MinedItem, seqNo: nat, output: Option<Id>, n: Normalizers): Requirement {
    Requirement(seqNo, n.clause(item.clauseId), item.section, item.page, item.text, item.excerpt, "", None, [], output)
  }

  /** The ids of `order`, in order, whose rows have the key. */
  function Bucket(rows: map<Id, Requirement>, order: seq<Id>, key: Key, n: Normalizers): seq<Id>
    requires forall id | id in order :: id in rows
  {
    if order == [] then []
    else
      Bucket(rows, order[..|order| - 1], key, n)
      + if RowKey(rows[order[|order| - 1]], n) == key then [order[|order| - 1]] else []
  }

  ghost predicate NoRepeats<T>(s: seq<T>) { forall i, j | 0 <= i < j < |s| :: s[i] != s[j] }

  /** `order` lists the rows' ids, each once: the unspecified order of an unsorted query. */
  ghost predicate Enumerates(order: seq<Id>, rows: map<Id, Requirement>) {
    NoRepeats(order) && forall id :: id in order <==> id in rows
  }

  /** Row `id` after `item` was written to it as row number `seqNo`. */
  ghost predicate IsWritten(pre: map<Id, Requirement>, post: map<Id, Requirement>, match_: seq<Id>, id: Id,
                            item: MinedItem, seqNo: nat, output: Option<Id>, n: Normalizers)
  {
    && id in post
    && if match_ == [] then id !in pre && post[id] == NewRow(item, seqNo, output, n)
       else id == match_[0] && id in pre && post[id] == UpdatedRow(pre[id], item, seqNo, output, n)
  }

  /** A row that no item matched and that an operator restored. */
  predicate SurvivesUnmatched(row: Requirement, seen: set<Key>, n: Normalizers) {
    row.section == RESTORED && RowKey(row, n) !in seen
  }

  /** The rows `ids` are those of the first items. */
  ghost predicate AreWritten(pre: map<Id, Requirement>, order: seq<Id>, items: seq<MinedItem>, outputs: map<int, Id>,
                             n: Normalizers, rows: map<Id, Requirement>, ids: seq<Id>)
    requires |ids| <= |items| && forall id | id in order :: id in pre
  {
    forall i | 0 <= i < |ids| ::
      IsWritten(pre, rows, Bucket(pre, order, ItemKey(items[i], n), n), ids[i], items[i], i + 1,
                OutputFor(outputs, items[i].chunkIndex), n)
  }

  /** The result of a merge: `ids[i]` is the row of `items[i]`, the first existing row with its key
      or else a new row; `kept` are the unmatched restored rows; the rest is deleted. */
  ghost predicate IsMerged(pre: map<Id, Requirement>, order: seq<Id>, items: seq<MinedItem>, outputs: map<int, Id>,
                           n: Normalizers, post: map<Id, Requirement>, ids: seq<Id>, kept: seq<Id>)
  {
    && Enumerates(order, pre)
    && |ids| == |items|
    && AreWritten(pre, order, items, outputs, n, post, ids)
    && NoRepeats(ids + kept)
    && (forall j | 0 <= j < |kept| :: kept[j] in pre && SurvivesUnmatched(pre[kept[j]], KeysOf(items, n), n)
          && kept[j] in post && post[kept[j]] == pre[kept[j]].(seqNo := |items| + j + 1))
    && (forall id | id in pre && id !in ids && SurvivesUnmatched(pre[id], KeysOf(items, n), n) :: id in kept)
    && (forall id :: id in post <==> id in ids || id in kept)
  }

  lemma {:induction false} BucketMembers(rows: map<Id, Requirement>, order: seq<Id>, key: Key, n: Normalizers)
    requires forall id | id in order :: id in rows
    ensures forall id :: id in Bucket(rows, order, key, n) <==> id in order && RowKey(rows[id], n) == key
  {
    if order != [] {
      var rest := order[..|order| - 1];
      assert order == rest + [order[|order| - 1]];
      BucketMembers(rows, rest, key, n);
    }
  }

  /** The state of the item loop: the first items are written, the other rows untouched. */
  ghost predicate MergedSoFar(pre: map<Id, Requirement>, order: seq<Id>, items: seq<MinedItem>, outputs: map<int, Id>,
                              n: Normalizers, rows: map<Id, Requirement>, ids: seq<Id>)
  {
    && Enumerates(order, pre)
    && |ids| <= |items|
    && AreWritten(pre, order, items, outputs, n, rows, ids)
    && NoRepeats(ids)
    && OthersUntouched(pre, rows, ids)
  }

  ghost predicate OthersUntouched(pre: map<Id, Requirement>, rows: map<Id, Requirement>, ids: seq<Id>) {
    && (forall id | id in pre && id !in ids :: id in rows && rows[id] == pre[id])
    && (forall id | id in rows :: id in pre || id in ids)
  }

  /** A match for the next item has not been used: keys of different items differ. */
  lemma NextMatchIsUnused(pre: map<Id, Requirement>, order: seq<Id>, items: seq<MinedItem>, outputs: map<int, Id>,
                          n: Normalizers, rows: map<Id, Requirement>, ids: seq<Id>)
    requires MergedSoFar(pre, order, items, outputs, n, rows, ids) && DistinctKeys(items, n) && |ids| < |items|
    ensures forall id | id in Bucket(pre, order, ItemKey(items[|ids|], n), n) :: id in pre && id !in ids
  {
    var key := ItemKey(items[|ids|], n);
    BucketMembers(pre, order, key, n);
    forall m | 0 <= m < |ids| ensures ids[m] !in Bucket(pre, order, key, n) {
      BucketMembers(pre, order, ItemKey(items[m], n), n);
      assert ItemKey(items[m], n) != key;
      var b := Bucket(pre, order, ItemKey(items[m], n), n);
      assert b != [] ==> b[0] in b;
    }
  }

  lemma WrittenElsewhere(pre: map<Id, Requirement>, rows: map<Id, Requirement>, match_: seq<Id>, id: Id,
                         item: MinedItem, seqNo: nat, output: Option<Id>, n: Normalizers, other: Id, row: Requirement)
    requires IsWritten(pre, rows, match_, id, item, seqNo, output, n) && other != id
    ensures IsWritten(pre, rows[other := row], match_, id, item, seqNo, output, n)
  {
  }

  lemma OneMoreWritten(pre: map<Id, Requirement>, order: seq<Id>, items: seq<MinedItem>, outputs: map<int, Id>,
                       n: Normalizers, rows: map<Id, Requirement>, ids: seq<Id>, id: Id, row: Requirement)
    requires |ids| < |items| && id !in ids && forall id | id in order :: id in pre
    requires AreWritten(pre, order, items, outputs, n, rows, ids)
    requires var item := items[|ids|];
             IsWritten(pre, rows[id := row], Bucket(pre, order, ItemKey(item, n), n), id, item, |ids| + 1,
                       OutputFor(outputs, item.chunkIndex), n)
    ensures AreWritten(pre, order, items, outputs, n, rows[id := row], ids + [id])
  {
    forall i | 0 <= i < |ids|
      ensures IsWritten(pre, rows[id := row], Bucket(pre, order, ItemKey(items[i], n), n), ids[i], items[i], i + 1,
                        OutputFor(outputs, items[i].chunkIndex), n)
    {
      assert ids[i] in ids;
      WrittenElsewhere(pre, rows, Bucket(pre, order, ItemKey(items[i], n), n), ids[i], items[i], i + 1,
                       OutputFor(outputs, items[i].chunkIndex), n, id, row);
    }
    var ids' := ids + [id];
    assert forall i | 0 <= i < |ids| :: ids'[i] == ids[i];
  }

  lemma OthersStayUntouched(pre: map<Id, Requirement>, rows: map<Id, Requirement>, ids: seq<Id>, id: Id,
                            row: Requirement)
    requires OthersUntouched(pre, rows, ids) && NoRepeats(ids) && id !in ids
    ensures OthersUntouched(pre, rows[id := row], ids + [id]) && NoRepeats(ids + [id])
  {
    var ids' := ids + [id];
    assert forall x :: x in ids' <==> x in ids || x == id;
    assert forall m | 0 <= m < |ids| :: ids'[m] == ids[m] && ids[m] in ids;
  }

  /** The state of the sweep over the existing rows: the first `k` of them are settled. */
  ghost predicate SweptSoFar(pre: map<Id, Requirement>, order: seq<Id>, seen: set<Key>, n: Normalizers,
                             written: map<Id, Requirement>, ids: seq<Id>, k: nat, rows: map<Id, Requirement>,
                             kept: seq<Id>)
    requires k <= |order|
  {
    && NoRepeats(kept)
    && (forall j | 0 <= j < |kept| :: kept[j] in order[..k] && kept[j] !in ids && kept[j] in pre
          && SurvivesUnmatched(pre[kept[j]], seen, n)
          && kept[j] in rows && rows[kept[j]] == pre[kept[j]].(seqNo := |ids| + j + 1))
    && (forall id | id in order[..k] && id in pre && id !in ids && SurvivesUnmatched(pre[id], seen, n) :: id in kept)
    && (forall id | id in ids && id in written :: id in rows && rows[id] == written[id])
    && (forall id | id in order[k..] && id in pre && id !in ids :: id in rows && rows[id] == pre[id])
    && (forall id | id in rows :: id in ids || id in kept || id in order[k..])
  }

  lemma SweepStart(pre: map<Id, Requirement>, order: seq<Id>, items: seq<MinedItem>, outputs: map<int, Id>,
                   n: Normalizers, rows: map<Id, Requirement>, ids: seq<Id>)
    requires MergedSoFar(pre, order, items, outputs, n, rows, ids)
    ensures SweptSoFar(pre, order, KeysOf(items, n), n, rows, ids, 0, rows, [])
  {
    assert order[0..] == order;
  }

  lemma NextInOrder(order: seq<Id>, k: nat)
    requires k < |order| && NoRepeats(order)
    ensures forall x :: x in order[..k + 1] <==> x in order[..k] || x == order[k]
    ensures forall x :: x in order[k..] <==> x == order[k] || x in order[k + 1..]
    ensures order[k] in order && order[k] !in order[..k] && order[k] !in order[k + 1..]
  {
    assert order[..k + 1] == order[..k] + [order[k]] && order[k..] == [order[k]] + order[k + 1..];
    forall m | 0 <= m < |order| && m != k ensures order[m] != order[k] {}
  }

  lemma SweepSkips(pre: map<Id, Requirement>, order: seq<Id>, seen: set<Key>, n: Normalizers,
                   written: map<Id, Requirement>, ids: seq<Id>, k: nat, rows: map<Id, Requirement>, kept: seq<Id>)
    requires Enumerates(order, pre) && k < |order| && SweptSoFar(pre, order, seen, n, written, ids, k, rows, kept)
    requires order[k] in ids
    ensures SweptSoFar(pre, order, seen, n, written, ids, k + 1, rows, kept)
  {
    NextInOrder(order, k);
  }

  lemma SweepMeets(pre: map<Id, Requirement>, order: seq<Id>, seen: set<Key>, n: Normalizers,
                   written: map<Id, Requirement>, ids: seq<Id>, k: nat, rows: map<Id, Requirement>, kept: seq<Id>)
    requires Enumerates(order, pre) && k < |order| && SweptSoFar(pre, order, seen, n, written, ids, k, rows, kept)
    requires order[k] !in ids
    ensures order[k] in pre && order[k] in rows && rows[order[k]] == pre[order[k]] && order[k] !in kept
  {
    NextInOrder(order, k);
    assert forall j | 0 <= j < |kept| :: kept[j] in order[..k];
  }

  lemma SweepKeeps(pre: map<Id, Requirement>, order: seq<Id>, seen: set<Key>, n: Normalizers,
                   written: map<Id, Requirement>, ids: seq<Id>, k: nat, rows: map<Id, Requirement>, kept: seq<Id>)
    requires Enumerates(order, pre) && k < |order| && SweptSoFar(pre, order, seen, n, written, ids, k, rows, kept)
    requires order[k] !in ids && order[k] in pre && SurvivesUnmatched(pre[order[k]], seen, n)
    ensures SweptSoFar(pre, order, seen, n, written, ids, k + 1,
                       rows[order[k] := pre[order[k]].(seqNo := |ids| + |kept| + 1)], kept + [order[k]])
  {
    NextInOrder(order, k);
    SweepMeets(pre, order, seen, n, written, ids, k, rows, kept);
    assert forall j | 0 <= j < |kept| :: kept[j] in kept;
  }

  lemma SweepDeletes(pre: map<Id, Requirement>, order: seq<Id>, seen: set<Key>, n: Normalizers,
                     written: map<Id, Requirement>, ids: seq<Id>, k: nat, rows: map<Id, Requirement>, kept: seq<Id>)
    requires Enumerates(order, pre) && k < |order| && SweptSoFar(pre, order, seen, n, written, ids, k, rows, kept)
    requires order[k] !in ids && order[k] in pre && !SurvivesUnmatched(pre[order[k]], seen, n)
    ensures SweptSoFar(pre, order, seen, n, written, ids, k + 1, rows - {order[k]}, kept)
  {
    NextInOrder(order, k);
    SweepMeets(pre, order, seen, n, written, ids, k, rows, kept);
    assert forall j | 0 <= j < |kept| :: kept[j] in kept;
  }

  /** What was written stays written as long as those rows do not change. */
  lemma WrittenStays(pre: map<Id, Requirement>, order: seq<Id>, items: seq<MinedItem>, outputs: map<int, Id>,
                     n: Normalizers, written: map<Id, Requirement>, rows: map<Id, Requirement>, ids: seq<Id>)
    requires |ids| <= |items| && forall id | id in order :: id in pre
    requires AreWritten(pre, order, items, outputs, n, written, ids)
    requires forall id | id in ids && id in written :: id in rows && rows[id] == written[id]
    ensures AreWritten(pre, order, items, outputs, n, rows, ids)
  {
    assert forall i | 0 <= i < |ids| :: ids[i] in ids;
  }

  lemma SweepEnd(pre: map<Id, Requirement>, order: seq<Id>, items: seq<MinedItem>, outputs: map<int, Id>,
                 n: Normalizers, written: map<Id, Requirement>, ids: seq<Id>, rows: map<Id, Requirement>, kept: seq<Id>)
    requires MergedSoFar(pre, order, items, outputs, n, written, ids) && |ids| == |items|
    requires SweptSoFar(pre, order, KeysOf(items, n), n, written, ids, |order|, rows, kept)
    ensures IsMerged(pre, order, items, outputs, n, rows, ids, kept)
  {
    assert order[..|order|] == order && order[|order|..] == [];
    WrittenStays(pre, order, items, outputs, n, written, rows, ids);
    assert forall i | 0 <= i < |ids| :: ids[i] in ids && ids[i] in written;
    assert forall j | 0 <= j < |kept| :: kept[j] in kept;
    var all := ids + kept;
    forall i, j | 0 <= i < j < |all| ensures all[i] != all[j] {
      if i < |ids| <= j { assert all[i] in ids && all[j] == kept[j - |ids|]; }
    }
  }

  lemma {:induction false} MembersCount<T>(s: seq<T>, members: set<T>)
    requires NoRepeats(s) && forall x :: x in members <==> x in s
    ensures |members| == |s|
  {
    if s == [] {
      assert members == {};
    } else {
      var rest, last := s[..|s| - 1], s[|s| - 1];
      assert s == rest + [last];
      assert last !in rest;
      MembersCount(rest, members - {last});
    }
  }

  /** Row `all[j]` is number `j + 1`, and there are no other rows. */
  ghost predicate IsNumbered(rows: map<Id, Requirement>, all: seq<Id>) {
    && (forall j | 0 <= j < |all| :: all[j] in rows && rows[all[j]].seqNo == j + 1)
    && (forall id | id in rows :: id in all)
  }

  lemma NumberedIsUnique(rows: map<Id, Requirement>, all: seq<Id>)
    requires IsNumbered(rows, all)
    ensures |rows| == |all| && SeqUnique(rows)
  {
    assert NoRepeats(all) by {
      forall i, j | 0 <= i < j < |all| ensures all[i] != all[j] {
        assert rows[all[i]].seqNo != rows[all[j]].seqNo;
      }
    }
    MembersCount(all, rows.Keys);
    forall a, b | a in rows && b in rows && a != b ensures rows[a].seqNo != rows[b].seqNo {
      var i :| 0 <= i < |all| && all[i] == a;
      var j :| 0 <= j < |all| && all[j] == b;
    }
    forall a | a in rows ensures rows[a].seqNo >= 1 {
      var i :| 0 <= i < |all| && all[i] == a;
    }
  }

  /** After a merge the rows are numbered exactly 1 to N: first the items in order, then the kept
      restored rows. */
  lemma SequenceIsExact(pre: map<Id, Requirement>, order: seq<Id>, items: seq<MinedItem>, outputs: map<int, Id>,
                        n: Normalizers, post: map<Id, Requirement>, ids: seq<Id>, kept: seq<Id>)
    requires IsMerged(pre, order, items, outputs, n, post, ids, kept)
    ensures IsNumbered(post, ids + kept)
    ensures |post| == |ids| + |kept| && SeqUnique(post)
  {
    var all := ids + kept;
    forall j | 0 <= j < |all| ensures all[j] in post && post[all[j]].seqNo == j + 1 {
      if j < |ids| {
        assert all[j] == ids[j];
      } else {
        assert all[j] == kept[j - |ids|];
      }
    }
    NumberedIsUnique(post, all);
  }

  /** Each survivor is the first item of its key. */
  lemma {:induction false} SurvivorIsFirst(items: seq<MinedItem>, n: Normalizers, item: MinedItem) returns (i: nat)
    requires item in Survivors(items, n)
    ensures i < |items| && items[i] == item
    ensures forall m | 0 <= m < i ::
              Key(n.clause(items[m].clauseId), items[m].page, n.text(items[m].text)) !=
              Key(n.clause(item.clauseId), item.page, n.text(item.text))
  {
    var rest, last := items[..|items| - 1], items[|items| - 1];
    if item in Survivors(rest, n) {
      i := SurvivorIsFirst(rest, n, item);
    } else {
      i := |items| - 1;
      SurvivorsKeys(rest, n);
      assert forall m | 0 <= m < |rest| :: ItemKey(rest[m], n) in KeysOf(rest, n);
      assert forall m | 0 <= m < |rest| :: rest[m] == items[m];
    }
  }

  /** The link of a written row leads to the last call that was made for the item's chunk. */
  lemma RowLeadsToItsOutput(pre: map<Id, Requirement>, order: seq<Id>, items: seq<MinedItem>, calls: seq<CallRecord>,
                            base: Id, n: Normalizers, post: map<Id, Requirement>, ids: seq<Id>, kept: seq<Id>, i: nat)
    requires IsMerged(pre, order, items, OutputIds(calls, base), n, post, ids, kept) && i < |items|
    ensures ids[i] in post
    ensures post[ids[i]].modelOutput.None? <==>
              forall k | 0 <= k < |calls| :: calls[k].chunkIndex != items[i].chunkIndex
    ensures post[ids[i]].modelOutput.Some? ==>
              var k := post[ids[i]].modelOutput.value - base;
              && 0 <= k < |calls| && calls[k].chunkIndex == items[i].chunkIndex
              && forall m | k < m < |calls| :: calls[m].chunkIndex != items[i].chunkIndex
  {
    OutputIdsPointBack(calls, base, items[i].chunkIndex);
  }

  // ------------------------------------------------------ dropped lines

  datatype FilteredLine = FilteredLine(seqNo: nat, page: int, preview: string, fullText: string, reIncluded: bool)

  datatype DropReason = Original(reason: AuditReason) | ReauditFailed | ReauditUnavailable

  datatype AuditDrop = AuditDrop(seqNo: nat, page: int, excerpt: string, text: string, reason: DropReason,
      reIncluded: bool)

  function LineOf(item: MinedItem, seqNo: nat): FilteredLine {
    FilteredLine(seqNo, item.page, item.text[..Min(80, |item.text|)], item.text, false)
  }

  function DropOf(f: AuditFailure, seqNo: nat): AuditDrop {
    AuditDrop(seqNo, f.item.page, f.item.excerpt, f.item.text, Original(f.reason), false)
  }

  function LinesOf(items: seq<MinedItem>): seq<FilteredLine> {
    seq(|items|, k requires 0 <= k < |items| => LineOf(items[k], k + 1))
  }

  function DropsOf(failures: seq<AuditFailure>): seq<AuditDrop> {
    seq(|failures|, k requires 0 <= k < |failures| => DropOf(failures[k], k + 1))
  }

  /** Every drop shows a failure under its number: the item's page, excerpt and body, and the reason. */
  lemma DropShowsFailure(failures: seq<AuditFailure>, k: nat) returns (f: AuditFailure)
    requires k < |failures|
    ensures |DropsOf(SortByOrder(failures, FailedItem))| == |failures| && f in failures
    ensures DropsOf(SortByOrder(failures, FailedItem))[k] ==
              AuditDrop(k + 1, f.item.page, f.item.excerpt, f.item.text, Original(f.reason), false)
  {
    SortOrders(failures, FailedItem);
    f := SortByOrder(failures, FailedItem)[k];
    assert f in multiset(SortByOrder(failures, FailedItem));
  }

  /** And every failure is shown by one. */
  lemma FailureIsShown(failures: seq<AuditFailure>, f: AuditFailure) returns (k: nat)
    requires f in failures
    ensures |DropsOf(SortByOrder(failures, FailedItem))| == |failures| && k < |failures|
    ensures DropsOf(SortByOrder(failures, FailedItem))[k] ==
              AuditDrop(k + 1, f.item.page, f.item.excerpt, f.item.text, Original(f.reason), false)
  {
    SortOrders(failures, FailedItem);
    var sorted := SortByOrder(failures, FailedItem);
    assert f in multiset(sorted);
    k :| 0 <= k < |sorted| && sorted[k] == f;
  }

  /** A filtered line shows an item: its page, its text and the first 80 characters of it. */
  lemma LineShowsItem(filtered: seq<MinedItem>, k: nat) returns (item: MinedItem)
    requires k < |filtered|
    ensures |LinesOf(SortByOrder(filtered, Itself))| == |filtered| && item in filtered
    ensures LinesOf(SortByOrder(filtered, Itself))[k] ==
              FilteredLine(k + 1, item.page, item.text[..Min(80, |item.text|)], item.text, false)
  {
    SortOrders(filtered, Itself);
    item := SortByOrder(filtered, Itself)[k];
    assert item in multiset(SortByOrder(filtered, Itself));
  }

  lemma ItemIsShown(filtered: seq<MinedItem>, item: MinedItem) returns (k: nat)
    requires item in filtered
    ensures |LinesOf(SortByOrder(filtered, Itself))| == |filtered| && k < |filtered|
    ensures LinesOf(SortByOrder(filtered, Itself))[k] ==
              FilteredLine(k + 1, item.page, item.text[..Min(80, |item.text|)], item.text, false)
  {
    SortOrders(filtered, Itself);
    var sorted := SortByOrder(filtered, Itself);
    assert item in multiset(sorted);
    k :| 0 <= k < |sorted| && sorted[k] == item;
  }

  // ------------------------------------------------------ the matrix

  /** No two rows carry the same sequence number, and all numbers are positive. */
  ghost predicate SeqUnique(rows: map<Id, Requirement>) {
    && (forall id | id in rows :: rows[id].seqNo >= 1)
    && (forall a, b | a in rows && b in rows && a != b :: rows[a].seqNo != rows[b].seqNo)
  }

  /** The candidates of the items still to come are as indexed. */
  ghost predicate Unpopped(candidates: map<Key, seq<Id>>, index: map<Key, seq<Id>>, items: seq<MinedItem>,
                           n: Normalizers)
  {
    forall item | item in items ::
      var key := ItemKey(item, n);
      (key in candidates <==> key in index) && (key in index ==> candidates[key] == index[key])
  }

  lemma PopKeepsOthers(candidates: map<Key, seq<Id>>, index: map<Key, seq<Id>>, items: seq<MinedItem>, i: nat,
                       n: Normalizers)
    requires i < |items| && DistinctKeys(items, n) && Unpopped(candidates, index, items[i..], n)
    ensures var key := ItemKey(items[i], n);
            && (key in candidates <==> key in index) && (key in index ==> candidates[key] == index[key])
            && Unpopped(candidates, index, items[i + 1..], n)
            && (key in candidates && candidates[key] != [] ==>
                Unpopped(candidates[key := candidates[key][1..]], index, items[i + 1..], n))
  {
    assert items[i..] == [items[i]] + items[i + 1..];
    var key := ItemKey(items[i], n);
    forall item | item in items[i + 1..] ensures ItemKey(item, n) != key && item in items[i..] {
      var m :| i + 1 <= m < |items| && items[m] == item;
    }
  }

  ghost predicate IdsBelow(rows: map<Id, Requirement>, pre: map<Id, Requirement>, ids: seq<Id>, next: Id) {
    (forall id | id in rows :: id < next) && (forall id | id in pre :: id < next)
        && (forall id | id in ids :: id < next)
  }

  /** Ids that come in are at least `next`, which is above every id ever used. */
  ghost predicate IdsAreFresh(before: map<Id, Requirement>, after: map<Id, Requirement>, next: Id) {
    forall id | id in after && id !in before :: id >= next
  }

  class Matrix {
    var rows: map<Id, Requirement>
    var lines: seq<FilteredLine>
    var drops: seq<AuditDrop>
    var rawOutputs: map<Id, RawOutput>
    var corrections: seq<Correction>
    var nextRow: Id
    var nextOutput: Id

    constructor ()
      ensures Valid() && rows == map[] && lines == [] && drops == [] && corrections == []
    {
      rows, lines, drops, rawOutputs, nextRow, nextOutput := map[], [], [], map[], 0, 0;
      corrections := [];
    }

    ghost predicate Valid()
      reads this
    {
      && (forall id | id in rows :: id < nextRow)
      && (forall id | id in rawOutputs :: id < nextOutput)
      && SeqUnique(rows)
    }

    /** Raw outputs first: one record a call. */
    method StoreRawOutputs(run: nat, calls: seq<CallRecord>) returns (outputs: map<int, Id>)
      requires forall id | id in rawOutputs :: id < nextOutput
      modifies this`rawOutputs, this`nextOutput
      ensures outputs == OutputIds(calls, old(nextOutput)) && nextOutput == old(nextOutput) + |calls|
      ensures rawOutputs == Recorded(old(rawOutputs), old(nextOutput), run, calls)
      ensures forall id | id in rawOutputs :: id < nextOutput
    {
      outputs := map[];
      for k := 0 to |calls|
        invariant nextOutput == old(nextOutput) + k && outputs == OutputIds(calls[..k], old(nextOutput))
        invariant rawOutputs == Recorded(old(rawOutputs), old(nextOutput), run, calls[..k])
        invariant forall id | id in rawOutputs :: id < nextOutput
      {
        assert calls[..k + 1][..k] == calls[..k];
        rawOutputs := rawOutputs[nextOutput := RawOutput(run, calls[k])];
        outputs := outputs[calls[k].chunkIndex := nextOutput];
        nextOutput := nextOutput + 1;
      }
      assert calls[..|calls|] == calls;
    }

    /** `existing_by_key`. */
    method IndexByKey(order: seq<Id>, n: Normalizers) returns (candidates: map<Key, seq<Id>>)
      requires forall id | id in order :: id in rows
      ensures forall key | key in candidates :: candidates[key] == Bucket(rows, order, key, n)
      ensures forall key | key !in candidates :: Bucket(rows, order, key, n) == []
    {
      candidates := map[];
      for k := 0 to |order|
        invariant forall key | key in candidates :: candidates[key] == Bucket(rows, order[..k], key, n)
        invariant forall key | key !in candidates :: Bucket(rows, order[..k], key, n) == []
      {
        assert order[..k + 1][..k] == order[..k];
        var key := RowKey(rows[order[k]], n);
        var bucket := if key in candidates then candidates[key] else [];
        candidates := candidates[key := bucket + [order[k]]];
      }
      assert order[..|order|] == order;
    }

    /** The item loop: pop the first candidate and overwrite it, or add a row. */
    method WriteItems(items: seq<MinedItem>, order: seq<Id>, outputs: map<int, Id>, n: Normalizers)
      returns (ids: seq<Id>, retained: set<Id>)
      requires Enumerates(order, rows) && DistinctKeys(items, n) && forall id | id in rows :: id < nextRow
      modifies this`rows, this`nextRow
      ensures |ids| == |items| && MergedSoFar(old(rows), order, items, outputs, n, rows, ids)
      ensures forall id :: id in retained <==> id in ids && id in old(rows)
      ensures forall id | id in rows :: id < nextRow
      ensures nextRow >= old(nextRow) && IdsAreFresh(old(rows), rows, old(nextRow))
    {
      var candidates := IndexByKey(order, n);
      ghost var pre, index := rows, candidates;
      ids, retained := [], {};
      for i := 0 to |items|
        invariant |ids| == i && MergedSoFar(pre, order, items, outputs, n, rows, ids)
        invariant Unpopped(candidates, index, items[i..], n)
        invariant forall id :: id in retained <==> id in ids && id in pre
        invariant IdsBelow(rows, pre, ids, nextRow)
        invariant nextRow >= old(nextRow) && forall id | id in ids :: id in pre || id >= old(nextRow)
      {
        var id, matched;
        id, matched, candidates := WriteNext(pre, index, items, order, outputs, n, ids, candidates);
        ids := ids + [id];
        if matched {
          retained := retained + {id};
        }
      }
    }

    /** One turn of the item loop. */
    method WriteNext(ghost pre: map<Id, Requirement>, ghost index: map<Key, seq<Id>>, items: seq<MinedItem>,
                     ghost order: seq<Id>, outputs: map<int, Id>, n: Normalizers, ids: seq<Id>,
                     candidates: map<Key, seq<Id>>)
      returns (id: Id, matched: bool, left: map<Key, seq<Id>>)
      requires |ids| < |items| && DistinctKeys(items, n) && MergedSoFar(pre, order, items, outputs, n, rows, ids)
      requires forall key | key in index :: index[key] == Bucket(pre, order, key, n)
      requires forall key | key !in index :: Bucket(pre, order, key, n) == []
      requires Unpopped(candidates, index, items[|ids|..], n) && IdsBelow(rows, pre, ids, nextRow)
      modifies this`rows, this`nextRow
      ensures MergedSoFar(pre, order, items, outputs, n, rows, ids + [id])
      ensures (matched <==> id in pre) && (matched || id == old(nextRow)) && nextRow >= old(nextRow)
      ensures Unpopped(left, index, items[|ids| + 1..], n) && IdsBelow(rows, pre, ids + [id], nextRow)
    {
      var i := |ids|;
      ghost var bucket := Bucket(pre, order, ItemKey(items[i], n), n);
      NextMatchIsUnused(pre, order, items, outputs, n, rows, ids);
      PopKeepsOthers(candidates, index, items, i, n);
      ghost var before := rows;
      assert bucket != [] ==> bucket[0] in bucket && bucket[0] in rows;
      id, matched, left := WriteItem(items[i], i + 1, OutputFor(outputs, items[i].chunkIndex), n, candidates);
      OneMoreWritten(pre, order, items, outputs, n, before, ids, id, rows[id]);
      OthersStayUntouched(pre, before, ids, id, rows[id]);
    }

    /** One item: the first candidate of its key is popped and overwritten, or a row is added. */
    method WriteItem(item: MinedItem, seqNo: nat, output: Option<Id>, n: Normalizers, candidates: map<Key, seq<Id>>)
      returns (id: Id, matched: bool, left: map<Key, seq<Id>>)
      requires var key := ItemKey(item, n); key in candidates && candidates[key] != [] ==> candidates[key][0] in rows
      modifies this`rows, this`nextRow
      ensures matched == (ItemKey(item, n) in candidates && candidates[ItemKey(item, n)] != [])
      ensures var key := ItemKey(item, n);
              if matched then
                && id == candidates[key][0] && left == candidates[key := candidates[key][1..]]
                && nextRow == old(nextRow)
                && rows == old(rows)[id := UpdatedRow(old(rows)[id], item, seqNo, output, n)]
              else
                && id == old(nextRow) && left == candidates && nextRow == id + 1
                && rows == old(rows)[id := NewRow(item, seqNo, output, n)]
    {
      var key := ItemKey(item, n);
      left := candidates;
      matched := key in candidates && candidates[key] != [];
      if matched {
        id := candidates[key][0];
        left := candidates[key := candidates[key][1..]];
        rows := rows[id := UpdatedRow(rows[id], item, seqNo, output, n)];
      } else {
        id := nextRow;
        rows := rows[id := NewRow(item, seqNo, output, n)];
        nextRow := nextRow + 1;
      }
    }

    /** The loop over the existing rows: keep what was retained or restored, delete the rest. */
    method SweepUnmatched(ghost pre: map<Id, Requirement>, items: seq<MinedItem>, ghost outputs: map<int, Id>,
                          n: Normalizers, order: seq<Id>, ids: seq<Id>, retained: set<Id>, seen: set<Key>)
      returns (kept: seq<Id>)
      requires |ids| == |items| && seen == KeysOf(items, n) && MergedSoFar(pre, order, items, outputs, n, rows, ids)
      requires forall id :: id in retained <==> id in ids && id in pre
      requires forall id | id in rows :: id < nextRow
      modifies this`rows
      ensures IsMerged(pre, order, items, outputs, n, rows, ids, kept)
      ensures forall id | id in rows :: id < nextRow && id in old(rows)
    {
      kept := [];
      ghost var written := rows;
      SweepStart(pre, order, items, outputs, n, rows, ids);
      for k := 0 to |order|
        invariant SweptSoFar(pre, order, seen, n, written, ids, k, rows, kept)
        invariant forall id | id in rows :: id < nextRow && id in written
      {
        var id := order[k];
        if id in retained {
          SweepSkips(pre, order, seen, n, written, ids, k, rows, kept);
        } else {
          SweepMeets(pre, order, seen, n, written, ids, k, rows, kept);
          if SurvivesUnmatched(rows[id], seen, n) {
            SweepKeeps(pre, order, seen, n, written, ids, k, rows, kept);
            rows := rows[id := rows[id].(seqNo := |ids| + |kept| + 1)];
            kept := kept + [id];
          } else {
            SweepDeletes(pre, order, seen, n, written, ids, k, rows, kept);
            rows := rows - {id};
          }
        }
      }
      SweepEnd(pre, order, items, outputs, n, written, ids, rows, kept);
    }

    /** Deduplicate, write, sweep. */
    method ReplaceRows(sorted: seq<MinedItem>, outputs: map<int, Id>, n: Normalizers, order: seq<Id>)
      returns (ids: seq<Id>, kept: seq<Id>)
      requires Enumerates(order, rows) && forall id | id in rows :: id < nextRow
      modifies this`rows, this`nextRow
      ensures IsMerged(old(rows), order, Survivors(sorted, n), outputs, n, rows, ids, kept)
      ensures SeqUnique(rows) && |rows| == |ids| + |kept| && forall id | id in rows :: id < nextRow
      ensures nextRow >= old(nextRow) && IdsAreFresh(old(rows), rows, old(nextRow))
    {
      var surviving, seen := Deduplicate(sorted, n);
      SurvivorsKeys(sorted, n);
      ghost var pre := rows;
      var retained;
      ids, retained := WriteItems(surviving, order, outputs, n);
      kept := SweepUnmatched(pre, surviving, outputs, n, order, ids, retained, seen);
      SequenceIsExact(pre, order, surviving, outputs, n, rows, ids, kept);
    }

    /** The lists of dropped lines. */
    method StoreDropped(failures: seq<AuditFailure>, filtered: seq<MinedItem>)
      modifies this`drops, this`lines
      ensures drops == DropsOf(SortByOrder(failures, FailedItem)) && |drops| == |failures|
      ensures lines == LinesOf(SortByOrder(filtered, Itself)) && |lines| == |filtered|
    {
      StoreDrops(SortByOrder(failures, FailedItem));
      StoreLines(SortByOrder(filtered, Itself));
      SortOrders(failures, FailedItem);
      SortOrders(filtered, Itself);
    }

    /** `persist_mine_result`. `order` is the order in which the query returns the stored rows. */
    method Persist(run: nat, calls: seq<CallRecord>, audit: AuditOutcome, filtered: seq<MinedItem>, n: Normalizers,
                   order: seq<Id>)
      returns (count: nat, ids: seq<Id>, kept: seq<Id>)
      requires Valid() && Enumerates(order, rows)
      modifies this`rows, this`lines, this`drops, this`rawOutputs, this`nextRow, this`nextOutput
      ensures Valid()
      ensures IsMerged(old(rows), order, Survivors(SortByOrder(audit.passed, Itself), n),
                       OutputIds(calls, old(nextOutput)), n, rows, ids, kept)
      ensures count == |ids| + |kept| == |rows|
      ensures nextRow >= old(nextRow) && IdsAreFresh(old(rows), rows, old(nextRow))
      ensures drops == DropsOf(SortByOrder(audit.failures, FailedItem)) && |drops| == |audit.failures|
      ensures lines == LinesOf(SortByOrder(filtered, Itself)) && |lines| == |filtered|
      ensures nextOutput == old(nextOutput) + |calls|
      ensures rawOutputs == Recorded(old(rawOutputs), old(nextOutput), run, calls)
    {
      var outputs := StoreRawOutputs(run, calls);
      ids, kept := ReplaceRows(SortByOrder(audit.passed, Itself), outputs, n, order);
      StoreDropped(audit.failures, filtered);
      count := |ids| + |kept|;
    }

    method StoreDrops(failures: seq<AuditFailure>)
      modifies this`drops
      ensures drops == DropsOf(failures)
    {
      drops := [];
      for k := 0 to |failures|
        invariant |drops| == k && forall m | 0 <= m < k :: drops[m] == DropOf(failures[m], m + 1)
      {
        drops := drops + [DropOf(failures[k], k + 1)];
      }
    }

    method StoreLines(items: seq<MinedItem>)
      modifies this`lines
      ensures lines == LinesOf(items)
    {
      lines := [];
      for k := 0 to |items|
        invariant |lines| == k && forall m | 0 <= m < k :: lines[m] == LineOf(items[m], m + 1)
      {
        lines := lines + [LineOf(items[k], k + 1)];
      }
    }

    /** `PATCH /api/rows/{row_id}`. `permitted` says that the account is within its rate, owns the
        matrix and is entitled to it; whatever is not permitted changes nothing. */
    method PatchRow(id: Id, permitted: bool, patch: RowPatch, now: int) returns (ok: bool)
      requires Valid()
      modifies this`rows, this`corrections
      ensures ok == (permitted && id in old(rows))
      ensures !ok ==> rows == old(rows) && corrections == old(corrections)
      ensures ok ==> rows == old(rows)[id := Patched(old(rows)[id], patch, now)]
      ensures ok ==> corrections == old(corrections) + CorrectionsOf(id, old(rows)[id], patch)
      ensures Valid() && IsHumanEdit(old(rows), rows)
    {
      if id !in rows || !permitted { return false; }
      var row, log := ApplyPatch(id, rows[id], patch, now);
      rows := rows[id := row];
      corrections := corrections + log;
      return true;
    }

    /** `_next_seq`: one more than the greatest number, or 1. */
    method NextSeq() returns (next: nat)
      requires SeqUnique(rows)
      ensures next >= 1 && forall id | id in rows :: rows[id].seqNo < next
      ensures next == 1 || exists id | id in rows :: rows[id].seqNo + 1 == next
    {
      next := 1;
      var pending := rows.Keys;
      while pending != {}
        invariant pending <= rows.Keys && next >= 1
        invariant forall id | id in rows && id !in pending :: rows[id].seqNo < next
        invariant next == 1 || exists id | id in rows :: rows[id].seqNo + 1 == next
        decreases pending
      {
        HasMember(pending);
        var id :| id in pending;
        if rows[id].seqNo >= next { next := rows[id].seqNo + 1; }
        pending := pending - {id};
      }
    }

    method AddRow(row: Requirement) returns (id: Id)
      requires Valid() && row.seqNo >= 1 && forall id | id in rows :: rows[id].seqNo < row.seqNo
      modifies this`rows, this`nextRow
      ensures Valid() && id == old(nextRow) && nextRow == id + 1 && id !in old(rows) && rows == old(rows)[id := row]
    {
      id := nextRow;
      rows := rows[id := row];
      nextRow := nextRow + 1;
    }

    /** `restore_filtered`: puts a filtered line back, once, after every other row. */
    method RestoreFiltered(k: nat) returns (added: Option<Id>)
      requires Valid() && k < |lines|
      modifies this`rows, this`nextRow, this`lines, this`corrections
      ensures Valid() && lines == old(lines)[k := old(lines)[k].(reIncluded := true)]
      ensures added.None? <==> old(lines)[k].reIncluded
      ensures added.None? ==> rows == old(rows) && corrections == old(corrections)
      ensures added.Some? ==> corrections == old(corrections) + [FilteredRestored(Clip(old(lines)[k].fullText))]
      ensures added.Some? ==> var line := old(lines)[k];
                IsRestored(old(rows), rows, added.value, line.seqNo, line.page, line.fullText,
                    line.fullText[..Min(200, |line.fullText|)])
      ensures added.Some? ==> added.value == old(nextRow) && nextRow == added.value + 1
    {
      var line := lines[k];
      added := None;
      if !line.reIncluded {
        lines := lines[k := line.(reIncluded := true)];
        corrections := corrections + [FilteredRestored(Clip(line.fullText))];
        var seqNo := NextSeq();
        var id := AddRow(RestoredRow(line.seqNo, line.page, line.fullText, Excerpt(line.fullText), seqNo));
        added := Some(id);
      }
    }

    /** `restore_audit_drop`: the drop becomes a row exactly when a fresh audit passes its recorded
        excerpt, or else its first 200 characters; see `RestoredDropIsCited`. */
    method RestoreAuditDrop(k: nat, pages: Option<PageMap>, matcher: Matcher) returns (added: Option<Id>)
      requires Valid() && k < |drops|
      modifies this`rows, this`nextRow, this`drops, this`corrections
      ensures Valid()
      ensures old(drops)[k].reIncluded ==> added.None? && drops == old(drops) && corrections == old(corrections)
      ensures !old(drops)[k].reIncluded ==> corrections == old(corrections) + [DropRestored(Clip(old(drops)[k].text))]
      ensures !old(drops)[k].reIncluded ==> (added.Some? <==> FreshExcerpt(old(drops)[k], pages, matcher).Some?)
      ensures !old(drops)[k].reIncluded ==>
                var reason := if added.Some? then old(drops)[k].reason
                              else if pages.Some? then ReauditFailed else ReauditUnavailable;
                drops == old(drops)[k := old(drops)[k].(reIncluded := true, reason := reason)]
      ensures added.None? ==> rows == old(rows)
      ensures added.Some? ==> var drop := old(drops)[k];
                IsRestored(old(rows), rows, added.value, drop.seqNo, drop.page, drop.text,
                    FreshExcerpt(drop, pages, matcher).value)
      ensures added.Some? ==> added.value == old(nextRow) && nextRow == added.value + 1
    {
      var drop := drops[k];
      added := None;
      if drop.reIncluded { return; }
      var excerpt := Reaudit(drop, pages, matcher);
      if excerpt.Some? {
        var seqNo := NextSeq();
        var id := AddRow(RestoredRow(drop.seqNo, drop.page, drop.text, excerpt.value, seqNo));
        added := Some(id);
      }
      drops := drops[k := Reincluded(drop, added.Some?, pages.Some?)];
      corrections := corrections + [DropRestored(Clip(drop.text))];
    }

    /** The clean-up of `requeue_stale_runs`: rows nobody verified, all dropped lines and the raw
        outputs of the run go; a link to a deleted output is cleared. */
    method CleanPartialOutput(run: nat)
      requires Valid()
      modifies this`rows, this`lines, this`drops, this`rawOutputs
      ensures Valid() && lines == [] && drops == []
      ensures rows == Cleaned(old(rows), old(rawOutputs), run)
      ensures forall id :: id in rows <==> id in old(rows) && old(rows)[id].verifiedAt.Some?
      ensures forall id | id in rows :: var link := old(rows)[id].modelOutput;
                rows[id] == if link.Some? && link.value in old(rawOutputs) && old(rawOutputs)[link.value].run == run
                            then old(rows)[id].(modelOutput := None) else old(rows)[id]
      ensures forall id :: id in rawOutputs <==> id in old(rawOutputs) && old(rawOutputs)[id].run != run
      ensures forall id | id in rawOutputs :: rawOutputs[id] == old(rawOutputs)[id]
    {
      rows := Cleaned(rows, rawOutputs, run);
      lines, drops := [], [];
      rawOutputs := map id | id in rawOutputs && rawOutputs[id].run != run :: rawOutputs[id];
    }

    /** `_clone_matrix_rows`: a new matrix with copies, under new ids, of the prior one's rows. Tags
        are copied; response, verification and output link are not. */
    constructor Clone(prior: Matrix, order: seq<Id>)
      requires prior.Valid() && Enumerates(order, prior.rows)
      requires forall i, j | 0 <= i < j < |order| :: prior.rows[order[i]].seqNo < prior.rows[order[j]].seqNo
      ensures Valid() && lines == FreshLines(prior.lines) && drops == FreshDrops(prior.drops) && rawOutputs == map[]
      ensures rows == Copies(prior.rows, order, prior.nextRow)
      ensures rows.Keys !! prior.rows.Keys
    {
      rows, nextRow := map[], prior.nextRow;
      lines := FreshLines(prior.lines);
      drops := FreshDrops(prior.drops);
      rawOutputs, corrections, nextOutput := map[], [], 0;
      new;
      for k := 0 to |order|
        invariant nextRow == prior.nextRow + k && rows == Copies(prior.rows, order[..k], prior.nextRow)
        invariant rawOutputs == map[] && lines == FreshLines(prior.lines) && drops == FreshDrops(prior.drops)
      {
        assert order[..k + 1][..k] == order[..k];
        rows := rows[nextRow := Copy(prior.rows[order[k]])];
        nextRow := nextRow + 1;
      }
      assert order[..|order|] == order;
      CopiesStayNumbered(prior.rows, order, prior.nextRow);
    }
  }

  /** The row without a link to an output of the run. */
  function WithoutRun(row: Requirement, raw: map<Id, RawOutput>, run: nat): Requirement {
    if row.modelOutput.Some? && row.modelOutput.value in raw && raw[row.modelOutput.value].run == run
    then row.(modelOutput := None) else row
  }

  function Cleaned(rows: map<Id, Requirement>, raw: map<Id, RawOutput>, run: nat): map<Id, Requirement> {
    map id | id in rows && rows[id].verifiedAt.Some? :: WithoutRun(rows[id], raw, run)
  }

  function Copy(row: Requirement): Requirement { row.(response := "", verifiedAt := None, modelOutput := None) }

  /** Copies of the rows of the order, from `base` on. */
  function Copies(prior: map<Id, Requirement>, order: seq<Id>, base: Id): map<Id, Requirement>
    requires forall id | id in order :: id in prior
  {
    if order == [] then map[]
    else Copies(prior, order[..|order| - 1], base)[base + |order| - 1 := Copy(prior[order[|order| - 1]])]
  }

  lemma {:induction false} CopiesFacts(prior: map<Id, Requirement>, order: seq<Id>, base: Id, id: Id)
    requires forall id | id in order :: id in prior
    ensures id in Copies(prior, order, base) <==> base <= id < base + |order|
    ensures base <= id < base + |order| ==>
              order[id - base] in prior && Copies(prior, order, base)[id] == Copy(prior[order[id - base]])
  {
    if order != [] {
      CopiesFacts(prior, order[..|order| - 1], base, id);
    }
  }

  /** A copy keeps everything of its row but response, verification and output link. */
  lemma CopyShowsRow(prior: map<Id, Requirement>, order: seq<Id>, base: Id, k: nat)
    requires k < |order| && forall id | id in order :: id in prior
    ensures base + k in Copies(prior, order, base)
    ensures Copies(prior, order, base)[base + k] ==
            prior[order[k]].(response := "", verifiedAt := None, modelOutput := None)
  {
    CopiesFacts(prior, order, base, base + k);
  }

  /** The copies keep the numbers, so these stay unique. */
  lemma CopiesStayNumbered(prior: map<Id, Requirement>, order: seq<Id>, base: Id)
    requires Enumerates(order, prior) && SeqUnique(prior) && forall id | id in prior :: id < base
    ensures SeqUnique(Copies(prior, order, base))
    ensures forall id | id in Copies(prior, order, base) :: id !in prior && id < base + |order|
  {
    var rows := Copies(prior, order, base);
    forall a | a in rows ensures rows[a].seqNo >= 1 && a !in prior && a < base + |order| {
      CopiesFacts(prior, order, base, a);
    }
    forall a, b | a in rows && b in rows && a != b ensures rows[a].seqNo != rows[b].seqNo {
      CopiesFacts(prior, order, base, a);
      CopiesFacts(prior, order, base, b);
      if a < b { assert order[a - base] != order[b - base]; } else { assert order[b - base] != order[a - base]; }
    }
  }

  // ------------------------------------------------------- human edits

  /** The fields of a request; `None` is absent, or, for response and tags, null. */
  datatype RowPatch = RowPatch(verified: Option<bool>, response: Option<string>, tags: Option<seq<string>>)

  datatype Correction =
    | Unchecked(row: Id)
    | ResponseEdited(row: Id, oldText: string, newText: string)
    | TagsEdited(row: Id, oldTags: seq<string>, newTags: seq<string>)
    | FilteredRestored(text: string)
    | DropRestored(text: string)

  function Clip(text: string): string { text[..Min(500, |text|)] }

  function FirstTags(tags: seq<string>): seq<string> { tags[..Min(50, |tags|)] }

  /** A row that is checked again keeps the time of its first check. */
  function Patched(row: Requirement, patch: RowPatch, now: int): Requirement {
    row.(verifiedAt := match patch.verified
                       case None => row.verifiedAt
                       case Some(want) =>
                         if !want then None else if row.verifiedAt.Some? then row.verifiedAt else Some(now),
         response := if patch.response.Some? then patch.response.value else row.response,
         tags := if patch.tags.Some? then FirstTags(patch.tags.value) else row.tags)
  }

  /** What is logged: the changes of a human's earlier work, and no first check. */
  function CorrectionsOf(id: Id, row: Requirement, patch: RowPatch): seq<Correction> {
    (if patch.verified == Some(false) && row.verifiedAt.Some? then [Unchecked(id)] else [])
    + (if patch.response.Some? && patch.response.value != row.response
       then [ResponseEdited(id, Clip(row.response), Clip(patch.response.value))] else [])
    + (if patch.tags.Some? && FirstTags(patch.tags.value) != row.tags
       then [TagsEdited(id, row.tags, FirstTags(patch.tags.value))] else [])
  }

  method ApplyPatch(id: Id, before: Requirement, patch: RowPatch, now: int)
    returns (row: Requirement, log: seq<Correction>)
    ensures row == Patched(before, patch, now) && log == CorrectionsOf(id, before, patch)
  {
    row, log := before, [];
    if patch.verified.Some? {
      if patch.verified.value && row.verifiedAt.None? {
        row := row.(verifiedAt := Some(now));
      } else if !patch.verified.value && row.verifiedAt.Some? {
        row := row.(verifiedAt := None);
        log := log + [Unchecked(id)];
      }
    }
    if patch.response.Some? && patch.response.value != row.response {
      log := log + [ResponseEdited(id, Clip(row.response), Clip(patch.response.value))];
      row := row.(response := patch.response.value);
    }
    if patch.tags.Some? && FirstTags(patch.tags.value) != row.tags {
      log := log + [TagsEdited(id, row.tags, FirstTags(patch.tags.value))];
      row := row.(tags := FirstTags(patch.tags.value));
    }
  }

  /** What a request sets is what is stored, and what it leaves out stays: the response as it is, at
      most 50 tags, and the time of the first check until it is taken back. */
  lemma PatchTakesEffect(row: Requirement, patch: RowPatch, now: int)
    ensures var after := Patched(row, patch, now);
            && (after.verifiedAt.Some? <==> if patch.verified.Some? then patch.verified.value else row.verifiedAt.Some?)
            && (after.verifiedAt.Some? ==>
                  after.verifiedAt == if row.verifiedAt.Some? then row.verifiedAt else Some(now))
            && (patch.response.Some? ==> after.response == patch.response.value)
            && (patch.response.None? ==> after.response == row.response)
            && (patch.tags.Some? ==> after.tags <= patch.tags.value && |after.tags| == Min(50, |patch.tags.value|))
            && (patch.tags.None? ==> after.tags == row.tags)
  {
  }

  /** A correction is logged exactly for a check taken back, a changed response and changed tags, with
      what was there before and what is there now, clipped to 500 characters. */
  lemma CorrectionsTell(id: Id, row: Requirement, patch: RowPatch, now: int)
    ensures var log, after := CorrectionsOf(id, row, patch), Patched(row, patch, now);
            && (Unchecked(id) in log <==> row.verifiedAt.Some? && after.verifiedAt.None?)
            && (forall was, is_ :: ResponseEdited(id, was, is_) in log <==>
                  after.response != row.response && was == row.response[..Min(500, |row.response|)]
                  && is_ == after.response[..Min(500, |after.response|)])
            && (forall was, is_ :: TagsEdited(id, was, is_) in log <==>
                  after.tags != row.tags && was == row.tags && is_ == after.tags)
            && |log| <= 3 && forall c | c in log :: c.row == id
  {
  }

  /** A request that is sent again changes nothing and logs nothing. */
  lemma PatchTwice(id: Id, row: Requirement, patch: RowPatch, now: int, later: int)
    ensures Patched(Patched(row, patch, now), patch, later) == Patched(row, patch, now)
    ensures CorrectionsOf(id, Patched(row, patch, now), patch) == []
  {
  }

  function FreshLines(lines: seq<FilteredLine>): (r: seq<FilteredLine>)
    ensures |r| == |lines| && forall k | 0 <= k < |lines| :: r[k] == lines[k].(reIncluded := false)
  {
    seq(|lines|, k requires 0 <= k < |lines| => lines[k].(reIncluded := false))
  }

  function FreshDrops(drops: seq<AuditDrop>): (r: seq<AuditDrop>)
    ensures |r| == |drops| && forall k | 0 <= k < |drops| :: r[k] == drops[k].(reIncluded := false)
  {
    seq(|drops|, k requires 0 <= k < |drops| => drops[k].(reIncluded := false))
  }

  /** A restored row was added under a new id, numbered after every other row. */
  ghost predicate IsRestored(before: map<Id, Requirement>, after: map<Id, Requirement>, id: Id, lineNo: nat, page: int,
                             body: string, excerpt: string)
  {
    && id !in before && id in after
    && after == before[id := Requirement(after[id].seqNo, "restored." + NUMERAL(lineNo), "(restored)", page, body,
                                         excerpt, "", None, [], None)]
    && forall other | other in before :: before[other].seqNo < after[id].seqNo
  }

  function DropItem(drop: AuditDrop, excerpt: string): MinedItem {
    MinedItem(RestoredClause(drop.seqNo), RESTORED, drop.page, drop.text, excerpt, true, -1, 0)
  }

  function Reincluded(drop: AuditDrop, restored: bool, retained: bool): AuditDrop {
    var failure := if retained then ReauditFailed else ReauditUnavailable;
    drop.(reIncluded := true, reason := if restored then drop.reason else failure)
  }

  /** The first candidate whose row the verdict lets pass. */
  ghost function FirstPassing(candidates: seq<string>, drop: AuditDrop, verdict: Verdict): Option<string> {
    if candidates == [] then None
    else if verdict(DropItem(drop, candidates[0])).None? then Some(candidates[0])
    else FirstPassing(candidates[1..], drop, verdict)
  }

  ghost function FreshExcerpt(drop: AuditDrop, pages: Option<PageMap>, matcher: Matcher): Option<string> {
    match pages
    case None => None
    case Some(text) => FirstPassing(DropExcerpts(drop), drop, Auditor(NormalizePages(text), MAX_RATIO, matcher))
  }

  method Reaudit(drop: AuditDrop, pages: Option<PageMap>, matcher: Matcher) returns (excerpt: Option<string>)
    ensures excerpt == FreshExcerpt(drop, pages, matcher)
  {
    if pages.None? { return None; }
    var candidates := DropExcerpts(drop);
    ghost var verdict := Auditor(NormalizePages(pages.value), MAX_RATIO, matcher);
    for c := 0 to |candidates|
      invariant FirstPassing(candidates, drop, verdict) == FirstPassing(candidates[c..], drop, verdict)
    {
      var item := DropItem(drop, candidates[c]);
      var outcome := AuditItems([item], pages.value, MAX_RATIO, matcher);
      SingleAudit(item, verdict);
      if outcome.passed != [] {
        return Some(candidates[c]);
      }
      assert candidates[c..][1..] == candidates[c + 1..];
    }
    return None;
  }

  lemma {:induction false} FirstPassingPasses(candidates: seq<string>, drop: AuditDrop, verdict: Verdict)
    ensures var e := FirstPassing(candidates, drop, verdict);
            && (e.Some? <==> exists c | c in candidates :: verdict(DropItem(drop, c)).None?)
            && (e.Some? ==> e.value in candidates && verdict(DropItem(drop, e.value)).None?)
  {
    if candidates != [] {
      FirstPassingPasses(candidates[1..], drop, verdict);
      assert candidates == [candidates[0]] + candidates[1..];
    }
  }

  /** A drop that a human restores carries a citation that holds, like every generated row. */
  lemma RestoredDropIsCited(drop: AuditDrop, pages: PageMap, matcher: Matcher)
    requires FreshExcerpt(drop, Some(pages), matcher).Some?
    ensures CitationHolds(FreshExcerpt(drop, Some(pages), matcher).value, drop.text, drop.page, pages, MAX_RATIO)
  {
    var verdict := Auditor(NormalizePages(pages), MAX_RATIO, matcher);
    FirstPassingPasses(DropExcerpts(drop), drop, verdict);
    var item := DropItem(drop, FreshExcerpt(drop, Some(pages), matcher).value);
    assert verdict(item).None?;
    PassedCitationHolds(item, pages, MAX_RATIO, matcher);
  }

  /** The candidate, with the drop's text, passes an audit against the pages. */
  ghost predicate PassesWith(drop: AuditDrop, excerpt: string, pages: PageMap, matcher: Matcher) {
    var text := TextOf(pages, drop.page);
    text.Some? && IsAccepted(excerpt, text.value, matcher) && IsAccepted(drop.text, text.value, matcher)
  }

  /** The excerpt of a restored drop is its own if that passes, or else the first 200 characters of its
      text if they do; without either, or without pages, there is none. */
  lemma FreshExcerptIff(drop: AuditDrop, pages: PageMap, matcher: Matcher)
    ensures FreshExcerpt(drop, None, matcher) == None
    ensures var opening := drop.text[..Min(200, |drop.text|)];
            FreshExcerpt(drop, Some(pages), matcher) ==
              if PassesWith(drop, drop.excerpt, pages, matcher) then Some(drop.excerpt)
              else if PassesWith(drop, opening, pages, matcher) then Some(opening) else None
  {
    var opening := drop.text[..Min(200, |drop.text|)];
    PassesWithIff(drop, drop.excerpt, pages, matcher);
    PassesWithIff(drop, opening, pages, matcher);
    FirstPassingOfTwo(drop.excerpt, opening, drop, Auditor(NormalizePages(pages), MAX_RATIO, matcher));
  }

  lemma PassesWithIff(drop: AuditDrop, excerpt: string, pages: PageMap, matcher: Matcher)
    ensures Auditor(NormalizePages(pages), MAX_RATIO, matcher)(DropItem(drop, excerpt)).None? <==>
            PassesWith(drop, excerpt, pages, matcher)
  {
    VerdictIff(DropItem(drop, excerpt), pages, matcher);
  }

  lemma FirstPassingOfTwo(x: string, y: string, drop: AuditDrop, verdict: Verdict)
    ensures FirstPassing([x, y], drop, verdict) ==
            if verdict(DropItem(drop, x)).None? then Some(x)
            else if verdict(DropItem(drop, y)).None? then Some(y) else None
  {
    assert [x, y][1..] == [y] && [y][1..] == [];
    assert FirstPassing([y], drop, verdict) == if verdict(DropItem(drop, y)).None? then Some(y) else None;
  }

  lemma SingleAudit(item: MinedItem, verdict: Verdict)
    ensures Audited([item], verdict).passed != [] <==> verdict(item).None?
  {
    assert [item][..0] == [];
    assert Audited([item][..0], verdict) == AuditOutcome([], []);
  }

  /** The rows differ at most in response, tags and verification. */
  predicate SameButHumanWork(a: Requirement, b: Requirement) {
    b == a.(response := b.response, tags := b.tags, verifiedAt := b.verifiedAt)
  }

  ghost predicate IsHumanEdit(before: map<Id, Requirement>, after: map<Id, Requirement>) {
    before.Keys == after.Keys && forall id | id in before :: SameButHumanWork(before[id], after[id])
  }

  function Excerpt(text: string): string { text[..Min(200, |text|)] }

  function RestoredClause(seqNo: nat): string { "restored." + NUMERAL(seqNo) }

  function RestoredRow(lineNo: nat, page: int, body: string, excerpt: string, seqNo: nat): Requirement {
    Requirement(seqNo, RestoredClause(lineNo), RESTORED, page, body, excerpt, "", None, [], None)
  }

  function DropExcerpts(drop: AuditDrop): seq<string> { [drop.excerpt, Excerpt(drop.text)] }

  // ------------------------------------------- what a merge guarantees

  /** The row carries the item. */
  ghost predicate Carries(row: Requirement, item: MinedItem, n: Normalizers) {
    && row.clauseId == n.clause(item.clauseId) && row.section == item.section && row.page == item.page
    && row.body == item.text && row.excerpt == item.excerpt
  }

  /** The generated rows carry passed items in document order, by page and by place within the page,
      and no two carry the same stored key. */
  lemma GeneratedRows(pre: map<Id, Requirement>, order: seq<Id>, passed: seq<MinedItem>, outputs: map<int, Id>,
                      n: Normalizers, post: map<Id, Requirement>, ids: seq<Id>, kept: seq<Id>, i: nat, j: nat)
    returns (x: MinedItem, y: MinedItem)
    requires IsMerged(pre, order, Survivors(SortByOrder(passed, Itself), n), outputs, n, post, ids, kept)
    requires i < j < |ids|
    ensures x in passed && y in passed && (x.page < y.page || (x.page == y.page && x.docOrder <= y.docOrder))
    ensures ItemKey(x, n) != ItemKey(y, n)
    ensures ids[i] in post && ids[j] in post && post[ids[i]].seqNo == i + 1 && post[ids[j]].seqNo == j + 1
    ensures Carries(post[ids[i]], x, n) && Carries(post[ids[j]], y, n)
  {
    var sorted := SortByOrder(passed, Itself);
    var items := Survivors(sorted, n);
    SortOrders(passed, Itself);
    SurvivorsOrder(sorted, n);
    SurvivorsKeys(sorted, n);
    x, y := items[i], items[j];
    assert InOrder(Itself(items[i]), Itself(items[j]));
    assert x in items && y in items;
    assert x in multiset(sorted) && y in multiset(sorted);
  }

  /** Every passed item is represented by a row with its page, its normalised clause id and its
      normalised text. */
  lemma EveryPassedItemHasARow(pre: map<Id, Requirement>, order: seq<Id>, passed: seq<MinedItem>, outputs: map<int, Id>,
                               n: Normalizers, post: map<Id, Requirement>, ids: seq<Id>, kept: seq<Id>, item: MinedItem)
    returns (id: Id)
    requires IsMerged(pre, order, Survivors(SortByOrder(passed, Itself), n), outputs, n, post, ids, kept)
    requires item in passed
    ensures id in ids && id in post
    ensures Key(post[id].clauseId, post[id].page, n.text(post[id].body)) == ItemKey(item, n)
  {
    var sorted := SortByOrder(passed, Itself);
    SortOrders(passed, Itself);
    SurvivorsKeys(sorted, n);
    assert item in multiset(sorted);
    var k :| 0 <= k < |sorted| && sorted[k] == item;
    assert ItemKey(item, n) in KeysOf(sorted, n);
    var items := Survivors(sorted, n);
    var i :| 0 <= i < |items| && ItemKey(items[i], n) == ItemKey(item, n);
    id := ids[i];
  }

  /** Exactly which existing rows a merge deletes, and that the others keep their human work. */
  lemma MergeKeepsHumanWork(pre: map<Id, Requirement>, order: seq<Id>, items: seq<MinedItem>, outputs: map<int, Id>,
                            n: Normalizers, post: map<Id, Requirement>, ids: seq<Id>, kept: seq<Id>, id: Id)
    requires IsMerged(pre, order, items, outputs, n, post, ids, kept) && id in pre
    ensures id in post <==>
            (exists i | 0 <= i < |items| :: Bucket(pre, order, ItemKey(items[i], n), n) != []
                                            && Bucket(pre, order, ItemKey(items[i], n), n)[0] == id)
            || (pre[id].section == "(restored)" && forall i | 0 <= i < |items| ::
                  Key(n.clause(items[i].clauseId), items[i].page, n.text(items[i].text)) !=
                  Key(n.clause(pre[id].clauseId), pre[id].page, n.text(pre[id].body)))
    ensures id in post ==>
              && post[id].response == pre[id].response && post[id].tags == pre[id].tags
              && post[id].verifiedAt == pre[id].verifiedAt
  {
    if id in ids {
      var i :| 0 <= i < |ids| && ids[i] == id;
      assert Bucket(pre, order, ItemKey(items[i], n), n) != [];
    } else if id in kept {
      var j :| 0 <= j < |kept| && kept[j] == id;
    }
    if i :| 0 <= i < |items| && Bucket(pre, order, ItemKey(items[i], n), n) != []
            && Bucket(pre, order, ItemKey(items[i], n), n)[0] == id
    {
      assert ids[i] == id;
    }
  }
}
