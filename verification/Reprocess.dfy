/** Persisting the same audited result a second time, after human work and restarts: exactly when
    every row survives with its human work. */
module Reprocess {
  import opened Basics
  import opened Text
  import opened FuzzyMatch
  import opened Mining
  import opened Matrix

  datatype Merge = Merge(pre: map<Id, Requirement>, order: seq<Id>, items: seq<MinedItem>, outputs: map<int, Id>,
                         post: map<Id, Requirement>, ids: seq<Id>, kept: seq<Id>)

  ghost predicate IsMerge(m: Merge, n: Normalizers) {
    IsMerged(m.pre, m.order, m.items, m.outputs, n, m.post, m.ids, m.kept) && DistinctKeys(m.items, n)
  }

  /** What humans do between two runs: they edit rows, and they restore rows, none of which has the
      key of an item. */
  ghost predicate IsWork(before: map<Id, Requirement>, after: map<Id, Requirement>, items: seq<MinedItem>,
                         n: Normalizers)
  {
    && (forall id | id in before :: id in after && SameButHumanWork(before[id], after[id]))
    && (forall id | id in after && id !in before :: SurvivesUnmatched(after[id], KeysOf(items, n), n))
  }

  lemma EditIsWork(before: map<Id, Requirement>, after: map<Id, Requirement>, items: seq<MinedItem>, n: Normalizers)
    requires IsHumanEdit(before, after)
    ensures IsWork(before, after, items, n)
  {
    assert forall id | id in after :: id in after.Keys;
  }

  lemma RestoreIsWork(before: map<Id, Requirement>, after: map<Id, Requirement>, items: seq<MinedItem>, n: Normalizers,
                      id: Id, lineNo: nat, page: int, body: string, excerpt: string)
    requires IsRestored(before, after, id, lineNo, page, body, excerpt)
    requires Key(n.clause(RestoredClause(lineNo)), page, n.text(body)) !in KeysOf(items, n)
    ensures IsWork(before, after, items, n)
  {
  }

  lemma WorkGoesOn(before: map<Id, Requirement>, mid: map<Id, Requirement>, after: map<Id, Requirement>,
                   items: seq<MinedItem>, n: Normalizers)
    requires IsWork(before, mid, items, n) && IsWork(mid, after, items, n)
    ensures IsWork(before, after, items, n)
  {
  }

  /** What is between two merges: rows may go, be edited, lose the link to their raw output, and be
      restored. */
  ghost predicate IsBetween(before: map<Id, Requirement>, after: map<Id, Requirement>, items: seq<MinedItem>,
                            n: Normalizers)
  {
    && (forall id | id in before && id in after ::
          SameButHumanWork(before[id].(modelOutput := after[id].modelOutput), after[id]))
    && (forall id | id in after && id !in before :: SurvivesUnmatched(after[id], KeysOf(items, n), n))
  }

  ghost predicate IsSecondRun(a: Merge, b: Merge, n: Normalizers) {
    IsMerge(a, n) && IsBetween(a.post, b.pre, a.items, n) && IsMerge(b, n) && a.items == b.items
  }

  /** A first merge, human work, and a second merge of the same items. The stored order and the raw
      outputs of the two may differ. */
  ghost predicate IsReprocess(a: Merge, b: Merge, n: Normalizers) {
    IsMerge(a, n) && IsWork(a.post, b.pre, a.items, n) && IsMerge(b, n) && a.items == b.items
  }

  /** The clause id that the merge stores is stored unchanged by the next one. */
  predicate IsSettled(item: MinedItem, n: Normalizers) {
    n.clause(n.clause(item.clauseId)) == n.clause(item.clauseId)
  }

  ghost predicate AllSettled(items: seq<MinedItem>, n: Normalizers) {
    forall i | 0 <= i < |items| :: IsSettled(items[i], n)
  }

  ghost predicate StableAfterTwo(n: Normalizers) {
    forall c: string :: n.clause(n.clause(n.clause(c))) == n.clause(n.clause(c))
  }

  // ------------------------------------ the stored rows, as the second merge sees them

  /** The key of the item's row, once it is stored. */
  function StoredKey(item: MinedItem, n: Normalizers): Key {
    Key(n.clause(n.clause(item.clauseId)), item.page, n.text(item.text))
  }

  lemma GeneratedRowKey(a: Merge, w: map<Id, Requirement>, n: Normalizers, i: nat)
    requires IsMerge(a, n) && IsBetween(a.post, w, a.items, n) && i < |a.items|
    ensures a.ids[i] in w ==> RowKey(w[a.ids[i]], n) == StoredKey(a.items[i], n)
    ensures StoredKey(a.items[i], n) == ItemKey(a.items[i], n) <==> IsSettled(a.items[i], n)
  {
    assert a.ids[i] in a.ids;
  }

  /** Every other row was restored, before the first merge or since. */
  lemma OtherRowIsUnmatched(a: Merge, w: map<Id, Requirement>, n: Normalizers, id: Id)
    requires IsMerge(a, n) && IsBetween(a.post, w, a.items, n) && id in w && id !in a.ids
    ensures SurvivesUnmatched(w[id], KeysOf(a.items, n), n)
    ensures forall i | 0 <= i < |a.items| :: RowKey(w[id], n) != ItemKey(a.items[i], n)
  {
    if id in a.post {
      var j :| 0 <= j < |a.kept| && a.kept[j] == id;
    }
  }

  /** A row with an item's key is the row of an item that settles on that key. */
  lemma MatchIsGenerated(a: Merge, w: map<Id, Requirement>, n: Normalizers, i: nat, id: Id) returns (j: nat)
    requires IsMerge(a, n) && IsBetween(a.post, w, a.items, n) && i < |a.items|
    requires id in w && RowKey(w[id], n) == ItemKey(a.items[i], n)
    ensures j < |a.items| && a.ids[j] == id && StoredKey(a.items[j], n) == ItemKey(a.items[i], n)
    ensures IsSettled(a.items[j], n) ==> i == j
    ensures StableAfterTwo(n) ==> IsSettled(a.items[i], n)
  {
    if id !in a.ids {
      OtherRowIsUnmatched(a, w, n, id);
    }
    j :| 0 <= j < |a.ids| && a.ids[j] == id;
    GeneratedRowKey(a, w, n, j);
    if i != j {
      assert ItemKey(a.items[i], n) != ItemKey(a.items[j], n);
    }
    if StableAfterTwo(n) {
      var c := a.items[j].clauseId;
      assert n.clause(n.clause(n.clause(c))) == n.clause(n.clause(c));
    }
  }

  /** No human work is on the row. */
  predicate IsBlank(row: Requirement) { row.response == "" && row.tags == [] && row.verifiedAt == None }

  /** The item starts again: it gets a blank row under an id that was not stored. */
  ghost predicate StartsBlank(b: Merge, i: nat)
    requires i < |b.ids|
  {
    b.ids[i] !in b.pre && b.ids[i] in b.post && IsBlank(b.post[b.ids[i]])
  }

  lemma BucketOfItem(b: Merge, n: Normalizers, i: nat) returns (bucket: seq<Id>)
    requires IsMerge(b, n) && i < |b.items|
    ensures bucket == Bucket(b.pre, b.order, ItemKey(b.items[i], n), n)
    ensures forall id :: id in bucket <==> id in b.pre && RowKey(b.pre[id], n) == ItemKey(b.items[i], n)
    ensures bucket == [] ==> StartsBlank(b, i)
    ensures bucket != [] ==> b.ids[i] == bucket[0] && b.ids[i] in b.pre && b.ids[i] in b.post
    ensures bucket != [] ==>
              b.post[b.ids[i]] == UpdatedRow(b.pre[b.ids[i]], b.items[i], i + 1,
                  OutputFor(b.outputs, b.items[i].chunkIndex), n)
  {
    bucket := Bucket(b.pre, b.order, ItemKey(b.items[i], n), n);
    BucketMembers(b.pre, b.order, ItemKey(b.items[i], n), n);
  }

  lemma StoredRow(a: Merge, w: map<Id, Requirement>, n: Normalizers, i: nat)
    requires IsMerge(a, n) && IsBetween(a.post, w, a.items, n) && i < |a.items| && a.ids[i] in w
    ensures w[a.ids[i]].seqNo == i + 1 && Carries(w[a.ids[i]], a.items[i], n)
  {
    assert a.ids[i] in a.ids;
  }

  // ---------------------------------------------------- one item at a time

  /** Another item's stored row has the item's key: it differs only in a clause id that is not settled. */
  ghost predicate HasRival(a: Merge, w: map<Id, Requirement>, n: Normalizers, i: nat)
    requires i < |a.items| && |a.ids| == |a.items|
  {
    exists j | 0 <= j < |a.items| && j != i :: a.ids[j] in w && StoredKey(a.items[j], n) == ItemKey(a.items[i], n)
  }

  /** The row that the merge takes for the item. */
  ghost function RowTaken(w: map<Id, Requirement>, order: seq<Id>, item: MinedItem, n: Normalizers): Option<Id>
    requires Enumerates(order, w)
  {
    var bucket := Bucket(w, order, ItemKey(item, n), n);
    if bucket == [] then None else Some(bucket[0])
  }

  lemma {:induction false} FirstRowLeadsItsBucket(w: map<Id, Requirement>, order: seq<Id>, key: Key, n: Normalizers)
    requires order != [] && (forall id | id in order :: id in w) && RowKey(w[order[0]], n) == key
    ensures Bucket(w, order, key, n) != [] && Bucket(w, order, key, n)[0] == order[0]
  {
    if |order| > 1 {
      FirstRowLeadsItsBucket(w, order[..|order| - 1], key, n);
    } else {
      assert order[..0] == [];
    }
  }

  lemma {:induction false} Listing(ids: set<Id>) returns (order: seq<Id>)
    ensures NoRepeats(order) && forall id :: id in order <==> id in ids
  {
    order := [];
    if ids != {} {
      HasMember(ids);
      var id :| id in ids;
      var rest := Listing(ids - {id});
      order := rest + [id];
    }
  }

  /** Any row may come first. */
  lemma OrderFrom(w: map<Id, Requirement>, first: Id) returns (order: seq<Id>)
    requires first in w
    ensures Enumerates(order, w) && order[0] == first
  {
    var rest := Listing(w.Keys - {first});
    order := [first] + rest;
    assert forall k | 1 <= k < |order| :: order[k] == rest[k - 1];
    assert forall id :: id in order <==> id == first || id in rest;
  }

  /** The item finds its own row again, in whatever order the query returns the rows, exactly when
      the row is still there, its clause id is settled and it has no rival. */
  lemma ItemKeepsItsRowIff(a: Merge, w: map<Id, Requirement>, n: Normalizers, i: nat)
    requires IsMerge(a, n) && IsBetween(a.post, w, a.items, n) && i < |a.items|
    ensures (forall order | Enumerates(order, w) :: RowTaken(w, order, a.items[i], n) == Some(a.ids[i]))
            <==> a.ids[i] in w && IsSettled(a.items[i], n) && !HasRival(a, w, n, i)
  {
    if a.ids[i] in w && IsSettled(a.items[i], n) && !HasRival(a, w, n, i) {
      forall order | Enumerates(order, w) ensures RowTaken(w, order, a.items[i], n) == Some(a.ids[i]) {
        LoneItemTakesItsRow(a, w, n, i, order);
      }
    } else {
      var order := OrderAgainst(a, w, n, i);
      assert RowTaken(w, order, a.items[i], n) != Some(a.ids[i]);
    }
  }

  lemma LoneItemTakesItsRow(a: Merge, w: map<Id, Requirement>, n: Normalizers, i: nat, order: seq<Id>)
    requires IsMerge(a, n) && IsBetween(a.post, w, a.items, n) && i < |a.items| && Enumerates(order, w)
    requires a.ids[i] in w && IsSettled(a.items[i], n) && !HasRival(a, w, n, i)
    ensures RowTaken(w, order, a.items[i], n) == Some(a.ids[i])
  {
    var key := ItemKey(a.items[i], n);
    var bucket := Bucket(w, order, key, n);
    BucketMembers(w, order, key, n);
    GeneratedRowKey(a, w, n, i);
    assert a.ids[i] in bucket && bucket[0] in bucket;
    var j := MatchIsGenerated(a, w, n, i, bucket[0]);
  }

  /** Otherwise some order takes it away. */
  lemma OrderAgainst(a: Merge, w: map<Id, Requirement>, n: Normalizers, i: nat) returns (order: seq<Id>)
    requires IsMerge(a, n) && IsBetween(a.post, w, a.items, n) && i < |a.items|
    requires !(a.ids[i] in w && IsSettled(a.items[i], n) && !HasRival(a, w, n, i))
    ensures Enumerates(order, w) && RowTaken(w, order, a.items[i], n) != Some(a.ids[i])
  {
    var key := ItemKey(a.items[i], n);
    if HasRival(a, w, n, i) {
      var j :| 0 <= j < |a.items| && j != i && a.ids[j] in w && StoredKey(a.items[j], n) == key;
      order := OrderFrom(w, a.ids[j]);
      GeneratedRowKey(a, w, n, j);
      FirstRowLeadsItsBucket(w, order, key, n);
      DifferentRows(a, n, i, j);
    } else {
      order := Listing(w.Keys);
      BucketMembers(w, order, key, n);
      GeneratedRowKey(a, w, n, i);
      var bucket := Bucket(w, order, key, n);
      assert bucket != [] ==> bucket[0] in bucket;
    }
  }

  lemma DifferentRows(a: Merge, n: Normalizers, i: nat, j: nat)
    requires IsMerge(a, n) && i < |a.items| && j < |a.items| && i != j
    ensures a.ids[i] != a.ids[j]
  {
    var all := a.ids + a.kept;
    assert all[i] == a.ids[i] && all[j] == a.ids[j];
  }

  /** The second merge then leaves the row as it is, but for its link to the raw output. */
  lemma LoneItemKeepsItsWork(a: Merge, b: Merge, n: Normalizers, i: nat)
    requires IsSecondRun(a, b, n) && i < |a.items|
    requires a.ids[i] in b.pre && IsSettled(a.items[i], n) && !HasRival(a, b.pre, n, i)
    ensures b.ids[i] == a.ids[i] && a.ids[i] in b.post
    ensures b.post[a.ids[i]] == b.pre[a.ids[i]].(modelOutput := b.post[a.ids[i]].modelOutput)
  {
    var bucket := BucketOfItem(b, n, i);
    LoneItemTakesItsRow(a, b.pre, n, i, b.order);
    StoredRow(a, b.pre, n, i);
  }

  // ------------------------------------------------------- the two cases

  /** If all clause ids are settled, an item whose row is still there finds it again; an item whose
      row is gone starts blank. */
  lemma SettledItem(a: Merge, b: Merge, n: Normalizers, i: nat)
    requires IsSecondRun(a, b, n) && AllSettled(a.items, n) && i < |a.items|
    ensures a.ids[i] in b.pre ==>
              b.ids[i] == a.ids[i] && a.ids[i] in b.post
              && b.post[a.ids[i]] == b.pre[a.ids[i]].(modelOutput := b.post[a.ids[i]].modelOutput)
    ensures a.ids[i] !in b.pre ==> StartsBlank(b, i)
  {
    assert IsSettled(a.items[i], n);
    if a.ids[i] in b.pre {
      forall j | 0 <= j < |a.items| && j != i ensures StoredKey(a.items[j], n) != ItemKey(a.items[i], n) {
        assert IsSettled(a.items[j], n) && ItemKey(a.items[i], n) != ItemKey(a.items[j], n);
      }
      LoneItemKeepsItsWork(a, b, n, i);
    } else {
      var bucket := BucketOfItem(b, n, i);
      if bucket != [] {
        assert bucket[0] in bucket;
        var j := MatchIsGenerated(a, b.pre, n, i, bucket[0]);
      }
    }
  }

  /** An item whose clause id is not settled finds no row: it starts again with a blank one. */
  lemma UnsettledItemFindsNoRow(a: Merge, b: Merge, n: Normalizers, i: nat)
    requires IsSecondRun(a, b, n) && StableAfterTwo(n) && i < |a.items| && !IsSettled(a.items[i], n)
    ensures StartsBlank(b, i)
  {
    var bucket := BucketOfItem(b, n, i);
    if bucket != [] {
      assert bucket[0] in bucket;
      var j := MatchIsGenerated(a, b.pre, n, i, bucket[0]);
    }
  }

  /** A restored row is kept, with its human work. */
  lemma OtherRowIsKept(a: Merge, b: Merge, n: Normalizers, id: Id)
    requires IsSecondRun(a, b, n) && id in b.pre && id !in a.ids && id !in b.ids
    ensures id in b.kept && id in b.post && b.post[id] == b.pre[id].(seqNo := b.post[id].seqNo)
  {
    OtherRowIsUnmatched(a, b.pre, n, id);
    assert id in b.kept;
    var j :| 0 <= j < |b.kept| && b.kept[j] == id;
  }

  /** An unsettled item starts again with a blank new row, and its old one is deleted with its human
      work, unless another item takes it over. (A row that says it was restored is kept.) */
  lemma UnsettledItemStartsBlank(a: Merge, b: Merge, n: Normalizers, i: nat)
    requires IsReprocess(a, b, n) && StableAfterTwo(n) && i < |a.items|
    requires !IsSettled(a.items[i], n)
    ensures b.ids[i] !in b.pre && b.ids[i] in b.post && IsBlank(b.post[b.ids[i]])
    ensures a.ids[i] in b.pre
    ensures a.items[i].section != RESTORED && a.ids[i] in b.post ==>
              exists k | 0 <= k < |b.ids| && k != i :: b.ids[k] == a.ids[i]
  {
    RowsAreThere(a, b, n);
    UnsettledItemFindsNoRow(a, b, n, i);
    StoredRow(a, b.pre, n, i);
    assert forall j | 0 <= j < |b.kept| :: b.kept[j] in b.pre && b.pre[b.kept[j]].section == RESTORED;
    if a.ids[i] in b.ids {
      var k :| 0 <= k < |b.ids| && b.ids[k] == a.ids[i];
    }
  }

  /** Human work alone removes no row. */
  lemma RowsAreThere(a: Merge, b: Merge, n: Normalizers)
    requires IsReprocess(a, b, n)
    ensures IsSecondRun(a, b, n) && forall i | 0 <= i < |a.items| :: a.ids[i] in b.pre
  {
    forall i | 0 <= i < |a.items| ensures a.ids[i] in b.pre {
      assert a.ids[i] in a.ids;
    }
  }

  // ------------------------------------------------------- the theorem

  /** With settled clause ids a second run deletes nothing, adds nothing and loses no human work:
      a generated row changes only in its link to the raw output, any other only in its number. */
  lemma SettledReprocessPreserves(a: Merge, b: Merge, n: Normalizers)
    requires IsReprocess(a, b, n) && AllSettled(a.items, n)
    ensures b.ids == a.ids && b.post.Keys == b.pre.Keys
    ensures forall id | id in a.ids ::
              id in b.pre && id in b.post && b.post[id] == b.pre[id].(modelOutput := b.post[id].modelOutput)
    ensures forall id | id in b.pre && id !in a.ids ::
              id in b.post && b.post[id] == b.pre[id].(seqNo := b.post[id].seqNo)
  {
    RowsAreThere(a, b, n);
    SettledItemsKeepTheirRows(a, b, n);
    forall id | id in b.pre && id !in a.ids
      ensures id in b.post && b.post[id] == b.pre[id].(seqNo := b.post[id].seqNo)
    {
      OtherRowIsKept(a, b, n, id);
    }
    forall id | id in b.kept ensures id in b.pre {
      var j :| 0 <= j < |b.kept| && b.kept[j] == id;
    }
  }

  lemma SettledItemsKeepTheirRows(a: Merge, b: Merge, n: Normalizers)
    requires IsSecondRun(a, b, n) && AllSettled(a.items, n)
    requires forall i | 0 <= i < |a.items| :: a.ids[i] in b.pre
    ensures b.ids == a.ids
    ensures forall id | id in a.ids ::
              id in b.pre && id in b.post && b.post[id] == b.pre[id].(modelOutput := b.post[id].modelOutput)
  {
    forall i | 0 <= i < |a.ids|
      ensures b.ids[i] == a.ids[i] && a.ids[i] in b.pre && a.ids[i] in b.post
              && b.post[a.ids[i]] == b.pre[a.ids[i]].(modelOutput := b.post[a.ids[i]].modelOutput)
    {
      SettledItem(a, b, n, i);
    }
  }

  /** Every item keeps its row exactly when every clause id is settled. */
  lemma ReprocessKeepsRowsIff(a: Merge, b: Merge, n: Normalizers)
    requires IsReprocess(a, b, n) && StableAfterTwo(n)
    ensures b.ids == a.ids <==> AllSettled(a.items, n)
  {
    RowsAreThere(a, b, n);
    if AllSettled(a.items, n) {
      SettledItemsKeepTheirRows(a, b, n);
    } else {
      var i :| 0 <= i < |a.items| && !IsSettled(a.items[i], n);
      UnsettledItemFindsNoRow(a, b, n, i);
    }
  }

  // ------------------------------------------------- restarts in between

  /** What happens to the rows between the two merges: human work, or the clean-up of a worker's
      restart. */
  datatype Deed = Work | CleanUp(raw: map<Id, RawOutput>, run: nat)

  ghost predicate IsDeed(before: map<Id, Requirement>, deed: Deed, after: map<Id, Requirement>, items: seq<MinedItem>,
                         n: Normalizers)
  {
    match deed
    case Work => IsWork(before, after, items, n)
    case CleanUp(raw, run) => after == Cleaned(before, raw, run)
  }

  /** No id comes back. */
  ghost predicate NewIdsAreNew(earlier: map<Id, Requirement>, before: map<Id, Requirement>,
                               after: map<Id, Requirement>)
  {
    forall id | id in after && id !in before :: id !in earlier
  }

  /** The stored rows after each deed. */
  ghost predicate IsHistory(rows: seq<map<Id, Requirement>>, deeds: seq<Deed>, items: seq<MinedItem>, n: Normalizers) {
    && |rows| == |deeds| + 1
    && (forall k | 0 <= k < |deeds| :: IsDeed(rows[k], deeds[k], rows[k + 1], items, n))
    && (forall j, k | 0 <= j <= k < |deeds| :: NewIdsAreNew(rows[j], rows[k], rows[k + 1]))
  }

  /** A first merge, any human work and clean-ups, and a second merge of the same items. */
  ghost predicate IsRestarted(a: Merge, rows: seq<map<Id, Requirement>>, deeds: seq<Deed>, b: Merge, n: Normalizers) {
    && IsMerge(a, n) && IsMerge(b, n) && a.items == b.items
    && IsHistory(rows, deeds, a.items, n) && rows[0] == a.post && rows[|deeds|] == b.pre
    && forall j | 0 <= j < |rows| :: NewIdsAreNew(rows[j], b.pre, b.post)
  }

  /** From the `j`-th state to the `k`-th, the row was verified at every clean-up. */
  ghost predicate CheckedAtCleanUps(rows: seq<map<Id, Requirement>>, deeds: seq<Deed>, id: Id, j: nat, k: nat)
    requires j <= k <= |deeds| < |rows|
  {
    forall m | j <= m < k && deeds[m].CleanUp? :: id in rows[m] && rows[m][id].verifiedAt.Some?
  }

  ghost predicate AllChecked(rows: seq<map<Id, Requirement>>, deeds: seq<Deed>, ids: seq<Id>)
    requires |deeds| < |rows|
  {
    forall i | 0 <= i < |ids| :: CheckedAtCleanUps(rows, deeds, ids[i], 0, |deeds|)
  }

  /** A row is still there exactly when it was. */
  lemma {:induction false} StaysIff(rows: seq<map<Id, Requirement>>, deeds: seq<Deed>, items: seq<MinedItem>,
                                    n: Normalizers, id: Id, j: nat, k: nat)
    requires IsHistory(rows, deeds, items, n) && j <= k <= |deeds| && id in rows[j]
    ensures id in rows[k] <==> CheckedAtCleanUps(rows, deeds, id, j, k)
  {
    if j < k {
      StaysIff(rows, deeds, items, n, id, j, k - 1);
      assert IsDeed(rows[k - 1], deeds[k - 1], rows[k - 1 + 1], items, n);
      assert NewIdsAreNew(rows[j], rows[k - 1], rows[k - 1 + 1]);
    }
  }

  lemma DeedIsBetween(start: map<Id, Requirement>, before: map<Id, Requirement>, deed: Deed,
                      after: map<Id, Requirement>, items: seq<MinedItem>, n: Normalizers)
    requires IsBetween(start, before, items, n) && IsDeed(before, deed, after, items, n)
    requires NewIdsAreNew(start, before, after)
    ensures IsBetween(start, after, items, n)
  {
  }

  lemma {:induction false} HistoryIsBetween(rows: seq<map<Id, Requirement>>, deeds: seq<Deed>, items: seq<MinedItem>,
                                            n: Normalizers, k: nat)
    requires IsHistory(rows, deeds, items, n) && k <= |deeds|
    ensures IsBetween(rows[0], rows[k], items, n)
  {
    if k > 0 {
      HistoryIsBetween(rows, deeds, items, n, k - 1);
      assert NewIdsAreNew(rows[0], rows[k - 1], rows[k - 1 + 1]);
      DeedIsBetween(rows[0], rows[k - 1], deeds[k - 1], rows[k - 1 + 1], items, n);
    }
  }

  /** With settled clause ids, a generated row keeps its id and its work exactly when it was
      verified at every clean-up; otherwise its item starts blank. */
  lemma RestartedItem(a: Merge, rows: seq<map<Id, Requirement>>, deeds: seq<Deed>, b: Merge, n: Normalizers, i: nat)
    requires IsRestarted(a, rows, deeds, b, n) && AllSettled(a.items, n) && i < |a.items|
    ensures CheckedAtCleanUps(rows, deeds, a.ids[i], 0, |deeds|) ==>
              b.ids[i] == a.ids[i] && a.ids[i] in b.pre && a.ids[i] in b.post
              && b.post[a.ids[i]] == b.pre[a.ids[i]].(modelOutput := b.post[a.ids[i]].modelOutput)
    ensures !CheckedAtCleanUps(rows, deeds, a.ids[i], 0, |deeds|) ==> StartsBlank(b, i) && a.ids[i] !in b.post
  {
    assert a.ids[i] in a.ids;
    StaysIff(rows, deeds, a.items, n, a.ids[i], 0, |deeds|);
    HistoryIsBetween(rows, deeds, a.items, n, |deeds|);
    SettledItem(a, b, n, i);
    assert NewIdsAreNew(rows[0], b.pre, b.post);
  }

  /** And a row that was restored, at any time, is kept with its work exactly when it was verified at
      every later clean-up. */
  lemma RestartedOther(a: Merge, rows: seq<map<Id, Requirement>>, deeds: seq<Deed>, b: Merge, n: Normalizers, id: Id,
                       j: nat)
    requires IsRestarted(a, rows, deeds, b, n) && AllSettled(a.items, n)
    requires j <= |deeds| && id in rows[j] && id !in a.ids
    ensures id in b.post <==> CheckedAtCleanUps(rows, deeds, id, j, |deeds|)
    ensures id in b.post ==> id in b.pre && b.post[id] == b.pre[id].(seqNo := b.post[id].seqNo)
  {
    StaysIff(rows, deeds, a.items, n, id, j, |deeds|);
    HistoryIsBetween(rows, deeds, a.items, n, |deeds|);
    assert NewIdsAreNew(rows[j], b.pre, b.post);
    if id in b.pre {
      assert id !in b.ids by {
        forall i | 0 <= i < |b.ids| ensures b.ids[i] != id {
          SettledItem(a, b, n, i);
          assert a.ids[i] in a.ids;
        }
      }
      OtherRowIsKept(a, b, n, id);
    }
  }

  /** Every item keeps its row exactly when every clause id is settled and every row was verified at
      every clean-up. */
  lemma RestartKeepsRowsIff(a: Merge, rows: seq<map<Id, Requirement>>, deeds: seq<Deed>, b: Merge, n: Normalizers)
    requires IsRestarted(a, rows, deeds, b, n) && StableAfterTwo(n)
    ensures b.ids == a.ids <==> AllSettled(a.items, n) && AllChecked(rows, deeds, a.ids)
  {
    if AllSettled(a.items, n) {
      forall i | 0 <= i < |a.items|
        ensures b.ids[i] == a.ids[i] <==> CheckedAtCleanUps(rows, deeds, a.ids[i], 0, |deeds|)
      {
        RestartedItem(a, rows, deeds, b, n, i);
      }
    } else {
      var i :| 0 <= i < |a.items| && !IsSettled(a.items[i], n);
      UnsettledItemIsRenewed(a, rows, deeds, b, n, i);
    }
  }

  lemma UnsettledItemIsRenewed(a: Merge, rows: seq<map<Id, Requirement>>, deeds: seq<Deed>, b: Merge, n: Normalizers,
                               i: nat)
    requires IsRestarted(a, rows, deeds, b, n) && StableAfterTwo(n)
    requires i < |a.items| && !IsSettled(a.items[i], n)
    ensures b.ids[i] != a.ids[i]
  {
    HistoryIsBetween(rows, deeds, a.items, n, |deeds|);
    UnsettledItemFindsNoRow(a, b, n, i);
    assert a.ids[i] in a.ids;
    assert NewIdsAreNew(rows[0], b.pre, b.post);
  }

  // ---------------------------------------- with the program's normalisers

  const SOURCE := Normalizers(NormalizeClauseId, NormalizeText)

  /** The raw clause id, trimmed and stripped of separators and dots, has no semicolon, colon or
      comma left at an edge. */
  ghost predicate KeepsItsRow(clauseId: string) {
    CleanEdges(Strip(TrimClauseId(clauseId), IsSeparatorOrDot), IsStop)
  }

  lemma SourceFacts(clauseId: string)
    ensures SOURCE.clause(SOURCE.clause(clauseId)) == SOURCE.clause(clauseId) <==> KeepsItsRow(clauseId)
    ensures SOURCE.clause(SOURCE.clause(SOURCE.clause(clauseId))) == SOURCE.clause(SOURCE.clause(clauseId))
  {
    ClauseIdIdempotentIff(clauseId);
    ClauseIdStableAfterTwo(clauseId);
  }

  /** The condition, read off the items before either run: reprocessing keeps every item's row if
      and only if it holds of every clause id. */
  lemma SourceReprocessIff(a: Merge, b: Merge)
    requires IsReprocess(a, b, SOURCE)
    ensures b.ids == a.ids <==> forall i | 0 <= i < |a.items| :: KeepsItsRow(a.items[i].clauseId)
  {
    SourceSettles();
    ReprocessKeepsRowsIff(a, b, SOURCE);
  }

  lemma SourceSettles()
    ensures StableAfterTwo(SOURCE)
    ensures forall item: MinedItem :: IsSettled(item, SOURCE) <==> KeepsItsRow(item.clauseId)
  {
    forall c: string ensures SOURCE.clause(SOURCE.clause(SOURCE.clause(c))) == SOURCE.clause(SOURCE.clause(c)) {
      SourceFacts(c);
    }
    forall item: MinedItem ensures IsSettled(item, SOURCE) <==> KeepsItsRow(item.clauseId) {
      SourceFacts(item.clauseId);
    }
  }

  /** The same with restarts in between. */
  lemma SourceRestartIff(a: Merge, rows: seq<map<Id, Requirement>>, deeds: seq<Deed>, b: Merge)
    requires IsRestarted(a, rows, deeds, b, SOURCE)
    ensures b.ids == a.ids <==>
            (forall i | 0 <= i < |a.items| :: KeepsItsRow(a.items[i].clauseId)) && AllChecked(rows, deeds, a.ids)
  {
    SourceSettles();
    RestartKeepsRowsIff(a, rows, deeds, b, SOURCE);
  }

  // ------------------------------------------------- a row that is lost

  const ANSWER := "Compliant"

  /** For every item whose clause id is not settled there is a run, an answered and verified row,
      and a second run of the same result that deletes the row. */
  lemma AnswerIsLost(x: MinedItem, n: Normalizers) returns (a: Merge, b: Merge)
    requires x.section != RESTORED && !IsSettled(x, n)
    ensures IsReprocess(a, b, n) && a.items == [x]
    ensures a.ids[0] in b.pre && b.pre[a.ids[0]].response == ANSWER && b.pre[a.ids[0]].verifiedAt.Some?
    ensures a.ids[0] !in b.post
  {
    var row := NewRow(x, 1, None, n);
    var answered := row.(response := ANSWER, verifiedAt := Some(1));
    a := Merge(map[], [], [x], map[], map[0 := row], [0], []);
    b := Merge(map[0 := answered], [0], [x], map[], map[1 := row], [1], []);
    assert b.order[..0] == [];
    assert RowKey(answered, n) != ItemKey(x, n);
    assert Bucket(b.pre, b.order, ItemKey(x, n), n) == [];
  }

  /** With the program's normalisers: an answered and verified row of clause "1;-" is lost. */
  lemma SomeClauseIdLosesItsRow(x: MinedItem) returns (a: Merge, b: Merge)
    requires x.clauseId == "1;-" && x.section != RESTORED
    ensures IsReprocess(a, b, SOURCE) && a.items == [x] && !KeepsItsRow(x.clauseId)
    ensures a.ids[0] in b.pre && b.pre[a.ids[0]].response == ANSWER && b.pre[a.ids[0]].verifiedAt.Some?
    ensures a.ids[0] !in b.post
  {
    SourceFacts("1;-");
    ClauseIdNotIdempotent();
    a, b := AnswerIsLost(x, SOURCE);
  }

  /** Whatever the clause id: an answered row that nobody verified is lost, if a restart cleans up
      before the second merge. */
  lemma UncheckedAnswerIsLost(x: MinedItem, n: Normalizers)
    returns (a: Merge, rows: seq<map<Id, Requirement>>, deeds: seq<Deed>, b: Merge)
    ensures IsRestarted(a, rows, deeds, b, n) && a.items == [x] && deeds == [Work, CleanUp(map[], 0)]
    ensures a.ids[0] in rows[1] && rows[1][a.ids[0]].response == ANSWER
    ensures a.ids[0] !in b.post && StartsBlank(b, 0)
  {
    var row := NewRow(x, 1, None, n);
    a := Merge(map[], [], [x], map[], map[0 := row], [0], []);
    b := Merge(map[], [], [x], map[], map[1 := row], [1], []);
    rows, deeds := [a.post, map[0 := row.(response := ANSWER)], map[]], [Work, CleanUp(map[], 0)];
    assert IsDeed(rows[0], deeds[0], rows[1], [x], n);
    assert IsDeed(rows[1], deeds[1], rows[2], [x], n);
  }

  lemma BucketOfTwo(rows: map<Id, Requirement>, first: Id, second: Id, key: Key, n: Normalizers)
    requires first in rows && second in rows && RowKey(rows[first], n) == RowKey(rows[second], n)
    ensures Bucket(rows, [first, second], key, n) == if RowKey(rows[first], n) == key then [first, second] else []
  {
    assert [first, second][..1] == [first] && [first][..0] == [];
    assert Bucket(rows, [first], key, n) == if RowKey(rows[first], n) == key then [first] else [];
  }

  /** A settled item loses its answered and verified row to a neighbour: `y` settles on the key of
      `x`, and the query returns the row of `y` first. */
  lemma NeighbourTakesOver(x: MinedItem, y: MinedItem, n: Normalizers) returns (a: Merge, b: Merge)
    requires IsSettled(x, n) && StoredKey(y, n) == ItemKey(x, n) && ItemKey(y, n) != ItemKey(x, n)
    requires x.section != RESTORED
    ensures IsReprocess(a, b, n) && a.items == [x, y]
    ensures a.ids[0] in b.pre && b.pre[a.ids[0]].response == ANSWER && b.pre[a.ids[0]].verifiedAt.Some?
    ensures b.ids[0] == a.ids[1] && a.ids[0] !in b.post
  {
    a := FirstOfTwo(x, y, n);
    b := SecondOfTwo(x, y, n, a.post[0].(response := ANSWER, verifiedAt := Some(1)), a.post[1]);
  }

  lemma FirstOfTwo(x: MinedItem, y: MinedItem, n: Normalizers) returns (a: Merge)
    requires ItemKey(y, n) != ItemKey(x, n)
    ensures IsMerge(a, n) && a.items == [x, y] && a.ids == [0, 1]
    ensures a.post == map[0 := NewRow(x, 1, None, n), 1 := NewRow(y, 2, None, n)]
  {
    a := Merge(map[], [], [x, y], map[], map[0 := NewRow(x, 1, None, n), 1 := NewRow(y, 2, None, n)], [0, 1], []);
  }

  lemma SecondOfTwo(x: MinedItem, y: MinedItem, n: Normalizers, first: Requirement, second: Requirement)
    returns (b: Merge)
    requires RowKey(first, n) == RowKey(second, n) == ItemKey(x, n) != ItemKey(y, n) && first.section != RESTORED
    ensures IsMerge(b, n) && b.pre == map[0 := first, 1 := second] && b.items == [x, y]
    ensures b.ids == [1, 2] && 0 !in b.post
  {
    var pre := map[0 := first, 1 := second];
    var post := map[1 := UpdatedRow(second, x, 1, None, n), 2 := NewRow(y, 2, None, n)];
    BucketOfTwo(pre, 1, 0, ItemKey(x, n), n);
    BucketOfTwo(pre, 1, 0, ItemKey(y, n), n);
    b := Merge(pre, [1, 0], [x, y], map[], post, [1, 2], []);
  }

  /** With the program's normalisers: clause "1;-" on the page takes the row of the same text under
      the clause id on which "1;-" settles. */
  lemma SomeNeighbourTakesOver(x: MinedItem, y: MinedItem) returns (a: Merge, b: Merge)
    requires x.clauseId == NormalizeClauseId(NormalizeClauseId("1;-")) && x.section != RESTORED
    requires y.clauseId == "1;-" && y.page == x.page && y.text == x.text
    ensures IsReprocess(a, b, SOURCE) && a.items == [x, y] && KeepsItsRow(x.clauseId)
    ensures a.ids[0] in b.pre && b.pre[a.ids[0]].response == ANSWER && b.pre[a.ids[0]].verifiedAt.Some?
    ensures b.ids[0] == a.ids[1] && a.ids[0] !in b.post
  {
    SourceFacts("1;-");
    SourceFacts(NormalizeClauseId("1;-"));
    SourceFacts(x.clauseId);
    ClauseIdNotIdempotent();
    a, b := NeighbourTakesOver(x, y, SOURCE);
  }
}
