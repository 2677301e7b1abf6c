/** Drug insertion and the JSON batch import (app/routes/drugs.py). */
module Drugs {
  import opened Common
  import opened Store
  import opened DrugModels

  /** A value of the import's JSON body, as far as the model needs it. */
  datatype JsonValue = JsonNumber(literal: string) | JsonString(text: string) | JsonOther

  /** One object of the import list; a key that is absent is None. */
  datatype ImportItem = ImportItem(
    sku: Option<string>,
    name: Option<string>,
    sellPrice: Option<JsonValue>,
    purchasePrice: Option<JsonValue>,
    stock: Option<JsonValue>)

  /** Python's float() and int() on a JSON value; None where they raise. */
  datatype Conversions = Conversions(toFloat: JsonValue -> Option<Float>, toInt: JsonValue -> Option<int>)

  /** The counters of a completed import. */
  datatype ImportReport = ImportReport(successCount: nat, failedCount: nat)

  // ---------- Table invariants ----------

  /** Some row, deleted or not, has this name: the duplicate check of both routes. */
  predicate NameTaken(rows: map<int, Drug>, name: string)
  {
    exists k :: k in rows && rows[k].name == name
  }

  predicate SkuTaken(rows: map<int, Drug>, sku: string)
  {
    exists k :: k in rows && rows[k].sku == sku
  }

  // ---------- Commit ----------

  /** The table after committing `pending` in order, the i-th under id nextId + i. */
  function Inserted(rows: map<int, Drug>, nextId: int, pending: seq<NewDrug>): (r: map<int, Drug>)
    requires forall k :: k in rows ==> k < nextId
    decreases |pending|
    ensures forall k :: k in rows ==> k in r && r[k] == rows[k]
    ensures forall k :: nextId <= k < nextId + |pending| ==> k in r && r[k] == Persisted(pending[k - nextId], k)
    ensures forall k :: k in r ==> k in rows || nextId <= k < nextId + |pending|
  {
    if pending == [] then rows
    else
      var init := pending[..|pending| - 1];
      var before := Inserted(rows, nextId, init);
      assert forall i :: 0 <= i < |init| ==> init[i] == pending[i];
      before[nextId + |init| := Persisted(pending[|init|], nextId + |init|)]
  }

  /** Inserting keeps the ids contiguous and every row under its own id. */
  lemma InsertedWellKeyed(rows: map<int, Drug>, nextId: int, pending: seq<NewDrug>)
    requires Contiguous(rows, nextId) && IdsMatch(rows, DrugId)
    ensures Contiguous(Inserted(rows, nextId, pending), nextId + |pending|)
    ensures IdsMatch(Inserted(rows, nextId, pending), DrugId)
  {
    var r := Inserted(rows, nextId, pending);
    assert forall k :: 1 <= k < nextId + |pending| ==> k in r;
  }

  // ---------- Staging of import_drugs_from_json's loop ----------

  /** An item lacks one of the five keys the loop reads. */
  predicate MissingKey(item: ImportItem)
  {
    item.sku.None? || item.name.None? || item.sellPrice.None? || item.purchasePrice.None? || item.stock.None?
  }

  /** One numeric value of a complete item fails to convert. */
  predicate ConversionFails(item: ImportItem, conv: Conversions)
    requires !MissingKey(item)
  {
    conv.toFloat(item.sellPrice.value).None? || conv.toFloat(item.purchasePrice.value).None?
      || conv.toInt(item.stock.value).None?
  }

  /** One pass of the loop body: the drug it adds to the session, or None when the
      item counts as failed. The duplicate check sees only the committed rows. */
  function StageItem(committed: map<int, Drug>, item: ImportItem, conv: Conversions): (r: Option<NewDrug>)
    ensures r.None? <==>
      MissingKey(item) || NameTaken(committed, item.name.value) || ConversionFails(item, conv)
    ensures r.Some? ==>
      && Some(r.value.name) == item.name && Some(r.value.sku) == item.sku
      && Some(r.value.sellPrice) == conv.toFloat(item.sellPrice.value)
      && Some(r.value.purchasePrice) == conv.toFloat(item.purchasePrice.value)
      && Some(r.value.stock) == conv.toInt(item.stock.value)
  {
    if item.name.None? then None                       // KeyError in the lookup
    else if NameTaken(committed, item.name.value) then None
    else if item.sku.None? || item.sellPrice.None? || item.purchasePrice.None? || item.stock.None? then None
    else
      match (conv.toFloat(item.sellPrice.value), conv.toFloat(item.purchasePrice.value), conv.toInt(item.stock.value))
      case (Some(sell), Some(purchase), Some(stock)) =>
        Some(NewDrug(item.sku.value, item.name.value, sell, purchase, stock))
      case _ => None
  }

  /** The drugs the loop adds to the session, in item order. */
  function Staged(committed: map<int, Drug>, items: seq<ImportItem>, conv: Conversions): (r: seq<NewDrug>)
    ensures |r| <= |items|
  {
    if items == [] then []
    else
      var before := Staged(committed, items[..|items| - 1], conv);
      match StageItem(committed, items[|items| - 1], conv)
      case Some(d) => before + [d]
      case None => before
  }

  /** The staged drugs are exactly the accepted items: every accepted item is staged,
      and every staged drug comes from an accepted item. */
  lemma {:induction false} StagedAreAccepted(committed: map<int, Drug>, items: seq<ImportItem>, conv: Conversions)
    ensures forall i :: 0 <= i < |items| && StageItem(committed, items[i], conv).Some? ==>
      StageItem(committed, items[i], conv).value in Staged(committed, items, conv)
    ensures forall d :: d in Staged(committed, items, conv) ==>
      exists i :: 0 <= i < |items| && StageItem(committed, items[i], conv) == Some(d)
  {
    if items != [] {
      var init := items[..|items| - 1];
      StagedAreAccepted(committed, init, conv);
      forall i | 0 <= i < |items| - 1 ensures items[i] == init[i] { }
    }
  }

  /** The positions of the items the loop accepts. */
  ghost function AcceptedIndices(committed: map<int, Drug>, items: seq<ImportItem>, conv: Conversions): set<int>
  {
    set i | 0 <= i < |items| && StageItem(committed, items[i], conv).Some?
  }

  /** Appending an item adds its position to the accepted ones exactly when it is accepted. */
  lemma AcceptedIndicesStep(committed: map<int, Drug>, items: seq<ImportItem>, conv: Conversions)
    requires items != []
    ensures var n := |items| - 1;
      AcceptedIndices(committed, items, conv) ==
        AcceptedIndices(committed, items[..n], conv) + (if StageItem(committed, items[n], conv).Some? then {n} else {})
  {
    var n := |items| - 1;
    assert forall i :: 0 <= i < n ==> items[..n][i] == items[i];
  }

  /** One staged drug per accepted item: duplicates among the items are staged as
      many times as they occur. */
  lemma {:induction false} StagedCountsAccepted(committed: map<int, Drug>, items: seq<ImportItem>, conv: Conversions)
    ensures |Staged(committed, items, conv)| == |AcceptedIndices(committed, items, conv)|
  {
    if items != [] {
      var n := |items| - 1;
      StagedCountsAccepted(committed, items[..n], conv);
      AcceptedIndicesStep(committed, items, conv);
      assert n !in AcceptedIndices(committed, items[..n], conv);
    }
  }

  /** No staged drug carries a name already committed. */
  lemma {:induction false} StagedNamesFresh(committed: map<int, Drug>, items: seq<ImportItem>, conv: Conversions)
    ensures forall d :: d in Staged(committed, items, conv) ==> !NameTaken(committed, d.name)
  {
    if items != [] {
      StagedNamesFresh(committed, items[..|items| - 1], conv);
    }
  }

  /** The loop of import_drugs_from_json up to the commit: every item either counts as
      a success and is added to the session, or counts as failed and is not. */
  method StageImport(committed: map<int, Drug>, items: seq<ImportItem>, conv: Conversions)
    returns (pending: seq<NewDrug>, success: nat, failed: nat)
    ensures pending == Staged(committed, items, conv)
    ensures success == |pending| == |AcceptedIndices(committed, items, conv)|
    ensures success + failed == |items|
  {
    StagedCountsAccepted(committed, items, conv);
    pending, success, failed := [], 0, 0;
    var i := 0;
    while i < |items|
      invariant 0 <= i <= |items|
      invariant pending == Staged(committed, items[..i], conv)
      invariant success == |pending| && success + failed == i
    {
      assert items[..i + 1][..i] == items[..i];
      var staged := StageItem(committed, items[i], conv);
      if staged.Some? {
        pending := pending + [staged.value];
        success := success + 1;
      } else {
        failed := failed + 1;
      }
      i := i + 1;
    }
    assert items[..|items|] == items;
  }

  /** The import's duplicate check does not see the batch itself: two complete items
      with the same fresh name are both staged, and the commit then breaks the unique
      constraint on drug_name, so the whole import is rolled back. */
  lemma SameNameTwiceInBatchIsStaged(committed: map<int, Drug>, a: ImportItem, b: ImportItem, conv: Conversions)
    requires StageItem(committed, a, conv).Some? && StageItem(committed, b, conv).Some?
    requires a.name == b.name
    ensures var s := Staged(committed, [a, b], conv);
      |s| == 2 && s[0].name == s[1].name
  {
    assert [a, b][..1] == [a];
    assert [a][..0] == [];
    assert Staged(committed, [a], conv) == [StageItem(committed, a, conv).value];
  }

  /** With such a pair staged, the committed table would hold two rows of that name. */
  lemma {:induction false} DuplicateStagedNamesBreakCommit(rows: map<int, Drug>, nextId: int, pending: seq<NewDrug>, i: int, j: int)
    requires forall k :: k in rows ==> k < nextId
    requires 0 <= i < j < |pending| && pending[i].name == pending[j].name
    ensures !Constrained(Inserted(rows, nextId, pending))
  {
    var r := Inserted(rows, nextId, pending);
    assert r[nextId + i] == Persisted(pending[i], nextId + i);
    assert r[nextId + j] == Persisted(pending[j], nextId + j);
  }

  /** A batch whose drugs have pairwise distinct names and skus, none of them already
      in the table, commits without breaking either unique constraint. */
  lemma {:induction false} FreshBatchCommits(rows: map<int, Drug>, nextId: int, pending: seq<NewDrug>)
    requires forall k :: k in rows ==> k < nextId
    requires Constrained(rows)
    requires forall i, j :: 0 <= i < j < |pending| ==>
      pending[i].name != pending[j].name && pending[i].sku != pending[j].sku
    requires forall i :: 0 <= i < |pending| ==>
      !NameTaken(rows, pending[i].name) && !SkuTaken(rows, pending[i].sku)
    ensures Constrained(Inserted(rows, nextId, pending))
  {
    var r := Inserted(rows, nextId, pending);
    forall a, b | a in r && b in r && a != b
      ensures r[a].sku != r[b].sku && r[a].name != r[b].name
    {
      if a !in rows && b !in rows {
        if a < b {
          assert pending[a - nextId].name != pending[b - nextId].name;
        } else {
          assert pending[b - nextId].name != pending[a - nextId].name;
        }
      }
    }
  }

  /** A single insert of a drug with an unused name commits exactly when its sku is
      unused too. */
  lemma SingleInsertCommits(rows: map<int, Drug>, nextId: int, d: NewDrug)
    requires forall k :: k in rows ==> k < nextId
    requires Constrained(rows) && !NameTaken(rows, d.name)
    ensures Inserted(rows, nextId, [d]) == rows[nextId := Persisted(d, nextId)]
    ensures Constrained(Inserted(rows, nextId, [d])) <==> !SkuTaken(rows, d.sku)
  {
    var r := Inserted(rows, nextId, [d]);
    assert r == rows[nextId := Persisted(d, nextId)];
    if SkuTaken(rows, d.sku) {
      var k :| k in rows && rows[k].sku == d.sku;
      assert r[k].sku == r[nextId].sku && k != nextId;
    } else {
      FreshBatchCommits(rows, nextId, [d]);
    }
  }

  class DrugTable {
    var rows: map<int, Drug>
    var nextId: int

    ghost predicate Valid()
      reads this
    {
      Contiguous(rows, nextId) && IdsMatch(rows, DrugId) && Constrained(rows)
    }

    constructor ()
      ensures Valid() && rows == map[] && nextId == 1
    {
      rows := map[];
      nextId := 1;
    }

    /** add_new_drug: refused when the name is taken (deleted rows included); otherwise
        one insert, rolled back with an error when the store's uniqueness check fails. */
    method AddNewDrug(sku: string, name: string, sellPrice: Float, purchasePrice: Float, stock: int)
      returns (res: Result<Drug>)
      requires Valid()
      modifies this
      ensures Valid()
      ensures NameTaken(old(rows), name) ==>
        res == Err(AlreadyExists) && rows == old(rows) && nextId == old(nextId)
      ensures !NameTaken(old(rows), name) && SkuTaken(old(rows), sku) ==>
        res == Err(IntegrityError) && rows == old(rows) && nextId == old(nextId)
      ensures !NameTaken(old(rows), name) && !SkuTaken(old(rows), sku) ==>
        && rows == old(rows)[old(nextId) := Persisted(NewDrug(sku, name, sellPrice, purchasePrice, stock), old(nextId))]
        && nextId == old(nextId) + 1
        && res == Ok(rows[old(nextId)])
    {
      var existing := FirstMatch(rows, 1, nextId, (d: Drug) => d.name == name);
      FirstMatchFinds(rows, nextId, (d: Drug) => d.name == name);
      if existing.Some? {
        return Err(AlreadyExists);
      }
      var d := NewDrug(sku, name, sellPrice, purchasePrice, stock);
      var candidate := Inserted(rows, nextId, [d]);
      SingleInsertCommits(rows, nextId, d);
      if Constrained(candidate) {
        InsertedWellKeyed(rows, nextId, [d]);
        rows := candidate;
        nextId := nextId + 1;
        res := Ok(rows[nextId - 1]);
      } else {
        // the IntegrityError path: the session is rolled back
        res := Err(IntegrityError);
      }
    }

    /** import_drugs_from_json: stage every item against the committed rows, then
        commit all staged drugs at once; a failed commit rolls everything back. */
    method ImportDrugs(items: seq<ImportItem>, conv: Conversions) returns (res: Result<ImportReport>)
      requires Valid()
      modifies this
      ensures Valid()
      ensures var pending := Staged(old(rows), items, conv);
              var merged := Inserted(old(rows), old(nextId), pending);
        && (Constrained(merged) ==>
              && rows == merged
              && nextId == old(nextId) + |pending|
              && res == Ok(ImportReport(|pending|, |items| - |pending|)))
        && (!Constrained(merged) ==>
              res == Err(ServerError) && rows == old(rows) && nextId == old(nextId))
    {
      var pending, success, failed := StageImport(rows, items, conv);
      var merged := Inserted(rows, nextId, pending);
      if Constrained(merged) {
        InsertedWellKeyed(rows, nextId, pending);
        rows := merged;
        nextId := nextId + |pending|;
        res := Ok(ImportReport(success, failed));
      } else {
        res := Err(ServerError);
      }
    }
  }

  /** A batch of three, the second reusing a committed name: two drugs are staged,
      one item fails, and the commit of the two fresh drugs succeeds. */
  lemma ThreeItemImport(zero: Float)
    ensures var committed := map[1 := Drug(1, "S0", "Para", zero, zero, 5, false)];
            var conv := Conversions((j: JsonValue) => Some(zero), (j: JsonValue) => Some(1));
            var n := Some(JsonNumber("1"));
            var items := [ImportItem(Some("S1"), Some("Amox"), n, n, n),
                          ImportItem(Some("S2"), Some("Para"), n, n, n),
                          ImportItem(Some("S3"), Some("Vita"), n, n, n)];
            var pending := Staged(committed, items, conv);
      && pending == [NewDrug("S1", "Amox", zero, zero, 1), NewDrug("S3", "Vita", zero, zero, 1)]
      && |items| - |pending| == 1
      && Constrained(Inserted(committed, 2, pending))
  {
    var committed := map[1 := Drug(1, "S0", "Para", zero, zero, 5, false)];
    var conv := Conversions((j: JsonValue) => Some(zero), (j: JsonValue) => Some(1));
    var n := Some(JsonNumber("1"));
    var a := ImportItem(Some("S1"), Some("Amox"), n, n, n);
    var b := ImportItem(Some("S2"), Some("Para"), n, n, n);
    var c := ImportItem(Some("S3"), Some("Vita"), n, n, n);
    var x := NewDrug("S1", "Amox", zero, zero, 1);
    var y := NewDrug("S3", "Vita", zero, zero, 1);
    assert [a, b, c][..2] == [a, b] && [a, b][..1] == [a] && [a][..0] == [];
    assert committed.Keys == {1} && committed[1].name == "Para";
    assert "Para" != "Amox" && "Para" != "Vita";
    assert NameTaken(committed, "Para") && !NameTaken(committed, "Amox") && !NameTaken(committed, "Vita");
    assert StageItem(committed, a, conv) == Some(x);
    assert StageItem(committed, b, conv).None?;
    assert StageItem(committed, c, conv) == Some(y);
    assert Staged(committed, [a], conv) == [x];
    assert Staged(committed, [a, b], conv) == [x];
    assert Staged(committed, [a, b, c], conv) == [x, y];
    FreshBatchCommits(committed, 2, [x, y]);
  }
}
