/**
 * Properties of the line-item fill, derived from its match with the
 * reference definition: what is kept, where filled values come from,
 * independence of the columns, idempotence, and the response guard.
 */
module InvoiceOcrProperties {
  import opened Wrappers
  import opened JsValue
  import opened InvoiceOcr

  // ---------------------------------------------------------------------
  // Facts about the nearest earlier non-blank value
  // ---------------------------------------------------------------------

  /** There is no earlier non-blank value exactly when the whole column
      before `i` is blank. */
  lemma {:induction false} PriorNoneIff(items: seq<Item>, key: string, i: nat)
    requires i <= |items|
    ensures PriorNonBlank(items, key, i).None? <==> forall j :: 0 <= j < i ==> IsBlank(Get(items[j], key))
    decreases i
  {
    if i > 0 {
      PriorNoneIff(items, key, i - 1);
    }
  }

  /** If position `j` is non-blank and everything strictly between `j` and
      `i` is blank, the nearest earlier non-blank value before `i` is the
      one at `j`. */
  lemma {:induction false} PriorIsNearest(items: seq<Item>, key: string, j: nat, i: nat)
    requires j < i <= |items|
    requires !IsBlank(Get(items[j], key))
    requires forall m :: j < m < i ==> IsBlank(Get(items[m], key))
    ensures PriorNonBlank(items, key, i) == Some(Get(items[j], key))
    decreases i
  {
    if i - 1 != j {
      PriorIsNearest(items, key, j, i - 1);
    }
  }

  /** Every earlier non-blank value comes from some earlier position. */
  lemma {:induction false} PriorHasSource(items: seq<Item>, key: string, i: nat)
    requires i <= |items|
    requires PriorNonBlank(items, key, i).Some?
    ensures exists j :: 0 <= j < i && !IsBlank(Get(items[j], key)) && PriorNonBlank(items, key, i) == Some(Get(items[j], key))
    decreases i
  {
    if IsBlank(Get(items[i - 1], key)) {
      PriorHasSource(items, key, i - 1);
    }
  }

  /** The nearest earlier non-blank value depends on column `key` only. */
  lemma {:induction false} PriorSameColumn(items1: seq<Item>, items2: seq<Item>, key: string, i: nat)
    requires i <= |items1| && i <= |items2|
    requires forall j :: 0 <= j < i ==> At(items1[j], key) == At(items2[j], key)
    ensures PriorNonBlank(items1, key, i) == PriorNonBlank(items2, key, i)
    decreases i
  {
    if i > 0 {
      assert At(items1[i - 1], key) == At(items2[i - 1], key);
      PriorSameColumn(items1, items2, key, i - 1);
    }
  }

  /** Two property maps with the same slot for every key are equal. */
  lemma SameSlots(m1: map<string, Value>, m2: map<string, Value>)
    requires forall key :: At(m1, key) == At(m2, key)
    ensures m1 == m2
  {
    forall key ensures key in m1 <==> key in m2 {
      assert At(m1, key) == At(m2, key);
    }
    forall key | key in m1 ensures m1[key] == m2[key] {
      assert At(m1, key) == At(m2, key);
    }
  }

  // ---------------------------------------------------------------------
  // What the fill keeps and what it writes
  // ---------------------------------------------------------------------

  /** Properties that are not tracked are untouched, present or absent. */
  lemma UntrackedUnchanged(items: seq<Item>, fields: seq<string>, i: nat, key: string)
    requires i < |items|
    requires key !in fields
    ensures At(FillMissingValues(items, fields)[i], key) == At(items[i], key)
  {
  }

  /** A non-blank value on entry is never changed. */
  lemma NonBlankKept(items: seq<Item>, fields: seq<string>, i: nat, key: string)
    requires i < |items|
    requires !IsBlank(Get(items[i], key))
    ensures key in FillMissingValues(items, fields)[i]
    ensures FillMissingValues(items, fields)[i][key] == items[i][key]
  {
    assert At(FillMissingValues(items, fields)[i], key) == At(items[i], key);
  }

  /** A blank tracked field takes the value of the nearest earlier item
      whose value for that field was non-blank on entry. */
  lemma FillsFromNearestEarlier(items: seq<Item>, fields: seq<string>, j: nat, i: nat, key: string)
    requires j < i < |items|
    requires key in fields
    requires IsBlank(Get(items[i], key))
    requires !IsBlank(Get(items[j], key))
    requires forall m :: j < m < i ==> IsBlank(Get(items[m], key))
    ensures key in FillMissingValues(items, fields)[i]
    ensures FillMissingValues(items, fields)[i][key] == items[j][key]
  {
    PriorIsNearest(items, key, j, i);
    assert At(FillMissingValues(items, fields)[i], key) == Some(Get(items[j], key));
  }

  /** There is no backward fill: with no earlier non-blank value the slot
      stays exactly as it was. */
  lemma NoBackwardFill(items: seq<Item>, fields: seq<string>, i: nat, key: string)
    requires i < |items|
    requires forall j :: 0 <= j < i ==> IsBlank(Get(items[j], key))
    ensures At(FillMissingValues(items, fields)[i], key) == At(items[i], key)
  {
    PriorNoneIff(items, key, i);
  }

  /** Whatever the fill changes is a blank tracked field, and the new value
      is a non-blank value of the same field in an earlier item. */
  lemma ChangesComeFromEarlier(items: seq<Item>, fields: seq<string>, i: nat, key: string)
    requires i < |items|
    requires At(FillMissingValues(items, fields)[i], key) != At(items[i], key)
    ensures key in fields && IsBlank(Get(items[i], key))
    ensures exists j :: 0 <= j < i && !IsBlank(Get(items[j], key))
                        && At(FillMissingValues(items, fields)[i], key) == Some(Get(items[j], key))
  {
    PriorHasSource(items, key, i);
  }

  /** Each column is filled from itself alone: two inputs that agree on
      column `key` (and both track it or both do not) give outputs that
      agree on column `key`, whatever the other columns and fields hold. */
  lemma FieldsIndependent(items1: seq<Item>, items2: seq<Item>, fields1: seq<string>, fields2: seq<string>, key: string)
    requires |items1| == |items2|
    requires key in fields1 <==> key in fields2
    requires forall i :: 0 <= i < |items1| ==> At(items1[i], key) == At(items2[i], key)
    ensures forall i :: 0 <= i < |items1| ==>
              At(FillMissingValues(items1, fields1)[i], key) == At(FillMissingValues(items2, fields2)[i], key)
  {
    forall i | 0 <= i < |items1|
      ensures At(FillMissingValues(items1, fields1)[i], key) == At(FillMissingValues(items2, fields2)[i], key)
    {
      PriorSameColumn(items1, items2, key, i);
    }
  }

  /** After one pass a tracked column is blank only on a prefix, and that
      prefix is exactly as it was on entry. */
  lemma BlanksOnlyInPrefix(items: seq<Item>, fields: seq<string>, i: nat, j: nat, key: string)
    requires j < i < |items|
    requires key in fields
    requires IsBlank(Get(FillMissingValues(items, fields)[i], key))
    ensures IsBlank(Get(FillMissingValues(items, fields)[j], key))
    ensures At(FillMissingValues(items, fields)[j], key) == At(items[j], key)
  {
    var r := FillMissingValues(items, fields);
    assert At(r[i], key) == Expected(items, fields, i, key);
    PriorNoneIff(items, key, i);
    PriorNoneIff(items, key, j);
  }

  /** Running the fill on its own output changes nothing. */
  lemma FillIdempotent(items: seq<Item>, fields: seq<string>)
    ensures FillMissingValues(FillMissingValues(items, fields), fields) == FillMissingValues(items, fields)
  {
    var r := FillMissingValues(items, fields);
    var rr := FillMissingValues(r, fields);
    forall i | 0 <= i < |r| ensures rr[i] == r[i] {
      forall key ensures At(rr[i], key) == At(r[i], key) {
        assert At(rr[i], key) == Expected(r, fields, i, key);
        if key in fields && IsBlank(Get(r[i], key)) {
          forall j | 0 <= j < i ensures IsBlank(Get(r[j], key)) {
            BlanksOnlyInPrefix(items, fields, i, j, key);
          }
          PriorNoneIff(r, key, i);
        }
      }
      SameSlots(rr[i], r[i]);
    }
  }

  /** An empty item list, or an empty field list, leaves everything as it was. */
  lemma EmptyInputs(items: seq<Item>, fields: seq<string>)
    ensures FillMissingValues([], fields) == []
    ensures FillMissingValues(items, []) == items
  {
    var r := FillMissingValues(items, []);
    forall i | 0 <= i < |items| ensures r[i] == items[i] {
      forall key ensures At(r[i], key) == At(items[i], key) {
        assert At(r[i], key) == Expected(items, [], i, key);
      }
      SameSlots(r[i], items[i]);
    }
  }

  // ---------------------------------------------------------------------
  // Worked examples
  // ---------------------------------------------------------------------

  /** Three rows over particulars, colour and size: the second row takes
      "Widget" and "Red" from the first, the third keeps "Gadget" and takes
      "Red" from the first and "M" from the second. The first row's blank
      size has nothing before it and stays "". */
  lemma ThreeRowExample()
    ensures
      var items := [
        map["particulars" := Str("Widget"), "colour" := Str("Red"), "size" := Str("")],
        map["particulars" := Str(""), "colour" := Str(""), "size" := Str("M")],
        map["particulars" := Str("Gadget"), "colour" := Str(""), "size" := Str("")]
      ];
      FillMissingValues(items, ["particulars", "colour", "size"]) == [
        map["particulars" := Str("Widget"), "colour" := Str("Red"), "size" := Str("")],
        map["particulars" := Str("Widget"), "colour" := Str("Red"), "size" := Str("M")],
        map["particulars" := Str("Gadget"), "colour" := Str("Red"), "size" := Str("M")]
      ]
  {
    var items := [
      map["particulars" := Str("Widget"), "colour" := Str("Red"), "size" := Str("")],
      map["particulars" := Str(""), "colour" := Str(""), "size" := Str("M")],
      map["particulars" := Str("Gadget"), "colour" := Str(""), "size" := Str("")]
    ];
    var fields := ["particulars", "colour", "size"];
    var expected := [
      map["particulars" := Str("Widget"), "colour" := Str("Red"), "size" := Str("")],
      map["particulars" := Str("Widget"), "colour" := Str("Red"), "size" := Str("M")],
      map["particulars" := Str("Gadget"), "colour" := Str("Red"), "size" := Str("M")]
    ];
    var p, c, z := "particulars", "colour", "size";
    NonBlankText("Widget");
    NonBlankText("Red");
    NonBlankText("M");
    NonBlankText("Gadget");
    assert IsBlank(Str(""));
    assert PriorNonBlank(items, p, 1) == Some(Str("Widget"));
    assert PriorNonBlank(items, c, 1) == Some(Str("Red"));
    assert PriorNonBlank(items, c, 2) == Some(Str("Red"));
    assert PriorNonBlank(items, z, 2) == Some(Str("M"));
    RowMatches(items, fields, 0, expected[0]);
    RowMatches(items, fields, 1, expected[1]);
    RowMatches(items, fields, 2, expected[2]);
  }

  lemma NonBlankText(s: string)
    requires |s| > 0 && !IsWhiteSpace(s[0])
    ensures !IsBlank(Str(s))
  {
    BlankScalars(s, false, NaN);
  }

  /** An output item equals `row` when every slot of `row` is the one the
      reference prescribes. */
  lemma RowMatches(items: seq<Item>, fields: seq<string>, i: nat, row: Item)
    requires i < |items|
    requires forall key :: At(row, key) == Expected(items, fields, i, key)
    ensures FillMissingValues(items, fields)[i] == row
  {
    SameSlots(FillMissingValues(items, fields)[i], row);
  }

  /** A numeric zero is blank to the fill: a quantity of 0 after a quantity
      of 5 becomes 5. */
  lemma ZeroQuantityFilledOver()
    ensures
      var items := [map["quantity" := Num(Finite(5.0))], map["quantity" := Num(Finite(0.0))]];
      FillMissingValues(items, ["quantity"]) == [map["quantity" := Num(Finite(5.0))], map["quantity" := Num(Finite(5.0))]]
  {
    var items := [map["quantity" := Num(Finite(5.0))], map["quantity" := Num(Finite(0.0))]];
    var expected := [map["quantity" := Num(Finite(5.0))], map["quantity" := Num(Finite(5.0))]];
    var r := FillMissingValues(items, ["quantity"]);
    forall i | 0 <= i < 2 ensures r[i] == expected[i] {
      forall key ensures At(r[i], key) == At(expected[i], key) {
        assert At(r[i], key) == Expected(items, ["quantity"], i, key);
      }
      SameSlots(r[i], expected[i]);
    }
  }

  // ---------------------------------------------------------------------
  // The response guard
  // ---------------------------------------------------------------------

  /** A response without truthy `lineItems` (absent, null, or the degraded
      `{raw, fullResponse}` shape) is left as it is; an empty array is
      truthy, so it is passed to the fill, which leaves it empty. */
  lemma GuardSkipsOrKeepsEmpty(props: map<string, Value>)
    ensures "lineItems" !in props ==> OnResponse(Obj(props)) == Some(Obj(props))
    ensures "lineItems" in props && props["lineItems"] == Arr([]) ==> OnResponse(Obj(props)) == Some(Obj(props))
  {
    if "lineItems" in props && props["lineItems"] == Arr([]) {
      EmptyInputs([], LineItemFields);
      assert props["lineItems" := Arr([])] == props;
    }
  }
}
