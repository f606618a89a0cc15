/**
 * The Angular component's post-processing of a decoded response: the
 * carry-forward fill of blank line-item columns (`fillMissingValues`) and
 * the guard that applies it only when the response has truthy `lineItems`.
 *
 * The source mutates the items in place; here the fill is a pure function
 * from the items to the filled items. Two parts: the algorithm as the
 * component writes it (one pass, one last-value slot per field), and an
 * independent reference definition (nearest earlier non-blank value of the
 * same column) that the algorithm is proved to match.
 */
module InvoiceOcr {
  import opened Wrappers
  import opened JsValue

  /** A line item: a plain object, i.e. a property map. */
  type Item = map<string, Value>

  /** The columns the component fills. */
  const LineItemFields: seq<string> :=
    ["particulars", "colour", "size", "quantity", "unitPrice", "amount"]

  /** Presence and value of a property: `None` when the key is absent. */
  function At(m: map<string, Value>, key: string): Option<Value> {
    if key in m then Some(m[key]) else None
  }

  /** The value a property read yields: `undefined` when the slot is empty. */
  function Val(slot: Option<Value>): Value {
    if slot.Some? then slot.value else Undefined
  }

  /** `m[key]` in JavaScript. */
  function Get(m: map<string, Value>, key: string): Value {
    Val(At(m, key))
  }

  // ---------------------------------------------------------------------
  // The algorithm as written
  // ---------------------------------------------------------------------

  /** One turn of the inner loop for `field`: a non-blank value becomes the
      field's last value; a blank one is overwritten by a truthy last value
      (creating the property if it was absent); otherwise nothing changes. */
  function Step(item: Item, last: map<string, Value>, field: string): (Item, map<string, Value>) {
    var v := Get(item, field);
    if !IsBlank(v) then (item, last[field := v])
    else if Truthy(Get(last, field)) then (item[field := last[field]], last)
    else (item, last)
  }

  /** The inner loop: every tracked field of one item, in list order. */
  function FillItem(item: Item, fields: seq<string>, last: map<string, Value>): (Item, map<string, Value>)
    decreases |fields|
  {
    if |fields| == 0 then (item, last)
    else
      var (item', last') := Step(item, last, fields[0]);
      FillItem(item', fields[1..], last')
  }

  /** The outer loop: the items in order, threading the last-value map. */
  function FillFrom(items: seq<Item>, fields: seq<string>, last: map<string, Value>): (r: seq<Item>)
    ensures |r| == |items|
    decreases |items|
  {
    if |items| == 0 then []
    else
      var (item', last') := FillItem(items[0], fields, last);
      [item'] + FillFrom(items[1..], fields, last')
  }

  // ---------------------------------------------------------------------
  // Reference definition
  // ---------------------------------------------------------------------

  /** The nearest value of column `key` strictly before position `i` that
      is not blank, if there is one. */
  function PriorNonBlank(items: seq<Item>, key: string, i: nat): (r: Option<Value>)
    requires i <= |items|
    ensures r.Some? ==> !IsBlank(r.value)
    decreases i
  {
    if i == 0 then None
    else if !IsBlank(Get(items[i - 1], key)) then Some(Get(items[i - 1], key))
    else PriorNonBlank(items, key, i - 1)
  }

  /** What slot `key` of item `i` should hold after the fill: a blank
      tracked field takes the nearest earlier non-blank value of its own
      column when there is one; every other slot keeps its presence and
      value. */
  function Expected(items: seq<Item>, fields: seq<string>, i: nat, key: string): Option<Value>
    requires i < |items|
  {
    var slot := At(items[i], key);
    if key in fields && IsBlank(Val(slot)) && PriorNonBlank(items, key, i).Some?
    then PriorNonBlank(items, key, i)
    else slot
  }

  // ---------------------------------------------------------------------
  // The algorithm matches the reference
  // ---------------------------------------------------------------------

  /** The effect of one step on the slot of `key` in the item and in the
      last-value map. */
  function KeyStep(slot: Option<Value>, last: Option<Value>): (Option<Value>, Option<Value>) {
    if !IsBlank(Val(slot)) then (slot, slot)
    else if Truthy(Val(last)) then (last, last)
    else (slot, last)
  }

  lemma StepAt(item: Item, last: map<string, Value>, field: string, key: string)
    ensures var (item', last') := Step(item, last, field);
            (At(item', key), At(last', key))
            == if key == field then KeyStep(At(item, key), At(last, key)) else (At(item, key), At(last, key))
  {
  }

  /** Repeating a step on the same key changes nothing: a field listed
      twice behaves as if listed once. */
  lemma KeyStepIdempotent(slot: Option<Value>, last: Option<Value>)
    ensures var (s, l) := KeyStep(slot, last); KeyStep(s, l) == (s, l)
  {
  }

  /** The inner loop acts on each key independently, once per key however
      often it is listed. */
  lemma {:induction false} FillItemAt(item: Item, fields: seq<string>, last: map<string, Value>, key: string)
    ensures var (item', last') := FillItem(item, fields, last);
            (At(item', key), At(last', key))
            == if key in fields then KeyStep(At(item, key), At(last, key)) else (At(item, key), At(last, key))
    decreases |fields|
  {
    if |fields| > 0 {
      var (item1, last1) := Step(item, last, fields[0]);
      StepAt(item, last, fields[0], key);
      FillItemAt(item1, fields[1..], last1, key);
      assert key in fields <==> key == fields[0] || key in fields[1..] by {
        assert fields == [fields[0]] + fields[1..];
      }
      KeyStepIdempotent(At(item, key), At(last, key));
    }
  }

  /** From position `n` on, with the last-value slot of `key` holding the
      nearest earlier non-blank value, the outer loop produces the
      reference slot at every later position. */
  lemma {:induction false} FillFromAt(items: seq<Item>, fields: seq<string>, last: map<string, Value>, n: nat, i: nat, key: string)
    requires n <= i < |items|
    requires key in fields ==> At(last, key) == PriorNonBlank(items, key, n)
    ensures At(FillFrom(items[n..], fields, last)[i - n], key) == Expected(items, fields, i, key)
    decreases i - n
  {
    var (item', last') := FillItem(items[n], fields, last);
    FillItemAt(items[n], fields, last, key);
    assert items[n..][0] == items[n];
    assert items[n..][1..] == items[n + 1..];
    if i > n {
      FillFromAt(items, fields, last', n + 1, i, key);
    }
  }

  /** The algorithm, checked slot by slot against the reference. */
  lemma FillFromMatchesReference(items: seq<Item>, fields: seq<string>)
    ensures forall i, key :: 0 <= i < |items| ==> At(FillFrom(items, fields, map[])[i], key) == Expected(items, fields, i, key)
  {
    assert items[0..] == items;
    forall i, key | 0 <= i < |items|
      ensures At(FillFrom(items, fields, map[])[i], key) == Expected(items, fields, i, key)
    {
      FillFromAt(items, fields, map[], 0, i, key);
    }
  }

  /** `fillMissingValues(items, fields)`: same number of items in the same
      order, and every property slot of every item is the one the reference
      prescribes. */
  function FillMissingValues(items: seq<Item>, fields: seq<string>): (r: seq<Item>)
    ensures |r| == |items|
    ensures forall i, key :: 0 <= i < |r| ==> At(r[i], key) == Expected(items, fields, i, key)
  {
    FillFromMatchesReference(items, fields);
    FillFrom(items, fields, map[])
  }

  // ---------------------------------------------------------------------
  // The guard around the call
  // ---------------------------------------------------------------------

  predicate AllObjects(elems: seq<Value>) {
    forall i :: 0 <= i < |elems| ==> elems[i].Obj?
  }

  function PropsOf(elems: seq<Value>): (r: seq<Item>)
    requires AllObjects(elems)
    ensures |r| == |elems|
    ensures forall i :: 0 <= i < |elems| ==> r[i] == elems[i].props
  {
    seq(|elems|, i requires 0 <= i < |elems| => elems[i].props)
  }

  function Objects(items: seq<Item>): (r: seq<Value>)
    ensures |r| == |items|
    ensures forall i :: 0 <= i < |items| ==> r[i] == Obj(items[i])
  {
    seq(|items|, i requires 0 <= i < |items| => Obj(items[i]))
  }

  /** The success handler: when `res?.lineItems` is truthy the line items
      are filled over the six line-item columns. `None` stands for the
      inputs the model does not follow: a truthy `lineItems` that is not an
      array of objects (the source would throw a TypeError or iterate it as
      something else). A truthy string is iterated character by character,
      and characters have none of the six properties, so it is left alone. */
  function OnResponse(res: Value): (r: Option<Value>)
    ensures res.Obj? && !Truthy(Get(res.props, "lineItems")) ==> r == Some(res)
    ensures !res.Obj? ==> r == Some(res)
    ensures res.Obj? && Get(res.props, "lineItems").Str? ==> r == Some(res)
    ensures r.None? <==>
              && res.Obj? && Truthy(Get(res.props, "lineItems"))
              && !Get(res.props, "lineItems").Str?
              && !(Get(res.props, "lineItems").Arr? && AllObjects(Get(res.props, "lineItems").elems))
    ensures r.Some? && res.Obj? ==>
              && r.value.Obj?
              && r.value.props.Keys == res.props.Keys
              && forall k :: k in res.props && k != "lineItems" ==> r.value.props[k] == res.props[k]
    ensures res.Obj? && Get(res.props, "lineItems").Arr? && AllObjects(Get(res.props, "lineItems").elems) ==>
              var items := PropsOf(Get(res.props, "lineItems").elems);
              && r.Some?
              && Get(r.value.props, "lineItems").Arr?
              && var out := Get(r.value.props, "lineItems").elems;
              && |out| == |items|
              && forall i, key :: 0 <= i < |out| ==>
                   out[i].Obj? && At(out[i].props, key) == Expected(items, LineItemFields, i, key)
  {
    match res
    case Obj(props) =>
      var lineItems := Get(props, "lineItems");
      if !Truthy(lineItems) then Some(res)
      else if lineItems.Str? then Some(res)
      else if lineItems.Arr? && AllObjects(lineItems.elems) then
        var filled := FillMissingValues(PropsOf(lineItems.elems), LineItemFields);
        Some(Obj(props["lineItems" := Arr(Objects(filled))]))
      else None
    case _ => Some(res)
  }
}
