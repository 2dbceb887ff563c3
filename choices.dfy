/**
 * The choice list shared by the select, confirm and are-you-sure prompts:
 * normalisation of what the caller passes, the selectable test, the first
 * and last selectable positions, and the index the cursor starts on.
 */
module Choices {
  import opened JsValue
  import opened Seqs

  /** The properties of a descriptor object that the prompts read. */
  datatype Field = ValueField | NameField | ShortField | DescriptionField | DisabledField

  /** What a caller may put in `choices`: a separator, a bare string or a descriptor object. */
  datatype RawChoice =
    | RawSeparator(separator: string)
    | RawString(text: string)
    | RawObject(fields: map<Field, Value>)

  /** A normalised entry of the list. */
  datatype Choice =
    | Separator(separator: string)
    | Item(value: Value, name: string, short: string, description: Value, disabled: Value)

  const NoSelectableMessage: string := "[select prompt] No selectable choices. All choices are disabled."

  /** `normalizeChoices` for one entry. */
  function NormalizeChoice(c: RawChoice): (r: Choice)
    ensures c.RawSeparator? <==> r.Separator?
    ensures c.RawSeparator? ==> r == Separator(c.separator)
    ensures c.RawString? ==> r == Item(Str(c.text), c.text, c.text, Undefined, Bool(false))
    ensures c.RawObject? ==>
      var f := c.fields;
      && r.value == Get(f, ValueField)
      && (IsNullish(Get(f, NameField)) ==> r.name == ToStr(Get(f, ValueField)))
      && (Get(f, NameField).Str? ==> r.name == Get(f, NameField).s)
      && (IsNullish(Get(f, ShortField)) ==> r.short == r.name)
      && (Get(f, ShortField).Str? ==> r.short == Get(f, ShortField).s)
      && r.description == Get(f, DescriptionField)
      && (IsNullish(Get(f, DisabledField)) ==> r.disabled == Bool(false))
      && (!IsNullish(Get(f, DisabledField)) ==> r.disabled == Get(f, DisabledField))
  {
    match c
    case RawSeparator(s) => Separator(s)
    case RawString(s) => Item(Str(s), s, s, Undefined, Bool(false))
    case RawObject(f) =>
      var name := ToStr(Coalesce(Get(f, NameField), Str(ToStr(Get(f, ValueField)))));
      var short := ToStr(Coalesce(Get(f, ShortField), Str(name)));
      Item(Get(f, ValueField), name, short, Get(f, DescriptionField), Coalesce(Get(f, DisabledField), Bool(false)))
  }

  /** `normalizeChoices(choices)`: entry by entry, same length and order. */
  function NormalizeChoices(choices: seq<RawChoice>): (items: seq<Choice>)
    ensures |items| == |choices|
    ensures forall i :: 0 <= i < |items| ==> items[i] == NormalizeChoice(choices[i])
  {
    seq(|choices|, i requires 0 <= i < |choices| => NormalizeChoice(choices[i]))
  }

  /** `isSelectable(item)`: not a separator and not disabled. */
  predicate IsSelectable(c: Choice) {
    c.Item? && !Truthy(c.disabled)
  }

  /** `{ first, last }` */
  datatype Bounds = Bounds(first: nat, last: nat)

  /** `b.first` and `b.last` are the smallest and the largest selectable positions. */
  predicate IsBounds(items: seq<Choice>, b: Bounds) {
    && b.first <= b.last < |items|
    && IsSelectable(items[b.first]) && IsSelectable(items[b.last])
    && (forall i :: 0 <= i < b.first ==> !IsSelectable(items[i]))
    && (forall i :: b.last < i < |items| ==> !IsSelectable(items[i]))
  }

  predicate NoneSelectable(items: seq<Choice>) {
    forall i :: 0 <= i < |items| ==> !IsSelectable(items[i])
  }

  /** The `bounds` memo: it throws when nothing can be selected. */
  function ComputeBounds(items: seq<Choice>): (r: Result<Bounds>)
    ensures r.Err? <==> NoneSelectable(items)
    ensures r.Err? ==> r.error == NoSelectableMessage
    ensures r.Ok? ==> IsBounds(items, r.value)
  {
    var first := FindIndex(items, IsSelectable);
    var last := FindLastIndex(items, IsSelectable);
    if first == -1 then Err(NoSelectableMessage) else Ok(Bounds(first, last))
  }

  /** `bounds` is determined by the list: whatever satisfies `IsBounds` is what the memo computes. */
  lemma BoundsAreComputed(items: seq<Choice>, b: Bounds)
    requires IsBounds(items, b)
    ensures ComputeBounds(items) == Ok(b)
  {
    var r := ComputeBounds(items);
    assert !NoneSelectable(items) by {
      assert IsSelectable(items[b.first]);
    }
    assert r.Ok?;
  }

  /** Selectable and carrying the value `v` (compared with `===`). */
  predicate HasValue(c: Choice, v: Value) {
    IsSelectable(c) && c.value == v
  }

  /** `defaultItemIndex` of the select prompt; -1 when there is no `default` key or no match. */
  function SelectDefaultIndex(items: seq<Choice>, default: Option<Value>): (r: int)
    ensures default.None? ==> r == -1
    ensures default.Some? ==> (r == -1 <==> forall i :: 0 <= i < |items| ==> !HasValue(items[i], default.value))
    ensures r != -1 ==>
      && default.Some? && 0 <= r < |items| && HasValue(items[r], default.value)
      && forall i :: 0 <= i < r ==> !HasValue(items[i], default.value)
  {
    match default
    case None => -1
    case Some(v) => FindIndex(items, (c: Choice) => HasValue(c, v))
  }

  /**
   * `defaultItemIndex` of the confirm and are-you-sure prompts: a value match
   * wins; without one, a truthy default picks the first selectable item and a
   * falsy one the last.
   */
  function ConfirmDefaultIndex(items: seq<Choice>, default: Option<Value>): (r: int)
    ensures default.None? ==> r == -1
    ensures r == -1 || (0 <= r < |items| && IsSelectable(items[r]))
    ensures SelectDefaultIndex(items, default) != -1 ==> r == SelectDefaultIndex(items, default)
    ensures default.Some? && !NoneSelectable(items) ==> r != -1
  {
    match default
    case None => -1
    case Some(v) =>
      var byValue := FindIndex(items, (c: Choice) => HasValue(c, v));
      var firstChoiceIndex := FindIndex(items, IsSelectable);
      var lastChoiceIndex := FindLastIndex(items, IsSelectable);
      if byValue == -1 then (if Truthy(v) then firstChoiceIndex else lastChoiceIndex) else byValue
  }

  /** Without a value match, the confirm default falls back to `bounds.first` or `bounds.last`. */
  lemma ConfirmDefaultFallback(items: seq<Choice>, b: Bounds, v: Value)
    requires IsBounds(items, b)
    requires SelectDefaultIndex(items, Some(v)) == -1
    ensures ConfirmDefaultIndex(items, Some(v)) == if Truthy(v) then b.first else b.last
  {
    var first := FindIndex(items, IsSelectable);
    var last := FindLastIndex(items, IsSelectable);
    assert first == b.first by {
      assert IsSelectable(items[b.first]);
    }
    assert last == b.last by {
      assert IsSelectable(items[b.last]);
    }
  }

  /** `useState(defaultItemIndex === -1 ? bounds.first : defaultItemIndex)` */
  function InitialActive(items: seq<Choice>, b: Bounds, defaultIndex: int): (active: nat)
    requires IsBounds(items, b)
    requires defaultIndex == -1 || (0 <= defaultIndex < |items| && IsSelectable(items[defaultIndex]))
    ensures active < |items| && IsSelectable(items[active])
    ensures defaultIndex == -1 ==> active == b.first
    ensures defaultIndex != -1 ==> active == defaultIndex
  {
    if defaultIndex == -1 then b.first else defaultIndex
  }
}
