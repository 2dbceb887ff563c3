/** The confirm prompt: exactly two choices, accept then decline. */
module ConfirmPrompt {
  import opened JsValue
  import opened Choices
  import opened Navigation
  import opened PromptStatus
  import opened SelectionCore

  /** `{ name: 'accept', short: 'yes', value: true }` */
  const AcceptBase: map<Field, Value> := map[NameField := Str("accept"), ShortField := Str("yes"), ValueField := Bool(true)]

  /** `{ name: 'decline', short: 'no', value: false }` */
  const DeclineBase: map<Field, Value> := map[NameField := Str("decline"), ShortField := Str("no"), ValueField := Bool(false)]

  /** `[{ ...base, ...config.accept }, { ...base, ...config.decline }]` after normalisation. */
  function ConfirmItems(accept: map<Field, Value>, decline: map<Field, Value>): (items: seq<Choice>)
    ensures |items| == 2 && items[0].Item? && items[1].Item?
    ensures items[0].value == (if ValueField in accept then accept[ValueField] else Bool(true))
    ensures items[1].value == (if ValueField in decline then decline[ValueField] else Bool(false))
    ensures NameField !in accept ==> items[0].name == "accept"
    ensures NameField !in decline ==> items[1].name == "decline"
    ensures NameField in accept && accept[NameField].Str? ==> items[0].name == accept[NameField].s
    ensures NameField in decline && decline[NameField].Str? ==> items[1].name == decline[NameField].s
    ensures ShortField !in accept ==> items[0].short == "yes"
    ensures ShortField !in decline ==> items[1].short == "no"
    ensures items[0].description == Get(accept, DescriptionField)
    ensures items[1].description == Get(decline, DescriptionField)
    ensures !Truthy(Get(accept, DisabledField)) ==> IsSelectable(items[0])
    ensures !Truthy(Get(decline, DisabledField)) ==> IsSelectable(items[1])
  {
    NormalizeChoices([RawObject(AcceptBase + accept), RawObject(DeclineBase + decline)])
  }

  /** Where the cursor starts: a value match, else first or last by the truthiness of `default`. */
  function ConfirmStart(items: seq<Choice>, b: Bounds, default: Option<Value>): (active: nat)
    requires IsBounds(items, b)
    ensures active < |items| && IsSelectable(items[active])
    ensures default.None? ==> active == b.first
    ensures SelectDefaultIndex(items, default) != -1 ==> active == SelectDefaultIndex(items, default)
  {
    InitialActive(items, b, ConfirmDefaultIndex(items, default))
  }

  /** Without a matching value, a truthy default starts on the first selectable choice and a falsy one on the last. */
  lemma ConfirmStartFallback(items: seq<Choice>, b: Bounds, v: Value)
    requires IsBounds(items, b)
    requires forall i :: 0 <= i < |items| ==> !HasValue(items[i], v)
    ensures ConfirmStart(items, b, Some(v)) == if Truthy(v) then b.first else b.last
  {
    ConfirmDefaultFallback(items, b, v);
  }

  /** Accept carries `true` and decline `false` unless the caller overrides `value`, and neither is disabled. */
  predicate StandardValues(accept: map<Field, Value>, decline: map<Field, Value>) {
    && (ValueField !in accept || accept[ValueField] == Bool(true))
    && (ValueField !in decline || decline[ValueField] == Bool(false))
    && !Truthy(Get(accept, DisabledField)) && !Truthy(Get(decline, DisabledField))
  }

  /** With the standard values and `default: false`, the cursor starts on decline. */
  lemma FalseDefaultStartsOnDecline(accept: map<Field, Value>, decline: map<Field, Value>)
    requires StandardValues(accept, decline)
    ensures var items := ConfirmItems(accept, decline);
      IsBounds(items, Bounds(0, 1)) && ConfirmStart(items, Bounds(0, 1), Some(Bool(false))) == 1
  {
    var items := ConfirmItems(accept, decline);
    assert !HasValue(items[0], Bool(false));
    assert HasValue(items[1], Bool(false));
  }

  /** With the standard values, the two items are `true` then `false`, both selectable, and `bounds` is `{ first: 0, last: 1 }`. */
  lemma StandardItems(accept: map<Field, Value>, decline: map<Field, Value>)
    requires StandardValues(accept, decline)
    ensures var items := ConfirmItems(accept, decline);
      && |items| == 2
      && HasValue(items[0], Bool(true)) && HasValue(items[1], Bool(false))
      && IsBounds(items, Bounds(0, 1))
      && ComputeBounds(items) == Ok(Bounds(0, 1))
  {
    BoundsAreComputed(ConfirmItems(accept, decline), Bounds(0, 1));
  }

  /** With two selectable choices and `loop` on, every arrow key moves the cursor to the other one. */
  lemma ArrowToggles(cfg: Settings, active: nat, d: Direction)
    requires WellFormed(cfg) && cfg.loop && |cfg.items| == 2 && active < 2
    requires IsSelectable(cfg.items[0]) && IsSelectable(cfg.items[1])
    ensures ActiveAfter(cfg, active, Arrow(d)) == 1 - active
  {
  }

  /** Key 1 selects accept and key 2 decline when selectable; every other number key changes nothing. */
  lemma NumberKeysOnTwoChoices(cfg: Settings, active: nat, digit: nat)
    requires WellFormed(cfg) && |cfg.items| == 2 && active < 2
    ensures digit == 1 && IsSelectable(cfg.items[0]) ==> ActiveAfter(cfg, active, NumberKey(digit)) == 0
    ensures digit == 2 && IsSelectable(cfg.items[1]) ==> ActiveAfter(cfg, active, NumberKey(digit)) == 1
    ensures digit != 1 && digit != 2 ==> ActiveAfter(cfg, active, NumberKey(digit)) == active
  {
  }

  /** Builds the confirm prompt; it fails only when both choices are disabled. */
  method CreateConfirmPrompt(accept: map<Field, Value>, decline: map<Field, Value>, default: Option<Value>, loop: Value)
    returns (r: Result<SelectionPrompt>)
    ensures r.Err? <==> NoneSelectable(ConfirmItems(accept, decline))
    ensures r.Err? ==> r.error == NoSelectableMessage
    ensures r.Ok? ==>
      && fresh(r.value) && r.value.Valid()
      && r.value.items == ConfirmItems(accept, decline)
      && r.value.loop == LoopSetting(loop)
      && r.value.status == Idle && !r.value.ignoreInput
      && r.value.active == ConfirmStart(r.value.items, r.value.bounds, default)
  {
    var items := ConfirmItems(accept, decline);
    var bounds := ComputeBounds(items);
    if bounds.Err? {
      return Err(bounds.error);
    }
    var prompt := new SelectionPrompt(items, bounds.value, LoopSetting(loop),
                                      ConfirmStart(items, bounds.value, default), false);
    return Ok(prompt);
  }

  datatype Glyph = MiddleTee | BottomArc

  /** The row glyph: row 1, decline, closes the list. */
  function ConfirmGlyph(index: nat): (g: Glyph)
    ensures g == BottomArc <==> index == 1
  {
    if index == 1 then BottomArc else MiddleTee
  }
}
