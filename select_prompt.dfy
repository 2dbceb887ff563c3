/** The select prompt: a list of choices, the cursor starting on the default value's entry. */
module SelectPrompt {
  import opened JsValue
  import opened Strings
  import opened Ascii
  import opened Choices
  import opened Navigation
  import opened PromptStatus
  import opened SelectionCore

  /**
   * Where the cursor starts: the first selectable entry whose value is the
   * `default`, and `bounds.first` when there is no `default` key or no such entry.
   */
  function SelectStart(items: seq<Choice>, b: Bounds, default: Option<Value>): (active: nat)
    requires IsBounds(items, b)
    ensures active < |items| && IsSelectable(items[active])
    ensures default.None? ==> active == b.first
    ensures default.Some? && (forall i :: 0 <= i < |items| ==> !HasValue(items[i], default.value)) ==> active == b.first
    ensures default.Some? && (exists i :: 0 <= i < |items| && HasValue(items[i], default.value)) ==>
      && HasValue(items[active], default.value)
      && forall i :: 0 <= i < active ==> !HasValue(items[i], default.value)
  {
    InitialActive(items, b, SelectDefaultIndex(items, default))
  }

  /** Builds the prompt, or fails as the `bounds` memo throws when nothing is selectable. */
  method CreateSelectPrompt(choices: seq<RawChoice>, default: Option<Value>, loop: Value)
    returns (r: Result<SelectionPrompt>)
    ensures r.Err? <==> NoneSelectable(NormalizeChoices(choices))
    ensures r.Err? ==> r.error == NoSelectableMessage
    ensures r.Ok? ==>
      && fresh(r.value) && r.value.Valid()
      && r.value.items == NormalizeChoices(choices)
      && r.value.loop == LoopSetting(loop)
      && r.value.status == Idle && !r.value.ignoreInput
      && r.value.active == SelectStart(r.value.items, r.value.bounds, default)
  {
    var items := NormalizeChoices(choices);
    var bounds := ComputeBounds(items);
    if bounds.Err? {
      return Err(bounds.error);
    }
    var prompt := new SelectionPrompt(items, bounds.value, LoopSetting(loop),
                                      SelectStart(items, bounds.value, default), false);
    return Ok(prompt);
  }

  datatype Glyph = TopArc | MiddleTee | BottomArc

  /** The row glyph: the first row opens the list, the row at `choices.length - 1` closes it. */
  function SelectGlyph(index: nat, choiceCount: nat): (g: Glyph)
    ensures g == TopArc <==> index == 0
    ensures g == BottomArc <==> index != 0 && index + 1 == choiceCount
  {
    if index == 0 then TopArc
    else if index + 1 == choiceCount then BottomArc
    else MiddleTee
  }

  /** Typing "b" in a list of three fruit moves the cursor to "Banana". */
  lemma TypeAheadFindsBanana()
    ensures var items := NormalizeChoices([RawString("Apple"), RawString("Banana"), RawString("Cherry")]);
      var cfg := Settings(items, Bounds(0, 2), true);
      WellFormed(cfg) && ActiveAfter(cfg, 0, Other("b")) == 1
  {
    var items := NormalizeChoices([RawString("Apple"), RawString("Banana"), RawString("Cherry")]);
    assert items[0].name == "Apple" && items[1].name == "Banana";
    assert LowerStr("b") == "b";
    assert LowerStr("Apple")[..1] == "a";
    assert !SearchHit("b", items[0]);
    assert LowerStr("Banana")[..1] == "b";
    assert SearchHit("b", items[1]);
  }
}
