/**
 * The are-you-sure prompt: the confirm prompt's two choices, loading and
 * deaf to keys until its delay timer fires.
 */
module AreYouSurePrompt {
  import opened JsValue
  import opened Choices
  import opened PromptStatus
  import opened SelectionCore
  import opened ConfirmPrompt

  /** Builds the prompt loading, with input locked and the delay timer pending. */
  method CreateAreYouSurePrompt(accept: map<Field, Value>, decline: map<Field, Value>, default: Option<Value>, loop: Value)
    returns (r: Result<SelectionPrompt>)
    ensures r.Err? <==> NoneSelectable(ConfirmItems(accept, decline))
    ensures r.Err? ==> r.error == NoSelectableMessage
    ensures r.Ok? ==>
      && fresh(r.value) && r.value.Valid()
      && r.value.items == ConfirmItems(accept, decline)
      && r.value.loop == LoopSetting(loop)
      && r.value.status == Loading && r.value.ignoreInput && r.value.delayTimerPending
      && r.value.active == ConfirmStart(r.value.items, r.value.bounds, default)
  {
    var items := ConfirmItems(accept, decline);
    var bounds := ComputeBounds(items);
    if bounds.Err? {
      return Err(bounds.error);
    }
    var prompt := new SelectionPrompt(items, bounds.value, LoopSetting(loop),
                                      ConfirmStart(items, bounds.value, default), true);
    return Ok(prompt);
  }

  /** `countdownArray(milliseconds)`: from `milliseconds` down in steps of 10 while positive. */
  method CountdownArray(milliseconds: int) returns (countdown: seq<int>)
    ensures |countdown| == if milliseconds > 0 then (milliseconds + 9) / 10 else 0
    ensures forall k :: 0 <= k < |countdown| ==> countdown[k] == milliseconds - 10 * k
    ensures forall k :: 0 <= k < |countdown| ==> countdown[k] > 0
  {
    countdown := [];
    var i := milliseconds;
    while i > 0
      invariant i == milliseconds - 10 * |countdown|
      invariant milliseconds > 0 ==> i > -10
      invariant milliseconds <= 0 ==> countdown == []
      invariant forall k :: 0 <= k < |countdown| ==> countdown[k] == milliseconds - 10 * k
      invariant forall k :: 0 <= k < |countdown| ==> countdown[k] > 0
      decreases i
    {
      countdown := countdown + [i];
      i := i - 10;
    }
    if milliseconds > 0 {
      assert milliseconds + 9 == 10 * |countdown| + (i + 9);
      assert 0 <= i + 9 < 10;
    }
  }

  datatype Colour = Red | Green

  /** Row colour: row 0, accept, is the dangerous choice and red; the others are green. */
  function RowColour(index: nat): (c: Colour)
    ensures c == Red <==> index == 0
  {
    if index != 0 then Green else Red
  }

  /** The description below the list takes the colour of the row under the cursor. */
  function DescriptionColour(active: nat): (c: Colour)
    ensures c == RowColour(active)
  {
    if active != 0 then Green else Red
  }
}
