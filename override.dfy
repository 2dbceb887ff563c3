/**
 * `AYSOverride(componentName)`: before an existing component is overwritten,
 * an are-you-sure prompt that starts on "cancel" and ignores keys during its
 * delay, then, only if the user accepted, an input prompt that accepts
 * nothing but the component's exact name. `AYSOverride.js` and
 * `AYSOverride.mjs` differ only in the delay and the wording.
 */
module Override {
  import opened JsValue
  import opened Choices
  import opened SelectionCore
  import opened ConfirmPrompt
  import opened InputPrompt
  import opened PromptStatus
  import opened Navigation

  /** `src/AYSOverride.js` or `src/AYSOverride.mjs`. */
  datatype Variant = CommonJs | EsModule

  /** The gate's `delay` in milliseconds. */
  function GateDelay(v: Variant): nat {
    match v
    case CommonJs => 2000
    case EsModule => 2500
  }

  /** The gate's `accept` fields, without the description, which is display text only. */
  function GateAccept(v: Variant): map<Field, Value> {
    match v
    case CommonJs => map[
      ValueField := Bool(true),
      NameField := Str("OVERIDE, And Proceed!")]
    case EsModule => map[
      ValueField := Bool(true),
      NameField := Str("YESS! I do not need that work anymore.")]
  }

  /** The gate's `decline` fields, without the description. */
  function GateDecline(v: Variant): map<Field, Value> {
    match v
    case CommonJs => map[
      ValueField := Bool(false),
      NameField := Str("Cancel Operation!")]
    case EsModule => map[
      ValueField := Bool(false),
      NameField := Str("NOOO! Do not do anything.")]
  }

  function GateItems(v: Variant): seq<Choice> {
    ConfirmItems(GateAccept(v), GateDecline(v))
  }

  /** Accept carries `true` and decline `false`, both selectable; `bounds` is `{ first: 0, last: 1 }`. */
  lemma GateItemsFacts(v: Variant)
    ensures var items := GateItems(v);
      && |items| == 2
      && HasValue(items[0], Bool(true)) && HasValue(items[1], Bool(false))
      && IsBounds(items, Bounds(0, 1))
      && ComputeBounds(items) == Ok(Bounds(0, 1))
  {
    GateStandard(v);
    StandardItems(GateAccept(v), GateDecline(v));
  }

  /** Accept carries `true`, decline `false`, and neither is disabled. */
  lemma GateStandard(v: Variant)
    ensures StandardValues(GateAccept(v), GateDecline(v))
  {
    match v
    case CommonJs =>
    case EsModule =>
  }

  /** The gate runs with `loop: false`. */
  function GateSettings(v: Variant): (cfg: Settings)
    ensures WellFormed(cfg) && !cfg.loop && cfg.items == GateItems(v)
  {
    GateItemsFacts(v);
    Settings(GateItems(v), Bounds(0, 1), LoopSetting(Bool(false)))
  }

  /** The gate as built: loading, input locked, cursor at the confirm default for `default: false`. */
  function GateStart(v: Variant): (s: State)
    ensures Inv(GateSettings(v), s)
  {
    GateItemsFacts(v);
    FalseDefaultStartsOnDecline(GateAccept(v), GateDecline(v));
    State(ConfirmStart(GateItems(v), Bounds(0, 1), Some(Bool(false))), Loading, true, true, false, None)
  }

  /** The message of a mismatch: `, you entered …` only when something was typed. */
  function MismatchMessage(componentName: string, input: string): string {
    "Component name is " + componentName + (if input != "" then ", you entered " + input else "")
  }

  /** The name step's `validate`. */
  function NameCheck(componentName: string, input: string): (r: Value)
    ensures r == Bool(true) <==> input == componentName
    ensures r != Bool(true) ==> r == Str(MismatchMessage(componentName, input)) && Truthy(r)
  {
    if input == componentName then Bool(true) else Str(MismatchMessage(componentName, input))
  }

  /** The name step: not `required`, no default, `validate` as above and `filter: () => true`. */
  function NameStepConfig(componentName: string): InputConfig {
    InputConfig(false, "", (input: string) => NameCheck(componentName, input), Some((answer: string) => Bool(true)))
  }

  /** The gate after its events. */
  function GateRun(v: Variant, gateEvents: seq<Event>): State {
    Run(GateSettings(v), GateStart(v), gateEvents)
  }

  /** The name step after its events. */
  function NameStep(componentName: string, nameEvents: seq<InputEvent>): InputState {
    var cfg := NameStepConfig(componentName);
    InputRun(cfg, Initial(cfg), nameEvents)
  }

  /** What `AYSOverride` resolves with after the gate events and the name events; `None` while still waiting. */
  function OverrideOutcome(v: Variant, componentName: string, gateEvents: seq<Event>, nameEvents: seq<InputEvent>): (r: Option<Value>)
    ensures r.None? <==> (GateRun(v, gateEvents).answer.None? ||
      (Truthy(GateRun(v, gateEvents).answer.value) && NameStep(componentName, nameEvents).status != Done))
    ensures GateRun(v, gateEvents).answer.Some? && !Truthy(GateRun(v, gateEvents).answer.value) ==> r == GateRun(v, gateEvents).answer
  {
    match GateRun(v, gateEvents).answer
    case None => None
    case Some(confirm) => if Truthy(confirm) then NameStep(componentName, nameEvents).result else Some(confirm)
  }

  /**
   * The gate starts on decline ("cancel"), loading, with `loop` off and
   * input locked until the delay fires.
   */
  lemma GateStartsOnDecline(v: Variant)
    ensures GateStart(v).active == 1
    ensures GateItems(v)[1].value == Bool(false) && GateItems(v)[0].value == Bool(true)
    ensures GateStart(v).status == Loading && GateStart(v).ignoreInput
  {
    GateStandard(v);
    GateItemsFacts(v);
    FalseDefaultStartsOnDecline(GateAccept(v), GateDecline(v));
  }

  /** Without the delay firing, no key can resolve the gate, so nothing is decided. */
  lemma NothingBeforeDelay(v: Variant, componentName: string, gateEvents: seq<Event>, nameEvents: seq<InputEvent>)
    requires forall i :: 0 <= i < |gateEvents| ==> !gateEvents[i].DelayElapsed?
    ensures OverrideOutcome(v, componentName, gateEvents, nameEvents).None?
  {
    LockedUntilDelay(GateSettings(v), GateStart(v), gateEvents);
  }

  /** Declining returns `false` and never shows the name step. */
  lemma DeclineSkipsNameStep(v: Variant, componentName: string, gateEvents: seq<Event>, nameEvents: seq<InputEvent>)
    requires GateRun(v, gateEvents).answer == Some(Bool(false))
    ensures OverrideOutcome(v, componentName, gateEvents, nameEvents) == Some(Bool(false))
  {
  }

  /**
   * `AYSOverride` resolves with `true` only when the user accepted the gate
   * and then entered exactly the component's name; every other outcome is
   * `false` or still pending.
   */
  lemma TrueOnlyAfterExactName(v: Variant, componentName: string, gateEvents: seq<Event>, nameEvents: seq<InputEvent>)
    ensures var r := OverrideOutcome(v, componentName, gateEvents, nameEvents);
      r.None? || r == Some(Bool(true)) || r == Some(Bool(false))
    ensures OverrideOutcome(v, componentName, gateEvents, nameEvents) == Some(Bool(true)) ==>
      && GateRun(v, gateEvents).answer == Some(Bool(true))
      && NameStep(componentName, nameEvents).status == Done
      && NameStep(componentName, nameEvents).value == componentName
  {
    GateAnswersBool(v, gateEvents);
    NameStepResolvesTrueOnMatch(componentName, nameEvents);
  }

  /** Conversely, accepting the gate and completing the name step resolves `AYSOverride` with `true`. */
  lemma AcceptedAndNamedIsTrue(v: Variant, componentName: string, gateEvents: seq<Event>, nameEvents: seq<InputEvent>)
    requires GateRun(v, gateEvents).answer == Some(Bool(true)) && NameStep(componentName, nameEvents).status == Done
    ensures OverrideOutcome(v, componentName, gateEvents, nameEvents) == Some(Bool(true))
  {
    NameStepResolvesTrueOnMatch(componentName, nameEvents);
  }

  /** Typing the exact name, Enter, and `validate` settling complete the name step with `true`. */
  lemma ExactNameCompletes(componentName: string)
    ensures var t := NameStep(componentName, [Key(InputKey.Other(componentName)), Key(InputKey.Enter), ValidationSettled]);
      t.status == Done && t.result == Some(Bool(true)) && t.value == componentName
  {
    var cfg := NameStepConfig(componentName);
    var events: seq<InputEvent> := [Key(InputKey.Other(componentName)), Key(InputKey.Enter), ValidationSettled];
    var s0 := Initial(cfg);
    var s1 := InputTransition(cfg, s0, events[0]);
    assert s1.status == Idle && s1.value == componentName;
    var s2 := InputTransition(cfg, s1, events[1]);
    assert s2.status == Loading && s2.pending == componentName;
    assert events[..1][..0] == [] && events[..2][..1] == events[..1] && events[..3] == events;
    assert InputRun(cfg, s0, events[..1]) == s1;
    assert InputRun(cfg, s0, events[..2]) == s2;
    assert cfg.validate(componentName) == Bool(true);
  }

  /** After the delay, Up moves from "cancel" to the accept choice and Enter answers `true`. */
  lemma AcceptPathAnswersTrue(v: Variant)
    ensures GateRun(v, [DelayElapsed, KeyPress(Arrow(Up)), KeyPress(Key.Enter)]).answer == Some(Bool(true))
  {
    GateStartsOnDecline(v);
    GateItemsFacts(v);
    AcceptPathOnTwo(GateSettings(v), GateStart(v));
  }

  /** The accepting path on any loading two-choice prompt that starts on its second, `false` choice. */
  lemma AcceptPathOnTwo(cfg: Settings, s0: State)
    requires Inv(cfg, s0) && s0.status == Loading && s0.active == 1
    requires |cfg.items| == 2 && cfg.bounds == Bounds(0, 1) && HasValue(cfg.items[0], Bool(true))
    ensures Run(cfg, s0, [DelayElapsed, KeyPress(Arrow(Up)), KeyPress(Key.Enter)]).answer == Some(Bool(true))
  {
    var events: seq<Event> := [DelayElapsed, KeyPress(Arrow(Up)), KeyPress(Key.Enter)];
    var s1 := Transition(cfg, s0, events[0]);
    assert s1.status == Idle && !s1.ignoreInput && s1.active == 1;
    assert ArrowTarget(cfg.items, cfg.bounds, cfg.loop, 1, Up) == 0 by {
      assert MayMove(cfg.bounds, cfg.loop, 1, Up);
      assert Step(1, Up, 2) == 0;
    }
    var s2 := Transition(cfg, s1, events[1]);
    assert s2.active == 0 && s2.status == Idle && !s2.ignoreInput;
    assert events[..1][..0] == [] && events[..2][..1] == events[..1] && events[..3] == events;
    assert Run(cfg, s0, events[..1]) == s1;
    assert Run(cfg, s0, events[..2]) == s2;
  }

  /** The whole accepting path: wait, pick the accept choice, then type the exact name. */
  lemma AcceptAndTypeNameOverrides(v: Variant, componentName: string)
    ensures OverrideOutcome(v, componentName,
      [DelayElapsed, KeyPress(Arrow(Up)), KeyPress(Key.Enter)],
      [Key(InputKey.Other(componentName)), Key(InputKey.Enter), ValidationSettled]) == Some(Bool(true))
  {
    AcceptPathAnswersTrue(v);
    ExactNameCompletes(componentName);
  }

  /** The gate resolves with one of its two values, `true` or `false`. */
  lemma GateAnswersBool(v: Variant, gateEvents: seq<Event>)
    ensures GateRun(v, gateEvents).answer.Some? ==>
      GateRun(v, gateEvents).answer == Some(Bool(true)) || GateRun(v, gateEvents).answer == Some(Bool(false))
  {
    GateItemsFacts(v);
    AnswerOfTwoValues(GateSettings(v), GateRun(v, gateEvents));
  }

  /** A prompt over a `true` choice and a `false` choice answers one of the two. */
  lemma AnswerOfTwoValues(cfg: Settings, t: State)
    requires Inv(cfg, t) && |cfg.items| == 2
    requires HasValue(cfg.items[0], Bool(true)) && HasValue(cfg.items[1], Bool(false))
    ensures t.answer.Some? ==> t.answer == Some(Bool(true)) || t.answer == Some(Bool(false))
  {
  }

  /** The name step resolves, if at all, with `true`, and only once the kept value is exactly the name. */
  lemma NameStepResolvesTrueOnMatch(componentName: string, nameEvents: seq<InputEvent>)
    ensures var t := NameStep(componentName, nameEvents);
      t.result.Some? ==> t.result == Some(Bool(true)) && t.status == Done && t.value == componentName
  {
    var cfg := NameStepConfig(componentName);
    var t := NameStep(componentName, nameEvents);
    if t.result.Some? {
      assert cfg.validate(t.value) == Bool(true);
      assert NameCheck(componentName, t.value) == Bool(true);
    }
  }

  /** The two steps in sequence, each prompt driven by its own events. */
  method AysOverride(v: Variant, componentName: string, gateEvents: seq<Event>, nameEvents: seq<InputEvent>)
    returns (r: Option<Value>)
    ensures r == OverrideOutcome(v, componentName, gateEvents, nameEvents)
  {
    var settings := GateSettings(v);
    var start := GateStart(v);
    var gate := new SelectionPrompt(settings.items, settings.bounds, settings.loop, start.active, true);
    Feed(gate, gateEvents);
    if gate.answer.None? {
      return None;
    }
    var confirm := gate.answer.value;
    if Truthy(confirm) {
      var prompt := new CustomInputPrompt(NameStepConfig(componentName));
      FeedInput(prompt, nameEvents);
      return prompt.result;
    }
    return Some(confirm);
  }
}
