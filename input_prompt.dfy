/**
 * The free-text input prompt: typing, Tab and Backspace handling of the
 * default, Enter with the `required` check, and the asynchronous `validate`
 * whose verdict arrives as a separate event.
 */
module InputPrompt {
  import opened JsValue
  import opened PromptStatus

  /** A keypress as the handler tells them apart; `line` is the readline buffer once the key is in it. */
  datatype InputKey =
    | Enter
    | Backspace(line: string)
    | Tab(line: string)
    | Other(line: string)


  /** A key, or the awaited `validate` call settling. */
  datatype InputEvent = Key(key: InputKey) | ValidationSettled

  /**
   * `required` (by truthiness), `config.default` (the empty string when
   * absent), `validate` and, when it is a function, `filter`.
   */
  datatype InputConfig = InputConfig(
    required: bool,
    configDefault: string,
    validate: string -> Value,
    filter: Option<string -> Value>)

  const RequiredMessage: string := "You must provide a value"
  const InvalidMessage: string := "You must provide a valid value"

  /**
   * The hook state; `pending` is the answer handed to `validate` while
   * loading and `result` what `done` received.
   */
  datatype InputState = InputState(
    status: Status,
    value: string,
    defaultValue: string,
    errorMsg: Value,
    pending: string,
    result: Option<Value>)

  function Initial(cfg: InputConfig): (s: InputState)
    ensures s.status == Idle && s.value == "" && s.defaultValue == cfg.configDefault
    ensures s.errorMsg == Undefined && s.result.None?
  {
    InputState(Idle, "", cfg.configDefault, Undefined, "", None)
  }

  /** `value || defaultValue` */
  function Answer(s: InputState): string {
    if s.value != "" then s.value else s.defaultValue
  }

  /** What `done` receives for an accepted answer: the filter applied once, or the answer itself. */
  function Resolved(cfg: InputConfig, answer: string): Value {
    match cfg.filter
    case Some(f) => f(answer)
    case None => Str(answer)
  }

  /**
   * A result exists exactly once the prompt is done; then the kept value is
   * one `validate` returned exactly `true` for, and the result is that value
   * passed through the filter once.
   */
  predicate InputInv(cfg: InputConfig, s: InputState) {
    && (s.status == Done <==> s.result.Some?)
    && (s.status == Done ==> cfg.validate(s.value) == Bool(true) && s.result == Some(Resolved(cfg, s.value)))
  }

  /** One event handled by the prompt. */
  function InputTransition(cfg: InputConfig, s: InputState, e: InputEvent): (t: InputState)
    requires InputInv(cfg, s)
    ensures InputInv(cfg, t)
    ensures e.Key? && s.status != Idle ==> t == s
    ensures s.status == Idle && e == Key(Enter) && cfg.required && Answer(s) == "" ==>
      t == s.(errorMsg := Str(RequiredMessage))
    ensures s.status == Idle && e == Key(Enter) && !(cfg.required && Answer(s) == "") ==>
      t.status == Loading && t.pending == Answer(s) && t.value == s.value
    ensures s.status == Loading && e.ValidationSettled? && cfg.validate(s.pending) == Bool(true) ==>
      t.status == Done && t.value == s.pending && t.result == Some(Resolved(cfg, s.pending))
    ensures s.status == Loading && e.ValidationSettled? && cfg.validate(s.pending) != Bool(true) ==>
      && t.status == Idle && t.value == s.value && t.result.None?
      && t.errorMsg == (if Truthy(cfg.validate(s.pending)) then cfg.validate(s.pending) else Str(InvalidMessage))
    ensures e.ValidationSettled? && s.status != Loading ==> t == s
    ensures s.status == Idle && e.Key? && e.key.Other? ==> t == s.(value := e.key.line, errorMsg := Undefined)
    ensures s.status == Idle && e.Key? && e.key.Backspace? ==>
      t == if s.value == "" && !cfg.required then s.(defaultValue := "")
           else s.(value := e.key.line, errorMsg := Undefined)
    ensures s.status == Idle && e.Key? && e.key.Tab? ==>
      t == if s.value == "" && s.defaultValue == "" then s.(defaultValue := cfg.configDefault)
           else if s.value == "" then s.(value := s.defaultValue)
           else s.(value := e.key.line, errorMsg := Undefined)
    ensures t.result.Some? && s.result.None? ==> s.status == Loading && e.ValidationSettled?
  {
    match e
    case ValidationSettled =>
      if s.status != Loading then s
      else
        var isValid := cfg.validate(s.pending);
        if isValid == Bool(true) then
          s.(value := s.pending, status := Done, result := Some(Resolved(cfg, s.pending)))
        else
          s.(errorMsg := Or(isValid, Str(InvalidMessage)), status := Idle)
    case Key(k) =>
      if s.status != Idle then s
      else
        match k
        case Enter =>
          var answer := Answer(s);
          if cfg.required && answer == "" then s.(errorMsg := Str(RequiredMessage))
          else s.(status := Loading, pending := answer)
        case Backspace(line) =>
          if s.value == "" && !cfg.required then s.(defaultValue := "")
          else s.(value := line, errorMsg := Undefined)
        case Tab(line) =>
          if s.value == "" && s.defaultValue == "" then s.(defaultValue := cfg.configDefault)
          else if s.value == "" then s.(value := s.defaultValue)
          else s.(value := line, errorMsg := Undefined)
        case Other(line) => s.(value := line, errorMsg := Undefined)
  }

  /** The state after a sequence of events, in order. */
  function InputRun(cfg: InputConfig, s: InputState, events: seq<InputEvent>): (t: InputState)
    requires InputInv(cfg, s)
    ensures InputInv(cfg, t)
    decreases |events|
  {
    if |events| == 0 then s
    else InputTransition(cfg, InputRun(cfg, s, events[..|events| - 1]), events[|events| - 1])
  }

  /** Backspace on an empty value clears the default unless the prompt is `required`. */
  lemma BackspaceClearsDefault(cfg: InputConfig, s: InputState, line: string)
    requires InputInv(cfg, s) && s.status == Idle && s.value == ""
    ensures var t := InputTransition(cfg, s, Key(Backspace(line)));
      (!cfg.required ==> t.defaultValue == "" && t.value == "")
      && (cfg.required ==> t.value == line && t.defaultValue == s.defaultValue)
  {
  }

  /**
   * Tab on an empty value restores `config.default` when there is no default
   * left, and otherwise copies the default into the value without submitting.
   */
  lemma TabOnEmptyValue(cfg: InputConfig, s: InputState, line: string)
    requires InputInv(cfg, s) && s.status == Idle && s.value == ""
    ensures var t := InputTransition(cfg, s, Key(Tab(line)));
      && t.status == Idle
      && (s.defaultValue == "" ==> t.defaultValue == cfg.configDefault && t.value == "")
      && (s.defaultValue != "" ==> t.value == s.defaultValue && t.defaultValue == s.defaultValue)
  {
  }

  /** Without a validator that can refuse and without `required`, Enter always resolves. */
  lemma AcceptingPromptResolves(cfg: InputConfig, s: InputState)
    requires InputInv(cfg, s) && s.status == Idle
    requires !cfg.required && forall x :: cfg.validate(x) == Bool(true)
    ensures var t := InputRun(cfg, s, [Key(Enter), ValidationSettled]);
      t.status == Done && t.result == Some(Resolved(cfg, Answer(s)))
  {
    var t1 := InputTransition(cfg, s, Key(Enter));
    assert [Key(Enter), ValidationSettled][..1] == [Key(Enter)];
    assert [Key(Enter)][..0] == [];
    assert InputRun(cfg, s, [Key(Enter)]) == t1;
    assert t1.status == Loading && t1.pending == Answer(s);
  }

  /** Once done, the prompt keeps its result whatever follows. */
  lemma {:induction false} InputDoneIsFinal(cfg: InputConfig, s: InputState, events: seq<InputEvent>)
    requires InputInv(cfg, s) && s.status == Done
    ensures InputRun(cfg, s, events) == s
    decreases |events|
  {
    if |events| > 0 {
      InputDoneIsFinal(cfg, s, events[..|events| - 1]);
    }
  }

  /** The prompt object: the hook state held in fields. */
  class CustomInputPrompt {
    const cfg: InputConfig
    var status: Status
    var value: string
    var defaultValue: string
    var errorMsg: Value
    var pending: string
    var result: Option<Value>

    function Snapshot(): InputState
      reads this
    {
      InputState(status, value, defaultValue, errorMsg, pending, result)
    }

    predicate Valid()
      reads this
    {
      InputInv(cfg, Snapshot())
    }

    constructor (cfg: InputConfig)
      ensures Valid() && this.cfg == cfg && Snapshot() == Initial(cfg)
    {
      this.cfg := cfg;
      status := Idle;
      value := "";
      defaultValue := cfg.configDefault;
      errorMsg := Undefined;
      pending := "";
      result := None;
    }

    /** The `useKeypress` handler up to the `await`: keys are ignored unless idle. */
    method HandleKey(key: InputKey)
      requires Valid()
      modifies this
      ensures Valid()
      ensures Snapshot() == InputTransition(cfg, old(Snapshot()), Key(key))
    {
      if status != Idle {
        return;
      }
      match key {
        case Enter =>
          var answer := if value != "" then value else defaultValue;
          if cfg.required && answer == "" {
            errorMsg := Str(RequiredMessage);
          } else {
            status := Loading;
            pending := answer;
          }
        case Backspace(line) =>
          if value == "" && !cfg.required {
            defaultValue := "";
          } else {
            value := line;
            errorMsg := Undefined;
          }
        case Tab(line) =>
          if value == "" && defaultValue == "" {
            defaultValue := cfg.configDefault;
          } else if value == "" {
            value := defaultValue;
          } else {
            value := line;
            errorMsg := Undefined;
          }
        case Other(line) =>
          value := line;
          errorMsg := Undefined;
      }
    }

    /** The handler after the `await`: `validate`'s verdict is in. */
    method Settle()
      requires Valid()
      modifies this
      ensures Valid()
      ensures Snapshot() == InputTransition(cfg, old(Snapshot()), ValidationSettled)
    {
      if status != Loading {
        return;
      }
      var isValid := cfg.validate(pending);
      if isValid == Bool(true) {
        value := pending;
        status := Done;
        result := Some(match cfg.filter case Some(f) => f(pending) case None => Str(pending));
      } else {
        errorMsg := if Truthy(isValid) then isValid else Str(InvalidMessage);
        status := Idle;
      }
    }

    method Dispatch(e: InputEvent)
      requires Valid()
      modifies this
      ensures Valid()
      ensures Snapshot() == InputTransition(cfg, old(Snapshot()), e)
    {
      match e {
        case Key(k) => HandleKey(k);
        case ValidationSettled => Settle();
      }
    }
  }

  /** Feeds `events` to `p` in order. */
  method FeedInput(p: CustomInputPrompt, events: seq<InputEvent>)
    requires p.Valid()
    modifies p
    ensures p.Valid()
    ensures p.Snapshot() == InputRun(p.cfg, old(p.Snapshot()), events)
  {
    ghost var start := p.Snapshot();
    for i := 0 to |events|
      invariant p.Valid()
      invariant p.Snapshot() == InputRun(p.cfg, start, events[..i])
    {
      assert events[..i + 1][..i] == events[..i];
      p.Dispatch(events[i]);
    }
    assert events[..|events|] == events;
  }
}
