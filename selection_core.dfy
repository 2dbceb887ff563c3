/**
 * The keypress state machine shared by the select, confirm and are-you-sure
 * prompts. `Transition` is its specification on values; `SelectionPrompt`
 * keeps the same state in fields that its methods update in place.
 */
module SelectionCore {
  import opened JsValue
  import opened Strings
  import opened Ascii
  import opened Seqs
  import opened Choices
  import opened Navigation
  import opened PromptStatus

  /** A keypress as the handler tells them apart; `line` is the readline buffer once the key is in it. */
  datatype Key =
    | Enter
    | Arrow(dir: Direction)
    | NumberKey(digit: nat)
    | Backspace
    | Other(line: string)


  /** What reaches the prompt: a key, the delay timer firing, or the 700 ms search timer firing. */
  datatype Event = KeyPress(key: Key) | DelayElapsed | SearchCleared

  /** What a prompt is built with and never changes afterwards. */
  datatype Settings = Settings(items: seq<Choice>, bounds: Bounds, loop: bool)

  /** `const { loop = true } = config`, read with truthiness by the handler. */
  function LoopSetting(loop: Value): (r: bool)
    ensures loop == Undefined ==> r
    ensures loop != Undefined ==> (r <==> Truthy(loop))
  {
    if loop == Undefined then true else Truthy(loop)
  }

  predicate WellFormed(cfg: Settings) {
    IsBounds(cfg.items, cfg.bounds)
  }

  /**
   * The hook state: the cursor, `status`, `ignoreInput`, whether the delay
   * timer and the search timer are pending, and the value passed to `done`.
   */
  datatype State = State(
    active: nat,
    status: Status,
    ignoreInput: bool,
    delayPending: bool,
    searchPending: bool,
    answer: Option<Value>)

  /**
   * The cursor is always on a selectable entry; input is ignored exactly while
   * loading, which is exactly while the delay timer is pending; an answer exists
   * exactly once the prompt is done, it is the value under the cursor, and no
   * timer outlives the prompt.
   */
  predicate Inv(cfg: Settings, s: State) {
    && WellFormed(cfg)
    && s.active < |cfg.items| && IsSelectable(cfg.items[s.active])
    && (s.ignoreInput <==> s.status == Loading)
    && (s.delayPending <==> s.status == Loading)
    && (s.status == Done <==> s.answer.Some?)
    && (s.status == Done ==> s.answer == Some(cfg.items[s.active].value) && !s.searchPending)
  }

  /** The search test: selectable, and the lowercased name starts with the lowercased line. */
  predicate SearchHit(line: string, c: Choice) {
    IsSelectable(c) && StartsWith(LowerStr(c.name), LowerStr(line))
  }

  /** `items.findIndex(...)` of the search branch. */
  function SearchMatch(items: seq<Choice>, line: string): (r: int)
    ensures r == -1 <==> forall i :: 0 <= i < |items| ==> !SearchHit(line, items[i])
    ensures r != -1 ==> 0 <= r < |items| && SearchHit(line, items[r])
    ensures r != -1 ==> forall i :: 0 <= i < r ==> !SearchHit(line, items[i])
  {
    FindIndex(items, (c: Choice) => SearchHit(line, c))
  }

  /** The number-key branch: key N moves to position N - 1 when there is a selectable entry there. */
  function NumberTarget(items: seq<Choice>, active: nat, digit: nat): (r: nat)
    ensures 1 <= digit <= |items| && IsSelectable(items[digit - 1]) ==> r == digit - 1
    ensures !(1 <= digit <= |items| && IsSelectable(items[digit - 1])) ==> r == active
  {
    var position := digit - 1;
    if 0 <= position < |items| && IsSelectable(items[position]) then position else active
  }

  /** The cursor after a key, for a prompt that is accepting input. */
  function ActiveAfter(cfg: Settings, active: nat, key: Key): (r: nat)
    requires WellFormed(cfg) && active < |cfg.items|
    ensures r < |cfg.items|
    ensures IsSelectable(cfg.items[active]) ==> IsSelectable(cfg.items[r])
    ensures key.Enter? || key.Backspace? ==> r == active
    ensures key.Arrow? ==> r == ArrowTarget(cfg.items, cfg.bounds, cfg.loop, active, key.dir)
    ensures key.NumberKey? ==> r == NumberTarget(cfg.items, active, key.digit)
    ensures key.Other? && SearchMatch(cfg.items, key.line) == -1 ==> r == active
    ensures key.Other? && SearchMatch(cfg.items, key.line) != -1 ==> r == SearchMatch(cfg.items, key.line)
  {
    match key
    case Enter => active
    case Arrow(d) => ArrowTarget(cfg.items, cfg.bounds, cfg.loop, active, d)
    case NumberKey(digit) => NumberTarget(cfg.items, active, digit)
    case Backspace => active
    case Other(line) =>
      var m := SearchMatch(cfg.items, line);
      if m == -1 then active else m
  }

  /** One event handled by the prompt. */
  function Transition(cfg: Settings, s: State, e: Event): (t: State)
    requires Inv(cfg, s)
    ensures Inv(cfg, t)
    ensures s.status == Done ==> t == s
    ensures e.KeyPress? && s.ignoreInput ==>
      t.active == s.active && t.status == s.status && t.answer == s.answer && !t.searchPending
    ensures s.status != Done && e == KeyPress(Enter) && !s.ignoreInput ==>
      t.status == Done && t.answer == Some(cfg.items[s.active].value)
    ensures s.status != Done && e.DelayElapsed? && s.delayPending ==>
      t.status == Idle && !t.ignoreInput && t.active == s.active
    ensures e.DelayElapsed? && !s.delayPending ==> t == s
    ensures s.status != Done && e.SearchCleared? ==> t == s.(searchPending := false)
    ensures s.status != Done && e.KeyPress? && !s.ignoreInput && !e.key.Enter? ==>
      && t.active == ActiveAfter(cfg, s.active, e.key) && t.status == s.status && t.answer == s.answer
      && t.ignoreInput == s.ignoreInput && t.delayPending == s.delayPending && t.searchPending == e.key.Other?
    ensures t.answer.Some? && s.answer.None? ==> e == KeyPress(Enter) && t.answer == Some(cfg.items[s.active].value)
  {
    if s.status == Done then s
    else
      match e
      case DelayElapsed =>
        if s.delayPending then s.(delayPending := false, ignoreInput := false, status := Idle) else s
      case SearchCleared => s.(searchPending := false)
      case KeyPress(k) =>
        if s.ignoreInput then s.(searchPending := false)
        else if k.Enter? then s.(status := Done, answer := Some(cfg.items[s.active].value), searchPending := false)
        else s.(active := ActiveAfter(cfg, s.active, k), searchPending := k.Other?)
  }

  /** The state after a sequence of events, in order. */
  function Run(cfg: Settings, s: State, events: seq<Event>): (t: State)
    requires Inv(cfg, s)
    ensures Inv(cfg, t)
    decreases |events|
  {
    if |events| == 0 then s
    else Transition(cfg, Run(cfg, s, events[..|events| - 1]), events[|events| - 1])
  }

  /**
   * Until the delay timer fires, no key moves the cursor or resolves the
   * prompt: an input-locked prompt fed only keys and search-timer events is
   * still loading, with no answer and the cursor where it started.
   */
  lemma {:induction false} LockedUntilDelay(cfg: Settings, s: State, events: seq<Event>)
    requires Inv(cfg, s) && s.ignoreInput
    requires forall i :: 0 <= i < |events| ==> !events[i].DelayElapsed?
    ensures var t := Run(cfg, s, events);
      t.status == Loading && t.ignoreInput && t.answer.None? && t.active == s.active
    decreases |events|
  {
    if |events| > 0 {
      LockedUntilDelay(cfg, s, events[..|events| - 1]);
    }
  }

  /** Once done, the prompt keeps its answer whatever follows. */
  lemma {:induction false} DoneIsFinal(cfg: Settings, s: State, events: seq<Event>)
    requires Inv(cfg, s) && s.status == Done
    ensures Run(cfg, s, events) == s
    decreases |events|
  {
    if |events| > 0 {
      DoneIsFinal(cfg, s, events[..|events| - 1]);
    }
  }

  /** The prompt object: the hook state held in fields. */
  class SelectionPrompt {
    const items: seq<Choice>
    const bounds: Bounds
    const loop: bool
    var active: nat
    var status: Status
    var ignoreInput: bool
    var delayTimerPending: bool
    var searchTimerPending: bool
    var answer: Option<Value>

    function Config(): Settings {
      Settings(items, bounds, loop)
    }

    function Snapshot(): State
      reads this
    {
      State(active, status, ignoreInput, delayTimerPending, searchTimerPending, answer)
    }

    predicate Valid()
      reads this
    {
      Inv(Config(), Snapshot())
    }

    /** A prompt on `items`, idle or, when `gated`, loading with input locked behind the delay timer. */
    constructor (items: seq<Choice>, bounds: Bounds, loop: bool, active: nat, gated: bool)
      requires IsBounds(items, bounds) && active < |items| && IsSelectable(items[active])
      ensures Valid()
      ensures this.items == items && this.bounds == bounds && this.loop == loop
      ensures Snapshot() == State(active, if gated then Loading else Idle, gated, gated, false, None)
    {
      this.items := items;
      this.bounds := bounds;
      this.loop := loop;
      this.active := active;
      this.status := if gated then Loading else Idle;
      this.ignoreInput := gated;
      this.delayTimerPending := gated;
      this.searchTimerPending := false;
      this.answer := None;
    }

    /** The `useKeypress` handler. Once done the prompt no longer listens. */
    method HandleKey(key: Key)
      requires Valid()
      modifies this
      ensures Valid()
      ensures Snapshot() == Transition(Config(), old(Snapshot()), KeyPress(key))
    {
      if status == Done {
        return;
      }
      searchTimerPending := false;
      if ignoreInput {
        return;
      }
      match key {
        case Enter =>
          status := Done;
          answer := Some(items[active].value);
        case Arrow(d) =>
          if MayMove(bounds, loop, active, d) {
            var next := NextIndex(items, bounds, active, d);
            active := next;
          }
        case NumberKey(digit) =>
          var position := digit - 1;
          if 0 <= position < |items| && IsSelectable(items[position]) {
            active := position;
          }
        case Backspace =>
        case Other(line) =>
          var matchIndex := SearchMatch(items, line);
          if matchIndex != -1 {
            active := matchIndex;
          }
          searchTimerPending := true;
      }
    }

    /** The delay timer fires: input is accepted from now on. */
    method DelayElapsed()
      requires Valid()
      modifies this
      ensures Valid()
      ensures Snapshot() == Transition(Config(), old(Snapshot()), Event.DelayElapsed)
    {
      if status != Done && delayTimerPending {
        delayTimerPending := false;
        ignoreInput := false;
        status := Idle;
      }
    }

    /** The search timer fires and clears the line, which the model does not keep. */
    method SearchCleared()
      requires Valid()
      modifies this
      ensures Valid()
      ensures Snapshot() == Transition(Config(), old(Snapshot()), Event.SearchCleared)
    {
      if status != Done {
        searchTimerPending := false;
      }
    }

    method Dispatch(e: Event)
      requires Valid()
      modifies this
      ensures Valid()
      ensures Snapshot() == Transition(Config(), old(Snapshot()), e)
    {
      match e {
        case KeyPress(k) => HandleKey(k);
        case DelayElapsed => DelayElapsed();
        case SearchCleared => SearchCleared();
      }
    }
  }

  /** Feeds `events` to `p` in order. */
  method Feed(p: SelectionPrompt, events: seq<Event>)
    requires p.Valid()
    modifies p
    ensures p.Valid()
    ensures p.Snapshot() == Run(p.Config(), old(p.Snapshot()), events)
  {
    ghost var start := p.Snapshot();
    for i := 0 to |events|
      invariant p.Valid()
      invariant p.Snapshot() == Run(p.Config(), start, events[..i])
    {
      assert events[..i + 1][..i] == events[..i];
      p.Dispatch(events[i]);
    }
    assert events[..|events|] == events;
  }

  // ------------------------------------------------------------- rendering

  datatype HelpMode = Always | Auto | Never

  /** Whether row `index` gets the "(Use arrow keys)" hint. */
  function ShowsArrowHint(index: nat, mode: HelpMode, firstRender: bool): (r: bool)
    ensures r ==> index == 0
    ensures r <==> index == 0 && (mode == Always || (mode == Auto && firstRender))
  {
    index == 0 && (mode == Always || (mode == Auto && firstRender))
  }

  /** The label after a disabled entry: the `disabled` text itself when it is a string. */
  function DisabledLabel(disabled: Value): (r: string)
    ensures disabled.Str? ==> r == disabled.s
    ensures !disabled.Str? ==> r == "(disabled)"
  {
    if disabled.Str? then disabled.s else "(disabled)"
  }
}
