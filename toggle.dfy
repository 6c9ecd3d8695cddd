/**
 * The boolean state behind `useToggle` (app/hooks/useToggle.ts): a flag
 * with three updaters, `open`, `close` and `toggle`.
 */
module Toggle {
  datatype ToggleAction = Open | Close | Flip

  /** The state after one updater; `setIsOpen(true)`, `setIsOpen(false)`, `setIsOpen(prev => !prev)`. */
  function Step(isOpen: bool, action: ToggleAction): (r: bool)
    ensures action == Open ==> r
    ensures action == Close ==> !r
    ensures action == Flip ==> r != isOpen
  {
    match action
    case Open => true
    case Close => false
    case Flip => !isOpen
  }

  /** The state after a sequence of updaters, applied in order. */
  function Run(isOpen: bool, actions: seq<ToggleAction>): bool
    decreases |actions|
  {
    if actions == [] then isOpen else Run(Step(isOpen, actions[0]), actions[1..])
  }


  /** Number of `toggle` calls in a sequence. */
  function Flips(actions: seq<ToggleAction>): (n: nat)
    ensures n <= |actions|
  {
    if actions == [] then 0
    else (if actions[0] == Flip then 1 else 0) + Flips(actions[1..])
  }

  class ToggleState {
    var isOpen: bool

    /** `useToggle(initialValue = false)` */
    constructor (initialValue: bool := false)
      ensures isOpen == initialValue
    {
      isOpen := initialValue;
    }

    method Open()
      modifies this
      ensures isOpen == Step(old(isOpen), ToggleAction.Open)
    {
      isOpen := true;
    }

    method Close()
      modifies this
      ensures isOpen == Step(old(isOpen), ToggleAction.Close)
    {
      isOpen := false;
    }

    method Toggle()
      modifies this
      ensures isOpen == Step(old(isOpen), Flip)
    {
      isOpen := !isOpen;
    }
  }

  /** Toggling twice restores the state. */
  lemma ToggleTwice(isOpen: bool)
    ensures Run(isOpen, [Flip, Flip]) == isOpen
  {
    assert [Flip, Flip][1..] == [Flip] && [Flip][1..] == [];
    assert Run(isOpen, [Flip, Flip]) == Run(!isOpen, [Flip]) == Run(isOpen, []);
  }

  /** `open` and `close` are idempotent, and the later of the two wins. */
  lemma OpenCloseSettle(isOpen: bool, a: ToggleAction)
    requires a != Flip
    ensures Step(Step(isOpen, a), a) == Step(isOpen, a)
    ensures Step(Step(isOpen, Open), Close) == false && Step(Step(isOpen, Close), Open) == true
  {
  }

  /** Without `open` or `close`, the state only depends on the parity of the toggles. */
  lemma {:induction false} RunFlipsParity(isOpen: bool, actions: seq<ToggleAction>)
    requires forall i :: 0 <= i < |actions| ==> actions[i] == Flip
    ensures Run(isOpen, actions) == (if Flips(actions) % 2 == 0 then isOpen else !isOpen)
    decreases |actions|
  {
    if actions != [] {
      RunFlipsParity(!isOpen, actions[1..]);
    }
  }

  /** After the last `open` or `close`, earlier history no longer matters. */
  lemma {:induction false} RunForgetsBeforeSet(isOpen: bool, before: seq<ToggleAction>, a: ToggleAction, after: seq<ToggleAction>)
    requires a != Flip
    ensures Run(isOpen, before + [a] + after) == Run(a == Open, after)
    decreases |before|
  {
    if before == [] {
      assert before + [a] + after == [a] + after;
      assert ([a] + after)[1..] == after;
    } else {
      assert (before + [a] + after)[0] == before[0];
      assert (before + [a] + after)[1..] == before[1..] + [a] + after;
      RunForgetsBeforeSet(Step(isOpen, before[0]), before[1..], a, after);
    }
  }
}
