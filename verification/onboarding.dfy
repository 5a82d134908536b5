/** The onboarding tour: three steps, "Next" until the last one, then
    "Finish"; "Skip Tour" at any point. Navigation is returned as the path
    the view moves to. */
module Onboarding {
  import opened Js

  /** Number of entries in the tour's step list. */
  const StepCount := 3

  datatype Tour = Tour(step: nat, isSkipped: bool)

  const InitialTour := Tour(0, false)

  /** The tour's state is always a valid index into the step list. */
  predicate Valid(t: Tour) {
    t.step < StepCount
  }

  datatype Button = Next | Finish | Skip

  /** The primary button: "Next" before the last step, "Finish" on it. */
  function PrimaryButton(t: Tour): (b: Button)
    ensures b == Next <==> t.step < StepCount - 1
    ensures b != Next ==> b == Finish
  {
    if t.step < StepCount - 1 then Next else Finish
  }

  /** `nextStep`, `finishTour` and `skipTour`: the new state and the path
      navigated to, if any. */
  function Press(t: Tour, b: Button): (r: (Tour, Option<string>))
    ensures b == Next && t.step < StepCount - 1 ==> r == (t.(step := t.step + 1), None)
    ensures b == Next && t.step >= StepCount - 1 ==> r == (t, Some("/dashboard"))
    ensures b == Finish ==> r == (t, Some("/dashboard"))
    ensures b == Skip ==> r == (t.(isSkipped := true), Some("/dashboard"))
  {
    match b
    case Next => if t.step < StepCount - 1 then (t.(step := t.step + 1), None) else (t, Some("/dashboard"))
    case Finish => (t, Some("/dashboard"))
    case Skip => (t.(isSkipped := true), Some("/dashboard"))
  }

  /** Any sequence of button presses from the start. */
  function Run(t: Tour, presses: seq<Button>): Tour
    decreases |presses|
  {
    if presses == [] then t else Run(Press(t, presses[0]).0, presses[1..])
  }

  /** The step never leaves the list, whatever is pressed. */
  lemma {:induction false} RunStaysValid(t: Tour, presses: seq<Button>)
    requires Valid(t)
    ensures Valid(Run(t, presses))
    ensures Run(t, presses).step >= t.step
    decreases |presses|
  {
    if presses != [] {
      RunStaysValid(Press(t, presses[0]).0, presses[1..]);
    }
  }

  lemma ReachableValid(presses: seq<Button>)
    ensures Valid(Run(InitialTour, presses))
  {
    RunStaysValid(InitialTour, presses);
  }

  /** Pressing the button on show moves one step forward, or leaves for the
      dashboard on the last step. */
  lemma PrimaryButtonAdvances(t: Tour)
    requires Valid(t)
    ensures var r := Press(t, PrimaryButton(t));
      (t.step < StepCount - 1 && r.0.step == t.step + 1 && r.1.None?)
      || (t.step == StepCount - 1 && r.0 == t && r.1 == Some("/dashboard"))
  {
  }
}
