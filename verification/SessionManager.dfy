/** Session rotation: a guard decides when a session ends, and the rotation it guards must not panic. */
module SessionManager {
  import opened Common

  datatype Committee = Committee(epoch: nat, members: seq<nat>)

  /** The sidechain epoch, the active committee, the one set for the next epoch, and all that were installed. */
  datatype State = State(epoch: nat, active: Committee, next: Option<Committee>, installed: seq<Committee>)

  predicate ShouldEndSession(s: State) {
    s.epoch > s.active.epoch && s.next.Some?
  }

  /** Rotation to the next committee; `None` is the panic of its caller. */
  function NewSession(s: State): (r: Option<State>) {
    match s.next
    case None => None
    case Some(c) => Some(s.(active := c, next := None, installed := s.installed + [c]))
  }

  datatype Step = EpochsPass(n: nat) | CommitteeSet(members: seq<nat>) | BlockStarts

  /** A committee is set for the epoch after the active one, once; a block start rotates if the guard says so. */
  function Next(s: State, step: Step): (r: Option<State>) {
    match step
    case EpochsPass(n) => Some(s.(epoch := s.epoch + n))
    case CommitteeSet(members) =>
      Some(if s.next.Some? then s else s.(next := Some(Committee(s.active.epoch + 1, members))))
    case BlockStarts => if ShouldEndSession(s) then NewSession(s) else Some(s)
  }

  /** A whole run; `None` if any rotation panicked. */
  function Execute(s: State, steps: seq<Step>): (r: Option<State>)
    decreases |steps|
  {
    if steps == [] then Some(s)
    else match Next(s, steps[0])
      case None => None
      case Some(t) => Execute(t, steps[1..])
  }

  /** The installed committees follow one another epoch by epoch, and the last of them is active. */
  ghost predicate Valid(s: State) {
    && s.active.epoch <= s.epoch
    && (s.next.Some? ==> s.next.value.epoch == s.active.epoch + 1)
    && s.installed != [] && s.installed[|s.installed| - 1] == s.active
    && forall i :: 0 <= i < |s.installed| ==> s.installed[i].epoch == s.installed[0].epoch + i
  }

  /**
   A block start with a later epoch and a next committee rotates to exactly that committee; any other
   changes nothing.
   */
  lemma RotatesWhenDue(s: State)
    ensures var s' := Next(s, BlockStarts);
            if s.epoch > s.active.epoch && s.next.Some? then
              s'.Some? && s'.value == State(s.epoch, s.next.value, None, s.installed + [s.next.value])
            else s' == Some(s)
  {
  }

  /**
   Every committee gets its turn: once it is set and its epoch has come, any run with a block start in
   it installs it, and as the very next one.
   */
  lemma {:induction false} NextCommitteeIsInstalled(s: State, steps: seq<Step>)
    requires Valid(s) && s.next.Some? && s.epoch > s.active.epoch && BlockStarts in steps
    ensures Execute(s, steps).Some? && s.installed + [s.next.value] <= Execute(s, steps).value.installed
    decreases |steps|
  {
    RotatesWhenDue(s);
    NextKeepsValid(s, steps[0]);
    var t := Next(s, steps[0]).value;
    if steps[0].BlockStarts? {
      NoRunPanics(t, steps[1..]);
    } else {
      assert steps == [steps[0]] + steps[1..];
      NextCommitteeIsInstalled(t, steps[1..]);
    }
  }

  lemma NextKeepsValid(s: State, step: Step)
    requires Valid(s)
    ensures Next(s, step).Some? && Valid(Next(s, step).value)
    ensures s.installed <= Next(s, step).value.installed
  {
  }

  /**
   In every run the installed epochs have neither gap nor repetition, no installed committee is
   replaced, and the active one is never ahead of the epoch.  That the rotation never panics is the
   guard's doing.
   */
  lemma {:induction false} NoRunPanics(s: State, steps: seq<Step>)
    requires Valid(s)
    ensures Execute(s, steps).Some? && Valid(Execute(s, steps).value)
    ensures s.installed <= Execute(s, steps).value.installed
    decreases |steps|
  {
    if steps != [] {
      NextKeepsValid(s, steps[0]);
      NoRunPanics(Next(s, steps[0]).value, steps[1..]);
    }
  }
}
