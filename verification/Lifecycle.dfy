/**
 Connection lifecycle.  Every successful dial makes a new generation with its own done channel;
 generation 0 is the placeholder before the first Connect.  Here Connect, Close and
 markDisconnected are single steps; `Races` takes them apart.
 */
module Lifecycle {

  /** `closed` are the generations whose done is closed, `byClose` those that Close tore down,
      `fired` the generations OnDisconnect was called for, in order. */
  datatype State = State(
    connected: bool,
    current: nat,
    closed: set<nat>,
    byClose: set<nat>,
    fired: seq<nat>)

  const INITIAL: State := State(false, 0, {}, {}, [])

  function Connect(s: State, dialed: bool): (s': State) {
    if s.connected || !dialed then s else s.(connected := true, current := s.current + 1)
  }

  function Close(s: State): (s': State) {
    if s.current == 0 then s.(connected := false)
    else
      s.(connected := false,
         closed := s.closed + {s.current},
         byClose := if s.current in s.closed then s.byClose else s.byClose + {s.current})
  }

  function Mark(s: State, done: nat): (s': State) {
    if done != s.current || !s.connected then s
    else s.(connected := false, closed := s.closed + {done}, fired := s.fired + [done])
  }

  datatype Step = ConnectStep(dialed: bool) | CloseStep | MarkStep(done: nat)

  function Do(s: State, step: Step): (s': State) {
    match step
    case ConnectStep(dialed) => Connect(s, dialed)
    case CloseStep => Close(s)
    case MarkStep(done) => Mark(s, done)
  }

  function Run(s: State, steps: seq<Step>): (s': State)
    decreases |steps|
  {
    if steps == [] then s else Run(Do(s, steps[0]), steps[1..])
  }

  ghost predicate Inv(s: State) {
    && (s.connected ==> 1 <= s.current && s.current !in s.closed)
    && (!s.connected ==> s.current == 0 || s.current in s.closed)
    && (forall g :: 1 <= g < s.current ==> g in s.closed)
    && (forall g :: g in s.closed ==> 1 <= g <= s.current)
    && s.byClose <= s.closed
    && (forall i :: 0 <= i < |s.fired| ==> s.fired[i] in s.closed && s.fired[i] !in s.byClose)
    && (forall i, j :: 0 <= i < j < |s.fired| ==> s.fired[i] < s.fired[j])
  }

  lemma StepKeepsInv(s: State, step: Step)
    requires Inv(s)
    ensures Inv(Do(s, step))
  {
    if step.MarkStep? && step.done == s.current && s.connected {
      forall i | 0 <= i < |s.fired|
        ensures s.fired[i] < s.current
      {
        assert s.fired[i] in s.closed;
      }
    }
  }

  lemma {:induction false} RunKeepsInv(s: State, steps: seq<Step>)
    requires Inv(s)
    ensures Inv(Run(s, steps))
    decreases |steps|
  {
    if steps != [] {
      StepKeepsInv(s, steps[0]);
      RunKeepsInv(Do(s, steps[0]), steps[1..]);
    }
  }

  /**
   What the connection promises: the current done is open while connected and closed while not,
   every earlier one is closed; OnDisconnect has fired at most once per generation, and never for
   a generation Close tore down.
   */
  ghost predicate Safe(s: State) {
    && (s.connected ==> s.current !in s.closed)
    && (!s.connected ==> s.current == 0 || s.current in s.closed)
    && (forall g :: 1 <= g < s.current ==> g in s.closed)
    && (forall i, j :: 0 <= i < j < |s.fired| ==> s.fired[i] != s.fired[j])
    && (forall i :: 0 <= i < |s.fired| ==> s.fired[i] !in s.byClose)
  }

  /** Every run of whole operations keeps every promise. */
  lemma LifecycleIsSafe(steps: seq<Step>)
    ensures Safe(Run(INITIAL, steps))
  {
    RunKeepsInv(INITIAL, steps);
  }

  /** The steps without the reports of the given generations. */
  function Without(steps: seq<Step>, gens: set<nat>): (kept: seq<Step>) {
    if steps == [] then []
    else if steps[0].MarkStep? && steps[0].done in gens then Without(steps[1..], gens)
    else [steps[0]] + Without(steps[1..], gens)
  }

  /** Once a generation is torn down, by a report, by Close or by both, every further report of it
      could as well not have happened, whatever else goes on meanwhile. */
  lemma {:induction false} ReportsOfClosedAreIgnored(s: State, steps: seq<Step>, gens: set<nat>)
    requires Inv(s) && gens <= s.closed
    ensures Run(s, steps) == Run(s, Without(steps, gens))
    decreases |steps|
  {
    if steps != [] {
      StepKeepsInv(s, steps[0]);
      ReportsOfClosedAreIgnored(Do(s, steps[0]), steps[1..], gens);
      if !(steps[0].MarkStep? && steps[0].done in gens) {
        assert Without(steps, gens)[1..] == Without(steps[1..], gens);
      }
    }
  }

  /** In every run the reports of generations already replaced or torn down change nothing. */
  lemma StaleReportsChangeNothing(before: seq<Step>, after: seq<Step>)
    ensures var s := Run(INITIAL, before);
            && Run(s, after) == Run(s, Without(after, s.closed))
            && (forall g :: 1 <= g < s.current ==> g in s.closed)
  {
    RunKeepsInv(INITIAL, before);
    var s := Run(INITIAL, before);
    ReportsOfClosedAreIgnored(s, after, s.closed);
  }

  class Socket {
    var connected: bool
    var done: nat
    ghost var closed: set<nat>
    ghost var byClose: set<nat>
    ghost var fired: seq<nat>

    ghost function Abs(): (s: State)
      reads this
    {
      State(connected, done, closed, byClose, fired)
    }

    constructor ()
      ensures Abs() == INITIAL
    {
      connected, done, closed, byClose, fired := false, 0, {}, {}, [];
    }

    method Connect(dialed: bool) returns (ok: bool)
      modifies this
      ensures Abs() == Do(old(Abs()), ConnectStep(dialed))
      ensures ok <==> old(connected) || dialed
    {
      if connected {
        return true;
      }
      if !dialed {
        return false;
      }
      done := done + 1;
      connected := true;
      return true;
    }

    method Close()
      modifies this
      ensures Abs() == Do(old(Abs()), CloseStep)
    {
      connected := false;
      if done != 0 {
        byClose := if done in closed then byClose else byClose + {done};
        closed := closed + {done};
      }
    }

    method MarkDisconnected(callerDone: nat) returns (notified: bool)
      modifies this
      ensures Abs() == Do(old(Abs()), MarkStep(callerDone))
      ensures notified <==> callerDone == old(done) && old(connected)
    {
      if done != callerDone {
        return false;
      }
      var was := connected;
      connected := false;
      if !was {
        return false;
      }
      closed := closed + {callerDone};
      fired := fired + [callerDone];
      return true;
    }
  }
}
