/**
 The connection lifecycle taken apart: the generation check and the swap in markDisconnected, the
 publishing and the flag in Connect, and the flag and the close in Close are separate steps of
 concurrent threads.
 */
module Races {
  import Lifecycle

  /** Where a thread is inside an operation; `ticket` numbers the Connect whose flag a swap consumed,
      `nextAtStore` and `nextAtCheck` the next generation when Close or a report began. */
  datatype Thread =
    | Dialing
    | Published(gen: nat)
    | Closing(nextAtStore: nat)
    | ClosingGen(gen: nat)
    | Marking(gen: nat, nextAtCheck: nat)
    | Swapped(gen: nat, ticket: nat)
    | Firing(gen: nat, ticket: nat)

  /** `connects` counts the Connects that set the flag, `closes` how often each done was closed,
      `byClose` are the generations Close tore down, `tickets` the Connects consumed by the
      OnDisconnect calls made, `fired` their generations. */
  datatype State = State(
    connected: bool,
    current: nat,
    nextGen: nat,
    connects: nat,
    closes: multiset<nat>,
    byClose: set<nat>,
    tickets: seq<nat>,
    fired: seq<nat>,
    threads: map<int, Thread>)

  const INITIAL: State := State(false, 0, 1, 0, multiset{}, {}, [], [], map[])

  datatype Step =
    | ConnectCheck(t: int)
    | ConnectFails(t: int)
    | ConnectPublish(t: int)
    | ConnectStore(t: int)
    | CloseStore(t: int)
    | CloseRead(t: int)
    | CloseFinish(t: int)
    | MarkCheck(t: int, done: nat)
    | MarkSwap(t: int)
    | MarkClose(t: int)
    | MarkFire(t: int)

  predicate Enabled(s: State, step: Step) {
    match step
    case ConnectCheck(t) => t !in s.threads
    case ConnectFails(t) => t in s.threads && s.threads[t].Dialing?
    case ConnectPublish(t) => t in s.threads && s.threads[t].Dialing?
    case ConnectStore(t) => t in s.threads && s.threads[t].Published?
    case CloseStore(t) => t !in s.threads
    case CloseRead(t) => t in s.threads && s.threads[t].Closing?
    case CloseFinish(t) => t in s.threads && s.threads[t].ClosingGen?
    case MarkCheck(t, done) => t !in s.threads && 1 <= done < s.nextGen
    case MarkSwap(t) => t in s.threads && s.threads[t].Marking?
    case MarkClose(t) => t in s.threads && s.threads[t].Swapped?
    case MarkFire(t) => t in s.threads && s.threads[t].Firing?
  }

  /** Closing through sync.Once: only the first call closes. */
  function CloseOnce(closes: multiset<nat>, gen: nat): (closes': multiset<nat>) {
    if gen in closes then closes else closes + multiset{gen}
  }

  function Goto(s: State, t: int, th: Thread): (s': State) {
    s.(threads := s.threads[t := th])
  }

  function End(s: State, t: int): (s': State) {
    s.(threads := s.threads - {t})
  }

  function Do(s: State, step: Step): (s': State)
    requires Enabled(s, step)
  {
    match step
    case ConnectCheck(t) => if s.connected then s else Goto(s, t, Dialing)
    case ConnectFails(t) => End(s, t)
    case ConnectPublish(t) => Goto(s, t, Published(s.nextGen)).(current := s.nextGen, nextGen := s.nextGen + 1)
    case ConnectStore(t) => End(s, t).(connected := true, connects := s.connects + 1)
    case CloseStore(t) => Goto(s, t, Closing(s.nextGen)).(connected := false)
    case CloseRead(t) => Goto(s, t, ClosingGen(s.current))
    case CloseFinish(t) =>
      var g := s.threads[t].gen;
      if g == 0 then End(s, t)
      else
        End(s, t).(closes := CloseOnce(s.closes, g),
                   byClose := if g in s.closes then s.byClose else s.byClose + {g})
    case MarkCheck(t, done) => if s.current != done then s else Goto(s, t, Marking(done, s.nextGen))
    case MarkSwap(t) =>
      if s.connected then Goto(s, t, Swapped(s.threads[t].gen, s.connects)).(connected := false) else End(s, t)
    case MarkClose(t) =>
      var th := s.threads[t];
      Goto(s, t, Firing(th.gen, th.ticket)).(closes := CloseOnce(s.closes, th.gen))
    case MarkFire(t) =>
      var th := s.threads[t];
      End(s, t).(tickets := s.tickets + [th.ticket], fired := s.fired + [th.gen])
  }

  // --------------------------------------------------------------------- invariant

  predicate HasTicket(th: Thread) {
    th.Swapped? || th.Firing?
  }

  /** A ticket a swap has already consumed: never the one of the Connect whose flag is up. */
  predicate Spent(s: State, ticket: nat) {
    ticket <= s.connects && (s.connected ==> ticket < s.connects)
  }

  /** Every swap that found the flag set consumed a different Connect. */
  ghost predicate TicketsOk(s: State) {
    && (forall i :: 0 <= i < |s.tickets| ==> 1 <= s.tickets[i] && Spent(s, s.tickets[i]))
    && (forall i, j :: 0 <= i < j < |s.tickets| ==> s.tickets[i] != s.tickets[j])
    && (forall t :: t in s.threads && HasTicket(s.threads[t]) ==>
          && 1 <= s.threads[t].ticket && Spent(s, s.threads[t].ticket)
          && s.threads[t].ticket !in s.tickets)
    && (forall t, u :: t in s.threads && u in s.threads && t != u && HasTicket(s.threads[t]) && HasTicket(s.threads[u]) ==>
          s.threads[t].ticket != s.threads[u].ticket)
    && (s.connected ==> s.connects >= 1)
    && |s.tickets| == |s.fired|
  }

  ghost predicate ClosesOk(s: State) {
    forall g :: s.closes[g] <= 1
  }

  /** A pending swap is aimed at the generation that was current at its check, a Close at none later than its store. */
  ghost predicate AimsOk(s: State) {
    && s.nextGen == s.current + 1
    && (forall t :: t in s.threads && s.threads[t].Marking? ==>
          s.threads[t].nextAtCheck == s.threads[t].gen + 1 <= s.nextGen)
    && (forall t :: t in s.threads && s.threads[t].Closing? ==> s.threads[t].nextAtStore <= s.nextGen)
  }

  predicate HasGen(th: Thread) {
    th.Published? || th.ClosingGen? || th.Marking? || th.Swapped? || th.Firing?
  }

  /** Only generations that were published are closed or worked on. */
  ghost predicate GensOk(s: State) {
    && (forall g :: g in s.closes ==> g < s.nextGen)
    && (forall t :: t in s.threads && HasGen(s.threads[t]) ==> s.threads[t].gen < s.nextGen)
  }

  /** What was reported or torn down by Close has its done closed. */
  ghost predicate ReportsOk(s: State) {
    && (forall i :: 0 <= i < |s.fired| ==> s.fired[i] in s.closes)
    && (forall t :: t in s.threads && s.threads[t].Firing? ==> s.threads[t].gen in s.closes)
    && (forall g :: g in s.byClose ==> g in s.closes)
  }

  ghost predicate Inv(s: State) {
    TicketsOk(s) && ClosesOk(s) && AimsOk(s) && GensOk(s) && ReportsOk(s)
  }

  lemma SwapKeepsTickets(s: State, t: int)
    requires Inv(s) && Enabled(s, MarkSwap(t))
    ensures TicketsOk(Do(s, MarkSwap(t)))
  {
    hide ClosesOk, AimsOk, GensOk, ReportsOk;
  }

  lemma FireKeepsTickets(s: State, t: int)
    requires Inv(s) && Enabled(s, MarkFire(t))
    ensures TicketsOk(Do(s, MarkFire(t)))
  {
    hide ClosesOk, AimsOk, GensOk, ReportsOk;
  }

  lemma QuietKeepsTickets(s: State, step: Step)
    requires Inv(s) && Enabled(s, step)
    requires !step.MarkSwap? && !step.MarkFire? && !step.MarkClose? && !step.ConnectStore?
    ensures TicketsOk(Do(s, step))
  {
    hide ClosesOk, AimsOk, GensOk, ReportsOk;
    var s' := Do(s, step);
    assert forall t :: t in s'.threads && HasTicket(s'.threads[t]) ==> t in s.threads && s'.threads[t] == s.threads[t];
  }

  lemma StoreKeepsTickets(s: State, t: int)
    requires Inv(s) && Enabled(s, ConnectStore(t))
    ensures TicketsOk(Do(s, ConnectStore(t)))
  {
    hide ClosesOk, AimsOk, GensOk, ReportsOk;
  }

  lemma MarkCloseKeepsTickets(s: State, t: int)
    requires Inv(s) && Enabled(s, MarkClose(t))
    ensures TicketsOk(Do(s, MarkClose(t)))
  {
    hide ClosesOk, AimsOk, GensOk, ReportsOk;
  }

  lemma StepKeepsTickets(s: State, step: Step)
    requires Inv(s) && Enabled(s, step)
    ensures TicketsOk(Do(s, step))
  {
    hide ClosesOk, AimsOk, GensOk, ReportsOk, TicketsOk, Do, Enabled;
    match step
    case MarkSwap(t) => SwapKeepsTickets(s, t);
    case MarkFire(t) => FireKeepsTickets(s, t);
    case MarkClose(t) => MarkCloseKeepsTickets(s, t);
    case ConnectStore(t) => StoreKeepsTickets(s, t);
    case _ => QuietKeepsTickets(s, step);
  }

  lemma StepKeepsAims(s: State, step: Step)
    requires Inv(s) && Enabled(s, step)
    ensures AimsOk(Do(s, step))
  {
    hide TicketsOk, ClosesOk, ReportsOk;
  }

  lemma StepKeepsGens(s: State, step: Step)
    requires Inv(s) && Enabled(s, step)
    ensures GensOk(Do(s, step))
  {
    hide TicketsOk, ClosesOk, ReportsOk;
  }

  lemma StepKeepsReports(s: State, step: Step)
    requires Inv(s) && Enabled(s, step)
    ensures ReportsOk(Do(s, step))
  {
    hide TicketsOk, ClosesOk, AimsOk, GensOk;
  }

  lemma StepKeepsInv(s: State, step: Step)
    requires Inv(s) && Enabled(s, step)
    ensures Inv(Do(s, step))
  {
    StepKeepsTickets(s, step);
    StepKeepsAims(s, step);
    StepKeepsGens(s, step);
    StepKeepsReports(s, step);
  }

  // -------------------------------------------------------------------------- runs

  ghost predicate Legal(s: State, steps: seq<Step>)
    decreases |steps|
  {
    steps == [] || (Enabled(s, steps[0]) && Legal(Do(s, steps[0]), steps[1..]))
  }

  function Run(s: State, steps: seq<Step>): (s': State)
    requires Legal(s, steps)
    decreases |steps|
  {
    if steps == [] then s else Run(Do(s, steps[0]), steps[1..])
  }

  lemma {:induction false} RunKeepsInv(s: State, steps: seq<Step>)
    requires Inv(s) && Legal(s, steps)
    ensures Inv(Run(s, steps))
    decreases |steps|
  {
    hide Do, Enabled, Inv;
    if steps != [] {
      StepKeepsInv(s, steps[0]);
      RunKeepsInv(Do(s, steps[0]), steps[1..]);
    }
  }

  lemma InitialIsInv()
    ensures Inv(INITIAL)
  {
  }

  /** Distinct numbers between 1 and n are at most n. */
  lemma {:induction false} Pigeonhole(s: seq<nat>, n: nat)
    requires forall i :: 0 <= i < |s| ==> 1 <= s[i] <= n
    requires forall i, j :: 0 <= i < j < |s| ==> s[i] != s[j]
    ensures |s| <= n
    decreases n
  {
    if s != [] {
      assert 1 <= s[0] <= n;
      if k :| 0 <= k < |s| && s[k] == n {
        Pigeonhole(s[..k] + s[k + 1..], n - 1);
      } else {
        Pigeonhole(s, n - 1);
      }
    }
  }

  /** In every interleaving OnDisconnect was called no more often than Connects set the flag, each call
      consuming a different one, and every done is closed at most once. */
  lemma InterleavingsAreSafe(steps: seq<Step>)
    requires Legal(INITIAL, steps)
    ensures var s := Run(INITIAL, steps);
            && |s.fired| <= s.connects
            && (forall g :: s.closes[g] <= 1)
  {
    hide Run, Legal, AimsOk, GensOk, ReportsOk;
    InitialIsInv();
    RunKeepsInv(INITIAL, steps);
    var s := Run(INITIAL, steps);
    Pigeonhole(s.tickets, s.connects);
  }

  // ----------------------------------------------- exactly when operations go wrong

  /** In every interleaving a report's swap takes down the flag of a generation it does not belong to
      exactly when the flag is up and a Connect published since the report's check. */
  lemma SwapHitsAnotherExactlyWhen(steps: seq<Step>, t: int)
    requires Legal(INITIAL, steps) && Enabled(Run(INITIAL, steps), MarkSwap(t))
    ensures var s := Run(INITIAL, steps);
            && (Do(s, MarkSwap(t)).connected != s.connected && s.current != s.threads[t].gen
                <==> s.connected && s.nextGen != s.threads[t].nextAtCheck)
  {
    hide Run, Legal, TicketsOk, ClosesOk, GensOk, ReportsOk;
    InitialIsInv();
    RunKeepsInv(INITIAL, steps);
  }

  /** In every interleaving the generation a Close goes on to tear down existed when it cleared the
      flag exactly when no Connect published in between. */
  lemma CloseHitsOlderExactlyWhen(steps: seq<Step>, t: int)
    requires Legal(INITIAL, steps) && Enabled(Run(INITIAL, steps), CloseRead(t))
    ensures var s := Run(INITIAL, steps);
            && (Do(s, CloseRead(t)).threads[t].gen < s.threads[t].nextAtStore
                <==> s.nextGen == s.threads[t].nextAtStore)
  {
    hide Run, Legal, TicketsOk, ClosesOk, GensOk, ReportsOk;
    InitialIsInv();
    RunKeepsInv(INITIAL, steps);
  }

  /** What the machine of whole operations promises of every state (`Lifecycle.Safe`), one by one. */
  datatype Promise =
    | OpenWhileUp
    | ClosedWhileDown
    | EarlierClosed
    | ReportedOnce
    | NotAfterClose

  /** The thread has still to raise the flag over the current done or to close it. */
  predicate WillSettle(s: State, th: Thread) {
    || th.Closing?
    || ((th.Published? || th.ClosingGen? || th.Swapped?) && th.gen == s.current)
  }

  ghost predicate Settling(s: State) {
    exists t :: t in s.threads && WillSettle(s, s.threads[t])
  }

  /** The generation was reported to OnDisconnect, or a report of it won its swap. */
  ghost predicate Reported(s: State, gen: nat) {
    || gen in s.fired
    || exists t :: t in s.threads && HasTicket(s.threads[t]) && s.threads[t].gen == gen
  }

  /** The promise in a state with operations under way: those that will still settle the current
      done are given their time, and reports under way count as made. */
  ghost predicate Holds(p: Promise, s: State) {
    match p
    case OpenWhileUp => s.connected ==> s.current !in s.closes
    case ClosedWhileDown => !s.connected && s.current != 0 && s.current !in s.closes ==> Settling(s)
    case EarlierClosed => forall g :: 1 <= g < s.current ==> g in s.closes
    case ReportedOnce =>
      && (forall i, j :: 0 <= i < j < |s.fired| ==> s.fired[i] != s.fired[j])
      && (forall t :: t in s.threads && HasTicket(s.threads[t]) ==> s.threads[t].gen !in s.fired)
      && (forall t, u :: t in s.threads && u in s.threads && t != u && HasTicket(s.threads[t]) && HasTicket(s.threads[u]) ==>
            s.threads[t].gen != s.threads[u].gen)
    case NotAfterClose =>
      && (forall i :: 0 <= i < |s.fired| ==> s.fired[i] !in s.byClose)
      && (forall t :: t in s.threads && s.threads[t].Firing? ==> s.threads[t].gen !in s.byClose)
  }

  /**
   The step that breaks a promise, seen before it is taken: closing the current done of a connected
   socket, or raising the flag over a closed one; a stale report taking the flag down with nobody
   left to close the done; publishing over a done that is open; a swap for a generation already
   reported; a report going through although Close closed its done first.
   */
  ghost predicate Breaks(p: Promise, s: State, step: Step)
    requires Enabled(s, step)
  {
    match step
    case ConnectPublish(t) => p.EarlierClosed? && s.current != 0 && s.current !in s.closes
    case ConnectStore(t) => p.OpenWhileUp? && s.current in s.closes
    case CloseFinish(t) => p.OpenWhileUp? && s.connected && s.current == s.threads[t].gen != 0
    case MarkSwap(t) =>
      && s.connected
      && ((p.ClosedWhileDown? && s.current != s.threads[t].gen && s.current !in s.closes && !Settling(s)) ||
          (p.ReportedOnce? && Reported(s, s.threads[t].gen)))
    case MarkClose(t) =>
      || (p.OpenWhileUp? && s.connected && s.current == s.threads[t].gen)
      || (p.NotAfterClose? && s.threads[t].gen in s.byClose)
    case _ => false
  }

  lemma OpenBreaksExactlyWhen(s: State, step: Step)
    requires Inv(s) && Enabled(s, step) && Holds(OpenWhileUp, s)
    ensures Holds(OpenWhileUp, Do(s, step)) <==> !Breaks(OpenWhileUp, s, step)
  {
    hide TicketsOk, ClosesOk, ReportsOk;
  }

  /** Whoever would settle the current done still will, unless the step itself is that, or is a
      publish, after which the publishing Connect will. */
  lemma SettlingStays(s: State, step: Step)
    requires Enabled(s, step) && Settling(s) && s.nextGen == s.current + 1
    requires !step.ConnectStore? && !step.CloseFinish? && !step.MarkClose?
    ensures Settling(Do(s, step))
  {
    var s' := Do(s, step);
    var t :| t in s.threads && WillSettle(s, s.threads[t]);
    var u := if step.ConnectPublish? then step.t else t;
    assert u in s'.threads && WillSettle(s', s'.threads[u]);
  }

  /** A step that ends with the flag down and the current done open leaves somebody to settle it. */
  lemma DownStaysSettling(s: State, step: Step)
    requires Inv(s) && Enabled(s, step) && Holds(ClosedWhileDown, s) && !Breaks(ClosedWhileDown, s, step)
    ensures Holds(ClosedWhileDown, Do(s, step))
  {
    hide TicketsOk, ClosesOk, ReportsOk;
    var s' := Do(s, step);
    if !s'.connected && s'.current != 0 && s'.current !in s'.closes {
      match step
      case ConnectPublish(t) => assert t in s'.threads && WillSettle(s', s'.threads[t]);
      case CloseStore(t) => assert t in s'.threads && WillSettle(s', s'.threads[t]);
      case CloseFinish(t) => FinishLeavesSettling(s, t);
      case MarkSwap(t) =>
        if s.connected && s.current == s.threads[t].gen {
          assert t in s'.threads && WillSettle(s', s'.threads[t]);
        } else {
          SettlingStays(s, step);
        }
      case MarkClose(t) =>
        var u :| u in s.threads && WillSettle(s, s.threads[u]);
        assert u in s'.threads && WillSettle(s', s'.threads[u]);
      case _ => SettlingStays(s, step);
    }
  }

  lemma FinishLeavesSettling(s: State, t: int)
    requires Inv(s) && Enabled(s, CloseFinish(t)) && Holds(ClosedWhileDown, s)
    ensures Holds(ClosedWhileDown, Do(s, CloseFinish(t)))
  {
    hide TicketsOk, ClosesOk, ReportsOk;
    var s' := Do(s, CloseFinish(t));
    if !s'.connected && s'.current != 0 && s'.current !in s'.closes {
      assert s.current !in s.closes && s.threads[t].gen != s.current;
      var u :| u in s.threads && WillSettle(s, s.threads[u]);
      assert u in s'.threads && WillSettle(s', s'.threads[u]);
    }
  }

  lemma DownBreaksExactlyWhen(s: State, step: Step)
    requires Inv(s) && Enabled(s, step) && Holds(ClosedWhileDown, s)
    ensures Holds(ClosedWhileDown, Do(s, step)) <==> !Breaks(ClosedWhileDown, s, step)
  {
    hide TicketsOk, ClosesOk, ReportsOk;
    if !Breaks(ClosedWhileDown, s, step) {
      DownStaysSettling(s, step);
    } else {
      var t, s' := step.t, Do(s, step);
      forall u | u in s'.threads
        ensures !WillSettle(s', s'.threads[u])
      {
        assert u != t ==> u in s.threads && s'.threads[u] == s.threads[u] && !WillSettle(s, s.threads[u]);
      }
    }
  }

  lemma EarlierBreaksExactlyWhen(s: State, step: Step)
    requires Inv(s) && Enabled(s, step) && Holds(EarlierClosed, s)
    ensures Holds(EarlierClosed, Do(s, step)) <==> !Breaks(EarlierClosed, s, step)
  {
    hide TicketsOk, ClosesOk, ReportsOk;
  }

  lemma SwapBreaksOnceExactlyWhen(s: State, t: int)
    requires Enabled(s, MarkSwap(t)) && s.connected && Holds(ReportedOnce, s)
    ensures Holds(ReportedOnce, Do(s, MarkSwap(t))) <==> !Reported(s, s.threads[t].gen)
  {
    var s' := Do(s, MarkSwap(t));
    assert t in s'.threads && HasTicket(s'.threads[t]);
    if Holds(ReportedOnce, s') && s.threads[t].gen !in s.fired {
      forall u | u in s.threads && HasTicket(s.threads[u])
        ensures s.threads[u].gen != s.threads[t].gen
      {
        assert u in s'.threads && s'.threads[u] == s.threads[u];
      }
    }
  }

  lemma FireKeepsOnce(s: State, t: int)
    requires Enabled(s, MarkFire(t)) && Holds(ReportedOnce, s)
    ensures Holds(ReportedOnce, Do(s, MarkFire(t)))
  {
    var s' := Do(s, MarkFire(t));
    assert HasTicket(s.threads[t]);
    assert forall i :: 0 <= i < |s.fired| ==> s.fired[i] in s.fired;
  }

  lemma QuietKeepsOnce(s: State, step: Step)
    requires Enabled(s, step) && Holds(ReportedOnce, s) && !step.MarkFire? && (step.MarkSwap? ==> !s.connected)
    ensures Holds(ReportedOnce, Do(s, step))
  {
    var s' := Do(s, step);
    assert forall t :: t in s'.threads && HasTicket(s'.threads[t]) ==>
                         t in s.threads && HasTicket(s.threads[t]) && s'.threads[t].gen == s.threads[t].gen;
  }

  lemma OnceBreaksExactlyWhen(s: State, step: Step)
    requires Inv(s) && Enabled(s, step) && Holds(ReportedOnce, s)
    ensures Holds(ReportedOnce, Do(s, step)) <==> !Breaks(ReportedOnce, s, step)
  {
    hide Inv, Holds, Do, Reported;
    if step.MarkSwap? && s.connected {
      SwapBreaksOnceExactlyWhen(s, step.t);
    } else if step.MarkFire? {
      FireKeepsOnce(s, step.t);
    } else {
      QuietKeepsOnce(s, step);
    }
  }

  lemma AfterCloseBreaksExactlyWhen(s: State, step: Step)
    requires Inv(s) && Enabled(s, step) && Holds(NotAfterClose, s)
    ensures Holds(NotAfterClose, Do(s, step)) <==> !Breaks(NotAfterClose, s, step)
  {
    hide TicketsOk, ClosesOk, AimsOk, GensOk;
    var s' := Do(s, step);
    match step
    case MarkClose(t) => assert t in s'.threads && s'.threads[t].Firing?;
    case MarkFire(t) => assert t in s.threads && s.threads[t].Firing?;
    case _ =>
  }

  lemma StepBreaksExactlyWhen(p: Promise, s: State, step: Step)
    requires Inv(s) && Enabled(s, step) && Holds(p, s)
    ensures Holds(p, Do(s, step)) <==> !Breaks(p, s, step)
  {
    hide Do, Enabled, Inv, Holds, Breaks;
    match p
    case OpenWhileUp => OpenBreaksExactlyWhen(s, step);
    case ClosedWhileDown => DownBreaksExactlyWhen(s, step);
    case EarlierClosed => EarlierBreaksExactlyWhen(s, step);
    case ReportedOnce => OnceBreaksExactlyWhen(s, step);
    case NotAfterClose => AfterCloseBreaksExactlyWhen(s, step);
  }

  /** Every state of the run keeps the promise. */
  ghost predicate AlwaysHolds(p: Promise, s: State, steps: seq<Step>)
    requires Legal(s, steps)
    decreases |steps|
  {
    Holds(p, s) && (steps != [] ==> AlwaysHolds(p, Do(s, steps[0]), steps[1..]))
  }

  ghost predicate NeverBreaks(p: Promise, s: State, steps: seq<Step>)
    requires Legal(s, steps)
    decreases |steps|
  {
    steps != [] ==> !Breaks(p, s, steps[0]) && NeverBreaks(p, Do(s, steps[0]), steps[1..])
  }

  lemma {:induction false} RunBreaksExactlyWhen(p: Promise, s: State, steps: seq<Step>)
    requires Inv(s) && Legal(s, steps) && Holds(p, s)
    ensures AlwaysHolds(p, s, steps) <==> NeverBreaks(p, s, steps)
    decreases |steps|
  {
    hide Do, Enabled, Inv, Holds, Breaks;
    if steps != [] {
      StepKeepsInv(s, steps[0]);
      StepBreaksExactlyWhen(p, s, steps[0]);
      if Holds(p, Do(s, steps[0])) {
        RunBreaksExactlyWhen(p, Do(s, steps[0]), steps[1..]);
      }
    }
  }

  /** In every interleaving each promise holds throughout exactly when no step breaks it. */
  lemma PromiseHoldsExactlyWhen(p: Promise, steps: seq<Step>)
    requires Legal(INITIAL, steps)
    ensures AlwaysHolds(p, INITIAL, steps) <==> NeverBreaks(p, INITIAL, steps)
  {
    hide Inv, Breaks;
    InitialIsInv();
    RunBreaksExactlyWhen(p, INITIAL, steps);
  }

  // ------------------------------------------------------------ runs that go wrong

  /** A report for generation 1 that passed its check while generation 1 was up. */
  const LATE_MARK: Thread := Marking(1, 2)

  /** A state before any report went through: all dones closed were closed by Close. */
  function Shot(up: bool, current: nat, connects: nat, torn: set<nat>, threads: map<int, Thread>): (s: State) {
    State(up, current, current + 1, connects, multiset(torn), torn, [], [], threads)
  }

  const LATE_END: State := State(false, 2, 3, 2, multiset{1}, {1}, [2], [1], map[])

  /** After a Close and a reconnect the pending report takes down generation 2. */
  lemma LateSwap() returns (steps: seq<Step>)
    ensures var s := Shot(false, 1, 1, {1}, map[1 := LATE_MARK]);
            && Legal(s, steps)
            && Run(s, steps) == LATE_END
  {
    hide Run, Legal;
    var s0 := Shot(false, 1, 1, {1}, map[1 := LATE_MARK]);
    var s1 := Shot(false, 1, 1, {1}, map[1 := LATE_MARK, 0 := Dialing]);
    var s2 := Shot(false, 2, 1, {1}, map[1 := LATE_MARK, 0 := Published(2)]);
    var s3 := Shot(true, 2, 2, {1}, map[1 := LATE_MARK]);
    var s4 := Shot(false, 2, 2, {1}, map[1 := Swapped(1, 2)]);
    var s5 := Shot(false, 2, 2, {1}, map[1 := Firing(1, 2)]);
    steps := Prepend(s5, MarkFire(1), LATE_END, Done(LATE_END));
    steps := Prepend(s4, MarkClose(1), s5, steps);
    steps := Prepend(s3, MarkSwap(1), s4, steps);
    steps := Prepend(s2, ConnectStore(0), s3, steps);
    steps := Prepend(s1, ConnectPublish(0), s2, steps);
    steps := Prepend(s0, ConnectCheck(0), s1, steps);
  }

  /** The same from before the Close. */
  lemma CloseThenLateSwap() returns (steps: seq<Step>)
    ensures var s := Shot(true, 1, 1, {}, map[1 := LATE_MARK]);
            Legal(s, steps) && Run(s, steps) == LATE_END
  {
    hide Run, Legal;
    var s4 := Shot(true, 1, 1, {}, map[1 := LATE_MARK]);
    var s5 := Shot(false, 1, 1, {}, map[1 := LATE_MARK, 0 := Closing(2)]);
    var s6 := Shot(false, 1, 1, {}, map[1 := LATE_MARK, 0 := ClosingGen(1)]);
    var s7 := Shot(false, 1, 1, {1}, map[1 := LATE_MARK]);
    steps := LateSwap();
    steps := Prepend(s6, CloseFinish(0), s7, steps);
    steps := Prepend(s5, CloseRead(0), s6, steps);
    steps := Prepend(s4, CloseStore(0), s5, steps);
  }

  lemma LateEndFails()
    ensures !Holds(ClosedWhileDown, LATE_END) && !Holds(NotAfterClose, LATE_END)
  {
    assert LATE_END.fired[0] in LATE_END.byClose;
  }

  /**
   The check and the swap are not atomic: a report for generation 1 that passed its check before a
   Close and a reconnect takes down generation 2's flag, calls OnDisconnect for generation 1 although
   Close tore it down, and leaves generation 2's done open.
   */
  lemma StaleReportTakesDownReconnect() returns (steps: seq<Step>)
    ensures Legal(INITIAL, steps)
    ensures var s := Run(INITIAL, steps);
            && !s.connected && s.current == 2 && s.closes == multiset{1} && s.fired == [1] && s.threads == map[]
            && !Holds(ClosedWhileDown, s) && !Holds(NotAfterClose, s)
  {
    hide Run, Legal, Holds;
    var s1 := Shot(false, 0, 0, {}, map[0 := Dialing]);
    var s2 := Shot(false, 1, 0, {}, map[0 := Published(1)]);
    var s3 := Shot(true, 1, 1, {}, map[]);
    var s4 := Shot(true, 1, 1, {}, map[1 := LATE_MARK]);
    LateEndFails();
    steps := CloseThenLateSwap();
    steps := Prepend(s3, MarkCheck(1, 1), s4, steps);
    steps := Prepend(s2, ConnectStore(0), s3, steps);
    steps := Prepend(s1, ConnectPublish(0), s2, steps);
    steps := Prepend(INITIAL, ConnectCheck(0), s1, steps);
  }

  /**
   Without any report: a Close that cleared the flag before a whole Connect, and reads the done after
   it, leaves a connected socket whose done is closed.
   */
  lemma CloseTakesDownReconnect() returns (steps: seq<Step>)
    ensures Legal(INITIAL, steps)
    ensures var s := Run(INITIAL, steps);
            && s.connected && s.current == 1 && s.closes == multiset{1} && s.fired == [] && s.threads == map[]
            && !Holds(OpenWhileUp, s)
  {
    hide Run, Legal;
    var s1 := Shot(false, 0, 0, {}, map[1 := Closing(1)]);
    var s2 := Shot(false, 0, 0, {}, map[1 := Closing(1), 0 := Dialing]);
    var s3 := Shot(false, 1, 0, {}, map[1 := Closing(1), 0 := Published(1)]);
    var s4 := Shot(true, 1, 1, {}, map[1 := Closing(1)]);
    var s5 := Shot(true, 1, 1, {}, map[1 := ClosingGen(1)]);
    var s6 := Shot(true, 1, 1, {1}, map[]);
    steps := Prepend(s5, CloseFinish(1), s6, Done(s6));
    steps := Prepend(s4, CloseRead(1), s5, steps);
    steps := Prepend(s3, ConnectStore(0), s4, steps);
    steps := Prepend(s2, ConnectPublish(0), s3, steps);
    steps := Prepend(s1, ConnectCheck(0), s2, steps);
    steps := Prepend(INITIAL, CloseStore(1), s1, steps);
  }

  /**
   Without any report or Close: two Connects that both found the socket down leave a connected socket
   whose first generation is never torn down, as its own reports are stale.
   */
  lemma ConnectLeavesEarlierOpen() returns (steps: seq<Step>)
    ensures Legal(INITIAL, steps)
    ensures var s := Run(INITIAL, steps);
            && s.connected && s.current == 2 && s.closes == multiset{} && s.fired == [] && s.threads == map[]
            && !Holds(EarlierClosed, s)
  {
    hide Run, Legal;
    var s1 := Shot(false, 0, 0, {}, map[0 := Dialing]);
    var s2 := Shot(false, 0, 0, {}, map[0 := Dialing, 1 := Dialing]);
    var s3 := Shot(false, 1, 0, {}, map[0 := Published(1), 1 := Dialing]);
    var s4 := Shot(true, 1, 1, {}, map[1 := Dialing]);
    var s5 := Shot(true, 2, 1, {}, map[1 := Published(2)]);
    var s6 := Shot(true, 2, 2, {}, map[]);
    steps := Prepend(s5, ConnectStore(1), s6, Done(s6));
    steps := Prepend(s4, ConnectPublish(1), s5, steps);
    steps := Prepend(s3, ConnectStore(0), s4, steps);
    steps := Prepend(s2, ConnectPublish(0), s3, steps);
    steps := Prepend(s1, ConnectCheck(1), s2, steps);
    steps := Prepend(INITIAL, ConnectCheck(0), s1, steps);
    assert 1 !in s6.closes;
  }

  const TWICE: Thread := Marking(2, 3)
  const TWICE_END: State := State(false, 2, 3, 2, multiset{2}, {}, [1, 2], [2, 2], map[])

  /** Generation 2 was reported once; a second Connect raises the flag under the second report. */
  lemma SecondReport() returns (steps: seq<Step>)
    ensures var s := State(false, 2, 3, 1, multiset{2}, {}, [1], [2], map[0 := Published(1), 3 := TWICE]);
            && Legal(s, steps)
            && Run(s, steps) == TWICE_END
  {
    hide Run, Legal;
    var s0 := State(false, 2, 3, 1, multiset{2}, {}, [1], [2], map[0 := Published(1), 3 := TWICE]);
    var s1 := State(true, 2, 3, 2, multiset{2}, {}, [1], [2], map[3 := TWICE]);
    var s2 := State(false, 2, 3, 2, multiset{2}, {}, [1], [2], map[3 := Swapped(2, 2)]);
    var s3 := State(false, 2, 3, 2, multiset{2}, {}, [1], [2], map[3 := Firing(2, 2)]);
    steps := Prepend(s3, MarkFire(3), TWICE_END, Done(TWICE_END));
    steps := Prepend(s2, MarkClose(3), s3, steps);
    steps := Prepend(s1, MarkSwap(3), s2, steps);
    steps := Prepend(s0, ConnectStore(0), s1, steps);
  }

  /** Both reports pass their checks, and the first one goes through. */
  lemma FirstReport() returns (steps: seq<Step>)
    ensures var s := Shot(true, 2, 1, {}, map[0 := Published(1)]);
            Legal(s, steps) && Run(s, steps) == TWICE_END
  {
    hide Run, Legal;
    var s5 := Shot(true, 2, 1, {}, map[0 := Published(1)]);
    var s6 := Shot(true, 2, 1, {}, map[0 := Published(1), 2 := TWICE]);
    var s7 := Shot(true, 2, 1, {}, map[0 := Published(1), 2 := TWICE, 3 := TWICE]);
    var s8 := Shot(false, 2, 1, {}, map[0 := Published(1), 2 := Swapped(2, 1), 3 := TWICE]);
    var s9 := State(false, 2, 3, 1, multiset{2}, {}, [], [], map[0 := Published(1), 2 := Firing(2, 1), 3 := TWICE]);
    var s10 := State(false, 2, 3, 1, multiset{2}, {}, [1], [2], map[0 := Published(1), 3 := TWICE]);
    steps := SecondReport();
    steps := Prepend(s9, MarkFire(2), s10, steps);
    steps := Prepend(s8, MarkClose(2), s9, steps);
    steps := Prepend(s7, MarkSwap(2), s8, steps);
    steps := Prepend(s6, MarkCheck(3, 2), s7, steps);
    steps := Prepend(s5, MarkCheck(2, 2), s6, steps);
  }

  lemma TwiceEndFails()
    ensures !Holds(ReportedOnce, TWICE_END)
  {
    assert TWICE_END.fired[0] == TWICE_END.fired[1];
  }

  /**
   Two Connects and two reports of the same generation, the read loop's and the heartbeat's: the
   flag is raised once by each Connect, so both swaps succeed and OnDisconnect is called twice for
   generation 2, though no Connect published between either report's check and its swap.
   */
  lemma GenerationReportedTwice() returns (steps: seq<Step>)
    ensures Legal(INITIAL, steps)
    ensures var s := Run(INITIAL, steps);
            && !s.connected && s.current == 2 && s.closes == multiset{2} && s.fired == [2, 2] && s.threads == map[]
            && !Holds(ReportedOnce, s)
  {
    hide Run, Legal, Holds;
    var s1 := Shot(false, 0, 0, {}, map[0 := Dialing]);
    var s2 := Shot(false, 0, 0, {}, map[0 := Dialing, 1 := Dialing]);
    var s3 := Shot(false, 1, 0, {}, map[0 := Published(1), 1 := Dialing]);
    var s4 := Shot(false, 2, 0, {}, map[0 := Published(1), 1 := Published(2)]);
    var s5 := Shot(true, 2, 1, {}, map[0 := Published(1)]);
    TwiceEndFails();
    steps := FirstReport();
    steps := Prepend(s4, ConnectStore(1), s5, steps);
    steps := Prepend(s3, ConnectPublish(1), s4, steps);
    steps := Prepend(s2, ConnectPublish(0), s3, steps);
    steps := Prepend(s1, ConnectCheck(1), s2, steps);
    steps := Prepend(INITIAL, ConnectCheck(0), s1, steps);
  }

  /** So no promise of the whole-operation machine survives the interleavings: each fails after some
      run, with every operation finished. */
  lemma EveryPromiseFails(p: Promise) returns (steps: seq<Step>)
    ensures Legal(INITIAL, steps)
    ensures Run(INITIAL, steps).threads == map[] && !Holds(p, Run(INITIAL, steps))
  {
    hide Run, Legal, Holds;
    match p
    case OpenWhileUp => steps := CloseTakesDownReconnect();
    case ClosedWhileDown => steps := StaleReportTakesDownReconnect();
    case EarlierClosed => steps := ConnectLeavesEarlierOpen();
    case ReportedOnce => steps := GenerationReportedTwice();
    case NotAfterClose => steps := StaleReportTakesDownReconnect();
  }

  lemma Prepend(s: State, step: Step, s': State, rest: seq<Step>) returns (steps: seq<Step>)
    requires Enabled(s, step) && Do(s, step) == s' && Legal(s', rest)
    ensures steps == [step] + rest && Legal(s, steps) && Run(s, steps) == Run(s', rest)
  {
    steps := [step] + rest;
    assert steps[1..] == rest;
  }

  // --------------------------------------------------- whole operations, uninterrupted

  /** A state with no operation under way, seen as a state of the machine of whole operations. */
  ghost predicate Matches(s: State, c: Lifecycle.State) {
    && s.threads == map[]
    && s.connected == c.connected && s.current == c.current && s.nextGen == c.current + 1
    && s.fired == c.fired && s.byClose == c.byClose
    && (forall g :: g in s.closes <==> g in c.closed)
  }

  /** With no operation under way the promises together are those of the whole-operation machine. */
  lemma PromisesAreSafety(s: State, c: Lifecycle.State)
    requires Matches(s, c)
    ensures (forall p :: Holds(p, s)) <==> Lifecycle.Safe(c)
  {
    if forall p :: Holds(p, s) {
      assert Holds(OpenWhileUp, s) && Holds(ClosedWhileDown, s) && Holds(EarlierClosed, s);
      assert Holds(ReportedOnce, s) && Holds(NotAfterClose, s);
    }
  }

  /** The steps one operation takes when nothing interrupts it. */
  function Uninterrupted(s: State, op: Lifecycle.Step): (steps: seq<Step>) {
    match op
    case ConnectStep(dialed) =>
      if s.connected then [ConnectCheck(0)]
      else if dialed then [ConnectCheck(0), ConnectPublish(0), ConnectStore(0)]
      else [ConnectCheck(0), ConnectFails(0)]
    case CloseStep => [CloseStore(0), CloseRead(0), CloseFinish(0)]
    case MarkStep(done) =>
      if done != s.current then [MarkCheck(0, done)]
      else if s.connected then [MarkCheck(0, done), MarkSwap(0), MarkClose(0), MarkFire(0)]
      else [MarkCheck(0, done), MarkSwap(0)]
  }

  /** The empty run. */
  ghost function Done(s: State): (steps: seq<Step>)
    ensures steps == [] && Legal(s, steps) && Run(s, steps) == s
  {
    []
  }

  lemma ConnectRefines(s: State, c: Lifecycle.State, dialed: bool)
    requires Matches(s, c)
    ensures var steps := Uninterrupted(s, Lifecycle.ConnectStep(dialed));
            Legal(s, steps) && Matches(Run(s, steps), Lifecycle.Connect(c, dialed))
  {
    hide Run, Legal;
    var steps: seq<Step>;
    var s1 := Do(s, ConnectCheck(0));
    if s.connected {
      steps := Prepend(s, ConnectCheck(0), s1, Done(s1));
    } else if dialed {
      var s2 := Do(s1, ConnectPublish(0));
      var s3 := Do(s2, ConnectStore(0));
      steps := Prepend(s2, ConnectStore(0), s3, Done(s3));
      steps := Prepend(s1, ConnectPublish(0), s2, steps);
      steps := Prepend(s, ConnectCheck(0), s1, steps);
      assert s3.threads == map[];
    } else {
      var s2 := Do(s1, ConnectFails(0));
      steps := Prepend(s1, ConnectFails(0), s2, Done(s2));
      steps := Prepend(s, ConnectCheck(0), s1, steps);
      assert s2.threads == map[];
    }
    assert steps == Uninterrupted(s, Lifecycle.ConnectStep(dialed));
  }

  lemma CloseRefines(s: State, c: Lifecycle.State)
    requires Matches(s, c)
    ensures var steps := Uninterrupted(s, Lifecycle.CloseStep);
            Legal(s, steps) && Matches(Run(s, steps), Lifecycle.Close(c))
  {
    hide Run, Legal;
    var steps: seq<Step>;
    var s1 := Do(s, CloseStore(0));
    var s2 := Do(s1, CloseRead(0));
    var s3 := Do(s2, CloseFinish(0));
    steps := Prepend(s2, CloseFinish(0), s3, Done(s3));
    steps := Prepend(s1, CloseRead(0), s2, steps);
    steps := Prepend(s, CloseStore(0), s1, steps);
    assert s3.threads == map[];
    assert steps == Uninterrupted(s, Lifecycle.CloseStep);
  }

  lemma SwappedFinishes(s: State, done: nat) returns (steps: seq<Step>)
    requires s.threads == map[0 := Swapped(done, s.connects)]
    ensures steps == [MarkClose(0), MarkFire(0)] && Legal(s, steps)
    ensures Run(s, steps) == s.(closes := CloseOnce(s.closes, done), tickets := s.tickets + [s.connects],
                                fired := s.fired + [done], threads := map[])
  {
    hide Run, Legal;
    var s1 := Do(s, MarkClose(0));
    var s2 := Do(s1, MarkFire(0));
    assert s2.threads == map[];
    steps := Prepend(s1, MarkFire(0), s2, Done(s2));
    steps := Prepend(s, MarkClose(0), s1, steps);
  }

  lemma MarkNotifiesRefines(s: State, c: Lifecycle.State, done: nat)
    requires Matches(s, c) && done == s.current && s.connected && 1 <= done
    ensures var steps := Uninterrupted(s, Lifecycle.MarkStep(done));
            Legal(s, steps) && Matches(Run(s, steps), Lifecycle.Mark(c, done))
  {
    hide Run, Legal;
    var s1 := s.(threads := map[0 := Marking(done, s.nextGen)]);
    var s2 := s.(connected := false, threads := map[0 := Swapped(done, s.connects)]);
    var steps := SwappedFinishes(s2, done);
    steps := Prepend(s1, MarkSwap(0), s2, steps);
    steps := Prepend(s, MarkCheck(0, done), s1, steps);
    assert steps == Uninterrupted(s, Lifecycle.MarkStep(done));
  }

  lemma MarkRefines(s: State, c: Lifecycle.State, done: nat)
    requires Matches(s, c) && 1 <= done < s.nextGen
    ensures var steps := Uninterrupted(s, Lifecycle.MarkStep(done));
            Legal(s, steps) && Matches(Run(s, steps), Lifecycle.Mark(c, done))
  {
    hide Run, Legal;
    if done == s.current && s.connected {
      MarkNotifiesRefines(s, c, done);
      return;
    }
    var s1 := Do(s, MarkCheck(0, done));
    var steps: seq<Step>;
    if done != s.current {
      steps := Prepend(s, MarkCheck(0, done), s1, Done(s1));
    } else {
      var s2 := Do(s1, MarkSwap(0));
      steps := Prepend(s1, MarkSwap(0), s2, Done(s2));
      steps := Prepend(s, MarkCheck(0, done), s1, steps);
      assert s2.threads == map[];
    }
    assert steps == Uninterrupted(s, Lifecycle.MarkStep(done));
  }

  /** An operation whose steps nothing interrupts does exactly what the machine of whole operations says. */
  lemma OperationsRefine(s: State, c: Lifecycle.State, op: Lifecycle.Step)
    requires Matches(s, c) && (op.MarkStep? ==> 1 <= op.done < s.nextGen)
    ensures Legal(s, Uninterrupted(s, op))
    ensures Matches(Run(s, Uninterrupted(s, op)), Lifecycle.Do(c, op))
  {
    hide Do, Run, Legal, Enabled;
    match op
    case ConnectStep(dialed) => ConnectRefines(s, c, dialed);
    case CloseStep => CloseRefines(s, c);
    case MarkStep(done) => MarkRefines(s, c, done);
  }
}
