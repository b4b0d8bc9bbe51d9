/**
 The request/response protocol as a machine over interleavings: any number of senders, any number
 of read loops (a replaced connection's loop may still be finishing), timeouts, failures and
 teardowns.  Taking a channel out of the table and sending on it are separate steps, as are
 allocating a cid and registering it.  Cids do not wrap around.
 */
module Requests {
  import opened Correlation

  /** Where a sender is: cid drawn, registered and waiting, or gone. */
  datatype Phase = Allocated | Registered | Gone

  datatype Sender = Sender(cid: int, ch: nat, phase: Phase)

  /**
   Channels are numbered as they are made; `sent[ch]` is everything ever sent on channel ch and
   `received[ch]` how much of it was taken out.  `holding` are read loops about to send, `got` what
   the senders that were answered returned.
   */
  datatype State<M> = State(
    nextCid: int,
    cids: map<int, nat>,
    sent: seq<seq<M>>,
    received: seq<nat>,
    senders: map<int, Sender>,
    holding: map<int, nat>,
    got: map<int, M>)

  datatype Step<M> =
    | Begin(tid: int)
    | Register(tid: int)
    | GiveUp(tid: int)
    | Leave(tid: int)
    | Receive(tid: int)
    | TakeReply(rid: int, cid: int)
    | TakeRaw(rid: int, cid: int, key: int)
    | Deliver(rid: int, msg: M)

  const CAPACITY: nat := 1

  /** A channel send proceeds without blocking while the buffer has room. */
  predicate HasRoom<M>(s: State<M>, ch: nat) {
    ch < |s.sent| && ch < |s.received| && |s.sent[ch]| < s.received[ch] + CAPACITY
  }

  predicate InPhase<M>(s: State<M>, tid: int, p: Phase) {
    tid in s.senders && s.senders[tid].phase == p
  }

  predicate Enabled<M>(s: State<M>, step: Step<M>) {
    match step
    case Begin(tid) => tid !in s.senders
    case Register(tid) => InPhase(s, tid, Allocated)
    case GiveUp(tid) => InPhase(s, tid, Registered)
    case Leave(tid) => InPhase(s, tid, Registered)
    case Receive(tid) =>
      && InPhase(s, tid, Registered)
      && var ch := s.senders[tid].ch;
         ch < |s.sent| && ch < |s.received| && s.received[ch] < |s.sent[ch]|
    case TakeReply(rid, cid) => rid !in s.holding && cid in s.cids
    case TakeRaw(rid, cid, key) => rid !in s.holding && MayTake(s.cids, cid, key)
    case Deliver(rid, _) => rid in s.holding && HasRoom(s, s.holding[rid])
  }

  function Phased<M>(s: State<M>, tid: int, p: Phase): (s': State<M>)
    requires tid in s.senders
  {
    s.(senders := s.senders[tid := s.senders[tid].(phase := p)])
  }

  function Take<M>(s: State<M>, rid: int, key: int): (s': State<M>)
    requires key in s.cids
  {
    s.(cids := s.cids - {key}, holding := s.holding[rid := s.cids[key]])
  }

  function Do<M>(s: State<M>, step: Step<M>): (s': State<M>)
    requires Enabled(s, step)
  {
    match step
    case Begin(tid) =>
      s.(nextCid := s.nextCid + 1, sent := s.sent + [[]], received := s.received + [0],
         senders := s.senders[tid := Sender(s.nextCid, |s.sent|, Allocated)])
    case Register(tid) =>
      var t := s.senders[tid];
      Phased(s, tid, Registered).(cids := s.cids[t.cid := t.ch])
    case GiveUp(tid) => Phased(s, tid, Gone).(cids := s.cids - {s.senders[tid].cid})
    case Leave(tid) => Phased(s, tid, Gone)
    case Receive(tid) =>
      var ch := s.senders[tid].ch;
      Phased(s, tid, Gone).(received := s.received[ch := s.received[ch] + 1],
                            got := s.got[tid := s.sent[ch][s.received[ch]]])
    case TakeReply(rid, cid) => Take(s, rid, cid)
    case TakeRaw(rid, _, key) => Take(s, rid, key)
    case Deliver(rid, msg) =>
      var ch := s.holding[rid];
      s.(sent := s.sent[ch := s.sent[ch] + [msg]], holding := s.holding - {rid})
  }

  /** The step takes the entry of that cid out of the table. */
  predicate Takes<M>(step: Step<M>, key: int) {
    (step.TakeReply? && step.cid == key) || (step.TakeRaw? && step.key == key)
  }

  // --------------------------------------------------------------------- invariant

  ghost predicate TableOk<M>(s: State<M>) {
    && (forall k :: k in s.cids ==> s.cids[k] < |s.sent| && k < s.nextCid)
    && (forall j, k :: j in s.cids && k in s.cids && s.cids[j] == s.cids[k] ==> j == k)
  }

  ghost predicate HoldingOk<M>(s: State<M>) {
    && (forall r :: r in s.holding ==> s.holding[r] < |s.sent|)
    && (forall q, r :: q in s.holding && r in s.holding && s.holding[q] == s.holding[r] ==> q == r)
    && (forall r, k :: r in s.holding && k in s.cids ==> s.holding[r] != s.cids[k])
  }

  /** A channel still in the table or in a read loop's hands has never been sent on. */
  ghost predicate ChannelsOk<M>(s: State<M>)
    requires TableOk(s) && HoldingOk(s)
  {
    && |s.received| == |s.sent|
    && (forall c :: 0 <= c < |s.sent| ==> |s.sent[c]| <= 1 && s.received[c] <= |s.sent[c]|)
    && (forall k :: k in s.cids ==> s.sent[s.cids[k]] == [])
    && (forall r :: r in s.holding ==> s.sent[s.holding[r]] == [])
  }

  /** A request that drew its cid but is not registered yet owns its channel alone. */
  ghost predicate Private<M>(s: State<M>, t: Sender) {
    && t.cid !in s.cids
    && t.ch < |s.sent| && s.sent[t.ch] == []
    && (forall k :: k in s.cids ==> s.cids[k] != t.ch)
    && (forall r :: r in s.holding ==> s.holding[r] != t.ch)
  }

  ghost predicate SendersOk<M>(s: State<M>) {
    && (forall t :: t in s.senders ==>
          && s.senders[t].cid < s.nextCid && s.senders[t].ch < |s.sent|
          && (s.senders[t].phase == Allocated ==> Private(s, s.senders[t]))
          && (s.senders[t].cid in s.cids ==> s.cids[s.senders[t].cid] == s.senders[t].ch))
    && (forall t, u :: t in s.senders && u in s.senders && t != u ==>
          s.senders[t].cid != s.senders[u].cid && s.senders[t].ch != s.senders[u].ch)
  }

  /** What an answered sender returned is the one message sent on its channel; the others have taken
      nothing out. */
  ghost predicate ReceivedOk<M>(s: State<M>) {
    && |s.received| == |s.sent|
    && (forall t :: t in s.senders ==> s.senders[t].ch < |s.sent|)
    && (forall t :: t in s.senders && s.senders[t].phase != Gone ==> s.received[s.senders[t].ch] == 0 && t !in s.got)
    && (forall t :: t in s.got ==>
          t in s.senders && s.sent[s.senders[t].ch] == [s.got[t]] && s.received[s.senders[t].ch] == 1)
  }

  ghost predicate Core<M>(s: State<M>) {
    TableOk(s) && HoldingOk(s) && ChannelsOk(s) && SendersOk(s)
  }

  ghost predicate Inv<M>(s: State<M>) {
    Core(s) && ReceivedOk(s)
  }

  lemma BeginKeepsTable<M>(s: State<M>, tid: int)
    requires Core(s) && Enabled(s, Begin(tid))
    ensures var s' := Do(s, Begin(tid));
            TableOk(s') && HoldingOk(s') && ChannelsOk(s')
  {
    hide SendersOk;
  }

  lemma BeginKeepsSenders<M>(s: State<M>, tid: int)
    requires Core(s) && Enabled(s, Begin(tid))
    ensures SendersOk(Do(s, Begin(tid)))
  {
    hide ChannelsOk;
    var s' := Do(s, Begin(tid));
    assert Private(s', s'.senders[tid]);
    forall t | t in s.senders && s.senders[t].phase == Allocated
      ensures Private(s', s.senders[t])
    {
      assert Private(s, s.senders[t]);
    }
  }

  lemma BeginKeepsCore<M>(s: State<M>, tid: int)
    requires Core(s) && Enabled(s, Begin(tid))
    ensures Core(Do(s, Begin(tid)))
  {
    hide Do, Enabled, TableOk, HoldingOk, ChannelsOk, SendersOk;
    BeginKeepsTable(s, tid);
    BeginKeepsSenders(s, tid);
  }

  lemma RegisterKeepsTable<M>(s: State<M>, tid: int)
    requires Core(s) && Enabled(s, Step.Register(tid))
    ensures var s' := Do(s, Step.Register(tid));
            TableOk(s') && HoldingOk(s')
  {
    assert Private(s, s.senders[tid]);
  }

  lemma RegisterKeepsChannels<M>(s: State<M>, tid: int)
    requires Core(s) && Enabled(s, Step.Register(tid))
    requires var s' := Do(s, Step.Register(tid)); TableOk(s') && HoldingOk(s')
    ensures ChannelsOk(Do(s, Step.Register(tid)))
  {
    assert Private(s, s.senders[tid]);
  }

  lemma RegisterKeepsSenders<M>(s: State<M>, tid: int)
    requires Core(s) && Enabled(s, Step.Register(tid))
    ensures SendersOk(Do(s, Step.Register(tid)))
  {
    hide TableOk, HoldingOk, ChannelsOk;
    var s' := Do(s, Step.Register(tid));
    forall t | t in s'.senders && s'.senders[t].phase == Allocated
      ensures Private(s', s'.senders[t])
    {
      assert Private(s, s.senders[t]);
    }
  }

  lemma RegisterKeepsCore<M>(s: State<M>, tid: int)
    requires Core(s) && Enabled(s, Step.Register(tid))
    ensures Core(Do(s, Step.Register(tid)))
  {
    hide Do, Enabled, TableOk, HoldingOk, ChannelsOk, SendersOk;
    RegisterKeepsTable(s, tid);
    RegisterKeepsChannels(s, tid);
    RegisterKeepsSenders(s, tid);
  }

  lemma GiveUpKeepsCore<M>(s: State<M>, tid: int)
    requires Core(s) && Enabled(s, GiveUp(tid))
    ensures Core(Do(s, GiveUp(tid)))
  {
    var s' := Do(s, GiveUp(tid));
    assert TableOk(s') && HoldingOk(s');
    assert ChannelsOk(s');
    assert forall t :: t in s'.senders && s'.senders[t].phase == Allocated ==> s'.senders[t] == s.senders[t];
  }

  lemma LeaveKeepsCore<M>(s: State<M>, tid: int)
    requires Core(s) && Enabled(s, Leave(tid))
    ensures Core(Do(s, Leave(tid)))
  {
    var s' := Do(s, Leave(tid));
    assert TableOk(s') && HoldingOk(s');
    assert ChannelsOk(s');
    assert forall t :: t in s'.senders && s'.senders[t].phase == Allocated ==> s'.senders[t] == s.senders[t];
  }

  lemma ReceiveKeepsCore<M>(s: State<M>, tid: int)
    requires Core(s) && Enabled(s, Receive(tid))
    ensures Core(Do(s, Receive(tid)))
  {
    var s' := Do(s, Receive(tid));
    assert TableOk(s') && HoldingOk(s');
    assert ChannelsOk(s');
    assert forall t :: t in s'.senders && s'.senders[t].phase == Allocated ==> s'.senders[t] == s.senders[t];
  }

  lemma TakeKeepsCore<M>(s: State<M>, rid: int, key: int)
    requires Core(s) && rid !in s.holding && key in s.cids
    ensures Core(Take(s, rid, key))
  {
  }

  lemma DeliverKeepsCore<M>(s: State<M>, rid: int, msg: M)
    requires Core(s) && Enabled(s, Deliver(rid, msg))
    ensures Core(Do(s, Deliver(rid, msg)))
  {
  }

  lemma StepKeepsCore<M>(s: State<M>, step: Step<M>)
    requires Core(s) && Enabled(s, step)
    ensures Core(Do(s, step))
  {
    match step
    case Begin(tid) => BeginKeepsCore(s, tid);
    case Register(tid) => RegisterKeepsCore(s, tid);
    case GiveUp(tid) => GiveUpKeepsCore(s, tid);
    case Leave(tid) => LeaveKeepsCore(s, tid);
    case Receive(tid) => ReceiveKeepsCore(s, tid);
    case TakeReply(rid, cid) => TakeKeepsCore(s, rid, cid);
    case TakeRaw(rid, _, key) => TakeKeepsCore(s, rid, key);
    case Deliver(rid, msg) => DeliverKeepsCore(s, rid, msg);
  }

  lemma StepKeepsReceived<M>(s: State<M>, step: Step<M>)
    requires Inv(s) && Enabled(s, step)
    ensures ReceivedOk(Do(s, step))
  {
    match step
    case Deliver(rid, msg) => DeliverKeepsReceived(s, rid, msg);
    case Receive(tid) => ReceiveKeepsReceived(s, tid);
    case _ => QuietKeepsReceived(s, step);
  }

  lemma QuietKeepsReceived<M>(s: State<M>, step: Step<M>)
    requires Inv(s) && Enabled(s, step) && !step.Deliver? && !step.Receive?
    ensures ReceivedOk(Do(s, step))
  {
    hide TableOk, HoldingOk, ChannelsOk, SendersOk, MayTake;
    assert forall t :: t in s.got ==> t in s.senders && s.senders[t].phase == Gone;
  }

  lemma DeliverKeepsReceived<M>(s: State<M>, rid: int, msg: M)
    requires Inv(s) && Enabled(s, Deliver(rid, msg))
    ensures ReceivedOk(Do(s, Deliver(rid, msg)))
  {
    hide TableOk, SendersOk;
    assert s.sent[s.holding[rid]] == [];
  }

  lemma ReceiveKeepsReceived<M>(s: State<M>, tid: int)
    requires Inv(s) && Enabled(s, Receive(tid))
    ensures ReceivedOk(Do(s, Receive(tid)))
  {
    hide TableOk, HoldingOk;
    var ch := s.senders[tid].ch;
    assert |s.sent[ch]| == 1 && s.sent[ch] == [s.sent[ch][0]];
    assert forall t :: t in s.senders && t != tid ==> s.senders[t].ch != ch;
  }

  lemma StepKeepsInv<M>(s: State<M>, step: Step<M>)
    requires Inv(s) && Enabled(s, step)
    ensures Inv(Do(s, step))
  {
    hide Do, Enabled, Core, ReceivedOk;
    StepKeepsCore(s, step);
    StepKeepsReceived(s, step);
  }

  // -------------------------------------------------------------------------- runs

  ghost predicate Legal<M>(s: State<M>, steps: seq<Step<M>>)
    decreases |steps|
  {
    steps == [] || (Enabled(s, steps[0]) && Legal(Do(s, steps[0]), steps[1..]))
  }

  function Run<M>(s: State<M>, steps: seq<Step<M>>): (s': State<M>)
    requires Legal(s, steps)
    decreases |steps|
  {
    if steps == [] then s else Run(Do(s, steps[0]), steps[1..])
  }

  function Start<M>(): (s: State<M>) {
    State(1, map[], [], [], map[], map[], map[])
  }

  lemma StartIsInv<M>()
    ensures Inv(Start<M>())
  {
  }

  lemma {:induction false} RunKeepsInv<M>(s: State<M>, steps: seq<Step<M>>)
    requires Inv(s) && Legal(s, steps)
    ensures Inv(Run(s, steps))
    decreases |steps|
  {
    hide Do, Enabled, Inv;
    if steps != [] {
      StepKeepsInv(s, steps[0]);
      RunKeepsInv(Do(s, steps[0]), steps[1..]);
    }
  }

  /** In every run distinct cids hold distinct channels and no channel is ever sent on twice. */
  lemma AtMostOneDelivery<M>(steps: seq<Step<M>>)
    requires Legal(Start(), steps)
    ensures var s := Run(Start(), steps);
            && (forall c :: 0 <= c < |s.sent| ==> |s.sent[c]| <= 1)
            && (forall j, k :: j in s.cids && k in s.cids && j != k ==> s.cids[j] != s.cids[k])
  {
    RunKeepsInv(Start<M>(), steps);
  }

  /** In every run a read loop that took a channel can send at once: it never blocks on a sender. */
  lemma ReaderNeverBlocks<M>(steps: seq<Step<M>>, rid: int, msg: M)
    requires Legal(Start(), steps) && rid in Run(Start(), steps).holding
    ensures var s := Run(Start(), steps);
            var ch := s.holding[rid];
            && Enabled(s, Deliver(rid, msg))
            && ch < |s.sent| == |s.received| && |s.sent[ch]| - s.received[ch] < 1
  {
    RunKeepsInv(Start<M>(), steps);
  }

  /** A read loop takes an entry only for a reply that carries its cid or its 16 bits, and the entry of
      that very number first. */
  lemma TakesMatchReplies<M>(s: State<M>, rid: int, cid: int, key: int)
    requires 0 <= cid < 0x1_0000 && Enabled(s, TakeRaw(rid, cid, key))
    ensures key in s.cids && Low(key) == cid && (cid in s.cids ==> key == cid)
  {
  }

  /** In every run, what a read loop takes for a whole cid is the channel of the request that drew it;
      for 16 bits, inside a window, of the one pending request with those bits. */
  lemma ReplyReachesItsRequest<M>(steps: seq<Step<M>>, rid: int, tid: int)
    requires Legal(Start(), steps)
    requires var s := Run(Start(), steps);
             rid !in s.holding && tid in s.senders && s.senders[tid].cid in s.cids
    ensures var s := Run(Start(), steps);
            var t := s.senders[tid];
            Do(s, TakeReply(rid, t.cid)).holding[rid] == t.ch
    ensures var s := Run(Start(), steps);
            var t := s.senders[tid];
            Window(s.cids) ==> forall key :: MayTake(s.cids, Low(t.cid), key) ==>
              Do(s, TakeRaw(rid, Low(t.cid), key)).holding[rid] == t.ch
  {
    RunKeepsInv(Start<M>(), steps);
    var s := Run(Start<M>(), steps);
    if Window(s.cids) {
      RawLookupIsExact(s.cids, Low(s.senders[tid].cid));
    }
  }

  // ------------------------------------------------------- replies arrive, and are kept

  lemma {:induction false} RunKeepsSent<M>(s: State<M>, steps: seq<Step<M>>, ch: nat, msg: M)
    requires Inv(s) && Legal(s, steps) && ch < |s.sent| && s.sent[ch] == [msg]
    ensures ch < |Run(s, steps).sent| && Run(s, steps).sent[ch] == [msg]
    decreases |steps|
  {
    hide Inv;
    if steps != [] {
      StepKeepsInv(s, steps[0]);
      StepKeepsSent(s, steps[0], ch, msg);
      RunKeepsSent(Do(s, steps[0]), steps[1..], ch, msg);
    }
  }

  lemma StepKeepsSent<M>(s: State<M>, step: Step<M>, ch: nat, msg: M)
    requires Inv(s) && Enabled(s, step) && ch < |s.sent| && s.sent[ch] == [msg]
    ensures ch < |Do(s, step).sent| && Do(s, step).sent[ch] == [msg]
  {
    hide TableOk, SendersOk, ReceivedOk;
  }

  /** In every run a reply that a read loop sends is on that channel for good, alone. */
  lemma DeliveredStays<M>(before: seq<Step<M>>, rid: int, msg: M, after: seq<Step<M>>)
    requires Legal(Start(), before) && Enabled(Run(Start(), before), Deliver(rid, msg))
    requires Legal(Do(Run(Start(), before), Deliver(rid, msg)), after)
    ensures var s := Run(Start(), before);
            var e := Run(Do(s, Deliver(rid, msg)), after);
            s.holding[rid] < |e.sent| && e.sent[s.holding[rid]] == [msg]
  {
    hide Run, Legal;
    StartIsInv<M>();
    RunKeepsInv(Start<M>(), before);
    var s := Run(Start<M>(), before);
    assert s.sent[s.holding[rid]] == [];
    StepKeepsInv(s, Deliver(rid, msg));
    RunKeepsSent(Do(s, Deliver(rid, msg)), after, s.holding[rid], msg);
  }

  /** A sender that still waits on a channel with a message can take it, and returns just that. */
  lemma WaitingSenderReceives<M>(s: State<M>, tid: int, msg: M)
    requires Inv(s) && InPhase(s, tid, Registered) && s.sent[s.senders[tid].ch] == [msg]
    ensures Enabled(s, Receive(tid))
    ensures var s' := Do(s, Receive(tid));
            tid in s'.got && s'.got[tid] == msg && InPhase(s', tid, Gone)
  {
  }

  lemma {:induction false} RunKeepsHolding<M>(s: State<M>, steps: seq<Step<M>>, rid: int)
    requires Legal(s, steps) && rid in s.holding
    requires forall step :: step in steps ==> !(step.Deliver? && step.rid == rid)
    ensures rid in Run(s, steps).holding && Run(s, steps).holding[rid] == s.holding[rid]
    decreases |steps|
  {
    if steps != [] {
      assert steps[0] in steps;
      RunKeepsHolding(Do(s, steps[0]), steps[1..], rid);
    }
  }

  lemma {:induction false} RunKeepsSender<M>(s: State<M>, steps: seq<Step<M>>, tid: int)
    requires Legal(s, steps) && tid in s.senders
    ensures var t := Run(s, steps);
            tid in t.senders && t.senders[tid].ch == s.senders[tid].ch && t.senders[tid].cid == s.senders[tid].cid
    decreases |steps|
  {
    if steps != [] {
      RunKeepsSender(Do(s, steps[0]), steps[1..], tid);
    }
  }

  /**
   A request gets its reply: when a read loop takes the cid of request tid, by the whole cid or by 16
   bits, and some time later sends msg, then the request, if it is still waiting by then or whenever
   later, can return, and returns msg.
   */
  lemma RequestGetsItsReply<M>(
    before: seq<Step<M>>, tid: int, take: Step<M>, meanwhile: seq<Step<M>>, msg: M, after: seq<Step<M>>)
    requires Legal(Start(), before) && tid in Run(Start(), before).senders
    requires var s := Run(Start(), before);
             Enabled(s, take) && Takes(take, s.senders[tid].cid)
    requires var s1 := Do(Run(Start(), before), take);
             && Legal(s1, meanwhile)
             && (forall step :: step in meanwhile ==> !(step.Deliver? && step.rid == take.rid))
             && Enabled(Run(s1, meanwhile), Deliver(take.rid, msg))
             && Legal(Do(Run(s1, meanwhile), Deliver(take.rid, msg)), after)
    requires var s2 := Do(Run(Do(Run(Start(), before), take), meanwhile), Deliver(take.rid, msg));
             InPhase(Run(s2, after), tid, Registered)
    ensures var s2 := Do(Run(Do(Run(Start(), before), take), meanwhile), Deliver(take.rid, msg));
            var e := Run(s2, after);
            && Enabled(e, Receive(tid))
            && var e' := Do(e, Receive(tid));
               tid in e'.got && e'.got[tid] == msg
  {
    hide Run, Legal, Inv;
    StartIsInv<M>();
    RunKeepsInv(Start<M>(), before);
    var s := Run(Start<M>(), before);
    var s1 := Do(s, take);
    var ch := s.senders[tid].ch;
    TakenChannel(s, take, tid);
    StepKeepsInv(s, take);
    RunKeepsHolding(s1, meanwhile, take.rid);
    RunKeepsSender(s1, meanwhile, tid);
    RunKeepsInv(s1, meanwhile);
    var m := Run(s1, meanwhile);
    var s2 := Do(m, Deliver(take.rid, msg));
    StepKeepsInv(m, Deliver(take.rid, msg));
    DeliverSends(m, take.rid, msg);
    RunKeepsSent(s2, after, ch, msg);
    RunKeepsSender(s2, after, tid);
    RunKeepsInv(s2, after);
    WaitingSenderReceives(Run(s2, after), tid, msg);
  }

  lemma DeliverSends<M>(s: State<M>, rid: int, msg: M)
    requires Inv(s) && Enabled(s, Deliver(rid, msg))
    ensures Do(s, Deliver(rid, msg)).sent[s.holding[rid]] == [msg]
    ensures Do(s, Deliver(rid, msg)).senders == s.senders
  {
  }

  /** What is taken for a request's cid is the request's channel. */
  lemma TakenChannel<M>(s: State<M>, take: Step<M>, tid: int)
    requires Inv(s) && Enabled(s, take) && tid in s.senders && Takes(take, s.senders[tid].cid)
    ensures var s' := Do(s, take);
            && take.rid in s'.holding && s'.holding[take.rid] == s.senders[tid].ch < |s'.sent|
            && s'.senders == s.senders
  {
  }

  /** In every run what a sender returned is the only message ever sent on its channel, and was taken
      out of it. */
  lemma AnswersAreWhatWasSent<M>(steps: seq<Step<M>>, tid: int)
    requires Legal(Start(), steps) && tid in Run(Start(), steps).got
    ensures var s := Run(Start(), steps);
            && InPhase(s, tid, Gone) && s.senders[tid].ch < |s.sent| == |s.received|
            && s.sent[s.senders[tid].ch] == [s.got[tid]] && s.received[s.senders[tid].ch] == 1
  {
    hide Run, Legal;
    StartIsInv<M>();
    RunKeepsInv(Start<M>(), steps);
  }

  // ------------------------------------------------- what one read loop sees of others

  /** Channel ch is cid's, now or, if it is not in the table, ever again. */
  ghost predicate Owns<M>(s: State<M>, cid: int, ch: nat) {
    && cid < s.nextCid
    && (cid in s.cids ==> s.cids[cid] == ch)
    && (forall t :: t in s.senders && s.senders[t].phase == Allocated ==> s.senders[t].cid != cid)
  }

  lemma StepKeepsOwns<M>(s: State<M>, step: Step<M>, cid: int, ch: nat)
    requires Enabled(s, step) && Owns(s, cid, ch)
    ensures Owns(Do(s, step), cid, ch)
  {
  }

  lemma {:induction false} RunKeepsOwns<M>(s: State<M>, steps: seq<Step<M>>, cid: int, ch: nat)
    requires Inv(s) && Legal(s, steps) && Owns(s, cid, ch)
    ensures Owns(Run(s, steps), cid, ch)
    decreases |steps|
  {
    hide Inv, Do, Enabled, Owns;
    if steps != [] {
      StepKeepsInv(s, steps[0]);
      StepKeepsOwns(s, steps[0], cid, ch);
      RunKeepsOwns(Do(s, steps[0]), steps[1..], cid, ch);
    }
  }

  /** Whatever senders and other read loops do between two frames of a read loop, no pending request's
      channel changes and no two share one. */
  lemma OthersInterfere<M>(before: seq<Step<M>>, meanwhile: seq<Step<M>>)
    requires Legal(Start(), before) && Legal(Run(Start(), before), meanwhile)
    ensures var s := Run(Start(), before);
            Interferes(s.cids, Run(s, meanwhile).cids) && DistinctChannels(s.cids)
  {
    hide Run, Legal, Do, Enabled;
    StartIsInv<M>();
    RunKeepsInv(Start<M>(), before);
    var s := Run(Start<M>(), before);
    RunKeepsInv(s, meanwhile);
    forall k | k in s.cids && k in Run(s, meanwhile).cids
      ensures Run(s, meanwhile).cids[k] == s.cids[k]
    {
      RunKeepsOwns(s, meanwhile, k, s.cids[k]);
    }
  }

  // --------------------------------------------------------------- late replies

  /** A request that gave up: gone, and no longer in the table. */
  ghost predicate Retired<M>(s: State<M>, tid: int) {
    InPhase(s, tid, Gone) && s.senders[tid].cid !in s.cids
  }

  lemma StepKeepsRetired<M>(s: State<M>, tid: int, step: Step<M>)
    requires Inv(s) && Enabled(s, step) && Retired(s, tid)
    ensures Retired(Do(s, step), tid) && Do(s, step).senders[tid] == s.senders[tid]
  {
  }

  lemma {:induction false} RunKeepsRetired<M>(s: State<M>, tid: int, steps: seq<Step<M>>)
    requires Inv(s) && Legal(s, steps) && Retired(s, tid)
    ensures Retired(Run(s, steps), tid) && Run(s, steps).senders[tid] == s.senders[tid]
    decreases |steps|
  {
    hide Do, Enabled, Inv, Retired;
    if steps != [] {
      StepKeepsInv(s, steps[0]);
      StepKeepsRetired(s, tid, steps[0]);
      RunKeepsRetired(Do(s, steps[0]), tid, steps[1..]);
    }
  }

  /** Where a request that gave up stands after any later steps. */
  lemma RetiredForGood<M>(before: seq<Step<M>>, tid: int, after: seq<Step<M>>)
    requires Legal(Start(), before) && Enabled(Run(Start(), before), GiveUp(tid))
    requires Legal(Do(Run(Start(), before), GiveUp(tid)), after)
    ensures var s := Run(Start(), before);
            s.senders[tid].cid !in Run(Do(s, GiveUp(tid)), after).cids
  {
    hide Run, Legal, Inv;
    StartIsInv<M>();
    RunKeepsInv(Start<M>(), before);
    var s := Run(Start<M>(), before);
    StepKeepsInv(s, GiveUp(tid));
    RunKeepsRetired(Do(s, GiveUp(tid)), tid, after);
  }

  /** A request that timed out or failed to send is forgotten: whatever happens later, no envelope
      that carries its cid is matched with any request. */
  lemma LateEnvelopesAreDropped<M>(before: seq<Step<M>>, tid: int, after: seq<Step<M>>, rid: int)
    requires Legal(Start(), before) && Enabled(Run(Start(), before), GiveUp(tid))
    requires Legal(Do(Run(Start(), before), GiveUp(tid)), after)
    ensures var s := Run(Start(), before);
            !Enabled(Run(Do(s, GiveUp(tid)), after), TakeReply(rid, s.senders[tid].cid))
  {
    hide Run, Legal, Inv;
    RetiredForGood(before, tid, after);
  }

  /** A late pong or API response carries 16 bits only: it is dropped exactly when no request still
      pending has the same low bits, and otherwise answers some other request. */
  lemma LateRawRepliesAreDroppedExactlyWhen<M>(before: seq<Step<M>>, tid: int, after: seq<Step<M>>)
    requires Legal(Start(), before) && Enabled(Run(Start(), before), GiveUp(tid))
    requires Legal(Do(Run(Start(), before), GiveUp(tid)), after)
    ensures var s := Run(Start(), before);
            var cid := s.senders[tid].cid;
            var s' := Run(Do(s, GiveUp(tid)), after);
            && ((forall key :: !MayTake(s'.cids, Low(cid), key)) <==> (forall k :: k in s'.cids ==> Low(k) != Low(cid)))
            && (forall key :: MayTake(s'.cids, Low(cid), key) ==> key != cid && Low(key) == Low(cid))
  {
    hide Run, Legal, Inv;
    RetiredForGood(before, tid, after);
    var s := Run(Start<M>(), before);
    MatchedExactlyWhen(Run(Do(s, GiveUp(tid)), after).cids, Low(s.senders[tid].cid));
  }

  // ---------------------------------------------------------- abandoned entries

  /** A sender that left through done: gone, with its entry still in the table. */
  ghost predicate Abandoned<M>(s: State<M>, tid: int) {
    InPhase(s, tid, Gone) && s.senders[tid].cid in s.cids
  }

  lemma StepKeepsAbandoned<M>(s: State<M>, tid: int, step: Step<M>)
    requires Inv(s) && Enabled(s, step) && Abandoned(s, tid)
    ensures Do(s, step).senders[tid] == s.senders[tid]
    ensures if Takes(step, s.senders[tid].cid) then Retired(Do(s, step), tid) else Abandoned(Do(s, step), tid)
  {
  }

  /** Nothing but a reply removes an abandoned entry: after any later steps it is still in the table
      exactly when no read loop has taken it. */
  lemma {:induction false} AbandonedUntilTaken<M>(s: State<M>, tid: int, steps: seq<Step<M>>)
    requires Inv(s) && Legal(s, steps) && Abandoned(s, tid)
    ensures var cid := s.senders[tid].cid;
            cid in Run(s, steps).cids <==> forall step :: step in steps ==> !Takes(step, cid)
    decreases |steps|
  {
    hide Do, Enabled, Inv, Takes;
    if steps != [] {
      var s1 := Do(s, steps[0]);
      StepKeepsInv(s, steps[0]);
      StepKeepsAbandoned(s, tid, steps[0]);
      assert forall step :: step in steps <==> step == steps[0] || step in steps[1..];
      if Takes(steps[0], s.senders[tid].cid) {
        RunKeepsRetired(s1, tid, steps[1..]);
      } else {
        AbandonedUntilTaken(s1, tid, steps[1..]);
      }
    }
  }

  lemma {:induction false} Extend<M>(s: State<M>, steps: seq<Step<M>>, step: Step<M>)
    requires Legal(s, steps) && Enabled(Run(s, steps), step)
    ensures Legal(s, steps + [step]) && Run(s, steps + [step]) == Do(Run(s, steps), step)
    decreases |steps|
  {
    hide Do, Enabled;
    if steps == [] {
      assert (steps + [step])[1..] == [];
    } else {
      Extend(Do(s, steps[0]), steps[1..], step);
      assert (steps + [step])[1..] == steps[1..] + [step];
    }
  }

  /** The first request left through done, then n more came and gave up. */
  ghost predicate OneAbandoned<M>(s: State<M>, n: nat) {
    && s.nextCid == n + 2 && |s.sent| == n + 1
    && s.cids == map[1 := 0] && s.holding == map[]
    && (forall t :: t in s.senders ==> 0 <= t <= n)
    && 0 in s.senders && s.senders[0] == Sender(1, 0, Gone)
  }

  lemma {:induction false} OneAbandonedIsReachable<M>(n: nat) returns (steps: seq<Step<M>>)
    ensures Legal(Start(), steps) && OneAbandoned(Run(Start(), steps), n)
  {
    hide Run, Legal;
    if n == 0 {
      steps := Nothing(Start<M>());
      steps := Then(steps, Begin(0));
      steps := Then(steps, Step.Register(0));
      steps := Then(steps, Leave(0));
    } else {
      steps := OneAbandonedIsReachable(n - 1);
      steps := Then(steps, Begin(n));
      steps := Then(steps, Step.Register(n));
      steps := Then(steps, GiveUp(n));
    }
  }

  lemma Nothing<M>(s: State<M>) returns (steps: seq<Step<M>>)
    ensures steps == [] && Legal(s, steps) && Run(s, steps) == s
  {
    steps := [];
  }

  lemma Then<M>(before: seq<Step<M>>, step: Step<M>) returns (steps: seq<Step<M>>)
    requires Legal(Start(), before) && Enabled(Run(Start(), before), step)
    ensures Legal(Start(), steps) && Run(Start(), steps) == Do(Run(Start(), before), step)
  {
    Extend(Start<M>(), before, step);
    steps := before + [step];
  }

  /** An abandoned entry can outlive 65535 later requests and then take a reply: here cid 65537 is
      waiting, and the only request its 16-bit reply can be matched with is cid 1, which left. */
  lemma AbandonedEntryStealsReply<M>() returns (steps: seq<Step<M>>, tid: int)
    ensures Legal(Start(), steps)
    ensures var s := Run(Start(), steps);
            && InPhase(s, tid, Registered) && s.senders[tid].cid in s.cids
            && Abandoned(s, 0)
            && (forall key :: MayTake(s.cids, Low(s.senders[tid].cid), key) <==> key == s.senders[0].cid)
            && s.cids[s.senders[0].cid] != s.senders[tid].ch
  {
    hide Run, Legal;
    steps := OneAbandonedIsReachable(0xFFFF);
    tid := 0x1_0000;
    steps := Then(steps, Begin(tid));
    steps := Then(steps, Step.Register(tid));
    var s := Run(Start<M>(), steps);
    assert s.cids == map[1 := 0, 0x1_0001 := 0x1_0000];
    StaleEntryStealsReply(s.cids, 1);
  }
}
