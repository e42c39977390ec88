/** The leased process-group protocol: `run_owned` in the parent, `keeper_main` in the keeper, one step at a time. */
module LeasedGroup {
  import opened Wrappers

  /** The pids that the operating system hands out at the start. */
  datatype Pids = Pids(keeper: int, inner: int) {
    predicate Valid() {
      keeper > 0 && inner > 0 && keeper != inner
    }
  }

  datatype Message = Message(keeperPid: int, pgid: int, innerPid: int, returncode: int)

  datatype Signal = TERM | KILL

  const KILLED := -9

  /** Where the keeper is in its loop; `Exited` covers both zombie and reaped. */
  datatype KeeperPc = Starting | Polling | Wrote | Reading | Exited(code: int)

  datatype Inner = NotSpawned | Running | Gone(code: int)

  datatype ParentPc =
    | Waiting          // until the control line, the deadline or an end of file
    | Counting         // first inventory
    | Choosing         // release or terminate
    | Terming          // SIGTERM sent
    | Killing          // about to send SIGKILL
    | Draining         // waiting for the group and the pipes to end
    | Failing          // exception handler entered
    | HandlerDraining  // handler has sent SIGKILL
    | Finishing        // about to reap
    | Done

  /** The keeper, the other members of its group, and the pipes between keeper and parent. */
  datatype Group = Group(
    keeper: KeeperPc,
    sent: bool,
    inner: Inner,
    others: set<int>,           // live members besides the keeper
    message: Option<Message>,   // complete control line
    releaseByte: bool,          // written and not yet read
    stdinClosed: bool,
    swallowed: bool)            // a release byte was read before the result was sent

  datatype Parent = Parent(
    pc: ParentPc,
    control: Option<Message>,
    timedOut: bool,
    unexpected: set<int>,
    registered: bool,           // some output pipe has not ended yet
    released: bool,
    killed: bool,
    failed: bool,               // cleanup_error is set
    finalLive: set<int>,
    signals: seq<Signal>,       // group signals the parent has sent
    reaped: bool,
    guardian: Option<int>)

  datatype State = State(group: Group, parent: Parent)

  function Init(): State {
    State(Group(Starting, false, NotSpawned, {}, None, false, false, false),
          Parent(Waiting, None, false, {}, true, false, false, false, {}, [], false, None))
  }

  /** A move of the keeper or of another member, with what the environment decides for it. */
  datatype GroupStep =
    | SpawnInner
    | PollSend
    | PollSkip
    | CloseControl
    | Read
    | KeeperGivesUp            // deadline, or any exception: kills its own group
    | KeeperDies(exit: int)    // from outside
    | InnerExits(exit: int)
    | Fork(member: int, child: int)
    | Leave(member: int)

  datatype ParentStep =
    | TakeControl
    | Timeout
    | Raise
    | CountMembers
    | Release
    | Terminate
    | StopTerming
    | Kill
    | PipesEnd
    | FinalCount
    | DrainDone
    | HandlerKill
    | HandlerEnds
    | Reap
    | ReapTimeout

  datatype Step = GroupMoves(move: GroupStep) | ParentMoves(act: ParentStep)

  /** SIGKILL to the group: the keeper and every member still in it. */
  function KillGroup(p: Pids, g: Group): Group {
    g.(keeper := if g.keeper.Exited? then g.keeper else Exited(KILLED),
       inner := if g.inner.Running? && p.inner in g.others then Gone(KILLED) else g.inner,
       others := {})
  }

  predicate ValidControl(p: Pids, m: Message) {
    m.keeperPid == p.keeper && m.pgid == p.keeper && m.innerPid > 0
  }

  predicate BeforeChoice(pc: ParentPc) {
    pc.Waiting? || pc.Counting? || pc.Choosing?
  }

  predicate InTry(pc: ParentPc) {
    BeforeChoice(pc) || pc.Terming? || pc.Killing? || pc.Draining?
  }

  predicate MayRelease(r: Parent) {
    !r.timedOut && r.unexpected == {} && r.control.Some?
  }

  predicate GroupEnabled(p: Pids, g: Group, step: GroupStep) {
    match step
    case SpawnInner => g.keeper.Starting?
    case PollSend => g.keeper.Polling? && g.inner.Gone? && !g.sent
    case PollSkip => g.keeper.Polling? && (g.inner.Running? || g.sent)
    case CloseControl => g.keeper.Wrote?
    case Read => g.keeper.Reading?
    case KeeperGivesUp => !g.keeper.Exited?
    case KeeperDies(exit) => !g.keeper.Exited? && exit != 0
    case InnerExits(_) => g.inner.Running?
    case Fork(member, child) => member in g.others && child != p.keeper && child != p.inner
    case Leave(member) => member in g.others
  }

  function GroupNext(p: Pids, g: Group, step: GroupStep): Group
    requires GroupEnabled(p, g, step)
  {
    match step
    case SpawnInner => g.(keeper := Polling, inner := Running, others := g.others + {p.inner})
    case PollSend => g.(keeper := Wrote, message := Some(Message(p.keeper, p.keeper, p.inner, g.inner.code)))
    case PollSkip => g.(keeper := Reading)
    case CloseControl => g.(keeper := Reading, sent := true)
    case Read =>
      if g.releaseByte then
        if g.sent then g.(keeper := Exited(0), releaseByte := false)
        else g.(keeper := Polling, releaseByte := false, swallowed := true)
      else if g.stdinClosed then KillGroup(p, g)
      else g.(keeper := Polling)
    case KeeperGivesUp => KillGroup(p, g)
    case KeeperDies(exit) => g.(keeper := Exited(exit))
    case InnerExits(exit) => g.(inner := Gone(exit), others := g.others - {p.inner})
    case Fork(_, child) => g.(others := g.others + {child})
    case Leave(member) => g.(others := g.others - {member})
  }

  predicate ParentEnabled(p: Pids, s: State, step: ParentStep) {
    var pc := s.parent.pc;
    match step
    case TakeControl => pc.Waiting? && s.group.message.Some?
    case Timeout => pc.Waiting?
    case Raise => InTry(pc)
    case CountMembers => pc.Counting?
    case Release => pc.Choosing? && MayRelease(s.parent) && !s.group.keeper.Exited?
    case Terminate => pc.Choosing? && !MayRelease(s.parent)
    case StopTerming => pc.Terming?
    case Kill => pc.Killing?
    case PipesEnd => (pc.Draining? || pc.HandlerDraining?) && s.group.keeper.Exited?
    case FinalCount => pc.Draining? || pc.HandlerDraining?
    case DrainDone => pc.Draining? && s.parent.finalLive == {} && !s.parent.registered
    case HandlerKill => pc.Failing?
    case HandlerEnds => pc.Failing? || pc.HandlerDraining?
    case Reap => pc.Finishing? && s.group.keeper.Exited?
    case ReapTimeout => pc.Finishing?
  }

  function ParentNext(p: Pids, s: State, step: ParentStep): State
    requires ParentEnabled(p, s, step)
  {
    var State(g, r) := s;
    match step
    case TakeControl =>
      if ValidControl(p, g.message.value) then State(g, r.(control := g.message, pc := Counting))
      else State(g, r.(control := g.message, failed := true, pc := Failing))
    case Timeout => State(g, r.(timedOut := true, pc := Counting))
    case Raise => State(g, r.(failed := true, pc := Failing))
    case CountMembers => State(g, r.(unexpected := g.others, pc := Choosing))
    case Release => State(g.(releaseByte := true), r.(released := true, pc := Draining))
    case Terminate => State(g, r.(signals := r.signals + [TERM], pc := Terming))
    case StopTerming => State(g, r.(pc := Killing))
    case Kill => State(KillGroup(p, g), r.(signals := r.signals + [KILL], killed := true, pc := Draining))
    case PipesEnd => State(g, r.(registered := false))
    case FinalCount => State(g, r.(finalLive := g.others + if g.keeper.Exited? then {} else {p.keeper}))
    case DrainDone => State(g, r.(pc := Finishing))
    case HandlerKill => State(KillGroup(p, g), r.(signals := r.signals + [KILL], killed := true, pc := HandlerDraining))
    case HandlerEnds => State(g, r.(pc := Finishing))
    case Reap => State(g.(stdinClosed := true), r.(reaped := true, guardian := Some(g.keeper.code), pc := Done))
    case ReapTimeout => State(g.(stdinClosed := true), r.(failed := true, pc := Done))
  }

  predicate Enabled(p: Pids, s: State, step: Step) {
    match step
    case GroupMoves(move) => GroupEnabled(p, s.group, move)
    case ParentMoves(act) => ParentEnabled(p, s, act)
  }

  function Next(p: Pids, s: State, step: Step): State
    requires Enabled(p, s, step)
  {
    match step
    case GroupMoves(move) => s.(group := GroupNext(p, s.group, move))
    case ParentMoves(act) => ParentNext(p, s, act)
  }

  /** A run: any interleaving of enabled steps from the initial state. */
  ghost predicate Run(p: Pids, states: seq<State>, steps: seq<Step>) {
    && p.Valid()
    && |states| == |steps| + 1
    && states[0] == Init()
    && (forall i :: 0 <= i < |steps| ==>
          Enabled(p, states[i], steps[i]) && states[i + 1] == Next(p, states[i], steps[i]))
  }

  // ---------------------------------------------------------------- the receipt

  datatype Receipt = Receipt(
    returncode: Option<int>,
    keeperReturncode: Option<int>,
    timedOut: bool,
    leaseReleased: bool,
    killUsed: bool,
    cleanupError: bool,
    unexpectedLive: set<int>,
    finalLive: set<int>,
    childPid: int,
    ownedPgid: int,
    innerPid: Option<int>,
    control: Option<Message>)

  function ReceiptOf(p: Pids, s: State): Receipt {
    var r := s.parent;
    Receipt(
      if r.control.Some? then Some(r.control.value.returncode) else None,
      r.guardian, r.timedOut, r.released, r.killed,
      r.failed || r.finalLive != {},
      r.unexpected, r.finalLive, p.keeper, p.keeper,
      if r.control.Some? then Some(r.control.value.innerPid) else None,
      r.control)
  }

  predicate ProtocolOk(r: Receipt) {
    && r.returncode == Some(0)
    && r.keeperReturncode == Some(0)
    && !r.timedOut
    && r.leaseReleased
    && !r.killUsed
    && !r.cleanupError
    && r.unexpectedLive == {}
    && r.finalLive == {}
    && r.childPid > 0
    && r.ownedPgid == r.childPid
    && r.innerPid.Some? && r.innerPid.value > 0
    && r.control == Some(Message(r.childPid, r.childPid, r.innerPid.value, 0))
  }

  // ---------------------------------------------------------------- what every step keeps

  /** The line the keeper wrote is the truth about an inner command that is gone. */
  ghost predicate ControlIsTrue(p: Pids, g: Group) {
    && (g.keeper.Starting? ==> g.inner.NotSpawned? && g.others == {})
    && (g.inner.NotSpawned? ==> g.keeper.Starting? || g.keeper.Exited?)
    && (g.sent || g.keeper.Wrote? ==> g.message.Some?)
    && (g.keeper.Polling? || g.keeper.Reading? ==> (g.message.Some? <==> g.sent))
    && (g.message.Some? ==>
          && !g.keeper.Starting?
          && g.inner.Gone?
          && g.message.value == Message(p.keeper, p.keeper, p.inner, g.inner.code))
  }

  /** The lease is released last, with nobody else in the group, and to a keeper that has sent its result. */
  ghost predicate ReleaseIsLast(s: State) {
    var State(g, r) := s;
    && (r.control.Some? ==> r.control == g.message)
    && (r.pc.Choosing? && MayRelease(r) ==> g.others == {})
    && (r.released ==> r.control.Some? && r.unexpected == {} && g.others == {})
    && (g.releaseByte ==> r.released)
    && !g.swallowed
    && (g.keeper == Exited(0) ==> g.sent && r.released)
  }

  /** Signals leave a trace in the receipt, and none follows the reaping. */
  ghost predicate SignalsAreOwned(s: State) {
    var State(g, r) := s;
    && (r.signals != [] ==> r.killed || r.failed || r.pc.Terming? || r.pc.Killing?)
    && (r.killed ==> r.signals != [])
    && (r.pc.Terming? || r.pc.Killing? ==> !r.released)
    && (BeforeChoice(r.pc) ==> r.signals == [] && !r.released && !r.killed)
    && (r.pc.Draining? && !r.killed ==> r.released)
    && (r.reaped ==> r.pc.Done? && g.keeper.Exited? && r.guardian == Some(g.keeper.code))
    && (r.guardian.Some? ==> r.reaped)
    && (!r.registered ==> g.keeper.Exited?)
    && (r.pc.Failing? || r.pc.HandlerDraining? ==> r.failed)
    && ((r.pc.Finishing? || r.pc.Done?) && !r.failed ==> (r.released || r.killed) && !r.registered)
  }

  ghost predicate Invariant(p: Pids, s: State) {
    ControlIsTrue(p, s.group) && ReleaseIsLast(s) && SignalsAreOwned(s)
  }

  lemma GroupKeepsControl(p: Pids, g: Group, step: GroupStep)
    requires ControlIsTrue(p, g) && GroupEnabled(p, g, step)
    ensures ControlIsTrue(p, GroupNext(p, g, step))
    ensures g.message.Some? ==> GroupNext(p, g, step).message == g.message
    ensures g.message.Some? && g.others == {} ==> GroupNext(p, g, step).others == {}
  {
  }

  lemma GroupKeepsRelease(p: Pids, s: State, step: GroupStep)
    requires Invariant(p, s) && GroupEnabled(p, s.group, step)
    ensures ReleaseIsLast(s.(group := GroupNext(p, s.group, step)))
    ensures s.group.keeper.Exited? ==> GroupNext(p, s.group, step).keeper == s.group.keeper
  {
    hide SignalsAreOwned;
    GroupKeepsControl(p, s.group, step);
  }

  lemma GroupKeepsInvariant(p: Pids, s: State, step: GroupStep)
    requires Invariant(p, s) && GroupEnabled(p, s.group, step)
    ensures Invariant(p, s.(group := GroupNext(p, s.group, step)))
  {
    hide ControlIsTrue, ReleaseIsLast, GroupNext, GroupEnabled;
    GroupKeepsControl(p, s.group, step);
    GroupKeepsRelease(p, s, step);
  }

  lemma ParentKeepsInvariant(p: Pids, s: State, step: ParentStep)
    requires p.Valid() && Invariant(p, s) && ParentEnabled(p, s, step)
    ensures Invariant(p, ParentNext(p, s, step))
  {
    ParentKeepsSignals(p, s, step);
    hide SignalsAreOwned;
    assert ReleaseIsLast(ParentNext(p, s, step));
    hide ReleaseIsLast;
  }

  lemma ParentKeepsSignals(p: Pids, s: State, step: ParentStep)
    requires Invariant(p, s) && ParentEnabled(p, s, step)
    ensures SignalsAreOwned(ParentNext(p, s, step))
  {
    hide ControlIsTrue, ReleaseIsLast;
  }

  lemma {:induction false} RunsKeepTheInvariant(p: Pids, states: seq<State>, steps: seq<Step>, i: nat)
    requires Run(p, states, steps) && i < |states|
    ensures Invariant(p, states[i])
  {
    if i > 0 {
      RunsKeepTheInvariant(p, states, steps, i - 1);
      hide Invariant, Enabled;
      assert states[(i - 1) + 1] == Next(p, states[i - 1], steps[i - 1]);
      StepKeepsAll(p, states[i - 1], steps[i - 1]);
    }
  }

  lemma StepKeepsAll(p: Pids, s: State, step: Step)
    requires p.Valid() && Invariant(p, s) && Enabled(p, s, step)
    ensures Invariant(p, Next(p, s, step))
  {
    hide Invariant, GroupEnabled, ParentEnabled, GroupNext, ParentNext;
    match step
    case GroupMoves(move) => GroupKeepsInvariant(p, s, move);
    case ParentMoves(act) => ParentKeepsInvariant(p, s, act);
  }

  // ---------------------------------------------------------------- main results

  /**
   * Whenever the parent releases the lease it holds a valid and true control line, its inventory saw nobody
   * else in the group, and in fact nobody else is in the group at that moment or ever after.
   */
  lemma ReleaseOnlyWhenAlone(p: Pids, states: seq<State>, steps: seq<Step>, i: nat, j: nat)
    requires Run(p, states, steps) && i < |steps| && steps[i] == ParentMoves(Release) && i <= j < |states|
    ensures states[i].group.inner.Gone?
    ensures states[i].parent.control == Some(Message(p.keeper, p.keeper, p.inner, states[i].group.inner.code))
    ensures states[i].parent.unexpected == {} && states[i].group.others == {}
    ensures states[j].group.others == {}
  {
    RunsKeepTheInvariant(p, states, steps, i);
    assert Enabled(p, states[i], steps[i]) && states[i + 1] == Next(p, states[i], steps[i]);
    if j > i {
      ReleasedStays(p, states, steps, i + 1, j);
      RunsKeepTheInvariant(p, states, steps, j);
    }
  }

  lemma {:induction false} ReleasedStays(p: Pids, states: seq<State>, steps: seq<Step>, i: nat, j: nat)
    requires Run(p, states, steps) && i <= j < |states| && states[i].parent.released
    ensures states[j].parent.released
    decreases j - i
  {
    hide Invariant, Enabled, Next;
    if i < j {
      ReleasedStays(p, states, steps, i, j - 1);
      RunsKeepTheInvariant(p, states, steps, j - 1);
      assert states[(j - 1) + 1] == Next(p, states[j - 1], steps[j - 1]);
      StepKeepsPast(p, states[j - 1], steps[j - 1]);
    }
  }

  /** What has happened stays happened: a release, a reaping, and the list of signals once the keeper is reaped. */
  lemma StepKeepsPast(p: Pids, s: State, step: Step)
    requires p.Valid() && Invariant(p, s) && Enabled(p, s, step)
    ensures s.parent.released ==> Next(p, s, step).parent.released
    ensures s.parent.reaped ==> Next(p, s, step).parent.reaped && Next(p, s, step).parent.signals == s.parent.signals
  {
    hide ControlIsTrue, ReleaseIsLast, GroupNext, GroupEnabled;
  }

  /** Exit codes are final, whatever is signalled to the group later. */
  lemma ExitsAreFinal(p: Pids, s: State, step: Step)
    requires Invariant(p, s) && Enabled(p, s, step)
    ensures s.group.keeper.Exited? ==> Next(p, s, step).group.keeper == s.group.keeper
    ensures s.group.inner.Gone? ==> Next(p, s, step).group.inner == s.group.inner
  {
    hide ReleaseIsLast, SignalsAreOwned;
    match step
    case GroupMoves(move) => GroupExitsStay(p, s.group, move);
    case ParentMoves(act) => hide GroupNext, GroupEnabled;
  }

  lemma GroupExitsStay(p: Pids, g: Group, step: GroupStep)
    requires ControlIsTrue(p, g) && GroupEnabled(p, g, step)
    ensures g.keeper.Exited? ==> GroupNext(p, g, step).keeper == g.keeper
    ensures g.inner.Gone? ==> GroupNext(p, g, step).inner == g.inner
  {
  }

  /** The release byte is never swallowed: a keeper that reads it has sent its result, and exits with code zero. */
  lemma ReleaseByteIsHonoured(p: Pids, states: seq<State>, steps: seq<Step>, i: nat)
    requires Run(p, states, steps) && i < |steps| && steps[i] == GroupMoves(Read)
    requires states[i].group.releaseByte
    ensures states[i].group.sent && states[i + 1].group.keeper == Exited(0)
    ensures forall k :: 0 <= k < |states| ==> !states[k].group.swallowed
  {
    RunsKeepTheInvariant(p, states, steps, i);
    assert Enabled(p, states[i], steps[i]) && states[i + 1] == Next(p, states[i], steps[i]);
    forall k | 0 <= k < |states| ensures !states[k].group.swallowed {
      RunsKeepTheInvariant(p, states, steps, k);
    }
  }

  /** A group signal is only ever sent while the keeper is unreaped, so its pid still names this group. */
  lemma NoSignalAfterReaping(p: Pids, states: seq<State>, steps: seq<Step>, i: nat, j: nat)
    requires Run(p, states, steps) && i <= j < |states| && states[i].parent.reaped
    ensures states[j].parent.signals == states[i].parent.signals && states[j].parent.reaped
    decreases j - i
  {
    hide Invariant, Enabled, Next;
    if i < j {
      NoSignalAfterReaping(p, states, steps, i, j - 1);
      RunsKeepTheInvariant(p, states, steps, j - 1);
      assert states[(j - 1) + 1] == Next(p, states[j - 1], steps[j - 1]);
      StepKeepsPast(p, states[j - 1], steps[j - 1]);
    }
  }

  /**
   * A receipt that passes `protocol_ok` is the truth about the run: the inner command exited zero, the keeper
   * exited zero after an honoured release, nobody is left in the group, and the parent never signalled it.
   */
  lemma ProtocolOkIsSound(p: Pids, states: seq<State>, steps: seq<Step>, i: nat)
    requires Run(p, states, steps) && i < |states| && states[i].parent.pc.Done?
    requires ProtocolOk(ReceiptOf(p, states[i]))
    ensures states[i].group.inner == Gone(0)
    ensures states[i].group.keeper == Exited(0) && states[i].parent.reaped && states[i].group.sent
    ensures states[i].group.others == {}
    ensures states[i].parent.signals == []
  {
    RunsKeepTheInvariant(p, states, steps, i);
  }

  /** Parent-side faults always show: without a clean end, or with any signal sent, the receipt does not pass. */
  lemma SignalledRunsDoNotPass(p: Pids, states: seq<State>, steps: seq<Step>, i: nat)
    requires Run(p, states, steps) && i < |states| && states[i].parent.pc.Done?
    requires
      var State(g, r) := states[i];
      r.signals != [] || r.failed || r.timedOut || g.inner != Gone(0) || g.others != {}
    ensures !ProtocolOk(ReceiptOf(p, states[i]))
  {
    RunsKeepTheInvariant(p, states, steps, i);
  }

  /** One receipt passes for each pair of pids, and no other. */
  lemma OnlyOneReceiptPasses(r: Receipt)
    ensures ProtocolOk(r) <==>
            exists keeper, inner :: keeper > 0 && inner > 0 &&
              r == Receipt(Some(0), Some(0), false, true, false, false, {}, {}, keeper, keeper, Some(inner),
                           Some(Message(keeper, keeper, inner, 0)))
  {
    if ProtocolOk(r) {
      assert r == Receipt(Some(0), Some(0), false, true, false, false, {}, {}, r.childPid, r.childPid,
                          Some(r.innerPid.value), Some(Message(r.childPid, r.childPid, r.innerPid.value, 0)));
    }
  }

  // ---------------------------------------------------------------- nobody is stuck

  /** Keeper steps from a state, one after another; each must be open to it. */
  ghost predicate KeeperGoes(p: Pids, g: Group, moves: seq<GroupStep>, end: Group)
    decreases |moves|
  {
    if moves == [] then g == end
    else GroupEnabled(p, g, moves[0]) && KeeperGoes(p, GroupNext(p, g, moves[0]), moves[1..], end)
  }

  lemma GoesOneOrTwo(p: Pids, g: Group, a: GroupStep, b: GroupStep)
    requires GroupEnabled(p, g, a)
    ensures KeeperGoes(p, g, [a], GroupNext(p, g, a))
    ensures GroupEnabled(p, GroupNext(p, g, a), b) ==>
              KeeperGoes(p, g, [a, b], GroupNext(p, GroupNext(p, g, a), b))
  {
    var one, two := GroupNext(p, g, a), [a, b];
    assert [a][1..] == [] && two[1..] == [b] && [b][1..] == [];
    assert KeeperGoes(p, one, [], one);
    if GroupEnabled(p, one, b) {
      assert KeeperGoes(p, GroupNext(p, one, b), [], GroupNext(p, one, b));
      assert KeeperGoes(p, one, [b], GroupNext(p, one, b));
    }
  }

  /** A released keeper that nobody harms needs at most two steps of its own to exit with code zero. */
  lemma ReleasedKeeperExits(p: Pids, s: State) returns (moves: seq<GroupStep>, end: Group)
    requires Invariant(p, s) && s.group.releaseByte && !s.group.keeper.Exited?
    ensures |moves| <= 2 && KeeperGoes(p, s.group, moves, end) && end.keeper == Exited(0)
    ensures forall i :: 0 <= i < |moves| ==> moves[i] in [PollSkip, CloseControl, Read]
  {
    var g := s.group;
    if g.keeper.Reading? {
      moves, end := [Read], GroupNext(p, g, Read);
      GoesOneOrTwo(p, g, Read, Read);
    } else {
      var first := if g.keeper.Wrote? then CloseControl else PollSkip;
      moves, end := [first, Read], GroupNext(p, GroupNext(p, g, first), Read);
      GoesOneOrTwo(p, g, first, Read);
    }
  }

  /** A keeper whose parent is gone empties the group as soon as it next reads its input. */
  lemma LostKeeperCleansUp(p: Pids, s: State)
    requires Invariant(p, s) && s.group.stdinClosed && !s.group.releaseByte
    ensures s.group.keeper.Reading? ==> Emptied(GroupNext(p, s.group, Read))
    ensures s.group.keeper.Polling? ==>
              || (GroupEnabled(p, s.group, PollSkip) && GroupNext(p, s.group, PollSkip).keeper == Reading)
              || (GroupEnabled(p, s.group, PollSend) && GroupNext(p, s.group, PollSend).keeper == Wrote)
    ensures s.group.keeper.Wrote? ==>
              GroupEnabled(p, s.group, CloseControl) && GroupNext(p, s.group, CloseControl).keeper == Reading
    ensures s.group.keeper.Starting? ==>
              GroupEnabled(p, s.group, SpawnInner) && GroupNext(p, s.group, SpawnInner).keeper == Polling
  {
  }

  /** The parent can fail at any moment before it has entered its handler, and whatever it fails in it can end. */
  lemma ParentCanEnd(p: Pids, s: State)
    ensures s.parent.pc in {Failing, HandlerDraining, Finishing, Done} || ParentEnabled(p, s, Raise)
    ensures ParentEnabled(p, s, Raise) ==> ParentNext(p, s, Raise).parent.pc == Failing
    ensures s.parent.pc in {Failing, HandlerDraining} ==>
              ParentEnabled(p, s, HandlerEnds) && ParentNext(p, s, HandlerEnds).parent.pc == Finishing
    ensures s.parent.pc == Finishing ==>
              && ParentEnabled(p, s, ReapTimeout) && ParentNext(p, s, ReapTimeout).parent.pc == Done
              // an unreaped keeper is told by the end of its input, and the receipt tells that it was left
              && ParentNext(p, s, ReapTimeout).group.stdinClosed && ParentNext(p, s, ReapTimeout).parent.failed
  {
  }

  /** Once the command is gone a keeper that nobody harms reports its exit code within two steps of its own. */
  lemma ExitIsReported(p: Pids, s: State) returns (moves: seq<GroupStep>, end: Group)
    requires Invariant(p, s) && s.group.inner.Gone? && s.group.message.None?
    requires !s.group.keeper.Exited? && !s.group.releaseByte && !s.group.stdinClosed
    ensures |moves| <= 2 && KeeperGoes(p, s.group, moves, end)
    ensures end.message == Some(Message(p.keeper, p.keeper, p.inner, s.group.inner.code))
    ensures forall i :: 0 <= i < |moves| ==> moves[i] in [PollSend, Read]
  {
    var g := s.group;
    if g.keeper.Polling? {
      moves, end := [PollSend], GroupNext(p, g, PollSend);
      GoesOneOrTwo(p, g, PollSend, PollSend);
    } else {
      moves, end := [Read, PollSend], GroupNext(p, GroupNext(p, g, Read), PollSend);
      GoesOneOrTwo(p, g, Read, PollSend);
    }
  }

  /** The last count names whoever is alive in the group, keeper included, and the receipt complains of any. */
  lemma SurvivorsAreReported(p: Pids, s: State)
    requires ParentEnabled(p, s, FinalCount)
    ensures
      var receipt := ReceiptOf(p, ParentNext(p, s, FinalCount));
      && (forall m :: m in receipt.finalLive <==> m in s.group.others || (m == p.keeper && !s.group.keeper.Exited?))
      && (receipt.finalLive != {} ==> receipt.cleanupError)
  {
  }

  /** What happens around the two programs: a child joins the group, a member leaves it, the keeper is killed. */
  lemma WorldMoves(p: Pids, g: Group, member: int, child: int, exit: int)
    ensures GroupEnabled(p, g, Fork(member, child)) ==> child in GroupNext(p, g, Fork(member, child)).others
    ensures GroupEnabled(p, g, Leave(member)) ==> member !in GroupNext(p, g, Leave(member)).others
    ensures GroupEnabled(p, g, KeeperDies(exit)) ==> GroupNext(p, g, KeeperDies(exit)).keeper == Exited(exit)
    ensures !g.keeper.Exited? && exit != 0 ==> GroupEnabled(p, g, KeeperDies(exit))
    ensures member in g.others && child !in {p.keeper, p.inner} ==> GroupEnabled(p, g, Fork(member, child))
  {
  }

  /** A control line that names another keeper or group, or no inner command, fails the run. */
  lemma ForeignControlFails(p: Pids, s: State)
    requires ParentEnabled(p, s, TakeControl)
    requires
      var m := s.group.message.value;
      m.keeperPid != p.keeper || m.pgid != p.keeper || m.innerPid <= 0
    ensures ParentNext(p, s, TakeControl).parent.failed && ParentNext(p, s, TakeControl).parent.pc == Failing
  {
  }

  // ---------------------------------------------------------------- which runs end which way

  /** Nothing has run late, failed or been raised in the parent, and its count found nobody but the keeper. */
  ghost predicate Calm(states: seq<State>, steps: seq<Step>)
    requires |states| == |steps| + 1
  {
    forall i :: 0 <= i < |steps| ==> CalmStep(states[i], steps[i])
  }

  predicate CalmStep(s: State, step: Step) {
    && step != ParentMoves(Timeout) && step != ParentMoves(Raise) && step != ParentMoves(ReapTimeout)
    && (step == ParentMoves(CountMembers) ==> s.group.others == {})
  }

  predicate KeeperIsHarmed(step: Step) {
    step == GroupMoves(KeeperGivesUp) || (step.GroupMoves? && step.move.KeeperDies?)
  }

  ghost predicate CalmState(s: State) {
    var State(g, r) := s;
    && !r.timedOut && !r.failed && !r.killed && r.signals == [] && r.unexpected == {}
    && !r.pc.Terming? && !r.pc.Killing? && !r.pc.Failing? && !r.pc.HandlerDraining?
    && (!r.pc.Waiting? ==> r.control.Some?)
    && (r.pc.Draining? || r.pc.Finishing? || r.pc.Done? ==> r.released)
    && (r.pc.Done? ==> r.reaped && r.finalLive == {})
    && (r.pc.Finishing? ==> r.finalLive == {})
    && (g.stdinClosed ==> g.keeper.Exited?)
  }

  lemma CalmStepKeeps(p: Pids, s: State, step: Step)
    requires p.Valid() && Invariant(p, s) && CalmState(s) && Enabled(p, s, step) && CalmStep(s, step)
    ensures CalmState(Next(p, s, step))
    ensures s.group.keeper == Exited(0) || !s.group.keeper.Exited? ==>
              KeeperIsHarmed(step) || Next(p, s, step).group.keeper == Exited(0)
              || !Next(p, s, step).group.keeper.Exited?
  {
    hide SignalsAreOwned;
  }

  lemma {:induction false} CalmRuns(p: Pids, states: seq<State>, steps: seq<Step>, i: nat)
    requires Run(p, states, steps) && Calm(states, steps) && i < |states|
    ensures CalmState(states[i])
    ensures (forall k :: 0 <= k < i ==> !KeeperIsHarmed(steps[k])) ==>
              states[i].group.keeper == Exited(0) || !states[i].group.keeper.Exited?
  {
    hide Enabled, Next;
    RunShape(p, states, steps);
    if i > 0 {
      assert CalmStep(states[i - 1], steps[i - 1]);
      hide *;
      CalmRuns(p, states, steps, i - 1);
      RunsKeepTheInvariant(p, states, steps, i - 1);
      StepOfRun(p, states, steps, i - 1);
      CalmStepKeeps(p, states[i - 1], steps[i - 1]);
    }
  }

  /**
   * Whatever the command's exit code: when nothing runs late or fails in the parent and its count finds nobody else,
   * no signal is ever sent; the run ends with the lease released, the group empty and that exit code in the receipt;
   * and the keeper then exits zero, unless it gave up or was killed from outside.
   */
  lemma CalmRunsRelease(p: Pids, states: seq<State>, steps: seq<Step>, i: nat)
    requires Run(p, states, steps) && Calm(states, steps) && i < |states|
    ensures states[i].parent.signals == [] && !states[i].parent.failed
    ensures states[i].parent.pc.Done? ==>
              var State(g, r) := states[i];
              var receipt := ReceiptOf(p, states[i]);
              && r.released && g.others == {} && g.inner.Gone?
              && receipt.returncode == Some(g.inner.code) && !receipt.cleanupError && receipt.leaseReleased
              && (ProtocolOk(receipt) <==> g.inner.code == 0 && g.keeper == Exited(0))
    ensures states[i].parent.pc.Done? && (forall k :: 0 <= k < i ==> !KeeperIsHarmed(steps[k])) ==>
              states[i].group.keeper == Exited(0)
  {
    CalmRuns(p, states, steps, i);
    RunsKeepTheInvariant(p, states, steps, i);
  }

  /** The two ways in which a parent that nothing has failed in leaves the group. */
  ghost predicate Left(r: Parent) {
    if r.released then r.signals == [] && !r.killed && !r.timedOut && r.unexpected == {} && r.control.Some?
    else r.signals == [TERM, KILL] && r.killed && (r.timedOut || r.unexpected != {})
  }

  ghost predicate Deciding(r: Parent) {
    && ((r.pc.Counting? || r.pc.Choosing?) && r.control.None? ==> r.timedOut)
    && (r.pc.Terming? || r.pc.Killing? ==> r.signals == [TERM] && (r.timedOut || r.unexpected != {}))
    && (r.pc.Draining? ==> Left(r))
    && ((r.pc.Finishing? || r.pc.Done?) && !r.failed ==> Left(r))
    && (r.killed <==> KILL in r.signals)
    && |r.signals| <= (if r.pc.HandlerDraining? || r.pc.Finishing? || r.pc.Done? then 3 else 2)
  }

  lemma {:induction false} RunsDecide(p: Pids, states: seq<State>, steps: seq<Step>, i: nat)
    requires Run(p, states, steps) && i < |states|
    ensures Deciding(states[i].parent)
  {
    if i > 0 {
      RunsDecide(p, states, steps, i - 1);
      RunsKeepTheInvariant(p, states, steps, i - 1);
      StepOfRun(p, states, steps, i - 1);
      hide Invariant, Next, Enabled, Deciding;
      StepDecides(p, states[i - 1], steps[i - 1]);
    }
  }

  /** The receipt says that KILL was used exactly when it was sent, and no run sends more than three signals. */
  lemma KillIsReported(p: Pids, states: seq<State>, steps: seq<Step>, i: nat)
    requires Run(p, states, steps) && i < |states|
    ensures ReceiptOf(p, states[i]).killUsed <==> KILL in states[i].parent.signals
    ensures |states[i].parent.signals| <= 3
  {
    RunsDecide(p, states, steps, i);
  }

  lemma StepDecides(p: Pids, s: State, step: Step)
    requires Invariant(p, s) && Deciding(s.parent) && Enabled(p, s, step)
    ensures Deciding(Next(p, s, step).parent)
  {
    hide ControlIsTrue, ReleaseIsLast;
    if step.ParentMoves? {
      hide SignalsAreOwned, Deciding, ParentEnabled, ParentNext;
      ParentDecides(p, s, step.act);
    } else {
      hide GroupNext, GroupEnabled, Invariant, Deciding;
    }
  }

  lemma ParentDecides(p: Pids, s: State, act: ParentStep)
    requires SignalsAreOwned(s) && Deciding(s.parent) && ParentEnabled(p, s, act)
    ensures Deciding(ParentNext(p, s, act).parent)
  {
    hide ValidControl, KillGroup;
  }

  /**
   * A run that ends without a failure in the parent has either released the lease unsignalled, which it does exactly
   * when nothing ran late and the count found nobody else, or has terminated and then killed the group. Either
   * way nobody is left in the group.
   */
  lemma CleanEndsAreDecided(p: Pids, states: seq<State>, steps: seq<Step>, i: nat)
    requires Run(p, states, steps) && i < |states| && states[i].parent.pc.Done? && !states[i].parent.failed
    ensures
      var State(g, r) := states[i];
      && (r.released <==> !r.timedOut && r.unexpected == {})
      && r.signals == (if r.released then [] else [TERM, KILL])
      && g.others == {} && g.keeper.Exited?
  {
    RunsDecide(p, states, steps, i);
    RunsKeepTheInvariant(p, states, steps, i);
    KilledIsEmpty(p, states, steps, i);
  }

  /** Nobody but a dead keeper is in the group. */
  predicate Emptied(g: Group) {
    g.others == {} && g.keeper.Exited?
  }

  lemma EmptyStays(p: Pids, s: State, step: Step)
    requires Enabled(p, s, step)
    ensures Emptied(s.group) ==> Emptied(Next(p, s, step).group)
    ensures Next(p, s, step).parent.killed && !s.parent.killed ==> Emptied(Next(p, s, step).group)
  {
    match step
    case GroupMoves(move) =>
      GroupStaysEmpty(p, s.group, move);
      hide GroupNext, GroupEnabled, Emptied;
    case ParentMoves(act) =>
      ParentKeepsEmpty(p, s, act);
      hide ParentNext, ParentEnabled, Emptied;
  }

  lemma GroupStaysEmpty(p: Pids, g: Group, step: GroupStep)
    requires GroupEnabled(p, g, step)
    ensures Emptied(g) ==> Emptied(GroupNext(p, g, step))
    ensures step.KeeperGivesUp? || (step.Read? && g.stdinClosed && !g.releaseByte) ==>
              Emptied(GroupNext(p, g, step)) && (p.inner in g.others ==> !GroupNext(p, g, step).inner.Running?)
  {
  }

  lemma ParentKeepsEmpty(p: Pids, s: State, act: ParentStep)
    requires ParentEnabled(p, s, act)
    ensures Emptied(s.group) ==> Emptied(ParentNext(p, s, act).group)
    ensures act.Kill? || act.HandlerKill? ==>
              && Emptied(ParentNext(p, s, act).group)
              && (p.inner in s.group.others ==> !ParentNext(p, s, act).group.inner.Running?)
    ensures ParentNext(p, s, act).parent.killed && !s.parent.killed ==> act.Kill? || act.HandlerKill?
  {
    hide ValidControl;
  }

  lemma {:induction false} KilledIsEmpty(p: Pids, states: seq<State>, steps: seq<Step>, i: nat)
    requires Run(p, states, steps) && i < |states|
    ensures states[i].parent.killed ==> Emptied(states[i].group)
  {
    if i > 0 {
      KilledIsEmpty(p, states, steps, i - 1);
      StepOfRun(p, states, steps, i - 1);
      hide *;
      EmptyStays(p, states[i - 1], steps[i - 1]);
    }
  }

  /** The steps that kill the group: by the parent, or by a keeper that gives up or has lost its parent. */
  predicate Kills(s: State, step: Step) {
    match step
    case GroupMoves(move) => move.KeeperGivesUp? || (move.Read? && s.group.stdinClosed && !s.group.releaseByte)
    case ParentMoves(act) => act.Kill? || act.HandlerKill?
  }

  lemma KillEmpties(p: Pids, s: State, step: Step)
    requires Enabled(p, s, step) && Kills(s, step)
    ensures Emptied(Next(p, s, step).group)
    ensures p.inner in s.group.others ==> !Next(p, s, step).group.inner.Running?
  {
    hide Emptied, GroupNext, ParentNext, GroupEnabled, ParentEnabled;
    match step
    case GroupMoves(move) => GroupStaysEmpty(p, s.group, move);
    case ParentMoves(act) => ParentKeepsEmpty(p, s, act);
  }

  /** A kill leaves nobody in the group, then or later, and no command running that was in it. */
  lemma {:induction false} KillEmptiesTheGroup(p: Pids, states: seq<State>, steps: seq<Step>, i: nat, j: nat)
    requires Run(p, states, steps) && i < |steps| && i < j < |states| && Kills(states[i], steps[i])
    ensures Emptied(states[j].group)
    ensures p.inner in states[i].group.others ==> !states[i + 1].group.inner.Running?
    decreases j
  {
    hide *;
    RunShape(p, states, steps);
    StepOfRun(p, states, steps, i);
    StepOfRun(p, states, steps, j - 1);
    KillEmpties(p, states[i], steps[i]);
    if j > i + 1 {
      KillEmptiesTheGroup(p, states, steps, i, j - 1);
      EmptyStays(p, states[j - 1], steps[j - 1]);
    }
  }

  lemma RunShape(p: Pids, states: seq<State>, steps: seq<Step>)
    requires Run(p, states, steps)
    ensures p.Valid() && |states| == |steps| + 1 && states[0] == Init()
  {
    hide Enabled, Next;
  }

  lemma StepOfRun(p: Pids, states: seq<State>, steps: seq<Step>, i: nat)
    requires Run(p, states, steps) && i < |steps|
    ensures |states| == |steps| + 1 && Enabled(p, states[i], steps[i]) && states[i + 1] == Next(p, states[i], steps[i])
  {
    hide Enabled, Next;
  }

  lemma Extend(p: Pids, states: seq<State>, steps: seq<Step>, step: Step) returns (next: State)
    requires Run(p, states, steps) && Enabled(p, states[|steps|], step)
    ensures next == Next(p, states[|steps|], step)
    ensures Run(p, states + [next], steps + [step])
  {
    hide Enabled, Next;
    next := Next(p, states[|steps|], step);
    var longer, all := states + [next], steps + [step];
    forall i | 0 <= i < |all|
      ensures Enabled(p, longer[i], all[i]) && longer[i + 1] == Next(p, longer[i], all[i])
    {
      if i < |steps| {
        assert Enabled(p, states[i], steps[i]) && states[i + 1] == Next(p, states[i], steps[i]);
        assert longer[i] == states[i] && longer[i + 1] == states[i + 1];
      }
    }
  }

  /** The undisturbed run of a command that exits with `code`. */
  function Schedule(code: int): seq<Step> {
    [GroupMoves(SpawnInner), GroupMoves(InnerExits(code)), GroupMoves(PollSend), ParentMoves(TakeControl),
     ParentMoves(CountMembers), ParentMoves(Release), GroupMoves(CloseControl), GroupMoves(Read),
     ParentMoves(PipesEnd), ParentMoves(FinalCount), ParentMoves(DrainDone), ParentMoves(Reap)]
  }

  /** State of the undisturbed run after `n` steps. */
  function Undisturbed(p: Pids, code: int, n: nat): State {
    var m := Some(Message(p.keeper, p.keeper, p.inner, code));
    var group :=
      if n == 0 then Init().group
      else if n == 1 then Group(Polling, false, Running, {p.inner}, None, false, false, false)
      else if n == 2 then Group(Polling, false, Gone(code), {}, None, false, false, false)
      else if n <= 5 then Group(Wrote, false, Gone(code), {}, m, false, false, false)
      else if n == 6 then Group(Wrote, false, Gone(code), {}, m, true, false, false)
      else if n == 7 then Group(Reading, true, Gone(code), {}, m, true, false, false)
      else Group(Exited(0), true, Gone(code), {}, m, false, n > 11, false);
    var pc := if n <= 3 then Waiting else if n == 4 then Counting else if n == 5 then Choosing
              else if n <= 10 then Draining else if n == 11 then Finishing else Done;
    State(group, Parent(pc, if n <= 3 then None else m, false, {}, n <= 8, n > 5, false, false, {}, [], n > 11,
                        if n > 11 then Some(0) else None))
  }

  lemma UndisturbedStep(p: Pids, code: int, n: nat)
    requires p.Valid() && n < 12
    ensures Enabled(p, Undisturbed(p, code, n), Schedule(code)[n])
    ensures Next(p, Undisturbed(p, code, n), Schedule(code)[n]) == Undisturbed(p, code, n + 1)
    ensures CalmStep(Undisturbed(p, code, n), Schedule(code)[n]) && !KeeperIsHarmed(Schedule(code)[n])
  {
  }

  /** The undisturbed run exists for any exit code; it ends in a receipt with that code, which passes if it is zero. */
  lemma SuccessIsReachable(p: Pids, code: int) returns (states: seq<State>, steps: seq<Step>)
    requires p.keeper > 0 && p.inner > 0 && p.keeper != p.inner
    ensures Run(p, states, steps) && Calm(states, steps)
    ensures
      var end := states[|states| - 1];
      && end.parent.pc.Done? && end.parent.released && end.group.keeper == Exited(0)
      && ReceiptOf(p, end).returncode == Some(code) && (ProtocolOk(ReceiptOf(p, end)) <==> code == 0)
  {
    states, steps := [Undisturbed(p, code, 0)], [];
    while |steps| < 12
      invariant |steps| <= 12 && Run(p, states, steps) && states[|steps|] == Undisturbed(p, code, |steps|)
      invariant Calm(states, steps)
      decreases 12 - |steps|
    {
      hide Enabled, Next, Undisturbed, Schedule, CalmStep;
      UndisturbedStep(p, code, |steps|);
      var next := Extend(p, states, steps, Schedule(code)[|steps|]);
      states, steps := states + [next], steps + [Schedule(code)[|steps|]];
    }
  }

  /** The run of a command that leaves a child behind in the group. */
  function Leftover(p: Pids, child: int): seq<Step> {
    [GroupMoves(SpawnInner), GroupMoves(Fork(p.inner, child)), GroupMoves(InnerExits(0)), GroupMoves(PollSend),
     ParentMoves(TakeControl), ParentMoves(CountMembers), ParentMoves(Terminate), ParentMoves(StopTerming),
     ParentMoves(Kill), ParentMoves(PipesEnd), ParentMoves(FinalCount), ParentMoves(DrainDone), ParentMoves(Reap)]
  }

  /** State of that run after `n` steps. */
  function LeftoverState(p: Pids, child: int, n: nat): State {
    var m := Some(Message(p.keeper, p.keeper, p.inner, 0));
    var group :=
      if n == 0 then Init().group
      else if n == 1 then Group(Polling, false, Running, {p.inner}, None, false, false, false)
      else if n == 2 then Group(Polling, false, Running, {p.inner, child}, None, false, false, false)
      else if n == 3 then Group(Polling, false, Gone(0), {child}, None, false, false, false)
      else if n <= 8 then Group(Wrote, false, Gone(0), {child}, m, false, false, false)
      else Group(Exited(KILLED), false, Gone(0), {}, m, false, n > 12, false);
    var pc := if n <= 4 then Waiting else if n == 5 then Counting else if n == 6 then Choosing
              else if n == 7 then Terming else if n == 8 then Killing else if n <= 11 then Draining
              else if n == 12 then Finishing else Done;
    var signals := if n <= 6 then [] else if n <= 8 then [TERM] else [TERM, KILL];
    State(group, Parent(pc, if n <= 4 then None else m, false, if n <= 5 then {} else {child}, n <= 9, false, n > 8,
                        false, {}, signals, n > 12, if n > 12 then Some(KILLED) else None))
  }

  lemma LeftoverStep(p: Pids, child: int, n: nat)
    requires p.Valid() && child != p.keeper && child != p.inner && n < 13
    ensures Enabled(p, LeftoverState(p, child, n), Leftover(p, child)[n])
    ensures Next(p, LeftoverState(p, child, n), Leftover(p, child)[n]) == LeftoverState(p, child, n + 1)
  {
  }

  /** A command that exits zero but leaves a child behind is terminated and killed, and its receipt does not pass. */
  lemma LeftoverIsKilled(p: Pids, child: int) returns (states: seq<State>, steps: seq<Step>)
    requires p.Valid() && child != p.keeper && child != p.inner
    ensures Run(p, states, steps)
    ensures
      var end := states[|states| - 1];
      && end.parent.pc.Done? && !end.parent.failed && end.parent.signals == [TERM, KILL] && end.group.others == {}
      && ReceiptOf(p, end).returncode == Some(0) && ReceiptOf(p, end).unexpectedLive == {child}
      && !ProtocolOk(ReceiptOf(p, end))
  {
    states, steps := [LeftoverState(p, child, 0)], [];
    while |steps| < 13
      invariant |steps| <= 13 && Run(p, states, steps) && states[|steps|] == LeftoverState(p, child, |steps|)
      decreases 13 - |steps|
    {
      hide Enabled, Next, LeftoverState, Leftover;
      LeftoverStep(p, child, |steps|);
      var next := Extend(p, states, steps, Leftover(p, child)[|steps|]);
      states, steps := states + [next], steps + [Leftover(p, child)[|steps|]];
    }
  }

  /** The run of a command that does not end in time. */
  function Overdue(): seq<Step> {
    [GroupMoves(SpawnInner), ParentMoves(Timeout), ParentMoves(CountMembers), ParentMoves(Terminate),
     ParentMoves(StopTerming), ParentMoves(Kill), ParentMoves(PipesEnd), ParentMoves(FinalCount),
     ParentMoves(DrainDone), ParentMoves(Reap)]
  }

  /** State of that run after `n` steps. */
  function OverdueState(p: Pids, n: nat): State {
    var group :=
      if n == 0 then Init().group
      else if n <= 5 then Group(Polling, false, Running, {p.inner}, None, false, false, false)
      else Group(Exited(KILLED), false, Gone(KILLED), {}, None, false, n > 9, false);
    var pc := if n <= 1 then Waiting else if n == 2 then Counting else if n == 3 then Choosing
              else if n == 4 then Terming else if n == 5 then Killing else if n <= 8 then Draining
              else if n == 9 then Finishing else Done;
    var signals := if n <= 3 then [] else if n <= 5 then [TERM] else [TERM, KILL];
    State(group, Parent(pc, None, n > 1, if n <= 2 then {} else {p.inner}, n <= 6, false, n > 5, false, {}, signals,
                        n > 9, if n > 9 then Some(KILLED) else None))
  }

  lemma OverdueStep(p: Pids, n: nat)
    requires p.Valid() && n < 10
    ensures Enabled(p, OverdueState(p, n), Overdue()[n])
    ensures Next(p, OverdueState(p, n), Overdue()[n]) == OverdueState(p, n + 1)
  {
  }

  /** A command that does not end in time is terminated and killed, and its receipt says so. */
  lemma OverdueIsKilled(p: Pids) returns (states: seq<State>, steps: seq<Step>)
    requires p.Valid()
    ensures Run(p, states, steps)
    ensures
      var end := states[|states| - 1];
      && end.parent.pc.Done? && !end.parent.failed && end.parent.signals == [TERM, KILL]
      && end.group.others == {} && end.group.inner == Gone(KILLED)
      && ReceiptOf(p, end).timedOut && ReceiptOf(p, end).returncode.None? && !ProtocolOk(ReceiptOf(p, end))
  {
    states, steps := [OverdueState(p, 0)], [];
    while |steps| < 10
      invariant |steps| <= 10 && Run(p, states, steps) && states[|steps|] == OverdueState(p, |steps|)
      decreases 10 - |steps|
    {
      hide Enabled, Next, OverdueState, Overdue;
      OverdueStep(p, |steps|);
      var next := Extend(p, states, steps, Overdue()[|steps|]);
      states, steps := states + [next], steps + [Overdue()[|steps|]];
    }
  }
}
