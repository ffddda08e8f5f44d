/** The cluster-wide latch: share and exclusive latches of many instances on one
    resource, granted by the resource's master (dtc_dls.c, and the lock owner part of
    dtc_drc.c).  Every step below is one critical section of the source: under the lock
    of the local resource at an instance, or under the bucket lock at the master. */
module DistributedLatch {
  import opened Wrappers

  type Inst = nat

  datatype Mode = NoLock | Share | Exclusive

  predicate Compatible(want: Mode, have: Mode) {
    want == NoLock || have == NoLock || (want == Share && have == Share)
  }

  /** What a thread of an instance that holds the local resource is waiting for. */
  datatype Ask = Free | Sent(mode: Mode) | Waiting(mode: Mode) | Answered(mode: Mode, granted: bool)

  datatype Stat = Idle | Shared | Intent | Held

  /** The latch as one instance sees it: the mode the master has granted it, and how its
      own threads use it. */
  datatype Local = Local(mode: Mode, stat: Stat, shared: nat, locked: bool, ask: Ask)

  /** The request being served: once started, the owners still to be asked, and one that
      has given up its mode but is not yet struck off the granted map. */
  datatype Conversion = Conversion(inst: Inst, mode: Mode, started: bool, todo: set<Inst>, acked: Option<Inst>)

  datatype Master = Master(mode: Mode, granted: set<Inst>, converting: Option<Conversion>, queue: seq<(Inst, Mode)>)

  datatype Cluster = Cluster(master: Master, locals: seq<Local>)

  datatype Step =
    | LatchX(inst: Inst)
    | Upgrade(inst: Inst)
    | LatchS(inst: Inst, force: bool)
    | Unlatch(inst: Inst)
    | GiveUpUpgrade(inst: Inst)
    | Receive(inst: Inst)
    | Start
    | Release(inst: Inst)
    | ClearGranted
    | GiveUp
    | Claim
    | Answer(inst: Inst)

  // --------------------------------------------------------------- steps of an instance

  /** A thread wants the latch exclusively: it has it, must ask for it, or announces
      itself behind readers.  None while it has to wait. */
  function TryLatchX(l: Local): Option<Local> {
    if l.ask != Free then None
    else match l.stat
      case Idle => Some(if l.mode == Exclusive then l.(stat := Held, locked := true) else l.(ask := Sent(Exclusive)))
      case Shared => Some(l.(stat := Intent))
      case _ => None
  }

  /** An announced writer whose readers have gone asks the master. */
  function TryUpgrade(l: Local): Option<Local> {
    if l.ask == Free && l.stat == Intent && l.shared == 0 then Some(l.(ask := Sent(Exclusive))) else None
  }

  /** An announced writer whose time is up steps back. */
  function TryGiveUpUpgrade(l: Local): Option<Local> {
    if l.ask == Free && l.stat == Intent then Some(l.(stat := if l.shared > 0 then Shared else Idle)) else None
  }

  /** A thread wants to share the latch; `force` lets it in behind an announced writer. */
  function TryLatchS(l: Local, force: bool): Option<Local> {
    if l.ask != Free then None
    else if l.stat == Idle then
      Some(if l.mode == NoLock then l.(ask := Sent(Share)) else l.(stat := Shared, shared := 1, locked := true))
    else if l.stat == Shared || (l.stat == Intent && force) then Some(l.(shared := l.shared + 1, locked := true))
    else None
  }

  function TryUnlatch(l: Local): Option<Local> {
    if l.ask != Free || (l.stat != Held && l.shared == 0) then None
    else
      var left := if l.shared > 0 then l.shared - 1 else 0;
      Some(l.(shared := left, locked := false,
              stat := if (l.stat == Shared || l.stat == Held) && left == 0 then Idle else l.stat))
  }

  /** The owner gives up its mode, or keeps it shared, once no thread uses the latch. */
  predicate CanRelease(l: Local) {
    l.ask == Free && !l.locked && (l.stat == Idle || (l.stat == Intent && l.shared == 0))
  }

  function TryAnswer(l: Local): Option<Local> {
    match l.ask
    case Answered(mode, granted) =>
      Some(if !granted then l.(ask := Free)
           else if mode == Exclusive then Local(Exclusive, Held, l.shared, true, Free)
           else Local(mode, Shared, 1, true, Free))
    case _ => None
  }

  // -------------------------------------------------------------- steps of the master

  function Begin(m: Master, inst: Inst, mode: Mode): Conversion {
    Conversion(inst, mode, true, if Compatible(mode, m.mode) then {} else m.granted - {inst}, None)
  }

  /** The next waiting request, if any, is served. */
  function Dequeue(m: Master): Master {
    if m.queue == [] then m.(converting := None)
    else m.(converting := Some(Conversion(m.queue[0].0, m.queue[0].1, false, {}, None)), queue := m.queue[1..])
  }

  function Strike(m: Master, k: Inst): Master {
    m.(granted := m.granted - {k}, mode := if m.granted - {k} == {} then NoLock else m.mode)
  }

  // ------------------------------------------------------------------------ the cluster

  function Put(s: Cluster, i: Inst, l: Option<Local>): Option<Cluster>
    requires i < |s.locals|
  {
    if l.None? then None else Some(s.(locals := s.locals[i := l.value]))
  }

  function Next(s: Cluster, step: Step): Option<Cluster> {
    match step
    case LatchX(i) => if i < |s.locals| then Put(s, i, TryLatchX(s.locals[i])) else None
    case Upgrade(i) => if i < |s.locals| then Put(s, i, TryUpgrade(s.locals[i])) else None
    case LatchS(i, force) => if i < |s.locals| then Put(s, i, TryLatchS(s.locals[i], force)) else None
    case GiveUpUpgrade(i) => if i < |s.locals| then Put(s, i, TryGiveUpUpgrade(s.locals[i])) else None
    case Unlatch(i) => if i < |s.locals| then Put(s, i, TryUnlatch(s.locals[i])) else None
    case Answer(i) => if i < |s.locals| then Put(s, i, TryAnswer(s.locals[i])) else None
    case Receive(i) => if i < |s.locals| && s.locals[i].ask.Sent? then Some(Received(s, i)) else None
    case Start =>
      if s.master.converting.Some? && !s.master.converting.value.started then
        var c := s.master.converting.value;
        Some(s.(master := s.master.(converting := Some(Begin(s.master, c.inst, c.mode)))))
      else None
    case Release(k) =>
      if Asking(s) && k in s.master.converting.value.todo && k < |s.locals| && CanRelease(s.locals[k])
      then Some(Released(s, k)) else None
    case ClearGranted =>
      if s.master.converting.Some? && s.master.converting.value.acked.Some? then
        var c := s.master.converting.value;
        Some(s.(master := Strike(s.master, c.acked.value).(converting := Some(c.(acked := None)))))
      else None
    case GiveUp => if Asking(s) && s.master.converting.value.todo != {} then Some(Cancelled(s)) else None
    case Claim => if Asking(s) && s.master.converting.value.todo == {} then Some(Claimed(s)) else None
  }

  /** A request is being served and no owner is between giving up and being struck off. */
  predicate Asking(s: Cluster) {
    s.master.converting.Some? && s.master.converting.value.started && s.master.converting.value.acked.None?
    && s.master.converting.value.inst < |s.locals|
  }

  /** A request reaches the master: it is served at once, refused if another one is being
      served and its sender is an owner, or queued. */
  function Received(s: Cluster, i: Inst): Cluster
    requires i < |s.locals| && s.locals[i].ask.Sent?
  {
    var mode := s.locals[i].ask.mode;
    if s.master.converting.None? then
      Cluster(s.master.(converting := Some(Begin(s.master, i, mode))),
              s.locals[i := s.locals[i].(ask := Waiting(mode))])
    else if i in s.master.granted then
      s.(locals := s.locals[i := s.locals[i].(ask := Answered(mode, false))])
    else
      Cluster(s.master.(queue := s.master.queue + [(i, mode)]), s.locals[i := s.locals[i].(ask := Waiting(mode))])
  }

  function Released(s: Cluster, k: Inst): Cluster
    requires Asking(s) && k < |s.locals|
  {
    var c := s.master.converting.value;
    if s.locals[k].mode == NoLock then Cancelled(s)
    else if c.mode == Exclusive then
      Cluster(s.master.(converting := Some(c.(todo := c.todo - {k}, acked := Some(k)))),
              s.locals[k := s.locals[k].(mode := NoLock, locked := false)])
    else
      Cluster(s.master.(converting := Some(c.(todo := c.todo - {k}))),
              s.locals[k := s.locals[k].(mode := Share, locked := false)])
  }

  /** An owner could not be made to release: the request is dropped. */
  function Cancelled(s: Cluster): Cluster
    requires Asking(s)
  {
    var c := s.master.converting.value;
    Cluster(Dequeue(s.master), s.locals[c.inst := s.locals[c.inst].(ask := Answered(c.mode, false))])
  }

  function Claimed(s: Cluster): Cluster
    requires Asking(s)
  {
    var c := s.master.converting.value;
    var granted := (if c.mode == Exclusive then {} else s.master.granted) + {c.inst};
    Cluster(Dequeue(s.master.(granted := granted, mode := c.mode)),
            s.locals[c.inst := s.locals[c.inst].(ask := Answered(c.mode, true))])
  }

  const UNUSED := Local(NoLock, Idle, 0, false, Free)

  function Init(n: nat): Cluster {
    Cluster(Master(NoLock, {}, None, []), seq(n, _ => UNUSED))
  }

  // ----------------------------------------------------------------------- the invariant

  /** The mode an instance has, counting a grant that is on its way to it. */
  function Effective(l: Local): Mode {
    if l.ask.Answered? && l.ask.granted then l.ask.mode else l.mode
  }

  predicate LocalOk(l: Local) {
    && (l.stat == Held ==> l.mode == Exclusive && l.shared == 0)
    && (l.stat == Shared ==> l.mode != NoLock && l.shared > 0)
    && (l.stat == Intent && l.shared > 0 ==> l.mode != NoLock)
    && (l.stat == Idle ==> l.shared == 0)
    && ((l.stat == Idle || l.stat == Intent) && l.shared == 0 ==> !l.locked)
    && (l.ask != Free ==> l.ask.mode != NoLock && l.shared == 0 && (l.stat == Idle || l.stat == Intent))
    && (l.ask != Free && l.ask.mode == Share ==> l.stat == Idle && l.mode == NoLock)
  }

  predicate LocalsOk(s: Cluster) {
    forall i :: 0 <= i < |s.locals| ==> LocalOk(s.locals[i])
  }

  predicate Acked(m: Master, i: Inst) {
    m.converting.Some? && m.converting.value.acked == Some(i)
  }

  /** The granted map is exactly the instances that have a mode. */
  predicate GrantsExact(s: Cluster) {
    && (forall i :: i in s.master.granted ==> i < |s.locals|)
    && (forall i: nat :: i < |s.locals| ==>
          (Effective(s.locals[i]) != NoLock <==> i in s.master.granted && !Acked(s.master, i)))
  }

  predicate GrantsOk(s: Cluster) {
    && (s.master.mode == NoLock <==> s.master.granted == {})
    && (s.master.mode == Share ==> forall i :: 0 <= i < |s.locals| ==> Effective(s.locals[i]) != Exclusive)
    && (s.master.mode == Exclusive ==> forall i, j :: i in s.master.granted && j in s.master.granted ==> i == j)
  }

  predicate QueueOk(s: Cluster) {
    var q := s.master.queue;
    && (forall k :: 0 <= k < |q| ==> q[k].0 < |s.locals| && s.locals[q[k].0].ask == Waiting(q[k].1))
    && (forall k :: 0 <= k < |q| ==> q[k].0 !in s.master.granted)
    && (forall j, k :: 0 <= j < k < |q| ==> q[j].0 != q[k].0)
    && (s.master.converting.None? ==> q == [])
  }

  predicate ConvertingOk(s: Cluster) {
    s.master.converting.Some? ==>
      var c := s.master.converting.value;
      && c.inst < |s.locals| && s.locals[c.inst].ask == Waiting(c.mode)
      && (forall k :: 0 <= k < |s.master.queue| ==> s.master.queue[k].0 != c.inst)
      && c.inst !in c.todo && c.todo <= s.master.granted
      && (!c.started ==> c.todo == {} && c.acked == None)
      && (c.acked.Some? ==> c.mode == Exclusive && c.acked.value in s.master.granted
                            && c.acked.value !in c.todo && c.acked.value != c.inst)
      && (c.started && c.mode == Exclusive ==>
            forall k :: k in s.master.granted ==> k == c.inst || k in c.todo || c.acked == Some(k))
      && (c.started && c.mode == Share ==>
            forall k: nat :: k < |s.locals| && k != c.inst && k !in c.todo ==> Effective(s.locals[k]) != Exclusive)
  }

  /** Who waits is being served or queued. */
  predicate WaitersKnown(s: Cluster) {
    forall i: nat :: i < |s.locals| && s.locals[i].ask.Waiting? ==> Served(s.master, i) || Queued(s.master, i)
  }

  predicate Served(m: Master, i: Inst) {
    m.converting.Some? && m.converting.value.inst == i
  }

  predicate Queued(m: Master, i: Inst) {
    exists k :: 0 <= k < |m.queue| && m.queue[k].0 == i
  }

  predicate Inv(s: Cluster) {
    LocalsOk(s) && GrantsExact(s) && GrantsOk(s) && QueueOk(s) && ConvertingOk(s) && WaitersKnown(s)
  }

  /** The one step that breaks the protocol: a forced share latch that joins an announced
      writer whose mode has already been given up. */
  predicate Careful(s: Cluster, step: Step) {
    step.LatchS? && step.force && step.inst < |s.locals| && s.locals[step.inst].stat == Intent
    ==> s.locals[step.inst].mode != NoLock
  }

  // A step of one instance that leaves its effective mode alone, or trades its grant for
  // the mode, keeps everything the master knows.
  lemma PutKeeps(s: Cluster, i: Inst, l: Local)
    requires Inv(s) && i < |s.locals| && LocalOk(l)
    requires Effective(l) == Effective(s.locals[i])
    requires !s.locals[i].ask.Waiting? && !l.ask.Waiting?
    ensures Inv(s.(locals := s.locals[i := l]))
  {
    var t := s.(locals := s.locals[i := l]);
    assert forall k: nat :: k < |t.locals| ==> Effective(t.locals[k]) == Effective(s.locals[k]);
    assert QueueOk(t);
    assert ConvertingOk(t);
  }

  lemma LocalSteps(s: Cluster, step: Step)
    requires Inv(s) && Careful(s, step) && Next(s, step).Some?
    requires step.LatchX? || step.Upgrade? || step.GiveUpUpgrade? || step.LatchS? || step.Unlatch? || step.Answer?
    ensures Inv(Next(s, step).value)
  {
    var i := step.inst;
    assert LocalOk(s.locals[i]);
    PutKeeps(s, i, Next(s, step).value.locals[i]);
    assert Next(s, step).value == s.(locals := s.locals[i := Next(s, step).value.locals[i]]);
  }

  lemma ServedKeeps(s: Cluster, i: Inst)
    requires Inv(s) && i < |s.locals| && s.locals[i].ask.Sent? && s.master.converting.None?
    ensures Inv(Received(s, i))
  {
    var t := Received(s, i);
    assert LocalOk(s.locals[i]);
    assert forall k: nat :: k < |t.locals| && k != i ==> t.locals[k] == s.locals[k];
    assert GrantsExact(t) && GrantsOk(t);
    assert forall k: nat :: k < |t.locals| && k != i && t.locals[k].ask.Waiting? ==> s.locals[k].ask.Waiting?;
  }

  lemma QueuedWaiters(s: Cluster, i: Inst)
    requires WaitersKnown(s) && i < |s.locals| && s.locals[i].ask.Sent?
    requires s.master.converting.Some? && i !in s.master.granted
    ensures WaitersKnown(Received(s, i))
  {
    var t := Received(s, i);
    var q, r := s.master.queue, t.master.queue;
    assert r[|q|].0 == i && forall x :: 0 <= x < |q| ==> r[x] == q[x];
    forall k: nat | k < |t.locals| && t.locals[k].ask.Waiting? ensures Served(t.master, k) || Queued(t.master, k) {
      if k != i && Queued(s.master, k) { var x :| 0 <= x < |q| && q[x].0 == k; assert r[x].0 == k; }
    }
  }

  lemma QueuedQueue(s: Cluster, i: Inst)
    requires QueueOk(s) && ConvertingOk(s) && i < |s.locals| && s.locals[i].ask.Sent?
    requires s.master.converting.Some? && i !in s.master.granted
    ensures QueueOk(Received(s, i)) && ConvertingOk(Received(s, i))
  {
    var t := Received(s, i);
    assert forall k: nat :: k < |t.locals| ==> Effective(t.locals[k]) == Effective(s.locals[k]);
    assert forall x :: 0 <= x < |s.master.queue| ==> s.master.queue[x].0 != i;
    assert QueueOk(t);
  }

  lemma QueuedKeeps(s: Cluster, i: Inst)
    requires Inv(s) && i < |s.locals| && s.locals[i].ask.Sent? && s.master.converting.Some? && i !in s.master.granted
    ensures Inv(Received(s, i))
  {
    var t := Received(s, i);
    QueuedWaiters(s, i);
    QueuedQueue(s, i);
    assert LocalOk(s.locals[i]);
    assert forall k: nat :: k < |t.locals| ==> Effective(t.locals[k]) == Effective(s.locals[k]);
  }

  lemma ReceivedKeeps(s: Cluster, i: Inst)
    requires Inv(s) && i < |s.locals| && s.locals[i].ask.Sent?
    ensures Inv(Received(s, i))
  {
    assert LocalOk(s.locals[i]);
    if s.master.converting.None? {
      ServedKeeps(s, i);
    } else if i in s.master.granted {
      PutKeeps(s, i, s.locals[i].(ask := Answered(s.locals[i].ask.mode, false)));
    } else {
      QueuedKeeps(s, i);
    }
  }

  lemma StartKeeps(s: Cluster)
    requires Inv(s) && Next(s, Start).Some?
    ensures Inv(Next(s, Start).value)
  {
    var t := Next(s, Start).value;
    assert forall k :: Served(t.master, k) <==> Served(s.master, k);
    assert forall k :: Queued(t.master, k) <==> Queued(s.master, k);
  }

  lemma OwnerHasMode(s: Cluster, k: Inst)
    requires GrantsExact(s) && ConvertingOk(s) && Next(s, Release(k)).Some?
    ensures s.locals[k].mode != NoLock
  {
    assert Effective(s.locals[k]) != NoLock;
  }

  lemma GivenUpKeeps(s: Cluster, k: Inst)
    requires Inv(s) && Next(s, Release(k)).Some? && s.locals[k].mode != NoLock
    requires s.master.converting.value.mode == Exclusive
    ensures Inv(Released(s, k))
  {
    var t := Released(s, k);
    assert LocalOk(s.locals[k]);
    assert forall j: nat :: j < |t.locals| && j != k ==> t.locals[j] == s.locals[j];
    assert GrantsExact(t) && GrantsOk(t);
    assert QueueOk(t) && ConvertingOk(t);
    assert forall j :: Served(t.master, j) <==> Served(s.master, j);
    assert forall j :: Queued(t.master, j) <==> Queued(s.master, j);
  }

  lemma SharedKeeps(s: Cluster, k: Inst)
    requires Inv(s) && Next(s, Release(k)).Some? && s.locals[k].mode != NoLock
    requires s.master.converting.value.mode != Exclusive
    ensures Inv(Released(s, k))
  {
    var t := Released(s, k);
    assert LocalOk(s.locals[k]);
    assert forall j: nat :: j < |t.locals| && j != k ==> t.locals[j] == s.locals[j];
    assert GrantsExact(t) && GrantsOk(t);
    assert QueueOk(t) && ConvertingOk(t);
    assert forall j :: Served(t.master, j) <==> Served(s.master, j);
    assert forall j :: Queued(t.master, j) <==> Queued(s.master, j);
  }

  lemma ReleasedKeeps(s: Cluster, k: Inst)
    requires Inv(s) && Next(s, Release(k)).Some?
    ensures s.locals[k].mode != NoLock
    ensures Inv(Next(s, Release(k)).value)
  {
    OwnerHasMode(s, k);
    if s.master.converting.value.mode == Exclusive {
      GivenUpKeeps(s, k);
    } else {
      SharedKeeps(s, k);
    }
  }

  lemma StruckKeeps(s: Cluster)
    requires Inv(s) && Next(s, ClearGranted).Some?
    ensures Inv(Next(s, ClearGranted).value)
  {
    var t := Next(s, ClearGranted).value;
    assert forall j :: Served(t.master, j) <==> Served(s.master, j);
    assert forall j :: Queued(t.master, j) <==> Queued(s.master, j);
  }

  /** t is s after the request being served was answered and the queue moved up. */
  predicate MovedUp(s: Cluster, t: Cluster) {
    && Asking(s) && |t.locals| == |s.locals|
    && t.master.queue == Dequeue(s.master).queue && t.master.converting == Dequeue(s.master).converting
    && t.master.granted <= s.master.granted + {s.master.converting.value.inst}
    && (forall k: nat :: k < |s.locals| && k != s.master.converting.value.inst ==> t.locals[k] == s.locals[k])
    && t.locals[s.master.converting.value.inst].ask.Answered?
  }

  lemma MovedUpQueue(s: Cluster, t: Cluster)
    requires QueueOk(s) && ConvertingOk(s) && MovedUp(s, t)
    ensures QueueOk(t) && ConvertingOk(t)
  {
    var q, r := s.master.queue, t.master.queue;
    assert forall k :: 0 <= k < |r| ==> r[k] == q[k + 1];
  }

  lemma MovedUpWaiters(s: Cluster, t: Cluster)
    requires WaitersKnown(s) && MovedUp(s, t)
    ensures WaitersKnown(t)
  {
    var q, r := s.master.queue, t.master.queue;
    forall k: nat | k < |t.locals| && t.locals[k].ask.Waiting? ensures Served(t.master, k) || Queued(t.master, k) {
      assert Queued(s.master, k);
      var x :| 0 <= x < |q| && q[x].0 == k;
      if x > 0 { assert r[x - 1].0 == k; }
    }
  }

  lemma CancelledKeeps(s: Cluster)
    requires Inv(s) && Asking(s)
    ensures Inv(Cancelled(s))
  {
    var t := Cancelled(s);
    MovedUpQueue(s, t);
    MovedUpWaiters(s, t);
    assert LocalOk(s.locals[s.master.converting.value.inst]);
    assert forall k: nat :: k < |t.locals| ==> Effective(t.locals[k]) == Effective(s.locals[k]);
  }

  lemma ClaimedKeeps(s: Cluster)
    requires Inv(s) && Next(s, Claim).Some?
    ensures Inv(Claimed(s))
  {
    var t, c := Claimed(s), s.master.converting.value;
    MovedUpQueue(s, t);
    MovedUpWaiters(s, t);
    assert LocalOk(s.locals[c.inst]);
    assert forall k: nat :: k < |t.locals| && k != c.inst ==> t.locals[k] == s.locals[k];
    assert Effective(t.locals[c.inst]) == c.mode;
  }

  /** Every careful step keeps the invariant. */
  lemma StepKeeps(s: Cluster, step: Step)
    requires Inv(s) && Careful(s, step) && Next(s, step).Some?
    ensures Inv(Next(s, step).value)
  {
    match step
    case Receive(i) => ReceivedKeeps(s, i);
    case Start => StartKeeps(s);
    case Release(k) => ReleasedKeeps(s, k);
    case ClearGranted => StruckKeeps(s);
    case GiveUp => CancelledKeeps(s);
    case Claim => ClaimedKeeps(s);
    case _ => LocalSteps(s, step);
  }

  // ------------------------------------------------------------------------- whole runs

  function Run(s: Cluster, steps: seq<Step>): Option<Cluster>
    decreases |steps|
  {
    if steps == [] then Some(s)
    else if Next(s, steps[0]).None? then None
    else Run(Next(s, steps[0]).value, steps[1..])
  }

  predicate CarefulRun(s: Cluster, steps: seq<Step>)
    decreases |steps|
  {
    steps == [] || (Careful(s, steps[0]) && (Next(s, steps[0]).Some? ==> CarefulRun(Next(s, steps[0]).value, steps[1..])))
  }

  /** Every use of the latch is covered by the mode of its instance. */
  predicate Covered(s: Cluster) {
    forall i :: 0 <= i < |s.locals| ==>
      && (s.locals[i].stat == Held ==> s.locals[i].mode == Exclusive)
      && (s.locals[i].shared > 0 ==> s.locals[i].mode != NoLock)
  }

  predicate Writes(s: Cluster, i: Inst) {
    i < |s.locals| && s.locals[i].stat == Held
  }

  predicate Reads(s: Cluster, i: Inst) {
    i < |s.locals| && s.locals[i].shared > 0
  }

  lemma RunKeeps(s: Cluster, steps: seq<Step>)
    requires Inv(s) && CarefulRun(s, steps) && Run(s, steps).Some?
    ensures Inv(Run(s, steps).value)
    decreases |steps|
  {
    if steps != [] {
      StepKeeps(s, steps[0]);
      RunKeeps(Next(s, steps[0]).value, steps[1..]);
    }
  }

  /** Over every run: a writer shuts out every other writer and every reader of the
      cluster, and the granted map names exactly the instances that have a mode. */
  lemma MutualExclusion(n: nat, steps: seq<Step>, i: Inst, j: Inst)
    requires CarefulRun(Init(n), steps) && Run(Init(n), steps).Some?
    ensures var s := Run(Init(n), steps).value;
            && Covered(s) && GrantsExact(s)
            && (Writes(s, i) && Writes(s, j) ==> i == j)
            && !(Writes(s, i) && Reads(s, j))
  {
    RunKeeps(Init(n), steps);
    var s := Run(Init(n), steps).value;
    if Writes(s, i) { assert LocalOk(s.locals[i]) && Effective(s.locals[i]) == Exclusive; }
    if j < |s.locals| { assert LocalOk(s.locals[j]); }
  }

  // ------------------------------------------------------------ the calls of a run

  /** Share latches that a step hands to threads of an instance, less those it takes back. */
  function ReadersOf(s: Cluster, step: Step, i: Inst): int
    requires i < |s.locals| && Next(s, step).Some?
  {
    if step == Answer(i) && s.locals[i].ask == Answered(Share, true) then 1
    else if step.LatchS? && step.inst == i && Next(s, step).value.locals[i].ask == Free then 1
    else if step == Unlatch(i) && s.locals[i].stat != Held then -1
    else 0
  }

  /** The same for exclusive latches. */
  function WritersOf(s: Cluster, step: Step, i: Inst): int
    requires i < |s.locals| && Next(s, step).Some?
  {
    if step == Answer(i) && s.locals[i].ask == Answered(Exclusive, true) then 1
    else if step == LatchX(i) && s.locals[i].stat == Idle && Next(s, step).value.locals[i].ask == Free then 1
    else if step == Unlatch(i) && s.locals[i].stat == Held then -1
    else 0
  }

  lemma SameInstances(s: Cluster, step: Step)
    requires Next(s, step).Some?
    ensures |Next(s, step).value.locals| == |s.locals|
  {
  }

  /** How many threads of an instance share the latch after a run, counted from its calls. */
  function Readers(s: Cluster, steps: seq<Step>, i: Inst): int
    requires i < |s.locals| && Run(s, steps).Some?
    decreases |steps|
  {
    if steps == [] then 0
    else
      SameInstances(s, steps[0]);
      ReadersOf(s, steps[0], i) + Readers(Next(s, steps[0]).value, steps[1..], i)
  }

  /** How many have it exclusively. */
  function Writers(s: Cluster, steps: seq<Step>, i: Inst): int
    requires i < |s.locals| && Run(s, steps).Some?
    decreases |steps|
  {
    if steps == [] then 0
    else
      SameInstances(s, steps[0]);
      WritersOf(s, steps[0], i) + Writers(Next(s, steps[0]).value, steps[1..], i)
  }

  function Exclusively(l: Local): int {
    if l.stat == Held then 1 else 0
  }

  lemma StepCounts(s: Cluster, step: Step, i: Inst)
    requires i < |s.locals| && LocalOk(s.locals[i]) && Next(s, step).Some?
    ensures var t := Next(s, step).value;
            |t.locals| == |s.locals|
            && t.locals[i].shared == s.locals[i].shared + ReadersOf(s, step, i)
            && Exclusively(t.locals[i]) == Exclusively(s.locals[i]) + WritersOf(s, step, i)
  {
  }

  /** The state of an instance says how many of its threads have the latch. */
  lemma RunCounts(s: Cluster, steps: seq<Step>, i: Inst)
    requires Inv(s) && i < |s.locals| && CarefulRun(s, steps) && Run(s, steps).Some?
    ensures var t := Run(s, steps).value;
            |t.locals| == |s.locals|
            && t.locals[i].shared == s.locals[i].shared + Readers(s, steps, i)
            && Exclusively(t.locals[i]) == Exclusively(s.locals[i]) + Writers(s, steps, i)
    decreases |steps|
  {
    if steps != [] {
      assert LocalOk(s.locals[i]);
      StepCounts(s, steps[0], i);
      StepKeeps(s, steps[0]);
      RunCounts(Next(s, steps[0]).value, steps[1..], i);
    }
  }

  /** Mutual exclusion by the calls alone: while one thread of the cluster has been given
      the latch exclusively and has not unlatched it, no other thread has it at all. */
  lemma CallsExclude(n: nat, steps: seq<Step>, i: Inst, j: Inst)
    requires CarefulRun(Init(n), steps) && Run(Init(n), steps).Some? && i < n && j < n
    ensures 0 <= Writers(Init(n), steps, i) <= 1 && 0 <= Readers(Init(n), steps, i)
    ensures Writers(Init(n), steps, i) == 1 ==> Readers(Init(n), steps, j) == 0
    ensures Writers(Init(n), steps, i) == 1 && i != j ==> Writers(Init(n), steps, j) == 0
  {
    RunCounts(Init(n), steps, i);
    RunCounts(Init(n), steps, j);
    MutualExclusion(n, steps, i, j);
  }

  /** A step keeps every use covered exactly when it is not a forced share latch on an
      announced writer whose mode is gone. */
  lemma CoveredExactly(s: Cluster, step: Step)
    requires Inv(s) && Next(s, step).Some?
    ensures Covered(Next(s, step).value) <==> Careful(s, step)
  {
    var t := Next(s, step).value;
    if Careful(s, step) {
      StepKeeps(s, step);
      forall i | 0 <= i < |t.locals| ensures LocalOk(t.locals[i]) {}
    } else {
      assert t.locals[step.inst].shared > 0 && t.locals[step.inst].mode == NoLock;
    }
  }

  /** No caller that leaves `force` off can take that step. */
  lemma UnforcedIsCareful(s: Cluster, steps: seq<Step>)
    requires forall k :: 0 <= k < |steps| && steps[k].LatchS? ==> !steps[k].force
    ensures CarefulRun(s, steps)
    decreases |steps|
  {
    if steps != [] && Next(s, steps[0]).Some? {
      UnforcedIsCareful(Next(s, steps[0]).value, steps[1..]);
    }
  }

  lemma RunThen(s: Cluster, steps: seq<Step>, more: seq<Step>)
    requires Run(s, steps).Some?
    ensures Run(s, steps + more) == Run(Run(s, steps).value, more)
    ensures CarefulRun(s, steps) && CarefulRun(Run(s, steps).value, more) ==> CarefulRun(s, steps + more)
    decreases |steps|
  {
    if steps == [] {
      assert steps + more == more;
    } else {
      assert (steps + more)[1..] == steps[1..] + more;
      RunThen(Next(s, steps[0]).value, steps[1..], more);
    }
  }

  // One more step of a run of two instances.
  lemma Extend(steps: seq<Step>, s: Cluster, step: Step) returns (more: seq<Step>, t: Cluster)
    requires Run(Init(2), steps) == Some(s) && Next(s, step).Some?
    ensures t == Next(s, step).value && Run(Init(2), more) == Some(t)
  {
    more, t := steps + [step], Next(s, step).value;
    RunThen(Init(2), steps, [step]);
  }

  predicate Two(s: Cluster, m: Master, l0: Local, l1: Local) {
    |s.locals| == 2 && s.master == m && s.locals[0] == l0 && s.locals[1] == l1
  }

  /** And that step does break the latch: this run ends with a reader on instance 0 beside
      a writer on instance 1. */
  lemma ForcedShareBreaks() returns (steps: seq<Step>)
    ensures Run(Init(2), steps).Some?
    ensures Reads(Run(Init(2), steps).value, 0) && Writes(Run(Init(2), steps).value, 1)
  {
    var s: Cluster;
    steps, s := WriterBeside();
    steps, s := Extend(steps, s, LatchS(0, true));
  }

  // The announced writer of instance 0 has lost its mode to a writer of instance 1.
  lemma WriterBeside() returns (steps: seq<Step>, s: Cluster)
    ensures Run(Init(2), steps) == Some(s)
    ensures Two(s, Master(Exclusive, {1}, None, []), Local(NoLock, Intent, 0, false, Free),
                Local(Exclusive, Held, 0, true, Free))
  {
    steps, s := OwnerAsked();
    steps, s := Extend(steps, s, Release(0));
    steps, s := Extend(steps, s, ClearGranted);
    assert s.master.converting.value.todo == {};
    steps, s := Extend(steps, s, Claim);
    steps, s := Extend(steps, s, Answer(1));
  }

  // Instance 1 asks for the latch exclusively, and instance 0 is to release it.
  lemma OwnerAsked() returns (steps: seq<Step>, s: Cluster)
    ensures Run(Init(2), steps) == Some(s)
    ensures Two(s, Master(Share, {0}, Some(Conversion(1, Exclusive, true, {0}, None)), []),
                Local(Share, Intent, 0, false, Free), UNUSED.(ask := Waiting(Exclusive)))
  {
    steps, s := AnnouncedAlone();
    steps, s := Extend(steps, s, LatchX(1));
    steps, s := Extend(steps, s, Receive(1));
    assert {0} - {1} == {0};
  }

  // A reader of instance 0 has the latch.
  lemma OneReader() returns (steps: seq<Step>, s: Cluster)
    ensures Run(Init(2), steps) == Some(s)
    ensures Two(s, Master(Share, {0}, None, []), Local(Share, Shared, 1, true, Free), UNUSED)
  {
    steps, s := ShareAsked();
    steps, s := Extend(steps, s, Claim);
    assert Two(s, Master(Share, {0}, None, []), UNUSED.(ask := Answered(Share, true)), UNUSED);
    steps, s := Extend(steps, s, Answer(0));
  }

  // Instance 0 asks to share the latch.
  lemma ShareAsked() returns (steps: seq<Step>, s: Cluster)
    ensures Run(Init(2), steps) == Some(s)
    ensures Two(s, Master(NoLock, {}, Some(Conversion(0, Share, true, {}, None)), []),
                UNUSED.(ask := Waiting(Share)), UNUSED)
  {
    steps, s := [], Init(2);
    steps, s := Extend(steps, s, LatchS(0, false));
    assert Two(s, Master(NoLock, {}, None, []), UNUSED.(ask := Sent(Share)), UNUSED);
    steps, s := Extend(steps, s, Receive(0));
  }

  // A reader of instance 0 has come and gone, leaving a writer announced behind it.
  lemma AnnouncedAlone() returns (steps: seq<Step>, s: Cluster)
    ensures Run(Init(2), steps) == Some(s)
    ensures Two(s, Master(Share, {0}, None, []), Local(Share, Intent, 0, false, Free), UNUSED)
  {
    steps, s := OneReader();
    steps, s := Extend(steps, s, LatchX(0));
    steps, s := Extend(steps, s, Unlatch(0));
  }

  // -------------------------------------------------------------------- nobody is stuck

  /** A careful run from s to t. */
  predicate Leads(s: Cluster, steps: seq<Step>, t: Cluster) {
    CarefulRun(s, steps) && Run(s, steps) == Some(t)
  }

  lemma LeadsOn(s: Cluster, steps: seq<Step>, t: Cluster, step: Step) returns (more: seq<Step>, u: Cluster)
    requires Leads(s, steps, t) && Careful(t, step) && Next(t, step).Some?
    ensures u == Next(t, step).value && Leads(s, more, u)
  {
    more, u := steps + [step], Next(t, step).value;
    assert CarefulRun(u, [step][1..]);
    RunThen(s, steps, [step]);
  }

  /** How many steps of its own an owner is away from being able to release. */
  function Distance(l: Local): nat {
    match l.ask
    case Sent(_) => 3
    case Answered(_, _) => 2
    case _ => if l.stat == Held then 1 else l.shared
  }

  // The step that brings an owner nearer: its request is refused, its answer arrives, or
  // one of its threads is done.
  function Nearer(s: Cluster, k: Inst): Step
    requires k < |s.locals|
  {
    if s.locals[k].ask.Sent? then Receive(k) else if s.locals[k].ask.Answered? then Answer(k) else Unlatch(k)
  }

  lemma NearerIsNearer(s: Cluster, k: Inst)
    requires Inv(s) && s.master.converting.Some? && k in s.master.converting.value.todo
    requires !CanRelease(s.locals[k])
    ensures Next(s, Nearer(s, k)).Some?
    ensures var t := Next(s, Nearer(s, k)).value;
            t.master == s.master && |t.locals| == |s.locals| && Distance(t.locals[k]) < Distance(s.locals[k])
  {
    assert k in s.master.granted && LocalOk(s.locals[k]);
    assert !Served(s.master, k) && !Queued(s.master, k);
  }

  lemma OwnerCanRelease(s: Cluster, k: Inst, steps: seq<Step>, t: Cluster) returns (more: seq<Step>, u: Cluster)
    requires Inv(s) && Leads(s, steps, t)
    requires t.master.converting.Some? && k in t.master.converting.value.todo && k < |t.locals|
    ensures Leads(s, more, u) && u.master == t.master && |u.locals| == |t.locals| && CanRelease(u.locals[k])
    decreases Distance(t.locals[k])
  {
    more, u := steps, t;
    if !CanRelease(t.locals[k]) {
      RunKeeps(s, steps);
      NearerIsNearer(t, k);
      more, u := LeadsOn(s, steps, t, Nearer(t, k));
      more, u := OwnerCanRelease(s, k, more, u);
    }
  }

  lemma OwnerReleases(s: Cluster, k: Inst, steps: seq<Step>, t: Cluster, c: Conversion)
    returns (more: seq<Step>, u: Cluster)
    requires Inv(s) && Leads(s, steps, t)
    requires t.master.converting == Some(c) && c.started && c.acked == None && k in c.todo
    ensures Leads(s, more, u) && u.master.queue == t.master.queue
    ensures u.master.converting == Some(c.(todo := c.todo - {k}, acked := if c.mode == Exclusive then Some(k) else None))
  {
    RunKeeps(s, steps);
    more, u := OwnerCanRelease(s, k, steps, t);
    RunKeeps(s, more);
    OwnerHasMode(u, k);
    more, u := LeadsOn(s, more, u, Release(k));
  }

  /** The step of the master that brings the request being served nearer to its grant. */
  function MasterStep(c: Conversion): Step {
    if !c.started then Start else if c.acked.Some? then ClearGranted else Claim
  }

  lemma MasterMoves(s: Cluster, steps: seq<Step>, t: Cluster, c: Conversion) returns (more: seq<Step>, u: Cluster)
    requires Inv(s) && Leads(s, steps, t) && t.master.converting == Some(c)
    requires c.started && c.acked == None ==> c.todo == {}
    ensures Leads(s, more, u) && Next(t, MasterStep(c)) == Some(u) && c.inst < |t.locals|
  {
    RunKeeps(s, steps);
    more, u := LeadsOn(s, steps, t, MasterStep(c));
  }

  /** From any state in which a request is being served, a careful run grants it, and the
      next request in the queue is served after it. */
  lemma ServedCanBeGranted(s: Cluster, steps: seq<Step>, t: Cluster, c: Conversion) returns (more: seq<Step>, u: Cluster)
    requires Inv(s) && Leads(s, steps, t) && t.master.converting == Some(c)
    ensures Leads(s, more, u) && c.inst < |u.locals| && u.locals[c.inst].ask == Answered(c.mode, true)
    ensures u.master.queue == Dequeue(t.master).queue && u.master.converting == Dequeue(t.master).converting
    decreases !c.started, |c.todo|, c.acked.Some?
  {
    if c.started && c.acked == None && c.todo != {} {
      var k :| k in c.todo;
      more, u := OwnerReleases(s, k, steps, t, c);
      more, u := ServedCanBeGranted(s, more, u, u.master.converting.value);
    } else {
      more, u := MasterMoves(s, steps, t, c);
      if MasterStep(c) != Claim {
        more, u := ServedCanBeGranted(s, more, u, u.master.converting.value);
      }
    }
  }

  /** No request waits for ever behind a deadlock: a careful run grants it. */
  lemma WaiterCanBeGranted(s: Cluster, steps: seq<Step>, t: Cluster, i: Inst, mode: Mode)
    returns (more: seq<Step>, u: Cluster)
    requires Inv(s) && Leads(s, steps, t) && i < |t.locals| && t.locals[i].ask == Waiting(mode)
    ensures Leads(s, more, u) && i < |u.locals| && u.locals[i].ask == Answered(mode, true)
    decreases |t.master.queue|
  {
    RunKeeps(s, steps);
    more, u := ServedCanBeGranted(s, steps, t, t.master.converting.value);
    if !Served(t.master, i) {
      RunKeeps(s, more);
      StillWaiting(t, u, i);
      more, u := WaiterCanBeGranted(s, more, u, i, mode);
    }
  }

  lemma StillWaiting(t: Cluster, u: Cluster, i: Inst)
    requires QueueOk(t) && WaitersKnown(t) && QueueOk(u) && ConvertingOk(u)
    requires i < |t.locals| && t.locals[i].ask.Waiting? && !Served(t.master, i)
    requires u.master.queue == Dequeue(t.master).queue && u.master.converting == Dequeue(t.master).converting
    ensures i < |u.locals| && u.locals[i].ask == t.locals[i].ask && |u.master.queue| < |t.master.queue|
  {
    var q := t.master.queue;
    var x :| 0 <= x < |q| && q[x].0 == i;
    assert x > 0 ==> u.master.queue[x - 1] == q[x];
  }

  /** Over every run: whatever instance waits, some further run grants its request. */
  lemma NoDeadlock(n: nat, steps: seq<Step>, s: Cluster, i: Inst) returns (more: seq<Step>, t: Cluster)
    requires Leads(Init(n), steps, s) && i < |s.locals| && s.locals[i].ask.Waiting?
    ensures Leads(s, more, t) && i < |t.locals| && t.locals[i].ask == Answered(s.locals[i].ask.mode, true)
  {
    RunKeeps(Init(n), steps);
    more, t := WaiterCanBeGranted(s, [], s, i, s.locals[i].ask.mode);
  }

  /** The line at the master can be served to its end. */
  lemma LineCanEmpty(s: Cluster, steps: seq<Step>, t: Cluster) returns (more: seq<Step>, u: Cluster)
    requires Inv(s) && Leads(s, steps, t)
    ensures Leads(s, more, u) && u.master.converting == None && |u.locals| == |t.locals|
    decreases t.master.converting.Some?, |t.master.queue|
  {
    more, u := steps, t;
    if t.master.converting.Some? {
      more, u := ServedCanBeGranted(s, steps, t, t.master.converting.value);
      LeadsKeepsSize(s, steps, t);
      LeadsKeepsSize(s, more, u);
      more, u := LineCanEmpty(s, more, u);
    }
  }

  lemma {:induction false} LeadsKeepsSize(s: Cluster, steps: seq<Step>, t: Cluster)
    requires Leads(s, steps, t)
    ensures |t.locals| == |s.locals|
    decreases |steps|
  {
    if steps != [] {
      SameInstances(s, steps[0]);
      LeadsKeepsSize(Next(s, steps[0]).value, steps[1..], t);
    }
  }

  /** How far an instance is from writing while nobody else asks. */
  function ToWrite(l: Local): nat {
    match l.ask
    case Sent(mode) => if mode == Exclusive then 1 else 6
    case Waiting(_) => 0
    case Answered(_, _) => 5
    case Free =>
      match l.stat
      case Held => 0
      case Idle => 2
      case Intent => 2 + l.shared
      case Shared => 3 + l.shared
  }

  /** The step of its own that brings it nearer. */
  function WriteStep(l: Local, i: Inst): Step {
    if l.ask.Answered? then Answer(i)
    else if l.stat == Intent then (if l.shared > 0 then Unlatch(i) else Upgrade(i))
    else LatchX(i)
  }

  lemma WriteStepIsNearer(t: Cluster, i: Inst)
    requires Inv(t) && i < |t.locals| && !t.locals[i].ask.Sent? && !t.locals[i].ask.Waiting?
    requires !(t.locals[i].ask == Free && t.locals[i].stat == Held)
    ensures var step := WriteStep(t.locals[i], i);
            Careful(t, step) && Next(t, step).Some?
            && var u := Next(t, step).value;
               u.master == t.master && |u.locals| == |t.locals| && ToWrite(u.locals[i]) < ToWrite(t.locals[i])
  {
    assert LocalOk(t.locals[i]);
  }

  /** A request that reaches an idle master is granted, and the master is idle again. */
  lemma SentCanBeGranted(s: Cluster, steps: seq<Step>, t: Cluster, i: Inst) returns (more: seq<Step>, u: Cluster)
    requires Inv(s) && Leads(s, steps, t) && t.master.converting == None && i < |t.locals| && t.locals[i].ask.Sent?
    ensures Leads(s, more, u) && u.master.converting == None && |u.locals| == |t.locals|
    ensures u.locals[i].ask == Answered(t.locals[i].ask.mode, true)
  {
    RunKeeps(s, steps);
    more, u := LeadsOn(s, steps, t, Receive(i));
    var mid := u;
    more, u := ServedCanBeGranted(s, more, mid, mid.master.converting.value);
    LeadsKeepsSize(s, steps, t);
    LeadsKeepsSize(s, more, u);
  }

  lemma NobodyWaits(t: Cluster, i: Inst)
    requires Inv(t) && t.master.converting == None && i < |t.locals|
    ensures !t.locals[i].ask.Waiting?
  {
    assert !Served(t.master, i) && !Queued(t.master, i);
  }

  /** While nobody else asks, an instance can be brought to write. */
  lemma CanWrite(s: Cluster, steps: seq<Step>, t: Cluster, i: Inst) returns (more: seq<Step>, u: Cluster)
    requires Inv(s) && Leads(s, steps, t) && t.master.converting == None && i < |t.locals|
    ensures Leads(s, more, u) && Writes(u, i) && u.locals[i].ask == Free
    decreases ToWrite(t.locals[i])
  {
    RunKeeps(s, steps);
    NobodyWaits(t, i);
    more, u := steps, t;
    if t.locals[i].ask.Sent? {
      more, u := SentCanBeGranted(s, steps, t, i);
      more, u := LeadsOn(s, more, u, Answer(i));
      more, u := CanWrite(s, more, u, i);
    } else if t.locals[i].ask != Free || t.locals[i].stat != Held {
      WriteStepIsNearer(t, i);
      more, u := LeadsOn(s, steps, t, WriteStep(t.locals[i], i));
      more, u := CanWrite(s, more, u, i);
    }
  }

  /** Over every run: from whatever state, with whatever requests refused or waiting, every
      instance can be brought to hold the latch exclusively. */
  lemma EveryoneCanWrite(n: nat, steps: seq<Step>, s: Cluster, i: Inst) returns (more: seq<Step>, t: Cluster)
    requires Leads(Init(n), steps, s) && i < n
    ensures Leads(s, more, t) && Writes(t, i)
  {
    RunKeeps(Init(n), steps);
    LeadsKeepsSize(Init(n), steps, s);
    more, t := LineCanEmpty(s, [], s);
    more, t := CanWrite(s, more, t, i);
  }

  // -------------------------------------------------------------- first come, first served

  /** The requests at the master: the one being served, then the queue. */
  function Line(m: Master): seq<(Inst, Mode)> {
    (if m.converting.Some? then [(m.converting.value.inst, m.converting.value.mode)] else []) + m.queue
  }

  lemma DequeueInLine(m: Master)
    requires m.converting.Some?
    ensures Line(Dequeue(m)) == Line(m)[1..]
  {
  }

  /** The request that a step puts in line: one that is received and not refused. */
  function Joins(s: Cluster, step: Step): seq<(Inst, Mode)> {
    if step.Receive? && step.inst < |s.locals| && s.locals[step.inst].ask.Sent?
       && (s.master.converting.None? || step.inst !in s.master.granted)
    then [(step.inst, s.locals[step.inst].ask.mode)] else []
  }

  /** The request that a step answers, by granting it or by giving it up. */
  function Leaves(s: Cluster, step: Step): seq<(Inst, Mode)> {
    if (step.Claim? || step.GiveUp?) && s.master.converting.Some?
    then [(s.master.converting.value.inst, s.master.converting.value.mode)] else []
  }

  predicate Concerns(requests: seq<(Inst, Mode)>, i: Inst) {
    requests != [] && requests[0].0 == i
  }

  /** What step `step` does to the line, told by instance `i`: its request joins when it
      comes to wait, and leaves when it was waiting and has its answer. */
  predicate ToldBy(s: Cluster, step: Step, i: Inst)
    requires Next(s, step).Some? && i < |s.locals| && i < |Next(s, step).value.locals|
  {
    var before, after := s.locals[i].ask, Next(s, step).value.locals[i].ask;
    (!before.Waiting? && after.Waiting? <==> Concerns(Joins(s, step), i))
    && (before.Waiting? && !after.Waiting? <==> Concerns(Leaves(s, step), i))
    && (Concerns(Joins(s, step), i) ==> Joins(s, step) == [(i, after.mode)])
    && (Concerns(Leaves(s, step), i) ==>
          Leaves(s, step) == [(i, before.mode)] && after == Answered(before.mode, step.Claim?))
  }

  lemma JoinsAndLeaves(s: Cluster, step: Step, i: Inst)
    requires Inv(s) && Next(s, step).Some? && i < |s.locals|
    ensures |Next(s, step).value.locals| == |s.locals| && ToldBy(s, step, i)
  {
    SameInstances(s, step);
    if step.Claim? || step.GiveUp? {
      AnswerTold(s, step, i);
    } else if step.Release? {
      OwnerHasMode(s, step.inst);
    } else if step.Receive? {
      ReceiveTold(s, step.inst, i);
    } else {
      OtherTold(s, step, i);
    }
  }

  lemma AnswerTold(s: Cluster, step: Step, i: Inst)
    requires ConvertingOk(s) && (step.Claim? || step.GiveUp?) && Next(s, step).Some?
    requires i < |s.locals| == |Next(s, step).value.locals|
    ensures ToldBy(s, step, i)
  {
  }

  lemma ReceiveTold(s: Cluster, k: Inst, i: Inst)
    requires Next(s, Receive(k)).Some? && i < |s.locals| == |Next(s, Receive(k)).value.locals|
    ensures ToldBy(s, Receive(k), i)
  {
  }

  lemma OtherTold(s: Cluster, step: Step, i: Inst)
    requires !step.Receive? && !step.Release? && !step.GiveUp? && !step.Claim?
    requires Next(s, step).Some? && i < |s.locals| == |Next(s, step).value.locals|
    ensures ToldBy(s, step, i)
  {
  }

  /** A step takes its answer from the head of the line and puts its request at the end. */
  predicate KeepsLine(s: Cluster, step: Step)
    requires Next(s, step).Some?
  {
    Line(s.master) + Joins(s, step) == Leaves(s, step) + Line(Next(s, step).value.master)
  }

  lemma ReceiveInLine(s: Cluster, i: Inst)
    requires Next(s, Receive(i)).Some? && (s.master.converting.None? ==> s.master.queue == [])
    ensures KeepsLine(s, Receive(i))
  {
    var m := s.master;
    assert m.converting.Some? && i !in m.granted ==> Line(Received(s, i).master) == Line(m) + [(i, s.locals[i].ask.mode)];
  }

  lemma AnswerInLine(s: Cluster, step: Step)
    requires (step.Claim? || step.GiveUp?) && Next(s, step).Some?
    ensures KeepsLine(s, step)
  {
    DequeueInLine(s.master);
    var t := Next(s, step).value;
    assert Line(t.master) == Line(s.master)[1..];
  }

  lemma ReleaseInLine(s: Cluster, k: Inst)
    requires GrantsExact(s) && ConvertingOk(s) && Next(s, Release(k)).Some?
    ensures KeepsLine(s, Release(k))
  {
    OwnerHasMode(s, k);
    assert Line(Next(s, Release(k)).value.master) == Line(s.master);
  }

  lemma OtherInLine(s: Cluster, step: Step)
    requires Next(s, step).Some?
    requires !step.Receive? && !step.Release? && !step.GiveUp? && !step.Claim?
    ensures KeepsLine(s, step)
  {
    assert Line(Next(s, step).value.master) == Line(s.master);
  }

  lemma StepInLine(s: Cluster, step: Step)
    requires GrantsExact(s) && ConvertingOk(s) && QueueOk(s) && Next(s, step).Some?
    ensures KeepsLine(s, step)
  {
    match step
    case Receive(i) => ReceiveInLine(s, i);
    case Release(k) => ReleaseInLine(s, k);
    case GiveUp => AnswerInLine(s, step);
    case Claim => AnswerInLine(s, step);
    case _ => OtherInLine(s, step);
  }

  /** The requests that joined the line during a run, in order. */
  function Joined(s: Cluster, steps: seq<Step>): seq<(Inst, Mode)>
    decreases |steps|
  {
    if steps == [] || Next(s, steps[0]).None? then []
    else Joins(s, steps[0]) + Joined(Next(s, steps[0]).value, steps[1..])
  }

  /** The requests that were answered during a run, in order. */
  function Done(s: Cluster, steps: seq<Step>): seq<(Inst, Mode)>
    decreases |steps|
  {
    if steps == [] || Next(s, steps[0]).None? then []
    else Leaves(s, steps[0]) + Done(Next(s, steps[0]).value, steps[1..])
  }

  /** How many steps of a run answer a request. */
  function Answers(steps: seq<Step>): nat {
    if steps == [] then 0 else (if steps[0].Claim? || steps[0].GiveUp? then 1 else 0) + Answers(steps[1..])
  }

  lemma InLine<T>(line: seq<T>, joins: seq<T>, leaves: seq<T>, next: seq<T>, joined: seq<T>, done: seq<T>, last: seq<T>)
    requires line + joins == leaves + next && next + joined == done + last
    ensures line + (joins + joined) == (leaves + done) + last
  {
    calc {
      line + (joins + joined);
      (line + joins) + joined;
      leaves + (next + joined);
      (leaves + done) + last;
    }
  }

  lemma JoinedStep(s: Cluster, steps: seq<Step>, next: Cluster)
    requires steps != [] && Next(s, steps[0]) == Some(next)
    ensures Joined(s, steps) == Joins(s, steps[0]) + Joined(next, steps[1..])
    ensures Done(s, steps) == Leaves(s, steps[0]) + Done(next, steps[1..])
    ensures Run(s, steps) == Run(next, steps[1..])
  {
  }

  lemma {:induction false} RunConserves(s: Cluster, steps: seq<Step>, t: Cluster)
    requires Inv(s) && CarefulRun(s, steps) && Run(s, steps) == Some(t)
    ensures Line(s.master) + Joined(s, steps) == Done(s, steps) + Line(t.master)
    decreases |steps|
  {
    if steps == [] {
      assert Line(s.master) + [] == [] + Line(s.master);
    } else {
      var next, rest := Next(s, steps[0]).value, steps[1..];
      StepInLine(s, steps[0]);
      StepKeeps(s, steps[0]);
      JoinedStep(s, steps, next);
      RunConserves(next, rest, t);
      InLine(Line(s.master), Joins(s, steps[0]), Leaves(s, steps[0]), Line(next.master),
             Joined(next, rest), Done(next, rest), Line(t.master));
    }
  }

  lemma OneLeaves(s: Cluster, step: Step)
    requires Next(s, step).Some?
    ensures |Leaves(s, step)| == if step.Claim? || step.GiveUp? then 1 else 0
  {
  }

  lemma {:induction false} DoneCounts(s: Cluster, steps: seq<Step>)
    requires Run(s, steps).Some?
    ensures |Done(s, steps)| == Answers(steps)
    decreases |steps|
  {
    if steps != [] {
      var next := Next(s, steps[0]).value;
      JoinedStep(s, steps, next);
      OneLeaves(s, steps[0]);
      DoneCounts(next, steps[1..]);
    }
  }

  /** FIRST COME, FIRST SERVED.  Over every run the requests answered, followed by those in
      line at the end, are those in line at the start followed by those that joined: they
      are answered in exactly the order in which they came, none is lost and none is
      answered twice. */
  lemma RunInLine(s: Cluster, steps: seq<Step>, t: Cluster)
    requires Inv(s) && CarefulRun(s, steps) && Run(s, steps) == Some(t)
    ensures Line(s.master) + Joined(s, steps) == Done(s, steps) + Line(t.master)
    ensures |Done(s, steps)| == Answers(steps)
    ensures Line(t.master) == (Line(s.master) + Joined(s, steps))[Answers(steps)..]
  {
    RunConserves(s, steps, t);
    DoneCounts(s, steps);
  }

  /** From the start, the requests answered are the first of those that joined. */
  lemma AnsweredInOrder(n: nat, steps: seq<Step>, s: Cluster)
    requires Leads(Init(n), steps, s)
    ensures Joined(Init(n), steps) == Done(Init(n), steps) + Line(s.master)
  {
    RunInLine(Init(n), steps, s);
    assert Line(Init(n).master) + Joined(Init(n), steps) == Joined(Init(n), steps);
  }

  /** The checks the source makes on its own state never fire: an idle master has no queue,
      an owner asked to release has a mode, and a request for a shared mode is claimed only
      for an instance that is not an owner yet. */
  lemma ChecksNeverFire(n: nat, steps: seq<Step>, s: Cluster)
    requires Leads(Init(n), steps, s)
    ensures s.master.converting.None? ==> s.master.queue == []
    ensures forall k: nat :: Next(s, Release(k)).Some? ==> s.locals[k].mode != NoLock
    ensures Next(s, Claim).Some? && s.master.converting.value.mode == Share ==>
              s.master.converting.value.inst !in s.master.granted
  {
    RunKeeps(Init(n), steps);
    forall k: nat | Next(s, Release(k)).Some? ensures s.locals[k].mode != NoLock {
      ReleasedKeeps(s, k);
    }
    if Next(s, Claim).Some? { assert LocalOk(s.locals[s.master.converting.value.inst]); }
  }
}
