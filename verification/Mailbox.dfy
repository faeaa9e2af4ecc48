/** The sub-agent mailbox (crates/agent-runtime/src/mailbox.rs).

    Any number of threads call `send` and `close`; one receiver calls `recv`,
    `drain` and `has_pending`; the cancellation token may be cancelled from
    outside at any time. Every access to shared state is one atomic step, and a
    run is any interleaving of steps. */
module Mailbox {
  import opened Wrappers

  type Payload = string
  type ThreadId = nat

  datatype Envelope = Envelope(number: nat, message: Payload)

  // ----- State -------------------------------------------------------------------

  /** Where a thread is inside `send` or `close`. Every state but the two waits holds the
      publish lock. */
  datatype Pc =
    | SendWait(message: Payload)
    | SendCheck(message: Payload)
    | SendAllocate(message: Payload)
    | SendEnqueue(envelope: Envelope)
    | SendBump(envelope: Envelope)
    | SendReturn(result: Option<Envelope>)
    | CloseWait
    | CloseSwap
    | CloseCancel
    | CloseReturn

  type Threads = map<ThreadId, Pc>

  /** The publishing side. The last three fields are history: no step reads them. */
  datatype Publishers = Publishers(
    threads: Threads,
    lock: Option<ThreadId>,
    gone: bool,                // every sender handle was dropped
    nextSeq: nat,
    watermark: nat,
    closed: bool,
    accepted: seq<Envelope>,   // enqueued by some send, in order
    granted: seq<Envelope>,    // returned Some(seq) by some send, in order of return
    closeReturned: bool        // some close has returned
  )

  /** Where the receiver is: between calls, moving mail to `pending` one envelope at a time,
      or inside `recv` at the token check, the select, the channel close or the final read. */
  datatype ReceiverPc =
    | Idle
    | Syncing(thenDrain: bool)
    | RecvCheck
    | RecvSelect
    | RecvClose
    | RecvTail
    | Dropped

  /** The receiving side. The last three fields are history. */
  datatype Receiver = Receiver(
    pc: ReceiverPc,
    pending: seq<Envelope>,
    delivered: seq<Envelope>,  // handed to the caller by recv or drain, in order
    ended: bool,               // some recv has returned None
    sawMail: bool              // what has_pending returned last
  )

  datatype State = State(
    pub: Publishers,
    channel: seq<Envelope>,
    rxClosed: bool,
    cancelled: bool,
    rcv: Receiver
  )

  const INIT := State(Publishers(map[], None, false, 0, 0, false, [], [], false), [], false, false,
                      Receiver(Idle, [], [], false, false))

  // ----- Steps of the publishing side ----------------------------------------------

  datatype PublisherStep =
    | CallSend(thread: ThreadId, message: Payload)
    | CallClose(thread: ThreadId)
    | Acquire(thread: ThreadId)
    | Advance(thread: ThreadId)
    | DropSenders

  predicate Waiting(pc: Pc) {
    pc.SendWait? || pc.CloseWait?
  }

  predicate Returning(pc: Pc) {
    pc.SendReturn? || pc.CloseReturn?
  }

  predicate CanPublish(p: Publishers, step: PublisherStep) {
    match step
    case CallSend(t, _) => t !in p.threads && !p.gone
    case CallClose(t) => t !in p.threads && !p.gone
    case Acquire(t) => t in p.threads && Waiting(p.threads[t]) && p.lock.None?
    case Advance(t) => t in p.threads && !Waiting(p.threads[t])
    case DropSenders => p.threads == map[]
  }

  /** Where a thread that holds the lock goes next. */
  function NextPc(pc: Pc, nextSeq: nat, closed: bool, rxClosed: bool): (next: Pc)
    requires !Waiting(pc) && !Returning(pc)
    ensures !Waiting(next)
  {
    match pc
    case SendCheck(m) => if closed then SendReturn(None) else SendAllocate(m)
    case SendAllocate(m) => SendEnqueue(Envelope(nextSeq + 1, m))
    case SendEnqueue(e) => if rxClosed then SendReturn(None) else SendBump(e)
    case SendBump(e) => SendReturn(Some(e))
    case CloseSwap => if closed then CloseReturn else CloseCancel
    case CloseCancel => CloseReturn
  }

  /** What it does to the publishers' shared fields on the way. */
  function Effect(p: Publishers, pc: Pc, rxClosed: bool): (p': Publishers)
    ensures p'.threads == p.threads && p'.lock == p.lock && p'.gone == p.gone
  {
    match pc
    case SendAllocate(_) => p.(nextSeq := p.nextSeq + 1)
    case SendEnqueue(e) => if rxClosed then p else p.(accepted := p.accepted + [e])
    case SendBump(e) => p.(watermark := e.number)
    case SendReturn(Some(e)) => p.(granted := p.granted + [e])
    case CloseSwap => p.(closed := true)
    case CloseReturn => p.(closeReturned := true)
    case _ => p
  }

  function AdvancePublisher(p: Publishers, t: ThreadId, rxClosed: bool): Publishers
    requires t in p.threads && !Waiting(p.threads[t])
  {
    var pc := p.threads[t];
    if Returning(pc) then Effect(p, pc, rxClosed).(threads := p.threads - {t}, lock := None)
    else Effect(p, pc, rxClosed).(threads := p.threads[t := NextPc(pc, p.nextSeq, p.closed, rxClosed)])
  }

  /** One step of the publishing side: besides its own fields it may append to the channel,
      which fails once the receiver closed it, and cancel the token. */
  function Publish(s: State, step: PublisherStep): (s': State)
    requires CanPublish(s.pub, step)
    ensures s'.rcv == s.rcv && s'.rxClosed == s.rxClosed
  {
    var p := s.pub;
    match step
    case CallSend(t, m) => s.(pub := p.(threads := p.threads[t := SendWait(m)]))
    case CallClose(t) => s.(pub := p.(threads := p.threads[t := CloseWait]))
    case Acquire(t) =>
      var next := if p.threads[t].SendWait? then SendCheck(p.threads[t].message) else CloseSwap;
      s.(pub := p.(threads := p.threads[t := next], lock := Some(t)))
    case Advance(t) =>
      State(AdvancePublisher(p, t, s.rxClosed),
            if p.threads[t].SendEnqueue? && !s.rxClosed then s.channel + [p.threads[t].envelope] else s.channel,
            s.rxClosed, s.cancelled || p.threads[t].CloseCancel?, s.rcv)
    case DropSenders => s.(pub := p.(gone := true))
  }

  // ----- Steps of the receiving side -----------------------------------------------

  datatype ReceiverStep =
    | CallDrain
    | CallHasPending
    | Sync
    | CallRecv
    | CheckToken
    | SelectMail
    | SelectEnd
    | SelectCancelled
    | CloseChannel
    | ReadTail
    | AbandonRecv
    | DropReceiver

  predicate CanReceive(s: State, step: ReceiverStep) {
    match step
    case CallDrain => s.rcv.pc.Idle?
    case CallHasPending => s.rcv.pc.Idle?
    case Sync => s.rcv.pc.Syncing?
    case CallRecv => s.rcv.pc.Idle?
    case CheckToken => s.rcv.pc.RecvCheck?
    case SelectMail => s.rcv.pc.RecvSelect? && s.channel != []
    case SelectEnd => s.rcv.pc.RecvSelect? && s.channel == [] && (s.rxClosed || s.pub.gone)
    case SelectCancelled => s.rcv.pc.RecvSelect? && s.cancelled
    case CloseChannel => s.rcv.pc.RecvClose?
    case ReadTail => s.rcv.pc.RecvTail?
    case AbandonRecv => s.rcv.pc.RecvSelect? || s.rcv.pc.RecvTail?
    case DropReceiver => s.rcv.pc.Idle?
  }

  /** Hand the head of the channel to the caller of `recv`. */
  function TakeFromChannel(s: State): State
    requires s.channel != []
  {
    s.(channel := s.channel[1..], rcv := s.rcv.(pc := Idle, delivered := s.rcv.delivered + [s.channel[0]]))
  }

  function EndOfStream(s: State): State {
    s.(rcv := s.rcv.(pc := Idle, ended := true))
  }

  /** One round of the loop that moves mail to `pending`, and what `drain` or `has_pending` does after it. */
  function SyncOnce(s: State): State
    requires s.rcv.pc.Syncing?
  {
    var r := s.rcv;
    if s.channel != [] then s.(channel := s.channel[1..], rcv := r.(pending := r.pending + [s.channel[0]]))
    else if r.pc.thenDrain then s.(rcv := r.(pc := Idle, delivered := r.delivered + r.pending, pending := []))
    else s.(rcv := r.(pc := Idle, sawMail := r.pending != []))
  }

  function StartRecv(s: State): State {
    var r := s.rcv;
    if r.pending != [] then s.(rcv := r.(delivered := r.delivered + [r.pending[0]], pending := r.pending[1..]))
    else s.(rcv := r.(pc := RecvCheck))
  }

  function Receive(s: State, step: ReceiverStep): (s': State)
    requires CanReceive(s, step)
    ensures s'.pub == s.pub && s'.cancelled == s.cancelled
  {
    match step
    case CallDrain => s.(rcv := s.rcv.(pc := Syncing(true)))
    case CallHasPending => s.(rcv := s.rcv.(pc := Syncing(false)))
    case Sync => SyncOnce(s)
    case CallRecv => StartRecv(s)
    case CheckToken => s.(rcv := s.rcv.(pc := if s.cancelled then RecvClose else RecvSelect))
    case SelectMail => TakeFromChannel(s)
    case SelectEnd => EndOfStream(s)
    case SelectCancelled => s.(rcv := s.rcv.(pc := RecvClose))
    case CloseChannel => s.(rxClosed := true, rcv := s.rcv.(pc := RecvTail))
    case ReadTail => if s.channel != [] then TakeFromChannel(s) else EndOfStream(s)
    case AbandonRecv => s.(rcv := s.rcv.(pc := Idle))
    case DropReceiver => s.(rxClosed := true, rcv := s.rcv.(pc := Dropped))
  }

  // ----- Runs ----------------------------------------------------------------------

  datatype Step = OfPublisher(publisher: PublisherStep) | OfReceiver(receiver: ReceiverStep) | CancelOutside

  predicate Enabled(s: State, step: Step) {
    match step
    case OfPublisher(p) => CanPublish(s.pub, p)
    case OfReceiver(r) => CanReceive(s, r)
    case CancelOutside => true
  }

  function Do(s: State, step: Step): State
    requires Enabled(s, step)
  {
    match step
    case OfPublisher(p) => Publish(s, p)
    case OfReceiver(r) => Receive(s, r)
    case CancelOutside => s.(cancelled := true)
  }

  /** `states[k + 1]` is what the `k`-th step makes of `states[k]`. */
  ghost predicate Path(states: seq<State>, steps: seq<Step>) {
    |states| == |steps| + 1 &&
    forall k {:trigger steps[k]} :: 0 <= k < |steps| ==> Enabled(states[k], steps[k]) && states[k + 1] == Do(states[k], steps[k])
  }

  /** Any interleaving from a new mailbox. */
  ghost predicate IsRun(run: seq<State>, steps: seq<Step>) {
    Path(run, steps) && run[0] == INIT
  }

  // ----- The invariant ---------------------------------------------------------------

  /** The lock and the program counters agree. */
  ghost predicate LockInv(threads: Threads, lock: Option<ThreadId>, gone: bool) {
    (lock.Some? ==> lock.value in threads) &&
    (forall t :: t in threads ==> (!Waiting(threads[t]) <==> lock == Some(t))) &&
    (gone ==> forall t :: t !in threads)
  }

  /** Where the thread that holds the lock is. */
  function Holder(threads: Threads, lock: Option<ThreadId>): Option<Pc> {
    if lock.Some? && lock.value in threads then Some(threads[lock.value]) else None
  }

  /** The envelope a holder has enqueued but not yet returned. */
  function InFlight(holder: Option<Pc>): seq<Envelope> {
    match holder
    case Some(SendBump(e)) => [e]
    case Some(SendReturn(Some(e))) => [e]
    case _ => []
  }

  /** Numbers and watermark follow the accepted envelopes; only the lock holder is ahead. */
  ghost predicate SequenceInv(p: Publishers, holder: Option<Pc>, rxClosed: bool) {
    (forall i :: 0 <= i < |p.accepted| ==> p.accepted[i].number == i + 1) &&
    (!rxClosed ==> p.nextSeq == |p.accepted| + if holder.Some? && holder.value.SendEnqueue? then 1 else 0) &&
    (holder.Some? && holder.value.SendEnqueue? ==> holder.value.envelope.number == p.nextSeq) &&
    p.watermark == |p.accepted| - (if holder.Some? && holder.value.SendBump? then 1 else 0) &&
    p.accepted == p.granted + InFlight(holder)
  }

  ghost predicate ClosingInv(p: Publishers, holder: Option<Pc>, cancelled: bool) {
    (p.closed ==> cancelled || (holder.Some? && holder.value.CloseCancel?)) &&
    (p.closed && holder.Some? ==> !holder.value.SendAllocate? && !holder.value.SendEnqueue?) &&
    (holder.Some? && (holder.value.CloseCancel? || holder.value.CloseReturn?) ==> p.closed) &&
    (holder.Some? && holder.value.CloseReturn? ==> cancelled) &&
    (p.closeReturned ==> p.closed && cancelled)
  }

  /** Nothing is lost, repeated or reordered between acceptance and delivery. */
  ghost predicate MailInv(s: State) {
    s.rcv.delivered + s.rcv.pending + s.channel == s.pub.accepted
  }

  ghost predicate ReceiverInv(s: State) {
    var pc := s.rcv.pc;
    (pc.RecvTail? ==> s.rxClosed) &&
    (s.rxClosed ==> s.cancelled || pc.Dropped?) &&
    (pc.RecvClose? ==> s.cancelled) &&
    (pc.RecvCheck? || pc.RecvSelect? || pc.RecvClose? || pc.RecvTail? ==> s.rcv.pending == []) &&
    (s.rcv.ended ==> s.rcv.pending == [] && s.channel == [] && (s.rxClosed || s.pub.gone))
  }

  ghost predicate PublishersInv(p: Publishers, rxClosed: bool, cancelled: bool) {
    var holder := Holder(p.threads, p.lock);
    LockInv(p.threads, p.lock, p.gone) && SequenceInv(p, holder, rxClosed) && ClosingInv(p, holder, cancelled)
  }

  ghost predicate Inv(s: State) {
    PublishersInv(s.pub, s.rxClosed, s.cancelled) && MailInv(s) && ReceiverInv(s)
  }

  lemma AdvanceKeepsLock(threads: Threads, t: ThreadId, pc: Pc, gone: bool)
    requires LockInv(threads, Some(t), gone) && t in threads && !Waiting(pc)
    ensures LockInv(threads[t := pc], Some(t), gone) && Holder(threads[t := pc], Some(t)) == Some(pc)
    ensures LockInv(threads - {t}, None, gone)
  {}

  lemma EnqueueKeepsSequence(p: Publishers, e: Envelope, cancelled: bool)
    requires SequenceInv(p, Some(SendEnqueue(e)), false) && ClosingInv(p, Some(SendEnqueue(e)), cancelled)
    ensures var p' := p.(accepted := p.accepted + [e]);
            SequenceInv(p', Some(SendBump(e)), false) && ClosingInv(p', Some(SendBump(e)), cancelled)
  {}

  lemma BumpKeepsSequence(p: Publishers, e: Envelope, rxClosed: bool, cancelled: bool)
    requires SequenceInv(p, Some(SendBump(e)), rxClosed) && ClosingInv(p, Some(SendBump(e)), cancelled)
    ensures var p', next := p.(watermark := e.number), SendReturn(Some(e));
            SequenceInv(p', Some(next), rxClosed) && ClosingInv(p', Some(next), cancelled)
  {
    assert p.accepted[|p.accepted| - 1] == e;
  }

  /** Actions that neither accept an envelope nor move the watermark. */
  lemma CalmActionKeepsSequence(p: Publishers, pc: Pc, rxClosed: bool, cancelled: bool)
    requires SequenceInv(p, Some(pc), rxClosed) && ClosingInv(p, Some(pc), cancelled)
    requires pc.SendCheck? || pc.SendAllocate? || pc.CloseSwap? || pc.CloseCancel?
    ensures SequenceInv(Effect(p, pc, rxClosed), Some(NextPc(pc, p.nextSeq, p.closed, rxClosed)), rxClosed)
    ensures ClosingInv(Effect(p, pc, rxClosed), Some(NextPc(pc, p.nextSeq, p.closed, rxClosed)), cancelled || pc.CloseCancel?)
  {}

  /** One action under the lock keeps numbering, watermark and closing in step. */
  lemma ActionKeepsSequence(p: Publishers, pc: Pc, rxClosed: bool, cancelled: bool)
    requires SequenceInv(p, Some(pc), rxClosed) && ClosingInv(p, Some(pc), cancelled)
    requires !Waiting(pc) && !Returning(pc)
    ensures SequenceInv(Effect(p, pc, rxClosed), Some(NextPc(pc, p.nextSeq, p.closed, rxClosed)), rxClosed)
    ensures ClosingInv(Effect(p, pc, rxClosed), Some(NextPc(pc, p.nextSeq, p.closed, rxClosed)), cancelled || pc.CloseCancel?)
  {
    match pc
    case SendEnqueue(e) =>
      if !rxClosed {
        EnqueueKeepsSequence(p, e, cancelled);
      }
    case SendBump(e) => BumpKeepsSequence(p, e, rxClosed, cancelled);
    case SendCheck(_) => CalmActionKeepsSequence(p, pc, rxClosed, cancelled);
    case SendAllocate(_) => CalmActionKeepsSequence(p, pc, rxClosed, cancelled);
    case CloseSwap => CalmActionKeepsSequence(p, pc, rxClosed, cancelled);
    case CloseCancel => CalmActionKeepsSequence(p, pc, rxClosed, cancelled);
  }

  lemma ReturnKeepsSequence(p: Publishers, pc: Pc, rxClosed: bool, cancelled: bool)
    requires SequenceInv(p, Some(pc), rxClosed) && ClosingInv(p, Some(pc), cancelled)
    requires Returning(pc)
    ensures SequenceInv(Effect(p, pc, rxClosed), None, rxClosed) && ClosingInv(Effect(p, pc, rxClosed), None, cancelled)
  {
    var p' := Effect(p, pc, rxClosed);
    assert p'.granted + [] == p'.granted;
  }

  /** The invariant of the publishers reads threads and lock only through the holder. */
  lemma SequenceIgnoresThreads(p: Publishers, q: Publishers, holder: Option<Pc>, rxClosed: bool, cancelled: bool)
    requires q == p.(threads := q.threads, lock := q.lock)
    ensures SequenceInv(p, holder, rxClosed) == SequenceInv(q, holder, rxClosed)
    ensures ClosingInv(p, holder, cancelled) == ClosingInv(q, holder, cancelled)
  {}

  lemma AdvanceKeepsSequence(p: Publishers, t: ThreadId, rxClosed: bool, cancelled: bool)
    requires PublishersInv(p, rxClosed, cancelled) && t in p.threads && !Waiting(p.threads[t])
    ensures PublishersInv(AdvancePublisher(p, t, rxClosed), rxClosed, cancelled || p.threads[t].CloseCancel?)
  {
    var pc := p.threads[t];
    assert p.lock == Some(t) && Holder(p.threads, p.lock) == Some(pc);
    var p', q := AdvancePublisher(p, t, rxClosed), Effect(p, pc, rxClosed);
    if Returning(pc) {
      AdvanceKeepsLock(p.threads, t, pc, p.gone);
      ReturnKeepsSequence(p, pc, rxClosed, cancelled);
      SequenceIgnoresThreads(q, p', None, rxClosed, cancelled);
    } else {
      var next := NextPc(pc, p.nextSeq, p.closed, rxClosed);
      AdvanceKeepsLock(p.threads, t, next, p.gone);
      ActionKeepsSequence(p, pc, rxClosed, cancelled);
      SequenceIgnoresThreads(q, p', Some(next), rxClosed, cancelled || pc.CloseCancel?);
    }
  }

  /** A call or the last handle going away changes no holder; taking a free lock makes one that
      has done nothing yet. */
  lemma CallKeepsPublishers(p: Publishers, q: Publishers, t: ThreadId, rxClosed: bool, cancelled: bool)
    requires PublishersInv(p, rxClosed, cancelled)
    requires q == p.(threads := q.threads, lock := q.lock) && LockInv(q.threads, q.lock, q.gone)
    requires Holder(q.threads, q.lock) == Holder(p.threads, p.lock) ||
             (p.lock == None && var h := Holder(q.threads, q.lock); h.Some? && (h.value.SendCheck? || h.value.CloseSwap?))
    ensures PublishersInv(q, rxClosed, cancelled)
  {}

  lemma EnqueueKeepsMail(s: State, t: ThreadId)
    requires Inv(s) && CanPublish(s.pub, Advance(t))
    ensures MailInv(Publish(s, Advance(t))) && ReceiverInv(Publish(s, Advance(t)))
  {}

  lemma PublishKeepsInv(s: State, step: PublisherStep)
    requires Inv(s) && CanPublish(s.pub, step)
    ensures Inv(Publish(s, step))
  {
    var p, s' := s.pub, Publish(s, step);
    match step
    case Advance(t) =>
      AdvanceKeepsSequence(p, t, s.rxClosed, s.cancelled);
      EnqueueKeepsMail(s, t);
    case Acquire(t) =>
      assert Holder(p.threads, p.lock) == None;
      CallKeepsPublishers(p, s'.pub, t, s.rxClosed, s.cancelled);
    case DropSenders =>
      assert s'.pub.lock == None;
    case CallSend(t, _) => CallKeepsPublishers(p, s'.pub, t, s.rxClosed, s.cancelled);
    case CallClose(t) => CallKeepsPublishers(p, s'.pub, t, s.rxClosed, s.cancelled);
  }

  /** Moving mail towards the caller keeps the order of all that was accepted. */
  lemma TakingKeepsMail(s: State)
    requires MailInv(s) && s.rcv.pending == [] && s.channel != []
    ensures MailInv(TakeFromChannel(s))
  {}

  lemma SyncKeepsMail(s: State)
    requires MailInv(s) && s.rcv.pc.Syncing?
    ensures MailInv(SyncOnce(s))
  {}

  lemma RecvKeepsMail(s: State)
    requires MailInv(s)
    ensures MailInv(StartRecv(s))
  {}

  lemma ReceiveKeepsInv(s: State, step: ReceiverStep)
    requires Inv(s) && CanReceive(s, step)
    ensures Inv(Receive(s, step))
  {
    match step
    case Sync => SyncKeepsMail(s);
    case CallRecv => RecvKeepsMail(s);
    case SelectMail => TakingKeepsMail(s);
    case ReadTail =>
      if s.channel != [] {
        TakingKeepsMail(s);
      }
    case _ =>
  }

  /** Every step of every thread, of the receiver and of the environment keeps the invariant. */
  lemma StepKeepsInv(s: State, step: Step)
    requires Inv(s) && Enabled(s, step)
    ensures Inv(Do(s, step))
  {
    match step
    case OfPublisher(p) => PublishKeepsInv(s, p);
    case OfReceiver(r) => ReceiveKeepsInv(s, r);
    case CancelOutside =>
  }

  // ----- How the promised quantities evolve ----------------------------------------------

  ghost predicate Evolves(s: State, t: State) {
    s.pub.watermark <= t.pub.watermark &&
    s.rcv.delivered <= t.rcv.delivered && s.pub.accepted <= t.pub.accepted &&
    (s.pub.closed ==> t.pub.closed && t.pub.accepted == s.pub.accepted) &&
    (s.rxClosed || s.pub.gone ==> (t.rxClosed || t.pub.gone) && t.pub.accepted == s.pub.accepted) &&
    (s.cancelled ==> t.cancelled) &&
    (s.rcv.ended ==> t.rcv.ended)
  }

  lemma EffectEvolves(p: Publishers, pc: Pc, rxClosed: bool, cancelled: bool)
    requires SequenceInv(p, Some(pc), rxClosed) && ClosingInv(p, Some(pc), cancelled)
    ensures var p' := Effect(p, pc, rxClosed);
            p.watermark <= p'.watermark && p.accepted <= p'.accepted &&
            (p.closed ==> p'.closed && p'.accepted == p.accepted) && (rxClosed ==> p'.accepted == p.accepted)
  {
    match pc
    case SendBump(e) => assert p.accepted[|p.accepted| - 1] == e;
    case _ =>
  }

  lemma AdvanceEvolves(p: Publishers, t: ThreadId, rxClosed: bool, cancelled: bool)
    requires PublishersInv(p, rxClosed, cancelled) && t in p.threads && !Waiting(p.threads[t])
    ensures var p' := AdvancePublisher(p, t, rxClosed);
            p.watermark <= p'.watermark && p.accepted <= p'.accepted && p'.gone == p.gone == false &&
            (p.closed ==> p'.closed && p'.accepted == p.accepted) && (rxClosed ==> p'.accepted == p.accepted)
  {
    var pc := p.threads[t];
    assert p.lock == Some(t) && Holder(p.threads, p.lock) == Some(pc);
    EffectEvolves(p, pc, rxClosed, cancelled);
  }

  lemma StepEvolves(s: State, step: Step)
    requires Inv(s) && Enabled(s, step)
    ensures Evolves(s, Do(s, step))
  {
    if step.OfPublisher? && step.publisher.Advance? {
      AdvanceEvolves(s.pub, step.publisher.thread, s.rxClosed, s.cancelled);
    }
  }

  lemma EvolvesTransitive(s: State, t: State, u: State)
    requires Evolves(s, t) && Evolves(t, u)
    ensures Evolves(s, u)
  {}

  lemma {:induction false} PathKeepsInv(states: seq<State>, steps: seq<Step>, i: nat, j: nat)
    requires Path(states, steps) && i <= j < |states| && Inv(states[i])
    ensures Inv(states[j]) && Evolves(states[i], states[j])
    decreases j - i
  {
    if i < j {
      PathKeepsInv(states, steps, i, j - 1);
      StepKeepsInv(states[j - 1], steps[j - 1]);
      StepEvolves(states[j - 1], steps[j - 1]);
      EvolvesTransitive(states[i], states[j - 1], states[j]);
    }
  }

  lemma InitHasInv()
    ensures Inv(INIT)
  {
    var empty: seq<Envelope> := [];
    assert empty + empty == empty;
  }

  lemma RunKeepsInv(run: seq<State>, steps: seq<Step>, k: nat)
    requires IsRun(run, steps) && k < |run|
    ensures Inv(run[k])
  {
    InitHasInv();
    PathKeepsInv(run, steps, 0, k);
  }

  lemma RunEvolves(run: seq<State>, steps: seq<Step>, i: nat, j: nat)
    requires IsRun(run, steps) && i <= j < |run|
    ensures Evolves(run[i], run[j])
  {
    RunKeepsInv(run, steps, i);
    PathKeepsInv(run, steps, i, j);
  }

  // ----- What every run promises ----------------------------------------------------------

  lemma DeliveredIsNumbered(s: State)
    requires Inv(s)
    ensures forall i :: 0 <= i < |s.rcv.delivered| ==> s.rcv.delivered[i].number == i + 1
  {
    forall i | 0 <= i < |s.rcv.delivered| ensures s.rcv.delivered[i].number == i + 1 {
      assert s.rcv.delivered[i] == s.pub.accepted[i];
    }
  }

  /** The receiver gets 1, 2, 3, … and nothing is missing between it and the senders: what it
      has taken, what waits in `pending` and what waits in the channel make up, in that order,
      everything accepted; and every send that returned a number was accepted. */
  lemma DeliversWithoutGaps(run: seq<State>, steps: seq<Step>, k: nat)
    requires IsRun(run, steps) && k < |run|
    ensures forall i :: 0 <= i < |run[k].rcv.delivered| ==> run[k].rcv.delivered[i].number == i + 1
    ensures run[k].rcv.delivered + run[k].rcv.pending + run[k].channel == run[k].pub.accepted
    ensures run[k].pub.granted <= run[k].pub.accepted
  {
    RunKeepsInv(run, steps, k);
    DeliveredIsNumbered(run[k]);
  }

  /** Whenever the publish lock is free the watermark is the number of the last accepted
      envelope, and the sends that returned a number are exactly the accepted ones, in order. */
  lemma WatermarkIsLastAccepted(run: seq<State>, steps: seq<Step>, k: nat)
    requires IsRun(run, steps) && k < |run| && run[k].pub.lock.None?
    ensures var p := run[k].pub;
            p.watermark == |p.accepted| && p.granted == p.accepted &&
            (p.accepted != [] ==> p.watermark == p.accepted[|p.accepted| - 1].number)
  {
    RunKeepsInv(run, steps, k);
  }

  /** Over a whole run the watermark never goes back and deliveries only extend. */
  lemma NeverGoesBack(run: seq<State>, steps: seq<Step>, i: nat, j: nat)
    requires IsRun(run, steps) && i <= j < |run|
    ensures run[i].pub.watermark <= run[j].pub.watermark
    ensures run[i].rcv.delivered <= run[j].rcv.delivered && run[i].pub.accepted <= run[j].pub.accepted
  {
    RunKeepsInv(run, steps, i);
    RunEvolves(run, steps, i, j);
  }

  /** Once a close has returned, no send is ever accepted again and the token stays cancelled. */
  lemma CloseIsFinal(run: seq<State>, steps: seq<Step>, i: nat, j: nat)
    requires IsRun(run, steps) && i <= j < |run| && run[i].pub.closeReturned
    ensures run[j].pub.accepted == run[i].pub.accepted
    ensures run[i].cancelled && run[j].cancelled
  {
    RunKeepsInv(run, steps, i);
    RunEvolves(run, steps, i, j);
  }

  /** `recv` returns None only after every accepted envelope was handed out, only once the
      token is cancelled or every sender is gone, and from then on nothing is ever accepted or
      delivered again: every later `recv` that returns, returns None. */
  lemma EndIsFinal(run: seq<State>, steps: seq<Step>, i: nat, j: nat)
    requires IsRun(run, steps) && i <= j < |run| && run[i].rcv.ended
    ensures run[i].rcv.delivered == run[i].pub.accepted
    ensures run[i].cancelled || run[i].pub.gone || run[i].rcv.pc.Dropped?
    ensures run[j].rcv.ended && run[j].pub.accepted == run[i].pub.accepted
    ensures run[j].rcv.delivered == run[i].rcv.delivered
  {
    RunKeepsInv(run, steps, i);
    RunKeepsInv(run, steps, j);
    RunEvolves(run, steps, i, j);
    assert run[i].rcv.delivered == run[i].rcv.delivered + run[i].rcv.pending + run[i].channel;
    assert run[j].rcv.delivered == run[j].rcv.delivered + run[j].rcv.pending + run[j].channel;
  }

  // ----- What each call of the receiver returns ------------------------------------------------

  /** `drain` hands out everything accepted up to the moment it found the channel empty. */
  lemma DrainHandsOutAll(run: seq<State>, steps: seq<Step>, k: nat)
    requires IsRun(run, steps) && k < |steps| && steps[k] == OfReceiver(Sync)
    requires run[k].rcv.pc == Syncing(true) && run[k + 1].rcv.pc.Idle?
    ensures run[k + 1].rcv.delivered == run[k].pub.accepted && run[k + 1].rcv.pending == []
  {
    RunKeepsInv(run, steps, k);
    assert run[k].rcv.delivered + run[k].rcv.pending + [] == run[k].rcv.delivered + run[k].rcv.pending;
  }

  /** `has_pending` returns true iff something accepted was not handed out. */
  lemma HasPendingIff(run: seq<State>, steps: seq<Step>, k: nat)
    requires IsRun(run, steps) && k < |steps| && steps[k] == OfReceiver(Sync)
    requires run[k].rcv.pc == Syncing(false) && run[k + 1].rcv.pc.Idle?
    ensures run[k + 1].rcv.sawMail <==> run[k].rcv.delivered != run[k].pub.accepted
    ensures run[k + 1].rcv.delivered == run[k].rcv.delivered
  {
    RunKeepsInv(run, steps, k);
    assert |run[k].pub.accepted| == |run[k].rcv.delivered| + |run[k].rcv.pending| + |run[k].channel|;
    assert run[k].rcv.delivered + [] + [] == run[k].rcv.delivered;
  }

  predicate OfRecv(step: Step) {
    step.OfReceiver? && step.receiver in {CallRecv, SelectMail, SelectEnd, ReadTail}
  }

  /** A `recv` that returns hands out the oldest envelope not taken, or ends the stream when all is. */
  lemma RecvReturns(run: seq<State>, steps: seq<Step>, k: nat)
    requires IsRun(run, steps) && k < |steps| && OfRecv(steps[k]) && run[k + 1].rcv.pc.Idle?
    ensures var (r, r', accepted) := (run[k].rcv, run[k + 1].rcv, run[k].pub.accepted);
            if |r.delivered| < |accepted| then r'.delivered == r.delivered + [accepted[|r.delivered|]] && r'.ended == r.ended
            else r'.delivered == r.delivered && r'.ended
  {
    RunKeepsInv(run, steps, k);
    var r := run[k].rcv;
    assert |run[k].pub.accepted| == |r.delivered| + |r.pending| + |run[k].channel|;
    assert r.pending != [] ==> run[k].pub.accepted[|r.delivered|] == r.pending[0];
    assert r.pending == [] && run[k].channel != [] ==> run[k].pub.accepted[|r.delivered|] == run[k].channel[0];
  }

  // ----- What accepted mail carries --------------------------------------------------------------

  /** The message a send in progress carries. */
  function Carried(pc: Pc): Option<Payload> {
    match pc
    case SendWait(m) => Some(m)
    case SendCheck(m) => Some(m)
    case SendAllocate(m) => Some(m)
    case SendEnqueue(e) => Some(e.message)
    case SendBump(e) => Some(e.message)
    case SendReturn(Some(e)) => Some(e.message)
    case _ => None
  }

  predicate NotEnqueued(pc: Pc) {
    pc.SendWait? || pc.SendCheck? || pc.SendAllocate? || pc.SendEnqueue?
  }

  predicate IsSendBy(step: Step, t: ThreadId) {
    step.OfPublisher? && step.publisher.CallSend? && step.publisher.thread == t
  }

  predicate IsSendOf(step: Step, m: Payload) {
    step.OfPublisher? && step.publisher.CallSend? && step.publisher.message == m
  }

  /** Step `c` is the last call of `send` by `t` among the first `k`, with message `m`. */
  ghost predicate LastSend(steps: seq<Step>, k: nat, c: nat, t: ThreadId, m: Payload) {
    c < k <= |steps| && IsSendBy(steps[c], t) && IsSendOf(steps[c], m) && forall j :: c < j < k ==> !IsSendBy(steps[j], t)
  }

  /** Every send in progress carries the message of its thread's last call. */
  ghost predicate CallsTraced(steps: seq<Step>, k: nat, threads: Threads, calls: map<ThreadId, nat>) {
    forall t :: t in threads && Carried(threads[t]).Some? ==> t in calls && LastSend(steps, k, calls[t], t, Carried(threads[t]).value)
  }

  /** Every accepted envelope carries the message of a call, each of another call. */
  ghost predicate MailTraced(steps: seq<Step>, k: nat, accepted: seq<Envelope>, origins: seq<nat>) {
    |origins| == |accepted| && k <= |steps| &&
    (forall i :: 0 <= i < |origins| ==> origins[i] < k && IsSendOf(steps[origins[i]], accepted[i].message)) &&
    forall i, j :: 0 <= i < j < |origins| ==> origins[i] != origins[j]
  }

  /** A send that has enqueued nothing yet is the origin of nothing. */
  ghost predicate CallsFresh(threads: Threads, calls: map<ThreadId, nat>, origins: seq<nat>) {
    forall t :: t in threads && NotEnqueued(threads[t]) ==> t in calls && calls[t] !in origins
  }

  ghost predicate Traced(steps: seq<Step>, k: nat, p: Publishers, calls: map<ThreadId, nat>, origins: seq<nat>) {
    CallsTraced(steps, k, p.threads, calls) && MailTraced(steps, k, p.accepted, origins) && CallsFresh(p.threads, calls, origins)
  }

  /** Sends in progress in `q` are further on than in `p`, or where they were. */
  ghost predicate NoNewSends(p: Threads, q: Threads) {
    (forall t :: t in q && Carried(q[t]).Some? ==> t in p && Carried(p[t]) == Carried(q[t])) &&
    forall t :: t in q && NotEnqueued(q[t]) ==> t in p && NotEnqueued(p[t])
  }

  /** A step that calls no send and accepts nothing, and at most moves a send on. */
  lemma QuietKeepsTrace(steps: seq<Step>, k: nat, p: Publishers, q: Publishers, calls: map<ThreadId, nat>, origins: seq<nat>)
    requires k < |steps| && Traced(steps, k, p, calls, origins) && q.accepted == p.accepted
    requires !(steps[k].OfPublisher? && steps[k].publisher.CallSend?) && NoNewSends(p.threads, q.threads)
    ensures Traced(steps, k + 1, q, calls, origins)
  {}

  lemma SendKeepsTrace(steps: seq<Step>, k: nat, p: Publishers, q: Publishers, t: ThreadId, m: Payload,
                       calls: map<ThreadId, nat>, origins: seq<nat>)
    requires k < |steps| && Traced(steps, k, p, calls, origins) && t !in p.threads
    requires steps[k] == OfPublisher(CallSend(t, m)) && q.threads == p.threads[t := SendWait(m)] && q.accepted == p.accepted
    ensures Traced(steps, k + 1, q, calls[t := k], origins)
  {}

  lemma AcceptKeepsTrace(steps: seq<Step>, k: nat, p: Publishers, q: Publishers, t: ThreadId, e: Envelope,
                         calls: map<ThreadId, nat>, origins: seq<nat>)
    requires k < |steps| && Traced(steps, k, p, calls, origins) && steps[k] == OfPublisher(Advance(t))
    requires t in p.threads && p.threads[t] == SendEnqueue(e) && LockInv(p.threads, p.lock, p.gone)
    requires q.threads == p.threads[t := SendBump(e)] && q.accepted == p.accepted + [e]
    ensures Traced(steps, k + 1, q, calls, origins + [calls[t]])
  {
    var longer := origins + [calls[t]];
    assert LastSend(steps, k, calls[t], t, e.message);
    forall u | u in q.threads && NotEnqueued(q.threads[u]) ensures calls[u] !in longer {
      assert u != t && LastSend(steps, k, calls[u], u, Carried(p.threads[u]).value);
    }
  }

  predicate Accepts(s: State, step: Step) {
    step.OfPublisher? && step.publisher.Advance? && step.publisher.thread in s.pub.threads &&
    s.pub.threads[step.publisher.thread].SendEnqueue? && !s.rxClosed
  }

  lemma AdvanceIsQuiet(p: Publishers, t: ThreadId, rxClosed: bool)
    requires t in p.threads && !Waiting(p.threads[t]) && (p.threads[t].SendEnqueue? ==> rxClosed)
    ensures NoNewSends(p.threads, AdvancePublisher(p, t, rxClosed).threads) && AdvancePublisher(p, t, rxClosed).accepted == p.accepted
  {
    var pc := p.threads[t];
    if !Returning(pc) {
      assert Carried(NextPc(pc, p.nextSeq, p.closed, rxClosed)) in {None, Carried(pc)};
    }
  }

  lemma OtherStepsAreQuiet(s: State, step: Step)
    requires Enabled(s, step) && !(step.OfPublisher? && step.publisher.CallSend?) && !Accepts(s, step)
    ensures var (p, q) := (s.pub, Do(s, step).pub); q.accepted == p.accepted && NoNewSends(p.threads, q.threads)
  {
    if step.OfPublisher? && step.publisher.Advance? {
      AdvanceIsQuiet(s.pub, step.publisher.thread, s.rxClosed);
    }
  }

  lemma StepKeepsTrace(steps: seq<Step>, k: nat, s: State, calls: map<ThreadId, nat>, origins: seq<nat>)
    returns (calls': map<ThreadId, nat>, origins': seq<nat>)
    requires k < |steps| && Inv(s) && Enabled(s, steps[k]) && Traced(steps, k, s.pub, calls, origins)
    ensures Traced(steps, k + 1, Do(s, steps[k]).pub, calls', origins')
  {
    var p, q := s.pub, Do(s, steps[k]).pub;
    calls', origins' := calls, origins;
    if steps[k].OfPublisher? && steps[k].publisher.CallSend? {
      var t := steps[k].publisher.thread;
      SendKeepsTrace(steps, k, p, q, t, steps[k].publisher.message, calls, origins);
      calls' := calls[t := k];
    } else if Accepts(s, steps[k]) {
      var t := steps[k].publisher.thread;
      AcceptKeepsTrace(steps, k, p, q, t, p.threads[t].envelope, calls, origins);
      origins' := origins + [calls[t]];
    } else {
      OtherStepsAreQuiet(s, steps[k]);
      QuietKeepsTrace(steps, k, p, q, calls, origins);
    }
  }

  lemma RunIsTraced(run: seq<State>, steps: seq<Step>, k: nat) returns (calls: map<ThreadId, nat>, origins: seq<nat>)
    requires IsRun(run, steps) && k < |run|
    ensures Traced(steps, k, run[k].pub, calls, origins)
  {
    calls, origins := map[], [];
    for i := 0 to k
      invariant Traced(steps, i, run[i].pub, calls, origins)
    {
      RunKeepsInv(run, steps, i);
      calls, origins := StepKeepsTrace(steps, i, run[i], calls, origins);
    }
  }

  /** In every run, each accepted envelope carries the message of a call of `send`, and no call is the
      origin of two. */
  lemma AcceptedWereSent(run: seq<State>, steps: seq<Step>, k: nat) returns (origins: seq<nat>)
    requires IsRun(run, steps) && k < |run|
    ensures |origins| == |run[k].pub.accepted|
    ensures forall i :: 0 <= i < |origins| ==> origins[i] < k && IsSendOf(steps[origins[i]], run[k].pub.accepted[i].message)
    ensures forall i, j :: 0 <= i < j < |origins| ==> origins[i] != origins[j]
  {
    var calls;
    calls, origins := RunIsTraced(run, steps, k);
  }

  /** A send that returns a number returns that of the last accepted envelope, which carries the message
      of the call: its thread's last. */
  lemma ReturnedIsOwn(run: seq<State>, steps: seq<Step>, k: nat, t: ThreadId, e: Envelope) returns (c: nat)
    requires IsRun(run, steps) && k < |run| && t in run[k].pub.threads && run[k].pub.threads[t] == SendReturn(Some(e))
    ensures run[k].pub.accepted != [] && e == run[k].pub.accepted[|run[k].pub.accepted| - 1]
    ensures c < k && steps[c] == OfPublisher(CallSend(t, e.message)) && forall j :: c < j < k ==> !IsSendBy(steps[j], t)
  {
    var calls, origins := RunIsTraced(run, steps, k);
    RunKeepsInv(run, steps, k);
    assert Carried(run[k].pub.threads[t]) == Some(e.message);
    c := calls[t];
    var p := run[k].pub;
    assert p.lock == Some(t) && Holder(p.threads, p.lock) == Some(SendReturn(Some(e)));
    assert p.accepted == p.granted + [e];
    assert LastSend(steps, k, c, t, e.message);
    assert steps[c].publisher == CallSend(t, e.message);
  }

  // ----- Who is refused -----------------------------------------------------------------------------

  ghost predicate RefusedRightly(s: State) {
    forall t :: t in s.pub.threads && s.pub.threads[t] == SendReturn(None) ==> s.pub.closed || s.rxClosed
  }

  lemma StepKeepsRefusals(s: State, step: Step)
    requires Inv(s) && Enabled(s, step) && RefusedRightly(s)
    ensures RefusedRightly(Do(s, step))
  {}

  /** In every run, a send returns None only if the mailbox is closed or the receiver closed the channel. */
  lemma RefusedOnlyIfClosed(run: seq<State>, steps: seq<Step>, k: nat, t: ThreadId)
    requires IsRun(run, steps) && k < |run| && t in run[k].pub.threads && run[k].pub.threads[t] == SendReturn(None)
    ensures run[k].pub.closed || run[k].rxClosed
  {
    assert RefusedRightly(run[0]);
    for i := 0 to k
      invariant RefusedRightly(run[i])
    {
      RunKeepsInv(run, steps, i);
      StepKeepsRefusals(run[i], steps[i]);
    }
  }

  /** From taking the lock to the enqueue. */
  lemma SendReachesEnqueue(s: State, t: ThreadId, m: Payload) returns (path: seq<State>, steps: seq<Step>)
    requires Inv(s) && t in s.pub.threads && s.pub.threads[t] == SendWait(m) && s.pub.lock == None
    requires !s.pub.closed && !s.rxClosed
    ensures Path(path, steps) && path[0] == s && |steps| == 3
    ensures forall k :: 1 <= k < |steps| ==> steps[k] == OfPublisher(Advance(t))
    ensures var pc := SendEnqueue(Envelope(s.pub.watermark + 1, m));
            path[3] == s.(pub := s.pub.(threads := s.pub.threads[t := pc], lock := Some(t), nextSeq := s.pub.nextSeq + 1))
  {
    var go := OfPublisher(Advance(t));
    var s1 := Do(s, OfPublisher(Acquire(t)));
    var s2 := Do(s1, go);
    path, steps := [s, s1, s2, Do(s2, go)], [OfPublisher(Acquire(t)), go, go];
    assert s.pub.threads[t := SendCheck(m)][t := SendAllocate(m)] == s.pub.threads[t := SendAllocate(m)];
  }

  /** From the enqueue to the return. */
  lemma SendFinishes(s: State, t: ThreadId, e: Envelope) returns (path: seq<State>, steps: seq<Step>)
    requires t in s.pub.threads && s.pub.threads[t] == SendEnqueue(e) && !s.rxClosed
    ensures Path(path, steps) && path[0] == s && |steps| == 3
    ensures forall k :: 0 <= k < |steps| ==> steps[k] == OfPublisher(Advance(t))
    ensures var p := s.pub;
            path[3] == s.(channel := s.channel + [e],
                          pub := p.(threads := p.threads - {t}, lock := None, watermark := e.number,
                                    accepted := p.accepted + [e], granted := p.granted + [e]))
  {
    var go := OfPublisher(Advance(t));
    var s1 := Do(s, go);
    var s2 := Do(s1, go);
    path, steps := [s, s1, s2, Do(s2, go)], [go, go, go];
    assert s2.pub.threads - {t} == s.pub.threads - {t};
  }

  lemma JoinPaths(p: seq<State>, a: seq<Step>, q: seq<State>, b: seq<Step>)
    requires Path(p, a) && Path(q, b) && p[|p| - 1] == q[0]
    ensures Path(p + q[1..], a + b) && (p + q[1..])[|p| + |q| - 2] == q[|q| - 1]
  {}

  /** A send that gets the lock while the mailbox and the channel are open is accepted: its own steps
      enqueue its message under the next number, move the watermark there and return it. */
  lemma SendGoesThrough(s: State, t: ThreadId, m: Payload) returns (path: seq<State>, steps: seq<Step>)
    requires Inv(s) && t in s.pub.threads && s.pub.threads[t] == SendWait(m) && s.pub.lock == None
    requires !s.pub.closed && !s.rxClosed
    ensures Path(path, steps) && path[0] == s
    ensures forall k :: 1 <= k < |steps| ==> steps[k] == OfPublisher(Advance(t))
    ensures var e, g := Envelope(s.pub.watermark + 1, m), path[|path| - 1];
            g.pub.accepted == s.pub.accepted + [e] && g.channel == s.channel + [e] && g.pub.granted == s.pub.granted + [e] &&
            g.pub.watermark == e.number && g.pub.threads == s.pub.threads - {t} && g.pub.lock == None &&
            g.rcv == s.rcv && g.rxClosed == s.rxClosed && g.cancelled == s.cancelled && !g.pub.closed
  {
    path, steps := SendReachesEnqueue(s, t, m);
    var s3, e := path[3], Envelope(s.pub.watermark + 1, m);
    var rest, more := SendFinishes(s3, t, e);
    assert s3.pub.threads - {t} == s.pub.threads - {t};
    JoinPaths(path, steps, rest, more);
    path, steps := path + rest[1..], steps + more;
  }

  /** A close that gets the lock closes the mailbox, cancels the token and returns. */
  lemma CloseGoesThrough(s: State, t: ThreadId) returns (path: seq<State>, steps: seq<Step>)
    requires Inv(s) && t in s.pub.threads && s.pub.threads[t] == CloseWait && s.pub.lock == None
    ensures Path(path, steps) && path[0] == s
    ensures forall k :: 1 <= k < |steps| ==> steps[k] == OfPublisher(Advance(t))
    ensures var g := path[|path| - 1];
            g.pub.closed && g.cancelled && g.pub.closeReturned && g.pub.threads == s.pub.threads - {t} && g.pub.lock == None &&
            g.pub.accepted == s.pub.accepted && g.channel == s.channel && g.rcv == s.rcv && g.rxClosed == s.rxClosed
  {
    var go := OfPublisher(Advance(t));
    var s1 := Do(s, OfPublisher(Acquire(t)));
    var s2 := Do(s1, go);
    var s3 := Do(s2, go);
    if s.pub.closed {
      path, steps := [s, s1, s2, s3], [OfPublisher(Acquire(t)), go, go];
      assert s3.pub.threads == s.pub.threads - {t};
    } else {
      var s4 := Do(s3, go);
      path, steps := [s, s1, s2, s3, s4], [OfPublisher(Acquire(t)), go, go, go];
      assert s4.pub.threads == s.pub.threads - {t};
    }
  }

  // ----- When the token is cancelled ----------------------------------------------------------

  /** The two ways to cancel: from outside, or by the first `close` to get the lock. */
  ghost predicate Cancels(s: State, step: Step) {
    step.CancelOutside? ||
    (step.OfPublisher? && step.publisher.Advance? && step.publisher.thread in s.pub.threads &&
     s.pub.threads[step.publisher.thread].CloseCancel?)
  }

  lemma StepCancelsIff(s: State, step: Step)
    requires Enabled(s, step)
    ensures Do(s, step).cancelled <==> s.cancelled || Cancels(s, step)
  {}

  ghost predicate CancelledBefore(run: seq<State>, steps: seq<Step>, k: nat)
    requires k <= |steps| < |run|
  {
    exists m :: 0 <= m < k && Cancels(run[m], steps[m])
  }

  lemma CancelledBeforeExtends(run: seq<State>, steps: seq<Step>, k: nat)
    requires k < |steps| < |run|
    ensures CancelledBefore(run, steps, k + 1) <==> CancelledBefore(run, steps, k) || Cancels(run[k], steps[k])
  {
    if CancelledBefore(run, steps, k) {
      var m :| 0 <= m < k && Cancels(run[m], steps[m]);
    }
  }

  lemma MoveCancelsIff(run: seq<State>, steps: seq<Step>, k: nat)
    requires IsRun(run, steps) && k < |steps|
    ensures run[k + 1].cancelled <==> run[k].cancelled || Cancels(run[k], steps[k])
  {
    StepCancelsIff(run[k], steps[k]);
  }

  /** In every run the token is cancelled iff somebody cancelled it from outside or a `close` did:
      dropping senders never does. */
  lemma CancelledIff(run: seq<State>, steps: seq<Step>, k: nat)
    requires IsRun(run, steps) && k < |run|
    ensures run[k].cancelled <==> exists m :: 0 <= m < k && Cancels(run[m], steps[m])
  {
    for i := 0 to k
      invariant run[i].cancelled <==> CancelledBefore(run, steps, i)
    {
      MoveCancelsIff(run, steps, i);
      CancelledBeforeExtends(run, steps, i);
    }
  }

  /** So a stream can end with its token not cancelled: every sender goes, and `recv` finds none. */
  lemma EndsUncancelled() returns (run: seq<State>, steps: seq<Step>)
    ensures IsRun(run, steps) && run[|run| - 1].rcv.ended && !run[|run| - 1].cancelled
  {
    steps := [OfPublisher(DropSenders), OfReceiver(CallRecv), OfReceiver(CheckToken), OfReceiver(SelectEnd)];
    var s1 := Do(INIT, steps[0]);
    var s2 := Do(s1, steps[1]);
    var s3 := Do(s2, steps[2]);
    run := [INIT, s1, s2, s3, Do(s3, steps[3])];
  }

  // ----- After cancellation recv answers without waiting ------------------------------------

  /** The steps of one `recv` call when the token is already cancelled. */
  function CancelledRecv(s: State): seq<Step> {
    if s.rcv.pending != [] then [OfReceiver(CallRecv)]
    else [OfReceiver(CallRecv), OfReceiver(CheckToken), OfReceiver(CloseChannel), OfReceiver(ReadTail)]
  }

  /** Once cancelled, a `recv` call can always run to its end by itself: it returns the oldest
      envelope not yet taken, and None exactly when there is none. */
  lemma CancelledRecvAnswers(s: State) returns (path: seq<State>)
    requires Inv(s) && s.cancelled && s.rcv.pc.Idle?
    ensures Path(path, CancelledRecv(s)) && path[0] == s
    ensures var t := path[|path| - 1];
            t.rcv.pc.Idle? && t.pub == s.pub && t.cancelled &&
            (|s.rcv.delivered| < |s.pub.accepted| ==>
               t.rcv.delivered == s.rcv.delivered + [s.pub.accepted[|s.rcv.delivered|]] && t.rcv.ended == s.rcv.ended) &&
            (|s.rcv.delivered| == |s.pub.accepted| ==> t.rcv.delivered == s.rcv.delivered && t.rcv.ended)
  {
    var s1 := Receive(s, CallRecv);
    if s.rcv.pending != [] {
      path := [s, s1];
      assert s.pub.accepted[|s.rcv.delivered|] == s.rcv.pending[0];
    } else {
      var s2 := Receive(s1, CheckToken);
      var s3 := Receive(s2, CloseChannel);
      var s4 := Receive(s3, ReadTail);
      path := [s, s1, s2, s3, s4];
      assert s.pub.accepted == s.rcv.delivered + s.channel;
    }
  }

  /** So a cancelled mailbox can always be emptied by `recv` calls alone: they hand out all that
      was accepted, in order, and then end the stream. */
  lemma {:induction false} CancelledMailboxDrains(s: State) returns (path: seq<State>, steps: seq<Step>)
    requires Inv(s) && s.cancelled && s.rcv.pc.Idle?
    ensures Path(path, steps) && path[0] == s && forall k :: 0 <= k < |steps| ==> steps[k].OfReceiver?
    ensures var t := path[|path| - 1];
            t.rcv.pc.Idle? && t.rcv.ended && t.pub == s.pub && t.rcv.delivered == s.pub.accepted
    decreases |s.pub.accepted| - |s.rcv.delivered|
  {
    path := CancelledRecvAnswers(s);
    steps := CancelledRecv(s);
    var t := path[|path| - 1];
    PathKeepsInv(path, steps, 0, |path| - 1);
    if |s.rcv.delivered| < |s.pub.accepted| {
      var rest, more := CancelledMailboxDrains(t);
      JoinPaths(path, steps, rest, more);
      path, steps := path + rest[1..], steps + more;
    } else {
      assert s.pub.accepted == s.rcv.delivered + s.rcv.pending + s.channel;
    }
  }
}
