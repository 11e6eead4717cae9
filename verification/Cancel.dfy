/** Hierarchical cancellation as a protocol of several threads.

    Every atomic access and every locked section that others cannot see into is one step.
    The creation of a child takes two, because the parent's flag, which it reads with the
    lock held, can be set by another thread before the child is registered. A waiter is
    woken by the notification only once it is registered.
  */
module CancelProtocol {
  import opened Options

  type TokenId = nat
  type ThreadId = nat

  /** The state shared by a token's clones; `parent` and `requested` only record history. */
  datatype Token = Token(
    cancelled: bool,
    children: seq<TokenId>,
    lock: Option<ThreadId>,
    handles: nat,
    parent: Option<TokenId>,
    requested: bool)

  /** Where a call of `cancel_inner` stands; `Descend` holds the children it still has to visit. */
  datatype CancelPc = Swap | Notify | TakeChildren | Descend(rest: seq<TokenId>)

  datatype Frame = Frame(token: TokenId, pc: CancelPc)

  /** Where a call of `cancelled` stands. */
  datatype WaitPc = FirstCheck | Register | Recheck(woken: bool) | Await(woken: bool) | FinalCheck

  datatype Thread =
    | Idle
    | Cancelling(stack: seq<Frame>)
    | CreatingChild(parent: TokenId, child: TokenId, sawCancelled: bool)
    | Waiting(token: TokenId, pc: WaitPc)

  datatype State = State(tokens: seq<Token>, threads: seq<Thread>)

  datatype Action =
    | NewRoot
    | CloneHandle(t: TokenId)
    | DropHandle(t: TokenId)
    | StartCancel(th: ThreadId, t: TokenId)
    | CancelStep(th: ThreadId)
    | BeginChild(th: ThreadId, t: TokenId)
    | EndChild(th: ThreadId)
    | StartWait(th: ThreadId, t: TokenId)
    | WaitStep(th: ThreadId)

  // ---------- what keeps a token alive ----------

  predicate Holds(thread: Thread, t: TokenId) {
    match thread
    case Idle => false
    case Cancelling(stack) => exists i :: 0 <= i < |stack| && stack[i].token == t
    case CreatingChild(parent, child, _) => t == parent || t == child
    case Waiting(token, _) => t == token
  }

  /** A weak reference to a token can be upgraded. */
  predicate Alive(s: State, t: TokenId) {
    t < |s.tokens| && (s.tokens[t].handles > 0 || exists th :: 0 <= th < |s.threads| && Holds(s.threads[th], t))
  }

  function OnlyAlive(s: State, ts: seq<TokenId>): (r: seq<TokenId>)
    ensures forall t :: t in r <==> t in ts && Alive(s, t)
    ensures |r| <= |ts|
  {
    if ts == [] then []
    else (if Alive(s, ts[0]) then [ts[0]] else []) + OnlyAlive(s, ts[1..])
  }

  // ---------- steps ----------

  predicate CanRun(s: State, th: ThreadId) {
    th < |s.threads| && s.threads[th].Idle?
  }

  predicate HasHandle(s: State, t: TokenId) {
    t < |s.tokens| && s.tokens[t].handles > 0
  }

  predicate Enabled(s: State, a: Action) {
    match a
    case NewRoot => true
    case CloneHandle(t) => HasHandle(s, t)
    case DropHandle(t) => HasHandle(s, t)
    case StartCancel(th, t) => CanRun(s, th) && HasHandle(s, t)
    case StartWait(th, t) => CanRun(s, th) && HasHandle(s, t)
    case BeginChild(th, t) => CanRun(s, th) && HasHandle(s, t) && s.tokens[t].lock.None?
    case EndChild(th) =>
      th < |s.threads| && s.threads[th].CreatingChild?
      && s.threads[th].parent < |s.tokens| && s.threads[th].child < |s.tokens|
    case WaitStep(th) =>
      th < |s.threads| && s.threads[th].Waiting? && s.threads[th].token < |s.tokens|
      && (s.threads[th].pc.Await? ==> s.threads[th].pc.woken)
    case CancelStep(th) =>
      th < |s.threads| && s.threads[th].Cancelling? && s.threads[th].stack != []
      && var top := Top(s.threads[th].stack);
         top.token < |s.tokens| && (top.pc.TakeChildren? ==> s.tokens[top.token].lock.None?)
  }

  function Top(stack: seq<Frame>): Frame
    requires stack != []
  {
    stack[|stack| - 1]
  }

  /** The call on top of the stack goes on at `pc`. */
  function Goto(stack: seq<Frame>, pc: CancelPc): Thread
    requires stack != []
  {
    Cancelling(stack[..|stack| - 1] + [Top(stack).(pc := pc)])
  }

  /** The call on top of the stack returns. */
  function Return(stack: seq<Frame>): Thread
    requires stack != []
  {
    if |stack| == 1 then Idle else Cancelling(stack[..|stack| - 1])
  }

  function SetThread(s: State, th: ThreadId, thread: Thread): State
    requires th < |s.threads|
  {
    s.(threads := s.threads[th := thread])
  }

  function SetToken(s: State, t: TokenId, token: Token): State
    requires t < |s.tokens|
  {
    s.(tokens := s.tokens[t := token])
  }

  /** Wakes every waiter registered on `t`. */
  function Wake(thread: Thread, t: TokenId): Thread {
    match thread
    case Waiting(token, Recheck(_)) => if token == t then Waiting(t, Recheck(true)) else thread
    case Waiting(token, Await(_)) => if token == t then Waiting(t, Await(true)) else thread
    case _ => thread
  }

  function WakeAll(s: State, t: TokenId): State {
    s.(threads := seq(|s.threads|, i requires 0 <= i < |s.threads| => Wake(s.threads[i], t)))
  }

  function CancelStepOf(s: State, th: ThreadId): State
    requires Enabled(s, CancelStep(th))
  {
    var stack := s.threads[th].stack;
    var t := Top(stack).token;
    var token := s.tokens[t];
    match Top(stack).pc
    case Swap =>
      if token.cancelled then SetThread(s, th, Return(stack))
      else SetThread(SetToken(s, t, token.(cancelled := true)), th, Goto(stack, Notify))
    case Notify => WakeAll(SetThread(s, th, Goto(stack, TakeChildren)), t)
    case TakeChildren =>
      SetThread(SetToken(s, t, token.(children := [])), th, Goto(stack, Descend(token.children)))
    case Descend(rest) =>
      if rest == [] then SetThread(s, th, Return(stack))
      else
        var next := Goto(stack, Descend(rest[1..]));
        SetThread(s, th, if Alive(s, rest[0]) then Cancelling(next.stack + [Frame(rest[0], Swap)]) else next)
  }

  function WaitStepOf(s: State, th: ThreadId): State
    requires Enabled(s, WaitStep(th))
  {
    var Waiting(t, pc) := s.threads[th];
    var cancelled := s.tokens[t].cancelled;
    SetThread(s, th,
      match pc
      case FirstCheck => if cancelled then Idle else Waiting(t, Register)
      case Register => Waiting(t, Recheck(false))
      case Recheck(woken) => if cancelled then Idle else Waiting(t, Await(woken))
      case Await(_) => Waiting(t, FinalCheck)
      case FinalCheck => if cancelled then Idle else Waiting(t, Register))
  }

  /** The lock is taken, finished children are purged, the flag is read. */
  function BeginChildOf(s: State, th: ThreadId, t: TokenId): State
    requires Enabled(s, BeginChild(th, t))
  {
    var token := s.tokens[t];
    var child := Token(false, [], None, 0, Some(t), false);
    var locked := SetToken(s, t, token.(lock := Some(th), children := OnlyAlive(s, token.children)));
    SetThread(locked.(tokens := locked.tokens + [child]), th, CreatingChild(t, |s.tokens|, token.cancelled))
  }

  /** The child is born cancelled or registered, the lock is released, the child is handed out. */
  function EndChildOf(s: State, th: ThreadId): State
    requires Enabled(s, EndChild(th))
  {
    var CreatingChild(t, child, saw) := s.threads[th];
    var born := SetToken(s, child, s.tokens[child].(handles := 1, cancelled := s.tokens[child].cancelled || saw));
    var token := born.tokens[t];
    SetThread(SetToken(born, t,
      token.(lock := None, children := if saw then token.children else token.children + [child])), th, Idle)
  }

  function Step(s: State, a: Action): State
    requires Enabled(s, a)
  {
    match a
    case NewRoot => s.(tokens := s.tokens + [Token(false, [], None, 1, None, false)])
    case CloneHandle(t) => SetToken(s, t, s.tokens[t].(handles := s.tokens[t].handles + 1))
    case DropHandle(t) => SetToken(s, t, s.tokens[t].(handles := s.tokens[t].handles - 1))
    case StartCancel(th, t) =>
      SetThread(SetToken(s, t, s.tokens[t].(requested := true)), th, Cancelling([Frame(t, Swap)]))
    case StartWait(th, t) => SetThread(s, th, Waiting(t, FirstCheck))
    case BeginChild(th, t) => BeginChildOf(s, th, t)
    case EndChild(th) => EndChildOf(s, th)
    case WaitStep(th) => WaitStepOf(s, th)
    case CancelStep(th) => CancelStepOf(s, th)
  }

  predicate Initial(s: State) {
    s.tokens == [] && forall th :: 0 <= th < |s.threads| ==> s.threads[th].Idle?
  }

  /** The state after `run`, when each of its steps is enabled in turn. */
  function After(s: State, run: seq<Action>): Option<State>
    decreases |run|
  {
    if run == [] then Some(s)
    else
      var before := After(s, run[..|run| - 1]);
      if before.Some? && Enabled(before.value, run[|run| - 1])
      then Some(Step(before.value, run[|run| - 1])) else None
  }

  // ---------- the invariant ----------

  predicate Active(s: State, th: ThreadId) {
    th < |s.threads| && s.threads[th].Cancelling?
  }

  /** Only the call on top of a stack is anywhere but descending, and every child it has
      taken is a child of its token. */
  ghost predicate FrameOk(s: State, stack: seq<Frame>, i: nat)
    requires i < |stack|
  {
    && stack[i].token < |s.tokens|
    && (i < |stack| - 1 ==> stack[i].pc.Descend?)
    && (stack[i].pc.Descend? ==> forall c :: c in stack[i].pc.rest ==> IsChild(s, stack[i].token, c))
  }

  ghost predicate IsChild(s: State, p: TokenId, c: TokenId) {
    p < c < |s.tokens| && s.tokens[c].parent == Some(p)
  }

  ghost predicate ThreadOk(s: State, th: ThreadId)
    requires th < |s.threads|
  {
    match s.threads[th]
    case Idle => true
    case Waiting(t, _) => t < |s.tokens|
    case CreatingChild(p, c, saw) =>
      IsChild(s, p, c) && s.tokens[p].lock == Some(th) && (saw ==> s.tokens[p].cancelled)
    case Cancelling(stack) => stack != [] && forall i :: 0 <= i < |stack| ==> FrameOk(s, stack, i)
  }

  ghost predicate TokenOk(s: State, t: TokenId)
    requires t < |s.tokens|
  {
    && (forall c :: c in s.tokens[t].children ==> IsChild(s, t, c))
    && (s.tokens[t].parent.Some? ==> s.tokens[t].parent.value < t)
    && (s.tokens[t].lock.Some? ==> s.tokens[t].lock.value < |s.threads|
                                   && s.threads[s.tokens[t].lock.value].CreatingChild?
                                   && s.threads[s.tokens[t].lock.value].parent == t)
  }

  ghost predicate WellFormed(s: State) {
    && (forall th :: 0 <= th < |s.threads| ==> ThreadOk(s, th))
    && (forall t :: 0 <= t < |s.tokens| ==> TokenOk(s, t))
  }

  /** A thread is about to enter `cancel_inner` of `c`. */
  ghost predicate Entering(s: State, c: TokenId) {
    exists th: ThreadId :: Active(s, th) && s.threads[th].stack != [] && Top(s.threads[th].stack) == Frame(c, Swap)
  }

  /** A thread has set the flag of `p` and not taken its children yet. */
  ghost predicate Announcing(s: State, p: TokenId) {
    exists th: ThreadId :: Active(s, th) && s.threads[th].stack != []
                 && Top(s.threads[th].stack).token == p && Top(s.threads[th].stack).pc in {Notify, TakeChildren}
  }

  /** A thread has taken `c` and not visited it yet. */
  ghost predicate Taken(s: State, c: TokenId) {
    exists th: ThreadId, i :: Active(s, th) && 0 <= i < |s.threads[th].stack|
                    && s.threads[th].stack[i].pc.Descend? && c in s.threads[th].stack[i].pc.rest
  }

  ghost predicate Creating(s: State, p: TokenId, c: TokenId, saw: bool) {
    exists th :: 0 <= th < |s.threads| && s.threads[th] == CreatingChild(p, c, saw)
  }

  ghost predicate Registered(s: State, p: TokenId, c: TokenId)
    requires p < |s.tokens|
  {
    c in s.tokens[p].children || Creating(s, p, c, false)
  }

  /** A live child of `p` that is not cancelled is registered with `p`, or a thread is bound
      to cancel it. */
  ghost predicate EdgeOk(s: State, p: TokenId, c: TokenId)
    requires p < |s.tokens|
  {
    || Entering(s, c)
    || Taken(s, c)
    || Creating(s, p, c, true)
    || (Registered(s, p, c) && (s.tokens[p].cancelled ==> Announcing(s, p)))
  }

  ghost predicate Propagates(s: State) {
    forall p: TokenId, c: TokenId :: IsChild(s, p, c) && Alive(s, c) && !s.tokens[c].cancelled ==> EdgeOk(s, p, c)
  }

  /** `cancel` was called on the token or on one it descends from. */
  ghost predicate Asked(s: State, t: TokenId)
    requires t < |s.tokens|
    decreases t
  {
    s.tokens[t].requested
    || (s.tokens[t].parent.Some? && s.tokens[t].parent.value < t && Asked(s, s.tokens[t].parent.value))
  }

  ghost predicate OnlyAsked(s: State) {
    && (forall t :: 0 <= t < |s.tokens| && s.tokens[t].cancelled ==> Asked(s, t))
    && (forall th: ThreadId, i ::
      Active(s, th) && 0 <= i < |s.threads[th].stack| && s.threads[th].stack[i].token < |s.tokens| ==>
          Asked(s, s.threads[th].stack[i].token))
  }

  /** A thread is about to notify the waiters of `t`. */
  ghost predicate Notifying(s: State, t: TokenId) {
    exists th: ThreadId :: Active(s, th) && s.threads[th].stack != [] && Top(s.threads[th].stack) == Frame(t, Notify)
  }

  /** A waiter left asleep on a cancelled token is about to be notified. */
  ghost predicate NoWakeUpLost(s: State) {
    forall th :: 0 <= th < |s.threads| && s.threads[th].Waiting? && s.threads[th].pc == Await(false)
                 && s.threads[th].token < |s.tokens| && s.tokens[s.threads[th].token].cancelled ==>
      Notifying(s, s.threads[th].token)
  }

  /** The child a thread creates has not been handed out: nobody else knows it. */
  ghost predicate Hidden(s: State, th: ThreadId)
    requires th < |s.threads| && s.threads[th].CreatingChild?
  {
    var c := s.threads[th].child;
    && c < |s.tokens| && s.tokens[c].handles == 0
    && (forall w :: 0 <= w < |s.threads| && s.threads[w].Waiting? ==> s.threads[w].token != c)
    && (forall other :: 0 <= other < |s.threads| && s.threads[other].CreatingChild? && other != th ==>
          s.threads[other].child != c)
    && (forall grandchild: TokenId :: !IsChild(s, c, grandchild))
  }

  ghost predicate NotHandedOut(s: State) {
    forall th :: 0 <= th < |s.threads| && s.threads[th].CreatingChild? ==> Hidden(s, th)
  }

  ghost predicate Inv(s: State) {
    WellFormed(s) && NotHandedOut(s) && Propagates(s) && OnlyAsked(s) && NoWakeUpLost(s)
  }

  // ---------- every step keeps the invariant ----------

  /** A token nothing holds stays so: weak references are never revived. */
  lemma AliveBefore(s: State, a: Action, t: TokenId)
    requires WellFormed(s) && Enabled(s, a) && t < |s.tokens| && Alive(Step(s, a), t)
    ensures Alive(s, t)
  {
  }

  lemma ChildrenStay(s: State, a: Action)
    requires WellFormed(s) && Enabled(s, a)
    ensures |s.tokens| <= |Step(s, a).tokens| && |s.threads| == |Step(s, a).threads|
    ensures forall t :: 0 <= t < |s.tokens| ==> Step(s, a).tokens[t].parent == s.tokens[t].parent
    ensures forall p: TokenId, c: TokenId :: IsChild(s, p, c) ==> IsChild(Step(s, a), p, c)
  {
  }

  lemma FramesStayOk(s: State, a: Action, th: ThreadId, i: nat)
    requires WellFormed(s) && Enabled(s, a)
    requires Active(Step(s, a), th) && i < |Step(s, a).threads[th].stack|
    ensures FrameOk(Step(s, a), Step(s, a).threads[th].stack, i)
  {
    assert ThreadOk(s, th);
    if a == CancelStep(th) {
      CancellerFramesStayOk(s, th, i);
    } else if s.threads[th].Cancelling? {
      assert Step(s, a).threads[th] == s.threads[th];
      FrameStaysOk(s, a, s.threads[th].stack, i);
    }
  }

  /** A frame stays in order while its stack does not move. */
  lemma FrameStaysOk(s: State, a: Action, stack: seq<Frame>, i: nat)
    requires WellFormed(s) && Enabled(s, a) && i < |stack| && FrameOk(s, stack, i)
    ensures FrameOk(Step(s, a), stack, i)
  {
    ChildrenStay(s, a);
  }

  lemma CancellerFramesStayOk(s: State, th: ThreadId, i: nat)
    requires WellFormed(s) && Enabled(s, CancelStep(th))
    requires Active(Step(s, CancelStep(th)), th) && i < |Step(s, CancelStep(th)).threads[th].stack|
    ensures FrameOk(Step(s, CancelStep(th)), Step(s, CancelStep(th)).threads[th].stack, i)
  {
    var stack := s.threads[th].stack;
    var top := |stack| - 1;
    ChildrenStay(s, CancelStep(th));
    assert ThreadOk(s, th);
    assert FrameOk(s, stack, top) && TokenOk(s, stack[top].token);
    if i < |stack| {
      assert FrameOk(s, stack, i);
    } else {
      assert stack[top].pc.rest[0] in stack[top].pc.rest;
    }
  }

  lemma ThreadStaysOk(s: State, a: Action, th: ThreadId)
    requires WellFormed(s) && Enabled(s, a) && th < |s.threads|
    ensures ThreadOk(Step(s, a), th)
  {
    var s' := Step(s, a);
    ChildrenStay(s, a);
    assert ThreadOk(s, th);
    if s'.threads[th].Cancelling? {
      var stack' := s'.threads[th].stack;
      forall i | 0 <= i < |stack'| ensures FrameOk(s', stack', i) {
        FramesStayOk(s, a, th, i);
      }
    } else if s'.threads[th].CreatingChild? {
      CreatorStaysOk(s, a, th);
    }
  }

  lemma CreatorStaysOk(s: State, a: Action, th: ThreadId)
    requires WellFormed(s) && Enabled(s, a) && th < |s.threads| && Step(s, a).threads[th].CreatingChild?
    ensures ThreadOk(Step(s, a), th)
  {
    ChildrenStay(s, a);
    assert ThreadOk(s, th);
    if Step(s, a).threads[th] == s.threads[th] {
      LockIsKept(s, a, th);
    }
  }

  /** Nobody else releases the lock of the parent while a child is created. */
  lemma LockIsKept(s: State, a: Action, th: ThreadId)
    requires WellFormed(s) && Enabled(s, a) && th < |s.threads| && s.threads[th].CreatingChild?
    requires Step(s, a).threads[th] == s.threads[th]
    ensures var p := s.threads[th].parent;
      p < |s.tokens| && Step(s, a).tokens[p].lock == Some(th)
        && (s.tokens[p].cancelled ==> Step(s, a).tokens[p].cancelled)
  {
    assert ThreadOk(s, th);
    assert a.EndChild? ==> ThreadOk(s, a.th);
  }

  lemma TokenStaysOk(s: State, a: Action, t: TokenId)
    requires WellFormed(s) && Enabled(s, a) && t < |Step(s, a).tokens|
    ensures TokenOk(Step(s, a), t)
  {
    ChildrenStay(s, a);
    ParentIsOlder(s, a, t);
    LockStaysHeld(s, a, t);
    assert a.EndChild? ==> ThreadOk(s, a.th);
    assert t < |s.tokens| ==> TokenOk(s, t);
  }

  lemma ParentIsOlder(s: State, a: Action, t: TokenId)
    requires WellFormed(s) && Enabled(s, a) && t < |Step(s, a).tokens|
    ensures var parent := Step(s, a).tokens[t].parent; parent.Some? ==> parent.value < t
  {
    ChildrenStay(s, a);
    assert t < |s.tokens| ==> TokenOk(s, t);
  }

  /** A lock is released by the thread that took it, and by no other. */
  lemma LockStaysHeld(s: State, a: Action, t: TokenId)
    requires WellFormed(s) && Enabled(s, a) && t < |Step(s, a).tokens|
    ensures var s' := Step(s, a);
      s'.tokens[t].lock.Some? ==>
        && s'.tokens[t].lock.value < |s'.threads|
        && s'.threads[s'.tokens[t].lock.value].CreatingChild?
        && s'.threads[s'.tokens[t].lock.value].parent == t
  {
    assert a.EndChild? ==> ThreadOk(s, a.th);
    assert t < |s.tokens| ==> TokenOk(s, t);
  }

  lemma StepKeepsWellFormed(s: State, a: Action)
    requires WellFormed(s) && Enabled(s, a)
    ensures WellFormed(Step(s, a))
  {
    ChildrenStay(s, a);
    forall th | 0 <= th < |s.threads| ensures ThreadOk(Step(s, a), th) { ThreadStaysOk(s, a, th); }
    forall t | 0 <= t < |Step(s, a).tokens| ensures TokenOk(Step(s, a), t) { TokenStaysOk(s, a, t); }
  }

  lemma {:induction false} AskedStays(s: State, a: Action, t: TokenId)
    requires WellFormed(s) && Enabled(s, a) && t < |s.tokens| && Asked(s, t)
    ensures t < |Step(s, a).tokens| && Asked(Step(s, a), t)
    decreases t
  {
    assert TokenOk(s, t);
    if !s.tokens[t].requested {
      AskedStays(s, a, s.tokens[t].parent.value);
    }
  }

  /** Every call in progress after a step was in progress before, or was just entered: the
      call of a handle's owner, or the visit of a child taken by the call below. */
  lemma CallsComeFrom(s: State, a: Action, th: ThreadId, i: nat)
    requires WellFormed(s) && Enabled(s, a)
    requires Active(Step(s, a), th) && i < |Step(s, a).threads[th].stack|
    ensures var t := Step(s, a).threads[th].stack[i].token;
      || (Active(s, th) && i < |s.threads[th].stack| && s.threads[th].stack[i].token == t)
      || a == StartCancel(th, t)
      || (Active(s, th) && 0 < i == |s.threads[th].stack| && IsChild(s, s.threads[th].stack[i - 1].token, t))
  {
    assert ThreadOk(s, th);
    if s.threads[th].Cancelling? && i >= |s.threads[th].stack| {
      var stack := s.threads[th].stack;
      assert FrameOk(s, stack, |stack| - 1);
      assert Top(stack).pc.rest[0] in Top(stack).pc.rest;
    }
  }

  lemma CallsAreAsked(s: State, a: Action, th: ThreadId, i: nat)
    requires WellFormed(s) && OnlyAsked(s) && Enabled(s, a)
    requires Active(Step(s, a), th) && i < |Step(s, a).threads[th].stack|
    requires Step(s, a).threads[th].stack[i].token < |Step(s, a).tokens|
    ensures Asked(Step(s, a), Step(s, a).threads[th].stack[i].token)
  {
    var s' := Step(s, a);
    var t := s'.threads[th].stack[i].token;
    CallsComeFrom(s, a, th, i);
    assert ThreadOk(s, th);
    if a != StartCancel(th, t) {
      var stack := s.threads[th].stack;
      var j := if i < |stack| then i else i - 1;
      assert FrameOk(s, stack, j) && Asked(s, stack[j].token);
      AskedStays(s, a, stack[j].token);
      ChildrenStay(s, a);
    }
  }

  lemma CancelledAreAsked(s: State, a: Action, t: TokenId)
    requires WellFormed(s) && OnlyAsked(s) && Enabled(s, a)
    requires t < |Step(s, a).tokens| && Step(s, a).tokens[t].cancelled
    ensures Asked(Step(s, a), t)
  {
    ChildrenStay(s, a);
    if t < |s.tokens| && s.tokens[t].cancelled {
      AskedStays(s, a, t);
    } else if a.CancelStep? {
      var top := |s.threads[a.th].stack| - 1;
      assert s.threads[a.th].stack[top].token == t && Asked(s, t);
      AskedStays(s, a, t);
    } else {
      assert ThreadOk(s, a.th);
      AskedStays(s, a, s.threads[a.th].parent);
    }
  }

  lemma OnlyAskedStep(s: State, a: Action)
    requires WellFormed(s) && OnlyAsked(s) && Enabled(s, a)
    ensures OnlyAsked(Step(s, a))
  {
    var s' := Step(s, a);
    forall th: ThreadId, i | Active(s', th) && 0 <= i < |s'.threads[th].stack|
      && s'.threads[th].stack[i].token < |s'.tokens|
      ensures Asked(s', s'.threads[th].stack[i].token)
    {
      CallsAreAsked(s, a, th, i);
    }
    forall t | 0 <= t < |s'.tokens| && s'.tokens[t].cancelled ensures Asked(s', t) {
      CancelledAreAsked(s, a, t);
    }
  }

  lemma HiddenStays(s: State, a: Action, th: ThreadId)
    requires WellFormed(s) && NotHandedOut(s) && Enabled(s, a)
    requires th < |s.threads| && s.threads[th].CreatingChild? && Step(s, a).threads[th] == s.threads[th]
    ensures Hidden(Step(s, a), th)
  {
    assert Hidden(s, th) && ThreadOk(s, th);
    assert a.EndChild? ==> ThreadOk(s, a.th);
    HasNoChildYet(s, a, th);
  }

  lemma HasNoChildYet(s: State, a: Action, th: ThreadId)
    requires WellFormed(s) && Enabled(s, a) && th < |s.threads| && s.threads[th].CreatingChild? && Hidden(s, th)
    ensures forall g: TokenId :: !IsChild(Step(s, a), s.threads[th].child, g)
  {
    var c := s.threads[th].child;
    ChildrenStay(s, a);
    forall g: TokenId ensures !IsChild(Step(s, a), c, g) {
      assert !IsChild(s, c, g);
    }
  }

  lemma NewbornIsHidden(s: State, th: ThreadId, t: TokenId)
    requires WellFormed(s) && NotHandedOut(s) && Enabled(s, BeginChild(th, t))
    ensures Hidden(Step(s, BeginChild(th, t)), th)
  {
    forall other | 0 <= other < |s.threads|
      ensures s.threads[other].Waiting? ==> s.threads[other].token < |s.tokens|
      ensures s.threads[other].CreatingChild? ==> s.threads[other].child < |s.tokens|
    {
      assert ThreadOk(s, other);
    }
  }

  lemma NotHandedOutStep(s: State, a: Action)
    requires WellFormed(s) && NotHandedOut(s) && Enabled(s, a)
    ensures NotHandedOut(Step(s, a))
  {
    var s' := Step(s, a);
    forall th | 0 <= th < |s'.threads| && s'.threads[th].CreatingChild? ensures Hidden(s', th) {
      if s.threads[th] == s'.threads[th] {
        HiddenStays(s, a, th);
      } else {
        NewbornIsHidden(s, th, a.t);
      }
    }
  }

  lemma NoWakeUpLostStep(s: State, a: Action)
    requires Inv(s) && Enabled(s, a)
    ensures NoWakeUpLost(Step(s, a))
  {
    var s' := Step(s, a);
    forall th | 0 <= th < |s'.threads| && s'.threads[th].Waiting? && s'.threads[th].pc == Await(false)
                 && s'.threads[th].token < |s'.tokens| && s'.tokens[s'.threads[th].token].cancelled
      ensures Notifying(s', s'.threads[th].token)
    {
      AsleepWasAsleep(s, a, th);
      var t := s.threads[th].token;
      if s.tokens[t].cancelled {
        NotifyingStays(s, a, th);
      } else {
        FlagIsAnnounced(s, a, t);
      }
    }
  }

  /** Going to sleep takes a flag that is not set, so a sleeper beside a set flag slept before. */
  lemma AsleepWasAsleep(s: State, a: Action, th: ThreadId)
    requires WellFormed(s) && Enabled(s, a) && th < |s.threads|
    requires var thread := Step(s, a).threads[th];
      thread.Waiting? && thread.pc == Await(false) && thread.token < |Step(s, a).tokens|
      && Step(s, a).tokens[thread.token].cancelled
    ensures s.threads[th] == Step(s, a).threads[th] && s.threads[th].token < |s.tokens|
  {
    assert ThreadOk(s, th);
  }

  /** The step that notifies leaves nobody asleep, and no other ends the announcement. */
  lemma NotifyingStays(s: State, a: Action, th: ThreadId)
    requires Enabled(s, a) && th < |s.threads| && s.threads[th].Waiting? && s.threads[th].pc == Await(false)
    requires Step(s, a).threads[th] == s.threads[th] && Notifying(s, s.threads[th].token)
    ensures Notifying(Step(s, a), s.threads[th].token)
  {
    var t := s.threads[th].token;
    var n: ThreadId :| Active(s, n) && s.threads[n].stack != [] && Top(s.threads[n].stack) == Frame(t, Notify);
    assert Step(s, a).threads[n] == s.threads[n];
  }

  /** Only a swap sets the flag of a token that can be waited for, and it goes on to notify. */
  lemma FlagIsAnnounced(s: State, a: Action, t: TokenId)
    requires WellFormed(s) && NotHandedOut(s) && Enabled(s, a)
    requires t < |s.tokens| && !s.tokens[t].cancelled && Step(s, a).tokens[t].cancelled
    requires exists w :: 0 <= w < |s.threads| && s.threads[w].Waiting? && s.threads[w].token == t
    ensures Notifying(Step(s, a), t)
  {
    if a.CancelStep? {
      assert Active(Step(s, a), a.th) && Top(Step(s, a).threads[a.th].stack) == Frame(t, Notify);
    }
  }

  lemma EnteringStays(s: State, a: Action, c: TokenId)
    requires WellFormed(s) && Enabled(s, a) && Entering(s, c)
    requires c < |Step(s, a).tokens| && !Step(s, a).tokens[c].cancelled
    ensures Entering(Step(s, a), c)
  {
    var th: ThreadId :| Active(s, th) && s.threads[th].stack != [] && Top(s.threads[th].stack) == Frame(c, Swap);
    assert Step(s, a).threads[th] == s.threads[th];
  }

  lemma TakenStays(s: State, a: Action, c: TokenId)
    requires WellFormed(s) && Enabled(s, a) && Taken(s, c) && Alive(s, c)
    ensures Taken(Step(s, a), c) || Entering(Step(s, a), c)
  {
    var s' := Step(s, a);
    var th: ThreadId, i :| Active(s, th) && 0 <= i < |s.threads[th].stack|
                           && s.threads[th].stack[i].pc.Descend? && c in s.threads[th].stack[i].pc.rest;
    var stack := s.threads[th].stack;
    if a == CancelStep(th) && i == |stack| - 1 && stack[i].pc.rest[0] == c {
      assert Active(s', th) && Top(s'.threads[th].stack) == Frame(c, Swap);
    } else {
      assert ThreadOk(s, th) && FrameOk(s, stack, i);
      assert Active(s', th) && i < |s'.threads[th].stack| && s'.threads[th].stack[i].pc.Descend?;
      assert c in s'.threads[th].stack[i].pc.rest;
    }
  }

  lemma AnnouncingStays(s: State, a: Action, p: TokenId)
    requires WellFormed(s) && Enabled(s, a) && Announcing(s, p)
    ensures Announcing(Step(s, a), p)
         || (a.CancelStep? && Top(s.threads[a.th].stack) == Frame(p, TakeChildren))
  {
    var s' := Step(s, a);
    var th: ThreadId :| Active(s, th) && s.threads[th].stack != []
                        && Top(s.threads[th].stack).token == p && Top(s.threads[th].stack).pc in {Notify, TakeChildren};
    assert Active(s', th) && s'.threads[th].stack != [] && Top(s'.threads[th].stack).token == p;
  }

  lemma CreatingStays(s: State, a: Action, p: TokenId, c: TokenId, saw: bool)
    requires WellFormed(s) && Enabled(s, a) && Creating(s, p, c, saw)
    ensures Creating(Step(s, a), p, c, saw) || (a.EndChild? && s.threads[a.th] == CreatingChild(p, c, saw))
  {
    var th :| 0 <= th < |s.threads| && s.threads[th] == CreatingChild(p, c, saw);
    if a != EndChild(th) {
      assert Step(s, a).threads[th] == CreatingChild(p, c, saw);
    }
  }

  lemma LockIsHeld(s: State, p: TokenId, c: TokenId, saw: bool)
    requires WellFormed(s) && Creating(s, p, c, saw)
    ensures p < |s.tokens| && s.tokens[p].lock.Some?
  {
    var th :| 0 <= th < |s.threads| && s.threads[th] == CreatingChild(p, c, saw);
    assert ThreadOk(s, th);
  }

  lemma RegisteredStays(s: State, a: Action, p: TokenId, c: TokenId)
    requires WellFormed(s) && Enabled(s, a) && p < |s.tokens| && Registered(s, p, c)
    requires Alive(s, c)
    ensures p < |Step(s, a).tokens|
    ensures if a.CancelStep? && Top(s.threads[a.th].stack) == Frame(p, TakeChildren) then Taken(Step(s, a), c)
            else Registered(Step(s, a), p, c)
  {
    var s' := Step(s, a);
    ChildrenStay(s, a);
    if c in s.tokens[p].children {
      if a.CancelStep? && Top(s.threads[a.th].stack) == Frame(p, TakeChildren) {
        var top := |s.threads[a.th].stack| - 1;
        assert Active(s', a.th) && s'.threads[a.th].stack[top].pc == Descend(s.tokens[p].children);
      }
    } else {
      LockIsHeld(s, p, c, false);
      CreatingStays(s, a, p, c, false);
    }
  }

  lemma EdgeStep(s: State, a: Action, p: TokenId, c: TokenId)
    requires Inv(s) && Enabled(s, a)
    requires IsChild(Step(s, a), p, c) && Alive(Step(s, a), c) && !Step(s, a).tokens[c].cancelled
    ensures EdgeOk(Step(s, a), p, c)
  {
    var s' := Step(s, a);
    ChildrenStay(s, a);
    if c == |s.tokens| {
      assert a.BeginChild? && s'.threads[a.th] == CreatingChild(p, c, s.tokens[p].cancelled);
      assert Creating(s', p, c, s.tokens[p].cancelled);
    } else {
      AliveBefore(s, a, c);
      assert IsChild(s, p, c) && !s.tokens[c].cancelled;
      if Entering(s, c) {
        EnteringStays(s, a, c);
      } else if Taken(s, c) {
        TakenStays(s, a, c);
      } else if Creating(s, p, c, true) {
        CreatingStays(s, a, p, c, true);
      } else {
        RegisteredStays(s, a, p, c);
        if Announcing(s, p) {
          AnnouncingStays(s, a, p);
        } else if s'.tokens[p].cancelled {
          BecomesCancelled(s, a, p);
          assert a.EndChild? ==> Hidden(s, a.th);
        }
      }
    }
  }

  /** A flag that a step sets is a canceller's, which then announces it, or a newborn's. */
  lemma BecomesCancelled(s: State, a: Action, p: TokenId)
    requires Inv(s) && Enabled(s, a) && p < |s.tokens| && p < |Step(s, a).tokens|
    requires !s.tokens[p].cancelled && Step(s, a).tokens[p].cancelled
    ensures Announcing(Step(s, a), p) || (a.EndChild? && s.threads[a.th].child == p)
  {
    if a.CancelStep? {
      assert Active(Step(s, a), a.th) && Top(Step(s, a).threads[a.th].stack) == Frame(p, Notify);
    }
  }

  lemma StepKeepsInv(s: State, a: Action)
    requires Inv(s) && Enabled(s, a)
    ensures Inv(Step(s, a))
  {
    StepKeepsWellFormed(s, a);
    NotHandedOutStep(s, a);
    OnlyAskedStep(s, a);
    NoWakeUpLostStep(s, a);
    forall p: TokenId, c: TokenId | IsChild(Step(s, a), p, c) && Alive(Step(s, a), c) && !Step(s, a).tokens[c].cancelled
      ensures EdgeOk(Step(s, a), p, c)
    {
      EdgeStep(s, a, p, c);
    }
  }

  lemma {:induction false} RunKeepsInv(s: State, run: seq<Action>)
    requires Initial(s) && After(s, run).Some?
    ensures Inv(After(s, run).value)
    decreases |run|
  {
    if run != [] {
      RunKeepsInv(s, run[..|run| - 1]);
      StepKeepsInv(After(s, run[..|run| - 1]).value, run[|run| - 1]);
    }
  }

  // ---------- what every run guarantees ----------

  ghost predicate NoCancelInFlight(s: State) {
    forall th :: 0 <= th < |s.threads| ==> !s.threads[th].Cancelling?
  }

  /** The token has been handed out by the call that creates it. */
  ghost predicate HandedOut(s: State, t: TokenId) {
    t < |s.tokens| && forall th :: 0 <= th < |s.threads| && s.threads[th].CreatingChild? ==> s.threads[th].child != t
  }

  /** `c` is `a`, or descends from it through tokens that are all still alive, itself included. */
  ghost predicate LiveDescendant(s: State, a: TokenId, c: TokenId)
    decreases c
  {
    a < |s.tokens| && c < |s.tokens| &&
    (a == c || (Alive(s, c) && HandedOut(s, c) && s.tokens[c].parent.Some? && s.tokens[c].parent.value < c
                && LiveDescendant(s, a, s.tokens[c].parent.value)))
  }

  /** After any run, once no `cancel` is in flight, a cancelled token's live children are
      cancelled, and so is every descendant reached through live tokens. */
  lemma {:induction false} DescendantsAreCancelled(s: State, run: seq<Action>, a: TokenId, c: TokenId)
    requires Initial(s) && After(s, run).Some? && NoCancelInFlight(After(s, run).value)
    requires LiveDescendant(After(s, run).value, a, c) && After(s, run).value.tokens[a].cancelled
    ensures After(s, run).value.tokens[c].cancelled
    decreases c
  {
    var end := After(s, run).value;
    RunKeepsInv(s, run);
    if a != c {
      var p := end.tokens[c].parent.value;
      DescendantsAreCancelled(s, run, a, p);
      assert IsChild(end, p, c);
    }
  }

  /** No token is cancelled unless `cancel` was called on it or on one it descends from. */
  lemma CancelledOnlyIfAsked(s: State, run: seq<Action>, t: TokenId)
    requires Initial(s) && After(s, run).Some? && t < |After(s, run).value.tokens|
    requires After(s, run).value.tokens[t].cancelled
    ensures Asked(After(s, run).value, t)
  {
    RunKeepsInv(s, run);
  }

  /** After any run, a waiter asleep on a cancelled token can go on, or a canceller can take
      the step that wakes it. */
  lemma NoWaiterIsStuck(s: State, run: seq<Action>, w: ThreadId)
    requires Initial(s) && After(s, run).Some?
    requires w < |After(s, run).value.threads| && After(s, run).value.threads[w].Waiting?
    ensures var end := After(s, run).value; var t := end.threads[w].token;
      t < |end.tokens| &&
      (end.tokens[t].cancelled && !Enabled(end, WaitStep(w)) ==>
         exists th :: Enabled(end, CancelStep(th)) && Step(end, CancelStep(th)).threads[w] == Waiting(t, Await(true)))
  {
    var end := After(s, run).value;
    var t := end.threads[w].token;
    RunKeepsInv(s, run);
    assert ThreadOk(end, w);
    if end.tokens[t].cancelled && !Enabled(end, WaitStep(w)) {
      assert Notifying(end, t);
      var th: ThreadId :| Active(end, th) && end.threads[th].stack != []
        && Top(end.threads[th].stack) == Frame(t, Notify);
      assert ThreadOk(end, th) && FrameOk(end, end.threads[th].stack, |end.threads[th].stack| - 1);
      assert Enabled(end, CancelStep(th));
    }
  }

  // ---------- when a wait returns ----------

  predicate WaitsFor(s: State, w: ThreadId, t: TokenId) {
    w < |s.threads| && s.threads[w].Waiting? && s.threads[w].token == t
  }

  lemma FlagStays(s: State, a: Action, t: TokenId)
    requires Enabled(s, a) && t < |s.tokens| && s.tokens[t].cancelled
    ensures t < |Step(s, a).tokens| && Step(s, a).tokens[t].cancelled
  {
  }

  /** In every run, a wait that a step brings to its end has its token cancelled, before and after. */
  lemma WaitEndsCancelled(s: State, run: seq<Action>, a: Action, w: ThreadId, t: TokenId)
    requires Initial(s) && After(s, run).Some? && Enabled(After(s, run).value, a)
    requires WaitsFor(After(s, run).value, w, t) && !WaitsFor(Step(After(s, run).value, a), w, t)
    ensures var before, after := After(s, run).value, Step(After(s, run).value, a);
      && a == WaitStep(w) && after.threads[w].Idle?
      && t < |before.tokens| && before.tokens[t].cancelled && after.tokens[t].cancelled
  {
    var before := After(s, run).value;
    RunKeepsInv(s, run);
    assert ThreadOk(before, w);
  }

  /** The steps a waiter still takes by itself once its token is cancelled. */
  function StepsLeft(pc: WaitPc): nat {
    match pc
    case FirstCheck => 1
    case Register => 2
    case Recheck(_) => 1
    case Await(_) => 2
    case FinalCheck => 1
  }

  function WaitSteps(run: seq<Action>, w: ThreadId): nat {
    if run == [] then 0
    else WaitSteps(run[..|run| - 1], w) + (if run[|run| - 1] == WaitStep(w) then 1 else 0)
  }

  /** `w` came out of its wait at some point of the run. */
  ghost predicate Returned(s: State, run: seq<Action>, w: ThreadId) {
    exists n: nat :: n <= |run| && After(s, run[..n]).Some?
      && w < |After(s, run[..n]).value.threads| && After(s, run[..n]).value.threads[w].Idle?
  }

  lemma WaitAdvances(s: State, a: Action, w: ThreadId, t: TokenId)
    requires Enabled(s, a) && WaitsFor(s, w, t) && t < |s.tokens| && s.tokens[t].cancelled
    ensures w < |Step(s, a).threads|
    ensures Step(s, a).threads[w].Idle?
      || (WaitsFor(Step(s, a), w, t)
          && StepsLeft(Step(s, a).threads[w].pc) + (if a == WaitStep(w) then 1 else 0) <= StepsLeft(s.threads[w].pc))
  {
  }

  /** Whatever the other threads do, a wait on a cancelled token returns within one or two steps of its
      own: until it does, the steps taken and the steps left are at most those left at the start. */
  lemma {:induction false} WaitReturnsSoon(s: State, run: seq<Action>, w: ThreadId, t: TokenId)
    requires After(s, run).Some? && WaitsFor(s, w, t) && t < |s.tokens| && s.tokens[t].cancelled
    ensures Returned(s, run, w)
      || (WaitsFor(After(s, run).value, w, t)
          && t < |After(s, run).value.tokens| && After(s, run).value.tokens[t].cancelled
          && WaitSteps(run, w) + StepsLeft(After(s, run).value.threads[w].pc) <= StepsLeft(s.threads[w].pc))
    decreases |run|
  {
    if run != [] {
      var n := |run| - 1;
      WaitReturnsSoon(s, run[..n], w, t);
      if Returned(s, run[..n], w) {
        var k: nat :| k <= n && After(s, run[..n][..k]).Some?
          && w < |After(s, run[..n][..k]).value.threads| && After(s, run[..n][..k]).value.threads[w].Idle?;
        assert run[..n][..k] == run[..k];
      } else {
        WaitAdvances(After(s, run[..n]).value, run[n], w, t);
        FlagStays(After(s, run[..n]).value, run[n], t);
        assert run[..|run|] == run;
      }
    }
  }

  /** A wait begun on a cancelled token returns at its first step; any other, cancelled meanwhile, by
      its second. */
  lemma WaitOnCancelledReturns(s: State, run: seq<Action>, w: ThreadId, t: TokenId)
    requires After(s, run).Some? && WaitsFor(s, w, t) && t < |s.tokens| && s.tokens[t].cancelled
    requires WaitSteps(run, w) >= if s.threads[w].pc.FirstCheck? then 1 else 2
    ensures Returned(s, run, w)
  {
    WaitReturnsSoon(s, run, w, t);
  }

  // ---------- what calling `cancel` comes to ----------

  /** A token `cancel` was called on is cancelled, or a thread is about to set its flag. */
  ghost predicate RequestsAreServed(s: State) {
    forall t :: 0 <= t < |s.tokens| && s.tokens[t].requested ==> s.tokens[t].cancelled || Entering(s, t)
  }

  lemma RequestsStayServed(s: State, a: Action)
    requires WellFormed(s) && Enabled(s, a) && RequestsAreServed(s)
    ensures RequestsAreServed(Step(s, a))
  {
    var s' := Step(s, a);
    forall t | 0 <= t < |s'.tokens| && s'.tokens[t].requested ensures s'.tokens[t].cancelled || Entering(s', t) {
      if a.StartCancel? && a.t == t {
        assert Active(s', a.th) && Top(s'.threads[a.th].stack) == Frame(t, Swap);
      } else if s.tokens[t].cancelled {
        FlagStays(s, a, t);
      } else if !s'.tokens[t].cancelled {
        EnteringStays(s, a, t);
      }
    }
  }

  lemma {:induction false} RunServesRequests(s: State, run: seq<Action>)
    requires Initial(s) && After(s, run).Some?
    ensures RequestsAreServed(After(s, run).value)
    decreases |run|
  {
    if run != [] {
      RunServesRequests(s, run[..|run| - 1]);
      RunKeepsInv(s, run[..|run| - 1]);
      RequestsStayServed(After(s, run[..|run| - 1]).value, run[|run| - 1]);
    }
  }

  lemma RequestStays(s: State, a: Action, t: TokenId)
    requires Enabled(s, a) && ((a.StartCancel? && a.t == t) || (t < |s.tokens| && s.tokens[t].requested))
    ensures t < |Step(s, a).tokens| && Step(s, a).tokens[t].requested
  {
  }

  lemma {:induction false} RequestIsRecorded(s: State, run: seq<Action>, i: nat)
    requires After(s, run).Some? && i < |run| && run[i].StartCancel?
    ensures run[i].t < |After(s, run).value.tokens| && After(s, run).value.tokens[run[i].t].requested
    decreases |run|
  {
    var n := |run| - 1;
    if i < n {
      assert run[..n][i] == run[i];
      RequestIsRecorded(s, run[..n], i);
    }
    RequestStays(After(s, run[..n]).value, run[n], run[i].t);
  }

  /** After any run, once no `cancel` is in flight: every token `cancel` was called on is cancelled, and so
      is every descendant reached through live tokens. */
  lemma CancelTakesEffect(s: State, run: seq<Action>, i: nat, c: TokenId)
    requires Initial(s) && After(s, run).Some? && NoCancelInFlight(After(s, run).value)
    requires i < |run| && run[i].StartCancel? && LiveDescendant(After(s, run).value, run[i].t, c)
    ensures After(s, run).value.tokens[c].cancelled
  {
    RequestIsRecorded(s, run, i);
    RunServesRequests(s, run);
    DescendantsAreCancelled(s, run, run[i].t, c);
  }

  /** A notification wakes every waiter registered on its token, and nobody else. */
  lemma NotifyWakesExactly(s: State, th: ThreadId, w: ThreadId)
    requires Enabled(s, CancelStep(th)) && Top(s.threads[th].stack).pc.Notify? && w < |s.threads| && w != th
    ensures var t, thread, after := Top(s.threads[th].stack).token, s.threads[w], Step(s, CancelStep(th)).threads[w];
      if thread.Waiting? && thread.token == t && thread.pc.Recheck? then after == Waiting(t, Recheck(true))
      else if thread.Waiting? && thread.token == t && thread.pc.Await? then after == Waiting(t, Await(true))
      else after == thread
  {
  }

  /** Handles are counted: a token is created with one, each clone adds one and each drop takes one. */
  lemma HandlesAreCounted(s: State, a: Action, t: TokenId)
    requires WellFormed(s) && NotHandedOut(s) && Enabled(s, a) && t < |s.tokens|
    ensures Step(s, a).tokens[t].handles ==
      s.tokens[t].handles
      + (if a == CloneHandle(t) || (a.EndChild? && s.threads[a.th].child == t) then 1 else 0)
      - (if a == DropHandle(t) then 1 else 0)
    ensures a == NewRoot ==> Step(s, a).tokens[|s.tokens|].handles == 1
  {
    if a.EndChild? { assert Hidden(s, a.th) && ThreadOk(s, a.th); }
  }

  /** Creating a child forgets the finished ones, and no other. */
  lemma FinishedChildrenAreForgotten(s: State, th: ThreadId, t: TokenId)
    requires Enabled(s, BeginChild(th, t))
    ensures forall c :: c in Step(s, BeginChild(th, t)).tokens[t].children
                        <==> c in s.tokens[t].children && Alive(s, c)
  {
  }

  /** Nothing blocks a canceller but a lock whose holder can take its next step. */
  lemma CancellersCanGoOn(s: State, run: seq<Action>, th: ThreadId)
    requires Initial(s) && After(s, run).Some? && Active(After(s, run).value, th)
    ensures var end := After(s, run).value;
      Enabled(end, CancelStep(th)) || exists holder :: Enabled(end, EndChild(holder))
  {
    var end := After(s, run).value;
    RunKeepsInv(s, run);
    assert ThreadOk(end, th);
    var stack := end.threads[th].stack;
    assert FrameOk(end, stack, |stack| - 1);
    var t := Top(stack).token;
    assert TokenOk(end, t);
    if !Enabled(end, CancelStep(th)) {
      var holder := end.tokens[t].lock.value;
      assert ThreadOk(end, holder) && Enabled(end, EndChild(holder));
    }
  }

  /** `states` are the states `run` goes through. */
  ghost predicate IsTrace(states: seq<State>, run: seq<Action>) {
    |states| == |run| + 1 && forall i :: 0 <= i < |run| ==> Moves(states[i], run[i], states[i + 1])
  }

  ghost predicate Moves(s: State, a: Action, s': State) {
    Enabled(s, a) && Step(s, a) == s'
  }

  lemma {:induction false} TraceIsRun(states: seq<State>, run: seq<Action>)
    requires IsTrace(states, run)
    ensures After(states[0], run) == Some(states[|run|])
    decreases |run|
  {
    if run != [] {
      var n := |run| - 1;
      assert IsTrace(states[..n + 1], run[..n]) by {
        forall i | 0 <= i < n ensures Moves(states[..n + 1][i], run[..n][i], states[..n + 1][i + 1]) {
          assert Moves(states[i], run[i], states[i + 1]);
        }
      }
      TraceIsRun(states[..n + 1], run[..n]);
      assert Moves(states[n], run[n], states[n + 1]);
    }
  }

  lemma JoinTraces(states: seq<State>, run: seq<Action>, more: seq<State>, rest: seq<Action>)
    requires IsTrace(states, run) && IsTrace(more, rest) && states[|run|] == more[0]
    ensures IsTrace(states[..|run|] + more, run + rest)
    ensures (states[..|run|] + more)[0] == states[0] && (states[..|run|] + more)[|run| + |rest|] == more[|rest|]
  {
    var all, actions := states[..|run|] + more, run + rest;
    forall i | 0 <= i < |actions| ensures Moves(all[i], actions[i], all[i + 1]) {
      if i < |run| {
        assert Moves(states[i], run[i], states[i + 1]);
      } else {
        assert Moves(more[i - |run|], rest[i - |run|], more[i - |run| + 1]);
      }
    }
  }

  lemma MoveIsTrace(s: State, a: Action, s': State)
    requires Moves(s, a, s')
    ensures IsTrace([s, s'], [a])
  {
  }

  /** One thread creates a child of a token that has none. */
  lemma OneChild(tokens: seq<Token>, t: TokenId) returns (states: seq<State>, run: seq<Action>)
    requires t < |tokens| && tokens[t].handles > 0 && tokens[t].lock.None? && !tokens[t].cancelled
    requires tokens[t].children == []
    ensures IsTrace(states, run) && states[0] == State(tokens, [Idle])
    ensures states[|run|] == State(
      tokens[t := tokens[t].(children := [|tokens|])] + [Token(false, [], None, 1, Some(t), false)], [Idle])
  {
    var start := State(tokens, [Idle]);
    var mid := Step(start, BeginChild(0, t));
    var end := Step(mid, EndChild(0));
    MoveIsTrace(start, BeginChild(0, t), mid);
    MoveIsTrace(mid, EndChild(0), end);
    JoinTraces([start, mid], [BeginChild(0, t)], [mid, end], [EndChild(0)]);
    states, run := [start, mid][..1] + [mid, end], [BeginChild(0, t)] + [EndChild(0)];
    assert mid.tokens[t].children == [] && mid.tokens[t].children + [|tokens|] == [|tokens|];
    assert end.tokens == tokens[t := tokens[t].(children := [|tokens|])] + [Token(false, [], None, 1, Some(t), false)];
  }

  /** One thread, alone, in the middle of cancelling `t`. */
  function Alone(tokens: seq<Token>, t: TokenId, pc: CancelPc): State {
    State(tokens, [Cancelling([Frame(t, pc)])])
  }

  lemma GotoAlone(t: TokenId, pc: CancelPc, next: CancelPc)
    ensures Goto([Frame(t, pc)], next) == Cancelling([Frame(t, next)])
  {
    assert [Frame(t, pc)][..0] + [Frame(t, next)] == [Frame(t, next)];
  }

  lemma StartAndSwap(tokens: seq<Token>, t: TokenId)
    requires t < |tokens| && tokens[t].handles > 0 && !tokens[t].cancelled
    ensures var asked := tokens[t := tokens[t].(requested := true)];
      && Moves(State(tokens, [Idle]), StartCancel(0, t), Alone(asked, t, Swap))
      && Moves(Alone(asked, t, Swap), CancelStep(0), Alone(asked[t := asked[t].(cancelled := true)], t, Notify))
  {
    GotoAlone(t, Swap, Notify);
  }

  lemma NotifyAndTake(tokens: seq<Token>, t: TokenId)
    requires t < |tokens| && tokens[t].lock.None?
    ensures Moves(Alone(tokens, t, Notify), CancelStep(0), Alone(tokens, t, TakeChildren))
    ensures Moves(Alone(tokens, t, TakeChildren), CancelStep(0),
                  Alone(tokens[t := tokens[t].(children := [])], t, Descend(tokens[t].children)))
  {
    GotoAlone(t, Notify, TakeChildren);
    GotoAlone(t, TakeChildren, Descend(tokens[t].children));
    assert Step(Alone(tokens, t, Notify), CancelStep(0)).threads == Alone(tokens, t, TakeChildren).threads;
  }

  lemma SkipAndReturn(tokens: seq<Token>, t: TokenId, c: TokenId)
    requires t < |tokens| && t != c < |tokens| && tokens[c].handles == 0
    ensures Moves(Alone(tokens, t, Descend([c])), CancelStep(0), Alone(tokens, t, Descend([])))
    ensures Moves(Alone(tokens, t, Descend([])), CancelStep(0), State(tokens, [Idle]))
  {
    GotoAlone(t, Descend([c]), Descend([]));
    assert [c][1..] == [] && !Alive(Alone(tokens, t, Descend([c])), c);
  }

  /** One thread cancels a token whose only child nothing holds any more. */
  lemma CancelAbandoned(tokens: seq<Token>, t: TokenId, c: TokenId) returns (states: seq<State>, run: seq<Action>)
    requires t < |tokens| && tokens[t].handles > 0 && tokens[t].lock.None? && !tokens[t].cancelled
    requires tokens[t].children == [c]
    requires t != c < |tokens| && tokens[c].handles == 0
    ensures IsTrace(states, run) && states[0] == State(tokens, [Idle])
    ensures states[|run|] == State(
      tokens[t := tokens[t].(children := [], cancelled := true, requested := true)], [Idle])
  {
    var asked := tokens[t := tokens[t].(requested := true)];
    var flagged := asked[t := asked[t].(cancelled := true)];
    var emptied := flagged[t := flagged[t].(children := [])];
    StartAndSwap(tokens, t);
    NotifyAndTake(flagged, t);
    SkipAndReturn(emptied, t, c);
    states := [State(tokens, [Idle]), Alone(asked, t, Swap), Alone(flagged, t, Notify), Alone(flagged, t, TakeChildren),
               Alone(emptied, t, Descend([c])), Alone(emptied, t, Descend([])), State(emptied, [Idle])];
    run := [StartCancel(0, t), CancelStep(0), CancelStep(0), CancelStep(0), CancelStep(0), CancelStep(0)];
  }

  /** Without live tokens in between, a descendant escapes: the token in the middle was
      dropped before its parent was cancelled. */
  lemma DroppedMiddleEscapes() returns (states: seq<State>, run: seq<Action>)
    ensures IsTrace(states, run) && Initial(states[0]) && NoCancelInFlight(states[|run|])
    ensures var end := states[|run|];
      && |end.tokens| == 3 && end.tokens[1].parent == Some(0) && end.tokens[2].parent == Some(1)
      && end.tokens[0].cancelled && HasHandle(end, 2) && !end.tokens[2].cancelled
  {
    var root := Token(false, [], None, 1, None, false);
    var first := State([root], [Idle]);
    MoveIsTrace(State([], [Idle]), NewRoot, first);
    var s1, r1 := OneChild([root], 0);
    JoinTraces([State([], [Idle]), first], [NewRoot], s1, r1);
    states, run := [State([], [Idle]), first][..1] + s1, [NewRoot] + r1;
    var s2, r2 := OneChild(s1[|r1|].tokens, 1);
    JoinTraces(states, run, s2, r2);
    states, run := states[..|run|] + s2, run + r2;
    var three := s2[|r2|];
    var dropped := Step(three, DropHandle(1));
    MoveIsTrace(three, DropHandle(1), dropped);
    JoinTraces(states, run, [three, dropped], [DropHandle(1)]);
    states, run := states[..|run|] + [three, dropped], run + [DropHandle(1)];
    var s3, r3 := CancelAbandoned(dropped.tokens, 0, 1);
    JoinTraces(states, run, s3, r3);
    states, run := states[..|run|] + s3, run + r3;
  }

  // ---------- propagation terminates ----------

  function FrameWork(f: Frame): nat {
    match f.pc
    case Swap => 2
    case Notify => 4
    case TakeChildren => 3
    case Descend(rest) => 1 + 3 * |rest|
  }

  function StackWork(stack: seq<Frame>): nat {
    if stack == [] then 0 else StackWork(stack[..|stack| - 1]) + FrameWork(stack[|stack| - 1])
  }

  function ThreadWork(thread: Thread): nat {
    if thread.Cancelling? then StackWork(thread.stack) else 0
  }

  function TokenWork(token: Token): nat {
    (if token.cancelled then 0 else 5) + 3 * |token.children|
  }

  function ThreadsWork(threads: seq<Thread>): nat {
    if threads == [] then 0 else ThreadsWork(threads[..|threads| - 1]) + ThreadWork(threads[|threads| - 1])
  }

  function TokensWork(tokens: seq<Token>): nat {
    if tokens == [] then 0 else TokensWork(tokens[..|tokens| - 1]) + TokenWork(tokens[|tokens| - 1])
  }

  /** A bound on the steps that cancellers still have to take. */
  function Work(s: State): nat {
    TokensWork(s.tokens) + ThreadsWork(s.threads)
  }

  lemma {:induction false} ThreadsWorkUpdate(threads: seq<Thread>, i: nat, thread: Thread)
    requires i < |threads|
    ensures ThreadsWork(threads[i := thread]) == ThreadsWork(threads) - ThreadWork(threads[i]) + ThreadWork(thread)
    decreases |threads|
  {
    var n := |threads| - 1;
    if i == n {
      assert threads[i := thread][..n] == threads[..n];
    } else {
      assert threads[i := thread][..n] == threads[..n][i := thread];
      ThreadsWorkUpdate(threads[..n], i, thread);
    }
  }

  lemma {:induction false} TokensWorkUpdate(tokens: seq<Token>, i: nat, token: Token)
    requires i < |tokens|
    ensures TokensWork(tokens[i := token]) == TokensWork(tokens) - TokenWork(tokens[i]) + TokenWork(token)
    decreases |tokens|
  {
    var n := |tokens| - 1;
    if i == n {
      assert tokens[i := token][..n] == tokens[..n];
    } else {
      assert tokens[i := token][..n] == tokens[..n][i := token];
      TokensWorkUpdate(tokens[..n], i, token);
    }
  }

  lemma {:induction false} WakingIsFree(threads: seq<Thread>, woken: seq<Thread>, t: TokenId)
    requires |woken| == |threads| && forall i :: 0 <= i < |threads| ==> woken[i] == Wake(threads[i], t)
    ensures ThreadsWork(woken) == ThreadsWork(threads)
    decreases |threads|
  {
    if threads != [] {
      WakingIsFree(threads[..|threads| - 1], woken[..|threads| - 1], t);
    }
  }

  lemma StackWorkTop(stack: seq<Frame>, f: Frame)
    ensures StackWork(stack + [f]) == StackWork(stack) + FrameWork(f)
  {
    assert (stack + [f])[..|stack|] == stack;
  }

  /** Each step of a canceller leaves less work. */
  lemma CancelStepWorks(s: State, th: ThreadId)
    requires Enabled(s, CancelStep(th))
    ensures Work(Step(s, CancelStep(th))) < Work(s)
  {
    var stack := s.threads[th].stack;
    match Top(stack).pc
    case Swap => SwapWorks(s, th);
    case Notify =>
      GotoWork(stack, TakeChildren);
      ThreadsWorkUpdate(s.threads, th, Goto(stack, TakeChildren));
      WakingIsFree(s.threads[th := Goto(stack, TakeChildren)], Step(s, CancelStep(th)).threads, Top(stack).token);
    case TakeChildren => TakeChildrenWorks(s, th);
    case Descend(_) => DescendWorks(s, th);
  }

  lemma GotoWork(stack: seq<Frame>, pc: CancelPc)
    requires stack != []
    ensures ThreadWork(Goto(stack, pc)) == StackWork(stack) - FrameWork(Top(stack)) + FrameWork(Top(stack).(pc := pc))
    ensures ThreadWork(Return(stack)) == StackWork(stack) - FrameWork(Top(stack))
  {
    StackWorkTop(stack[..|stack| - 1], Top(stack).(pc := pc));
  }

  lemma SwapWorks(s: State, th: ThreadId)
    requires Enabled(s, CancelStep(th)) && Top(s.threads[th].stack).pc.Swap?
    ensures Work(Step(s, CancelStep(th))) < Work(s)
  {
    var s', stack := Step(s, CancelStep(th)), s.threads[th].stack;
    var t := Top(stack).token;
    GotoWork(stack, Notify);
    ThreadsWorkUpdate(s.threads, th, s'.threads[th]);
    if !s.tokens[t].cancelled { TokensWorkUpdate(s.tokens, t, s'.tokens[t]); }
  }

  lemma TakeChildrenWorks(s: State, th: ThreadId)
    requires Enabled(s, CancelStep(th)) && Top(s.threads[th].stack).pc.TakeChildren?
    ensures Work(Step(s, CancelStep(th))) < Work(s)
  {
    var s', stack := Step(s, CancelStep(th)), s.threads[th].stack;
    var t := Top(stack).token;
    GotoWork(stack, Descend(s.tokens[t].children));
    ThreadsWorkUpdate(s.threads, th, s'.threads[th]);
    TokensWorkUpdate(s.tokens, t, s'.tokens[t]);
  }

  lemma DescendWorks(s: State, th: ThreadId)
    requires Enabled(s, CancelStep(th)) && Top(s.threads[th].stack).pc.Descend?
    ensures Work(Step(s, CancelStep(th))) < Work(s)
  {
    var s', stack := Step(s, CancelStep(th)), s.threads[th].stack;
    var rest := Top(stack).pc.rest;
    ThreadsWorkUpdate(s.threads, th, s'.threads[th]);
    if rest == [] {
      GotoWork(stack, Top(stack).pc);
    } else {
      GotoWork(stack, Descend(rest[1..]));
      StackWorkTop(Goto(stack, Descend(rest[1..])).stack, Frame(rest[0], Swap));
    }
  }

  /** The work an action may add. */
  function Adds(a: Action): nat {
    match a
    case NewRoot => 5
    case BeginChild(_, _) => 5
    case EndChild(_) => 3
    case StartCancel(_, _) => 2
    case _ => 0
  }

  lemma OtherStepWorks(s: State, a: Action)
    requires Enabled(s, a) && !a.CancelStep?
    ensures Work(Step(s, a)) <= Work(s) + Adds(a)
  {
    match a
    case BeginChild(th, t) => BeginChildWorks(s, th, t);
    case EndChild(th) => EndChildWorks(s, th);
    case StartCancel(th, t) =>
      SettingWorks(s, th, Step(s, a).threads[th], t, Step(s, a).tokens[t]);
      assert StackWork([Frame(t, Swap)][..0]) == 0;
    case NewRoot => assert Step(s, a).tokens[..|s.tokens|] == s.tokens;
    case CloneHandle(t) => TokensWorkUpdate(s.tokens, t, Step(s, a).tokens[t]);
    case DropHandle(t) => TokensWorkUpdate(s.tokens, t, Step(s, a).tokens[t]);
    case StartWait(th, t) => ThreadsWorkUpdate(s.threads, th, Step(s, a).threads[th]);
    case WaitStep(th) => ThreadsWorkUpdate(s.threads, th, Step(s, a).threads[th]);
  }

  lemma SettingWorks(s: State, th: ThreadId, thread: Thread, t: TokenId, token: Token)
    requires th < |s.threads| && t < |s.tokens|
    ensures Work(SetThread(SetToken(s, t, token), th, thread))
         == Work(s) - TokenWork(s.tokens[t]) + TokenWork(token) - ThreadWork(s.threads[th]) + ThreadWork(thread)
  {
    TokensWorkUpdate(s.tokens, t, token);
    ThreadsWorkUpdate(s.threads, th, thread);
  }

  lemma BeginChildWorks(s: State, th: ThreadId, t: TokenId)
    requires Enabled(s, BeginChild(th, t))
    ensures Work(Step(s, BeginChild(th, t))) <= Work(s) + 5
  {
    var s' := Step(s, BeginChild(th, t));
    SettingWorks(s, th, s'.threads[th], t, s'.tokens[t]);
    assert s'.tokens[..|s.tokens|] == s.tokens[t := s'.tokens[t]];
  }

  lemma EndChildWorks(s: State, th: ThreadId)
    requires Enabled(s, EndChild(th))
    ensures Work(Step(s, EndChild(th))) <= Work(s) + 3
  {
    var CreatingChild(p, c, saw) := s.threads[th];
    var born := s.tokens[c].(handles := 1, cancelled := s.tokens[c].cancelled || saw);
    TokensWorkUpdate(s.tokens, c, born);
    SettingWorks(SetToken(s, c, born), th, Idle, p, Step(s, EndChild(th)).tokens[p]);
  }

  function CancelSteps(run: seq<Action>): nat {
    if run == [] then 0
    else CancelSteps(run[..|run| - 1]) + (if run[|run| - 1].CancelStep? then 1 else 0)
  }

  function Added(run: seq<Action>): nat {
    if run == [] then 0 else Added(run[..|run| - 1]) + Adds(run[|run| - 1])
  }

  /** In every run, however the threads interleave, cancellers take no more steps than the
      work found at the start and added by creating tokens and calling `cancel`. */
  lemma {:induction false} PropagationTerminates(s: State, run: seq<Action>)
    requires After(s, run).Some?
    ensures CancelSteps(run) + Work(After(s, run).value) <= Work(s) + Added(run)
    decreases |run|
  {
    if run != [] {
      var before, a := run[..|run| - 1], run[|run| - 1];
      PropagationTerminates(s, before);
      if a.CancelStep? {
        CancelStepWorks(After(s, before).value, a.th);
      } else {
        OtherStepWorks(After(s, before).value, a);
      }
    }
  }
}
