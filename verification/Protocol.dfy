/** `objc_send_initialize` under any interleaving of threads.

    A step is the stretch of code between two points where another thread can intervene.
    The `+initialize` methods themselves are arbitrary: while one runs, its thread may
    call `objc_send_initialize` for any class, any number of times, and may leave by
    returning or by throwing. */
module Protocol {
  import opened Basics

  /** Where one activation of `objc_send_initialize` stands. */
  datatype Pc =
    | Enter
    | AwaitSuper
    | WantRuntime
    | Test
    | Wait
    | Leave
    | Check
    | WantMeta
    | WantInit
    | Retest
    | Make
    | MakeMeta
    | Publish
    | Running
    | Remove
    | Exit
    | Finished
    | Thrown

  datatype Frame = Frame(cls: nat, pc: Pc, skipMeta: bool)

  /** A class object or its metaclass. */
  datatype Obj = Cls(id: nat) | Met(id: nat)

  /** `super[c]` is the superclass of `c`. */
  type Supers = map<nat, nat>

  datatype State = State(
    stacks: map<nat, seq<Frame>>,
    runtime: Option<nat>,
    initLock: Option<nat>,
    // `objc_sync_enter` on the metaclass: the owner and how often it has entered
    sync: map<nat, (nat, nat)>,
    flags: set<Obj>,
    // objects whose `dtable` field holds a real table
    installed: set<Obj>,
    // `temporary_dtables`, from its head
    temporary: seq<Obj>,
    // the classes that `+initialize` has been sent to, in order
    sent: seq<nat>,
    // an assertion failed or `abort` was called
    failed: bool)

  function Stack(s: State, t: nat): seq<Frame> {
    if t in s.stacks then s.stacks[t] else []
  }

  /** What `dtable_for_class` finds is not `uninstalled_dtable`. */
  predicate Has(s: State, o: Obj) {
    o in s.installed || o in s.temporary
  }

  predicate HoldsRuntime(pc: Pc) {
    pc.Test? || pc.WantMeta? || pc.WantInit? || pc.Retest? || pc.Make? || pc.MakeMeta?
  }

  predicate HoldsInit(pc: Pc) {
    pc.Retest? || pc.Make? || pc.MakeMeta? || pc.Publish?
  }

  predicate HoldsSync(pc: Pc) {
    pc.Leave? || pc.WantInit? || pc.Retest? || pc.Make? || pc.MakeMeta? || pc.Publish? || pc.Running? || pc.Remove? || pc.Exit?
  }

  /** From the flags being set to the tables being installed. */
  predicate Initializing(pc: Pc) {
    pc.Make? || pc.MakeMeta? || pc.Publish? || pc.Running? || pc.Remove?
  }

  /** The thread's innermost activation. */
  function Top(s: State, t: nat): Frame
    requires Stack(s, t) != []
  {
    var st := Stack(s, t);
    st[|st| - 1]
  }

  function Goto(s: State, t: nat, pc: Pc): State
    requires Stack(s, t) != []
  {
    var st := Stack(s, t);
    s.(stacks := s.stacks[t := st[|st| - 1 := st[|st| - 1].(pc := pc)]])
  }

  function Skip(s: State, t: nat, skip: bool): State
    requires Stack(s, t) != []
  {
    var st := Stack(s, t);
    s.(stacks := s.stacks[t := st[|st| - 1 := st[|st| - 1].(skipMeta := skip)]])
  }

  function Push(s: State, t: nat, c: nat): State {
    s.(stacks := s.stacks[t := Stack(s, t) + [Frame(c, Enter, false)]])
  }

  /** The innermost activation is over; a caller that awaited it goes on at `pc`. */
  function Pop(s: State, t: nat, pc: Pc): State
    requires Stack(s, t) != []
  {
    var rest := Stack(s, t)[..|Stack(s, t)| - 1];
    var rest' := if rest != [] && rest[|rest| - 1].pc.AwaitSuper? then rest[|rest| - 1 := rest[|rest| - 1].(pc := pc)] else rest;
    s.(stacks := s.stacks[t := rest'])
  }

  predicate CanEnter(s: State, t: nat, c: nat) {
    c in s.sync ==> s.sync[c].0 == t
  }

  function EnterSync(s: State, t: nat, c: nat): State {
    s.(sync := s.sync[c := (t, if c in s.sync then s.sync[c].1 + 1 else 1)])
  }

  function ExitSync(s: State, c: nat): State {
    if c !in s.sync then s
    else if s.sync[c].1 <= 1 then s.(sync := s.sync - {c})
    else s.(sync := s.sync[c := (s.sync[c].0, s.sync[c].1 - 1)])
  }

  /** The list without the entries of `c`, found as `remove_dtable` finds them. */
  function Unlink(list: seq<Obj>, c: nat): seq<Obj> {
    if list == [] then []
    else if list[0] == Met(c) then (if |list| >= 2 then list[2..] else [])
    else [list[0]] + Unlink(list[1..], c)
  }

  /** One step of thread `t`, whose innermost activation is for class `c`; `answers` are the classes
      whose metaclass answers `+initialize`. */
  ghost predicate FrameStep(super: Supers, answers: set<nat>, s: State, t: nat, s': State)
    requires Stack(s, t) != []
  {
    var c := Top(s, t).cls;
    match Top(s, t).pc
    case Enter => s' == if c in super then Push(Goto(s, t, AwaitSuper), t, super[c]) else Goto(s, t, WantRuntime)
    case AwaitSuper => false
    case WantRuntime => s.runtime == None && s' == Goto(s, t, Test).(runtime := Some(t))
    case Test =>
      if Cls(c) in s.flags then s' == Goto(s, t, Wait).(runtime := None)
      else s' == Goto(s, t, WantMeta)
    case Wait => CanEnter(s, t, c) && s' == EnterSync(Goto(s, t, Leave), t, c)
    case Leave => s' == ExitSync(Goto(s, t, Check), c)
    case Check => s' == Goto(s, t, Finished).(failed := s.failed || !Has(s, Cls(c)))
    case WantMeta => CanEnter(s, t, c) && s' == EnterSync(Goto(s, t, WantInit), t, c)
    case WantInit => s.initLock == None && s' == Goto(s, t, Retest).(initLock := Some(t))
    case Retest =>
      if Cls(c) in s.flags then s' == Goto(s, t, Exit).(initLock := None, runtime := None)
      else s' == Skip(Goto(s, t, Make), t, Met(c) in s.flags).(flags := s.flags + {Cls(c), Met(c)})
    case Make => s' == Goto(s, t, MakeMeta).(failed := s.failed || (c in super && !Has(s, Cls(super[c]))))
    case MakeMeta =>
      if Top(s, t).skipMeta then s' == Goto(s, t, Publish).(runtime := None)
      else s' == Goto(s, t, Publish).(runtime := None, failed := s.failed || (c in super && !Has(s, Met(super[c]))))
    case Publish =>
      if Top(s, t).skipMeta then s' == Goto(s, t, Exit).(installed := s.installed + {Cls(c)}, initLock := None)
      else if c !in answers then s' == Goto(s, t, Exit).(installed := s.installed + {Cls(c), Met(c)}, initLock := None)
      else s' == Goto(s, t, Running).(temporary := [Met(c), Cls(c)] + s.temporary, initLock := None, sent := s.sent + [c])
    case Running =>
      || (exists d :: s' == Push(s, t, d))
      || s' == Goto(s, t, Remove)
    case Remove =>
      s.initLock == None && s' == Goto(s, t, Exit).(installed := s.installed + {Cls(c), Met(c)}, temporary := Unlink(s.temporary, c))
    case Exit =>
      || s' == ExitSync(Goto(s, t, Finished), c)
      || s' == ExitSync(Goto(s, t, Thrown), c)
    case Finished => s' == Pop(s, t, WantRuntime)
    case Thrown => s' == Pop(s, t, Thrown)
  }

  /** Thread `t` calls `objc_send_initialize` from outside, or goes on where it is. */
  ghost predicate Step(super: Supers, answers: set<nat>, s: State, t: nat, s': State) {
    if Stack(s, t) == [] then exists d :: s' == Push(s, t, d) else FrameStep(super, answers, s, t, s')
  }

  ghost predicate Initial(s: State) {
    && s.stacks == map[] && s.runtime == None && s.initLock == None && s.sync == map[] && s.flags == {} && s.installed == {}
    && s.temporary == [] && s.sent == [] && !s.failed
  }

  // -- What every reachable state satisfies --

  /** For each class whose flags are set but whose tables are not installed yet, the thread
      and the activation that set them. */
  type Active = map<nat, (nat, nat)>

  /** `x` is initialized, or its `+initialize` is running further out in thread `t` itself. */
  ghost predicate Ready(s: State, act: Active, t: nat, k: nat, x: nat) {
    || Cls(x) in s.installed
    || (x in act && act[x].0 == t && act[x].1 < k && act[x].1 < |Stack(s, t)| && Stack(s, t)[act[x].1].pc.Running?)
  }

  ghost predicate FrameOk(super: Supers, s: State, act: Active, t: nat, k: nat)
    requires k < |Stack(s, t)|
  {
    var st := Stack(s, t);
    var f := st[k];
    && !f.skipMeta
    && (k < |st| - 1 ==> f.pc.AwaitSuper? || f.pc.Running?)
    && (f.pc.AwaitSuper? ==> k < |st| - 1 && f.cls in super && st[k + 1].cls == super[f.cls])
    && (HoldsRuntime(f.pc) ==> s.runtime == Some(t))
    && (HoldsInit(f.pc) ==> s.initLock == Some(t))
    && (Initializing(f.pc) ==> f.cls in act && act[f.cls] == (t, k))
    && (!f.pc.Enter? && !f.pc.AwaitSuper? && !f.pc.Thrown? && f.cls in super ==> Ready(s, act, t, k, super[f.cls]))
    && (f.pc.Leave? || f.pc.Check? || f.pc.Exit? || f.pc.Finished? ==> Ready(s, act, t, k, f.cls))
    && (f.pc.Wait? ==> Cls(f.cls) in s.flags)
    && (f.pc.WantMeta? || f.pc.WantInit? || f.pc.Retest? ==> Cls(f.cls) !in s.flags)
  }

  ghost predicate ActOk(s: State, act: Active, c: nat)
    requires c in act
  {
    var st := Stack(s, act[c].0);
    act[c].1 < |st| && st[act[c].1].cls == c && Initializing(st[act[c].1].pc) && Cls(c) !in s.installed
  }

  ghost predicate FlagOk(s: State, act: Active, c: nat) {
    && (Cls(c) in s.flags <==> c in act || Cls(c) in s.installed)
    && (Met(c) in s.flags <==> Cls(c) in s.flags)
    && (Met(c) in s.installed <==> Cls(c) in s.installed)
  }

  /** How many activations in a stack are inside `objc_sync_enter` for `c`. */
  ghost function Inside(st: seq<Frame>, c: nat): nat {
    if st == [] then 0
    else Inside(st[..|st| - 1], c) + if st[|st| - 1].cls == c && HoldsSync(st[|st| - 1].pc) then 1 else 0
  }

  ghost predicate SyncOk(s: State, t: nat, c: nat) {
    && Inside(Stack(s, t), c) == (if c in s.sync && s.sync[c].0 == t then s.sync[c].1 else 0)
    && (c in s.sync ==> s.sync[c].1 >= 1)
  }

  /** The entries of the classes `q`, metaclass before class. */
  function Entries(q: seq<nat>): seq<Obj> {
    if q == [] then [] else [Met(q[0]), Cls(q[0])] + Entries(q[1..])
  }

  /** `+initialize` of `c` is being called. */
  ghost predicate InCall(s: State, act: Active, c: nat) {
    c in act && act[c].1 < |Stack(s, act[c].0)| &&
      var pc := Stack(s, act[c].0)[act[c].1].pc; pc.Running? || pc.Remove?
  }

  ghost predicate ListOk(s: State, act: Active, q: seq<nat>, c: nat) {
    c in q <==> InCall(s, act, c)
  }

  ghost predicate SentOk(answers: set<nat>, s: State, act: Active, c: nat) {
    && (c in s.sent ==> c in answers && Cls(c) in s.flags && (c in act ==> InCall(s, act, c)))
    && (Cls(c) in s.installed && c in answers ==> c in s.sent)
    && (InCall(s, act, c) ==> c in s.sent)
  }

  ghost predicate NoRepeats(q: seq<nat>) {
    forall i, j :: 0 <= i < j < |q| ==> q[i] != q[j]
  }

  ghost predicate Inv(super: Supers, answers: set<nat>, s: State, act: Active, q: seq<nat>) {
    && !s.failed && s.temporary == Entries(q) && NoRepeats(q) && NoRepeats(s.sent)
    && (forall t: nat, k: nat {:trigger FrameOk(super, s, act, t, k)} :: k < |Stack(s, t)| ==> FrameOk(super, s, act, t, k))
    && (forall c {:trigger ActOk(s, act, c)} :: c in act ==> ActOk(s, act, c))
    && (forall c {:trigger FlagOk(s, act, c)} :: FlagOk(s, act, c))
    && (forall t, c {:trigger SyncOk(s, t, c)} :: SyncOk(s, t, c))
    && (forall c {:trigger ListOk(s, act, q, c)} :: ListOk(s, act, q, c))
    && (forall c {:trigger SentOk(answers, s, act, c)} :: SentOk(answers, s, act, c))
  }

  lemma {:induction false} InsideSnoc(st: seq<Frame>, f: Frame, c: nat)
    ensures Inside(st + [f], c) == Inside(st, c) + if f.cls == c && HoldsSync(f.pc) then 1 else 0
  {
    assert (st + [f])[..|st + [f]| - 1] == st;
  }

  /** An activation inside keeps the count up. */
  lemma {:induction false} InsideAt(st: seq<Frame>, k: nat, c: nat)
    requires k < |st| && st[k].cls == c && HoldsSync(st[k].pc)
    ensures Inside(st, c) >= 1
    decreases |st|
  {
    if k < |st| - 1 { InsideAt(st[..|st| - 1], k, c); }
  }

  /** Only one thread at a time is inside for `c`. */
  lemma OneInside(super: Supers, answers: set<nat>, s: State, act: Active, q: seq<nat>, t: nat, k: nat, t': nat, c: nat)
    requires Inv(super, answers, s, act, q) && k < |Stack(s, t)| && Stack(s, t)[k].cls == c && HoldsSync(Stack(s, t)[k].pc)
    ensures c in s.sync && s.sync[c].0 == t
    ensures CanEnter(s, t', c) ==> t' == t
  {
    InsideAt(Stack(s, t), k, c);
    assert SyncOk(s, t, c);
  }

  // -- Steps that only move the innermost activation and take or give back locks --

  ghost predicate LockOk(was: Option<nat>, now: Option<nat>, t: nat) {
    now == was || was == None || was == Some(t)
  }

  ghost predicate SyncMove(s: State, s': State, t: nat, c: nat, was: Pc, pc: Pc) {
    || (HoldsSync(was) == HoldsSync(pc) && s'.sync == s.sync)
    || (!HoldsSync(was) && HoldsSync(pc) && CanEnter(s, t, c) && s'.sync == EnterSync(s, t, c).sync)
    || (HoldsSync(was) && !HoldsSync(pc) && s'.sync == ExitSync(s, c).sync)
  }

  /** From `s` to `s'` the innermost activation of `t` goes from one point to another. */
  ghost predicate Moves(s: State, s': State, t: nat, pc: Pc) {
    && Stack(s, t) != [] && s'.stacks == Goto(s, t, pc).stacks
    && LockOk(s.runtime, s'.runtime, t) && LockOk(s.initLock, s'.initLock, t)
    && SyncMove(s, s', t, Top(s, t).cls, Top(s, t).pc, pc)
  }

  lemma SyncMoved(super: Supers, answers: set<nat>, s: State, act: Active, q: seq<nat>, t: nat, pc: Pc, s': State, t': nat, c: nat)
    requires Inv(super, answers, s, act, q) && Moves(s, s', t, pc)
    ensures SyncOk(s', t', c)
  {
    var st := Stack(s, t);
    var n := |st| - 1;
    assert SyncOk(s, t', c) && SyncOk(s, t, c);
    assert st == st[..n] + [st[n]] && Stack(s', t) == st[..n] + [st[n].(pc := pc)];
    InsideSnoc(st[..n], st[n], c);
    InsideSnoc(st[..n], st[n].(pc := pc), c);
    if HoldsSync(st[n].pc) { OneInside(super, answers, s, act, q, t, n, t', st[n].cls); }
  }

  /** Readiness survives whatever happens further in, and in other threads. */
  lemma ReadyKept(s: State, act: Active, s': State, act': Active, t: nat, k: nat, x: nat)
    requires Ready(s, act, t, k, x) && s.installed <= s'.installed && k < |Stack(s', t)| && k < |Stack(s, t)|
    requires forall j :: 0 <= j < k ==> Stack(s', t)[j] == Stack(s, t)[j]
    requires x in act ==> (x in act' && act'[x] == act[x]) || Cls(x) in s'.installed
    ensures Ready(s', act', t, k, x)
  {
  }

  lemma Quiet(super: Supers, answers: set<nat>, s: State, act: Active, q: seq<nat>, t: nat, pc: Pc, s': State)
    requires Inv(super, answers, s, act, q) && Moves(s, s', t, pc)
    requires s'.flags == s.flags && s'.installed == s.installed && s'.temporary == s.temporary && s'.sent == s.sent && s'.failed == s.failed
    requires Initializing(Top(s, t).pc) == Initializing(pc)
    requires (Top(s, t).pc.Running? || Top(s, t).pc.Remove?) == (pc.Running? || pc.Remove?)
    requires FrameOk(super, s', act, t, |Stack(s, t)| - 1)
    ensures Inv(super, answers, s', act, q)
  {
    var n := |Stack(s, t)| - 1;
    assert FrameOk(super, s, act, t, n);
    forall t': nat, k: nat | k < |Stack(s', t')| ensures FrameOk(super, s', act, t', k) {
      assert FrameOk(super, s, act, t', k);
      if t' != t || k != n { OtherFrame(super, s, act, t, pc, s', t', k); }
    }
    forall c | c in act ensures ActOk(s', act, c) { assert ActOk(s, act, c); }
    forall c ensures FlagOk(s', act, c) { assert FlagOk(s, act, c); }
    forall t', c ensures SyncOk(s', t', c) { SyncMoved(super, answers, s, act, q, t, pc, s', t', c); }
    forall c ensures ListOk(s', act, q, c) && SentOk(answers, s', act, c) {
      assert ListOk(s, act, q, c) && SentOk(answers, s, act, c);
      if c in act { assert ActOk(s, act, c); }
    }
  }

  lemma OtherFrame(super: Supers, s: State, act: Active, t: nat, pc: Pc, s': State, t': nat, k: nat)
    requires Moves(s, s', t, pc) && s'.flags == s.flags && s'.installed == s.installed
    requires k < |Stack(s, t')| && (t' != t || k != |Stack(s, t)| - 1) && FrameOk(super, s, act, t', k)
    ensures FrameOk(super, s', act, t', k)
  {
    var f := Stack(s, t')[k];
    if f.cls in super && Ready(s, act, t', k, super[f.cls]) { ReadyKept(s, act, s', act, t', k, super[f.cls]); }
    if Ready(s, act, t', k, f.cls) { ReadyKept(s, act, s', act, t', k, f.cls); }
  }

  lemma {:induction false} EntriesHas(q: seq<nat>, c: nat)
    ensures c in q <==> Cls(c) in Entries(q)
    ensures c in q <==> Met(c) in Entries(q)
    decreases |q|
  {
    if q != [] { EntriesHas(q[1..], c); }
  }

  /** A class that is ready has tables. */
  lemma ReadyHas(super: Supers, answers: set<nat>, s: State, act: Active, q: seq<nat>, t: nat, k: nat, x: nat)
    requires Inv(super, answers, s, act, q) && Ready(s, act, t, k, x)
    ensures Has(s, Cls(x)) && Has(s, Met(x))
  {
    assert FlagOk(s, act, x) && ListOk(s, act, q, x);
    EntriesHas(q, x);
  }

  /** Entering the metaclass's lock once the flag is set means that the class is ready. */
  lemma EnteredReady(super: Supers, answers: set<nat>, s: State, act: Active, q: seq<nat>, t: nat, x: nat)
    requires Inv(super, answers, s, act, q) && Stack(s, t) != [] && Top(s, t) == Frame(x, Wait, false) && CanEnter(s, t, x)
    ensures Ready(s, act, t, |Stack(s, t)| - 1, x)
  {
    assert FrameOk(super, s, act, t, |Stack(s, t)| - 1) && FlagOk(s, act, x);
    if x in act {
      assert ActOk(s, act, x);
      OneInside(super, answers, s, act, q, act[x].0, act[x].1, t, x);
      assert FrameOk(super, s, act, t, act[x].1);
    }
  }

  /** The steps up to the decision whether this activation initializes the class. */
  lemma StepBefore(super: Supers, answers: set<nat>, s: State, act: Active, q: seq<nat>, t: nat, s': State)
    requires Inv(super, answers, s, act, q) && Stack(s, t) != [] && FrameStep(super, answers, s, t, s')
    requires var pc := Top(s, t).pc; pc.WantRuntime? || pc.Test? || pc.WantMeta? || pc.WantInit? || (pc.Enter? && Top(s, t).cls !in super)
    ensures Inv(super, answers, s', act, q)
  {
    var n, c := |Stack(s, t)| - 1, Top(s, t).cls;
    assert FrameOk(super, s, act, t, n);
    var pc := Stack(s', t)[n].pc;
    if c in super && Ready(s, act, t, n, super[c]) { ReadyKept(s, act, s', act, t, n, super[c]); }
    Quiet(super, answers, s, act, q, t, pc, s');
  }

  /** The steps of an activation that finds the class initialized or being initialized. */
  lemma StepWaiting(super: Supers, answers: set<nat>, s: State, act: Active, q: seq<nat>, t: nat, s': State)
    requires Inv(super, answers, s, act, q) && Stack(s, t) != [] && FrameStep(super, answers, s, t, s') && (Top(s, t).pc.Leave? || Top(s, t).pc.Check?)
    ensures Inv(super, answers, s', act, q)
  {
    var n, c := |Stack(s, t)| - 1, Top(s, t).cls;
    assert FrameOk(super, s, act, t, n);
    if c in super { ReadyKept(s, act, s', act, t, n, super[c]); }
    ReadyKept(s, act, s', act, t, n, c);
    ReadyHas(super, answers, s, act, q, t, n, c);
    Quiet(super, answers, s, act, q, t, Stack(s', t)[n].pc, s');
  }

  /** The lock on the metaclass is given back. */
  lemma StepExit(super: Supers, answers: set<nat>, s: State, act: Active, q: seq<nat>, t: nat, pc: Pc, s': State)
    requires Inv(super, answers, s, act, q) && Stack(s, t) != [] && Top(s, t).pc.Exit? && (pc.Finished? || pc.Thrown?)
    requires s' == ExitSync(Goto(s, t, pc), Top(s, t).cls)
    ensures Inv(super, answers, s', act, q)
  {
    var n, c := |Stack(s, t)| - 1, Top(s, t).cls;
    assert FrameOk(super, s, act, t, n);
    if c in super { ReadyKept(s, act, s', act, t, n, super[c]); }
    ReadyKept(s, act, s', act, t, n, c);
    Quiet(super, answers, s, act, q, t, pc, s');
  }

  lemma StepWait(super: Supers, answers: set<nat>, s: State, act: Active, q: seq<nat>, t: nat, s': State)
    requires Inv(super, answers, s, act, q) && Stack(s, t) != [] && FrameStep(super, answers, s, t, s') && Top(s, t).pc.Wait?
    ensures Inv(super, answers, s', act, q)
  {
    var n, c := |Stack(s, t)| - 1, Top(s, t).cls;
    assert FrameOk(super, s, act, t, n);
    EnteredReady(super, answers, s, act, q, t, c);
    if c in super { ReadyKept(s, act, s', act, t, n, super[c]); }
    ReadyKept(s, act, s', act, t, n, c);
    Quiet(super, answers, s, act, q, t, Leave, s');
  }

  /** The steps in which tables are made, and the return from `+initialize`. */
  lemma StepMaking(super: Supers, answers: set<nat>, s: State, act: Active, q: seq<nat>, t: nat, s': State)
    requires Inv(super, answers, s, act, q) && Stack(s, t) != [] && FrameStep(super, answers, s, t, s')
    requires var pc := Top(s, t).pc; pc.Make? || pc.MakeMeta? || (pc.Running? && s' == Goto(s, t, Remove))
    ensures Inv(super, answers, s', act, q)
  {
    var n, c := |Stack(s, t)| - 1, Top(s, t).cls;
    assert FrameOk(super, s, act, t, n);
    if c in super {
      ReadyKept(s, act, s', act, t, n, super[c]);
      ReadyHas(super, answers, s, act, q, t, n, super[c]);
    }
    Quiet(super, answers, s, act, q, t, Stack(s', t)[n].pc, s');
  }

  // -- Steps that change which classes are initialized or being initialized --

  /** In a step that makes the innermost activation of `t` go to `pc`, another activation
      stays as it should be if the classes it relies on do. */
  lemma BesideFrame(super: Supers, answers: set<nat>, s: State, act: Active, q: seq<nat>, t: nat, pc: Pc, s': State, act': Active, c: nat, t': nat, k: nat)
    requires Inv(super, answers, s, act, q) && Moves(s, s', t, pc) && c == Top(s, t).cls && s.installed <= s'.installed && s.flags <= s'.flags
    requires forall x {:trigger x in act} :: x in act && x != c ==> x in act' && act'[x] == act[x]
    requires c in act ==> Cls(c) in s'.installed || (c in act' && act'[c] == act[c])
    requires forall x: nat {:trigger Cls(x) in s'.flags} :: Cls(x) in s'.flags ==> Cls(x) in s.flags || (x == c && s.runtime == Some(t))
    requires k < |Stack(s, t')| && (t' != t || k != |Stack(s, t)| - 1)
    requires c in act ==> act[c] == (t, |Stack(s, t)| - 1)
    ensures FrameOk(super, s', act', t', k)
  {
    assert FrameOk(super, s, act, t', k) && FrameOk(super, s, act, t, |Stack(s, t)| - 1);
    var f := Stack(s, t')[k];
    if f.cls in super && Ready(s, act, t', k, super[f.cls]) { ReadyKept(s, act, s', act', t', k, super[f.cls]); }
    if Ready(s, act, t', k, f.cls) { ReadyKept(s, act, s', act', t', k, f.cls); }
  }

  lemma NoSkip(s: State, t: nat, pc: Pc)
    requires Stack(s, t) != [] && !Top(s, t).skipMeta
    ensures Skip(Goto(s, t, pc), t, false).stacks == Goto(s, t, pc).stacks
  {
    var st := Stack(s, t);
    var st' := st[|st| - 1 := st[|st| - 1].(pc := pc)];
    assert st'[|st'| - 1 := st'[|st'| - 1].(skipMeta := false)] == st';
    assert s.stacks[t := st'][t := st'] == s.stacks[t := st'];
  }

  /** The flags are set: this activation becomes the one that initializes `c`. */
  lemma StepFlags(super: Supers, answers: set<nat>, s: State, act: Active, q: seq<nat>, t: nat, s': State) returns (act': Active)
    requires Inv(super, answers, s, act, q) && Stack(s, t) != [] && FrameStep(super, answers, s, t, s') && Top(s, t).pc.Retest?
    ensures Inv(super, answers, s', act', q)
  {
    var n, c := |Stack(s, t)| - 1, Top(s, t).cls;
    assert FrameOk(super, s, act, t, n) && FlagOk(s, act, c);
    act' := act[c := (t, n)];
    NoSkip(s, t, Make);
    if c in super { ReadyKept(s, act, s', act', t, n, super[c]); }
    forall t': nat, k: nat | k < |Stack(s', t')| ensures FrameOk(super, s', act', t', k) {
      if t' != t || k != n { BesideFrame(super, answers, s, act, q, t, Make, s', act', c, t', k); }
    }
    forall x | x in act' ensures ActOk(s', act', x) { if x != c { assert ActOk(s, act, x); } }
    forall x ensures FlagOk(s', act', x) { assert FlagOk(s, act, x); }
    forall t', x ensures SyncOk(s', t', x) { SyncMoved(super, answers, s, act, q, t, Make, s', t', x); }
    forall x ensures ListOk(s', act', q, x) && SentOk(answers, s', act', x) {
      assert ListOk(s, act, q, x) && SentOk(answers, s, act, x);
      if x in act { assert ActOk(s, act, x); }
    }
  }

  /** No `+initialize`: the tables are installed at once. */
  lemma StepInstall(super: Supers, answers: set<nat>, s: State, act: Active, q: seq<nat>, t: nat, s': State) returns (act': Active)
    requires Inv(super, answers, s, act, q) && Stack(s, t) != [] && Top(s, t).pc.Publish? && Top(s, t).cls !in answers
    requires var c := Top(s, t).cls; s' == Goto(s, t, Exit).(installed := s.installed + {Cls(c), Met(c)}, initLock := None)
    ensures Inv(super, answers, s', act', q)
  {
    var n, c := |Stack(s, t)| - 1, Top(s, t).cls;
    assert FrameOk(super, s, act, t, n) && ActOk(s, act, c);
    act' := act - {c};
    Installed(super, answers, s, act, q, t, s', act', c);
    forall x ensures ListOk(s', act', q, x) && SentOk(answers, s', act', x) {
      assert ListOk(s, act, q, x) && SentOk(answers, s, act, x) && FlagOk(s, act, x);
      if x in act { assert ActOk(s, act, x); }
    }
  }

  /** Activations, flags and locks when the tables of `c` get installed. */
  lemma Installed(super: Supers, answers: set<nat>, s: State, act: Active, q: seq<nat>, t: nat, s': State, act': Active, c: nat)
    requires Inv(super, answers, s, act, q) && Moves(s, s', t, Exit) && c == Top(s, t).cls && c in act && act[c] == (t, |Stack(s, t)| - 1)
    requires act' == act - {c} && s'.installed == s.installed + {Cls(c), Met(c)} && s'.flags == s.flags
    ensures forall t': nat, k: nat {:trigger FrameOk(super, s', act', t', k)} :: k < |Stack(s', t')| ==> FrameOk(super, s', act', t', k)
    ensures forall x {:trigger ActOk(s', act', x)} :: x in act' ==> ActOk(s', act', x)
    ensures forall x {:trigger FlagOk(s', act', x)} :: FlagOk(s', act', x)
    ensures forall t', x {:trigger SyncOk(s', t', x)} :: SyncOk(s', t', x)
  {
    var n := |Stack(s, t)| - 1;
    assert FrameOk(super, s, act, t, n) && ActOk(s, act, c);
    forall t': nat, k: nat | k < |Stack(s', t')| ensures FrameOk(super, s', act', t', k) {
      if t' != t || k != n {
        BesideFrame(super, answers, s, act, q, t, Exit, s', act', c, t', k);
      } else if c in super {
        ReadyKept(s, act, s', act', t, n, super[c]);
      }
    }
    forall x | x in act' ensures ActOk(s', act', x) { assert ActOk(s, act, x); }
    forall x ensures FlagOk(s', act', x) { assert FlagOk(s, act, x); }
    forall t', x ensures SyncOk(s', t', x) { SyncMoved(super, answers, s, act, q, t, Exit, s', t', x); }
  }

  /** `+initialize` is sent, with the tables on the look-aside list. */
  lemma StepSend(super: Supers, answers: set<nat>, s: State, act: Active, q: seq<nat>, t: nat, s': State)
    requires Inv(super, answers, s, act, q) && Stack(s, t) != [] && Top(s, t).pc.Publish? && Top(s, t).cls in answers
    requires var c := Top(s, t).cls; s' == Goto(s, t, Running).(temporary := [Met(c), Cls(c)] + s.temporary, initLock := None, sent := s.sent + [c])
    ensures Inv(super, answers, s', act, [Top(s, t).cls] + q)
  {
    var n, c := |Stack(s, t)| - 1, Top(s, t).cls;
    var q' := [c] + q;
    assert FrameOk(super, s, act, t, n) && ActOk(s, act, c) && ListOk(s, act, q, c) && SentOk(answers, s, act, c) && FlagOk(s, act, c);
    assert q'[1..] == q;
    forall t': nat, k: nat | k < |Stack(s', t')| ensures FrameOk(super, s', act, t', k) {
      if t' != t || k != n {
        BesideFrame(super, answers, s, act, q, t, Running, s', act, c, t', k);
      } else if c in super {
        ReadyKept(s, act, s', act, t, n, super[c]);
      }
    }
    forall x | x in act ensures ActOk(s', act, x) { assert ActOk(s, act, x); }
    forall x ensures FlagOk(s', act, x) { assert FlagOk(s, act, x); }
    forall t', x ensures SyncOk(s', t', x) { SyncMoved(super, answers, s, act, q, t, Running, s', t', x); }
    forall x ensures ListOk(s', act, q', x) && SentOk(answers, s', act, x) {
      assert ListOk(s, act, q, x) && SentOk(answers, s, act, x);
      if x in act { assert ActOk(s, act, x); }
    }
  }

  function Without(q: seq<nat>, c: nat): seq<nat> {
    if q == [] then [] else if q[0] == c then q[1..] else [q[0]] + Without(q[1..], c)
  }

  lemma {:induction false} WithoutOne(q: seq<nat>, c: nat)
    requires NoRepeats(q)
    ensures NoRepeats(Without(q, c)) && forall x :: x in Without(q, c) <==> x in q && x != c
    decreases |q|
  {
    if q != [] {
      var rest := q[1..];
      WithoutOne(rest, c);
      forall x ensures x in q <==> x == q[0] || x in rest { assert q == [q[0]] + rest; }
      forall i | 0 <= i < |rest| ensures rest[i] != q[0] { assert rest[i] == q[i + 1]; }
      if q[0] != c {
        var w := Without(rest, c);
        forall i | 0 <= i < |w| ensures w[i] != q[0] { assert w[i] in w; }
      }
    }
  }

  lemma UnlinkSkip(x: nat, c: nat, rest: seq<Obj>)
    ensures Unlink([Met(x), Cls(x)] + rest, c) == if x == c then rest else [Met(x), Cls(x)] + Unlink(rest, c)
  {
    var e := [Met(x), Cls(x)] + rest;
    assert e[2..] == rest && e[1..] == [Cls(x)] + rest && e[1..][1..] == rest;
  }

  /** `remove_dtable` takes out the two entries of the class and no others. */
  lemma {:induction false} UnlinkPair(q: seq<nat>, c: nat)
    ensures Unlink(Entries(q), c) == Entries(Without(q, c))
    decreases |q|
  {
    if q != [] {
      UnlinkPair(q[1..], c);
      UnlinkSkip(q[0], c, Entries(q[1..]));
      assert ([q[0]] + Without(q[1..], c))[1..] == Without(q[1..], c);
    }
  }

  /** `remove_dtable`. */
  lemma StepRemove(super: Supers, answers: set<nat>, s: State, act: Active, q: seq<nat>, t: nat, s': State) returns (act': Active, q': seq<nat>)
    requires Inv(super, answers, s, act, q) && Stack(s, t) != [] && FrameStep(super, answers, s, t, s') && Top(s, t).pc.Remove?
    ensures Inv(super, answers, s', act', q')
  {
    var n, c := |Stack(s, t)| - 1, Top(s, t).cls;
    assert FrameOk(super, s, act, t, n) && ActOk(s, act, c);
    act', q' := act - {c}, Without(q, c);
    UnlinkPair(q, c);
    WithoutOne(q, c);
    Installed(super, answers, s, act, q, t, s', act', c);
    forall x ensures ListOk(s', act', q', x) && SentOk(answers, s', act', x) {
      assert ListOk(s, act, q, x) && SentOk(answers, s, act, x) && FlagOk(s, act, x);
      if x in act { assert ActOk(s, act, x); }
    }
  }

  // -- Steps that begin or end an activation --

  /** A new activation on top of one that is running `+initialize`, awaits its superclass, or of none. */
  lemma StepPush(super: Supers, answers: set<nat>, s: State, act: Active, q: seq<nat>, t: nat, d: nat)
    requires Inv(super, answers, s, act, q)
    requires Stack(s, t) != [] ==> Top(s, t).pc.Running?
    ensures Inv(super, answers, Push(s, t, d), act, q)
  {
    var s' := Push(s, t, d);
    var st := Stack(s, t);
    assert Stack(s', t) == st + [Frame(d, Enter, false)];
    forall t': nat, k: nat | k < |Stack(s', t')| ensures FrameOk(super, s', act, t', k) {
      if t' != t || k < |st| {
        assert FrameOk(super, s, act, t', k);
        var f := Stack(s, t')[k];
        if f.cls in super && Ready(s, act, t', k, super[f.cls]) { ReadyKept(s, act, s', act, t', k, super[f.cls]); }
        if Ready(s, act, t', k, f.cls) { ReadyKept(s, act, s', act, t', k, f.cls); }
      }
    }
    Pushed(super, answers, s, act, q, t, s', st);
  }

  /** What does not depend on the new activation. */
  lemma Pushed(super: Supers, answers: set<nat>, s: State, act: Active, q: seq<nat>, t: nat, s': State, st: seq<Frame>)
    requires Inv(super, answers, s, act, q) && st == Stack(s, t)
    requires forall t' :: t' != t ==> Stack(s', t') == Stack(s, t')
    requires |Stack(s', t)| == |st| + 1 && Stack(s', t)[|st|].pc.Enter?
    requires forall k :: 0 <= k < |st| ==> Stack(s', t)[k] == st[k] || (st[k].pc.Enter? && Stack(s', t)[k].pc.AwaitSuper?)
    requires s' == s.(stacks := s'.stacks)
    ensures forall c {:trigger ActOk(s', act, c)} :: c in act ==> ActOk(s', act, c)
    ensures forall c {:trigger FlagOk(s', act, c)} :: FlagOk(s', act, c)
    ensures forall t', c {:trigger SyncOk(s', t', c)} :: SyncOk(s', t', c)
    ensures forall c {:trigger ListOk(s', act, q, c)} :: ListOk(s', act, q, c)
    ensures forall c {:trigger SentOk(answers, s', act, c)} :: SentOk(answers, s', act, c)
  {
    forall c | c in act ensures ActOk(s', act, c) { assert ActOk(s, act, c); }
    forall c ensures FlagOk(s', act, c) { assert FlagOk(s, act, c); }
    forall t', c ensures SyncOk(s', t', c) {
      assert SyncOk(s, t', c);
      if t' == t {
        var st' := Stack(s', t);
        assert st' == st'[..|st|] + [st'[|st|]];
        InsideSnoc(st'[..|st|], st'[|st|], c);
        InsideSame(st, st'[..|st|], c);
      }
    }
    forall c ensures ListOk(s', act, q, c) && SentOk(answers, s', act, c) {
      assert ListOk(s, act, q, c) && SentOk(answers, s, act, c);
      if c in act { assert ActOk(s, act, c); }
    }
  }

  lemma {:induction false} InsideSame(st: seq<Frame>, st': seq<Frame>, c: nat)
    requires |st'| == |st|
    requires forall k :: 0 <= k < |st| ==> st'[k] == st[k] || (!HoldsSync(st[k].pc) && !HoldsSync(st'[k].pc))
    ensures Inside(st', c) == Inside(st, c)
    decreases |st|
  {
    if st != [] { InsideSame(st[..|st| - 1], st'[..|st'| - 1], c); }
  }

  /** The superclass comes first. */
  lemma StepSuper(super: Supers, answers: set<nat>, s: State, act: Active, q: seq<nat>, t: nat, s': State)
    requires Inv(super, answers, s, act, q) && Stack(s, t) != [] && FrameStep(super, answers, s, t, s') && Top(s, t).pc.Enter? && Top(s, t).cls in super
    ensures Inv(super, answers, s', act, q)
  {
    var st, n, c := Stack(s, t), |Stack(s, t)| - 1, Top(s, t).cls;
    assert FrameOk(super, s, act, t, n);
    assert Stack(s', t) == st[n := st[n].(pc := AwaitSuper)] + [Frame(super[c], Enter, false)];
    forall t': nat, k: nat | k < |Stack(s', t')| ensures FrameOk(super, s', act, t', k) {
      if t' != t || k < n {
        assert FrameOk(super, s, act, t', k);
        var f := Stack(s, t')[k];
        if f.cls in super && Ready(s, act, t', k, super[f.cls]) { ReadyKept(s, act, s', act, t', k, super[f.cls]); }
        if Ready(s, act, t', k, f.cls) { ReadyKept(s, act, s', act, t', k, f.cls); }
      }
    }
    Pushed(super, answers, s, act, q, t, s', st);
  }

  lemma PopFrame(super: Supers, answers: set<nat>, s: State, act: Active, q: seq<nat>, t: nat, pc: Pc, t': nat, k: nat)
    requires Inv(super, answers, s, act, q) && Stack(s, t) != [] && k < |Stack(Pop(s, t, pc), t')|
    requires (pc.WantRuntime? && Top(s, t).pc.Finished?) || (pc.Thrown? && Top(s, t).pc.Thrown?)
    ensures FrameOk(super, Pop(s, t, pc), act, t', k)
  {
    var s' := Pop(s, t, pc);
    var n := |Stack(s, t)| - 1;
    assert FrameOk(super, s, act, t', k) && FrameOk(super, s, act, t, n);
    var f := Stack(s, t')[k];
    if f.cls in super && Ready(s, act, t', k, super[f.cls]) { ReadyKept(s, act, s', act, t', k, super[f.cls]); }
    if Ready(s, act, t', k, f.cls) { ReadyKept(s, act, s', act, t', k, f.cls); }
    if t' == t && k == n - 1 && pc.WantRuntime? && f.pc.AwaitSuper? {
      assert Ready(s, act, t, n, super[f.cls]);
    }
  }

  /** An activation ends; one that awaited it goes on, or is unwound with it. */
  lemma StepPop(super: Supers, answers: set<nat>, s: State, act: Active, q: seq<nat>, t: nat, pc: Pc)
    requires Inv(super, answers, s, act, q) && Stack(s, t) != []
    requires (pc.WantRuntime? && Top(s, t).pc.Finished?) || (pc.Thrown? && Top(s, t).pc.Thrown?)
    ensures Inv(super, answers, Pop(s, t, pc), act, q)
  {
    var s' := Pop(s, t, pc);
    forall t': nat, k: nat | k < |Stack(s', t')| ensures FrameOk(super, s', act, t', k) { PopFrame(super, answers, s, act, q, t, pc, t', k); }
    forall c | c in act ensures ActOk(s', act, c) { assert ActOk(s, act, c); }
    forall c ensures FlagOk(s', act, c) { assert FlagOk(s, act, c); }
    forall t', c ensures SyncOk(s', t', c) { PopSync(super, answers, s, act, q, t, pc, t', c); }
    forall c ensures ListOk(s', act, q, c) && SentOk(answers, s', act, c) {
      assert ListOk(s, act, q, c) && SentOk(answers, s, act, c);
      if c in act { assert ActOk(s, act, c); }
    }
  }

  lemma PopSync(super: Supers, answers: set<nat>, s: State, act: Active, q: seq<nat>, t: nat, pc: Pc, t': nat, c: nat)
    requires Inv(super, answers, s, act, q) && Stack(s, t) != []
    requires (pc.WantRuntime? && Top(s, t).pc.Finished?) || (pc.Thrown? && Top(s, t).pc.Thrown?)
    ensures SyncOk(Pop(s, t, pc), t', c)
  {
    var st, n := Stack(s, t), |Stack(s, t)| - 1;
    assert SyncOk(s, t', c);
    if t' == t {
      assert st == st[..n] + [st[n]];
      InsideSnoc(st[..n], st[n], c);
      InsideSame(st[..n], Stack(Pop(s, t, pc), t), c);
    }
  }

  /** Every step of every thread keeps the invariant. */
  lemma StepKeeps(super: Supers, answers: set<nat>, s: State, act: Active, q: seq<nat>, t: nat, s': State) returns (act': Active, q': seq<nat>)
    requires Inv(super, answers, s, act, q) && Step(super, answers, s, t, s')
    ensures Inv(super, answers, s', act', q')
  {
    act', q' := act, q;
    if Stack(s, t) == [] {
      var d :| s' == Push(s, t, d);
      StepPush(super, answers, s, act, q, t, d);
      return;
    }
    assert FrameOk(super, s, act, t, |Stack(s, t)| - 1);
    var c := Top(s, t).cls;
    match Top(s, t).pc
    case Enter => if c in super { StepSuper(super, answers, s, act, q, t, s'); } else { StepBefore(super, answers, s, act, q, t, s'); }
    case WantRuntime => StepBefore(super, answers, s, act, q, t, s');
    case Test => StepBefore(super, answers, s, act, q, t, s');
    case WantMeta => StepBefore(super, answers, s, act, q, t, s');
    case WantInit => StepBefore(super, answers, s, act, q, t, s');
    case Wait => StepWait(super, answers, s, act, q, t, s');
    case Leave => StepWaiting(super, answers, s, act, q, t, s');
    case Check => StepWaiting(super, answers, s, act, q, t, s');
    case Retest => act' := StepFlags(super, answers, s, act, q, t, s');
    case Make => StepMaking(super, answers, s, act, q, t, s');
    case MakeMeta => StepMaking(super, answers, s, act, q, t, s');
    case Publish =>
      if c !in answers {
        act' := StepInstall(super, answers, s, act, q, t, s');
      } else {
        StepSend(super, answers, s, act, q, t, s');
        q' := [c] + q;
      }
    case Running =>
      if s' == Goto(s, t, Remove) {
        StepMaking(super, answers, s, act, q, t, s');
      } else {
        var d :| s' == Push(s, t, d);
        StepPush(super, answers, s, act, q, t, d);
      }
    case Remove => act', q' := StepRemove(super, answers, s, act, q, t, s');
    case Exit =>
      StepExit(super, answers, s, act, q, t, Stack(s', t)[|Stack(s, t)| - 1].pc, s');
    case Finished => StepPop(super, answers, s, act, q, t, WantRuntime);
    case Thrown => StepPop(super, answers, s, act, q, t, Thrown);
  }

  // -- What holds in every run --

  /** The threads `ts` take one step each, from the initial state. */
  ghost predicate Run(super: Supers, answers: set<nat>, states: seq<State>, ts: seq<nat>) {
    && |states| == |ts| + 1 && Initial(states[0])
    && forall i {:trigger ts[i]} :: 0 <= i < |ts| ==> Step(super, answers, states[i], ts[i], states[i + 1])
  }

  lemma {:induction false} RunInv(super: Supers, answers: set<nat>, states: seq<State>, ts: seq<nat>, i: nat) returns (act: Active, q: seq<nat>)
    requires Run(super, answers, states, ts) && i < |states|
    ensures Inv(super, answers, states[i], act, q)
    decreases i
  {
    if i == 0 {
      act, q := map[], [];
      forall t, c ensures SyncOk(states[0], t, c) { }
    } else {
      act, q := RunInv(super, answers, states, ts, i - 1);
      act, q := StepKeeps(super, answers, states[i - 1], act, q, ts[i - 1], states[i]);
    }
  }

  /** Where thread `t` is about to make tables, those of the superclass are there; where it is about to
      assert that its class has a table, it has one. */
  ghost predicate Supplied(super: Supers, s: State, t: nat) {
    Stack(s, t) != [] ==>
      var c := Top(s, t).cls;
      match Top(s, t).pc
      case Make | MakeMeta => c in super ==> Has(s, Cls(super[c])) && Has(s, Met(super[c]))
      case Check => Has(s, Cls(c))
      case _ => true
  }

  /** The assertion of `objc_send_initialize` never fails and `create_dtable_for_class` never aborts. */
  lemma NeverFails(super: Supers, answers: set<nat>, states: seq<State>, ts: seq<nat>, i: nat)
    requires Run(super, answers, states, ts) && i < |states|
    ensures !states[i].failed && forall t :: Supplied(super, states[i], t)
  {
    var s := states[i];
    var act, q := RunInv(super, answers, states, ts, i);
    forall t | Stack(s, t) != [] ensures Supplied(super, s, t) {
      var k, c := |Stack(s, t)| - 1, Top(s, t).cls;
      assert FrameOk(super, s, act, t, k);
      if c in super && Ready(s, act, t, k, super[c]) { ReadyHas(super, answers, s, act, q, t, k, super[c]); }
      if Ready(s, act, t, k, c) { ReadyHas(super, answers, s, act, q, t, k, c); }
    }
  }

  /** No class is sent `+initialize` twice. */
  lemma SentOnce(super: Supers, answers: set<nat>, states: seq<State>, ts: seq<nat>, i: nat)
    requires Run(super, answers, states, ts) && i < |states|
    ensures NoRepeats(states[i].sent)
  {
    var act, q := RunInv(super, answers, states, ts, i);
  }

  /** By the time its tables are installed, a class has been sent `+initialize` exactly if its metaclass
      answers it. */
  lemma SentExact(super: Supers, answers: set<nat>, states: seq<State>, ts: seq<nat>, i: nat, c: nat)
    requires Run(super, answers, states, ts) && i < |states|
    ensures Cls(c) in states[i].installed ==> (c in states[i].sent <==> c in answers)
    ensures c in states[i].sent ==> c in answers
  {
    var act, q := RunInv(super, answers, states, ts, i);
    assert SentOk(answers, states[i], act, c);
  }

  /** `x` is initialized, or activation `j` of thread `t`, further out than `k`, is running its `+initialize`. */
  ghost predicate Settled(s: State, t: nat, k: nat, x: nat) {
    || (Cls(x) in s.installed && Met(x) in s.installed)
    || exists j :: 0 <= j < k && j < |Stack(s, t)| && Stack(s, t)[j].cls == x && Stack(s, t)[j].pc.Running?
  }

  lemma ReadySettled(super: Supers, answers: set<nat>, s: State, act: Active, q: seq<nat>, t: nat, k: nat, x: nat)
    requires Inv(super, answers, s, act, q) && Ready(s, act, t, k, x)
    ensures Settled(s, t, k, x)
  {
    assert FlagOk(s, act, x);
    if x in act { assert ActOk(s, act, x); }
  }

  /** `+initialize` is sent only when the superclass is initialized, or the same thread is
      itself inside the superclass's `+initialize`. */
  lemma SuperclassFirst(super: Supers, answers: set<nat>, states: seq<State>, ts: seq<nat>, i: nat, c: nat)
    requires Run(super, answers, states, ts) && i < |ts| && states[i + 1].sent == states[i].sent + [c] && c in super
    ensures Stack(states[i], ts[i]) != [] && Settled(states[i], ts[i], |Stack(states[i], ts[i])| - 1, super[c])
  {
    var s, t := states[i], ts[i];
    var act, q := RunInv(super, answers, states, ts, i);
    assert Step(super, answers, s, t, states[i + 1]);
    assert states[i + 1].sent[|s.sent|] == c;
    assert Top(s, t).pc.Publish? && Top(s, t).cls == c;
    assert FrameOk(super, s, act, t, |Stack(s, t)| - 1);
    ReadySettled(super, answers, s, act, q, t, |Stack(s, t)| - 1, super[c]);
  }

  /** `objc_send_initialize` returns only when the class is initialized, or the same thread
      is itself inside its `+initialize`. */
  lemma ReturnsSettled(super: Supers, answers: set<nat>, states: seq<State>, ts: seq<nat>, i: nat, t: nat)
    requires Run(super, answers, states, ts) && i < |states| && Stack(states[i], t) != [] && Top(states[i], t).pc.Finished?
    ensures Settled(states[i], t, |Stack(states[i], t)| - 1, Top(states[i], t).cls)
  {
    var s := states[i];
    var act, q := RunInv(super, answers, states, ts, i);
    assert FrameOk(super, s, act, t, |Stack(s, t)| - 1);
    ReadySettled(super, answers, s, act, q, t, |Stack(s, t)| - 1, Top(s, t).cls);
  }

  /** At any moment one activation at most is initializing a class. */
  lemma OneInitializer(super: Supers, answers: set<nat>, states: seq<State>, ts: seq<nat>, i: nat, t: nat, k: nat, t': nat, k': nat)
    requires Run(super, answers, states, ts) && i < |states| && k < |Stack(states[i], t)| && k' < |Stack(states[i], t')|
    requires Initializing(Stack(states[i], t)[k].pc) && Initializing(Stack(states[i], t')[k'].pc)
    requires Stack(states[i], t)[k].cls == Stack(states[i], t')[k'].cls
    ensures t == t' && k == k'
  {
    var act, q := RunInv(super, answers, states, ts, i);
    assert FrameOk(super, states[i], act, t, k) && FrameOk(super, states[i], act, t', k');
  }

  /** An activation of some thread is calling `+initialize` of `c`. */
  ghost predicate Called(s: State, c: nat) {
    exists t: nat, k: nat {:trigger Stack(s, t)[k]} :: k < |Stack(s, t)| && Stack(s, t)[k].cls == c && (Stack(s, t)[k].pc.Running? || Stack(s, t)[k].pc.Remove?)
  }

  /** `temporary_dtables` holds one metaclass and class pair for each class whose
      `+initialize` is being called, and nothing else; none of them is installed. */
  lemma TemporaryExact(super: Supers, answers: set<nat>, states: seq<State>, ts: seq<nat>, i: nat) returns (q: seq<nat>)
    requires Run(super, answers, states, ts) && i < |states|
    ensures states[i].temporary == Entries(q) && NoRepeats(q)
    ensures forall c :: c in q <==> Called(states[i], c)
    ensures forall c :: c in q ==> Cls(c) !in states[i].installed && Met(c) !in states[i].installed
  {
    var s := states[i];
    var act;
    act, q := RunInv(super, answers, states, ts, i);
    forall c ensures c in q <==> Called(s, c) {
      assert ListOk(s, act, q, c);
      if Called(s, c) {
        var t: nat, k: nat :| k < |Stack(s, t)| && Stack(s, t)[k].cls == c && (Stack(s, t)[k].pc.Running? || Stack(s, t)[k].pc.Remove?);
        assert FrameOk(super, s, act, t, k);
      }
      if c in q {
        assert ActOk(s, act, c);
      }
    }
    forall c | c in q ensures Cls(c) !in s.installed && Met(c) !in s.installed {
      assert ListOk(s, act, q, c) && ActOk(s, act, c) && FlagOk(s, act, c);
    }
  }

  /** The second test of the flag never finds it set, and the metaclass is never skipped. */
  lemma SecondTestFails(super: Supers, answers: set<nat>, states: seq<State>, ts: seq<nat>, i: nat, t: nat)
    requires Run(super, answers, states, ts) && i < |states| && Stack(states[i], t) != []
    ensures Top(states[i], t).pc.Retest? ==> Cls(Top(states[i], t).cls) !in states[i].flags && Met(Top(states[i], t).cls) !in states[i].flags
    ensures !Top(states[i], t).skipMeta
  {
    var act, q := RunInv(super, answers, states, ts, i);
    assert FrameOk(super, states[i], act, t, |Stack(states[i], t)| - 1) && FlagOk(states[i], act, Top(states[i], t).cls);
  }
}
