/** What the threads of the `+initialize` protocol can do: exactly the locks hold them up, and a
    thread that is left alone completes its call. */
module Completing {
  import opened Basics
  import opened Protocol

  /** The innermost activation waits for a lock that is taken. */
  predicate Blocked(s: State, t: nat) {
    Stack(s, t) != [] &&
      match Top(s, t).pc
      case WantRuntime => s.runtime != None
      case Wait => !CanEnter(s, t, Top(s, t).cls)
      case WantMeta => !CanEnter(s, t, Top(s, t).cls)
      case WantInit => s.initLock != None
      case Remove => s.initLock != None
      case _ => false
  }

  /** The next state when `+initialize` returns at once and nothing throws. */
  function Next(super: Supers, answers: set<nat>, s: State, t: nat): State
    requires Stack(s, t) != []
  {
    var c := Top(s, t).cls;
    match Top(s, t).pc
    case Enter => if c in super then Push(Goto(s, t, AwaitSuper), t, super[c]) else Goto(s, t, WantRuntime)
    case AwaitSuper => s
    case WantRuntime => Goto(s, t, Test).(runtime := Some(t))
    case Test => if Cls(c) in s.flags then Goto(s, t, Wait).(runtime := None) else Goto(s, t, WantMeta)
    case Wait => EnterSync(Goto(s, t, Leave), t, c)
    case Leave => ExitSync(Goto(s, t, Check), c)
    case Check => Goto(s, t, Finished).(failed := s.failed || !Has(s, Cls(c)))
    case WantMeta => EnterSync(Goto(s, t, WantInit), t, c)
    case WantInit => Goto(s, t, Retest).(initLock := Some(t))
    case Retest =>
      if Cls(c) in s.flags then Goto(s, t, Exit).(initLock := None, runtime := None)
      else Skip(Goto(s, t, Make), t, Met(c) in s.flags).(flags := s.flags + {Cls(c), Met(c)})
    case Make => Goto(s, t, MakeMeta).(failed := s.failed || (c in super && !Has(s, Cls(super[c]))))
    case MakeMeta =>
      Goto(s, t, Publish).(runtime := None, failed := s.failed || (!Top(s, t).skipMeta && c in super && !Has(s, Met(super[c]))))
    case Publish =>
      if Top(s, t).skipMeta then Goto(s, t, Exit).(installed := s.installed + {Cls(c)}, initLock := None)
      else if c !in answers then Goto(s, t, Exit).(installed := s.installed + {Cls(c), Met(c)}, initLock := None)
      else Goto(s, t, Running).(temporary := [Met(c), Cls(c)] + s.temporary, initLock := None, sent := s.sent + [c])
    case Running => Goto(s, t, Remove)
    case Remove => Goto(s, t, Exit).(installed := s.installed + {Cls(c), Met(c)}, temporary := Unlink(s.temporary, c))
    case Exit => ExitSync(Goto(s, t, Finished), c)
    case Finished => Pop(s, t, WantRuntime)
    case Thrown => Pop(s, t, Thrown)
  }

  lemma NextSteps(super: Supers, answers: set<nat>, s: State, t: nat)
    requires Stack(s, t) != [] && !Top(s, t).pc.AwaitSuper? && !Blocked(s, t)
    ensures Step(super, answers, s, t, Next(super, answers, s, t))
  {
  }

  /** In every run, a thread can take a step exactly when it does not wait for a lock. */
  lemma StepExact(super: Supers, answers: set<nat>, states: seq<State>, ts: seq<nat>, i: nat, t: nat)
    requires Run(super, answers, states, ts) && i < |states|
    ensures (exists s' :: Step(super, answers, states[i], t, s')) <==> !Blocked(states[i], t)
  {
    var s := states[i];
    var act, q := RunInv(super, answers, states, ts, i);
    if Stack(s, t) == [] {
      assert Step(super, answers, s, t, Push(s, t, 0));
    } else {
      assert FrameOk(super, s, act, t, |Stack(s, t)| - 1);
      if !Blocked(s, t) { NextSteps(super, answers, s, t); }
    }
  }

  /** Thread `t` takes these steps, and no other thread any. */
  ghost predicate Solo(super: Supers, answers: set<nat>, t: nat, states: seq<State>) {
    states != [] && forall i {:trigger states[i]} :: 0 <= i < |states| - 1 ==> Step(super, answers, states[i], t, states[i + 1])
  }

  lemma SoloMore(super: Supers, answers: set<nat>, t: nat, states: seq<State>, s': State)
    requires Solo(super, answers, t, states) && Step(super, answers, states[|states| - 1], t, s')
    ensures Solo(super, answers, t, states + [s'])
  {
    hide Step;
    var states' := states + [s'];
    forall i {:trigger states'[i]} | 0 <= i < |states'| - 1 ensures Step(super, answers, states'[i], t, states'[i + 1]) {
      if i < |states| - 1 { assert states[i] == states'[i] && states[i + 1] == states'[i + 1]; }
    }
  }

  lemma SoloJoin(super: Supers, answers: set<nat>, t: nat, states: seq<State>, more: seq<State>)
    requires Solo(super, answers, t, states) && Solo(super, answers, t, more) && states[|states| - 1] == more[0]
    ensures Solo(super, answers, t, states + more[1..])
  {
    hide Step;
    var all, n := states + more[1..], |states| - 1;
    forall i {:trigger all[i]} | 0 <= i < |all| - 1 ensures Step(super, answers, all[i], t, all[i + 1]) {
      if i < n { assert states[i] == all[i] && states[i + 1] == all[i + 1]; } else { assert more[i - n] == all[i] && more[i - n + 1] == all[i + 1]; }
    }
  }

  /** The metaclass locks once `t` has entered that of `c`. */
  function Entered(sync: map<nat, (nat, nat)>, t: nat, c: nat): map<nat, (nat, nat)> {
    sync[c := (t, if c in sync then sync[c].1 + 1 else 1)]
  }

  /** No other thread holds a lock: the activation of `t` for `c`, within the activations `outer`, has
      what it needs where it is.  `sync` is the metaclass locks from outside it. */
  ghost predicate Alone(s: State, t: nat, outer: seq<Frame>, c: nat, sync: map<nat, (nat, nat)>) {
    && Stack(s, t) != [] && Stack(s, t) == outer + [Frame(c, Top(s, t).pc, false)]
    && s.runtime == (if HoldsRuntime(Top(s, t).pc) then Some(t) else None)
    && s.initLock == (if HoldsInit(Top(s, t).pc) then Some(t) else None)
    && s.sync == (if HoldsSync(Top(s, t).pc) then Entered(sync, t, c) else sync)
    && forall x {:trigger x in sync} :: x in sync ==> sync[x].0 == t && sync[x].1 >= 1
  }

  /** How many steps are left from `pc`. */
  function Left(pc: Pc): nat {
    match pc
    case WantRuntime => 12
    case Test => 11
    case WantMeta => 10
    case WantInit => 9
    case Retest => 8
    case Make => 7
    case MakeMeta => 6
    case Publish => 5
    case Running => 4
    case Remove => 3
    case Exit => 2
    case Wait => 4
    case Leave => 3
    case Check => 2
    case _ => 0
  }

  lemma GotoStack(s: State, t: nat, outer: seq<Frame>, c: nat, pc: Pc)
    requires Stack(s, t) != [] && Stack(s, t) == outer + [Frame(c, Top(s, t).pc, false)]
    ensures Stack(Goto(s, t, pc), t) == outer + [Frame(c, pc, false)]
  {
  }

  lemma SyncBack(sync: map<nat, (nat, nat)>, t: nat, c: nat, s: State)
    requires s.sync == Entered(sync, t, c) && (c in sync ==> sync[c].0 == t && sync[c].1 >= 1)
    ensures ExitSync(s, c).sync == sync
  {
    if c in sync {
      assert sync[c := (t, sync[c].1 + 1)][c := (t, sync[c].1)] == sync;
    } else {
      assert sync[c := (t, 1)] - {c} == sync;
    }
  }

  /** The same activation, nearer to its end. */
  ghost predicate Closer(s: State, t: nat, outer: seq<Frame>, c: nat, sync: map<nat, (nat, nat)>, was: Pc) {
    Alone(s, t, outer, c, sync) && Left(Top(s, t).pc) < Left(was) && (Left(Top(s, t).pc) > 0 || Top(s, t).pc.Finished?)
  }

  lemma AloneAt(s: State, s': State, t: nat, outer: seq<Frame>, c: nat, sync: map<nat, (nat, nat)>, pc: Pc)
    requires Alone(s, t, outer, c, sync) && s'.stacks == Goto(s, t, pc).stacks
    requires s'.runtime == (if HoldsRuntime(pc) then Some(t) else None) && s'.initLock == (if HoldsInit(pc) then Some(t) else None)
    requires s'.sync == (if HoldsSync(pc) then Entered(sync, t, c) else sync)
    requires Left(pc) < Left(Top(s, t).pc) && (Left(pc) > 0 || pc.Finished?)
    ensures Closer(s', t, outer, c, sync, Top(s, t).pc)
  {
    GotoStack(s, t, outer, c, pc);
    assert Stack(s', t) == Stack(Goto(s, t, pc), t);
  }

  lemma NextTest(super: Supers, answers: set<nat>, s: State, act: Active, q: seq<nat>, t: nat, outer: seq<Frame>, c: nat, sync: map<nat, (nat, nat)>)
    requires Inv(super, answers, s, act, q) && Alone(s, t, outer, c, sync)
    requires var pc := Top(s, t).pc; pc.WantRuntime? || pc.Test? || pc.WantMeta? || pc.WantInit?
    ensures !Blocked(s, t) && Closer(Next(super, answers, s, t), t, outer, c, sync, Top(s, t).pc)
  {
    var s', pc := Next(super, answers, s, t), Top(s, t).pc;
    hide Inv, Closer;
    var pc' := if pc.WantRuntime? then Test else if pc.Test? then (if Cls(c) in s.flags then Wait else WantMeta) else if pc.WantMeta? then WantInit else Retest;
    AloneAt(s, s', t, outer, c, sync, pc');
  }

  lemma NextRetest(super: Supers, answers: set<nat>, s: State, act: Active, q: seq<nat>, t: nat, outer: seq<Frame>, c: nat, sync: map<nat, (nat, nat)>)
    requires Inv(super, answers, s, act, q) && Alone(s, t, outer, c, sync)
    requires var pc := Top(s, t).pc; pc.Retest?
    ensures !Blocked(s, t) && Closer(Next(super, answers, s, t), t, outer, c, sync, Top(s, t).pc)
  {
    assert FrameOk(super, s, act, t, |Stack(s, t)| - 1) && FlagOk(s, act, c);
    hide Inv, Closer, FrameOk, FlagOk;
    NoSkip(s, t, Make);
    AloneAt(s, Next(super, answers, s, t), t, outer, c, sync, Make);
  }

  lemma NextMake(super: Supers, answers: set<nat>, s: State, act: Active, q: seq<nat>, t: nat, outer: seq<Frame>, c: nat, sync: map<nat, (nat, nat)>)
    requires Inv(super, answers, s, act, q) && Alone(s, t, outer, c, sync)
    requires var pc := Top(s, t).pc; pc.Make? || pc.MakeMeta? || pc.Publish? || pc.Running? || pc.Remove?
    ensures !Blocked(s, t) && Closer(Next(super, answers, s, t), t, outer, c, sync, Top(s, t).pc)
  {
    var s', pc := Next(super, answers, s, t), Top(s, t).pc;
    hide Inv, Closer;
    var pc' := if pc.Make? then MakeMeta else if pc.MakeMeta? then Publish else if pc.Publish? then (if c in answers then Running else Exit) else if pc.Running? then Remove else Exit;
    AloneAt(s, s', t, outer, c, sync, pc');
  }

  lemma NextLeave(super: Supers, answers: set<nat>, s: State, act: Active, q: seq<nat>, t: nat, outer: seq<Frame>, c: nat, sync: map<nat, (nat, nat)>)
    requires Inv(super, answers, s, act, q) && Alone(s, t, outer, c, sync)
    requires var pc := Top(s, t).pc; pc.Wait? || pc.Leave? || pc.Check? || pc.Exit?
    ensures !Blocked(s, t) && Closer(Next(super, answers, s, t), t, outer, c, sync, Top(s, t).pc)
  {
    var s', pc := Next(super, answers, s, t), Top(s, t).pc;
    hide Inv, Closer;
    if HoldsSync(pc) { SyncBack(sync, t, c, s); }
    var pc' := if pc.Wait? then Leave else if pc.Leave? then Check else Finished;
    AloneAt(s, s', t, outer, c, sync, pc');
  }

  /** Left alone, an activation is not held up, and comes closer to its end. */
  lemma AloneNext(super: Supers, answers: set<nat>, s: State, act: Active, q: seq<nat>, t: nat, outer: seq<Frame>, c: nat, sync: map<nat, (nat, nat)>)
    requires Inv(super, answers, s, act, q) && Alone(s, t, outer, c, sync) && Left(Top(s, t).pc) > 0
    ensures !Blocked(s, t) && Closer(Next(super, answers, s, t), t, outer, c, sync, Top(s, t).pc)
  {
    assert Stack(s, t) != [];
    hide *;
    match Top(s, t).pc
    case WantRuntime => NextTest(super, answers, s, act, q, t, outer, c, sync);
    case Test => NextTest(super, answers, s, act, q, t, outer, c, sync);
    case WantMeta => NextTest(super, answers, s, act, q, t, outer, c, sync);
    case WantInit => NextTest(super, answers, s, act, q, t, outer, c, sync);
    case Retest => NextRetest(super, answers, s, act, q, t, outer, c, sync);
    case Wait => NextLeave(super, answers, s, act, q, t, outer, c, sync);
    case Leave => NextLeave(super, answers, s, act, q, t, outer, c, sync);
    case Check => NextLeave(super, answers, s, act, q, t, outer, c, sync);
    case Exit => NextLeave(super, answers, s, act, q, t, outer, c, sync);
    case Enter => NoneLeft(Enter);
    case AwaitSuper => NoneLeft(AwaitSuper);
    case Finished => NoneLeft(Finished);
    case Thrown => NoneLeft(Thrown);
    case _ => NextMake(super, answers, s, act, q, t, outer, c, sync);
  }

  lemma NoneLeft(pc: Pc)
    requires pc.Enter? || pc.AwaitSuper? || pc.Finished? || pc.Thrown?
    ensures Left(pc) == 0
  {
  }

  /** So it finishes. */
  lemma {:induction false} Finishes(super: Supers, answers: set<nat>, s: State, act: Active, q: seq<nat>, t: nat, outer: seq<Frame>, c: nat, sync: map<nat, (nat, nat)>)
    returns (states: seq<State>, act': Active, q': seq<nat>)
    requires Inv(super, answers, s, act, q) && Alone(s, t, outer, c, sync) && (Left(Top(s, t).pc) > 0 || Top(s, t).pc.Finished?)
    ensures Solo(super, answers, t, states) && states[0] == s
    ensures var e := states[|states| - 1]; Inv(super, answers, e, act', q') && Alone(e, t, outer, c, sync) && Top(e, t).pc.Finished?
    decreases Left(Top(s, t).pc)
  {
    if Top(s, t).pc.Finished? {
      return [s], act, q;
    }
    var s' := Next(super, answers, s, t);
    AloneNext(super, answers, s, act, q, t, outer, c, sync);
    NextSteps(super, answers, s, t);
    var act1, q1 := StepKeeps(super, answers, s, act, q, t, s');
    var more;
    more, act', q' := Finishes(super, answers, s', act1, q1, t, outer, c, sync);
    SoloMore(super, answers, t, [s], s');
    SoloJoin(super, answers, t, [s, s'], more);
    states := [s, s'] + more[1..];
    assert states[|states| - 1] == more[|more| - 1];
  }

  /** Superclass chains end. */
  ghost predicate Acyclic(super: Supers, rank: map<nat, nat>) {
    forall c {:trigger super[c]} :: c in super ==> c in rank && super[c] in rank && rank[super[c]] < rank[c]
  }

  /** The activation has begun. */
  lemma Begun(super: Supers, answers: set<nat>, s: State, act: Active, q: seq<nat>, t: nat, outer: seq<Frame>, c: nat, sync: map<nat, (nat, nat)>)
    returns (s': State, act': Active, q': seq<nat>)
    requires Inv(super, answers, s, act, q) && Alone(s, t, outer, c, sync) && Top(s, t).pc.Enter? && c !in super
    ensures Step(super, answers, s, t, s') && Inv(super, answers, s', act', q') && Alone(s', t, outer, c, sync) && Top(s', t).pc.WantRuntime?
  {
    s' := Goto(s, t, WantRuntime);
    GotoStack(s, t, outer, c, WantRuntime);
    act', q' := StepKeeps(super, answers, s, act, q, t, s');
  }

  /** The superclass's turn begins. */
  lemma Descended(super: Supers, answers: set<nat>, s: State, act: Active, q: seq<nat>, t: nat, outer: seq<Frame>, c: nat, sync: map<nat, (nat, nat)>)
    returns (s': State, act': Active, q': seq<nat>)
    requires Inv(super, answers, s, act, q) && Alone(s, t, outer, c, sync) && Top(s, t).pc.Enter? && c in super
    ensures Step(super, answers, s, t, s') && Inv(super, answers, s', act', q')
    ensures Alone(s', t, outer + [Frame(c, AwaitSuper, false)], super[c], sync) && Top(s', t).pc.Enter?
  {
    s' := Push(Goto(s, t, AwaitSuper), t, super[c]);
    GotoStack(s, t, outer, c, AwaitSuper);
    act', q' := StepKeeps(super, answers, s, act, q, t, s');
  }

  /** The superclass's turn is over. */
  lemma Returned(super: Supers, answers: set<nat>, s: State, act: Active, q: seq<nat>, t: nat, outer: seq<Frame>, c: nat, d: nat, sync: map<nat, (nat, nat)>)
    returns (s': State, act': Active, q': seq<nat>)
    requires Inv(super, answers, s, act, q) && Alone(s, t, outer + [Frame(c, AwaitSuper, false)], d, sync) && Top(s, t).pc.Finished?
    ensures Step(super, answers, s, t, s') && Inv(super, answers, s', act', q') && Alone(s', t, outer, c, sync) && Top(s', t).pc.WantRuntime?
  {
    s' := Pop(s, t, WantRuntime);
    assert Stack(s, t)[..|Stack(s, t)| - 1] == outer + [Frame(c, AwaitSuper, false)];
    assert Stack(s', t) == outer + [Frame(c, WantRuntime, false)];
    act', q' := StepKeeps(super, answers, s, act, q, t, s');
  }

  lemma Prepend(super: Supers, answers: set<nat>, t: nat, s: State, states: seq<State>)
    requires Solo(super, answers, t, states) && Step(super, answers, s, t, states[0])
    ensures Solo(super, answers, t, [s] + states)
  {
    hide Step;
    SoloMore(super, answers, t, [s], states[0]);
    SoloJoin(super, answers, t, [s, states[0]], states);
    assert [s, states[0]] + states[1..] == [s] + states;
  }

  /** A call for `c` by a thread that is left alone runs to its end: superclasses first, and then the
      class itself. */
  lemma {:induction false} Runs(super: Supers, answers: set<nat>, rank: map<nat, nat>, s: State, act: Active, q: seq<nat>, t: nat, outer: seq<Frame>, c: nat, sync: map<nat, (nat, nat)>)
    returns (states: seq<State>, act': Active, q': seq<nat>)
    requires Acyclic(super, rank) && Inv(super, answers, s, act, q) && Alone(s, t, outer, c, sync) && Top(s, t).pc.Enter?
    ensures Solo(super, answers, t, states) && states[0] == s
    ensures var e := states[|states| - 1]; Inv(super, answers, e, act', q') && Alone(e, t, outer, c, sync) && Top(e, t).pc.Finished?
    decreases if c in super && c in rank then rank[c] + 1 else 0
  {
    hide Inv, Alone;
    var s1, act1, q1;
    if c !in super {
      s1, act1, q1 := Begun(super, answers, s, act, q, t, outer, c, sync);
      var more;
      more, act', q' := Finishes(super, answers, s1, act1, q1, t, outer, c, sync);
      Prepend(super, answers, t, s, more);
      return [s] + more, act', q';
    }
    s1, act1, q1 := Descended(super, answers, s, act, q, t, outer, c, sync);
    var above, act2, q2 := Runs(super, answers, rank, s1, act1, q1, t, outer + [Frame(c, AwaitSuper, false)], super[c], sync);
    var s3, act3, q3 := Returned(super, answers, above[|above| - 1], act2, q2, t, outer, c, super[c], sync);
    var more;
    more, act', q' := Finishes(super, answers, s3, act3, q3, t, outer, c, sync);
    Prepend(super, answers, t, s, above);
    Prepend(super, answers, t, above[|above| - 1], more);
    SoloJoin(super, answers, t, [s] + above, [above[|above| - 1]] + more);
    states := [s] + above + ([above[|above| - 1]] + more)[1..];
    assert states[|states| - 1] == more[|more| - 1];
  }

  /** In every run, whenever no other thread holds a lock, a call of `objc_send_initialize` can return
      without another thread's doing, and then the class is initialized or its `+initialize` is running
      further out. */
  lemma Completes(super: Supers, answers: set<nat>, rank: map<nat, nat>, states: seq<State>, ts: seq<nat>, i: nat, t: nat) returns (more: seq<State>)
    requires Acyclic(super, rank) && Run(super, answers, states, ts) && i < |states| && Stack(states[i], t) != [] && Top(states[i], t).pc.Enter?
    requires states[i].runtime == None && states[i].initLock == None && forall x :: x in states[i].sync ==> states[i].sync[x].0 == t
    ensures Solo(super, answers, t, more) && more[0] == states[i]
    ensures var e := more[|more| - 1];
            && Stack(e, t) == Stack(states[i], t)[..|Stack(states[i], t)| - 1] + [Frame(Top(states[i], t).cls, Finished, false)]
            && Protocol.Settled(e, t, |Stack(e, t)| - 1, Top(states[i], t).cls)
            && e.runtime == None && e.initLock == None && e.sync == states[i].sync
  {
    var s := states[i];
    var st, c := Stack(s, t), Top(s, t).cls;
    var outer := st[..|st| - 1];
    var act, q := RunInv(super, answers, states, ts, i);
    assert FrameOk(super, s, act, t, |st| - 1);
    forall x | x in s.sync ensures s.sync[x].1 >= 1 { assert SyncOk(s, t, x); }
    var act', q';
    more, act', q' := Runs(super, answers, rank, s, act, q, t, outer, c, s.sync);
    var e := more[|more| - 1];
    assert FrameOk(super, e, act', t, |Stack(e, t)| - 1);
    ReadySettled(super, answers, e, act', q', t, |Stack(e, t)| - 1, c);
  }

  lemma RunPushed(super: Supers, answers: set<nat>, states: seq<State>, ts: seq<nat>, i: nat, t: nat, d: nat)
    requires Run(super, answers, states, ts) && i < |states| && Stack(states[i], t) != [] && Top(states[i], t).pc.Running?
    ensures Run(super, answers, states[..i + 1] + [Push(states[i], t, d)], ts[..i] + [t])
    ensures Step(super, answers, states[i], t, Push(states[i], t, d))
  {
    var states', ts' := states[..i + 1] + [Push(states[i], t, d)], ts[..i] + [t];
    forall k {:trigger ts'[k]} | 0 <= k < |ts'| ensures Step(super, answers, states'[k], ts'[k], states'[k + 1]) {
      if k < i { assert ts'[k] == ts[k] && states'[k] == states[k] && states'[k + 1] == states[k + 1]; }
    }
  }

  lemma {:induction false} SoloInv(super: Supers, answers: set<nat>, states: seq<State>, ts: seq<nat>, i: nat, t: nat, more: seq<State>, k: nat)
    returns (act: Active, q: seq<nat>)
    requires Run(super, answers, states, ts) && i < |states| && Solo(super, answers, t, more) && more[0] == states[i] && k < |more|
    ensures Inv(super, answers, more[k], act, q)
    decreases k
  {
    if k == 0 {
      act, q := RunInv(super, answers, states, ts, i);
    } else {
      act, q := SoloInv(super, answers, states, ts, i, t, more, k - 1);
      assert Step(super, answers, more[k - 1], t, more[k]);
      act, q := StepKeeps(super, answers, more[k - 1], act, q, t, more[k]);
    }
  }

  /** While its `+initialize` is running, a class is not initialized. */
  lemma StillRunning(super: Supers, answers: set<nat>, states: seq<State>, ts: seq<nat>, i: nat, t: nat, more: seq<State>, d: nat)
    requires Run(super, answers, states, ts) && i < |states| && Stack(states[i], t) != [] && Top(states[i], t).pc.Running?
    requires Solo(super, answers, t, more) && more[0] == states[i] && Stack(more[|more| - 1], t) == Stack(states[i], t) + [Frame(d, Finished, false)]
    ensures Cls(Top(states[i], t).cls) !in more[|more| - 1].installed
  {
    var e, k := more[|more| - 1], |Stack(states[i], t)| - 1;
    var act, q := SoloInv(super, answers, states, ts, i, t, more, |more| - 1);
    assert FrameOk(super, e, act, t, k) && Stack(e, t)[k] == Top(states[i], t);
    assert ActOk(e, act, Top(states[i], t).cls);
  }

  /** A call that a running `+initialize` makes, of any class, can return as well; a class whose own
      `+initialize` makes it is then not initialized yet. */
  lemma Reenters(super: Supers, answers: set<nat>, rank: map<nat, nat>, states: seq<State>, ts: seq<nat>, i: nat, t: nat, d: nat) returns (more: seq<State>)
    requires Acyclic(super, rank) && Run(super, answers, states, ts) && i < |states| && Stack(states[i], t) != [] && Top(states[i], t).pc.Running?
    requires states[i].runtime == None && states[i].initLock == None && forall x :: x in states[i].sync ==> states[i].sync[x].0 == t
    ensures Solo(super, answers, t, more) && |more| > 1 && more[0] == states[i] && more[1] == Push(states[i], t, d)
    ensures var e := more[|more| - 1];
            && Stack(e, t) == Stack(states[i], t) + [Frame(d, Finished, false)] && Protocol.Settled(e, t, |Stack(states[i], t)|, d)
            && e.runtime == None && e.initLock == None && e.sync == states[i].sync
            && Cls(Top(states[i], t).cls) !in e.installed
  {
    var s, s' := states[i], Push(states[i], t, d);
    RunPushed(super, answers, states, ts, i, t, d);
    assert Stack(s', t)[..|Stack(s', t)| - 1] == Stack(s, t);
    var after := Completes(super, answers, rank, states[..i + 1] + [s'], ts[..i] + [t], i + 1, t);
    Prepend(super, answers, t, s, after);
    more := [s] + after;
    StillRunning(super, answers, states, ts, i, t, more, d);
  }

  /** The activations that an exception leaves: it ends those that await the one it comes from. */
  function Caught(st: seq<Frame>): seq<Frame> {
    if st == [] || !st[|st| - 1].pc.AwaitSuper? then st else Caught(st[..|st| - 1])
  }

  lemma PopStep(super: Supers, answers: set<nat>, s: State, t: nat)
    requires Stack(s, t) != [] && Top(s, t).pc.Thrown?
    ensures var s', rest := Pop(s, t, Thrown), Stack(s, t)[..|Stack(s, t)| - 1];
            && Step(super, answers, s, t, s') && s' == s.(stacks := s'.stacks)
            && if rest == [] || !rest[|rest| - 1].pc.AwaitSuper? then Stack(s', t) == rest
               else |Stack(s', t)| == |rest| && Top(s', t).pc.Thrown? && Stack(s', t)[..|rest| - 1] == rest[..|rest| - 1]
  {
  }

  lemma {:induction false} Unwound(super: Supers, answers: set<nat>, s: State, t: nat) returns (more: seq<State>)
    requires Stack(s, t) != [] && Top(s, t).pc.Thrown?
    ensures Solo(super, answers, t, more) && more[0] == s
    ensures var e := more[|more| - 1]; Stack(e, t) == Caught(Stack(s, t)[..|Stack(s, t)| - 1]) && e == s.(stacks := e.stacks)
    decreases |Stack(s, t)|
  {
    hide Step, Pop, Stack, Top;
    var s' := Pop(s, t, Thrown);
    var rest := Stack(s, t)[..|Stack(s, t)| - 1];
    PopStep(super, answers, s, t);
    if rest == [] || !rest[|rest| - 1].pc.AwaitSuper? {
      SoloMore(super, answers, t, [s], s');
      more := [s] + [s'];
    } else {
      var after := Unwound(super, answers, s', t);
      Prepend(super, answers, t, s, after);
      more := [s] + after;
    }
  }

  lemma ThrowStep(super: Supers, answers: set<nat>, s: State, t: nat)
    requires Stack(s, t) != [] && Top(s, t).pc.Exit?
    ensures var s' := ExitSync(Goto(s, t, Thrown), Top(s, t).cls);
            && Step(super, answers, s, t, s') && Stack(s', t) != [] && Top(s', t).pc.Thrown?
            && Stack(s', t)[..|Stack(s', t)| - 1] == Stack(s, t)[..|Stack(s, t)| - 1]
            && s' == ExitSync(s, Top(s, t).cls).(stacks := s'.stacks)
  {
  }

  lemma Throws(super: Supers, answers: set<nat>, s: State, t: nat) returns (more: seq<State>)
    requires Stack(s, t) != [] && Top(s, t).pc.Exit?
    ensures Solo(super, answers, t, more) && more[0] == s
    ensures var e := more[|more| - 1]; Stack(e, t) == Caught(Stack(s, t)[..|Stack(s, t)| - 1]) && e == ExitSync(s, Top(s, t).cls).(stacks := e.stacks)
  {
    hide Step, ExitSync, Goto, Caught, Stack;
    var s' := ExitSync(Goto(s, t, Thrown), Top(s, t).cls);
    ThrowStep(super, answers, s, t);
    var after := Unwound(super, answers, s', t);
    Prepend(super, answers, t, s, after);
    more := [s] + after;
  }

  /** In every run, an exception out of `+initialize` can end the call and all that await it, up to an
      outer `+initialize` or out of the runtime.  The tables are in place by then and the lock is given back. */
  lemma Unwinds(super: Supers, answers: set<nat>, states: seq<State>, ts: seq<nat>, i: nat, t: nat) returns (more: seq<State>)
    requires Run(super, answers, states, ts) && i < |states| && Stack(states[i], t) != [] && Top(states[i], t).pc.Exit?
    ensures Solo(super, answers, t, more) && more[0] == states[i]
    ensures var s, e, k, c := states[i], more[|more| - 1], |Stack(states[i], t)| - 1, Top(states[i], t).cls;
            && Stack(e, t) == Caught(Stack(s, t)[..k]) && e == ExitSync(s, c).(stacks := e.stacks)
            && Protocol.Settled(s, t, k, c)
  {
    var s := states[i];
    var st, c := Stack(s, t), Top(s, t).cls;
    var act, q := RunInv(super, answers, states, ts, i);
    assert FrameOk(super, s, act, t, |st| - 1);
    ReadySettled(super, answers, s, act, q, t, |st| - 1, c);
    more := Throws(super, answers, s, t);
  }
}
