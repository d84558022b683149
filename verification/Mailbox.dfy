/** The one-slot mailbox between the UDP thread and the form thread: shared variables guarded by
    a flag, a bounded wait, and every single write and read a step of its own. */
module Mailbox {

  /** The two programs that share the variables G: the writes for a packet P, and the reads,
      with the form's own state F and its environment E. */
  datatype Program<!P, !G, !F, !E> = Program(
    writeCount: nat, write: (nat, P, G) -> G,
    readCount: nat, read: (nat, E, F, G) -> (F, G),
    click: (E, F) -> F)

  const MAX_SLEEPS: nat := 50

  datatype Udp<P> = Receiving | Waiting(p: P, sleeps: nat) | Writing(p: P, done: nat)
  datatype Form<E> = Free | Handling(e: E, done: nat)

  /** One serial action: a whole post, a whole handling, or a click on the form. */
  datatype Event<P, E> = Post(p: P) | Handle(e: E) | Click(e: E)

  /** `history` records the actions as they complete; the source has no such variable. */
  datatype System<P, G, F, E> = System(udp: Udp<P>, form: Form<E>, flag: bool, g: G, f: F, history: seq<Event<P, E>>)

  datatype Step<P, E> = Receive(p: P) | Wait | Write | Check(e: E) | Read | Press(e: E)

  /** A step of either thread. Steps that cannot be taken leave the system as it is. */
  function Next<P, G, F, E>(prog: Program<P, G, F, E>, s: System<P, G, F, E>, step: Step<P, E>): System<P, G, F, E> {
    match step
    case Receive(p) => if s.udp.Receiving? then s.(udp := Waiting(p, 0)) else s
    case Wait =>
      if !s.udp.Waiting? then s
      else if s.flag && s.udp.sleeps < MAX_SLEEPS then s.(udp := Waiting(s.udp.p, s.udp.sleeps + 1))
      else s.(udp := Writing(s.udp.p, 0))
    case Write =>
      if !s.udp.Writing? then s
      else if s.udp.done < prog.writeCount then
        s.(g := prog.write(s.udp.done, s.udp.p, s.g), udp := Writing(s.udp.p, s.udp.done + 1))
      else s.(flag := true, udp := Receiving, history := s.history + [Post(s.udp.p)])
    case Check(e) => if s.form.Free? && s.flag then s.(form := Handling(e, 0)) else s
    case Read =>
      if !s.form.Handling? then s
      else if s.form.done < prog.readCount then
        var (f, g) := prog.read(s.form.done, s.form.e, s.f, s.g);
        s.(f := f, g := g, form := Handling(s.form.e, s.form.done + 1))
      else s.(flag := false, form := Free, history := s.history + [Handle(s.form.e)])
    case Press(e) => if s.form.Free? then s.(f := prog.click(e, s.f), history := s.history + [Click(e)]) else s
  }

  /** The wait gives up although the last event has not been handled. */
  predicate TimesOut<P, G, F, E>(s: System<P, G, F, E>, step: Step<P, E>) {
    step.Wait? && s.udp.Waiting? && s.flag && s.udp.sleeps >= MAX_SLEEPS
  }

  /** The state after the first n steps. */
  function After<P, G, F, E>(prog: Program<P, G, F, E>, s: System<P, G, F, E>,
                             steps: seq<Step<P, E>>, n: nat): System<P, G, F, E>
    requires n <= |steps|
  {
    if n == 0 then s else Next(prog, After(prog, s, steps, n - 1), steps[n - 1])
  }

  // ---------- The serial meaning of a history ----------

  function WriteSome<P, G, F, E>(prog: Program<P, G, F, E>, p: P, g: G, n: nat): G {
    if n == 0 then g else prog.write(n - 1, p, WriteSome(prog, p, g, n - 1))
  }

  function ReadSome<P, G, F, E>(prog: Program<P, G, F, E>, e: E, f: F, g: G, n: nat): (F, G) {
    if n == 0 then (f, g)
    else
      var (f', g') := ReadSome(prog, e, f, g, n - 1);
      prog.read(n - 1, e, f', g')
  }

  function Perform<P, G, F, E>(prog: Program<P, G, F, E>, event: Event<P, E>, f: F, g: G): (F, G) {
    match event
    case Post(p) => (f, WriteSome(prog, p, g, prog.writeCount))
    case Handle(e) => ReadSome(prog, e, f, g, prog.readCount)
    case Click(e) => (prog.click(e, f), g)
  }

  function Serial<P, G, F, E>(prog: Program<P, G, F, E>, f: F, g: G, history: seq<Event<P, E>>): (F, G) {
    if history == [] then (f, g)
    else
      var (f', g') := Serial(prog, f, g, history[..|history| - 1]);
      Perform(prog, history[|history| - 1], f', g')
  }

  /** Posts and handlings take turns, a post first; `open` says that a post is still unhandled. */
  predicate Alternates<P, E>(history: seq<Event<P, E>>, open: bool) {
    if history == [] then !open
    else
      var front := history[..|history| - 1];
      match history[|history| - 1]
      case Post(_) => open && Alternates(front, false)
      case Handle(_) => !open && Alternates(front, true)
      case Click(_) => Alternates(front, open)
  }

  // ---------- Mutual exclusion and serialisability ----------

  predicate Exclusive<P, G, F, E>(s: System<P, G, F, E>) {
    !(s.flag && s.udp.Writing?)
  }

  /** The variables are where the completed actions, and the one under way, have brought them. */
  predicate Consistent<P, G(==), F(==), E>(prog: Program<P, G, F, E>, f0: F, g0: G, s: System<P, G, F, E>) {
    var (f, g) := Serial(prog, f0, g0, s.history);
    && Exclusive(s)
    && (s.form.Handling? ==>
          s.flag && s.form.done <= prog.readCount && (s.f, s.g) == ReadSome(prog, s.form.e, f, g, s.form.done))
    && (s.udp.Writing? ==> s.udp.done <= prog.writeCount && s.f == f && s.g == WriteSome(prog, s.udp.p, g, s.udp.done))
    && (s.form.Free? && !s.udp.Writing? ==> s.f == f && s.g == g)
    && Alternates(s.history, s.flag)
  }

  function Start<P, G, F, E>(f: F, g: G): System<P, G, F, E> {
    System(Receiving, Free, false, g, f, [])
  }

  lemma SerialAppend<P, G, F, E>(prog: Program<P, G, F, E>, f: F, g: G, history: seq<Event<P, E>>, event: Event<P, E>)
    ensures var (f', g') := Serial(prog, f, g, history);
            Serial(prog, f, g, history + [event]) == Perform(prog, event, f', g')
    ensures Alternates(history + [event], true) ==
            match event case Post(_) => Alternates(history, false) case Handle(_) => false
            case Click(_) => Alternates(history, true)
    ensures Alternates(history + [event], false) ==
            match event case Post(_) => false case Handle(_) => Alternates(history, true)
            case Click(_) => Alternates(history, false)
  {
    assert (history + [event])[..|history|] == history;
  }

  lemma WriteConsistent<P, G, F, E>(prog: Program<P, G, F, E>, f0: F, g0: G, s: System<P, G, F, E>)
    requires Consistent(prog, f0, g0, s)
    ensures Consistent(prog, f0, g0, Next(prog, s, Write))
  {
    if s.udp.Writing? {
      SerialAppend(prog, f0, g0, s.history, Post(s.udp.p));
      hide Serial, Alternates;
    }
  }

  lemma ReadConsistent<P, G, F, E>(prog: Program<P, G, F, E>, f0: F, g0: G, s: System<P, G, F, E>)
    requires Consistent(prog, f0, g0, s)
    ensures Consistent(prog, f0, g0, Next(prog, s, Read))
  {
    if s.form.Handling? {
      SerialAppend(prog, f0, g0, s.history, Handle(s.form.e));
      hide Serial, Alternates;
    }
  }

  lemma PressConsistent<P, G, F, E>(prog: Program<P, G, F, E>, f0: F, g0: G, s: System<P, G, F, E>, e: E)
    requires Consistent(prog, f0, g0, s)
    ensures Consistent(prog, f0, g0, Next(prog, s, Press(e)))
  {
    SerialAppend(prog, f0, g0, s.history, Click(e));
    hide Serial, Alternates;
  }

  lemma StepConsistent<P, G, F, E>(prog: Program<P, G, F, E>, f0: F, g0: G, s: System<P, G, F, E>, step: Step<P, E>)
    requires Consistent(prog, f0, g0, s) && !TimesOut(s, step)
    ensures Consistent(prog, f0, g0, Next(prog, s, step))
  {
    hide Serial, Alternates;
    match step {
      case Write => WriteConsistent(prog, f0, g0, s);
      case Read => ReadConsistent(prog, f0, g0, s);
      case Press(e) => PressConsistent(prog, f0, g0, s, e);
      case _ =>
    }
  }

  lemma StartConsistent<P, G, F, E>(prog: Program<P, G, F, E>, f0: F, g0: G)
    ensures Consistent(prog, f0, g0, Start(f0, g0))
  {
  }

  lemma AfterStep<P, G, F, E>(prog: Program<P, G, F, E>, s: System<P, G, F, E>, steps: seq<Step<P, E>>, n: nat)
    requires n < |steps|
    ensures After(prog, s, steps, 0) == s
    ensures After(prog, s, steps, n + 1) == Next(prog, After(prog, s, steps, n), steps[n])
  {
    hide Next;
  }

  /** In a run whose wait never times out, every state is that of whole posts and handlings done
      in turn: no handling sees a torn post, none is skipped and none is seen twice. */
  lemma {:induction false} RunsAreSerial<P, G, F, E>(prog: Program<P, G, F, E>, f0: F, g0: G,
                                         steps: seq<Step<P, E>>, n: nat)
    requires n <= |steps|
    requires forall i | 0 <= i < n :: !TimesOut(After(prog, Start(f0, g0), steps, i), steps[i])
    ensures Consistent(prog, f0, g0, After(prog, Start(f0, g0), steps, n))
  {
    hide Consistent, Next, TimesOut, Start;
    if n == 0 {
      StartConsistent(prog, f0, g0);
    } else {
      hide After;
      RunsAreSerial(prog, f0, g0, steps, n - 1);
      AfterStep(prog, Start(f0, g0), steps, n - 1);
      StepConsistent(prog, f0, g0, After(prog, Start(f0, g0), steps, n - 1), steps[n - 1]);
    }
  }

  lemma NoTimeoutNoOverlap<P, G, F, E>(prog: Program<P, G, F, E>, f0: F, g0: G, steps: seq<Step<P, E>>, n: nat)
    requires n <= |steps|
    requires forall i | 0 <= i < n :: !TimesOut(After(prog, Start(f0, g0), steps, i), steps[i])
    ensures Exclusive(After(prog, Start(f0, g0), steps, n))
  {
    RunsAreSerial(prog, f0, g0, steps, n);
  }

  lemma TimeoutOverlaps<P, G, F, E>(prog: Program<P, G, F, E>, s: System<P, G, F, E>, steps: seq<Step<P, E>>, i: nat)
    requires i < |steps| && TimesOut(After(prog, s, steps, i), steps[i])
    ensures !Exclusive(After(prog, s, steps, i + 1))
  {
  }

  /** While the event stays unhandled the wait goes on for fifty sleeps, and then gives up. */
  lemma {:induction false} WaitGivesUp<P, G, F, E>(prog: Program<P, G, F, E>, s: System<P, G, F, E>, p: P,
                                       steps: seq<Step<P, E>>, n: nat)
    requires s.flag && s.udp == Waiting(p, 0) && n <= |steps| && n <= 51
    requires forall i | 0 <= i < n :: steps[i] == Wait
    ensures After(prog, s, steps, n) == s.(udp := if n <= 50 then Waiting(p, n) else Writing(p, 0))
  {
    if n > 0 {
      WaitGivesUp(prog, s, p, steps, n - 1);
    }
  }

  /** The UDP thread keeps off a pending event throughout a run exactly when no wait times out. */
  lemma ExclusiveExactly<P, G, F, E>(prog: Program<P, G, F, E>, f0: F, g0: G, steps: seq<Step<P, E>>)
    ensures (forall n | 0 <= n <= |steps| :: Exclusive(After(prog, Start(f0, g0), steps, n)))
            <==> forall i | 0 <= i < |steps| :: !TimesOut(After(prog, Start(f0, g0), steps, i), steps[i])
  {
    hide After, Exclusive, TimesOut;
    if forall i | 0 <= i < |steps| :: !TimesOut(After(prog, Start(f0, g0), steps, i), steps[i]) {
      forall n | 0 <= n <= |steps|
        ensures Exclusive(After(prog, Start(f0, g0), steps, n))
      {
        NoTimeoutNoOverlap(prog, f0, g0, steps, n);
      }
    } else {
      var i :| 0 <= i < |steps| && TimesOut(After(prog, Start(f0, g0), steps, i), steps[i]);
      TimeoutOverlaps(prog, Start(f0, g0), steps, i);
    }
  }

  function Posts<P, E>(history: seq<Event<P, E>>): seq<P> {
    if history == [] then []
    else
      var front := Posts(history[..|history| - 1]);
      match history[|history| - 1] case Post(p) => front + [p] case _ => front
  }

  function Handlings<P, E>(history: seq<Event<P, E>>): nat {
    if history == [] then 0
    else Handlings(history[..|history| - 1]) + if history[|history| - 1].Handle? then 1 else 0
  }

  /** The number of the handling that comes next is the number of the post it sees. */
  lemma {:induction false} TurnsCount<P, E>(history: seq<Event<P, E>>, open: bool)
    requires Alternates(history, open)
    ensures |Posts(history)| == Handlings(history) + if open then 1 else 0
  {
    if history != [] {
      var front := history[..|history| - 1];
      match history[|history| - 1] {
        case Post(_) => TurnsCount(front, false);
        case Handle(_) => TurnsCount(front, true);
        case Click(_) => TurnsCount(front, open);
      }
    }
  }
}
