/** What each handling of a run does for the status it handles: which one that is, on which
    frequency it keys the transmitter, and with which commands. */
module TxLinkRuns {
  import opened Mailbox
  import opened TxLink
  import opened TxLinkSafety

  type Happening = Event<Packet, Env>

  // ---------- The status that a handling sees ----------

  /** The variables that a post copies from its status. */
  predicate ShowsStatus(g: Shared, p: Packet) {
    && g.mode == p.mode && g.txFlg == p.transmitting && g.txDf == p.txDf && g.lastMsg == p.msg
    && g.dxCall == p.dxCall && g.dxGrid == p.dxGrid && g.report == p.report && g.rxDf == p.rxDf
  }

  function LastPost(history: seq<Happening>): Packet
    requires Posts(history) != []
  {
    Posts(history)[|Posts(history)| - 1]
  }

  /** Between a post and its handling the variables show that post's status. */
  lemma {:induction false} StatusShown(f: FormState, g: Shared, history: seq<Happening>)
    requires Alternates(history, true)
    ensures Posts(history) != [] && ShowsStatus(Serial(PROGRAM, f, g, history).1, LastPost(history))
  {
    var front, last := history[..|history| - 1], history[|history| - 1];
    var (f', g') := Serial(PROGRAM, f, g, front);
    PerformIs(last, f', g');
    hide Perform, HandleStatus, Act;
    if last.Click? {
      StatusShown(f, g, front);
    }
  }

  lemma StatusInTurn(f: FormState, g: Shared, history: seq<Happening>)
    requires Alternates(history, true)
    ensures Handlings(history) < |Posts(history)|
    ensures ShowsStatus(Serial(PROGRAM, f, g, history).1, Posts(history)[Handlings(history)])
  {
    hide ShowsStatus, Serial, Alternates, Posts, Handlings;
    StatusShown(f, g, history);
    TurnsCount(history, true);
  }

  /** In every interleaving whose wait never times out, the form starts its k-th handling on the
      variables of the k-th status posted. */
  lemma HandlesItsStatus(f: FormState, g: Shared, steps: seq<Step<Packet, Env>>, n: nat)
    requires n <= |steps|
    requires forall i | 0 <= i < n :: !TimesOut(After(PROGRAM, Start(f, g), steps, i), steps[i])
    ensures var s := After(PROGRAM, Start(f, g), steps, n);
            s.form.Handling? && s.form.done == 0 ==>
              Handlings(s.history) < |Posts(s.history)| && ShowsStatus(s.g, Posts(s.history)[Handlings(s.history)])
  {
    RunsAreSerial(PROGRAM, f, g, steps, n);
    hide After, Consistent, ShowsStatus, Serial, Alternates, Posts, Handlings, TimesOut;
    var s := After(PROGRAM, Start(f, g), steps, n);
    if s.form.Handling? && s.form.done == 0 {
      HandlingStarts(f, g, s);
      StatusInTurn(f, g, s.history);
    }
  }

  lemma HandlingStarts(f: FormState, g: Shared, s: System<Packet, Shared, FormState, Env>)
    requires Consistent(PROGRAM, f, g, s) && s.form.Handling? && s.form.done == 0
    ensures (s.f, s.g) == Serial(PROGRAM, f, g, s.history) && Alternates(s.history, true)
  {
    hide Serial, Alternates;
  }

  // ---------- The frequency of the status handled ----------

  lemma InactiveClears(e: Env, f: FormState, g: Shared)
    requires !Active(e, f) && e.portOpen
    ensures HandleStatus(e, f, g).1.newFrequency == 0 && HandleStatus(e, f, g).1.curFrequency == g.curFrequency
  {
  }

  lemma HandleClears(e: Env, f: FormState, g: Shared)
    requires e.portOpen
    ensures HandleStatus(e, f, g).1.newFrequency == 0 && HandleStatus(e, f, g).1.curFrequency == g.curFrequency
  {
    hide HandleStatus;
    if Active(e, f) {
      HandleIs(e, f, g);
    } else {
      InactiveClears(e, f, g);
    }
  }

  /** When posts and handlings take turns with the port open, the server's current frequency is that
      of the last post. */
  lemma {:induction false} SlotInTurns(f: FormState, g: Shared, history: seq<Happening>, open: bool)
    requires Alternates(history, open) && AllUndisturbed(history) && g.newFrequency == 0
    ensures var g' := Serial(PROGRAM, f, g, history).1;
            && (!open ==> g'.newFrequency == 0) && FrequencySlot(g')
            && (Posts(history) != [] ==> g'.curFrequency == LastPost(history).frequency)
  {
    if history != [] {
      var front, last := history[..|history| - 1], history[|history| - 1];
      var (f', g') := Serial(PROGRAM, f, g, front);
      PerformIs(last, f', g');
      hide Perform, HandleStatus, Act, ShowsStatus;
      assert AllUndisturbed(front) && Calm(last);
      match last {
        case Post(_) => SlotInTurns(f, g, front, false);
        case Handle(e) =>
          SlotInTurns(f, g, front, true);
          HandleClears(e, f', g');
        case Click(_) => SlotInTurns(f, g, front, open);
      }
    }
  }

  /** Until a frequency is taken over, the form keeps the one it started with. */
  lemma {:induction false} UntakenKeeps(f: FormState, g: Shared, history: seq<Happening>)
    requires !HasTaken(history, f, g)
    ensures Serial(PROGRAM, f, g, history).0.currentWsjtx == f.currentWsjtx
  {
    if history != [] {
      var front, last := history[..|history| - 1], history[|history| - 1];
      UntakenKeeps(f, g, front);
      var (f', g') := Serial(PROGRAM, f, g, front);
      PerformIs(last, f', g');
      hide Perform, HandleStatus, Act;
      match last {
        case Post(_) =>
        case Handle(e) =>
          if Active(e, f') {
            HandleIs(e, f', g');
          } else {
            InactiveIsSilent(e, f', g');
          }
        case Click(e) => ActLogs(e, f');
      }
    }
  }

  lemma TakenIs(f: FormState, g: Shared, history: seq<Happening>, e: Env)
    ensures var (f', g') := Serial(PROGRAM, f, g, history);
            HasTaken(history + [Handle(e)], f, g) <==> HasTaken(history, f, g) || Takes(e, f', g')
  {
    var all := history + [Handle(e)];
    assert all[..|all| - 1] == history && all[|all| - 1] == Event<Packet, Env>.Handle(e);
  }

  /** In undisturbed runs with positive frequencies, a transmission is keyed on the frequency of its
      status exactly when the form has by then taken over a frequency, or that frequency is the one
      the form started with. */
  lemma KeysOnStatusFrequency(f: FormState, g: Shared, history: seq<Happening>, e: Env)
    requires Synced(f) && g.newFrequency == 0
    requires Alternates(history, true) && AllUndisturbed(history) && Undisturbed(e) && PositiveFrequencies(history)
    ensures Posts(history) != []
    ensures var (f', g') := Serial(PROGRAM, f, g, history);
            var (f2, _) := HandleStatus(e, f', g');
            Active(e, f') && X1 in Commands(e, f', g') ==>
              (OnAir(f2.log) == LastPost(history).frequency
               <==> HasTaken(history + [Handle(e)], f, g) || f.currentWsjtx == LastPost(history).frequency)
  {
    var (f', g') := Serial(PROGRAM, f, g, history);
    StatusShown(f, g, history);
    SlotInTurns(f, g, history, true);
    RunsKeyOnFrequency(f, g, history, e);
    RunsKeepSlot(f, g, history);
    TakenIs(f, g, history, e);
    if !HasTaken(history, f, g) {
      UntakenKeeps(f, g, history);
    }
    hide HandleStatus, Commands, OnAir, Serial, HasTaken, Posts, Synced;
    if Active(e, f') {
      HandleIs(e, f', g');
    }
  }

  /** The same in every interleaving whose wait never times out, at the start of each handling. */
  lemma InterleavingsKeyOnStatusFrequency(f: FormState, g: Shared, steps: seq<Step<Packet, Env>>, n: nat)
    requires n <= |steps|
    requires forall i | 0 <= i < n :: !TimesOut(After(PROGRAM, Start(f, g), steps, i), steps[i])
    requires Synced(f) && g.newFrequency == 0
    ensures var s := After(PROGRAM, Start(f, g), steps, n);
            s.form.Handling? && s.form.done == 0 && AllUndisturbed(s.history) && PositiveFrequencies(s.history)
            && Undisturbed(s.form.e) && Active(s.form.e, s.f) && X1 in Commands(s.form.e, s.f, s.g) ==>
              && Posts(s.history) != []
              && (OnAir(HandleStatus(s.form.e, s.f, s.g).0.log) == LastPost(s.history).frequency
                  <==> HasTaken(s.history + [Handle(s.form.e)], f, g)
                       || f.currentWsjtx == LastPost(s.history).frequency)
  {
    RunsAreSerial(PROGRAM, f, g, steps, n);
    var s := After(PROGRAM, Start(f, g), steps, n);
    hide After, Serial, HandleStatus, Commands, OnAir, HasTaken, Synced;
    if s.form.Handling? && s.form.done == 0 && AllUndisturbed(s.history) && PositiveFrequencies(s.history)
       && Undisturbed(s.form.e) {
      KeysOnStatusFrequency(f, g, s.history, s.form.e);
    }
  }

  /** After a start in another mode the first frequency of WSJT-X is dropped and never offered again:
      the next transmission there is keyed on the form's built-in frequency. */
  lemma FirstFrequencyDroppedExample(f: FormState, g: Shared, p: Packet, q: Packet, e: Env)
    requires Synced(f) && f.firstTime && f.split == SplitNone && f.currentWsjtx == 18100000 && f.currentTx == 7074000
    requires g.newFrequency == 0 && g.curFrequency == 0 && !g.halt && !g.txFlg
    requires p.frequency == q.frequency == 14074000 && !p.transmitting && q.transmitting && q.mode == "FT8"
    requires e.portOpen && e.action == SendTx
    ensures var (f', g') := Serial(PROGRAM, f, g, [Post(p), Handle(e), Post(q), Handle(e)]);
            f'.log != [] && f'.log[|f'.log| - 1] == X1 && OnAir(f'.log) == 18100000 && g'.curFrequency == 14074000
  {
    var g1 := PostStatus(p, g);
    var (f2, g2) := HandleStatus(e, f, g1);
    var g3 := PostStatus(q, g2);
    FourEvents(f, g, p, q, e);
    assert f2 == f.(skip := true, took := false, keyed := false, out := X0, firstTime := false);
    assert !g2.halt && g2.newFrequency == 0 && g2.curFrequency == 14074000;
    hide HandleStatus, PostStatus, OnAir;
    assert g3.newFrequency == 0 && g3.curFrequency == 14074000 && g3.txFlg && !g3.halt && g3.mode == "FT8" by {
      PostKeepsCurrent(q, g2);
    }
    KeysExactly(e, f2, g3);
    HandleIs(e, f2, g3);
    OnAirAfterHandling(e, f2, g3);
  }

  lemma PostKeepsCurrent(q: Packet, g: Shared)
    requires q.frequency == g.curFrequency
    ensures var g' := PostStatus(q, g);
            && g'.newFrequency == g.newFrequency && g'.curFrequency == g.curFrequency && g'.txFlg == q.transmitting
            && g'.mode == q.mode && (q.transmitting ==> g'.halt == g.halt)
  {
  }

  lemma FourEvents(f: FormState, g: Shared, p: Packet, q: Packet, e: Env)
    ensures var (f2, g2) := HandleStatus(e, f, PostStatus(p, g));
            Serial(PROGRAM, f, g, [Post(p), Handle(e), Post(q), Handle(e)]) == HandleStatus(e, f2, PostStatus(q, g2))
  {
    hide Perform, HandleStatus, PostStatus;
    var g1 := PostStatus(p, g);
    var (f2, g2) := HandleStatus(e, f, g1);
    PerformIs(Post(p), f, g);
    PerformIs(Handle(e), f, g1);
    PerformIs(Post(q), f2, g2);
    PerformIs(Handle(e), f2, PostStatus(q, g2));
    var h1: seq<Happening> := [Post(p)];
    var h2: seq<Happening> := h1 + [Handle(e)];
    var h3: seq<Happening> := h2 + [Post(q)];
    SerialAppend(PROGRAM, f, g, [], Post(p));
    assert [] + [Event<Packet, Env>.Post(p)] == h1;
    SerialAppend(PROGRAM, f, g, h1, Handle(e));
    SerialAppend(PROGRAM, f, g, h2, Post(q));
    SerialAppend(PROGRAM, f, g, h3, Handle(e));
    assert h3 + [Event<Packet, Env>.Handle(e)] == [Post(p), Handle(e), Post(q), Handle(e)];
  }

  // ---------- Halts ----------

  /** The status before the end of the history transmits; before any post, the variables say so. */
  predicate Transmitting(g: Shared, history: seq<Happening>) {
    if Posts(history) == [] then g.txFlg else LastPost(history).transmitting
  }

  /** Event k posts the end of a transmission with sending disabled: the user has halted it. */
  predicate Halts(g: Shared, history: seq<Happening>, k: nat)
    requires k < |history|
  {
    && history[k].Post? && !history[k].p.transmitting && !history[k].p.txEnabled
    && Transmitting(g, history[..k])
  }

  /** Event k is a handling that the form does, rather than skips. */
  predicate Handles(f: FormState, g: Shared, history: seq<Happening>, k: nat)
    requires k < |history|
  {
    history[k].Handle? && Active(history[k].e, Serial(PROGRAM, f, g, history[..k]).0)
  }

  /** A halt was raised before position k, and no handling has been done since. */
  predicate HaltOpen(f: FormState, g: Shared, history: seq<Happening>, k: nat)
    requires k <= |history|
  {
    && (if k == 0 then g.halt else Halts(g, history, k - 1))
    && forall j | k <= j < |history| :: !Handles(f, g, history, j)
  }

  lemma {:induction false} TransmittingIs(f: FormState, g: Shared, history: seq<Happening>)
    ensures Serial(PROGRAM, f, g, history).1.txFlg == Transmitting(g, history)
  {
    if history != [] {
      var front, last := history[..|history| - 1], history[|history| - 1];
      TransmittingIs(f, g, front);
      var (f', g') := Serial(PROGRAM, f, g, front);
      PerformIs(last, f', g');
      hide Perform, HandleStatus, Act;
      if last.Handle? {
        HandleKeepsFlag(last.e, f', g');
      }
    }
  }

  lemma HandleKeepsFlag(e: Env, f: FormState, g: Shared)
    ensures HandleStatus(e, f, g).1.txFlg == g.txFlg
    ensures HandleStatus(e, f, g).1.halt == (g.halt && !Active(e, f))
  {
    hide HandleStatus;
    if Active(e, f) {
      HandleIs(e, f, g);
    } else {
      InactiveIsSilent(e, f, g);
    }
  }

  lemma FrontSame(f: FormState, g: Shared, history: seq<Happening>, k: nat)
    requires k < |history| - 1
    ensures var front := history[..|history| - 1];
            Halts(g, history, k) == Halts(g, front, k) && Handles(f, g, history, k) == Handles(f, g, front, k)
  {
    assert history[..|history| - 1][..k] == history[..k];
  }

  /** The last event, for a halt that is already open or not. */
  lemma HaltStep(f: FormState, g: Shared, history: seq<Happening>)
    requires history != []
    ensures var front, n := history[..|history| - 1], |history| - 1;
            && (forall k | 0 <= k <= n :: HaltOpen(f, g, history, k)
                                          <==> HaltOpen(f, g, front, k) && !Handles(f, g, history, n))
            && (HaltOpen(f, g, history, n + 1) <==> Halts(g, history, n))
  {
    var front, n := history[..|history| - 1], |history| - 1;
    hide Halts, Handles;
    forall k | 0 <= k < n
      ensures Halts(g, history, k) == Halts(g, front, k) && Handles(f, g, history, k) == Handles(f, g, front, k)
    {
      FrontSame(f, g, history, k);
    }
  }

  lemma EventHalts(f: FormState, g: Shared, history: seq<Happening>)
    requires history != []
    ensures var front, n := history[..|history| - 1], |history| - 1;
            Serial(PROGRAM, f, g, history).1.halt <==>
              (Serial(PROGRAM, f, g, front).1.halt && !Handles(f, g, history, n)) || Halts(g, history, n)
  {
    var front, last := history[..|history| - 1], history[|history| - 1];
    TransmittingIs(f, g, front);
    var (f', g') := Serial(PROGRAM, f, g, front);
    PerformIs(last, f', g');
    hide Perform, HandleStatus, Act, Transmitting, Active;
    if last.Handle? {
      HandleKeepsFlag(last.e, f', g');
    }
  }

  lemma SomeHaltOpen(f: FormState, g: Shared, history: seq<Happening>)
    requires history != []
    ensures var front, n := history[..|history| - 1], |history| - 1;
            (exists k | 0 <= k <= n + 1 :: HaltOpen(f, g, history, k)) <==>
              ((exists k | 0 <= k <= n :: HaltOpen(f, g, front, k)) && !Handles(f, g, history, n))
              || Halts(g, history, n)
  {
    hide HaltOpen, Handles, Halts;
    HaltStep(f, g, history);
    var front, n := history[..|history| - 1], |history| - 1;
    if k :| 0 <= k <= n + 1 && HaltOpen(f, g, history, k) {
      assert k <= n ==> HaltOpen(f, g, front, k);
    }
    if k :| 0 <= k <= n && HaltOpen(f, g, front, k) {
      assert !Handles(f, g, history, n) ==> HaltOpen(f, g, history, k);
    }
  }

  /** In every serial run a halt is pending exactly when one was raised and no handling has been done since. */
  lemma {:induction false} RunsHalt(f: FormState, g: Shared, history: seq<Happening>)
    ensures Serial(PROGRAM, f, g, history).1.halt <==> exists k | 0 <= k <= |history| :: HaltOpen(f, g, history, k)
  {
    if history == [] {
      assert HaltOpen(f, g, history, 0) <==> g.halt;
    } else {
      var front, n := history[..|history| - 1], |history| - 1;
      RunsHalt(f, g, front);
      EventHalts(f, g, history);
      hide Serial, HaltOpen, Handles, Halts;
      SomeHaltOpen(f, g, history);
    }
  }

  /** Where posts and handlings take turns: a handling keys the transmitter exactly when the form does it,
      its status transmits in FT4 or FT8, and no halt has been raised since the last handling done. */
  lemma RunsKeyExactly(f: FormState, g: Shared, history: seq<Happening>, e: Env)
    requires Alternates(history, true)
    ensures Posts(history) != []
    ensures var (f', g') := Serial(PROGRAM, f, g, history);
            var log, p := HandleStatus(e, f', g').0.log, LastPost(history);
            && f'.log <= log
            && (X1 in log[|f'.log|..] <==>
                  && Active(e, f') && p.transmitting && p.mode in {"FT4", "FT8"}
                  && forall k | 0 <= k <= |history| :: !HaltOpen(f, g, history, k))
  {
    var (f', g') := Serial(PROGRAM, f, g, history);
    StatusShown(f, g, history);
    RunsHalt(f, g, history);
    KeysExactly(e, f', g');
    hide HandleStatus, Commands, Serial, HaltOpen, Active, Prepared;
  }

  /** A status that transmits in FT4 or FT8 is keyed, whatever halts there were before the last handling done. */
  lemma KeysAfterHalt(f: FormState, g: Shared, history: seq<Happening>, j: nat, e: Env)
    requires Alternates(history, true) && j < |history| && Handles(f, g, history, j)
    requires forall k | j < k < |history| :: !Halts(g, history, k)
    ensures Posts(history) != []
    ensures var (f', g') := Serial(PROGRAM, f, g, history);
            var log, p := HandleStatus(e, f', g').0.log, LastPost(history);
            Active(e, f') && p.transmitting && p.mode in {"FT4", "FT8"} ==> log != [] && log[|log| - 1] == X1
  {
    var (f', g') := Serial(PROGRAM, f, g, history);
    RunsKeyExactly(f, g, history, e);
    KeysExactly(e, f', g');
    hide HandleStatus, Commands, Serial, Active, Prepared, Handles, Halts;
  }

  // ---------- The commands of the status handled ----------

  /** Right before command i, a frequency apart, stand the given four. */
  predicate PreparedWith(log: seq<Command>, i: nat, commands: seq<Command>)
    requires i <= |log| && |commands| == 4
  {
    var end := if i > 0 && log[i - 1].F? then i - 1 else i;
    && end >= 4
    && log[end - 4] == commands[0] && log[end - 3] == commands[1]
    && log[end - 2] == commands[2] && log[end - 1] == commands[3]
  }

  lemma PreparedWithStays(log: seq<Command>, more: seq<Command>, i: nat, commands: seq<Command>)
    requires i <= |log| && |commands| == 4 && PreparedWith(log, i, commands)
    ensures PreparedWith(log + more, i, commands)
  {
  }

  /** Command i was written by event k, the handling of a status that transmits, behind the
      preparation made from the variables that this handling found. */
  predicate KeyedBy(f: FormState, g: Shared, history: seq<Happening>, log: seq<Command>, i: nat, k: nat)
    requires i <= |log| && k < |history|
  {
    var (f', g') := Serial(PROGRAM, f, g, history[..k]);
    && history[k].Handle? && Active(history[k].e, f') && g'.txFlg && !g'.halt && IsFt(g'.mode)
    && PreparedWith(log, i, Preparation(history[k].e, g'))
  }

  lemma SplitLog(front: seq<Command>, p: seq<Command>, r: seq<Command>)
    requires |p| == 4 && !p[3].F? && (r == [] || (|r| == 1 && r[0].F?))
    ensures var log := front + p + r + [X1];
            log[|log| - 1] == X1 && PreparedWith(log, |log| - 1, p)
  {
  }

  lemma Regrouped<T>(a: seq<T>, b: seq<T>, c: seq<T>, d: seq<T>, e: seq<T>)
    ensures a + (b + (c + d) + e) == a + b + c + d + e
  {
  }

  lemma CommandsPrepared(e: Env, f: FormState, g: Shared)
    requires X1 in Commands(e, f, g)
    ensures var log := f.log + Commands(e, f, g);
            log[|log| - 1] == X1 && PreparedWith(log, |log| - 1, Preparation(e, g))
  {
    CommandsKey(e, f, g);
    var taken := g.newFrequency > 0;
    var first := if taken then Retune(f, Wanted(f, g)) else [];
    var r := if taken then [] else Retune(f, Wanted(f, g));
    var p := Preparation(e, g);
    hide Preparation, PreparedWith, IsFt, Wanted, Commands;
    PreparationEnds(e, g);
    SplitLog(f.log + first, p, r);
    KeyedCommands(e, f, g);
    Regrouped(f.log, first, p, r, [X1]);
  }

  lemma PreparationEnds(e: Env, g: Shared)
    ensures |Preparation(e, g)| == 4 && Preparation(e, g)[3].W?
  {
  }

  lemma KeyedCommands(e: Env, f: FormState, g: Shared)
    requires g.txFlg && !g.halt && IsFt(g.mode)
    ensures var taken, r := g.newFrequency > 0, Retune(f, Wanted(f, g));
            Commands(e, f, g) == (if taken then r else []) + (Preparation(e, g) + (if taken then [] else r)) + [X1]
  {
    hide Preparation, Retune, Wanted;
  }

  /** What one handling adds: at most one {X1}, as its last command. */
  lemma HandleKeys(e: Env, f: FormState, g: Shared, i: nat)
    ensures var log := HandleStatus(e, f, g).0.log;
            && f.log <= log
            && (|f.log| <= i < |log| && log[i] == X1 ==>
                  && Active(e, f) && g.txFlg && !g.halt && IsFt(g.mode)
                  && PreparedWith(log, i, Preparation(e, g)))
  {
    KeysExactly(e, f, g);
    hide HandleStatus, Commands, PreparedWith, Preparation, Prepared, IsFt, Active;
    var added := if Active(e, f) then Commands(e, f, g) else [];
    var log := f.log + added;
    KeyOnlyLast(e, f, g);
    if |f.log| <= i < |log| && log[i] == X1 {
      assert log[i] == added[i - |f.log|];
      CommandsPrepared(e, f, g);
    }
  }

  lemma ActKeysNot(e: Env, f: FormState, i: nat)
    ensures var log := Act(e, f).log;
            f.log <= log && (|f.log| <= i < |log| ==> log[i] != X1)
  {
    hide Act;
    ActLogs(e, f);
  }

  lemma EventKeys(f: FormState, g: Shared, history: seq<Happening>, i: nat)
    requires history != []
    ensures var before := Serial(PROGRAM, f, g, history[..|history| - 1]).0.log;
            var log := Serial(PROGRAM, f, g, history).0.log;
            && before <= log
            && (|before| <= i < |log| && log[i] == X1 ==> KeyedBy(f, g, history, log, i, |history| - 1))
  {
    var front, last := history[..|history| - 1], history[|history| - 1];
    var (f', g') := Serial(PROGRAM, f, g, front);
    PerformIs(last, f', g');
    hide Perform, HandleStatus, Act, PostStatus, PreparedWith, Preparation, IsFt, Active;
    match last {
      case Post(_) =>
      case Handle(e) => HandleKeys(e, f', g', i);
      case Click(e) => ActKeysNot(e, f', i);
    }
  }

  /** In every serial run, each {X1} comes from a handling that found a transmitting status and no
      halt, behind the mode, offset, symbols and watchdog of that status. */
  lemma {:induction false} RunsKeyForStatus(f: FormState, g: Shared, history: seq<Happening>)
    ensures var log := Serial(PROGRAM, f, g, history).0.log;
            && f.log <= log
            && forall i | |f.log| <= i < |log| && log[i] == X1 ::
                 exists k | 0 <= k < |history| :: KeyedBy(f, g, history, log, i, k)
  {
    if history != [] {
      var front := history[..|history| - 1];
      RunsKeyForStatus(f, g, front);
      EventKeys(f, g, history, 0);
      var before, log := Serial(PROGRAM, f, g, front).0.log, Serial(PROGRAM, f, g, history).0.log;
      hide Serial, PreparedWith, Preparation;
      forall i | |f.log| <= i < |log| && log[i] == X1
        ensures exists k | 0 <= k < |history| :: KeyedBy(f, g, history, log, i, k)
      {
        EventKeys(f, g, history, i);
        if i < |before| {
          var k :| 0 <= k < |front| && KeyedBy(f, g, front, before, i, k);
          KeyedStays(f, g, history, before, log, i, k);
        }
      }
    }
  }

  lemma KeyedStays(f: FormState, g: Shared, history: seq<Happening>, before: seq<Command>, log: seq<Command>,
                   i: nat, k: nat)
    requires history != [] && k < |history| - 1 && i <= |before| && before <= log
    requires KeyedBy(f, g, history[..|history| - 1], before, i, k)
    ensures KeyedBy(f, g, history, log, i, k)
  {
    assert history[..|history| - 1][..k] == history[..k];
    var (f', g') := Serial(PROGRAM, f, g, history[..k]);
    PreparedWithStays(before, log[|before|..], i, Preparation(history[k].e, g'));
    assert before + log[|before|..] == log;
  }

  lemma {:induction false} AlternatesBefore(history: seq<Happening>, open: bool, k: nat)
    requires Alternates(history, open) && k < |history| && history[k].Handle?
    ensures Alternates(history[..k], true)
  {
    if k + 1 < |history| {
      var front := history[..|history| - 1];
      assert front[..k] == history[..k] && front[k] == history[k];
      match history[|history| - 1] {
        case Post(_) => AlternatesBefore(front, false, k);
        case Handle(_) => AlternatesBefore(front, true, k);
        case Click(_) => AlternatesBefore(front, open, k);
      }
    }
  }

  /** Where posts and handlings take turns, such a handling sees the last status posted before it:
      the commands carry the mode and the offset of that status, and it transmits. */
  lemma KeyedForPost(f: FormState, g: Shared, history: seq<Happening>, open: bool, log: seq<Command>, i: nat, k: nat)
    requires Alternates(history, open) && i <= |log| && k < |history| && KeyedBy(f, g, history, log, i, k)
    ensures Posts(history[..k]) != []
    ensures var p := LastPost(history[..k]);
            var g' := Serial(PROGRAM, f, g, history[..k]).1;
            && p.transmitting && IsFt(p.mode)
            && PreparedWith(log, i, [if p.mode == "FT4" then M4 else M8, Y(p.txDf), Z(g'.symbols),
                                     W(if g'.decodeMsg != "TUNE" then history[k].e.timeToEnd else 30000)])
  {
    AlternatesBefore(history, open, k);
    StatusShown(f, g, history[..k]);
  }

  // ---------- The symbols of the status handled ----------

  /** The mode in which the message of the last post was encoded: that of the first post in a row of
      posts with this message. */
  function EncodedMode(history: seq<Happening>): string {
    if history == [] then ""
    else
      var front := history[..|history| - 1];
      match history[|history| - 1]
      case Post(p) =>
        if Posts(front) == [] || LastPost(front).msg == "" || LastPost(front).msg != p.msg then p.mode
        else EncodedMode(front)
      case _ => EncodedMode(front)
  }

  /** The encoder: symbols and decoded text, from mode and message. */
  type Encoder = (string, string) -> (string, string)

  predicate Encoded(history: seq<Happening>, encode: Encoder) {
    forall i | 0 <= i < |history| && history[i].Post? ::
      (history[i].p.symbols, history[i].p.decodeMsg) == encode(history[i].p.mode, history[i].p.msg)
  }

  lemma {:induction false} SymbolsAre(f: FormState, g: Shared, history: seq<Happening>, encode: Encoder)
    requires Encoded(history, encode) && g.lastMsg == ""
    ensures var g' := Serial(PROGRAM, f, g, history).1;
            if Posts(history) == [] then g'.lastMsg == ""
            else
              && g'.lastMsg == LastPost(history).msg
              && (g'.symbols, g'.decodeMsg) == encode(EncodedMode(history), g'.lastMsg)
  {
    if history != [] {
      var front, last := history[..|history| - 1], history[|history| - 1];
      assert Encoded(front, encode);
      SymbolsAre(f, g, front, encode);
      var (f', g') := Serial(PROGRAM, f, g, front);
      PerformIs(last, f', g');
      if last.Handle? {
        HandleKeepsSymbols(last.e, f', g');
      }
      hide Perform, HandleStatus, Act;
    }
  }

  predicate SameSymbols(g: Shared, g': Shared) {
    g'.symbols == g.symbols && g'.decodeMsg == g.decodeMsg && g'.lastMsg == g.lastMsg
  }

  lemma HandleKeepsSymbols(e: Env, f: FormState, g: Shared)
    ensures SameSymbols(g, HandleStatus(e, f, g).1)
  {
    hide Take, Key, Finish;
    var (f1, g1) := Take(e, f, g);
    var (f2, g2) := Key(e, f1, g1);
    TakeKeepsSymbols(e, f, g);
    KeyKeepsSymbols(e, f1, g1);
    FinishKeepsSymbols(e, f2, g2);
  }

  lemma TakeKeepsSymbols(e: Env, f: FormState, g: Shared)
    ensures SameSymbols(g, Take(e, f, g).1)
  {
  }

  lemma KeyKeepsSymbols(e: Env, f: FormState, g: Shared)
    ensures SameSymbols(g, Key(e, f, g).1)
  {
  }

  lemma FinishKeepsSymbols(e: Env, f: FormState, g: Shared)
    ensures SameSymbols(g, Finish(e, f, g).1)
  {
  }

  /** The symbols sent for a status are those of its own mode and message exactly when the encoder
      answers alike for the mode in which the message was first encoded. */
  lemma SymbolsExactly(f: FormState, g: Shared, history: seq<Happening>, encode: Encoder)
    requires Encoded(history, encode) && g.lastMsg == "" && Posts(history) != []
    ensures var p, g' := LastPost(history), Serial(PROGRAM, f, g, history).1;
            (g'.symbols, g'.decodeMsg) == encode(p.mode, p.msg)
            <==> encode(EncodedMode(history), p.msg) == encode(p.mode, p.msg)
  {
    SymbolsAre(f, g, history, encode);
  }

  /** From FT8 to FT4 with the same message: the symbols of FT8 go out behind {M4}. */
  lemma StaleSymbolsExample(p: Packet, g: Shared, e: Env)
    requires g.mode == "FT8" && g.lastMsg == p.msg != "" && p.mode == "FT4" && g.symbols != p.symbols
    ensures var c := Preparation(e, PostStatus(p, g));
            c[0] == M4 && c[2] == Z(g.symbols) && c[2] != Z(p.symbols)
  {
  }
}
