/** When the transmitter is keyed and stopped, on which frequency, and what every run keeps. */
module TxLinkSafety {
  import opened Mailbox
  import opened TxLink

  // ---------- One handling ----------

  /** The form is past its start-up rule and the port is open: commands will be written. */
  predicate Active(e: Env, f: FormState) {
    !(f.firstTime && f.split != SplitFT8) && e.portOpen
  }

  /** Command i follows a preparation of the same handling: mode, offset, symbols and watchdog,
      with at most a frequency in between. */
  predicate Prepared(log: seq<Command>, i: nat)
    requires i <= |log|
  {
    var end := if i > 0 && log[i - 1].F? then i - 1 else i;
    && end >= 4
    && (log[end - 4].M4? || log[end - 4].M8?) && log[end - 3].Y? && log[end - 2].Z? && log[end - 1].W?
  }

  /** The frequency commands that `SetupDataMode` gives rise to. */
  function Retune(f: FormState, hertz: int): seq<Command> {
    if f.currentTx != hertz && f.lastTx != hertz then [F(hertz)] else []
  }

  lemma SetupIs(f: FormState, g: Shared, e: Env)
    requires e.portOpen
    ensures var (f', g') := SetupDataMode(f, g, e);
            && f'.log == f.log + Retune(f, f.currentWsjtx)
            && f'.currentTx == f.currentWsjtx && f'.currentWsjtx == f.currentWsjtx && f'.split == SplitFT8
            && f'.currentRx == f.currentWsjtx + g.txDf
            && f'.lastTx == (if f.currentTx == f.currentWsjtx then f.lastTx else f.currentWsjtx)
            && f'.trackFreq == f.trackFreq && f'.digiMode == f.digiMode && f'.firstTime == f.firstTime
            && f'.skip == f.skip && f'.keyed == f.keyed && f'.out == f.out && f'.took == f.took
            && g' == g.(modeChange := false)
  {
  }

  /** The frequency WSJT-X works on once this handling has looked at it. */
  function Wanted(f: FormState, g: Shared): int {
    if g.newFrequency > 0 then g.newFrequency else f.currentWsjtx
  }

  lemma TakeIs(e: Env, f: FormState, g: Shared)
    requires Active(e, f)
    ensures var (f', g') := Take(e, f, g);
            && f'.log == f.log + (if g.newFrequency > 0 then Retune(f, Wanted(f, g)) else [])
            && f'.currentWsjtx == Wanted(f, g) && !f'.skip && f'.out == X0 && !f'.firstTime
            && f'.split == (if g.newFrequency > 0 then SplitFT8 else f.split)
            && f'.currentTx == (if g.newFrequency > 0 then Wanted(f, g) else f.currentTx)
            && f'.lastTx == (if g.newFrequency > 0 && f.currentTx != Wanted(f, g) then Wanted(f, g) else f.lastTx)
            && f'.currentRx == (if g.newFrequency > 0 then Wanted(f, g) + g.txDf else f.currentRx)
            && f'.trackFreq == f.trackFreq && f'.digiMode == f.digiMode
            && g' == g.(newFrequency := 0, modeChange := if g.newFrequency > 0 then false else g.modeChange)
  {
    if g.newFrequency > 0 {
      var f1 := f.(skip := false, took := true, keyed := false, out := X0, firstTime := false);
      hide SetupDataMode;
      SetupIs(f1.(currentWsjtx := g.newFrequency), g.(newFrequency := 0), e);
    }
  }

  lemma KeyIs(e: Env, f: FormState, g: Shared)
    requires !f.skip && e.portOpen && g.txFlg
    ensures var (f', g') := Key(e, f, g);
            && f'.log == f.log + (Preparation(e, g) + Retune(f, f.currentWsjtx))
            && f'.currentTx == f.currentWsjtx && f'.currentWsjtx == f.currentWsjtx && f'.split == SplitFT8
            && f'.currentRx == f.currentWsjtx + g.txDf
            && f'.lastTx == (if f.currentTx == f.currentWsjtx then f.lastTx else f.currentWsjtx)
            && f'.trackFreq == f.trackFreq && f'.digiMode == g.mode && f'.firstTime == f.firstTime
            && f'.skip == f.skip && f'.out == X1 && g' == g.(modeChange := false)
  {
    var f2 := f.(keyed := true, log := f.log + Preparation(e, g), out := X1, digiMode := g.mode);
    assert Key(e, f, g) == SetupDataMode(f2, g, e);
    SetupIs(f2, g, e);
    assert f.log + Preparation(e, g) + Retune(f2, f.currentWsjtx) ==
        f.log + (Preparation(e, g) + Retune(f, f.currentWsjtx));
  }

  lemma FinishIs(e: Env, f: FormState, g: Shared)
    requires !f.skip && e.portOpen
    ensures var (f', g') := Finish(e, f, g);
            && f'.log == f.log +
               (if f.split == SplitFT8 && IsFt(f.digiMode) then [if g.halt then X0W0 else f.out] else [])
            && f'.currentTx == f.currentTx && f'.currentWsjtx == f.currentWsjtx && f'.split == f.split
            && f'.currentRx == f.currentRx && f'.digiMode == f.digiMode
            && f'.lastTx == f.lastTx && f'.trackFreq == f.trackFreq && f'.firstTime == f.firstTime
            && g' == g.(halt := false, newDxCall := "")
  {
  }

  /** The commands of a handling: a frequency if a change was taken over; when the status
      transmits, the preparation and a frequency if it is not the one in use; then the last word. */
  function Commands(e: Env, f: FormState, g: Shared): seq<Command> {
    var taken := g.newFrequency > 0;
    var first := if taken then Retune(f, Wanted(f, g)) else [];
    if g.txFlg then
      first + (Preparation(e, g) + (if taken then [] else Retune(f, Wanted(f, g))))
      + (if IsFt(g.mode) then [if g.halt then X0W0 else X1] else [])
    else
      first + (if (taken || f.split == SplitFT8) && IsFt(f.digiMode) then [if g.halt then X0W0 else X0] else [])
  }

  /** An active handling, outright: its commands, and the state it leaves. A halt is done with, and the
      mode of a status that transmits is the form's from then on. */
  lemma HandleIs(e: Env, f: FormState, g: Shared)
    requires Active(e, f)
    ensures var (f', g') := HandleStatus(e, f, g);
            var moves := g.txFlg || g.newFrequency > 0;
            && f'.log == f.log + Commands(e, f, g)
            && f'.currentWsjtx == Wanted(f, g) && f'.trackFreq == f.trackFreq && !f'.firstTime
            && f'.split == (if moves then SplitFT8 else f.split)
            && f'.currentTx == (if moves then Wanted(f, g) else f.currentTx)
            && f'.currentRx == (if moves then Wanted(f, g) + g.txDf else f.currentRx)
            && f'.lastTx == (if moves && f.currentTx != Wanted(f, g) then Wanted(f, g) else f.lastTx)
            && f'.digiMode == (if g.txFlg then g.mode else f.digiMode)
            && g' == g.(newFrequency := 0, halt := false, newDxCall := "",
                        modeChange := if moves then false else g.modeChange)
  {
    hide Take, Key, Finish;
    TakeIs(e, f, g);
    var (f1, g1) := Take(e, f, g);
    if g.txFlg {
      KeyIs(e, f1, g1);
    } else {
      KeyNot(e, f1, g1);
    }
    var (f2, g2) := Key(e, f1, g1);
    FinishIs(e, f2, g2);
  }

  lemma KeyNot(e: Env, f: FormState, g: Shared)
    requires !g.txFlg
    ensures Key(e, f, g) == (f, g)
  {
  }

  // ---------- Keying, halting and stopping ----------

  lemma CommandsKey(e: Env, f: FormState, g: Shared)
    ensures X1 in Commands(e, f, g) <==> g.txFlg && !g.halt && IsFt(g.mode)
    ensures X1 in Commands(e, f, g) ==>
              var log := f.log + Commands(e, f, g);
              log[|log| - 1] == X1 && Prepared(log, |log| - 1)
  {
    if g.txFlg && !g.halt && IsFt(g.mode) {
      var added := Commands(e, f, g);
      assert added[|added| - 1] == X1;
    }
  }

  /** A handling keys the transmitter exactly when the status transmits in FT4 or FT8, no halt is
      pending and the form is active; then the form is in data mode, {X1} is the last command and
      the whole preparation of the same status stands before it. */
  lemma KeysExactly(e: Env, f: FormState, g: Shared)
    ensures var (f', _) := HandleStatus(e, f, g);
            var added := if Active(e, f) then Commands(e, f, g) else [];
            && f'.log == f.log + added
            && (X1 in added <==> Active(e, f) && g.txFlg && !g.halt && IsFt(g.mode))
            && (X1 in added ==> f'.split == SplitFT8 && f'.log[|f'.log| - 1] == X1 && Prepared(f'.log, |f'.log| - 1))
  {
    hide HandleStatus, Commands, Prepared, IsFt;
    if Active(e, f) {
      HandleIs(e, f, g);
      CommandsKey(e, f, g);
    } else {
      InactiveIsSilent(e, f, g);
      assert f.log + [] == f.log;
    }
  }

  lemma InactiveIsSilent(e: Env, f: FormState, g: Shared)
    requires !Active(e, f)
    ensures var (f', g') := HandleStatus(e, f, g);
            && f'.log == f.log && f'.split == f.split && f'.trackFreq == f.trackFreq
            && f'.currentWsjtx == f.currentWsjtx && f'.digiMode == f.digiMode
            && f'.currentTx == f.currentTx && f'.currentRx == f.currentRx && f'.lastTx == f.lastTx
            && (if f.firstTime && f.split != SplitFT8
                then f'.firstTime == (g.newFrequency == 0) && g' == g.(newFrequency := 0)
                else !f'.firstTime && g' == g.(newDxCall := ""))
  {
  }

  /** A status that no longer transmits stops the transmitter exactly when the form is, or is
      put, in data mode and still holds an FT mode. */
  lemma StopsExactly(e: Env, f: FormState, g: Shared)
    requires Active(e, f) && !g.txFlg
    ensures var (f', _) := HandleStatus(e, f, g);
            var added := Commands(e, f, g);
            && f'.log == f.log + added
            && ((added != [] && added[|added| - 1] in {X0, X0W0})
                <==> (g.newFrequency > 0 || f.split == SplitFT8) && IsFt(f.digiMode))
  {
    HandleIs(e, f, g);
  }

  /** Pressing the split button while transmitting leaves the stop of that transmission unsent. */
  lemma StopLostExample(e: Env, g: Shared, f: FormState)
    requires e.portOpen && f.split == SplitFT8 && f.digiMode == "FT8" && !f.firstTime && e.action.SplitButton?
    requires !g.txFlg && g.newFrequency == 0
    ensures var f1 := Act(e, f);
            && Commands(e, f, g) == [if g.halt then X0W0 else X0]
            && Commands(e, f1, g) == []
  {
  }

  /** So does RTTY, until the next status that transmits. */
  lemma RttyLosesStop(e: Env, g: Shared, f: FormState)
    requires e.action == Rtty && !g.txFlg
    ensures Commands(e, Act(e, f), g) == if g.newFrequency > 0 then Retune(f, g.newFrequency) else []
  {
  }

  // ---------- The frequency on the air ----------

  /** The frequency the transmitter was last told; -1 before any. */
  function OnAir(log: seq<Command>): int {
    if log == [] then -1
    else match log[|log| - 1] case F(hertz) => hertz case _ => OnAir(log[..|log| - 1])
  }

  lemma {:induction false} OnAirAppend(log: seq<Command>, added: seq<Command>)
    requires NoFrequency(added)
    ensures OnAir(log + added) == OnAir(log)
    decreases |added|
  {
    if added == [] {
      assert log + added == log;
    } else {
      OnAirAppend(log, added[..|added| - 1]);
      assert (log + added)[..|log + added| - 1] == log + added[..|added| - 1];
    }
  }

  lemma OnAirAfterRetune(log: seq<Command>, before: seq<Command>, hertz: int, behind: seq<Command>)
    requires NoFrequency(before) && NoFrequency(behind)
    ensures OnAir(log + (before + [F(hertz)] + behind)) == hertz
    ensures OnAir(log + (before + behind)) == OnAir(log)
  {
    var front := log + before + [F(hertz)];
    assert front[|front| - 1] == F(hertz);
    OnAirAppend(front, behind);
    assert log + (before + [F(hertz)] + behind) == front + behind;
    OnAirAppend(log, before + behind);
  }

  predicate NoFrequency(log: seq<Command>) {
    forall i | 0 <= i < |log| :: !log[i].F?
  }

  /** A handling sends the frequency at most once. */
  lemma CommandsSplit(e: Env, f: FormState, g: Shared) returns (before: seq<Command>, behind: seq<Command>)
    ensures NoFrequency(before) && NoFrequency(behind)
    ensures Commands(e, f, g) ==
            if (g.txFlg || g.newFrequency > 0) && Retune(f, Wanted(f, g)) != [] then before + [F(Wanted(f, g))] + behind
            else before + behind
  {
    hide IsFt, Wanted;
    var last := if g.txFlg then (if IsFt(g.mode) then [if g.halt then X0W0 else X1] else [])
                else if (g.newFrequency > 0 || f.split == SplitFT8) && IsFt(f.digiMode) then
                  [if g.halt then X0W0 else X0]
                else [];
    var body := if g.txFlg then Preparation(e, g) else [];
    if g.newFrequency > 0 {
      before, behind := [], body + last;
    } else {
      before, behind := body, last;
    }
  }

  lemma OnAirAfterHandling(e: Env, f: FormState, g: Shared)
    requires Active(e, f)
    ensures OnAir(HandleStatus(e, f, g).0.log) ==
            if (g.txFlg || g.newFrequency > 0) && Retune(f, Wanted(f, g)) != [] then Wanted(f, g) else OnAir(f.log)
  {
    hide HandleStatus, Commands, OnAir;
    HandleIs(e, f, g);
    var before, behind := CommandsSplit(e, f, g);
    OnAirAfterRetune(f.log, before, Wanted(f, g), behind);
  }

  /** A handling that keys the transmitter does so on the frequency WSJT-X works on exactly when
      it retunes, or that frequency was already the last one told. */
  lemma OnFrequencyExactly(e: Env, f: FormState, g: Shared)
    requires Active(e, f) && g.txFlg && !g.halt && IsFt(g.mode)
    ensures var (f', _) := HandleStatus(e, f, g);
            && f'.currentWsjtx == Wanted(f, g)
            && (OnAir(f'.log) == f'.currentWsjtx
                <==> (f.currentTx != Wanted(f, g) && f.lastTx != Wanted(f, g)) || OnAir(f.log) == Wanted(f, g))
  {
    hide HandleStatus, OnAir;
    OnAirAfterHandling(e, f, g);
    HandleIs(e, f, g);
  }

  /** What the form believes to have sent is what the transmitter was last told. */
  predicate Synced(f: FormState) {
    f.currentTx == f.lastTx == OnAir(f.log)
  }

  /** The port can be used, and the radio's second receiver is left alone. */
  predicate Undisturbed(e: Env) {
    e.portOpen && !e.action.TuneVfo1?
  }

  lemma SendSyncs(f: FormState, e: Env)
    requires e.portOpen || e.reopens
    requires f.lastTx == OnAir(f.log)
    ensures Synced(SendTxFreq(f, e))
    ensures var f' := SendTxFreq(f, e);
            f' == f.(lastTx := f'.lastTx, log := f'.log)
            && (f'.log == f.log || f'.log == f.log + [F(f.currentTx)])
  {
    if f.currentTx != f.lastTx {
      OnAirAfterRetune(f.log, [], f.currentTx, []);
      assert f.log + ([] + [F(f.currentTx)] + []) == f.log + [F(f.currentTx)];
    }
  }

  lemma ActSyncs(e: Env, f: FormState)
    requires Undisturbed(e) && Synced(f)
    ensures Synced(Act(e, f))
  {
    hide SendTxFreq, OnAir;
    match e.action {
      case SplitButton(vfo) =>
        if f.split != SplitNone {
          var f1 := f.(trackFreq := true, split := SplitNone);
          SendSyncs(if vfo > 0 then f1.(currentTx := vfo, currentRx := vfo) else f1, e);
        }
      case TxUp(hertz) =>
        var f1 := f.(currentTx := f.currentTx + hertz);
        SendSyncs(if f1.trackFreq then f1.(trackFreq := false, split := SplitTxRx) else f1, e);
      case SendRx(vfo) =>
        SendSyncs(if (f.trackFreq || e.boxEmpty) && vfo > 0 then f.(currentTx := vfo, currentRx := vfo) else f, e);
      case SendTx => SendSyncs(f, e);
      case Announced =>
        OnAirAfterRetune(f.log, [], f.currentTx, []);
        assert f.log + ([] + [F(f.currentTx)] + []) == f.log + [F(f.currentTx)];
      case _ =>
    }
  }

  /** Tuning by hand puts the form out of step exactly when it changes the frequency: nothing is sent for it. */
  lemma TuneExactly(e: Env, f: FormState)
    requires e.action.TuneVfo1? && Synced(f)
    ensures Act(e, f).log == f.log
    ensures Synced(Act(e, f)) <==>
            !(f.split == SplitTxRx && e.action.hertz > 0 && e.action.hertz != f.currentTx)
  {
    hide OnAir;
  }

  lemma HandleSyncs(e: Env, f: FormState, g: Shared)
    requires e.portOpen && Synced(f)
    ensures Synced(HandleStatus(e, f, g).0)
  {
    hide HandleStatus, OnAir, Commands;
    if Active(e, f) {
      OnAirAfterHandling(e, f, g);
      HandleIs(e, f, g);
    } else {
      InactiveIsSilent(e, f, g);
    }
  }

  // ---------- Whole runs ----------

  /** One completed action, on the form's state and the shared variables. */
  lemma PerformIs(event: Event<Packet, Env>, f: FormState, g: Shared)
    ensures Perform(PROGRAM, event, f, g) ==
            match event
            case Post(p) => (f, PostStatus(p, g))
            case Handle(e) => HandleStatus(e, f, g)
            case Click(e) => (Act(e, f), g)
  {
    match event {
      case Post(p) => PostIsWrites(p, g);
      case Handle(e) => HandleIsReads(e, f, g);
      case Click(e) =>
    }
  }

  predicate AllPrepared(log: seq<Command>) {
    forall i | 0 <= i < |log| && log[i] == X1 :: Prepared(log, i)
  }

  /** Tracking is left only together with the unsplit mode. */
  predicate SplitWhenFixed(f: FormState) {
    !f.trackFreq ==> f.split != SplitNone
  }

  /** The one-slot handshake for the frequency. */
  predicate FrequencySlot(g: Shared) {
    g.newFrequency == 0 || g.newFrequency == g.curFrequency
  }

  /** Once a frequency has been taken over: an empty slot means that the form works on the current one. */
  predicate Followed(f: FormState, g: Shared) {
    !f.firstTime && (g.newFrequency == 0 ==> f.currentWsjtx == g.curFrequency)
  }

  predicate Takes(e: Env, f: FormState, g: Shared) {
    Active(e, f) && g.newFrequency > 0
  }

  /** Somewhere in the history a frequency has been taken over. */
  predicate HasTaken(history: seq<Event<Packet, Env>>, f: FormState, g: Shared) {
    history != []
    && (var front, last := history[..|history| - 1], history[|history| - 1];
        var (f', g') := Serial(PROGRAM, f, g, front);
        HasTaken(front, f, g) || (last.Handle? && Takes(last.e, f', g')))
  }

  lemma PreparedStays(log: seq<Command>, more: seq<Command>, i: nat)
    requires i <= |log|
    ensures Prepared(log + more, i) == Prepared(log, i)
  {
  }

  lemma AppendPrepared(log: seq<Command>, added: seq<Command>)
    requires AllPrepared(log)
    requires forall i | 0 <= i < |added| && added[i] == X1 :: i == |added| - 1 && Prepared(log + added, |log| + i)
    ensures AllPrepared(log + added)
  {
    forall i | 0 <= i < |log + added| && (log + added)[i] == X1
      ensures Prepared(log + added, i)
    {
      if i < |log| {
        PreparedStays(log, added, i);
      } else {
        assert added[i - |log|] == X1;
      }
    }
  }

  lemma HandlePrepared(e: Env, f: FormState, g: Shared)
    requires AllPrepared(f.log)
    ensures AllPrepared(HandleStatus(e, f, g).0.log)
  {
    hide HandleStatus, Prepared;
    KeysExactly(e, f, g);
    var added := if Active(e, f) then Commands(e, f, g) else [];
    KeyOnlyLast(e, f, g);
    assert Active(e, f) ==> |f.log + added| - 1 == |f.log| + |added| - 1;
    AppendPrepared(f.log, added);
  }

  lemma KeyOnlyLast(e: Env, f: FormState, g: Shared)
    ensures forall i | 0 <= i < |Commands(e, f, g)| && Commands(e, f, g)[i] == X1 :: i == |Commands(e, f, g)| - 1
  {
  }

  predicate SendsAtMost(before: FormState, after: FormState) {
    after.log == before.log || (after.log == before.log + [F(after.currentTx)])
  }

  lemma SendLogs(f: FormState, e: Env)
    ensures var f' := SendTxFreq(f, e);
            && SendsAtMost(f, f') && f'.split == f.split && f'.trackFreq == f.trackFreq
            && f'.firstTime == f.firstTime && f'.currentWsjtx == f.currentWsjtx
  {
  }

  lemma SendRxLogs(f: FormState, vfo: int, e: Env)
    ensures var f' := SendRxFreq(f, vfo, e);
            && SendsAtMost(f, f') && f'.split == f.split && f'.trackFreq == f.trackFreq
            && f'.firstTime == f.firstTime && f'.currentWsjtx == f.currentWsjtx
  {
    hide SendTxFreq;
    SendLogs(if (f.trackFreq || e.boxEmpty) && vfo > 0 then f.(currentTx := vfo, currentRx := vfo) else f, e);
  }

  lemma ActLogs(e: Env, f: FormState)
    ensures SendsAtMost(f, Act(e, f))
    ensures SplitWhenFixed(f) ==> SplitWhenFixed(Act(e, f))
    ensures Act(e, f).firstTime == f.firstTime && Act(e, f).currentWsjtx == f.currentWsjtx
  {
    hide SendTxFreq, SendRxFreq;
    match e.action {
      case SplitButton(vfo) => SendRxLogs(f.(trackFreq := true, split := SplitNone), vfo, e);
      case TxUp(hertz) =>
        var f1 := f.(currentTx := f.currentTx + hertz);
        SendLogs(if f1.trackFreq then f1.(trackFreq := false, split := SplitTxRx) else f1, e);
      case SendRx(vfo) => SendRxLogs(f, vfo, e);
      case SendTx => SendLogs(f, e);
      case _ =>
    }
  }

  lemma EventKeepsForm(event: Event<Packet, Env>, f: FormState, g: Shared)
    requires AllPrepared(f.log) && SplitWhenFixed(f)
    ensures var (f', _) := Perform(PROGRAM, event, f, g);
            AllPrepared(f'.log) && SplitWhenFixed(f')
  {
    PerformIs(event, f, g);
    hide Perform, HandleStatus, Act, AllPrepared;
    match event {
      case Post(_) =>
      case Handle(e) =>
        HandlePrepared(e, f, g);
        if Active(e, f) {
          HandleIs(e, f, g);
        } else {
          InactiveIsSilent(e, f, g);
        }
      case Click(e) =>
        ActLogs(e, f);
        if Act(e, f).log != f.log {
          AppendPrepared(f.log, [F(Act(e, f).currentTx)]);
        }
    }
  }

  /** In every serial run: each {X1} follows its preparation, and the form is split whenever it
      has stopped tracking. */
  lemma {:induction false} RunsKeepForm(f: FormState, g: Shared, history: seq<Event<Packet, Env>>)
    requires AllPrepared(f.log) && SplitWhenFixed(f)
    ensures var (f', _) := Serial(PROGRAM, f, g, history);
            AllPrepared(f'.log) && SplitWhenFixed(f')
  {
    hide Perform, AllPrepared;
    if history != [] {
      var front := history[..|history| - 1];
      RunsKeepForm(f, g, front);
      var (f', g') := Serial(PROGRAM, f, g, front);
      EventKeepsForm(history[|history| - 1], f', g');
    }
  }

  predicate PositiveFrequencies(history: seq<Event<Packet, Env>>) {
    forall i | 0 <= i < |history| :: history[i].Post? ==> history[i].p.frequency > 0
  }

  lemma EventKeepsSlot(event: Event<Packet, Env>, f: FormState, g: Shared, taken: bool)
    requires FrequencySlot(g) && (taken ==> Followed(f, g))
    ensures var (f', g') := Perform(PROGRAM, event, f, g);
            && FrequencySlot(g')
            && ((event.Post? ==> event.p.frequency > 0) && (taken || (event.Handle? && Takes(event.e, f, g)))
                ==> Followed(f', g'))
  {
    PerformIs(event, f, g);
    hide Perform, HandleStatus, Act;
    match event {
      case Post(_) =>
      case Handle(e) =>
        if Active(e, f) {
          HandleIs(e, f, g);
        } else {
          InactiveIsSilent(e, f, g);
        }
      case Click(e) => ActLogs(e, f);
    }
  }

  /** In every serial run the slot holds nothing or the current frequency; with positive
      frequencies, once one has been taken over, an empty slot means the form works on it. */
  lemma {:induction false} RunsKeepSlot(f: FormState, g: Shared, history: seq<Event<Packet, Env>>)
    requires FrequencySlot(g)
    ensures var (f', g') := Serial(PROGRAM, f, g, history);
            FrequencySlot(g') && (PositiveFrequencies(history) && HasTaken(history, f, g) ==> Followed(f', g'))
  {
    hide Perform;
    if history != [] {
      var front, last := history[..|history| - 1], history[|history| - 1];
      RunsKeepSlot(f, g, front);
      var (f', g') := Serial(PROGRAM, f, g, front);
      assert PositiveFrequencies(history) ==> PositiveFrequencies(front);
      EventKeepsSlot(last, f', g', PositiveFrequencies(front) && HasTaken(front, f, g));
    }
  }

  predicate Calm(event: Event<Packet, Env>) {
    event.Post? || Undisturbed(event.e)
  }

  /** Every action finds the port open, and nobody tunes the second receiver by hand. */
  predicate AllUndisturbed(history: seq<Event<Packet, Env>>) {
    forall i | 0 <= i < |history| :: Calm(history[i])
  }

  lemma {:induction false} RunsStaySynced(f: FormState, g: Shared, history: seq<Event<Packet, Env>>)
    requires Synced(f) && AllUndisturbed(history)
    ensures Synced(Serial(PROGRAM, f, g, history).0)
  {
    if history != [] {
      var front, last := history[..|history| - 1], history[|history| - 1];
      RunsStaySynced(f, g, front);
      var (f', g') := Serial(PROGRAM, f, g, front);
      PerformIs(last, f', g');
      hide Perform, HandleStatus, Act, Synced;
      assert Calm(last);
      match last {
        case Post(_) =>
        case Handle(e) => HandleSyncs(e, f', g');
        case Click(e) => ActSyncs(e, f');
      }
    }
  }

  /** In every serial run that starts in step with the transmitter and is left undisturbed, each
      handling that keys does so on the frequency WSJT-X works on. */
  lemma RunsKeyOnFrequency(f: FormState, g: Shared, history: seq<Event<Packet, Env>>, e: Env)
    requires Synced(f) && AllUndisturbed(history) && Undisturbed(e)
    ensures var (f', g') := Serial(PROGRAM, f, g, history);
            var (f2, _) := HandleStatus(e, f', g');
            Active(e, f') && X1 in Commands(e, f', g') ==> OnAir(f2.log) == f2.currentWsjtx
  {
    RunsStaySynced(f, g, history);
    var (f', g') := Serial(PROGRAM, f, g, history);
    hide HandleStatus, Commands, OnAir;
    CommandsKey(e, f', g');
    if Active(e, f') && X1 in Commands(e, f', g') {
      OnFrequencyExactly(e, f', g');
    }
  }

  /** A frequency step while the port is closed counts as sent: the form does not send it afterwards,
      and the next transmission is keyed off frequency. */
  lemma StaleFrequencyExample(g: Shared, f: FormState)
    requires f.currentTx == f.lastTx == 7074000 && f.log == [F(7074000)]
    requires f.split == SplitFT8 && !f.trackFreq && !f.firstTime
    requires f.currentWsjtx == 7074500
    requires g.txFlg && !g.halt && g.mode == "FT8" && g.newFrequency == 0
    ensures var shut := Env(false, false, false, 0, TxUp(500));
            var open := Env(true, false, false, 0, SendTx);
            var (f', _) := HandleStatus(open, Act(shut, f), g);
            X1 in f'.log && OnAir(f'.log) == 7074000 && f'.currentWsjtx == 7074500
  {
    hide HandleStatus;
    var open := Env(true, false, false, 0, SendTx);
    var f1 := Act(Env(false, false, false, 0, TxUp(500)), f);
    assert f1 == f.(currentTx := 7074500, lastTx := 7074500);
    KeysExactly(open, f1, g);
    OnAirAfterHandling(open, f1, g);
    HandleIs(open, f1, g);
  }

  /** A frequency that counts as sent, but is not the last one told, reaches the transmitter exactly when
      that announces itself after a reset and the port is open; sending again does nothing. */
  lemma AnnouncementExactly(e: Env, f: FormState)
    requires f.currentTx == f.lastTx != OnAir(f.log) && (e.action == SendTx || e.action == Announced)
    ensures OnAir(Act(e, f).log) == f.currentTx <==> e.portOpen && e.action == Announced
  {
    var log := f.log + [F(f.currentTx)];
    assert log[|log| - 1] == F(f.currentTx);
  }

  /** The same for every interleaving of the two threads, as long as no wait times out. */
  lemma InterleavingsKeepForm(f: FormState, g: Shared, steps: seq<Step<Packet, Env>>, n: nat)
    requires n <= |steps|
    requires forall i | 0 <= i < n :: !TimesOut(After(PROGRAM, Start(f, g), steps, i), steps[i])
    requires AllPrepared(f.log) && SplitWhenFixed(f) && FrequencySlot(g)
    ensures var s := After(PROGRAM, Start(f, g), steps, n);
            && (s.form.Free? ==> AllPrepared(s.f.log) && SplitWhenFixed(s.f))
            && (s.form.Free? && !s.udp.Writing? ==>
                  FrequencySlot(s.g) &&
                  (PositiveFrequencies(s.history) && HasTaken(s.history, f, g) ==> Followed(s.f, s.g)))
  {
    RunsAreSerial(PROGRAM, f, g, steps, n);
    var s := After(PROGRAM, Start(f, g), steps, n);
    RunsKeepForm(f, g, s.history);
    RunsKeepSlot(f, g, s.history);
    hide AllPrepared, After, Serial;
  }
}
