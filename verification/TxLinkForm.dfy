/** The form and the UDP thread's side of the mailbox as the source writes them: fields that
    change step by step, and a log of what is written to the serial port. */
module TxLinkForm {
  import opened TxLink
  import opened TxLinkSafety

  /** The variables of the UDP server; `taken` is a local of its thread. */
  class UdpServer {
    var newFrequency: nat
    var curFrequency: nat
    var taken: bool
    var mode: string
    var modeChange: bool
    var halt: bool
    var txFlg: bool
    var txDf: nat
    var symbols: string
    var decodeMsg: string
    var lastMsg: string
    var newDxCall: string
    var dxCall: string
    var dxGrid: string
    var report: string
    var rxDf: nat

    constructor ()
      ensures Value() == Shared(0, 0, false, "FT8", true, false, false, 0, "", "NOCALL", "", "", "", "", "", 0)
    {
      newFrequency, curFrequency, taken, mode, modeChange, halt, txFlg, txDf :=
        0, 0, false, "FT8", true, false, false, 0;
      symbols, decodeMsg, lastMsg, newDxCall, dxCall, dxGrid, report, rxDf := "", "NOCALL", "", "", "", "", "", 0;
    }

    function Value(): Shared
      reads this
    {
      Shared(newFrequency, curFrequency, taken, mode, modeChange, halt, txFlg, txDf, symbols, decodeMsg, lastMsg,
             newDxCall, dxCall, dxGrid, report, rxDf)
    }

    /** The status branch of `ProcessPacket`, behind its wait. */
    method ProcessStatus(p: Packet)
      modifies this
      ensures Value() == PostStatus(p, old(Value()))
    {
      TakeFrequencyAndMode(p);
      TakeTransmission(p);
      TakeStation(p);
    }

    method TakeFrequencyAndMode(p: Packet)
      modifies this`taken, this`newFrequency, this`curFrequency, this`mode, this`modeChange
      ensures taken == (p.frequency != old(curFrequency) && old(newFrequency) == 0)
      ensures newFrequency == (if taken then p.frequency else old(newFrequency))
      ensures curFrequency == (if taken then p.frequency else old(curFrequency))
      ensures mode == p.mode && modeChange == (old(modeChange) || old(mode) != p.mode)
    {
      taken := false;
      if p.frequency != curFrequency && newFrequency == 0 {
        newFrequency := p.frequency;
        curFrequency := newFrequency;
        taken := true;
      }
      if mode != p.mode {
        modeChange := true;
      }
      mode := p.mode;
    }

    method TakeTransmission(p: Packet)
      modifies this`halt, this`txFlg, this`txDf, this`symbols, this`decodeMsg, this`lastMsg
      ensures halt == (old(halt) || (old(txFlg) && !p.transmitting && !p.txEnabled))
      ensures txFlg == p.transmitting && txDf == p.txDf && lastMsg == p.msg
      ensures (symbols, decodeMsg) ==
              if old(lastMsg) == "" || old(lastMsg) != p.msg then (p.symbols, p.decodeMsg)
              else (old(symbols), old(decodeMsg))
    {
      if txFlg && !p.transmitting && !p.txEnabled {
        halt := true;
      }
      txFlg := p.transmitting;
      txDf := p.txDf;
      if lastMsg == "" || lastMsg != p.msg {
        symbols, decodeMsg := p.symbols, p.decodeMsg;
      }
      lastMsg := p.msg;
    }

    method TakeStation(p: Packet)
      modifies this`newDxCall, this`dxCall, this`dxGrid, this`report, this`rxDf
      ensures newDxCall == (if p.dxCall != old(dxCall) then p.dxCall else old(newDxCall))
      ensures dxCall == p.dxCall && dxGrid == p.dxGrid && report == p.report && rxDf == p.rxDf
    {
      if p.dxCall != dxCall {
        newDxCall := p.dxCall;
      }
      dxCall := p.dxCall;
      dxGrid := p.dxGrid;
      report := p.report;
      rxDf := p.rxDf;
    }
  }

  class TxLinkForm {
    const server: UdpServer
    var currentTx: int
    var currentRx: int
    var currentWsjtx: int
    var split: Split
    var trackFreq: bool
    var digiMode: string
    var lastTx: int
    var firstTime: bool
    var log: seq<Command>

    constructor (server: UdpServer, split: Split)
      ensures this.server == server
      ensures Value() ==
              FormState(10120000, 10120000, 18100000, split, true, "FT8", -1, true, [], false, false, false, X0)
    {
      this.server := server;
      currentTx, currentRx, currentWsjtx := 10120000, 10120000, 18100000;
      this.split, trackFreq, digiMode, lastTx, firstTime, log := split, true, "FT8", -1, true, [];
    }

    function Value(): FormState
      reads this
    {
      FormState(currentTx, currentRx, currentWsjtx, split, trackFreq, digiMode, lastTx, firstTime, log,
                false, false, false, X0)
    }

    method WriteSerialPort(command: Command)
      modifies this`log
      ensures log == old(log) + [command]
    {
      log := log + [command];
    }

    method SendTxFreq(e: Env)
      modifies this`lastTx, this`log
      ensures Value() == TxLink.SendTxFreq(old(Value()), e)
      ensures lastTx == currentTx
      ensures log == if old(lastTx) != currentTx && (e.portOpen || e.reopens)
                     then old(log) + [F(currentTx)] else old(log)
      ensures (e.portOpen || e.reopens) && old(lastTx) == OnAir(old(log)) ==> Synced(Value())
    {
      hide OnAir;
      if e.portOpen || e.reopens {
        SendSyncsWhen(Value(), e);
      }
      if currentTx == lastTx {
        return;
      }
      lastTx := currentTx;
      if e.portOpen || e.reopens {
        WriteSerialPort(F(currentTx));
      }
    }

    method SetupDataMode(e: Env)
      modifies this, server
      ensures (Value(), server.Value()) == TxLink.SetupDataMode(old(Value()), old(server.Value()), e)
      ensures split == SplitFT8 && currentTx == currentWsjtx == old(currentWsjtx)
              && currentRx == currentTx + server.txDf
      ensures log == old(log) || log == old(log) + [F(currentTx)]
      ensures e.portOpen && Synced(old(Value())) ==> Synced(Value())
    {
      hide OnAir;
      split := SplitFT8;
      if currentTx != currentWsjtx {
        currentTx := currentWsjtx;
        SendTxFreq(e);
      }
      currentRx := currentTx + server.txDf;
      if server.modeChange {
        server.modeChange := false;
      }
    }

    method SendRxFreq(vfo: int, e: Env)
      modifies this
      ensures Value() == TxLink.SendRxFreq(old(Value()), vfo, e)
      ensures (currentTx, currentRx) ==
              if (trackFreq || e.boxEmpty) && vfo > 0 then (vfo, vfo) else (old(currentTx), old(currentRx))
      ensures split == old(split) && trackFreq == old(trackFreq) && SendsAtMost(old(Value()), Value())
      ensures e.portOpen && Synced(old(Value())) ==> Synced(Value())
    {
      hide OnAir;
      if trackFreq || e.boxEmpty {
        if vfo > 0 {
          currentTx, currentRx := vfo, vfo;
        }
      }
      SendTxFreq(e);
    }

    method FixFreqBtnClicked(vfo: int, e: Env)
      modifies this
      ensures Value() == Act(e.(action := SplitButton(vfo)), old(Value()))
      ensures trackFreq <==> old(split) != SplitNone
      ensures split == if trackFreq then SplitNone else SplitTxRx
      ensures SendsAtMost(old(Value()), Value()) && (!trackFreq ==> log == old(log) && currentTx == old(currentTx))
      ensures e.portOpen && Synced(old(Value())) ==> Synced(Value())
    {
      hide OnAir;
      if split != SplitNone {
        trackFreq, split := true, SplitNone;
      } else {
        trackFreq, split := false, SplitTxRx;
      }
      if trackFreq {
        SendRxFreq(vfo, e);
      }
    }

    method FixTxUp(hertz: int, e: Env)
      modifies this
      ensures Value() == Act(e.(action := TxUp(hertz)), old(Value()))
      ensures currentTx == old(currentTx) + hertz && lastTx == currentTx && !trackFreq
      ensures split == if old(trackFreq) then SplitTxRx else old(split)
      ensures SendsAtMost(old(Value()), Value()) && (SplitWhenFixed(old(Value())) ==> SplitWhenFixed(Value()))
      ensures e.portOpen && Synced(old(Value())) ==> Synced(Value())
    {
      hide OnAir;
      currentTx := currentTx + hertz;
      if trackFreq {
        trackFreq, split := false, SplitTxRx;
      }
      SendTxFreq(e);
    }

    method FollowFrequency(e: Env)
      modifies this, server
      ensures (Value(), server.Value()) ==
              TxLink.SetupDataMode(old(Value()).(currentWsjtx := old(server.newFrequency)),
                                   old(server.Value()).(newFrequency := 0), e)
    {
      hide TxLink.SetupDataMode;
      currentWsjtx := server.newFrequency;
      server.newFrequency := 0;
      SetupDataMode(e);
    }

    /** The answer to the transmitter's message after a reset: the frequency is sent once more. */
    method AnswerAnnouncement(e: Env)
      modifies this`log
      ensures Value() == Act(e.(action := Announced), old(Value()))
      ensures e.portOpen ==> OnAir(log) == currentTx
      ensures e.portOpen && lastTx == currentTx ==> Synced(Value())
    {
      if e.portOpen {
        WriteSerialPort(F(currentTx));
      }
    }

    /** The start of `ProcessUDPEvent`, up to taking over a new frequency; true when the event ends there. */
    method TakeFrequency(e: Env) returns (skip: bool)
      modifies this, server
      ensures var (f, g) := Take(e, old(Value()), old(server.Value()));
              skip == f.skip && Value() == Persistent(f) && server.Value() == g
    {
      hide TxLink.SetupDataMode, Take;
      ghost var f0, g0 := Value(), server.Value();
      TakeParts(e, f0, g0);
      if firstTime && split != SplitFT8 {
        if server.newFrequency > 0 {
          server.newFrequency := 0;
          firstTime := false;
        }
        return true;
      }
      firstTime := false;
      if e.portOpen {
        if server.newFrequency > 0 {
          FollowFrequency(e);
        }
      }
      return false;
    }

    method WritePreparation(e: Env)
      modifies this`log
      ensures log == old(log) + Preparation(e, server.Value())
      ensures log == old(log) + [if server.mode == "FT4" then M4 else M8, Y(server.txDf), Z(server.symbols),
                                 W(if server.decodeMsg == "TUNE" then 30000 else e.timeToEnd)]
    {
      WriteSerialPort(if server.mode == "FT4" then M4 else M8);
      WriteSerialPort(Y(server.txDf));
      WriteSerialPort(Z(server.symbols));
      WriteSerialPort(W(if server.decodeMsg != "TUNE" then e.timeToEnd else 30000));
    }

    /** The branch of `ProcessUDPEvent` for a status that transmits; the command to send last. */
    method PrepareKey(e: Env) returns (str: Command)
      requires e.portOpen
      modifies this, server
      ensures var (f, g) := Key(e, old(Value()), old(server.Value()));
              Value() == Persistent(f) && server.Value() == g && str == f.out
    {
      hide TxLink.SetupDataMode, Preparation;
      ghost var f0, g0 := Value(), server.Value();
      str := X0;
      if server.txFlg {
        WritePreparation(e);
        str := X1;
      }
      if str != X0 {
        digiMode := server.mode;
        SetupScratch(f0.(keyed := true, log := f0.log + Preparation(e, g0), out := X1, digiMode := g0.mode), g0, e);
        SetupDataMode(e);
      }
    }

    /** The end of `ProcessUDPEvent`. */
    method FinishEvent(e: Env, command: Command)
      requires e.portOpen
      modifies this`log, server`halt, server`newDxCall
      ensures var (f, g) := Finish(e, old(Value()).(out := command), old(server.Value()));
              Value() == Persistent(f) && server.Value() == g
      ensures !server.halt && server.newDxCall == ""
      ensures log == old(log) + if split == SplitFT8 && digiMode in {"FT4", "FT8"}
                                then [if old(server.halt) then X0W0 else command] else []
    {
      var str := command;
      if server.halt {
        str := X0W0;
        server.halt := false;
      }
      if split == SplitFT8 && IsFt(digiMode) {
        WriteSerialPort(str);
      }
      server.newDxCall := "";
    }

    method ProcessUdpEvent(e: Env)
      modifies this, server
      ensures var (f, g) := HandleStatus(e, old(Value()), old(server.Value()));
              Value() == Persistent(f) && server.Value() == g
      ensures Active(e, old(Value())) ==>
                && !server.halt && server.newFrequency == 0
                && digiMode == (if server.txFlg then server.mode else old(digiMode))
    {
      hide Finish, Key, Take, HandleStatus, Active;
      HandleParts(e, Value(), server.Value());
      ActiveLeaves(e, Value(), server.Value());
      ghost var f0, g0 := Value(), server.Value();
      var skip := TakeFrequency(e);
      ghost var (f1, g1) := Take(e, f0, g0);
      TakeScratch(e, f0, g0);
      if skip {
        SkippedIs(e, f1, g1);
        return;
      }
      if e.portOpen {
        var str := PrepareKey(e);
        KeyScratch(e, f1, g1);
        ghost var (f2, g2) := Key(e, f1, g1);
        FinishEvent(e, str);
        FinishScratch(e, f2, g2);
      } else {
        ClosedIs(e, f1, g1);
        server.newDxCall := "";
      }
    }
  }

  lemma HandleParts(e: Env, f: FormState, g: Shared)
    ensures var (f1, g1) := Take(e, f, g);
            var (f2, g2) := Key(e, f1, g1);
            HandleStatus(e, f, g) == Finish(e, f2, g2)
  {
    hide Finish, Key, Take;
  }

  /** What an active handling leaves, whatever was there. */
  lemma ActiveLeaves(e: Env, f: FormState, g: Shared)
    ensures var (f', g') := HandleStatus(e, f, g);
            Active(e, f) ==>
              && !g'.halt && g'.newFrequency == 0 && g'.txFlg == g.txFlg && g'.mode == g.mode
              && f'.digiMode == if g.txFlg then g.mode else f.digiMode
  {
    hide HandleStatus, Commands, Wanted;
    if Active(e, f) {
      HandleIs(e, f, g);
    }
  }

  lemma SendSyncsWhen(f: FormState, e: Env)
    requires e.portOpen || e.reopens
    ensures f.lastTx == OnAir(f.log) ==> Synced(TxLink.SendTxFreq(f, e))
  {
    hide OnAir;
    if f.lastTx == OnAir(f.log) {
      SendSyncs(f, e);
    }
  }

  // ---------- The locals of `ProcessUDPEvent` do not outlive it ----------

  lemma SetupScratch(f: FormState, g: Shared, e: Env)
    ensures SetupDataMode(Persistent(f), g, e) == (Persistent(SetupDataMode(f, g, e).0), SetupDataMode(f, g, e).1)
    ensures SetupDataMode(f, g, e).0.out == f.out && SetupDataMode(f, g, e).0.skip == f.skip
  {
  }

  /** `Take` for a form between two events, case by case. */
  lemma TakeParts(e: Env, f: FormState, g: Shared)
    requires f == Persistent(f)
    ensures var (f', g') := Take(e, f, g);
            if f.firstTime && f.split != SplitFT8 then
              && f'.skip
              && Persistent(f') == (if g.newFrequency > 0 then f.(firstTime := false) else f)
              && g' == g.(newFrequency := 0)
            else if e.portOpen && g.newFrequency > 0 then
              && !f'.skip
              && (Persistent(f'), g') ==
                 SetupDataMode(f.(firstTime := false, currentWsjtx := g.newFrequency), g.(newFrequency := 0), e)
            else !f'.skip && Persistent(f') == f.(firstTime := false) && g' == g
  {
    var f1 := f.(skip := false, took := true, keyed := false, out := X0, firstTime := false);
    SetupScratch(f1.(currentWsjtx := g.newFrequency), g.(newFrequency := 0), e);
  }

  lemma TakeScratch(e: Env, f: FormState, g: Shared)
    ensures !Take(e, f, g).0.keyed && Take(e, f, g).0.out == X0
  {
  }

  lemma KeyScratch(e: Env, f: FormState, g: Shared)
    requires !f.skip && e.portOpen && f.out == X0
    ensures Persistent(Key(e, f, g).0) == Persistent(Key(e, Persistent(f), g).0)
    ensures Key(e, f, g).0.out == Key(e, Persistent(f), g).0.out && !Key(e, f, g).0.skip
    ensures Key(e, f, g).1 == Key(e, Persistent(f), g).1
  {
    hide SetupDataMode, Preparation;
    var p := f.log + Preparation(e, g);
    SetupScratch(f.(keyed := true, log := p, out := X1, digiMode := g.mode), g, e);
    SetupScratch(Persistent(f).(keyed := true, log := p, out := X1, digiMode := g.mode), g, e);
  }

  lemma FinishScratch(e: Env, f: FormState, g: Shared)
    requires !f.skip && e.portOpen
    ensures Persistent(Finish(e, f, g).0) == Persistent(Finish(e, Persistent(f).(out := f.out), g).0)
    ensures Finish(e, f, g).1 == Finish(e, Persistent(f).(out := f.out), g).1
  {
  }

  lemma SkippedIs(e: Env, f: FormState, g: Shared)
    requires f.skip
    ensures Key(e, f, g) == (f, g) && Finish(e, f, g) == (f, g)
  {
  }

  lemma ClosedIs(e: Env, f: FormState, g: Shared)
    requires !f.skip && !e.portOpen
    ensures Key(e, f, g) == (f, g) && Finish(e, f, g) == (f, g.(newDxCall := ""))
  {
  }

  /** The form's fields without the locals of `ProcessUDPEvent`. */
  function Persistent(f: FormState): FormState {
    f.(skip := false, took := false, keyed := false, out := X0)
  }
}
