/** What the UDP thread writes for a status, what the form does with it, and which serial
    commands reach the transmitter. */
module TxLink {
  import opened Mailbox

  /** A status message as the UDP thread has decoded it; `symbols` and `decodeMsg` are what the
      external encoder makes of its text. */
  datatype Packet = Packet(frequency: nat, mode: string, transmitting: bool, txEnabled: bool, txDf: nat,
                           msg: string, symbols: string, decodeMsg: string,
                           dxCall: string, dxGrid: string, report: string, rxDf: nat)

  /** The variables of the UDP server that the form reads. `taken` is a local of the UDP thread. */
  datatype Shared = Shared(newFrequency: nat, curFrequency: nat, taken: bool, mode: string, modeChange: bool,
                           halt: bool, txFlg: bool, txDf: nat, symbols: string, decodeMsg: string, lastMsg: string,
                           newDxCall: string, dxCall: string, dxGrid: string, report: string, rxDf: nat)

  datatype Command = M4 | M8 | Y(df: nat) | Z(symbols: string) | W(millis: int) | X1 | X0 | X0W0 | F(hertz: int)

  datatype Split = SplitNone | SplitTxRx | SplitFT8

  /** The fields of the form; the last four are locals of `ProcessUDPEvent`. */
  datatype FormState = FormState(currentTx: int, currentRx: int, currentWsjtx: int, split: Split, trackFreq: bool,
                                 digiMode: string, lastTx: int, firstTime: bool, log: seq<Command>,
                                 skip: bool, took: bool, keyed: bool, out: Command)

  datatype Action = SplitButton(vfo: int) | TxUp(hertz: int) | SendRx(vfo: int) | SendTx | TuneVfo1(hertz: int)
                  | Rtty | Announced

  /** What comes from outside during one action: whether the port is open or can be reopened, whether
      the frequency box is empty, the time to the end of the slot, and what the user, the radio or the
      transmitter does; `Announced` is the transmitter's message after a reset. */
  datatype Env = Env(portOpen: bool, reopens: bool, boxEmpty: bool, timeToEnd: int, action: Action)

  // ---------- The UDP thread, statement by statement ----------

  const WRITES: nat := 14

  function WriteStep(i: nat, p: Packet, g: Shared): Shared {
    match i
    case 0 =>
      if p.frequency != g.curFrequency && g.newFrequency == 0 then g.(newFrequency := p.frequency, taken := true)
      else g.(taken := false)
    case 1 => if g.taken then g.(curFrequency := g.newFrequency) else g
    case 2 => if g.mode != p.mode then g.(modeChange := true) else g
    case 3 => g.(mode := p.mode)
    case 4 => if g.txFlg && !p.transmitting && !p.txEnabled then g.(halt := true) else g
    case 5 => g.(txFlg := p.transmitting)
    case 6 => g.(txDf := p.txDf)
    case 7 => if g.lastMsg == "" || g.lastMsg != p.msg then g.(symbols := p.symbols, decodeMsg := p.decodeMsg) else g
    case 8 => g.(lastMsg := p.msg)
    case 9 => if p.dxCall != g.dxCall then g.(newDxCall := p.dxCall) else g
    case 10 => g.(dxCall := p.dxCall)
    case 11 => g.(dxGrid := p.dxGrid)
    case 12 => g.(report := p.report)
    case _ => g.(rxDf := p.rxDf)
  }

  // ---------- The form's helpers ----------

  /** `SendTXfreq`. The frequency counts as sent even when the port is closed. */
  function SendTxFreq(f: FormState, e: Env): FormState {
    if f.currentTx == f.lastTx then f
    else
      var f1 := f.(lastTx := f.currentTx);
      if e.portOpen || e.reopens then f1.(log := f1.log + [F(f1.currentTx)]) else f1
  }

  /** `SetupDataMode`. */
  function SetupDataMode(f: FormState, g: Shared, e: Env): (FormState, Shared) {
    var f1 := f.(split := SplitFT8);
    var f2 := if f1.currentTx != f1.currentWsjtx then SendTxFreq(f1.(currentTx := f1.currentWsjtx), e) else f1;
    (f2.(currentRx := f2.currentTx + g.txDf), g.(modeChange := false))
  }

  /** `SendRXfreq`. The receiver's frequency is taken over while the form follows it or shows none. */
  function SendRxFreq(f: FormState, vfo: int, e: Env): FormState {
    var f1 := if (f.trackFreq || e.boxEmpty) && vfo > 0 then f.(currentTx := vfo, currentRx := vfo) else f;
    SendTxFreq(f1, e)
  }

  /** Everything else that happens on the form, and the radio's own tuning knob. */
  function Act(e: Env, f: FormState): FormState {
    match e.action
    case SplitButton(vfo) =>
      if f.split != SplitNone then SendRxFreq(f.(trackFreq := true, split := SplitNone), vfo, e)
      else f.(trackFreq := false, split := SplitTxRx)
    case TxUp(hertz) =>
      var f1 := f.(currentTx := f.currentTx + hertz);
      SendTxFreq(if f1.trackFreq then f1.(trackFreq := false, split := SplitTxRx) else f1, e)
    case SendRx(vfo) => SendRxFreq(f, vfo, e)
    case SendTx => SendTxFreq(f, e)
    case TuneVfo1(hertz) => if f.split == SplitTxRx && hertz > 0 then f.(currentTx := hertz) else f
    case Rtty => f.(digiMode := "TTY")
    case Announced => if e.portOpen then f.(log := f.log + [F(f.currentTx)]) else f
  }

  // ---------- `ProcessUDPEvent`, statement by statement ----------

  const READS: nat := 15

  predicate IsFt(mode: string) {
    mode == "FT4" || mode == "FT8"
  }

  function ReadStep(i: nat, e: Env, f: FormState, g: Shared): (FormState, Shared) {
    var active := !f.skip && e.portOpen;
    match i
    case 0 =>
      var skip := f.firstTime && f.split != SplitFT8;
      (f.(skip := skip, took := skip && g.newFrequency > 0, keyed := false, out := X0), g)
    case 1 =>
      if !f.skip then (f.(firstTime := false), g)
      else if f.took then (f.(firstTime := false), g.(newFrequency := 0)) else (f, g)
    case 2 =>
      if active && g.newFrequency > 0 then (f.(took := true, currentWsjtx := g.newFrequency), g)
      else (f.(took := false), g)
    case 3 => if active && f.took then (f, g.(newFrequency := 0)) else (f, g)
    case 4 => if active && f.took then SetupDataMode(f, g, e) else (f, g)
    case 5 =>
      if active && g.txFlg then (f.(keyed := true, log := f.log + [if g.mode == "FT4" then M4 else M8]), g) else (f, g)
    case 6 => if f.keyed then (f.(log := f.log + [Y(g.txDf)]), g) else (f, g)
    case 7 => if f.keyed then (f.(log := f.log + [Z(g.symbols)]), g) else (f, g)
    case 8 =>
      if f.keyed then (f.(log := f.log + [W(if g.decodeMsg != "TUNE" then e.timeToEnd else 30000)]), g) else (f, g)
    case 9 => if f.keyed then (f.(out := X1, digiMode := g.mode), g) else (f, g)
    case 10 => if f.keyed then SetupDataMode(f, g, e) else (f, g)
    case 11 => if active && g.halt then (f.(out := X0W0), g) else (f, g)
    case 12 => if active then (f, g.(halt := false)) else (f, g)
    case 13 => if active && f.split == SplitFT8 && IsFt(f.digiMode) then (f.(log := f.log + [f.out]), g) else (f, g)
    case _ => if !f.skip then (f, g.(newDxCall := "")) else (f, g)
  }

  const PROGRAM: Program<Packet, Shared, FormState, Env> :=
    Program(WRITES, (i, p, g) => WriteStep(i, p, g), READS, (i, e, f, g) => ReadStep(i, e, f, g), (e, f) => Act(e, f))

  // ---------- A whole post and a whole handling ----------

  function PostStatus(p: Packet, g: Shared): Shared {
    var isNew := p.frequency != g.curFrequency && g.newFrequency == 0;
    var encode := g.lastMsg == "" || g.lastMsg != p.msg;
    Shared(if isNew then p.frequency else g.newFrequency, if isNew then p.frequency else g.curFrequency, isNew,
           p.mode, g.modeChange || g.mode != p.mode,
           g.halt || (g.txFlg && !p.transmitting && !p.txEnabled), p.transmitting, p.txDf,
           if encode then p.symbols else g.symbols, if encode then p.decodeMsg else g.decodeMsg, p.msg,
           if p.dxCall != g.dxCall then p.dxCall else g.newDxCall, p.dxCall, p.dxGrid, p.report, p.rxDf)
  }

  lemma WriteOne(p: Packet, g: Shared, n: nat)
    ensures WriteSome(PROGRAM, p, g, 0) == g
    ensures WriteSome(PROGRAM, p, g, n + 1) == WriteStep(n, p, WriteSome(PROGRAM, p, g, n))
  {
  }

  lemma FirstWrites(p: Packet, g: Shared)
    ensures WriteSome(PROGRAM, p, g, 4) ==
            (var isNew := p.frequency != g.curFrequency && g.newFrequency == 0;
             g.(newFrequency := if isNew then p.frequency else g.newFrequency,
                curFrequency := if isNew then p.frequency else g.curFrequency,
                taken := isNew, mode := p.mode, modeChange := g.modeChange || g.mode != p.mode))
  {
    hide WriteSome;
    WriteOne(p, g, 0);
    WriteOne(p, g, 1);
    WriteOne(p, g, 2);
    WriteOne(p, g, 3);
  }

  lemma MiddleWrites(p: Packet, g: Shared)
    ensures var h := WriteSome(PROGRAM, p, g, 4);
            WriteSome(PROGRAM, p, g, 9) ==
            (var encode := h.lastMsg == "" || h.lastMsg != p.msg;
             h.(halt := h.halt || (h.txFlg && !p.transmitting && !p.txEnabled), txFlg := p.transmitting, txDf := p.txDf,
                symbols := if encode then p.symbols else h.symbols,
                decodeMsg := if encode then p.decodeMsg else h.decodeMsg, lastMsg := p.msg))
  {
    hide WriteSome;
    WriteOne(p, g, 4);
    WriteOne(p, g, 5);
    WriteOne(p, g, 6);
    WriteOne(p, g, 7);
    WriteOne(p, g, 8);
  }

  lemma LastWrites(p: Packet, g: Shared)
    ensures var h := WriteSome(PROGRAM, p, g, 9);
            WriteSome(PROGRAM, p, g, 14) ==
            h.(newDxCall := if p.dxCall != h.dxCall then p.dxCall else h.newDxCall,
               dxCall := p.dxCall, dxGrid := p.dxGrid, report := p.report, rxDf := p.rxDf)
  {
    hide WriteSome;
    WriteOne(p, g, 9);
    WriteOne(p, g, 10);
    WriteOne(p, g, 11);
    WriteOne(p, g, 12);
    WriteOne(p, g, 13);
  }

  /** The fourteen statements of the UDP thread, done without interruption. */
  lemma PostIsWrites(p: Packet, g: Shared)
    ensures WriteSome(PROGRAM, p, g, WRITES) == PostStatus(p, g)
  {
    hide WriteSome;
    FirstWrites(p, g);
    MiddleWrites(p, g);
    LastWrites(p, g);
  }

  // ---------- A whole handling, part by part ----------

  /** After the first statements: what the form has taken over from a change of frequency. */
  function Take(e: Env, f: FormState, g: Shared): (FormState, Shared) {
    if f.firstTime && f.split != SplitFT8 then
      var pending := g.newFrequency > 0;
      (f.(skip := true, took := false, keyed := false, out := X0, firstTime := !pending),
       g.(newFrequency := if pending then 0 else g.newFrequency))
    else
      var f1 := f.(skip := false, took := e.portOpen && g.newFrequency > 0,
                   keyed := false, out := X0, firstTime := false);
      if f1.took then SetupDataMode(f1.(currentWsjtx := g.newFrequency), g.(newFrequency := 0), e) else (f1, g)
  }

  /** The commands of a status that transmits. */
  function Preparation(e: Env, g: Shared): seq<Command> {
    [if g.mode == "FT4" then M4 else M8, Y(g.txDf), Z(g.symbols),
     W(if g.decodeMsg != "TUNE" then e.timeToEnd else 30000)]
  }

  function Key(e: Env, f: FormState, g: Shared): (FormState, Shared) {
    if !f.skip && e.portOpen && g.txFlg then
      SetupDataMode(f.(keyed := true, log := f.log + Preparation(e, g), out := X1, digiMode := g.mode), g, e)
    else (f, g)
  }

  /** Halting, and the last command of the handling. */
  function Finish(e: Env, f: FormState, g: Shared): (FormState, Shared) {
    if f.skip then (f, g)
    else if !e.portOpen then (f, g.(newDxCall := ""))
    else
      var f1 := if g.halt then f.(out := X0W0) else f;
      (if f1.split == SplitFT8 && IsFt(f1.digiMode) then f1.(log := f1.log + [f1.out]) else f1,
       g.(halt := false, newDxCall := ""))
  }

  function HandleStatus(e: Env, f: FormState, g: Shared): (FormState, Shared) {
    var (f1, g1) := Take(e, f, g);
    var (f2, g2) := Key(e, f1, g1);
    Finish(e, f2, g2)
  }

  lemma ReadOne(e: Env, f: FormState, g: Shared, n: nat)
    ensures ReadSome(PROGRAM, e, f, g, 0) == (f, g)
    ensures var (f', g') := ReadSome(PROGRAM, e, f, g, n);
            ReadSome(PROGRAM, e, f, g, n + 1) == ReadStep(n, e, f', g')
  {
  }

  lemma ReadsTake(e: Env, f: FormState, g: Shared)
    ensures ReadSome(PROGRAM, e, f, g, 5) == Take(e, f, g)
  {
    hide ReadSome, SetupDataMode;
    ReadOne(e, f, g, 0);
    ReadOne(e, f, g, 1);
    ReadOne(e, f, g, 2);
    ReadOne(e, f, g, 3);
    ReadOne(e, f, g, 4);
  }

  lemma ReadsKey(e: Env, f: FormState, g: Shared)
    requires !ReadSome(PROGRAM, e, f, g, 5).0.keyed
    ensures var (f', g') := ReadSome(PROGRAM, e, f, g, 5);
            ReadSome(PROGRAM, e, f, g, 11) == Key(e, f', g')
  {
    hide ReadSome, SetupDataMode;
    ReadOne(e, f, g, 5);
    ReadOne(e, f, g, 6);
    ReadOne(e, f, g, 7);
    ReadOne(e, f, g, 8);
    ReadOne(e, f, g, 9);
    ReadOne(e, f, g, 10);
    var (f', g') := ReadSome(PROGRAM, e, f, g, 5);
    var p := Preparation(e, g');
    assert f'.log + [p[0]] + [p[1]] + [p[2]] + [p[3]] == f'.log + p;
  }

  lemma ReadsFinish(e: Env, f: FormState, g: Shared)
    ensures var (f', g') := ReadSome(PROGRAM, e, f, g, 11);
            ReadSome(PROGRAM, e, f, g, 15) == Finish(e, f', g')
  {
    hide ReadSome, ReadStep;
    ReadOne(e, f, g, 11);
    ReadOne(e, f, g, 12);
    ReadOne(e, f, g, 13);
    ReadOne(e, f, g, 14);
    var (f', g') := ReadSome(PROGRAM, e, f, g, 11);
    FinishSteps(e, f', g');
  }

  /** The last four statements, one behind the other. */
  lemma FinishSteps(e: Env, f: FormState, g: Shared)
    ensures var (f1, g1) := ReadStep(11, e, f, g);
            var (f2, g2) := ReadStep(12, e, f1, g1);
            var (f3, g3) := ReadStep(13, e, f2, g2);
            ReadStep(14, e, f3, g3) == Finish(e, f, g)
  {
    hide IsFt;
  }

  /** The fifteen statements of the form, done without interruption. */
  lemma HandleIsReads(e: Env, f: FormState, g: Shared)
    ensures ReadSome(PROGRAM, e, f, g, READS) == HandleStatus(e, f, g)
  {
    ReadsTake(e, f, g);
    ReadsKey(e, f, g);
    ReadsFinish(e, f, g);
  }
}
