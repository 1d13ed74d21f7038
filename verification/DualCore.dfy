// The dual-core versions of indcpa_keypair, indcpa_enc and indcpa_dec
// (components/indcpa/indcpa.c:216-347, 402-554, 611-705): two tasks that share
// one structure and three counting semaphores, and the caller that waits for both.
module DualCore {
  import opened Wrappers

  datatype Which = Keypair | Enc | Dec
  datatype Sem = Core0 | Core1 | Done

  datatype Field = Pk | Sk | Buf | A | E | PkPv | SkPv | C | M | Coins | Seed | Sp | Ep | At | B | V | K | Epp | Mp

  // The calls, and the fields of the shared structure each reads and writes.
  datatype Op =
    | RandomBytes | HashG | GenA | MultiplyA | AddE | ReducePk | PackPk
    | NoiseS | NoiseE | NttS | NttE | PackSk
    | UnpackPk | GenAt | MultiplyAt | InverseB | AddEp | ReduceB | PackCiphertext
    | NoiseSp | NttSp | NoiseEp | NoiseEpp | FromMessage | AddK | MultiplyPk | InverseV | AddEpp | ReduceV
    | UnpackSk | DecompressV | MultiplySk | InverseMp | SubtractMp | ReduceMp | ToMessage
    | DecompressB | NttB

  predicate Reads(w: Which, op: Op, f: Field) {
    match w
    case Keypair => KeypairReads(op, f)
    case Enc => EncReads(op, f)
    case Dec => DecReads(op, f)
  }

  predicate KeypairReads(op: Op, f: Field) {
    match op
    case HashG | GenA | NoiseS | NoiseE => f == Buf
    case MultiplyA => f in {A, SkPv}
    case AddE => f in {PkPv, E}
    case ReducePk => f == PkPv
    case PackPk => f in {PkPv, Buf}
    case NttS | PackSk => f == SkPv
    case NttE => f == E
    case _ => false
  }

  predicate EncReads(op: Op, f: Field) {
    match op
    case UnpackPk => f == Pk
    case GenAt => f == Seed
    case MultiplyAt => f in {At, Sp}
    case InverseB | ReduceB => f == B
    case AddEp => f in {B, Ep}
    case PackCiphertext => f in {B, V}
    case NoiseSp | NoiseEp | NoiseEpp => f == Coins
    case NttSp => f == Sp
    case FromMessage => f == M
    case AddK => f in {Epp, K}
    case MultiplyPk => f in {PkPv, Sp}
    case InverseV | ReduceV => f == V
    case AddEpp => f in {V, Epp}
    case _ => false
  }

  predicate DecReads(op: Op, f: Field) {
    match op
    case NttB => f == B
    case UnpackSk => f == Sk
    case DecompressV | DecompressB => f == C
    case MultiplySk => f in {SkPv, B}
    case InverseMp | ReduceMp | ToMessage => f == Mp
    case SubtractMp => f in {V, Mp}
    case _ => false
  }

  predicate Writes(w: Which, op: Op, f: Field) {
    match w
    case Keypair => KeypairWrites(op, f)
    case Enc => EncWrites(op, f)
    case Dec => DecWrites(op, f)
  }

  predicate KeypairWrites(op: Op, f: Field) {
    match op
    case RandomBytes | HashG => f == Buf
    case GenA => f == A
    case MultiplyA | AddE | ReducePk => f == PkPv
    case PackPk => f == Pk
    case NoiseS | NttS => f == SkPv
    case NoiseE | NttE => f == E
    case PackSk => f == Sk
    case _ => false
  }

  predicate EncWrites(op: Op, f: Field) {
    match op
    case UnpackPk => f in {PkPv, Seed}
    case GenAt => f == At
    case MultiplyAt | InverseB | AddEp | ReduceB => f == B
    case PackCiphertext => f == C
    case NoiseSp | NttSp => f == Sp
    case NoiseEp => f == Ep
    case NoiseEpp | AddK => f == Epp
    case FromMessage => f == K
    case MultiplyPk | InverseV | AddEpp | ReduceV => f == V
    case _ => false
  }

  predicate DecWrites(op: Op, f: Field) {
    match op
    case UnpackSk => f == SkPv
    case DecompressB | NttB => f == B
    case DecompressV => f == V
    case MultiplySk | InverseMp | SubtractMp | ReduceMp => f == Mp
    case ToMessage => f == M
    case _ => false
  }

  // The statements of a task.  Take waits for ever; Wait gives up after one tick
  // and its result is ignored.
  datatype Stmt =
    | Call(op: Op)
    | Give(sem: Sem)
    | Take(sem: Sem)
    | Wait(sem: Sem)
    | End

  function StmtAt(w: Which, second: bool, pc: nat): Stmt {
    match w
    case Keypair => if second then KeypairTask1(pc) else KeypairTask0(pc)
    case Enc => if second then EncTask1(pc) else EncTask0(pc)
    case Dec => if second then DecTask1(pc) else DecTask0(pc)
  }

  function KeypairTask0(pc: nat): Stmt {
    match pc
    case 0 => Call(RandomBytes)       // esp_randombytes
    case 1 => Call(HashG)             // hash_g
    case 2 => Give(Core0)
    case 3 => Call(GenA)              // gen_a
    case 4 => Take(Core1)
    case 5 => Call(MultiplyA)         // polyvec_basemul_acc_montgomery, poly_tomont
    case 6 => Call(AddE)              // polyvec_add
    case 7 => Call(ReducePk)          // polyvec_reduce
    case 8 => Call(PackPk)            // pack_pk
    case 9 => Give(Done)
    case _ => End
  }

  function KeypairTask1(pc: nat): Stmt {
    match pc
    case 0 => Take(Core0)
    case 1 => Call(NoiseS)            // poly_getnoise_eta1
    case 2 => Call(NoiseE)            // poly_getnoise_eta1
    case 3 => Call(NttS)              // polyvec_ntt
    case 4 => Call(NttE)              // polyvec_ntt
    case 5 => Give(Core1)
    case 6 => Call(PackSk)            // pack_sk
    case 7 => Give(Done)
    case _ => End
  }

  function EncTask0(pc: nat): Stmt {
    match pc
    case 0 => Call(UnpackPk)          // unpack_pk
    case 1 => Give(Core0)
    case 2 => Call(GenAt)             // gen_at
    case 3 => Wait(Core1)
    case 4 => Call(MultiplyAt)        // polyvec_basemul_acc_montgomery
    case 5 => Call(InverseB)          // polyvec_invntt_tomont
    case 6 => Wait(Core1)
    case 7 => Call(AddEp)             // polyvec_add
    case 8 => Call(ReduceB)           // polyvec_reduce
    case 9 => Wait(Core1)
    case 10 => Call(PackCiphertext)    // pack_ciphertext
    case 11 => Give(Done)
    case _ => End
  }

  function EncTask1(pc: nat): Stmt {
    match pc
    case 0 => Call(NoiseSp)           // poly_getnoise_eta1
    case 1 => Call(NttSp)             // polyvec_ntt
    case 2 => Give(Core1)
    case 3 => Call(NoiseEp)           // poly_getnoise_eta2
    case 4 => Give(Core1)
    case 5 => Call(NoiseEpp)          // poly_getnoise_eta2
    case 6 => Call(FromMessage)       // poly_frommsg
    case 7 => Call(AddK)              // poly_add
    case 8 => Take(Core0)
    case 9 => Call(MultiplyPk)        // polyvec_basemul_acc_montgomery
    case 10 => Call(InverseV)          // poly_invntt_tomont
    case 11 => Call(AddEpp)            // poly_add
    case 12 => Call(ReduceV)           // poly_reduce
    case 13 => Give(Core1)
    case 14 => Give(Done)
    case _ => End
  }

  function DecTask0(pc: nat): Stmt {
    match pc
    case 0 => Call(UnpackSk)          // unpack_sk
    case 1 => Call(DecompressV)       // poly_decompress
    case 2 => Take(Core1)
    case 3 => Call(MultiplySk)        // polyvec_basemul_acc_montgomery
    case 4 => Call(InverseMp)         // poly_invntt_tomont
    case 5 => Call(SubtractMp)        // poly_sub
    case 6 => Call(ReduceMp)          // poly_reduce
    case 7 => Call(ToMessage)         // poly_tomsg
    case 8 => Give(Done)
    case _ => End
  }

  function DecTask1(pc: nat): Stmt {
    match pc
    case 0 => Call(DecompressB)       // polyvec_decompress
    case 1 => Call(NttB)              // polyvec_ntt
    case 2 => Give(Core1)
    case 3 => Give(Done)
    case _ => End
  }

  predicate Input(w: Which, f: Field) {
    match w
    case Keypair => false
    case Enc => f in {Pk, M, Coins}
    case Dec => f in {Sk, C}
  }

  // xSemaphoreCreateCounting
  function Max(w: Which, x: Sem): nat {
    match x
    case Core0 => 1
    case Core1 => if w == Enc then 3 else 1
    case Done => 2
  }

  // ----- control: program counters and semaphores

  datatype Control = Control(pc0: nat, pc1: nat, caller: nat, core0: nat, core1: nat, done: nat) {
    function Pc(second: bool): nat {
      if second then pc1 else pc0
    }

    function Count(x: Sem): nat {
      match x case Core0 => core0 case Core1 => core1 case Done => done
    }

    function Advance(second: bool): Control {
      if second then this.(pc1 := pc1 + 1) else this.(pc0 := pc0 + 1)
    }

    function SetCount(x: Sem, n: nat): Control {
      match x case Core0 => this.(core0 := n) case Core1 => this.(core1 := n) case Done => this.(done := n)
    }
  }

  const START := Control(0, 0, 0, 0, 0, 0)

  datatype Actor = Task(second: bool) | Expire(second: bool) | Caller

  // One step of a task, the end of the one-tick wait of a task, or the caller's
  // next take of Semaphore_core_done.  late holds the waits that may run out.
  function Next(w: Which, late: set<nat>, c: Control, a: Actor): (r: Option<Control>) {
    match a
    case Task(t) =>
      (match StmtAt(w, t, c.Pc(t))
       case Call(_) => Some(c.Advance(t))
       case Give(x) => Some(c.Advance(t).SetCount(x, if c.Count(x) < Max(w, x) then c.Count(x) + 1 else c.Count(x)))
       case Take(x) => if c.Count(x) > 0 then Some(c.Advance(t).SetCount(x, c.Count(x) - 1)) else None
       case Wait(x) => if c.Count(x) > 0 then Some(c.Advance(t).SetCount(x, c.Count(x) - 1)) else None
       case End => None)
    case Expire(t) =>
      if StmtAt(w, t, c.Pc(t)).Wait? && c.Count(StmtAt(w, t, c.Pc(t)).sem) == 0 && c.Pc(t) in late then Some(c.Advance(t)) else None
    case Caller =>
      if c.caller < 2 && c.done > 0 then Some(c.(caller := c.caller + 1, done := c.done - 1)) else None
  }

  // The state after a schedule, if each of its steps was possible.
  function Run(w: Which, late: set<nat>, sched: seq<Actor>): Option<Control> {
    if sched == [] then Some(START) else
      match Run(w, late, sched[..|sched| - 1])
      case None => None
      case Some(c) => Next(w, late, c, sched[|sched| - 1])
  }

  lemma RunExtends(w: Which, late: set<nat>, sched: seq<Actor>, a: Actor, c: Control, c': Control)
    requires Run(w, late, sched) == Some(c) && Next(w, late, c, a) == Some(c')
    ensures Run(w, late, sched + [a]) == Some(c')
  {
    hide Next;
    assert (sched + [a])[..|sched|] == sched;
  }

  // ----- safety

  predicate Written(w: Which, c: Control, f: Field) {
    || Input(w, f)
    || (exists j :: 0 <= j < c.pc0 && WritesAt(w, false, j, f))
    || (exists j :: 0 <= j < c.pc1 && WritesAt(w, true, j, f))
  }

  predicate WritesAt(w: Which, second: bool, pc: nat, f: Field) {
    var s := StmtAt(w, second, pc);
    s.Call? && Writes(w, s.op, f)
  }

  predicate Uses(w: Which, op: Op, f: Field) {
    Reads(w, op, f) || Writes(w, op, f)
  }

  // Two calls in progress race when one writes what the other reads or writes.
  predicate Races(w: Which, s: Stmt, t: Stmt) {
    s.Call? && t.Call? && exists f :: RaceOn(w, s.op, t.op, f)
  }

  predicate RaceOn(w: Which, a: Op, b: Op, f: Field) {
    Uses(w, a, f) && Uses(w, b, f) && (Writes(w, a, f) || Writes(w, b, f))
  }

  predicate ReadsWritten(w: Which, c: Control, s: Stmt) {
    s.Call? ==> forall f :: Reads(w, s.op, f) ==> Written(w, c, f)
  }

  predicate GiveFits(w: Which, c: Control, s: Stmt) {
    s.Give? ==> c.Count(s.sem) < Max(w, s.sem)
  }

  // No two calls in progress race, none reads a field nobody has written, no give
  // finds its semaphore full, and once the caller has taken its second "done" both
  // tasks have left the shared structure.
  predicate Safe(w: Which, c: Control) {
    var s, t := StmtAt(w, false, c.pc0), StmtAt(w, true, c.pc1);
    && !Races(w, s, t)
    && ReadsWritten(w, c, s) && ReadsWritten(w, c, t)
    && GiveFits(w, c, s) && GiveFits(w, c, t)
    && (c.caller == 2 ==> s.End? && t.End?)
  }

  predicate Completed(w: Which, c: Control) {
    StmtAt(w, false, c.pc0).End? && StmtAt(w, true, c.pc1).End? && c.caller == 2
  }

  function Bit(b: bool): nat {
    if b then 1 else 0
  }

  // What each semaphore holds is what was given less what was taken.
  predicate Balanced(w: Which, c: Control) {
    match w
    case Keypair => KeypairBalanced(c)
    case Enc => EncBalanced(c)
    case Dec => DecBalanced(c)
  }

  predicate KeypairBalanced(c: Control) {
    && c.pc0 <= 10 && c.pc1 <= 8
    && c.core0 + Bit(c.pc1 > 0) == Bit(c.pc0 > 2)
    && c.core1 + Bit(c.pc0 > 4) == Bit(c.pc1 > 5)
    && c.done + c.caller == Bit(c.pc0 > 9) + Bit(c.pc1 > 7)
  }

  predicate EncBalanced(c: Control) {
    && c.pc0 <= 12 && c.pc1 <= 15
    && c.core0 + Bit(c.pc1 > 8) == Bit(c.pc0 > 1)
    && c.core1 + Bit(c.pc0 > 3) + Bit(c.pc0 > 6) + Bit(c.pc0 > 9) == Bit(c.pc1 > 2) + Bit(c.pc1 > 4) + Bit(c.pc1 > 13)
    && c.done + c.caller == Bit(c.pc0 > 11) + Bit(c.pc1 > 14)
  }

  predicate DecBalanced(c: Control) {
    && c.pc0 <= 9 && c.pc1 <= 4
    && c.core0 == 0
    && c.core1 + Bit(c.pc0 > 2) == Bit(c.pc1 > 2)
    && c.done + c.caller == Bit(c.pc0 > 8) + Bit(c.pc1 > 3)
  }

  // The three waits that can run out.
  const WAITS: set<nat> := {3, 6, 9}

  predicate Patient(w: Which, late: set<nat>) {
    w == Enc ==> late !! WAITS
  }

  lemma KeypairStep0(late: set<nat>, c: Control, a: Actor)
    requires KeypairBalanced(c) && a != Caller && !a.second && Next(Keypair, late, c, a).Some?
    ensures KeypairBalanced(Next(Keypair, late, c, a).value)
  {
    hide KeypairTask1;
  }

  lemma KeypairStep1(late: set<nat>, c: Control, a: Actor)
    requires KeypairBalanced(c) && a != Caller && a.second && Next(Keypair, late, c, a).Some?
    ensures KeypairBalanced(Next(Keypair, late, c, a).value)
  {
    hide KeypairTask0;
  }

  lemma EncStep0(late: set<nat>, c: Control, a: Actor)
    requires late !! WAITS && EncBalanced(c) && a != Caller && !a.second && Next(Enc, late, c, a).Some?
    ensures EncBalanced(Next(Enc, late, c, a).value)
  {
    hide EncTask1;
  }

  lemma EncStep1(late: set<nat>, c: Control, a: Actor)
    requires late !! WAITS && EncBalanced(c) && a != Caller && a.second && Next(Enc, late, c, a).Some?
    ensures EncBalanced(Next(Enc, late, c, a).value)
  {
    hide EncTask0;
  }

  lemma CallerStep(w: Which, late: set<nat>, c: Control)
    requires Balanced(w, c) && Next(w, late, c, Caller).Some?
    ensures Balanced(w, Next(w, late, c, Caller).value)
  {
  }

  lemma DecStep0(late: set<nat>, c: Control, a: Actor)
    requires DecBalanced(c) && a != Caller && !a.second && Next(Dec, late, c, a).Some?
    ensures DecBalanced(Next(Dec, late, c, a).value)
  {
    hide DecTask1;
  }

  lemma DecStep1(late: set<nat>, c: Control, a: Actor)
    requires DecBalanced(c) && a != Caller && a.second && Next(Dec, late, c, a).Some?
    ensures DecBalanced(Next(Dec, late, c, a).value)
  {
    hide DecTask0;
  }

  lemma StepKeepsBalance(w: Which, late: set<nat>, c: Control, a: Actor)
    requires Balanced(w, c) && Patient(w, late) && Next(w, late, c, a).Some?
    ensures Balanced(w, Next(w, late, c, a).value)
  {
    hide Next, KeypairBalanced, EncBalanced, DecBalanced;
    match w {
      case Keypair =>
        if a == Caller { CallerStep(w, late, c); } else if a.second { KeypairStep1(late, c, a); } else { KeypairStep0(late, c, a); }
      case Enc =>
        if a == Caller { CallerStep(w, late, c); } else if a.second { EncStep1(late, c, a); } else { EncStep0(late, c, a); }
      case Dec =>
        if a == Caller { CallerStep(w, late, c); } else if a.second { DecStep1(late, c, a); } else { DecStep0(late, c, a); }
    }
  }

  lemma StartIsBalanced(w: Which)
    ensures Balanced(w, START)
  {
  }

  lemma {:induction false} RunKeepsBalance(w: Which, late: set<nat>, sched: seq<Actor>)
    requires Patient(w, late) && Run(w, late, sched).Some?
    ensures Balanced(w, Run(w, late, sched).value)
  {
    hide Next, StmtAt, KeypairBalanced, EncBalanced, DecBalanced;
    StartIsBalanced(w);
    if sched != [] {
      RunKeepsBalance(w, late, sched[..|sched| - 1]);
      StepKeepsBalance(w, late, Run(w, late, sched[..|sched| - 1]).value, sched[|sched| - 1]);
    }
  }

  // ----- safety and progress

  lemma WrittenBy(w: Which, c: Control, second: bool, j: nat, f: Field)
    requires j < c.Pc(second) && WritesAt(w, second, j, f)
    ensures Written(w, c, f)
  {
  }

  lemma InputsWritten(w: Which, c: Control)
    ensures forall f :: Input(w, f) ==> Written(w, c, f)
  {
  }

  lemma KeypairNoRace(c: Control)
    requires KeypairBalanced(c)
    ensures !Races(Keypair, StmtAt(Keypair, false, c.pc0), StmtAt(Keypair, true, c.pc1))
  {
    var s, t := StmtAt(Keypair, false, c.pc0), StmtAt(Keypair, true, c.pc1);
    if s.Call? && t.Call? {
      forall f ensures !RaceOn(Keypair, s.op, t.op, f) {
      }
      hide RaceOn;
    }
  }

  lemma KeypairWriters(c: Control)
    ensures c.pc0 > 0 ==> Written(Keypair, c, Buf)
    ensures c.pc0 > 3 ==> Written(Keypair, c, A)
    ensures c.pc0 > 5 ==> Written(Keypair, c, PkPv)
    ensures c.pc1 > 1 ==> Written(Keypair, c, SkPv)
    ensures c.pc1 > 2 ==> Written(Keypair, c, E)
  {
    hide Written;
    if c.pc0 > 0 { WrittenBy(Keypair, c, false, 0, Buf); }
    if c.pc0 > 3 { WrittenBy(Keypair, c, false, 3, A); }
    if c.pc0 > 5 { WrittenBy(Keypair, c, false, 5, PkPv); }
    if c.pc1 > 1 { WrittenBy(Keypair, c, true, 1, SkPv); }
    if c.pc1 > 2 { WrittenBy(Keypair, c, true, 2, E); }
  }

  lemma KeypairReadsWritten0(c: Control)
    requires KeypairBalanced(c)
    ensures ReadsWritten(Keypair, c, StmtAt(Keypair, false, c.pc0))
  {
    hide Written, KeypairTask1;
    InputsWritten(Keypair, c);
    KeypairWriters(c);
  }

  lemma KeypairReadsWritten1(c: Control)
    requires KeypairBalanced(c)
    ensures ReadsWritten(Keypair, c, StmtAt(Keypair, true, c.pc1))
  {
    hide Written, KeypairTask0;
    InputsWritten(Keypair, c);
    KeypairWriters(c);
  }

  lemma KeypairSafe(c: Control)
    requires KeypairBalanced(c)
    ensures Safe(Keypair, c)
  {
    KeypairNoRace(c);
    KeypairReadsWritten0(c);
    KeypairReadsWritten1(c);
    hide Races, ReadsWritten;
  }

  lemma EncNoRace(c: Control)
    requires EncBalanced(c)
    ensures !Races(Enc, StmtAt(Enc, false, c.pc0), StmtAt(Enc, true, c.pc1))
  {
    hide EncTask0, EncTask1, Uses, Writes;
    var s, t := StmtAt(Enc, false, c.pc0), StmtAt(Enc, true, c.pc1);
    if s.Call? && t.Call? {
      forall f ensures !RaceOn(Enc, s.op, t.op, f) {
        if RaceOn(Enc, s.op, t.op, f) {
          EncUses0(c.pc0, f);
          EncUses1(c.pc1, f);
          assert false;
        }
      }
    }
  }

  // Where each task uses the fields that both use.
  lemma EncUses0(pc: nat, f: Field)
    requires EncTask0(pc).Call? && Uses(Enc, EncTask0(pc).op, f)
    ensures f !in {Coins, M, K, Epp}
    ensures f == PkPv ==> pc == 0
    ensures f == Sp ==> pc == 4 && !Writes(Enc, EncTask0(pc).op, f)
    ensures f == Ep ==> pc == 7 && !Writes(Enc, EncTask0(pc).op, f)
    ensures f == V ==> pc == 10 && !Writes(Enc, EncTask0(pc).op, f)
  {
  }

  lemma EncUses1(pc: nat, f: Field)
    requires EncTask1(pc).Call? && Uses(Enc, EncTask1(pc).op, f)
    ensures f in {Coins, M, K, Epp, PkPv, Sp, Ep, V}
    ensures f == PkPv ==> pc == 9 && !Writes(Enc, EncTask1(pc).op, f)
    ensures f == Sp ==> pc <= 1 || (pc == 9 && !Writes(Enc, EncTask1(pc).op, f))
    ensures f == Ep ==> pc == 3
    ensures f == V ==> 9 <= pc <= 12
  {
  }

  lemma EncWriters(c: Control)
    ensures c.pc0 > 0 ==> Written(Enc, c, PkPv)
    ensures c.pc0 > 0 ==> Written(Enc, c, Seed)
    ensures c.pc0 > 2 ==> Written(Enc, c, At)
    ensures c.pc0 > 4 ==> Written(Enc, c, B)
    ensures c.pc1 > 0 ==> Written(Enc, c, Sp)
    ensures c.pc1 > 3 ==> Written(Enc, c, Ep)
    ensures c.pc1 > 5 ==> Written(Enc, c, Epp)
    ensures c.pc1 > 6 ==> Written(Enc, c, K)
    ensures c.pc1 > 9 ==> Written(Enc, c, V)
  {
    hide Written;
    if c.pc0 > 0 { WrittenBy(Enc, c, false, 0, PkPv); }
    if c.pc0 > 0 { WrittenBy(Enc, c, false, 0, Seed); }
    if c.pc0 > 2 { WrittenBy(Enc, c, false, 2, At); }
    if c.pc0 > 4 { WrittenBy(Enc, c, false, 4, B); }
    if c.pc1 > 0 { WrittenBy(Enc, c, true, 0, Sp); }
    if c.pc1 > 3 { WrittenBy(Enc, c, true, 3, Ep); }
    if c.pc1 > 5 { WrittenBy(Enc, c, true, 5, Epp); }
    if c.pc1 > 6 { WrittenBy(Enc, c, true, 6, K); }
    if c.pc1 > 9 { WrittenBy(Enc, c, true, 9, V); }
  }

  lemma EncReadsWritten0(c: Control)
    requires EncBalanced(c)
    ensures ReadsWritten(Enc, c, StmtAt(Enc, false, c.pc0))
  {
    hide Written, EncTask1;
    InputsWritten(Enc, c);
    EncWriters(c);
  }

  lemma EncReadsWritten1(c: Control)
    requires EncBalanced(c)
    ensures ReadsWritten(Enc, c, StmtAt(Enc, true, c.pc1))
  {
    hide Written, EncTask0;
    InputsWritten(Enc, c);
    EncWriters(c);
  }

  lemma EncSafe(c: Control)
    requires EncBalanced(c)
    ensures Safe(Enc, c)
  {
    EncNoRace(c);
    EncReadsWritten0(c);
    EncReadsWritten1(c);
    hide Races, ReadsWritten;
  }

  lemma DecNoRace(c: Control)
    requires DecBalanced(c)
    ensures !Races(Dec, StmtAt(Dec, false, c.pc0), StmtAt(Dec, true, c.pc1))
  {
    hide DecTask0, DecTask1, Uses, Writes;
    var s, t := StmtAt(Dec, false, c.pc0), StmtAt(Dec, true, c.pc1);
    if s.Call? && t.Call? {
      forall f ensures !RaceOn(Dec, s.op, t.op, f) {
        if RaceOn(Dec, s.op, t.op, f) {
          DecUses0(c.pc0, f);
          DecUses1(c.pc1, f);
          assert false;
        }
      }
    }
  }

  lemma DecUses0(pc: nat, f: Field)
    requires DecTask0(pc).Call? && Uses(Dec, DecTask0(pc).op, f)
    ensures f in {Sk, SkPv, C, V, B, Mp, M}
    ensures f == B ==> pc == 3
    ensures f == C ==> !Writes(Dec, DecTask0(pc).op, f)
  {
  }

  lemma DecUses1(pc: nat, f: Field)
    requires DecTask1(pc).Call? && Uses(Dec, DecTask1(pc).op, f)
    ensures f in {C, B} && pc <= 1
    ensures f == C ==> !Writes(Dec, DecTask1(pc).op, f)
  {
  }

  lemma DecWriters(c: Control)
    ensures c.pc0 > 0 ==> Written(Dec, c, SkPv)
    ensures c.pc0 > 1 ==> Written(Dec, c, V)
    ensures c.pc0 > 3 ==> Written(Dec, c, Mp)
    ensures c.pc1 > 0 ==> Written(Dec, c, B)
  {
    hide Written;
    if c.pc0 > 0 { WrittenBy(Dec, c, false, 0, SkPv); }
    if c.pc0 > 1 { WrittenBy(Dec, c, false, 1, V); }
    if c.pc0 > 3 { WrittenBy(Dec, c, false, 3, Mp); }
    if c.pc1 > 0 { WrittenBy(Dec, c, true, 0, B); }
  }

  lemma DecReadsWritten0(c: Control)
    requires DecBalanced(c)
    ensures ReadsWritten(Dec, c, StmtAt(Dec, false, c.pc0))
  {
    hide Written, DecTask1;
    InputsWritten(Dec, c);
    DecWriters(c);
  }

  lemma DecReadsWritten1(c: Control)
    requires DecBalanced(c)
    ensures ReadsWritten(Dec, c, StmtAt(Dec, true, c.pc1))
  {
    hide Written, DecTask0;
    InputsWritten(Dec, c);
    DecWriters(c);
  }

  lemma DecSafe(c: Control)
    requires DecBalanced(c)
    ensures Safe(Dec, c)
  {
    DecNoRace(c);
    DecReadsWritten0(c);
    DecReadsWritten1(c);
    hide Races, ReadsWritten;
  }

  // Every state of every run is safe when no wait runs out.
  lemma RunIsSafe(w: Which, late: set<nat>, sched: seq<Actor>)
    requires Patient(w, late) && Run(w, late, sched).Some?
    ensures Safe(w, Run(w, late, sched).value)
  {
    hide Safe, KeypairBalanced, EncBalanced, DecBalanced, Run;
    RunKeepsBalance(w, late, sched);
    var c := Run(w, late, sched).value;
    match w {
      case Keypair => KeypairSafe(c);
      case Enc => EncSafe(c);
      case Dec => DecSafe(c);
    }
  }

  // A run that has not completed can go on: nothing deadlocks.
  lemma RunProgresses(w: Which, late: set<nat>, sched: seq<Actor>) returns (a: Actor)
    requires Patient(w, late) && Run(w, late, sched).Some?
    ensures var c := Run(w, late, sched).value;
            Completed(w, c) || Run(w, late, sched + [a]).Some?
  {
    hide Next, Completed, Balanced;
    RunKeepsBalance(w, late, sched);
    var c := Run(w, late, sched).value;
    a := Enabled(w, late, c);
    if !Completed(w, c) {
      RunExtends(w, late, sched, a, c, Next(w, late, c, a).value);
    }
  }

  lemma KeypairEnabled(c: Control) returns (a: Actor)
    requires KeypairBalanced(c)
    ensures Completed(Keypair, c) || Next(Keypair, {}, c, a).Some?
  {
    a := if !KeypairTask0(c.pc0).End? && (KeypairTask0(c.pc0).Take? ==> c.core1 > 0) then Task(false)
         else if !KeypairTask1(c.pc1).End? && (KeypairTask1(c.pc1).Take? ==> c.core0 > 0) then Task(true) else Caller;
  }

  lemma EncEnabled(c: Control) returns (a: Actor)
    requires EncBalanced(c)
    ensures Completed(Enc, c) || Next(Enc, {}, c, a).Some?
  {
    a := if !EncTask0(c.pc0).End? && (EncTask0(c.pc0).Wait? ==> c.core1 > 0) then Task(false)
         else if !EncTask1(c.pc1).End? && (EncTask1(c.pc1).Take? ==> c.core0 > 0) then Task(true) else Caller;
  }

  lemma DecEnabled(c: Control) returns (a: Actor)
    requires DecBalanced(c)
    ensures Completed(Dec, c) || Next(Dec, {}, c, a).Some?
  {
    a := if !DecTask0(c.pc0).End? && (DecTask0(c.pc0).Take? ==> c.core1 > 0) then Task(false)
         else if !DecTask1(c.pc1).End? then Task(true) else Caller;
  }

  lemma Enabled(w: Which, late: set<nat>, c: Control) returns (a: Actor)
    requires Balanced(w, c)
    ensures Completed(w, c) || Next(w, late, c, a).Some?
  {
    hide Next, Completed, KeypairBalanced, EncBalanced, DecBalanced;
    match w {
      case Keypair => a := KeypairEnabled(c);
      case Enc => a := EncEnabled(c);
      case Dec => a := DecEnabled(c);
    }
    SomeAnyway(w, late, c, a);
  }

  // Waits that can run out only add steps.
  lemma SomeAnyway(w: Which, late: set<nat>, c: Control, a: Actor)
    ensures Next(w, {}, c, a).Some? ==> Next(w, late, c, a).Some?
  {
    hide StmtAt;
  }

  lemma StepMoves(w: Which, late: set<nat>, c: Control, a: Actor)
    requires Next(w, late, c, a).Some?
    ensures var d := Next(w, late, c, a).value; d.pc0 + d.pc1 + d.caller == c.pc0 + c.pc1 + c.caller + 1
  {
    hide StmtAt;
  }

  // Every step moves one program counter, so no run is longer than its statements.
  lemma {:induction false} RunLength(w: Which, late: set<nat>, sched: seq<Actor>)
    requires Run(w, late, sched).Some?
    ensures var c := Run(w, late, sched).value; |sched| == c.pc0 + c.pc1 + c.caller
  {
    if sched != [] {
      hide Next;
      RunLength(w, late, sched[..|sched| - 1]);
      StepMoves(w, late, Run(w, late, sched[..|sched| - 1]).value, sched[|sched| - 1]);
    }
  }

  // ----- the one-tick waits of encryption

  // The semaphores of dual-core encryption are fixed by the program counters.
  predicate Possible(i: nat, j: nat) {
    && i <= 11 && j <= 14
    && Bit(i > 1) >= Bit(j > 8)
    && Bit(j > 2) + Bit(j > 4) + Bit(j > 13) >= Bit(i > 3) + Bit(i > 6) + Bit(i > 9)
  }

  function StateAt(i: nat, j: nat): Control
    requires Possible(i, j)
  {
    Control(i, j, 0, Bit(i > 1) - Bit(j > 8), Bit(j > 2) + Bit(j > 4) + Bit(j > 13) - Bit(i > 3) - Bit(i > 6) - Bit(i > 9), 0)
  }

  lemma Shape0(i: nat)
    requires i <= 11
    ensures if i == 1 then EncTask0(i) == Give(Core0) else if i in WAITS then EncTask0(i) == Wait(Core1)
            else if i == 11 then EncTask0(i) == Give(Done) else EncTask0(i).Call?
  {
  }

  lemma Step0(i: nat, j: nat)
    requires i < 11 && Possible(i, j) && Possible(i + 1, j)
    ensures Next(Enc, {}, StateAt(i, j), Task(false)) == Some(StateAt(i + 1, j))
  {
    Shape0(i);
    hide EncTask1, EncTask0;
  }

  lemma Shape1(j: nat)
    requires j < 9
    ensures if j in {2, 4} then EncTask1(j) == Give(Core1) else if j == 8 then EncTask1(j) == Take(Core0) else EncTask1(j).Call?
  {
  }

  lemma Step1(j: nat)
    requires j < 9
    ensures Next(Enc, {}, StateAt(2, j), Task(true)) == Some(StateAt(2, j + 1))
  {
    Shape1(j);
    hide EncTask1, EncTask0;
  }

  lemma Between(i: nat, j: nat, n: nat)
    requires Possible(i, j) && Possible(i + n, j) && n > 0
    ensures i + n <= 11 && Possible(i + (n - 1), j)
  {
  }

  lemma {:induction false} Go0(late: set<nat>, sched: seq<Actor>, i: nat, j: nat, n: nat) returns (sched': seq<Actor>)
    requires Possible(i, j) && Possible(i + n, j) && Run(Enc, late, sched) == Some(StateAt(i, j))
    ensures Run(Enc, late, sched') == Some(StateAt(i + n, j))
    decreases n
  {
    hide Next, StateAt, Run, Possible;
    sched' := sched;
    if n > 0 {
      Between(i, j, n);
      var k := i + (n - 1);
      sched' := Go0(late, sched, i, j, n - 1);
      assert k + 1 == i + n;
      GoStep0(late, sched', k, j);
      sched' := sched' + [Task(false)];
    }
  }

  lemma GoStep0(late: set<nat>, sched: seq<Actor>, k: nat, j: nat)
    requires k < 11 && Possible(k, j) && Possible(k + 1, j) && Run(Enc, late, sched) == Some(StateAt(k, j))
    ensures Run(Enc, late, sched + [Task(false)]) == Some(StateAt(k + 1, j))
  {
    hide Next, StateAt, Run, Possible;
    Step0(k, j);
    SameTask(late, StateAt(k, j), false);
    RunExtends(Enc, late, sched, Task(false), StateAt(k, j), StateAt(k + 1, j));
  }

  lemma {:induction false} Go1(late: set<nat>, sched: seq<Actor>, n: nat) returns (sched': seq<Actor>)
    requires n <= 9 && Run(Enc, late, sched) == Some(StateAt(2, 0))
    ensures Possible(2, n) && Run(Enc, late, sched') == Some(StateAt(2, n))
  {
    sched' := sched;
    if n > 0 {
      sched' := Go1(late, sched, n - 1);
      Step1(n - 1);
      hide Next, StateAt, Run;
      SameTask(late, StateAt(2, n - 1), true);
      RunExtends(Enc, late, sched', Task(true), StateAt(2, n - 1), StateAt(2, n));
      sched' := sched' + [Task(true)];
    }
  }

  lemma SameTask(late: set<nat>, c: Control, second: bool)
    ensures Next(Enc, late, c, Task(second)) == Next(Enc, {}, c, Task(second))
  {
    hide StmtAt;
  }

  // How far task 1 may have got when the wait at p runs out.
  function Behind(p: nat): nat
    requires p in WAITS
  {
    if p == 3 then 0 else if p == 6 then 3 else 9
  }

  // When the wait at p runs out, task 0 reads what task 1 is still writing.
  lemma LateWaitRaces(late: set<nat>, p: nat) returns (sched: seq<Actor>)
    requires p in WAITS && p in late
    ensures Run(Enc, late, sched).Some? && !Safe(Enc, Run(Enc, late, sched).value)
  {
    var j := Behind(p);
    sched := Go0(late, [], 0, 0, 2);
    sched := Go1(late, sched, j);
    sched := Go0(late, sched, 2, j, p - 2);
    hide EncTask1, Run;
    var c := StateAt(p, j);
    var d := c.(pc0 := p + 1);
    assert Next(Enc, late, c, Expire(false)) == Some(d);
    RunExtends(Enc, late, sched, Expire(false), c, d);
    sched := sched + [Expire(false)];
    LateStateRaces(p);
    hide *;
    assert Races(Enc, StmtAt(Enc, false, d.pc0), StmtAt(Enc, true, d.pc1));
    RacyIsUnsafe(Enc, d);
  }

  lemma RacyIsUnsafe(w: Which, c: Control)
    requires Races(w, StmtAt(w, false, c.pc0), StmtAt(w, true, c.pc1))
    ensures !Safe(w, c)
  {
    hide Races, StmtAt;
  }

  lemma LateStateRaces(p: nat)
    requires p in WAITS
    ensures Races(Enc, StmtAt(Enc, false, p + 1), StmtAt(Enc, true, Behind(p)))
  {
    var f := if p == 3 then Sp else if p == 6 then Ep else V;
    assert RaceOn(Enc, StmtAt(Enc, false, p + 1).op, StmtAt(Enc, true, Behind(p)).op, f);
  }

  // Dual-core encryption is safe on every run exactly when none of its three
  // one-tick waits can run out.
  lemma EncSafeExactly(late: set<nat>)
    ensures (forall sched :: Run(Enc, late, sched).Some? ==> Safe(Enc, Run(Enc, late, sched).value)) <==> late !! WAITS
  {
    hide Safe, Run;
    if late !! WAITS {
      forall sched | Run(Enc, late, sched).Some?
        ensures Safe(Enc, Run(Enc, late, sched).value)
      {
        RunIsSafe(Enc, late, sched);
      }
    } else {
      var p :| p in late && p in WAITS;
      var sched := LateWaitRaces(late, p);
    }
  }
}
