// What the dual-core tasks leave in memory: the result of the sequential version,
// whatever the interleaving and whatever the memory held before.
module DualCoreResult {
  import opened Reduce
  import opened Polyvec
  import opened Packing
  import opened Indcpa
  import opened DualCore
  import opened Wrappers

  // The functions the tasks call, as functions of what they read.
  datatype Kernels = Kernels(
    entropy: seq<byte>,
    hashG: seq<byte> -> seq<byte>,
    genA: seq<byte> -> seq<seq<Coeffs>>,
    genAt: seq<byte> -> seq<seq<Coeffs>>,
    noise1: (seq<byte>, nat) -> Coeffs,
    noise2: (seq<byte>, nat) -> Coeffs,
    ntt: Coeffs -> Coeffs,
    inverse: Coeffs -> Coeffs,
    toMont: Coeffs -> Coeffs,
    reduce: Coeffs -> Coeffs,
    acc: (seq<Coeffs>, seq<Coeffs>) -> Coeffs,
    packPk: (seq<Coeffs>, seq<byte>) -> seq<byte>,
    packSk: seq<Coeffs> -> seq<byte>,
    packCiphertext: (seq<Coeffs>, Coeffs) -> seq<byte>,
    unpackPk: seq<byte> -> (seq<Coeffs>, seq<byte>),
    unpackSk: seq<byte> -> seq<Coeffs>,
    decompressB: seq<byte> -> seq<Coeffs>,
    decompressV: seq<byte> -> Coeffs,
    fromMsg: seq<byte> -> Coeffs,
    toMsg: Coeffs -> seq<byte>
  )

  datatype Store = Store(
    pk: seq<byte>, sk: seq<byte>, buf: seq<byte>, c: seq<byte>, m: seq<byte>, coins: seq<byte>, seed: seq<byte>,
    a: seq<seq<Coeffs>>, at: seq<seq<Coeffs>>,
    e: seq<Coeffs>, pkpv: seq<Coeffs>, skpv: seq<Coeffs>, sp: seq<Coeffs>, ep: seq<Coeffs>, b: seq<Coeffs>,
    v: Coeffs, k: Coeffs, epp: Coeffs, mp: Coeffs
  )

  // ----- poly_add, poly_sub and the loops over vectors

  function Plus(p: Coeffs, q: Coeffs): (r: Coeffs) {
    seq(if |p| < |q| then |p| else |q|, i requires 0 <= i < |p| && i < |q| => Int16(p[i] as int + q[i] as int))
  }

  function Minus(p: Coeffs, q: Coeffs): (r: Coeffs) {
    seq(if |p| < |q| then |p| else |q|, i requires 0 <= i < |p| && i < |q| => Int16(p[i] as int - q[i] as int))
  }

  function Each(g: Coeffs -> Coeffs, v: seq<Coeffs>): (w: seq<Coeffs>)
    ensures |w| == |v| && forall i :: 0 <= i < |v| ==> w[i] == g(v[i])
  {
    seq(|v|, i requires 0 <= i < |v| => g(v[i]))
  }

  function PlusV(u: seq<Coeffs>, v: seq<Coeffs>): (w: seq<Coeffs>) {
    seq(if |u| < |v| then |u| else |v|, i requires 0 <= i < |u| && i < |v| => Plus(u[i], v[i]))
  }

  function RowsOf(g: (seq<Coeffs>, seq<Coeffs>) -> Coeffs, a: seq<seq<Coeffs>>, s: seq<Coeffs>): (w: seq<Coeffs>)
    ensures |w| == |a| && forall i :: 0 <= i < |a| ==> w[i] == g(a[i], s)
  {
    seq(|a|, i requires 0 <= i < |a| => g(a[i], s))
  }

  // Wrapped sums can be regrouped: adding e to k first, as task 1 of encryption
  // does, gives what the sequential version gets by adding them one after the other.
  lemma PlusRegroups(v: Coeffs, e: Coeffs, k: Coeffs)
    ensures Plus(Plus(v, e), k) == Plus(v, Plus(e, k))
  {
    forall i | 0 <= i < |v| && i < |e| && i < |k|
      ensures Plus(Plus(v, e), k)[i] == Plus(v, Plus(e, k))[i]
    {
      WrapRegroups(v[i], e[i], k[i]);
    }
  }

  lemma WrapRegroups(x: int, y: int, z: int)
    ensures Int16(Int16(x + y) + z) == Int16(x + Int16(y + z))
  {
    Int16Congruent(x + y);
    Int16Congruent(y + z);
    var i, j := (x + y + 0x8000) / 0x1_0000, (y + z + 0x8000) / 0x1_0000;
    WrapAgain(x + y + z, -i);
    WrapAgain(x + y + z, -j);
  }

  lemma WrapAgain(x: int, i: int)
    ensures Int16(x + i * 0x1_0000) == Int16(x)
  {
  }

  // ----- what the calls do to the shared memory

  ghost function KeypairEffect(g: Kernels, l: Level, op: Op, s: Store): Store {
    match op
    case RandomBytes => s.(buf := g.entropy)
    case HashG => s.(buf := g.hashG(s.buf))
    case GenA => s.(a := g.genA(First(s.buf)))
    case MultiplyA => s.(pkpv := Each(g.toMont, RowsOf(g.acc, s.a, s.skpv)))
    case AddE => s.(pkpv := PlusV(s.pkpv, s.e))
    case ReducePk => s.(pkpv := Each(g.reduce, s.pkpv))
    case PackPk => s.(pk := g.packPk(s.pkpv, First(s.buf)))
    case NoiseS => s.(skpv := Samples(g.noise1, Second(s.buf), 0, l.K()))
    case NoiseE => s.(e := Samples(g.noise1, Second(s.buf), l.K(), l.K()))
    case NttS => s.(skpv := Each(g.ntt, s.skpv))
    case NttE => s.(e := Each(g.ntt, s.e))
    case PackSk => s.(sk := g.packSk(s.skpv))
    case _ => s
  }

  // publicseed and noiseseed, the halves of buf.
  function First(buf: seq<byte>): seq<byte> {
    if |buf| >= SYM_BYTES then buf[..SYM_BYTES] else buf
  }

  function Second(buf: seq<byte>): seq<byte> {
    if |buf| >= SYM_BYTES then buf[SYM_BYTES..] else []
  }

  ghost function EncEffect(g: Kernels, l: Level, op: Op, s: Store): Store {
    match op
    case UnpackPk => s.(pkpv := g.unpackPk(s.pk).0, seed := g.unpackPk(s.pk).1)
    case GenAt => s.(at := g.genAt(s.seed))
    case MultiplyAt => s.(b := RowsOf(g.acc, s.at, s.sp))
    case InverseB => s.(b := Each(g.inverse, s.b))
    case AddEp => s.(b := PlusV(s.b, s.ep))
    case ReduceB => s.(b := Each(g.reduce, s.b))
    case PackCiphertext => s.(c := g.packCiphertext(s.b, s.v))
    case NoiseSp => s.(sp := Samples(g.noise1, s.coins, 0, l.K()))
    case NttSp => s.(sp := Each(g.ntt, s.sp))
    case NoiseEp => s.(ep := Samples(g.noise2, s.coins, l.K(), l.K()))
    case NoiseEpp => s.(epp := g.noise2(s.coins, 2 * l.K()))
    case FromMessage => s.(k := g.fromMsg(s.m))
    case AddK => s.(epp := Plus(s.epp, s.k))
    case MultiplyPk => s.(v := g.acc(s.pkpv, s.sp))
    case InverseV => s.(v := g.inverse(s.v))
    case AddEpp => s.(v := Plus(s.v, s.epp))
    case ReduceV => s.(v := g.reduce(s.v))
    case _ => s
  }

  ghost function DecEffect(g: Kernels, l: Level, op: Op, s: Store): Store {
    match op
    case UnpackSk => s.(skpv := g.unpackSk(s.sk))
    case DecompressV => s.(v := g.decompressV(s.c))
    case MultiplySk => s.(mp := g.acc(s.skpv, s.b))
    case InverseMp => s.(mp := g.inverse(s.mp))
    case SubtractMp => s.(mp := Minus(s.v, s.mp))
    case ReduceMp => s.(mp := g.reduce(s.mp))
    case ToMessage => s.(m := g.toMsg(s.mp))
    case DecompressB => s.(b := g.decompressB(s.c))
    case NttB => s.(b := Each(g.ntt, s.b))
    case _ => s
  }

  ghost function Effect(w: Which, g: Kernels, l: Level, op: Op, s: Store): Store {
    match w
    case Keypair => KeypairEffect(g, l, op, s)
    case Enc => EncEffect(g, l, op, s)
    case Dec => DecEffect(g, l, op, s)
  }

  // The memory after a schedule.
  ghost function Memory(w: Which, g: Kernels, l: Level, late: set<nat>, s: Store, sched: seq<Actor>): Store
    requires Run(w, late, sched).Some?
  {
    if sched == [] then s else
      var c := Run(w, late, sched[..|sched| - 1]).value;
      var t := Memory(w, g, l, late, s, sched[..|sched| - 1]);
      StepMemory(w, g, l, c, t, sched[|sched| - 1])
  }

  ghost function StepMemory(w: Which, g: Kernels, l: Level, c: Control, s: Store, a: Actor): Store {
    if a.Task? && StmtAt(w, a.second, c.Pc(a.second)).Call?
    then Effect(w, g, l, StmtAt(w, a.second, c.Pc(a.second)).op, s)
    else s
  }

  // ----- the sequential versions (lines 349-383, 556-595, 707-725)

  ghost function SeqSecret(g: Kernels, l: Level): seq<Coeffs> {
    Each(g.ntt, Samples(g.noise1, Second(g.hashG(g.entropy)), 0, l.K()))
  }

  ghost function SeqError(g: Kernels, l: Level): seq<Coeffs> {
    Each(g.ntt, Samples(g.noise1, Second(g.hashG(g.entropy)), l.K(), l.K()))
  }

  ghost function SeqProduct(g: Kernels, l: Level): seq<Coeffs> {
    Each(g.toMont, RowsOf(g.acc, g.genA(First(g.hashG(g.entropy))), SeqSecret(g, l)))
  }

  ghost function SequentialSk(g: Kernels, l: Level): seq<byte> {
    g.packSk(SeqSecret(g, l))
  }

  ghost function SequentialPk(g: Kernels, l: Level): seq<byte> {
    g.packPk(Each(g.reduce, PlusV(SeqProduct(g, l), SeqError(g, l))), First(g.hashG(g.entropy)))
  }

  ghost function SeqSp(g: Kernels, l: Level, coins: seq<byte>): seq<Coeffs> {
    Each(g.ntt, Samples(g.noise1, coins, 0, l.K()))
  }

  ghost function SeqB(g: Kernels, l: Level, pk: seq<byte>, coins: seq<byte>): seq<Coeffs> {
    Each(g.inverse, RowsOf(g.acc, g.genAt(g.unpackPk(pk).1), SeqSp(g, l, coins)))
  }

  ghost function SeqV(g: Kernels, l: Level, pk: seq<byte>, coins: seq<byte>): Coeffs {
    g.inverse(g.acc(g.unpackPk(pk).0, SeqSp(g, l, coins)))
  }

  ghost function SequentialC(g: Kernels, l: Level, pk: seq<byte>, m: seq<byte>, coins: seq<byte>): seq<byte> {
    var u := Each(g.reduce, PlusV(SeqB(g, l, pk, coins), Samples(g.noise2, coins, l.K(), l.K())));
    var v := g.reduce(Plus(Plus(SeqV(g, l, pk, coins), g.noise2(coins, 2 * l.K())), g.fromMsg(m)));
    g.packCiphertext(u, v)
  }

  ghost function SeqMp(g: Kernels, c: seq<byte>, sk: seq<byte>): Coeffs {
    g.inverse(g.acc(g.unpackSk(sk), Each(g.ntt, g.decompressB(c))))
  }

  ghost function SequentialM(g: Kernels, c: seq<byte>, sk: seq<byte>): seq<byte> {
    g.toMsg(g.reduce(Minus(g.decompressV(c), SeqMp(g, c, sk))))
  }

  // ----- the memory at every state of a run

  ghost function KeypairMemory(g: Kernels, l: Level, s: Store, i: nat, j: nat): Store {
    var buf := g.hashG(g.entropy);
    var product := SeqProduct(g, l);
    var sum := PlusV(product, SeqError(g, l));
    s.(buf := if i <= 0 then s.buf else if i <= 1 then g.entropy else buf,
       a := if i <= 3 then s.a else g.genA(First(buf)),
       skpv := if j <= 1 then s.skpv else if j <= 3 then Samples(g.noise1, Second(buf), 0, l.K()) else SeqSecret(g, l),
       e := if j <= 2 then s.e else if j <= 4 then Samples(g.noise1, Second(buf), l.K(), l.K()) else SeqError(g, l),
       pkpv := if i <= 5 then s.pkpv else if i <= 6 then product else if i <= 7 then sum else Each(g.reduce, sum),
       pk := if i <= 8 then s.pk else SequentialPk(g, l),
       sk := if j <= 6 then s.sk else SequentialSk(g, l))
  }

  lemma KeypairStep0(g: Kernels, l: Level, s: Store, c: Control)
    requires KeypairBalanced(c) && KeypairTask0(c.pc0).Call?
    ensures KeypairEffect(g, l, KeypairTask0(c.pc0).op, KeypairMemory(g, l, s, c.pc0, c.pc1)) == KeypairMemory(g, l, s, c.pc0 + 1, c.pc1)
  {
    hide Each, RowsOf, Plus, PlusV, Minus, Samples, First, Second, KeypairTask1;
  }

  lemma KeypairStep1(g: Kernels, l: Level, s: Store, c: Control)
    requires KeypairBalanced(c) && KeypairTask1(c.pc1).Call?
    ensures KeypairEffect(g, l, KeypairTask1(c.pc1).op, KeypairMemory(g, l, s, c.pc0, c.pc1)) == KeypairMemory(g, l, s, c.pc0, c.pc1 + 1)
  {
    hide Each, RowsOf, Plus, PlusV, Minus, Samples, First, Second, KeypairTask0;
  }

  ghost function EncMemory(g: Kernels, l: Level, s: Store, i: nat, j: nat): Store {
    var pk, coins := s.pk, s.coins;
    var noise := g.noise2(coins, 2 * l.K());
    var product := RowsOf(g.acc, g.genAt(g.unpackPk(pk).1), SeqSp(g, l, coins));
    var ep := Samples(g.noise2, coins, l.K(), l.K());
    var sum := PlusV(SeqB(g, l, pk, coins), ep);
    var epp := Plus(noise, g.fromMsg(s.m));
    var v := Plus(SeqV(g, l, pk, coins), epp);
    s.(pkpv := if i <= 0 then s.pkpv else g.unpackPk(pk).0,
       seed := if i <= 0 then s.seed else g.unpackPk(pk).1,
       at := if i <= 2 then s.at else g.genAt(g.unpackPk(pk).1),
       b := if i <= 4 then s.b else if i <= 5 then product else if i <= 7 then SeqB(g, l, pk, coins) else if i <= 8 then sum else Each(g.reduce, sum),
       sp := if j <= 0 then s.sp else if j <= 1 then Samples(g.noise1, coins, 0, l.K()) else SeqSp(g, l, coins),
       ep := if j <= 3 then s.ep else ep,
       epp := if j <= 5 then s.epp else if j <= 7 then noise else epp,
       k := if j <= 6 then s.k else g.fromMsg(s.m),
       v := if j <= 9 then s.v else if j <= 10 then g.acc(g.unpackPk(pk).0, SeqSp(g, l, coins))
            else if j <= 11 then SeqV(g, l, pk, coins) else if j <= 12 then v else g.reduce(v),
       c := if i <= 10 then s.c else g.packCiphertext(Each(g.reduce, sum), g.reduce(v)))
  }

  lemma EncStep0(g: Kernels, l: Level, s: Store, c: Control)
    requires EncBalanced(c) && EncTask0(c.pc0).Call?
    ensures EncEffect(g, l, EncTask0(c.pc0).op, EncMemory(g, l, s, c.pc0, c.pc1)) == EncMemory(g, l, s, c.pc0 + 1, c.pc1)
  {
    hide Each, RowsOf, Plus, PlusV, Minus, Samples, First, Second, EncTask1;
  }

  lemma EncStep1(g: Kernels, l: Level, s: Store, c: Control)
    requires EncBalanced(c) && EncTask1(c.pc1).Call?
    ensures EncEffect(g, l, EncTask1(c.pc1).op, EncMemory(g, l, s, c.pc0, c.pc1)) == EncMemory(g, l, s, c.pc0, c.pc1 + 1)
  {
    hide EncEffect, EncMemory;
    if c.pc1 < 8 { EncStep1Early(g, l, s, c.pc0, c.pc1); } else { EncStep1Late(g, l, s, c.pc0, c.pc1); }
  }

  lemma EncStep1Early(g: Kernels, l: Level, s: Store, i: nat, j: nat)
    requires j < 8 && EncTask1(j).Call?
    ensures EncEffect(g, l, EncTask1(j).op, EncMemory(g, l, s, i, j)) == EncMemory(g, l, s, i, j + 1)
  {
    hide Each, RowsOf, Plus, PlusV, Samples, SeqB, SeqV;
  }

  lemma EncStep1Late(g: Kernels, l: Level, s: Store, i: nat, j: nat)
    requires i > 0 && j > 8 && EncTask1(j).Call?
    ensures EncEffect(g, l, EncTask1(j).op, EncMemory(g, l, s, i, j)) == EncMemory(g, l, s, i, j + 1)
  {
    hide Each, RowsOf, Plus, PlusV, Samples, SeqB, SeqSp;
  }

  ghost function DecMemory(g: Kernels, l: Level, s: Store, i: nat, j: nat): Store {
    var b := g.decompressB(s.c);
    var v := g.decompressV(s.c);
    var mp := SeqMp(g, s.c, s.sk);
    s.(skpv := if i <= 0 then s.skpv else g.unpackSk(s.sk),
       v := if i <= 1 then s.v else v,
       mp := if i <= 3 then s.mp else if i <= 4 then g.acc(g.unpackSk(s.sk), Each(g.ntt, b)) else if i <= 5 then mp
             else if i <= 6 then Minus(v, mp) else g.reduce(Minus(v, mp)),
       b := if j <= 0 then s.b else if j <= 1 then b else Each(g.ntt, b),
       m := if i <= 7 then s.m else SequentialM(g, s.c, s.sk))
  }

  lemma DecStep0(g: Kernels, l: Level, s: Store, c: Control)
    requires DecBalanced(c) && DecTask0(c.pc0).Call?
    ensures DecEffect(g, l, DecTask0(c.pc0).op, DecMemory(g, l, s, c.pc0, c.pc1)) == DecMemory(g, l, s, c.pc0 + 1, c.pc1)
  {
    hide Each, RowsOf, Plus, PlusV, Minus, Samples, First, Second, DecTask1;
  }

  lemma DecStep1(g: Kernels, l: Level, s: Store, c: Control)
    requires DecBalanced(c) && DecTask1(c.pc1).Call?
    ensures DecEffect(g, l, DecTask1(c.pc1).op, DecMemory(g, l, s, c.pc0, c.pc1)) == DecMemory(g, l, s, c.pc0, c.pc1 + 1)
  {
    hide Each, RowsOf, Plus, PlusV, Minus, Samples, First, Second, DecTask0;
  }

  // Semaphore operations leave the memory alone.
  lemma KeypairIdle0(g: Kernels, l: Level, s: Store, i: nat, j: nat)
    requires !KeypairTask0(i).Call? && !KeypairTask0(i).End?
    ensures KeypairMemory(g, l, s, i + 1, j) == KeypairMemory(g, l, s, i, j)
  {
  }

  lemma KeypairIdle1(g: Kernels, l: Level, s: Store, i: nat, j: nat)
    requires !KeypairTask1(j).Call? && !KeypairTask1(j).End?
    ensures KeypairMemory(g, l, s, i, j + 1) == KeypairMemory(g, l, s, i, j)
  {
  }

  lemma EncIdle0(g: Kernels, l: Level, s: Store, i: nat, j: nat)
    requires !EncTask0(i).Call? && !EncTask0(i).End?
    ensures EncMemory(g, l, s, i + 1, j) == EncMemory(g, l, s, i, j)
  {
  }

  lemma EncIdle1(g: Kernels, l: Level, s: Store, i: nat, j: nat)
    requires !EncTask1(j).Call? && !EncTask1(j).End?
    ensures EncMemory(g, l, s, i, j + 1) == EncMemory(g, l, s, i, j)
  {
  }

  lemma DecIdle0(g: Kernels, l: Level, s: Store, i: nat, j: nat)
    requires !DecTask0(i).Call? && !DecTask0(i).End?
    ensures DecMemory(g, l, s, i + 1, j) == DecMemory(g, l, s, i, j)
  {
  }

  lemma DecIdle1(g: Kernels, l: Level, s: Store, i: nat, j: nat)
    requires !DecTask1(j).Call? && !DecTask1(j).End?
    ensures DecMemory(g, l, s, i, j + 1) == DecMemory(g, l, s, i, j)
  {
  }

  ghost function MemoryAt(w: Which, g: Kernels, l: Level, s: Store, i: nat, j: nat): Store {
    match w
    case Keypair => KeypairMemory(g, l, s, i, j)
    case Enc => EncMemory(g, l, s, i, j)
    case Dec => DecMemory(g, l, s, i, j)
  }

  lemma KeypairStepMemory(g: Kernels, l: Level, late: set<nat>, s: Store, c: Control, a: Actor)
    requires KeypairBalanced(c) && Patient(Keypair, late) && Next(Keypair, late, c, a).Some?
    ensures var d := Next(Keypair, late, c, a).value;
            StepMemory(Keypair, g, l, c, KeypairMemory(g, l, s, c.pc0, c.pc1), a) == KeypairMemory(g, l, s, d.pc0, d.pc1)
  {
    hide KeypairMemory, KeypairEffect, KeypairBalanced, KeypairTask0, KeypairTask1;
    match a {
      case Task(t) =>
        if t {
          if KeypairTask1(c.pc1).Call? { KeypairStep1(g, l, s, c); } else { KeypairIdle1(g, l, s, c.pc0, c.pc1); }
        } else {
          if KeypairTask0(c.pc0).Call? { KeypairStep0(g, l, s, c); } else { KeypairIdle0(g, l, s, c.pc0, c.pc1); }
        }
      case Expire(t) =>
        NoExpiry(Keypair, late, c, t);
      case Caller =>
    }
  }

  lemma EncStepMemory(g: Kernels, l: Level, late: set<nat>, s: Store, c: Control, a: Actor)
    requires EncBalanced(c) && Patient(Enc, late) && Next(Enc, late, c, a).Some?
    ensures var d := Next(Enc, late, c, a).value;
            StepMemory(Enc, g, l, c, EncMemory(g, l, s, c.pc0, c.pc1), a) == EncMemory(g, l, s, d.pc0, d.pc1)
  {
    hide EncMemory, EncEffect, EncBalanced, EncTask0, EncTask1;
    match a {
      case Task(t) =>
        if t {
          if EncTask1(c.pc1).Call? { EncStep1(g, l, s, c); } else { EncIdle1(g, l, s, c.pc0, c.pc1); }
        } else {
          if EncTask0(c.pc0).Call? { EncStep0(g, l, s, c); } else { EncIdle0(g, l, s, c.pc0, c.pc1); }
        }
      case Expire(t) =>
        NoExpiry(Enc, late, c, t);
      case Caller =>
    }
  }

  lemma DecStepMemory(g: Kernels, l: Level, late: set<nat>, s: Store, c: Control, a: Actor)
    requires DecBalanced(c) && Patient(Dec, late) && Next(Dec, late, c, a).Some?
    ensures var d := Next(Dec, late, c, a).value;
            StepMemory(Dec, g, l, c, DecMemory(g, l, s, c.pc0, c.pc1), a) == DecMemory(g, l, s, d.pc0, d.pc1)
  {
    hide DecMemory, DecEffect, DecBalanced, DecTask0, DecTask1;
    match a {
      case Task(t) =>
        if t {
          if DecTask1(c.pc1).Call? { DecStep1(g, l, s, c); } else { DecIdle1(g, l, s, c.pc0, c.pc1); }
        } else {
          if DecTask0(c.pc0).Call? { DecStep0(g, l, s, c); } else { DecIdle0(g, l, s, c.pc0, c.pc1); }
        }
      case Expire(t) =>
        NoExpiry(Dec, late, c, t);
      case Caller =>
    }
  }

  lemma NoExpiry(w: Which, late: set<nat>, c: Control, t: bool)
    requires Patient(w, late)
    ensures Next(w, late, c, Expire(t)) == Option.None
  {
  }

  // Every state of every run without an expired wait: the memory depends on the
  // two program counters alone.
  lemma {:induction false} RunMemory(w: Which, g: Kernels, l: Level, late: set<nat>, s: Store, sched: seq<Actor>)
    requires Patient(w, late) && Run(w, late, sched).Some?
    ensures var c := Run(w, late, sched).value; Memory(w, g, l, late, s, sched) == MemoryAt(w, g, l, s, c.pc0, c.pc1)
  {
    if sched == [] {
      NothingYet(w, g, l, s);
    } else {
      var before := sched[..|sched| - 1];
      RunKeepsBalance(w, late, before);
      RunMemory(w, g, l, late, s, before);
      hide KeypairBalanced, EncBalanced, DecBalanced, Next, StepMemory, KeypairMemory, EncMemory, DecMemory;
      var c := Run(w, late, before).value;
      match w {
        case Keypair => KeypairStepMemory(g, l, late, s, c, sched[|sched| - 1]);
        case Enc => EncStepMemory(g, l, late, s, c, sched[|sched| - 1]);
        case Dec => DecStepMemory(g, l, late, s, c, sched[|sched| - 1]);
      }
    }
  }

  lemma NothingYet(w: Which, g: Kernels, l: Level, s: Store)
    ensures MemoryAt(w, g, l, s, 0, 0) == s
  {
  }

  lemma KeypairEnd(c: Control)
    requires Completed(Keypair, c)
    ensures c.pc0 >= 10 && c.pc1 >= 8
  {
  }

  // A completed key generation leaves the sequential keys.
  lemma KeypairCompleted(g: Kernels, l: Level, late: set<nat>, s: Store, sched: seq<Actor>)
    requires Run(Keypair, late, sched).Some? && Completed(Keypair, Run(Keypair, late, sched).value)
    ensures Memory(Keypair, g, l, late, s, sched).pk == SequentialPk(g, l)
    ensures Memory(Keypair, g, l, late, s, sched).sk == SequentialSk(g, l)
  {
    RunMemory(Keypair, g, l, late, s, sched);
    hide Memory, Run, SequentialPk, SequentialSk, SeqProduct, SeqSecret, SeqError, PlusV, Each, Samples, First, Second, KeypairTask0, KeypairTask1;
    KeypairEnd(Run(Keypair, late, sched).value);
  }

  // A completed encryption without an expired wait leaves the sequential ciphertext.
  lemma EncCompleted(g: Kernels, l: Level, late: set<nat>, s: Store, sched: seq<Actor>)
    requires late !! WAITS && Run(Enc, late, sched).Some? && Completed(Enc, Run(Enc, late, sched).value)
    ensures Memory(Enc, g, l, late, s, sched).c == SequentialC(g, l, s.pk, s.m, s.coins)
  {
    RunMemory(Enc, g, l, late, s, sched);
    hide Memory, Run, Plus, PlusV, Each, Samples, SeqB, SeqV;
    PlusRegroups(SeqV(g, l, s.pk, s.coins), g.noise2(s.coins, 2 * l.K()), g.fromMsg(s.m));
  }

  // A completed decryption leaves the sequential message.
  lemma DecCompleted(g: Kernels, l: Level, late: set<nat>, s: Store, sched: seq<Actor>)
    requires Run(Dec, late, sched).Some? && Completed(Dec, Run(Dec, late, sched).value)
    ensures Memory(Dec, g, l, late, s, sched).m == SequentialM(g, s.c, s.sk)
  {
    RunMemory(Dec, g, l, late, s, sched);
    hide Memory, Run, SequentialM;
  }
}
