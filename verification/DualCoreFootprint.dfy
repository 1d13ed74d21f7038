// The fields each call is said to read and write are all that it does read and write
// (components/indcpa/indcpa.c:216-347, 402-554, 611-705).
module DualCoreFootprint {
  import opened Indcpa
  import opened DualCore
  import opened DualCoreResult

  // s and t hold the same in field f.
  predicate Same(s: Store, t: Store, f: Field) {
    match f
    case Pk => s.pk == t.pk case Sk => s.sk == t.sk case Buf => s.buf == t.buf case A => s.a == t.a
    case E => s.e == t.e case PkPv => s.pkpv == t.pkpv case SkPv => s.skpv == t.skpv case C => s.c == t.c
    case M => s.m == t.m case Coins => s.coins == t.coins case Seed => s.seed == t.seed case Sp => s.sp == t.sp
    case Ep => s.ep == t.ep case At => s.at == t.at case B => s.b == t.b case V => s.v == t.v
    case K => s.k == t.k case Epp => s.epp == t.epp case Mp => s.mp == t.mp
  }

  lemma SameSelf(s: Store, f: Field)
    ensures Same(s, s, f)
  {
  }

  lemma KeypairFirstWrites(g: Kernels, l: Level, op: Op, s: Store, f: Field)
    requires op in {RandomBytes, HashG, GenA, NoiseS, NoiseE, NttS}
    ensures !KeypairWrites(op, f) ==> Same(KeypairEffect(g, l, op, s), s, f)
  {
    hide Each, RowsOf, Plus, PlusV, Minus, Samples, First, Second;
  }

  lemma KeypairLastWrites(g: Kernels, l: Level, op: Op, s: Store, f: Field)
    requires op in {MultiplyA, AddE, ReducePk, PackPk, NttE, PackSk}
    ensures !KeypairWrites(op, f) ==> Same(KeypairEffect(g, l, op, s), s, f)
  {
    hide Each, RowsOf, Plus, PlusV, Minus, Samples, First, Second;
  }

  lemma KeypairOnlyWrites(g: Kernels, l: Level, op: Op, s: Store, f: Field)
    ensures !KeypairWrites(op, f) ==> Same(KeypairEffect(g, l, op, s), s, f)
  {
    hide KeypairWrites, Same, Each, RowsOf, Plus, PlusV, Minus, Samples, First, Second;
    if op in {RandomBytes, HashG, GenA, NoiseS, NoiseE, NttS} {
      KeypairFirstWrites(g, l, op, s, f);
    } else if op in {MultiplyA, AddE, ReducePk, PackPk, NttE, PackSk} {
      KeypairLastWrites(g, l, op, s, f);
    } else {
      SameSelf(s, f);
    }
  }

  lemma KeypairFirstReads(g: Kernels, l: Level, op: Op, s: Store, t: Store, f: Field)
    requires op in {RandomBytes, HashG, GenA, NoiseS, NoiseE, NttS}
    requires KeypairWrites(op, f) && forall r :: KeypairReads(op, r) ==> Same(s, t, r)
    ensures Same(KeypairEffect(g, l, op, s), KeypairEffect(g, l, op, t), f)
  {
    hide Each, RowsOf, Plus, PlusV, Minus, Samples, First, Second;
    match op {
      case RandomBytes =>
      case HashG => assert Same(s, t, Buf);
      case GenA => assert Same(s, t, Buf);
      case NoiseS => assert Same(s, t, Buf);
      case NoiseE => assert Same(s, t, Buf);
      case NttS => assert Same(s, t, SkPv);
    }
  }

  lemma KeypairLastReads(g: Kernels, l: Level, op: Op, s: Store, t: Store, f: Field)
    requires op in {MultiplyA, AddE, ReducePk, PackPk, NttE, PackSk}
    requires KeypairWrites(op, f) && forall r :: KeypairReads(op, r) ==> Same(s, t, r)
    ensures Same(KeypairEffect(g, l, op, s), KeypairEffect(g, l, op, t), f)
  {
    hide Each, RowsOf, Plus, PlusV, Minus, Samples, First, Second;
    match op {
      case MultiplyA => assert Same(s, t, A) && Same(s, t, SkPv);
      case AddE => assert Same(s, t, PkPv) && Same(s, t, E);
      case ReducePk => assert Same(s, t, PkPv);
      case PackPk => assert Same(s, t, PkPv) && Same(s, t, Buf);
      case NttE => assert Same(s, t, E);
      case PackSk => assert Same(s, t, SkPv);
    }
  }

  lemma KeypairOnlyReads(g: Kernels, l: Level, op: Op, s: Store, t: Store, f: Field)
    requires KeypairWrites(op, f) && forall r :: KeypairReads(op, r) ==> Same(s, t, r)
    ensures Same(KeypairEffect(g, l, op, s), KeypairEffect(g, l, op, t), f)
  {
    hide KeypairEffect, KeypairReads, Same;
    if op in {RandomBytes, HashG, GenA, NoiseS, NoiseE, NttS} {
      KeypairFirstReads(g, l, op, s, t, f);
    } else {
      KeypairLastReads(g, l, op, s, t, f);
    }
  }

  lemma EncRowsWrite(g: Kernels, l: Level, op: Op, s: Store, f: Field)
    requires op in {UnpackPk, GenAt, MultiplyAt, InverseB, AddEp, ReduceB}
    ensures !EncWrites(op, f) ==> Same(EncEffect(g, l, op, s), s, f)
  {
    hide Each, RowsOf, Plus, PlusV, Minus, Samples, First, Second;
  }

  lemma EncNoiseWrites(g: Kernels, l: Level, op: Op, s: Store, f: Field)
    requires op in {PackCiphertext, NoiseSp, NttSp, NoiseEp, NoiseEpp}
    ensures !EncWrites(op, f) ==> Same(EncEffect(g, l, op, s), s, f)
  {
    hide Each, RowsOf, Plus, PlusV, Minus, Samples, First, Second;
  }

  lemma EncSumWrites(g: Kernels, l: Level, op: Op, s: Store, f: Field)
    requires op in {FromMessage, AddK, MultiplyPk, InverseV, AddEpp, ReduceV}
    ensures !EncWrites(op, f) ==> Same(EncEffect(g, l, op, s), s, f)
  {
    hide Each, RowsOf, Plus, PlusV, Minus, Samples, First, Second;
  }

  lemma EncOnlyWrites(g: Kernels, l: Level, op: Op, s: Store, f: Field)
    ensures !EncWrites(op, f) ==> Same(EncEffect(g, l, op, s), s, f)
  {
    hide EncWrites, Same, Each, RowsOf, Plus, PlusV, Minus, Samples, First, Second;
    if op in {UnpackPk, GenAt, MultiplyAt, InverseB, AddEp, ReduceB} {
      EncRowsWrite(g, l, op, s, f);
    } else if op in {PackCiphertext, NoiseSp, NttSp, NoiseEp, NoiseEpp} {
      EncNoiseWrites(g, l, op, s, f);
    } else if op in {FromMessage, AddK, MultiplyPk, InverseV, AddEpp, ReduceV} {
      EncSumWrites(g, l, op, s, f);
    } else {
      SameSelf(s, f);
    }
  }

  lemma EncRowsRead(g: Kernels, l: Level, op: Op, s: Store, t: Store, f: Field)
    requires op in {UnpackPk, GenAt, MultiplyAt, InverseB, AddEp, ReduceB}
    requires EncWrites(op, f) && forall r :: EncReads(op, r) ==> Same(s, t, r)
    ensures Same(EncEffect(g, l, op, s), EncEffect(g, l, op, t), f)
  {
    hide Each, RowsOf, Plus, PlusV, Minus, Samples, First, Second;
    match op {
      case UnpackPk => assert Same(s, t, Pk);
      case GenAt => assert Same(s, t, Seed);
      case MultiplyAt => assert Same(s, t, At) && Same(s, t, Sp);
      case InverseB => assert Same(s, t, B);
      case AddEp => assert Same(s, t, B) && Same(s, t, Ep);
      case ReduceB => assert Same(s, t, B);
    }
  }

  lemma EncNoiseReads(g: Kernels, l: Level, op: Op, s: Store, t: Store, f: Field)
    requires op in {PackCiphertext, NoiseSp, NttSp, NoiseEp, NoiseEpp}
    requires EncWrites(op, f) && forall r :: EncReads(op, r) ==> Same(s, t, r)
    ensures Same(EncEffect(g, l, op, s), EncEffect(g, l, op, t), f)
  {
    hide Each, RowsOf, Plus, PlusV, Minus, Samples, First, Second;
    match op {
      case PackCiphertext => assert Same(s, t, B) && Same(s, t, V);
      case NoiseSp => assert Same(s, t, Coins);
      case NttSp => assert Same(s, t, Sp);
      case NoiseEp => assert Same(s, t, Coins);
      case NoiseEpp => assert Same(s, t, Coins);
    }
  }

  lemma EncMessageReads(g: Kernels, l: Level, op: Op, s: Store, t: Store, f: Field)
    requires op in {FromMessage, AddK, MultiplyPk}
    requires EncWrites(op, f) && forall r :: EncReads(op, r) ==> Same(s, t, r)
    ensures Same(EncEffect(g, l, op, s), EncEffect(g, l, op, t), f)
  {
    hide Each, RowsOf, Plus, PlusV, Minus, Samples, First, Second;
    match op {
      case FromMessage => assert Same(s, t, M);
      case AddK => assert Same(s, t, Epp) && Same(s, t, K);
      case MultiplyPk => assert Same(s, t, PkPv) && Same(s, t, Sp);
    }
  }

  lemma EncSumReads(g: Kernels, l: Level, op: Op, s: Store, t: Store, f: Field)
    requires op in {InverseV, AddEpp, ReduceV}
    requires EncWrites(op, f) && forall r :: EncReads(op, r) ==> Same(s, t, r)
    ensures Same(EncEffect(g, l, op, s), EncEffect(g, l, op, t), f)
  {
    hide Each, RowsOf, Plus, PlusV, Minus, Samples, First, Second;
    match op {
      case InverseV => assert Same(s, t, V);
      case AddEpp => assert Same(s, t, V) && Same(s, t, Epp);
      case ReduceV => assert Same(s, t, V);
    }
  }

  lemma EncOnlyReads(g: Kernels, l: Level, op: Op, s: Store, t: Store, f: Field)
    requires EncWrites(op, f) && forall r :: EncReads(op, r) ==> Same(s, t, r)
    ensures Same(EncEffect(g, l, op, s), EncEffect(g, l, op, t), f)
  {
    hide EncEffect, EncReads, Same;
    if op in {UnpackPk, GenAt, MultiplyAt, InverseB, AddEp, ReduceB} {
      EncRowsRead(g, l, op, s, t, f);
    } else if op in {PackCiphertext, NoiseSp, NttSp, NoiseEp, NoiseEpp} {
      EncNoiseReads(g, l, op, s, t, f);
    } else if op in {FromMessage, AddK, MultiplyPk} {
      EncMessageReads(g, l, op, s, t, f);
    } else {
      EncSumReads(g, l, op, s, t, f);
    }
  }

  lemma DecOnlyWrites(g: Kernels, l: Level, op: Op, s: Store, f: Field)
    ensures !DecWrites(op, f) ==> Same(DecEffect(g, l, op, s), s, f)
  {
    hide Each, RowsOf, Plus, PlusV, Minus, Samples, First, Second;
  }

  lemma DecOnlyReads(g: Kernels, l: Level, op: Op, s: Store, t: Store, f: Field)
    requires DecWrites(op, f) && forall r :: DecReads(op, r) ==> Same(s, t, r)
    ensures Same(DecEffect(g, l, op, s), DecEffect(g, l, op, t), f)
  {
    hide Each, RowsOf, Plus, PlusV, Minus, Samples, First, Second;
    assert DecReads(op, B) ==> Same(s, t, B);
    assert DecReads(op, Sk) ==> Same(s, t, Sk);
    assert DecReads(op, C) ==> Same(s, t, C);
    assert DecReads(op, SkPv) ==> Same(s, t, SkPv);
    assert DecReads(op, Mp) ==> Same(s, t, Mp);
    assert DecReads(op, V) ==> Same(s, t, V);
  }

  // A call leaves every field alone that it is not said to write.
  lemma OnlyWrites(w: Which, g: Kernels, l: Level, op: Op, s: Store, f: Field)
    requires !Writes(w, op, f)
    ensures Same(Effect(w, g, l, op, s), s, f)
  {
    hide KeypairWrites, EncWrites, DecWrites, KeypairEffect, EncEffect, DecEffect, Same;
    match w {
      case Keypair => KeypairOnlyWrites(g, l, op, s, f);
      case Enc => EncOnlyWrites(g, l, op, s, f);
      case Dec => DecOnlyWrites(g, l, op, s, f);
    }
  }

  // What it writes depends only on the fields it is said to read.
  lemma OnlyReads(w: Which, g: Kernels, l: Level, op: Op, s: Store, t: Store, f: Field)
    requires Writes(w, op, f) && forall r :: Reads(w, op, r) ==> Same(s, t, r)
    ensures Same(Effect(w, g, l, op, s), Effect(w, g, l, op, t), f)
  {
    hide KeypairWrites, EncWrites, DecWrites, KeypairReads, EncReads, DecReads, KeypairEffect, EncEffect, DecEffect, Same;
    assert forall r :: (match w case Keypair => KeypairReads(op, r) case Enc => EncReads(op, r) case Dec => DecReads(op, r)) == Reads(w, op, r);
    match w {
      case Keypair => KeypairOnlyReads(g, l, op, s, t, f);
      case Enc => EncOnlyReads(g, l, op, s, t, f);
      case Dec => DecOnlyReads(g, l, op, s, t, f);
    }
  }
}
