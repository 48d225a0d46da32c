/**
 * The point datapath (ed25519_point_core.v): one multiplier, one add/subtract unit and the
 * sequences for addition, doubling, decompression and the exponentiation inside it.
 */
module PointCore {
  import opened Bits
  import opened Field
  import Curve
  import Decompress
  import FeAux
  import FieldMultiplier
  import PowChain

  datatype Op = OpDecompress | OpAdd | OpDouble | OpNone
  datatype PowStep = PowDispatch | PowWait | Dec8
  datatype PowStore = StoreValue | StoreT1 | StoreT2

  class Core {
    const fe: FieldMultiplier.Multiplier

    var flag: bool
    var outX: Fe
    var outY: Fe
    var outZ: Fe
    var outT: Fe

    var pX: Fe
    var pY: Fe
    var pZ: Fe
    var pT: Fe
    var qX: Fe
    var qY: Fe
    var qZ: Fe
    var qT: Fe
    var addBAffine: bool
    var encodedSign: nat

    var t0: Fe
    var t1: Fe
    var t2: Fe
    var t3: Fe
    var t4: Fe
    var t5: Fe
    var t6: Fe
    var t7: Fe
    var t8: Fe
    var auxStage: Fe
    var auxPipeA: Fe
    var auxPipeB: Fe
    var auxPipeNegate: bool
    var decMatchPos: bool
    var decMatchNeg: bool

    var powStep: PowStep
    var powPhase: nat
    var powSqRemaining: nat
    var powDispatchIsSquare: bool
    var powStoreSel: PowStore
    var powInput: Fe
    var powValue: Fe
    var powT1: Fe
    var powT2: Fe
    var feA: Fe
    var feB: Fe

    /** Whether every product since the flag was last set was one the multiplier gets right. */
    ghost var kept: bool

    /** Holds in every run with the narrow multiplier; see FeMulWide.ProductExactIff for the wide one. */
    ghost predicate Exact()
      reads this`kept
    {
      fe.wide ==> kept
    }

    ghost predicate Valid() {
      fe.Valid() && this !in fe.Arrays()
    }

    constructor (wide: bool)
      ensures Valid() && fresh(fe.Arrays()) && fe.wide == wide && Exact()
    {
      fe := new FieldMultiplier.Multiplier(wide);
      flag, outX, outY, outZ, outT := false, 0, 0, 0, 0;
      pX, pY, pZ, pT, qX, qY, qZ, qT := 0, 0, 0, 0, 0, 0, 0, 0;
      addBAffine, encodedSign := false, 0;
      t0, t1, t2, t3, t4, t5, t6, t7, t8 := 0, 0, 0, 0, 0, 0, 0, 0, 0;
      auxStage, auxPipeA, auxPipeB, auxPipeNegate, decMatchPos, decMatchNeg := 0, 0, 0, false, false, false;
      powStep, powPhase, powSqRemaining, powDispatchIsSquare, powStoreSel := PowDispatch, 0, 0, false, StoreValue;
      powInput, powValue, powT1, powT2, feA, feB := 0, 0, 0, 0, 0, 0;
      kept := true;
    }

    ghost function Out(): Curve.Point reads this {
      Curve.Point(outX, outY, outZ, outT)
    }

    ghost function P(): Curve.Point reads this {
      Curve.Point(pX, pY, pZ, pT)
    }

    ghost function Q(): Curve.Point reads this {
      Curve.Point(qX, qY, qZ, qT)
    }

    /** One start/done round trip of the multiplier. */
    method Multiply(a: Fe, b: Fe) returns (r: Fe)
      requires Valid()
      modifies this`kept, fe.Arrays()
      ensures InField(r)
      ensures Exact() <==> old(Exact()) && fe.Keeps(a, b)
      ensures Exact() ==> r == Curve.Mul(a, b)
    {
      r := fe.Multiply(a, b);
      Curve.MulIs(a, b);
      kept := kept && fe.Keeps(a, b);
    }

    // ----- the pow FSM -----

    ghost predicate At() reads this {
      PowChain.At(powPhase, powSqRemaining, powInput, powValue, powT1, powT2)
    }

    /** What the registers hold once the pending product r is stored and the FSM has moved on. */
    ghost predicate After(r: Fe) reads this {
      var v := if powStoreSel == StoreValue then r else powValue;
      var t1 := if powStoreSel == StoreT1 then r else powT1;
      var t2 := if powStoreSel == StoreT2 then r else powT2;
      if powDispatchIsSquare then powSqRemaining > 0 && PowChain.At(powPhase, powSqRemaining - 1, powInput, v, t1, t2)
      else if powPhase == PowChain.FINAL then v == PowChain.Power(powInput, PowChain.Exponent())
      else PowChain.At(powPhase + 1, PowChain.Squarings(powPhase + 1), powInput, v, t1, t2)
    }

    method Send(a: Fe, b: Fe, isSquare: bool, store: PowStore)
      modifies this`feA, this`feB, this`powDispatchIsSquare, this`powStoreSel, this`powStep
      ensures feA == a && feB == b && powDispatchIsSquare == isSquare && powStoreSel == store && powStep == PowWait
    {
      feA, feB, powDispatchIsSquare, powStoreSel, powStep := a, b, isSquare, store, PowWait;
    }

    /** STEP_POW_DISPATCH in the opening phases: the operands of x^2, x^4, x^8, x^9, x^11, x^22, x^31. */
    method DispatchInit()
      requires powPhase <= PowChain.INIT_6
      modifies this`feA, this`feB, this`powDispatchIsSquare, this`powStoreSel, this`powStep
      ensures powStep == PowWait && !powDispatchIsSquare
      ensures At() ==> After(Curve.Mul(feA, feB))
    {
      hide PowChain.Power, Curve.Mul, PowChain.Holds;
      ghost var x, v, t1 := powInput, powValue, powT1;
      if powPhase == PowChain.INIT_0 {
        Send(powInput, powInput, false, StoreValue);
        PowChain.FirstSquare(x);
      } else if powPhase == PowChain.INIT_1 {
        Send(powValue, powValue, false, StoreT1);
        if At() { PowChain.Combine(v, v, x, 2, 2); }
      } else if powPhase == PowChain.INIT_2 {
        Send(powT1, powT1, false, StoreT1);
        if At() { PowChain.Combine(t1, t1, x, 4, 4); }
      } else if powPhase == PowChain.INIT_3 {
        Send(powInput, powT1, false, StoreT1);
        if At() { PowChain.TimesInput(t1, x, 8); }
      } else if powPhase == PowChain.INIT_4 {
        Send(powValue, powT1, false, StoreValue);
        if At() { PowChain.Combine(v, t1, x, 2, 9); }
      } else if powPhase == PowChain.INIT_5 {
        Send(powValue, powValue, false, StoreValue);
        if At() { PowChain.Combine(v, v, x, 11, 11); }
      } else {
        Send(powT1, powValue, false, StoreValue);
        if At() {
          PowChain.Combine(t1, v, x, 9, 22);
          PowChain.FiveOnes(Curve.Mul(t1, v), x);
        }
      }
    }

    /** STEP_POW_DISPATCH in the phases that square `left` times and then join. */
    method DispatchLadder()
      requires PowChain.INIT_6 < powPhase <= PowChain.FINAL
      modifies this`feA, this`feB, this`powDispatchIsSquare, this`powStoreSel, this`powStep
      ensures powStep == PowWait && (powDispatchIsSquare <==> powSqRemaining > 0)
      ensures At() ==> After(Curve.Mul(feA, feB))
    {
      hide PowChain.Power, Curve.Mul, PowChain.Holds;
      ghost var x, v, t1, t2, left := powInput, powValue, powT1, powT2, powSqRemaining;
      if powPhase == PowChain.PHASE_10 {
        if powSqRemaining != 0 {
          if powSqRemaining == 5 {
            Send(powValue, powValue, true, StoreT1);
            if At() { PowChain.Square(v, x, 5, 0); }
          } else {
            Send(powT1, powT1, true, StoreT1);
            if At() { PowChain.Square(t1, x, 5, 5 - left); }
          }
        } else {
          Send(powT1, powValue, false, StoreValue);
          if At() { PowChain.Join(t1, v, x, 5, 5); }
        }
      } else if powPhase == PowChain.PHASE_20 {
        if powSqRemaining != 0 {
          if powSqRemaining == 10 {
            Send(powValue, powValue, true, StoreT1);
            if At() { PowChain.Square(v, x, 10, 0); }
          } else {
            Send(powT1, powT1, true, StoreT1);
            if At() { PowChain.Square(t1, x, 10, 10 - left); }
          }
        } else {
          Send(powT1, powValue, false, StoreT1);
          if At() { PowChain.Join(t1, v, x, 10, 10); }
        }
      } else if powPhase == PowChain.PHASE_40 {
        if powSqRemaining != 0 {
          if powSqRemaining == 20 {
            Send(powT1, powT1, true, StoreT2);
            if At() { PowChain.Square(t1, x, 20, 0); }
          } else {
            Send(powT2, powT2, true, StoreT2);
            if At() { PowChain.Square(t2, x, 20, 20 - left); }
          }
        } else {
          Send(powT2, powT1, false, StoreT1);
          if At() { PowChain.Join(t2, t1, x, 20, 20); }
        }
      } else if powPhase == PowChain.PHASE_50 {
        if powSqRemaining != 0 {
          Send(powT1, powT1, true, StoreT1);
          if At() { PowChain.Square(t1, x, 40, 10 - left); }
        } else {
          Send(powT1, powValue, false, StoreValue);
          if At() { PowChain.Join(t1, v, x, 40, 10); }
        }
      } else {
        DispatchLadderTop();
      }
    }

    method DispatchLadderTop()
      requires PowChain.PHASE_50 < powPhase <= PowChain.FINAL
      modifies this`feA, this`feB, this`powDispatchIsSquare, this`powStoreSel, this`powStep
      ensures powStep == PowWait && (powDispatchIsSquare <==> powSqRemaining > 0)
      ensures At() ==> After(Curve.Mul(feA, feB))
    {
      hide PowChain.Power, Curve.Mul, PowChain.Holds, PowChain.Exponent;
      ghost var x, v, t1, t2, left := powInput, powValue, powT1, powT2, powSqRemaining;
      if powPhase == PowChain.PHASE_100 {
        if powSqRemaining != 0 {
          if powSqRemaining == 50 {
            Send(powValue, powValue, true, StoreT1);
            if At() { PowChain.Square(v, x, 50, 0); }
          } else {
            Send(powT1, powT1, true, StoreT1);
            if At() { PowChain.Square(t1, x, 50, 50 - left); }
          }
        } else {
          Send(powT1, powValue, false, StoreT1);
          if At() { PowChain.Join(t1, v, x, 50, 50); }
        }
      } else if powPhase == PowChain.PHASE_200 {
        if powSqRemaining != 0 {
          if powSqRemaining == 100 {
            Send(powT1, powT1, true, StoreT2);
            if At() { PowChain.Square(t1, x, 100, 0); }
          } else {
            Send(powT2, powT2, true, StoreT2);
            if At() { PowChain.Square(t2, x, 100, 100 - left); }
          }
        } else {
          Send(powT2, powT1, false, StoreT1);
          if At() { PowChain.Join(t2, t1, x, 100, 100); }
        }
      } else if powPhase == PowChain.PHASE_250 {
        if powSqRemaining != 0 {
          Send(powT1, powT1, true, StoreT1);
          if At() { PowChain.Square(t1, x, 200, 50 - left); }
        } else {
          Send(powT1, powValue, false, StoreValue);
          if At() { PowChain.Join(t1, v, x, 200, 50); }
        }
      } else {
        if powSqRemaining != 0 {
          Send(powValue, powValue, true, StoreValue);
          if At() { PowChain.Square(v, x, 250, 2 - left); }
        } else {
          Send(powValue, powInput, false, StoreValue);
          if At() { PowChain.LastStep(v, x); }
        }
      }
    }

    /** STEP_POW_WAIT when the product r arrives: store it and choose the next phase. */
    method StoreAndMoveOn(r: Fe)
      requires powStep == PowWait && powPhase <= PowChain.FINAL
      requires powDispatchIsSquare <==> powSqRemaining > 0
      modifies this`powStep, this`powPhase, this`powSqRemaining, this`powValue, this`powT1, this`powT2
      ensures powStep == if old(powDispatchIsSquare) || old(powPhase) < PowChain.FINAL then PowDispatch else Dec8
      ensures powPhase == if old(powDispatchIsSquare) || powStep == Dec8 then old(powPhase) else old(powPhase) + 1
      ensures powSqRemaining ==
        if old(powDispatchIsSquare) then old(powSqRemaining) - 1
        else if powStep == Dec8 then 0 else PowChain.Squarings(powPhase)
      ensures old(After(r)) ==> if powStep == PowDispatch then At() else
          powValue == PowChain.Power(powInput, PowChain.Exponent())
    {
      hide PowChain.Power, PowChain.At, PowChain.Exponent;
      match powStoreSel {
        case StoreValue => powValue := r;
        case StoreT1 => powT1 := r;
        case StoreT2 => powT2 := r;
      }
      if powDispatchIsSquare {
        powSqRemaining := powSqRemaining - 1;
        powStep := PowDispatch;
      } else if powPhase == PowChain.FINAL {
        powStep := Dec8;
      } else {
        powPhase := powPhase + 1;
        powSqRemaining := PowChain.Squarings(powPhase);
        powStep := PowDispatch;
      }
    }

    /** One dispatch and the product it waits for. */
    method Round()
      requires Valid() && powStep == PowDispatch && powPhase <= PowChain.FINAL
      requires powPhase <= PowChain.INIT_6 ==> powSqRemaining == 0
      modifies this`kept, this`powStep, this`powPhase, this`powSqRemaining, this`powDispatchIsSquare, this`powStoreSel
      modifies this`feA, this`feB, this`powValue, this`powT1, this`powT2, fe.Arrays()
      ensures Exact() ==> old(Exact())
      ensures powPhase <= PowChain.FINAL && (powPhase <= PowChain.INIT_6 ==> powSqRemaining == 0)
      ensures powPhase == old(powPhase) ==> powStep == Dec8 || powSqRemaining < old(powSqRemaining)
      ensures powPhase >= old(powPhase)
      ensures Exact() && old(At()) ==> AtOrDone()
    {
      hide PowChain.Power, Curve.Mul, PowChain.At, PowChain.Exponent, InField, FieldMultiplier.Multiplier.Keeps;
      hide FieldMultiplier.Multiplier.Valid, FieldMultiplier.Multiplier.Arrays;
      if powPhase <= PowChain.INIT_6 {
        DispatchInit();
      } else {
        DispatchLadder();
      }
      var r := Multiply(feA, feB);
      StoreAndMoveOn(r);
    }

    ghost predicate AtOrDone() reads this {
      if powStep == PowDispatch then At() else powValue == PowChain.Power(powInput, PowChain.Exponent())
    }

    /** The whole exponentiation: it ends, and leaves x^(2^252 - 3) in pow_value. */
    method Pow()
      requires Valid()
      modifies this`kept, this`powStep, this`powPhase, this`powSqRemaining, this`powDispatchIsSquare, this`powStoreSel
      modifies this`feA, this`feB, this`powValue, this`powT1, this`powT2, fe.Arrays()
      ensures Exact() ==> old(Exact()) && powValue == PowChain.Power(powInput, PowChain.Exponent())
    {
      hide PowChain.Power, PowChain.At, PowChain.Exponent, FieldMultiplier.Multiplier.Valid;
      hide FieldMultiplier.Multiplier.Arrays;
      powValue, powT1, powT2, powPhase, powSqRemaining := 0, 0, 0, PowChain.INIT_0, 0;
      powStep := PowDispatch;
      PowChain.Initially(powInput);
      while powStep == PowDispatch
        invariant powPhase <= PowChain.FINAL && (powPhase <= PowChain.INIT_6 ==> powSqRemaining == 0)
        invariant Exact() ==> old(Exact()) && AtOrDone()
        decreases powStep == PowDispatch, PowChain.FINAL - powPhase, powSqRemaining
      {
        Round();
      }
    }

    // ----- addition and doubling -----

    /** STEP_ADD_0 to STEP_ADD_4: the two cross products. */
    method AddCrossProducts()
      requires Valid()
      modifies this`t0, this`t1, this`t8
      modifies this`auxPipeA, this`auxPipeB, this`auxStage, this`kept, fe.Arrays()
      ensures Exact() ==> old(Exact())
      ensures Exact() ==> t0 == Curve.Mul(FeAux.Sub(pY, pX), FeAux.Sub(qY, qX))
      ensures Exact() ==> t1 == Curve.Mul(FeAux.Add(pY, pX), FeAux.Add(qY, qX))
    {
      hide FeAux.Sub, FeAux.Add, Curve.Mul, InField, FieldMultiplier.Multiplier.Keeps;
      hide FieldMultiplier.Multiplier.Valid, FieldMultiplier.Multiplier.Arrays;
      t8 := FeAux.Sub(pY, pX);
      auxPipeA, auxPipeB := qY, qX;
      auxStage := FeAux.Sub(auxPipeA, auxPipeB);
      t0 := Multiply(t8, auxStage);
      t8 := FeAux.Add(pY, pX);
      auxPipeA, auxPipeB := qY, qX;
      auxStage := FeAux.Add(auxPipeA, auxPipeB);
      t1 := Multiply(t8, auxStage);
    }

    /** STEP_ADD_4 to STEP_ADD_7: 2d t t' and z z', the latter skipped when the second z is 1. */
    method AddScaledProducts()
      requires Valid() && (addBAffine <==> qZ == 1)
      modifies this`t2, this`t3, this`kept, fe.Arrays()
      ensures Exact() ==> old(Exact())
      ensures Exact() ==> t2 == Curve.Mul(Curve.Mul(pT, qT), D2)
      ensures Exact() ==> t3 == (if qZ == 1 then pZ else Curve.Mul(pZ, qZ))
    {
      Field.ConstantRegisters();
      hide FeAux.Sub, FeAux.Add, Curve.Mul, InField, FieldMultiplier.Multiplier.Keeps;
      hide FieldMultiplier.Multiplier.Valid, FieldMultiplier.Multiplier.Arrays, D2;
      var tt := Multiply(pT, qT);
      t2 := Multiply(tt, Field.D2);
      if addBAffine {
        t3 := pZ;
      } else {
        t3 := Multiply(pZ, qZ);
      }
    }

    /** The four closing products of both sequences. */
    method Finish(e: Fe, f: Fe, g: Fe, h: Fe)
      requires Valid()
      modifies this`kept, fe.Arrays(), this`outX, this`outY, this`outZ, this`outT, this`flag
      ensures flag && Curve.Reduced(Out())
      ensures Exact() ==> old(Exact()) && Out() == Curve.Complete(e, f, g, h)
    {
      hide FeAux.Sub, FeAux.Add, Curve.Mul, InField, FieldMultiplier.Multiplier.Keeps;
      hide FieldMultiplier.Multiplier.Valid, FieldMultiplier.Multiplier.Arrays;
      outX := Multiply(e, f);
      outY := Multiply(g, h);
      outT := Multiply(e, h);
      outZ := Multiply(f, g);
      flag := true;
    }

    /** STEP_ADD: the outputs are the sum of the two operand points. */
    method Add()
      requires Valid() && (addBAffine <==> qZ == 1)
      modifies this, fe.Arrays()
      ensures flag && Curve.Reduced(Out())
      ensures Exact() ==> old(Exact()) && Out() == Curve.Add(old(P()), old(Q()))
    {
      hide FeAux.Sub, FeAux.Add, Curve.Mul, InField, FieldMultiplier.Multiplier.Keeps;
      hide FieldMultiplier.Multiplier.Valid, FieldMultiplier.Multiplier.Arrays, D2, Curve.Complete, Curve.Reduced;
      AddCrossProducts();
      AddScaledProducts();
      t4 := FeAux.Sub(t1, t0);
      t8 := FeAux.Add(t3, t3);
      t5 := FeAux.Sub(t8, t2);
      t6 := FeAux.Add(t8, t2);
      t7 := FeAux.Add(t1, t0);
      Finish(t4, t5, t6, t7);
    }

    /** STEP_DBL_0 to STEP_DBL_5: the three squares and (x + y)^2. */
    method DoubleProducts()
      requires Valid()
      modifies this`t0, this`t1, this`t2, this`t3
      modifies this`auxPipeA, this`auxPipeB, this`auxStage, this`kept, fe.Arrays()
      ensures Exact() ==>
        && old(Exact())
        && t0 == Curve.Mul(pX, pX) && t1 == Curve.Mul(pY, pY)
        && t2 == FeAux.Add(Curve.Mul(pZ, pZ), Curve.Mul(pZ, pZ))
        && t3 == Curve.Mul(FeAux.Add(pX, pY), FeAux.Add(pX, pY))
    {
      hide FeAux.Sub, FeAux.Add, Curve.Mul, InField, FieldMultiplier.Multiplier.Keeps;
      hide FieldMultiplier.Multiplier.Valid, FieldMultiplier.Multiplier.Arrays;
      t0 := Multiply(pX, pX);
      t1 := Multiply(pY, pY);
      var zz := Multiply(pZ, pZ);
      t2 := FeAux.Add(zz, zz);
      auxPipeA, auxPipeB := pX, pY;
      auxStage := FeAux.Add(auxPipeA, auxPipeB);
      t3 := Multiply(auxStage, auxStage);
    }

    /** STEP_DBL: the outputs are twice the first operand point. */
    method Double()
      requires Valid()
      modifies this, fe.Arrays()
      ensures flag && Curve.Reduced(Out())
      ensures Exact() ==> old(Exact()) && Out() == Curve.Double(old(P()))
    {
      hide FeAux.Sub, FeAux.Add, FeAux.Neg, Curve.Mul, InField, FieldMultiplier.Multiplier.Keeps;
      hide FieldMultiplier.Multiplier.Valid, FieldMultiplier.Multiplier.Arrays;
      DoubleProducts();
      t4 := FeAux.Sub(t3, t0);
      t3 := FeAux.Sub(t4, t1);
      t4 := FeAux.Sub(t1, t0);
      t5 := FeAux.Sub(t4, t2);
      t6 := FeAux.Add(t0, t1);
      t7 := FeAux.Neg(t6);
      Finish(t3, t5, t4, t7);
    }

    // ----- decompression -----

    /** STEP_DEC_1 to STEP_DEC_7: u, v, u v^3 and the input u v^7 of the exponentiation. */
    method DecProducts()
      requires Valid()
      modifies this`t1, this`t2, this`t3, this`t4, this`t5, this`t6, this`t7, this`powInput
      modifies this`auxPipeA, this`auxPipeB, this`auxStage, this`kept, fe.Arrays()
      ensures Exact() ==>
        && old(Exact())
        && t2 == Decompress.U(t0) && t3 == Decompress.V(t0)
        && var v2 := Curve.Mul(t3, t3);
        && t7 == Curve.Mul(t2, Curve.Mul(v2, t3)) && powInput == Curve.Mul(t7, Curve.Mul(v2, v2))
    {
      Field.ConstantRegisters();
      hide FeAux.Sub, FeAux.Add, Curve.Mul, InField, FieldMultiplier.Multiplier.Keeps;
      hide FieldMultiplier.Multiplier.Valid, FieldMultiplier.Multiplier.Arrays, D;
      t1 := Multiply(t0, t0);
      t2 := FeAux.Sub(t1, 1);
      var dyy := Multiply(t1, Field.D);
      auxPipeA, auxPipeB := dyy, 1;
      t3, auxStage := FeAux.Add(auxPipeA, auxPipeB), FeAux.Add(auxPipeA, auxPipeB);
      t4 := Multiply(auxStage, auxStage);
      t5 := Multiply(t4, t3);
      t6 := Multiply(t4, t4);
      t7 := Multiply(t2, t5);
      powInput := Multiply(t7, t6);
    }

    /** STEP_DEC_8 to STEP_DEC_12: the candidate root, its check, and sqrt(-1) when the check is -u. */
    method DecRoot() returns (found: bool)
      requires Valid()
      modifies this`t3, this`t8, this`flag, this`decMatchPos, this`decMatchNeg
      modifies this`auxStage, this`kept, fe.Arrays()
      ensures flag == found
      ensures Exact() ==> old(Exact())
      ensures Exact() ==>
        var r := Curve.Mul(t7, powValue);
        var check := Curve.Mul(old(t3), Curve.Mul(r, r));
        && (found <==> check == t2 || check == FeAux.Neg(t2))
        && (found ==> t8 == if check == t2 then r else Curve.Mul(r, SQRT_M1))
    {
      Field.ConstantRegisters();
      hide FeAux.Neg, Curve.Mul, InField, FieldMultiplier.Multiplier.Keeps, FieldMultiplier.Multiplier.Valid;
      hide FieldMultiplier.Multiplier.Arrays, SQRT_M1;
      t8 := Multiply(t7, powValue);
      var rr := Multiply(t8, t8);
      var check := Multiply(t3, rr);
      t3, auxStage := check, FeAux.Neg(t2);
      decMatchPos, decMatchNeg := t3 == t2, t3 == auxStage;
      if decMatchPos {
        flag := true;
      } else if decMatchNeg {
        t8 := Multiply(t8, Field.SQRT_M1);
        flag := true;
      } else {
        flag := false;
      }
      found := flag;
    }

    /** STEP_DEC_13 and STEP_DEC_14: the sign of x, and t = x y. */
    method DecSign()
      requires Valid()
      modifies this`t8, this`auxPipeNegate, this`auxPipeA, this`auxPipeB, this`auxStage, this`kept, fe.Arrays()
      modifies this`outX, this`outY, this`outZ, this`outT
      ensures Exact() ==> old(Exact()) && Out() == Decompress.PointFrom(Decompress.WithSign(old(t8), encodedSign), t0)
    {
      hide FeAux.Neg, Curve.Mul, InField, FieldMultiplier.Multiplier.Keeps, FieldMultiplier.Multiplier.Valid;
      hide FieldMultiplier.Multiplier.Arrays;
      auxPipeNegate, auxPipeA, auxPipeB := t8 % 2 != encodedSign, t8, 0;
      t8 := if auxPipeNegate then FeAux.Neg(auxPipeA) else auxPipeA;
      auxStage := t8;
      var t := Multiply(auxStage, t0);
      outX, outY, outZ, outT := t8, t0, 1, t;
    }

    /** STEP_DEC: flag tells whether the encoding decodes, and the outputs are then its point. */
    method Decode(encoded: nat)
      requires Valid() && encodedSign == Decompress.Sign(encoded)
      modifies this, fe.Arrays()
      ensures Exact() ==> old(Exact()) && Decompress.Decode(encoded) == (if flag then Decompress.Some(Out()) else Decompress.None)
      ensures !flag ==> Out() == Curve.Point(0, 0, 0, 0)
    {
      hide FieldMultiplier.Multiplier.Valid, FieldMultiplier.Multiplier.Arrays;
      hide FeAux.Neg, FeAux.Load, Curve.Mul, InField, PowChain.Power, PowChain.Exponent, Decompress.U, Decompress.V;
      hide Decompress.Candidate, Decompress.WithSign, Decompress.PointFrom;
      t0 := FeAux.Load(encoded);
      DecProducts();
      Pow();
      if Exact() {
        CandidateIs(t2, t3, t7, powInput, powValue);
      }
      var found := DecRoot();
      if found {
        DecSign();
      } else {
        outX, outY, outZ, outT := 0, 0, 0, 0;
      }
    }

    /** The cycle that accepts start: latch the operands and clear the outputs. */
    method Latch(op: Op, encoded: nat, a: Curve.Point, b: Curve.Point)
      modifies this
      ensures Exact() == old(Exact())
      ensures P() == a && Q() == b && Out() == Curve.Point(0, 0, 0, 0) && !flag
      ensures encodedSign == Decompress.Sign(encoded) && (addBAffine <==> op == OpAdd && b.z == 1)
    {
      hide Decompress.Sign;
      ClearOutputs();
      LatchOperands(a, b);
      auxPipeNegate, decMatchPos, decMatchNeg := false, false, false;
      encodedSign := Decompress.Sign(encoded);
      addBAffine := op == OpAdd && b.z == 1;
    }

    method ClearOutputs()
      modifies this`flag, this`outX, this`outY, this`outZ, this`outT
      ensures !flag && Out() == Curve.Point(0, 0, 0, 0)
    {
      flag, outX, outY, outZ, outT := false, 0, 0, 0, 0;
    }

    method LatchOperands(a: Curve.Point, b: Curve.Point)
      modifies this`pX, this`pY, this`pZ, this`pT, this`qX, this`qY, this`qZ, this`qT
      ensures P() == a && Q() == b
    {
      pX, pY, pZ, pT := a.x, a.y, a.z, a.t;
      qX, qY, qZ, qT := b.x, b.y, b.z, b.t;
    }

    /** One operation from start to done. */
    method Run(op: Op, encoded: nat, a: Curve.Point, b: Curve.Point)
      requires Valid()
      modifies this, fe.Arrays()
      ensures Exact() ==> old(Exact())
      ensures Exact() && op == OpDecompress ==> Decompress.Decode(encoded) == if flag then Decompress.Some(Out()) else Decompress.None
      ensures Exact() && op == OpAdd ==> flag && Out() == Curve.Add(a, b)
      ensures Exact() && op == OpDouble ==> flag && Out() == Curve.Double(a)
      ensures op == OpNone || (op == OpDecompress && !flag) ==> !flag && Out() == Curve.Point(0, 0, 0, 0)
    {
      hide FieldMultiplier.Multiplier.Valid, FieldMultiplier.Multiplier.Arrays;
      hide InField, Curve.Add, Curve.Double, Curve.Reduced, Decompress.Decode, Decompress.Sign;
      Latch(op, encoded, a, b);
      match op {
        case OpAdd => Add();
        case OpDouble => Double();
        case OpDecompress => Decode(encoded);
        case OpNone =>
      }
    }
  }

  /** The product of u v^3 and the power of u v^7 is the candidate root. */
  lemma CandidateIs(u: Fe, v: Fe, uv3: Fe, input: Fe, value: Fe)
    requires var v2 := Curve.Mul(v, v);
      uv3 == Curve.Mul(u, Curve.Mul(v2, v)) && input == Curve.Mul(uv3, Curve.Mul(v2, v2))
    requires value == PowChain.Power(input, PowChain.Exponent())
    ensures Curve.Mul(uv3, value) == Decompress.Candidate(u, v)
  {
    hide Curve.Mul, PowChain.Power, PowChain.Exponent;
  }
}
