/** bgt, bge, blt, ble and their unsigned forms, against a register or an immediate. */
module PseudoBranches {
  import opened Words
  import opened Isa
  import opened Blocks
  import opened Legalise
  import opened WideImmediates
  import opened BranchTargets
  import opened PseudoSteps
  import opened PseudoOps

  predicate IsOrder(r: Relation) {
    r != EQ && r != NE
  }

  predicate Unsigned(r: Relation) {
    r == LEU || r == GTU || r == GEU || r == LTU
  }

  /** The branch to the label: on `$at` set, or on `$at` clear. */
  function LabelBranch(onSet: bool, f: Half): Inst {
    IType(if onSet then BNE else BEQ, 0, AT, f)
  }

  /** The register form; `f` is the field patched in for the label. */
  function BranchCode(r: Relation, rs: Reg, rt: Reg, f: Half): seq<Inst> {
    var swap := r == GT || r == GTU || r == LE || r == LEU;
    var onSet := r == GT || r == GTU || r == LT || r == LTU;
    [if swap then SetLess(Unsigned(r), AT, rt, rs) else SetLess(Unsigned(r), AT, rs, rt), LabelBranch(onSet, f)]
  }

  /** The immediate form; bleu branches to the label twice, with fields `g` and `f`. */
  function BranchImmCode(r: Relation, rs: Reg, v: Word, f: Half, g: Half): seq<Inst> {
    match r
    case GTU => Legal(ORI, AT, 0, v) + [IType(BEQ, rs, AT, 3), RType(SLTU, AT, rs, AT), LabelBranch(false, f)]
    case LEU => Legal(ORI, AT, 0, v) + [IType(BEQ, rs, AT, g), RType(SLTU, AT, rs, AT), LabelBranch(true, f)]
    case _ => CompareCode(r, rs, v) + [LabelBranch(r == LE || r == LT || r == LTU, f)]
  }

  /** bgt and ble compare with the immediate plus one. */
  function CompareCode(r: Relation, rs: Reg, v: Word): seq<Inst> {
    Legal(if Unsigned(r) then SLTIU else SLTI, AT, rs, if r == GT || r == LE then Increment(v) else v)
  }

  function Increment(v: int): Word {
    Wrap(v + 1)
  }

  /** A label marks a statement: its address is not inside the expansion. */
  predicate Outside(base: Word, code: seq<Inst>, target: Word) {
    target <= base || target >= base + 4 * |code|
  }

  ghost predicate BranchOutcome(exit: Exit, base: Word, n: nat, s: State, target: Word, holds: bool) {
    && exit.Reached?
    && exit.s.pc == (if holds then target else AddrOf(base, n))
    && OnlyRegs(s, exit.s, {AT})
  }

  /** A branch to the label at index `k`. */
  lemma StepAway(base: Word, code: seq<Inst>, k: nat, s: State, taken: bool, target: Word)
    requires Placed(base, code) && k < |code| && s.pc == AddrOf(base, k) && !s.exc && Outside(base, code, target)
    requires code[k].op == BEQ || code[k].op == BNE
    requires taken == ((Seen(s, code[k].rs) == Seen(s, code[k].rt)) == (code[k].op == BEQ))
    requires Landing(AddrOf(base, k), code[k].imm, false) == target
    ensures RunBlock(base, code, k, s) ==
            if taken then Reached(Skipped(s, target)) else RunBlock(base, code, k + 1, Skipped(s, AddrOf(base, k + 1)))
  {
    hide Run1, RunBlock, BranchOffset, Taken, Wrap, Outside;
    RunBranch(code[k], s);
    TakenEqual(code[k].op, Seen(s, code[k].rs), Seen(s, code[k].rt));
    if !taken {
      StepTo(base, code, k, s, k + 1, Skipped(s, AddrOf(base, k + 1)));
    } else {
      LeavesBlock(base, code, k, s, Skipped(s, target));
    }
  }

  lemma TakenEqual(op: Op, a: Word, b: Word)
    requires op == BEQ || op == BNE
    ensures Taken(op, a, b) == ((a == b) == (op == BEQ))
    ensures FamilyOf(op) == Branching && !Links(op) && !Likely(op)
  {
  }

  lemma LeavesBlock(base: Word, code: seq<Inst>, k: nat, s: State, s': State)
    requires Placed(base, code) && k < |code| && Run1(code[k], s) == Some(s') && !s'.exc && Outside(base, code, s'.pc)
    ensures RunBlock(base, code, k, s) == Reached(s')
  {
    hide Run1;
  }

  /** The comparison is in `$at`; the last instruction branches on it. */
  lemma RunLabelBranch(base: Word, code: seq<Inst>, s: State, t: State, onSet: bool, f: Half, target: Word, flag: bool)
    requires Placed(base, code) && |code| > 0 && code[|code| - 1] == LabelBranch(onSet, f)
    requires t.pc == AddrOf(base, |code| - 1) && !s.exc && OnlyRegs(s, t, {AT}) && t.gpr[AT] == Flag(flag)
    requires Outside(base, code, target) && Landing(AddrOf(base, |code| - 1), f, false) == target
    ensures BranchOutcome(RunBlock(base, code, |code| - 1, t), base, |code|, s, target, flag == onSet)
  {
    hide RunBlock, Landing;
    var k := |code| - 1;
    StepAway(base, code, k, t, flag == onSet, target);
    var u := Skipped(t, if flag == onSet then target else AddrOf(base, |code|));
    SkippedOnly(t, u.pc);
    OnlyRegsTrans(s, t, u, {AT}, {});
    BlockEnds(base, code, u);
  }

  /** The register forms branch exactly when their relation holds. */
  lemma BranchDecides(base: Word, r: Relation, rs: Reg, rt: Reg, f: Half, s: State, target: Word)
    requires IsOrder(r) && s.pc == base && !s.exc
    requires Placed(base, BranchCode(r, rs, rt, f)) && Outside(base, BranchCode(r, rs, rt, f), target)
    requires Landing(AddrOf(base, 1), f, false) == target
    ensures BranchOutcome(RunBlock(base, BranchCode(r, rs, rt, f), 0, s), base, 2, s, target,
                          Holds(r, Seen(s, rs), Seen(s, rt)))
  {
    hide RunBlock, Landing, SetLess, WritesTo, ValueOf, Signed;
    var code := BranchCode(r, rs, rt, f);
    var swap := r == GT || r == GTU || r == LE || r == LEU;
    var x, y := if swap then rt else rs, if swap then rs else rt;
    SetLessValue(Unsigned(r), AT, x, y, s);
    assert CodeAt(code, 0, [SetLess(Unsigned(r), AT, x, y)]);
    var t := RunOne(base, code, 0, s, SetLess(Unsigned(r), AT, x, y), AT);
    var a, b := Seen(s, x), Seen(s, y);
    var flag := if Unsigned(r) then a < b else Signed(a) < Signed(b);
    RunLabelBranch(base, code, s, t, r == GT || r == GTU || r == LT || r == LTU, f, target, flag);
  }

  lemma CompareValue(r: Relation, a: Word, v: Word)
    requires IsOrder(r) && r != GTU && r != LEU
    ensures var op, w := if Unsigned(r) then SLTIU else SLTI, if r == GT || r == LE then Increment(v) else v;
            var flag := if Unsigned(r) then a < w else Signed(a) < Signed(w);
            && WideResult(op, a, w) == Some(Flag(flag))
            && ((r == GT || r == LE) && v == 0x7fff_ffff <==>
                Holds(r, a, v) != (flag == (r == LE || r == LT || r == LTU)))
  {
    if (r == GT || r == LE) && v != 0x7fff_ffff {
      assert Signed(Increment(v)) == Signed(v) + 1;
    }
  }

  lemma RunCompare(base: Word, code: seq<Inst>, s: State, op: Op, rs: Reg, w: Word, flag: bool) returns (t: State)
    requires (op == SLTI || op == SLTIU) && rs != AT && s.pc == base && !s.exc && Placed(base, code)
    requires CodeAt(code, 0, Legal(op, AT, rs, w)) && WideResult(op, Seen(s, rs), w) == Some(Flag(flag))
    ensures t.pc == AddrOf(base, |Legal(op, AT, rs, w)|) && OnlyRegs(s, t, {AT}) && t.gpr[AT] == Flag(flag)
    ensures RunBlock(base, code, 0, s) == RunBlock(base, code, |Legal(op, AT, rs, w)|, t)
  {
    hide RunBlock, Legal, WideResult, Flag, CodeAt;
    t := RunWide(base, code, 0, s, op, AT, rs, w);
  }

  /** The immediate forms other than bgtu and bleu. */
  lemma BranchImmCompares(base: Word, r: Relation, rs: Reg, v: Word, f: Half, s: State, target: Word)
    requires IsOrder(r) && r != GTU && r != LEU && rs != AT && s.pc == base && !s.exc
    requires var code := BranchImmCode(r, rs, v, f, f);
             && Placed(base, code) && Outside(base, code, target)
             && Landing(AddrOf(base, |code| - 1), f, false) == target
    ensures var code := BranchImmCode(r, rs, v, f, f);
            var holds := Holds(r, Seen(s, rs), v);
            BranchOutcome(RunBlock(base, code, 0, s), base, |code|, s, target,
                          if (r == GT || r == LE) && v == 0x7fff_ffff then !holds else holds)
  {
    hide RunBlock, Landing, Legal, Holds, Outside, WideResult, Signed, OnlyRegs, Seen, LabelBranch, CodeAt, Placed,
      BranchOutcome, Increment;
    var code := BranchImmCode(r, rs, v, f, f);
    var op, w := if Unsigned(r) then SLTIU else SLTI, if r == GT || r == LE then Increment(v) else v;
    var flag := if Unsigned(r) then Seen(s, rs) < w else Signed(Seen(s, rs)) < Signed(w);
    CompareValue(r, Seen(s, rs), v);
    CodeAtSplit(code, 0, Legal(op, AT, rs, w), [LabelBranch(r == LE || r == LT || r == LTU, f)]);
    var t := RunCompare(base, code, s, op, rs, w, flag);
    RunLabelBranch(base, code, s, t, r == LE || r == LT || r == LTU, f, target, flag);
  }

  /** bgtu and bleu against an immediate: equality is tested first, then unsigned less-than. */
  lemma BranchImmUnsigned(base: Word, r: Relation, rs: Reg, v: Word, f: Half, g: Half, s: State, target: Word)
    requires (r == GTU || r == LEU) && rs != AT && s.pc == base && !s.exc
    requires var code := BranchImmCode(r, rs, v, f, g);
             && Placed(base, code) && Outside(base, code, target)
             && Landing(AddrOf(base, |code| - 1), f, false) == target
             && (r == LEU ==> Landing(AddrOf(base, |code| - 3), g, false) == target)
    ensures var code := BranchImmCode(r, rs, v, f, g);
            BranchOutcome(RunBlock(base, code, 0, s), base, |code|, s, target, Holds(r, Seen(s, rs), v))
  {
    hide RunBlock, Landing, Legal, Outside;
    var code := BranchImmCode(r, rs, v, f, g);
    var p, q := Legal(ORI, AT, 0, v), code[|Legal(ORI, AT, 0, v)|..];
    assert code == p + q && |q| == 3;
    CodeAtSplit(code, 0, p, q);
    var t := RunConst(base, code, 0, s, v);
    UnsignedTail(base, code, |p|, s, t, r, rs, v, f, g, target);
  }

  lemma UnsignedTail(base: Word, code: seq<Inst>, k: nat, s: State, t: State, r: Relation, rs: Reg, v: Word, f: Half, g: Half,
                     target: Word)
    requires (r == GTU || r == LEU) && rs != AT && Placed(base, code) && k + 3 == |code| && !s.exc
    requires code[k] == IType(BEQ, rs, AT, if r == GTU then 3 else g)
    requires code[k + 1] == RType(SLTU, AT, rs, AT) && code[k + 2] == LabelBranch(r == LEU, f)
    requires t.pc == AddrOf(base, k) && OnlyRegs(s, t, {AT}) && t.gpr[AT] == v && Outside(base, code, target)
    requires Landing(AddrOf(base, k + 2), f, false) == target
    requires r == LEU ==> Landing(AddrOf(base, k), g, false) == target
    ensures BranchOutcome(RunBlock(base, code, k, t), base, |code|, s, target, Holds(r, Seen(s, rs), v))
  {
    hide RunBlock, Landing, Outside, Wrap;
    var equal := Seen(s, rs) == v;
    if r == GTU {
      StepSkip(base, code, k, t, equal);
    } else {
      StepAway(base, code, k, t, equal, target);
    }
    var t1 := Skipped(t, if !equal then AddrOf(base, k + 1) else if r == GTU then AddrOf(base, |code|) else target);
    SkippedOnly(t, t1.pc);
    OnlyRegsTrans(s, t, t1, {AT}, {});
    if equal {
      BlockEnds(base, code, t1);
    } else {
      RunLess(base, code, k + 1, s, t1, r == LEU, rs, v, f, target);
    }
  }

  /** `sltu $at, rs, $at` and the branch on it. */
  lemma RunLess(base: Word, code: seq<Inst>, k: nat, s: State, t: State, onSet: bool, rs: Reg, v: Word, f: Half, target: Word)
    requires rs != AT && Placed(base, code) && k + 2 == |code| && !s.exc
    requires code[k] == RType(SLTU, AT, rs, AT) && code[k + 1] == LabelBranch(onSet, f)
    requires t.pc == AddrOf(base, k) && OnlyRegs(s, t, {AT}) && t.gpr[AT] == v && Outside(base, code, target)
    requires Landing(AddrOf(base, k + 1), f, false) == target
    ensures BranchOutcome(RunBlock(base, code, k, t), base, |code|, s, target, (Seen(s, rs) < v) == onSet)
  {
    hide RunBlock, Landing, Outside, Wrap;
    var less := Seen(s, rs) < v;
    StepCompute(base, code, k, t, AT, Flag(less));
    var u := Wrote(t, AT, Flag(less));
    OnlyRegsTrans(s, t, u, {AT}, {AT});
    RunLabelBranch(base, code, s, u, onSet, f, target, less);
  }

  /** Every immediate form branches on its relation, except bgt and ble against 2^31 - 1, where
      the incremented immediate wraps and the decision is always the wrong one. */
  lemma BranchImmDecidesIff(base: Word, r: Relation, rs: Reg, v: Word, f: Half, g: Half, s: State, target: Word)
    requires IsOrder(r) && rs != AT && s.pc == base && !s.exc
    requires var code := BranchImmCode(r, rs, v, f, g);
             && Placed(base, code) && Outside(base, code, target) && target != AddrOf(base, |code|)
             && Landing(AddrOf(base, |code| - 1), f, false) == target
             && (r == LEU ==> Landing(AddrOf(base, |code| - 3), g, false) == target)
    ensures var code := BranchImmCode(r, rs, v, f, g);
            BranchOutcome(RunBlock(base, code, 0, s), base, |code|, s, target, Holds(r, Seen(s, rs), v))
            <==> !((r == GT || r == LE) && v == 0x7fff_ffff)
  {
    hide RunBlock, Landing, Legal, Outside, Holds;
    if r == GTU || r == LEU {
      BranchImmUnsigned(base, r, rs, v, f, g, s, target);
    } else {
      assert BranchImmCode(r, rs, v, f, g) == BranchImmCode(r, rs, v, f, f);
      BranchImmCompares(base, r, rs, v, f, s, target);
    }
  }
}
