/** The set and compare-and-branch pseudo-instructions: their expansions, and that each
    computes, or branches on, exactly the relation it is named after. */
module PseudoOps {
  import opened Words
  import opened Isa
  import opened Blocks
  import opened Assembler
  import opened Legalise
  import opened WideImmediates
  import opened Fixup
  import opened PseudoSteps

  datatype Relation = LE | LEU | GT | GTU | GE | GEU | EQ | NE | LT | LTU

  predicate Holds(r: Relation, a: Word, b: Word) {
    match r
    case LE => Signed(a) <= Signed(b)
    case LEU => a <= b
    case GT => Signed(a) > Signed(b)
    case GTU => a > b
    case GE => Signed(a) >= Signed(b)
    case GEU => a >= b
    case EQ => a == b
    case NE => a != b
    case LT => Signed(a) < Signed(b)
    case LTU => a < b
  }

  // ----- set pseudo-instructions -----

  function Bit(b: bool): Half {
    if b then 1 else 0
  }

  const NOP_STMT := RegStmt(NOP)

  function SetLess(unsigned: bool, rd: Reg, rs: Reg, rt: Reg): Inst {
    RType(if unsigned then SLTU else SLT, rd, rs, rt)
  }

  /** `set_le_inst`, `set_gt_inst`, `set_ge_inst` and `set_eq_inst`. */
  function SetStmts(r: Relation, rd: Reg, rs: Reg, rt: Reg): seq<Stmt> {
    match r
    case LE | LEU =>
      [Skip(BNE, rs, rt, 3), ConstStmt(ORI, rd, 0, 1), Skip(BEQ, 0, 0, 3), NOP_STMT, RegStmt(SetLess(r == LEU, rd, rs, rt))]
    case GT | GTU => [RegStmt(SetLess(r == GTU, rd, rt, rs))]
    case GE | GEU =>
      [Skip(BNE, rs, rt, 3), ConstStmt(ORI, rd, 0, 1), Skip(BEQ, 0, 0, 3), NOP_STMT, RegStmt(SetLess(r == GEU, rd, rt, rs))]
    case EQ | NE =>
      [Skip(BEQ, rs, rt, 3), ConstStmt(ORI, rd, 0, Bit(r == NE)), Skip(BEQ, 0, 0, 3), NOP_STMT,
       ConstStmt(ORI, rd, 0, Bit(r == EQ))]
    case LT | LTU => [RegStmt(SetLess(r == LTU, rd, rs, rt))]
  }

  /** The immediate form loads the constant into `$at`, unless it is 0. */
  function SetStmtsImm(r: Relation, rd: Reg, rs: Reg, v: Word): seq<Stmt> {
    if v == 0 then SetStmts(r, rd, rs, 0)
    else [ConstStmt(ORI, AT, 0, v)] + SetStmts(r, rd, rs, AT)
  }

  /** Branch over a value: `test` skips to the second of two instructions that write `rd`. Each
      of the five statements is one instruction, so the skips of 3 land where they should. */
  function DiamondCode(test: Op, rs: Reg, rt: Reg, x: Inst, y: Inst): seq<Inst> {
    [IType(test, rs, rt, 3), x, IType(BEQ, 0, 0, 3), NOP, y]
  }

  function SetCode(r: Relation, rd: Reg, rs: Reg, rt: Reg): seq<Inst> {
    match r
    case LE | LEU => DiamondCode(BNE, rs, rt, IType(ORI, rd, 0, 1), SetLess(r == LEU, rd, rs, rt))
    case GT | GTU => [SetLess(r == GTU, rd, rt, rs)]
    case GE | GEU => DiamondCode(BNE, rs, rt, IType(ORI, rd, 0, 1), SetLess(r == GEU, rd, rt, rs))
    case EQ | NE => DiamondCode(BEQ, rs, rt, IType(ORI, rd, 0, Bit(r == NE)),
                                IType(ORI, rd, 0, Bit(r == EQ)))
    case LT | LTU => [SetLess(r == LTU, rd, rs, rt)]
  }

  lemma Code1(s0: Stmt)
    ensures Code([s0]) == StmtCode(s0)
  {
    hide StmtCode;
    assert [s0][1..] == [];
    assert Code([]) == [];
  }

  lemma Code5(s0: Stmt, s1: Stmt, s2: Stmt, s3: Stmt, s4: Stmt)
    ensures Code([s0, s1, s2, s3, s4]) == StmtCode(s0) + (StmtCode(s1) + (StmtCode(s2) + (StmtCode(s3) + StmtCode(s4))))
  {
    hide StmtCode;
    Code1(s4);
    assert [s3, s4][1..] == [s4];
    assert Code([s3, s4]) == StmtCode(s3) + StmtCode(s4);
    assert [s2, s3, s4][1..] == [s3, s4];
    assert Code([s2, s3, s4]) == StmtCode(s2) + Code([s3, s4]);
    assert [s1, s2, s3, s4][1..] == [s2, s3, s4];
    assert Code([s1, s2, s3, s4]) == StmtCode(s1) + Code([s2, s3, s4]);
    assert [s0, s1, s2, s3, s4][1..] == [s1, s2, s3, s4];
  }

  lemma SingleInstructions(op: Op, rt: Reg, rs: Reg, v: Word)
    requires op == BEQ || op == BNE || op == BGEZ
    ensures StmtCode(Skip(op, rt, rs, 3)) == [IType(op, rt, rs, 3)]
    ensures v < 0x1_0000 ==> StmtCode(ConstStmt(ORI, rt, 0, v)) == [IType(ORI, rt, 0, v)]
  {
    SkipField(3);
  }

  lemma DiamondStmts(test: Op, rs: Reg, rt: Reg, rd: Reg, xv: Word, last: Stmt, y: Inst)
    requires (test == BEQ || test == BNE) && xv < 0x1_0000 && StmtCode(last) == [y]
    ensures Code([Skip(test, rs, rt, 3), ConstStmt(ORI, rd, 0, xv), Skip(BEQ, 0, 0, 3), NOP_STMT, last])
            == DiamondCode(test, rs, rt, IType(ORI, rd, 0, xv), y)
  {
    hide StmtCode;
    SingleInstructions(test, rs, rt, 0);
    SingleInstructions(BEQ, 0, 0, 0);
    SingleInstructions(BEQ, rd, 0, xv);
    NopCode();
    Code5(Skip(test, rs, rt, 3), ConstStmt(ORI, rd, 0, xv), Skip(BEQ, 0, 0, 3), NOP_STMT, last);
  }

  lemma NopCode()
    ensures StmtCode(NOP_STMT) == [NOP]
  {
  }

  /** The set expansions assemble to one instruction per statement. */
  lemma SetCodeIs(r: Relation, rd: Reg, rs: Reg, rt: Reg)
    ensures Code(SetStmts(r, rd, rs, rt)) == SetCode(r, rd, rs, rt)
  {
    hide DiamondCode, Code, SetLess, ConstStmt;
    match r
    case LE | LEU =>
      DiamondStmts(BNE, rs, rt, rd, 1, RegStmt(SetLess(r == LEU, rd, rs, rt)), SetLess(r == LEU, rd, rs, rt));
    case GE | GEU =>
      DiamondStmts(BNE, rs, rt, rd, 1, RegStmt(SetLess(r == GEU, rd, rt, rs)), SetLess(r == GEU, rd, rt, rs));
    case EQ | NE =>
      var last := ConstStmt(ORI, rd, 0, Bit(r == EQ));
      SingleInstructions(BEQ, rd, 0, Bit(r == EQ));
      DiamondStmts(BEQ, rs, rt, rd, Bit(r == NE), last, IType(ORI, rd, 0, Bit(r == EQ)));
    case GT | GTU => Code1(RegStmt(SetLess(r == GTU, rd, rt, rs)));
    case LT | LTU => Code1(RegStmt(SetLess(r == LTU, rd, rs, rt)));
  }

  // ----- executing a set -----

  /** The value a computing instruction would write in state `s`. */
  function ValueOf(i: Inst, s: State): Word {
    Compute(i.op, Seen(s, i.rs), Seen(s, i.rt), i.imm, i.shamt)
  }

  ghost predicate WritesTo(i: Inst, rd: Reg) {
    FamilyOf(i.op) == Computing && rd == (if WritesRt(i.op) then i.rt else i.rd)
  }

  /** Values seen through `$0`-clearing and skips are unchanged. */
  lemma SeenSame(s: State, t: State)
    requires OnlyRegs(s, t, {})
    ensures forall r: Reg :: Seen(t, r) == Seen(s, r)
    ensures forall i: Inst :: ValueOf(i, t) == ValueOf(i, s)
  {
    hide Compute;
  }

  /** The five instructions of a diamond, wherever they sit in a block: `rd` gets the value of
      the second instruction if the test is taken, of the first otherwise. */
  lemma RunDiamond(base: Word, code: seq<Inst>, k: nat, s: State, test: Op, rs: Reg, rt: Reg, x: Inst, y: Inst, rd: Reg)
    returns (s': State)
    requires Placed(base, code) && CodeAt(code, k, DiamondCode(test, rs, rt, x, y)) && s.pc == AddrOf(base, k) && !s.exc
    requires (test == BEQ || test == BNE) && WritesTo(x, rd) && WritesTo(y, rd)
    ensures s'.pc == AddrOf(base, k + 5) && OnlyRegs(s, s', {rd})
    ensures rd != 0 ==> s'.gpr[rd] == if (Seen(s, rs) == Seen(s, rt)) == (test == BEQ) then ValueOf(y, s) else ValueOf(x, s)
    ensures RunBlock(base, code, k, s) == RunBlock(base, code, k + 5, s')
  {
    hide RunBlock, Compute, Wrote;
    DiamondParts(code, k, test, rs, rt, x, y);
    var taken := (Seen(s, rs) == Seen(s, rt)) == (test == BEQ);
    StepSkip(base, code, k, s, taken);
    var j := if taken then k + 3 else k + 1;
    var s1 := Skipped(s, AddrOf(base, j));
    SkippedOnly(s, AddrOf(base, j));
    SeenSame(s, s1);
    if taken {
      s' := RunDiamondTail(base, code, k, s1, y, rd);
    } else {
      s' := RunDiamondHead(base, code, k, s1, x, rd);
    }
    OnlyRegsTrans(s, s1, s', {}, {rd});
  }

  lemma DiamondParts(code: seq<Inst>, k: nat, test: Op, rs: Reg, rt: Reg, x: Inst, y: Inst)
    requires CodeAt(code, k, DiamondCode(test, rs, rt, x, y))
    ensures code[k] == IType(test, rs, rt, 3) && code[k + 1] == x && code[k + 2] == IType(BEQ, 0, 0, 3)
    ensures code[k + 3] == NOP && code[k + 4] == y
  {
    var d := DiamondCode(test, rs, rt, x, y);
    CodeAtIndex(code, k, d, 0);
    CodeAtIndex(code, k, d, 1);
    CodeAtIndex(code, k, d, 2);
    CodeAtIndex(code, k, d, 3);
    CodeAtIndex(code, k, d, 4);
  }

  lemma RunDiamondHead(base: Word, code: seq<Inst>, k: nat, s: State, x: Inst, rd: Reg) returns (s': State)
    requires Placed(base, code) && k + 5 <= |code| && code[k + 1] == x && code[k + 2] == IType(BEQ, 0, 0, 3) && WritesTo(x, rd)
    requires s.pc == AddrOf(base, k + 1) && !s.exc
    ensures s'.pc == AddrOf(base, k + 5) && OnlyRegs(s, s', {rd}) && (rd != 0 ==> s'.gpr[rd] == ValueOf(x, s))
    ensures RunBlock(base, code, k + 1, s) == RunBlock(base, code, k + 5, s')
  {
    hide RunBlock, Compute, Wrote;
    StepCompute(base, code, k + 1, s, rd, ValueOf(x, s));
    var s1 := Wrote(s, rd, ValueOf(x, s));
    StepSkip(base, code, k + 2, s1, true);
    s' := Skipped(s1, AddrOf(base, k + 5));
    SkippedOnly(s1, AddrOf(base, k + 5));
    OnlyRegsTrans(s, s1, s', {rd}, {});
  }

  lemma RunDiamondTail(base: Word, code: seq<Inst>, k: nat, s: State, y: Inst, rd: Reg) returns (s': State)
    requires Placed(base, code) && k + 5 <= |code| && code[k + 3] == NOP && code[k + 4] == y && WritesTo(y, rd)
    requires s.pc == AddrOf(base, k + 3) && !s.exc
    ensures s'.pc == AddrOf(base, k + 5) && OnlyRegs(s, s', {rd}) && s'.gpr[rd] == ValueOf(y, s)
    ensures RunBlock(base, code, k + 3, s) == RunBlock(base, code, k + 5, s')
  {
    hide RunBlock, Wrote;
    NopValue(s);
    StepCompute(base, code, k + 3, s, 0, 0);
    var s1 := Wrote(s, 0, 0);
    assert OnlyRegs(s, s1, {});
    SeenSame(s, s1);
    StepCompute(base, code, k + 4, s1, rd, ValueOf(y, s));
    s' := Wrote(s1, rd, ValueOf(y, s));
    OnlyRegsTrans(s, s1, s', {}, {rd});
  }

  lemma NopValue(s: State)
    ensures ValueOf(NOP, s) == 0
  {
  }

  lemma SetLessValue(unsigned: bool, rd: Reg, rs: Reg, rt: Reg, s: State)
    ensures WritesTo(SetLess(unsigned, rd, rs, rt), rd)
    ensures var a, b := Seen(s, rs), Seen(s, rt);
            ValueOf(SetLess(unsigned, rd, rs, rt), s) == Flag(if unsigned then a < b else Signed(a) < Signed(b))
  {
  }

  lemma OriValue(rd: Reg, v: Half, s: State)
    ensures WritesTo(IType(ORI, rd, 0, v), rd) && ValueOf(IType(ORI, rd, 0, v), s) == v
  {
    ComputeConst(0, Seen(s, rd), v, 0);
  }

  lemma SignedInjective(a: Word, b: Word)
    ensures Signed(a) == Signed(b) <==> a == b
  {
  }

  /** The register form of every set, at any place in a block: `rd` gets 1 or 0 as the relation
      holds of the two source registers, for all values and all register aliasings. */
  lemma RunSet(base: Word, code: seq<Inst>, k: nat, s: State, r: Relation, rd: Reg, rs: Reg, rt: Reg) returns (s': State)
    requires Placed(base, code) && CodeAt(code, k, SetCode(r, rd, rs, rt)) && s.pc == AddrOf(base, k) && !s.exc
    ensures s'.pc == AddrOf(base, k + |SetCode(r, rd, rs, rt)|) && OnlyRegs(s, s', {rd})
    ensures rd != 0 ==> s'.gpr[rd] == Flag(Holds(r, Seen(s, rs), Seen(s, rt)))
    ensures RunBlock(base, code, k, s) == RunBlock(base, code, k + |SetCode(r, rd, rs, rt)|, s')
  {
    hide RunBlock, SetLess, Signed, OnlyRegs, Placed, CodeAt, SetCode, Holds, Seen;
    if r == GT || r == GTU || r == LT || r == LTU {
      s' := RunSetLess(base, code, k, s, r, rd, rs, rt);
    } else {
      s' := RunSetDiamond(base, code, k, s, r, rd, rs, rt);
    }
  }

  lemma RunSetLess(base: Word, code: seq<Inst>, k: nat, s: State, r: Relation, rd: Reg, rs: Reg, rt: Reg) returns (s': State)
    requires Placed(base, code) && CodeAt(code, k, SetCode(r, rd, rs, rt)) && s.pc == AddrOf(base, k) && !s.exc
    requires r == GT || r == GTU || r == LT || r == LTU
    ensures s'.pc == AddrOf(base, k + |SetCode(r, rd, rs, rt)|) && OnlyRegs(s, s', {rd})
    ensures s'.gpr[rd] == Flag(Holds(r, Seen(s, rs), Seen(s, rt)))
    ensures RunBlock(base, code, k, s) == RunBlock(base, code, k + |SetCode(r, rd, rs, rt)|, s')
  {
    hide RunBlock, ValueOf, WritesTo, SetLess, Signed, OnlyRegs, Placed, CodeAt;
    var unsigned, swap := r == GTU || r == LTU, r == GT || r == GTU;
    var x, y := if swap then rt else rs, if swap then rs else rt;
    SetLessValue(unsigned, rd, x, y, s);
    s' := RunOne(base, code, k, s, SetLess(unsigned, rd, x, y), rd);
  }

  lemma RunSetDiamond(base: Word, code: seq<Inst>, k: nat, s: State, r: Relation, rd: Reg, rs: Reg, rt: Reg) returns (s': State)
    requires Placed(base, code) && CodeAt(code, k, SetCode(r, rd, rs, rt)) && s.pc == AddrOf(base, k) && !s.exc
    requires r == LE || r == LEU || r == GE || r == GEU || r == EQ || r == NE
    ensures s'.pc == AddrOf(base, k + |SetCode(r, rd, rs, rt)|) && OnlyRegs(s, s', {rd})
    ensures rd != 0 ==> s'.gpr[rd] == Flag(Holds(r, Seen(s, rs), Seen(s, rt)))
    ensures RunBlock(base, code, k, s) == RunBlock(base, code, k + |SetCode(r, rd, rs, rt)|, s')
  {
    hide RunBlock, ValueOf, WritesTo, SetLess, Signed, OnlyRegs, Placed, CodeAt;
    SignedInjective(Seen(s, rs), Seen(s, rt));
    OriValue(rd, 0, s);
    OriValue(rd, 1, s);
    if r == EQ || r == NE {
      s' := RunDiamond(base, code, k, s, BEQ, rs, rt, IType(ORI, rd, 0, Bit(r == NE)), IType(ORI, rd, 0, Bit(r == EQ)), rd);
    } else {
      var unsigned, swap := r == LEU || r == GEU, r == GE || r == GEU;
      var x, y := if swap then rt else rs, if swap then rs else rt;
      SetLessValue(unsigned, rd, x, y, s);
      s' := RunDiamond(base, code, k, s, BNE, rs, rt, IType(ORI, rd, 0, 1), SetLess(unsigned, rd, x, y), rd);
    }
  }

  lemma RunOne(base: Word, code: seq<Inst>, k: nat, s: State, i: Inst, rd: Reg) returns (s': State)
    requires Placed(base, code) && CodeAt(code, k, [i]) && s.pc == AddrOf(base, k) && !s.exc && WritesTo(i, rd)
    ensures s'.pc == AddrOf(base, k + 1) && OnlyRegs(s, s', {rd}) && s'.gpr[rd] == ValueOf(i, s)
    ensures RunBlock(base, code, k, s) == RunBlock(base, code, k + 1, s')
  {
    hide RunBlock, Compute, Wrote;
    CodeAtIndex(code, k, [i], 0);
    StepCompute(base, code, k, s, rd, ValueOf(i, s));
    s' := Wrote(s, rd, ValueOf(i, s));
  }

  // ----- constants in front -----

  lemma CodeAtSplit(code: seq<Inst>, k: nat, p: seq<Inst>, q: seq<Inst>)
    requires CodeAt(code, k, p + q)
    ensures CodeAt(code, k, p) && CodeAt(code, k + |p|, q)
  {
    assert code[k..k + |p|] == code[k..k + |p + q|][..|p|];
    assert code[k + |p|..k + |p| + |q|] == code[k..k + |p + q|][|p|..];
    assert (p + q)[..|p|] == p && (p + q)[|p|..] == q;
  }

  /** A wide immediate instruction that cannot trap, anywhere in a block. */
  lemma RunWide(base: Word, code: seq<Inst>, k: nat, s: State, op: Op, rt: Reg, rs: Reg, v: Word) returns (s': State)
    requires IsWide(op) && op != ADDI && (rs != AT || Fits(op, Full, v))
    requires Placed(base, code) && CodeAt(code, k, Legal(op, rt, rs, v)) && s.pc == AddrOf(base, k) && !s.exc
    ensures s'.pc == AddrOf(base, k + |Legal(op, rt, rs, v)|) && OnlyRegs(s, s', {AT, rt})
    ensures rt != 0 ==> Some(s'.gpr[rt]) == WideResult(op, Seen(s, rs), v)
    ensures RunBlock(base, code, k, s) == RunBlock(base, code, k + |Legal(op, rt, rs, v)|, s')
  {
    hide RunBlock, Fits, WideResult, LoadConst, Legal, OnlyRegs, CodeAt;
    LegalCases(op, rt, rs, v);
    if Fits(op, Full, v) {
      s' := RunWideShort(base, code, k, s, op, rt, rs, v);
    } else if rs == 0 && (op == ORI || op == ADDIU) {
      s' := RunLoadConst(base, code, k, s, rt, v);
      ZeroSource(op, v);
    } else {
      s' := RunWideThrough(base, code, k, s, op, RegisterForm(op).value, rt, rs, v);
    }
  }

  lemma LegalCases(op: Op, rt: Reg, rs: Reg, v: Word)
    requires IsWide(op) && op != ADDI
    ensures RegisterForm(op).Some? && RegisterForm(op).value != op
    ensures Legal(op, rt, rs, v) ==
            if Fits(op, Full, v) then [IType(op, rt, rs, v % 0x1_0000)]
            else if rs == 0 && (op == ORI || op == ADDIU) then LoadConst(rt, v)
            else LoadConst(AT, v) + [RType(RegisterForm(op).value, rt, rs, AT)]
  {
    hide Fits, LoadConst, IsMem, RegisterForm;
    WideIsPlain(op);
  }

  lemma WideIsPlain(op: Op)
    requires IsWide(op) && op != ADDI
    ensures !IsMem(op) && op != LUI && RegisterForm(op).Some? && RegisterForm(op).value != op
  {
    hide IsMem, RegisterForm;
    WideIsComputing(op);
  }

  lemma RunWideShort(base: Word, code: seq<Inst>, k: nat, s: State, op: Op, rt: Reg, rs: Reg, v: Word) returns (s': State)
    requires IsWide(op) && op != ADDI && Fits(op, Full, v)
    requires Placed(base, code) && CodeAt(code, k, [IType(op, rt, rs, v % 0x1_0000)]) && s.pc == AddrOf(base, k) && !s.exc
    ensures s'.pc == AddrOf(base, k + 1) && OnlyRegs(s, s', {AT, rt})
    ensures Some(s'.gpr[rt]) == WideResult(op, Seen(s, rs), v)
    ensures RunBlock(base, code, k, s) == RunBlock(base, code, k + 1, s')
  {
    hide RunBlock, Fits, WideResult, IsWide;
    CodeAtIndex(code, k, [IType(op, rt, rs, v % 0x1_0000)], 0);
    s' := RunWideStep(base, code, k, s, op, rt, Seen(s, rs), v);
  }

  lemma RunWideThrough(base: Word, code: seq<Inst>, k: nat, s: State, op: Op, rop: Op, rt: Reg, rs: Reg, v: Word)
    returns (s': State)
    requires IsWide(op) && op != ADDI && rs != AT && RegisterForm(op) == Some(rop) && rop != op
    requires Placed(base, code) && CodeAt(code, k, LoadConst(AT, v) + [RType(rop, rt, rs, AT)])
    requires s.pc == AddrOf(base, k) && !s.exc
    ensures s'.pc == AddrOf(base, k + |LoadConst(AT, v)| + 1) && OnlyRegs(s, s', {AT, rt})
    ensures rt != 0 ==> Some(s'.gpr[rt]) == WideResult(op, Seen(s, rs), v)
    ensures RunBlock(base, code, k, s) == RunBlock(base, code, k + |LoadConst(AT, v)| + 1, s')
  {
    hide RunBlock, Fits, WideResult, LoadConst, RegisterForm, IsWide;
    var last, n := RType(rop, rt, rs, AT), |LoadConst(AT, v)|;
    CodeAtSplit(code, k, LoadConst(AT, v), [last]);
    var s1 := RunLoadConst(base, code, k, s, AT, v);
    CodeAtIndex(code, k + n, [last], 0);
    s' := RunWideStep(base, code, k + n, s1, op, rt, Seen(s, rs), v);
    OnlyRegsTrans(s, s1, s', {AT}, {rt});
  }

  lemma WideHasResult(op: Op, a: Word, b: Word)
    requires IsWide(op) && op != ADDI
    ensures WideResult(op, a, b).Some?
  {
    hide And, OrWord, XorWord, Signed, Wrap;
  }

  lemma RunWideStep(base: Word, code: seq<Inst>, k: nat, s: State, op: Op, rd: Reg, a: Word, b: Word) returns (s': State)
    requires IsWide(op) && op != ADDI && Placed(base, code) && k < |code| && s.pc == AddrOf(base, k) && !s.exc
    requires var i := code[k];
             || (i == IType(op, rd, i.rs, b % 0x1_0000) && Fits(op, Full, b))
             || (RegisterForm(op) == Some(i.op) && i.op != op && i.rd == rd && Seen(s, i.rt) == b)
    requires Seen(s, code[k].rs) == a
    ensures s'.pc == AddrOf(base, k + 1) && OnlyRegs(s, s', {rd}) && Some(s'.gpr[rd]) == WideResult(op, a, b)
    ensures RunBlock(base, code, k, s) == RunBlock(base, code, k + 1, s')
  {
    hide Run1, RunBlock, Fits, Wrap, WideResult, RegisterForm, Raise;
    RunWideLast(op, code[k], s, a, b);
    WideHasResult(op, a, b);
    var x := WideResult(op, a, b).value;
    s' := Wrote(s, rd, x);
    WroteOnly(s, rd, x);
    StepTo(base, code, k, s, k + 1, s');
  }

  lemma {:induction false} CodeAppend(p: seq<Stmt>, q: seq<Stmt>)
    ensures Code(p + q) == Code(p) + Code(q)
    decreases |p|
  {
    hide StmtCode;
    if p == [] {
      assert p + q == q;
    } else {
      assert (p + q)[1..] == p[1..] + q;
      CodeAppend(p[1..], q);
    }
  }

  /** How a set must end: the flag in `rd`, nothing else changed but the scratch registers. */
  ghost predicate SetOutcome(exit: Exit, base: Word, n: nat, s: State, rd: Reg, holds: bool, scratch: set<Reg>) {
    && exit.Reached?
    && exit.s.pc == AddrOf(base, n)
    && OnlyRegs(s, exit.s, scratch + {rd})
    && (rd != 0 ==> exit.s.gpr[rd] == Flag(holds))
  }

  lemma BlockEnds(base: Word, code: seq<Inst>, s: State)
    ensures RunBlock(base, code, |code|, s) == Reached(s)
  {
  }

  /** sle, sleu, sgt, sgtu, sge, sgeu, seq, sne on registers. */
  lemma SetComputes(base: Word, r: Relation, rd: Reg, rs: Reg, rt: Reg, s: State)
    requires Placed(base, Code(SetStmts(r, rd, rs, rt))) && s.pc == base && !s.exc
    ensures var code := Code(SetStmts(r, rd, rs, rt));
            SetOutcome(RunBlock(base, code, 0, s), base, |code|, s, rd, Holds(r, Seen(s, rs), Seen(s, rt)), {})
  {
    hide RunBlock, SetStmts, SetCode, Holds, Code;
    SetCodeIs(r, rd, rs, rt);
    var code := SetCode(r, rd, rs, rt);
    var s' := RunSet(base, code, 0, s, r, rd, rs, rt);
    BlockEnds(base, code, s');
  }

  /** The same against any 32-bit immediate. */
  lemma SetImmComputes(base: Word, r: Relation, rd: Reg, rs: Reg, v: Word, s: State)
    requires Placed(base, Code(SetStmtsImm(r, rd, rs, v))) && s.pc == base && !s.exc && rs != AT
    ensures var code := Code(SetStmtsImm(r, rd, rs, v));
            SetOutcome(RunBlock(base, code, 0, s), base, |code|, s, rd, Holds(r, Seen(s, rs), v), {AT})
  {
    hide RunBlock, SetStmts, SetCode, Holds, Code, Legal, SetOutcome;
    if v == 0 {
      SetComputes(base, r, rd, rs, 0, s);
      Weaken(RunBlock(base, Code(SetStmts(r, rd, rs, 0)), 0, s), base, |Code(SetStmts(r, rd, rs, 0))|, s, rd,
             Holds(r, Seen(s, rs), v));
    } else {
      ConstPrefix(v, SetStmts(r, rd, rs, AT));
      SetCodeIs(r, rd, rs, AT);
      RunSetImm(base, Legal(ORI, AT, 0, v) + SetCode(r, rd, rs, AT), s, r, rd, rs, v);
    }
  }

  lemma Weaken(exit: Exit, base: Word, n: nat, s: State, rd: Reg, holds: bool)
    requires SetOutcome(exit, base, n, s, rd, holds, {})
    ensures SetOutcome(exit, base, n, s, rd, holds, {AT})
  {
  }

  /** A constant loaded into `$at`, anywhere in a block. */
  lemma RunConst(base: Word, code: seq<Inst>, k: nat, s: State, v: Word) returns (s': State)
    requires Placed(base, code) && CodeAt(code, k, Legal(ORI, AT, 0, v)) && s.pc == AddrOf(base, k) && !s.exc
    ensures s'.pc == AddrOf(base, k + |Legal(ORI, AT, 0, v)|) && OnlyRegs(s, s', {AT}) && s'.gpr[AT] == v
    ensures RunBlock(base, code, k, s) == RunBlock(base, code, k + |Legal(ORI, AT, 0, v)|, s')
  {
    hide RunBlock, Legal, WideResult, CodeAt;
    s' := RunWide(base, code, k, s, ORI, AT, 0, v);
    OrZero(v);
  }

  lemma RunSetImm(base: Word, code: seq<Inst>, s: State, r: Relation, rd: Reg, rs: Reg, v: Word)
    requires code == Legal(ORI, AT, 0, v) + SetCode(r, rd, rs, AT)
    requires Placed(base, code) && s.pc == base && !s.exc && rs != AT
    ensures SetOutcome(RunBlock(base, code, 0, s), base, |code|, s, rd, Holds(r, Seen(s, rs), v), {AT})
  {
    hide RunBlock, SetCode, Holds, Legal;
    var p := Legal(ORI, AT, 0, v);
    CodeAtSplit(code, 0, p, SetCode(r, rd, rs, AT));
    var s1 := RunConst(base, code, 0, s, v);
    var s2 := RunSet(base, code, |p|, s1, r, rd, rs, AT);
    OnlyRegsTrans(s, s1, s2, {AT}, {rd});
    BlockEnds(base, code, s2);
  }

  lemma ConstPrefix(v: Word, stmts: seq<Stmt>)
    ensures Code([ConstStmt(ORI, AT, 0, v)] + stmts) == Legal(ORI, AT, 0, v) + Code(stmts)
  {
    hide Legal;
    CodeAppend([ConstStmt(ORI, AT, 0, v)], stmts);
    Code1(ConstStmt(ORI, AT, 0, v));
  }

  lemma OrZero(v: Word)
    ensures WideResult(ORI, 0, v) == Some(v)
  {
  }
}
