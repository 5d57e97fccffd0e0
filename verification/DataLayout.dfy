/** Laying out data: labels wait until the directive after them has aligned its data, and only then
    are the uses of those labels patched. */
module DataLayout {
  import opened Words

  /** A `.word`-style value: a constant or a label's address. */
  datatype Value = Lit(v: Word) | Sym(name: string)

  /** The nodes of an assembled file that matter for addresses. `n` is the alignment in bits: 0 for
      .byte and strings, 1 for .half, 2 for .word, 3 for .double; an item takes 2^n bytes. */
  datatype Node =
    | DataSegment(kernel: bool, start: Option<Word>)
    | TextSegment(kernel: bool, start: Option<Word>)
    | LabelDef(name: string)
    | ConstDef(name: string, v: Word)
    | Globl(name: string)
    | Align(n: nat)
    | Space(size: Word)
    | Data(n: nat, values: seq<Value>)
    | Instruction(symbol: Option<string>)

  /** A place that needed the address of `name`, and the address it was given. */
  datatype Given = Given(name: string, place: Word, value: Word)

  /** Where the next datum and the next instruction go: user and kernel segments, and which of them
      is current. */
  datatype Place = Place(dataPc: Word, kdataPc: Word, textPc: Word, ktextPc: Word, inKernel: bool, inKText: bool, inData: bool)
  {
    function DataPc(): Word {
      if inKernel then kdataPc else dataPc
    }

    function WithDataPc(pc: Word): Place {
      if inKernel then this.(kdataPc := pc) else this.(dataPc := pc)
    }

    function TextPc(): Word {
      if inKText then ktextPc else textPc
    }

    function WithTextPc(pc: Word): Place {
      if inKText then this.(ktextPc := pc) else this.(textPc := pc)
    }
  }

  /** `auto` is the parser's alignment flag, `enabled` that of the data module; `pending` is
      this_line_labels, latest first. `uses` wait for an undefined label; `given` is the history of
      addresses handed out, `items` the addresses of the data stored. */
  datatype Layout = Layout(
    place: Place, auto: bool, enabled: bool,
    addrs: map<string, Word>, pending: seq<string>, uses: seq<(string, Word)>, given: seq<Given>, items: seq<Word>)
  {
    function DataPc(): Word {
      place.DataPc()
    }

    function WithDataPc(pc: Word): Layout {
      this.(place := place.WithDataPc(pc))
    }

    function TextPc(): Word {
      place.TextPc()
    }

    function WithTextPc(pc: Word): Layout {
      this.(place := place.WithTextPc(pc))
    }

    function Pc(): Word {
      if place.inData then DataPc() else TextPc()
    }

    /** `SYMBOL_IS_DEFINED` */
    predicate Defined(name: string) {
      name in addrs && addrs[name] != 0
    }
  }

  /** `(pc + (1 << n) - 1) & (~0 << n)` on 32 bits. */
  function AlignUp(pc: Word, n: nat): Word {
    var up := Wrap(pc + Pow2(n) - 1);
    up - up % Pow2(n)
  }

  /** It is the nearest multiple of 2^n at or above `pc`, when there is one below 2^32; else 0. */
  lemma AlignedUp(pc: Word, n: nat)
    ensures var r := AlignUp(pc, n);
            && r % Pow2(n) == 0
            && (pc + Pow2(n) <= 0x1_0000_0000 ==> pc <= r < pc + Pow2(n))
            && (pc + Pow2(n) > 0x1_0000_0000 && n <= 32 ==> r == 0)
  {
    hide Pow2, Wrap;
    var p := Pow2(n);
    var up := Wrap(pc + p - 1);
    Floor(up, p);
    WrapOnce(pc + p - 1);
    if pc + p > 0x1_0000_0000 && n <= 32 {
      Pow2Below(n, 32);
      Pow2Values();
      SmallFloor(up, p);
    }
  }

  lemma WrapOnce(x: nat)
    ensures x < 0x1_0000_0000 ==> Wrap(x) == x
    ensures 0x1_0000_0000 <= x < 0x2_0000_0000 ==> Wrap(x) == x - 0x1_0000_0000
  {
  }

  lemma Floor(x: nat, p: nat)
    requires p > 0
    ensures (x - x % p) % p == 0 && x - p < x - x % p <= x
  {
    var q := x / p;
    assert x - x % p == p * q;
    ModUnique(p * q, q, p);
  }

  /** A multiple leaves no remainder. */
  lemma ModUnique(x: nat, q: nat, p: nat)
    requires p > 0 && x == p * q
    ensures x % p == 0
  {
    var q', r := x / p, x % p;
    assert x == p * q' + r && r < p;
    Apart(p, q, q');
    if q' < q {
      Apart(p, q', q);
    }
  }

  lemma Apart(p: nat, q: nat, q': nat)
    ensures q < q' ==> p * q' >= p * q + p
  {
    if q < q' {
      assert p * q' == p * q + p * (q' - q);
      AtLeastOnce(p, q' - q);
    }
  }

  lemma {:induction false} AtLeastOnce(p: nat, d: nat)
    requires d >= 1
    ensures p * d >= p
    decreases d
  {
    if d > 1 {
      AtLeastOnce(p, d - 1);
      assert p * d == p * (d - 1) + p;
    }
  }

  lemma SmallFloor(x: nat, p: nat)
    requires x < p
    ensures x - x % p == 0
  {
  }

  lemma {:induction false} Pow2Below(n: nat, m: nat)
    requires n <= m
    ensures Pow2(n) <= Pow2(m)
    decreases m
  {
    if n < m {
      Pow2Below(n, m - 1);
    }
  }

  /** `fix_current_label_address` */
  function FixLabels(l: Layout, addr: Word): Layout {
    l.(addrs := map name | name in l.addrs :: if name in l.pending then addr else l.addrs[name])
  }

  /** `align_data` */
  function AlignData(l: Layout, n: nat): Layout {
    if n == 0 then l.(enabled := false)
    else FixLabels(l.WithDataPc(AlignUp(l.DataPc(), n)), AlignUp(l.DataPc(), n))
  }

  /** `align_text` */
  function AlignText(l: Layout, n: nat): Layout {
    if n == 0 then l
    else FixLabels(l.WithTextPc(AlignUp(l.TextPc(), n)), AlignUp(l.TextPc(), n))
  }

  /** The start of a data directive: `align_labels_to`, then `set_data_alignment`. */
  function BeginData(l: Layout, n: nat): Layout {
    if n == 0 then l
    else
      var l1 := if l.place.inData && l.auto && l.pending != [] then FixLabels(l, AlignUp(l.DataPc(), n)) else l;
      if l.place.inData && l1.enabled then AlignData(l1, n) else l1
  }

  function StoreItem(l: Layout, n: nat, v: Value): Layout {
    var pc := l.DataPc();
    var l1 := if v.Lit? then l
              else if l.Defined(v.name) then l.(given := l.given + [Given(v.name, pc, l.addrs[v.name])])
              else l.(uses := [(v.name, pc)] + l.uses);
    l1.(items := l1.items + [pc]).WithDataPc(Wrap(pc + Pow2(n)))
  }

  function StoreItems(l: Layout, n: nat, values: seq<Value>): Layout
    decreases |values|
  {
    if values == [] then l else StoreItems(StoreItem(l, n, values[0]), n, values[1..])
  }

  /** `record_label` without resolving; a second definition changes nothing. */
  function RecordLabel(l: Layout, name: string, addr: Word): Layout {
    if l.Defined(name) then l else l.(addrs := l.addrs[name := addr])
  }

  /** `resolve_label_uses`: every waiting use of `name` is given its address. */
  function ResolveUses(l: Layout, name: string): Layout {
    if name !in l.addrs then l
    else l.(uses := Others(l.uses, name), given := l.given + Gifts(l.uses, name, l.addrs[name]))
  }

  function Others(uses: seq<(string, Word)>, name: string): seq<(string, Word)>
    decreases |uses|
  {
    if uses == [] then [] else (if uses[0].0 == name then [] else [uses[0]]) + Others(uses[1..], name)
  }

  function Gifts(uses: seq<(string, Word)>, name: string, addr: Word): seq<Given>
    decreases |uses|
  {
    if uses == [] then []
    else (if uses[0].0 == name then [Given(name, uses[0].1, addr)] else []) + Gifts(uses[1..], name, addr)
  }

  /** `clear_labels` */
  function ClearLabels(l: Layout): Layout
    decreases |l.pending|
  {
    if l.pending == [] then l
    else ClearLabels(ResolveUses(l, l.pending[0]).(pending := l.pending[1..]))
  }

  function Seek(l: Layout, start: Option<Word>): Layout {
    if start.None? then l else if l.place.inData then l.WithDataPc(start.value) else l.WithTextPc(start.value)
  }

  /** `emit_one` */
  function EmitNode(l: Layout, node: Node): Layout {
    match node
    case DataSegment(kernel, start) => Seek(l.(place := l.place.(inKernel := kernel, inData := true), enabled := true, auto := true), start)
    case TextSegment(kernel, start) => Seek(l.(place := l.place.(inKText := kernel, inData := false)), start)
    case LabelDef(name) =>
      var l1 := RecordLabel(l, name, l.Pc());
      l1.(pending := [name] + l1.pending)
    case ConstDef(name, v) => if l.Defined(name) then l else ResolveUses(RecordLabel(l, name, v), name)
    case Globl(_) => l
    case Align(n) =>
      var l1 := if n == 0 then l.(auto := false) else l;
      if l.place.inData then AlignData(l1, n) else AlignText(l1, n)
    case Space(size) => l.WithDataPc(Wrap(l.DataPc() + size))
    case Data(n, values) => StoreItems(BeginData(l, n), n, values)
    case Instruction(symbol) =>
      var pc := l.TextPc();
      var l1 := if symbol.None? then l
                else if l.Defined(symbol.value) then l.(given := l.given + [Given(symbol.value, pc, l.addrs[symbol.value])])
                else l.(uses := [(symbol.value, pc)] + l.uses);
      l1.WithTextPc(Wrap(pc + 4))
  }

  predicate KeepsLabels(node: Node) {
    node.LabelDef? || node.Globl?
  }

  /** The body of `emit_ast`'s loop. */
  function Emit(l: Layout, node: Node): Layout {
    var l1 := EmitNode(l, node);
    if KeepsLabels(node) then l1 else ClearLabels(l1)
  }

  function EmitAll(l: Layout, nodes: seq<Node>): Layout
    decreases |nodes|
  {
    if nodes == [] then l else EmitAll(Emit(l, nodes[0]), nodes[1..])
  }

  // ----- clearing labels -----

  lemma {:induction false} ClearedLabels(l: Layout)
    ensures var l' := ClearLabels(l);
            l' == l.(pending := [], uses := l'.uses, given := l'.given)
    decreases |l.pending|
  {
    if l.pending != [] {
      ClearedLabels(ResolveUses(l, l.pending[0]).(pending := l.pending[1..]));
    } else {
      assert l == l.(pending := []);
    }
  }

  // ----- labels before a data directive -----

  /** Label definitions with .globl lines between them. */
  ghost predicate LabelRun(nodes: seq<Node>) {
    forall node | node in nodes :: KeepsLabels(node)
  }

  /** The parser's flag never promises an alignment that the data module will not do. */
  ghost predicate FlagsAgree(l: Layout) {
    l.auto ==> l.enabled
  }

  /** A run of labels records each new one at the current PC and leaves it pending. */
  lemma {:induction false} LabelRunPending(l: Layout, nodes: seq<Node>, name: string)
    requires LabelRun(nodes) && !l.Defined(name) && LabelDef(name) in nodes
    ensures var l' := EmitAll(l, nodes);
            name in l'.pending && name in l'.addrs && l'.addrs[name] == l.Pc()
    decreases |nodes|
  {
    var l1 := Emit(l, nodes[0]);
    if nodes[0] == LabelDef(name) {
      LabelRunKeeps(l1, nodes[1..], name);
    } else {
      LabelRunPending(l1, nodes[1..], name);
    }
  }

  lemma {:induction false} LabelRunKeeps(l: Layout, nodes: seq<Node>, name: string)
    requires LabelRun(nodes) && name in l.pending && name in l.addrs && l.addrs[name] == l.Pc()
    ensures var l' := EmitAll(l, nodes); name in l'.pending && name in l'.addrs && l'.addrs[name] == l.Pc()
    decreases |nodes|
  {
    if nodes != [] {
      LabelRunKeeps(Emit(l, nodes[0]), nodes[1..], name);
    }
  }

  lemma {:induction false} LabelRunFrame(l: Layout, nodes: seq<Node>)
    requires LabelRun(nodes)
    ensures var l' := EmitAll(l, nodes);
            l' == l.(addrs := l'.addrs, pending := l'.pending)
    decreases |nodes|
  {
    if nodes != [] {
      LabelRunFrame(Emit(l, nodes[0]), nodes[1..]);
    }
  }

  /** Storing data moves no label and changes no flag. */
  ghost predicate OnlyStored(l: Layout, l': Layout) {
    && l'.addrs == l.addrs && l'.pending == l.pending && l'.place.inData == l.place.inData && l'.auto == l.auto && l'.enabled == l.enabled
    && |l'.items| >= |l.items| && l'.items[..|l.items|] == l.items
  }

  lemma StoreItemKeeps(l: Layout, n: nat, v: Value)
    ensures var l' := StoreItem(l, n, v);
            OnlyStored(l, l') && |l'.items| == |l.items| + 1 && l'.items[|l.items|] == l.DataPc()
  {
    hide Pow2, Wrap;
    if v.Sym? && l.Defined(v.name) {
      assert StoreItem(l, n, v).items == l.items + [l.DataPc()];
    }
  }

  lemma OnlyStoredTrans(l: Layout, l1: Layout, l2: Layout)
    requires OnlyStored(l, l1) && OnlyStored(l1, l2)
    ensures OnlyStored(l, l2)
    ensures |l1.items| > |l.items| ==> |l2.items| > |l.items| && l2.items[|l.items|] == l1.items[|l.items|]
  {
    assert l2.items[..|l1.items|][..|l.items|] == l2.items[..|l.items|];
    if |l1.items| > |l.items| {
      assert l2.items[..|l1.items|][|l.items|] == l2.items[|l.items|];
    }
  }

  lemma {:induction false} StoreItemsKeep(l: Layout, n: nat, values: seq<Value>)
    ensures var l' := StoreItems(l, n, values);
            OnlyStored(l, l') && (values != [] ==> |l'.items| > |l.items| && l'.items[|l.items|] == l.DataPc())
    decreases |values|
  {
    hide StoreItem;
    if values != [] {
      var l1 := StoreItem(l, n, values[0]);
      StoreItemKeeps(l, n, values[0]);
      StoreItemsKeep(l1, n, values[1..]);
      OnlyStoredTrans(l, l1, StoreItems(l1, n, values[1..]));
    }
  }

  /** Where the first datum of a directive goes. */
  function FirstDatum(l: Layout, n: nat): Word {
    if n > 0 && l.place.inData && l.enabled then AlignUp(l.DataPc(), n) else l.DataPc()
  }

  lemma BeginDataAligns(l: Layout, n: nat, name: string)
    requires l.place.inData && FlagsAgree(l) && name in l.pending && name in l.addrs && l.addrs[name] == l.DataPc()
    ensures var l' := BeginData(l, n);
            && l'.DataPc() == FirstDatum(l, n) && name in l'.addrs && l'.addrs[name] == FirstDatum(l, n)
            && l'.pending == l.pending && l'.items == l.items
  {
    hide AlignUp;
  }

  /** Item `k` is stored `k * 2^n` bytes behind the first. */
  lemma {:induction false} StoreItemsAt(l: Layout, n: nat, values: seq<Value>, k: nat)
    requires k < |values|
    ensures var l' := StoreItems(l, n, values);
            && |l'.items| == |l.items| + |values|
            && l'.items[|l.items| + k] == (l.DataPc() + k * Pow2(n)) % 0x1_0000_0000
    decreases |values|
  {
    hide StoreItem, Pow2;
    var l1 := StoreItem(l, n, values[0]);
    StoreItemKeeps(l, n, values[0]);
    StoreItemPc(l, n, values[0]);
    if |values| == 1 {
      assert StoreItems(l1, n, values[1..]) == l1;
    } else {
      StoreItemsAt(l1, n, values[1..], if k == 0 then 0 else k - 1);
      StoreItemsKeep(l1, n, values[1..]);
      NextItem(l.DataPc(), k, Pow2(n));
      if k == 0 {
        OnlyStoredTrans(l, l1, StoreItems(l1, n, values[1..]));
      }
    }
  }

  ghost predicate ItemsFrom(items: seq<Word>, start: nat, count: nat, first: Word, n: nat) {
    |items| == start + count && forall k | 0 <= k < count :: items[start + k] == (first + k * Pow2(n)) % 0x1_0000_0000
  }

  lemma StoredItems(l: Layout, n: nat, values: seq<Value>)
    requires values != []
    ensures ItemsFrom(StoreItems(l, n, values).items, |l.items|, |values|, l.DataPc(), n)
  {
    hide StoreItems, Pow2;
    forall k: nat | k < |values|
      ensures var l' := StoreItems(l, n, values);
              |l'.items| == |l.items| + |values| && l'.items[|l.items| + k] == (l.DataPc() + k * Pow2(n)) % 0x1_0000_0000
    {
      StoreItemsAt(l, n, values, k);
    }
    StoreItemsAt(l, n, values, 0);
  }

  lemma StoreItemPc(l: Layout, n: nat, v: Value)
    ensures StoreItem(l, n, v).DataPc() == Wrap(l.DataPc() + Pow2(n))
  {
    hide Pow2, Wrap;
  }

  lemma NextItem(pc: Word, k: nat, p: nat)
    ensures k > 0 ==> Wrap(Wrap(pc + p) + (k - 1) * p) == (pc + k * p) % 0x1_0000_0000
    ensures pc + 0 * p == pc == pc % 0x1_0000_0000
  {
    if k > 0 {
      assert k * p == (k - 1) * p + p;
      WrapSum(pc + p, (k - 1) * p);
    }
  }

  lemma WrapSum(x: nat, y: nat)
    ensures Wrap(Wrap(x) + y) == Wrap(x + y)
  {
  }

  /** Where the first item of a directive goes: aligned to 2^n, and as near as that allows. When that
      would be 2^32 it wraps to 0. */
  ghost predicate NearestMultiple(pc: Word, n: nat, aligned: bool, first: Word) {
    if n == 0 || !aligned then first == pc
    else
      && first % Pow2(n) == 0
      && (pc + Pow2(n) <= 0x1_0000_0000 ==> pc <= first < pc + Pow2(n))
      && (pc + Pow2(n) > 0x1_0000_0000 && n <= 32 ==> first == 0)
  }

  /** Every label of a run before a data directive ends at the address of the first datum stored,
      after alignment; datum `k` is `k * 2^n` bytes behind it. */
  lemma LabelsReachDatum(l: Layout, labels: seq<Node>, n: nat, values: seq<Value>, name: string)
    requires LabelRun(labels) && l.place.inData && FlagsAgree(l) && !l.Defined(name) && LabelDef(name) in labels && values != []
    ensures var l' := EmitAll(l, labels + [Data(n, values)]);
            && name in l'.addrs && NearestMultiple(l.DataPc(), n, l.enabled, l'.addrs[name])
            && ItemsFrom(l'.items, |l.items|, |values|, l'.addrs[name], n)
            && l'.pending == []
  {
    hide BeginData, StoreItems, AlignUp, Pow2, ItemsFrom, Emit;
    var l1 := EmitAll(l, labels);
    LabelRunPending(l, labels, name);
    LabelRunFrame(l, labels);
    var l2 := BeginData(l1, n);
    BeginDataAligns(l1, n, name);
    AlignedUp(l.DataPc(), n);
    StoreItemsKeep(l2, n, values);
    StoredItems(l2, n, values);
    EmitLast(l, labels, Data(n, values));
    DataClears(l1, n, values);
  }

  lemma DataClears(l: Layout, n: nat, values: seq<Value>)
    ensures var l', l3 := Emit(l, Data(n, values)), StoreItems(BeginData(l, n), n, values);
            l'.pending == [] && l'.addrs == l3.addrs && l'.items == l3.items
  {
    hide BeginData, StoreItems;
    ClearedLabels(StoreItems(BeginData(l, n), n, values));
  }

  /** `.align` moves the current location, and with it the labels of the line and no other, to the
      nearest multiple. */
  lemma AlignMoves(l: Layout, n: nat)
    requires n > 0
    ensures var l' := Emit(l, Align(n));
            && NearestMultiple(l.Pc(), n, true, l'.Pc()) && l'.pending == []
            && forall name | name in l.addrs ::
                 name in l'.addrs && l'.addrs[name] == if name in l.pending then l'.Pc() else l.addrs[name]
  {
    hide AlignUp, Pow2;
    AlignedUp(l.Pc(), n);
    ClearedLabels(EmitNode(l, Align(n)));
  }

  // ----- instructions -----

  /** Instructions are four bytes apart. */
  lemma {:induction false} InstructionsAdvance(l: Layout, code: seq<Node>)
    requires forall node | node in code :: node.Instruction?
    ensures var l' := EmitAll(l, code);
            && l'.TextPc() == Wrap(l.TextPc() + 4 * |code|)
            && l'.addrs == l.addrs && l'.place.inData == l.place.inData
    decreases |code|
  {
    hide Emit, Wrap;
    if code != [] {
      assert code[0] in code;
      InstructionAdvances(l, code[0].symbol);
      InstructionsAdvance(Emit(l, code[0]), code[1..]);
      WrapSum(l.TextPc() + 4, 4 * (|code| - 1));
    } else {
      WrapOnce(l.TextPc());
    }
  }

  lemma InstructionAdvances(l: Layout, symbol: Option<string>)
    ensures var l' := Emit(l, Instruction(symbol));
            l'.TextPc() == Wrap(l.TextPc() + 4) && l'.addrs == l.addrs && l'.place.inData == l.place.inData
  {
    hide Wrap;
    ClearedLabels(EmitNode(l, Instruction(symbol)));
  }

  /** Two labels with only instructions between them are four bytes per instruction apart, and the
      first is where the first instruction goes. */
  lemma LabelsApart(l: Layout, a: string, code: seq<Node>, b: string)
    requires !l.place.inData && a != b && !l.Defined(a) && !l.Defined(b) && forall node | node in code :: node.Instruction?
    ensures var l' := EmitAll(l, [LabelDef(a)] + code + [LabelDef(b)]);
            && a in l'.addrs && l'.addrs[a] == l.TextPc()
            && b in l'.addrs && l'.addrs[b] == Wrap(l.TextPc() + 4 * |code|)
  {
    hide Emit, EmitAll, Wrap;
    var nodes := [LabelDef(a)] + code;
    FirstLabel(l, a, code);
    var l2 := EmitAll(l, nodes);
    LabelHere(l2, b);
    EmitLast(l, nodes, LabelDef(b));
  }

  lemma FirstLabel(l: Layout, a: string, code: seq<Node>)
    requires !l.place.inData && !l.Defined(a) && forall node | node in code :: node.Instruction?
    ensures var l' := EmitAll(l, [LabelDef(a)] + code);
            l'.addrs == l.addrs[a := l.TextPc()] && !l'.place.inData && l'.TextPc() == Wrap(l.TextPc() + 4 * |code|)
  {
    hide Emit, EmitAll, Wrap;
    EmitFirst(l, LabelDef(a), code);
    LabelHere(l, a);
    InstructionsAdvance(Emit(l, LabelDef(a)), code);
  }

  lemma EmitFirst(l: Layout, node: Node, nodes: seq<Node>)
    ensures EmitAll(l, [node] + nodes) == EmitAll(Emit(l, node), nodes)
  {
    hide Emit;
    assert ([node] + nodes)[1..] == nodes;
  }

  lemma LabelHere(l: Layout, name: string)
    requires !l.place.inData && !l.Defined(name)
    ensures var l' := Emit(l, LabelDef(name));
            l'.addrs == l.addrs[name := l.TextPc()] && l'.place == l.place
  {
  }

  lemma {:induction false} EmitLast(l: Layout, nodes: seq<Node>, node: Node)
    ensures EmitAll(l, nodes + [node]) == Emit(EmitAll(l, nodes), node)
    decreases |nodes|
  {
    hide Emit;
    if nodes == [] {
      assert (nodes + [node])[1..] == [];
      assert EmitAll(Emit(l, node), []) == Emit(l, node);
    } else {
      assert (nodes + [node])[1..] == nodes[1..] + [node];
      EmitLast(Emit(l, nodes[0]), nodes[1..], node);
    }
  }

  // ----- where things go -----

  /** `.data`, `.kdata`, `.text` and `.ktext` with an address go there, without one to where that segment
      was left; the other segments stay where they were. */
  lemma SegmentsResume(l: Layout, kernel: bool, start: Option<Word>)
    ensures var p, q := l.place, Emit(l, DataSegment(kernel, start)).place;
            && q.inData && q.inKernel == kernel && q.textPc == p.textPc && q.ktextPc == p.ktextPc
            && (if kernel then q.dataPc == p.dataPc && q.kdataPc == (if start.Some? then start.value else p.kdataPc)
                else q.kdataPc == p.kdataPc && q.dataPc == if start.Some? then start.value else p.dataPc)
    ensures var p, q := l.place, Emit(l, TextSegment(kernel, start)).place;
            && !q.inData && q.inKText == kernel && q.dataPc == p.dataPc && q.kdataPc == p.kdataPc
            && (if kernel then q.textPc == p.textPc && q.ktextPc == (if start.Some? then start.value else p.ktextPc)
                else q.ktextPc == p.ktextPc && q.textPc == if start.Some? then start.value else p.textPc)
  {
    ClearedLabels(EmitNode(l, DataSegment(kernel, start)));
    ClearedLabels(EmitNode(l, TextSegment(kernel, start)));
  }

  /** `.space n` puts the labels around it `n` bytes apart, whatever the alignment. */
  lemma SpaceApart(l: Layout, a: string, size: Word, b: string)
    requires l.place.inData && a != b && !l.Defined(a) && !l.Defined(b)
    ensures var l' := EmitAll(l, [LabelDef(a), Space(size), LabelDef(b)]);
            && a in l'.addrs && l'.addrs[a] == l.DataPc()
            && b in l'.addrs && l'.addrs[b] == Wrap(l.DataPc() + size)
  {
    hide Emit, EmitAll, Wrap;
    var l1 := Emit(l, LabelDef(a));
    var l2 := Emit(l1, Space(size));
    EmitFirst(l, LabelDef(a), [Space(size), LabelDef(b)]);
    EmitFirst(l1, Space(size), [LabelDef(b)]);
    EmitFirst(l2, LabelDef(b), []);
    assert [LabelDef(a), Space(size), LabelDef(b)] == [LabelDef(a)] + [Space(size), LabelDef(b)];
    assert [Space(size), LabelDef(b)] == [Space(size)] + [LabelDef(b)];
    assert [LabelDef(b)] == [LabelDef(b)] + [];
    DataLabelHere(l, a);
    SpaceMoves(l1, size);
    DataLabelHere(l2, b);
    assert EmitAll(Emit(l2, LabelDef(b)), []) == Emit(l2, LabelDef(b)) by { EmitNothing(Emit(l2, LabelDef(b))); }
  }

  lemma EmitNothing(l: Layout)
    ensures EmitAll(l, []) == l
  {
  }

  lemma DataLabelHere(l: Layout, name: string)
    requires l.place.inData && !l.Defined(name)
    ensures var l' := Emit(l, LabelDef(name));
            l'.addrs == l.addrs[name := l.DataPc()] && l'.place == l.place
  {
  }

  lemma SpaceMoves(l: Layout, size: Word)
    ensures var l' := Emit(l, Space(size));
            l'.addrs == l.addrs && l'.DataPc() == Wrap(l.DataPc() + size) && l'.place.inData == l.place.inData
  {
    hide Wrap;
    ClearedLabels(EmitNode(l, Space(size)));
  }

  // ----- every use is patched -----

  /** The place still waits for `name`, or was given an address for it. */
  ghost predicate Served(l: Layout, name: string, place: Word) {
    (name, place) in l.uses || exists v: Word :: Given(name, place, v) in l.given
  }

  lemma {:induction false} OthersOrGift(uses: seq<(string, Word)>, name: string, addr: Word, u: (string, Word))
    requires u in uses
    ensures if u.0 == name then Given(name, u.1, addr) in Gifts(uses, name, addr) else u in Others(uses, name)
    decreases |uses|
  {
    if uses[0] != u {
      OthersOrGift(uses[1..], name, addr, u);
    }
  }

  lemma {:induction false} OthersOnly(uses: seq<(string, Word)>, name: string, u: (string, Word))
    requires u in Others(uses, name)
    ensures u in uses && u.0 != name
    decreases |uses|
  {
    if uses != [] && u in Others(uses[1..], name) {
      OthersOnly(uses[1..], name, u);
    }
  }

  lemma ResolveServes(l: Layout, other: string, name: string, place: Word)
    requires Served(l, name, place)
    ensures Served(ResolveUses(l, other), name, place)
    ensures name in l.addrs ==> (name, place) !in ResolveUses(l, name).uses
  {
    hide Others, Gifts;
    if (name, place) in l.uses && other in l.addrs {
      OthersOrGift(l.uses, other, l.addrs[other], (name, place));
    }
    if name in l.addrs && (name, place) in ResolveUses(l, name).uses {
      OthersOnly(l.uses, name, (name, place));
    }
  }

  lemma {:induction false} ClearServes(l: Layout, name: string, place: Word)
    requires Served(l, name, place)
    ensures Served(ClearLabels(l), name, place)
    ensures name in l.pending && name in l.addrs ==> (name, place) !in ClearLabels(l).uses
    decreases |l.pending|
  {
    hide ResolveUses, Served;
    if l.pending != [] {
      var l1 := ResolveUses(l, l.pending[0]).(pending := l.pending[1..]);
      ResolveServes(l, l.pending[0], name, place);
      SamePlace(l, l.pending[0]);
      ServedAlike(ResolveUses(l, l.pending[0]), l1, name, place);
      ClearServes(l1, name, place);
      if l.pending[0] == name && name in l.addrs {
        StaysGone(l1, name, place);
      }
    }
  }

  lemma SamePlace(l: Layout, other: string)
    ensures ResolveUses(l, other).addrs == l.addrs && ResolveUses(l, other).pending == l.pending
  {
  }

  lemma ServedAlike(l: Layout, l': Layout, name: string, place: Word)
    requires l'.uses == l.uses && l'.given == l.given
    ensures Served(l', name, place) == Served(l, name, place)
  {
  }

  lemma {:induction false} StaysGone(l: Layout, name: string, place: Word)
    requires (name, place) !in l.uses
    ensures (name, place) !in ClearLabels(l).uses
    decreases |l.pending|
  {
    if l.pending != [] {
      var l1 := ResolveUses(l, l.pending[0]);
      if (name, place) in l1.uses && l.pending[0] in l.addrs {
        OthersOnly(l.uses, l.pending[0], (name, place));
      }
      StaysGone(l1.(pending := l.pending[1..]), name, place);
    }
  }

  lemma StoreServes(l: Layout, n: nat, v: Value, name: string, place: Word)
    requires Served(l, name, place)
    ensures Served(StoreItem(l, n, v), name, place)
  {
    hide Wrap, Pow2;
    var l' := StoreItem(l, n, v);
    if (name, place) !in l.uses {
      var x: Word :| Given(name, place, x) in l.given;
      assert Given(name, place, x) in l'.given;
    }
  }

  lemma {:induction false} StoreItemsServe(l: Layout, n: nat, values: seq<Value>, name: string, place: Word)
    requires Served(l, name, place)
    ensures Served(StoreItems(l, n, values), name, place)
    decreases |values|
  {
    hide StoreItem, Served;
    if values != [] {
      StoreServes(l, n, values[0], name, place);
      StoreItemsServe(StoreItem(l, n, values[0]), n, values[1..], name, place);
    }
  }

  lemma BeginKeepsUses(l: Layout, n: nat)
    ensures var l' := BeginData(l, n);
            l'.uses == l.uses && l'.given == l.given && l'.pending == l.pending && l'.addrs.Keys == l.addrs.Keys
  {
    hide AlignUp;
  }

  lemma AlignKeepsUses(l: Layout, n: nat)
    ensures var l' := EmitNode(l, Align(n));
            l'.uses == l.uses && l'.given == l.given && l'.pending == l.pending && l'.addrs.Keys == l.addrs.Keys
  {
    hide AlignUp;
  }

  lemma NodeServes(l: Layout, node: Node, name: string, place: Word)
    requires Served(l, name, place)
    ensures Served(EmitNode(l, node), name, place)
    ensures !KeepsLabels(node) && name in l.addrs ==> name in EmitNode(l, node).addrs && EmitNode(l, node).pending == l.pending
  {
    hide Served, ResolveUses, StoreItems, BeginData, AlignData, AlignText, Wrap;
    match node
    case Data(n, values) =>
      BeginKeepsUses(l, n);
      ServedAlike(l, BeginData(l, n), name, place);
      StoreItemsServe(BeginData(l, n), n, values, name, place);
      StoreItemsKeep(BeginData(l, n), n, values);
    case Align(n) =>
      AlignKeepsUses(l, n);
      ServedAlike(l, EmitNode(l, node), name, place);
    case ConstDef(other, v) =>
      if !l.Defined(other) {
        ServedAlike(l, RecordLabel(l, other, v), name, place);
        ResolveServes(RecordLabel(l, other, v), other, name, place);
        SamePlace(RecordLabel(l, other, v), other);
      }
    case Instruction(symbol) => InstructionServes(l, symbol, name, place);
    case _ => ServedAlike(l, EmitNode(l, node), name, place);
  }

  lemma InstructionServes(l: Layout, symbol: Option<string>, name: string, place: Word)
    requires Served(l, name, place)
    ensures Served(EmitNode(l, Instruction(symbol)), name, place)
    ensures var l' := EmitNode(l, Instruction(symbol)); l'.pending == l.pending && l'.addrs == l.addrs
  {
    hide Wrap;
    var l' := EmitNode(l, Instruction(symbol));
    if (name, place) !in l.uses {
      var x: Word :| Given(name, place, x) in l.given;
      assert Given(name, place, x) in l'.given;
    }
  }

  lemma EmitServes(l: Layout, node: Node, name: string, place: Word)
    requires Served(l, name, place)
    ensures Served(Emit(l, node), name, place)
    ensures !KeepsLabels(node) && name in l.addrs && name in l.pending ==> (name, place) !in Emit(l, node).uses
  {
    hide EmitNode, ClearLabels, Served;
    NodeServes(l, node, name, place);
    ClearServes(EmitNode(l, node), name, place);
  }

  lemma {:induction false} AllServe(l: Layout, nodes: seq<Node>, name: string, place: Word)
    requires Served(l, name, place)
    ensures Served(EmitAll(l, nodes), name, place)
    decreases |nodes|
  {
    hide Emit, Served;
    if nodes != [] {
      EmitServes(l, nodes[0], name, place);
      AllServe(Emit(l, nodes[0]), nodes[1..], name, place);
    }
  }

  /** A place that waits for a label is given an address for it by the first directive or instruction
      after the label, whatever comes in between. */
  lemma ForwardUsePatched(l: Layout, before: seq<Node>, name: string, node: Node, place: Word)
    requires (name, place) in l.uses && !KeepsLabels(node)
    ensures var l' := EmitAll(l, before + [LabelDef(name)] + [node]);
            (name, place) !in l'.uses && exists v: Word :: Given(name, place, v) in l'.given
  {
    hide Emit, EmitAll;
    AllServe(l, before, name, place);
    EmitLast(l, before, LabelDef(name));
    EmitLast(l, before + [LabelDef(name)], node);
    var l1 := EmitAll(l, before);
    LabelPends(l1, name);
    EmitServes(l1, LabelDef(name), name, place);
    EmitServes(Emit(l1, LabelDef(name)), node, name, place);
  }

  lemma LabelPends(l: Layout, name: string)
    ensures var l' := Emit(l, LabelDef(name)); name in l'.pending && name in l'.addrs
  {
  }

  // ----- flags -----

  lemma {:induction false} RunFlagsAgree(l: Layout, nodes: seq<Node>)
    requires FlagsAgree(l)
    ensures FlagsAgree(EmitAll(l, nodes))
    decreases |nodes|
  {
    hide Emit;
    if nodes != [] {
      NodeFlagsAgree(l, nodes[0]);
      RunFlagsAgree(Emit(l, nodes[0]), nodes[1..]);
    }
  }

  lemma FixFlags(l: Layout)
    ensures forall m: Layout, addr: Word :: FixLabels(m, addr).auto == m.auto && FixLabels(m, addr).enabled == m.enabled
  {
  }

  lemma NodeFlagsAgree(l: Layout, node: Node)
    requires FlagsAgree(l)
    ensures FlagsAgree(Emit(l, node))
  {
    hide StoreItems, ClearLabels, AlignUp, FixLabels, Wrap;
    FixFlags(l);
    ClearedLabels(EmitNode(l, node));
    if node.Data? {
      StoreItemsKeep(BeginData(l, node.n), node.n, node.values);
    }
  }

  // ----- addresses handed out are final -----

  /** Every address handed out is the label's present address. */
  ghost predicate Exact(l: Layout) {
    forall g | g in l.given :: g.name in l.addrs && g.value == l.addrs[g.name]
  }

  /** And the label is no longer waiting to be moved. */
  ghost predicate Settled(l: Layout) {
    Exact(l) && forall g | g in l.given :: g.name !in l.pending
  }

  lemma {:induction false} GiftsExact(uses: seq<(string, Word)>, name: string, addr: Word)
    ensures forall g | g in Gifts(uses, name, addr) :: g.name == name && g.value == addr
    decreases |uses|
  {
    if uses != [] {
      GiftsExact(uses[1..], name, addr);
    }
  }

  lemma ResolveExact(l: Layout, name: string)
    requires Exact(l)
    ensures Exact(ResolveUses(l, name)) && ResolveUses(l, name).addrs == l.addrs && ResolveUses(l, name).pending == l.pending
  {
    hide Gifts, Others;
    if name in l.addrs {
      GiftsExact(l.uses, name, l.addrs[name]);
    }
  }

  lemma {:induction false} ClearSettles(l: Layout)
    requires Exact(l)
    ensures Settled(ClearLabels(l)) && ClearLabels(l).addrs == l.addrs
    decreases |l.pending|
  {
    hide ResolveUses;
    if l.pending != [] {
      ResolveExact(l, l.pending[0]);
      ClearSettles(ResolveUses(l, l.pending[0]).(pending := l.pending[1..]));
    }
  }

  lemma FixSettled(l: Layout, addr: Word)
    requires Settled(l)
    ensures Settled(FixLabels(l, addr))
  {
  }

  lemma BeginSettled(l: Layout, n: nat)
    requires Settled(l)
    ensures Settled(BeginData(l, n)) && Settled(AlignData(l, n))
  {
    hide AlignUp, FixLabels, Settled;
    var addr := AlignUp(l.DataPc(), n);
    FixSettled(l, addr);
    PcSettled(l, addr);
    FixSettled(l.WithDataPc(addr), addr);
    var l1 := FixLabels(l, addr);
    PcSettled(l1, AlignUp(l1.DataPc(), n));
    FixSettled(l1.WithDataPc(AlignUp(l1.DataPc(), n)), AlignUp(l1.DataPc(), n));
    FlagSettled(l, false);
    FlagSettled(l1, false);
  }

  lemma PcSettled(l: Layout, pc: Word)
    requires Settled(l)
    ensures Settled(l.WithDataPc(pc))
  {
  }

  lemma FlagSettled(l: Layout, enabled: bool)
    requires Settled(l)
    ensures Settled(l.(enabled := enabled))
  {
  }

  lemma ItemExact(l: Layout, n: nat, v: Value)
    requires Exact(l)
    ensures Exact(StoreItem(l, n, v)) && OnlyGave(l, StoreItem(l, n, v))
  {
    hide Pow2, Wrap;
    var l' := StoreItem(l, n, v);
    assert l'.addrs == l.addrs;
    assert v.Sym? && l.Defined(v.name) ==> l'.given == l.given + [Given(v.name, l.DataPc(), l.addrs[v.name])];
    assert !(v.Sym? && l.Defined(v.name)) ==> l'.given == l.given;
  }

  lemma {:induction false} StoreExact(l: Layout, n: nat, values: seq<Value>)
    requires Exact(l)
    ensures Exact(StoreItems(l, n, values))
    decreases |values|
  {
    hide StoreItem, Exact;
    if values != [] {
      ItemExact(l, n, values[0]);
      StoreExact(StoreItem(l, n, values[0]), n, values[1..]);
    }
  }

  /** The definitions of `node` name labels not defined before. */
  ghost predicate FirstDef(l: Layout, node: Node) {
    node.LabelDef? || node.ConstDef? ==> node.name !in l.addrs
  }

  lemma DataExact(l: Layout, n: nat, values: seq<Value>)
    requires Settled(l)
    ensures Exact(EmitNode(l, Data(n, values)))
  {
    hide StoreItems, BeginData;
    BeginSettled(l, n);
    StoreExact(BeginData(l, n), n, values);
  }

  lemma AlignExact(l: Layout, n: nat)
    requires Settled(l)
    ensures Exact(EmitNode(l, Align(n)))
  {
    hide AlignData, AlignText;
    BeginSettled(l, n);
    BeginSettled(l.(auto := false), n);
    TextSettled(l, n);
    TextSettled(l.(auto := false), n);
  }

  lemma TextSettled(l: Layout, n: nat)
    requires Settled(l)
    ensures Settled(AlignText(l, n))
  {
    hide AlignUp, FixLabels;
    FixSettled(l.WithTextPc(AlignUp(l.TextPc(), n)), AlignUp(l.TextPc(), n));
  }

  lemma NodeSettled(l: Layout, node: Node)
    requires Settled(l) && FirstDef(l, node)
    ensures Settled(Emit(l, node))
  {
    hide StoreItems, ClearLabels, BeginData, AlignData, AlignUp, ResolveUses, Wrap;
    match node
    case LabelDef(_) =>
    case Globl(_) =>
    case Data(n, values) =>
      DataExact(l, n, values);
      ClearSettles(EmitNode(l, node));
    case Align(n) =>
      AlignExact(l, n);
      ClearSettles(EmitNode(l, node));
    case ConstDef(name, v) =>
      ResolveExact(RecordLabel(l, name, v), name);
      ClearSettles(EmitNode(l, node));
    case _ => ClearSettles(EmitNode(l, node));
  }

  ghost predicate FirstDefs(l: Layout, nodes: seq<Node>)
    decreases |nodes|
  {
    nodes == [] || (FirstDef(l, nodes[0]) && FirstDefs(Emit(l, nodes[0]), nodes[1..]))
  }

  /** In every run that defines each label once, every use, backward or forward, from data or from
      instructions, is given the address the label has at the end: none is patched before its label
      has stopped moving. */
  lemma {:induction false} AddressesFinal(l: Layout, nodes: seq<Node>)
    requires Settled(l) && FirstDefs(l, nodes)
    ensures Settled(EmitAll(l, nodes))
    decreases |nodes|
  {
    hide Emit, Settled, FirstDef;
    if nodes != [] {
      NodeSettled(l, nodes[0]);
      AddressesFinal(Emit(l, nodes[0]), nodes[1..]);
    }
  }

  // ----- exactly when they are -----

  ghost predicate HasGiven(l: Layout, name: string) {
    exists g :: g in l.given && g.name == name
  }

  /** A label whose address was already handed out is pending and not at `addr`. */
  ghost predicate Misplaces(l: Layout, addr: Word) {
    exists g :: g in l.given && g.name in l.pending && g.name in l.addrs && l.addrs[g.name] != addr
  }

  /** The node changes the address of a label after it was handed out: it moves a pending label, or
      defines again one that was defined at address 0. */
  ghost predicate Disturbs(l: Layout, node: Node) {
    match node
    case LabelDef(name) => name in l.addrs && l.addrs[name] == 0 && l.Pc() != 0 && HasGiven(l, name)
    case ConstDef(name, v) => name in l.addrs && l.addrs[name] == 0 && v != 0 && HasGiven(l, name)
    case Align(n) => n > 0 && Misplaces(l, AlignUp(l.Pc(), n))
    case Data(n, _) => n > 0 && l.place.inData && (l.enabled || l.auto) && Misplaces(l, AlignUp(l.DataPc(), n))
    case _ => false
  }

  /** Nothing but more addresses handed out. */
  ghost predicate OnlyGave(l: Layout, l': Layout) {
    l'.addrs == l.addrs && forall g | g in l.given :: g in l'.given
  }

  lemma GaveExact(l: Layout, l': Layout)
    requires OnlyGave(l, l') && Exact(l')
    ensures Exact(l)
  {
  }

  lemma {:induction false} ClearGives(l: Layout)
    ensures OnlyGave(l, ClearLabels(l))
    decreases |l.pending|
  {
    if l.pending != [] {
      ClearGives(ResolveUses(l, l.pending[0]).(pending := l.pending[1..]));
    }
  }

  lemma ClearExactIff(l: Layout)
    ensures Exact(ClearLabels(l)) <==> Exact(l)
  {
    hide ClearLabels, Exact;
    ClearGives(l);
    if Exact(l) {
      ClearSettles(l);
      SettledIsExact(ClearLabels(l));
    } else if Exact(ClearLabels(l)) {
      GaveExact(l, ClearLabels(l));
    }
  }

  lemma SettledIsExact(l: Layout)
    ensures Settled(l) ==> Exact(l)
  {
  }

  lemma {:induction false} StoreGives(l: Layout, n: nat, values: seq<Value>)
    ensures OnlyGave(l, StoreItems(l, n, values))
    decreases |values|
  {
    hide Pow2, Wrap;
    if values != [] {
      StoreGives(StoreItem(l, n, values[0]), n, values[1..]);
    }
  }

  lemma StoreExactIff(l: Layout, n: nat, values: seq<Value>)
    ensures Exact(StoreItems(l, n, values)) <==> Exact(l)
  {
    hide StoreItems, Exact;
    StoreGives(l, n, values);
    if Exact(l) {
      StoreExact(l, n, values);
    } else if Exact(StoreItems(l, n, values)) {
      GaveExact(l, StoreItems(l, n, values));
    }
  }

  /** Moving the pending labels is harmless exactly when it misplaces none. */
  lemma FixExactIff(l: Layout, addr: Word)
    requires Exact(l)
    ensures Exact(FixLabels(l, addr)) <==> !Misplaces(l, addr)
  {
    var l' := FixLabels(l, addr);
    if g :| g in l.given && g.name in l.pending && g.name in l.addrs && l.addrs[g.name] != addr {
      assert g in l'.given && l'.addrs[g.name] == addr;
    }
  }

  lemma SameExact(l: Layout, l': Layout)
    requires l'.addrs == l.addrs && l'.given == l.given && l'.pending == l.pending
    ensures Exact(l') <==> Exact(l)
    ensures forall addr: Word :: Misplaces(l', addr) <==> Misplaces(l, addr)
  {
  }

  lemma AlignExactIff(l: Layout, n: nat)
    requires Exact(l)
    ensures Exact(AlignData(l, n)) <==> !(n > 0 && Misplaces(l, AlignUp(l.DataPc(), n)))
    ensures Exact(AlignText(l, n)) <==> !(n > 0 && Misplaces(l, AlignUp(l.TextPc(), n)))
  {
    hide AlignUp, FixLabels, Exact, Misplaces;
    var d, t := AlignUp(l.DataPc(), n), AlignUp(l.TextPc(), n);
    SameExact(l, l.WithDataPc(d));
    SameExact(l, l.WithTextPc(t));
    SameExact(l, l.(enabled := false));
    FixExactIff(l.WithDataPc(d), d);
    FixExactIff(l.WithTextPc(t), t);
  }

  lemma FixTwice(l: Layout, addr: Word)
    ensures FixLabels(FixLabels(l, addr).WithDataPc(addr), addr) == FixLabels(l.WithDataPc(addr), addr)
  {
  }

  lemma BeginExactIff(l: Layout, n: nat)
    requires Exact(l)
    ensures Exact(BeginData(l, n)) <==>
            !(n > 0 && l.place.inData && (l.enabled || l.auto) && Misplaces(l, AlignUp(l.DataPc(), n)))
  {
    hide AlignUp, FixLabels, Exact;
    var addr := AlignUp(l.DataPc(), n);
    FixFlags(l);
    FixKeepsPc(l, addr);
    FixTwice(l, addr);
    FixExactIff(l, addr);
    SameExact(l, l.WithDataPc(addr));
    FixExactIff(l.WithDataPc(addr), addr);
  }

  lemma FixKeepsPc(l: Layout, addr: Word)
    ensures FixLabels(l, addr).DataPc() == l.DataPc() && FixLabels(l, addr).place.inData == l.place.inData
  {
  }

  lemma RecordExactIff(l: Layout, name: string, addr: Word)
    requires Exact(l)
    ensures Exact(RecordLabel(l, name, addr)) <==> !(name in l.addrs && l.addrs[name] == 0 && addr != 0 && HasGiven(l, name))
  {
    var l' := RecordLabel(l, name, addr);
    if name in l.addrs && l.addrs[name] == 0 && addr != 0 && HasGiven(l, name) {
      var g :| g in l.given && g.name == name;
      assert g in l'.given && l'.addrs[name] == addr && g.value == 0;
    }
  }

  lemma ResolveExactIff(l: Layout, name: string)
    ensures Exact(ResolveUses(l, name)) <==> Exact(l)
  {
    hide Exact, Gifts, Others;
    assert OnlyGave(l, ResolveUses(l, name));
    if Exact(l) {
      ResolveExact(l, name);
    } else if Exact(ResolveUses(l, name)) {
      GaveExact(l, ResolveUses(l, name));
    }
  }

  lemma NodeExactIff(l: Layout, node: Node)
    requires Exact(l)
    ensures Exact(Emit(l, node)) <==> !Disturbs(l, node)
  {
    hide Exact, ClearLabels, EmitNode, Disturbs;
    ClearExactIff(EmitNode(l, node));
    if node.Data? {
      DataExactIff(l, node.n, node.values);
    } else if node.Align? {
      AlignNodeExactIff(l, node.n);
    } else if node.LabelDef? || node.ConstDef? {
      DefExactIff(l, node);
    } else {
      PlainExact(l, node);
    }
  }

  lemma DataExactIff(l: Layout, n: nat, values: seq<Value>)
    requires Exact(l)
    ensures Exact(EmitNode(l, Data(n, values))) <==> !Disturbs(l, Data(n, values))
  {
    hide Exact, StoreItems, BeginData, Misplaces, AlignUp;
    StoreExactIff(BeginData(l, n), n, values);
    BeginExactIff(l, n);
  }

  lemma AlignNodeExactIff(l: Layout, n: nat)
    requires Exact(l)
    ensures Exact(EmitNode(l, Align(n))) <==> !Disturbs(l, Align(n))
  {
    hide Exact, Misplaces, AlignUp, AlignData, AlignText;
    SameExact(l, l.(auto := false));
    AlignExactIff(l, n);
    AlignExactIff(l.(auto := false), n);
  }

  lemma DefExactIff(l: Layout, node: Node)
    requires Exact(l) && (node.LabelDef? || node.ConstDef?)
    ensures Exact(EmitNode(l, node)) <==> !Disturbs(l, node)
  {
    hide Exact, ResolveUses, HasGiven;
    match node
    case LabelDef(name) =>
      var l1 := RecordLabel(l, name, l.Pc());
      RecordExactIff(l, name, l.Pc());
      assert Exact(l1.(pending := [name] + l1.pending)) <==> Exact(l1) by { PendingIrrelevant(l1, [name] + l1.pending); }
    case ConstDef(name, v) =>
      RecordExactIff(l, name, v);
      ResolveExactIff(RecordLabel(l, name, v), name);
    case _ =>
  }

  lemma PendingIrrelevant(l: Layout, pending: seq<string>)
    ensures Exact(l.(pending := pending)) <==> Exact(l)
  {
  }

  lemma PlainExact(l: Layout, node: Node)
    requires Exact(l) && !node.Data? && !node.Align? && !node.LabelDef? && !node.ConstDef?
    ensures Exact(EmitNode(l, node)) && !Disturbs(l, node)
  {
    hide Wrap;
  }

  /** The addresses handed out are right at every point of the run. */
  ghost predicate AlwaysExact(l: Layout, nodes: seq<Node>)
    decreases |nodes|
  {
    Exact(l) && (nodes == [] || AlwaysExact(Emit(l, nodes[0]), nodes[1..]))
  }

  ghost predicate NeverDisturbs(l: Layout, nodes: seq<Node>)
    decreases |nodes|
  {
    nodes == [] || (!Disturbs(l, nodes[0]) && NeverDisturbs(Emit(l, nodes[0]), nodes[1..]))
  }

  /** In every run, defining labels however often: the addresses handed out stay right if and only if
      no node moves a label that was handed out before. */
  lemma {:induction false} AddressesExactIff(l: Layout, nodes: seq<Node>)
    requires Exact(l)
    ensures AlwaysExact(l, nodes) <==> NeverDisturbs(l, nodes)
    decreases |nodes|
  {
    hide Emit, Exact, Disturbs;
    if nodes != [] {
      NodeExactIff(l, nodes[0]);
      if Exact(Emit(l, nodes[0])) {
        AddressesExactIff(Emit(l, nodes[0]), nodes[1..]);
      }
    }
  }

  /** A label defined twice is an error, but it is moved all the same: its uses keep the old address. */
  const TWICE: seq<Node> := [LabelDef("a"), Data(0, [Sym("a")]), LabelDef("a"), Data(1, [Lit(0)])]
  const START := Layout(Place(0x1000_0000, 0, 0, 0, false, false, true), true, true, map[], [], [], [], [])

  lemma RedefinitionMoves()
    ensures var l := EmitAll(START, TWICE);
            l.given == [Given("a", 0x1000_0000, 0x1000_0000)] && "a" in l.addrs && l.addrs["a"] == 0x1000_0002
  {
    hide Emit;
    var l2 := FirstDefinition();
    var l4 := SecondDefinition(l2);
    var l1, l3 := Emit(START, TWICE[0]), Emit(l2, TWICE[2]);
    assert TWICE[1..][1..] == TWICE[2..] && TWICE[2..][1..] == TWICE[3..] && TWICE[3..][1..] == [];
    assert EmitAll(l4, []) == l4;
    assert EmitAll(l3, TWICE[3..]) == l4;
    assert EmitAll(l2, TWICE[2..]) == l4;
    assert EmitAll(l1, TWICE[1..]) == l4;
  }

  lemma FirstDefinition() returns (l: Layout)
    ensures l == START.(addrs := map["a" := 0x1000_0000], place := START.place.(dataPc := 0x1000_0001),
                        given := [Given("a", 0x1000_0000, 0x1000_0000)], items := [0x1000_0000])
    ensures l == Emit(Emit(START, TWICE[0]), TWICE[1])
  {
    var l1 := Emit(START, TWICE[0]);
    assert l1 == START.(addrs := map["a" := 0x1000_0000], pending := ["a"]);
    assert [Sym("a")][1..] == [];
    assert StoreItems(StoreItem(l1, 0, Sym("a")), 0, []) == StoreItem(l1, 0, Sym("a"));
    l := Emit(l1, TWICE[1]);
  }

  lemma SecondDefinition(l2: Layout) returns (l: Layout)
    requires l2 == START.(addrs := map["a" := 0x1000_0000], place := START.place.(dataPc := 0x1000_0001),
                          given := [Given("a", 0x1000_0000, 0x1000_0000)], items := [0x1000_0000])
    ensures "a" in l.addrs && l.addrs["a"] == 0x1000_0002 && l.given == l2.given
    ensures l == Emit(Emit(l2, TWICE[2]), TWICE[3])
  {
    var l3 := Emit(l2, TWICE[2]);
    assert l3 == l2.(pending := ["a"]);
    assert AlignUp(0x1000_0001, 1) == 0x1000_0002;
    assert [Lit(0)][1..] == [];
    l := Emit(l3, TWICE[3]);
  }

  // ----- the bytes of data directives -----

  type Image = map<Word, Byte>

  /** Consecutive bytes from `pc`. */
  function PutBytes(m: Image, pc: Word, bytes: seq<Byte>): Image
    decreases |bytes|
  {
    if bytes == [] then m else PutBytes(m[pc := bytes[0]], Wrap(pc + 1), bytes[1..])
  }

  lemma {:induction false} PutBytesSplit(m: Image, pc: Word, x: seq<Byte>, y: seq<Byte>)
    ensures PutBytes(m, pc, x + y) == PutBytes(PutBytes(m, pc, x), Wrap(pc + |x|), y)
    decreases |x|
  {
    if x == [] {
      assert x + y == y;
    } else {
      assert (x + y)[1..] == x[1..] + y;
      PutBytesSplit(m[pc := x[0]], Wrap(pc + 1), x[1..], y);
      NextPc(pc, 1, |x| - 1);
    }
  }

  lemma NextPc(pc: int, a: int, b: int)
    ensures Wrap(Wrap(pc + a) + b) == Wrap(pc + (a + b))
  {
  }

  /** Each byte lands at its own address and nothing else changes. */
  lemma {:induction false} PutBytesAt(m: Image, pc: Word, bytes: seq<Byte>, a: Word)
    requires pc + |bytes| <= TWO32
    ensures var m' := PutBytes(m, pc, bytes);
            if pc <= a < pc + |bytes| then a in m' && m'[a] == bytes[a - pc]
            else (a in m' <==> a in m) && (a in m ==> m'[a] == m[a])
    decreases |bytes|
  {
    if |bytes| == 1 {
      assert bytes[1..] == [];
    } else if bytes != [] {
      PutBytesAt(m[pc := bytes[0]], pc + 1, bytes[1..], a);
    }
  }

  /** The little-endian bytes of a value. */
  function HalfBytes(v: Word): seq<Byte> {
    [v % 0x100, v / 0x100 % 0x100]
  }

  function WordBytes(v: Word): seq<Byte> {
    HalfBytes(v) + HalfBytes(v / 0x1_0000)
  }

  /** The next data address and what has been stored. */
  class DataImage {
    var pc: Word
    var mem: Image

    constructor (pc: Word)
      ensures this.pc == pc && mem == map[]
    {
      this.pc := pc;
      mem := map[];
    }

    method StoreByte(v: Word)
      modifies this
      ensures mem == PutBytes(old(mem), old(pc), [v % 0x100]) && pc == Wrap(old(pc) + 1)
    {
      OneByte(mem, pc, v % 0x100);
      mem := mem[pc := v % 0x100];
      Bump(1);
    }

    method Bump(delta: nat)
      modifies this`pc
      ensures pc == Wrap(old(pc) + delta)
    {
      var at: int := pc;
      pc := Wrap(at + delta);
    }

    /** `store_half`: in two bytes when the address is odd. The bytes are the same either way. */
    method StoreHalf(v: Word)
      modifies this
      ensures mem == PutBytes(old(mem), old(pc), HalfBytes(v)) && pc == Wrap(old(pc) + 2)
    {
      hide PutBytes, Wrap;
      PutBytesSplit(mem, pc, [v % 0x100], [v / 0x100 % 0x100]);
      NextPc(pc, 1, 1);
      OneByte(mem, pc, v % 0x100);
      assert HalfBytes(v) == [v % 0x100] + [v / 0x100 % 0x100];
      assert v % 0x100 % 0x100 == v % 0x100 && v / 0x100 % 0x100 % 0x100 == v / 0x100 % 0x100;
      if pc % 2 != 0 {
        StoreByte(v % 0x100);
        StoreByte(v / 0x100 % 0x100);
      } else {
        OneByte(mem[pc := v % 0x100], Wrap(pc + 1), v / 0x100 % 0x100);
        mem := mem[pc := v % 0x100][Wrap(pc + 1) := v / 0x100 % 0x100];
        Bump(2);
      }
    }

    /** `store_word`: in two halves when the address is not a multiple of 4. */
    method StoreWord(v: Word)
      modifies this
      ensures mem == PutBytes(old(mem), old(pc), WordBytes(v)) && pc == Wrap(old(pc) + 4)
    {
      hide PutBytes, Wrap, HalfBytes;
      PutBytesSplit(mem, pc, HalfBytes(v), HalfBytes(v / 0x1_0000));
      NextPc(pc, 2, 2);
      assert |HalfBytes(v)| == 2 by { HalfLength(v); }
      LowHalf(v);
      if pc % 4 != 0 {
        StoreHalf(v % 0x1_0000);
        StoreHalf(v / 0x1_0000);
      } else {
        mem := PutBytes(mem, pc, WordBytes(v));
        Bump(4);
      }
    }

    /** `store_string` */
    method StoreString(s: seq<Byte>, terminated: bool)
      modifies this
      ensures mem == PutBytes(old(mem), old(pc), s + (if terminated then [0] else []))
      ensures pc == Wrap(old(pc) + |s| + (if terminated then 1 else 0))
    {
      hide PutBytes, Wrap;
      NoBytesPut(mem, pc);
      var i := 0;
      while i < |s|
        invariant i <= |s| && mem == PutBytes(old(mem), old(pc), s[..i]) && pc == Wrap(old(pc) + i)
      {
        PutBytesSplit(old(mem), old(pc), s[..i], [s[i]]);
        assert s[..i + 1] == s[..i] + [s[i]];
        NextPc(old(pc), i, 1);
        ByteValue(s[i]);
        StoreByte(s[i]);
        i := i + 1;
      }
      assert s[..i] == s;
      if terminated {
        PutBytesSplit(old(mem), old(pc), s, [0]);
        NextPc(old(pc), |s|, 1);
        StoreByte(0);
      } else {
        assert s + [] == s;
      }
    }
  }

  lemma OneByte(m: Image, pc: Word, b: Byte)
    ensures PutBytes(m, pc, [b]) == m[pc := b]
  {
    assert [b][1..] == [];
  }

  lemma NoBytesPut(m: Image, pc: Word)
    ensures PutBytes(m, pc, []) == m && Wrap(pc + 0) == pc
  {
  }

  lemma ByteValue(b: Byte)
    ensures b % 0x100 == b
  {
  }

  lemma HalfLength(v: Word)
    ensures |HalfBytes(v)| == 2
  {
  }

  lemma LowHalf(v: Word)
    ensures HalfBytes(v % 0x1_0000) == HalfBytes(v)
  {
    LowBytes(v / 0x1_0000, v % 0x1_0000);
  }

  lemma LowBytes(high: nat, low: nat)
    ensures (high * 0x1_0000 + low) % 0x100 == low % 0x100
    ensures (high * 0x1_0000 + low) / 0x100 % 0x100 == low / 0x100 % 0x100
  {
    assert (high * 0x1_0000 + low) / 0x100 == high * 0x100 + low / 0x100;
  }
}
