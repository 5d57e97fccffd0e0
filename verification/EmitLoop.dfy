/** The emitter as the program it is: the walk over a file's nodes, with the label list, the data
    addresses and the alignment flags updated in place. */
module EmitLoop {
  import opened Words
  import opened DataLayout

  /** The loop of `resolve_label_uses`: what is left for other labels, and what this one hands out. */
  method Distribute(us: seq<(string, Word)>, name: string, addr: Word) returns (left: seq<(string, Word)>, gifts: seq<Given>)
    ensures left == Others(us, name) && gifts == Gifts(us, name, addr)
  {
    left, gifts := [], [];
    var i := 0;
    while i < |us|
      invariant i <= |us| && left == Others(us[..i], name) && gifts == Gifts(us[..i], name, addr)
    {
      UseStep(us[..i], us[i], name, addr);
      assert us[..i + 1] == us[..i] + [us[i]];
      if us[i].0 == name {
        gifts := gifts + [Given(name, us[i].1, addr)];
      } else {
        left := left + [us[i]];
      }
      i := i + 1;
    }
    assert us[..i] == us;
  }

  /** One more use at the end. */
  lemma {:induction false} UseStep(us: seq<(string, Word)>, u: (string, Word), name: string, addr: Word)
    ensures Others(us + [u], name) == Others(us, name) + (if u.0 == name then [] else [u])
    ensures Gifts(us + [u], name, addr) == Gifts(us, name, addr) + (if u.0 == name then [Given(name, u.1, addr)] else [])
    decreases |us|
  {
    if us == [] {
      assert ([u])[1..] == [];
    } else {
      assert (us + [u])[1..] == us[1..] + [u];
      UseStep(us[1..], u, name, addr);
    }
  }

  class Emitter {
    var dataPc: Word
    var kdataPc: Word
    var textPc: Word
    var ktextPc: Word
    var inKernel: bool
    var inKText: bool
    var inData: bool
    var autoAlign: bool
    var enabled: bool
    var addrs: map<string, Word>
    var pending: seq<string>
    var uses: seq<(string, Word)>
    var given: seq<Given>
    var items: seq<Word>

    constructor (l: Layout)
      ensures Model() == l
    {
      dataPc, kdataPc, textPc, ktextPc := l.place.dataPc, l.place.kdataPc, l.place.textPc, l.place.ktextPc;
      inKernel, inKText, inData, autoAlign, enabled := l.place.inKernel, l.place.inKText, l.place.inData, l.auto, l.enabled;
      addrs, pending, uses, given, items := l.addrs, l.pending, l.uses, l.given, l.items;
    }

    function Model(): Layout
      reads this
    {
      Layout(Place(dataPc, kdataPc, textPc, ktextPc, inKernel, inKText, inData), autoAlign, enabled, addrs, pending, uses, given,
             items)
    }

    method SetDataPc(pc: Word)
      modifies this`dataPc, this`kdataPc
      ensures Model() == old(Model()).WithDataPc(pc)
    {
      if inKernel {
        kdataPc := pc;
      } else {
        dataPc := pc;
      }
    }

    method SetTextPc(pc: Word)
      modifies this`textPc, this`ktextPc
      ensures Model() == old(Model()).WithTextPc(pc)
    {
      if inKText {
        ktextPc := pc;
      } else {
        textPc := pc;
      }
    }

    /** `fix_current_label_address`: one label of the line after another. */
    method FixCurrentLabels(addr: Word)
      modifies this`addrs
      ensures Model() == FixLabels(old(Model()), addr)
    {
      var i := 0;
      ghost var before := addrs;
      while i < |pending|
        invariant i <= |pending| && addrs.Keys == before.Keys
        invariant forall n | n in addrs :: addrs[n] == if n in pending[..i] then addr else before[n]
      {
        if pending[i] in addrs {
          addrs := addrs[pending[i] := addr];
        }
        i := i + 1;
      }
      assert pending[..i] == pending;
      assert addrs == FixLabels(old(Model()), addr).addrs;
    }

    method Align(n: nat)
      modifies this
      ensures Model() == AlignData(old(Model()), n)
    {
      if n == 0 {
        enabled := false;
      } else {
        var pc := AlignUp(Model().DataPc(), n);
        SetDataPc(pc);
        FixCurrentLabels(pc);
      }
    }

    /** `align_text` */
    method AlignCode(n: nat)
      modifies this
      ensures Model() == AlignText(old(Model()), n)
    {
      if n > 0 {
        var pc := AlignUp(Model().TextPc(), n);
        SetTextPc(pc);
        FixCurrentLabels(pc);
      }
    }

    /** `align_labels_to`, then `set_data_alignment`. */
    method Begin(n: nat)
      modifies this
      ensures Model() == BeginData(old(Model()), n)
    {
      hide AlignUp, AlignData, FixLabels;
      if n > 0 {
        if inData && autoAlign && pending != [] {
          FixCurrentLabels(AlignUp(Model().DataPc(), n));
        }
        assert FixLabels(old(Model()), AlignUp(old(Model()).DataPc(), n)).enabled == old(enabled) by {
          FixKeepsFlag(old(Model()), n);
        }
        if inData && enabled {
          Align(n);
        }
      }
    }

    /** A use of a label: its address if it is defined, else the place waits for it. */
    method Refer(name: string, place: Word)
      modifies this`given, this`uses
      ensures Model() == if old(Model()).Defined(name)
                         then old(Model()).(given := old(given) + [Given(name, place, addrs[name])])
                         else old(Model()).(uses := [(name, place)] + old(uses))
    {
      if name in addrs && addrs[name] != 0 {
        given := given + [Given(name, place, addrs[name])];
      } else {
        uses := [(name, place)] + uses;
      }
    }

    /** `emit_data_int_node` */
    method Store(n: nat, values: seq<Value>)
      modifies this
      ensures Model() == StoreItems(old(Model()), n, values)
    {
      var i := 0;
      assert values[0..] == values;
      while i < |values|
        invariant i <= |values| && StoreItems(Model(), n, values[i..]) == StoreItems(old(Model()), n, values)
      {
        hide StoreItem;
        assert values[i..][1..] == values[i + 1..];
        Store1(n, values[i]);
        i := i + 1;
      }
      assert values[i..] == [];
    }

    method Store1(n: nat, v: Value)
      modifies this
      ensures Model() == StoreItem(old(Model()), n, v)
    {
      hide Pow2, Wrap;
      var pc: Word := if inKernel then kdataPc else dataPc;
      if v.Sym? {
        Refer(v.name, pc);
      }
      items := items + [pc];
      var at: int := pc;
      SetDataPc(Wrap(at + Pow2(n)));
    }

    method Resolve(name: string)
      modifies this`uses, this`given
      ensures Model() == ResolveUses(old(Model()), name)
    {
      hide Others, Gifts;
      if name in addrs {
        var left, gifts := Distribute(uses, name, addrs[name]);
        uses, given := left, given + gifts;
      }
    }

    /** `clear_labels` */
    method Clear()
      modifies this
      ensures Model() == ClearLabels(old(Model()))
    {
      while pending != []
        invariant ClearLabels(Model()) == ClearLabels(old(Model()))
        decreases |pending|
      {
        hide ResolveUses;
        ghost var before := Model();
        Resolve(pending[0]);
        assert pending == before.pending by { ResolveKeepsPending(before, before.pending[0]); }
        pending := pending[1..];
      }
    }

    /** `emit_one` for the segment switches. */
    method Switch(kernel: bool, start: Option<Word>)
      modifies this
      ensures Model() == EmitNode(old(Model()), DataSegment(kernel, start))
    {
      inKernel, inData, enabled, autoAlign := kernel, true, true, true;
      if start.Some? {
        SetDataPc(start.value);
      }
    }

    method EmitOne(node: Node)
      modifies this
      ensures Model() == EmitNode(old(Model()), node)
    {
      hide StoreItems, BeginData, AlignData, AlignText, ResolveUses, Wrap;
      match node
      case DataSegment(kernel, start) => Switch(kernel, start);
      case TextSegment(kernel, start) => SwitchText(kernel, start);
      case LabelDef(name) =>
        var addr := Model().Pc();
        if !(name in addrs && addrs[name] != 0) {
          addrs := addrs[name := addr];
        }
        pending := [name] + pending;
      case ConstDef(name, v) =>
        if !(name in addrs && addrs[name] != 0) {
          addrs := addrs[name := v];
          Resolve(name);
        }
      case Globl(_) =>
      case Align(n) => EmitAlign(n);
      case Space(size) =>
        var pc: int := Model().DataPc();
        SetDataPc(Wrap(pc + size));
      case Data(n, values) =>
        Begin(n);
        Store(n, values);
      case Instruction(symbol) => EmitInstruction(symbol);
    }

    method EmitAlign(n: nat)
      modifies this
      ensures Model() == EmitNode(old(Model()), Node.Align(n))
    {
      hide AlignData, AlignText;
      if n == 0 {
        autoAlign := false;
      }
      if inData {
        Align(n);
      } else {
        AlignCode(n);
      }
    }

    method EmitInstruction(symbol: Option<string>)
      modifies this
      ensures Model() == EmitNode(old(Model()), Instruction(symbol))
    {
      hide Wrap;
      var pc: Word := if inKText then ktextPc else textPc;
      if symbol.Some? {
        Refer(symbol.value, pc);
      }
      var at: int := pc;
      SetTextPc(Wrap(at + 4));
    }

    method SwitchText(kernel: bool, start: Option<Word>)
      modifies this
      ensures Model() == EmitNode(old(Model()), TextSegment(kernel, start))
    {
      inKText, inData := kernel, false;
      if start.Some? {
        SetTextPc(start.value);
      }
    }

    /** `emit_ast` */
    method EmitFile(nodes: seq<Node>)
      modifies this
      ensures Model() == ClearLabels(EmitAll(old(Model()), nodes))
    {
      hide EmitNode, ClearLabels;
      var i := 0;
      assert nodes[0..] == nodes;
      while i < |nodes|
        invariant i <= |nodes| && EmitAll(Model(), nodes[i..]) == EmitAll(old(Model()), nodes)
      {
        assert nodes[i..][1..] == nodes[i + 1..];
        EmitOne(nodes[i]);
        if !KeepsLabels(nodes[i]) {
          Clear();
        }
        i := i + 1;
      }
      assert nodes[i..] == [];
      Clear();
    }
  }

  lemma FixKeepsFlag(l: Layout, n: nat)
    ensures FixLabels(l, AlignUp(l.DataPc(), n)).enabled == l.enabled
  {
  }

  lemma ResolveKeepsPending(l: Layout, name: string)
    ensures ResolveUses(l, name).pending == l.pending
  {
  }
}
