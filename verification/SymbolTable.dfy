/** The label table: a chained hash table that refines a finite map from names to labels, and the
    linked list of labels local to the current file. */
module SymbolTable {
  import opened Words

  const TABLE_SIZE := 8191
  const HASH_RANGE := 0x4000_0000  // HASHBITS is 30

  // ----- hashing -----

  /** `(unsigned)(name[i])`: characters are signed bytes. */
  function CharValue(c: char): Word {
    var b := c as int % 0x100;
    if b < 0x80 then b else b + 0xffff_ff00
  }

  function HashStep(h: Word, c: char): Word {
    Wrap(h * 613 + CharValue(c))
  }

  function HashFrom(h: Word, name: string): Word
    decreases |name|
  {
    if name == [] then h else HashFrom(HashStep(h, name[0]), name[1..])
  }

  function Slot(name: string): (s: nat)
    ensures s < TABLE_SIZE
  {
    HashFrom(Wrap(|name|), name) % HASH_RANGE % TABLE_SIZE
  }

  // ----- the table as a value -----

  /** A label; `id` is the identity of its node. An address of 0 means undefined. */
  datatype Label = Label(id: nat, name: string, addr: Word, isGlobal: bool)

  type Chain = seq<Label>

  type Chains = c: seq<Chain> | |c| == TABLE_SIZE witness seq(TABLE_SIZE, _ => [])

  /** Nodes are numbered as they are created; `names` has the name of each. `head` is `local_labels`,
      and `links` the `next_local` of each node recorded while not global. */
  datatype Table = Table(chains: Chains, names: seq<string>, head: Option<nat>, links: map<nat, Option<nat>>)

  const EMPTY := Table(seq(TABLE_SIZE, _ => []), [], None, map[])

  /** The walk along a chain. */
  function Find(chain: Chain, name: string): (r: Option<nat>)
    ensures r.Some? ==> r.value < |chain| && chain[r.value].name == name
    ensures r.Some? ==> forall k | 0 <= k < r.value :: chain[k].name != name
    ensures r.None? <==> forall k | 0 <= k < |chain| :: chain[k].name != name
    decreases |chain|
  {
    if chain == [] then None
    else if chain[0].name == name then Some(0)
    else match Find(chain[1..], name)
         case Some(k) => Some(k + 1)
         case None => assert forall k | 1 <= k < |chain| :: chain[k] == chain[1..][k - 1]; None
  }

  function InChain(chain: Chain, name: string): Option<Label> {
    match Find(chain, name) case Some(k) => Some(chain[k]) case None => None
  }

  function Get(t: Table, name: string): Option<Label> {
    InChain(t.chains[Slot(name)], name)
  }

  /** `lookup_label`: a new label goes to the front of its chain. */
  function LookUp(t: Table, name: string): Table {
    if Get(t, name).Some? then t
    else
      var s := Slot(name);
      t.(chains := t.chains[s := [Label(|t.names|, name, 0, false)] + t.chains[s]], names := t.names + [name])
  }

  /** Replace the label of a name already in the table. */
  function Set(t: Table, name: string, l: Label): Table {
    var s := Slot(name);
    match Find(t.chains[s], name)
    case Some(k) => t.(chains := t.chains[s := t.chains[s][k := l]])
    case None => t
  }

  /** `record_label`; a second definition is an error and changes nothing. */
  function Record(t: Table, name: string, addr: Word): Table {
    var t1 := LookUp(t, name);
    match Get(t1, name)
    case None => t1
    case Some(l) =>
      if l.addr != 0 then t1
      else
        var t2 := Set(t1, name, l.(addr := addr));
        if l.isGlobal then t2 else t2.(head := Some(l.id), links := t2.links[l.id := t2.head])
  }

  function MakeGlobal(t: Table, name: string): Table {
    var t1 := LookUp(t, name);
    match Get(t1, name) case None => t1 case Some(l) => Set(t1, name, l.(isGlobal := true))
  }

  function Unlink(chain: Chain, k: nat): (r: Chain)
    requires k < |chain|
    ensures |r| == |chain| - 1
    ensures forall j | 0 <= j < |r| :: r[j] == if j < k then chain[j] else chain[j + 1]
  {
    chain[..k] + chain[k + 1..]
  }

  /** Unlink a name from its chain. */
  function Remove(chains: Chains, name: string): Chains {
    var s := Slot(name);
    match Find(chains[s], name)
    case Some(k) => chains[s := Unlink(chains[s], k)]
    case None => chains
  }

  function RemoveAll(chains: Chains, names: seq<string>): Chains
    decreases |names|
  {
    if names == [] then chains else RemoveAll(Remove(chains, names[0]), names[1..])
  }

  /** The names met by following `next_local` from `p`; None if the walk takes more than `fuel` steps. */
  function Walk(names: seq<string>, links: map<nat, Option<nat>>, p: Option<nat>, fuel: nat): Option<seq<string>>
    decreases fuel
  {
    if p.None? then Some([])
    else if fuel == 0 || p.value >= |names| then None
    else
      match Walk(names, links, if p.value in links then links[p.value] else None, fuel - 1)
      case Some(rest) => Some([names[p.value]] + rest)
      case None => None
  }

  function Locals(t: Table, fuel: nat): Option<seq<string>> {
    Walk(t.names, t.links, t.head, fuel)
  }

  /** The list of local labels comes to an end. */
  ghost predicate Ends(t: Table) {
    exists fuel: nat :: Locals(t, fuel).Some?
  }

  /** `flush_local_labels`: follow the list and unlink each label; None if it never returns. */
  ghost function Flush(t: Table): Option<Table> {
    if Ends(t) then
      var fuel: nat :| Locals(t, fuel).Some?;
      Some(t.(chains := RemoveAll(t.chains, Locals(t, fuel).value), head := None))
    else None
  }

  // ----- invariant -----

  /** In a chain every name hashes to its slot, and appears once. */
  ghost predicate ChainOk(chain: Chain, s: nat) {
    && (forall k | 0 <= k < |chain| :: Slot(chain[k].name) == s)
    && (forall j, k | 0 <= j < k < |chain| :: chain[j].name != chain[k].name)
  }

  ghost predicate ChainsOk(chains: Chains) {
    forall s | 0 <= s < TABLE_SIZE :: ChainOk(chains[s], s)
  }

  lemma FindIs(chain: Chain, s: nat, k: nat)
    requires ChainOk(chain, s) && k < |chain|
    ensures Find(chain, chain[k].name) == Some(k)
  {
    var r := Find(chain, chain[k].name);
    assert r.Some?;
  }

  // ----- what each operation does to each name -----

  lemma FindPush(chain: Chain, l: Label, name: string)
    ensures Find([l] + chain, name) == if l.name == name then Some(0)
                                       else match Find(chain, name) case Some(k) => Some(k + 1) case None => None
  {
    assert ([l] + chain)[1..] == chain;
  }

  lemma LookUpGet(t: Table, name: string, n: string)
    requires ChainsOk(t.chains)
    ensures ChainsOk(LookUp(t, name).chains)
    ensures Get(LookUp(t, name), n) == if n == name && Get(t, name).None? then Some(Label(|t.names|, name, 0, false)) else Get(t, n)
  {
    hide Slot;
    if Get(t, name).None? {
      var s, l := Slot(name), Label(|t.names|, name, 0, false);
      assert ChainOk(t.chains[s], s);
      assert ChainOk([l] + t.chains[s], s);
      FindPush(t.chains[s], l, n);
    }
  }

  lemma {:induction false} FindSet(chain: Chain, k: nat, l: Label, name: string)
    requires k < |chain| && l.name == chain[k].name
    ensures Find(chain[k := l], name) == Find(chain, name)
    decreases |chain|
  {
    if k == 0 {
      assert chain[k := l][1..] == chain[1..];
    } else {
      assert chain[k := l][1..] == chain[1..][k - 1 := l];
      FindSet(chain[1..], k - 1, l, name);
    }
  }

  lemma SetGet(t: Table, name: string, l: Label, n: string)
    requires ChainsOk(t.chains) && l.name == name && Get(t, name).Some?
    ensures ChainsOk(Set(t, name, l).chains)
    ensures Get(Set(t, name, l), n) == if n == name then Some(l) else Get(t, n)
  {
    hide Slot;
    var s := Slot(name);
    var k := Find(t.chains[s], name).value;
    assert ChainOk(t.chains[s], s);
    assert ChainOk(t.chains[s][k := l], s);
    FindSet(t.chains[s], k, l, n);
  }

  lemma FindFirst(chain: Chain, name: string, j: nat)
    requires j < |chain| && chain[j].name == name && forall i | 0 <= i < j :: chain[i].name != name
    ensures Find(chain, name) == Some(j)
  {
    hide Find;
    var r := Find(chain, name);
  }

  lemma FindUnlink(chain: Chain, s: nat, k: nat, name: string)
    requires ChainOk(chain, s) && k < |chain|
    ensures Find(Unlink(chain, k), name) ==
            match Find(chain, name)
            case None => None
            case Some(j) => if j < k then Some(j) else if j == k then None else Some(j - 1)
  {
    hide Find, Slot;
    var rest := Unlink(chain, k);
    match Find(chain, name)
    case None =>
      assert forall j | 0 <= j < |rest| :: rest[j].name != name;
    case Some(j) =>
      if j == k {
        assert forall i | 0 <= i < |rest| :: rest[i].name != name;
      } else {
        FindFirst(rest, name, if j < k then j else j - 1);
      }
  }

  lemma UnlinkOk(chain: Chain, s: nat, k: nat)
    requires ChainOk(chain, s) && k < |chain|
    ensures ChainOk(Unlink(chain, k), s)
  {
    hide Slot;
  }

  lemma InUnlinked(chain: Chain, s: nat, k: nat, name: string)
    requires ChainOk(chain, s) && k < |chain|
    ensures InChain(Unlink(chain, k), name) == if name == chain[k].name then None else InChain(chain, name)
  {
    hide Slot, ChainOk, Unlink;
    FindUnlink(chain, s, k, name);
    FindIs(chain, s, k);
    var found := Find(chain, name);
    if found.Some? && found.value != k {
      UnlinkAt(chain, k, if found.value < k then found.value else found.value - 1);
    }
  }

  lemma UnlinkAt(chain: Chain, k: nat, j: nat)
    requires k < |chain| && j < |chain| - 1
    ensures |Unlink(chain, k)| == |chain| - 1 && Unlink(chain, k)[j] == if j < k then chain[j] else chain[j + 1]
  {
  }

  lemma RemoveGet(t: Table, name: string, n: string)
    requires ChainsOk(t.chains)
    ensures var t' := t.(chains := Remove(t.chains, name));
            ChainsOk(t'.chains) && Get(t', n) == if n == name then None else Get(t, n)
  {
    hide Slot, ChainOk, InChain, Unlink;
    var s := Slot(name);
    var chain := t.chains[s];
    assert ChainOk(chain, s);
    var found := Find(chain, name);
    NotInChain(chain, name);
    if found.Some? {
      UnlinkOk(chain, s, found.value);
      InUnlinked(chain, s, found.value, n);
    }
  }

  lemma NotInChain(chain: Chain, name: string)
    ensures InChain(chain, name).None? <==> Find(chain, name).None?
  {
  }

  /** Removing a list of names leaves every other name as it was. */
  lemma {:induction false} RemoveAllGet(t: Table, names: seq<string>, n: string)
    requires ChainsOk(t.chains)
    ensures var t' := t.(chains := RemoveAll(t.chains, names));
            ChainsOk(t'.chains) && Get(t', n) == if n in names then None else Get(t, n)
    decreases |names|
  {
    hide Get, Remove, ChainsOk;
    if names != [] {
      RemoveGet(t, names[0], n);
      RemoveAllGet(t.(chains := Remove(t.chains, names[0])), names[1..], n);
    } else {
      assert t.(chains := t.chains) == t;
    }
  }

  // ----- every run of operations in a file -----

  datatype Op = Use(name: string) | Define(name: string, addr: Word) | Globl(name: string)

  function Step(t: Table, op: Op): Table {
    match op
    case Use(name) => LookUp(t, name)
    case Define(name, addr) => Record(t, name, addr)
    case Globl(name) => MakeGlobal(t, name)
  }

  function Run(t: Table, ops: seq<Op>): Table
    decreases |ops|
  {
    if ops == [] then t else Run(Step(t, ops[0]), ops[1..])
  }

  /** The finite-map reading of an operation: what becomes of the label of `n`. */
  function StepMap(l: Option<Label>, next: nat, op: Op, n: string): Option<Label> {
    if op.name != n then l
    else
      var node := if l.Some? then l.value else Label(next, n, 0, false);
      Some(match op
           case Use(_) => node
           case Define(_, addr) => if node.addr != 0 then node else node.(addr := addr)
           case Globl(_) => node.(isGlobal := true))
  }

  /** Does `op` put `name` on the local list? */
  ghost predicate DefinesLocally(t: Table, op: Op, name: string) {
    op.Define? && op.name == name && match Get(t, name) case None => true case Some(l) => l.addr == 0 && !l.isGlobal
  }

  /** The number of a name's node. */
  function IdOf(t: Table, name: string): nat {
    match Get(t, name) case Some(l) => l.id case None => |t.names|
  }

  /** The table refines the map: one operation, every name. */
  lemma StepRefines(t: Table, op: Op, n: string)
    requires ChainsOk(t.chains)
    ensures ChainsOk(Step(t, op).chains) && Get(Step(t, op), n) == StepMap(Get(t, n), |t.names|, op, n)
  {
    hide Get, ChainsOk, LookUp, Set;
    LookUpGet(t, op.name, n);
    match op
    case Use(_) =>
    case Globl(name) => GloblGet(t, name, n);
    case Define(name, addr) => RecordGet(t, name, addr, n);
  }

  /** What an operation does besides: a new name gets the next number; a local definition goes to the
      front of the list. */
  lemma StepList(t: Table, op: Op)
    requires ChainsOk(t.chains)
    ensures var t' := Step(t, op);
            && t'.names == (if Get(t, op.name).Some? then t.names else t.names + [op.name])
            && (if DefinesLocally(t, op, op.name)
                then t'.head == Some(IdOf(t, op.name)) && t'.links == t.links[IdOf(t, op.name) := t.head]
                else t'.head == t.head && t'.links == t.links)
  {
    hide Get, ChainsOk;
    var t1 := LookUp(t, op.name);
    LookUpGet(t, op.name, op.name);
    if op.Globl? {
      SetKeepsList(t1, op.name, Get(t1, op.name).value.(isGlobal := true));
    } else if op.Define? {
      SetKeepsList(t1, op.name, Get(t1, op.name).value.(addr := op.addr));
    }
  }

  lemma SetKeepsList(t: Table, name: string, l: Label)
    ensures var t' := Set(t, name, l); t'.names == t.names && t'.head == t.head && t'.links == t.links
  {
  }

  lemma ListIrrelevant(t: Table, head: Option<nat>, links: map<nat, Option<nat>>, n: string)
    ensures Get(t.(head := head, links := links), n) == Get(t, n)
  {
  }

  lemma NamedGet(t: Table, name: string)
    ensures Get(t, name).Some? ==> Get(t, name).value.name == name
  {
  }

  lemma GloblGet(t: Table, name: string, n: string)
    requires ChainsOk(t.chains)
    ensures var t' := MakeGlobal(t, name);
            ChainsOk(t'.chains) && Get(t', n) == StepMap(Get(t, n), |t.names|, Globl(name), n)
  {
    hide Get, ChainsOk, LookUp, Set;
    var t1 := LookUp(t, name);
    LookUpGet(t, name, n);
    LookUpGet(t, name, name);
    NamedGet(t1, name);
    var l := Get(t1, name).value.(isGlobal := true);
    SetGet(t1, name, l, n);
  }

  lemma RecordGet(t: Table, name: string, addr: Word, n: string)
    requires ChainsOk(t.chains)
    ensures var t' := Record(t, name, addr);
            ChainsOk(t'.chains) && Get(t', n) == StepMap(Get(t, n), |t.names|, Define(name, addr), n)
  {
    hide Get, ChainsOk, LookUp, Set;
    var t1 := LookUp(t, name);
    LookUpGet(t, name, n);
    LookUpGet(t, name, name);
    NamedGet(t1, name);
    var l := Get(t1, name).value.(addr := addr);
    SetGet(t1, name, l, n);
    var t2 := Set(t1, name, l);
    ListIrrelevant(t2, Some(l.id), t2.links[l.id := t2.head], n);
  }

  /** Each node in the table has its own name. */
  ghost predicate Named(t: Table) {
    forall n: string :: Get(t, n).Some? ==> Get(t, n).value.id < |t.names| && t.names[Get(t, n).value.id] == n
  }

  lemma StepNamed(t: Table, op: Op)
    requires ChainsOk(t.chains) && Named(t)
    ensures Named(Step(t, op)) && ChainsOk(Step(t, op).chains)
  {
    hide ChainsOk, Step, Get;
    StepList(t, op);
    var t' := Step(t, op);
    StepRefines(t, op, "");
    forall n: string ensures Get(t', n).Some? ==> Get(t', n).value.id < |t'.names| && t'.names[Get(t', n).value.id] == n {
      StepRefines(t, op, n);
    }
  }

  /** The invariants hold in every run. */
  lemma {:induction false} RunOk(t: Table, ops: seq<Op>)
    requires ChainsOk(t.chains) && Named(t)
    ensures ChainsOk(Run(t, ops).chains) && Named(Run(t, ops))
    decreases |ops|
  {
    hide ChainsOk, Named, Step;
    if ops != [] {
      StepNamed(t, ops[0]);
      RunOk(Step(t, ops[0]), ops[1..]);
    }
  }

  lemma EmptyOk()
    ensures ChainsOk(EMPTY.chains) && Named(EMPTY)
  {
    hide Slot;
  }

  /** Once created, the same node is returned for a name for as long as the file lasts. */
  lemma {:induction false} SameNode(t: Table, ops: seq<Op>, name: string)
    requires ChainsOk(t.chains) && Get(t, name).Some?
    ensures var r := Get(Run(t, ops), name); r.Some? && r.value.id == Get(t, name).value.id && r.value.name == name
    decreases |ops|
  {
    hide ChainsOk, Step, Get;
    if ops == [] {
      NamedGet(t, name);
    } else {
      StepRefines(t, ops[0], name);
      SameNode(Step(t, ops[0]), ops[1..], name);
    }
  }

  // ----- the list of local labels -----

  /** The names recorded while not global in this file, the latest first; a name may come twice. */
  ghost function StepTrail(t: Table, op: Op, trail: seq<string>): seq<string> {
    if DefinesLocally(t, op, op.name) then [op.name] + trail else trail
  }

  ghost function Trail(t: Table, ops: seq<Op>, trail: seq<string>): seq<string>
    decreases |ops|
  {
    if ops == [] then trail else Trail(Step(t, ops[0]), ops[1..], StepTrail(t, ops[0], trail))
  }

  ghost predicate First(trail: seq<string>, k: nat)
    requires k < |trail|
  {
    forall j | 0 <= j < k :: trail[j] != trail[k]
  }

  /** The node recorded at position `k`, or the end of the list. */
  function NodeAt(t: Table, trail: seq<string>, k: nat): Option<nat> {
    if k < |trail| then Some(IdOf(t, trail[k])) else None
  }

  /** The links against the history: each node points to the one recorded just before its own latest
      record. */
  ghost predicate Follows(t: Table, trail: seq<string>) {
    && (forall n | n in trail :: Get(t, n).Some?)
    && t.head == NodeAt(t, trail, 0)
    && forall k: nat | k < |trail| && First(trail, k) :: LinkIs(t, trail, k)
  }

  ghost predicate LinkIs(t: Table, trail: seq<string>, k: nat)
    requires k < |trail|
  {
    var id := IdOf(t, trail[k]);
    id in t.links && t.links[id] == NodeAt(t, trail, k + 1)
  }

  lemma StepIds(t: Table, op: Op, n: string)
    requires ChainsOk(t.chains)
    ensures Get(t, n).Some? ==> Get(Step(t, op), n).Some? && IdOf(Step(t, op), n) == IdOf(t, n)
    ensures op.name == n ==> Get(Step(t, op), n).Some? && IdOf(Step(t, op), n) == IdOf(t, n)
  {
    hide ChainsOk, Step, Get;
    StepRefines(t, op, n);
  }

  lemma OwnNode(t: Table, n: string, m: string)
    requires Named(t) && Get(t, n).Some? && n != m
    ensures IdOf(t, n) != IdOf(t, m)
  {
    hide Get;
  }

  lemma StepFollows(t: Table, op: Op, trail: seq<string>)
    requires ChainsOk(t.chains) && Named(t) && Follows(t, trail)
    ensures Follows(Step(t, op), StepTrail(t, op, trail))
  {
    hide ChainsOk, Named, Step, Get, IdOf, DefinesLocally, Follows;
    StepList(t, op);
    var t' := Step(t, op);
    if DefinesLocally(t, op, op.name) {
      PushFollows(t, op, trail);
    } else {
      KeepFollows(t, op, trail);
    }
  }

  lemma KeepFollows(t: Table, op: Op, trail: seq<string>)
    requires ChainsOk(t.chains) && Follows(t, trail)
    requires Step(t, op).head == t.head && Step(t, op).links == t.links
    ensures Follows(Step(t, op), trail)
  {
    hide ChainsOk, Step, Get, IdOf;
    var t' := Step(t, op);
    forall n | n in trail ensures Get(t', n).Some? && IdOf(t', n) == IdOf(t, n) {
      StepIds(t, op, n);
    }
    forall k: nat | k < |trail| && First(trail, k) ensures LinkIs(t', trail, k) {
      assert LinkIs(t, trail, k);
      assert trail[k] in trail;
      if k + 1 < |trail| {
        assert trail[k + 1] in trail;
      }
    }
    if trail != [] {
      assert trail[0] in trail;
    }
  }

  lemma PushFollows(t: Table, op: Op, trail: seq<string>)
    requires ChainsOk(t.chains) && Named(t) && Follows(t, trail)
    requires Step(t, op).head == Some(IdOf(t, op.name)) && Step(t, op).links == t.links[IdOf(t, op.name) := t.head]
    ensures Follows(Step(t, op), [op.name] + trail)
  {
    hide ChainsOk, Named, Step, Get, IdOf;
    var t', all := Step(t, op), [op.name] + trail;
    StepIds(t, op, op.name);
    forall n | n in all ensures Get(t', n).Some? && IdOf(t', n) == IdOf(t, n) {
      StepIds(t, op, n);
    }
    forall k: nat | k < |all| && First(all, k) ensures LinkIs(t', all, k) {
      assert all[k] in all;
      if k + 1 < |all| {
        assert all[k + 1] in all && all[k + 1] == trail[k];
      }
      if k > 0 {
        OlderLink(t, op.name, trail, k);
      }
    }
  }

  /** An older record keeps its link: it is another node. */
  lemma OlderLink(t: Table, name: string, trail: seq<string>, k: nat)
    requires Named(t) && Follows(t, trail) && 0 < k <= |trail| && First([name] + trail, k)
    ensures First(trail, k - 1) && LinkIs(t, trail, k - 1) && IdOf(t, trail[k - 1]) != IdOf(t, name)
  {
    hide Named, Get, IdOf;
    var all := [name] + trail;
    assert all[0] == name && all[k] == trail[k - 1];
    forall j | 0 <= j < k - 1 ensures trail[j] != trail[k - 1] {
      assert all[j + 1] == trail[j];
    }
    assert trail[k - 1] in trail;
    OwnNode(t, trail[k - 1], name);
  }

  lemma {:induction false} RunFollows(t: Table, ops: seq<Op>, trail: seq<string>)
    requires ChainsOk(t.chains) && Named(t) && Follows(t, trail)
    ensures Follows(Run(t, ops), Trail(t, ops, trail))
    decreases |ops|
  {
    hide ChainsOk, Named, Step, Follows, StepTrail;
    if ops != [] {
      StepNamed(t, ops[0]);
      StepFollows(t, ops[0], trail);
      RunFollows(Step(t, ops[0]), ops[1..], StepTrail(t, ops[0], trail));
    }
  }

  ghost predicate Distinct(names: seq<string>) {
    forall j, k | 0 <= j < k < |names| :: names[j] != names[k]
  }

  /** Without repetition the walk meets the names of the history, in order. */
  lemma {:induction false} WalkMeets(t: Table, trail: seq<string>, k: nat, fuel: nat)
    requires Named(t) && Follows(t, trail) && Distinct(trail) && k <= |trail| && fuel >= |trail| - k
    ensures Walk(t.names, t.links, NodeAt(t, trail, k), fuel) == Some(trail[k..])
    decreases |trail| - k
  {
    hide Get;
    if k < |trail| {
      assert First(trail, k) && LinkIs(t, trail, k);
      assert trail[k] in trail;
      WalkMeets(t, trail, k + 1, fuel - 1);
      assert trail[k..] == [trail[k]] + trail[k + 1..];
    } else {
      assert trail[k..] == [];
    }
  }

  /** The first position whose name came before. */
  lemma FirstRepeat(trail: seq<string>) returns (i: nat, j: nat)
    requires !Distinct(trail)
    ensures i < j < |trail| && trail[i] == trail[j] && forall k: nat | k < j :: First(trail, k)
  {
    var a: nat, b: nat :| a < b < |trail| && trail[a] == trail[b];
    j := b;
    while exists k: nat :: k < j && !First(trail, k)
      invariant j < |trail| && !First(trail, j)
      decreases j
    {
      var k: nat :| k < j && !First(trail, k);
      j := k;
    }
    i :| 0 <= i < j && trail[i] == trail[j];
  }

  /** With a repetition the walk comes back to it for ever. */
  lemma {:induction false} WalkNeverEnds(t: Table, trail: seq<string>, i: nat, j: nat, f: nat, fuel: nat)
    requires Follows(t, trail) && i < j < |trail| && trail[i] == trail[j] && (forall k: nat | k < j :: First(trail, k)) && f < j
    ensures Walk(t.names, t.links, NodeAt(t, trail, f), fuel).None?
    decreases fuel
  {
    hide Get;
    assert First(trail, f) && LinkIs(t, trail, f);
    if fuel > 0 {
      if f + 1 < j {
        WalkNeverEnds(t, trail, i, j, f + 1, fuel - 1);
      } else {
        WalkNeverEnds(t, trail, i, j, i, fuel - 1);
        assert NodeAt(t, trail, f + 1) == NodeAt(t, trail, i);
      }
    }
  }

  /** The list of local labels ends if and only if no label was recorded while it was on it. */
  lemma EndsIff(t: Table, trail: seq<string>)
    requires Named(t) && Follows(t, trail)
    ensures Ends(t) <==> Distinct(trail)
    ensures Distinct(trail) ==> forall fuel: nat :: Locals(t, fuel).Some? ==> Locals(t, fuel) == Some(trail)
  {
    hide Named, Get, Walk;
    if Distinct(trail) {
      WalkMeets(t, trail, 0, |trail|);
      assert trail[0..] == trail && Locals(t, |trail|) == Some(trail);
      forall fuel: nat | Locals(t, fuel).Some? ensures Locals(t, fuel) == Some(trail) {
        WalkStable(t.names, t.links, t.head, fuel, |trail|);
      }
    } else {
      var i, j := FirstRepeat(trail);
      forall fuel: nat ensures Locals(t, fuel).None? {
        WalkNeverEnds(t, trail, i, j, 0, fuel);
      }
    }
  }

  lemma {:induction false} WalkStable(names: seq<string>, links: map<nat, Option<nat>>, p: Option<nat>, f: nat, g: nat)
    requires Walk(names, links, p, f).Some? && Walk(names, links, p, g).Some?
    ensures Walk(names, links, p, f) == Walk(names, links, p, g)
    decreases f
  {
    if p.Some? {
      WalkStable(names, links, if p.value in links then links[p.value] else None, f - 1, g - 1);
    }
  }

  // ----- the end of a file -----

  /** Every record of the run is of a label not on the local list yet. */
  ghost predicate RecordsOnce(t: Table, ops: seq<Op>, trail: seq<string>)
    decreases |ops|
  {
    ops == [] ||
    (&& !(DefinesLocally(t, ops[0], ops[0].name) && ops[0].name in trail)
     && RecordsOnce(Step(t, ops[0]), ops[1..], StepTrail(t, ops[0], trail)))
  }

  lemma {:induction false} TrailDistinctIff(t: Table, ops: seq<Op>, trail: seq<string>)
    ensures Distinct(Trail(t, ops, trail)) <==> Distinct(trail) && RecordsOnce(t, ops, trail)
    decreases |ops|
  {
    hide Step, DefinesLocally;
    if ops != [] {
      var name := ops[0].name;
      PushDistinct(name, trail);
      TrailDistinctIff(Step(t, ops[0]), ops[1..], StepTrail(t, ops[0], trail));
    }
  }

  lemma PushDistinct(name: string, trail: seq<string>)
    ensures Distinct([name] + trail) <==> Distinct(trail) && name !in trail
  {
    var all := [name] + trail;
    assert forall k | 0 <= k < |trail| :: all[k + 1] == trail[k];
    if Distinct(all) {
      forall j, k | 0 <= j < k < |trail| ensures trail[j] != trail[k] {
        assert all[j + 1] != all[k + 1];
      }
      forall k | 0 <= k < |trail| ensures trail[k] != name {
        assert all[0] != all[k + 1];
      }
    }
  }

  /** Somewhere in the run, `name` is recorded while not global. */
  ghost predicate RecordedLocally(t: Table, ops: seq<Op>, name: string)
    decreases |ops|
  {
    ops != [] && (DefinesLocally(t, ops[0], name) || RecordedLocally(Step(t, ops[0]), ops[1..], name))
  }

  lemma {:induction false} TrailHas(t: Table, ops: seq<Op>, trail: seq<string>, name: string)
    ensures name in Trail(t, ops, trail) <==> name in trail || RecordedLocally(t, ops, name)
    decreases |ops|
  {
    hide Step, Get;
    if ops != [] {
      TrailHas(Step(t, ops[0]), ops[1..], StepTrail(t, ops[0], trail), name);
    }
  }

  lemma FlushGet(t: Table, trail: seq<string>, name: string)
    requires ChainsOk(t.chains) && Named(t) && Follows(t, trail) && Distinct(trail)
    ensures var r := Flush(t);
            && r.Some? && ChainsOk(r.value.chains) && r.value.head == None
            && Get(r.value, name) == if name in trail then None else Get(t, name)
  {
    hide ChainsOk, Named, Get, RemoveAll, Follows, Locals;
    EndsIff(t, trail);
    RemoveAllGet(t, trail, name);
    ListIrrelevant(t.(chains := RemoveAll(t.chains, trail)), None, t.links, name);
  }

  /** The end of a file. `flush_local_labels` returns if and only if every label was recorded at most
      once while not global; and then it removes exactly the names so recorded. */
  lemma FlushRemovesExactly(t: Table, ops: seq<Op>, name: string)
    requires ChainsOk(t.chains) && Named(t) && t.head == None
    ensures var before := Run(t, ops);
            && (Flush(before).Some? <==> RecordsOnce(t, ops, []))
            && (Flush(before).Some? ==>
                  Get(Flush(before).value, name) == if RecordedLocally(t, ops, name) then None else Get(before, name))
  {
    hide ChainsOk, Named, Get, Run, Ends, Follows;
    var before, trail := Run(t, ops), Trail(t, ops, []);
    EmptyFollows(t);
    RunOk(t, ops);
    RunFollows(t, ops, []);
    TrailDistinctIff(t, ops, []);
    TrailHas(t, ops, [], name);
    EndsIff(before, trail);
    if Distinct(trail) {
      FlushGet(before, trail, name);
    }
  }

  lemma EmptyFollows(t: Table)
    requires t.head == None
    ensures Follows(t, [])
  {
  }

  /** A flushed table is ready for the next file. */
  lemma FlushOk(t: Table, trail: seq<string>)
    requires ChainsOk(t.chains) && Named(t) && Follows(t, trail) && Distinct(trail)
    ensures var r := Flush(t); r.Some? && ChainsOk(r.value.chains) && Named(r.value) && r.value.head == None
  {
    hide ChainsOk, Get, Flush, Follows, Distinct;
    FlushGet(t, trail, "");
    FlushNames(t);
    var t' := Flush(t).value;
    forall n: string ensures Get(t', n).Some? ==> Get(t', n).value.id < |t'.names| && t'.names[Get(t', n).value.id] == n {
      FlushGet(t, trail, n);
    }
  }

  lemma FlushNames(t: Table)
    ensures Flush(t).Some? ==> Flush(t).value.names == t.names
  {
  }

  // ----- sufficient, and necessary, conditions -----

  /** Labels on the list are defined. */
  ghost predicate TrailDefined(t: Table, trail: seq<string>) {
    forall n | n in trail :: Get(t, n).Some? && Get(t, n).value.addr != 0
  }

  /** When labels are defined at nonzero addresses, each is recorded at most once. */
  lemma {:induction false} NonzeroRecordsOnce(t: Table, ops: seq<Op>, trail: seq<string>)
    requires ChainsOk(t.chains) && TrailDefined(t, trail) && forall op | op in ops :: op.Define? ==> op.addr != 0
    ensures RecordsOnce(t, ops, trail)
    decreases |ops|
  {
    hide ChainsOk, Step, Get;
    if ops != [] {
      var t1, trail1 := Step(t, ops[0]), StepTrail(t, ops[0], trail);
      StepRefines(t, ops[0], ops[0].name);
      forall n | n in trail1 ensures Get(t1, n).Some? && Get(t1, n).value.addr != 0 {
        StepRefines(t, ops[0], n);
      }
      NonzeroRecordsOnce(t1, ops[1..], trail1);
    }
  }

  /** A label defined twice at address 0 is recorded twice, and the end of the file is never reached. */
  lemma ZeroAddressNeverEnds(name: string)
    ensures Flush(Run(EMPTY, [Define(name, 0), Define(name, 0)])) == None
  {
    hide ChainsOk, Named, Get, Step, Flush, Run;
    EmptyOk();
    var d := Define(name, 0);
    assert Get(EMPTY, name) == None by { EmptyGet(name); }
    StepRefines(EMPTY, d, name);
    assert [d, d][1..] == [d];
    assert DefinesLocally(EMPTY, d, name) && DefinesLocally(Step(EMPTY, d), d, name);
    assert !RecordsOnce(Step(EMPTY, d), [d], [name] + []);
    assert !RecordsOnce(EMPTY, [d, d], []);
    FlushRemovesExactly(EMPTY, [d, d], name);
  }

  lemma EmptyGet(name: string)
    ensures Get(EMPTY, name) == None
  {
    hide Slot;
  }

  // ----- the table in place -----

  class HashTable {
    var chains: array<Chain>
    var names: seq<string>
    var head: Option<nat>
    var links: map<nat, Option<nat>>

    ghost predicate Valid()
      reads this, chains
    {
      chains.Length == TABLE_SIZE
    }

    ghost function Model(): Table
      reads this, chains
      requires Valid()
    {
      Table(chains[..], names, head, links)
    }

    constructor ()
      ensures Valid() && fresh(chains) && Model() == EMPTY
    {
      chains := new Chain[TABLE_SIZE](_ => []);
      names, head, links := [], None, map[];
    }

    /** `get_hash`: the slot of a name and its place in the chain, if it is there. */
    method GetHash(name: string) returns (slot: nat, entry: Option<nat>)
      requires Valid()
      ensures slot == Slot(name) && entry == Find(chains[slot], name)
    {
      var h: Word := Wrap(|name|);
      var i := 0;
      assert name[0..] == name;
      while i < |name|
        invariant i <= |name| && HashFrom(h, name[i..]) == HashFrom(Wrap(|name|), name)
      {
        assert name[i..][1..] == name[i + 1..];
        h := HashStep(h, name[i]);
        i := i + 1;
      }
      slot := h % HASH_RANGE % TABLE_SIZE;
      var chain := chains[slot];
      var k := 0;
      while k < |chain|
        invariant k <= |chain| && forall j | 0 <= j < k :: chain[j].name != name
      {
        if chain[k].name == name {
          FindFirst(chain, name, k);
          return slot, Some(k);
        }
        k := k + 1;
      }
      entry := None;
    }

    /** `lookup_label`; returns where the label is. */
    method Look(name: string) returns (slot: nat, k: nat)
      requires Valid()
      modifies this, chains
      ensures Valid() && chains == old(chains) && Model() == LookUp(old(Model()), name)
      ensures slot == Slot(name) && Find(chains[slot], name) == Some(k)
    {
      hide Slot;
      var entry;
      slot, entry := GetHash(name);
      if entry.Some? {
        return slot, entry.value;
      }
      FindPush(chains[slot], Label(|names|, name, 0, false), name);
      chains[slot] := [Label(|names|, name, 0, false)] + chains[slot];
      names := names + [name];
      k := 0;
    }

    /** `record_label`, without its effect on uses; false on a second definition. */
    method RecordLabel(name: string, addr: Word) returns (ok: bool)
      requires Valid()
      modifies this, chains
      ensures Valid() && chains == old(chains) && Model() == Record(old(Model()), name, addr)
      ensures ok <==> match Get(old(Model()), name) case None => true case Some(l) => l.addr == 0
    {
      hide Slot, Find;
      var slot, k := Look(name);
      LookedUp(old(Model()), name);
      var l := chains[slot][k];
      if l.addr != 0 {
        return false;
      }
      chains[slot] := chains[slot][k := l.(addr := addr)];
      if !l.isGlobal {
        links := links[l.id := head];
        head := Some(l.id);
      }
      ok := true;
    }

    method MakeLabelGlobal(name: string)
      requires Valid()
      modifies this, chains
      ensures Valid() && chains == old(chains) && Model() == MakeGlobal(old(Model()), name)
    {
      hide Slot, Find;
      var slot, k := Look(name);
      var l := chains[slot][k];
      chains[slot] := chains[slot][k := l.(isGlobal := true)];
    }

    /** `flush_local_labels`: follow `next_local` and unlink each label from its chain. It returns only
        if the list ends. */
    method FlushLocals()
      requires Valid() && Ends(Model())
      modifies this, chains
      ensures Valid() && chains == old(chains) && Some(Model()) == Flush(old(Model()))
    {
      hide Slot, Find, Walk, RemoveAll;
      ghost var before := Model();
      ghost var fuel: nat :| Locals(before, fuel).Some?;
      ghost var all := Locals(before, fuel).value;
      ghost var left := all;
      var p: Option<nat> := head;
      while p.Some?
        invariant Valid() && chains == old(chains) && names == old(names) && links == old(links)
        invariant Walk(names, links, p, fuel) == Some(left)
        invariant RemoveAll(chains[..], left) == RemoveAll(old(chains[..]), all)
        decreases fuel
      {
        WalkUnfolds(names, links, p.value, fuel);
        assert left == [names[p.value]] + left[1..];
        left := left[1..];
        fuel := fuel - 1;
        RemoveFirst(chains[..], names[p.value], left);
        RemoveName(names[p.value]);
        p := if p.value in links then links[p.value] else None;
      }
      WalkDone(names, links, fuel, chains[..]);
      head := None;
      FlushIs(before, all);
    }

    /** Unlink the label of that name, if it is there. */
    method RemoveName(name: string)
      requires Valid()
      modifies chains
      ensures Valid() && chains[..] == Remove(old(chains[..]), name)
    {
      hide Slot, Find;
      var slot, entry := GetHash(name);
      if entry.Some? {
        chains[slot] := Unlink(chains[slot], entry.value);
      }
    }
  }

  lemma WalkUnfolds(names: seq<string>, links: map<nat, Option<nat>>, p: nat, fuel: nat)
    requires Walk(names, links, Some(p), fuel).Some?
    ensures var ns := Walk(names, links, Some(p), fuel).value;
            && fuel > 0 && p < |names| && ns != [] && ns[0] == names[p]
            && Walk(names, links, if p in links then links[p] else None, fuel - 1) == Some(ns[1..])
  {
    var rest := Walk(names, links, if p in links then links[p] else None, fuel - 1).value;
    assert ([names[p]] + rest)[1..] == rest;
  }

  lemma RemoveFirst(chains: Chains, name: string, rest: seq<string>)
    ensures RemoveAll(chains, [name] + rest) == RemoveAll(Remove(chains, name), rest)
  {
    hide Remove;
    assert ([name] + rest)[1..] == rest;
  }

  lemma WalkDone(names: seq<string>, links: map<nat, Option<nat>>, fuel: nat, chains: Chains)
    ensures Walk(names, links, None, fuel) == Some([]) && RemoveAll(chains, []) == chains
  {
  }

  lemma FlushIs(t: Table, names: seq<string>)
    requires exists fuel: nat :: Locals(t, fuel) == Some(names)
    ensures Flush(t) == Some(t.(chains := RemoveAll(t.chains, names), head := None))
  {
    hide Walk, RemoveAll;
    var fuel: nat :| Locals(t, fuel) == Some(names);
    forall g: nat | Locals(t, g).Some? ensures Locals(t, g) == Some(names) {
      WalkStable(t.names, t.links, t.head, g, fuel);
    }
  }

  /** A looked-up label is the one that was there, or a new undefined one. */
  lemma LookedUp(t: Table, name: string)
    ensures match Get(t, name)
            case Some(l) => LookUp(t, name) == t
            case None => Get(LookUp(t, name), name) == Some(Label(|t.names|, name, 0, false))
  {
    hide Slot;
    if Get(t, name).None? {
      FindPush(t.chains[Slot(name)], Label(|t.names|, name, 0, false), name);
    }
  }
}
