/**
 Block building of `ControlFlowVisitor.php` on values: what `CodeBlock` and `LabelScope` hold, and what
 each visit does to it. An internal exception sets `failed`. Three fields are bookkeeping for the proofs
 only: `defAt` numbers the blocks in the order they are defined, `home` says which block's node owns a
 nested block, and `inLoop` whether it belongs to the body of a loop.
 */
module CodeBlocks {
  import opened Wrappers
  import opened PhpCode

  type Name = string

  /** A node of a block; the bodies of an `if` or a loop are nested blocks built later. */
  type Node = NodeOf<Name>

  datatype NodeOf<B> =
    | NPlain(s: Simple)
    | NReturn(result: Option<Expr>, implied: bool)
    | NGoto(target: Name)
    | NLabel(name: Name)
    | NIf(cond: Expr, sub: B)
    | NLoop(kind: LoopKind, cond: Expr, sub: B)

  /** The block a block exits to, and the label name it used. */
  datatype Exit = Exit(to: Name, origName: Name)

  datatype Home = Home(owner: Name, at: nat)

  /** `enters` maps the name of each entering block to the label name it entered by. */
  datatype Block = Block(
    exit: Option<Exit>,
    enters: map<Name, Name>,
    entersPerName: map<Name, nat>,
    nested: seq<Name>,
    unreachable: bool,
    nodes: seq<Node>,
    unreachableNodes: seq<Node>,
    aliasOf: Option<Name>,
    defined: bool,
    elseBlock: Option<Name>,
    defAt: nat,
    home: Option<Home>,
    inLoop: bool)

  datatype State = State(blocks: map<Name, Block>, current: Name, stack: seq<Name>, counter: nat, clock: nat,
    failed: bool)

  const MAIN: Name := "<main>"

  function NewBlock(n: Name): Block {
    Block(None, map[], map[n := 0], [], false, [], [], None, false, None, 0, None, false)
  }

  function Get(st: State, n: Name): Block {
    if n in st.blocks then st.blocks[n] else NewBlock(n)
  }

  function Put(st: State, n: Name, b: Block): State {
    st.(blocks := st.blocks[n := b])
  }

  function Current(st: State): Block {
    Get(st, st.current)
  }

  function Fail(st: State): State {
    st.(failed := true)
  }

  /** `isEmpty`: nothing but labels. */
  predicate IsEmpty(b: Block) {
    forall n :: n in b.nodes ==> n.NLabel?
  }

  function EnterCount(b: Block, t: Name): nat {
    if t in b.entersPerName then b.entersPerName[t] else 0
  }

  /** `LabelScope.getBlock`. */
  function GetBlock(st: State, n: Name): State {
    if n in st.blocks then st else Put(st, n, NewBlock(n))
  }

  function SetDefined(st: State, n: Name): State {
    Put(st, n, Get(st, n).(defined := true, defAt := st.clock + 1)).(clock := st.clock + 1)
  }

  function SetUnreachable(st: State): State {
    Put(st, st.current, Current(st).(unreachable := true))
  }

  /** `append`: unreachable nodes are dropped, or set aside while the exit is not defined yet. */
  function Append(st: State, node: Node): State {
    var b := Current(st);
    if b.aliasOf.Some? then Fail(st)
    else if !b.unreachable then Put(st, st.current, b.(nodes := b.nodes + [node]))
    else if b.exit.Some? && !Get(st, b.exit.value.to).defined then
      Put(st, st.current, b.(unreachableNodes := b.unreachableNodes + [node]))
    else st
  }

  /**
   `root`: the end of the alias chain. An alias always leads to a block defined later, so the guard on the
   numbers holds.
   */
  function Root(st: State, n: Name): Name
    decreases if n in st.blocks && st.blocks[n].defAt <= st.clock then st.clock - st.blocks[n].defAt else 0
  {
    var b := Get(st, n);
    if b.aliasOf.Some? && b.aliasOf.value in st.blocks && b.defAt < st.blocks[b.aliasOf.value].defAt <= st.clock
    then Root(st, b.aliasOf.value) else n
  }

  /** `enter` of a block that is no alias. */
  function EnterBlock(b: Block, from: Name, via: Name): Block {
    b.(enters := b.enters[from := via], entersPerName := b.entersPerName[via := EnterCount(b, via) + 1])
  }

  /** `moveInto`: a reachable block exits to the root of `to`, and enters it under the name it asked for. */
  function MoveInto(st: State, to: Name): State {
    var from := Current(st);
    if from.unreachable then st
    else if from.aliasOf.Some? || from.exit.Some? then Fail(st)
    else
      var r := Root(st, to);
      var st1 := Put(st, st.current, from.(exit := Some(Exit(r, to))));
      Put(st1, r, EnterBlock(Get(st1, r), st.current, to))
  }

  /** The blocks that entered by the name `t`. */
  function EnterersBy(enters: map<Name, Name>, t: Name): set<Name> {
    set m | m in enters && enters[m] == t
  }

  function NamesUsed(enters: map<Name, Name>): set<Name> {
    set m | m in enters :: enters[m]
  }

  lemma EnterersAdd(enters: map<Name, Name>, m: Name, t: Name, u: Name)
    requires m !in enters
    ensures |EnterersBy(enters[m := t], u)| == |EnterersBy(enters, u)| + if u == t then 1 else 0
  {
    var after := EnterersBy(enters[m := t], u);
    if u == t {
      assert after == EnterersBy(enters, u) + {m};
    } else {
      assert after == EnterersBy(enters, u);
    }
  }

  /** `enter` once for every entry of `moved`, and the names of `names` picked up. */
  function MergeEnters(b: Block, moved: map<Name, Name>, names: set<Name>): Block {
    b.(enters := b.enters + moved,
       entersPerName := map t | t in b.entersPerName.Keys + names + NamesUsed(moved) :: EnterCount(b, t)
         + |EnterersBy(moved, t)|)
  }

  function Redirect(blocks: map<Name, Block>, froms: set<Name>, to: Name): map<Name, Block> {
    map n | n in blocks ::
      if n in froms && blocks[n].exit.Some? then blocks[n].(exit := Some(blocks[n].exit.value.(to := to)))
        else blocks[n]
  }

  /** `setAlias` of the current block to `to`. */
  function SetAlias(st: State, to: Name): State {
    var b := Current(st);
    if b.aliasOf.Some? || b.exit.Some? || b.nested != [] || !IsEmpty(b) then Fail(st)
    else
      var st1 := st.(blocks := Redirect(st.blocks, b.enters.Keys, to));
      var other := Get(st1, to);
      var st2 := Put(st1, to, MergeEnters(other.(nodes := b.nodes + other.nodes), b.enters, b.entersPerName.Keys));
      Put(st2, st.current, Current(st2).(aliasOf := Some(to), enters := map[], unreachable := true))
  }

  function Digit(d: nat): char
    requires d < 10
  {
    "0123456789"[d]
  }

  /** The decimal numeral PHP appends to a string. */
  function Decimal(n: nat): string {
    if n < 10 then [Digit(n)] else Decimal(n / 10) + [Digit(n % 10)]
  }

  /** `mkname` */
  function MkName(parent: Name, key: string, n: nat): Name {
    parent + key + Decimal(n)
  }

  /** `makeNested`. */
  function MakeNested(st: State, key: string, home: Option<Home>, inLoop: bool): State {
    var n := MkName(st.current, key, st.counter);
    var st1 := GetBlock(st.(stack := st.stack + [st.current], counter := st.counter + 1), n);
    var st2 := SetDefined(Put(st1, n, Get(st1, n).(home := home, inLoop := inLoop)), n);
    if Current(st2).aliasOf.Some? then Fail(st2)
    else Put(st2, st.current, Current(st2).(nested := Current(st2).nested + [n])).(current := n)
  }

  function PopStack(st: State): State {
    if st.stack == [] then Fail(st)
    else st.(current := st.stack[|st.stack| - 1], stack := st.stack[..|st.stack| - 1])
  }

  function EnterLabel(st: State, l: Name): State {
    var st1 := SetDefined(GetBlock(st, l), l);
    var st2 := if IsEmpty(Current(st1)) then SetAlias(st1, l) else MoveInto(Append(st1, NGoto(l)), l);
    Append(st2.(current := Root(st2, l)), NLabel(l))
  }

  function EnterGoto(st: State, l: Name): State {
    SetUnreachable(MoveInto(GetBlock(Append(st, NGoto(l)), l), l))
  }

  const IF_KEY := "_If_"
  const ELSE_KEY := "_Else_"

  function LoopKey(kind: LoopKind): string {
    if kind == While then "_While_" else "_Do_"
  }

  /** Where the node appended next goes; a node that is dropped has a place, too, which nothing refers to. */
  function NextHome(st: State): Option<Home> {
    Some(Home(st.current, |Current(st).nodes|))
  }

  /** `enterNode` of a statement with a body: append it, open the nested block. */
  function EnterNested(st: State, node: Node, key: string): State {
    MakeNested(Append(st, node), key, NextHome(st), Current(st).inLoop || node.NLoop?)
  }

  /** `enterNode` of an `else`, which is visited inside the nested block `sub` of its `if`. */
  function EnterElse(st: State, sub: Name): State {
    var n := MkName(st.current, ELSE_KEY, st.counter);
    var st1 := MakeNested(st, ELSE_KEY, Get(st, sub).home, Get(st, sub).inLoop);
    Put(st1, sub, Get(st1, sub).(elseBlock := Some(n)))
  }

  function Visit(st: State, s: Stmt): State
    decreases s
  {
    match s
    case Plain(x) => Append(st, NPlain(x))
    case Return(e, implied) => SetUnreachable(Append(st, NReturn(e, implied)))
    case Label(l) => EnterLabel(st, l)
    case Goto(l) => EnterGoto(st, l)
    case If(c, thn, els) =>
      var sub := MkName(st.current, IF_KEY, st.counter);
      var st1 := VisitAll(EnterNested(st, NIf(c, sub), IF_KEY), thn);
      PopStack(if els.Else? then PopStack(VisitAll(EnterElse(st1, sub), els.stmts)) else st1)
    case Loop(kind, c, body) =>
      var sub := MkName(st.current, LoopKey(kind), st.counter);
      PopStack(VisitAll(EnterNested(st, NLoop(kind, c, sub), LoopKey(kind)), body))
  }

  function VisitAll(st: State, ss: seq<Stmt>): State
    decreases ss
  {
    if ss == [] then st else VisitAll(Visit(st, ss[0]), ss[1..])
  }

  function InitialState(): State {
    SetDefined(State(map[MAIN := NewBlock(MAIN)], MAIN, [MAIN], 0, 0, false), MAIN)
  }

  const IMPLIED_RETURN := Return(None, true)

  /** The traversal of a whole program, the implied return at its end included. */
  function Build(p: seq<Stmt>): State {
    VisitAll(InitialState(), p + [IMPLIED_RETURN])
  }
}
