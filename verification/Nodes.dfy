/** Node trees and their compilation. */
module Nodes {
  // The generated straight-line code builds an element tree.

  import opened Basics

  /** The Node class; texts and attribute values are opaque. */
  datatype Node<V> = Node(
    tag: string, attrib: map<string, V>, text: Option<V>, nodes: seq<Node<V>>, lineno: Option<nat>)

  /** The constructor refuses a branch node with a text. */
  function NewNode<V>(
    tag: string, attrib: map<string, V>, text: Option<V>, nodes: seq<Node<V>>, lineno: Option<nat>): Option<Node<V>> {
    if nodes != [] && text.Some? then None else Some(Node(tag, attrib, text, nodes, lineno))
  }

  /** What the constructor checks, at every level: only leaves have a text. */
  ghost predicate OnlyLeafTexts<V>(n: Node<V>) {
    && (n.nodes != [] ==> n.text.None?)
    && forall c :: c in n.nodes ==> OnlyLeafTexts(c)
  }

  /** The node without its line numbers. */
  function Erase<V>(n: Node<V>): Node<V> {
    Node(n.tag, n.attrib, n.text, EraseAll(n.nodes), None)
  }

  function EraseAll<V>(ns: seq<Node<V>>): (r: seq<Node<V>>)
    ensures |r| == |ns| && forall i :: 0 <= i < |ns| ==> r[i] == Erase(ns[i])
  {
    if ns == [] then [] else [Erase(ns[0])] + EraseAll(ns[1..])
  }

  // ----- element trees and their heap

  datatype Elem<V> = Elem(tag: string, attrib: map<string, V>, text: Option<V>, children: seq<Elem<V>>)

  datatype Cell<V> = Cell(tag: string, attrib: map<string, V>, text: Option<V>, children: seq<nat>)

  /** The heap of elements and the variables e1, e2, ... of the generated code. */
  datatype Machine<V> = Machine(heap: seq<Cell<V>>, env: map<nat, nat>)

  /** NewRoot:  e1 = Element(tag, **attrib)
      NewSub:   e<level> = SubElement(e<level-1>, tag, **attrib)
      SetText:  e<level>.text = text */
  datatype Instr<V> =
    | NewRoot(tag: string, attrib: map<string, V>)
    | NewSub(level: nat, tag: string, attrib: map<string, V>)
    | SetText(level: nat, text: Option<V>)

  /** Attributes travel as keyword arguments, and one keyword is a parameter of its own. */
  const RESERVED := "attrib"

  /** One statement; None is the exception (NameError, or TypeError on the reserved keyword). */
  function Step<V>(i: Instr<V>, m: Machine<V>): Option<Machine<V>> {
    match i
    case NewRoot(tag, attrib) =>
      if RESERVED in attrib then None
      else Some(Machine(m.heap + [Cell(tag, attrib, None, [])], m.env[1 := |m.heap|]))
    case NewSub(level, tag, attrib) =>
      if level == 0 || level - 1 !in m.env || m.env[level - 1] >= |m.heap| || RESERVED in attrib then None
      else
        var p := m.env[level - 1];
        var parent := m.heap[p].(children := m.heap[p].children + [|m.heap|]);
        Some(Machine(m.heap[p := parent] + [Cell(tag, attrib, None, [])], m.env[level := |m.heap|]))
    case SetText(level, text) =>
      if level !in m.env || m.env[level] >= |m.heap| then None
      else
        var a := m.env[level];
        Some(Machine(m.heap[a := m.heap[a].(text := text)], m.env))
  }

  function Exec<V>(code: seq<Instr<V>>, m: Machine<V>): Option<Machine<V>> {
    if code == [] then Some(m)
    else match Step(code[0], m)
      case None => None
      case Some(m') => Exec(code[1..], m')
  }

  // ----- the compiler

  function Compile<V>(n: Node<V>, level: nat): seq<Instr<V>> {
    [Head(n, level)] + (if n.nodes == [] then [SetText(level, n.text)] else CompileAll(n.nodes, level + 1))
  }

  function Head<V>(n: Node<V>, level: nat): Instr<V> {
    if level == 1 then NewRoot(n.tag, n.attrib) else NewSub(level, n.tag, n.attrib)
  }

  function CompileAll<V>(ns: seq<Node<V>>, level: nat): seq<Instr<V>> {
    if ns == [] then [] else Compile(ns[0], level) + CompileAll(ns[1..], level)
  }

  /** The list of statements under construction. */
  class Code<V> {
    var output: seq<Instr<V>>

    constructor ()
      ensures output == []
    {
      output := [];
    }

    method Append(i: Instr<V>)
      modifies this
      ensures output == old(output) + [i]
    {
      output := output + [i];
    }

    method GenerateElem(n: Node<V>, level: nat)
      modifies this
      ensures output == old(output) + Compile(n, level)
      decreases n, 1
    {
      hide CompileAll;
      Append(Head(n, level));
      if n.nodes == [] {
        Append(SetText(level, n.text));
        NoCode<V>(level + 1);
      }
      GenerateChildren(n, level + 1);
      CompileParts(n, level);
    }

    method GenerateChildren(n: Node<V>, level: nat)
      modifies this
      ensures output == old(output) + CompileAll(n.nodes, level)
      decreases n, 0
    {
      hide Compile, CompileAll;
      NoCode<V>(level);
      for k := 0 to |n.nodes|
        invariant output == old(output) + CompileAll(n.nodes[..k], level)
      {
        GenerateElem(n.nodes[k], level);
        assert n.nodes[..k + 1] == n.nodes[..k] + [n.nodes[k]];
        CompileOneMore(n.nodes[..k], n.nodes[k], level);
      }
      assert n.nodes[..|n.nodes|] == n.nodes;
    }
  }

  lemma {:induction false} NoCode<V>(level: nat)
    ensures CompileAll<V>([], level) == []
  {
  }

  lemma {:induction false} CompileParts<V>(n: Node<V>, level: nat)
    ensures Compile(n, level) ==
            [Head(n, level)] + (if n.nodes == [] then [SetText(level, n.text)] else []) + CompileAll(n.nodes, level + 1)
  {
  }

  lemma {:induction false} CompileOneMore<V>(ns: seq<Node<V>>, n: Node<V>, level: nat)
    ensures CompileAll(ns + [n], level) == CompileAll(ns, level) + Compile(n, level)
  {
    hide Compile;
    if ns == [] {
      assert [n][1..] == [];
    } else {
      assert (ns + [n])[1..] == ns[1..] + [n];
      CompileOneMore(ns[1..], n, level);
    }
  }

  /** `node_to_elem`: generate the code and execute it; the result is the address of e1. */
  method NodeToElem<V>(root: Node<V>) returns (r: Option<(seq<Cell<V>>, nat)>)
    ensures r.Some? <==> !HasReserved(root)
    ensures r.None? <==> HasAttribute(root, "attrib")
    ensures r.Some? ==> Denotes(r.value.0, r.value.1, ToElem(root)) && Mirrors(r.value.0, r.value.1, root)
    ensures r.Some? ==> r.value.1 == 0 && |r.value.0| == Size(ToElem(root))
  {
    hide Denotes, Compile, Size, Mirrors;
    var code := new Code<V>();
    code.GenerateElem(root, 1);
    var m := Machine([], map[]);
    var out := Exec(code.output, m);
    assert code.output == Compile(root, 1);
    Built(root, m);
    ReservedIs(root);
    if out.Some? {
      DenotesMirrors(out.value.heap, 0, root);
    }
    r := if out.None? then None else Some((out.value.heap, out.value.env[1]));
  }

  lemma {:induction false} Built<V>(root: Node<V>, m: Machine<V>)
    requires m == Machine([], map[])
    ensures var out := Exec(Compile(root, 1), m);
      && (out.Some? <==> !HasReserved(root))
      && (out.Some? ==> 1 in out.value.env && out.value.env[1] == 0)
      && (out.Some? ==> Denotes(out.value.heap, 0, ToElem(root)) && |out.value.heap| == Size(ToElem(root)))
  {
    hide Denotes, Compile, Exec, Size;
    if HasReserved(root) {
      CompileFails(root, 1, m);
    } else {
      CompileBuilds(root, 1, m);
    }
  }

  /** A one-node tree on which the generated code raises. */
  lemma {:induction false} ReservedWitness<V>(v: V)
    ensures Exec(Compile(Node("exposure", map["attrib" := v], None, [], None), 1), Machine([], map[])) == None
  {
    var n := Node("exposure", map["attrib" := v], None, [], None);
    assert Compile(n, 1)[0] == NewRoot("exposure", map["attrib" := v]);
  }

  // ----- what the code is to build

  /** The same tags, attributes and children; the text of the leaves only. */
  function ToElem<V>(n: Node<V>): Elem<V> {
    Elem(n.tag, n.attrib, if n.nodes == [] then n.text else None, ToElems(n.nodes))
  }

  function ToElems<V>(ns: seq<Node<V>>): (r: seq<Elem<V>>)
    ensures |r| == |ns| && forall i :: 0 <= i < |ns| ==> r[i] == ToElem(ns[i])
  {
    if ns == [] then [] else [ToElem(ns[0])] + ToElems(ns[1..])
  }

  /** The number of elements of a tree, and of some trees. */
  function Size<V>(e: Elem<V>): nat
    decreases e, 1
  {
    1 + SizeAll(e.children)
  }

  function SizeAll<V>(es: seq<Elem<V>>): nat
    decreases es, 0
  {
    if es == [] then 0
    else
      assert es decreases to es[0];
      Size(es[0]) + SizeAll(es[1..])
  }

  /** The cells from address a on are a copy of e: its root at a, then the copies of its
      children, one after the other. */
  ghost predicate Denotes<V>(heap: seq<Cell<V>>, a: nat, e: Elem<V>)
    decreases e, 1
  {
    && a < |heap|
    && heap[a].tag == e.tag && heap[a].attrib == e.attrib && heap[a].text == e.text
    && DenotesAll(heap, heap[a].children, e.children, a + 1)
  }

  ghost predicate DenotesAll<V>(heap: seq<Cell<V>>, addresses: seq<nat>, es: seq<Elem<V>>, lo: nat)
    decreases es, 0
  {
    && |addresses| == |es|
    && lo <= |heap|
    && (es == [] ||
        (assert es decreases to es[0];
         && addresses[0] == lo
         && Denotes(heap, lo, es[0])
         && DenotesAll(heap, addresses[1..], es[1..], lo + Size(es[0]))))
  }

  ghost predicate HasReserved<V>(n: Node<V>) {
    RESERVED in n.attrib || exists c :: c in n.nodes && HasReserved(c)
  }

  /** Some node of the tree has an attribute of that name. */
  ghost predicate HasAttribute<V>(n: Node<V>, name: string) {
    name in n.attrib || exists c :: c in n.nodes && HasAttribute(c, name)
  }

  lemma {:induction false} ReservedIs<V>(n: Node<V>)
    ensures HasReserved(n) <==> HasAttribute(n, "attrib")
  {
    forall c | c in n.nodes ensures HasReserved(c) <==> HasAttribute(c, "attrib") {
      ReservedIs(c);
    }
  }

  /** The cell at an address, and those below it, show the node: its tag and attributes, its text if it
      is a leaf, and its children in their order. */
  ghost predicate Mirrors<V>(heap: seq<Cell<V>>, a: nat, n: Node<V>)
    decreases n
  {
    && a < |heap|
    && heap[a].tag == n.tag && heap[a].attrib == n.attrib
    && heap[a].text == (if n.nodes == [] then n.text else None)
    && |heap[a].children| == |n.nodes|
    && forall i :: 0 <= i < |n.nodes| ==> Mirrors(heap, heap[a].children[i], n.nodes[i])
  }

  lemma {:induction false} DenotesEach<V>(heap: seq<Cell<V>>, addresses: seq<nat>, es: seq<Elem<V>>, lo: nat, i: nat)
    requires DenotesAll(heap, addresses, es, lo) && i < |es|
    ensures |addresses| == |es| && Denotes(heap, addresses[i], es[i])
    decreases i
  {
    if i > 0 {
      DenotesEach(heap, addresses[1..], es[1..], lo + Size(es[0]), i - 1);
    }
  }

  lemma {:induction false} DenotesMirrors<V>(heap: seq<Cell<V>>, a: nat, n: Node<V>)
    requires Denotes(heap, a, ToElem(n))
    ensures Mirrors(heap, a, n)
    decreases n
  {
    hide DenotesAll;
    var kids := heap[a].children;
    assert ToElem(n).children == ToElems(n.nodes);
    SameNumber(heap, kids, ToElems(n.nodes), a + 1);
    forall i | 0 <= i < |n.nodes| ensures Mirrors(heap, kids[i], n.nodes[i]) {
      DenotesEach(heap, kids, ToElems(n.nodes), a + 1, i);
      DenotesMirrors(heap, kids[i], n.nodes[i]);
    }
  }

  lemma {:induction false} SameNumber<V>(heap: seq<Cell<V>>, addresses: seq<nat>, es: seq<Elem<V>>, lo: nat)
    requires DenotesAll(heap, addresses, es, lo)
    ensures |addresses| == |es|
  {
  }

  /** A copy does not depend on the heap outside its cells. */
  lemma {:induction false} DenotesFrame<V>(heap: seq<Cell<V>>, heap': seq<Cell<V>>, a: nat, e: Elem<V>)
    requires Denotes(heap, a, e) && a + Size(e) <= |heap| && a + Size(e) <= |heap'|
    requires forall x :: a <= x < a + Size(e) ==> heap'[x] == heap[x]
    ensures Denotes(heap', a, e)
    decreases e, 1
  {
    DenotesAllFrame(heap, heap', heap[a].children, e.children, a + 1);
  }

  lemma {:induction false} DenotesAllFrame<V>(
    heap: seq<Cell<V>>, heap': seq<Cell<V>>, addresses: seq<nat>, es: seq<Elem<V>>, lo: nat)
    requires DenotesAll(heap, addresses, es, lo) && lo + SizeAll(es) <= |heap| && lo + SizeAll(es) <= |heap'|
    requires forall x :: lo <= x < lo + SizeAll(es) ==> heap'[x] == heap[x]
    ensures DenotesAll(heap', addresses, es, lo)
    decreases es, 0
  {
    if es != [] {
      assert es decreases to es[0];
      DenotesFrame(heap, heap', lo, es[0]);
      DenotesAllFrame(heap, heap', addresses[1..], es[1..], lo + Size(es[0]));
    }
  }

  /** An address denotes one tree. */
  lemma {:induction false} DenotesUnique<V>(heap: seq<Cell<V>>, a: nat, e: Elem<V>, e': Elem<V>)
    requires Denotes(heap, a, e) && Denotes(heap, a, e')
    ensures e == e'
    decreases e, 1
  {
    DenotesAllUnique(heap, heap[a].children, e.children, e'.children, a + 1);
  }

  lemma {:induction false} DenotesAllUnique<V>(
    heap: seq<Cell<V>>, addresses: seq<nat>, es: seq<Elem<V>>, es': seq<Elem<V>>, lo: nat)
    requires DenotesAll(heap, addresses, es, lo) && DenotesAll(heap, addresses, es', lo)
    ensures es == es'
    decreases es, 0
  {
    if es != [] {
      assert es decreases to es[0];
      DenotesUnique(heap, lo, es[0], es'[0]);
      DenotesAllUnique(heap, addresses[1..], es[1..], es'[1..], lo + Size(es[0]));
      assert es == [es[0]] + es[1..] && es' == [es'[0]] + es'[1..];
    }
  }

  // ----- the code builds it

  lemma {:induction false} ExecAppend<V>(a: seq<Instr<V>>, b: seq<Instr<V>>, m: Machine<V>)
    ensures Exec(a + b, m) == match Exec(a, m) case None => None case Some(m') => Exec(b, m')
  {
    if a == [] {
      assert a + b == b;
    } else {
      assert (a + b)[1..] == a[1..] + b;
      match Step(a[0], m)
      case None =>
      case Some(m') => ExecAppend(a[1..], b, m');
    }
  }

  /** The parent variable is set, unless the node is the root. */
  ghost predicate Ready<V>(level: nat, m: Machine<V>) {
    level == 1 || (level > 1 && level - 1 in m.env && m.env[level - 1] < |m.heap|)
  }

  /** From m to z a subtree list was hung under the parent of `level`: the variables below
      `level` and all the other cells are as before. */
  ghost predicate Hung<V>(level: nat, m: Machine<V>, z: Machine<V>, added: seq<nat>)
    requires Ready(level, m)
  {
    && |z.heap| >= |m.heap|
    && (forall l :: 1 <= l < level ==> (l in z.env <==> l in m.env) && (l in m.env ==> z.env[l] == m.env[l]))
    && (forall x :: 0 <= x < |m.heap| && !(level > 1 && x == m.env[level - 1]) ==> z.heap[x] == m.heap[x])
    && (level > 1 ==> var p := m.env[level - 1]; z.heap[p] == m.heap[p].(children := m.heap[p].children + added))
  }

  lemma {:induction false} HungTrans<V>(
    level: nat, m: Machine<V>, z: Machine<V>, w: Machine<V>, a: seq<nat>, b: seq<nat>)
    requires Ready(level, m) && Hung(level, m, z, a) && Ready(level, z) && Hung(level, z, w, b)
    ensures Hung(level, m, w, a + b)
  {
    if level > 1 {
      var p := m.env[level - 1];
      assert (m.heap[p].children + a) + b == m.heap[p].children + (a + b);
    }
  }

  /** What the code of a node does: it creates a copy of it in the next free cells, hung under
      the parent, and the variable of its level holds the copy. */
  ghost predicate Builds<V>(n: Node<V>, level: nat, m: Machine<V>, out: Option<Machine<V>>)
    requires Ready(level, m)
  {
    && out.Some?
    && Hung(level, m, out.value, [|m.heap|])
    && level in out.value.env && out.value.env[level] == |m.heap|
    && Denotes(out.value.heap, |m.heap|, ToElem(n))
    && |out.value.heap| == |m.heap| + Size(ToElem(n))
  }

  lemma {:induction false} HeadBuilds<V>(n: Node<V>, level: nat, m: Machine<V>)
    requires level > 0 && Ready(level, m) && RESERVED !in n.attrib
    ensures var out := Step(Head(n, level), m);
      && out.Some?
      && Hung(level, m, out.value, [|m.heap|])
      && level in out.value.env && out.value.env[level] == |m.heap| && |out.value.heap| == |m.heap| + 1
      && out.value.heap[|m.heap|] == Cell(n.tag, n.attrib, None, [])
  {
  }

  lemma {:induction false} TextBuilds<V>(level: nat, m: Machine<V>, m1: Machine<V>, text: Option<V>)
    requires level > 0 && Ready(level, m) && Hung(level, m, m1, [|m.heap|])
    requires level in m1.env && m1.env[level] == |m.heap| && |m1.heap| == |m.heap| + 1
    ensures var out := Step(SetText(level, text), m1);
      && out.Some?
      && Hung(level, m, out.value, [|m.heap|])
      && out.value == Machine(m1.heap[|m.heap| := m1.heap[|m.heap|].(text := text)], m1.env)
  {
  }

  lemma {:induction false} ExecOne<V>(i: Instr<V>, m: Machine<V>)
    ensures Exec([i], m) == Step(i, m)
  {
    assert [i][1..] == [];
  }

  lemma {:induction false} LeafBuilds<V>(n: Node<V>, level: nat, m: Machine<V>)
    requires level > 0 && Ready(level, m) && RESERVED !in n.attrib && n.nodes == []
    ensures Builds(n, level, m, Exec(Compile(n, level), m))
  {
    HeadBuilds(n, level, m);
    var m1 := Step(Head(n, level), m).value;
    var put := SetText(level, n.text);
    TextBuilds(level, m, m1, n.text);
    ExecOne(put, m1);
    assert Compile(n, level)[1..] == [put];
    hide Step, Hung;
    var z := Step(put, m1).value;
    assert z.heap[|m.heap|] == Cell(n.tag, n.attrib, n.text, []);
    LeafDenotes(n, z.heap, |m.heap|);
  }

  lemma {:induction false} LeafDenotes<V>(n: Node<V>, heap: seq<Cell<V>>, a: nat)
    requires a < |heap| && n.nodes == []
    requires heap[a] == Cell(n.tag, n.attrib, n.text, [])
    ensures Denotes(heap, a, ToElem(n)) && Size(ToElem(n)) == 1
  {
    assert ToElems(n.nodes) == [];
    assert DenotesAll(heap, [], ToElems(n.nodes), a + 1);
  }

  lemma {:induction false} BranchDenotes<V>(n: Node<V>, heap: seq<Cell<V>>, a: nat, added: seq<nat>)
    requires a < |heap| && n.nodes != []
    requires heap[a] == Cell(n.tag, n.attrib, None, added)
    requires DenotesAll(heap, added, ToElems(n.nodes), a + 1)
    ensures Denotes(heap, a, ToElem(n))
    ensures Size(ToElem(n)) == 1 + SizeAll(ToElems(n.nodes))
  {
  }

  lemma {:induction false} CompileBuilds<V>(n: Node<V>, level: nat, m: Machine<V>)
    requires level > 0 && Ready(level, m) && !HasReserved(n)
    ensures Builds(n, level, m, Exec(Compile(n, level), m))
    decreases n, 1
  {
    if n.nodes == [] {
      LeafBuilds(n, level, m);
    } else {
      HeadBuilds(n, level, m);
      assert Compile(n, level)[1..] == CompileAll(n.nodes, level + 1);
      hide Denotes, DenotesAll, Step, Size, SizeAll, CompileAll;
      var a, m1 := |m.heap|, Step(Head(n, level), m).value;
      var added := CompileAllBuilds(n, n.nodes, level + 1, m1);
      var z := Exec(CompileAll(n.nodes, level + 1), m1).value;
      assert z.heap[a] == Cell(n.tag, n.attrib, None, added) by { assert [] + added == added; }
      HungBelow(level, m, m1, z, added);
      hide Hung;
      BranchDenotes(n, z.heap, a, added);
    }
  }

  /** What happens below a new node leaves the parent of that node alone. */
  lemma {:induction false} HungBelow<V>(level: nat, m: Machine<V>, m1: Machine<V>, z: Machine<V>, added: seq<nat>)
    requires level > 0 && Ready(level, m) && Hung(level, m, m1, [|m.heap|])
    requires level in m1.env && m1.env[level] == |m.heap| && |m1.heap| == |m.heap| + 1
    requires Hung(level + 1, m1, z, added)
    ensures Hung(level, m, z, [|m.heap|])
  {
  }

  lemma {:induction false} CompileAllBuilds<V>(n: Node<V>, ns: seq<Node<V>>, level: nat, m: Machine<V>)
    returns (added: seq<nat>)
    requires level > 1 && Ready(level, m) && forall c :: c in ns ==> c in n.nodes && !HasReserved(c)
    ensures Exec(CompileAll(ns, level), m).Some?
    ensures var z := Exec(CompileAll(ns, level), m).value;
      && Hung(level, m, z, added)
      && DenotesAll(z.heap, added, ToElems(ns), |m.heap|)
      && |z.heap| == |m.heap| + SizeAll(ToElems(ns))
    decreases n, 0, |ns|
  {
    if ns == [] {
      added := [];
      assert m.heap[m.env[level - 1]].children + [] == m.heap[m.env[level - 1]].children;
    } else {
      var first, rest := ns[0], ns[1..];
      assert first in ns;
      CompileBuilds(first, level, m);
      var m1 := Exec(Compile(first, level), m).value;
      ExecAppend(Compile(first, level), CompileAll(rest, level), m);
      var more := CompileAllBuilds(n, rest, level, m1);
      var z := Exec(CompileAll(rest, level), m1).value;
      added := [|m.heap|] + more;
      HungTrans(level, m, m1, z, [|m.heap|], more);
      FirstKept(level, m, m1, z, more, ToElem(first));
      hide Hung, Denotes, HasReserved, Compile, Exec, Ready;
      DenotesCons(z.heap, |m.heap|, ToElem(first), more, ToElems(rest));
      assert ToElems(ns) == [ToElem(first)] + ToElems(rest);
    }
  }

  lemma {:induction false} DenotesCons<V>(heap: seq<Cell<V>>, lo: nat, e: Elem<V>, more: seq<nat>, es: seq<Elem<V>>)
    requires Denotes(heap, lo, e) && DenotesAll(heap, more, es, lo + Size(e))
    ensures DenotesAll(heap, [lo] + more, [e] + es, lo)
    ensures SizeAll([e] + es) == Size(e) + SizeAll(es)
  {
    assert ([lo] + more)[1..] == more && ([e] + es)[1..] == es;
  }

  /** What is hung after a copy leaves the copy alone. */
  lemma {:induction false} FirstKept<V>(
    level: nat, m: Machine<V>, m1: Machine<V>, z: Machine<V>, more: seq<nat>, e: Elem<V>)
    requires level > 1 && Ready(level, m) && Hung(level, m, m1, [|m.heap|])
    requires Ready(level, m1) && Hung(level, m1, z, more)
    requires Denotes(m1.heap, |m.heap|, e) && |m1.heap| == |m.heap| + Size(e)
    ensures Denotes(z.heap, |m.heap|, e)
  {
    hide Denotes;
    assert m1.env[level - 1] == m.env[level - 1] < |m.heap|;
    DenotesFrame(m1.heap, z.heap, |m.heap|, e);
  }

  /** A reserved attribute anywhere makes the code raise. */
  lemma {:induction false} CompileFails<V>(n: Node<V>, level: nat, m: Machine<V>)
    requires level > 0 && Ready(level, m) && HasReserved(n)
    ensures Exec(Compile(n, level), m).None?
    decreases n, 1
  {
    if RESERVED !in n.attrib {
      var m1 := Step(Head(n, level), m).value;
      assert Compile(n, level)[1..] == CompileAll(n.nodes, level + 1);
      CompileAllFails(n, n.nodes, level + 1, m1);
    }
  }

  lemma {:induction false} CompileAllFails<V>(n: Node<V>, ns: seq<Node<V>>, level: nat, m: Machine<V>)
    requires level > 1 && Ready(level, m)
    requires (forall c :: c in ns ==> c in n.nodes) && exists c :: c in ns && HasReserved(c)
    ensures Exec(CompileAll(ns, level), m).None?
    decreases n, 0, |ns|
  {
    var first, rest := ns[0], ns[1..];
    assert first in ns;
    ExecAppend(Compile(first, level), CompileAll(rest, level), m);
    if HasReserved(first) {
      CompileFails(first, level, m);
    } else {
      CompileBuilds(first, level, m);
      assert forall c :: c in ns ==> c == first || c in rest;
      CompileAllFails(n, rest, level, Exec(Compile(first, level), m).value);
    }
  }

  // ----- the variables hold the path

  /** e<j+1> is the last child of e<j>, and was created after it. */
  ghost predicate Link<V>(m: Machine<V>, j: nat) {
    && j in m.env && j + 1 in m.env
    && m.env[j] < m.env[j + 1] && m.env[j] < |m.heap|
    && var cs := m.heap[m.env[j]].children; cs != [] && cs[|cs| - 1] == m.env[j + 1]
  }

  /** e1 .. ed are the path from the root to the cell created last. */
  ghost predicate Path<V>(m: Machine<V>, d: nat) {
    && (forall j: nat :: 1 <= j < d ==> Link(m, j))
    && (d > 0 ==> d in m.env && m.env[d] == |m.heap| - 1)
  }

  /** The depth after some code: the level of the last element created. */
  function DepthAfter<V>(d: nat, code: seq<Instr<V>>): nat
    decreases |code|
  {
    if code == [] then d
    else match code[0]
      case NewRoot(_, _) => DepthAfter(1, code[1..])
      case NewSub(level, _, _) => DepthAfter(level, code[1..])
      case SetText(_, _) => DepthAfter(d, code[1..])
  }

  /** Every element is created under the current path, every text is set at its end. */
  ghost predicate Levelled<V>(d: nat, code: seq<Instr<V>>)
    decreases |code|
  {
    code == [] || match code[0]
      case NewRoot(_, _) => d == 0 && Levelled(1, code[1..])
      case NewSub(level, _, _) => 2 <= level <= d + 1 && Levelled(level, code[1..])
      case SetText(level, _) => level == d && Levelled(d, code[1..])
  }

  lemma {:induction false} LevelledAppend<V>(d: nat, a: seq<Instr<V>>, b: seq<Instr<V>>)
    requires Levelled(d, a) && Levelled(DepthAfter(d, a), b)
    ensures Levelled(d, a + b) && DepthAfter(d, a + b) == DepthAfter(DepthAfter(d, a), b)
    decreases |a|
  {
    if a == [] {
      assert a + b == b;
    } else {
      assert (a + b)[1..] == a[1..] + b;
      match a[0]
      case NewRoot(_, _) => LevelledAppend(1, a[1..], b);
      case NewSub(level, _, _) => LevelledAppend(level, a[1..], b);
      case SetText(_, _) => LevelledAppend(d, a[1..], b);
    }
  }

  lemma {:induction false} CompileLevelled<V>(n: Node<V>, level: nat, d: nat)
    requires 1 <= level <= d + 1 && (level == 1 ==> d == 0)
    ensures Levelled(d, Compile(n, level)) && DepthAfter(d, Compile(n, level)) >= level
    decreases n, 1
  {
    var code := Compile(n, level);
    var rest := code[1..];
    assert Levelled(level, rest) ==> Levelled(d, code);
    assert DepthAfter(d, code) == DepthAfter(level, rest);
    if n.nodes == [] {
      assert rest == [SetText(level, n.text)];
      assert rest[1..] == [];
      assert DepthAfter(level, rest) == DepthAfter(level, rest[1..]);
    } else {
      assert rest == CompileAll(n.nodes, level + 1);
      CompileAllLevelled(n, n.nodes, level + 1, level);
    }
  }

  lemma {:induction false} CompileAllLevelled<V>(n: Node<V>, ns: seq<Node<V>>, level: nat, d: nat)
    requires 2 <= level <= d + 1 && forall c :: c in ns ==> c in n.nodes
    ensures Levelled(d, CompileAll(ns, level)) && DepthAfter(d, CompileAll(ns, level)) >= level - 1
    decreases n, 0, |ns|
  {
    if ns != [] {
      assert ns[0] in ns;
      CompileLevelled(ns[0], level, d);
      var d1 := DepthAfter(d, Compile(ns[0], level));
      CompileAllLevelled(n, ns[1..], level, d1);
      LevelledAppend(d, Compile(ns[0], level), CompileAll(ns[1..], level));
    }
  }

  /** A new element at some level: what changes in the heap and in the variables. */
  ghost predicate Created<V>(m: Machine<V>, z: Machine<V>, level: nat)
    requires level > 1 && level - 1 in m.env && m.env[level - 1] < |m.heap|
  {
    var p := m.env[level - 1];
    && z.env == m.env[level := |m.heap|]
    && |z.heap| == |m.heap| + 1
    && z.heap[p].children == m.heap[p].children + [|m.heap|]
    && forall x :: 0 <= x < |m.heap| && x != p ==> z.heap[x] == m.heap[x]
  }

  lemma {:induction false} SubCreates<V>(m: Machine<V>, level: nat, tag: string, attrib: map<string, V>)
    requires level > 1 && level - 1 in m.env && m.env[level - 1] < |m.heap| && RESERVED !in attrib
    ensures var out := Step(NewSub(level, tag, attrib), m); out.Some? && Created(m, out.value, level)
  {
  }

  lemma {:induction false} PathAt<V>(m: Machine<V>, d: nat, j: nat)
    requires Path(m, d) && 1 <= j <= d
    ensures j in m.env && m.env[j] < |m.heap|
  {
    assert j < d ==> Link(m, j);
  }

  lemma {:induction false} CreatedLink<V>(m: Machine<V>, z: Machine<V>, d: nat, level: nat, j: nat)
    requires Path(m, d) && 2 <= level <= d + 1 && 1 <= j < level
    requires level - 1 in m.env && m.env[level - 1] < |m.heap| && Created(m, z, level)
    ensures Link(z, j)
  {
    if j < level - 1 {
      assert Link(m, j);
      IncreasingPath(m, d, j, level - 1);
      assert z.heap[z.env[j]] == m.heap[m.env[j]];
    }
  }

  lemma {:induction false} SubKeepsPath<V>(m: Machine<V>, d: nat, level: nat, tag: string, attrib: map<string, V>)
    requires Path(m, d) && 2 <= level <= d + 1 && RESERVED !in attrib
    ensures var out := Step(NewSub(level, tag, attrib), m); out.Some? && Path(out.value, level)
  {
    PathAt(m, d, level - 1);
    SubCreates(m, level, tag, attrib);
    hide Step, Link;
    var z := Step(NewSub(level, tag, attrib), m).value;
    forall j: nat | 1 <= j < level ensures Link(z, j) {
      CreatedLink(m, z, d, level, j);
    }
  }

  lemma {:induction false} TextKeepsPath<V>(m: Machine<V>, d: nat, text: Option<V>)
    requires Path(m, d) && d > 0
    ensures var out := Step(SetText(d, text), m); out.Some? && Path(out.value, d)
  {
    var z := Step(SetText(d, text), m).value;
    forall j: nat | 1 <= j < d ensures Link(z, j) {
      assert Link(m, j);
    }
  }

  lemma {:induction false} StepKeepsPath<V>(code: seq<Instr<V>>, m: Machine<V>, d: nat)
    requires code != [] && Levelled(d, code) && Path(m, d) && Step(code[0], m).Some?
    ensures Levelled(DepthAfter(d, code[..1]), code[1..])
    ensures Path(Step(code[0], m).value, DepthAfter(d, code[..1]))
  {
    assert code[..1][1..] == [];
    match code[0]
    case NewRoot(_, _) =>
    case NewSub(level, tag, attrib) => SubKeepsPath(m, d, level, tag, attrib);
    case SetText(level, text) =>
      if d > 0 {
        TextKeepsPath(m, d, text);
      }
  }

  lemma {:induction false} IncreasingPath<V>(m: Machine<V>, d: nat, j: nat, k: nat)
    requires Path(m, d) && 1 <= j < k <= d
    ensures j in m.env && k in m.env && m.env[j] < m.env[k]
    decreases k
  {
    assert Link(m, k - 1);
    if j < k - 1 {
      IncreasingPath(m, d, j, k - 1);
    }
  }

  /** After any number of statements of the generated code, e1, e2, ... are the path from
      the root to the element created last. */
  lemma {:induction false} VariablesHoldPath<V>(root: Node<V>, k: nat)
    requires k <= |Compile(root, 1)|
    ensures var code := Compile(root, 1)[..k];
      var out := Exec(code, Machine([], map[]));
      out.Some? ==> Path(out.value, DepthAfter(0, code))
  {
    CompileLevelled(root, 1, 0);
    PrefixKeepsPath(Compile(root, 1), Machine([], map[]), 0, k);
  }

  lemma {:induction false} PrefixKeepsPath<V>(code: seq<Instr<V>>, m: Machine<V>, d: nat, k: nat)
    requires Levelled(d, code) && Path(m, d) && k <= |code|
    ensures var out := Exec(code[..k], m); out.Some? ==> Path(out.value, DepthAfter(d, code[..k]))
    decreases k
  {
    if k > 0 {
      assert code[..k][0] == code[0] && code[..k][1..] == code[1..][..k - 1];
      if Step(code[0], m).Some? {
        StepKeepsPath(code, m, d);
        var d1 := DepthAfter(d, code[..1]);
        PrefixKeepsPath(code[1..], Step(code[0], m).value, d1, k - 1);
        assert code[..1][1..] == [];
        assert DepthAfter(d, code[..k]) == DepthAfter(d1, code[1..][..k - 1]);
      }
    }
  }

  // ----- and back

  /** `node_from_elem`, with no lazy tags. */
  function FromElem<V>(e: Elem<V>): Node<V> {
    if e.children == [] then Node(e.tag, e.attrib, e.text, [], None)
    else Node(e.tag, e.attrib, None, FromElems(e.children), None)
  }

  function FromElems<V>(es: seq<Elem<V>>): (r: seq<Node<V>>)
    ensures |r| == |es| && forall i :: 0 <= i < |es| ==> r[i] == FromElem(es[i])
  {
    if es == [] then [] else [FromElem(es[0])] + FromElems(es[1..])
  }

  /** The same tags, attributes, texts and children, in the same order. */
  ghost predicate SameUpToLines<V>(a: Node<V>, b: Node<V>)
    decreases a
  {
    && a.tag == b.tag && a.attrib == b.attrib && a.text == b.text && |a.nodes| == |b.nodes|
    && forall i :: 0 <= i < |a.nodes| ==> SameUpToLines(a.nodes[i], b.nodes[i])
  }

  ghost predicate NoLines<V>(n: Node<V>) {
    n.lineno == None && forall c :: c in n.nodes ==> NoLines(c)
  }

  /** What it means to be the node without its line numbers. */
  lemma {:induction false} EraseIs<V>(n: Node<V>, m: Node<V>)
    ensures m == Erase(n) <==> SameUpToLines(n, m) && NoLines(m)
    decreases n
  {
    if |n.nodes| == |m.nodes| {
      forall i | 0 <= i < |n.nodes|
        ensures m.nodes[i] == Erase(n.nodes[i]) <==> SameUpToLines(n.nodes[i], m.nodes[i]) && NoLines(m.nodes[i])
      {
        EraseIs(n.nodes[i], m.nodes[i]);
      }
      assert forall i :: 0 <= i < |m.nodes| ==> m.nodes[i] in m.nodes;
      assert m.nodes == EraseAll(n.nodes) <==> forall i :: 0 <= i < |n.nodes| ==> m.nodes[i] == Erase(n.nodes[i]);
    }
  }

  /** Going to elements and back gives the node up to its line numbers exactly when only
      its leaves have a text, as the constructor demands; other texts are lost. */
  lemma {:induction false} RoundTripIff<V>(n: Node<V>)
    ensures FromElem(ToElem(n)) == Erase(n) <==> OnlyLeafTexts(n)
    decreases n
  {
    forall i | 0 <= i < |n.nodes|
      ensures FromElem(ToElem(n.nodes[i])) == Erase(n.nodes[i]) <==> OnlyLeafTexts(n.nodes[i])
    {
      RoundTripIff(n.nodes[i]);
    }
    var back := FromElem(ToElem(n));
    assert |back.nodes| == |n.nodes|;
    assert forall i :: 0 <= i < |n.nodes| ==> back.nodes[i] == FromElem(ToElem(n.nodes[i]));
    if OnlyLeafTexts(n) {
      assert forall i :: 0 <= i < |n.nodes| ==> n.nodes[i] in n.nodes;
      assert back.nodes == Erase(n).nodes;
    } else if n.nodes == [] || n.text.None? {
      var c :| c in n.nodes && !OnlyLeafTexts(c);
      var i :| 0 <= i < |n.nodes| && n.nodes[i] == c;
      assert back.nodes[i] != Erase(n).nodes[i];
    }
  }

  /** `node_copy`: a deep copy through the constructor, hence without line numbers. */
  function Copy<V>(n: Node<V>): Option<Node<V>> {
    var ns := CopyAll(n.nodes);
    if ns.None? then None else NewNode(n.tag, n.attrib, n.text, ns.value, None)
  }

  function CopyAll<V>(ns: seq<Node<V>>): Option<seq<Node<V>>> {
    if ns == [] then Some([])
    else
      var first := Copy(ns[0]);
      if first.None? then None
      else
        var rest := CopyAll(ns[1..]);
        if rest.None? then None else Some([first.value] + rest.value)
  }

  /** The copy is the node up to its line numbers, and it raises exactly when some branch
      has a text. */
  lemma {:induction false} CopyIff<V>(n: Node<V>)
    ensures Copy(n) == if OnlyLeafTexts(n) then Some(Erase(n)) else None
    decreases n, 1
  {
    CopyAllIff(n, n.nodes);
  }

  lemma {:induction false} CopyAllIff<V>(n: Node<V>, ns: seq<Node<V>>)
    requires forall c :: c in ns ==> c in n.nodes
    ensures CopyAll(ns) == if (forall c :: c in ns ==> OnlyLeafTexts(c)) then Some(EraseAll(ns)) else None
    decreases n, 0, |ns|
  {
    if ns != [] {
      assert ns[0] in ns;
      CopyIff(ns[0]);
      CopyAllIff(n, ns[1..]);
      assert forall c :: c in ns <==> c == ns[0] || c in ns[1..];
    }
  }
}
