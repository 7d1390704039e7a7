/** `ValidatingXmlParser`. */
module XmlParser {
  // A stack machine over start, end and character events.

  import opened Basics
  import opened Nodes

  /** A text or attribute: as read, or as cast by its validator. */
  datatype Val<R> = Raw(s: string) | Cast(r: R)

  /** Validators by tag or attribute name, returning None when they raise; `stop` is ""
      when the parser reads to the end. */
  datatype Config<!R> = Config(validators: map<string, string -> Option<R>>, strip: string -> string, stop: string)

  datatype Event = Start(tag: string, attrs: map<string, string>, line: nat) | Chars(data: string) | End(tag: string)

  /** A node under construction; its text is a list of chunks. */
  datatype Frame<R> = Frame(
    tag: string, attrs: map<string, string>, text: Option<seq<string>>, nodes: seq<Node<Val<R>>>, line: nat)

  // ----- _literalnode

  function Join(chunks: seq<string>): string {
    if chunks == [] then "" else chunks[0] + Join(chunks[1..])
  }

  function CastText<R>(cfg: Config<R>, tag: string, text: string): Option<Val<R>> {
    if tag !in cfg.validators then Some(Raw(text))
    else match cfg.validators[tag](cfg.strip(text))
      case None => None
      case Some(r) => Some(Cast(r))
  }

  /** The validator of tag.name comes before the one of the name alone. */
  function CastAttr<R>(cfg: Config<R>, tag: string, name: string, v: string): Option<Val<R>> {
    var tn := tag + "." + name;
    var key := if tn in cfg.validators then tn else name;
    if key !in cfg.validators then Some(Raw(v))
    else match cfg.validators[key](v)
      case None => None
      case Some(r) => Some(Cast(r))
  }

  function CastAttrs<R>(cfg: Config<R>, tag: string, attrs: map<string, string>): Option<map<string, Val<R>>> {
    if forall n :: n in attrs ==> CastAttr(cfg, tag, n, attrs[n]).Some? then
      Some(map n | n in attrs :: CastAttr(cfg, tag, n, attrs[n]).value)
    else None
  }

  /** Cast the text, if there is any, and the attributes. */
  function Literal<R>(
    cfg: Config<R>, tag: string, attrs: map<string, string>, text: Option<string>, nodes: seq<Node<Val<R>>>, line: nat)
    : Option<Node<Val<R>>>
  {
    var t := if text.None? then Some(None) else
      match CastText(cfg, tag, text.value) case None => None case Some(v) => Some(Some(v));
    var a := CastAttrs(cfg, tag, attrs);
    if t.None? || a.None? then None
    else Some(Node(tag, a.value, t.value, nodes, Some(line)))
  }

  // ----- the machine

  /** Error is an exception that reaches the caller, Exit the one that stops the parsing. */
  datatype State<R> =
    | Running(ancestors: seq<Frame<R>>, root: Option<Node<Val<R>>>)
    | Exit(root: Option<Node<Val<R>>>)
    | Error

  function FrameNode<R>(cfg: Config<R>, f: Frame<R>): Option<Node<Val<R>>> {
    Literal(cfg, f.tag, f.attrs, if f.text.None? then None else Some(Join(f.text.value)), f.nodes, f.line)
  }

  function AppendTop<R>(ancestors: seq<Frame<R>>, n: Node<Val<R>>): (r: seq<Frame<R>>)
    ensures |r| == |ancestors|
  {
    if ancestors == [] then []
    else
      var k := |ancestors| - 1;
      ancestors[k := ancestors[k].(nodes := ancestors[k].nodes + [n])]
  }

  function EndTop<R>(cfg: Config<R>, ancestors: seq<Frame<R>>): State<R> {
    if ancestors == [] then Error
    else
      var k := |ancestors| - 1;
      match FrameNode(cfg, ancestors[k])
      case None => Error
      case Some(n) => Running(AppendTop(ancestors[..k], n), Some(n))
  }

  /** Close all the open elements, innermost first, and stop. */
  function CloseAll<R>(cfg: Config<R>, ancestors: seq<Frame<R>>, root: Option<Node<Val<R>>>): State<R>
    decreases |ancestors|
  {
    if ancestors == [] then Exit(root)
    else
      var k := |ancestors| - 1;
      match FrameNode(cfg, ancestors[k])
      case None => Error
      case Some(n) => CloseAll(cfg, AppendTop(ancestors[..k], n), Some(n))
  }

  predicate Stops<R>(cfg: Config<R>, tag: string) {
    cfg.stop != "" && tag == cfg.stop
  }

  function AddChunk(text: Option<seq<string>>, data: string): Option<seq<string>> {
    if data == "" then text
    else if text.None? then Some([data])
    else Some(text.value + [data])
  }

  function Handle<R>(cfg: Config<R>, st: State<R>, e: Event): State<R> {
    match st
    case Exit(_) => st
    case Error => st
    case Running(ancestors, root) =>
      match e
      case Start(tag, attrs, line) =>
        var pushed := ancestors + [Frame(tag, attrs, None, [], line)];
        if Stops(cfg, tag) then CloseAll(cfg, pushed, root) else Running(pushed, root)
      case Chars(data) =>
        if data == "" then st
        else if ancestors == [] then Error
        else
          var k := |ancestors| - 1;
          Running(ancestors[k := ancestors[k].(text := AddChunk(ancestors[k].text, data))], root)
      case End(_) => EndTop(cfg, ancestors)
  }

  function Run<R>(cfg: Config<R>, st: State<R>, events: seq<Event>): State<R>
    decreases |events|
  {
    if events == [] then st else Run(cfg, Handle(cfg, st, events[0]), events[1..])
  }

  datatype Signal = Continue | ExitRaised | ErrorRaised

  class ValidatingXmlParser<R> {
    const cfg: Config<R>
    var ancestors: seq<Frame<R>>
    var root: Option<Node<Val<R>>>

    constructor (cfg: Config<R>)
      ensures this.cfg == cfg && ancestors == [] && root == None
    {
      this.cfg := cfg;
      ancestors, root := [], None;
    }

    function Abs(s: Signal): State<R>
      reads this
    {
      match s case Continue => Running(ancestors, root) case ExitRaised => Exit(root) case ErrorRaised => Error
    }

    method EndElement() returns (s: Signal)
      modifies this
      ensures Abs(s) == EndTop(cfg, old(ancestors)) && s != ExitRaised
    {
      if ancestors == [] {
        return ErrorRaised;
      }
      var top := ancestors[|ancestors| - 1];
      var node := FrameNode(cfg, top);
      if node.None? {
        return ErrorRaised;
      }
      root := node;
      ancestors := ancestors[..|ancestors| - 1];
      if ancestors != [] {
        var parent := ancestors[|ancestors| - 1];
        ancestors := ancestors[|ancestors| - 1 := parent.(nodes := parent.nodes + [node.value])];
      }
      s := Continue;
    }

    method StartElement(tag: string, attrs: map<string, string>, line: nat) returns (s: Signal)
      modifies this
      ensures Abs(s) == Handle(cfg, Running(old(ancestors), old(root)), Start(tag, attrs, line))
    {
      ancestors := ancestors + [Frame(tag, attrs, None, [], line)];
      s := Continue;
      if cfg.stop != "" && tag == cfg.stop {
        while ancestors != []
          invariant CloseAll(cfg, ancestors, root) ==
            Handle(cfg, Running(old(ancestors), old(root)), Start(tag, attrs, line))
          decreases |ancestors|
        {
          s := EndElement();
          if s == ErrorRaised {
            return;
          }
        }
        s := ExitRaised;
      }
    }

    method CharData(data: string) returns (s: Signal)
      modifies this
      ensures Abs(s) == Handle(cfg, Running(old(ancestors), old(root)), Chars(data))
    {
      s := Continue;
      if data != "" {
        if ancestors == [] {
          return ErrorRaised;
        }
        var parent := ancestors[|ancestors| - 1];
        ancestors := ancestors[|ancestors| - 1 := parent.(text := AddChunk(parent.text, data))];
      }
    }

    /** Feed the events; None is the exception, otherwise the root found so far. */
    method Parse(events: seq<Event>) returns (r: Option<Option<Node<Val<R>>>>)
      modifies this
      ensures match Run(cfg, Running([], None), events)
              case Error => r == None
              case Exit(n) => r == Some(n)
              case Running(a, n) => r == Some(n) && ancestors == a
    {
      ancestors, root := [], None;
      var s := Continue;
      var i := 0;
      while i < |events| && s == Continue
        invariant 0 <= i <= |events|
        invariant Run(cfg, Abs(s), events[i..]) == Run(cfg, Running([], None), events)
      {
        match events[i] {
          case Start(tag, attrs, line) => s := StartElement(tag, attrs, line);
          case Chars(data) => s := CharData(data);
          case End(_) => s := EndElement();
        }
        i := i + 1;
      }
      if s != Continue {
        RunStopped(cfg, Abs(s), events[i..]);
      }
      r := if s == ErrorRaised then None else Some(root);
    }
  }

  lemma {:induction false} RunStopped<R>(cfg: Config<R>, st: State<R>, events: seq<Event>)
    requires !st.Running?
    ensures Run(cfg, st, events) == st
    decreases |events|
  {
    if events != [] {
      RunStopped(cfg, st, events[1..]);
    }
  }

  // ----- documents

  datatype Xml = Xml(tag: string, attrs: map<string, string>, line: nat, content: seq<Content>)

  /** Character data may come in several texts in a row, some of them empty: a document
      together with a way of cutting it into chunks. */
  datatype Content = Text(s: string) | Child(x: Xml)

  function Emit(x: Xml): seq<Event>
    decreases x, 1
  {
    [Start(x.tag, x.attrs, x.line)] + EmitAll(x.content) + [End(x.tag)]
  }

  function EmitAll(cs: seq<Content>): seq<Event>
    decreases cs, 0
  {
    if cs == [] then []
    else
      assert cs decreases to cs[0];
      (match cs[0] case Text(s) => [Chars(s)] case Child(x) => Emit(x)) + EmitAll(cs[1..])
  }

  function AllText(cs: seq<Content>): string {
    if cs == [] then ""
    else match cs[0]
      case Text(s) => s + AllText(cs[1..])
      case Child(_) => AllText(cs[1..])
  }

  /** The validated node of a document, bottom up; None when some validator raises. The text
      of an element is all its character data, wherever the children are. */
  function Build<R>(cfg: Config<R>, x: Xml): Option<Node<Val<R>>>
    decreases x, 1
  {
    match BuildAll(cfg, x.content)
    case None => None
    case Some(kids) =>
      Literal(cfg, x.tag, x.attrs, if AllText(x.content) == "" then None else Some(AllText(x.content)), kids, x.line)
  }

  function BuildAll<R>(cfg: Config<R>, cs: seq<Content>): Option<seq<Node<Val<R>>>>
    decreases cs, 0
  {
    if cs == [] then Some([])
    else
      assert cs decreases to cs[0];
      match cs[0]
      case Text(_) => BuildAll(cfg, cs[1..])
      case Child(x) =>
        var n, rest := Build(cfg, x), BuildAll(cfg, cs[1..]);
        if n.None? || rest.None? then None else Some([n.value] + rest.value)
  }

  /** The document up to the first start tag that stops the parser, in document order, with
      everything open at that point closed. The flag says whether there is such a tag. */
  function Cut<R>(cfg: Config<R>, x: Xml): (Xml, bool)
    decreases x, 1
  {
    if Stops(cfg, x.tag) then (x.(content := []), true)
    else var c := CutAll(cfg, x.content); (x.(content := c.0), c.1)
  }

  function CutAll<R>(cfg: Config<R>, cs: seq<Content>): (seq<Content>, bool)
    decreases cs, 0
  {
    if cs == [] then ([], false)
    else
      assert cs decreases to cs[0];
      match cs[0]
      case Text(_) => var c := CutAll(cfg, cs[1..]); ([cs[0]] + c.0, c.1)
      case Child(x) =>
        var y := Cut(cfg, x);
        if y.1 then ([Child(y.0)], true)
        else var c := CutAll(cfg, cs[1..]); ([cs[0]] + c.0, c.1)
  }

  // ----- the parser inverts the emission

  function AddChunks(text: Option<seq<string>>, cs: seq<Content>): Option<seq<string>>
    decreases |cs|
  {
    if cs == [] then text
    else match cs[0]
      case Text(s) => AddChunks(AddChunk(text, s), cs[1..])
      case Child(_) => AddChunks(text, cs[1..])
  }

  function Joined(text: Option<seq<string>>): string {
    if text.None? then "" else Join(text.value)
  }

  /** There is some data in the chunks, if there are chunks. */
  predicate Full(text: Option<seq<string>>) {
    text.Some? ==> Joined(text) != ""
  }

  lemma {:induction false} ChunkJoins(text: Option<seq<string>>, s: string)
    requires Full(text)
    ensures var t := AddChunk(text, s); Full(t) && Joined(t) == Joined(text) + s && (t.None? ==> text.None?)
  {
    if text.Some? {
      JoinAppend(text.value, s);
    } else {
      JoinAppend([], s);
      assert [] + [s] == [s];
    }
  }

  /** Joining the chunks gives the character data, and no chunk at all means no data. */
  lemma {:induction false} ChunksJoin(text: Option<seq<string>>, cs: seq<Content>)
    requires Full(text)
    ensures var t := AddChunks(text, cs); Full(t) && Joined(t) == Joined(text) + AllText(cs) && (t.None? ==> text.None?)
    decreases |cs|
  {
    hide Joined, Full, AddChunk;
    if cs == [] {
      assert Joined(text) + "" == Joined(text);
    } else {
      match cs[0]
      case Text(s) =>
        ChunkJoins(text, s);
        ChunksJoin(AddChunk(text, s), cs[1..]);
        assert Joined(text) + (s + AllText(cs[1..])) == (Joined(text) + s) + AllText(cs[1..]);
      case Child(_) =>
        ChunksJoin(text, cs[1..]);
    }
  }

  lemma {:induction false} JoinAppend(chunks: seq<string>, s: string)
    ensures Join(chunks + [s]) == Join(chunks) + s
  {
    if chunks == [] {
      assert [] + [s] == [s] && [s][1..] == [];
    } else {
      assert (chunks + [s])[1..] == chunks[1..] + [s];
      JoinAppend(chunks[1..], s);
    }
  }

  function FrameAfter<R>(f: Frame<R>, kids: seq<Node<Val<R>>>, cs: seq<Content>): Frame<R> {
    f.(nodes := f.nodes + kids, text := AddChunks(f.text, cs))
  }

  function RootAfter<R>(root: Option<Node<Val<R>>>, kids: seq<Node<Val<R>>>): Option<Node<Val<R>>> {
    if kids == [] then root else Some(kids[|kids| - 1])
  }

  function NewFrame<R>(x: Xml): Frame<R> {
    Frame(x.tag, x.attrs, None, [], x.line)
  }

  /** A frame that has received the content of an element closes to the node of it. */
  lemma {:induction false} FrameBuilds<R>(cfg: Config<R>, x: Xml, kids: seq<Node<Val<R>>>)
    requires BuildAll(cfg, x.content) == Some(kids)
    ensures FrameNode(cfg, FrameAfter(NewFrame(x), kids, x.content)) == Build(cfg, x)
  {
    ChunksJoin(None, x.content);
    assert "" + AllText(x.content) == AllText(x.content);
    assert [] + kids == kids;
  }

  /** The state after the events of an element have been read with `ancestors` open. */
  function AfterElement<R>(cfg: Config<R>, ancestors: seq<Frame<R>>, x: Xml, rest: seq<Event>): State<R> {
    var c := Cut(cfg, x);
    match Build(cfg, c.0)
    case None => Error
    case Some(n) =>
      if c.1 then CloseAll(cfg, AppendTop(ancestors, n), Some(n))
      else Run(cfg, Running(AppendTop(ancestors, n), Some(n)), rest)
  }

  function AfterContent<R>(
    cfg: Config<R>, ancestors: seq<Frame<R>>, f: Frame<R>, root: Option<Node<Val<R>>>, cs: seq<Content>,
    rest: seq<Event>): State<R> {
    var c := CutAll(cfg, cs);
    match BuildAll(cfg, c.0)
    case None => Error
    case Some(kids) =>
      if c.1 then CloseAll(cfg, ancestors + [FrameAfter(f, kids, c.0)], RootAfter(root, kids))
      else Run(cfg, Running(ancestors + [FrameAfter(f, kids, c.0)], RootAfter(root, kids)), rest)
  }

  lemma {:induction false} ElementRun<R>(
    cfg: Config<R>, ancestors: seq<Frame<R>>, root: Option<Node<Val<R>>>, x: Xml, rest: seq<Event>)
    ensures Run(cfg, Running(ancestors, root), Emit(x) + rest) == AfterElement(cfg, ancestors, x, rest)
    decreases x, 1
  {
    var events := Emit(x) + rest;
    var tail := EmitAll(x.content) + ([End(x.tag)] + rest);
    assert events[0] == Start(x.tag, x.attrs, x.line) && events[1..] == tail;
    var f: Frame<R> := NewFrame(x);
    if Stops(cfg, x.tag) {
      StopRun(cfg, ancestors, root, x, tail);
    } else {
      ContentRun(cfg, ancestors, f, root, x, x.content, [End(x.tag)] + rest);
      CloseElement(cfg, ancestors, root, x, rest);
    }
  }

  lemma {:induction false} StopRun<R>(
    cfg: Config<R>, ancestors: seq<Frame<R>>, root: Option<Node<Val<R>>>, x: Xml, tail: seq<Event>)
    requires Stops(cfg, x.tag)
    ensures Run(cfg, CloseAll(cfg, ancestors + [NewFrame(x)], root), tail) == AfterElement(cfg, ancestors, x, [])
    ensures forall rest :: AfterElement(cfg, ancestors, x, rest) == AfterElement(cfg, ancestors, x, [])
  {
    var y := x.(content := []);
    FrameBuilds(cfg, y, []);
    assert FrameAfter<R>(NewFrame(y), [], []) == NewFrame(x);
    assert (ancestors + [NewFrame(x)])[..|ancestors|] == ancestors;
    var z := CloseAll(cfg, ancestors + [NewFrame(x)], root);
    CloseAllStops(cfg, ancestors + [NewFrame(x)], root);
    RunStopped(cfg, z, tail);
  }

  lemma {:induction false} CloseAllStops<R>(cfg: Config<R>, ancestors: seq<Frame<R>>, root: Option<Node<Val<R>>>)
    ensures !CloseAll(cfg, ancestors, root).Running?
    decreases |ancestors|
  {
    if ancestors != [] {
      var k := |ancestors| - 1;
      match FrameNode(cfg, ancestors[k])
      case None =>
      case Some(n) => CloseAllStops(cfg, AppendTop(ancestors[..k], n), Some(n));
    }
  }

  lemma {:induction false} CloseElement<R>(
    cfg: Config<R>, ancestors: seq<Frame<R>>, root: Option<Node<Val<R>>>, x: Xml, rest: seq<Event>)
    requires !Stops(cfg, x.tag)
    ensures AfterContent(cfg, ancestors, NewFrame(x), root, x.content, [End(x.tag)] + rest) ==
      AfterElement(cfg, ancestors, x, rest)
  {
    var c := CutAll(cfg, x.content);
    var y := x.(content := c.0);
    match BuildAll(cfg, c.0)
    case None =>
    case Some(kids) =>
      FrameBuilds(cfg, y, kids);
      var f := FrameAfter(NewFrame(x), kids, c.0);
      assert (ancestors + [f])[..|ancestors|] == ancestors;
      if !c.1 {
        assert ([End(x.tag)] + rest)[1..] == rest;
        assert Handle(cfg, Running(ancestors + [f], RootAfter(root, kids)), End(x.tag)) == EndTop(cfg, ancestors + [f]);
        if Build(cfg, y).None? {
          RunStopped<R>(cfg, Error, rest);
        }
      }
  }

  lemma {:induction false} ContentRun<R>(
    cfg: Config<R>, ancestors: seq<Frame<R>>, f: Frame<R>, root: Option<Node<Val<R>>>, x: Xml, cs: seq<Content>,
    rest: seq<Event>)
    requires forall c :: c in cs ==> c in x.content
    ensures Run(cfg, Running(ancestors + [f], root), EmitAll(cs) + rest) ==
      AfterContent(cfg, ancestors, f, root, cs, rest)
    decreases x, 0, |cs|
  {
    if cs == [] {
      assert EmitAll(cs) + rest == rest;
      assert FrameAfter(f, [], []) == f by { assert f.nodes + [] == f.nodes; }
    } else {
      assert cs[0] in cs;
      match cs[0]
      case Text(s) =>
        assert EmitAll(cs) + rest == [Chars(s)] + (EmitAll(cs[1..]) + rest);
        var f' := f.(text := AddChunk(f.text, s));
        TextStep(cfg, ancestors, f, root, s);
        ContentRun(cfg, ancestors, f', root, x, cs[1..], rest);
      case Child(y) =>
        assert EmitAll(cs) + rest == Emit(y) + (EmitAll(cs[1..]) + rest);
        ElementRun(cfg, ancestors + [f], root, y, EmitAll(cs[1..]) + rest);
        ChildStep(cfg, ancestors, f, root, x, cs, rest);
    }
  }

  lemma {:induction false} TextStep<R>(
    cfg: Config<R>, ancestors: seq<Frame<R>>, f: Frame<R>, root: Option<Node<Val<R>>>, s: string)
    ensures Handle(cfg, Running(ancestors + [f], root), Chars(s)) ==
      Running(ancestors + [f.(text := AddChunk(f.text, s))], root)
  {
    var a := ancestors + [f];
    assert a[|a| - 1 := f.(text := AddChunk(f.text, s))] == ancestors + [f.(text := AddChunk(f.text, s))];
  }

  lemma {:induction false} FrameAfterChild<R>(
    f: Frame<R>, n: Node<Val<R>>, kids: seq<Node<Val<R>>>, c: Content, cs: seq<Content>)
    requires c.Child?
    ensures FrameAfter(f, [n] + kids, [c] + cs) == FrameAfter(f.(nodes := f.nodes + [n]), kids, cs)
    ensures forall root :: RootAfter(root, [n] + kids) == RootAfter(Some(n), kids)
  {
    assert ([c] + cs)[1..] == cs;
    assert f.nodes + ([n] + kids) == (f.nodes + [n]) + kids;
    assert kids != [] ==> ([n] + kids)[|[n] + kids| - 1] == kids[|kids| - 1];
  }

  lemma {:induction false} ChildStep<R>(
    cfg: Config<R>, ancestors: seq<Frame<R>>, f: Frame<R>, root: Option<Node<Val<R>>>, x: Xml, cs: seq<Content>,
    rest: seq<Event>)
    requires cs != [] && cs[0].Child? && forall c :: c in cs ==> c in x.content
    ensures AfterElement(cfg, ancestors + [f], cs[0].x, EmitAll(cs[1..]) + rest) ==
      AfterContent(cfg, ancestors, f, root, cs, rest)
    decreases x, 0, |cs|, 0
  {
    hide Run, CloseAll, EmitAll, FrameAfter, RootAfter, Cut, Build;
    var y := Cut(cfg, cs[0].x);
    CutSame(cfg, cs[0].x);
    CutFirst(cfg, cs);
    if Build(cfg, y.0).Some? {
      var n := Build(cfg, y.0).value;
      var f' := f.(nodes := f.nodes + [n]);
      assert AppendTop(ancestors + [f], n) == ancestors + [f'];
      if y.1 {
        FrameAfterChild(f, n, [], Child(y.0), []);
        FrameAfterNothing(f', Some(n));
        assert [n] + [] == [n] && [Child(y.0)] + [] == [Child(y.0)];
      } else {
        ContentRun(cfg, ancestors, f', Some(n), x, cs[1..], rest);
        var c := CutAll(cfg, cs[1..]);
        if BuildAll(cfg, c.0).Some? {
          FrameAfterChild(f, n, BuildAll(cfg, c.0).value, cs[0], c.0);
        }
      }
    }
  }

  lemma {:induction false} FrameAfterNothing<R>(f: Frame<R>, root: Option<Node<Val<R>>>)
    ensures FrameAfter(f, [], []) == f && RootAfter(root, []) == root
  {
    assert f.nodes + [] == f.nodes;
  }

  lemma {:induction false} CutFirst<R>(cfg: Config<R>, cs: seq<Content>)
    requires cs != [] && cs[0].Child?
    ensures var y, c, all := Cut(cfg, cs[0].x), CutAll(cfg, cs[1..]), CutAll(cfg, cs);
      && all == (if y.1 then ([Child(y.0)], true) else ([cs[0]] + c.0, c.1))
      && BuildAll(cfg, all.0) ==
         (var n, kids := Build(cfg, if y.1 then y.0 else cs[0].x), if y.1 then Some([]) else BuildAll(cfg, c.0);
          if n.None? || kids.None? then None else Some([n.value] + kids.value))
  {
    assert ([cs[0]] + CutAll(cfg, cs[1..]).0)[1..] == CutAll(cfg, cs[1..]).0;
    assert [Child(Cut(cfg, cs[0].x).0)][1..] == [];
  }

  /** Without a stop tag nothing is cut. */
  lemma {:induction false} CutSame<R>(cfg: Config<R>, x: Xml)
    ensures !Cut(cfg, x).1 ==> Cut(cfg, x).0 == x
    ensures cfg.stop == "" ==> !Cut(cfg, x).1
    decreases x, 1
  {
    CutAllSame(cfg, x, x.content);
  }

  lemma {:induction false} CutAllSame<R>(cfg: Config<R>, x: Xml, cs: seq<Content>)
    requires forall c :: c in cs ==> c in x.content
    ensures !CutAll(cfg, cs).1 ==> CutAll(cfg, cs).0 == cs
    ensures cfg.stop == "" ==> !CutAll(cfg, cs).1
    decreases x, 0, |cs|
  {
    if cs != [] {
      assert cs[0] in cs;
      if cs[0].Child? {
        CutSame(cfg, cs[0].x);
      }
      CutAllSame(cfg, x, cs[1..]);
      assert cs == [cs[0]] + cs[1..];
    }
  }

  /** The state in which the parser should end: the validated tree as root and no open element
      or, with a stop tag in the document, an early exit with the tree built so far and all
      its ancestors closed; an error when some validator raises on that tree. */
  function Expected<R>(cfg: Config<R>, x: Xml): State<R> {
    var (seen, stopped) := Cut(cfg, x);
    match Build(cfg, seen)
    case None => Error
    case Some(n) => if stopped then Exit(Some(n)) else Running([], Some(n))
  }

  /** The parser inverts the emission of events. */
  lemma {:induction false} ParserInvertsEmission<R>(cfg: Config<R>, x: Xml)
    ensures Run(cfg, Running([], None), Emit(x)) == Expected(cfg, x)
  {
    ElementRun(cfg, [], None, x, []);
    assert Emit(x) + [] == Emit(x);
  }

  /** Without a stop tag the whole document is parsed. */
  lemma {:induction false} NothingCut<R>(cfg: Config<R>, x: Xml)
    requires cfg.stop == ""
    ensures Cut(cfg, x) == (x, false)
  {
    CutSame(cfg, x);
  }

  // ----- independence of the chunking

  /** The document with its character data in the fewest texts. */
  function Merge(x: Xml): Xml
    decreases x, 1
  {
    x.(content := MergeAll(x.content))
  }

  function MergeAll(cs: seq<Content>): seq<Content>
    decreases cs, 0
  {
    if cs == [] then []
    else
      var m := MergeAll(cs[1..]);
      assert cs decreases to cs[0];
      match cs[0]
      case Child(x) => [Child(Merge(x))] + m
      case Text(s) =>
        if s == "" then m
        else if m != [] && m[0].Text? then [Text(s + m[0].s)] + m[1..]
        else [Text(s)] + m
  }

  lemma {:induction false} MergeBuilds<R>(cfg: Config<R>, x: Xml)
    ensures Build(cfg, Cut(cfg, Merge(x)).0) == Build(cfg, Cut(cfg, x).0)
    ensures Cut(cfg, Merge(x)).1 == Cut(cfg, x).1
    decreases x, 1
  {
    MergeAllBuilds(cfg, x, x.content);
  }

  lemma {:induction false} MergeAllBuilds<R>(cfg: Config<R>, x: Xml, cs: seq<Content>)
    requires forall c :: c in cs ==> c in x.content
    ensures var a, b := CutAll(cfg, MergeAll(cs)), CutAll(cfg, cs);
      a.1 == b.1 && BuildAll(cfg, a.0) == BuildAll(cfg, b.0) && AllText(a.0) == AllText(b.0)
    decreases x, 0, |cs|
  {
    hide CutAll, BuildAll, AllText, Build, Cut;
    if cs != [] {
      assert cs[0] in cs;
      MergeAllBuilds(cfg, x, cs[1..]);
      var m := MergeAll(cs[1..]);
      match cs[0]
      case Child(y) =>
        MergeBuilds(cfg, y);
        CutCons(cfg, Child(y), cs[1..]);
        CutCons(cfg, Child(Merge(y)), m);
        assert cs == [Child(y)] + cs[1..];
      case Text(s) =>
        assert cs == [Text(s)] + cs[1..];
        CutCons(cfg, Text(s), cs[1..]);
        CutCons(cfg, Text(s), m);
        if s != "" && m != [] && m[0].Text? {
          assert m == [m[0]] + m[1..];
          CutCons(cfg, m[0], m[1..]);
          CutCons(cfg, Text(s + m[0].s), m[1..]);
          var t := AllText(CutAll(cfg, m[1..]).0);
          assert (s + m[0].s) + t == s + (m[0].s + t);
        }
    }
  }

  /** What the first piece of content contributes. */
  lemma {:induction false} CutCons<R>(cfg: Config<R>, c: Content, cs: seq<Content>)
    ensures var a, b := CutAll(cfg, [c] + cs), CutAll(cfg, cs);
      match c
      case Text(s) => a.1 == b.1 && BuildAll(cfg, a.0) == BuildAll(cfg, b.0) && AllText(a.0) == s + AllText(b.0)
      case Child(x) =>
        var y := Cut(cfg, x);
        && a.1 == (y.1 || b.1)
        && AllText(a.0) == (if y.1 then "" else AllText(b.0))
        && BuildAll(cfg, a.0) ==
           (var n, kids := Build(cfg, y.0), if y.1 then Some([]) else BuildAll(cfg, b.0);
            if n.None? || kids.None? then None else Some([n.value] + kids.value))
  {
    assert ([c] + cs)[1..] == cs;
    var b := CutAll(cfg, cs);
    assert ([c] + b.0)[1..] == b.0;
    match c
    case Text(s) =>
    case Child(x) =>
      CutSame(cfg, x);
      assert [Child(Cut(cfg, x).0)][1..] == [];
  }

  /** The result does not depend on how the character data is cut into chunks. */
  lemma {:induction false} ChunkingIrrelevant<R>(cfg: Config<R>, x: Xml, y: Xml)
    requires Merge(x) == Merge(y)
    ensures Run(cfg, Running([], None), Emit(x)) == Run(cfg, Running([], None), Emit(y))
  {
    ParserInvertsEmission(cfg, x);
    ParserInvertsEmission(cfg, y);
    MergeBuilds(cfg, x);
    MergeBuilds(cfg, y);
  }

  // ----- what the parser does not check

  /** No element has both children and character data, white space included. */
  ghost predicate Unmixed(x: Xml) {
    && ((exists c :: c in x.content && c.Child?) ==> AllText(x.content) == "")
    && forall c :: c in x.content && c.Child? ==> Unmixed(c.x)
  }

  lemma {:induction false} BuildAllFacts<R>(cfg: Config<R>, cs: seq<Content>)
    requires BuildAll(cfg, cs).Some?
    ensures var kids := BuildAll(cfg, cs).value;
      && (kids == [] <==> forall c :: c in cs ==> !c.Child?)
      && (forall c :: c in cs && c.Child? ==> Build(cfg, c.x).Some? && Build(cfg, c.x).value in kids)
      && (forall n :: n in kids ==> exists c :: c in cs && c.Child? && Build(cfg, c.x) == Some(n))
  {
    if cs != [] {
      BuildAllFacts(cfg, cs[1..]);
      assert forall c :: c in cs <==> c == cs[0] || c in cs[1..];
      if cs[0].Child? {
        var n := Build(cfg, cs[0].x).value;
        var rest := BuildAll(cfg, cs[1..]).value;
        assert forall m :: m in [n] + rest <==> m == n || m in rest;
        assert cs[0] in cs;
      }
    }
  }

  /** The parser appends children without the check of the constructor: its nodes can be
      copied and converted to elements and back without loss exactly when no element
      of the document mixes children with character data. */
  lemma {:induction false} ParsedNodesAreSound<R>(cfg: Config<R>, x: Xml)
    requires Build(cfg, x).Some?
    ensures OnlyLeafTexts(Build(cfg, x).value) <==> Unmixed(x)
    decreases x
  {
    BuildAllFacts(cfg, x.content);
    var n := Build(cfg, x).value;
    assert n.nodes == BuildAll(cfg, x.content).value;
    assert n.text.None? <==> AllText(x.content) == "";
    forall c | c in x.content && c.Child?
      ensures Build(cfg, c.x).Some? && (OnlyLeafTexts(Build(cfg, c.x).value) <==> Unmixed(c.x))
    {
      ParsedNodesAreSound(cfg, c.x);
    }
    if OnlyLeafTexts(n) {
      forall c | c in x.content && c.Child? ensures Unmixed(c.x) {
        assert Build(cfg, c.x).value in n.nodes;
      }
    }
    if Unmixed(x) {
      forall k | k in n.nodes ensures OnlyLeafTexts(k) {
        var c :| c in x.content && c.Child? && Build(cfg, c.x) == Some(k);
      }
    }
  }

  /** A text followed by a child, and no validators: a branch with a text. */
  lemma {:induction false} MixedWitness<R>()
    ensures var cfg: Config<R> := Config(map[], x => x, "");
      var x := Xml("a", map[], 1, [Text("t"), Child(Xml("b", map[], 1, []))]);
      Build(cfg, x).Some? && !OnlyLeafTexts(Build(cfg, x).value)
  {
    var cfg: Config<R> := Config(map[], x => x, "");
    var b := Xml("b", map[], 1, []);
    var x := Xml("a", map[], 1, [Text("t"), Child(b)]);
    assert x.content[1..] == [Child(b)] && [Child(b)][1..] == [];
    assert AllText(x.content) == "t" + AllText([Child(b)]);
    assert Build(cfg, b).Some?;
    assert BuildAll(cfg, [Child(b)]) == Some([Build(cfg, b).value] + []);
    assert BuildAll(cfg, x.content) == BuildAll(cfg, [Child(b)]);
    assert Build(cfg, x).Some?;
    ParsedNodesAreSound(cfg, x);
  }

  // ----- the node of a document, written out

  /** Every name is kept, and its value is the cast of the validator of tag.name if there is one,
      otherwise of the validator of the name, otherwise as read. */
  ghost predicate AttrIs<R>(cfg: Config<R>, tag: string, name: string, v: string, val: Val<R>) {
    if tag + "." + name in cfg.validators then val.Cast? && cfg.validators[tag + "." + name](v) == Some(val.r)
    else if name in cfg.validators then val.Cast? && cfg.validators[name](v) == Some(val.r)
    else val == Raw(v)
  }

  ghost predicate AttrRaises<R>(cfg: Config<R>, tag: string, name: string, v: string) {
    if tag + "." + name in cfg.validators then cfg.validators[tag + "." + name](v) == None
    else name in cfg.validators && cfg.validators[name](v) == None
  }

  /** Without character data there is no text; otherwise it is the cast of the stripped data if the
      tag has a validator, or the data as read. */
  ghost predicate TextIs<R>(cfg: Config<R>, tag: string, data: string, text: Option<Val<R>>) {
    if data == "" then text == None
    else if tag in cfg.validators then
      text.Some? && text.value.Cast? && cfg.validators[tag](cfg.strip(data)) == Some(text.value.r)
    else text == Some(Raw(data))
  }

  ghost predicate TextRaises<R>(cfg: Config<R>, tag: string, data: string) {
    data != "" && tag in cfg.validators && cfg.validators[tag](cfg.strip(data)) == None
  }

  /** The node has the tag, the line, the attributes, the text and the children of the document. */
  ghost predicate Represents<R>(cfg: Config<R>, x: Xml, n: Node<Val<R>>)
    decreases x, 1
  {
    && n.tag == x.tag && n.lineno == Some(x.line)
    && n.attrib.Keys == x.attrs.Keys
    && (forall a :: a in x.attrs ==> AttrIs(cfg, x.tag, a, x.attrs[a], n.attrib[a]))
    && TextIs(cfg, x.tag, AllText(x.content), n.text)
    && RepresentAll(cfg, x.content, n.nodes)
  }

  ghost predicate RepresentAll<R>(cfg: Config<R>, cs: seq<Content>, nodes: seq<Node<Val<R>>>)
    decreases cs, 0
  {
    if cs == [] then nodes == []
    else
      assert cs decreases to cs[0];
      match cs[0]
      case Text(_) => RepresentAll(cfg, cs[1..], nodes)
      case Child(x) => nodes != [] && Represents(cfg, x, nodes[0]) && RepresentAll(cfg, cs[1..], nodes[1..])
  }

  /** Some validator raises, on an attribute or on a text of some element. */
  ghost predicate Rejected<R>(cfg: Config<R>, x: Xml)
    decreases x, 1
  {
    || (exists a :: a in x.attrs && AttrRaises(cfg, x.tag, a, x.attrs[a]))
    || TextRaises(cfg, x.tag, AllText(x.content))
    || RejectedAny(cfg, x.content)
  }

  ghost predicate RejectedAny<R>(cfg: Config<R>, cs: seq<Content>)
    decreases cs, 0
  {
    cs != [] &&
    (assert cs decreases to cs[0];
     (cs[0].Child? && Rejected(cfg, cs[0].x)) || RejectedAny(cfg, cs[1..]))
  }

  lemma {:induction false} LiteralFacts<R>(
    cfg: Config<R>, tag: string, attrs: map<string, string>, data: string, nodes: seq<Node<Val<R>>>, line: nat)
    ensures var n := Literal(cfg, tag, attrs, if data == "" then None else Some(data), nodes, line);
      && (n.None? <==> (exists a :: a in attrs && AttrRaises(cfg, tag, a, attrs[a])) || TextRaises(cfg, tag, data))
      && (n.Some? ==>
           && n.value.tag == tag && n.value.lineno == Some(line) && n.value.nodes == nodes
           && n.value.attrib.Keys == attrs.Keys
           && (forall a :: a in attrs ==> AttrIs(cfg, tag, a, attrs[a], n.value.attrib[a]))
           && TextIs(cfg, tag, data, n.value.text))
  {
    forall a | a in attrs
      ensures CastAttr(cfg, tag, a, attrs[a]).None? <==> AttrRaises(cfg, tag, a, attrs[a])
      ensures CastAttr(cfg, tag, a, attrs[a]).Some? ==>
        AttrIs(cfg, tag, a, attrs[a], CastAttr(cfg, tag, a, attrs[a]).value)
    {
    }
    hide CastAttr, AttrIs, AttrRaises;
  }

  lemma {:induction false} BuildRepresents<R>(cfg: Config<R>, x: Xml)
    ensures Build(cfg, x).None? <==> Rejected(cfg, x)
    ensures Build(cfg, x).Some? ==> Represents(cfg, x, Build(cfg, x).value)
    decreases x, 1
  {
    hide Literal, AttrIs, AttrRaises, TextIs, TextRaises;
    BuildAllRepresents(cfg, x, x.content);
    var kids := BuildAll(cfg, x.content);
    if kids.Some? {
      LiteralFacts(cfg, x.tag, x.attrs, AllText(x.content), kids.value, x.line);
    }
  }

  lemma {:induction false} BuildAllRepresents<R>(cfg: Config<R>, x: Xml, cs: seq<Content>)
    requires forall c :: c in cs ==> c in x.content
    ensures BuildAll(cfg, cs).None? <==> RejectedAny(cfg, cs)
    ensures BuildAll(cfg, cs).Some? ==> RepresentAll(cfg, cs, BuildAll(cfg, cs).value)
    decreases x, 0, |cs|
  {
    hide Build, Rejected, Represents;
    if cs != [] {
      assert cs[0] in cs;
      if cs[0].Child? {
        BuildRepresents(cfg, cs[0].x);
      }
      BuildAllRepresents(cfg, x, cs[1..]);
      assert forall n: Node<Val<R>>, rest :: ([n] + rest)[1..] == rest;
    }
  }

  /** The parser on the events of a document: it raises exactly when some validator does on what is
      read of it, and otherwise it ends with a node that represents that. */
  lemma {:induction false} ParsedNode<R>(cfg: Config<R>, x: Xml)
    ensures var st, seen := Run(cfg, Running([], None), Emit(x)), Cut(cfg, x);
      && (st.Error? <==> Rejected(cfg, seen.0))
      && (st.Exit? <==> seen.1 && !st.Error?)
      && (!st.Error? ==> st.root.Some? && Represents(cfg, seen.0, st.root.value))
      && (st.Running? ==> st.ancestors == [])
  {
    hide Run, Emit, Cut, Build, Rejected, Represents;
    ParserInvertsEmission(cfg, x);
    BuildRepresents(cfg, Cut(cfg, x).0);
  }

  // ----- how much of a document is read

  /** The tags of the elements, in the order in which they start. */
  function Tags(x: Xml): seq<string>
    decreases x, 1
  {
    [x.tag] + TagsOf(x.content)
  }

  function TagsOf(cs: seq<Content>): seq<string>
    decreases cs, 0
  {
    if cs == [] then []
    else
      assert cs decreases to cs[0];
      (match cs[0] case Text(_) => [] case Child(x) => Tags(x)) + TagsOf(cs[1..])
  }

  /** The tags up to the first occurrence of the stop tag, that one included. */
  ghost predicate UpTo(read: seq<string>, all: seq<string>, stop: string, stopped: bool) {
    && read <= all
    && (stopped ==> read != [] && read[|read| - 1] == stop)
    && (!stopped ==> read == all)
    && forall i :: 0 <= i < |read| - (if stopped then 1 else 0) ==> read[i] != stop
  }

  lemma {:induction false} UpToAppend(
    a: seq<string>, a': seq<string>, b: seq<string>, b': seq<string>, stop: string, more: bool)
    requires UpTo(a', a, stop, false) && UpTo(b', b, stop, more)
    ensures UpTo(a' + b', a + b, stop, more)
  {
  }

  lemma {:induction false} CutTags<R>(cfg: Config<R>, x: Xml)
    requires cfg.stop != ""
    ensures UpTo(Tags(Cut(cfg, x).0), Tags(x), cfg.stop, Cut(cfg, x).1)
    decreases x, 1
  {
    if !Stops(cfg, x.tag) {
      CutAllTags(cfg, x, x.content);
      UpToAppend([x.tag], [x.tag], TagsOf(x.content), TagsOf(CutAll(cfg, x.content).0), cfg.stop,
        CutAll(cfg, x.content).1);
    }
  }

  lemma {:induction false} CutAllTags<R>(cfg: Config<R>, x: Xml, cs: seq<Content>)
    requires cfg.stop != "" && forall c :: c in cs ==> c in x.content
    ensures UpTo(TagsOf(CutAll(cfg, cs).0), TagsOf(cs), cfg.stop, CutAll(cfg, cs).1)
    decreases x, 0, |cs|
  {
    hide Cut, Tags, UpTo;
    if cs == [] {
      NoTags(cfg.stop);
    } else {
      assert cs[0] in cs;
      var rest := CutAll(cfg, cs[1..]);
      CutAllTags(cfg, x, cs[1..]);
      if cs[0].Child? {
        var y := Cut(cfg, cs[0].x);
        CutTags(cfg, cs[0].x);
        if y.1 {
          OneChildTags(y.0);
          StoppedInside(Tags(y.0), Tags(cs[0].x), TagsOf(cs[1..]), cfg.stop);
        } else {
          SnocTags(cs[0], rest.0);
          CutSame(cfg, cs[0].x);
          UpToAppend(Tags(cs[0].x), Tags(cs[0].x), TagsOf(cs[1..]), TagsOf(rest.0), cfg.stop, rest.1);
        }
      } else {
        SnocTags(cs[0], rest.0);
        assert [] + TagsOf(cs[1..]) == TagsOf(cs[1..]) && [] + TagsOf(rest.0) == TagsOf(rest.0);
      }
    }
  }

  lemma {:induction false} NoTags(stop: string)
    ensures UpTo([], [], stop, false)
  {
  }

  lemma {:induction false} SnocTags(c: Content, cs: seq<Content>)
    ensures TagsOf([c] + cs) == (match c case Text(_) => [] case Child(x) => Tags(x)) + TagsOf(cs)
  {
    assert ([c] + cs)[1..] == cs;
  }

  lemma {:induction false} OneChildTags(y: Xml)
    ensures TagsOf([Child(y)]) == Tags(y)
  {
    assert [Child(y)][1..] == [];
  }

  lemma {:induction false} StoppedInside(read: seq<string>, all: seq<string>, more: seq<string>, stop: string)
    requires UpTo(read, all, stop, true)
    ensures UpTo(read, all + more, stop, true)
  {
  }

  /** The parser stops early exactly when some element has the stop tag; what it has read then are
      the elements that start up to the first of these. */
  lemma {:induction false} StopsIff<R>(cfg: Config<R>, x: Xml)
    ensures var seen := Cut(cfg, x);
      && (seen.1 <==> cfg.stop != "" && cfg.stop in Tags(x))
      && (seen.1 ==> Tags(seen.0) <= Tags(x) && Tags(seen.0)[|Tags(seen.0)| - 1] == cfg.stop
                     && cfg.stop !in Tags(seen.0)[..|Tags(seen.0)| - 1])
      && (!seen.1 ==> seen.0 == x)
  {
    hide Cut, Tags;
    CutSame(cfg, x);
    if cfg.stop != "" {
      CutTags(cfg, x);
    }
  }

  /** The text of an element is its pieces of character data, one after the other. */
  lemma {:induction false} TextInOrder(a: seq<Content>, b: seq<Content>)
    ensures AllText(a + b) == AllText(a) + AllText(b)
    ensures forall s: string :: AllText([Text(s)]) == s
    ensures forall x: Xml :: AllText([Child(x)]) == ""
  {
    assert forall c: Content :: [c][1..] == [];
    if a == [] {
      assert a + b == b;
    } else {
      assert (a + b)[1..] == a[1..] + b;
      TextInOrder(a[1..], b);
    }
  }
}
