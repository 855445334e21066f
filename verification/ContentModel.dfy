/** Content models of element declarations (XML 1.0, sections 3.2, 3.2.1 and 3.2.2): the tree that an
    element-declaration handler receives, its printed form as prolog tokens, and a small-step parser for
    one declaration.  The main result, AcceptsExactlyPrintedModels, says that the parser reaches the end of
    a declaration with model m exactly on the token runs that print m. */
module ContentModel {

  datatype Quant = Once | Opt | Rep | Plus

  datatype CType = EmptyType | AnyType | MixedType | NameType | ChoiceType | SeqType

  // XML_Content: NAME nodes carry a name, the others children.
  datatype Content = Content(ctype: CType, quant: Quant, name: string, children: seq<Content>)

  // The prolog tokens that can meet an element declaration.  NAME and PREFIXED_NAME are treated alike by
  // every handler that is modelled, so both are NameTok with quantifier Once.
  datatype Token =
    | Space
    | NameTok(name: string, quant: Quant)
    | Open
    | Close(quant: Quant)
    | Comma
    | Bar
    | PoundName(text: string)
    | DeclClose
    | ParamEntityRef
    | XmlDecl
    | Other

  datatype Error = SyntaxError | ParamEntityRefError | MisplacedXmlPi

  // ---------- legal models and their printed form ----------

  function Leaf(name: string, quant: Quant): Content {
    Content(NameType, quant, name, [])
  }

  // A content particle: a name, a choice of at least two particles, or a sequence of at least one.
  predicate IsParticle(c: Content) {
    match c.ctype
    case NameType => c.children == []
    case SeqType => c.name == "" && |c.children| >= 1 && forall x | x in c.children :: IsParticle(x)
    case ChoiceType => c.name == "" && |c.children| >= 2 && forall x | x in c.children :: IsParticle(x)
    case _ => false
  }

  predicate IsPlainName(c: Content) {
    c == Leaf(c.name, Once)
  }

  predicate IsModel(m: Content) {
    match m.ctype
    case EmptyType => m == Content(EmptyType, Once, "", [])
    case AnyType => m == Content(AnyType, Once, "", [])
    case MixedType =>
      && m.name == ""
      && (m.quant == Rep || (m.quant == Once && m.children == []))
      && forall x | x in m.children :: IsPlainName(x)
    case NameType => false
    case _ => IsParticle(m)
  }

  function Separator(ctype: CType): Token {
    if ctype == ChoiceType then Bar else Comma
  }

  function Print(c: Content): seq<Token>
    decreases c
  {
    if c.ctype == NameType then
      [NameTok(c.name, c.quant)]
    else if c.children == [] then
      [Open, Close(c.quant)]
    else
      [Open] + PrintLeading(c.children[..|c.children| - 1], Separator(c.ctype))
      + Print(c.children[|c.children| - 1]) + [Close(c.quant)]
  }

  // Every item followed by the separator.
  function PrintLeading(items: seq<Content>, sep: Token): seq<Token>
    decreases items
  {
    if items == [] then []
    else PrintLeading(items[..|items| - 1], sep) + Print(items[|items| - 1]) + [sep]
  }

  function PrintAlternatives(items: seq<Content>): seq<Token> {
    if items == [] then []
    else PrintAlternatives(items[..|items| - 1]) + [Bar, NameTok(items[|items| - 1].name, Once)]
  }

  function PrintModel(m: Content): seq<Token> {
    match m.ctype
    case EmptyType => [NameTok("EMPTY", Once)]
    case AnyType => [NameTok("ANY", Once)]
    case MixedType => [Open, PoundName("PCDATA")] + PrintAlternatives(m.children) + [Close(m.quant)]
    case _ => Print(m)
  }

  function PrintDeclaration(name: string, m: Content): seq<Token> {
    [NameTok(name, Once)] + PrintModel(m) + [DeclClose]
  }

  function Strip(tokens: seq<Token>): seq<Token> {
    if tokens == [] then []
    else
      var t := tokens[|tokens| - 1];
      Strip(tokens[..|tokens| - 1]) + (if t == Space then [] else [t])
  }

  // ---------- the parser ----------

  // The handlers element0 .. element7 of the role machine.
  datatype Handler = Element0 | Element1 | Element2 | Element3 | Element4 | Element5 | Element6 | Element7

  // An open group: its connector so far and the particles already completed in it.
  datatype Connector = Unset | CommaSep | BarSep
  datatype Frame = Frame(conn: Connector, items: seq<Content>)

  datatype State =
    | Parsing(handler: Handler, decl: string, stack: seq<Frame>)
    | Complete(decl: string, model: Content)
    | Closed(decl: string, model: Content)
    | Failed(error: Error)

  const START := Parsing(Element0, "", [])
  const NEW_FRAME := Frame(Unset, [])

  function ErrorOf(t: Token): Error {
    match t
    case ParamEntityRef => ParamEntityRefError
    case XmlDecl => MisplacedXmlPi
    case _ => SyntaxError
  }

  function AddItem(stack: seq<Frame>, c: Content): (r: seq<Frame>)
    requires stack != []
    ensures |r| == |stack|
  {
    var top := stack[|stack| - 1];
    stack[..|stack| - 1] + [top.(items := top.items + [c])]
  }

  function SetConn(stack: seq<Frame>, conn: Connector): (r: seq<Frame>)
    requires stack != []
    ensures |r| == |stack|
  {
    stack[..|stack| - 1] + [stack[|stack| - 1].(conn := conn)]
  }

  function GroupType(conn: Connector): CType {
    if conn == BarSep then ChoiceType else SeqType
  }

  function GroupOf(f: Frame, quant: Quant): Content {
    Content(GroupType(f.conn), quant, "", f.items)
  }

  predicate StackFits(h: Handler, stack: seq<Frame>) {
    match h
    case Element0 => stack == []
    case Element1 => stack == []
    case Element2 => stack == [NEW_FRAME]
    case Element3 => stack == [NEW_FRAME]
    case Element4 => |stack| == 1 && stack[0].conn == Unset
    case Element5 => |stack| == 1 && stack[0].conn == Unset && stack[0].items != []
    case Element6 => |stack| >= 1
    case Element7 => |stack| >= 1
  }

  predicate Sane(s: State) {
    s.Parsing? ==> StackFits(s.handler, s.stack)
  }

  function Step(s: State, t: Token): (r: State)
    requires Sane(s)
    ensures Sane(r)
  {
    match s
    case Failed(_) => s
    case Closed(_, _) => if t == Space then s else Failed(ErrorOf(t))
    case Complete(d, m) =>
      if t == Space then s else if t == DeclClose then Closed(d, m) else Failed(ErrorOf(t))
    case Parsing(h, d, st) =>
      if t == Space then s else
      match h
      case Element0 =>
        if t.NameTok? && t.quant == Once then Parsing(Element1, t.name, []) else Failed(ErrorOf(t))
      case Element1 =>
        if t == NameTok("EMPTY", Once) then Complete(d, Content(EmptyType, Once, "", []))
        else if t == NameTok("ANY", Once) then Complete(d, Content(AnyType, Once, "", []))
        else if t == Open then Parsing(Element2, d, [NEW_FRAME])
        else Failed(ErrorOf(t))
      case Element2 =>
        if t == PoundName("PCDATA") then Parsing(Element3, d, st)
        else ItemStep(d, st, t)
      case Element3 =>
        if t == Close(Once) || t == Close(Rep) then Complete(d, Content(MixedType, t.quant, "", st[0].items))
        else if t == Bar then Parsing(Element4, d, st)
        else Failed(ErrorOf(t))
      case Element4 =>
        if t.NameTok? && t.quant == Once then Parsing(Element5, d, AddItem(st, Leaf(t.name, Once)))
        else Failed(ErrorOf(t))
      case Element5 =>
        if t == Close(Rep) then Complete(d, Content(MixedType, Rep, "", st[0].items))
        else if t == Bar then Parsing(Element4, d, st)
        else Failed(ErrorOf(t))
      case Element6 => ItemStep(d, st, t)
      case Element7 =>
        var top := st[|st| - 1];
        if t.Close? then
          var group := GroupOf(top, t.quant);
          if |st| == 1 then Complete(d, group)
          else Parsing(Element7, d, AddItem(st[..|st| - 1], group))
        else if t == Comma && top.conn != BarSep then Parsing(Element6, d, SetConn(st, CommaSep))
        else if t == Bar && top.conn != CommaSep then Parsing(Element6, d, SetConn(st, BarSep))
        else Failed(ErrorOf(t))
  }

  /** Which error a token is: a parameter entity reference and a misplaced XML declaration, which are never taken, have
      errors of their own, and every other token that is not taken is a syntax error. */
  lemma {:induction false} ErrorIs(s: State, t: Token)
    requires Sane(s) && !s.Failed?
    ensures t == ParamEntityRef <==> Step(s, t) == Failed(ParamEntityRefError)
    ensures t == XmlDecl <==> Step(s, t) == Failed(MisplacedXmlPi)
    ensures Step(s, t).Failed? && t != ParamEntityRef && t != XmlDecl ==> Step(s, t) == Failed(SyntaxError)
  {
  }

  // A token where a content particle is expected.
  function ItemStep(d: string, st: seq<Frame>, t: Token): (r: State)
    requires st != []
    ensures Sane(r)
  {
    if t == Open then Parsing(Element6, d, st + [NEW_FRAME])
    else if t.NameTok? then Parsing(Element7, d, AddItem(st, Leaf(t.name, t.quant)))
    else Failed(ErrorOf(t))
  }

  function Run(s: State, tokens: seq<Token>): (r: State)
    requires Sane(s)
    ensures Sane(r)
  {
    if tokens == [] then s
    else Step(Run(s, tokens[..|tokens| - 1]), tokens[|tokens| - 1])
  }

  lemma {:induction false} RunAppend(s: State, a: seq<Token>, b: seq<Token>)
    requires Sane(s)
    ensures Run(s, a + b) == Run(Run(s, a), b)
  {
    hide Step;
    if b == [] {
      assert a + b == a;
    } else {
      assert (a + b)[..|a + b| - 1] == a + b[..|b| - 1];
      RunAppend(s, a, b[..|b| - 1]);
    }
  }

  lemma {:induction false} RunNone(s: State)
    requires Sane(s)
    ensures Run(s, []) == s
  {
  }

  lemma {:induction false} RunOne(s: State, t: Token)
    requires Sane(s)
    ensures Run(s, [t]) == Step(s, t)
  {
    assert [t][..0] == [];
    assert Run(s, [t][..0]) == s;
  }

  function SepOf(conn: Connector): Token {
    if conn == BarSep then Bar else Comma
  }

  // ---------- printed models are accepted ----------

  lemma {:induction false} RunThree(s: State, a: seq<Token>, b: seq<Token>, c: seq<Token>)
    requires Sane(s)
    ensures Run(s, a + b + c) == Run(Run(Run(s, a), b), c)
  {
    hide Step;
    RunAppend(s, a + b, c);
    RunAppend(s, a, b);
  }

  lemma {:induction false} RunFour(s: State, a: seq<Token>, b: seq<Token>, c: seq<Token>, d: seq<Token>)
    requires Sane(s)
    ensures Run(s, a + b + c + d) == Run(Run(Run(Run(s, a), b), c), d)
  {
    hide Step;
    RunAppend(s, a + b + c, d);
    RunThree(s, a, b, c);
  }

  lemma {:induction false} AddTop(base: seq<Frame>, f: Frame, c: Content)
    ensures AddItem(base + [f], c) == base + [f.(items := f.items + [c])]
  {
    assert (base + [f])[..|base|] == base;
  }

  // Where a particle may start: after "(" or a separator.
  predicate ExpectsItem(s: State) {
    s.Parsing? && (s.handler == Element2 || s.handler == Element6) && s.stack != []
  }

  lemma {:induction false} RunOpen(s: State)
    requires Sane(s) && ExpectsItem(s)
    ensures Run(s, [Open]) == Parsing(Element6, s.decl, s.stack + [NEW_FRAME])
  {
    RunOne(s, Open);
  }

  lemma {:induction false} RunName(s: State, name: string, q: Quant)
    requires Sane(s) && ExpectsItem(s)
    ensures Run(s, [NameTok(name, q)]) == Parsing(Element7, s.decl, AddItem(s.stack, Leaf(name, q)))
  {
    RunOne(s, NameTok(name, q));
  }

  lemma {:induction false} RunSeparator(d: string, base: seq<Frame>, f: Frame, conn: Connector)
    requires conn != Unset && (f.conn == Unset || f.conn == conn)
    ensures Run(Parsing(Element7, d, base + [f]), [SepOf(conn)]) == Parsing(Element6, d, base + [f.(conn := conn)])
  {
    RunOne(Parsing(Element7, d, base + [f]), SepOf(conn));
    assert (base + [f])[..|base|] == base;
  }

  lemma {:induction false} RunInnerClose(d: string, base: seq<Frame>, f: Frame, q: Quant)
    requires base != []
    ensures Run(Parsing(Element7, d, base + [f]), [Close(q)]) == Parsing(Element7, d, AddItem(base, GroupOf(f, q)))
  {
    RunOne(Parsing(Element7, d, base + [f]), Close(q));
    assert (base + [f])[..|base|] == base;
  }

  function ConnOf(ctype: CType): Connector {
    if ctype == ChoiceType then BarSep else CommaSep
  }

  function LeadConn(items: seq<Content>, ctype: CType): Connector {
    if items == [] then Unset else ConnOf(ctype)
  }

  lemma {:induction false} RunPrint(s: State, c: Content)
    requires Sane(s) && ExpectsItem(s) && IsParticle(c)
    ensures Run(s, Print(c)) == Parsing(Element7, s.decl, AddItem(s.stack, c))
    decreases c, 2
  {
    hide Step, Run;
    if c.ctype == NameType {
      RunName(s, c.name, c.quant);
      assert c == Leaf(c.name, c.quant);
    } else {
      RunOpen(s);
      var n := |c.children|;
      var f := Frame(LeadConn(c.children[..n - 1], c.ctype), c.children);
      RunItems(s.decl, s.stack, c);
      RunInnerClose(s.decl, s.stack, f, c.quant);
      RunFour(s, [Open], PrintLeading(c.children[..n - 1], Separator(c.ctype)), Print(c.children[n - 1]), [Close(c.quant)]);
    }
  }

  // The particles of a group, without its parentheses.
  lemma {:induction false} RunItems(d: string, base: seq<Frame>, c: Content)
    requires IsParticle(c) && c.ctype != NameType
    ensures var n := |c.children|;
            Run(Run(Parsing(Element6, d, base + [NEW_FRAME]), PrintLeading(c.children[..n - 1], Separator(c.ctype))),
                Print(c.children[n - 1]))
            == Parsing(Element7, d, base + [Frame(LeadConn(c.children[..n - 1], c.ctype), c.children)])
    decreases c, 1
  {
    hide Step, Run, Print, PrintLeading;
    var n := |c.children|;
    var items := c.children[..n - 1];
    RunLeading(d, base, items, c.ctype);
    var f := Frame(LeadConn(items, c.ctype), items);
    RunPrint(Parsing(Element6, d, base + [f]), c.children[n - 1]);
    AddTop(base, f, c.children[n - 1]);
    assert items + [c.children[n - 1]] == c.children;
  }

  // Items followed by their separator, in a group that has just been opened.
  lemma {:induction false} RunLeading(d: string, base: seq<Frame>, items: seq<Content>, ctype: CType)
    requires ctype == ChoiceType || ctype == SeqType
    requires forall x | x in items :: IsParticle(x)
    ensures Run(Parsing(Element6, d, base + [NEW_FRAME]), PrintLeading(items, Separator(ctype)))
            == Parsing(Element6, d, base + [Frame(LeadConn(items, ctype), items)])
    decreases items, 0
  {
    hide Step, Run, Print, AddItem, IsParticle;
    if items == [] {
      RunNone(Parsing(Element6, d, base + [NEW_FRAME]));
    } else {
      var n := |items|;
      var front, last, sep := items[..n - 1], items[n - 1], Separator(ctype);
      var f := Frame(LeadConn(front, ctype), front);
      var s0, s1 := Parsing(Element6, d, base + [NEW_FRAME]), Parsing(Element6, d, base + [f]);
      RunLeading(d, base, front, ctype);
      RunPrint(s1, last);
      AddTop(base, f, last);
      assert front + [last] == items;
      var s2 := Parsing(Element7, d, base + [f.(items := items)]);
      assert Run(s1, Print(last)) == s2;
      RunSeparator(d, base, f.(items := items), ConnOf(ctype));
      RunThree(s0, PrintLeading(front, sep), Print(last), [sep]);
    }
  }

  lemma {:induction false} RunAlternatives(d: string, items: seq<Content>)
    requires forall x | x in items :: IsPlainName(x)
    ensures Run(Parsing(Element3, d, [NEW_FRAME]), PrintAlternatives(items))
            == Parsing(if items == [] then Element3 else Element5, d, [Frame(Unset, items)])
  {
    hide Step, Run;
    if items == [] {
      RunNone(Parsing(Element3, d, [NEW_FRAME]));
    } else {
      var n := |items|;
      var front := items[..n - 1];
      var s := Parsing(Element3, d, [NEW_FRAME]);
      var item := items[n - 1];
      RunAlternatives(d, front);
      var mid := Parsing(if front == [] then Element3 else Element5, d, [Frame(Unset, front)]);
      RunAlternative(mid, item.name);
      RunAppend(s, PrintAlternatives(front), [Bar, NameTok(item.name, Once)]);
      assert IsPlainName(item);
      assert front + [item] == items;
      assert AddItem([Frame(Unset, front)], item) == [Frame(Unset, items)];
    }
  }

  lemma {:induction false} RunAlternative(s: State, name: string)
    requires Sane(s) && s.Parsing? && (s.handler == Element3 || s.handler == Element5)
    ensures Run(s, [Bar, NameTok(name, Once)]) == Parsing(Element5, s.decl, AddItem(s.stack, Leaf(name, Once)))
  {
    RunOne(s, Bar);
    RunOne(Parsing(Element4, s.decl, s.stack), NameTok(name, Once));
    RunAppend(s, [Bar], [NameTok(name, Once)]);
    assert [Bar] + [NameTok(name, Once)] == [Bar, NameTok(name, Once)];
  }

  lemma {:induction false} RunModel(d: string, m: Content)
    requires IsModel(m)
    ensures Run(Parsing(Element1, d, []), PrintModel(m)) == Complete(d, m)
  {
    var s := Parsing(Element1, d, []);
    match m.ctype
    case EmptyType => RunOne(s, NameTok("EMPTY", Once));
    case AnyType => RunOne(s, NameTok("ANY", Once));
    case MixedType => RunMixed(d, m);
    case _ => RunGroup(d, m);
  }

  lemma {:induction false} RunMixed(d: string, m: Content)
    requires IsModel(m) && m.ctype == MixedType
    ensures Run(Parsing(Element1, d, []), PrintModel(m)) == Complete(d, m)
  {
    hide Step, Run;
    RunMixedParens(d, m.children, m.quant);
    RunAlternatives(d, m.children);
    RunFour(Parsing(Element1, d, []), [Open], [PoundName("PCDATA")], PrintAlternatives(m.children), [Close(m.quant)]);
    assert [Open] + [PoundName("PCDATA")] == [Open, PoundName("PCDATA")];
  }

  lemma {:induction false} RunMixedParens(d: string, items: seq<Content>, q: Quant)
    requires q == Rep || (q == Once && items == [])
    ensures Run(Parsing(Element1, d, []), [Open]) == Parsing(Element2, d, [NEW_FRAME])
    ensures Run(Parsing(Element2, d, [NEW_FRAME]), [PoundName("PCDATA")]) == Parsing(Element3, d, [NEW_FRAME])
    ensures Run(Parsing(if items == [] then Element3 else Element5, d, [Frame(Unset, items)]), [Close(q)])
            == Complete(d, Content(MixedType, q, "", items))
  {
    RunOne(Parsing(Element1, d, []), Open);
    RunOne(Parsing(Element2, d, [NEW_FRAME]), PoundName("PCDATA"));
    RunOne(Parsing(if items == [] then Element3 else Element5, d, [Frame(Unset, items)]), Close(q));
  }

  // The first token after the outermost "(" is read by element2 as element6 reads it, PCDATA aside.
  lemma {:induction false} Element2Reads(d: string, tokens: seq<Token>)
    requires tokens != [] && (tokens[0] == Open || tokens[0].NameTok?)
    ensures Run(Parsing(Element2, d, [NEW_FRAME]), tokens) == Run(Parsing(Element6, d, [NEW_FRAME]), tokens)
  {
    var s2, s6 := Parsing(Element2, d, [NEW_FRAME]), Parsing(Element6, d, [NEW_FRAME]);
    RunOne(s2, tokens[0]);
    RunOne(s6, tokens[0]);
    assert [tokens[0]] + tokens[1..] == tokens;
    RunAppend(s2, [tokens[0]], tokens[1..]);
    RunAppend(s6, [tokens[0]], tokens[1..]);
  }

  predicate StartsParticle(tokens: seq<Token>) {
    tokens != [] && (tokens[0] == Open || tokens[0].NameTok?)
  }

  lemma {:induction false} LeadingStarts(items: seq<Content>, sep: Token)
    requires items != []
    ensures StartsParticle(PrintLeading(items, sep))
  {
    if |items| > 1 {
      LeadingStarts(items[..|items| - 1], sep);
    }
  }

  lemma {:induction false} RunOuterParens(d: string, f: Frame, q: Quant)
    ensures Run(Parsing(Element1, d, []), [Open]) == Parsing(Element2, d, [NEW_FRAME])
    ensures Run(Parsing(Element7, d, [f]), [Close(q)]) == Complete(d, GroupOf(f, q))
  {
    RunOne(Parsing(Element1, d, []), Open);
    RunOne(Parsing(Element7, d, [f]), Close(q));
  }

  // The outermost group of an element content model.
  lemma {:induction false} RunGroup(d: string, m: Content)
    requires IsParticle(m) && m.ctype != NameType
    ensures Run(Parsing(Element1, d, []), Print(m)) == Complete(d, m)
  {
    hide Step, Run;
    var n := |m.children|;
    var lead := PrintLeading(m.children[..n - 1], Separator(m.ctype));
    var last := Print(m.children[n - 1]);
    var f := Frame(LeadConn(m.children[..n - 1], m.ctype), m.children);
    RunOuterBody(d, m);
    RunOuterParens(d, f, m.quant);
    RunThree(Parsing(Element1, d, []), [Open], lead + last, [Close(m.quant)]);
    assert Print(m) == [Open] + (lead + last) + [Close(m.quant)];
  }

  lemma {:induction false} RunOuterBody(d: string, m: Content)
    requires IsParticle(m) && m.ctype != NameType
    ensures var n := |m.children|;
            var lead := PrintLeading(m.children[..n - 1], Separator(m.ctype));
            Run(Parsing(Element2, d, [NEW_FRAME]), lead + Print(m.children[n - 1]))
            == Parsing(Element7, d, [Frame(LeadConn(m.children[..n - 1], m.ctype), m.children)])
  {
    hide Step, Run;
    var n := |m.children|;
    var lead := PrintLeading(m.children[..n - 1], Separator(m.ctype));
    var last := Print(m.children[n - 1]);
    if n > 1 {
      LeadingStarts(m.children[..n - 1], Separator(m.ctype));
    }
    Element2Reads(d, lead + last);
    RunAppend(Parsing(Element6, d, [NEW_FRAME]), lead, last);
    RunItems(d, [], m);
    assert [] + [NEW_FRAME] == [NEW_FRAME];
    var f := Frame(LeadConn(m.children[..n - 1], m.ctype), m.children);
    assert [] + [f] == [f];
  }

  // ---------- accepted runs are printed models ----------

  // A frame between two steps: its items are particles, and it has a connector once it has had two items
  // or a separator (as all frames below the top have, and the top one when a particle is expected).
  predicate GoodFrame(f: Frame, separated: bool) {
    && (forall x | x in f.items :: IsParticle(x))
    && (f.conn == Unset <==> |f.items| <= (if separated then 0 else 1))
    && (f.conn == BarSep && !separated ==> |f.items| >= 2)
    && (!separated ==> f.items != [])
  }

  predicate GoodStack(stack: seq<Frame>, separated: bool) {
    && stack != []
    && GoodFrame(stack[|stack| - 1], separated)
    && forall i | 0 <= i < |stack| - 1 :: GoodFrame(stack[i], true)
  }

  function PrintFrame(f: Frame, separated: bool): seq<Token> {
    if separated || f.items == [] then [Open] + PrintLeading(f.items, SepOf(f.conn))
    else [Open] + PrintLeading(f.items[..|f.items| - 1], SepOf(f.conn)) + Print(f.items[|f.items| - 1])
  }

  function PrintStack(stack: seq<Frame>, separated: bool): seq<Token> {
    if stack == [] then []
    else PrintStack(stack[..|stack| - 1], true) + PrintFrame(stack[|stack| - 1], separated)
  }

  // What has been read, recovered from the state.
  function Consumed(s: State): seq<Token>
    requires !s.Failed?
  {
    match s
    case Complete(d, m) => [NameTok(d, Once)] + PrintModel(m)
    case Closed(d, m) => PrintDeclaration(d, m)
    case Parsing(h, d, st) =>
      match h
      case Element0 => []
      case Element1 => [NameTok(d, Once)]
      case Element2 => [NameTok(d, Once), Open]
      case Element3 => [NameTok(d, Once), Open, PoundName("PCDATA")]
      case Element4 =>
        [NameTok(d, Once), Open, PoundName("PCDATA")]
        + (if st == [] then [] else PrintAlternatives(st[0].items)) + [Bar]
      case Element5 =>
        [NameTok(d, Once), Open, PoundName("PCDATA")] + (if st == [] then [] else PrintAlternatives(st[0].items))
      case Element6 => [NameTok(d, Once)] + PrintStack(st, true)
      case Element7 => [NameTok(d, Once)] + PrintStack(st, false)
  }

  predicate Good(s: State) {
    match s
    case Failed(_) => true
    case Complete(_, m) => IsModel(m)
    case Closed(_, m) => IsModel(m)
    case Parsing(h, _, st) =>
      match h
      case Element4 => |st| == 1 && forall x | x in st[0].items :: IsPlainName(x)
      case Element5 => |st| == 1 && forall x | x in st[0].items :: IsPlainName(x)
      case Element6 => GoodStack(st, true)
      case Element7 => GoodStack(st, false)
      case _ => true
  }

  lemma {:induction false} PrintLeadingSep(items: seq<Content>, sep1: Token, sep2: Token)
    requires items == [] || sep1 == sep2
    ensures PrintLeading(items, sep1) == PrintLeading(items, sep2)
  {
  }

  // Reading a particle name.
  lemma {:induction false} ItemKeepsConsumed(d: string, st: seq<Frame>, c: Content)
    requires GoodStack(st, true) && IsParticle(c)
    ensures GoodStack(AddItem(st, c), false)
    ensures PrintStack(AddItem(st, c), false) == PrintStack(st, true) + Print(c)
  {
    var n := |st|;
    var top := st[n - 1];
    var top' := top.(items := top.items + [c]);
    assert AddItem(st, c)[..n - 1] == st[..n - 1];
    assert top'.items[..|top'.items| - 1] == top.items;
    assert PrintFrame(top', false) == PrintFrame(top, true) + Print(c);
  }

  lemma {:induction false} SeparatorKeepsConsumed(d: string, st: seq<Frame>, conn: Connector)
    requires GoodStack(st, false) && conn != Unset
    requires st[|st| - 1].conn == Unset || st[|st| - 1].conn == conn
    ensures GoodStack(SetConn(st, conn), true)
    ensures PrintStack(SetConn(st, conn), true) == PrintStack(st, false) + [SepOf(conn)]
  {
    var n := |st|;
    assert SetConn(st, conn)[..n - 1] == st[..n - 1];
    SeparatorKeepsFrame(st[n - 1], conn);
  }

  lemma {:induction false} SeparatorKeepsFrame(f: Frame, conn: Connector)
    requires GoodFrame(f, false) && conn != Unset && (f.conn == Unset || f.conn == conn)
    ensures PrintFrame(f.(conn := conn), true) == PrintFrame(f, false) + [SepOf(conn)]
  {
    var k := |f.items|;
    var items := f.items[..k - 1];
    PrintLeadingSep(items, SepOf(f.conn), SepOf(conn));
    assert PrintLeading(f.items, SepOf(conn)) == PrintLeading(items, SepOf(conn)) + Print(f.items[k - 1]) + [SepOf(conn)];
  }

  lemma {:induction false} OpenKeepsConsumed(d: string, st: seq<Frame>)
    requires GoodStack(st, true)
    ensures GoodStack(st + [NEW_FRAME], true)
    ensures PrintStack(st + [NEW_FRAME], true) == PrintStack(st, true) + [Open]
  {
    assert (st + [NEW_FRAME])[..|st|] == st;
  }

  lemma {:induction false} GroupPrints(f: Frame, q: Quant)
    requires GoodFrame(f, false)
    ensures IsParticle(GroupOf(f, q)) && Print(GroupOf(f, q)) == PrintFrame(f, false) + [Close(q)]
  {
    var n := |f.items|;
    PrintLeadingSep(f.items[..n - 1], SepOf(f.conn), Separator(GroupType(f.conn)));
  }

  lemma {:induction false} CloseKeepsConsumed(d: string, st: seq<Frame>, q: Quant)
    requires GoodStack(st, false) && |st| >= 2
    ensures var st' := AddItem(st[..|st| - 1], GroupOf(st[|st| - 1], q));
            GoodStack(st', false) && PrintStack(st', false) == PrintStack(st, false) + [Close(q)]
  {
    var n := |st|;
    GroupPrints(st[n - 1], q);
    ItemKeepsConsumed(d, st[..n - 1], GroupOf(st[n - 1], q));
  }

  lemma {:induction false} NewStackPrints()
    ensures GoodStack([NEW_FRAME], true) && PrintStack([NEW_FRAME], true) == [Open]
  {
    assert [NEW_FRAME][..0] == [];
  }

  // element2 and element6, where a particle may start
  lemma {:induction false} ItemStepKeepsConsumed(d: string, st: seq<Frame>, t: Token)
    requires GoodStack(st, true) && !ItemStep(d, st, t).Failed?
    ensures var r := ItemStep(d, st, t);
            Good(r) && Consumed(r) == [NameTok(d, Once)] + PrintStack(st, true) + [t]
  {
    if t == Open {
      OpenKeepsConsumed(d, st);
    } else {
      ItemKeepsConsumed(d, st, Leaf(t.name, t.quant));
    }
  }

  // element3, element4 and element5, in a mixed model
  lemma {:induction false} MixedStepKeepsConsumed(s: State, t: Token)
    requires Sane(s) && Good(s) && s.Parsing? && (s.handler == Element3 || s.handler == Element4 || s.handler == Element5)
    requires t != Space && !Step(s, t).Failed?
    ensures Good(Step(s, t)) && Consumed(Step(s, t)) == Consumed(s) + [t]
  {
    hide Print, PrintLeading, PrintStack, IsParticle, GoodStack, GoodFrame, ItemStep, GroupOf, SetConn, ErrorOf;
    if s.handler == Element4 {
      hide PrintAlternatives;
      var items := s.stack[0].items;
      AlternativesSnoc(items, t.name);
      assert AddItem(s.stack, Leaf(t.name, Once))[0].items == items + [Leaf(t.name, Once)];
    } else if s.handler == Element3 {
      assert t.Close? || t == Bar;
    } else {
      hide PrintAlternatives;
      assert t.Close? || t == Bar;
    }
  }

  lemma {:induction false} AlternativesSnoc(items: seq<Content>, name: string)
    ensures PrintAlternatives(items + [Leaf(name, Once)]) == PrintAlternatives(items) + [Bar, NameTok(name, Once)]
  {
    assert (items + [Leaf(name, Once)])[..|items|] == items;
  }

  // element7, after a particle
  lemma {:induction false} SepStepKeepsConsumed(s: State, t: Token)
    requires Sane(s) && Good(s) && s.Parsing? && s.handler == Element7
    requires t != Space && !Step(s, t).Failed?
    ensures Good(Step(s, t)) && Consumed(Step(s, t)) == Consumed(s) + [t]
  {
    hide PrintStack, IsParticle, GoodStack, GoodFrame, Print, PrintLeading, PrintFrame, PrintAlternatives;
    if t.Close? {
      if |s.stack| == 1 {
        OuterCloseKeepsConsumed(s.stack, t.quant);
      } else {
        CloseKeepsConsumed(s.decl, s.stack, t.quant);
      }
    } else {
      SeparatorKeepsConsumed(s.decl, s.stack, if t == Comma then CommaSep else BarSep);
    }
  }

  lemma {:induction false} OuterCloseKeepsConsumed(st: seq<Frame>, q: Quant)
    requires GoodStack(st, false) && |st| == 1
    ensures IsModel(GroupOf(st[0], q)) && PrintModel(GroupOf(st[0], q)) == PrintStack(st, false) + [Close(q)]
  {
    GroupPrints(st[0], q);
    assert st[..0] == [];
    assert PrintStack(st, false) == PrintFrame(st[0], false);
  }

  lemma {:induction false} StepKeepsConsumed(s: State, t: Token)
    requires Sane(s) && Good(s) && !s.Failed? && t != Space && !Step(s, t).Failed?
    ensures Good(Step(s, t)) && Consumed(Step(s, t)) == Consumed(s) + [t]
  {
    hide Print, PrintLeading, PrintFrame, PrintAlternatives, IsParticle, ItemStep;
    if s.Parsing? {
      match s.handler
      case Element2 =>
        NewStackPrints();
        if t != PoundName("PCDATA") {
          ItemStepKeepsConsumed(s.decl, s.stack, t);
        }
      case Element6 => ItemStepKeepsConsumed(s.decl, s.stack, t);
      case Element7 => SepStepKeepsConsumed(s, t);
      case Element0 =>
      case Element1 =>
      case _ => MixedStepKeepsConsumed(s, t);
    }
  }

  // At every point of an error-free run, the state determines what has been read.
  lemma {:induction false} RunConsumes(tokens: seq<Token>)
    ensures var s := Run(START, tokens);
            Good(s) && (!s.Failed? ==> Consumed(s) == Strip(tokens))
  {
    if tokens != [] {
      var front := tokens[..|tokens| - 1];
      RunConsumes(front);
      var s := Run(START, front);
      var t := tokens[|tokens| - 1];
      if t != Space && !s.Failed? && !Step(s, t).Failed? {
        StepKeepsConsumed(s, t);
      }
    }
  }

  lemma {:induction false} SpaceKeepsState(s: State)
    requires Sane(s)
    ensures Step(s, Space) == s
  {
  }

  lemma {:induction false} SpacesDoNotMatter(s: State, tokens: seq<Token>)
    requires Sane(s)
    ensures Run(s, tokens) == Run(s, Strip(tokens))
  {
    hide Step;
    if tokens != [] {
      var front := tokens[..|tokens| - 1];
      var t := tokens[|tokens| - 1];
      SpacesDoNotMatter(s, front);
      if t == Space {
        SpaceKeepsState(Run(s, front));
        assert Strip(tokens) == Strip(front);
      } else {
        RunAppend(s, Strip(front), [t]);
        RunOne(Run(s, Strip(front)), t);
      }
    }
  }

  /** The parser reads declaration `name` with model m to its end exactly on the printings of m, spaces aside. */
  lemma {:induction false} AcceptsExactlyPrintedModels(tokens: seq<Token>, name: string, m: Content)
    ensures Run(START, tokens) == Closed(name, m) <==> IsModel(m) && Strip(tokens) == PrintDeclaration(name, m)
  {
    if Run(START, tokens) == Closed(name, m) {
      RunConsumes(tokens);
    }
    if IsModel(m) && Strip(tokens) == PrintDeclaration(name, m) {
      SpacesDoNotMatter(START, tokens);
      var a := [NameTok(name, Once)];
      RunOne(START, a[0]);
      RunModel(name, m);
      RunAppend(START, a, PrintModel(m));
      RunOne(Complete(name, m), DeclClose);
      RunAppend(START, a + PrintModel(m), [DeclClose]);
    }
  }

  // A declaration that is over or in error stays so.
  lemma {:induction false} FinalStays(s: State, tokens: seq<Token>)
    requires s.Closed? || s.Failed?
    ensures Run(s, tokens) == s || (s.Closed? && Run(s, tokens).Failed?)
  {
    if tokens != [] {
      FinalStays(s, tokens[..|tokens| - 1]);
    }
  }

  /** Once the end of a declaration or an error has been reached, the rest cannot make another declaration of it. */
  lemma {:induction false} PrefixDecides(tokens: seq<Token>, n: nat, name: string, m: Content)
    requires n <= |tokens| && IsModel(m) && Strip(tokens) == PrintDeclaration(name, m)
    ensures !Run(START, tokens[..n]).Failed?
    ensures Run(START, tokens[..n]).Closed? ==> Run(START, tokens[..n]) == Closed(name, m)
  {
    AcceptsExactlyPrintedModels(tokens, name, m);
    assert tokens[..n] + tokens[n..] == tokens;
    RunAppend(START, tokens[..n], tokens[n..]);
    var s := Run(START, tokens[..n]);
    if s.Closed? || s.Failed? {
      FinalStays(s, tokens[n..]);
    }
  }

  /** The outer group is complete exactly when a declaration without its ">" has been read. */
  lemma {:induction false} CompletesExactlyPrintedModels(tokens: seq<Token>, name: string, m: Content)
    ensures Run(START, tokens) == Complete(name, m)
            <==> IsModel(m) && Strip(tokens) == [NameTok(name, Once)] + PrintModel(m)
  {
    if Run(START, tokens) == Complete(name, m) {
      RunConsumes(tokens);
    }
    if IsModel(m) && Strip(tokens) == [NameTok(name, Once)] + PrintModel(m) {
      SpacesDoNotMatter(START, tokens);
      RunOne(START, NameTok(name, Once));
      RunModel(name, m);
      RunAppend(START, [NameTok(name, Once)], PrintModel(m));
    }
  }

  /** Printing loses nothing: a token run is the declaration of at most one element and model. */
  lemma {:induction false} PrintingIsInjective(n1: string, m1: Content, n2: string, m2: Content)
    requires IsModel(m1) && IsModel(m2) && Strip(PrintDeclaration(n1, m1)) == Strip(PrintDeclaration(n2, m2))
    ensures n1 == n2 && m1 == m2
  {
    PrintHasNoSpace(m1);
    PrintHasNoSpace(m2);
    var p1, p2 := PrintDeclaration(n1, m1), PrintDeclaration(n2, m2);
    StripNoSpace(p1);
    StripNoSpace(p2);
    AcceptsExactlyPrintedModels(p1, n1, m1);
    AcceptsExactlyPrintedModels(p1, n2, m2);
  }

  lemma {:induction false} StripNoSpace(tokens: seq<Token>)
    requires Space !in tokens
    ensures Strip(tokens) == tokens
  {
    if tokens != [] {
      StripNoSpace(tokens[..|tokens| - 1]);
      assert tokens[..|tokens| - 1] + [tokens[|tokens| - 1]] == tokens;
    }
  }

  lemma {:induction false} ParticleHasNoSpace(c: Content)
    ensures Space !in Print(c)
    decreases c, 1
  {
    if c.ctype != NameType && c.children != [] {
      LeadingHasNoSpace(c.children[..|c.children| - 1], Separator(c.ctype));
      ParticleHasNoSpace(c.children[|c.children| - 1]);
    }
  }

  lemma {:induction false} LeadingHasNoSpace(items: seq<Content>, sep: Token)
    requires sep != Space
    ensures Space !in PrintLeading(items, sep)
    decreases items, 0
  {
    if items != [] {
      LeadingHasNoSpace(items[..|items| - 1], sep);
      ParticleHasNoSpace(items[|items| - 1]);
    }
  }

  lemma {:induction false} PrintHasNoSpace(m: Content)
    ensures Space !in PrintModel(m)
  {
    ParticleHasNoSpace(m);
    AlternativesHaveNoSpace(m.children);
  }

  lemma {:induction false} AlternativesHaveNoSpace(items: seq<Content>)
    ensures Space !in PrintAlternatives(items)
  {
    if items != [] {
      AlternativesHaveNoSpace(items[..|items| - 1]);
    }
  }
}
