/** The role machine for element declarations: element0 .. element7 and declClose, with the level counter that
    doProlog uses to index its per-group state. */
module PrologRole {
  import opened ContentModel

  datatype RoleHandler = InElement(handler: Handler) | DeclCloseHandler | TopLevel | ErrorHandler

  datatype Role =
    | ElementNone
    | ElementName
    | ContentAny
    | ContentEmpty
    | ContentPcdata
    | GroupOpen
    | GroupClose(quant: Quant)
    | GroupSequence
    | GroupChoice
    | ContentElement(quant: Quant)
    | ErrorRole

  datatype Reaction = Reaction(handler: RoleHandler, level: int, role: Role)

  // The reaction of the current handler to a token.
  function React(h: RoleHandler, level: int, t: Token): Reaction {
    match h
    case TopLevel => Reaction(h, level, ElementNone)
    case ErrorHandler => Reaction(h, level, ErrorRole)
    case DeclCloseHandler =>
      if t == Space then Reaction(h, level, ElementNone)
      else if t == DeclClose then Reaction(TopLevel, level, ElementNone)
      else Reaction(ErrorHandler, level, ErrorRole)
    case InElement(e) =>
      if t == Space then Reaction(h, level, ElementNone) else
      match e
      case Element0 =>
        if t.NameTok? && t.quant == Once then Reaction(InElement(Element1), level, ElementName) else ReactError(level)
      case Element1 =>
        if t == NameTok("EMPTY", Once) then Reaction(DeclCloseHandler, level, ContentEmpty)
        else if t == NameTok("ANY", Once) then Reaction(DeclCloseHandler, level, ContentAny)
        else if t == Open then Reaction(InElement(Element2), 1, GroupOpen)
        else ReactError(level)
      case Element2 =>
        if t == PoundName("PCDATA") then Reaction(InElement(Element3), level, ContentPcdata)
        else if t == Open then Reaction(InElement(Element6), 2, GroupOpen)
        else if t.NameTok? then Reaction(InElement(Element7), level, ContentElement(t.quant))
        else ReactError(level)
      case Element3 =>
        if t == Close(Once) || t == Close(Rep) then Reaction(DeclCloseHandler, level, GroupClose(t.quant))
        else if t == Bar then Reaction(InElement(Element4), level, ElementNone)
        else ReactError(level)
      case Element4 =>
        if t.NameTok? && t.quant == Once then Reaction(InElement(Element5), level, ContentElement(Once)) else ReactError(level)
      case Element5 =>
        if t == Close(Rep) then Reaction(DeclCloseHandler, level, GroupClose(Rep))
        else if t == Bar then Reaction(InElement(Element4), level, ElementNone)
        else ReactError(level)
      case Element6 =>
        if t == Open then Reaction(h, level + 1, GroupOpen)
        else if t.NameTok? then Reaction(InElement(Element7), level, ContentElement(t.quant))
        else ReactError(level)
      case Element7 =>
        if t.Close? then Reaction(if level == 1 then DeclCloseHandler else h, level - 1, GroupClose(t.quant))
        else if t == Comma then Reaction(InElement(Element6), level, GroupSequence)
        else if t == Bar then Reaction(InElement(Element6), level, GroupChoice)
        else ReactError(level)
  }

  function ReactError(level: int): Reaction {
    Reaction(ErrorHandler, level, ErrorRole)
  }

  // The part of PROLOG_STATE that element declarations use.
  class PrologState {
    var handler: RoleHandler
    var level: int

    constructor ()
      ensures handler == InElement(Element0) && level == 0
    {
      handler := InElement(Element0);
      level := 0;
    }

    // XmlTokenRole
    method TokenRole(t: Token) returns (role: Role)
      modifies this
      ensures Reaction(handler, level, role) == React(old(handler), old(level), t)
    {
      match handler {
        case TopLevel => role := ElementNone;
        case ErrorHandler => role := ErrorRole;
        case DeclCloseHandler =>
          if t == Space {
            role := ElementNone;
          } else if t == DeclClose {
            handler := TopLevel;
            role := ElementNone;
          } else {
            role := Common();
          }
        case InElement(e) =>
          if t == Space {
            role := ElementNone;
          } else if e == Element0 || e == Element1 {
            role := BeforeContent(e, t);
          } else if e == Element2 || e == Element6 || e == Element7 {
            role := InGroup(e, t);
          } else {
            role := InMixed(e, t);
          }
      }
    }

    // element0 and element1
    method BeforeContent(e: Handler, t: Token) returns (role: Role)
      requires handler == InElement(e) && (e == Element0 || e == Element1) && t != Space
      modifies this
      ensures Reaction(handler, level, role) == React(old(handler), old(level), t)
    {
      if e == Element0 && t.NameTok? && t.quant == Once {
        handler := InElement(Element1);
        role := ElementName;
      } else if e == Element1 && t == NameTok("EMPTY", Once) {
        handler := DeclCloseHandler;
        role := ContentEmpty;
      } else if e == Element1 && t == NameTok("ANY", Once) {
        handler := DeclCloseHandler;
        role := ContentAny;
      } else if e == Element1 && t == Open {
        handler := InElement(Element2);
        level := 1;
        role := GroupOpen;
      } else {
        role := Common();
      }
    }

    // element3, element4 and element5
    method InMixed(e: Handler, t: Token) returns (role: Role)
      requires handler == InElement(e) && (e == Element3 || e == Element4 || e == Element5) && t != Space
      modifies this
      ensures Reaction(handler, level, role) == React(old(handler), old(level), t)
    {
      if e == Element4 {
        if t.NameTok? && t.quant == Once {
          handler := InElement(Element5);
          role := ContentElement(Once);
        } else {
          role := Common();
        }
      } else if t == Close(Rep) || (e == Element3 && t == Close(Once)) {
        handler := DeclCloseHandler;
        role := GroupClose(t.quant);
      } else if t == Bar {
        handler := InElement(Element4);
        role := ElementNone;
      } else {
        role := Common();
      }
    }

    // element2, element6 and element7
    method InGroup(e: Handler, t: Token) returns (role: Role)
      requires handler == InElement(e) && (e == Element2 || e == Element6 || e == Element7) && t != Space
      modifies this
      ensures Reaction(handler, level, role) == React(old(handler), old(level), t)
    {
      if e == Element7 {
        if t.Close? {
          level := level - 1;
          if level == 0 {
            handler := DeclCloseHandler;
          }
          role := GroupClose(t.quant);
        } else if t == Comma || t == Bar {
          handler := InElement(Element6);
          role := if t == Comma then GroupSequence else GroupChoice;
        } else {
          role := Common();
        }
      } else if e == Element2 && t == PoundName("PCDATA") {
        handler := InElement(Element3);
        role := ContentPcdata;
      } else if t == Open {
        level := if e == Element2 then 2 else level + 1;
        handler := InElement(Element6);
        role := GroupOpen;
      } else if t.NameTok? {
        handler := InElement(Element7);
        role := ContentElement(t.quant);
      } else {
        role := Common();
      }
    }

    // common: with no parameter entities in the internal subset, every other token is an error
    method Common() returns (role: Role)
      modifies this`handler
      ensures handler == ErrorHandler && role == ErrorRole
    {
      handler := ErrorHandler;
      role := ErrorRole;
    }
  }

  // ---------- the level counter ----------

  // The role machine is where the specification parser is.  level counts the open groups, but at the end of a
  // mixed model, whose closing parenthesis leaves it at 1, and after EMPTY or ANY, which never set it.
  predicate Tracks(s: State, h: RoleHandler, level: int, before: int) {
    match s
    case Parsing(e, _, st) => h == InElement(e) && level == (if st == [] then before else |st|)
    case Complete(_, m) =>
      && h == DeclCloseHandler
      && level == (match m.ctype case MixedType => 1 case EmptyType => before case AnyType => before case _ => 0)
    case Closed(_, _) => h == TopLevel
    case Failed(_) => true
  }

  // The other separator than the one its group already has: only doProlog refuses it, which keeps the connectors.
  predicate MixesSeparators(s: State, t: Token) {
    && s.Parsing? && s.handler == Element7 && s.stack != []
    && (t == Comma || t == Bar)
    && s.stack[|s.stack| - 1].conn == (if t == Comma then BarSep else CommaSep)
  }

  lemma {:induction false} ReactFollowsStep(s: State, h: RoleHandler, level: int, before: int, t: Token)
    requires Sane(s) && Tracks(s, h, level, before)
    ensures var r := React(h, level, t);
            Tracks(Step(s, t), r.handler, r.level, before)
    ensures var r := React(h, level, t);
            && (s.Parsing? || s.Complete?) && r.role == ErrorRole ==> Step(s, t) == Failed(ErrorOf(t))
    ensures var r := React(h, level, t);
            s.Parsing? || s.Complete? ==> (Step(s, t).Failed? <==> r.role == ErrorRole || MixesSeparators(s, t))
    ensures MixesSeparators(s, t) ==> React(h, level, t).role == if t == Comma then GroupSequence else GroupChoice
  {
    if s.Parsing? && s.stack != [] {
      ReactFollowsGroup(s, level, before, t);
    }
  }

  lemma {:induction false} ReactFollowsGroup(s: State, level: int, before: int, t: Token)
    requires Sane(s) && s.Parsing? && s.stack != [] && level == |s.stack|
    ensures var r := React(InElement(s.handler), level, t);
            && Tracks(Step(s, t), r.handler, r.level, before)
            && (r.role == ErrorRole ==> Step(s, t) == Failed(ErrorOf(t)))
            && (Step(s, t).Failed? <==> r.role == ErrorRole || MixesSeparators(s, t))
  {
    match s.handler
    case Element2 =>
    case Element3 =>
    case Element4 =>
    case Element5 =>
    case Element6 =>
    case Element7 =>
    case _ =>
  }

  predicate InMixedModel(h: Handler) {
    h == Element3 || h == Element4 || h == Element5
  }

  // What the roles outside groups mean for the specification parser, which goes from s to s' on t.
  predicate RoleMeans(role: Role, s: State, t: Token, s': State) {
    match role
    case ErrorRole => s' == Failed(ErrorOf(t))
    case ElementNone =>
      if s.Complete? then s' == s || s' == Closed(s.decl, s.model)
      else && s.Parsing? && s'.Parsing? && s'.decl == s.decl && s'.stack == s.stack
           && InMixedModel(s'.handler) == InMixedModel(s.handler)
           && (s' == s || s.stack != [])
    case ElementName => s.Parsing? && s.handler == Element0 && s.stack == [] && t.NameTok? && s' == Parsing(Element1, t.name, [])
    case ContentEmpty => s.Parsing? && s.handler == Element1 && s.stack == [] && s' == Complete(s.decl, Content(EmptyType, Once, "", []))
    case ContentAny => s.Parsing? && s.handler == Element1 && s.stack == [] && s' == Complete(s.decl, Content(AnyType, Once, "", []))
    case ContentPcdata => s.Parsing? && s.handler == Element2 && s.stack == [NEW_FRAME] && s' == Parsing(Element3, s.decl, s.stack)
    case _ => s.Parsing?
  }

  // The same for the roles that concern groups; level is the counter after the token.
  predicate GroupRoleMeans(role: Role, level: int, s: State, t: Token, s': State)
    requires s.Parsing?
  {
    match role
    case GroupOpen =>
      && level == |s.stack| + 1
      && (if s.stack == [] then s.handler == Element1 else !InMixedModel(s.handler) && s.handler != Element0)
      && s'.Parsing? && s'.decl == s.decl && s'.stack == s.stack + [NEW_FRAME] && !InMixedModel(s'.handler)
    case ContentElement(q) =>
      && s.stack != [] && s.handler != Element0 && t.NameTok? && t.quant == q
      && s'.Parsing? && s'.decl == s.decl && s'.stack == AddItem(s.stack, Leaf(t.name, q))
      && InMixedModel(s'.handler) == InMixedModel(s.handler)
    case GroupSequence =>
      && s.handler == Element7 && s.stack != [] && level == |s.stack|
      && s' == (if s.stack[|s.stack| - 1].conn == BarSep then Failed(SyntaxError)
                else Parsing(Element6, s.decl, SetConn(s.stack, CommaSep)))
    case GroupChoice =>
      && s.handler == Element7 && s.stack != [] && level == |s.stack|
      && s' == (if s.stack[|s.stack| - 1].conn == CommaSep then Failed(SyntaxError)
                else Parsing(Element6, s.decl, SetConn(s.stack, BarSep)))
    case GroupClose(q) =>
      && s.stack != [] && (InMixedModel(s.handler) || s.handler == Element7)
      && (InMixedModel(s.handler) ==> |s.stack| == 1)
      && s' == (if InMixedModel(s.handler) then Complete(s.decl, Content(MixedType, q, "", s.stack[0].items))
                else if |s.stack| == 1 then Complete(s.decl, GroupOf(s.stack[0], q))
                else Parsing(Element7, s.decl, AddItem(s.stack[..|s.stack| - 1], GroupOf(s.stack[|s.stack| - 1], q))))
    case _ => true
  }

  lemma {:induction false} RoleMeaning(s: State, h: RoleHandler, level: int, before: int, t: Token)
    requires Sane(s) && Tracks(s, h, level, before) && (s.Parsing? || s.Complete?)
    ensures RoleMeans(React(h, level, t).role, s, t, Step(s, t))
  {
    if s.Parsing? {
      match s.handler
      case Element0 =>
      case Element1 =>
      case Element2 =>
      case Element3 =>
      case Element4 =>
      case Element5 =>
      case Element6 =>
      case Element7 =>
    }
  }

  lemma {:induction false} GroupRoleMeaning(s: State, h: RoleHandler, level: int, before: int, t: Token)
    requires Sane(s) && s.Parsing? && Tracks(s, h, level, before)
    ensures var r := React(h, level, t); GroupRoleMeans(r.role, r.level, s, t, Step(s, t))
  {
    match s.handler
    case Element0 =>
    case Element1 =>
    case Element2 =>
    case Element3 =>
    case Element4 =>
    case Element5 =>
    case Element6 =>
    case Element7 =>
  }

  function RoleRun(before: int, tokens: seq<Token>): Reaction {
    if tokens == [] then Reaction(InElement(Element0), before, ElementNone)
    else
      var r := RoleRun(before, tokens[..|tokens| - 1]);
      React(r.handler, r.level, tokens[|tokens| - 1])
  }

  /** After every token of a declaration that is still without error, level equals the number of open groups
      (doProlog's scaffLevel) once a group has been opened, except that closing a mixed model leaves it at 1. */
  lemma {:induction false} LevelCountsOpenGroups(before: int, tokens: seq<Token>)
    ensures var r := RoleRun(before, tokens);
            Tracks(Run(START, tokens), r.handler, r.level, before)
  {
    if tokens != [] {
      var front := tokens[..|tokens| - 1];
      LevelCountsOpenGroups(before, front);
      var r := RoleRun(before, front);
      ReactFollowsStep(Run(START, front), r.handler, r.level, before, tokens[|tokens| - 1]);
    }
  }

  /** So level and scaffLevel differ at the end of the outer group exactly for mixed models. */
  lemma {:induction false} LevelAtTheEnd(before: int, tokens: seq<Token>, name: string, m: Content)
    requires Strip(tokens) == [NameTok(name, Once)] + PrintModel(m) && IsModel(m)
    requires m.ctype != EmptyType && m.ctype != AnyType
    ensures RoleRun(before, tokens).handler == DeclCloseHandler
    ensures RoleRun(before, tokens).level == 0 <==> m.ctype != MixedType
  {
    CompletesExactlyPrintedModels(tokens, name, m);
    LevelCountsOpenGroups(before, tokens);
  }
}
