/** What content means: references replaced by the text of their entities, the tokens are read one after another from
    left to right.  The recursive definition of DoContent says the same, events and errors included. */
module ContentMeaning {
  import opened DoContent
  import opened OpenEntities
  import opened Options

  // Content with its references replaced.  An entity's text stands between Opens and Closes, and last says that nothing
  // follows the reference in the text it stands in; other references are told to the application or forbidden.
  datatype Piece =
    | Plainly(t: Token)
    | Told(event: Event)
    | Forbidden(error: Error)
    | Opens(last: bool)
    | Closes

  // A token that may go on in what has not arrived yet is put off; otherwise it is the last one.
  function Replaced(dtd: Dtd, path: set<string>, inner: bool, more: bool, tokens: seq<Token>): seq<Piece>
    decreases |dtd.entities.Keys - path|, |tokens|
  {
    if tokens == [] then Finally(inner)
    else if tokens[0].EntityRef? then
      match Resolve(dtd, path, tokens[0].name)
      case Passed(event) => [Told(event)] + Replaced(dtd, path, inner, more, tokens[1..])
      case Refused(e) => [Forbidden(e)] + Replaced(dtd, path, inner, more, tokens[1..])
      case Enters(text) =>
        PathGrows(dtd.entities, path, tokens[0].name);
        [Opens(tokens[1..] == [])] + Replaced(dtd, path + {tokens[0].name}, true, false, text)
        + Replaced(dtd, path, inner, more, tokens[1..])
    else if Incomplete(tokens[0]) then (if more then [] else [Plainly(tokens[0])] + Finally(inner))
    else [Plainly(tokens[0])] + Replaced(dtd, path, inner, more, tokens[1..])
  }

  function Finally(inner: bool): seq<Piece> {
    if inner then [Closes] else []
  }

  // What an application is shown: character by character the character data, and everything else as it is reported.
  datatype Item = Char(c: char) | Mark(event: Event)

  function Chars(s: string): seq<Item> {
    seq(|s|, i requires 0 <= i < |s| => Char(s[i]))
  }

  function ShownBy(e: Event): seq<Item> {
    if e.Text? then Chars(e.text) else [Mark(e)]
  }

  function Trace(events: seq<Event>): seq<Item> {
    if events == [] then [] else Trace(events[..|events| - 1]) + ShownBy(events[|events| - 1])
  }

  // What a piece says: the end of a line is one line feed, a character reference the character it names, a CDATA
  // section its text between two marks, an empty tag a start and an end.
  function Says(p: Piece): seq<Item> {
    match p
    case Told(event) => ShownBy(event)
    case Plainly(t) =>
      if t.DataChars? || t.TrailingRsqb? then Chars(t.text)
      else if t.DataNewline? || t.TrailingCr? then Chars("\n")
      else if t.CharRef? then Chars(t.encoded)
      else if t.Predefined? then Chars([t.ch])
      else if t.CdataSection? then [Mark(StartCdata)] + Chars(t.text) + [Mark(EndCdata)]
      else if t.Comment? then [Mark(CommentText(t.text))]
      else if t.ProcessingInstruction? then [Mark(Instruction(t.text))]
      else if t.StartTag? then [Mark(Start(t.name))]
      else if t.EndTag? then [Mark(End(t.name))]
      else if t.EmptyTag? then [Mark(Start(t.name)), Mark(End(t.name))]
      else []
    case _ => []
  }

  datatype Move = Goes(tags: seq<string>, bases: seq<nat>) | RootCloses | Errs(error: Error)

  function Base(bases: seq<nat>): nat {
    if bases == [] then 0 else bases[|bases| - 1]
  }

  // What a piece does to the open tags; bases holds the levels at which the texts being read began.  An end tag ends
  // the innermost element, which must have its name and have begun in the same text; a text ends at the level it began.
  function MoveBy(hasty: bool, p: Piece, tags: seq<string>, bases: seq<nat>): Move {
    match p
    case Forbidden(e) => Errs(e)
    case Told(_) => Goes(tags, bases)
    case Opens(last) =>
      if hasty && last && Base(bases) > 0 && |tags| != Base(bases) then Errs(AsyncEntity)
      else Goes(tags, bases + [|tags|])
    case Closes =>
      if |tags| != Base(bases) || bases == [] then Errs(AsyncEntity) else Goes(tags, bases[..|bases| - 1])
    case Plainly(t) =>
      if t.StartTag? then Goes(tags + [t.name], bases)
      else if t.EmptyTag? then (if tags == [] then RootCloses else Goes(tags, bases))
      else if t.EndTag? then
        if |tags| <= Base(bases) then Errs(AsyncEntity)
        else if tags[|tags| - 1] != t.name then Errs(TagMismatch)
        else if |tags| == 1 then RootCloses
        else Goes(tags[..|tags| - 1], bases)
      else match FaultOf(t)
        case Some(e) => Errs(e)
        case None => Goes(tags, bases)
  }

  function FaultOf(t: Token): Option<Error> {
    if t.CharRef? && t.code < 0 then Some(BadCharRef)
    else if t.XmlDecl? then Some(MisplacedXmlPi)
    else if t.Invalid? then Some(InvalidToken)
    else if t.Partial? then Some(UnclosedToken)
    else if t.PartialChar? then Some(PartialCharacter)
    else None
  }

  // All is read and these tags are open; the root element has ended, with left still unread; or there is an error.
  datatype End = Reached(tags: seq<string>) | Over(left: seq<Piece>) | Wrong(error: Error)

  datatype Story = Story(shown: seq<Item>, end: End)

  // The pieces one after another.
  function Read(hasty: bool, pieces: seq<Piece>, tags: seq<string>, bases: seq<nat>, shown: seq<Item>): Story {
    if pieces == [] then Story(shown, Reached(tags))
    else
      match MoveBy(hasty, pieces[0], tags, bases)
      case Errs(e) => Story(shown, Wrong(e))
      case RootCloses => Story(shown + Says(pieces[0]), Over(pieces[1..]))
      case Goes(tags', bases') => Read(hasty, pieces[1..], tags', bases', shown + Says(pieces[0]))
  }

  lemma {:induction false} ReadFirst(hasty: bool, p: Piece, rest: seq<Piece>, tags: seq<string>, bases: seq<nat>,
                                     shown: seq<Item>)
    ensures Read(hasty, [p] + rest, tags, bases, shown)
            == match MoveBy(hasty, p, tags, bases)
               case Errs(e) => Story(shown, Wrong(e))
               case RootCloses => Story(shown + Says(p), Over(rest))
               case Goes(tags', bases') => Read(hasty, rest, tags', bases', shown + Says(p))
  {
    hide MoveBy, Says;
    assert ([p] + rest)[0] == p && ([p] + rest)[1..] == rest;
  }

  lemma {:induction false} TraceMore(events: seq<Event>, e: Event)
    ensures Trace(events + [e]) == Trace(events) + ShownBy(e)
  {
    hide ShownBy;
    assert (events + [e])[..|events|] == events;
  }

  lemma {:induction false} TraceTwo(events: seq<Event>, a: Event, b: Event)
    ensures Trace(events + [a, b]) == Trace(events) + (ShownBy(a) + ShownBy(b))
  {
    hide Trace, ShownBy;
    TraceMore(events, a);
    TraceMore(events + [a], b);
    assert events + [a, b] == events + [a] + [b];
  }

  lemma {:induction false} TraceThree(events: seq<Event>, a: Event, b: Event, c: Event)
    ensures Trace(events + [a, b, c]) == Trace(events) + (ShownBy(a) + ShownBy(b) + ShownBy(c))
  {
    hide Trace, ShownBy;
    TraceTwo(events, a, b);
    TraceMore(events + [a, b], c);
    assert events + [a, b, c] == events + [a, b] + [c];
  }

  // What a run comes to, when rest is still to be read behind a text that is done.
  ghost predicate Tells(hasty: bool, r: Outcome, story: Story, rest: seq<Piece>, bases: seq<nat>) {
    match r
    case Done(tags, events) => story == Read(hasty, rest, tags, bases, Trace(events))
    case Ended(_, events) => story == Story(Trace(events), Over(rest))
    case Failed(e, events, _) => story == Story(Trace(events), Wrong(e))
  }

  // One token that is complete.
  lemma {:induction false} PlainTells(hasty: bool, base: nat, more: bool, t: Token, left: seq<Token>, rest: seq<Piece>,
                                      tags: seq<string>, bases: seq<nat>, events: seq<Event>)
    requires base <= |tags| && !t.EntityRef? && !Incomplete(t) && Base(bases) == base
    ensures Tells(hasty, Plain(base, more, t, left, tags, events),
                  Read(hasty, [Plainly(t)] + rest, tags, bases, Trace(events)), rest, bases)
    ensures var r := Plain(base, more, t, left, tags, events);
            r.Ended? ==> r.rest == left
  {
    hide Trace, Read;
    ReadFirst(hasty, Plainly(t), rest, tags, bases, Trace(events));
    match t {
      case StartTag(name) => TraceMore(events, Start(name));
      case EmptyTag(name) =>
        TraceTwo(events, Start(name), End(name));
        assert ShownBy(Start(name)) + ShownBy(End(name)) == Says(Plainly(t));
      case EndTag(name) => TraceMore(events, End(name));
      case Predefined(ch) => TraceMore(events, Text([ch]));
      case CharRef(code, encoded) => TraceMore(events, Text(encoded));
      case DataChars(text) => TraceMore(events, Text(text));
      case DataNewline => TraceMore(events, Text("\n"));
      case CdataSection(text) => TraceThree(events, StartCdata, Text(text), EndCdata);
      case Comment(text) => TraceMore(events, CommentText(text));
      case ProcessingInstruction(text) => TraceMore(events, Instruction(text));
      case _ =>
    }
  }

  // One token that is the last.
  lemma {:induction false} LastTells(hasty: bool, base: nat, t: Token, left: seq<Token>, rest: seq<Piece>,
                                     tags: seq<string>, bases: seq<nat>, events: seq<Event>)
    requires 0 < base <= |tags| && Incomplete(t)
    ensures Tells(hasty, Plain(base, false, t, left, tags, events),
                  Read(hasty, [Plainly(t), Closes] + rest, tags, bases + [base], Trace(events)), rest, bases)
  {
    hide Trace, Read;
    assert [Plainly(t), Closes] + rest == [Plainly(t)] + ([Closes] + rest);
    ReadFirst(hasty, Plainly(t), [Closes] + rest, tags, bases + [base], Trace(events));
    if t.TrailingCr? {
      TraceMore(events, Text("\n"));
      EndTells(hasty, base, rest, tags, bases, events + [Text("\n")]);
    } else if t.TrailingRsqb? {
      TraceMore(events, Text(t.text));
      EndTells(hasty, base, rest, tags, bases, events + [Text(t.text)]);
    }
  }

  lemma {:induction false} EndTells(hasty: bool, base: nat, rest: seq<Piece>, tags: seq<string>, bases: seq<nat>,
                                    events: seq<Event>)
    requires 0 < base <= |tags|
    ensures Tells(hasty, Finish(base, tags, events),
                  Read(hasty, [Closes] + rest, tags, bases + [base], Trace(events)), rest, bases)
  {
    hide Trace, Read;
    ReadFirst(hasty, Closes, rest, tags, bases + [base], Trace(events));
    assert (bases + [base])[..|bases|] == bases;
    assert Trace(events) + [] == Trace(events);
  }

  // The text of an entity, from tokens on, and then rest.
  lemma {:induction false} TextTells(dtd: Dtd, hasty: bool, path: set<string>, base: nat, tokens: seq<Token>,
                                     rest: seq<Piece>, tags: seq<string>, bases: seq<nat>, events: seq<Event>)
    requires 0 < base <= |tags|
    ensures Tells(hasty, Inline(dtd, hasty, path, base, false, tokens, tags, events),
                  Read(hasty, Replaced(dtd, path, true, false, tokens) + rest, tags, bases + [base], Trace(events)),
                  rest, bases)
    decreases |dtd.entities.Keys - path|, |tokens|, 0
  {
    hide Plain, Enter, Read, Trace, MoveBy, Says, Tells;
    if tokens == [] {
      EndTells(hasty, base, rest, tags, bases, events);
    } else if tokens[0].EntityRef? {
      var name, left := tokens[0].name, tokens[1..];
      var after := Replaced(dtd, path, true, false, left) + rest;
      match Resolve(dtd, path, name)
      case Passed(event) =>
        ToldTells(hasty, event, after, tags, bases + [base], events);
        assert Replaced(dtd, path, true, false, tokens) + rest == [Told(event)] + after;
        TextTells(dtd, hasty, path, base, left, rest, tags, bases, events + [event]);
      case Refused(e) =>
        RefusedTells(hasty, e, after, tags, bases + [base], events, rest, bases);
        assert Replaced(dtd, path, true, false, tokens) + rest == [Forbidden(e)] + after;
      case Enters(text) =>
        assert Replaced(dtd, path, true, false, tokens) + rest
            == [Opens(left == [])] + Replaced(dtd, path + {name}, true, false, text) + after;
        EnterTells(dtd, hasty, path, base, name, left, rest, tags, bases, events);
    } else if Incomplete(tokens[0]) {
      assert [Plainly(tokens[0])] + [Closes] + rest == [Plainly(tokens[0]), Closes] + rest;
      LastTells(hasty, base, tokens[0], tokens[1..], rest, tags, bases, events);
    } else {
      var after := Replaced(dtd, path, true, false, tokens[1..]) + rest;
      assert Replaced(dtd, path, true, false, tokens) + rest == [Plainly(tokens[0])] + after;
      PlainTells(hasty, base, false, tokens[0], tokens[1..], after, tags, bases + [base], events);
      var r := Plain(base, false, tokens[0], tokens[1..], tags, events);
      if r.Done? {
        TextTells(dtd, hasty, path, base, tokens[1..], rest, r.tags, bases, r.events);
        DoneTells(hasty, r, Read(hasty, [Plainly(tokens[0])] + after, tags, bases + [base], Trace(events)), after,
                  bases + [base]);
      } else {
        NotDoneTells(hasty, r, Read(hasty, [Plainly(tokens[0])] + after, tags, bases + [base], Trace(events)), after,
                     bases + [base], rest, bases);
      }
    }
  }

  lemma {:induction false} DoneTells(hasty: bool, r: Outcome, story: Story, rest: seq<Piece>, bases: seq<nat>)
    requires r.Done? && Tells(hasty, r, story, rest, bases)
    ensures story == Read(hasty, rest, r.tags, bases, Trace(r.events))
  {
  }

  lemma {:induction false} NotDoneTells(hasty: bool, r: Outcome, story: Story, after: seq<Piece>, inner: seq<nat>,
                                        rest: seq<Piece>, bases: seq<nat>)
    requires r.Failed? && Tells(hasty, r, story, after, inner)
    ensures Tells(hasty, r, story, rest, bases)
  {
  }

  lemma {:induction false} RefusedTells(hasty: bool, e: Error, after: seq<Piece>, tags: seq<string>, inner: seq<nat>,
                                        events: seq<Event>, rest: seq<Piece>, bases: seq<nat>)
    ensures Tells(hasty, Failed(e, events, None), Read(hasty, [Forbidden(e)] + after, tags, inner, Trace(events)), rest,
                  bases)
  {
    ForbiddenTells(hasty, e, after, tags, inner, Trace(events));
  }

  // The text of name, what follows the reference, and then rest.
  lemma {:induction false} EnterTells(dtd: Dtd, hasty: bool, path: set<string>, base: nat, name: string,
                                      left: seq<Token>, rest: seq<Piece>, tags: seq<string>, bases: seq<nat>,
                                      events: seq<Event>)
    requires 0 < base <= |tags| && Resolve(dtd, path, name).Enters?
    ensures Tells(hasty, Enter(dtd, hasty, path, base, false, name, left, tags, events),
                  Read(hasty, [Opens(left == [])]
                              + Replaced(dtd, path + {name}, true, false, Resolve(dtd, path, name).text)
                              + (Replaced(dtd, path, true, false, left) + rest), tags, bases + [base], Trace(events)),
                  rest, bases)
    decreases |dtd.entities.Keys - path|, |left|, 1
  {
    hide Inline, Replaced, Read, Trace;
    PathGrows(dtd.entities, path, name);
    var text := Resolve(dtd, path, name).text;
    var after := Replaced(dtd, path, true, false, left) + rest;
    var inside := Replaced(dtd, path + {name}, true, false, text);
    assert [Opens(left == [])] + inside + after == [Opens(left == [])] + (inside + after);
    OpensTells(hasty, left == [], inside + after, tags, bases + [base], Trace(events));
    if !(hasty && TooEarly(base, left, tags)) {
      TextTells(dtd, hasty, path + {name}, |tags|, text, after, tags, bases + [base], events);
      var inner := Inline(dtd, hasty, path + {name}, |tags|, false, text, tags, events);
      if inner.Done? {
        TextTells(dtd, hasty, path, base, left, rest, inner.tags, bases, inner.events);
      }
    }
  }

  lemma {:induction false} ToldTells(hasty: bool, event: Event, rest: seq<Piece>, tags: seq<string>, bases: seq<nat>,
                                     events: seq<Event>)
    ensures Read(hasty, [Told(event)] + rest, tags, bases, Trace(events))
            == Read(hasty, rest, tags, bases, Trace(events + [event]))
  {
    hide Trace, Read;
    ReadFirst(hasty, Told(event), rest, tags, bases, Trace(events));
    TraceMore(events, event);
  }

  lemma {:induction false} ForbiddenTells(hasty: bool, e: Error, rest: seq<Piece>, tags: seq<string>,
                                          bases: seq<nat>, shown: seq<Item>)
    ensures Read(hasty, [Forbidden(e)] + rest, tags, bases, shown) == Story(shown, Wrong(e))
  {
    hide Read;
    ReadFirst(hasty, Forbidden(e), rest, tags, bases, shown);
  }

  lemma {:induction false} OpensTells(hasty: bool, last: bool, rest: seq<Piece>, tags: seq<string>, bases: seq<nat>,
                                      shown: seq<Item>)
    ensures Read(hasty, [Opens(last)] + rest, tags, bases, shown)
            == if hasty && last && Base(bases) > 0 && |tags| != Base(bases) then Story(shown, Wrong(AsyncEntity))
               else Read(hasty, rest, tags, bases + [|tags|], shown)
  {
    hide Read;
    ReadFirst(hasty, Opens(last), rest, tags, bases, shown);
    assert shown + [] == shown;
  }

  // The story of a run of the document.
  function StoryOf(dtd: Dtd, more: bool, r: Outcome): Story {
    match r
    case Done(tags, events) => Story(Trace(events), Reached(tags))
    case Ended(left, events) => Story(Trace(events), Over(Replaced(dtd, {}, false, more, left)))
    case Failed(e, events, _) => Story(Trace(events), Wrong(e))
  }

  // At the end of the document the root element is missing or open.
  function AtEnd(more: bool, story: Story): Story {
    if !more && story.end.Reached? then Story(story.shown, Wrong(NoElements)) else story
  }

  /** A document is what its pieces say, read from left to right: the same character data and the same marks in the same
      order, and the same end: the tags still open, the end of the root element, or the same error. */
  lemma {:induction false} DocumentTells(dtd: Dtd, hasty: bool, more: bool, tokens: seq<Token>, tags: seq<string>,
                                         events: seq<Event>)
    requires Begun(tokens, tags, events)
    ensures StoryOf(dtd, more, Inline(dtd, hasty, {}, 0, more, tokens, tags, events))
            == AtEnd(more, Read(hasty, Replaced(dtd, {}, false, more, tokens), tags, [0], Trace(events)))
    decreases |tokens|
  {
    hide Plain, Read, Trace, MoveBy, Says;
    if tokens == [] {
      NothingTells(hasty, tags, [0], Trace(events));
    } else if tokens[0].EntityRef? {
      var name, left := tokens[0].name, tokens[1..];
      var after := Replaced(dtd, {}, false, more, left);
      match Resolve(dtd, {}, name)
      case Passed(event) =>
        ToldTells(hasty, event, after, tags, [0], events);
        DocumentTells(dtd, hasty, more, left, tags, events + [event]);
      case Refused(e) => ForbiddenTells(hasty, e, after, tags, [0], Trace(events));
      case Enters(text) =>
        var inside := Replaced(dtd, {} + {name}, true, false, text);
        assert [Opens(left == [])] + inside + after == [Opens(left == [])] + (inside + after);
        OpensTells(hasty, left == [], inside + after, tags, [0], Trace(events));
        TextTells(dtd, hasty, {} + {name}, |tags|, text, after, tags, [0], events);
        var inner := Inline(dtd, hasty, {} + {name}, |tags|, false, text, tags, events);
        if inner.Done? {
          DocumentTells(dtd, hasty, more, left, inner.tags, inner.events);
        }
    } else if Incomplete(tokens[0]) {
      if more {
        NothingTells(hasty, tags, [0], Trace(events));
      } else {
        DocumentEnds(dtd, hasty, tokens[0], tokens[1..], tags, events);
      }
    } else {
      var after := Replaced(dtd, {}, false, more, tokens[1..]);
      PlainTells(hasty, 0, more, tokens[0], tokens[1..], after, tags, [0], events);
      var r := Plain(0, more, tokens[0], tokens[1..], tags, events);
      if r.Done? {
        assert [tokens[0]] + tokens[1..] == tokens;
        PlainBegins(0, more, tokens[0], tokens[1..], tags, events);
        DocumentTells(dtd, hasty, more, tokens[1..], r.tags, r.events);
      }
    }
  }

  lemma {:induction false} NothingTells(hasty: bool, tags: seq<string>, bases: seq<nat>, shown: seq<Item>)
    ensures Read(hasty, [], tags, bases, shown) == Story(shown, Reached(tags))
  {
  }

  lemma {:induction false} DocumentEnds(dtd: Dtd, hasty: bool, t: Token, left: seq<Token>, tags: seq<string>,
                                        events: seq<Event>)
    requires Incomplete(t)
    ensures StoryOf(dtd, false, Plain(0, false, t, left, tags, events))
            == AtEnd(false, Read(hasty, [Plainly(t)] + [], tags, [0], Trace(events)))
  {
    hide Trace, Read;
    ReadFirst(hasty, Plainly(t), [], tags, [0], Trace(events));
    if t.TrailingCr? {
      TraceMore(events, Text("\n"));
      NothingTells(hasty, tags, [0], Trace(events + [Text("\n")]));
    } else if t.TrailingRsqb? {
      TraceMore(events, Text(t.text));
      NothingTells(hasty, tags, [0], Trace(events + [Text(t.text)]));
    }
  }

  /** Which references stand for text, and why others do not (section 4.1): the entity is to be declared, in the
      internal subset when that matters, not open already, and parsed; an external one is left to its handler. */
  lemma {:induction false} ReferenceRules(dtd: Dtd, path: set<string>, name: string)
    ensures var r := Resolve(dtd, path, name);
            if name !in dtd.entities then
              && (r == Refused(UndefinedEntity) <==> dtd.check) && (r == Passed(SkippedEntity(name)) <==> !dtd.check)
            else
              var d := dtd.entities[name];
              var visible := d.isInternal || !dtd.check;
              var parsed := visible && name !in path && !d.notation;
              && (r == Refused(EntityDeclaredInPe) <==> !visible)
              && (r == Refused(RecursiveEntityRef) <==> visible && name in path)
              && (r == Refused(BinaryEntityRef) <==> visible && name !in path && d.notation)
              && (r == Passed(ExternalEntity(name)) <==> parsed && d.text == None && name in dtd.accepted)
              && (r == Refused(ExternalEntityHandling) <==> parsed && d.text == None && name !in dtd.accepted)
              && (forall text :: r == Enters(text) <==> parsed && d.text == Some(text))
  {
  }
}
