/** Parsing of element content (XML 1.0, sections 4.1 and 4.3.2).  The parser leaves doContent whenever a reference
    opens an entity and is re-entered by callProcessor; the specification inlines the text of entities recursively. */
module DoContent {
  import opened OpenEntities
  import opened Options

  // What the content tokenizer delivers.  The last four stand only at the end of what has arrived.
  datatype Token =
    | StartTag(name: string)
    | EmptyTag(name: string)
    | EndTag(name: string)
    | EntityRef(name: string)
    | Predefined(ch: char)
    | CharRef(code: int, encoded: string)
    | DataChars(text: string)
    | DataNewline
    | CdataSection(text: string)
    | Comment(text: string)
    | ProcessingInstruction(text: string)
    | XmlDecl
    | Invalid
    | TrailingCr
    | TrailingRsqb(text: string)
    | Partial
    | PartialChar

  // Calls of handlers.
  datatype Event =
    | Start(name: string)
    | End(name: string)
    | Text(text: string)
    | StartCdata
    | EndCdata
    | CommentText(text: string)
    | Instruction(text: string)
    | SkippedEntity(name: string)
    | ExternalEntity(name: string)

  datatype Error =
    | NoElements
    | InvalidToken
    | UnclosedToken
    | PartialCharacter
    | TagMismatch
    | BadCharRef
    | UndefinedEntity
    | EntityDeclaredInPe
    | RecursiveEntityRef
    | BinaryEntityRef
    | AsyncEntity
    | MisplacedXmlPi
    | ExternalEntityHandling

  // The declarations, whether a missing one is an error, and the external entities that their handler accepts.
  datatype Dtd = Dtd(entities: Table<Token>, check: bool, accepted: set<string>)

  // A reference whose replacement text is still to come when AsyncEntity is reported.
  datatype Cut = Cut(path: set<string>, text: seq<Token>)

  // Done: what has arrived is consumed; Ended: the root element is closed and rest belongs to the epilog.
  datatype Outcome =
    | Done(tags: seq<string>, events: seq<Event>)
    | Ended(rest: seq<Token>, events: seq<Event>)
    | Failed(error: Error, events: seq<Event>, cut: Option<Cut>)

  // ---------- the recursive definition ----------

  datatype Reference = Passed(event: Event) | Refused(error: Error) | Enters(text: seq<Token>)

  function Resolve(dtd: Dtd, path: set<string>, name: string): Reference {
    if name !in dtd.entities then (if dtd.check then Refused(UndefinedEntity) else Passed(SkippedEntity(name)))
    else if dtd.check && !dtd.entities[name].isInternal then Refused(EntityDeclaredInPe)
    else if name in path then Refused(RecursiveEntityRef)
    else if dtd.entities[name].notation then Refused(BinaryEntityRef)
    else match dtd.entities[name].text
      case Some(text) => Enters(text)
      case None => if name in dtd.accepted then Passed(ExternalEntity(name)) else Refused(ExternalEntityHandling)
  }

  predicate Incomplete(t: Token) {
    t.TrailingCr? || t.TrailingRsqb? || t.Partial? || t.PartialChar?
  }

  // The end of the text of an entity (base > 0) or of the document.
  function Finish(base: nat, tags: seq<string>, events: seq<Event>): Outcome {
    if base == 0 then Failed(NoElements, events, None)
    else if |tags| != base then Failed(AsyncEntity, events, None)
    else Done(tags, events)
  }

  // One token that is not a reference to a general entity; rest is what follows it.
  function Plain(base: nat, more: bool, t: Token, rest: seq<Token>, tags: seq<string>, events: seq<Event>): (r: Outcome)
    requires base <= |tags| && !t.EntityRef?
    ensures r.Done? ==> base <= |r.tags|
    ensures r.Ended? ==> base == 0
  {
    match t
    case StartTag(name) => Done(tags + [name], events + [Start(name)])
    case EmptyTag(name) => Close(rest, tags, events + [Start(name), End(name)])
    case EndTag(name) =>
      if |tags| == base then Failed(AsyncEntity, events, None)
      else if tags[|tags| - 1] != name then Failed(TagMismatch, events, None)
      else Close(rest, tags[..|tags| - 1], events + [End(name)])
    case Predefined(ch) => Done(tags, events + [Text([ch])])
    case CharRef(code, encoded) => if code < 0 then Failed(BadCharRef, events, None) else Done(tags, events + [Text(encoded)])
    case DataChars(text) => Done(tags, events + [Text(text)])
    case DataNewline => Done(tags, events + [Text("\n")])
    case CdataSection(text) => Done(tags, events + [StartCdata, Text(text), EndCdata])
    case Comment(text) => Done(tags, events + [CommentText(text)])
    case ProcessingInstruction(text) => Done(tags, events + [Instruction(text)])
    case XmlDecl => Failed(MisplacedXmlPi, events, None)
    case Invalid => Failed(InvalidToken, events, None)
    case TrailingCr => Finish(base, tags, events + [Text("\n")])
    case TrailingRsqb(text) => Finish(base, tags, events + [Text(text)])
    case Partial => Failed(UnclosedToken, events, None)
    case PartialChar => Failed(PartialCharacter, events, None)
  }

  function Close(rest: seq<Token>, tags: seq<string>, events: seq<Event>): Outcome {
    if tags == [] then Ended(rest, events) else Done(tags, events)
  }

  // Content from tokens on, with the given tags open: base of them were open where the text begins, path holds the
  // entities whose text is being read, and more says that the document has not arrived completely.  When hasty, the
  // level is checked behind a reference at the end of an entity before the text of the reference is read.
  function Inline(dtd: Dtd, hasty: bool, path: set<string>, base: nat, more: bool, tokens: seq<Token>,
                  tags: seq<string>, events: seq<Event>): (r: Outcome)
    requires base <= |tags|
    ensures r.Done? ==> base <= |r.tags|
    ensures r.Ended? ==> base == 0
    decreases |dtd.entities.Keys - path|, |tokens|, 0
  {
    if tokens == [] then (if more then Done(tags, events) else Finish(base, tags, events))
    else if tokens[0].EntityRef? then
      match Resolve(dtd, path, tokens[0].name)
      case Passed(event) => Inline(dtd, hasty, path, base, more, tokens[1..], tags, events + [event])
      case Refused(e) => Failed(e, events, None)
      case Enters(_) => Enter(dtd, hasty, path, base, more, tokens[0].name, tokens[1..], tags, events)
    else if Incomplete(tokens[0]) then
      (if more then Done(tags, events) else Plain(base, more, tokens[0], tokens[1..], tags, events))
    else
      var r := Plain(base, more, tokens[0], tokens[1..], tags, events);
      if r.Done? then Inline(dtd, hasty, path, base, more, tokens[1..], r.tags, r.events) else r
  }

  // The text of name, then rest.
  function Enter(dtd: Dtd, hasty: bool, path: set<string>, base: nat, more: bool, name: string, rest: seq<Token>,
                 tags: seq<string>, events: seq<Event>): (r: Outcome)
    requires base <= |tags| && Resolve(dtd, path, name).Enters?
    ensures r.Done? ==> base <= |r.tags|
    ensures r.Ended? ==> base == 0
    decreases |dtd.entities.Keys - path|, |rest|, 1
  {
    PathGrows(dtd.entities, path, name);
    var text := Resolve(dtd, path, name).text;
    if hasty && TooEarly(base, rest, tags) then Failed(AsyncEntity, events, Some(Cut(path + {name}, text)))
    else
      var inner := Inline(dtd, hasty, path + {name}, |tags|, false, text, tags, events);
      if inner.Done? then Inline(dtd, hasty, path, base, more, rest, inner.tags, inner.events) else inner
  }

  predicate TooEarly(base: nat, rest: seq<Token>, tags: seq<string>) {
    base > 0 && rest == [] && |tags| != base
  }

  // ---------- what a run of events builds ----------

  // The tags left open by events, if the events nest: one root element holds everything, and every end event names
  // the innermost open start event.
  function Replay(events: seq<Event>): Option<seq<string>> {
    if events == [] then Some([])
    else
      var before, e := Replay(events[..|events| - 1]), events[|events| - 1];
      if before.None? || (before.value == [] && !(|events| == 1 && e.Start?)) then None
      else if e.Start? then Some(before.value + [e.name])
      else if !e.End? then before
      else if before.value[|before.value| - 1] != e.name then None
      else Some(before.value[..|before.value| - 1])
  }

  // Either something is open or the next token opens the root element.
  predicate Begun(tokens: seq<Token>, tags: seq<string>, events: seq<Event>) {
    tags != [] || (events == [] && (tokens == [] || tokens[0].StartTag? || tokens[0].EmptyTag? || tokens[0].Partial?))
  }

  lemma {:induction false} ReplaySnoc(events: seq<Event>, e: Event)
    ensures (events + [e])[..|events|] == events
    ensures Replay(events + [e]) ==
            var before := Replay(events);
            if before.None? || (before.value == [] && !(events == [] && e.Start?)) then None
            else if e.Start? then Some(before.value + [e.name])
            else if !e.End? then before
            else if before.value[|before.value| - 1] != e.name then None
            else Some(before.value[..|before.value| - 1])
  {
    assert (events + [e])[..|events|] == events;
  }

  ghost predicate Replays(r: Outcome) {
    match r
    case Done(tags, events) => Replay(events) == Some(tags)
    case Ended(_, events) => Replay(events) == Some([]) && events != []
    case Failed(_, events, _) => Replay(events).Some?
  }

  lemma {:induction false} TagReplays(base: nat, more: bool, t: Token, rest: seq<Token>, tags: seq<string>,
                                      events: seq<Event>)
    requires base <= |tags| && Replay(events) == Some(tags) && Begun([t] + rest, tags, events)
    requires t.StartTag? || t.EmptyTag? || t.EndTag?
    ensures Replays(Plain(base, more, t, rest, tags, events))
  {
    hide Replay, Begun;
    assert tags != [] || (events == [] && !t.EndTag?) by {
      BegunFirst(t, rest, tags, events);
    }
    if t.StartTag? {
      ReplaySnoc(events, Start(t.name));
    } else if t.EmptyTag? {
      EmptyTagReplays(tags, events, t.name);
    } else if |tags| > base && tags[|tags| - 1] == t.name {
      EndTagReplays(tags, events, t.name);
    }
  }

  lemma {:induction false} BegunFirst(t: Token, rest: seq<Token>, tags: seq<string>, events: seq<Event>)
    requires Begun([t] + rest, tags, events)
    ensures tags != [] || (events == [] && (t.StartTag? || t.EmptyTag? || t.Partial?))
  {
    assert ([t] + rest)[0] == t;
  }

  lemma {:induction false} EmptyTagReplays(tags: seq<string>, events: seq<Event>, name: string)
    requires Replay(events) == Some(tags) && (tags != [] || events == [])
    ensures Replay(events + [Start(name), End(name)]) == Some(tags)
  {
    hide Replay;
    ReplaySnoc(events, Start(name));
    ReplaySnoc(events + [Start(name)], End(name));
    assert events + [Start(name), End(name)] == events + [Start(name)] + [End(name)];
    assert (tags + [name])[..|tags|] == tags;
  }

  lemma {:induction false} EndTagReplays(tags: seq<string>, events: seq<Event>, name: string)
    requires Replay(events) == Some(tags) && tags != [] && tags[|tags| - 1] == name
    ensures Replay(events + [End(name)]) == Some(tags[..|tags| - 1])
  {
    hide Replay;
    ReplaySnoc(events, End(name));
  }

  lemma {:induction false} PlainBegins(base: nat, more: bool, t: Token, rest: seq<Token>, tags: seq<string>,
                                       events: seq<Event>)
    requires base <= |tags| && !t.EntityRef? && Begun([t] + rest, tags, events)
    ensures var r := Plain(base, more, t, rest, tags, events);
            r.Done? ==> r.tags != []
  {
    assert ([t] + rest)[0] == t;
  }

  lemma {:induction false} InnerReplays(tags: seq<string>, events: seq<Event>, inner: seq<Event>)
    requires Replay(events) == Some(tags) && tags != []
    requires forall i {:trigger inner[i]} :: 0 <= i < |inner| ==> !inner[i].Start? && !inner[i].End?
    ensures Replay(events + inner) == Some(tags)
  {
    if inner == [] {
      assert events + inner == events;
    } else {
      var n := |inner| - 1;
      InnerReplays(tags, events, inner[..n]);
      ReplaySnoc(events + inner[..n], inner[n]);
      assert events + inner == events + inner[..n] + [inner[n]];
    }
  }

  lemma {:induction false} PlainReplays(base: nat, more: bool, t: Token, rest: seq<Token>, tags: seq<string>,
                                        events: seq<Event>)
    requires base <= |tags| && !t.EntityRef? && Replay(events) == Some(tags) && Begun([t] + rest, tags, events)
    ensures Replays(Plain(base, more, t, rest, tags, events))
  {
    hide Replay, Begun;
    if t.StartTag? || t.EmptyTag? || t.EndTag? {
      TagReplays(base, more, t, rest, tags, events);
    } else if tags != [] {
      var inner := PlainInside(base, more, t, rest, tags, events);
      InnerReplays(tags, events, inner);
      assert Replays(Plain(base, more, t, rest, tags, events));
    } else {
      BegunFirst(t, rest, tags, events);
    }
  }

  // Any other token adds events that neither start nor end an element.
  lemma {:induction false} PlainInside(base: nat, more: bool, t: Token, rest: seq<Token>, tags: seq<string>,
                                       events: seq<Event>) returns (inner: seq<Event>)
    requires base <= |tags| && !t.EntityRef? && !t.StartTag? && !t.EmptyTag? && !t.EndTag?
    ensures forall i {:trigger inner[i]} :: 0 <= i < |inner| ==> !inner[i].Start? && !inner[i].End?
    ensures var r := Plain(base, more, t, rest, tags, events);
            !r.Ended? && r.events == events + inner && (r.Done? ==> r.tags == tags)
  {
    inner := Plain(base, more, t, rest, tags, events).events[|events|..];
  }

  /** Every run of events nests with matching names inside one root element, whatever becomes of the run; when it is
      done the events have left open exactly the tags on the stack, and when the root is closed, none. */
  lemma {:induction false} EventsNest(dtd: Dtd, hasty: bool, path: set<string>, base: nat, more: bool,
                                      tokens: seq<Token>,
                                      tags: seq<string>, events: seq<Event>)
    requires base <= |tags| && Replay(events) == Some(tags) && Begun(tokens, tags, events)
    ensures var r := Inline(dtd, hasty, path, base, more, tokens, tags, events);
            Replays(r) && (r.Done? ==> r.tags != [] || r == Done(tags, events))
    decreases |dtd.entities.Keys - path|, |tokens|
  {
    hide Replay, Plain;
    if tokens == [] {
    } else if tokens[0].EntityRef? {
      var name, rest := tokens[0].name, tokens[1..];
      match Resolve(dtd, path, name)
      case Passed(event) =>
        ReplaySnoc(events, event);
        EventsNest(dtd, hasty, path, base, more, rest, tags, events + [event]);
      case Refused(_) =>
      case Enters(text) =>
        PathGrows(dtd.entities, path, name);
        EventsNest(dtd, hasty, path + {name}, |tags|, false, text, tags, events);
        var inner := Inline(dtd, hasty, path + {name}, |tags|, false, text, tags, events);
        if inner.Done? {
          EventsNest(dtd, hasty, path, base, more, rest, inner.tags, inner.events);
        }
    } else {
      var r := Plain(base, more, tokens[0], tokens[1..], tags, events);
      assert [tokens[0]] + tokens[1..] == tokens;
      PlainReplays(base, more, tokens[0], tokens[1..], tags, events);
      PlainBegins(base, more, tokens[0], tokens[1..], tags, events);
      if !Incomplete(tokens[0]) && r.Done? {
        EventsNest(dtd, hasty, path, base, more, tokens[1..], r.tags, r.events);
      }
    }
  }

  lemma {:induction false} PlainKeepsTags(base: nat, more: bool, t: Token, rest: seq<Token>, tags: seq<string>,
                                          events: seq<Event>)
    requires base <= |tags| && !t.EntityRef?
    ensures var r := Plain(base, more, t, rest, tags, events);
            && events <= r.events
            && (r.Done? ==> r.tags[..base] == tags[..base])
            && (r.Done? && Incomplete(t) ==> base > 0 && r.tags == tags[..base])
            && (!(r.Failed? && r.error == AsyncEntity && t.EndTag?) ==>
                  |r.events| > |events| || (r.Failed? && r.error != AsyncEntity))
            && (r.Failed? ==> r.cut.None?)
            && (t.EndTag? && |tags| == base ==> r == Failed(AsyncEntity, events, None))
  {
  }

  /** The text of an entity returns to the level it started at and leaves the tags open there untouched. */
  lemma {:induction false} TextKeepsTags(dtd: Dtd, hasty: bool, path: set<string>, base: nat, more: bool,
                                         tokens: seq<Token>,
                                         tags: seq<string>, events: seq<Event>)
    requires base <= |tags|
    ensures var r := Inline(dtd, hasty, path, base, more, tokens, tags, events);
            r.Done? ==> r.tags[..base] == tags[..base] && (base > 0 && !more ==> r.tags == tags[..base])
    decreases |dtd.entities.Keys - path|, |tokens|
  {
    hide Plain;
    if tokens == [] {
    } else if tokens[0].EntityRef? {
      var name, rest := tokens[0].name, tokens[1..];
      match Resolve(dtd, path, name)
      case Passed(event) => TextKeepsTags(dtd, hasty, path, base, more, rest, tags, events + [event]);
      case Refused(_) =>
      case Enters(text) =>
        PathGrows(dtd.entities, path, name);
        TextKeepsTags(dtd, hasty, path + {name}, |tags|, false, text, tags, events);
        var inner := Inline(dtd, hasty, path + {name}, |tags|, false, text, tags, events);
        if inner.Done? {
          assert inner.tags[..base] == inner.tags[..|tags|][..base] && tags[..base] == tags[..|tags|][..base];
          TextKeepsTags(dtd, hasty, path, base, more, rest, inner.tags, inner.events);
        }
    } else {
      var r := Plain(base, more, tokens[0], tokens[1..], tags, events);
      PlainKeepsTags(base, more, tokens[0], tokens[1..], tags, events);
      if r.Done? && !Incomplete(tokens[0]) {
        TextKeepsTags(dtd, hasty, path, base, more, tokens[1..], r.tags, r.events);
      }
    }
  }

  // ---------- the early check ----------

  // What the text of a reference begins with.
  datatype Lead = Nothing | AnEndTag | SomethingElse

  function LeadOf(dtd: Dtd, path: set<string>, tokens: seq<Token>): Lead
    decreases |dtd.entities.Keys - path|, |tokens|
  {
    if tokens == [] then Nothing
    else if tokens[0].EndTag? then AnEndTag
    else if tokens[0].EntityRef? && Resolve(dtd, path, tokens[0].name).Enters? then
      PathGrows(dtd.entities, path, tokens[0].name);
      var l := LeadOf(dtd, path + {tokens[0].name}, Resolve(dtd, path, tokens[0].name).text);
      if l == Nothing then LeadOf(dtd, path, tokens[1..]) else l
    else SomethingElse
  }

  lemma {:induction false} EventsGrow(dtd: Dtd, hasty: bool, path: set<string>, base: nat, more: bool,
                                      tokens: seq<Token>,
                                      tags: seq<string>, events: seq<Event>)
    requires base <= |tags|
    ensures events <= Inline(dtd, hasty, path, base, more, tokens, tags, events).events
    decreases |dtd.entities.Keys - path|, |tokens|
  {
    hide Plain;
    if tokens == [] {
    } else if tokens[0].EntityRef? {
      var name, rest := tokens[0].name, tokens[1..];
      match Resolve(dtd, path, name)
      case Passed(event) => EventsGrow(dtd, hasty, path, base, more, rest, tags, events + [event]);
      case Refused(_) =>
      case Enters(text) =>
        PathGrows(dtd.entities, path, name);
        EventsGrow(dtd, hasty, path + {name}, |tags|, false, text, tags, events);
        var inner := Inline(dtd, hasty, path + {name}, |tags|, false, text, tags, events);
        if inner.Done? {
          EventsGrow(dtd, hasty, path, base, more, rest, inner.tags, inner.events);
        }
    } else {
      var r := Plain(base, more, tokens[0], tokens[1..], tags, events);
      PlainKeepsTags(base, more, tokens[0], tokens[1..], tags, events);
      if r.Done? && !Incomplete(tokens[0]) {
        EventsGrow(dtd, hasty, path, base, more, tokens[1..], r.tags, r.events);
      }
    }
  }

  lemma {:induction false} LeadDecides(dtd: Dtd, path: set<string>, tokens: seq<Token>, tags: seq<string>,
                                       events: seq<Event>)
    requires tags != []
    ensures var r := Inline(dtd, false, path, |tags|, false, tokens, tags, events);
            match LeadOf(dtd, path, tokens)
            case Nothing => r == Done(tags, events)
            case AnEndTag => r == Failed(AsyncEntity, events, None)
            case SomethingElse => |r.events| > |events| || (r.Failed? && r.error != AsyncEntity)
    decreases |dtd.entities.Keys - path|, |tokens|
  {
    hide Plain;
    if tokens == [] {
    } else if tokens[0].EntityRef? {
      var name, rest := tokens[0].name, tokens[1..];
      match Resolve(dtd, path, name)
      case Passed(event) => EventsGrow(dtd, false, path, |tags|, false, rest, tags, events + [event]);
      case Refused(_) =>
      case Enters(text) =>
        PathGrows(dtd.entities, path, name);
        LeadDecides(dtd, path + {name}, text, tags, events);
        LeadDecides(dtd, path, rest, tags, events);
        var inner := Inline(dtd, false, path + {name}, |tags|, false, text, tags, events);
        if inner.Done? {
          EventsGrow(dtd, false, path, |tags|, false, rest, inner.tags, inner.events);
        }
    } else {
      var r := Plain(|tags|, false, tokens[0], tokens[1..], tags, events);
      PlainKeepsTags(|tags|, false, tokens[0], tokens[1..], tags, events);
      if r.Done? && !Incomplete(tokens[0]) {
        EventsGrow(dtd, false, path, |tags|, false, tokens[1..], r.tags, r.events);
      }
    }
  }

  /** The parser differs from recursive inlining at most in what it has done before it reports AsyncEntity: never when
      no check comes early, and otherwise exactly when the text still to come begins with something other than an
      end tag. */
  lemma {:induction false} HastyDiffersOnlyBeforeAsync(dtd: Dtd, path: set<string>, base: nat, more: bool,
                                                       tokens: seq<Token>,
                                                       tags: seq<string>, events: seq<Event>)
    requires base <= |tags| && (base > 0 ==> !more)
    ensures var hasty := Inline(dtd, true, path, base, more, tokens, tags, events);
            var ideal := Inline(dtd, false, path, base, more, tokens, tags, events);
            if hasty.Failed? && hasty.cut.Some? then
              && hasty.error == AsyncEntity && ideal.Failed? && hasty.events <= ideal.events
              && (ideal == Failed(AsyncEntity, hasty.events, None)
                  <==> !LeadOf(dtd, hasty.cut.value.path, hasty.cut.value.text).SomethingElse?)
            else hasty == ideal
    decreases |dtd.entities.Keys - path|, |tokens|
  {
    hide Plain;
    if tokens == [] {
    } else if tokens[0].EntityRef? {
      var name, rest := tokens[0].name, tokens[1..];
      match Resolve(dtd, path, name)
      case Passed(event) => HastyDiffersOnlyBeforeAsync(dtd, path, base, more, rest, tags, events + [event]);
      case Refused(_) =>
      case Enters(text) =>
        PathGrows(dtd.entities, path, name);
        if TooEarly(base, rest, tags) {
          LeadDecides(dtd, path + {name}, text, tags, events);
          TextKeepsTags(dtd, false, path + {name}, |tags|, false, text, tags, events);
          EventsGrow(dtd, false, path + {name}, |tags|, false, text, tags, events);
          var inner := Inline(dtd, false, path + {name}, |tags|, false, text, tags, events);
          assert inner.Done? ==>
              Inline(dtd, false, path, base, more, rest, inner.tags, inner.events) == Failed(AsyncEntity, inner.events, None);
        } else {
          HastyDiffersOnlyBeforeAsync(dtd, path + {name}, |tags|, false, text, tags, events);
          var inner := Inline(dtd, true, path + {name}, |tags|, false, text, tags, events);
          if inner.Done? {
            HastyDiffersOnlyBeforeAsync(dtd, path, base, more, rest, inner.tags, inner.events);
          }
        }
    } else {
      var r := Plain(base, more, tokens[0], tokens[1..], tags, events);
      PlainKeepsTags(base, more, tokens[0], tokens[1..], tags, events);
      if r.Done? && !Incomplete(tokens[0]) {
        HastyDiffersOnlyBeforeAsync(dtd, path, base, more, tokens[1..], r.tags, r.events);
      }
    }
  }

  // No replacement text ends with a reference.
  ghost predicate NoTextEndsInReference(dtd: Dtd) {
    forall n {:trigger dtd.entities[n]} :: n in dtd.entities && dtd.entities[n].text.Some? ==> EndsPlainly(dtd.entities[n].text.value)
  }

  predicate EndsPlainly(text: seq<Token>) {
    text == [] || !text[|text| - 1].EntityRef?
  }

  lemma {:induction false} NoCut(dtd: Dtd, path: set<string>, base: nat, more: bool, tokens: seq<Token>,
                                 tags: seq<string>, events: seq<Event>)
    requires base <= |tags| && NoTextEndsInReference(dtd) && (base > 0 ==> EndsPlainly(tokens))
    ensures var r := Inline(dtd, true, path, base, more, tokens, tags, events);
            r.Failed? ==> r.cut.None?
    decreases |dtd.entities.Keys - path|, |tokens|
  {
    hide Plain;
    if tokens == [] {
    } else if tokens[0].EntityRef? {
      var name, rest := tokens[0].name, tokens[1..];
      match Resolve(dtd, path, name)
      case Passed(event) => NoCut(dtd, path, base, more, rest, tags, events + [event]);
      case Refused(_) =>
      case Enters(text) =>
        PathGrows(dtd.entities, path, name);
        assert dtd.entities[name].text == Some(text);
        NoCut(dtd, path + {name}, |tags|, false, text, tags, events);
        var inner := Inline(dtd, true, path + {name}, |tags|, false, text, tags, events);
        if inner.Done? {
          NoCut(dtd, path, base, more, rest, inner.tags, inner.events);
        }
    } else {
      var r := Plain(base, more, tokens[0], tokens[1..], tags, events);
      PlainKeepsTags(base, more, tokens[0], tokens[1..], tags, events);
      if r.Done? && !Incomplete(tokens[0]) {
        NoCut(dtd, path, base, more, tokens[1..], r.tags, r.events);
      }
    }
  }

  /** When no replacement text ends with a reference the parser is recursive inlining, on every document. */
  lemma {:induction false} PlainEndingsAreInlined(dtd: Dtd, more: bool, tokens: seq<Token>)
    requires NoTextEndsInReference(dtd)
    ensures Inline(dtd, true, {}, 0, more, tokens, [], []) == Inline(dtd, false, {}, 0, more, tokens, [], [])
  {
    NoCut(dtd, {}, 0, more, tokens, [], []);
    HastyDiffersOnlyBeforeAsync(dtd, {}, 0, more, tokens, [], []);
  }

  // <r>&a; where a is <x>&b; and b is t: the text of b is inlined before the missing end tag is met, but the parser
  // reports AsyncEntity without it.
  lemma {:induction false} HastyLosesText()
    ensures var a, b := Decl(Some([StartTag("x"), EntityRef("b")]), false, true), Decl(Some([DataChars("t")]), false, true);
            var dtd := Dtd(map["a" := a, "b" := b], true, {});
            var tokens := [StartTag("r"), EntityRef("a")];
            && Inline(dtd, true, {}, 0, false, tokens, [], []).events == [Start("r"), Start("x")]
            && Inline(dtd, false, {}, 0, false, tokens, [], []) == Failed(AsyncEntity, [Start("r"), Start("x"), Text("t")], None)
  {
    var a, b := Decl(Some([StartTag("x"), EntityRef("b")]), false, true), Decl(Some([DataChars("t")]), false, true);
    var dtd := Dtd(map["a" := a, "b" := b], true, {});
    var es := [Start("r"), Start("x")];
    var tb := b.text.value;
    assert tb[1..] == [];
    assert Inline(dtd, false, {"a", "b"}, 2, false, [], ["r", "x"], es + [Text("t")]) == Done(["r", "x"], es + [Text("t")]);
    assert Inline(dtd, false, {"a", "b"}, 2, false, tb, ["r", "x"], es) == Done(["r", "x"], es + [Text("t")]);
    var ta := a.text.value;
    assert ta[1..] == [EntityRef("b")] && ta[1..][1..] == [];
    assert {"a"} + {"b"} == {"a", "b"} && {} + {"a"} == {"a"};
    assert es == [Start("r")] + [Start("x")] && ["r", "x"] == ["r"] + ["x"];
    assert Inline(dtd, true, {"a"}, 1, false, ta[1..], ["r", "x"], es) == Failed(AsyncEntity, es, Some(Cut({"a"} + {"b"}, tb)));
    assert Inline(dtd, false, {"a"}, 1, false, [], ["r", "x"], es + [Text("t")]) == Failed(AsyncEntity, es + [Text("t")], None);
    assert Enter(dtd, false, {"a"}, 1, false, "b", [], ["r", "x"], es) == Failed(AsyncEntity, es + [Text("t")], None);
    assert Inline(dtd, false, {"a"}, 1, false, ta[1..], ["r", "x"], es) == Failed(AsyncEntity, es + [Text("t")], None);
    assert Inline(dtd, true, {"a"}, 1, false, ta, ["r"], [Start("r")]).events == es;
    assert Inline(dtd, false, {"a"}, 1, false, ta, ["r"], [Start("r")]) == Failed(AsyncEntity, es + [Text("t")], None);
    var doc := [StartTag("r"), EntityRef("a")];
    assert doc[1..] == [EntityRef("a")] && doc[1..][1..] == [];
    assert [] + ["r"] == ["r"] && [] + [Start("r")] == [Start("r")];
    assert Inline(dtd, true, {}, 0, false, doc[1..], ["r"], [Start("r")]).events == es;
    assert Inline(dtd, false, {}, 0, false, doc[1..], ["r"], [Start("r")]) == Failed(AsyncEntity, es + [Text("t")], None);
  }

  // ---------- a document that arrives in pieces ----------

  predicate Complete(tokens: seq<Token>) {
    forall i {:trigger tokens[i]} :: 0 <= i < |tokens| ==> !Incomplete(tokens[i])
  }

  function Then(dtd: Dtd, more: bool, r: Outcome, rest: seq<Token>): Outcome {
    match r
    case Done(tags, events) => Inline(dtd, true, {}, 0, more, rest, tags, events)
    case Ended(left, events) => Ended(left + rest, events)
    case Failed(_, _, _) => r
  }

  /** Parsing a piece of the document and then the rest is parsing both at once. */
  lemma {:induction false} PiecesCompose(dtd: Dtd, more: bool, piece: seq<Token>, rest: seq<Token>,
                                         tags: seq<string>, events: seq<Event>)
    requires Complete(piece) && Begun(piece, tags, events)
    ensures Inline(dtd, true, {}, 0, more, piece + rest, tags, events)
            == Then(dtd, more, Inline(dtd, true, {}, 0, true, piece, tags, events), rest)
    decreases |piece|
  {
    if piece == [] {
      assert piece + rest == rest;
    } else {
      var tokens := piece + rest;
      assert tokens[0] == piece[0] && tokens[1..] == piece[1..] + rest;
      if piece[0].EntityRef? {
        var name := piece[0].name;
        match Resolve(dtd, {}, name)
        case Passed(event) => PiecesCompose(dtd, more, piece[1..], rest, tags, events + [event]);
        case Refused(_) =>
        case Enters(text) =>
          var inner := Inline(dtd, true, {} + {name}, |tags|, false, text, tags, events);
          if inner.Done? {
            PiecesCompose(dtd, more, piece[1..], rest, inner.tags, inner.events);
          }
      } else {
        var r := Plain(0, more, tokens[0], tokens[1..], tags, events);
        if r.Done? {
          PiecesCompose(dtd, more, piece[1..], rest, r.tags, r.events);
        }
      }
    }
  }
}
