/** The parser's side of content: doContent, internalEntityProcessor, and the loop of callProcessor that re-enters
    them instead of recursing. */
module ContentParser {
  import opened OpenEntities
  import opened Options
  import opened DoContent

  // ---------- the open entities as a stack of half-read texts ----------

  // The levels at which entities were opened rise, and n tags are open now.
  ghost predicate Rising(frames: seq<Frame<Token>>, n: nat) {
    frames != [] ==>
      var f := frames[|frames| - 1];
      0 < f.level <= n && Rising(frames[..|frames| - 1], f.level)
  }

  // What is left: the innermost entity first, the document last.  An entity with no more to process has passed its check.
  ghost function Resume(dtd: Dtd, more: bool, frames: seq<Frame<Token>>, rest: seq<Token>, tags: seq<string>,
                        events: seq<Event>): Outcome
    requires Rising(frames, |tags|)
    decreases |frames|
  {
    if frames == [] then Inline(dtd, true, {}, 0, more, rest, tags, events)
    else
      var f := frames[|frames| - 1];
      var r := Remaining(dtd, frames, tags, events);
      if r.Done? then
        RisingMore(frames[..|frames| - 1], f.level, |r.tags|);
        Resume(dtd, more, frames[..|frames| - 1], rest, r.tags, r.events)
      else r
  }

  ghost function Remaining(dtd: Dtd, frames: seq<Frame<Token>>, tags: seq<string>, events: seq<Event>): (r: Outcome)
    requires frames != [] && Rising(frames, |tags|)
    ensures r.Done? ==> frames[|frames| - 1].level <= |r.tags|
  {
    var f := frames[|frames| - 1];
    if f.more then Inline(dtd, true, PathOf({}, frames), f.level, false, f.rest, tags, events) else Done(tags, events)
  }

  lemma {:induction false} RisingMore(frames: seq<Frame<Token>>, m: nat, n: nat)
    requires Rising(frames, m) && m <= n
    ensures Rising(frames, n)
  {
  }

  lemma {:induction false} RisingSnoc(front: seq<Frame<Token>>, f: Frame<Token>, n: nat)
    ensures Rising(front + [f], n) <==> 0 < f.level <= n && Rising(front, f.level)
  {
    assert (front + [f])[..|front|] == front;
  }

  // The number of steps that reading takes, errors aside.
  ghost function Work(dtd: Dtd, path: set<string>, tokens: seq<Token>): nat
    decreases |dtd.entities.Keys - path|, |tokens|
  {
    if tokens == [] then 1
    else
      var here := if tokens[0].EntityRef? && Resolve(dtd, path, tokens[0].name).Enters? then
                    PathGrows(dtd.entities, path, tokens[0].name);
                    1 + Work(dtd, path + {tokens[0].name}, Resolve(dtd, path, tokens[0].name).text)
                  else 0;
      1 + here + Work(dtd, path, tokens[1..])
  }

  ghost function StackWork(dtd: Dtd, frames: seq<Frame<Token>>): nat {
    if frames == [] then 0
    else
      var f := frames[|frames| - 1];
      StackWork(dtd, frames[..|frames| - 1]) + 1 + (if f.more then Work(dtd, PathOf({}, frames), f.rest) else 0)
  }

  // Where one run of doContent stops: at the end of the text, at an error, behind the end of the root element, or
  // behind a reference to an entity that it has opened.
  datatype Stop = AtEnd | AtError(error: Error) | AtRootEnd | Opened(name: string)

  ghost predicate Scanned(dtd: Dtd, path: set<string>, base: nat, more: bool, tokens: seq<Token>, tags: seq<string>,
                          events: seq<Event>,
                          stop: Stop, rest: seq<Token>, tags': seq<string>, events': seq<Event>)
    requires base <= |tags|
  {
    var all := Inline(dtd, true, path, base, more, tokens, tags, events);
    match stop
    case AtEnd => all == Done(tags', events')
    case AtError(e) => all == Failed(e, events', None)
    case AtRootEnd => all == Ended(rest, events')
    case Opened(name) =>
      && tags' != [] && base <= |tags'| && name !in path && Resolve(dtd, path, name).Enters?
      && all == Enter(dtd, true, path, base, more, name, rest, tags', events')
      && Work(dtd, path + {name}, Resolve(dtd, path, name).text) + 1 + Work(dtd, path, rest) < Work(dtd, path, tokens)
  }

  // One turn of the loop in doContent.
  lemma {:induction false} UnfoldReference(dtd: Dtd, path: set<string>, base: nat, more: bool, name: string,
                                           rest: seq<Token>,
                                           tags: seq<string>, events: seq<Event>)
    requires base <= |tags| && Begun([EntityRef(name)] + rest, tags, events)
    ensures tags != [] && Begun(rest, tags, events) && Work(dtd, path, rest) <= Work(dtd, path, [EntityRef(name)] + rest)
    ensures var all, r := Inline(dtd, true, path, base, more, [EntityRef(name)] + rest, tags, events), Resolve(dtd, path, name);
            && (r.Passed? ==> Begun(rest, tags, events + [r.event]))
            && (r.Passed? ==> all == Inline(dtd, true, path, base, more, rest, tags, events + [r.event]))
            && (r.Refused? ==> all == Failed(r.error, events, None))
            && (r.Enters? ==> all == Enter(dtd, true, path, base, more, name, rest, tags, events))
            && (r.Enters? && name !in path ==>
                  Work(dtd, path + {name}, r.text) + 1 + Work(dtd, path, rest) < Work(dtd, path, [EntityRef(name)] + rest))
  {
    var tokens := [EntityRef(name)] + rest;
    assert tokens[0] == EntityRef(name) && tokens[1..] == rest;
  }

  lemma {:induction false} UnfoldToken(dtd: Dtd, path: set<string>, base: nat, more: bool, t: Token, rest: seq<Token>,
                                       tags: seq<string>, events: seq<Event>)
    requires base <= |tags| && !t.EntityRef? && Begun([t] + rest, tags, events) && !(Incomplete(t) && more)
    ensures Work(dtd, path, rest) <= Work(dtd, path, [t] + rest)
    ensures var all, r := Inline(dtd, true, path, base, more, [t] + rest, tags, events), Plain(base, more, t, rest, tags, events);
            && (r.Done? ==> Begun(rest, r.tags, r.events))
            && all == if r.Done? && !Incomplete(t) then Inline(dtd, true, path, base, more, rest, r.tags, r.events) else r
  {
    hide Plain;
    var tokens := [t] + rest;
    assert tokens[0] == t && tokens[1..] == rest;
    PlainBegins(base, more, t, rest, tags, events);
  }

  lemma {:induction false} UnfoldEnd(dtd: Dtd, path: set<string>, base: nat, more: bool, tokens: seq<Token>,
                                     tags: seq<string>, events: seq<Event>)
    requires base <= |tags| && (tokens == [] || (Incomplete(tokens[0]) && more))
    ensures Inline(dtd, true, path, base, more, tokens, tags, events)
            == if more then Done(tags, events) else Finish(base, tags, events)
  {
  }

  // ---------- the steps of callProcessor on the frames ----------

  lemma {:induction false} BeginsOpen(tokens: seq<Token>, tags: seq<string>, events: seq<Event>)
    requires tags != []
    ensures Begun(tokens, tags, events)
  {
  }

  lemma {:induction false} NoFrames(dtd: Dtd, more: bool, rest: seq<Token>, tags: seq<string>, events: seq<Event>)
    ensures Rising([], |tags|) && Resume(dtd, more, [], rest, tags, events) == Inline(dtd, true, {}, 0, more, rest, tags, events)
    ensures StackWork(dtd, []) == 0 && PathOf<Token>({}, []) == {}
  {
  }

  lemma {:induction false} OpenFromDocument(dtd: Dtd, more: bool, rest: seq<Token>, tags: seq<string>,
                                            events: seq<Event>,
                                            name: string, rest': seq<Token>, tags': seq<string>, events': seq<Event>)
    requires Scanned(dtd, {}, 0, more, rest, tags, events, Opened(name), rest', tags', events')
    ensures var frames := [Frame(name, |tags'|, true, Resolve(dtd, {}, name).text)];
            && Rising(frames, |tags'|)
            && Resume(dtd, more, frames, rest', tags', events') == Inline(dtd, true, {}, 0, more, rest, tags, events)
            && StackWork(dtd, frames) + Work(dtd, {}, rest') < Work(dtd, {}, rest)
  {
    hide Inline, Work;
    var frames := [Frame(name, |tags'|, true, Resolve(dtd, {}, name).text)];
    assert frames[..0] == [];
    assert PathOf({}, frames) == {} + {name};
  }

  lemma {:induction false} OpenFromEntity(dtd: Dtd, more: bool, front: seq<Frame<Token>>, f: Frame<Token>,
                                          rest: seq<Token>,
                                          tags: seq<string>, events: seq<Event>,
                                          name: string, f': Frame<Token>, tags': seq<string>, events': seq<Event>)
    requires Rising(front + [f], |tags|) && f.more && f.level <= |tags|
    requires Scanned(dtd, PathOf({}, front) + {f.name}, f.level, false, f.rest, tags, events, Opened(name), f'.rest, tags', events')
    requires f'.name == f.name && f'.level == f.level && f'.more == (f'.rest != []) && !TooEarly(f.level, f'.rest, tags')
    ensures var frames := front + [f', Frame(name, |tags'|, true, Resolve(dtd, PathOf({}, front) + {f.name}, name).text)];
            && Rising(frames, |tags'|)
            && Resume(dtd, more, frames, rest, tags', events') == Resume(dtd, more, front + [f], rest, tags, events)
            && StackWork(dtd, frames) < StackWork(dtd, front + [f])
  {
    hide Inline, Work, Resolve;
    var path := PathOf({}, front) + {f.name};
    var last := Frame(name, |tags'|, true, Resolve(dtd, path, name).text);
    var frames := front + [f', last];
    assert frames == front + [f'] + [last];
    assert frames[..|frames| - 1] == front + [f'];
    assert (front + [f'])[..|front|] == front && (front + [f])[..|front|] == front;
    PathSnoc({}, front, f);
    PathSnoc({}, front, f');
    PathSnoc({}, front + [f'], last);
    RisingSnoc(front, f, |tags|);
    RisingSnoc(front, f', |tags'|);
    RisingSnoc(front + [f'], last, |tags'|);
    var inner := Inline(dtd, true, path + {name}, |tags'|, false, last.rest, tags', events');
    assert Remaining(dtd, frames, tags', events') == inner;
    if inner.Done? {
      TextKeepsTags(dtd, true, path + {name}, |tags'|, false, last.rest, tags', events');
      RisingMore(front + [f'], |tags'|, |inner.tags|);
      AtTextEnd(dtd, path, f.level, inner.tags, inner.events);
      assert Remaining(dtd, front + [f'], inner.tags, inner.events)
          == Inline(dtd, true, path, f.level, false, f'.rest, inner.tags, inner.events);
    }
  }

  lemma {:induction false} AtTextEnd(dtd: Dtd, path: set<string>, base: nat, tags: seq<string>, events: seq<Event>)
    requires base <= |tags|
    ensures Inline(dtd, true, path, base, false, [], tags, events) == Finish(base, tags, events)
  {
  }

  lemma {:induction false} TooEarlyInEntity(dtd: Dtd, more: bool, front: seq<Frame<Token>>, f: Frame<Token>,
                                            rest: seq<Token>,
                                            tags: seq<string>, events: seq<Event>,
                                            name: string, rest': seq<Token>, tags': seq<string>, events': seq<Event>)
    requires Rising(front + [f], |tags|) && f.more && f.level <= |tags|
    requires Scanned(dtd, PathOf({}, front) + {f.name}, f.level, false, f.rest, tags, events, Opened(name), rest', tags', events')
    requires TooEarly(f.level, rest', tags')
    ensures var r := Resume(dtd, more, front + [f], rest, tags, events);
            r.Failed? && r.error == AsyncEntity && r.events == events'
  {
    hide Inline, Work, Resolve;
    assert (front + [f])[..|front|] == front;
  }

  lemma {:induction false} EntityStops(dtd: Dtd, more: bool, front: seq<Frame<Token>>, f: Frame<Token>,
                                       rest: seq<Token>,
                                       tags: seq<string>, events: seq<Event>,
                                       stop: Stop, rest': seq<Token>, tags': seq<string>, events': seq<Event>)
    requires Rising(front + [f], |tags|) && f.more && f.level <= |tags|
    requires Scanned(dtd, PathOf({}, front) + {f.name}, f.level, false, f.rest, tags, events, stop, rest', tags', events')
    ensures stop != AtRootEnd
    ensures stop.AtError? ==> Resume(dtd, more, front + [f], rest, tags, events) == Failed(stop.error, events', None)
    ensures var f' := f.(more := false, rest := []);
            stop.AtEnd? ==>
              && |tags'| == f.level && Rising(front + [f'], |tags'|)
              && Resume(dtd, more, front + [f'], rest, tags', events') == Resume(dtd, more, front + [f], rest, tags, events)
              && StackWork(dtd, front + [f']) < StackWork(dtd, front + [f])
  {
    hide Inline;
    var f' := f.(more := false, rest := []);
    assert (front + [f'])[..|front|] == front && (front + [f])[..|front|] == front;
    RisingSnoc(front, f, |tags|);
    RisingSnoc(front, f', |tags'|);
    TextKeepsTags(dtd, true, PathOf({}, front) + {f.name}, f.level, false, f.rest, tags, events);
  }

  lemma {:induction false} EntityClosed(dtd: Dtd, more: bool, front: seq<Frame<Token>>, f: Frame<Token>,
                                        rest: seq<Token>,
                                        tags: seq<string>, events: seq<Event>)
    requires Rising(front + [f], |tags|) && !f.more
    ensures tags != [] && Rising(front, |tags|)
    ensures Resume(dtd, more, front, rest, tags, events) == Resume(dtd, more, front + [f], rest, tags, events)
    ensures StackWork(dtd, front) < StackWork(dtd, front + [f])
  {
    hide Inline;
    assert (front + [f])[..|front|] == front;
    RisingSnoc(front, f, |tags|);
    RisingMore(front, f.level, |tags|);
  }

  // ---------- the parser ----------

  datatype Processor = Content | InternalEntity | Epilog

  // events is the record of the calls of handlers.
  class Parser {
    const entities: OpenList<Token>
    const check: bool
    const accepted: set<string>
    var tagStack: seq<string>
    var tagLevel: nat
    var processor: Processor
    var reenter: bool
    var events: seq<Event>

    constructor (entities: OpenList<Token>, check: bool, accepted: set<string>)
      requires entities.Valid() && entities.outer == {} && entities.list == []
      ensures Valid() && this.entities == entities && this.check == check && this.accepted == accepted
      ensures tagStack == [] && events == [] && processor == Content && !reenter
    {
      this.entities, this.check, this.accepted := entities, check, accepted;
      tagStack, tagLevel, processor, reenter, events := [], 0, Content, false, [];
    }

    ghost function Decls(): Dtd {
      Dtd(entities.Table(), check, accepted)
    }

    ghost predicate Valid()
      reads this, entities, entities.generalEntities.Values
    {
      entities.Valid() && entities.outer == {} && tagLevel == |tagStack|
    }

    // The tests that doContent makes on a reference, in their order.
    method Refer(name: string) returns (r: Reference)
      requires Valid()
      ensures r == Resolve(Decls(), entities.Path(), name)
      ensures r.Enters? ==> name in entities.generalEntities && entities.generalEntities[name].decl.text == Some(r.text)
      ensures r.Enters? ==> !entities.generalEntities[name].open && name !in entities.Path()
    {
      hide PathOf;
      if name !in entities.generalEntities {
        return if check then Refused(UndefinedEntity) else Passed(SkippedEntity(name));
      }
      var entity := entities.generalEntities[name];
      entities.OpenMeansOnPath(entity);
      if check && !entity.decl.isInternal {
        return Refused(EntityDeclaredInPe);
      }
      if entity.open {
        return Refused(RecursiveEntityRef);
      }
      if entity.decl.notation {
        return Refused(BinaryEntityRef);
      }
      if entity.decl.text.Some? {
        return Enters(entity.decl.text.value);
      }
      return if name in accepted then Passed(ExternalEntity(name)) else Refused(ExternalEntityHandling);
    }

    method Report(e: Event)
      modifies this`events
      ensures events == old(events) + [e]
    {
      events := events + [e];
    }

    // One token that is not a reference; ended says that the root element has been closed.
    method HandleToken(startTagLevel: nat, t: Token, ghost more: bool, ghost rest: seq<Token>)
      returns (err: Option<Error>, ended: bool)
      requires !t.EntityRef? && startTagLevel <= |tagStack| && tagLevel == |tagStack|
      modifies this`tagStack, this`tagLevel, this`events
      ensures tagLevel == |tagStack|
      ensures Plain(startTagLevel, more, t, rest, old(tagStack), old(events))
              == match err
                 case Some(e) => Failed(e, events, None)
                 case None => if ended then Ended(rest, events) else Done(tagStack, events)
    {
      err, ended := None, false;
      match t {
        case StartTag(name) =>
          tagStack, tagLevel := tagStack + [name], tagLevel + 1;
          Report(Start(name));
        case EmptyTag(name) =>
          Report(Start(name));
          Report(End(name));
          assert events == old(events) + [Start(name), End(name)];
          ended := tagLevel == 0;
        case EndTag(name) =>
          if tagLevel == startTagLevel {
            return Some(AsyncEntity), false;
          }
          if tagStack[|tagStack| - 1] != name {
            return Some(TagMismatch), false;
          }
          tagStack, tagLevel := tagStack[..|tagStack| - 1], tagLevel - 1;
          Report(End(name));
          ended := tagLevel == 0;
        case Predefined(ch) => Report(Text([ch]));
        case CharRef(n, encoded) =>
          if n < 0 {
            return Some(BadCharRef), false;
          }
          Report(Text(encoded));
        case DataChars(text) => Report(Text(text));
        case DataNewline => Report(Text("\n"));
        case CdataSection(text) =>
          Report(StartCdata);
          Report(Text(text));
          Report(EndCdata);
          assert events == old(events) + [StartCdata, Text(text), EndCdata];
        case Comment(text) => Report(CommentText(text));
        case ProcessingInstruction(text) => Report(Instruction(text));
        case XmlDecl => err := Some(MisplacedXmlPi);
        case Invalid => err := Some(InvalidToken);
        case TrailingCr =>
          Report(Text("\n"));
          err := CheckEnd(startTagLevel);
        case TrailingRsqb(text) =>
          Report(Text(text));
          err := CheckEnd(startTagLevel);
        case Partial => err := Some(UnclosedToken);
        case PartialChar => err := Some(PartialCharacter);
      }
    }

    method CheckEnd(startTagLevel: nat) returns (err: Option<Error>)
      requires tagLevel == |tagStack|
      ensures Finish(startTagLevel, tagStack, events)
              == match err case Some(e) => Failed(e, events, None) case None => Done(tagStack, events)
    {
      if startTagLevel == 0 {
        return Some(NoElements);
      }
      if tagLevel != startTagLevel {
        return Some(AsyncEntity);
      }
      return None;
    }

    // A reference to a general entity; entered says that its text has to be read next.
    method HandleReference(name: string) returns (err: Option<Error>, entered: bool)
      requires Valid() && !reenter
      modifies this, entities, entities.generalEntities.Values
      ensures Valid() && tagStack == old(tagStack)
      ensures match Resolve(Decls(), old(entities.Path()), name)
              case Passed(event) => err == None && !entered && events == old(events) + [event]
              case Refused(e) => err == Some(e) && !entered && events == old(events)
              case Enters(_) => err == None && entered && events == old(events)
      ensures !entered ==>
          unchanged(entities) && unchanged(entities.generalEntities.Values) && !reenter && processor == old(processor)
      ensures entered ==> Entered(old(entities.list), old(entities.frames), name)
      ensures entered ==> name !in old(entities.Path())
      ensures entered ==> unchanged(entities.generalEntities.Values - {entities.generalEntities[name]})
    {
      hide PathOf;
      err, entered := None, false;
      var reference := Refer(name);
      if reference.Refused? {
        err := Some(reference.error);
      } else if reference.Passed? {
        Report(reference.event);
      } else {
        entities.ProcessEntity(entities.generalEntities[name], tagLevel);
        processor, reenter, entered := InternalEntity, true, true;
      }
    }

    // name has been put on top of the list; list and frames are what was there before.
    ghost predicate Entered(list: seq<OpenEntity<Token>>, frames: seq<Frame<Token>>, name: string)
      reads this, entities
    {
      && processor == InternalEntity && reenter
      && name in entities.generalEntities
      && entities.list == list + [OpenEntity(entities.generalEntities[name], tagLevel)]
      && Resolve(Decls(), PathOf({}, frames), name).Enters?
      && entities.frames == frames + [Frame(name, tagLevel, true, Resolve(Decls(), PathOf({}, frames), name).text)]
    }

    method DoContent(startTagLevel: nat, text: seq<Token>, start: nat, haveMore: bool)
      returns (err: Option<Error>, next: nat, ghost stop: Stop)
      requires Valid() && start <= |text| && startTagLevel <= |tagStack| && !reenter
      requires Begun(text[start..], tagStack, events)
      modifies this, entities, entities.generalEntities.Values
      ensures next <= |text| && Valid()
      ensures Scanned(Decls(), old(entities.Path()), startTagLevel, haveMore, text[start..], old(tagStack), old(events),
                      stop, text[next..], tagStack, events)
      ensures err == if stop.AtError? then Some(stop.error) else None
      ensures stop.AtEnd? && !haveMore ==> next == |text|
      ensures !stop.Opened? ==> unchanged(entities) && unchanged(entities.generalEntities.Values) && !reenter
      ensures !stop.Opened? ==> processor == if stop.AtRootEnd? then Epilog else old(processor)
      ensures stop.Opened? ==> Entered(old(entities.list), old(entities.frames), stop.name)
      ensures stop.Opened? ==> unchanged(entities.generalEntities.Values - {entities.generalEntities[stop.name]})
    {
      hide PathOf, Plain, Resolve, Inline, Enter, Work, OpenList.Valid, Entered, Begun;
      ghost var dtd, path := Decls(), entities.Path();
      err, next, stop := None, start, AtEnd;
      while next < |text| && !(Incomplete(text[next]) && haveMore)
        invariant start <= next <= |text| && Valid() && err == None && stop == AtEnd && !reenter
        invariant unchanged(entities) && unchanged(entities.generalEntities.Values) && processor == old(processor)
        invariant startTagLevel <= |tagStack| && Begun(text[next..], tagStack, events)
        invariant Inline(dtd, true, path, startTagLevel, haveMore, text[start..], old(tagStack), old(events))
               == Inline(dtd, true, path, startTagLevel, haveMore, text[next..], tagStack, events)
        invariant Work(dtd, path, text[next..]) <= Work(dtd, path, text[start..])
      {
        ghost var rest := text[next + 1..];
        assert text[next..] == [text[next]] + rest;
        if text[next].EntityRef? {
          UnfoldReference(dtd, path, startTagLevel, haveMore, text[next].name, rest, tagStack, events);
          var entered;
          err, entered := HandleReference(text[next].name);
          if err.Some? {
            stop := AtError(err.value);
            return;
          }
          if entered {
            stop := Opened(text[next].name);
            next := next + 1;
            return;
          }
        } else {
          UnfoldToken(dtd, path, startTagLevel, haveMore, text[next], rest, tagStack, events);
          var ended;
          err, ended := HandleToken(startTagLevel, text[next], haveMore, rest);
          if err.Some? {
            stop := AtError(err.value);
            return;
          }
          if ended {
            processor := Epilog;
            next := next + 1;
            stop := AtRootEnd;
            return;
          }
          if Incomplete(text[next]) {
            next := |text|;
            return;
          }
        }
        next := next + 1;
      }
      UnfoldEnd(dtd, path, startTagLevel, haveMore, text[next..], tagStack, events);
      if !haveMore {
        err := CheckEnd(startTagLevel);
        if err.Some? {
          stop := AtError(err.value);
        }
      }
    }

    // What the parser will do: rest is what is left of the document.
    ghost predicate Parsing(more: bool, rest: seq<Token>, whole: Outcome)
      reads this, entities
    {
      Rising(entities.frames, |tagStack|) && Resume(Decls(), more, entities.frames, rest, tagStack, events) == whole
    }

    // The run ends here, with an error.
    ghost predicate Fails(error: Error, whole: Outcome)
      reads this
    {
      whole.Failed? && whole.error == error && whole.events == events
    }

    // The part of internalEntityProcessor that reads on in the innermost open entity.
    method ReadEntity(ghost more: bool, ghost rest: seq<Token>, ghost whole: Outcome) returns (err: Option<Error>)
      requires Valid() && entities.list != [] && processor == InternalEntity && !reenter
      requires Parsing(more, rest, whole) && entities.list[|entities.list| - 1].entity.hasMore
      modifies this, entities, entities.generalEntities.Values
      ensures err.Some? ==> Fails(err.value, whole)
      ensures err.None? ==> Valid() && reenter && Parsing(more, rest, whole)
      ensures err.None? ==> processor == if entities.list == [] then Content else InternalEntity
      ensures err.None? ==> (entities.list == [] ==> tagStack != [])
      ensures err.None? ==> StackWork(Decls(), entities.frames) < old(StackWork(Decls(), entities.frames))
    {
      hide PathOf, Resolve, Resume, StackWork, Rising, Scanned, OpenList.Valid, Begun;
      ghost var dtd, tags, before := Decls(), tagStack, events;
      entities.Innermost();
      ghost var frames := entities.frames;
      ghost var front, f := frames[..|frames| - 1], frames[|frames| - 1];
      assert frames == front + [f];
      var openEntity := entities.list[|entities.list| - 1];
      var entity := openEntity.entity;
      PathSnoc({}, front, f);
      RisingSnoc(front, f, |tagStack|);
      err := None;
      var next;
      ghost var stop;
      BeginsOpen(entity.decl.text.value[entity.processed..], tagStack, events);
      err, next, stop := DoContent(openEntity.startTagLevel, entity.decl.text.value, entity.processed, false);
      ghost var rest' := entity.decl.text.value[next..];
      EntityStops(dtd, more, front, f, rest, tags, before, stop, rest', tagStack, events);
      if err.Some? {
        return;
      }
      ghost var above := entities.frames[|front| + 1..];
      assert entities.frames == front + [f] + above;
      entities.MarkProgress(entity, next, next != |entity.decl.text.value| && reenter, front, f, above);
      ghost var f' := entities.frames[|front|];
      assert f'.rest == rest';
      if next != |entity.decl.text.value| && reenter {
        OpenFromEntity(dtd, more, front, f, rest, tags, before, stop.name, f', tagStack, events);
        assert entities.frames == front + [f', above[0]];
        return;
      }
      if openEntity.startTagLevel != tagLevel {
        TooEarlyInEntity(dtd, more, front, f, rest, tags, before, stop.name, rest', tagStack, events);
        return Some(AsyncEntity);
      }
      if stop.Opened? {
        OpenFromEntity(dtd, more, front, f, rest, tags, before, stop.name, f', tagStack, events);
        assert entities.frames == front + [f', above[0]];
      } else {
        assert entities.frames == front + [f'];
      }
      reenter := true;
    }

    method InternalEntityProcessor(ghost more: bool, ghost rest: seq<Token>, ghost whole: Outcome)
      returns (err: Option<Error>)
      requires Valid() && entities.list != [] && processor == InternalEntity && !reenter
      requires Parsing(more, rest, whole)
      modifies this, entities, entities.generalEntities.Values
      ensures err.Some? ==> Fails(err.value, whole)
      ensures err.None? ==> Valid() && reenter && Parsing(more, rest, whole)
      ensures err.None? ==> processor == if entities.list == [] then Content else InternalEntity
      ensures err.None? ==> (entities.list == [] ==> tagStack != [])
      ensures err.None? ==> StackWork(Decls(), entities.frames) < old(StackWork(Decls(), entities.frames))
    {
      hide PathOf, Resolve, Resume, StackWork, Rising, Scanned, OpenList.Valid, Begun;
      entities.Innermost();
      var entity := entities.list[|entities.list| - 1].entity;
      if entity.hasMore {
        err := ReadEntity(more, rest, whole);
        return;
      }
      ghost var dtd, front, f := Decls(), entities.frames[..|entities.frames| - 1], entities.frames[|entities.frames| - 1];
      assert entities.frames == front + [f];
      PathSnoc({}, front, f);
      RisingSnoc(front, f, |tagStack|);
      err := None;
      EntityClosed(dtd, more, front, f, rest, tagStack, events);
      entities.Close(entity, front, f);
      if entities.list == [] {
        processor := Content;
      }
      reenter := true;
    }

    // The steps still to be taken, errors aside.
    ghost function Left(rest: seq<Token>): nat
      reads entities
    {
      StackWork(Decls(), entities.frames) + Work(Decls(), {}, rest)
    }

    // contentProcessor; the processor is not changed here but by doContent.
    method ContentProcessor(text: seq<Token>, start: nat, haveMore: bool, ghost whole: Outcome)
      returns (err: Option<Error>, next: nat)
      requires Valid() && entities.list == [] && processor == Content && !reenter && start <= |text|
      requires Begun(text[start..], tagStack, events) && Parsing(haveMore, text[start..], whole)
      modifies this, entities, entities.generalEntities.Values
      ensures next <= |text|
      ensures err.Some? ==> Fails(err.value, whole)
      ensures err.None? && !reenter && processor == Epilog ==> whole == Ended(text[next..], events)
      ensures err.None? && !reenter && processor != Epilog ==> Valid() && entities.list == [] && processor == Content
      ensures err.None? && !reenter && processor != Epilog ==> whole == Done(tagStack, events)
      ensures err.None? && reenter ==> Valid() && processor == InternalEntity && entities.list != []
      ensures err.None? && reenter ==> Parsing(haveMore, text[next..], whole)
      ensures err.None? && reenter ==> Left(text[next..]) < old(Left(text[start..]))
    {
      hide PathOf, Resolve, Resume, StackWork, Rising, OpenList.Valid, Begun, Inline, Work;
      ghost var dtd, tags, before := Decls(), tagStack, events;
      entities.NoneOpen();
      NoFrames(dtd, haveMore, text[start..], tagStack, events);
      ghost var stop;
      err, next, stop := DoContent(0, text, start, haveMore);
      if stop.Opened? {
        OpenFromDocument(dtd, haveMore, text[start..], tags, before, stop.name, text[next..], tagStack, events);
        assert entities.frames == [Frame(stop.name, tagLevel, true, Resolve(dtd, {}, stop.name).text)];
      }
    }

    /** callProcessor: re-entering until nothing asks for it reads the document as inlining its entities would. */
    method CallProcessor(text: seq<Token>, haveMore: bool) returns (err: Option<Error>, next: nat)
      requires Valid() && entities.list == [] && processor == Content && !reenter
      requires Begun(text, tagStack, events)
      modifies this, entities, entities.generalEntities.Values
      ensures next <= |text|
      ensures var whole := Inline(Decls(), true, {}, 0, haveMore, text, old(tagStack), old(events));
              match err
              case Some(e) => whole.Failed? && whole.error == e && whole.events == events
              case None =>
                if processor == Epilog then whole == Ended(text[next..], events)
                else whole == Done(tagStack, events) && Valid() && entities.list == [] && processor == Content && !reenter
    {
      hide PathOf, Resolve, Resume, StackWork, Rising, OpenList.Valid, Begun, Inline, Work;
      ghost var dtd := Decls();
      ghost var whole := Inline(dtd, true, {}, 0, haveMore, text, tagStack, events);
      next := 0;
      assert text[next..] == text;
      entities.NoneOpen();
      NoFrames(dtd, haveMore, text, tagStack, events);
      while true
        invariant Valid() && next <= |text| && !reenter && Parsing(haveMore, text[next..], whole)
        invariant processor == if entities.list == [] then Content else InternalEntity
        invariant entities.list == [] ==> Begun(text[next..], tagStack, events)
        decreases Left(text[next..])
      {
        if processor == Content {
          err, next := ContentProcessor(text, next, haveMore, whole);
        } else {
          err := InternalEntityProcessor(haveMore, text[next..], whole);
        }
        if !reenter {
          break;
        }
        reenter := false;
        if err.Some? {
          return;
        }
        if entities.list == [] {
          BeginsOpen(text[next..], tagStack, events);
        }
      }
    }
  }
}
