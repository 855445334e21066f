/** When the early check of the level makes a difference, in terms of the entities and the text alone. */
module EarlyCheck {

  import opened OpenEntities
  import opened DoContent
  import opened Options

  // What reading a text does to the tags: it leaves these open, it stops, or it comes to a reference behind which the
  // level is checked too early, with something to report in its text.
  datatype Walk = Through(tags: seq<string>) | Stops | Loses

  function WalkOf(dtd: Dtd, path: set<string>, base: nat, more: bool, tokens: seq<Token>, tags: seq<string>): (w: Walk)
    requires base <= |tags|
    ensures w.Through? ==> base <= |w.tags|
    decreases |dtd.entities.Keys - path|, |tokens|, 0
  {
    if tokens == [] then (if more then Through(tags) else WalkPast(Finish(base, tags, [])))
    else if tokens[0].EntityRef? then
      match Resolve(dtd, path, tokens[0].name)
      case Passed(_) => WalkOf(dtd, path, base, more, tokens[1..], tags)
      case Refused(_) => Stops
      case Enters(_) => EnterWalk(dtd, path, base, more, tokens[0].name, tokens[1..], tags)
    else if Incomplete(tokens[0]) then
      (if more then Through(tags) else WalkPast(Plain(base, more, tokens[0], tokens[1..], tags, [])))
    else
      match WalkPast(Plain(base, more, tokens[0], tokens[1..], tags, []))
      case Through(tags') => WalkOf(dtd, path, base, more, tokens[1..], tags')
      case _ => Stops
  }

  function EnterWalk(dtd: Dtd, path: set<string>, base: nat, more: bool, name: string, rest: seq<Token>,
                     tags: seq<string>): (w: Walk)
    requires base <= |tags| && Resolve(dtd, path, name).Enters?
    ensures w.Through? ==> base <= |w.tags|
    decreases |dtd.entities.Keys - path|, |rest|, 1
  {
    PathGrows(dtd.entities, path, name);
    var text := Resolve(dtd, path, name).text;
    if TooEarly(base, rest, tags) then (if LeadOf(dtd, path + {name}, text).SomethingElse? then Loses else Stops)
    else
      match WalkOf(dtd, path + {name}, |tags|, false, text, tags)
      case Through(tags') => WalkOf(dtd, path, base, more, rest, tags')
      case Stops => Stops
      case Loses => Loses
  }

  function WalkPast(r: Outcome): Walk {
    if r.Done? then Through(r.tags) else Stops
  }

  // The same run, whatever stopped it.
  predicate Same(a: Outcome, b: Outcome) {
    a == b || (a.Failed? && b.Failed? && a.error == b.error && a.events == b.events)
  }

  // The run was cut at a reference with something to report.
  predicate CutShort(dtd: Dtd, r: Outcome) {
    r.Failed? && r.cut.Some? && LeadOf(dtd, r.cut.value.path, r.cut.value.text).SomethingElse?
  }

  predicate Follows(dtd: Dtd, w: Walk, r: Outcome) {
    match w
    case Through(tags) => r.Done? && r.tags == tags
    case Stops => !r.Done? && !CutShort(dtd, r)
    case Loses => CutShort(dtd, r)
  }

  // What plain tokens do to the tags does not depend on the events.
  lemma {:induction false} PlainFollows(dtd: Dtd, base: nat, more: bool, t: Token, rest: seq<Token>, tags: seq<string>,
                                        events: seq<Event>)
    requires base <= |tags| && !t.EntityRef?
    ensures Follows(dtd, WalkPast(Plain(base, more, t, rest, tags, [])), Plain(base, more, t, rest, tags, events))
  {
  }

  lemma {:induction false} WalkFollows(dtd: Dtd, path: set<string>, base: nat, more: bool, tokens: seq<Token>,
                                       tags: seq<string>, events: seq<Event>)
    requires base <= |tags|
    ensures Follows(dtd, WalkOf(dtd, path, base, more, tokens, tags),
                    Inline(dtd, true, path, base, more, tokens, tags, events))
    decreases |dtd.entities.Keys - path|, |tokens|, 0
  {
    hide Plain, LeadOf, Enter, EnterWalk;
    if tokens == [] {
    } else if tokens[0].EntityRef? {
      match Resolve(dtd, path, tokens[0].name)
      case Passed(event) => WalkFollows(dtd, path, base, more, tokens[1..], tags, events + [event]);
      case Refused(_) =>
      case Enters(_) => EnterFollows(dtd, path, base, more, tokens[0].name, tokens[1..], tags, events);
    } else {
      var r := Plain(base, more, tokens[0], tokens[1..], tags, events);
      PlainFollows(dtd, base, more, tokens[0], tokens[1..], tags, events);
      if r.Done? && !Incomplete(tokens[0]) {
        WalkFollows(dtd, path, base, more, tokens[1..], r.tags, r.events);
      }
    }
  }

  lemma {:induction false} EnterFollows(dtd: Dtd, path: set<string>, base: nat, more: bool, name: string,
                                        rest: seq<Token>, tags: seq<string>, events: seq<Event>)
    requires base <= |tags| && Resolve(dtd, path, name).Enters?
    ensures Follows(dtd, EnterWalk(dtd, path, base, more, name, rest, tags),
                    Enter(dtd, true, path, base, more, name, rest, tags, events))
    decreases |dtd.entities.Keys - path|, |rest|, 1
  {
    hide Inline, WalkOf, LeadOf;
    PathGrows(dtd.entities, path, name);
    var text := Resolve(dtd, path, name).text;
    if !TooEarly(base, rest, tags) {
      WalkFollows(dtd, path + {name}, |tags|, false, text, tags, events);
      var inner := Inline(dtd, true, path + {name}, |tags|, false, text, tags, events);
      if inner.Done? {
        WalkFollows(dtd, path, base, more, rest, inner.tags, inner.events);
      }
    }
  }

  predicate NotCut(r: Outcome) {
    r.Failed? ==> r.cut.None?
  }

  lemma {:induction false} InliningIsNotCut(dtd: Dtd, path: set<string>, base: nat, more: bool, tokens: seq<Token>,
                                            tags: seq<string>, events: seq<Event>)
    requires base <= |tags|
    ensures NotCut(Inline(dtd, false, path, base, more, tokens, tags, events))
    decreases |dtd.entities.Keys - path|, |tokens|, 0
  {
    hide Plain, Enter;
    if tokens == [] {
    } else if tokens[0].EntityRef? {
      match Resolve(dtd, path, tokens[0].name)
      case Passed(event) => InliningIsNotCut(dtd, path, base, more, tokens[1..], tags, events + [event]);
      case Refused(_) =>
      case Enters(_) => EnteringIsNotCut(dtd, path, base, more, tokens[0].name, tokens[1..], tags, events);
    } else {
      var r := Plain(base, more, tokens[0], tokens[1..], tags, events);
      PlainIsNotCut(base, more, tokens[0], tokens[1..], tags, events);
      if r.Done? && !Incomplete(tokens[0]) {
        InliningIsNotCut(dtd, path, base, more, tokens[1..], r.tags, r.events);
      }
    }
  }

  lemma {:induction false} PlainIsNotCut(base: nat, more: bool, t: Token, rest: seq<Token>, tags: seq<string>,
                                         events: seq<Event>)
    requires base <= |tags| && !t.EntityRef?
    ensures NotCut(Plain(base, more, t, rest, tags, events))
  {
  }

  lemma {:induction false} EnteringIsNotCut(dtd: Dtd, path: set<string>, base: nat, more: bool, name: string,
                                            rest: seq<Token>, tags: seq<string>, events: seq<Event>)
    requires base <= |tags| && Resolve(dtd, path, name).Enters?
    ensures NotCut(Enter(dtd, false, path, base, more, name, rest, tags, events))
    decreases |dtd.entities.Keys - path|, |rest|, 1
  {
    hide Inline;
    PathGrows(dtd.entities, path, name);
    var text := Resolve(dtd, path, name).text;
    InliningIsNotCut(dtd, path + {name}, |tags|, false, text, tags, events);
    var inner := Inline(dtd, false, path + {name}, |tags|, false, text, tags, events);
    if inner.Done? {
      InliningIsNotCut(dtd, path, base, more, rest, inner.tags, inner.events);
    }
  }

  /** The parser does recursive inlining, errors and all, exactly when the walk over the tags loses nothing. */
  lemma {:induction false} DiffersExactlyWhenLosing(dtd: Dtd, path: set<string>, base: nat, more: bool,
                                                    tokens: seq<Token>, tags: seq<string>, events: seq<Event>)
    requires base <= |tags| && (base > 0 ==> !more)
    ensures Same(Inline(dtd, true, path, base, more, tokens, tags, events),
                 Inline(dtd, false, path, base, more, tokens, tags, events))
            <==> !WalkOf(dtd, path, base, more, tokens, tags).Loses?
  {
    hide Inline, WalkOf, LeadOf;
    HastyDiffersOnlyBeforeAsync(dtd, path, base, more, tokens, tags, events);
    WalkFollows(dtd, path, base, more, tokens, tags, events);
    InliningIsNotCut(dtd, path, base, more, tokens, tags, events);
  }

  // ---------- the entity table ----------

  // The text of the entity, read inside one element, loses something.
  predicate TextLoses(dtd: Dtd, name: string) {
    match Resolve(dtd, {}, name)
    case Enters(text) => WalkOf(dtd, {name}, 1, false, text, ["r"]).Loses?
    case _ => false
  }

  // The same walk over other tags below the level at which the text begins.
  predicate Shifted(low: seq<string>, w: Walk, low': seq<string>, w': Walk) {
    match w
    case Through(tags) => low <= tags && w' == Through(low' + tags[|low|..])
    case Stops => w' == Stops
    case Loses => w' == Loses
  }

  lemma {:induction false} PlainShifts(base: nat, t: Token, rest: seq<Token>, low: seq<string>, low': seq<string>,
                                       top: seq<string>)
    requires low != [] && low' != [] && base <= |top| && !t.EntityRef?
    ensures Shifted(low, WalkPast(Plain(|low| + base, false, t, rest, low + top, [])),
                    low', WalkPast(Plain(|low'| + base, false, t, rest, low' + top, [])))
  {
    if t.StartTag? {
      assert low + top + [t.name] == low + (top + [t.name]) && low' + top + [t.name] == low' + (top + [t.name]);
    } else if t.EndTag? && top != [] {
      assert (low + top)[..|low + top| - 1] == low + top[..|top| - 1];
      assert (low' + top)[..|low' + top| - 1] == low' + top[..|top| - 1];
    }
  }

  lemma {:induction false} WalkShifts(dtd: Dtd, path: set<string>, base: nat, tokens: seq<Token>, low: seq<string>,
                                      low': seq<string>, top: seq<string>)
    requires low != [] && low' != [] && base <= |top|
    ensures Shifted(low, WalkOf(dtd, path, |low| + base, false, tokens, low + top),
                    low', WalkOf(dtd, path, |low'| + base, false, tokens, low' + top))
    decreases |dtd.entities.Keys - path|, |tokens|, 0
  {
    hide Plain, LeadOf, EnterWalk, Incomplete;
    if tokens == [] {
      assert (low + top)[|low|..] == top;
    } else if tokens[0].EntityRef? {
      match Resolve(dtd, path, tokens[0].name)
      case Passed(_) => WalkShifts(dtd, path, base, tokens[1..], low, low', top);
      case Refused(_) =>
      case Enters(_) => EnterShifts(dtd, path, base, tokens[0].name, tokens[1..], low, low', top);
    } else {
      PlainShifts(base, tokens[0], tokens[1..], low, low', top);
      var w := WalkPast(Plain(|low| + base, false, tokens[0], tokens[1..], low + top, []));
      if w.Through? && !Incomplete(tokens[0]) {
        ShiftOn(dtd, path, base, tokens[1..], low, low', w);
      }
    }
  }

  lemma {:induction false} ShiftOn(dtd: Dtd, path: set<string>, base: nat, rest: seq<Token>, low: seq<string>,
                                   low': seq<string>, w: Walk)
    requires low != [] && low' != [] && w.Through? && low <= w.tags && |low| + base <= |w.tags|
    ensures Shifted(low, WalkOf(dtd, path, |low| + base, false, rest, w.tags),
                    low', WalkOf(dtd, path, |low'| + base, false, rest, low' + w.tags[|low|..]))
    decreases |dtd.entities.Keys - path|, |rest|, 1
  {
    hide WalkOf, Shifted;
    assert w.tags == low + w.tags[|low|..];
    WalkShifts(dtd, path, base, rest, low, low', w.tags[|low|..]);
  }

  lemma {:induction false} EnterShifts(dtd: Dtd, path: set<string>, base: nat, name: string, rest: seq<Token>,
                                       low: seq<string>, low': seq<string>, top: seq<string>)
    requires low != [] && low' != [] && base <= |top| && Resolve(dtd, path, name).Enters?
    ensures Shifted(low, EnterWalk(dtd, path, |low| + base, false, name, rest, low + top),
                    low', EnterWalk(dtd, path, |low'| + base, false, name, rest, low' + top))
    decreases |dtd.entities.Keys - path|, |rest|, 2
  {
    hide WalkOf, LeadOf;
    PathGrows(dtd.entities, path, name);
    var text := Resolve(dtd, path, name).text;
    if !TooEarly(|low| + base, rest, low + top) {
      WalkShifts(dtd, path + {name}, |top|, text, low, low', top);
      assert |low + top| == |low| + |top| && |low' + top| == |low'| + |top|;
      var w := WalkOf(dtd, path + {name}, |low + top|, false, text, low + top);
      if w.Through? {
        ShiftOn(dtd, path, base, rest, low, low', w);
      }
    }
  }

  // Inside the root element a document loses something only inside the text of an entity.
  lemma {:induction false} DocumentLosesNothing(dtd: Dtd, more: bool, tokens: seq<Token>, tags: seq<string>)
    requires tags != [] && forall name {:trigger TextLoses(dtd, name)} :: !TextLoses(dtd, name)
    ensures !WalkOf(dtd, {}, 0, more, tokens, tags).Loses?
    decreases |tokens|
  {
    hide Plain, LeadOf;
    if tokens == [] {
    } else if tokens[0].EntityRef? {
      var name, rest := tokens[0].name, tokens[1..];
      match Resolve(dtd, {}, name)
      case Passed(_) => DocumentLosesNothing(dtd, more, rest, tags);
      case Refused(_) =>
      case Enters(text) =>
        assert !TextLoses(dtd, name) && {} + {name} == {name};
        WalkShifts(dtd, {name}, 0, text, ["r"], tags, []);
        assert ["r"] + [] == ["r"] && tags + [] == tags;
        var w := WalkOf(dtd, {name}, |tags|, false, text, tags);
        if w.Through? {
          DocumentLosesNothing(dtd, more, rest, w.tags);
        }
    } else {
      PlainBeginsOpen(more, tokens[0], tokens[1..], tags);
      var w := WalkPast(Plain(0, more, tokens[0], tokens[1..], tags, []));
      if w.Through? && !Incomplete(tokens[0]) {
        DocumentLosesNothing(dtd, more, tokens[1..], w.tags);
      }
    }
  }

  lemma {:induction false} PlainBeginsOpen(more: bool, t: Token, rest: seq<Token>, tags: seq<string>)
    requires !t.EntityRef? && (tags != [] || t.StartTag? || t.EmptyTag? || t.Partial?)
    ensures var w := WalkPast(Plain(0, more, t, rest, tags, []));
            w.Through? ==> w.tags != []
  {
  }

  ghost predicate Agrees(dtd: Dtd, more: bool, tokens: seq<Token>) {
    Same(Inline(dtd, true, {}, 0, more, tokens, [], []), Inline(dtd, false, {}, 0, more, tokens, [], []))
  }

  /** On every document the parser does recursive inlining, if and only if no text of the table loses anything. */
  lemma {:induction false} TableDecides(dtd: Dtd)
    ensures (forall more, tokens {:trigger Agrees(dtd, more, tokens)} ::
               Begun(tokens, [], []) ==> Agrees(dtd, more, tokens))
            <==> (forall name {:trigger TextLoses(dtd, name)} :: !TextLoses(dtd, name))
  {
    hide Inline, WalkOf, Plain, TextLoses, Same;
    if forall name {:trigger TextLoses(dtd, name)} :: !TextLoses(dtd, name) {
      forall more, tokens | Begun(tokens, [], [])
        ensures Agrees(dtd, more, tokens)
      {
        WholeDocumentLosesNothing(dtd, more, tokens);
        DiffersExactlyWhenLosing(dtd, {}, 0, more, tokens, [], []);
      }
    } else {
      var name :| TextLoses(dtd, name);
      var tokens := [StartTag("r"), EntityRef(name)];
      WitnessLoses(dtd, name);
      DiffersExactlyWhenLosing(dtd, {}, 0, false, tokens, [], []);
      assert !Agrees(dtd, false, tokens);
    }
  }

  lemma {:induction false} WholeDocumentLosesNothing(dtd: Dtd, more: bool, tokens: seq<Token>)
    requires Begun(tokens, [], []) && forall name {:trigger TextLoses(dtd, name)} :: !TextLoses(dtd, name)
    ensures !WalkOf(dtd, {}, 0, more, tokens, []).Loses?
  {
    hide Plain, TextLoses, LeadOf;
    if tokens != [] {
      PlainBeginsOpen(more, tokens[0], tokens[1..], []);
      var w := WalkPast(Plain(0, more, tokens[0], tokens[1..], [], []));
      if w.Through? {
        DocumentLosesNothing(dtd, more, tokens[1..], w.tags);
      }
    }
  }

  lemma {:induction false} WitnessLoses(dtd: Dtd, name: string)
    requires TextLoses(dtd, name)
    ensures WalkOf(dtd, {}, 0, false, [StartTag("r"), EntityRef(name)], []).Loses?
  {
    var tokens := [StartTag("r"), EntityRef(name)];
    assert [] + ["r"] == ["r"] && {} + {name} == {name};
    assert tokens[1..] == [EntityRef(name)] && tokens[1..][1..] == [];
    assert WalkOf(dtd, {}, 0, false, tokens[1..], ["r"]).Loses?;
  }
}
