/** What an attribute value means (XML 1.0, section 3.3.3): references replaced by their text, every character of white
    space by a space, character references by their characters. */
module AttributeMeaning {
  import opened AttributeValue
  import opened OpenEntities
  import opened Options

  // A value with its references replaced: tokens, and references that may not stand there.
  datatype Piece = Plainly(t: Token) | Forbidden(error: Error)

  function Replaced(dtd: Dtd, path: set<string>, tokens: seq<Token>): seq<Piece>
    decreases |dtd.entities.Keys - path|, |tokens|
  {
    if tokens == [] then []
    else if tokens[0].EntityRef? then
      match Resolve(dtd, path, tokens[0].name)
      case Skipped => Replaced(dtd, path, tokens[1..])
      case Refused(e) => [Forbidden(e)] + Replaced(dtd, path, tokens[1..])
      case Enters(text) =>
        PathGrows(dtd.entities, path, tokens[0].name);
        Replaced(dtd, path + {tokens[0].name}, text) + Replaced(dtd, path, tokens[1..])
    else [Plainly(tokens[0])] + Replaced(dtd, path, tokens[1..])
  }

  // Exactly one space for a character of white space or the end of a line; text, and the character that a reference
  // stands for, as they are.
  function Contribution(t: Token): string {
    if t.Newline? || t.WhiteSpace? || t.TrailingCr? then " "
    else if t.CharRef? then t.encoded
    else if t.Predefined? then [t.ch]
    else if t.DataChars? then t.text
    else ""
  }

  function Fault(p: Piece): Option<Error> {
    if p.Forbidden? then Some(p.error)
    else if p.t.CharRef? && p.t.code < 0 then Some(BadCharRef)
    else if p.t.Invalid? || p.t.Partial? then Some(InvalidToken)
    else if p.t.PartialChar? || p.t.EntityRef? then Some(UnexpectedState)
    else None
  }

  function FirstFault(pieces: seq<Piece>): Option<Error> {
    if pieces == [] then None
    else if Fault(pieces[0]).Some? then Fault(pieces[0])
    else FirstFault(pieces[1..])
  }

  function Contents(pieces: seq<Piece>): string {
    if pieces == [] then ""
    else (if pieces[0].Plainly? then Contribution(pieces[0].t) else "") + Contents(pieces[1..])
  }

  lemma {:induction false} Together(a: seq<Piece>, b: seq<Piece>)
    ensures Contents(a + b) == Contents(a) + Contents(b)
    ensures FirstFault(a + b) == if FirstFault(a).Some? then FirstFault(a) else FirstFault(b)
  {
    if a == [] {
      assert a + b == b;
    } else {
      assert (a + b)[0] == a[0] && (a + b)[1..] == a[1..] + b;
      Together(a[1..], b);
    }
  }

  function Meaning(pieces: seq<Piece>, out: string): Result {
    match FirstFault(pieces)
    case Some(e) => Err(e)
    case None => Ok(out + Contents(pieces))
  }

  lemma {:induction false} OneMeans(t: Token, out: string)
    requires !t.EntityRef?
    ensures Plain(true, t, out) == Meaning([Plainly(t)], out)
  {
    var pieces := [Plainly(t)];
    assert pieces[1..] == [] && Contents([]) == "" && FirstFault([]) == None;
    assert Contribution(t) + "" == Contribution(t);
  }

  lemma {:induction false} MeaningThen(a: seq<Piece>, b: seq<Piece>, out: string)
    ensures Meaning(a + b, out) == var r := Meaning(a, out); if r.Err? then r else Meaning(b, r.out)
  {
    hide Contents, FirstFault;
    Together(a, b);
    assert out + (Contents(a) + Contents(b)) == (out + Contents(a)) + Contents(b);
  }

  /** A CDATA value is the concatenation of what its tokens contribute, references replaced, or the first error. */
  lemma {:induction false} CdataMeans(dtd: Dtd, path: set<string>, tokens: seq<Token>, out: string)
    ensures Expand(dtd, true, path, tokens, out) == Meaning(Replaced(dtd, path, tokens), out)
    decreases |dtd.entities.Keys - path|, |tokens|
  {
    hide Plain, Meaning;
    if tokens == [] {
      NothingMeans(out);
    } else {
      var rest := Replaced(dtd, path, tokens[1..]);
      if tokens[0].EntityRef? {
        match Resolve(dtd, path, tokens[0].name)
        case Skipped => CdataMeans(dtd, path, tokens[1..], out);
        case Refused(e) => ForbiddenMeans(e, rest, out);
        case Enters(text) =>
          PathGrows(dtd.entities, path, tokens[0].name);
          CdataMeans(dtd, path + {tokens[0].name}, text, out);
          MeaningThen(Replaced(dtd, path + {tokens[0].name}, text), rest, out);
          var inner := Expand(dtd, true, path + {tokens[0].name}, text, out);
          if inner.Ok? {
            CdataMeans(dtd, path, tokens[1..], inner.out);
          }
      } else {
        OneMeans(tokens[0], out);
        MeaningThen([Plainly(tokens[0])], rest, out);
        var r := Plain(true, tokens[0], out);
        if r.Ok? {
          CdataMeans(dtd, path, tokens[1..], r.out);
        }
      }
    }
  }

  lemma {:induction false} NothingMeans(out: string)
    ensures Meaning([], out) == Ok(out)
  {
    assert out + "" == out;
  }

  lemma {:induction false} ForbiddenMeans(e: Error, rest: seq<Piece>, out: string)
    ensures Meaning([Forbidden(e)] + rest, out) == Err(e)
  {
    assert ([Forbidden(e)] + rest)[0] == Forbidden(e);
  }

  /** The value of an attribute, and with another type than CDATA its spaces normalised. */
  lemma {:induction false} ValueMeans(dtd: Dtd, tokens: seq<Token>)
    ensures Value(dtd, true, tokens) == Meaning(Replaced(dtd, dtd.outer, tokens), "")
    ensures LegalTable(dtd.entities) && Legal(tokens) ==>
              var cdata := Meaning(Replaced(dtd, dtd.outer, tokens), "");
              Value(dtd, false, tokens) == if cdata.Ok? then Ok(Normalize(cdata.out)) else cdata
  {
    hide Meaning, Expand, Normalize;
    CdataMeans(dtd, dtd.outer, tokens, "");
    if LegalTable(dtd.entities) && Legal(tokens) {
      OtherTypesNormalizeCdata(dtd, tokens);
    }
  }

  /** Which references stand for text, and why others do not (section 4.1): the entity is to be declared, in the internal
      subset when that matters, not open already, parsed, and internal. */
  lemma {:induction false} ReferenceRules(dtd: Dtd, path: set<string>, name: string)
    ensures var r := Resolve(dtd, path, name);
            if name !in dtd.entities then
              && (r == Refused(UndefinedEntity) <==> dtd.check) && (r == Skipped <==> !dtd.check)
            else
              var d := dtd.entities[name];
              var visible := d.isInternal || !dtd.check;
              && (r == Refused(EntityDeclaredInPe) <==> !visible)
              && (r == Refused(RecursiveEntityRef) <==> visible && name in path)
              && (r == Refused(BinaryEntityRef) <==> visible && name !in path && d.notation)
              && (r == Refused(AttributeExternalEntityRef) <==> visible && name !in path && !d.notation && d.text == None)
              && (forall text :: r == Enters(text) <==> visible && name !in path && !d.notation && d.text == Some(text))
  {
  }
}
