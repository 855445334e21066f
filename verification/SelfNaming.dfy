/** The build without general entities (XML_GE is 0): the text of every entity is `&amp;name;`, so that a reference
    comes out as it was written. */
module SelfNaming {

  import opened Options
  import opened OpenEntities
  import Content = DoContent
  import Attribute = AttributeValue

  // ---------- content ----------

  function ContentText(name: string): seq<Content.Token> {
    [Content.Predefined('&'), Content.DataChars(name + ";")]
  }

  ghost predicate NamesItself(dtd: Content.Dtd) {
    forall n {:trigger dtd.entities[n]} :: n in dtd.entities && dtd.entities[n].text.Some? ==>
                                             dtd.entities[n].text.value == ContentText(n)
  }

  function Shown(name: string): seq<Content.Event> {
    [Content.Text("&"), Content.Text(name + ";")]
  }

  lemma {:induction false} TextIsShown(dtd: Content.Dtd, hasty: bool, path: set<string>, name: string,
                                       tags: seq<string>, events: seq<Content.Event>)
    requires tags != []
    ensures Content.Inline(dtd, hasty, path, |tags|, false, ContentText(name), tags, events)
            == Content.Done(tags, events + Shown(name))
  {
    var text := ContentText(name);
    assert text[1..] == [Content.DataChars(name + ";")] && text[1..][1..] == [];
    assert events + [Content.Text("&")] + [Content.Text(name + ";")] == events + Shown(name);
    assert Content.Inline(dtd, hasty, path, |tags|, false, [], tags, events + Shown(name))
        == Content.Done(tags, events + Shown(name));
    assert Content.Inline(dtd, hasty, path, |tags|, false, text[1..], tags, events + [Content.Text("&")])
        == Content.Done(tags, events + Shown(name));
  }

  /** In content a reference comes out as written, and the document is read as if it stood there as text; nothing is
      ever recursive, and the early check of the level never matters. */
  lemma {:induction false} ReferenceIsShown(dtd: Content.Dtd, hasty: bool, more: bool, name: string,
                                            rest: seq<Content.Token>, tags: seq<string>, events: seq<Content.Event>)
    requires NamesItself(dtd) && tags != [] && Content.Resolve(dtd, {}, name).Enters?
    ensures Content.Inline(dtd, hasty, {}, 0, more, [Content.EntityRef(name)] + rest, tags, events)
            == Content.Inline(dtd, hasty, {}, 0, more, rest, tags, events + Shown(name))
  {
    hide NamesItself;
    var tokens := [Content.EntityRef(name)] + rest;
    assert tokens[0] == Content.EntityRef(name) && tokens[1..] == rest;
    TextOf(dtd, name);
    TextIsShown(dtd, hasty, {} + {name}, name, tags, events);
  }

  lemma {:induction false} TextOf(dtd: Content.Dtd, name: string)
    requires NamesItself(dtd) && Content.Resolve(dtd, {}, name).Enters?
    ensures Content.Resolve(dtd, {}, name) == Content.Enters(ContentText(name))
  {
    assert dtd.entities[name].text.value == ContentText(name);
  }

  lemma {:induction false} DocumentIsInlined(dtd: Content.Dtd, more: bool, tokens: seq<Content.Token>)
    requires NamesItself(dtd)
    ensures Content.Inline(dtd, true, {}, 0, more, tokens, [], [])
            == Content.Inline(dtd, false, {}, 0, more, tokens, [], [])
  {
    forall n | n in dtd.entities && dtd.entities[n].text.Some?
      ensures Content.EndsPlainly(dtd.entities[n].text.value)
    {
      assert dtd.entities[n].text.value == ContentText(n);
    }
    Content.PlainEndingsAreInlined(dtd, more, tokens);
  }

  // ---------- attribute values ----------

  function AttributeText(name: string): seq<Attribute.Token> {
    [Attribute.Predefined('&'), Attribute.DataChars(name + ";")]
  }

  ghost predicate AttributesNameThemselves(dtd: Attribute.Dtd) {
    forall n {:trigger dtd.entities[n]} :: n in dtd.entities && dtd.entities[n].text.Some? ==>
                                             dtd.entities[n].text.value == AttributeText(n)
  }

  lemma {:induction false} AttributeTextIsShown(dtd: Attribute.Dtd, isCdata: bool, path: set<string>, name: string,
                                                out: string)
    ensures Attribute.Expand(dtd, isCdata, path, AttributeText(name), out) == Attribute.Ok(out + "&" + name + ";")
  {
    var text := AttributeText(name);
    assert text[1..] == [Attribute.DataChars(name + ";")] && text[1..][1..] == [];
    assert out + "&" + (name + ";") == out + "&" + name + ";";
    assert Attribute.Expand(dtd, isCdata, path, text[1..], out + "&") == Attribute.Ok(out + "&" + name + ";");
  }

  /** The same for a reference in an attribute value. */
  lemma {:induction false} AttributeReferenceIsShown(dtd: Attribute.Dtd, isCdata: bool, name: string,
                                                     rest: seq<Attribute.Token>, out: string)
    requires AttributesNameThemselves(dtd) && Attribute.Resolve(dtd, dtd.outer, name).Enters?
    ensures Attribute.Expand(dtd, isCdata, dtd.outer, [Attribute.EntityRef(name)] + rest, out)
            == Attribute.Expand(dtd, isCdata, dtd.outer, rest, out + "&" + name + ";")
  {
    var tokens := [Attribute.EntityRef(name)] + rest;
    assert tokens[0] == Attribute.EntityRef(name) && tokens[1..] == rest;
    assert dtd.entities[name].text.value == AttributeText(name);
    AttributeTextIsShown(dtd, isCdata, dtd.outer + {name}, name, out);
  }

  // No value is recursive, unless it refers to an entity that content has open.
  lemma {:induction false} NoValueIsRecursive(dtd: Attribute.Dtd, isCdata: bool, tokens: seq<Attribute.Token>)
    requires AttributesNameThemselves(dtd)
    requires forall t {:trigger t in tokens} :: t in tokens && t.EntityRef? ==> t.name !in dtd.outer
    ensures Attribute.Value(dtd, isCdata, tokens) != Attribute.Err(Attribute.RecursiveEntityRef)
  {
    hide Attribute.EndsFrom;
    forall t | t in tokens
      ensures Attribute.EndsFrom(dtd, t, 1)
    {
      EndsAtOnce(dtd, t);
    }
    assert Attribute.EndsWithin(dtd, tokens, 1);
    var r := Attribute.Value(dtd, isCdata, tokens);
    if r.Err? && r.error == Attribute.RecursiveEntityRef {
      Attribute.RecursionExactlyWhenEndless(dtd, isCdata, tokens);
    }
  }

  lemma {:induction false} EndsAtOnce(dtd: Attribute.Dtd, t: Attribute.Token)
    requires AttributesNameThemselves(dtd) && (t.EntityRef? ==> t.name !in dtd.outer)
    ensures Attribute.EndsFrom(dtd, t, 1)
  {
    if t.EntityRef? && Attribute.Resolve(dtd, dtd.outer, t.name).Enters? {
      assert dtd.entities[t.name].text.value == AttributeText(t.name);
      forall u | u in AttributeText(t.name)
        ensures Attribute.EndsFrom(dtd, u, 0)
      {
      }
    }
  }
}
