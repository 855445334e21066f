/** getContext and setContext: handing namespace bindings and open entities to the parser of an external entity. */
module Context {
  import opened Options
  import opened ContextString
  import opened Namespaces

  class Entity {
    const name: string
    var open: bool

    constructor (name: string)
      ensures this.name == name && !open
    {
      this.name := name;
      open := false;
    }
  }

  function NameOf(p: Prefix): string {
    if p.name.None? then "" else p.name.value
  }

  function BoundItem(decls: seq<Decl>, p: Prefix): seq<Item> {
    match Innermost(decls, p)
    case None => []
    case Some(uri) => [ContextString.Binding(NameOf(p), uri)]
  }

  // The items of the prefixes that are bound.
  function BoundItems(decls: seq<Decl>, ps: seq<Prefix>): seq<Item> {
    if ps == [] then []
    else BoundItems(decls, ps[..|ps| - 1]) + BoundItem(decls, ps[|ps| - 1])
  }

  // The named prefixes in a list without repetition.
  ghost predicate Listed(ps: seq<Prefix>, all: set<Prefix>, first: Prefix) {
    && (forall p {:trigger p in ps} :: p in ps ==> p in all && p != first && NameOf(p) != "")
    && (forall p {:trigger p in all} :: p in all && p != first ==> p in ps)
    && (forall i, j {:trigger ps[i], ps[j]} :: 0 <= i < j < |ps| ==> NameOf(ps[i]) != NameOf(ps[j]))
  }

  lemma {:induction false} ListedMore(ps: seq<Prefix>, all: set<Prefix>, first: Prefix, p: Prefix)
    requires Listed(ps, all, first) && p !in all && first in all && NameOf(p) != ""
    requires forall i {:trigger ps[i]} :: 0 <= i < |ps| ==> NameOf(ps[i]) != NameOf(p)
    ensures Listed(ps + [p], all + {p}, first)
  {
  }

  function OpenItems(es: seq<Entity>): seq<Item>
    reads es
  {
    if es == [] then []
    else
      var e := es[|es| - 1];
      OpenItems(es[..|es| - 1]) + if e.open then [OpenEntity(e.name)] else []
  }

  // The URI that parsing items leaves name bound to, in a parser where nothing was bound.
  function BoundTo(items: seq<Item>, name: string): Option<string> {
    if items == [] then None
    else
      var item := items[|items| - 1];
      if !item.Binding? || item.name != name then BoundTo(items[..|items| - 1], name)
      else if item.uri == "" then None
      else Some(item.uri)
  }

  // Prefixes are in the order in which the iterator of their hash table delivers them, and so are entities.
  class Parser {
    const namespaces: Namespaces.Parser
    const entities: seq<Entity>
    var prefixes: seq<Prefix>
    var tempPool: string
    const mem: nat -> bool
    var allocs: nat

    ghost predicate Valid()
      reads this`prefixes, namespaces, namespaces.prefixes, namespaces.live, namespaces.free
    {
      && namespaces.Valid()
      && Listed(prefixes, namespaces.prefixes, namespaces.defaultPrefix)
      && (forall i, j {:trigger entities[i], entities[j]} :: 0 <= i < j < |entities| ==> entities[i].name != entities[j].name)
    }

    constructor (namespaces: Namespaces.Parser, entities: seq<Entity>, prefixes: seq<Prefix>, mem: nat -> bool)
      ensures this.namespaces == namespaces && this.entities == entities && this.prefixes == prefixes && this.mem == mem
    {
      this.namespaces, this.entities, this.prefixes, this.mem := namespaces, entities, prefixes, mem;
      tempPool, allocs := "", 0;
    }

    ghost function ContextItems(): seq<Item>
      reads this`prefixes, namespaces`decls, entities
    {
      BoundItems(namespaces.decls, [namespaces.defaultPrefix] + prefixes) + OpenItems(entities)
    }

    ghost predicate Refused(since: nat)
      reads this`allocs
    {
      exists k: nat {:trigger mem(k)} :: since <= k < allocs && !mem(k)
    }

    // poolAppendChar: the block may be full and another one refused.
    method AppendChar(c: char) returns (ok: bool)
      modifies this`tempPool, this`allocs
      ensures tempPool == if ok then old(tempPool) + [c] else old(tempPool)
      ensures old(allocs) <= allocs && (!ok ==> Refused(old(allocs)))
    {
      ok := mem(allocs);
      assert ok == mem(old(allocs));
      allocs := allocs + 1;
      if ok {
        tempPool := tempPool + [c];
      }
    }

    method AppendChars(s: string) returns (ok: bool)
      modifies this`tempPool, this`allocs
      ensures ok ==> tempPool == old(tempPool) + s
      ensures old(allocs) <= allocs && (!ok ==> Refused(old(allocs)))
    {
      ok := true;
      for i := 0 to |s|
        invariant tempPool == old(tempPool) + s[..i] && old(allocs) <= allocs
      {
        ok := AppendChar(s[i]);
        if !ok {
          return;
        }
        assert s[..i + 1] == s[..i] + [s[i]];
      }
      assert s[..|s|] == s;
      ok := true;
    }

    // A binding's URI without the separator that follows it in the buffer.
    method BindingUri(b: Binding, ghost p: Prefix) returns (uri: string)
      requires Valid() && p in namespaces.prefixes && p.binding == b
      ensures Innermost(namespaces.decls, p) == Some(uri)
    {
      namespaces.BindingIsInnermost(p);
      uri := b.uri[..|b.uri| - |Suffix(namespaces.mode)|];
    }

    method AppendSeparator(needSep: bool) returns (ok: bool)
      modifies this`tempPool, this`allocs
      ensures ok ==> tempPool == old(tempPool) + if needSep then [SEP] else ""
      ensures old(allocs) <= allocs && (!ok ==> Refused(old(allocs)))
    {
      ok := true;
      if needSep {
        ok := AppendChar(SEP);
      }
    }

    method PrintBinding(name: string, uri: string, needSep: bool, ghost items: seq<Item>) returns (ok: bool)
      requires tempPool == Print(items) && needSep == (items != [])
      modifies this`tempPool, this`allocs
      ensures ok ==> tempPool == Print(items + [ContextString.Binding(name, uri)])
      ensures old(allocs) <= allocs && (!ok ==> Refused(old(allocs)))
    {
      PrintSnoc(items, ContextString.Binding(name, uri));
      NoItems();
      hide Print;
      ghost var before := tempPool + if needSep then [SEP] else "";
      ok := AppendSeparator(needSep);
      if !ok {
        return;
      }
      ok := AppendChars(name);
      if !ok {
        return;
      }
      ok := AppendChar('=');
      if !ok {
        return;
      }
      ok := AppendChars(uri);
      assert before + name + ['='] + uri == before + (name + "=" + uri);
    }

    method PrintEntity(name: string, needSep: bool, ghost items: seq<Item>) returns (ok: bool)
      requires tempPool == Print(items) && needSep == (items != [])
      modifies this`tempPool, this`allocs
      ensures ok ==> tempPool == Print(items + [OpenEntity(name)])
      ensures old(allocs) <= allocs && (!ok ==> Refused(old(allocs)))
    {
      PrintSnoc(items, OpenEntity(name));
      NoItems();
      hide Print;
      ok := AppendSeparator(needSep);
      if !ok {
        return;
      }
      ok := AppendChars(name);
    }

    // One prefix of the context.
    method PrintPrefix(p: Prefix, needSep: bool, ghost items: seq<Item>) returns (ok: bool, sep: bool)
      requires Valid() && p in namespaces.prefixes && tempPool == Print(items) && needSep == (items != [])
      modifies this`tempPool, this`allocs
      ensures ok ==>
          tempPool == Print(items + BoundItem(namespaces.decls, p)) && sep == (items + BoundItem(namespaces.decls, p) != [])
      ensures old(allocs) <= allocs && (!ok ==> Refused(old(allocs)))
    {
      hide Print, Innermost, Namespaces.Parser.Fits;
      if p.binding == null {
        namespaces.BindingIsInnermost(p);
        assert items + [] == items;
        return true, needSep;
      }
      var uri := BindingUri(p.binding, p);
      ok := PrintBinding(NameOf(p), uri, needSep, items);
      sep := true;
    }

    // The bindings of the context.
    method PrintPrefixes() returns (ok: bool, needSep: bool)
      requires Valid() && tempPool == ""
      modifies this`tempPool, this`allocs
      ensures ok ==>
        var items := BoundItems(namespaces.decls, [namespaces.defaultPrefix] + prefixes);
        tempPool == Print(items) && needSep == (items != [])
      ensures old(allocs) <= allocs && (!ok ==> Refused(old(allocs)))
    {
      hide Print, Innermost, BoundItem, BoundItems, Namespaces.Parser.Fits;
      ghost var decls := namespaces.decls;
      var first := namespaces.defaultPrefix;
      namespaces.DefaultIsPrefix();
      NoItems();
      ok, needSep := PrintPrefix(first, false, []);
      BoundSnoc(decls, [], first);
      assert [first] + prefixes[..0] == [first] && [] + [first] == [first];
      for i := 0 to |prefixes|
        invariant ok ==> tempPool == Print(BoundItems(decls, [first] + prefixes[..i]))
        invariant ok ==> needSep == (BoundItems(decls, [first] + prefixes[..i]) != [])
        invariant old(allocs) <= allocs && (!ok ==> Refused(old(allocs)))
      {
        if !ok {
          return;
        }
        assert prefixes[i] in prefixes;
        BoundSnoc(decls, [first] + prefixes[..i], prefixes[i]);
        assert [first] + prefixes[..i + 1] == [first] + prefixes[..i] + [prefixes[i]];
        ok, needSep := PrintPrefix(prefixes[i], needSep, BoundItems(decls, [first] + prefixes[..i]));
      }
      assert prefixes[..|prefixes|] == prefixes;
    }

    // The open entities of the context.
    method PrintEntities(sep: bool, ghost bound: seq<Item>) returns (ok: bool)
      requires tempPool == Print(bound) && sep == (bound != [])
      modifies this`tempPool, this`allocs
      ensures ok ==> tempPool == Print(bound + OpenItems(entities))
      ensures old(allocs) <= allocs && (!ok ==> Refused(old(allocs)))
    {
      hide Print, OpenItems;
      var needSep := sep;
      OpenNone();
      assert entities[..0] == [] && bound + [] == bound;
      for i := 0 to |entities|
        invariant tempPool == Print(bound + OpenItems(entities[..i])) && needSep == (bound + OpenItems(entities[..i]) != [])
        invariant old(allocs) <= allocs
      {
        var e := entities[i];
        OpenSnoc(entities, i);
        ghost var items := bound + OpenItems(entities[..i]);
        if e.open {
          ok := PrintEntity(e.name, needSep, items);
          if !ok {
            return;
          }
          needSep := true;
          assert items + [OpenEntity(e.name)] == bound + OpenItems(entities[..i + 1]);
        }
      }
      assert entities[..|entities|] == entities;
      ok := true;
    }

    /** getContext: what is bound, then what is open. */
    method GetContext() returns (context: Option<string>)
      requires Valid() && tempPool == ""
      modifies this`tempPool, this`allocs
      ensures context.Some? ==> context.value == Print(ContextItems())
      ensures context.None? ==> Refused(old(allocs))
    {
      hide Print, Innermost, BoundItems;
      var ok, needSep := PrintPrefixes();
      if !ok {
        return None;
      }
      ok := PrintEntities(needSep, BoundItems(namespaces.decls, [namespaces.defaultPrefix] + prefixes));
      if !ok {
        return None;
      }
      ok := AppendChar('\0');
      if !ok {
        return None;
      }
      return Some(tempPool[..|tempPool| - 1]);
    }

    // What the items so far have done to the bindings.
    ghost predicate Mirrors(items: seq<Item>)
      reads this`prefixes, namespaces`decls, namespaces`prefixes
    {
      && (forall p {:trigger Innermost(namespaces.decls, p)} :: p in namespaces.prefixes ==>
            Innermost(namespaces.decls, p) == BoundTo(items, NameOf(p)))
      && (forall n {:trigger BoundTo(items, n)} :: n != "" && BoundTo(items, n).Some? ==> HasPrefix(n))
    }

    ghost predicate HasPrefix(name: string)
      reads this`prefixes
    {
      exists i {:trigger prefixes[i]} :: 0 <= i < |prefixes| && NameOf(prefixes[i]) == name
    }

    // The map from names to URIs.
    ghost predicate BindsTo(name: string, uri: string)
      reads namespaces`decls, namespaces`prefixes
    {
      exists p {:trigger NameOf(p)} :: p in namespaces.prefixes && NameOf(p) == name
        && Innermost(namespaces.decls, p) == Some(uri)
    }

    lemma {:induction false} MirroredBindings(items: seq<Item>)
      requires Valid() && Mirrors(items)
      ensures forall name, uri :: BindsTo(name, uri) <==> BoundTo(items, name) == Some(uri)
      ensures forall name, uri :: name != "" && BindsTo(name, uri) ==> HasPrefix(name)
    {
      hide Innermost, BoundTo, Namespaces.Parser.Fits;
      namespaces.DefaultIsPrefix();
      forall name, uri
        ensures BindsTo(name, uri) <==> BoundTo(items, name) == Some(uri)
      {
        if BoundTo(items, name) == Some(uri) {
          if name == "" {
            assert NameOf(namespaces.defaultPrefix) == name;
          } else {
            assert HasPrefix(name);
            var i :| 0 <= i < |prefixes| && NameOf(prefixes[i]) == name;
            assert prefixes[i] in prefixes && prefixes[i] in namespaces.prefixes;
          }
        }
      }
    }

    // What the items so far have done to the entities.
    ghost predicate Opens(items: seq<Item>, before: seq<bool>)
      reads entities
    {
      && |before| == |entities|
      && forall i {:trigger entities[i]} :: 0 <= i < |entities| ==>
           (entities[i].open <==> before[i] || OpenEntity(entities[i].name) in items)
    }

    // lookup in the entities of the DTD; an unknown name is passed over.
    method Open(name: string, ghost items: seq<Item>, ghost before: seq<bool>)
      requires Valid() && Mirrors(items) && Opens(items, before)
      modifies entities
      ensures Mirrors(items + [OpenEntity(name)]) && Opens(items + [OpenEntity(name)], before)
    {
      hide Innermost, BoundTo, Namespaces.Parser.Fits, HasPrefix;
      forall n {:trigger BoundTo(items + [OpenEntity(name)], n)}
        ensures BoundTo(items + [OpenEntity(name)], n) == BoundTo(items, n)
      {
        BoundSnocName(items, OpenEntity(name), n);
      }
      var i := 0;
      while i < |entities| && entities[i].name != name
        invariant i <= |entities| && forall j {:trigger entities[j]} :: 0 <= j < i ==> entities[j].name != name
      {
        i := i + 1;
      }
      if i < |entities| {
        entities[i].open := true;
      }
      forall j | 0 <= j < |entities|
        ensures entities[j].open <==> before[j] || OpenEntity(entities[j].name) in items + [OpenEntity(name)]
      {
        if i < |entities| && j != i {
          assert entities[j].name != entities[i].name;
        }
      }
    }

    // lookup in the prefixes of the DTD
    method FindPrefix(name: string) returns (p: Prefix?)
      requires Valid() && name != ""
      ensures p != null ==> p in namespaces.prefixes && p.name == Some(name) && HasPrefix(name)
      ensures p == null ==> !HasPrefix(name)
    {
      hide Namespaces.Parser.Fits;
      var i := 0;
      while i < |prefixes| && NameOf(prefixes[i]) != name
        invariant i <= |prefixes| && forall j {:trigger prefixes[j]} :: 0 <= j < i ==> NameOf(prefixes[j]) != name
      {
        i := i + 1;
      }
      if i == |prefixes| {
        return null;
      }
      assert prefixes[i] in prefixes;
      namespaces.NamedIsNotDefault(prefixes[i]);
      return prefixes[i];
    }

    // An unknown prefix is created, bound to nothing.
    method CreatePrefix(name: string, ghost items: seq<Item>) returns (p: Prefix)
      requires Valid() && Mirrors(items) && name != "" && !HasPrefix(name)
      modifies this`prefixes, namespaces`prefixes
      ensures Valid() && Mirrors(items) && old(prefixes) <= prefixes && old(namespaces.prefixes) <= namespaces.prefixes
      ensures p in namespaces.prefixes && p.name == Some(name) && HasPrefix(name)
      ensures forall q {:trigger q in namespaces.prefixes} :: q in namespaces.prefixes ==> q in old(namespaces.prefixes) || fresh(q)
    {
      hide Innermost, BoundTo, Namespaces.Parser.Fits, Listed, HasPrefix;
      p := new Prefix(Some(name));
      namespaces.DefaultIsPrefix();
      NotListed(name);
      ListedMore(prefixes, namespaces.prefixes, namespaces.defaultPrefix, p);
      namespaces.NewPrefix(p);
      namespaces.BindingIsInnermost(p);
      prefixes := prefixes + [p];
      HasMore(old(prefixes));
      assert BoundTo(items, name) == None;
    }

    // The same where an unknown prefix is created.
    method LookupPrefix(name: string, ghost items: seq<Item>) returns (p: Prefix?)
      requires Valid() && Mirrors(items) && name != ""
      modifies this`prefixes, this`allocs, namespaces`prefixes
      ensures Valid() && Mirrors(items) && old(prefixes) <= prefixes && old(namespaces.prefixes) <= namespaces.prefixes
      ensures old(allocs) <= allocs && (p == null ==> Refused(old(allocs)))
      ensures p != null ==> p in namespaces.prefixes && p.name == Some(name) && HasPrefix(name)
      ensures forall q {:trigger q in namespaces.prefixes} :: q in namespaces.prefixes ==> q in old(namespaces.prefixes) || fresh(q)
    {
      hide Innermost, BoundTo, Namespaces.Parser.Fits, Listed, HasPrefix;
      p := FindPrefix(name);
      if p != null {
        return;
      }
      var ok := mem(allocs);
      assert ok == mem(old(allocs));
      allocs := allocs + 1;
      if !ok {
        return null;
      }
      p := CreatePrefix(name, items);
    }

    lemma {:induction false} NotListed(name: string)
      requires !HasPrefix(name)
      ensures forall i {:trigger prefixes[i]} :: 0 <= i < |prefixes| ==> NameOf(prefixes[i]) != name
    {
    }

    twostate lemma HasMore(new before: seq<Prefix>)
      requires before == old(prefixes) && |prefixes| == |before| + 1 && before <= prefixes
      ensures forall n {:trigger HasPrefix(n)} :: old(HasPrefix(n)) ==> HasPrefix(n)
      ensures HasPrefix(NameOf(prefixes[|before|]))
    {
      forall n | old(HasPrefix(n))
        ensures HasPrefix(n)
      {
        var j :| 0 <= j < |before| && NameOf(before[j]) == n;
        assert NameOf(prefixes[j]) == n;
      }
    }

    // addBinding for one item.
    method Bind(p: Prefix, uri: string, ghost items: seq<Item>) returns (err: Option<Namespaces.Error>)
      requires Valid() && Mirrors(items) && p in namespaces.prefixes && (NameOf(p) == "" || HasPrefix(NameOf(p)))
      requires namespaces.tagStack == [] && '\0' !in uri && |uri| < INT_MAX
      modifies namespaces`allocs, namespaces`freeBindingList, namespaces`free, namespaces`live, namespaces`decls, namespaces`inherited
      modifies p, namespaces.free
      ensures Valid()
      ensures err.None? ==> Mirrors(items + [ContextString.Binding(NameOf(p), uri)])
      ensures err.Some? ==> namespaces.Declined(Decl(p, uri), err.value, old(namespaces.allocs))
      ensures old(namespaces.allocs) <= namespaces.allocs
      ensures forall k {:trigger namespaces.free[k]} :: 0 <= k < |namespaces.free| ==> namespaces.free[k] in old(namespaces.free)
    {
      hide Innermost, BoundTo, Namespaces.Parser.Fits, Namespaces.Parser.Declined, Listed, Check;
      ghost var item := ContextString.Binding(NameOf(p), uri);
      err := namespaces.Inherit(p, uri);
      namespaces.DefaultIsPrefix();
      if err.None? {
        forall q | q in namespaces.prefixes
          ensures Innermost(namespaces.decls, q) == BoundTo(items + [item], NameOf(q))
        {
          NamesDiffer(prefixes, namespaces.prefixes, namespaces.defaultPrefix, p, q);
          MirrorStep(old(namespaces.decls), Decl(p, uri), items, namespaces.mode, q);
        }
        forall n | n != "" && BoundTo(items + [item], n).Some?
          ensures HasPrefix(n)
        {
          BoundSnocName(items, item, n);
        }
      }
    }

    // The name in the pool is that of a prefix, or of the default namespace.
    method PrefixInPool(ghost items: seq<Item>) returns (p: Prefix?)
      requires Valid() && Mirrors(items) && '\0' !in tempPool
      modifies this`prefixes, this`tempPool, this`allocs, namespaces`prefixes
      ensures Valid() && Mirrors(items) && old(prefixes) <= prefixes && old(namespaces.prefixes) <= namespaces.prefixes
      ensures p != null ==> p in namespaces.prefixes && NameOf(p) == old(tempPool) && (p.name.None? <==> old(tempPool) == "")
      ensures p != null ==> NameOf(p) == "" || HasPrefix(NameOf(p))
      ensures old(allocs) <= allocs && (p == null ==> Refused(old(allocs)))
      ensures p != null ==> tempPool == ""
      ensures forall q {:trigger q in namespaces.prefixes} :: q in namespaces.prefixes ==> q in old(namespaces.prefixes) || fresh(q)
    {
      hide Innermost, BoundTo, Namespaces.Parser.Fits, Listed, HasPrefix;
      if tempPool == "" {
        namespaces.DefaultIsPrefix();
        return namespaces.defaultPrefix;
      }
      var ok := AppendChar('\0');
      if !ok {
        return null;
      }
      p := LookupPrefix(tempPool[..|tempPool| - 1], items);
      tempPool := "";
    }

    // The characters of a URI.
    method ReadUri(context: string, start: nat) returns (ok: bool, end: nat)
      requires start <= |context| && tempPool == ""
      modifies this`tempPool, this`allocs
      ensures start <= end <= |context|
      ensures ok ==> end == start + UriEnd(context[start..]) && tempPool == context[start..end] + ['\0']
      ensures old(allocs) <= allocs && (!ok ==> Refused(old(allocs)))
    {
      end := start;
      while end < |context| && context[end] != SEP
        invariant start <= end <= |context| && tempPool == context[start..end] && SEP !in context[start..end]
        invariant old(allocs) <= allocs
      {
        ok := AppendChar(context[end]);
        if !ok {
          return;
        }
        assert context[start..end + 1] == context[start..end] + [context[end]];
        end := end + 1;
      }
      UriEndIs(context[start..end], context[end..]);
      assert context[start..] == context[start..end] + context[end..];
      ok := AppendChar('\0');
    }

    // Memory for the parser or its bindings is missing, or a URI is too long for its buffer.
    ghost predicate ShortOfMemory(since: nat, bindingsSince: nat, context: string)
      reads this`allocs, namespaces`allocs
    {
      Refused(since) || namespaces.Refused(bindingsSince) || |context| >= INT_MAX - Namespaces.EXPAND_SPARE
    }

    // The item of context from index c on that addBinding refuses.
    ghost predicate Refuses(items: seq<Item>, err: Namespaces.Error) {
      exists i {:trigger items[i]} :: 0 <= i < |items| && items[i].Binding?
        && Check(namespaces.mode, if items[i].name == "" then None else Some(items[i].name), items[i].uri) == Some(err)
    }

    // The item of a binding: its name, which is in the pool, begins at c and ends at s.
    method ReadBinding(context: string, c: nat, s: nat, ghost done: seq<Item>)
        returns (ok: bool, err: Option<Namespaces.Error>, next: nat, ghost item: Item)
      requires Valid() && Mirrors(done) && namespaces.tagStack == []
      requires '\0' !in context && |context| < INT_MAX
      requires c <= s < |context| && context[s] == '=' && tempPool == context[c..s] && SEP !in context[c..s] && '=' !in context[c..s]
      requires done + Items(context[c..]) == Items(context)
      modifies this`prefixes, this`tempPool, this`allocs, namespaces, namespaces.prefixes, namespaces.free
      ensures ok <==> err.None?
      ensures namespaces.tagStack == old(namespaces.tagStack)
      ensures ok ==> Valid() && Mirrors(done + [item]) && tempPool == "" && item.Binding?
      ensures old(allocs) <= allocs && old(namespaces.allocs) <= namespaces.allocs
      ensures ok ==> s < next <= |context| && done + [item] + Items(context[next..]) == Items(context)
      ensures ok ==> forall k {:trigger namespaces.free[k]} :: 0 <= k < |namespaces.free| ==> namespaces.free[k] in old(namespaces.free)
      ensures ok ==> forall p {:trigger p in namespaces.prefixes} :: p in namespaces.prefixes ==> p in old(namespaces.prefixes) || fresh(p)
      ensures !ok ==> Refuses(Items(context), err.value)
                      || (err == Some(NoMemory) && ShortOfMemory(old(allocs), old(namespaces.allocs), context))
    {
      hide Namespaces.Parser.Fits, Mirrors, Opens, Listed, Check, Items, NameEnd, UriEnd, HasPrefix, Refuses;
      next, item := s, OpenEntity("");
      NoNul(context, c, s);
      var prefix := PrefixInPool(done);
      if prefix == null {
        ok, err := false, Some(NoMemory);
        return;
      }
      var end;
      ok, end := ReadUri(context, s + 1);
      if !ok {
        err := Some(NoMemory);
        return;
      }
      var uri := tempPool[..|tempPool| - 1];
      assert uri == context[s + 1..end];
      item := ContextString.Binding(NameOf(prefix), uri);
      BindingItem(context, c, s, end);
      NoNul(context, s + 1, end);
      err := Bind(prefix, uri, done);
      if err.Some? {
        ok := false;
        namespaces.DeclinedWhy(Decl(prefix, uri), err.value, old(namespaces.allocs));
        if Check(namespaces.mode, prefix.name, uri) == Some(err.value) {
          RefusedItem(done, Items(context[c..]), prefix, uri, err.value);
        }
        return;
      }
      tempPool := "";
      next := if end != |context| then end + 1 else end;
      assert done + [item] + Items(context[next..]) == done + ([item] + Items(context[next..]));
    }

    // The item of an open entity: its name, which is in the pool, begins at c and ends at s.
    method ReadEntity(context: string, c: nat, s: nat, ghost done: seq<Item>, ghost before: seq<bool>)
      returns (ok: bool, next: nat)
      requires Valid() && Mirrors(done) && Opens(done, before)
      requires c <= s <= |context| && c < |context| && (s == |context| || context[s] == SEP)
      requires tempPool == context[c..s] && SEP !in context[c..s] && '=' !in context[c..s]
      requires done + Items(context[c..]) == Items(context)
      modifies this`tempPool, this`allocs, entities
      ensures ok ==>
          Mirrors(done + [OpenEntity(context[c..s])]) && Opens(done + [OpenEntity(context[c..s])], before) && tempPool == ""
      ensures old(allocs) <= allocs && (!ok ==> Refused(old(allocs)))
      ensures ok ==> c < next <= |context|
      ensures ok ==> done + [OpenEntity(context[c..s])] + Items(context[next..]) == Items(context)
    {
      hide Valid, Mirrors, Opens, Items;
      next := if s != |context| then s + 1 else s;
      ok := AppendChar('\0');
      if !ok {
        return;
      }
      EntityItem(context, c, s);
      assert tempPool[..|tempPool| - 1] == context[c..s];
      Open(tempPool[..|tempPool| - 1], done, before);
      tempPool := "";
      assert done + [OpenEntity(context[c..s])] + Items(context[next..]) == done + ([OpenEntity(context[c..s])] + Items(context[next..]));
    }

    /** setContext: the bindings and the open entities of the items in the context; it stops where memory or a binding
        is refused. */
    method SetContext(context: string) returns (ok: bool, err: Option<Namespaces.Error>)
      requires Valid() && Mirrors([]) && tempPool == "" && namespaces.tagStack == []
      requires '\0' !in context && |context| < INT_MAX
      modifies this`prefixes, this`tempPool, this`allocs, namespaces, namespaces.prefixes, namespaces.free, entities
      ensures ok <==> err.None?
      ensures ok ==> Valid() && Mirrors(Items(context)) && Opens(Items(context), old(Flags(entities)))
      ensures !ok ==> Refuses(Items(context), err.value)
                      || (err == Some(NoMemory) && ShortOfMemory(old(allocs), old(namespaces.allocs), context))
    {
      hide Valid, Namespaces.Parser.Fits, Mirrors, Opens, Listed, Check, Items, NameEnd, UriEnd, HasPrefix, Refuses;
      ghost var before := Flags(entities);
      ghost var done: seq<Item> := [];
      OpensNothing();
      var c: nat, s: nat := 0, 0;
      assert context[0..] == context && [] + Items(context) == Items(context);
      while c < |context|
        invariant Valid() && Mirrors(done) && Opens(done, before) && namespaces.tagStack == []
        invariant old(allocs) <= allocs && old(namespaces.allocs) <= namespaces.allocs
        invariant c <= s <= |context| && tempPool == context[c..s]
        invariant SEP !in context[c..s] && '=' !in context[c..s]
        invariant done + Items(context[c..]) == Items(context)
        invariant forall k {:trigger namespaces.free[k]} :: 0 <= k < |namespaces.free| ==> namespaces.free[k] in old(namespaces.free)
        invariant forall p {:trigger p in namespaces.prefixes} :: p in namespaces.prefixes ==> p in old(namespaces.prefixes) || fresh(p)
        decreases |context| - c, |context| - s
      {
        if s == |context| || context[s] == SEP {
          var next;
          ok, next := ReadEntity(context, c, s, done, before);
          if !ok {
            err := Some(NoMemory);
            return;
          }
          done := done + [OpenEntity(context[c..s])];
          c, s := next, next;
        } else if context[s] == '=' {
          var next;
          ghost var item;
          ok, err, next, item := ReadBinding(context, c, s, done);
          if !ok {
            return;
          }
          OpensBinding(done, item, before);
          done := done + [item];
          c, s := next, next;
        } else {
          ok := AppendChar(context[s]);
          if !ok {
            err := Some(NoMemory);
            return;
          }
          assert context[c..s + 1] == context[c..s] + [context[s]];
          s := s + 1;
        }
      }
      assert context[c..] == "";
      NoItems();
      assert done + [] == done;
      ok, err := true, None;
    }

    lemma {:induction false} OpensBinding(items: seq<Item>, item: Item, before: seq<bool>)
      requires Opens(items, before) && item.Binding?
      ensures Opens(items + [item], before)
    {
    }

    lemma {:induction false} OpensNothing()
      ensures Opens([], Flags(entities))
    {
    }

    lemma {:induction false} RefusedItem(done: seq<Item>, rest: seq<Item>, p: Prefix, uri: string,
                                         err: Namespaces.Error)
      requires rest != [] && rest[0] == ContextString.Binding(NameOf(p), uri) && (p.name.None? <==> NameOf(p) == "")
      requires Check(namespaces.mode, p.name, uri) == Some(err)
      ensures Refuses(done + rest, err)
    {
      assert (done + rest)[|done|] == rest[0];
    }
  }

  function Flags(es: seq<Entity>): seq<bool>
    reads es
  {
    seq(|es|, i requires 0 <= i < |es| reads es => es[i].open)
  }

  lemma {:induction false} NoNul(context: string, i: nat, j: nat)
    requires '\0' !in context && i <= j <= |context|
    ensures '\0' !in context[i..j] && |context[i..j]| <= |context|
  {
  }

  // The item from c on, when it is the name of an entity that ends at s.
  lemma {:induction false} EntityItem(context: string, c: nat, s: nat)
    requires c <= s <= |context| && c < |context| && SEP !in context[c..s] && '=' !in context[c..s]
    requires s == |context| || context[s] == SEP
    ensures Items(context[c..]) == [OpenEntity(context[c..s])] + Items(context[if s != |context| then s + 1 else s..])
  {
    hide Items;
    var rest := context[s..];
    assert context[c..] == context[c..s] + rest;
    NextItem(OpenEntity(context[c..s]), rest);
    assert s < |context| ==> rest[1..] == context[s + 1..];
  }

  // The item from c on, when the name of a prefix ends at s.
  lemma {:induction false} BindingItem(context: string, c: nat, s: nat, end: nat)
    requires c <= s < end <= |context| && SEP !in context[c..s] && '=' !in context[c..s]
    requires context[s] == '=' && end == s + 1 + UriEnd(context[s + 1..])
    ensures Items(context[c..]) == [ContextString.Binding(context[c..s], context[s + 1..end])]
                                   + Items(context[if end != |context| then end + 1 else end..])
  {
    hide Items, UriEnd;
    var name, uri, rest := context[c..s], context[s + 1..end], context[end..];
    UriSplits(context[s + 1..]);
    assert context[s + 1..][..end - s - 1] == uri && context[s + 1..][end - s - 1..] == rest;
    assert context[c..] == name + "=" + uri + rest;
    ContextString.NextBinding(name, uri, rest);
    assert end < |context| ==> rest[1..] == context[end + 1..];
  }

  lemma {:induction false} UriSplits(u: string)
    ensures UriEnd(u) <= |u| && SEP !in u[..UriEnd(u)] && (UriEnd(u) < |u| ==> u[UriEnd(u)] == SEP)
  {
    var uri := u[..UriEnd(u)];
    assert forall j {:trigger uri[j]} :: 0 <= j < |uri| ==> uri[j] == u[j];
  }

  lemma {:induction false} NamesDiffer(ps: seq<Prefix>, all: set<Prefix>, first: Prefix, p: Prefix, q: Prefix)
    requires Listed(ps, all, first) && p in all && q in all && first.name.None?
    ensures NameOf(p) == NameOf(q) ==> p == q
  {
  }

  lemma {:induction false} MirrorStep(decls: seq<Decl>, d: Decl, items: seq<Item>, mode: Mode, q: Prefix)
    requires Innermost(decls, q) == BoundTo(items, NameOf(q)) && Accepted(mode, d)
    requires NameOf(d.prefix) == NameOf(q) ==> d.prefix == q
    ensures Innermost(decls + [d], q) == BoundTo(items + [ContextString.Binding(NameOf(d.prefix), d.uri)], NameOf(q))
  {
    assert (decls + [d])[..|decls|] == decls;
    BoundSnocName(items, ContextString.Binding(NameOf(d.prefix), d.uri), NameOf(q));
  }

  lemma {:induction false} BoundSnocName(items: seq<Item>, item: Item, name: string)
    ensures BoundTo(items + [item], name)
            == if !item.Binding? || item.name != name then BoundTo(items, name) else if item.uri == "" then None else Some(item.uri)
  {
    assert (items + [item])[..|items|] == items;
  }

  lemma {:induction false} OpenNone()
    ensures OpenItems([]) == []
  {
  }

  lemma {:induction false} OpenSnoc(es: seq<Entity>, i: nat)
    requires i < |es|
    ensures OpenItems(es[..i + 1]) == if es[i].open then OpenItems(es[..i]) + [OpenEntity(es[i].name)] else OpenItems(es[..i])
  {
    assert es[..i + 1][..i] == es[..i];
  }

  lemma {:induction false} BoundSnoc(decls: seq<Decl>, ps: seq<Prefix>, p: Prefix)
    ensures BoundItems(decls, ps + [p]) == BoundItems(decls, ps) + BoundItem(decls, p)
    ensures ps == [] ==> BoundItems(decls, ps) == [] && BoundItems(decls, [p]) == [] + BoundItem(decls, p)
  {
    assert (ps + [p])[..|ps|] == ps;
    assert ps == [] ==> ps + [p] == [p];
  }

  // ---------- from the parent parser to the child ----------

  // Names and URIs as the tokenizers deliver them.
  predicate CleanName(name: string) {
    SEP !in name && '=' !in name && '\0' !in name
  }

  ghost predicate CleanNames(decls: seq<Decl>, ps: seq<Prefix>, mode: Mode) {
    && (forall i {:trigger ps[i]} :: 0 <= i < |ps| ==> CleanName(NameOf(ps[i])) && (ps[i].name.None? <==> NameOf(ps[i]) == ""))
    && (forall i {:trigger decls[i]} :: 0 <= i < |decls| ==> SEP !in decls[i].uri && Accepted(mode, decls[i]))
  }

  lemma {:induction false} InnermostAccepted(decls: seq<Decl>, p: Prefix, mode: Mode)
    requires forall i {:trigger decls[i]} :: 0 <= i < |decls| ==> SEP !in decls[i].uri && Accepted(mode, decls[i])
    ensures var r := Innermost(decls, p);
            r.Some? ==> r.value != "" && SEP !in r.value && '\0' !in r.value && Check(mode, p.name, r.value) == None
  {
    hide Check;
    if decls != [] && decls[|decls| - 1].prefix != p {
      InnermostAccepted(decls[..|decls| - 1], p, mode);
    } else if decls != [] {
      EmptyOnlyDefault(mode, p.name);
    }
  }

  lemma {:induction false} EmptyOnlyDefault(mode: Mode, name: Option<string>)
    ensures Check(mode, name, "") == None ==> name.None?
  {
  }

  ghost predicate GoodItem(mode: Mode, item: Item) {
    && Clean(item) && '\0' !in item.name
    && (item.Binding? ==> item.uri != "" && '\0' !in item.uri
                          && Check(mode, if item.name == "" then None else Some(item.name), item.uri) == None)
    && (item.OpenEntity? ==> item.name != "")
  }

  ghost predicate GoodItems(mode: Mode, items: seq<Item>) {
    forall i {:trigger items[i]} :: 0 <= i < |items| ==> GoodItem(mode, items[i])
  }

  lemma {:induction false} BoundItemsGood(decls: seq<Decl>, ps: seq<Prefix>, mode: Mode)
    requires CleanNames(decls, ps, mode)
    ensures GoodItems(mode, BoundItems(decls, ps))
  {
    hide Check, Innermost, Accepted;
    if ps != [] {
      var front, p := ps[..|ps| - 1], ps[|ps| - 1];
      BoundItemsGood(decls, front, mode);
      InnermostAccepted(decls, p, mode);
    }
  }

  lemma {:induction false} OpenItemsGood(es: seq<Entity>, mode: Mode)
    requires forall i {:trigger es[i]} :: 0 <= i < |es| ==> CleanName(es[i].name) && es[i].name != ""
    ensures GoodItems(mode, OpenItems(es))
    ensures forall i {:trigger OpenItems(es)[i]} :: 0 <= i < |OpenItems(es)| ==> OpenItems(es)[i].OpenEntity?
  {
    if es != [] {
      OpenItemsGood(es[..|es| - 1], mode);
    }
  }

  // An entity is printed exactly if it is open.
  lemma {:induction false} OpenItemsMeaning(es: seq<Entity>, k: nat)
    requires k < |es| && forall i, j {:trigger es[i], es[j]} :: 0 <= i < j < |es| ==> es[i].name != es[j].name
    ensures OpenEntity(es[k].name) in OpenItems(es) <==> es[k].open
    decreases |es|
  {
    var n := |es| - 1;
    if k < n {
      OpenItemsMeaning(es[..n], k);
      assert es[..n][k] == es[k];
    } else {
      OpenItemsNames(es[..n], es[k].name);
    }
  }

  lemma {:induction false} OpenItemsNames(es: seq<Entity>, name: string)
    requires forall i {:trigger es[i]} :: 0 <= i < |es| ==> es[i].name != name
    ensures OpenEntity(name) !in OpenItems(es)
  {
    if es != [] {
      OpenItemsNames(es[..|es| - 1], name);
    }
  }

  lemma {:induction false} BoundToOpens(items: seq<Item>, more: seq<Item>, name: string)
    requires forall i {:trigger more[i]} :: 0 <= i < |more| ==> more[i].OpenEntity?
    ensures BoundTo(items + more, name) == BoundTo(items, name)
    decreases |more|
  {
    if more == [] {
      assert items + more == items;
    } else {
      var n := |more| - 1;
      BoundToOpens(items, more[..n], name);
      BoundSnocName(items + more[..n], more[n], name);
      assert items + more == items + more[..n] + [more[n]];
    }
  }

  lemma {:induction false} BoundToUnknown(decls: seq<Decl>, ps: seq<Prefix>, name: string)
    requires forall i {:trigger ps[i]} :: 0 <= i < |ps| ==> NameOf(ps[i]) != name
    ensures BoundTo(BoundItems(decls, ps), name) == None
  {
    hide Innermost;
    if ps != [] {
      var n := |ps| - 1;
      BoundToUnknown(decls, ps[..n], name);
      BoundToItem(decls, ps[..n], ps[n], name);
    }
  }

  lemma {:induction false} BoundToItem(decls: seq<Decl>, front: seq<Prefix>, p: Prefix, name: string)
    ensures Innermost(decls, p) != Some("") ==>
      BoundTo(BoundItems(decls, front + [p]), name)
      == if NameOf(p) == name && Innermost(decls, p).Some? then Innermost(decls, p) else BoundTo(BoundItems(decls, front), name)
    ensures NameOf(p) != name ==>
        BoundTo(BoundItems(decls, front + [p]), name) == BoundTo(BoundItems(decls, front), name)
  {
    hide Innermost, BoundTo, BoundItems;
    BoundSnoc(decls, front, p);
    match Innermost(decls, p)
    case None => assert BoundItems(decls, front) + [] == BoundItems(decls, front);
    case Some(uri) => BoundSnocName(BoundItems(decls, front), ContextString.Binding(NameOf(p), uri), name);
  }

  // Reading the printed bindings gives the URI of each prefix.
  lemma {:induction false} BoundItemsMeaning(decls: seq<Decl>, ps: seq<Prefix>, mode: Mode, k: nat)
    requires CleanNames(decls, ps, mode) && k < |ps|
    requires forall i, j {:trigger ps[i], ps[j]} :: 0 <= i < j < |ps| ==> NameOf(ps[i]) != NameOf(ps[j])
    ensures BoundTo(BoundItems(decls, ps), NameOf(ps[k])) == Innermost(decls, ps[k])
    decreases |ps|
  {
    hide Innermost, BoundTo, BoundItems, Accepted;
    var n := |ps| - 1;
    var front := ps[..n];
    assert ps == front + [ps[n]];
    InnermostAccepted(decls, ps[n], mode);
    BoundToItem(decls, front, ps[n], NameOf(ps[k]));
    if k < n {
      BoundItemsMeaning(decls, front, mode, k);
      assert front[k] == ps[k];
    } else {
      BoundToUnknown(decls, front, NameOf(ps[n]));
    }
  }

  lemma {:induction false} GoodItemsReturn(mode: Mode, items: seq<Item>)
    requires GoodItems(mode, items)
    ensures Items(Print(items)) == items && '\0' !in Print(items)
  {
    hide Check, Print, Items;
    RoundTripsExactly(items);
    GoodIsClean(mode, items);
    PrintNoNul(mode, items);
  }

  lemma {:induction false} GoodIsClean(mode: Mode, items: seq<Item>)
    requires GoodItems(mode, items)
    ensures AllClean(items) && (items != [] ==> items[|items| - 1] != OpenEntity(""))
  {
    hide Check;
    forall i | 0 <= i < |items|
      ensures Clean(items[i])
    {
      assert GoodItem(mode, items[i]);
    }
    assert items != [] ==> GoodItem(mode, items[|items| - 1]);
  }

  lemma {:induction false} TerminatedNoNul(mode: Mode, items: seq<Item>)
    requires GoodItems(mode, items)
    ensures '\0' !in Terminated(items)
  {
    hide Check;
    if items != [] {
      TerminatedNoNul(mode, items[..|items| - 1]);
      assert GoodItem(mode, items[|items| - 1]);
    }
  }

  lemma {:induction false} PrintNoNul(mode: Mode, items: seq<Item>)
    requires GoodItems(mode, items)
    ensures '\0' !in Print(items)
  {
    hide Check;
    if items != [] {
      TerminatedNoNul(mode, items[..|items| - 1]);
      assert GoodItem(mode, items[|items| - 1]);
    }
  }

  // The names of a parser are as the tokenizers deliver them.
  ghost predicate WellNamed(parser: Parser)
    reads parser, parser.namespaces, parser.namespaces.prefixes, parser.namespaces.live, parser.namespaces.free
  {
    && parser.Valid()
    && (forall p {:trigger NameOf(p)} :: p in parser.prefixes ==> CleanName(NameOf(p)))
    && (forall i {:trigger parser.namespaces.decls[i]} :: 0 <= i < |parser.namespaces.decls| ==> SEP !in parser.namespaces.decls[i].uri)
    && (forall i {:trigger parser.entities[i]} :: 0 <= i < |parser.entities| ==>
          CleanName(parser.entities[i].name) && parser.entities[i].name != "")
  }

  lemma {:induction false} WellNamedItems(parser: Parser)
    requires WellNamed(parser)
    ensures var items := parser.ContextItems();
            && GoodItems(parser.namespaces.mode, items)
            && (forall p {:trigger NameOf(p)} :: p in parser.namespaces.prefixes ==>
                  BoundTo(items, NameOf(p)) == Innermost(parser.namespaces.decls, p))
            && (forall e {:trigger e.open} :: e in parser.entities ==> (OpenEntity(e.name) in items <==> e.open))
  {
    hide Innermost, BoundTo, BoundItems, OpenItems, Accepted, GoodItem, Namespaces.Parser.Fits;
    var ns := parser.namespaces;
    var ps, bound, opens := [ns.defaultPrefix] + parser.prefixes, BoundItems(ns.decls, [ns.defaultPrefix] + parser.prefixes), OpenItems(parser.entities);
    ns.DefaultIsPrefix();
    AllAccepted(ns);
    forall i | 0 <= i < |ps|
      ensures CleanName(NameOf(ps[i])) && (ps[i].name.None? <==> NameOf(ps[i]) == "")
    {
      if i > 0 {
        assert ps[i] == parser.prefixes[i - 1] && ps[i] in parser.prefixes;
      }
    }
    BoundItemsGood(ns.decls, ps, ns.mode);
    OpenItemsGood(parser.entities, ns.mode);
    forall p | p in ns.prefixes
      ensures BoundTo(bound + opens, NameOf(p)) == Innermost(ns.decls, p)
    {
      BoundToOpens(bound, opens, NameOf(p));
      var k := 0;
      if p != ns.defaultPrefix {
        assert p in parser.prefixes;
        var j: nat :| j < |parser.prefixes| && parser.prefixes[j] == p;
        k := j + 1;
      }
      forall i, j | 0 <= i < j < |ps|
        ensures NameOf(ps[i]) != NameOf(ps[j])
      {
        assert ps[j] == parser.prefixes[j - 1] && ps[j] in parser.prefixes;
        assert i > 0 ==> ps[i] == parser.prefixes[i - 1];
      }
      BoundItemsMeaning(ns.decls, ps, ns.mode, k);
    }
    forall e | e in parser.entities
      ensures OpenEntity(e.name) in bound + opens <==> e.open
    {
      var k: nat :| k < |parser.entities| && parser.entities[k] == e;
      OpenItemsMeaning(parser.entities, k);
      OnlyBindings(ns.decls, ps);
    }
  }

  lemma {:induction false} OnlyBindings(decls: seq<Decl>, ps: seq<Prefix>)
    ensures forall i {:trigger BoundItems(decls, ps)[i]} :: 0 <= i < |BoundItems(decls, ps)| ==> BoundItems(decls, ps)[i].Binding?
  {
    if ps != [] {
      OnlyBindings(decls, ps[..|ps| - 1]);
    }
  }

  lemma {:induction false} AllAccepted(ns: Namespaces.Parser)
    requires ns.Valid()
    ensures forall i {:trigger ns.decls[i]} :: 0 <= i < |ns.decls| ==> Accepted(ns.mode, ns.decls[i])
  {
    forall i | 0 <= i < |ns.decls|
      ensures Accepted(ns.mode, ns.decls[i])
    {
      ns.NamesRecord(i);
    }
  }

  /** What the parent prints, a child that knows of nothing yet takes over: the same binding for every prefix and the
      same open entities.  Only memory can be missing. */
  method HandOver(parent: Parser, child: Parser) returns (ok: bool, err: Option<Namespaces.Error>)
    requires WellNamed(parent) && parent.tempPool == "" && |Print(parent.ContextItems())| < INT_MAX
    requires child.Valid() && child.namespaces.decls == [] && child.namespaces.tagStack == [] && child.tempPool == ""
    requires forall e {:trigger e.open} :: e in child.entities ==> !e.open
    requires parent != child && parent.namespaces.mode == child.namespaces.mode
    modifies parent`tempPool, parent`allocs
    modifies child, child.namespaces, child.namespaces.prefixes, child.namespaces.free, child.entities
    ensures !ok ==> err == Some(NoMemory)
    ensures !ok ==> parent.Refused(old(parent.allocs))
                    || child.ShortOfMemory(old(child.allocs), old(child.namespaces.allocs), Print(old(parent.ContextItems())))
    ensures ok ==> child.Valid()
    ensures ok ==> forall p, q {:trigger NameOf(p), NameOf(q)} ::
      p in old(parent.namespaces.prefixes) && q in child.namespaces.prefixes && NameOf(p) == NameOf(q) ==> Innermost(child.namespaces.decls, q) == Innermost(old(parent.namespaces.decls), p)
    ensures ok ==> forall name, uri :: child.BindsTo(name, uri) <==> old(parent.BindsTo(name, uri))
    ensures ok ==> forall name, uri :: name != "" && old(parent.BindsTo(name, uri)) ==> child.HasPrefix(name)
    ensures ok ==> forall e, f {:trigger e.name, f.name} :: e in parent.entities && f in child.entities ==>
      e.name == f.name ==> f.open == old(e.open)
  {
    hide Innermost, BoundTo, BoundItems, OpenItems, Accepted, Check, Print, Items, Namespaces.Parser.Fits, Listed;
    ghost var items := parent.ContextItems();
    WellNamedItems(parent);
    GoodItemsReturn(parent.namespaces.mode, items);
    var context := parent.GetContext();
    if context == None {
      return false, Some(NoMemory);
    }
    NothingBound(child);
    PrintedBindings(parent);
    ok, err := child.SetContext(context.value);
    if ok {
      child.MirroredBindings(items);
    }
  }

  // The items of a context bind what its parser binds.
  lemma {:induction false} PrintedBindings(parser: Parser)
    requires WellNamed(parser)
    ensures forall name, uri :: parser.BindsTo(name, uri) <==> BoundTo(parser.ContextItems(), name) == Some(uri)
  {
    hide Innermost, BoundTo, BoundItems, OpenItems, Namespaces.Parser.Fits, GoodItems;
    var ns := parser.namespaces;
    var ps := [ns.defaultPrefix] + parser.prefixes;
    WellNamedItems(parser);
    OpenItemsGood(parser.entities, ns.mode);
    forall name, uri
      ensures parser.BindsTo(name, uri) <==> BoundTo(parser.ContextItems(), name) == Some(uri)
    {
      if forall i {:trigger ps[i]} :: 0 <= i < |ps| ==> NameOf(ps[i]) != name {
        BoundToUnknown(ns.decls, ps, name);
        BoundToOpens(BoundItems(ns.decls, ps), OpenItems(parser.entities), name);
      } else {
        var i :| 0 <= i < |ps| && NameOf(ps[i]) == name;
        ns.DefaultIsPrefix();
        assert i > 0 ==> ps[i] == parser.prefixes[i - 1] && ps[i] in parser.prefixes;
        assert ps[i] in ns.prefixes;
      }
    }
  }

  lemma {:induction false} NothingBound(child: Parser)
    requires child.namespaces.decls == []
    ensures child.Mirrors([])
  {
  }
}
