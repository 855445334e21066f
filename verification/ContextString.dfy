/** The context that getContext prints and setContext parses: namespace bindings and open entities. */
module ContextString {

  // CONTEXT_SEP is the form feed.
  const SEP: char := '\U{0C}'

  // The default namespace has the empty name.
  datatype Item = Binding(name: string, uri: string) | OpenEntity(name: string)

  function Show(item: Item): string {
    match item
    case Binding(name, uri) => name + "=" + uri
    case OpenEntity(name) => name
  }

  // Items, each with the separator behind it.
  function Terminated(items: seq<Item>): string {
    if items == [] then "" else Terminated(items[..|items| - 1]) + Show(items[|items| - 1]) + [SEP]
  }

  /** The context: the separator stands between items. */
  function Print(items: seq<Item>): string {
    if items == [] then "" else Terminated(items[..|items| - 1]) + Show(items[|items| - 1])
  }

  lemma {:induction false} PrintSnoc(items: seq<Item>, item: Item)
    ensures Print(items + [item]) == (if items == [] then "" else Print(items) + [SEP]) + Show(item)
  {
    assert (items + [item])[..|items|] == items;
  }

  function NameEnd(s: string): (n: nat)
    ensures n <= |s|
    ensures n < |s| ==> s[n] == SEP || s[n] == '='
    ensures forall j {:trigger s[j]} :: 0 <= j < n ==> s[j] != SEP && s[j] != '='
  {
    if s == "" || s[0] == SEP || s[0] == '=' then 0 else 1 + NameEnd(s[1..])
  }

  function UriEnd(s: string): (n: nat)
    ensures n <= |s|
    ensures n < |s| ==> s[n] == SEP
    ensures forall j {:trigger s[j]} :: 0 <= j < n ==> s[j] != SEP
  {
    if s == "" || s[0] == SEP then 0 else 1 + UriEnd(s[1..])
  }

  function Behind(s: string, n: nat): (r: string)
    requires n <= |s|
    ensures |r| <= |s| - n && (n < |s| ==> |r| < |s|)
  {
    if n < |s| then s[n + 1..] else ""
  }

  // The items that setContext finds.
  function Items(s: string): seq<Item>
    decreases |s|
  {
    if s == "" then []
    else
      var n := NameEnd(s);
      if n == |s| || s[n] == SEP then [OpenEntity(s[..n])] + Items(Behind(s, n))
      else
        var u := s[n + 1..];
        [Binding(s[..n], u[..UriEnd(u)])] + Items(Behind(u, UriEnd(u)))
  }

  predicate Clean(item: Item) {
    && SEP !in item.name && '=' !in item.name
    && (item.Binding? ==> SEP !in item.uri)
  }

  predicate AllClean(items: seq<Item>) {
    forall i {:trigger items[i]} :: 0 <= i < |items| ==> Clean(items[i])
  }

  lemma {:induction false} NameEndIs(name: string, t: string)
    requires SEP !in name && '=' !in name && (t == "" || t[0] == SEP || t[0] == '=')
    ensures NameEnd(name + t) == |name|
  {
    var s := name + t;
    assert forall i {:trigger s[i]} :: 0 <= i < |name| ==> s[i] == name[i] && name[i] in name;
    assert t != "" ==> s[|name|] == t[0];
  }

  lemma {:induction false} UriEndIs(uri: string, t: string)
    requires SEP !in uri && (t == "" || t[0] == SEP)
    ensures UriEnd(uri + t) == |uri|
  {
    var s := uri + t;
    assert forall i {:trigger s[i]} :: 0 <= i < |uri| ==> s[i] == uri[i] && uri[i] in uri;
    assert t != "" ==> s[|uri|] == t[0];
  }

  // The next item, followed by t.
  lemma {:induction false} NextItem(item: Item, t: string)
    requires Clean(item) && (t == "" || t[0] == SEP) && Show(item) + t != ""
    ensures Items(Show(item) + t) == [item] + Items(if t == "" then "" else t[1..])
  {
    hide Items, NameEnd, UriEnd, Behind;
    match item
    case OpenEntity(name) => NextEntity(name, t);
    case Binding(name, uri) =>
      assert Show(item) + t == name + "=" + uri + t;
      NextBinding(name, uri, t);
  }

  lemma {:induction false} NextEntity(name: string, t: string)
    requires SEP !in name && '=' !in name && (t == "" || t[0] == SEP) && name + t != ""
    ensures Items(name + t) == [OpenEntity(name)] + Items(if t == "" then "" else t[1..])
  {
    hide NameEnd, UriEnd;
    NameEndIs(name, t);
    BehindIs(name, t);
  }

  lemma {:induction false} NextBinding(name: string, uri: string, t: string)
    requires SEP !in name && '=' !in name && SEP !in uri && (t == "" || t[0] == SEP)
    ensures Items(name + "=" + uri + t) == [Binding(name, uri)] + Items(if t == "" then "" else t[1..])
  {
    hide NameEnd, UriEnd, Behind;
    var u := uri + t;
    var s := name + ("=" + u);
    assert name + "=" + uri + t == s && s[|name|] == '=';
    NameEndIs(name, "=" + u);
    assert s[..|name|] == name && s[|name| + 1..] == u;
    UriEndIs(uri, t);
    BehindIs(uri, t);
  }

  lemma {:induction false} BehindIs(front: string, t: string)
    ensures (front + t)[..|front|] == front && Behind(front + t, |front|) == if t == "" then "" else t[1..]
  {
    var s := front + t;
    if t != "" {
      assert s[|front| + 1..] == t[1..];
    }
  }

  lemma {:induction false} ItemsOfTerminated(items: seq<Item>, t: string)
    requires AllClean(items)
    ensures Items(Terminated(items) + t) == items + Items(t)
  {
    hide Items, Show, Clean;
    if items == [] {
      assert Terminated(items) + t == t;
    } else {
      var front, last := items[..|items| - 1], items[|items| - 1];
      var t' := Show(last) + ([SEP] + t);
      assert Terminated(items) + t == Terminated(front) + t';
      ItemsOfTerminated(front, t');
      NextItem(last, [SEP] + t);
      assert ([SEP] + t)[1..] == t;
      assert items + Items(t) == front + ([last] + Items(t));
    }
  }

  lemma {:induction false} ItemsAreClean(s: string)
    ensures AllClean(Items(s))
    decreases |s|
  {
    hide Behind, NameEnd, UriEnd;
    if s != "" {
      var n := NameEnd(s);
      assert forall j {:trigger s[..n][j]} :: 0 <= j < n ==> s[..n][j] == s[j];
      if n == |s| || s[n] == SEP {
        ItemsAreClean(Behind(s, n));
      } else {
        var u := s[n + 1..];
        ItemsAreClean(Behind(u, UriEnd(u)));
      }
    }
  }

  lemma {:induction false} NoItems()
    ensures Items("") == [] && Print([]) == ""
  {
  }

  lemma {:induction false} ShowsNothing(item: Item)
    ensures Show(item) == "" <==> item == OpenEntity("")
  {
  }

  /** Parsing gives back the printed items exactly when names hold neither a separator nor an equals sign, URIs hold no
      separator, and the last item is not an entity without a name. */
  lemma {:induction false} RoundTripsExactly(items: seq<Item>)
    ensures Items(Print(items)) == items <==> AllClean(items) && (items != [] ==> items[|items| - 1] != OpenEntity(""))
  {
    hide Items, Show, Clean, Terminated;
    ItemsAreClean(Print(items));
    NoItems();
    if items != [] && AllClean(items) {
      var front, last := items[..|items| - 1], items[|items| - 1];
      ItemsOfTerminated(front, Show(last));
      ShowsNothing(last);
      if Show(last) == "" {
        assert Items(Print(items)) == front + [];
      } else {
        NextItem(last, "");
        assert Show(last) + "" == Show(last);
        assert Items(Print(items)) == front + ([last] + []);
      }
    }
  }
}
