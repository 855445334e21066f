/** Namespace bindings (Namespaces in XML 1.0, sections 6.1 and 6.2): addBinding, freeBindings and what start, end and
    empty tags do with them. */
module Namespaces {
  import opened Options

  const INT_MAX: nat := 0x7FFF_FFFF
  const EXPAND_SPARE: nat := 24

  function XmlNamespace(): string { "http://www.w3.org/XML/1998/namespace" }
  function XmlnsNamespace(): string { "http://www.w3.org/2000/xmlns/" }

  datatype Error = UndeclaringPrefix | ReservedPrefixXmlns | ReservedPrefixXml | ReservedNamespaceUri | Syntax | NoMemory

  class Prefix {
    const name: Option<string>
    var binding: Binding?

    constructor (name: Option<string>)
      ensures this.name == name && binding == null
    {
      this.name := name;
      binding := null;
    }
  }

  // uri is what uriLen characters of the buffer hold, the separator included.
  class Binding {
    var prefix: Prefix
    var nextTagBinding: Binding?
    var prevPrefixBinding: Binding?
    var uri: string
    var uriAlloc: nat

    constructor (prefix: Prefix, uriAlloc: nat)
      ensures this.prefix == prefix && this.uriAlloc == uriAlloc
    {
      this.prefix, this.uriAlloc := prefix, uriAlloc;
      nextTagBinding, prevPrefixBinding, uri := null, null, "";
    }
  }

  // What XML_ParserCreateNS has fixed: the character between URI and local name ('\0' for none), and whether
  // namespaces are processed.
  datatype Mode = Mode(separator: char, ns: bool)

  function Suffix(mode: Mode): string {
    if mode.separator == '\0' then "" else [mode.separator]
  }

  predicate IsUriChar(c: char) {
    || 'a' <= c <= 'z' || 'A' <= c <= 'Z' || '0' <= c <= '9'
    || c in "-._~:/?#[]@!$&'()*+,;=%"
  }

  // The tests of addBinding on a declaration, in their order.
  function Check(mode: Mode, name: Option<string>, uri: string): Option<Error> {
    if uri == "" && name.Some? then Some(UndeclaringPrefix)
    else if name == Some("xmlns") then Some(ReservedPrefixXmlns)
    else if mode.ns && mode.separator != '\0' && mode.separator in uri && !IsUriChar(mode.separator) then Some(Syntax)
    else if name == Some("xml") then (if uri == XmlNamespace() then None else Some(ReservedPrefixXml))
    else if uri == XmlNamespace() || uri == XmlnsNamespace() then Some(ReservedNamespaceUri)
    else None
  }

  /** The declarations that are legal (sections 2.2 and 3 of Namespaces in XML 1.0): xml is bound to its own name and
      nothing else is, neither xmlns nor its name is declared, and only the default namespace is undeclared; and the
      name holds no separator that a URI may not hold. */
  lemma {:induction false} LegalDeclarations(mode: Mode, name: Option<string>, uri: string)
    ensures Check(mode, name, uri) == None
            <==> && (name == Some("xml") <==> uri == "http://www.w3.org/XML/1998/namespace")
                 && name != Some("xmlns") && uri != "http://www.w3.org/2000/xmlns/"
                 && (uri == "" ==> name == None)
                 && !HoldsSeparator(mode, uri)
  {
    Reserved();
    assert "xml" != "xmlns" by {
      assert |"xml"| != |"xmlns"|;
    }
  }

  predicate HoldsSeparator(mode: Mode, uri: string) {
    mode.ns && mode.separator in uri && mode.separator != '\0' && !IsUriChar(mode.separator)
  }

  // Why the others are refused.
  lemma {:induction false} RefusedDeclarations(mode: Mode, name: Option<string>, uri: string)
    ensures var e := Check(mode, name, uri);
            var own := uri == "http://www.w3.org/XML/1998/namespace";
            var rest := !(uri == "" && name.Some?) && name != Some("xmlns") && !HoldsSeparator(mode, uri);
            && (e == Some(UndeclaringPrefix) <==> uri == "" && name.Some?)
            && (e == Some(ReservedPrefixXmlns) <==> uri != "" && name == Some("xmlns"))
            && (e == Some(Syntax) <==> uri != "" && name != Some("xmlns") && HoldsSeparator(mode, uri))
            && (e == Some(ReservedPrefixXml) <==> rest && name == Some("xml") && !own)
            && (e == Some(ReservedNamespaceUri)
                <==> rest && name != Some("xml") && (own || uri == "http://www.w3.org/2000/xmlns/"))
  {
    Reserved();
    assert "xml" != "xmlns" by {
      assert |"xml"| != |"xmlns"|;
    }
  }

  // RFC 3986, sections 2.1 to 2.3: unreserved and reserved characters, and the one that begins an escape.
  lemma {:induction false} UriCharacters(c: char)
    ensures IsUriChar(c)
            <==> 'a' <= c <= 'z' || 'A' <= c <= 'Z' || '0' <= c <= '9' || c == '-' || c == '.' || c == '_' || c == '~'
                 || c == ':' || c == '/' || c == '?' || c == '#' || c == '[' || c == ']' || c == '@'
                 || c == '!' || c == '$' || c == '&' || c == '\'' || c == '(' || c == ')' || c == '*' || c == '+'
                 || c == ',' || c == ';' || c == '=' || c == '%'
  {
  }

  // The separator is the one character that is put behind the URI, if there is one.
  lemma {:induction false} SeparatorBehind(mode: Mode, uri: string)
    ensures mode.separator == '\0' ==> uri + Suffix(mode) == uri
    ensures mode.separator != '\0' ==>
              var s := uri + Suffix(mode);
              s != "" && s[|s| - 1] == mode.separator && s[..|s| - 1] == uri
  {
    if mode.separator != '\0' {
      assert (uri + [mode.separator])[..|uri|] == uri;
    }
  }

  lemma {:induction false} PrefixStep(s: string, n: nat, whole: string)
    requires n < |s|
    ensures s[..n + 1] <= whole <==> s[..n] <= whole && n < |whole| && s[n] == whole[n]
  {
    assert s[..n + 1] == s[..n] + [s[n]];
  }

  lemma {:induction false} Reserved()
    ensures |XmlNamespace()| != |XmlnsNamespace()|
    ensures XmlNamespace() != "" && XmlnsNamespace() != ""
  {
    assert XmlNamespace()[0] == 'h' && XmlnsNamespace()[0] == 'h';
    assert |XmlNamespace()| == 36 && |XmlnsNamespace()| == 29;
  }

  datatype Decl = Decl(prefix: Prefix, uri: string)

  // A declaration without a URI leaves its prefix unbound; Check lets that pass for the default namespace only.
  predicate Undeclares(d: Decl) {
    d.uri == "" && d.prefix.name.None?
  }

  // A declaration that addBinding has let pass.
  predicate Accepted(mode: Mode, d: Decl) {
    '\0' !in d.uri && |d.uri| < INT_MAX && Check(mode, d.prefix.name, d.uri) == None
  }

  /** The URI bound to p where decls are in scope, innermost last: the innermost declaration of p counts. */
  function Innermost(decls: seq<Decl>, p: Prefix): Option<string> {
    if decls == [] then None
    else
      var d := decls[|decls| - 1];
      if d.prefix != p then Innermost(decls[..|decls| - 1], p)
      else if Undeclares(d) then None
      else Some(d.uri)
  }

  // The last declaration of p is at index i.
  ghost predicate LastFor(decls: seq<Decl>, p: Prefix, i: nat) {
    && i < |decls| && decls[i].prefix == p
    && forall j {:trigger decls[j]} :: i < j < |decls| ==> decls[j].prefix != p
  }

  /** What is in scope (sections 6.1 and 6.2): a prefix has the URI of its last declaration; without one, or when that
      takes the default namespace back with an empty URI, it has none. */
  lemma {:induction false} InScope(decls: seq<Decl>, p: Prefix, i: nat)
    ensures LastFor(decls, p, i) ==>
              Innermost(decls, p) == if decls[i].uri == "" && p.name == None then None else Some(decls[i].uri)
    ensures (forall d {:trigger d in decls} :: d in decls ==> d.prefix != p) ==> Innermost(decls, p) == None
    decreases |decls|
  {
    if decls != [] {
      var n := |decls| - 1;
      var front := decls[..n];
      InScope(front, p, i);
      assert decls[n] in decls;
      if LastFor(decls, p, i) && i < n {
        assert decls[n].prefix != p && front[i] == decls[i];
        forall j | i < j < n
          ensures front[j].prefix != p
        {
          assert front[j] == decls[j];
        }
      }
      if forall d {:trigger d in decls} :: d in decls ==> d.prefix != p {
        forall d | d in front
          ensures d.prefix != p
        {
          assert d in decls;
        }
      }
    }
  }

  // The record that stands for the innermost declaration.
  ghost function Current(live: seq<Binding>, decls: seq<Decl>, p: Prefix): Binding?
    requires |live| == |decls|
  {
    if decls == [] then null
    else
      var d := decls[|decls| - 1];
      if d.prefix != p then Current(live[..|live| - 1], decls[..|decls| - 1], p)
      else if Undeclares(d) then null
      else live[|live| - 1]
  }

  // The number of records on a list of tags, and where the records of the last list begin.
  ghost predicate Rising(marks: seq<nat>, n: nat) {
    && (forall k {:trigger marks[k]} :: 0 <= k < |marks| ==> marks[k] <= n)
    && (forall j, k {:trigger marks[j], marks[k]} :: 0 <= j < k < |marks| ==> marks[j] <= marks[k])
  }

  ghost predicate Distinct(s: seq<Binding>) {
    forall i, j {:trigger s[i], s[j]} :: 0 <= i < j < |s| ==> s[i] != s[j]
  }

  // The record before index i on its list, if it is not the first of the list.
  ghost function Before(live: seq<Binding>, marks: seq<nat>, i: nat): Binding?
    requires i <= |live|
  {
    if i == 0 || i in marks then null else live[i - 1]
  }

  // The list that begins at marks[k] and ends where the next one begins.
  ghost function Head(live: seq<Binding>, marks: seq<nat>, k: nat): Binding?
    requires k < |marks| && Rising(marks, |live|)
  {
    var end := if k + 1 < |marks| then marks[k + 1] else |live|;
    if end == marks[k] then null else live[end - 1]
  }

  lemma {:induction false} AddedRecord(live: seq<Binding>, marks: seq<nat>, b: Binding)
    requires Rising(marks, |live|)
    ensures Rising(marks, |live| + 1)
    ensures forall i {:trigger Before(live + [b], marks, i)} :: 0 <= i < |live| ==> Before(live + [b], marks, i) == Before(live, marks, i)
    ensures marks != [] ==> Before(live + [b], marks, |live|) == Head(live, marks, |marks| - 1)
    ensures forall k {:trigger Head(live + [b], marks, k)} :: 0 <= k < |marks| - 1 ==> Head(live + [b], marks, k) == Head(live, marks, k)
    ensures marks != [] ==> Head(live + [b], marks, |marks| - 1) == b
  {
    if marks != [] && |live| in marks {
      var k :| 0 <= k < |marks| && marks[k] == |live|;
      assert k < |marks| - 1 ==> marks[k] <= marks[|marks| - 1];
    }
  }

  lemma {:induction false} AddedCurrent(live: seq<Binding>, decls: seq<Decl>, b: Binding, d: Decl, p: Prefix)
    requires |live| == |decls|
    ensures Current(live + [b], decls + [d], p)
            == if d.prefix != p then Current(live, decls, p) else if Undeclares(d) then null else b
  {
    assert (live + [b])[..|live|] == live && (decls + [d])[..|decls|] == decls;
  }

  lemma {:induction false} AddedPrevious(live: seq<Binding>, decls: seq<Decl>, b: Binding, d: Decl)
    requires |live| == |decls|
    ensures forall i {:trigger (live + [b])[..i]} :: 0 <= i <= |live| ==> (live + [b])[..i] == live[..i] && (decls + [d])[..i] == decls[..i]
    ensures (live + [b])[..|live|] == live && (decls + [d])[..|decls|] == decls
  {
  }

  lemma {:induction false} AddedDistinct(live: seq<Binding>, free: seq<Binding>, b: Binding)
    requires Distinct(live + free) && b !in live && b !in free
    ensures Distinct(live + [b] + free)
  {
    var s, t := live + free, live + [b] + free;
    forall i, j | 0 <= i < j < |t|
      ensures t[i] != t[j]
    {
      if i == |live| {
        assert t[j] in free;
      } else if j == |live| {
        assert t[i] in live;
      } else {
        assert t[i] == s[if i < |live| then i else i - 1] && t[j] == s[if j < |live| then j else j - 1];
      }
    }
  }

  class Parser {
    const mode: Mode
    const defaultPrefix: Prefix
    ghost var prefixes: set<Prefix>
    const mem: nat -> bool
    var allocs: nat
    var freeBindingList: Binding?

    // The lists of m_inheritedBindings and of the tags on m_tagStack.
    var inherited: Binding?
    var tagStack: seq<Binding?>

    ghost var live: seq<Binding>
    ghost var decls: seq<Decl>
    ghost var free: seq<Binding>
    ghost var marks: seq<nat>

    ghost predicate FreeListFits()
      reads this`freeBindingList, this`free, free
    {
      && freeBindingList == (if free == [] then null else free[0])
      && forall i {:trigger free[i]} :: 0 <= i < |free| ==> free[i].nextTagBinding == if i + 1 < |free| then free[i + 1] else null
    }

    ghost predicate LiveFits()
      reads this`live, this`decls, this`marks, this`prefixes, live
    {
      && |live| == |decls|
      && forall i: nat {:trigger RecordFits(i)} :: i < |live| ==> RecordFits(i)
    }

    ghost predicate RecordFits(i: nat)
      requires i < |live| == |decls|
      reads this`live, this`decls, this`marks, this`prefixes, live
    {
      && decls[i].prefix in prefixes && Accepted(mode, decls[i])
      && live[i].prefix == decls[i].prefix
      && live[i].uri == decls[i].uri + Suffix(mode)
      && live[i].nextTagBinding == Before(live, marks, i)
      && live[i].prevPrefixBinding == Current(live[..i], decls[..i], decls[i].prefix)
    }

    // The records of all lists: heads holds the lists of the inherited bindings and of the open tags.
    ghost predicate Fits(heads: seq<Binding?>)
      reads this`freeBindingList, this`free, this`live, this`decls, this`marks, this`prefixes, prefixes, live, free
    {
      && defaultPrefix in prefixes
      && (forall p {:trigger p.name} :: p in prefixes ==> (p.name.None? <==> p == defaultPrefix))
      && Distinct(live + free) && FreeListFits() && LiveFits() && PrefixesFit() && ListsFit(heads)
    }

    ghost predicate PrefixesFit()
      reads this`live, this`decls, this`prefixes, prefixes
    {
      |live| == |decls| && forall p {:trigger p.binding} :: p in prefixes ==> p.binding == Current(live, decls, p)
    }

    ghost predicate ListsFit(heads: seq<Binding?>)
      reads this`live, this`marks
    {
      HeadsFit(live, marks, heads)
    }

    constructor (mode: Mode, defaultPrefix: Prefix, named: set<Prefix>, mem: nat -> bool)
      requires defaultPrefix.name.None? && defaultPrefix.binding == null
      requires forall p {:trigger p in named} :: p in named ==> p.name.Some? && p.binding == null
      ensures Valid() && this.mode == mode && this.defaultPrefix == defaultPrefix && this.prefixes == named + {defaultPrefix}
      ensures decls == [] && tagStack == []
    {
      this.mode, this.defaultPrefix, this.mem := mode, defaultPrefix, mem;
      prefixes := named + {defaultPrefix};
      allocs, freeBindingList, inherited, tagStack := 0, null, null, [];
      live, decls, free, marks := [], [], [], [0];
      new;
      assert LiveFits() && FreeListFits() && ListsFit([inherited]) && Distinct(live + free);
      assert PrefixesFit();
      assert [inherited] + tagStack == [inherited];
    }

    ghost predicate Valid()
      reads this, prefixes, live, free
    {
      Fits([inherited] + tagStack)
    }

    // A prefix that has not occurred before.
    ghost method NewPrefix(p: Prefix)
      requires Valid() && p !in prefixes && p.name.Some? && p.binding == null
      modifies this`prefixes
      ensures Valid() && prefixes == old(prefixes) + {p}
    {
      hide FreeListFits, ListsFit, Head, Distinct, Current;
      NeverDeclared(|decls|, p);
      assert live[..|live|] == live && decls[..|decls|] == decls;
      prefixes := prefixes + {p};
      LiveAfterPrefix();
    }

    twostate lemma LiveAfterPrefix()
      requires old(LiveFits()) && live == old(live) && decls == old(decls) && marks == old(marks) && old(prefixes) <= prefixes
      requires forall x {:trigger x in live} :: x in live ==> unchanged(x)
      ensures LiveFits()
    {
      hide Current, Before;
      forall i | 0 <= i < |live|
        ensures RecordFits(i)
      {
        assert live[i] in live;
        assert old(RecordFits(i));
      }
    }

    lemma {:induction false} NeverDeclared(n: nat, p: Prefix)
      requires LiveFits() && n <= |live| && p !in prefixes
      ensures Current(live[..n], decls[..n], p) == null
    {
      if n > 0 {
        assert live[..n][..n - 1] == live[..n - 1] && decls[..n][..n - 1] == decls[..n - 1];
        NamesRecord(n - 1);
        NeverDeclared(n - 1, p);
      }
    }

    // Every record that has been made, in use or not.
    ghost function Records(): set<Binding>
      reads this`live, this`free
    {
      set b | b in live + free
    }

    ghost predicate Refused(since: nat)
      reads this`allocs
    {
      exists k: nat {:trigger mem(k)} :: since <= k < allocs && !mem(k)
    }

    // Why a declaration is declined: it is not legal, or memory is missing.
    ghost predicate Declined(d: Decl, err: Error, since: nat)
      reads this`allocs
    {
      match Check(mode, d.prefix.name, d.uri)
      case Some(e) => err == e
      case None => err == NoMemory && (|d.uri| + |Suffix(mode)| > INT_MAX - EXPAND_SPARE || Refused(since))
    }

    lemma {:induction false} DeclinedWhy(d: Decl, err: Error, since: nat)
      requires Declined(d, err, since) && |Suffix(mode)| <= 1
      ensures Check(mode, d.prefix.name, d.uri) == Some(err)
              || (err == NoMemory && (|d.uri| + 1 > INT_MAX - EXPAND_SPARE || Refused(since)))
    {
    }

    // The first declaration declined is the n-th.
    ghost predicate Stopped(atts: seq<Decl>, n: nat, err: Error, since: nat)
      reads this`allocs
    {
      n < |atts| && AllLegal(atts[..n]) && Declined(atts[n], err, since)
    }

    ghost predicate AllLegal(atts: seq<Decl>) {
      forall d {:trigger d in atts} :: d in atts ==> Check(mode, d.prefix.name, d.uri) == None
    }

    method Allocate() returns (ok: bool)
      modifies this`allocs
      ensures ok == mem(old(allocs)) && allocs == old(allocs) + 1
    {
      ok := mem(allocs);
      allocs := allocs + 1;
    }

    // The tests of addBinding; the loop compares the URI with the two reserved ones character by character.
    method CheckDeclaration(prefix: Prefix, uri: string) returns (err: Option<Error>)
      requires '\0' !in uri
      ensures err == Check(mode, prefix.name, uri)
    {
      hide XmlNamespace, XmlnsNamespace, IsUriChar;
      Reserved();
      if uri == "" && prefix.name.Some? {
        return Some(UndeclaringPrefix);
      }
      if prefix.name == Some("xmlns") {
        return Some(ReservedPrefixXmlns);
      }
      var mustBeXml := prefix.name == Some("xml");
      var isXml, isXmlns := true, true;
      var len := 0;
      while len < |uri|
        invariant len <= |uri|
        invariant isXml <==> uri[..len] <= XmlNamespace()
        invariant !mustBeXml ==> (isXmlns <==> uri[..len] <= XmlnsNamespace())
        invariant !(mode.ns && mode.separator != '\0' && mode.separator in uri[..len] && !IsUriChar(mode.separator))
      {
        assert uri[..len + 1] == uri[..len] + [uri[len]];
        PrefixStep(uri, len, XmlNamespace());
        PrefixStep(uri, len, XmlnsNamespace());
        if isXml && (len >= |XmlNamespace()| || uri[len] != XmlNamespace()[len]) {
          isXml := false;
        }
        if !mustBeXml && isXmlns && (len >= |XmlnsNamespace()| || uri[len] != XmlnsNamespace()[len]) {
          isXmlns := false;
        }
        if mode.ns && uri[len] == mode.separator && !IsUriChar(uri[len]) {
          assert uri[len] in uri;
          return Some(Syntax);
        }
        len := len + 1;
      }
      assert uri[..len] == uri;
      isXml := isXml && len == |XmlNamespace()|;
      isXmlns := isXmlns && len == |XmlnsNamespace()|;
      if mustBeXml != isXml {
        return if mustBeXml then Some(ReservedPrefixXml) else Some(ReservedNamespaceUri);
      }
      if isXmlns {
        return Some(ReservedNamespaceUri);
      }
      return None;
    }

    // A record for a URI of len characters: from the free list, with its buffer enlarged if need be, or new.
    method TakeRecord(len: nat, prefix: Prefix, ghost heads: seq<Binding?>) returns (b: Binding?)
      requires Fits(heads) && len <= INT_MAX
      modifies this`allocs, this`freeBindingList, this`free, free
      ensures Fits(heads) && live == old(live) && decls == old(decls) && marks == old(marks)
      ensures b != null ==> b !in live && b !in free && b.uriAlloc >= len
      ensures b != null ==> free == (if old(free) == [] then [] else old(free)[1..])
      ensures b != null ==> if old(free) == [] then fresh(b) else b == old(free)[0]
      ensures b == null ==> free == old(free)
      ensures b == null ==> len > INT_MAX - EXPAND_SPARE || Refused(old(allocs))
      ensures old(allocs) <= allocs
    {
      hide Current, Head, LiveFits, PrefixesFit, ListsFit, FreeListFits, Distinct;
      FirstFree();
      if freeBindingList != null {
        b := freeBindingList;
        DropFree(live, free);
        if len > b.uriAlloc {
          if len > INT_MAX - EXPAND_SPARE {
            return null;
          }
          var ok := Allocate();
          if !ok {
            assert !mem(old(allocs));
            return null;
          }
          b.uriAlloc := len + EXPAND_SPARE;
        }
        freeBindingList := b.nextTagBinding;
        free := free[1..];
        FreeAfterTake();
      } else {
        var ok := Allocate();
        if !ok {
          assert !mem(old(allocs));
          return null;
        }
        if len > INT_MAX - EXPAND_SPARE {
          return null;
        }
        ok := Allocate();
        if !ok {
          assert !mem(old(allocs) + 1);
          return null;
        }
        b := new Binding(prefix, len + EXPAND_SPARE);
      }
    }

    lemma {:induction false} FirstFree()
      requires FreeListFits()
      ensures freeBindingList == if free == [] then null else free[0]
    {
    }

    twostate lemma FreeAfterTake()
      requires old(FreeListFits()) && old(free) != [] && free == old(free)[1..]
      requires freeBindingList == old(free[0].nextTagBinding)
      requires forall x {:trigger x in free} :: x in free ==> unchanged(x)
      ensures FreeListFits()
    {
      assert old(free[0].nextTagBinding) == if |old(free)| > 1 then old(free)[1] else null;
      forall i | 0 <= i < |free|
        ensures free[i].nextTagBinding == if i + 1 < |free| then free[i + 1] else null
      {
        assert free[i] in free && free[i] == old(free)[i + 1];
      }
    }

    // bindings is the list that the record is put on, the last one of the parser's lists.
    method AddBinding(prefix: Prefix, uri: string, bindings: Binding?, ghost heads: seq<Binding?>)
      returns (err: Option<Error>, head: Binding?)
      requires Fits(heads + [bindings]) && prefix in prefixes && '\0' !in uri && |uri| < INT_MAX
      modifies this`allocs, this`freeBindingList, this`free, this`live, this`decls, prefix, free
      ensures Fits(heads + [head]) && marks == old(marks)
      ensures err.Some? ==> head == bindings && live == old(live) && decls == old(decls) && free == old(free)
      ensures err.Some? ==> Declined(Decl(prefix, uri), err.value, old(allocs))
      ensures old(allocs) <= allocs
      ensures err.None? ==> Check(mode, prefix.name, uri) == None
      ensures err.None? ==> head != null && live == old(live) + [head] && decls == old(decls) + [Decl(prefix, uri)]
      ensures err.None? ==> free == (if old(free) == [] then [] else old(free)[1..])
      ensures err.None? ==> if old(free) == [] then fresh(head) else head == old(free)[0]
      ensures old(Records()) <= Records() && fresh(Records() - old(Records()))
    {
      hide Current, Head, Before, LiveFits, FreeListFits, Rising, Distinct;
      head := bindings;
      err := CheckDeclaration(prefix, uri);
      if err.Some? {
        return;
      }
      var len := |uri| + |Suffix(mode)|;
      var b := TakeRecord(len, prefix, heads + [bindings]);
      if b == null {
        return Some(NoMemory), bindings;
      }
      Link(b, prefix, uri, bindings, heads);
      head := b;
    }

    // addBinding on the list of inherited bindings.
    method Inherit(prefix: Prefix, uri: string) returns (err: Option<Error>)
      requires Valid() && tagStack == [] && prefix in prefixes && '\0' !in uri && |uri| < INT_MAX
      modifies this`allocs, this`freeBindingList, this`free, this`live, this`decls, this`inherited, prefix, free
      ensures Valid()
      ensures err.Some? ==> decls == old(decls)
      ensures err.Some? ==> Declined(Decl(prefix, uri), err.value, old(allocs))
      ensures old(allocs) <= allocs
      ensures err.None? ==> decls == old(decls) + [Decl(prefix, uri)] && Accepted(mode, Decl(prefix, uri))
      ensures forall k {:trigger free[k]} :: 0 <= k < |free| ==> free[k] in old(free)
    {
      hide Fits, Check;
      assert [inherited] + tagStack == [] + [inherited];
      var head;
      err, head := AddBinding(prefix, uri, inherited, []);
      inherited := head;
      assert [inherited] + tagStack == [] + [inherited];
    }

    method Link(b: Binding, prefix: Prefix, uri: string, bindings: Binding?, ghost heads: seq<Binding?>)
      requires Fits(heads + [bindings]) && prefix in prefixes && b !in live && b !in free
      requires Accepted(mode, Decl(prefix, uri))
      modifies this`live, this`decls, prefix, b
      ensures Fits(heads + [b])
      ensures live == old(live) + [b] && decls == old(decls) + [Decl(prefix, uri)]
    {
      hide Current, Head, Before, Rising, Distinct, LiveFits, FreeListFits, PrefixesFit, ListsFit;
      ghost var d := Decl(prefix, uri);
      AddedDistinct(live, free, b);
      SameLength();
      b.uri := uri + Suffix(mode);
      b.prefix := prefix;
      b.prevPrefixBinding := prefix.binding;
      prefix.binding := if uri == "" && prefix == defaultPrefix then null else b;
      b.nextTagBinding := bindings;
      live, decls := live + [b], decls + [d];
      LiveAfterLink(b, d, heads, bindings);
      FreeUnchanged();
      PrefixesAfterLink(b, d);
      ListsAfterLink(b, heads, bindings);
    }

    lemma {:induction false} SameLength()
      requires LiveFits()
      ensures |live| == |decls|
    {
    }

    twostate lemma LiveAfterLink(new b: Binding, new d: Decl, new heads: seq<Binding?>, new bindings: Binding?)
      requires prefixes == old(prefixes)
      requires old(allocated(heads)) && old(allocated(bindings)) && marks == old(marks)
      requires old(LiveFits()) && old(PrefixesFit()) && old(ListsFit(heads + [bindings]))
      requires live == old(live) + [b] && decls == old(decls) + [d] && d.prefix in prefixes && Accepted(mode, d)
      requires forall x {:trigger x in old(live)} :: x in old(live) ==> unchanged(x)
      requires b.prefix == d.prefix && b.uri == d.uri + Suffix(mode) && b.nextTagBinding == bindings
      requires b.prevPrefixBinding == old(d.prefix.binding)
      ensures LiveFits()
    {
      hide Current, Head, Before, Rising;
      AddedRecord(old(live), marks, b);
      AddedPrevious(old(live), old(decls), b, d);
      assert old((heads + [bindings])[|marks| - 1]) == bindings;
      forall i | 0 <= i < |live|
        ensures RecordFits(i)
      {
        if i < old(|live|) {
          assert live[i] == old(live)[i] && live[i] in old(live);
          assert old(RecordFits(i));
        }
      }
    }

    twostate lemma FreeUnchanged()
      requires old(FreeListFits()) && free == old(free) && freeBindingList == old(freeBindingList)
      requires forall x {:trigger x in free} :: x in free ==> unchanged(x)
      ensures FreeListFits()
    {
      forall i | 0 <= i < |free|
        ensures free[i].nextTagBinding == if i + 1 < |free| then free[i + 1] else null
      {
        assert free[i] in free;
      }
    }

    twostate lemma PrefixesAfterLink(new b: Binding, new d: Decl)
      requires prefixes == old(prefixes)
      requires old(PrefixesFit()) && live == old(live) + [b] && decls == old(decls) + [d]
      requires d.prefix.binding == if Undeclares(d) then null else b
      requires forall p {:trigger p in prefixes} :: p in prefixes && p != d.prefix ==> unchanged(p)
      ensures PrefixesFit()
    {
      hide Current;
      forall p | p in prefixes
        ensures p.binding == Current(live, decls, p)
      {
        AddedCurrent(old(live), old(decls), b, d, p);
      }
    }

    twostate lemma ListsAfterLink(new b: Binding, new heads: seq<Binding?>, new bindings: Binding?)
      requires old(allocated(heads)) && old(allocated(bindings)) && old(ListsFit(heads + [bindings])) && marks == old(marks) && live == old(live) + [b]
      ensures ListsFit(heads + [b])
    {
      hide Head, Rising;
      AddedRecord(old(live), marks, b);
      forall k | 0 <= k < |marks|
        ensures (heads + [b])[k] == Head(live, marks, k)
      {
        assert k < |marks| - 1 ==> (heads + [b])[k] == (heads + [bindings])[k];
      }
    }

    // One turn of the loop in freeBindings.
    method FreeOne(bindings: Binding, ghost heads: seq<Binding?>) returns (next: Binding?)
      requires Fits(heads + [bindings])
      modifies this`freeBindingList, this`free, this`live, this`decls, bindings, bindings.prefix
      ensures Fits(heads + [next])
      ensures old(live) == live + [bindings] && old(decls) == decls + [old(decls)[|live|]] && free == [bindings] + old(free)
    {
      hide Current, Head, Before, Rising, Distinct, LiveFits, FreeListFits, PrefixesFit, ListsFit;
      LastRecord(bindings, heads);
      RemovedDistinct(live, free);
      next := bindings.nextTagBinding;
      bindings.nextTagBinding := freeBindingList;
      freeBindingList := bindings;
      bindings.prefix.binding := bindings.prevPrefixBinding;
      free := [bindings] + free;
      live, decls := live[..|live| - 1], decls[..|decls| - 1];
      LiveAfterFree(bindings);
      FreeAfterFree(bindings);
      PrefixesAfterFree(bindings);
      ListsAfterFree(bindings, heads, next);
    }

    lemma {:induction false} LastRecord(b: Binding, heads: seq<Binding?>)
      requires LiveFits() && ListsFit(heads + [b])
      ensures |live| == |decls| > 0 && b == live[|live| - 1] && RecordFits(|live| - 1)
      ensures |marks| == |heads| + 1 && Rising(marks, |live|) && Head(live, marks, |heads|) == b
    {
      assert (heads + [b])[|marks| - 1] == b;
      RemovedRecord(live, marks);
    }

    twostate lemma LiveAfterFree(new b: Binding)
      requires prefixes == old(prefixes)
      requires old(LiveFits()) && old(live) != [] && marks == old(marks) && marks != [] && Rising(marks, old(|live|))
      requires b == old(live)[old(|live|) - 1] && Head(old(live), marks, |marks| - 1) == b && Distinct(old(live))
      requires live == old(live)[..old(|live|) - 1] && decls == old(decls)[..old(|live|) - 1]
      requires forall x {:trigger x in live} :: x in live ==> unchanged(x)
      ensures LiveFits()
    {
      hide Current, Head, Before, Rising, Distinct;
      RemovedRecord(old(live), marks);
      RemovedPrevious(old(live), old(decls));
      forall i | 0 <= i < |live|
        ensures RecordFits(i)
      {
        assert live[i] == old(live)[i] && live[i] in live;
        assert old(RecordFits(i));
      }
    }

    twostate lemma FreeAfterFree(new b: Binding)
      requires old(FreeListFits()) && free == [b] + old(free) && freeBindingList == b && b.nextTagBinding == old(freeBindingList)
      requires forall i {:trigger old(free)[i]} :: 0 <= i < old(|free|) ==> unchanged(old(free)[i])
      ensures FreeListFits()
    {
      forall i | 0 <= i < |free|
        ensures free[i].nextTagBinding == if i + 1 < |free| then free[i + 1] else null
      {
        if i > 0 {
          assert free[i] == old(free)[i - 1];
        }
      }
    }

    twostate lemma PrefixesAfterFree(new b: Binding)
      requires prefixes == old(prefixes)
      requires old(PrefixesFit()) && old(LiveFits()) && old(live) != [] && old(RecordFits(|live| - 1))
      requires b == old(live)[old(|live|) - 1]
      requires live == old(live)[..old(|live|) - 1] && decls == old(decls)[..old(|live|) - 1]
      requires old(b.prefix).binding == old(b.prevPrefixBinding)
      requires forall p {:trigger p in prefixes} :: p in prefixes && p != old(b.prefix) ==> unchanged(p)
      ensures PrefixesFit()
    {
      hide Current, LiveFits;
      forall p | p in prefixes
        ensures p.binding == Current(live, decls, p)
      {
        RemovedCurrent(old(live), old(decls), p);
      }
    }

    twostate lemma ListsAfterFree(new b: Binding, new heads: seq<Binding?>, new next: Binding?)
      requires old(allocated(heads)) && old(allocated(b)) && old(ListsFit(heads + [b])) && old(LiveFits()) && marks == old(marks) && old(live) != []
      requires Head(old(live), marks, |marks| - 1) == b && next == old(b.nextTagBinding) && old(RecordFits(|live| - 1))
      requires live == old(live)[..old(|live|) - 1]
      ensures ListsFit(heads + [next])
    {
      hide Current, Head, Before, Rising, LiveFits;
      RemovedRecord(old(live), marks);
      forall k | 0 <= k < |marks|
        ensures (heads + [next])[k] == Head(live, marks, k)
      {
        assert k < |marks| - 1 ==> (heads + [next])[k] == (heads + [b])[k];
      }
    }

    // freeBindings, and the same loop at an end tag: the last list is undone.
    method FreeBindings(list: Binding?, ghost heads: seq<Binding?>)
      requires Fits(heads + [list])
      modifies this`freeBindingList, this`free, this`live, this`decls, this`marks, live, prefixes
      ensures Fits(heads) && marks == old(marks)[..|heads|]
      ensures live == old(live)[..old(marks)[|heads|]] && decls == old(decls)[..old(marks)[|heads|]]
      ensures Records() == old(Records())
    {
      hide Current, Head, Before, Rising, Distinct, LiveFits, FreeListFits, PrefixesFit, HeadsFit;
      var bindings := list;
      while bindings != null
        invariant Fits(heads + [bindings]) && marks == old(marks)
        invariant live <= old(live) && decls <= old(decls)
        invariant Records() == old(Records())
        decreases |live|
      {
        LastRecord(bindings, heads);
        bindings := FreeOne(bindings, heads);
      }
      LastListEmpty(heads);
      CloseList(live, marks, heads);
      label Emptied:
      marks := marks[..|heads|];
      LiveAfterMark@Emptied();
    }

    // The list of the innermost tag begins empty.
    ghost method BeginList(heads: seq<Binding?>)
      requires Fits(heads)
      modifies this`marks
      ensures Fits(heads + [null]) && marks == old(marks) + [|live|]
    {
      hide Current, Head, Before, Rising, Distinct, LiveFits, FreeListFits, PrefixesFit, HeadsFit;
      OpensList(live, marks, heads);
      marks := marks + [|live|];
      LiveAfterMark();
    }

    twostate lemma LiveAfterMark()
      requires prefixes == old(prefixes)
      requires old(LiveFits()) && live == old(live) && decls == old(decls)
      requires forall x {:trigger x in live} :: x in live ==> unchanged(x)
      requires forall i {:trigger Before(live, marks, i)} :: 0 <= i < |live| ==> Before(live, marks, i) == Before(live, old(marks), i)
      ensures LiveFits()
    {
      hide Current, Before;
      forall i | 0 <= i < |live|
        ensures RecordFits(i)
      {
        assert live[i] in live;
        assert old(RecordFits(i));
      }
    }

    lemma {:induction false} LastListEmpty(heads: seq<Binding?>)
      requires LiveFits() && ListsFit(heads + [null])
      ensures |marks| == |heads| + 1 && |live| == |decls| == marks[|heads|]
      ensures Rising(marks[..|heads|], |live|)
    {
      assert (heads + [null])[|heads|] == null;
    }

    // storeAtts, as far as namespaces go: the declarations of one tag in their order.
    method AddBindings(atts: seq<Decl>, list: Binding?, ghost heads: seq<Binding?>)
      returns (err: Option<Error>, bindings: Binding?)
      requires Fits(heads + [list])
      requires forall d {:trigger d in atts} :: d in atts ==> d.prefix in prefixes && '\0' !in d.uri && |d.uri| < INT_MAX
      modifies this`allocs, this`freeBindingList, this`free, this`live, this`decls, prefixes, free
      ensures Fits(heads + [bindings]) && marks == old(marks)
      ensures old(live) <= live && |decls| - |old(decls)| <= |atts|
      ensures decls == old(decls) + atts[..|decls| - |old(decls)|]
      ensures err.None? ==> decls == old(decls) + atts && AllLegal(atts)
      ensures err.Some? ==> Stopped(atts, |decls| - |old(decls)|, err.value, old(allocs))
      ensures old(allocs) <= allocs
      ensures old(Records()) <= Records() && fresh(Records() - old(Records()))
    {
      hide Current, Head, Before, Rising, Distinct, LiveFits, FreeListFits, PrefixesFit, ListsFit, Check, Suffix;
      err, bindings := None, list;
      assert atts[..0] == [];
      for i := 0 to |atts|
        invariant Fits(heads + [bindings]) && marks == old(marks) && err == None
        invariant old(live) <= live && decls == old(decls) + atts[..i] && old(allocs) <= allocs
        invariant AllLegal(atts[..i])
        invariant old(Records()) <= Records() && fresh(Records() - old(Records()))
        invariant forall k {:trigger free[k]} :: 0 <= k < |free| ==> free[k] in old(free)
      {
        assert atts[i] in atts;
        ghost var records := Records();
        err, bindings := AddBinding(atts[i].prefix, atts[i].uri, bindings, heads);
        if err.Some? {
          return;
        }
        assert atts[..i + 1] == atts[..i] + [atts[i]];
        assert Records() - old(Records()) <= (Records() - records) + (records - old(Records()));
      }
      assert atts[..|atts|] == atts;
    }

    // The declarations of a tag can be handled.
    ghost predicate Known(atts: seq<Decl>)
      reads this`prefixes
    {
      forall d {:trigger d in atts} :: d in atts ==> d.prefix in prefixes && '\0' !in d.uri && |d.uri| < INT_MAX
    }

    lemma {:induction false} Lengths(heads: seq<Binding?>)
      requires Fits(heads)
      ensures |live| == |decls| && |marks| == |heads| && Rising(marks, |live|)
    {
    }

    method StartTag(atts: seq<Decl>) returns (err: Option<Error>)
      requires Valid() && Known(atts)
      modifies this`allocs, this`freeBindingList, this`free, this`live, this`decls, this`marks, this`tagStack, prefixes, live, free
      ensures Valid() && |tagStack| == old(|tagStack|) + 1 && tagStack[..old(|tagStack|)] == old(tagStack)
      ensures marks == old(marks) + [old(|live|)] && old(live) <= live && |decls| - |old(decls)| <= |atts|
      ensures decls == old(decls) + atts[..|decls| - |old(decls)|]
      ensures err.None? ==> decls == old(decls) + atts && AllLegal(atts)
      ensures err.Some? ==> Stopped(atts, |decls| - |old(decls)|, err.value, old(allocs))
      ensures old(allocs) <= allocs
      ensures old(Records()) <= Records() && fresh(Records() - old(Records()))
    {
      hide Fits, Stopped, AllLegal;
      ghost var heads := [inherited] + tagStack;
      Lengths(heads);
      BeginList(heads);
      var bindings;
      err, bindings := AddBindings(atts, null, heads);
      tagStack := tagStack + [bindings];
      assert [inherited] + tagStack == heads + [bindings];
    }

    method EndTag()
      requires Valid() && tagStack != []
      modifies this`freeBindingList, this`free, this`live, this`decls, this`marks, this`tagStack, prefixes, live
      ensures Valid() && tagStack == old(tagStack[..|tagStack| - 1])
      ensures |old(marks)| == |old(tagStack)| + 1 && marks == old(marks)[..|old(tagStack)|]
      ensures live == old(live)[..old(marks)[|old(tagStack)|]] && decls == old(decls)[..old(marks)[|old(tagStack)|]]
      ensures Records() == old(Records())
    {
      hide LiveFits, FreeListFits, PrefixesFit, Head, Distinct;
      var bindings := tagStack[|tagStack| - 1];
      ghost var heads := [inherited] + tagStack[..|tagStack| - 1];
      assert [inherited] + tagStack == heads + [bindings];
      tagStack := tagStack[..|tagStack| - 1];
      FreeBindings(bindings, heads);
    }

    // The bindings of an empty element are undone even when a declaration is refused.
    method EmptyTag(atts: seq<Decl>) returns (err: Option<Error>)
      requires Valid() && Known(atts)
      modifies this`allocs, this`freeBindingList, this`free, this`live, this`decls, this`marks, this`tagStack, prefixes, live, free
      ensures Valid() && tagStack == old(tagStack) && marks == old(marks) && live == old(live) && decls == old(decls)
      ensures err.None? ==> AllLegal(atts)
      ensures err.Some? ==> exists n: nat :: Stopped(atts, n, err.value, old(allocs))
      ensures old(allocs) <= allocs
      ensures old(Records()) <= Records() && fresh(Records() - old(Records()))
    {
      hide Fits, Stopped, AllLegal;
      ghost var heads := [inherited] + tagStack;
      Lengths(heads);
      BeginList(heads);
      var bindings;
      err, bindings := AddBindings(atts, null, heads);
      ghost var n: nat := |decls| - |old(decls)|;
      assert err.Some? ==> Stopped(atts, n, err.value, old(allocs));
      FreeBindings(bindings, heads);
      assert err.Some? ==> Stopped(atts, n, err.value, old(allocs));
    }

    /** At every point a prefix is bound to its innermost declaration in scope, and to nothing when there is none or the
        default namespace has been undeclared. */
    lemma {:induction false} BindingIsInnermost(p: Prefix)
      requires Valid() && p in prefixes
      ensures match Innermost(decls, p)
              case None => p.binding == null
              case Some(uri) => p.binding != null && p.binding.prefix == p && p.binding.uri == uri + Suffix(mode)
    {
      CurrentIsInnermost(|decls|, p);
      assert live[..|live|] == live && decls[..|decls|] == decls;
    }

    lemma {:induction false} NamedIsNotDefault(p: Prefix)
      requires Valid() && p in prefixes && p != defaultPrefix
      ensures p.name.Some?
    {
    }

    lemma {:induction false} DefaultIsPrefix()
      requires Valid()
      ensures defaultPrefix in prefixes && defaultPrefix.name.None?
    {
    }

    lemma {:induction false} CurrentIsInnermost(n: nat, p: Prefix)
      requires LiveFits() && n <= |live|
      ensures var b := Current(live[..n], decls[..n], p);
              match Innermost(decls[..n], p)
              case None => b == null
              case Some(uri) => b != null && b in live && b.prefix == p && b.uri == uri + Suffix(mode)
    {
      hide RecordFits;
      if n > 0 {
        assert live[..n][..n - 1] == live[..n - 1] && decls[..n][..n - 1] == decls[..n - 1];
        CurrentIsInnermost(n - 1, p);
        assert live[n - 1] in live;
        NamesRecord(n - 1);
      }
    }

    lemma {:induction false} NamesRecord(i: nat)
      requires LiveFits() && i < |live|
      ensures decls[i].prefix in prefixes && Accepted(mode, decls[i]) && live[i].prefix == decls[i].prefix && live[i].uri == decls[i].uri + Suffix(mode)
    {
      assert RecordFits(i);
    }

    method Handle(t: Tag, ghost opens: nat, ghost live0: seq<Binding>, ghost decls0: seq<Decl>, ghost marks0: seq<nat>,
                  ghost tagStack0: seq<Binding?>) returns (err: Option<Error>)
      requires Valid() && OnTop(live0, decls0, marks0, tagStack0, opens)
      requires if t.EndTag? then opens > 0 else Known(t.atts)
      modifies this`allocs, this`freeBindingList, this`free, this`live, this`decls, this`marks, this`tagStack, prefixes, live, free
      ensures Valid() && old(allocs) <= allocs
      ensures err.None? ==> OnTop(live0, decls0, marks0, tagStack0, OpensAfter(t, opens))
      ensures err.None? && !t.EndTag? ==> AllLegal(t.atts)
      ensures err.Some? ==> !t.EndTag? && exists n: nat :: Stopped(t.atts, n, err.value, old(allocs))
      ensures old(Records()) <= Records() && fresh(Records() - old(Records()))
    {
      hide Fits, Known, Stopped, AllLegal;
      Lengths([inherited] + tagStack);
      match t
      case StartTag(atts) =>
        err := StartTag(atts);
        ghost var n: nat := |decls| - |old(decls)|;
        assert err.Some? ==> Stopped(atts, n, err.value, old(allocs));
      case EndTag =>
        EndTag();
        err := None;
      case EmptyTag(atts) =>
        err := EmptyTag(atts);
    }

    /** A balanced run of tags leaves every prefix bound to the record it was bound to before, and loses no record. */
    method Run(tags: seq<Tag>) returns (err: Option<Error>)
      requires Valid() && Balanced(tags, 0) && forall t {:trigger t in tags} :: t in tags && !t.EndTag? ==> Known(t.atts)
      modifies this`allocs, this`freeBindingList, this`free, this`live, this`decls, this`marks, this`tagStack, prefixes, live, free
      ensures old(Records()) <= Records() && fresh(Records() - old(Records()))
      ensures err.None? ==> Valid() && tagStack == old(tagStack) && live == old(live) && decls == old(decls)
      ensures err.None? ==> forall t {:trigger t in tags} :: t in tags && !t.EndTag? ==> AllLegal(t.atts)
      ensures err.Some? ==> exists t, n: nat :: t in tags && !t.EndTag? && Stopped(t.atts, n, err.value, old(allocs))
      ensures err.None? ==> forall p {:trigger p.binding} :: p in prefixes ==> p.binding == old(p.binding)
    {
      hide Fits, Current, Known, Balanced, Check, Suffix, Head, LiveFits, FreeListFits, PrefixesFit, HeadsFit, Distinct, Stopped, AllLegal;
      Lengths([inherited] + tagStack);
      PrefixBindings([inherited] + tagStack);
      ghost var opens: nat := 0;
      ghost var records := Records();
      assert tags[0..] == tags;
      for i := 0 to |tags|
        invariant Valid() && Balanced(tags[i..], opens)
        invariant OnTop(old(live), old(decls), old(marks), old(tagStack), opens)
        invariant records <= Records() && fresh(Records() - records)
        invariant old(allocs) <= allocs
        invariant forall j {:trigger tags[j]} :: 0 <= j < i && !tags[j].EndTag? ==> AllLegal(tags[j].atts)
      {
        BalancedStep(tags, i, opens);
        ghost var before, since := Records(), allocs;
        assert tags[i] in tags;
        err := Handle(tags[i], opens, old(live), old(decls), old(marks), old(tagStack));
        assert Records() - records <= (Records() - before) + (before - records);
        if err.Some? {
          ghost var n: nat :| Stopped(tags[i].atts, n, err.value, since);
          StoppedEarlier(tags[i].atts, n, err.value, since, old(allocs));
          return;
        }
        opens := OpensAfter(tags[i], opens);
      }
      BalancedStep(tags, |tags|, opens);
      Lengths([inherited] + tagStack);
      PrefixBindings([inherited] + tagStack);
      err := None;
    }

    lemma {:induction false} StoppedEarlier(atts: seq<Decl>, n: nat, err: Error, since: nat, earlier: nat)
      requires Stopped(atts, n, err, since) && earlier <= since
      ensures Stopped(atts, n, err, earlier)
    {
    }

    lemma {:induction false} PrefixBindings(heads: seq<Binding?>)
      requires Fits(heads)
      ensures |live| == |decls| && forall p {:trigger p.binding} :: p in prefixes ==> p.binding == Current(live, decls, p)
    {
    }

    // opens tags more are open than before.
    ghost predicate OnTop(live0: seq<Binding>, decls0: seq<Decl>, marks0: seq<nat>, tagStack0: seq<Binding?>,
                          opens: nat)
      reads this
    {
      && |live0| == |decls0| && live0 <= live && decls0 <= decls && marks0 <= marks && tagStack0 <= tagStack
      && |marks| == |marks0| + opens && |tagStack| == |tagStack0| + opens
      && if opens == 0 then |live| == |live0| else marks[|marks0|] == |live0|
    }
  }

  datatype Tag = StartTag(atts: seq<Decl>) | EndTag | EmptyTag(atts: seq<Decl>)

  // Every end tag has its start tag, where opens tags are open already, and all tags get closed.
  predicate Balanced(tags: seq<Tag>, opens: nat) {
    if tags == [] then opens == 0
    else match tags[0]
      case StartTag(_) => Balanced(tags[1..], opens + 1)
      case EndTag => opens > 0 && Balanced(tags[1..], opens - 1)
      case EmptyTag(_) => Balanced(tags[1..], opens)
  }

  function OpensAfter(t: Tag, opens: nat): (r: nat)
    requires t.EndTag? ==> opens > 0
  {
    match t
    case StartTag(_) => opens + 1
    case EndTag => opens - 1
    case EmptyTag(_) => opens
  }

  lemma {:induction false} BalancedStep(tags: seq<Tag>, i: nat, opens: nat)
    requires i <= |tags| && Balanced(tags[i..], opens)
    ensures i == |tags| ==> opens == 0
    ensures i < |tags| ==>
      match tags[i]
      case StartTag(_) => Balanced(tags[i + 1..], opens + 1)
      case EndTag => opens > 0 && Balanced(tags[i + 1..], opens - 1)
      case EmptyTag(_) => Balanced(tags[i + 1..], opens)
  {
    if i < |tags| {
      assert tags[i..][1..] == tags[i + 1..];
    }
  }

  ghost predicate HeadsFit(live: seq<Binding>, marks: seq<nat>, heads: seq<Binding?>) {
    && Rising(marks, |live|) && |marks| == |heads|
    && forall k {:trigger heads[k]} :: 0 <= k < |heads| ==> heads[k] == Head(live, marks, k)
  }

  lemma {:induction false} CloseList(live: seq<Binding>, marks: seq<nat>, heads: seq<Binding?>)
    requires HeadsFit(live, marks, heads + [null])
    requires marks[|heads|] == |live|
    ensures HeadsFit(live, marks[..|heads|], heads)
    ensures forall i {:trigger Before(live, marks[..|heads|], i)} :: 0 <= i < |live| ==>
      Before(live, marks[..|heads|], i) == Before(live, marks, i)
  {
    var n := |heads|;
    assert marks == marks[..n] + [|live|];
    forall k | 0 <= k < n
      ensures heads[k] == Head(live, marks[..n], k)
    {
      assert (heads + [null])[k] == heads[k];
    }
  }

  lemma {:induction false} OpensList(live: seq<Binding>, marks: seq<nat>, heads: seq<Binding?>)
    requires HeadsFit(live, marks, heads)
    ensures HeadsFit(live, marks + [|live|], heads + [null])
    ensures forall i {:trigger Before(live, marks + [|live|], i)} :: 0 <= i < |live| ==>
      Before(live, marks + [|live|], i) == Before(live, marks, i)
  {
    forall k | 0 <= k <= |heads|
      ensures (heads + [null])[k] == Head(live, marks + [|live|], k)
    {
      if k < |heads| {
        assert (heads + [null])[k] == heads[k];
      }
    }
  }

  lemma {:induction false} RemovedRecord(live: seq<Binding>, marks: seq<nat>)
    requires marks != [] && Rising(marks, |live|) && Head(live, marks, |marks| - 1) != null
    ensures |live| > 0 && Rising(marks, |live| - 1) && Head(live, marks, |marks| - 1) == live[|live| - 1]
    ensures var rest := live[..|live| - 1];
            && (forall i {:trigger Before(rest, marks, i)} :: 0 <= i < |rest| ==> Before(rest, marks, i) == Before(live, marks, i))
            && Head(rest, marks, |marks| - 1) == Before(live, marks, |rest|)
            && (forall k {:trigger Head(rest, marks, k)} :: 0 <= k < |marks| - 1 ==> Head(rest, marks, k) == Head(live, marks, k))
  {
    assert forall k {:trigger marks[k]} :: 0 <= k < |marks| ==> marks[k] <= marks[|marks| - 1] < |live|;
  }

  lemma {:induction false} RemovedPrevious(live: seq<Binding>, decls: seq<Decl>)
    requires |live| == |decls| > 0
    ensures var n := |live| - 1;
            forall i {:trigger live[..n][..i]} :: 0 <= i <= n ==> live[..n][..i] == live[..i] && decls[..n][..i] == decls[..i]
  {
  }

  lemma {:induction false} RemovedCurrent(live: seq<Binding>, decls: seq<Decl>, p: Prefix)
    requires |live| == |decls| > 0
    ensures decls[|decls| - 1].prefix != p ==>
        Current(live[..|live| - 1], decls[..|decls| - 1], p) == Current(live, decls, p)
  {
  }

  lemma {:induction false} RemovedDistinct(live: seq<Binding>, free: seq<Binding>)
    requires Distinct(live + free) && live != []
    ensures var n := |live| - 1;
            && Distinct(live[..n] + ([live[n]] + free)) && Distinct(live)
            && (forall i {:trigger live[i]} :: 0 <= i < n ==> live[i] != live[n])
            && (forall i {:trigger free[i]} :: 0 <= i < |free| ==> free[i] != live[n])
  {
    var n := |live| - 1;
    assert live[..n] + ([live[n]] + free) == live + free;
    forall i, j | 0 <= i < j < |live| ensures live[i] != live[j] {
      assert (live + free)[i] != (live + free)[j];
    }
    forall i | 0 <= i < n ensures live[i] != live[n] {
      assert (live + free)[i] != (live + free)[n];
    }
    forall i | 0 <= i < |free| ensures free[i] != live[n] {
      assert (live + free)[n] != (live + free)[n + 1 + i];
    }
  }

  lemma {:induction false} DropFree(live: seq<Binding>, free: seq<Binding>)
    requires Distinct(live + free) && free != []
    ensures Distinct(live + free[1..]) && free[0] !in free[1..] && free[0] !in live
  {
    var s, t := live + free, live + free[1..];
    forall i, j | 0 <= i < j < |t|
      ensures t[i] != t[j]
    {
      assert t[i] == s[if i < |live| then i else i + 1] && t[j] == s[if j < |live| then j else j + 1];
    }
    forall j | 0 <= j < |free| - 1
      ensures free[1..][j] != free[0]
    {
      assert s[|live|] != s[|live| + 1 + j];
    }
    forall i | 0 <= i < |live|
      ensures live[i] != free[0]
    {
      assert s[i] != s[|live|];
    }
  }
}
