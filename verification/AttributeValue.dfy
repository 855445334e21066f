/** Expansion of attribute values (XML 1.0, section 3.3.3).  storeAttributeValue keeps an explicit stack of
    half-processed entities; the specification is the depth-first recursive expansion. */
module AttributeValue {
  import opened OpenEntities
  import opened Options

  // What the attribute-value tokenizer delivers.  CharRef carries the code point (negative: not a character)
  // and its encoding; TrailingCr, WhiteSpace and Newline all stand for a space.
  datatype Token =
    | DataChars(text: string)
    | CharRef(code: int, encoded: string)
    | TrailingCr
    | WhiteSpace
    | Newline
    | Predefined(ch: char)
    | EntityRef(name: string)
    | Invalid
    | Partial
    | PartialChar

  // XmlAttributeValueTok never leaves a space in character data, and only code point 32 is encoded as one.
  predicate LegalToken(t: Token) {
    match t
    case DataChars(text) => ' ' !in text
    case CharRef(code, encoded) => if code == 0x20 then encoded == " " else ' ' !in encoded
    case Predefined(ch) => ch != ' '
    case _ => true
  }

  predicate Legal(tokens: seq<Token>) {
    forall t | t in tokens :: LegalToken(t)
  }

  datatype Error =
    | InvalidToken
    | BadCharRef
    | UndefinedEntity
    | EntityDeclaredInPe
    | RecursiveEntityRef
    | BinaryEntityRef
    | AttributeExternalEntityRef
    | UnexpectedState

  datatype Result = Ok(out: string) | Err(error: Error)

  // The declarations, whether a missing one is an error, and the entities that content has open already.
  datatype Dtd = Dtd(entities: Table<Token>, check: bool, outer: set<string>)

  // ---------- the recursive expansion ----------

  datatype Reference = Skipped | Refused(error: Error) | Enters(text: seq<Token>)

  // What a reference to name means when the entities in path are being expanded.
  function Resolve(dtd: Dtd, path: set<string>, name: string): Reference {
    if name !in dtd.entities then (if dtd.check then Refused(UndefinedEntity) else Skipped)
    else if dtd.check && !dtd.entities[name].isInternal then Refused(EntityDeclaredInPe)
    else if name in path then Refused(RecursiveEntityRef)
    else if dtd.entities[name].notation then Refused(BinaryEntityRef)
    else match dtd.entities[name].text
      case None => Refused(AttributeExternalEntityRef)
      case Some(text) => Enters(text)
  }

  predicate EndsInSpace(out: string) {
    out == "" || out[|out| - 1] == ' '
  }

  // One token that is not a reference: the output grows, or there is an error.
  function Plain(isCdata: bool, t: Token, out: string): Result {
    match t
    case DataChars(text) => Ok(out + text)
    case CharRef(code, encoded) =>
      if code < 0 then Err(BadCharRef)
      else if !isCdata && code == 0x20 && EndsInSpace(out) then Ok(out)
      else Ok(out + encoded)
    case TrailingCr => Ok(AppendSpace(isCdata, out))
    case WhiteSpace => Ok(AppendSpace(isCdata, out))
    case Newline => Ok(AppendSpace(isCdata, out))
    case Predefined(ch) => Ok(out + [ch])
    case EntityRef(_) => Err(UnexpectedState)
    case Invalid => Err(InvalidToken)
    case Partial => Err(InvalidToken)
    case PartialChar => Err(UnexpectedState)
  }

  function AppendSpace(isCdata: bool, out: string): string {
    if !isCdata && EndsInSpace(out) then out else out + " "
  }

  // Depth first, left to right; path holds the entities whose text is being expanded.
  function Expand(dtd: Dtd, isCdata: bool, path: set<string>, tokens: seq<Token>, out: string): Result
    decreases |dtd.entities.Keys - path|, |tokens|
  {
    if tokens == [] then Ok(out)
    else if tokens[0].EntityRef? then
      match Resolve(dtd, path, tokens[0].name)
      case Skipped => Expand(dtd, isCdata, path, tokens[1..], out)
      case Refused(e) => Err(e)
      case Enters(text) =>
        PathGrows(dtd.entities, path, tokens[0].name);
        var inner := Expand(dtd, isCdata, path + {tokens[0].name}, text, out);
        if inner.Err? then inner else Expand(dtd, isCdata, path, tokens[1..], inner.out)
    else
      var r := Plain(isCdata, tokens[0], out);
      if r.Err? then r else Expand(dtd, isCdata, path, tokens[1..], r.out)
  }

  // The value that is stored: for other types than CDATA a space at the end is dropped.
  function Finish(isCdata: bool, r: Result): Result {
    if r.Ok? && !isCdata && r.out != "" && EndsInSpace(r.out) then Ok(r.out[..|r.out| - 1]) else r
  }

  function Value(dtd: Dtd, isCdata: bool, tokens: seq<Token>): Result {
    Finish(isCdata, Expand(dtd, isCdata, dtd.outer, tokens, ""))
  }

  // ---------- section 3.3.3: other types are the CDATA value with its spaces normalised ----------

  // The maximal runs of characters other than space.
  function Words(s: string): seq<string> {
    if s == "" then []
    else
      var front, c := Words(s[..|s| - 1]), s[|s| - 1];
      if c == ' ' then front
      else if |s| == 1 || s[|s| - 2] == ' ' then front + [[c]]
      else if front == [] then [[c]]
      else front[..|front| - 1] + [front[|front| - 1] + [c]]
  }

  function Join(words: seq<string>): string {
    if words == [] then ""
    else if |words| == 1 then words[0]
    else Join(words[..|words| - 1]) + " " + words[|words| - 1]
  }

  // Leading and trailing spaces are discarded and the others collapsed.
  function Normalize(s: string): string {
    Join(Words(s))
  }

  // What the other types have stored when CDATA has stored s: the space after the last word is still there.
  function Collapsed(s: string): string {
    if s != "" && s[|s| - 1] == ' ' && Words(s) != [] then Normalize(s) + " " else Normalize(s)
  }

  ghost predicate WordsShape(s: string) {
    var w := Words(s);
    && (forall i {:trigger w[i]} :: 0 <= i < |w| ==> w[i] != "" && ' ' !in w[i])
    && (s != "" && s[|s| - 1] != ' ' ==> w != [])
  }

  lemma {:induction false} WordsAreWords(s: string)
    ensures WordsShape(s)
  {
    if s != "" {
      WordsAreWords(s[..|s| - 1]);
    }
  }

  lemma {:induction false} JoinEnds(words: seq<string>)
    requires words != [] && forall i {:trigger words[i]} :: 0 <= i < |words| ==> words[i] != "" && ' ' !in words[i]
    ensures Join(words) != "" && Join(words)[|Join(words)| - 1] != ' '
  {
    var w := words[|words| - 1];
    assert w[|w| - 1] in w;
  }

  lemma {:induction false} CollapsedEnd(s: string)
    ensures EndsInSpace(Collapsed(s)) <==> s == "" || s[|s| - 1] == ' '
    ensures Collapsed(s) == "" <==> Words(s) == []
  {
    WordsAreWords(s);
    if Words(s) != [] {
      JoinEnds(Words(s));
    }
  }

  lemma {:induction false} CollapsedSpace(s: string)
    ensures Collapsed(s + " ") == AppendSpace(false, Collapsed(s))
  {
    CollapsedEnd(s);
    assert (s + " ")[..|s|] == s;
  }

  lemma {:induction false} WordsSnoc(s: string, c: char)
    requires c != ' '
    ensures var w := Words(s);
            if s == "" || s[|s| - 1] == ' ' then Words(s + [c]) == w + [[c]]
            else w != [] && Words(s + [c]) == w[..|w| - 1] + [w[|w| - 1] + [c]]
  {
    WordsAreWords(s);
    assert (s + [c])[..|s|] == s;
    assert s != "" ==> (s + [c])[|s + [c]| - 2] == s[|s| - 1];
  }

  lemma {:induction false} NoWords(s: string)
    ensures s == "" ==> Words(s) == []
    ensures Join([]) == ""
  {
  }

  lemma {:induction false} JoinSnoc(words: seq<string>, w: string)
    ensures Join(words + [w]) == if words == [] then w else Join(words) + " " + w
  {
    assert (words + [w])[..|words|] == words;
  }

  lemma {:induction false} CollapsedChar(s: string, c: char)
    requires c != ' '
    ensures Collapsed(s + [c]) == Collapsed(s) + [c]
  {
    hide Words, Join;
    var w := Words(s);
    WordsSnoc(s, c);
    if s == "" || s[|s| - 1] == ' ' {
      JoinSnoc(w, [c]);
      NoWords(s);
    } else {
      var n := |w| - 1;
      JoinSnoc(w[..n], w[n]);
      JoinSnoc(w[..n], w[n] + [c]);
      assert w == w[..n] + [w[n]];
    }
  }

  lemma {:induction false} CollapsedText(s: string, text: string)
    requires ' ' !in text
    ensures Collapsed(s + text) == Collapsed(s) + text
  {
    hide Collapsed;
    if text == "" {
      assert s + text == s && Collapsed(s) + text == Collapsed(s);
    } else {
      var n := |text| - 1;
      CollapsedText(s, text[..n]);
      assert text[n] in text;
      CollapsedChar(s + text[..n], text[n]);
      assert s + text == s + text[..n] + [text[n]];
      assert Collapsed(s) + text == Collapsed(s) + text[..n] + [text[n]];
    }
  }

  // The result for the other types, from the result for CDATA.
  function Map(r: Result): Result {
    if r.Ok? then Ok(Collapsed(r.out)) else r
  }

  lemma {:induction false} PlainCollapses(t: Token, out: string)
    requires LegalToken(t)
    ensures Plain(false, t, Collapsed(out)) == Map(Plain(true, t, out))
  {
    CollapsedSpace(out);
    match t
    case DataChars(text) => CollapsedText(out, text);
    case CharRef(code, encoded) => if code != 0x20 { CollapsedText(out, encoded); }
    case Predefined(ch) => CollapsedChar(out, ch);
    case _ =>
  }

  ghost predicate LegalTable(table: Table<Token>) {
    forall n {:trigger table[n]} :: n in table && table[n].text.Some? ==> Legal(table[n].text.value)
  }

  lemma {:induction false} ExpandCollapses(dtd: Dtd, path: set<string>, tokens: seq<Token>, out: string)
    requires LegalTable(dtd.entities) && Legal(tokens)
    ensures Expand(dtd, false, path, tokens, Collapsed(out)) == Map(Expand(dtd, true, path, tokens, out))
    decreases |dtd.entities.Keys - path|, |tokens|
  {
    hide Collapsed;
    if tokens != [] {
      if tokens[0].EntityRef? {
        match Resolve(dtd, path, tokens[0].name)
        case Skipped => ExpandCollapses(dtd, path, tokens[1..], out);
        case Refused(_) =>
        case Enters(text) =>
          PathGrows(dtd.entities, path, tokens[0].name);
          ExpandCollapses(dtd, path + {tokens[0].name}, text, out);
          var inner := Expand(dtd, true, path + {tokens[0].name}, text, out);
          if inner.Ok? {
            ExpandCollapses(dtd, path, tokens[1..], inner.out);
          }
      } else {
        PlainCollapses(tokens[0], out);
        var r := Plain(true, tokens[0], out);
        if r.Ok? {
          ExpandCollapses(dtd, path, tokens[1..], r.out);
        }
      }
    }
  }

  /** A value of another type than CDATA is the CDATA value with leading and trailing spaces discarded and the
      others collapsed; the errors are the same. */
  lemma {:induction false} OtherTypesNormalizeCdata(dtd: Dtd, tokens: seq<Token>)
    requires LegalTable(dtd.entities) && Legal(tokens)
    ensures var cdata := Value(dtd, true, tokens);
            Value(dtd, false, tokens) == if cdata.Ok? then Ok(Normalize(cdata.out)) else cdata
  {
    ExpandCollapses(dtd, dtd.outer, tokens, "");
    assert Collapsed("") == "";
    var r := Expand(dtd, true, dtd.outer, tokens, "");
    if r.Ok? {
      CollapsedEnd(r.out);
      WordsAreWords(r.out);
      if Words(r.out) != [] {
        JoinEnds(Words(r.out));
        assert (Normalize(r.out) + " ")[..|Normalize(r.out)|] == Normalize(r.out);
      }
    }
  }

  // ---------- recursion is reported exactly for references that never end ----------

  // Every chain of references from tokens ends within k steps, and none reaches an entity that is open already.
  ghost predicate EndsWithin(dtd: Dtd, tokens: seq<Token>, k: nat)
    decreases k, 1
  {
    forall t {:trigger EndsFrom(dtd, t, k)} :: t in tokens ==> EndsFrom(dtd, t, k)
  }

  ghost predicate EndsFrom(dtd: Dtd, t: Token, k: nat)
    decreases k, 0
  {
    t.EntityRef? ==>
      && Resolve(dtd, dtd.outer, t.name) != Refused(RecursiveEntityRef)
      && (Resolve(dtd, dtd.outer, t.name).Enters? ==> k > 0 && EndsWithin(dtd, Resolve(dtd, dtd.outer, t.name).text, k - 1))
  }

  lemma {:induction false} EndsCons(dtd: Dtd, tokens: seq<Token>, k: nat)
    requires tokens != []
    ensures EndsWithin(dtd, tokens, k)
            <==> EndsFrom(dtd, tokens[0], k) && EndsWithin(dtd, tokens[1..], k)
  {
    hide EndsFrom;
    assert tokens == [tokens[0]] + tokens[1..];
    if EndsWithin(dtd, tokens, k) {
      assert tokens[0] in tokens;
      forall t | t in tokens[1..]
        ensures EndsFrom(dtd, t, k)
      {
        assert t in tokens;
      }
    }
  }

  lemma {:induction false} EndsWithinMonotone(dtd: Dtd, tokens: seq<Token>, j: nat, k: nat)
    requires j <= k && EndsWithin(dtd, tokens, j)
    ensures EndsWithin(dtd, tokens, k)
    decreases k
  {
    forall t | t in tokens
      ensures EndsFrom(dtd, t, k)
    {
      assert EndsFrom(dtd, t, j);
      if t.EntityRef? && Resolve(dtd, dtd.outer, t.name).Enters? {
        EndsWithinMonotone(dtd, Resolve(dtd, dtd.outer, t.name).text, j - 1, k - 1);
      }
    }
  }

  lemma {:induction false} LeastDepth(dtd: Dtd, tokens: seq<Token>, k: nat) returns (d: nat)
    requires EndsWithin(dtd, tokens, k)
    ensures d <= k && EndsWithin(dtd, tokens, d)
    ensures d > 0 ==> !EndsWithin(dtd, tokens, d - 1)
  {
    if k > 0 && EndsWithin(dtd, tokens, k - 1) {
      d := LeastDepth(dtd, tokens, k - 1);
    } else {
      d := k;
    }
  }

  // The entities on the path are deeper than the text that is being expanded.
  ghost predicate PathDeeper(dtd: Dtd, path: set<string>, k: nat) {
    forall p {:trigger p in path} :: p in path && p !in dtd.outer ==>
      && Resolve(dtd, dtd.outer, p).Enters?
      && (k > 0 ==> !EndsWithin(dtd, Resolve(dtd, dtd.outer, p).text, k - 1))
  }

  lemma {:induction false} PlainIsNotRecursive(isCdata: bool, t: Token, out: string)
    ensures Plain(isCdata, t, out) != Err(RecursiveEntityRef)
  {
  }

  lemma {:induction false} NoRecursionWhenEnding(dtd: Dtd, isCdata: bool, path: set<string>, tokens: seq<Token>,
                                                 out: string, k: nat)
    requires EndsWithin(dtd, tokens, k) && PathDeeper(dtd, path, k) && dtd.outer <= path
    ensures Expand(dtd, isCdata, path, tokens, out) != Err(RecursiveEntityRef)
    decreases |dtd.entities.Keys - path|, |tokens|
  {
    hide EndsWithin, Plain;
    if tokens != [] {
      var rest := tokens[1..];
      EndsCons(dtd, tokens, k);
      if tokens[0].EntityRef? {
        var name := tokens[0].name;
        match Resolve(dtd, path, name)
        case Skipped => NoRecursionWhenEnding(dtd, isCdata, path, rest, out, k);
        case Refused(e) =>
        case Enters(text) =>
          PathGrows(dtd.entities, path, name);
          var d := LeastDepth(dtd, text, k - 1);
          DeeperPath(dtd, path, name, k, d);
          NoRecursionWhenEnding(dtd, isCdata, path + {name}, text, out, d);
          var inner := Expand(dtd, isCdata, path + {name}, text, out);
          if inner.Ok? {
            NoRecursionWhenEnding(dtd, isCdata, path, rest, inner.out, k);
          }
      } else {
        PlainIsNotRecursive(isCdata, tokens[0], out);
        var r := Plain(isCdata, tokens[0], out);
        if r.Ok? {
          NoRecursionWhenEnding(dtd, isCdata, path, rest, r.out, k);
        }
      }
    }
  }

  lemma {:induction false} DeeperPath(dtd: Dtd, path: set<string>, name: string, k: nat, d: nat)
    requires PathDeeper(dtd, path, k) && d < k && Resolve(dtd, dtd.outer, name).Enters?
    requires d > 0 ==> !EndsWithin(dtd, Resolve(dtd, dtd.outer, name).text, d - 1)
    ensures PathDeeper(dtd, path + {name}, d)
  {
    forall p | p in path && p !in dtd.outer && d > 0
      ensures !EndsWithin(dtd, Resolve(dtd, dtd.outer, p).text, d - 1)
    {
      if EndsWithin(dtd, Resolve(dtd, dtd.outer, p).text, d - 1) {
        EndsWithinMonotone(dtd, Resolve(dtd, dtd.outer, p).text, d - 1, k - 1);
      }
    }
  }

  lemma {:induction false} OkEnds(dtd: Dtd, isCdata: bool, path: set<string>, tokens: seq<Token>, out: string)
    requires Expand(dtd, isCdata, path, tokens, out).Ok?
    requires dtd.outer <= path
    ensures EndsWithin(dtd, tokens, |dtd.entities.Keys - path|)
    decreases |dtd.entities.Keys - path|, |tokens|
  {
    hide EndsWithin, Plain;
    if tokens == [] {
      EndsNil(dtd, |dtd.entities.Keys - path|);
    } else {
      var n := |dtd.entities.Keys - path|;
      EndsCons(dtd, tokens, n);
      if tokens[0].EntityRef? {
        var name := tokens[0].name;
        match Resolve(dtd, path, name)
        case Skipped => OkEnds(dtd, isCdata, path, tokens[1..], out);
        case Enters(text) =>
          PathGrows(dtd.entities, path, name);
          OkEnds(dtd, isCdata, path + {name}, text, out);
          EndsWithinMonotone(dtd, text, |dtd.entities.Keys - (path + {name})|, n - 1);
          OkEnds(dtd, isCdata, path, tokens[1..], Expand(dtd, isCdata, path + {name}, text, out).out);
      } else {
        OkEnds(dtd, isCdata, path, tokens[1..], Plain(isCdata, tokens[0], out).out);
      }
    }
  }

  lemma {:induction false} EndsNil(dtd: Dtd, k: nat)
    ensures EndsWithin(dtd, [], k)
  {
  }

  /** When nothing else goes wrong, a value expands if every chain of references from it ends without reaching an
      entity that is open already, and a recursive reference is reported if one does not. */
  lemma {:induction false} RecursionExactlyWhenEndless(dtd: Dtd, isCdata: bool, tokens: seq<Token>)
    requires var r := Value(dtd, isCdata, tokens);
             r.Ok? || r.error == RecursiveEntityRef
    ensures Value(dtd, isCdata, tokens).Ok? <==> exists k: nat :: EndsWithin(dtd, tokens, k)
  {
    var r := Expand(dtd, isCdata, dtd.outer, tokens, "");
    if r.Ok? {
      OkEnds(dtd, isCdata, dtd.outer, tokens, "");
    }
    forall k: nat | EndsWithin(dtd, tokens, k)
      ensures r != Err(RecursiveEntityRef)
    {
      NoRecursionWhenEnding(dtd, isCdata, dtd.outer, tokens, "", k);
    }
  }

  // ---------- the explicit stack ----------

  // The expansion of what is left: the innermost entity first, the value itself last.
  ghost function Resume(dtd: Dtd, isCdata: bool, frames: seq<Frame<Token>>, rest: seq<Token>, out: string): Result
    decreases |frames|
  {
    if frames == [] then Expand(dtd, isCdata, dtd.outer, rest, out)
    else
      var r := Expand(dtd, isCdata, PathOf(dtd.outer, frames), frames[|frames| - 1].rest, out);
      if r.Err? then r else Resume(dtd, isCdata, frames[..|frames| - 1], rest, r.out)
  }

  // The number of steps the expansion takes, errors aside.
  ghost function Work(dtd: Dtd, path: set<string>, tokens: seq<Token>): nat
    decreases |dtd.entities.Keys - path|, |tokens|
  {
    if tokens == [] then 1
    else
      var here := if tokens[0].EntityRef? && Resolve(dtd, path, tokens[0].name).Enters? then
                    PathGrows(dtd.entities, path, tokens[0].name);
                    1 + Work(dtd, path + {tokens[0].name}, Resolve(dtd, path, tokens[0].name).text)
                  else 0;
      1 + here + Work(dtd, path, tokens[1..])
  }

  ghost function StackWork(dtd: Dtd, frames: seq<Frame<Token>>): nat {
    if frames == [] then 0
    else
      var f := frames[|frames| - 1];
      StackWork(dtd, frames[..|frames| - 1]) + 1 + (if f.more then Work(dtd, PathOf(dtd.outer, frames), f.rest) else 0)
  }

  // Where one run of appendAttributeValue over the text stops: at its end, at an error, or behind a reference
  // to an entity that it has opened.
  datatype Stop = AtEnd | AtError(error: Error) | Opened(name: string)

  ghost predicate Scanned(dtd: Dtd, isCdata: bool, path: set<string>, tokens: seq<Token>, out: string,
                          stop: Stop, rest: seq<Token>, out': string) {
    match stop
    case AtError(e) => Expand(dtd, isCdata, path, tokens, out) == Err(e)
    case AtEnd => rest == [] && Expand(dtd, isCdata, path, tokens, out) == Ok(out')
    case Opened(name) =>
      && name in dtd.entities && name !in path && dtd.entities[name].text.Some?
      && var text := dtd.entities[name].text.value;
         && (var inner := Expand(dtd, isCdata, path + {name}, text, out');
             Expand(dtd, isCdata, path, tokens, out)
             == if inner.Err? then inner else Expand(dtd, isCdata, path, rest, inner.out))
         && Work(dtd, path + {name}, text) + 1 + Work(dtd, path, rest) < Work(dtd, path, tokens)
  }

  lemma {:induction false} NoFrames(dtd: Dtd, isCdata: bool, rest: seq<Token>, out: string)
    ensures Resume(dtd, isCdata, [], rest, out) == Expand(dtd, isCdata, dtd.outer, rest, out)
    ensures rest == [] ==> Expand(dtd, isCdata, dtd.outer, rest, out) == Ok(out)
    ensures StackWork(dtd, []) == 0 && PathOf<Token>(dtd.outer, []) == dtd.outer
  {
  }

  // The steps of storeAttributeValue, on the frames.
  lemma {:induction false} OpenFromValue(dtd: Dtd, isCdata: bool, rest: seq<Token>, out: string,
                                         name: string, level: nat, rest': seq<Token>, out': string)
    requires Scanned(dtd, isCdata, dtd.outer, rest, out, Opened(name), rest', out')
    ensures var frames := [Frame(name, level, true, dtd.entities[name].text.value)];
            && Resume(dtd, isCdata, frames, rest', out') == Resume(dtd, isCdata, [], rest, out)
            && StackWork(dtd, frames) + Work(dtd, dtd.outer, rest') < Work(dtd, dtd.outer, rest)
  {
    var frames := [Frame(name, level, true, dtd.entities[name].text.value)];
    assert frames[..0] == [];
    assert PathOf(dtd.outer, frames) == dtd.outer + {name};
  }

  lemma {:induction false} OpenFromEntity(dtd: Dtd, isCdata: bool, front: seq<Frame<Token>>, f: Frame<Token>,
                                          rest: seq<Token>,
                                          out: string, name: string, level: nat, f': Frame<Token>, out': string)
    requires f.more && f'.name == f.name && (!f'.more ==> f'.rest == [])
    requires Scanned(dtd, isCdata, PathOf(dtd.outer, front) + {f.name}, f.rest, out, Opened(name), f'.rest, out')
    ensures var frames := front + [f', Frame(name, level, true, dtd.entities[name].text.value)];
            && Resume(dtd, isCdata, frames, rest, out') == Resume(dtd, isCdata, front + [f], rest, out)
            && StackWork(dtd, frames) < StackWork(dtd, front + [f])
  {
    hide Expand, Work;
    var last := Frame(name, level, true, dtd.entities[name].text.value);
    var frames := front + [f', last];
    assert frames == front + [f'] + [last];
    assert frames[..|frames| - 1] == front + [f'];
    assert (front + [f'])[..|front|] == front && (front + [f])[..|front|] == front;
    PathSnoc(dtd.outer, front, f);
    PathSnoc(dtd.outer, front, f');
    PathSnoc(dtd.outer, front + [f'], last);
    var inner := Expand(dtd, isCdata, PathOf(dtd.outer, frames), last.rest, out');
    assert inner.Ok? ==> Resume(dtd, isCdata, frames, rest, out') == Resume(dtd, isCdata, front + [f'], rest, inner.out);
  }

  lemma {:induction false} EntityDone(dtd: Dtd, isCdata: bool, front: seq<Frame<Token>>, f: Frame<Token>,
                                      rest: seq<Token>,
                                      out: string, rest': seq<Token>, out': string)
    requires f.more && Scanned(dtd, isCdata, PathOf(dtd.outer, front) + {f.name}, f.rest, out, AtEnd, rest', out')
    ensures var f' := f.(more := false, rest := []);
            && Resume(dtd, isCdata, front + [f'], rest, out') == Resume(dtd, isCdata, front + [f], rest, out)
            && StackWork(dtd, front + [f']) < StackWork(dtd, front + [f])
  {
    var f' := f.(more := false, rest := []);
    assert (front + [f'])[..|front|] == front && (front + [f])[..|front|] == front;
  }

  lemma {:induction false} EntityClosed(dtd: Dtd, isCdata: bool, front: seq<Frame<Token>>, f: Frame<Token>,
                                        rest: seq<Token>, out: string)
    requires f.rest == []
    ensures Resume(dtd, isCdata, front, rest, out) == Resume(dtd, isCdata, front + [f], rest, out)
    ensures StackWork(dtd, front) < StackWork(dtd, front + [f])
  {
    assert (front + [f])[..|front|] == front;
  }

  lemma {:induction false} EntityFails(dtd: Dtd, isCdata: bool, front: seq<Frame<Token>>, f: Frame<Token>,
                                       rest: seq<Token>,
                                       out: string, e: Error, rest': seq<Token>, out': string)
    requires Scanned(dtd, isCdata, PathOf(dtd.outer, front) + {f.name}, f.rest, out, AtError(e), rest', out')
    ensures Resume(dtd, isCdata, front + [f], rest, out) == Err(e)
  {
    assert (front + [f])[..|front|] == front;
  }

  // ---------- the parser ----------

  // check is checkEntityDecl and tagLevel is m_tagLevel; neither changes during a call.
  class Parser {
    const entities: OpenList<Token>
    const check: bool
    const tagLevel: nat
    var pool: string

    constructor (entities: OpenList<Token>, check: bool, tagLevel: nat)
      ensures this.entities == entities && this.check == check && this.tagLevel == tagLevel && pool == ""
    {
      this.entities, this.check, this.tagLevel := entities, check, tagLevel;
      pool := "";
    }

    ghost function Decls(): Dtd {
      Dtd(entities.Table(), check, entities.outer)
    }

    method AppendChars(chars: string)
      modifies this`pool
      ensures pool == old(pool) + chars
    {
      pool := pool + chars;
    }

    // One token that is not a reference to a general entity.
    method AppendToken(isCdata: bool, t: Token) returns (err: Option<Error>)
      requires !t.EntityRef?
      modifies this`pool
      ensures Plain(isCdata, t, old(pool)) == match err case None => Ok(pool) case Some(e) => Err(e)
    {
      err := None;
      match t {
        case Invalid => err := Some(InvalidToken);
        case Partial => err := Some(InvalidToken);
        case PartialChar => err := Some(UnexpectedState);
        case CharRef(n, encoded) =>
          if n < 0 {
            return Some(BadCharRef);
          }
          if !isCdata && n == 0x20 && (|pool| == 0 || pool[|pool| - 1] == ' ') {
            return;
          }
          AppendChars(encoded);
        case DataChars(text) => AppendChars(text);
        case Predefined(ch) => AppendChars([ch]);
        case TrailingCr => AppendSpaceChar(isCdata);
        case WhiteSpace => AppendSpaceChar(isCdata);
        case Newline => AppendSpaceChar(isCdata);
      }
    }

    method AppendSpaceChar(isCdata: bool)
      modifies this`pool
      ensures pool == AppendSpace(isCdata, old(pool))
    {
      if !isCdata && (|pool| == 0 || pool[|pool| - 1] == ' ') {
        return;
      }
      AppendChars(" ");
    }

    // The tests that appendAttributeValue makes on a reference, in their order.
    method Refer(name: string) returns (r: Reference)
      requires entities.Valid()
      ensures r == Resolve(Decls(), entities.Path(), name)
      ensures r.Enters? ==> name in entities.generalEntities && entities.generalEntities[name].decl.text == Some(r.text)
      ensures r.Enters? ==> !entities.generalEntities[name].open && name !in entities.Path()
    {
      hide PathOf;
      if name !in entities.generalEntities {
        return if check then Refused(UndefinedEntity) else Skipped;
      }
      var entity := entities.generalEntities[name];
      entities.OpenMeansOnPath(entity);
      if check && !entity.decl.isInternal {
        return Refused(EntityDeclaredInPe);
      }
      if entity.open {
        return Refused(RecursiveEntityRef);
      }
      if entity.decl.notation {
        return Refused(BinaryEntityRef);
      }
      if entity.decl.text.None? {
        return Refused(AttributeExternalEntityRef);
      }
      return Enters(entity.decl.text.value);
    }

    // appendAttributeValue: the text from ptr on, up to its end or up to behind a reference that opens an entity.
    method AppendAttributeValue(isCdata: bool, text: seq<Token>, start: nat)
      returns (err: Option<Error>, next: nat, ghost stop: Stop)
      requires entities.Valid() && start <= |text|
      modifies this`pool, entities, entities.generalEntities.Values
      ensures next <= |text|
      ensures Scanned(Decls(), isCdata, old(entities.Path()), text[start..], old(pool), stop, text[next..], pool)
      ensures err == if stop.AtError? then Some(stop.error) else None
      ensures stop.AtEnd? ==> next == |text| && entities.Valid() && unchanged(entities)
      ensures stop.AtEnd? ==> unchanged(entities.generalEntities.Values)
      ensures stop.Opened? ==> stop.name in entities.generalEntities && entities.Valid()
      ensures stop.Opened? ==>
          entities.list == old(entities.list) + [OpenEntity(entities.generalEntities[stop.name], tagLevel)]
      ensures stop.Opened? ==>
          entities.frames == old(entities.frames) + [Frame(stop.name, tagLevel, true, Decls().entities[stop.name].text.value)]
      ensures stop.Opened? ==> unchanged(entities.generalEntities.Values - {entities.generalEntities[stop.name]})
    {
      hide PathOf, Plain, Resolve;
      ghost var path := entities.Path();
      err, next, stop := None, start, AtEnd;
      while next < |text|
        invariant start <= next <= |text| && entities.Valid() && err == None && stop == AtEnd
        invariant unchanged(entities) && unchanged(entities.generalEntities.Values)
        invariant Expand(Decls(), isCdata, path, text[start..], old(pool)) == Expand(Decls(), isCdata, path, text[next..], pool)
        invariant Work(Decls(), path, text[next..]) <= Work(Decls(), path, text[start..])
      {
        assert text[next..][0] == text[next] && text[next..][1..] == text[next + 1..];
        if text[next].EntityRef? {
          var name := text[next].name;
          var reference := Refer(name);
          if reference.Refused? {
            err, stop := Some(reference.error), AtError(reference.error);
            return;
          } else if reference.Enters? {
            entities.ProcessEntity(entities.generalEntities[name], tagLevel);
            next := next + 1;
            stop := Opened(name);
            return;
          }
        } else {
          err := AppendToken(isCdata, text[next]);
          if err.Some? {
            stop := AtError(err.value);
            return;
          }
        }
        next := next + 1;
      }
    }

    // One turn of storeAttributeValue with an entity open; rest is what is left of the value itself.
    method ProcessInnermost(isCdata: bool, ghost rest: seq<Token>) returns (err: Option<Error>)
      requires entities.Valid() && entities.list != []
      modifies this`pool, entities, entities.generalEntities.Values
      ensures err.Some? ==> old(Resume(Decls(), isCdata, entities.frames, rest, pool)) == Err(err.value)
      ensures err.None? ==> entities.Valid()
      ensures err.None? ==>
          Resume(Decls(), isCdata, entities.frames, rest, pool) == old(Resume(Decls(), isCdata, entities.frames, rest, pool))
      ensures err.None? ==> StackWork(Decls(), entities.frames) < old(StackWork(Decls(), entities.frames))
    {
      hide Expand, Work, Resume, StackWork, PathOf, Scanned, OpenList.Valid;
      ghost var dtd, out := Decls(), pool;
      ghost var frames := entities.frames;
      entities.Innermost();
      ghost var front, f := frames[..|frames| - 1], frames[|frames| - 1];
      var entity := entities.list[|entities.list| - 1].entity;
      assert frames == front + [f];
      PathSnoc(dtd.outer, front, f);
      err := None;
      if !entity.hasMore {
        entities.Close(entity, front, f);
        EntityClosed(dtd, isCdata, front, f, rest, pool);
        return;
      }
      var nextInEntity;
      ghost var stop;
      err, nextInEntity, stop := AppendAttributeValue(isCdata, entity.decl.text.value, entity.processed);
      if err.Some? {
        EntityFails(dtd, isCdata, front, f, rest, out, err.value, entity.decl.text.value[nextInEntity..], pool);
        return;
      }
      ghost var above := entities.frames[|front| + 1..];
      entities.MarkProgress(entity, nextInEntity, nextInEntity != |entity.decl.text.value|, front, f, above);
      if stop.Opened? {
        assert entities.frames[|front|].rest == entity.decl.text.value[nextInEntity..];
        OpenFromEntity(dtd, isCdata, front, f, rest, out, stop.name, tagLevel, entities.frames[|front|], pool);
        assert entities.frames == front + [entities.frames[|front|], above[0]];
      } else {
        EntityDone(dtd, isCdata, front, f, rest, out, entity.decl.text.value[nextInEntity..], pool);
        assert entities.frames == front + [f.(more := false, rest := [])];
      }
    }

    /** storeAttributeValue: the loop over the explicit stack stores the recursive expansion, or stops with its error. */
    method StoreAttributeValue(isCdata: bool, text: seq<Token>) returns (err: Option<Error>)
      requires entities.Valid() && entities.list == [] && pool == ""
      modifies this`pool, entities, entities.generalEntities.Values
      ensures err.Some? <==> Value(Decls(), isCdata, text).Err?
      ensures err.Some? ==> Value(Decls(), isCdata, text) == Err(err.value)
      ensures err.None? ==> pool == Value(Decls(), isCdata, text).out + ['\0']
      ensures err.None? ==> entities.Valid() && entities.list == []
    {
      hide Expand, Work, Resume, StackWork, PathOf;
      ghost var dtd := Decls();
      var next: nat := 0;
      NoFrames(dtd, isCdata, text, "");
      err := None;
      assert text[next..] == text;
      while true
        invariant entities.Valid() && next <= |text| && err == None
        invariant Resume(dtd, isCdata, entities.frames, text[next..], pool) == Expand(dtd, isCdata, dtd.outer, text, "")
        decreases StackWork(dtd, entities.frames) + Work(dtd, dtd.outer, text[next..])
      {
        if entities.list == [] {
          ghost var stop;
          ghost var out, rest := pool, text[next..];
          NoFrames(dtd, isCdata, rest, out);
          assert entities.frames == [];
          err, next, stop := AppendAttributeValue(isCdata, text, next);
          if stop.Opened? {
            assert entities.frames == [Frame(stop.name, tagLevel, true, dtd.entities[stop.name].text.value)];
            OpenFromValue(dtd, isCdata, rest, out, stop.name, tagLevel, text[next..], pool);
          }
        } else {
          err := ProcessInnermost(isCdata, text[next..]);
        }
        if err.Some? || (entities.list == [] && next == |text|) {
          NoFrames(dtd, isCdata, text[next..], pool);
          break;
        }
      }
      if err.Some? {
        return;
      }
      if !isCdata && |pool| != 0 && pool[|pool| - 1] == ' ' {
        pool := pool[..|pool| - 1];
      }
      pool := pool + ['\0'];
    }
  }
}
