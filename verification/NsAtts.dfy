/** The versioned table in which storeAtts looks for duplicate prefixed attributes (Namespaces in XML 1.0, section 6.3). */
module NsAtts {
  import opened Arithmetic
  import opened Counting
  import opened Options
  import opened Probing
  import Heap

  const INIT_ATTS_VERSION: Word := 0xFFFF_FFFF
  const SIZE_MAX: nat := 0xFFFF_FFFF
  const SIZEOF_NS_ATT: nat := 12
  const BITS_IN_INT: nat := 32

  // NS_ATT
  datatype NsAtt = NsAtt(version: Word, hash: Word, uriName: string)

  // A prefixed attribute: what its prefix is bound to, if it is, with the separator, if there is one.
  datatype Attribute = Attribute(uri: Option<string>, localPart: string, prefix: string)

  datatype Error = UnboundPrefix | DuplicateAttribute | NoMemory

  // The expanded name; with triplets the prefix is added when it is stored.
  function Name(a: Attribute): string
    requires a.uri.Some?
  {
    a.uri.value + a.localPart
  }

  function Stored(triplets: Option<char>, a: Attribute): string
    requires a.uri.Some?
  {
    if triplets.Some? then Name(a) + [triplets.value] + a.prefix else Name(a)
  }

  type Hash = string -> Word

  ghost predicate AllBound(atts: seq<Attribute>, n: nat) {
    n <= |atts| && forall i {:trigger atts[i]} :: 0 <= i < n ==> atts[i].uri.Some?
  }

  // What the comparison in the probe loop takes for the same name: the hashes agree and the stored name begins with it.
  predicate Matches(hash: Hash, triplets: Option<char>, a: Attribute, earlier: Attribute)
    requires a.uri.Some? && earlier.uri.Some?
  {
    hash(Name(a)) == hash(Name(earlier)) && Name(a) <= Stored(triplets, earlier)
  }

  ghost predicate MatchedBefore(hash: Hash, triplets: Option<char>, atts: seq<Attribute>, i: nat)
    requires i < |atts| && AllBound(atts, i + 1)
  {
    exists j {:trigger atts[j]} :: 0 <= j < i && Matches(hash, triplets, atts[i], atts[j])
  }

  // The first n attributes are in slots of their probe sequences, and no other slot has the current version.
  ghost predicate Holds(table: seq<NsAtt>, power: nat, version: Word, hash: Hash, triplets: Option<char>,
                        atts: seq<Attribute>, n: nat, slots: seq<nat>) {
    && power >= 3 && |table| == Pow2(power) && AllBound(atts, n) && |slots| == n
    && (forall i {:trigger slots[i]} :: 0 <= i < n ==> InSlot(table, power, version, hash, triplets, atts[i], slots[i]))
    && (forall s {:trigger table[s]} :: 0 <= s < |table| && table[s].version == version ==> s in slots)
    && (forall s {:trigger table[s]} :: 0 <= s < |table| ==> table[s].version >= version)
  }

  ghost predicate InSlot(table: seq<NsAtt>, power: nat, version: Word, hash: Hash, triplets: Option<char>,
                         a: Attribute, s: nat)
    requires power >= 3 && |table| == Pow2(power) && a.uri.Some?
  {
    && s < |table| && table[s] == NsAtt(version, hash(Name(a)), Stored(triplets, a))
    && exists k: nat {:trigger Slot(hash(Name(a)), power, k)} :: s == Slot(hash(Name(a)), power, k) && Chain(table, power, version, hash(Name(a)), k)
  }

  // The first k slots of a probe sequence are taken.
  ghost predicate Chain(table: seq<NsAtt>, power: nat, version: Word, h: Word, k: nat)
    requires power >= 3 && |table| == Pow2(power)
  {
    forall j: nat {:trigger Slot(h, power, j)} :: j < k ==> table[Slot(h, power, j)].version == version
  }

  // The slots taken by a probe sequence are slots of attributes.
  lemma {:induction false} ChainFits(table: seq<NsAtt>, power: nat, version: Word, hash: Hash, triplets: Option<char>,
                                     atts: seq<Attribute>, n: nat, slots: seq<nat>, h: Word, k: nat)
    requires Holds(table, power, version, hash, triplets, atts, n, slots) && k <= |table| && Chain(table, power, version, h, k)
    ensures k <= n
  {
    hide Slot, InSlot;
    var taken := ChainSlots(table, power, version, slots, h, k);
    MembersSize(slots);
    SubsetSize(taken, Members(slots));
  }

  lemma {:induction false} ChainSlots(table: seq<NsAtt>, power: nat, version: Word, slots: seq<nat>, h: Word, k: nat)
    returns (taken: set<nat>)
    requires power >= 3 && |table| == Pow2(power) && k <= |table| && Chain(table, power, version, h, k)
    requires forall s {:trigger table[s]} :: 0 <= s < |table| && table[s].version == version ==> s in slots
    ensures |taken| == k && taken <= Members(slots)
    ensures forall s {:trigger s in taken} :: s in taken ==> exists j: nat {:trigger Slot(h, power, j)} :: j < k && s == Slot(h, power, j)
  {
    hide Slot;
    if k == 0 {
      taken := {};
    } else {
      var before := ChainSlots(table, power, version, slots, h, k - 1);
      var last := Slot(h, power, k - 1);
      if last in before {
        var j: nat :| j < k - 1 && last == Slot(h, power, j);
        SlotsDistinct(h, power, j, k - 1);
      }
      assert table[last].version == version;
      taken := before + {last};
    }
  }

  // The probe loop has met a slot that it takes for a duplicate.
  lemma {:induction false} MetMatch(table: seq<NsAtt>, power: nat, version: Word, hash: Hash, triplets: Option<char>,
                                    atts: seq<Attribute>, n: nat, slots: seq<nat>, s: nat)
    requires Holds(table, power, version, hash, triplets, atts, n, slots) && s < |table| && table[s].version == version
    requires n < |atts| && atts[n].uri.Some?
    requires hash(Name(atts[n])) == table[s].hash && Name(atts[n]) <= table[s].uriName
    ensures MatchedBefore(hash, triplets, atts, n)
  {
    var i: nat :| i < n && slots[i] == s;
    assert InSlot(table, power, version, hash, triplets, atts[i], slots[i]);
    assert Matches(hash, triplets, atts[n], atts[i]);
  }

  // The probe loop has come to a free slot.
  lemma {:induction false} MetNone(table: seq<NsAtt>, power: nat, version: Word, hash: Hash, triplets: Option<char>,
                                   atts: seq<Attribute>, n: nat, slots: seq<nat>, k: nat)
    requires Holds(table, power, version, hash, triplets, atts, n, slots) && n < |atts| && atts[n].uri.Some?
    requires var h := hash(Name(atts[n]));
             && table[Slot(h, power, k)].version != version && Chain(table, power, version, h, k)
             && forall j: nat {:trigger Slot(h, power, j)} :: j < k ==>
                  !(table[Slot(h, power, j)].hash == h && Name(atts[n]) <= table[Slot(h, power, j)].uriName)
    ensures !MatchedBefore(hash, triplets, atts, n)
  {
    hide Slot, Stored, Name, Pow2;
    var h := hash(Name(atts[n]));
    forall i | 0 <= i < n
      ensures !Matches(hash, triplets, atts[n], atts[i])
    {
      if hash(Name(atts[i])) == h {
        assert InSlot(table, power, version, hash, triplets, atts[i], slots[i]);
        var j: nat :| slots[i] == Slot(h, power, j) && Chain(table, power, version, h, j);
        assert j < k;
      }
    }
  }

  lemma {:induction false} FillHolds(table: seq<NsAtt>, power: nat, version: Word, hash: Hash, triplets: Option<char>,
                                     atts: seq<Attribute>, n: nat, slots: seq<nat>, k: nat)
    requires Holds(table, power, version, hash, triplets, atts, n, slots) && n < |atts| && atts[n].uri.Some?
    requires var h := hash(Name(atts[n]));
             table[Slot(h, power, k)].version != version && Chain(table, power, version, h, k)
    ensures var h := hash(Name(atts[n]));
            var s := Slot(h, power, k);
            Holds(table[s := NsAtt(version, h, Stored(triplets, atts[n]))], power, version, hash, triplets, atts, n + 1, slots + [s])
  {
    hide Slot;
    var h := hash(Name(atts[n]));
    var s := Slot(h, power, k);
    var table' := table[s := NsAtt(version, h, Stored(triplets, atts[n]))];
    forall i | 0 <= i <= n
      ensures InSlot(table', power, version, hash, triplets, atts[i], (slots + [s])[i])
    {
      if i < n {
        assert InSlot(table, power, version, hash, triplets, atts[i], slots[i]);
        var j: nat :| slots[i] == Slot(hash(Name(atts[i])), power, j) && Chain(table, power, version, hash(Name(atts[i])), j);
        assert Chain(table', power, version, hash(Name(atts[i])), j);
      } else {
        assert Chain(table', power, version, h, k);
      }
    }
    forall t | 0 <= t < |table'| && table'[t].version == version
      ensures t in slots + [s]
    {
      if t == s {
        assert (slots + [s])[n] == s;
      } else {
        assert table[t].version == version;
      }
    }
  }

  // ---------- what section 6.3 forbids ----------

  // The same expanded name is the same namespace name and the same local part, however they are written together.
  predicate SameName(a: Attribute, b: Attribute) {
    a.uri == b.uri && a.localPart == b.localPart
  }

  ghost predicate DuplicateBefore(atts: seq<Attribute>, i: nat)
    requires i < |atts|
  {
    exists j {:trigger atts[j]} :: 0 <= j < i && SameName(atts[i], atts[j])
  }

  lemma {:induction false} DuplicatesMatch(hash: Hash, triplets: Option<char>, atts: seq<Attribute>, i: nat)
    requires i < |atts| && AllBound(atts, i + 1) && DuplicateBefore(atts, i)
    ensures MatchedBefore(hash, triplets, atts, i)
  {
    var j :| 0 <= j < i && SameName(atts[i], atts[j]);
    assert Matches(hash, triplets, atts[i], atts[j]);
  }

  // The attribute is taken for a duplicate and is none.
  ghost predicate FalseAlarm(hash: Hash, triplets: Option<char>, atts: seq<Attribute>, i: nat)
    requires i < |atts| && AllBound(atts, i + 1)
  {
    MatchedBefore(hash, triplets, atts, i) && !DuplicateBefore(atts, i)
  }

  // One kind of false alarm: different parts that are the same when written together.
  predicate RunsTogether(a: Attribute, earlier: Attribute)
    requires a.uri.Some? && earlier.uri.Some?
  {
    Name(a) == Name(earlier) && !SameName(a, earlier)
  }

  // The other: different strings with the same hash, the later a beginning of what is stored for the earlier.
  predicate Collides(hash: Hash, triplets: Option<char>, a: Attribute, earlier: Attribute)
    requires a.uri.Some? && earlier.uri.Some?
  {
    Name(a) != Name(earlier) && hash(Name(a)) == hash(Name(earlier)) && Name(a) <= Stored(triplets, earlier)
  }

  ghost predicate TakenFor(hash: Hash, triplets: Option<char>, atts: seq<Attribute>, i: nat)
    requires i < |atts| && AllBound(atts, i + 1)
  {
    exists j {:trigger atts[j]} :: 0 <= j < i
      && (RunsTogether(atts[i], atts[j]) || Collides(hash, triplets, atts[i], atts[j]))
  }

  lemma {:induction false} FalseAlarmKinds(hash: Hash, triplets: Option<char>, atts: seq<Attribute>, i: nat)
    requires i < |atts| && AllBound(atts, i + 1)
    ensures FalseAlarm(hash, triplets, atts, i)
            <==> !DuplicateBefore(atts, i) && TakenFor(hash, triplets, atts, i)
  {
    if FalseAlarm(hash, triplets, atts, i) {
      var j :| 0 <= j < i && Matches(hash, triplets, atts[i], atts[j]);
      assert !SameName(atts[i], atts[j]);
      assert RunsTogether(atts[i], atts[j]) || Collides(hash, triplets, atts[i], atts[j]);
    }
    if TakenFor(hash, triplets, atts, i) {
      var j :| 0 <= j < i && (RunsTogether(atts[i], atts[j]) || Collides(hash, triplets, atts[i], atts[j]));
      assert Matches(hash, triplets, atts[i], atts[j]);
    }
  }

  // Where the parser stops, and where it should: at the first attribute that is unbound or a duplicate.
  ghost function StopsAt(hash: Hash, triplets: Option<char>, atts: seq<Attribute>, i: nat): (n: nat)
    requires i <= |atts| && AllBound(atts, i)
    ensures i <= n <= |atts| && AllBound(atts, n)
    decreases |atts| - i
  {
    if i == |atts| || atts[i].uri.None? || MatchedBefore(hash, triplets, atts, i) then i else StopsAt(hash, triplets, atts, i + 1)
  }

  // What is reported at attribute n.
  ghost function Problem(atts: seq<Attribute>, n: nat): Option<Error>
    requires n <= |atts|
  {
    if n == |atts| then None else if atts[n].uri.None? then Some(UnboundPrefix) else Some(DuplicateAttribute)
  }

  ghost function ShouldStopAt(atts: seq<Attribute>, i: nat): (n: nat)
    requires i <= |atts| && AllBound(atts, i)
    ensures i <= n <= |atts| && AllBound(atts, n)
    decreases |atts| - i
  {
    if i == |atts| || atts[i].uri.None? || DuplicateBefore(atts, i) then i else ShouldStopAt(atts, i + 1)
  }

  /** Every duplicate is found.  The parser stops where it should exactly when no attribute before that place runs
      together, or collides, with an earlier one. */
  lemma {:induction false} StopsRightly(hash: Hash, triplets: Option<char>, atts: seq<Attribute>, i: nat)
    requires i <= |atts| && AllBound(atts, i)
    ensures StopsAt(hash, triplets, atts, i) <= ShouldStopAt(atts, i)
    ensures StopsAt(hash, triplets, atts, i) == ShouldStopAt(atts, i)
            <==> forall k {:trigger TakenFor(hash, triplets, atts, k)} :: i <= k < ShouldStopAt(atts, i) ==>
                   !TakenFor(hash, triplets, atts, k)
    decreases |atts| - i
  {
    hide MatchedBefore, DuplicateBefore, TakenFor;
    if i < |atts| && atts[i].uri.Some? {
      FalseAlarmKinds(hash, triplets, atts, i);
      if DuplicateBefore(atts, i) {
        DuplicatesMatch(hash, triplets, atts, i);
      } else if !MatchedBefore(hash, triplets, atts, i) {
        StopsRightly(hash, triplets, atts, i + 1);
      }
    }
  }

  // A namespace name ends in the separator, and no local part holds it.
  predicate Separated(sep: char, a: Attribute) {
    a.uri.Some? && a.uri.value != [] && a.uri.value[|a.uri.value| - 1] == sep && sep !in a.localPart
  }

  // A separator that no local part holds keeps the parts apart: it stands last in the concatenation.
  lemma {:induction false} SeparatorSplits(sep: char, a: Attribute, b: Attribute)
    requires Separated(sep, a) && Separated(sep, b)
    ensures !RunsTogether(a, b)
  {
    if Name(a) == Name(b) {
      LastSeparator(sep, a, b);
      LastSeparator(sep, b, a);
      var n := |a.uri.value|;
      assert a.uri.value == Name(a)[..n] && a.localPart == Name(a)[n..];
      assert b.uri.value == Name(b)[..n] && b.localPart == Name(b)[n..];
    }
  }

  lemma {:induction false} LastSeparator(sep: char, a: Attribute, b: Attribute)
    requires Separated(sep, a) && Separated(sep, b) && Name(a) == Name(b)
    ensures |a.uri.value| <= |b.uri.value|
  {
    var n, m := |a.uri.value|, |b.uri.value|;
    forall k | m <= k < |Name(b)|
      ensures Name(b)[k] != sep
    {
      assert Name(b)[k] == b.localPart[k - m];
    }
    assert Name(a)[n - 1] == sep;
  }

  // What an application gets that splits a name at the separators.
  function Split(sep: char, s: string): (parts: seq<string>)
    ensures parts != []
  {
    if s == "" then [""]
    else
      var front, c := Split(sep, s[..|s| - 1]), s[|s| - 1];
      if c == sep then front + [""] else front[..|front| - 1] + [front[|front| - 1] + [c]]
  }

  lemma {:induction false} SplitNothing(sep: char, s: string)
    requires sep !in s
    ensures Split(sep, s) == [s]
  {
    if s != "" {
      SplitNothing(sep, s[..|s| - 1]);
      assert s == s[..|s| - 1] + [s[|s| - 1]];
    }
  }

  lemma {:induction false} SplitBehind(sep: char, s: string, part: string)
    requires sep !in part
    ensures Split(sep, s + [sep] + part) == Split(sep, s) + [part]
  {
    var whole := s + [sep] + part;
    if part == "" {
      assert whole == s + [sep] && whole[..|s|] == s;
    } else {
      var n := |part| - 1;
      SplitBehind(sep, s, part[..n]);
      assert whole[..|whole| - 1] == s + [sep] + part[..n] && part == part[..n] + [part[n]];
      assert part[n] in part;
    }
  }

  /** A separator that no part holds lets an application take a stored name apart: namespace name and local part, and
      with triplets the prefix. */
  lemma {:induction false} StoredParts(sep: char, uri: string, a: Attribute)
    requires a.uri == Some(uri + [sep]) && sep !in uri && sep !in a.localPart && sep !in a.prefix
    ensures Split(sep, Stored(None, a)) == [uri, a.localPart]
    ensures Split(sep, Stored(Some(sep), a)) == [uri, a.localPart, a.prefix]
  {
    hide Split;
    SplitNothing(sep, uri);
    SplitBehind(sep, uri, a.localPart);
    SplitBehind(sep, Name(a), a.prefix);
    assert [uri] + [a.localPart] + [a.prefix] == [uri, a.localPart, a.prefix];
  }

  /** With such a separator only collisions of the hash are left. */
  lemma {:induction false} SeparatedStopsRightly(hash: Hash, triplets: Option<char>, sep: char, atts: seq<Attribute>)
    requires forall a {:trigger a in atts} :: a in atts && a.uri.Some? ==> Separated(sep, a)
    ensures StopsAt(hash, triplets, atts, 0) == ShouldStopAt(atts, 0)
            <==> forall j, k {:trigger atts[j], atts[k]} :: 0 <= j < k < ShouldStopAt(atts, 0) ==>
                   !Collides(hash, triplets, atts[k], atts[j])
  {
    hide Separated, Collides, RunsTogether, StopsAt, ShouldStopAt;
    var n := ShouldStopAt(atts, 0);
    StopsRightly(hash, triplets, atts, 0);
    forall j, k | 0 <= j < k < n
      ensures !RunsTogether(atts[k], atts[j])
    {
      assert atts[j] in atts && atts[k] in atts;
      SeparatorSplits(sep, atts[k], atts[j]);
    }
    if forall j, k {:trigger atts[j], atts[k]} :: 0 <= j < k < n ==> !Collides(hash, triplets, atts[k], atts[j]) {
      forall k | 0 <= k < n
        ensures !TakenFor(hash, triplets, atts, k)
      {
      }
    } else {
      var j, k :| 0 <= j < k < n && Collides(hash, triplets, atts[k], atts[j]);
      assert TakenFor(hash, triplets, atts, k);
    }
  }

  /** Without a separator a legal tag is refused whatever the hash: p:ab and q:b, with p bound to u and q to ua. */
  lemma {:induction false} FalseAlarmExists(hash: Hash)
    ensures var atts := [Attribute(Some("u"), "ab", "p"), Attribute(Some("ua"), "b", "q")];
            && AllBound(atts, 2) && FalseAlarm(hash, None, atts, 1)
            && StopsAt(hash, None, atts, 0) == 1 && Problem(atts, 1) == Some(DuplicateAttribute)
            && ShouldStopAt(atts, 0) == 2 && Problem(atts, 2) == None
  {
    var atts := [Attribute(Some("u"), "ab", "p"), Attribute(Some("ua"), "b", "q")];
    assert Name(atts[0]) == "uab" && Name(atts[1]) == "uab";
    assert Matches(hash, None, atts[1], atts[0]) && atts[0].uri != atts[1].uri;
    assert MatchedBefore(hash, None, atts, 1) && !MatchedBefore(hash, None, atts, 0);
    assert !DuplicateBefore(atts, 0) && !DuplicateBefore(atts, 1);
    assert StopsAt(hash, None, atts, 1) == 1;
    assert ShouldStopAt(atts, 2) == 2 && ShouldStopAt(atts, 1) == 2;
  }

  // A separator does not help when the hash collides: b:ab and c:a in the same namespace.
  lemma {:induction false} CollisionExists()
    ensures exists hash: Hash, atts: seq<Attribute> ::
              && |atts| == 2 && Separated('|', atts[0]) && Separated('|', atts[1])
              && AllBound(atts, 2) && FalseAlarm(hash, None, atts, 1)
  {
    var hash: Hash := _ => 0;
    var atts := [Attribute(Some("u|"), "ab", "b"), Attribute(Some("u|"), "a", "c")];
    assert Name(atts[0]) == "u|ab" && Name(atts[1]) == "u|a";
    assert Matches(hash, None, atts[1], atts[0]);
    assert FalseAlarm(hash, None, atts, 1);
  }

  class Parser {
    var nsAtts: seq<NsAtt>
    var nsAttsVersion: Word
    var nsAttsPower: nat
    const hash: Hash
    const triplets: Option<char>
    const mem: nat -> bool
    var allocs: nat

    // Between tags no slot has an older version than the last tag used; versions count down.
    ghost predicate Valid()
      reads this
    {
      && (if nsAttsPower == 0 then nsAtts == [] && nsAttsVersion == 0 else 3 <= nsAttsPower < BITS_IN_INT && |nsAtts| == Pow2(nsAttsPower))
      && forall s {:trigger nsAtts[s]} :: 0 <= s < |nsAtts| ==> nsAtts[s].version >= nsAttsVersion
    }

    constructor (hash: Hash, triplets: Option<char>, mem: nat -> bool)
      ensures Valid() && this.hash == hash && this.triplets == triplets && this.mem == mem
    {
      this.hash, this.triplets, this.mem := hash, triplets, mem;
      nsAtts, nsAttsVersion, nsAttsPower, allocs := [], 0, 0, 0;
    }

    method Allocate() returns (ok: bool)
      modifies this`allocs
      ensures ok == mem(old(allocs)) && allocs == old(allocs) + 1
    {
      ok := mem(allocs);
      allocs := allocs + 1;
    }

    // The loop that finds the new power: twice as many slots as attributes, and more.
    static method NextPower(nPrefixes: nat, power: nat) returns (p: nat)
      requires 0 < nPrefixes < 0x4000_0000
      ensures p >= 3 && p > power && 2 * nPrefixes < Pow2(p)
      ensures p == 3 || p == power + 1 || Pow2(p) <= 4 * nPrefixes
    {
      hide Pow2;
      p := power;
      while true
        invariant p >= power
        invariant p > power ==> Pow2(p - 1) <= nPrefixes
        decreases if p < 30 then 30 - p else 0
      {
        var shifted := nPrefixes / Pow2(p);
        ShiftedOut(nPrefixes, p);
        if p > power {
          Pow2Step(p);
        }
        p := p + 1;
        if shifted == 0 {
          break;
        }
      }
      if p < 3 {
        Pow2Grows(p, 3);
        p := 3;
      }
    }

    method InitVersions(version: Word)
      modifies this`nsAtts
      ensures |nsAtts| == old(|nsAtts|)
      ensures forall s {:trigger nsAtts[s]} :: 0 <= s < |nsAtts| ==> nsAtts[s].version == version
    {
      var j: nat := |nsAtts|;
      while j != 0
        invariant j <= |nsAtts| == old(|nsAtts|)
        invariant forall s {:trigger nsAtts[s]} :: j <= s < |nsAtts| ==> nsAtts[s].version == version
      {
        j := j - 1;
        nsAtts := nsAtts[j := nsAtts[j].(version := version)];
      }
    }

    // The size computed may not fit in memory.
    static predicate TooMany(nPrefixes: nat, slots: nat) {
      4 * nPrefixes > SIZE_MAX / SIZEOF_NS_ATT || 2 * slots > SIZE_MAX / SIZEOF_NS_ATT
    }

    // The sizing and the version at the start of a tag with prefixed attributes.
    method BeginTag(nPrefixes: nat) returns (err: Option<Error>)
      requires Valid() && 0 < nPrefixes < 0x4000_0000
      modifies this
      ensures Valid()
      ensures err.None? ==> nsAttsPower >= 3 && 2 * nPrefixes < |nsAtts|
      ensures err.None? ==> forall s {:trigger nsAtts[s]} :: 0 <= s < |nsAtts| ==> nsAtts[s].version > nsAttsVersion
      ensures err.Some? ==>
          err == Some(NoMemory) && unchanged(this`nsAtts) && unchanged(this`nsAttsVersion) && unchanged(this`nsAttsPower)
      ensures err.Some? ==> !mem(old(allocs)) || TooMany(nPrefixes, |nsAtts|)
    {
      hide Pow2;
      err := None;
      var version := nsAttsVersion;
      DivZero(2 * nPrefixes, Pow2(nsAttsPower));
      Pow2Step(nsAttsPower);
      if (2 * nPrefixes) / Pow2(nsAttsPower) != 0 {
        var power := NextPower(nPrefixes, nsAttsPower);
        Pow2Step(nsAttsPower + 1);
        ThreeBits();
        if power >= BITS_IN_INT {
          ThirtyBits();
          Pow2Grows(30, power);
          return Some(NoMemory);
        }
        if Pow2(power) > SIZE_MAX / SIZEOF_NS_ATT {
          return Some(NoMemory);
        }
        var ok := Allocate();
        if !ok {
          return Some(NoMemory);
        }
        Pow2Grows(nsAttsPower, power);
        nsAtts := Heap.Realloc(nsAtts, Pow2(power));
        nsAttsPower := power;
        version := 0;
      }
      if version == 0 {
        version := INIT_ATTS_VERSION;
        InitVersions(version);
      }
      version := version - 1;
      nsAttsVersion := version;
    }

    /** The prefixed attributes of one tag, one after the other: each is looked up and, if it is new, entered.  The
        first that is unbound, or matched by an earlier one, is reported. */
    method ExpandNames(atts: seq<Attribute>) returns (err: Option<Error>, names: seq<string>)
      requires Valid() && 0 < |atts| < 0x4000_0000
      modifies this
      ensures Valid()
      ensures err == Some(NoMemory) ==> !mem(old(allocs)) || TooMany(|atts|, |nsAtts|)
      ensures err != Some(NoMemory) ==> err == Problem(atts, StopsAt(hash, triplets, atts, 0))
      ensures err.None? ==> |names| == |atts| && AllBound(atts, |atts|)
      ensures err.None? ==> forall i {:trigger names[i]} :: 0 <= i < |atts| ==> names[i] == Stored(triplets, atts[i])
    {
      hide Pow2, InSlot, MatchedBefore, TooMany;
      names := [];
      err := BeginTag(|atts|);
      if err.Some? {
        return;
      }
      ghost var slots: seq<nat> := [];
      for i := 0 to |atts|
        invariant Holds(nsAtts, nsAttsPower, nsAttsVersion, hash, triplets, atts, i, slots) && err == None
        invariant nsAttsPower < BITS_IN_INT && 2 * |atts| < |nsAtts| && |names| == i
        invariant StopsAt(hash, triplets, atts, 0) == StopsAt(hash, triplets, atts, i)
        invariant forall j {:trigger names[j]} :: 0 <= j < i ==> names[j] == Stored(triplets, atts[j])
      {
        if atts[i].uri.None? {
          return Some(UnboundPrefix), names;
        }
        var duplicate;
        duplicate, slots := EnterName(atts, i, slots);
        if duplicate {
          return Some(DuplicateAttribute), names;
        }
        names := names + [Stored(triplets, atts[i])];
      }
    }

    // One attribute, looked up and, if it is new, entered.
    method EnterName(atts: seq<Attribute>, i: nat, ghost slots: seq<nat>)
      returns (duplicate: bool, ghost slots': seq<nat>)
      requires Holds(nsAtts, nsAttsPower, nsAttsVersion, hash, triplets, atts, i, slots)
      requires i < |atts| && atts[i].uri.Some? && 2 * |atts| < |nsAtts|
      modifies this`nsAtts
      ensures |nsAtts| == old(|nsAtts|)
      ensures duplicate <==> MatchedBefore(hash, triplets, atts, i)
      ensures duplicate ==> nsAtts == old(nsAtts) && slots' == slots
      ensures !duplicate ==> Holds(nsAtts, nsAttsPower, nsAttsVersion, hash, triplets, atts, i + 1, slots')
    {
      hide Pow2, Slot, InSlot, Chain, MatchedBefore;
      slots' := slots;
      var s;
      ghost var k;
      duplicate, s, k := FindName(atts, i, slots);
      if !duplicate {
        FillHolds(nsAtts, nsAttsPower, nsAttsVersion, hash, triplets, atts, i, slots, k);
        nsAtts := nsAtts[s := NsAtt(nsAttsVersion, hash(Name(atts[i])), Stored(triplets, atts[i]))];
        slots' := slots + [s];
      }
    }

    // The probe loop; it ends although nothing bounds it but the free slots.
    method FindName(atts: seq<Attribute>, i: nat, ghost slots: seq<nat>) returns (duplicate: bool, s: nat, ghost k: nat)
      requires Holds(nsAtts, nsAttsPower, nsAttsVersion, hash, triplets, atts, i, slots)
      requires i < |atts| && atts[i].uri.Some? && 2 * |atts| < |nsAtts|
      ensures duplicate <==> MatchedBefore(hash, triplets, atts, i)
      ensures k <= i
      ensures !duplicate ==>
          s < |nsAtts| && s == Slot(hash(Name(atts[i])), nsAttsPower, k) && nsAtts[s].version != nsAttsVersion
      ensures !duplicate ==> Chain(nsAtts, nsAttsPower, nsAttsVersion, hash(Name(atts[i])), k)
    {
      hide Pow2, Slot, InSlot, MatchedBefore, Step;
      var name := Name(atts[i]);
      var uriHash := hash(name);
      FirstSlot(uriHash, nsAttsPower);
      s, k := uriHash % |nsAtts|, 0;
      var step := 0;
      while nsAtts[s].version == nsAttsVersion
        invariant k <= i && s == Slot(uriHash, nsAttsPower, k) < |nsAtts| && Chain(nsAtts, nsAttsPower, nsAttsVersion, uriHash, k)
        invariant forall j: nat {:trigger Slot(uriHash, nsAttsPower, j)} :: j < k ==>
          !(nsAtts[Slot(uriHash, nsAttsPower, j)].hash == uriHash && name <= nsAtts[Slot(uriHash, nsAttsPower, j)].uriName)
        invariant step == 0 || step == Step(uriHash, nsAttsPower)
        decreases |nsAtts| - k
      {
        if uriHash == nsAtts[s].hash && name <= nsAtts[s].uriName {
          MetMatch(nsAtts, nsAttsPower, nsAttsVersion, hash, triplets, atts, i, slots, s);
          return true, s, k;
        }
        if step == 0 {
          step := Step(uriHash, nsAttsPower);
        }
        NextSlot(uriHash, nsAttsPower, k);
        StepIsOdd(uriHash, nsAttsPower);
        s := if s < step then s + (|nsAtts| - step) else s - step;
        k := k + 1;
        ChainFits(nsAtts, nsAttsPower, nsAttsVersion, hash, triplets, atts, i, slots, uriHash, k);
      }
      MetNone(nsAtts, nsAttsPower, nsAttsVersion, hash, triplets, atts, i, slots, k);
      duplicate := false;
    }
  }

  lemma {:induction false} ThreeBits()
    ensures Pow2(3) == 8
  {
  }

  lemma {:induction false} ThirtyBits()
    ensures Pow2(30) == 0x4000_0000
  {
    assert Pow2(10) == 0x400;
    assert Pow2(20) == 0x10_0000;
  }

  lemma {:induction false} ShiftedOut(n: nat, p: nat)
    requires n < 0x4000_0000
    ensures n / Pow2(p) == 0 <==> n < Pow2(p)
    ensures n / Pow2(p) != 0 ==> p < 30
    ensures Pow2(p + 1) == 2 * Pow2(p)
  {
    DivZero(n, Pow2(p));
    Pow2Step(p + 1);
    if p >= 30 {
      ThirtyBits();
      Pow2Grows(30, p);
    }
  }

  lemma {:induction false} DivZero(a: nat, b: nat)
    requires b > 0
    ensures a / b == 0 <==> a < b
  {
    DivMod(a, b);
    if a < b {
      DivModIs(a, b, 0, a);
    }
  }
}
