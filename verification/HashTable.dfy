/** Expat's open-addressing hash table (lookup, hashTableClear) against a finite map. */
module HashTable {
  import opened Counting
  import opened Probing

  const INIT_POWER: nat := 6
  const SIZE_MAX: nat := 0xFFFF_FFFF
  const SIZEOF_POINTER: nat := 4
  const BITS_IN_LONG: nat := 32

  // NAMED: what a table entry starts with.
  class Named {
    const name: string

    constructor (name: string)
      ensures this.name == name
    {
      this.name := name;
    }
  }

  type Slots = seq<Named?>
  type Entries = map<string, Named>
  type Hash = string -> Word

  // The first k slots of a probe sequence are taken.
  ghost predicate Chain(v: Slots, power: nat, h: Word, k: nat)
    requires power >= INIT_POWER && |v| == Pow2(power)
  {
    forall j: nat {:trigger Slot(h, power, j)} :: j < k ==> v[Slot(h, power, j)] != null
  }

  // Probing for its name leads to e.
  ghost predicate Reached(v: Slots, power: nat, h: Word, e: Named)
    requires power >= INIT_POWER && |v| == Pow2(power)
  {
    exists k: nat {:trigger Slot(h, power, k)} :: k < |v| && v[Slot(h, power, k)] == e && Chain(v, power, h, k)
  }

  ghost predicate OnlyEntries(v: Slots, entries: Entries) {
    && (forall i {:trigger v[i]} :: 0 <= i < |v| && v[i] != null ==> v[i].name in entries && entries[v[i].name] == v[i])
    && (forall i, j {:trigger v[i], v[j]} :: 0 <= i < j < |v| && v[i] != null ==> v[i] != v[j])
  }

  // The slots hold exactly the entries, each where probing finds it.
  ghost predicate Holds(v: Slots, power: nat, hash: Hash, entries: Entries) {
    && power >= INIT_POWER && |v| == Pow2(power)
    && OnlyEntries(v, entries)
    && forall n {:trigger entries[n]} :: n in entries ==> entries[n].name == n && Reached(v, power, hash(n), entries[n])
  }

  // The slots taken by a probe sequence belong to different entries.
  lemma {:induction false} ChainFits(v: Slots, power: nat, h: Word, k: nat, entries: Entries)
    requires power >= INIT_POWER && |v| == Pow2(power) && OnlyEntries(v, entries)
    requires k <= |v| && Chain(v, power, h, k)
    ensures k <= |entries|
  {
    hide Slot;
    var names := ChainNames(v, power, h, k, entries);
    SubsetSize(names, entries.Keys);
  }

  lemma {:induction false} ChainNames(v: Slots, power: nat, h: Word, k: nat, entries: Entries)
    returns (names: set<string>)
    requires power >= INIT_POWER && |v| == Pow2(power) && OnlyEntries(v, entries)
    requires k <= |v| && Chain(v, power, h, k)
    ensures |names| == k && names <= entries.Keys
    ensures forall n {:trigger n in names} :: n in names ==>
      exists j: nat {:trigger Slot(h, power, j)} :: j < k && v[Slot(h, power, j)].name == n
  {
    hide Slot;
    if k == 0 {
      names := {};
    } else {
      var before := ChainNames(v, power, h, k - 1, entries);
      var last := v[Slot(h, power, k - 1)];
      if last.name in before {
        var j: nat :| j < k - 1 && v[Slot(h, power, j)].name == last.name;
        assert v[Slot(h, power, j)] == entries[last.name] == last;
        SlotsDistinct(h, power, j, k - 1);
      }
      names := before + {last.name};
    }
  }

  // A free slot behind a chain: no entry has a name with this hash that the chain has not shown.
  lemma {:induction false} FreeMeansAbsent(v: Slots, power: nat, hash: Hash, entries: Entries, n: string, k: nat)
    requires Holds(v, power, hash, entries) && Chain(v, power, hash(n), k) && v[Slot(hash(n), power, k)] == null
    requires forall j: nat {:trigger Slot(hash(n), power, j)} :: j < k ==> v[Slot(hash(n), power, j)].name != n
    ensures n !in entries
  {
    hide Slot;
  }

  lemma {:induction false} InsertHolds(v: Slots, power: nat, hash: Hash, entries: Entries, e: Named, k: nat)
    requires Holds(v, power, hash, entries) && e.name !in entries && k < |v|
    requires Chain(v, power, hash(e.name), k) && v[Slot(hash(e.name), power, k)] == null
    ensures Holds(v[Slot(hash(e.name), power, k) := e], power, hash, entries[e.name := e])
  {
    hide Slot;
    var i := Slot(hash(e.name), power, k);
    var v' := v[i := e];
    var entries' := entries[e.name := e];
    assert OnlyEntries(v', entries') by {
      forall a, b | 0 <= a < b < |v'| && v'[a] != null
        ensures v'[a] != v'[b]
      {
        if b == i {
          assert v[a].name in entries;
        } else if a == i && v[b] != null {
          assert v[b].name in entries;
        } else if a != i {
          assert v[a] != v[b];
        }
      }
    }
    forall n | n in entries'
      ensures entries'[n].name == n && Reached(v', power, hash(n), entries'[n])
    {
      if n == e.name {
        assert v'[Slot(hash(n), power, k)] == e;
      } else {
        var k': nat :| k' < |v| && v[Slot(hash(n), power, k')] == entries[n] && Chain(v, power, hash(n), k');
        assert v'[Slot(hash(n), power, k')] == entries'[n];
      }
    }
  }

  lemma {:induction false} ShownIsEntry(v: Slots, entries: Entries, i: nat)
    requires OnlyEntries(v, entries) && i < |v| && v[i] != null
    ensures v[i].name in entries && entries[v[i].name] == v[i]
  {
  }

  lemma {:induction false} HalfIsLess(power: nat)
    requires power > 0
    ensures Pow2(power - 1) < Pow2(power)
  {
  }

  lemma {:induction false} EmptyHolds(v: Slots, power: nat, hash: Hash)
    requires power >= INIT_POWER && |v| == Pow2(power)
    requires forall i {:trigger v[i]} :: 0 <= i < |v| ==> v[i] == null
    ensures Holds(v, power, hash, map[])
  {
  }

  // part is what the first i slots hold.
  ghost predicate Moved(v: Slots, entries: Entries, part: Entries, i: nat) {
    && i <= |v|
    && part.Keys <= entries.Keys
    && (forall n {:trigger part[n]} :: n in part ==> part[n] == entries[n])
    && (forall j {:trigger v[j]} :: 0 <= j < |v| && v[j] != null ==> (v[j].name in part <==> j < i))
  }

  lemma {:induction false} MovedNext(v: Slots, entries: Entries, part: Entries, i: nat)
    requires OnlyEntries(v, entries) && Moved(v, entries, part, i) && i < |v| && v[i] != null
    ensures v[i].name !in part && |part| < |entries|
    ensures Moved(v, entries, part[v[i].name := v[i]], i + 1)
  {
    var n := v[i].name;
    assert part.Keys + {n} <= entries.Keys && |part.Keys + {n}| == |part| + 1;
    SubsetSize(part.Keys + {n}, entries.Keys);
    forall j | 0 <= j < |v| && v[j] != null && j != i
      ensures v[j].name != n
    {
      if j < i {
        assert v[j] != v[i];
      } else {
        assert v[i] != v[j];
      }
    }
  }

  lemma {:induction false} MovedAll(v: Slots, power: nat, hash: Hash, entries: Entries, part: Entries)
    requires Holds(v, power, hash, entries) && Moved(v, entries, part, |v|)
    ensures part == entries
  {
    hide Slot;
    forall n | n in entries
      ensures n in part
    {
      var k: nat :| k < |v| && v[Slot(hash(n), power, k)] == entries[n];
      assert v[Slot(hash(n), power, k)].name == n;
    }
  }

  lemma {:induction false} InitialSize()
    ensures Pow2(INIT_POWER) == 64 && Pow2(INIT_POWER - 1) == 32
  {
  }

  // used >> (power - 1)
  lemma {:induction false} HalfFull(used: nat, half: nat)
    requires half > 0
    ensures used / half != 0 <==> used >= half
  {
  }

  // ---------- the table ----------

  class Table {
    var v: array<Named?>
    var power: nat
    var size: nat
    var used: nat
    const hash: Hash
    const mem: nat -> bool
    var allocs: nat

    ghost var entries: Entries

    ghost predicate Valid()
      reads this, v
    {
      && v.Length == size
      && used == |entries|
      && if size == 0 then entries == map[]
         else Holds(v[..], power, hash, entries) && power < BITS_IN_LONG && used <= Pow2(power - 1)
    }

    constructor (hash: Hash, mem: nat -> bool)
      ensures Valid() && entries == map[] && fresh(v) && this.hash == hash && this.mem == mem
    {
      this.hash, this.mem := hash, mem;
      v := new Named?[0];
      power, size, used, allocs := 0, 0, 0, 0;
      entries := map[];
    }

    // Some allocation since the given one has failed.
    ghost predicate Refused(since: nat)
      reads this`allocs
    {
      exists k: nat {:trigger mem(k)} :: since <= k < allocs && !mem(k)
    }

    // A table of this power cannot grow.
    static predicate TooLarge(power: nat) {
      power + 1 >= BITS_IN_LONG || Pow2(power + 1) > SIZE_MAX / SIZEOF_POINTER
    }

    // The first free slot of a probe sequence.
    static method FreeSlot(v: array<Named?>, power: nat, h: Word, ghost entries: Entries) returns (i: nat, ghost k: nat)
      requires power >= INIT_POWER && v.Length == Pow2(power) && OnlyEntries(v[..], entries) && |entries| < Pow2(power)
      ensures k < v.Length && i == Slot(h, power, k) < v.Length && v[i] == null && Chain(v[..], power, h, k)
      ensures k <= |entries|
    {
      hide Slot, Step, Pow2, OnlyEntries;
      FirstSlot(h, power);
      i, k := h % Pow2(power), 0;
      var step := 0;
      while v[i] != null
        invariant k <= |entries| && i == Slot(h, power, k) < v.Length && Chain(v[..], power, h, k)
        invariant step == 0 || step == Step(h, power)
        decreases v.Length - k
      {
        if step == 0 {
          step := Step(h, power);
        }
        NextSlot(h, power, k);
        StepIsOdd(h, power);
        i := if i < step then i + (Pow2(power) - step) else i - step;
        k := k + 1;
        ChainFits(v[..], power, h, k, entries);
      }
    }

    // The probe loop of lookup: the entry with this name, or the free slot where the loop ends.
    method Find(name: string) returns (r: Named?, i: nat, ghost k: nat)
      requires Valid() && size > 0
      ensures r != null <==> name in entries
      ensures r != null ==> r == entries[name]
      ensures r == null ==>
          k < |v[..]| && i == Slot(hash(name), power, k) && v[i] == null && Chain(v[..], power, hash(name), k)
      ensures k <= used
    {
      hide Slot, Step, Pow2, Reached, OnlyEntries;
      var h := hash(name);
      FirstSlot(h, power);
      HalfIsLess(power);
      i, k := h % size, 0;
      var step := 0;
      while v[i] != null
        invariant k <= |entries| && i == Slot(h, power, k) < v.Length && Chain(v[..], power, h, k)
        invariant forall j: nat {:trigger Slot(h, power, j)} :: j < k ==> v[..][Slot(h, power, j)].name != name
        invariant step == 0 || step == Step(h, power)
        decreases size - k
      {
        if v[i].name == name {
          ShownIsEntry(v[..], entries, i);
          return v[i], i, k;
        }
        if step == 0 {
          step := Step(h, power);
        }
        NextSlot(h, power, k);
        StepIsOdd(h, power);
        i := if i < step then i + (size - step) else i - step;
        k := k + 1;
        ChainFits(v[..], power, h, k, entries);
      }
      FreeMeansAbsent(v[..], power, hash, entries, name, k);
      r := null;
    }

    method Allocate() returns (ok: bool)
      modifies this`allocs
      ensures ok == mem(old(allocs)) && allocs == old(allocs) + 1
    {
      ok := mem(allocs);
      allocs := allocs + 1;
    }

    // All entries move to an array of the next power.
    method Rehash(newPower: nat) returns (newV: array<Named?>)
      requires Valid() && size > 0 && newPower == power + 1
      ensures fresh(newV) && newV.Length == Pow2(newPower) && Holds(newV[..], newPower, hash, entries)
    {
      hide Slot, Pow2, Reached, OnlyEntries;
      newV := new Named?[Pow2(newPower)](_ => null);
      EmptyHolds(newV[..], newPower, hash);
      Pow2Step(newPower);
      HalfIsLess(power);
      ghost var part: Entries := map[];
      for i := 0 to size
        invariant Holds(newV[..], newPower, hash, part) && Moved(v[..], entries, part, i)
      {
        if v[i] != null {
          MovedNext(v[..], entries, part, i);
          var j, k := FreeSlot(newV, newPower, hash(v[i].name), part);
          InsertHolds(newV[..], newPower, hash, part, v[i], k);
          part := part[v[i].name := v[i]];
          ghost var before := newV[..];
          newV[j] := v[i];
          assert newV[..] == before[j := v[i]];
        }
      }
      MovedAll(v[..], power, hash, entries, part);
    }

    method Grow() returns (ok: bool)
      requires Valid() && size > 0 && used >= Pow2(power - 1)
      modifies this
      ensures Valid() && entries == old(entries) && size > 0
      ensures ok <==> !TooLarge(old(power)) && mem(old(allocs))
      ensures ok ==> fresh(v) && power == old(power) + 1 && used < Pow2(power - 1) && allocs == old(allocs) + 1
      ensures !ok ==> unchanged(this`v) && unchanged(this`power) && unchanged(this`size) && unchanged(this`used)
      ensures !ok ==> allocs == old(allocs) + if TooLarge(power) then 0 else 1
    {
      hide Slot, Pow2, Reached, OnlyEntries;
      var newPower := power + 1;
      if newPower >= BITS_IN_LONG {
        return false;
      }
      if Pow2(newPower) > SIZE_MAX / SIZEOF_POINTER {
        return false;
      }
      ok := Allocate();
      if !ok {
        return;
      }
      Pow2Step(newPower);
      HalfIsLess(power);
      v := Rehash(newPower);
      power, size := newPower, Pow2(newPower);
    }

    method Create(name: string, i: nat, ghost k: nat) returns (r: Named?)
      requires Valid() && size > 0 && name !in entries && used < Pow2(power - 1)
      requires k < size && i == Slot(hash(name), power, k) && v[i] == null && Chain(v[..], power, hash(name), k)
      modifies this, v
      ensures Valid() && v == old(v) && allocs == old(allocs) + 1
      ensures r != null <==> mem(old(allocs))
      ensures r != null ==> fresh(r) && r.name == name && entries == old(entries)[name := r]
      ensures r == null ==> entries == old(entries)
    {
      hide Slot, Pow2, Reached, OnlyEntries;
      var ok := Allocate();
      if !ok {
        return null;
      }
      r := new Named(name);
      InsertHolds(v[..], power, hash, entries, r, k);
      ghost var before := v[..];
      v[i] := r;
      assert v[..] == before[i := r];
      used := used + 1;
      entries := entries[name := r];
    }

    // The first table.
    method Begin() returns (ok: bool)
      requires Valid() && size == 0
      modifies this
      ensures Valid() && entries == old(entries) && allocs == old(allocs) + 1
      ensures ok == mem(old(allocs))
      ensures ok ==> fresh(v) && size > 0 && used < Pow2(power - 1)
      ensures !ok ==> v == old(v) && size == 0
    {
      hide Slot, Pow2, Reached, OnlyEntries;
      power := INIT_POWER;
      ok := Allocate();
      if !ok {
        return;
      }
      InitialSize();
      size := Pow2(INIT_POWER);
      v := new Named?[size](_ => null);
      EmptyHolds(v[..], power, hash);
    }

    // Growing is due, and cannot be done.
    ghost predicate Stuck()
      reads this
    {
      size > 0 && power > 0 && used >= Pow2(power - 1) && TooLarge(power)
    }

    /** lookup: a finite map.  An absent name is only created on request, and then the creation fails exactly when an
        allocation is refused or the half-full table cannot grow; a failure leaves the map as it was. */
    method Lookup(name: string, create: bool) returns (r: Named?)
      requires Valid()
      modifies this, v
      ensures Valid() && (v == old(v) || fresh(v))
      ensures name in old(entries) ==> r == old(entries)[name] && entries == old(entries)
      ensures name !in old(entries) && r == null ==> entries == old(entries)
      ensures name !in old(entries) && r != null ==>
          create && fresh(r) && r.name == name && entries == old(entries)[name := r]
      ensures name !in old(entries) && create ==> (r == null <==> Refused(old(allocs)) || old(Stuck()))
      ensures !create ==> unchanged(this) && unchanged(v)
    {
      hide Slot, Pow2, Reached, OnlyEntries, Chain, Holds, TooLarge;
      var i: nat;
      ghost var k: nat;
      if size == 0 {
        if !create {
          return null;
        }
        var ok := Begin();
        if !ok {
          assert !mem(old(allocs));
          return null;
        }
        assert mem(old(allocs));
        TableFacts();
        i, k := FreeSlot(v, power, hash(name), entries);
      } else {
        r, i, k := Find(name);
        if r != null || !create {
          return;
        }
        TableFacts();
        HalfFull(used, Pow2(power - 1));
        if used / Pow2(power - 1) != 0 {
          var ok := Grow();
          if !ok {
            assert !TooLarge(power) ==> !mem(old(allocs));
            return null;
          }
          TableFacts();
          i, k := FreeSlot(v, power, hash(name), entries);
        }
      }
      label Ready:
      r := Create(name, i, k);
      assert r == null ==> !mem(old@Ready(allocs));
    }

    lemma {:induction false} TableFacts()
      requires Valid() && size > 0
      ensures INIT_POWER <= power && v.Length == Pow2(power) && OnlyEntries(v[..], entries)
      ensures |entries| <= Pow2(power - 1) < Pow2(power)
    {
      HalfIsLess(power);
    }

    // hashTableClear
    method Clear()
      requires Valid()
      modifies this, v
      ensures Valid() && entries == map[] && v == old(v) && size == old(size) && power == old(power)
    {
      hide Slot, Pow2, Reached;
      for i := 0 to size
        invariant size == old(size) && power == old(power) && v == old(v) && v.Length == size
        invariant forall j {:trigger v[j]} :: 0 <= j < i ==> v[j] == null
      {
        v[i] := null;
      }
      used := 0;
      entries := map[];
      if size > 0 {
        EmptyHolds(v[..], power, hash);
      }
    }
  }
}
