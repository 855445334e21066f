/** Entities whose replacement text is being expanded: the declarations, the list of open entities of one parser,
    and the path that the list stands for. */
module OpenEntities {
  import opened Options

  // A general entity declaration; text is absent for external entities.
  datatype Decl<T> = Decl(text: Option<seq<T>>, notation: bool, isInternal: bool)

  type Table<T> = map<string, Decl<T>>

  // An open entity as the recursive expansion sees it: whether it has more to process, and what is left of its text.
  datatype Frame<T> = Frame(name: string, level: nat, more: bool, rest: seq<T>)

  // The entities open already, and those in frames.
  ghost function PathOf<T>(outer: set<string>, frames: seq<Frame<T>>): set<string> {
    if frames == [] then outer else PathOf(outer, frames[..|frames| - 1]) + {frames[|frames| - 1].name}
  }

  lemma {:induction false} PathSnoc<T>(outer: set<string>, front: seq<Frame<T>>, f: Frame<T>)
    ensures PathOf(outer, front + [f]) == PathOf(outer, front) + {f.name}
  {
    assert (front + [f])[..|front|] == front;
  }

  lemma {:induction false} PathHasNames<T>(outer: set<string>, frames: seq<Frame<T>>, name: string)
    ensures name in PathOf(outer, frames)
            <==> name in outer || exists i {:trigger frames[i]} :: 0 <= i < |frames| && frames[i].name == name
  {
    if frames != [] {
      var n := |frames| - 1;
      PathHasNames(outer, frames[..n], name);
      if i :| 0 <= i < n && frames[..n][i].name == name {
        assert frames[i].name == name;
      }
      if i :| 0 <= i < n && frames[i].name == name {
        assert frames[..n][i].name == name;
      }
    }
  }

  // Fewer entities are left to open: nesting is bounded although entities may refer to each other.
  lemma {:induction false} PathGrows<T>(table: Table<T>, path: set<string>, name: string)
    requires name in table && name !in path
    ensures |table.Keys - (path + {name})| < |table.Keys - path|
  {
    assert table.Keys - path == (table.Keys - (path + {name})) + {name};
  }

  class Entity<T> {
    const name: string
    const decl: Decl<T>
    var open: bool
    var hasMore: bool
    var processed: nat

    constructor (name: string, decl: Decl<T>)
      ensures this.name == name && this.decl == decl && !open
    {
      this.name, this.decl := name, decl;
      open, hasMore, processed := false, false, 0;
    }
  }

  datatype OpenEntity<T> = OpenEntity(entity: Entity<T>, startTagLevel: nat)

  // m_openAttributeEntities or m_openInternalEntities with its head last; outer holds the entities that are open
  // in the other list.
  class OpenList<T> {
    const generalEntities: map<string, Entity<T>>
    ghost const outer: set<string>
    var list: seq<OpenEntity<T>>

    ghost var frames: seq<Frame<T>>

    ghost function Table(): Table<T> {
      map n | n in generalEntities :: generalEntities[n].decl
    }

    ghost function Path(): set<string>
      reads this
    {
      PathOf(outer, frames)
    }

    ghost predicate FrameFits(o: OpenEntity<T>, f: Frame<T>)
      reads o.entity
    {
      && f.name == o.entity.name && f.level == o.startTagLevel && f.more == o.entity.hasMore
      && o.entity.decl.text.Some?
      && o.entity.processed <= |o.entity.decl.text.value|
      && f.rest == (if o.entity.hasMore then o.entity.decl.text.value[o.entity.processed..] else [])
    }

    lemma {:induction false} FittingParts(o: OpenEntity<T>, f: Frame<T>)
      ensures FrameFits(o, f) <==>
                && f.name == o.entity.name && f.level == o.startTagLevel && f.more == o.entity.hasMore
                && o.entity.decl.text.Some?
                && o.entity.processed <= |o.entity.decl.text.value|
                && f.rest == (if f.more then o.entity.decl.text.value[o.entity.processed..] else [])
    {
    }

    // An entity is marked open exactly while it is on a list, and it is on this one at most once.
    ghost predicate Valid()
      reads this, generalEntities.Values
    {
      && (forall n {:trigger generalEntities[n]} :: n in generalEntities ==> generalEntities[n].name == n)
      && |frames| == |list|
      && (forall i {:trigger list[i]} :: 0 <= i < |list| ==>
            && list[i].entity in generalEntities.Values
            && list[i].entity.name !in outer
            && FrameFits(list[i], frames[i]))
      && (forall i, j {:trigger list[i], list[j]} :: 0 <= i < j < |list| ==> list[i].entity != list[j].entity)
      && (forall e {:trigger e.open} :: e in generalEntities.Values ==> (e.open <==> e.name in outer || Listed(e)))
    }

    ghost predicate Listed(e: Entity<T>)
      reads this`list
    {
      exists i {:trigger list[i]} :: 0 <= i < |list| && list[i].entity == e
    }

    constructor (generalEntities: map<string, Entity<T>>, ghost outer: set<string>)
      requires forall n {:trigger generalEntities[n]} :: n in generalEntities ==>
        generalEntities[n].name == n && (generalEntities[n].open <==> n in outer)
      ensures Valid() && list == []
      ensures this.generalEntities == generalEntities && this.outer == outer
    {
      this.generalEntities, this.outer := generalEntities, outer;
      list, frames := [], [];
    }

    lemma {:induction false} OpenMeansOnPath(e: Entity<T>)
      requires Valid() && e in generalEntities.Values
      ensures e.open <==> e.name in Path()
    {
      PathHasNames(outer, frames, e.name);
      if i :| 0 <= i < |frames| && frames[i].name == e.name {
        assert list[i].entity in generalEntities.Values;
      }
      if Listed(e) {
        var i :| 0 <= i < |list| && list[i].entity == e;
        assert frames[i].name == e.name;
      }
    }

    lemma {:induction false} Innermost()
      requires Valid() && list != []
      ensures |frames| == |list| && list[|list| - 1].entity in generalEntities.Values
      ensures FrameFits(list[|list| - 1], frames[|frames| - 1])
    {
    }

    lemma {:induction false} NoneOpen()
      requires Valid() && list == []
      ensures frames == [] && Path() == outer
    {
    }

    // processEntity
    method ProcessEntity(entity: Entity<T>, tagLevel: nat)
      requires Valid() && entity in generalEntities.Values && !entity.open && entity.decl.text.Some?
      modifies this, entity
      ensures Valid()
      ensures list == old(list) + [OpenEntity(entity, tagLevel)]
      ensures frames == old(frames) + [Frame(entity.name, tagLevel, true, entity.decl.text.value)]
    {
      entity.open := true;
      entity.hasMore := true;
      entity.processed := 0;
      list := list + [OpenEntity(entity, tagLevel)];
      frames := frames + [Frame(entity.name, tagLevel, true, entity.decl.text.value)];
      forall i | 0 <= i < |list|
        ensures list[i].entity in generalEntities.Values && list[i].entity.name !in outer && FrameFits(list[i], frames[i])
      {
        if i < |list| - 1 {
          assert list[i] == old(list)[i] && old(list)[i].entity != entity;
        }
      }
      ListedMore(old(list));
    }

    lemma {:induction false} ListedMore(before: seq<OpenEntity<T>>)
      requires before <= list && |list| == |before| + 1
      ensures forall e: Entity<T> {:trigger Listed(e)} ::
                Listed(e) <==> e == list[|before|].entity || exists i {:trigger before[i]} :: 0 <= i < |before| && before[i].entity == e
    {
      forall e: Entity<T>
        ensures Listed(e) <==> e == list[|before|].entity || exists i {:trigger before[i]} :: 0 <= i < |before| && before[i].entity == e
      {
        if i :| 0 <= i < |before| && before[i].entity == e {
          assert list[i].entity == e;
        }
        if Listed(e) {
          var i :| 0 <= i < |list| && list[i].entity == e;
          assert i < |before| ==> before[i].entity == e;
        }
      }
    }

    // The text of an entity has been processed up to next; at its end the entity stays open, with no more to process,
    // until it is met again.  above is the entity that it has just opened, if any.
    method MarkProgress(entity: Entity<T>, next: nat, more: bool, ghost front: seq<Frame<T>>, ghost f: Frame<T>,
                        ghost above: seq<Frame<T>>)
      requires Valid() && frames == front + [f] + above && list[|front|].entity == entity
      requires f.more && entity.decl.text.Some? && next <= |entity.decl.text.value|
      modifies this`frames, entity
      ensures Valid()
      ensures var rest := if more then entity.decl.text.value[next..] else [];
              frames == front + [f.(more := more, rest := rest)] + above
    {
      hide PathOf, Listed, FrameFits;
      ghost var o := list[|front|];
      assert entity in generalEntities.Values;
      FittingParts(o, f);
      if more {
        entity.processed := next;
      } else {
        entity.hasMore := false;
      }
      ghost var f' := f.(more := more, rest := if more then entity.decl.text.value[next..] else []);
      frames := front + [f'] + above;
      FittingParts(o, f');
      forall i | 0 <= i < |list|
        ensures list[i].entity in generalEntities.Values && list[i].entity.name !in outer
        ensures FrameFits(list[i], frames[i])
      {
        if i != |front| {
          assert frames[i] == old(frames)[i] && list[i].entity != entity;
        }
      }
    }

    // A fully processed entity is taken from the list.
    method Close(entity: Entity<T>, ghost front: seq<Frame<T>>, ghost f: Frame<T>)
      requires Valid() && frames == front + [f] && list[|front|].entity == entity
      modifies this, entity
      ensures Valid() && frames == front
      ensures list == old(list)[..|front|]
    {
      assert entity in generalEntities.Values;
      entity.open := false;
      list := list[..|list| - 1];
      frames := front;
      forall i | 0 <= i < |list|
        ensures list[i].entity in generalEntities.Values && list[i].entity.name !in outer && FrameFits(list[i], frames[i])
      {
        assert list[i] == old(list)[i] && old(list)[i].entity != entity;
      }
      forall e {:trigger e.open} | e in generalEntities.Values
        ensures e.open <==> e.name in outer || Listed(e)
      {
        if e != entity && old(Listed(e)) {
          var i :| 0 <= i < |old(list)| && old(list)[i].entity == e;
          assert list[i].entity == e;
        }
      }
    }
  }
}
