/** Expat's string pool: strings are built at the end of a block and stay where they are until the pool is cleared. */
module StringPool {

  const INIT_BLOCK_SIZE: nat := 1024
  const INT_MAX: nat := 0x7FFF_FFFF
  // offsetof(BLOCK, s)
  const BLOCK_HEADER: nat := 8

  // The buffer behind the header; its length is size.
  class Block {
    var next: Block?
    var s: seq<char>

    constructor (next: Block?, s: seq<char>)
      ensures this.next == next && this.s == s
    {
      this.next, this.s := next, s;
    }
  }

  // A string that has been finished: where it is and what it says.
  datatype Finished = Finished(block: Block, from: nat, text: string)

  ghost predicate Distinct(s: seq<Block>) {
    forall i, j {:trigger s[i], s[j]} :: 0 <= i < j < |s| ==> s[i] != s[j]
  }

  // The list that begins at head holds these blocks.
  ghost predicate Linked(head: Block?, list: seq<Block>)
    reads list
  {
    && head == (if list == [] then null else list[0])
    && forall i {:trigger list[i]} :: 0 <= i < |list| ==> LinkFits(list, i) && 0 < |list[i].s| <= INT_MAX
  }

  ghost predicate LinkFits(list: seq<Block>, i: nat)
    requires i < |list|
    reads list
  {
    list[i].next == if i + 1 < |list| then list[i + 1] else null
  }

  // A finished string can still be read, and lies below limit if it is in the block that is being filled.
  ghost predicate Readable(f: Finished, used: seq<Block>, limit: nat)
    reads f.block
  {
    && f.block in used && f.text != ""
    && f.from + |f.text| <= |f.block.s| && f.block.s[f.from..f.from + |f.text|] == f.text
    && (f.block == used[0] ==> f.from + |f.text| <= limit)
  }

  ghost predicate AllReadable(finished: seq<Finished>, used: seq<Block>, limit: nat)
    reads set i | 0 <= i < |finished| :: finished[i].block
  {
    forall i {:trigger finished[i]} :: 0 <= i < |finished| ==> Readable(finished[i], used, limit)
  }

  // ---------- lists of blocks ----------

  ghost function BlocksOf(used: seq<Block>, free: seq<Block>): set<Block> {
    (set b | b in used) + (set b | b in free)
  }

  // No block is lost: each is on one of the lists or has been replaced by another, and no replaced one comes back.
  ghost predicate Conserved(used0: seq<Block>, free0: seq<Block>, replaced0: set<Block>,
                            used: seq<Block>, free: seq<Block>, replaced: set<Block>)
  {
    && BlocksOf(used0, free0) <= BlocksOf(used, free) + replaced && replaced0 <= replaced
    && |used| + |free| >= |used0| + |free0|
    && (replaced0 !! BlocksOf(used0, free0) ==> replaced !! BlocksOf(used, free))
  }

  lemma {:induction false} ConservedTwice(used0: seq<Block>, free0: seq<Block>, replaced0: set<Block>,
                                          used1: seq<Block>, free1: seq<Block>, replaced1: set<Block>,
                                          used: seq<Block>, free: seq<Block>, replaced: set<Block>)
    requires Conserved(used0, free0, replaced0, used1, free1, replaced1)
    requires Conserved(used1, free1, replaced1, used, free, replaced)
    ensures Conserved(used0, free0, replaced0, used, free, replaced)
  {
    hide BlocksOf;
  }

  lemma {:induction false} ConservedSame(used: seq<Block>, free: seq<Block>, replaced: set<Block>)
    ensures Conserved(used, free, replaced, used, free, replaced)
  {
    hide BlocksOf;
  }

  lemma {:induction false} TakenBlocks(used: seq<Block>, free: seq<Block>)
    requires free != []
    ensures BlocksOf([free[0]] + used, free[1..]) == BlocksOf(used, free)
  {
    assert forall b {:trigger b in free} :: b in free <==> b == free[0] || b in free[1..];
  }

  lemma {:induction false} AddedBlocks(used: seq<Block>, free: seq<Block>, b: Block)
    ensures BlocksOf([b] + used, free) == BlocksOf(used, free) + {b}
  {
  }

  lemma {:induction false} ReplacedBlocks(used: seq<Block>, free: seq<Block>, b: Block)
    requires used != [] && Distinct(used + free)
    ensures BlocksOf([b] + used[1..], free) == BlocksOf(used, free) - {used[0]} + {b}
  {
    var all := used + free;
    assert forall i {:trigger used[i]} :: 0 < i < |used| ==> all[i] == used[i] && all[i] != all[0];
    assert forall i {:trigger free[i]} :: 0 <= i < |free| ==> all[|used| + i] == free[i] && all[|used| + i] != all[0];
    assert forall x {:trigger x in used} :: x in used <==> x == used[0] || x in used[1..];
    assert used[0] !in used[1..] && used[0] !in free;
  }

  lemma {:induction false} MoveFirst(used: seq<Block>, free: seq<Block>)
    requires Distinct(used + free) && free != []
    ensures Distinct([free[0]] + used + free[1..])
    ensures free[0] !in used && free[0] !in free[1..]
  {
    var s, t := used + free, [free[0]] + used + free[1..];
    var n := |used|;
    forall i, j | 0 <= i < j < |t|
      ensures t[i] != t[j]
    {
      var a := if i == 0 then n else if i <= n then i - 1 else i;
      var b := if j <= n then j - 1 else j;
      assert t[i] == s[a] && t[j] == s[b];
    }
    forall i | 0 <= i < |s| && i != n
      ensures s[i] != free[0]
    {
      assert s[n] == free[0];
      if i < n {
        assert s[i] != s[n];
      } else {
        assert s[n] != s[i];
      }
    }
    assert forall i {:trigger used[i]} :: 0 <= i < n ==> used[i] == s[i];
    assert forall i {:trigger free[1..][i]} :: 0 <= i < |free| - 1 ==> free[1..][i] == s[n + 1 + i];
  }

  lemma {:induction false} AddNew(used: seq<Block>, free: seq<Block>, b: Block)
    requires Distinct(used + free) && b !in used && b !in free
    ensures Distinct([b] + used + free)
  {
    assert [b] + used + free == [b] + (used + free);
  }

  lemma {:induction false} ReplaceFirst(used: seq<Block>, free: seq<Block>, b: Block)
    requires Distinct(used + free) && b !in used && b !in free && used != []
    ensures Distinct([b] + used[1..] + free)
    ensures used[0] !in used[1..]
  {
    var s, t := used + free, [b] + used[1..] + free;
    assert forall i {:trigger t[i]} :: 0 < i < |t| ==> t[i] == s[i];
    assert forall i {:trigger used[1..][i]} :: 0 <= i < |used| - 1 ==> used[1..][i] == s[i + 1] && s[0] == used[0];
  }

  // The rest of a list is a list.
  twostate lemma RestLinked(new list: seq<Block>, new rest: seq<Block>)
    requires old(allocated(list)) && list != [] && rest == list[1..]
    requires old(Linked(list[0], list))
    requires forall b {:trigger b in rest} :: b in rest ==> unchanged(b)
    ensures Linked(old(list[0].next), rest)
  {
    assert old(LinkFits(list, 0)) by { assert old(list[0].next == if 1 < |list| then list[1] else null); }
    forall i | 0 <= i < |rest|
      ensures LinkFits(rest, i) && 0 < |rest[i].s| <= INT_MAX
    {
      assert rest[i] == list[i + 1] && rest[i] in rest;
      assert old(LinkFits(list, i + 1));
    }
  }

  // A list as it was, with b pushed on it.
  twostate lemma PushLinked(new head: Block?, new list: seq<Block>, new b: Block)
    requires old(allocated(list)) && old(allocated(head)) && old(Linked(head, list))
    requires forall x {:trigger x in list} :: x in list ==> unchanged(x)
    requires b.next == head && 0 < |b.s| <= INT_MAX
    ensures Linked(head, list) && Linked(b, [b] + list)
  {
    forall i | 0 <= i < |list|
      ensures LinkFits(list, i) && 0 < |list[i].s| <= INT_MAX
    {
      assert list[i] in list;
      assert old(LinkFits(list, i));
    }
    forall i | 0 <= i < |[b] + list|
      ensures LinkFits([b] + list, i) && 0 < |([b] + list)[i].s| <= INT_MAX
    {
      if i > 0 {
        assert ([b] + list)[i] == list[i - 1];
      }
    }
  }

  // Finished strings stay readable when only the block in which nothing is finished changes.
  twostate lemma StillReadable(new finished: seq<Finished>, new used: seq<Block>, new limit: nat,
                               new used': seq<Block>, new limit': nat)
    requires old(allocated(finished)) && old(allocated(used)) && old(AllReadable(finished, used, limit))
    requires forall i {:trigger finished[i]} :: 0 <= i < |finished| ==>
      unchanged(finished[i].block) && finished[i].block in used' && (finished[i].block == used'[0] ==> finished[i].from + |finished[i].text| <= limit')
    ensures AllReadable(finished, used', limit')
  {
    forall i | 0 <= i < |finished|
      ensures Readable(finished[i], used', limit')
    {
      assert old(Readable(finished[i], used, limit));
    }
  }

  lemma {:induction false} NoneReadable(used: seq<Block>, limit: nat)
    ensures AllReadable([], used, limit)
  {
  }

  // ---------- the pool ----------

  // start, ptr and end are offsets into the first block, all 0 when there is none.
  class Pool {
    var blocks: Block?
    var freeBlocks: Block?
    var start: nat
    var ptr: nat
    var end: nat
    const mem: nat -> bool
    var allocs: nat

    ghost var used: seq<Block>
    ghost var free: seq<Block>
    ghost var finished: seq<Finished>

    // The blocks that realloc has replaced.
    ghost var replaced: set<Block>

    ghost predicate Valid()
      reads this`blocks, this`freeBlocks, this`start, this`ptr, this`end, this`used, this`free, this`finished
      reads used, free, set i | 0 <= i < |finished| :: finished[i].block
    {
      && Distinct(used + free) && Linked(blocks, used) && Linked(freeBlocks, free)
      && start <= ptr <= end && end == (if used == [] then 0 else |used[0].s|)
      && AllReadable(finished, used, start)
    }

    // The string that is being built.
    ghost function InProgress(): string
      requires Valid()
      reads this, used, free, set i | 0 <= i < |finished| :: finished[i].block
    {
      if used == [] then "" else used[0].s[start..ptr]
    }

    constructor (mem: nat -> bool)
      ensures Valid() && used == [] && free == [] && finished == [] && replaced == {} && this.mem == mem
    {
      this.mem := mem;
      blocks, freeBlocks, start, ptr, end, allocs := null, null, 0, 0, 0, 0;
      used, free, finished, replaced := [], [], [], {};
    }

    method Allocate() returns (ok: bool)
      modifies this`allocs
      ensures ok == mem(old(allocs)) && allocs == old(allocs) + 1
    {
      ok := mem(allocs);
      allocs := allocs + 1;
    }

    // poolBytesToAllocateFor: 0 when the size does not fit an int.
    static function BytesToAllocateFor(blockSize: nat): (r: nat)
      ensures r != 0 <==> 0 < blockSize <= INT_MAX - BLOCK_HEADER
    {
      if blockSize == 0 || blockSize > INT_MAX || BLOCK_HEADER + blockSize > INT_MAX then 0 else BLOCK_HEADER + blockSize
    }

    // What a growth keeps and gains.
    twostate predicate Grown()
      requires old(Valid())
      reads this, used, free, set i | 0 <= i < |finished| :: finished[i].block
    {
      && Valid() && InProgress() == old(InProgress()) && finished == old(finished)
      && end - start > old(end - start) && ptr < end
    }

    // The first case of poolGrow: the pool is empty.
    method TakeFree()
      requires Valid() && used == [] && free != []
      modifies this`blocks, this`freeBlocks, this`start, this`ptr, this`end, this`used, this`free, free
      ensures Grown() && used == [old(free)[0]] && free == old(free)[1..]
    {
      hide AllReadable, Linked, Distinct;
      NothingFinished();
      MoveFirst(used, free);
      FirstOf(freeBlocks, free);
      blocks := freeBlocks;
      freeBlocks := freeBlocks.next;
      blocks.next := null;
      start, ptr, end := 0, 0, |blocks.s|;
      used, free := [free[0]], free[1..];
      RestLinked(old(free), free);
      OnlyBlock(blocks, used);
      NoneReadable(used, start);
      assert used + free == [old(free)[0]] + [] + free;
      assert InProgress() == "";
    }

    lemma {:induction false} NothingFinished()
      requires Valid()
      ensures used == [] ==> finished == [] && start == ptr == end == 0
    {
      assert finished != [] ==> Readable(finished[0], used, start);
    }

    // The second case: the first free block is larger than the room that is left; the string moves there.
    method MoveToFree()
      requires Valid() && used != [] && free != [] && end - start < |free[0].s|
      modifies this`blocks, this`freeBlocks, this`start, this`ptr, this`end, this`used, this`free, free
      ensures Grown() && used == [old(free)[0]] + old(used) && free == old(free)[1..]
    {
      hide AllReadable, Linked, Distinct;
      MoveFirst(used, free);
      FirstOf(freeBlocks, free);
      FirstOf(blocks, used);
      UsedBlocks();
      var tem := freeBlocks.next;
      var text := blocks.s[start..end];
      assert text[..ptr - start] == InProgress();
      freeBlocks.next := blocks;
      blocks := freeBlocks;
      freeBlocks := tem;
      blocks.s := text + blocks.s[|text|..];
      ptr := ptr - start;
      start, end := 0, |blocks.s|;
      used, free := [free[0]] + used, free[1..];
      RestLinked(old(free), free);
      PushLinked(old(blocks), old(used), blocks);
      StillReadable(finished, old(used), old(start), used, start);
      assert InProgress() == text[..ptr];
    }

    lemma {:induction false} UsedBlocks()
      requires Valid()
      ensures forall i {:trigger finished[i]} :: 0 <= i < |finished| ==> finished[i].block in used && finished[i].text != ""
      ensures forall i {:trigger finished[i]} :: 0 <= i < |finished| ==>
        (finished[i].block == used[0] ==> finished[i].from + |finished[i].text| <= start)
    {
      forall i | 0 <= i < |finished|
        ensures finished[i].block in used && finished[i].text != ""
        ensures finished[i].block == used[0] ==> finished[i].from + |finished[i].text| <= start
      {
        assert Readable(finished[i], used, start);
      }
    }

    // The third case: nothing is finished in the block, which is enlarged and may move.
    method Enlarge() returns (ok: bool)
      requires Valid() && used != [] && start == 0
      modifies this`blocks, this`start, this`ptr, this`end, this`used, this`allocs, this`replaced
      ensures ok ==> Grown() && fresh(used[0]) && used[1..] == old(used)[1..] && |used| == old(|used|)
      ensures !ok ==>
          unchanged(this`blocks) && unchanged(this`start) && unchanged(this`ptr) && unchanged(this`end) && unchanged(this`used)
      ensures !ok ==> Valid() && InProgress() == old(InProgress())
      ensures !ok ==> 2 * end > INT_MAX - BLOCK_HEADER || Refused(old(allocs))
      ensures old(allocs) <= allocs
      ensures replaced == if ok then old(replaced) + {old(used)[0]} else old(replaced)
    {
      hide AllReadable, Linked, Distinct;
      FirstOf(blocks, used);
      UsedBlocks();
      var blockSize := (end - start) * 2;
      if blockSize > INT_MAX {
        return false;
      }
      var bytes := BytesToAllocateFor(blockSize);
      if bytes == 0 {
        return false;
      }
      ok := Allocate();
      if !ok {
        assert !mem(old(allocs));
        return;
      }
      var temp := new Block(blocks.next, blocks.s + seq(blockSize - |blocks.s|, _ => '\0'));
      Replace(temp);
      replaced := replaced + {old(used)[0]};
    }

    // The first block has been reallocated.
    method Replace(temp: Block)
      requires Valid() && used != [] && start == 0 && temp !in used && temp !in free
      requires temp.next == used[0].next && used[0].s < temp.s && |temp.s| <= INT_MAX
      modifies this`blocks, this`end, this`used
      ensures Grown() && used == [temp] + old(used)[1..]
    {
      hide AllReadable, Linked, Distinct;
      FirstOf(blocks, used);
      UsedBlocks();
      ReplaceFirst(used, free, temp);
      blocks := temp;
      end := |temp.s|;
      used := [temp] + used[1..];
      RestLinked(old(used), old(used)[1..]);
      PushLinked(temp.next, old(used)[1..], temp);
      StillReadable(finished, old(used), old(start), used, start);
    }

    // The last case: a new block.
    method AddBlock() returns (ok: bool)
      requires Valid()
      modifies this`blocks, this`start, this`ptr, this`end, this`used, this`allocs
      ensures ok ==> Grown() && fresh(used[0]) && used[1..] == old(used) && |used| == old(|used|) + 1
      ensures !ok ==>
          unchanged(this`blocks) && unchanged(this`start) && unchanged(this`ptr) && unchanged(this`end) && unchanged(this`used)
      ensures !ok ==> Valid() && InProgress() == old(InProgress())
      ensures !ok ==> 2 * (end - start) > INT_MAX - BLOCK_HEADER || Refused(old(allocs))
      ensures old(allocs) <= allocs
    {
      hide AllReadable, Linked, Distinct;
      UsedBlocks();
      NothingFinished();
      var blockSize := end - start;
      if blockSize < INIT_BLOCK_SIZE {
        blockSize := INIT_BLOCK_SIZE;
      } else {
        if blockSize * 2 > INT_MAX {
          return false;
        }
        blockSize := blockSize * 2;
      }
      var bytes := BytesToAllocateFor(blockSize);
      if bytes == 0 {
        return false;
      }
      ok := Allocate();
      if !ok {
        assert !mem(old(allocs));
        return;
      }
      var text := [];
      if ptr != start {
        FirstOf(blocks, used);
        text := blocks.s[start..ptr];
      }
      var tem := new Block(blocks, text + seq(blockSize - |text|, _ => '\0'));
      Push(tem);
    }

    // The string has been copied to a new block.
    method Push(tem: Block)
      requires Valid() && tem !in used && tem !in free && tem.next == blocks
      requires end - start < |tem.s| <= INT_MAX && InProgress() <= tem.s
      modifies this`blocks, this`start, this`ptr, this`end, this`used
      ensures Grown() && used == [tem] + old(used)
    {
      hide AllReadable, Linked, Distinct;
      UsedBlocks();
      NothingFinished();
      AddNew(used, free, tem);
      blocks := tem;
      ptr := ptr - start;
      start, end := 0, |tem.s|;
      used := [tem] + used;
      PushLinked(old(blocks), old(used), tem);
      StillReadable(finished, old(used), old(start), used, start);
    }

    ghost predicate Refused(since: nat)
      reads this`allocs
    {
      exists k: nat {:trigger mem(k)} :: since <= k < allocs && !mem(k)
    }

    /** poolGrow: the string under construction is kept, finished strings stay where they are, the room grows; the
        blocks stay on one of the two lists, but for one that was reallocated. */
    method Grow() returns (ok: bool)
      requires Valid()
      modifies this`blocks, this`freeBlocks, this`start, this`ptr, this`end, this`used, this`free, this`allocs, this`replaced, free
      ensures ok ==> Grown()
      ensures ok ==> forall b {:trigger b in used} {:trigger b in free} :: b in old(used) + old(free) ==>
        b in used || b in free || (old(used) != [] && b == old(used)[0] && old(start) == 0)
      ensures forall i {:trigger used[i]} :: 0 <= i < |used| ==> used[i] in old(used) + old(free) || fresh(used[i])
      ensures forall i {:trigger free[i]} :: 0 <= i < |free| ==> free[i] in old(free)
      ensures !ok ==> Valid() && InProgress() == old(InProgress()) && used == old(used) && free == old(free)
      ensures !ok ==> 2 * (end - start) > INT_MAX - BLOCK_HEADER || Refused(old(allocs))
      ensures old(allocs) <= allocs
      ensures Conserved(old(used), old(free), old(replaced), used, free, replaced)
    {
      hide AllReadable, Linked, Distinct, BlocksOf;
      Ends();
      if freeBlocks != null {
        if blocks == null {
          TakenBlocks(used, free);
          TakeFree();
          assert used == [old(free)[0]] + old(used);
          return true;
        }
        if end - start < |freeBlocks.s| {
          TakenBlocks(used, free);
          MoveToFree();
          return true;
        }
      }
      if blocks != null && start == 0 {
        ok := Enlarge();
        if ok {
          ReplacedBlocks(old(used), free, used[0]);
          assert used == [used[0]] + old(used)[1..];
        }
      } else {
        ok := AddBlock();
        if ok {
          AddedBlocks(old(used), free, used[0]);
          assert used == [used[0]] + old(used);
        }
      }
    }

    lemma {:induction false} Ends()
      requires Valid()
      ensures blocks == if used == [] then null else used[0]
      ensures freeBlocks == if free == [] then null else free[0]
      ensures used == [] ==> start == ptr == end == 0
      ensures used != [] ==> end > 0
    {
    }

    // poolAppendChar
    method AppendChar(c: char) returns (ok: bool)
      requires Valid()
      modifies this`blocks, this`freeBlocks, this`start, this`ptr, this`end, this`used, this`free, this`allocs, this`replaced, used, free
      ensures Valid() && finished == old(finished)
      ensures InProgress() == if ok then old(InProgress()) + [c] else old(InProgress())
      ensures ok ==> used != []
      ensures forall i {:trigger used[i]} :: 0 <= i < |used| ==> used[i] in old(used) + old(free) || fresh(used[i])
      ensures forall i {:trigger free[i]} :: 0 <= i < |free| ==> free[i] in old(free)
      ensures !ok ==> 2 * (end - start) > INT_MAX - BLOCK_HEADER || Refused(old(allocs))
      ensures old(allocs) <= allocs
      ensures Conserved(old(used), old(free), old(replaced), used, free, replaced)
    {
      hide AllReadable, Linked, Distinct, Conserved;
      ConservedSame(used, free, replaced);
      ok := true;
      if ptr == end {
        ok := Grow();
        if !ok {
          return;
        }
      }
      Write(c);
    }

    method Write(c: char)
      requires Valid() && ptr < end
      modifies this`ptr, used
      ensures Valid() && InProgress() == old(InProgress()) + [c] && ptr == old(ptr) + 1
    {
      hide AllReadable, Linked, Distinct;
      Ends();
      FirstIsApart(used, free);
      blocks.s := blocks.s[ptr := c];
      ptr := ptr + 1;
      WriteKeeps();
      assert blocks.s[start..ptr] == old(blocks.s[start..ptr]) + [c];
    }

    // Only the first block has changed, behind start.
    twostate lemma WriteKeeps()
      requires old(Valid()) && old(used) != [] && used == old(used) && free == old(free) && finished == old(finished)
      requires blocks == old(blocks) && freeBlocks == old(freeBlocks) && start == old(start) && end == old(end)
      requires forall b {:trigger b in used} :: b in used && b != used[0] ==> unchanged(b)
      requires forall b {:trigger b in free} :: b in free ==> unchanged(b)
      requires used[0].next == old(used[0].next) && |used[0].s| == old(|used[0].s|)
      requires used[0].s[..start] == old(used[0].s[..start])
      ensures Linked(blocks, used) && Linked(freeBlocks, free) && AllReadable(finished, used, start)
    {
      hide Distinct, AllReadable, Linked;
      SameSizes(blocks, used);
      SameSizes(freeBlocks, free);
      WriteKeepsStrings();
    }

    twostate lemma WriteKeepsStrings()
      requires old(AllReadable(finished, used, start)) && old(used) != [] && used == old(used) && finished == old(finished)
      requires start == old(start) <= |used[0].s| == old(|used[0].s|)
      requires forall b {:trigger b in used} :: b in used && b != used[0] ==> unchanged(b)
      requires used[0].s[..start] == old(used[0].s[..start])
      ensures AllReadable(finished, used, start)
    {
      forall i | 0 <= i < |finished|
        ensures Readable(finished[i], used, start)
      {
        var f := finished[i];
        assert old(Readable(f, used, start));
        if f.block == used[0] {
          assert f.block.s[f.from..f.from + |f.text|] == used[0].s[..start][f.from..f.from + |f.text|];
          assert old(f.block.s[f.from..f.from + |f.text|]) == old(used[0].s[..start])[f.from..f.from + |f.text|];
        }
      }
    }

    // poolFinish
    method Finish()
      requires Valid()
      modifies this`start, this`finished
      ensures Valid() && InProgress() == ""
      ensures finished == old(finished) + if old(InProgress()) == "" then [] else [Finished(old(used)[0], old(start), old(InProgress()))]
    {
      hide AllReadable, Linked, Distinct;
      ghost var text := InProgress();
      UsedBlocks();
      FinishKeeps(text);
      if text != "" {
        finished := finished + [Finished(used[0], start, text)];
      }
      start := ptr;
      StillReadable(finished, used, ptr, used, ptr);
      assert used != [] ==> used[0].s[ptr..ptr] == "";
    }

    lemma {:induction false} FinishKeeps(text: string)
      requires Valid() && text == InProgress()
      ensures AllReadable(finished, used, ptr)
      ensures text != "" ==> AllReadable(finished + [Finished(used[0], start, text)], used, ptr)
      ensures used == [] ==> text == ""
    {
      forall i | 0 <= i < |finished|
        ensures Readable(finished[i], used, ptr)
      {
        assert Readable(finished[i], used, start);
      }
    }

    // poolDiscard
    method Discard()
      requires Valid()
      modifies this`ptr
      ensures Valid() && InProgress() == ""
    {
      ptr := start;
    }

    // poolChop
    method Chop()
      requires Valid() && InProgress() != ""
      modifies this`ptr
      ensures Valid() && InProgress() == old(InProgress())[..|old(InProgress())| - 1]
    {
      ptr := ptr - 1;
      assert used[0].s[start..ptr] == old(used[0].s[start..ptr])[..ptr - start];
    }

    // The loop of poolClear: block by block is pushed on the free list.
    method PushAll()
      requires Distinct(used + free) && Linked(blocks, used) && Linked(freeBlocks, free)
      modifies this`freeBlocks, this`free, used
      ensures Linked(freeBlocks, free) && Distinct(free) && |free| == old(|used| + |free|)
      ensures forall b {:trigger b in free} :: b in free <==> b in old(used) || b in old(free)
    {
      hide Linked, Distinct;
      ghost var k: nat := 0;
      var p := blocks;
      FirstOf(p, used);
      assert used[0..] == used && used[..0] == [];
      while p != null
        invariant k <= |used| && Linked(p, used[k..]) && Linked(freeBlocks, free) && Distinct(used[k..] + free)
        invariant p == null <==> k == |used|
        invariant forall b {:trigger b in free} :: b in free <==> b in used[..k] || b in old(free)
        invariant |free| == k + old(|free|)
        decreases |used| - k
      {
        ghost var rest, more := used[k..], used[k + 1..];
        MoveFirstBack(rest, free);
        FirstOf(p, rest);
        assert rest[1..] == more && rest[0] == used[k] == p;
        label Step:
        var tem := p.next;
        p.next := freeBlocks;
        RestLinked@Step(rest, more);
        PushLinked@Step(freeBlocks, free, p);
        freeBlocks := p;
        free := [p] + free;
        assert used[..k + 1] == used[..k] + [p];
        p, k := tem, k + 1;
        FirstOf(p, more);
      }
      assert used[..k] == used && used[k..] + free == free;
    }

    // poolClear: the used blocks go to the free list, in front of what is there.
    method Clear()
      requires Valid()
      modifies this`blocks, this`freeBlocks, this`start, this`ptr, this`end, this`used, this`free, this`finished, used
      ensures Valid() && InProgress() == "" && used == [] && finished == []
      ensures forall b {:trigger b in free} :: b in free <==> b in old(used) || b in old(free)
      ensures forall i {:trigger free[i]} :: 0 <= i < |free| ==> free[i] in old(used) || free[i] in old(free)
      ensures |free| == old(|used| + |free|) && BlocksOf(used, free) == BlocksOf(old(used), old(free))
    {
      hide Linked, Distinct, AllReadable;
      Ends();
      if freeBlocks == null {
        assert used + free == used;
        freeBlocks := blocks;
        free := used;
      } else {
        PushAll();
      }
      blocks := null;
      start, ptr, end := 0, 0, 0;
      used, finished := [], [];
      NoneReadable(used, start);
      NoBlocks();
      assert used + free == free;
      forall i | 0 <= i < |free|
        ensures free[i] in old(used) || free[i] in old(free)
      {
        assert free[i] in free;
      }
    }

    // poolAppend: whatever fits is copied, then the pool grows, until the text is used up.
    method Append(text: string) returns (ok: bool)
      requires Valid()
      modifies this`blocks, this`freeBlocks, this`start, this`ptr, this`end, this`used, this`free, this`allocs, this`replaced, used, free
      ensures Valid() && finished == old(finished)
      ensures ok ==> InProgress() == old(InProgress()) + text && used != []
      ensures old(allocs) <= allocs
      ensures !ok ==> 2 * (end - start) > INT_MAX - BLOCK_HEADER || Refused(old(allocs))
      ensures forall i {:trigger used[i]} :: 0 <= i < |used| ==> used[i] in old(used) + old(free) || fresh(used[i])
      ensures forall i {:trigger free[i]} :: 0 <= i < |free| ==> free[i] in old(free)
      ensures Conserved(old(used), old(free), old(replaced), used, free, replaced)
    {
      hide Valid, InProgress, Conserved;
      Ends();
      ConservedSame(used, free, replaced);
      ok := true;
      if blocks == null {
        ok := Grow();
        if !ok {
          return;
        }
        Ends();
      }
      var i := 0;
      while true
        invariant Valid() && finished == old(finished) && used != [] && i <= |text|
        invariant InProgress() == old(InProgress()) + text[..i] && old(allocs) <= allocs
        invariant Conserved(old(used), old(free), old(replaced), used, free, replaced)
        invariant forall i {:trigger used[i]} :: 0 <= i < |used| ==> used[i] in old(used) + old(free) || fresh(used[i])
        invariant forall i {:trigger free[i]} :: 0 <= i < |free| ==> free[i] in old(free)
        decreases |text| - i, if ptr < end then 0 else 1
      {
        i := Convert(text, i);
        if i == |text| {
          break;
        }
        ghost var used1, free1, replaced1 := used, free, replaced;
        ok := Grow();
        ConservedTwice(old(used), old(free), old(replaced), used1, free1, replaced1, used, free, replaced);
        if !ok {
          return;
        }
        Ends();
      }
      assert text[..i] == text;
      ok := true;
    }

    // XmlConvert for an encoding of one byte a character: up to the end of the text or of the room.
    method Convert(text: string, from: nat) returns (i: nat)
      requires Valid() && used != [] && from <= |text|
      modifies this`ptr, used
      ensures Valid() && from <= i <= |text| && InProgress() == old(InProgress()) + text[from..i]
      ensures i == |text| || ptr >= end
      ensures old(ptr) < end && from < |text| ==> from < i
    {
      hide Valid, InProgress;
      i := from;
      assert old(InProgress()) + text[from..from] == old(InProgress());
      while i < |text| && ptr < end
        invariant Valid() && from <= i <= |text| && InProgress() == old(InProgress()) + text[from..i]
        invariant i == from ==> ptr == old(ptr)
      {
        Write(text[i]);
        assert text[from..i + 1] == text[from..i] + [text[i]];
        i := i + 1;
      }
    }

    /** poolStoreString and poolFinish: the string gets an address it keeps until the pool is cleared. */
    method StoreString(text: string) returns (ok: bool)
      requires Valid() && InProgress() == ""
      modifies this`blocks, this`freeBlocks, this`start, this`ptr, this`end, this`used, this`free, this`allocs, this`replaced, this`finished, used, free
      ensures Valid()
      ensures ok ==>
          InProgress() == "" && |finished| == old(|finished|) + 1 && finished[..old(|finished|)] == old(finished)
      ensures ok ==> finished[old(|finished|)].text == text + ['\0']
      ensures !ok ==> finished == old(finished)
      ensures !ok ==> 2 * (end - start) > INT_MAX - BLOCK_HEADER || Refused(old(allocs))
      ensures Conserved(old(used), old(free), old(replaced), used, free, replaced)
    {
      hide Valid, InProgress, Conserved;
      ok := Append(text);
      if !ok {
        return;
      }
      assert "" + text == text;
      ghost var used1, free1, replaced1 := used, free, replaced;
      ok := Terminate();
      ConservedTwice(old(used), old(free), old(replaced), used1, free1, replaced1, used, free, replaced);
    }

    // The terminator and poolFinish.
    method Terminate() returns (ok: bool)
      requires Valid()
      modifies this`blocks, this`freeBlocks, this`start, this`ptr, this`end, this`used, this`free, this`allocs,
        this`replaced, this`finished, used, free
      ensures Valid()
      ensures ok ==>
          InProgress() == "" && |finished| == old(|finished|) + 1 && finished[..old(|finished|)] == old(finished)
      ensures ok ==> finished[old(|finished|)].text == old(InProgress()) + ['\0']
      ensures !ok ==> finished == old(finished)
      ensures !ok ==> 2 * (end - start) > INT_MAX - BLOCK_HEADER || Refused(old(allocs))
      ensures Conserved(old(used), old(free), old(replaced), used, free, replaced)
    {
      hide Valid, InProgress, Conserved;
      ok := AppendChar('\0');
      if ok {
        Finish();
      }
    }

    method Apply(op: Op) returns (ok: bool)
      requires Valid()
      modifies this, used, free
      ensures Valid() && old(allocs) <= allocs && Conserved(old(used), old(free), old(replaced), used, free, replaced)
      ensures ok ==> State(InProgress(), Texts(finished)) == Step(op, State(old(InProgress()), Texts(old(finished))))
      ensures op != ClearOp ==> old(finished) <= finished
      ensures !ok ==> 2 * (end - start) > INT_MAX - BLOCK_HEADER || Refused(old(allocs))
      ensures forall i {:trigger used[i]} :: 0 <= i < |used| ==> used[i] in old(used) + old(free) || fresh(used[i])
      ensures forall i {:trigger free[i]} :: 0 <= i < |free| ==> free[i] in old(used) + old(free)
    {
      hide AllReadable, Linked, Distinct, BlocksOf, Texts;
      ConservedSame(used, free, replaced);
      ok := true;
      match op
      case AppendOp(c) =>
        ok := AppendChar(c);
      case FinishOp =>
        ghost var text := InProgress();
        TextsSnoc(finished, text);
        Finish();
        if text == "" {
          assert finished == old(finished);
        } else {
          assert finished == old(finished) + [Finished(old(used)[0], old(start), text)];
        }
      case DiscardOp =>
        Discard();
      case ClearOp =>
        Clear();
        NoTexts();
    }

    /** Any run of operations on a pool does what it does to a string under construction and a list of finished ones,
        no block is lost, and as long as the pool is not cleared finished strings keep their addresses. */
    method Run(ops: seq<Op>) returns (ok: bool)
      requires Valid()
      modifies this, used, free
      ensures Valid() && Conserved(old(used), old(free), old(replaced), used, free, replaced)
      ensures ok ==> State(InProgress(), Texts(finished)) == Effect(ops, State(old(InProgress()), Texts(old(finished))))
      ensures ClearOp !in ops ==> old(finished) <= finished
      ensures !ok ==> 2 * (end - start) > INT_MAX - BLOCK_HEADER || Refused(old(allocs))
    {
      hide Valid, InProgress, Texts, Step, Conserved;
      ConservedSame(used, free, replaced);
      ghost var before := State(InProgress(), Texts(finished));
      assert ops[..0] == [];
      for i := 0 to |ops|
        invariant Valid() && State(InProgress(), Texts(finished)) == Effect(ops[..i], before)
        invariant ClearOp !in ops ==> old(finished) <= finished
        invariant old(allocs) <= allocs && Conserved(old(used), old(free), old(replaced), used, free, replaced)
        invariant forall i {:trigger used[i]} :: 0 <= i < |used| ==> used[i] in old(used) + old(free) || fresh(used[i])
        invariant forall i {:trigger free[i]} :: 0 <= i < |free| ==> free[i] in old(used) + old(free) || fresh(free[i])
      {
        assert ops[..i + 1][..i] == ops[..i];
        ghost var used1, free1, replaced1 := used, free, replaced;
        ok := Apply(ops[i]);
        ConservedTwice(old(used), old(free), old(replaced), used1, free1, replaced1, used, free, replaced);
        if !ok {
          return;
        }
      }
      assert ops[..|ops|] == ops;
      ok := true;
    }
  }

  datatype Op = AppendOp(c: char) | FinishOp | DiscardOp | ClearOp

  datatype State = State(inProgress: string, finished: seq<string>)

  function Step(op: Op, st: State): State {
    match op
    case AppendOp(c) => st.(inProgress := st.inProgress + [c])
    case FinishOp => State("", if st.inProgress == "" then st.finished else st.finished + [st.inProgress])
    case DiscardOp => st.(inProgress := "")
    case ClearOp => State("", [])
  }

  function Effect(ops: seq<Op>, st: State): State {
    if ops == [] then st else Step(ops[|ops| - 1], Effect(ops[..|ops| - 1], st))
  }

  function Texts(finished: seq<Finished>): seq<string> {
    seq(|finished|, i requires 0 <= i < |finished| => finished[i].text)
  }

  lemma {:induction false} NoTexts()
    ensures Texts([]) == []
  {
  }

  lemma {:induction false} TextsSnoc(finished: seq<Finished>, text: string)
    ensures forall b: Block, from: nat {:trigger Finished(b, from, text)} ::
      Texts(finished + [Finished(b, from, text)]) == Texts(finished) + [text]
  {
  }

  lemma {:induction false} NoBlocks()
    ensures Linked(null, [])
  {
  }

  lemma {:induction false} MoveFirstBack(rest: seq<Block>, free: seq<Block>)
    requires Distinct(rest + free)
    ensures rest != [] ==> Distinct(rest[1..] + ([rest[0]] + free)) && rest[0] !in rest[1..] && rest[0] !in free
  {
    if rest != [] {
      ApartAfter(rest, free);
      var s, t := rest + free, rest[1..] + ([rest[0]] + free);
      var n := |rest| - 1;
      forall i, j | 0 <= i < j < |t|
        ensures t[i] != t[j]
      {
        var a := if i < n then i + 1 else if i == n then 0 else i;
        var b := if j < n then j + 1 else if j == n then 0 else j;
        assert t[i] == s[a] && t[j] == s[b] && a != b;
        assert a < b ==> s[a] != s[b];
        assert b < a ==> s[b] != s[a];
      }
    }
  }

  lemma {:induction false} ApartAfter(rest: seq<Block>, free: seq<Block>)
    requires Distinct(rest + free) && rest != []
    ensures rest[0] !in rest[1..] && rest[0] !in free
  {
    FirstIsApart(rest, free);
    assert forall i {:trigger rest[1..][i]} :: 0 <= i < |rest| - 1 ==> rest[1..][i] == (rest + free)[i + 1] && (rest + free)[0] == rest[0];
  }

  lemma {:induction false} FirstIsApart(used: seq<Block>, free: seq<Block>)
    requires Distinct(used + free) && used != []
    ensures used[0] !in free
  {
    assert forall i {:trigger free[i]} :: 0 <= i < |free| ==> free[i] == (used + free)[|used| + i] && (used + free)[0] == used[0];
  }

  // Neither a link nor the size of a block has changed.
  twostate lemma SameSizes(new head: Block?, new list: seq<Block>)
    requires old(allocated(list)) && old(allocated(head)) && old(Linked(head, list))
    requires forall b {:trigger b in list} :: b in list ==> b.next == old(b.next) && |b.s| == old(|b.s|)
    ensures Linked(head, list)
  {
    forall i | 0 <= i < |list|
      ensures LinkFits(list, i) && 0 < |list[i].s| <= INT_MAX
    {
      assert list[i] in list;
      assert old(LinkFits(list, i));
    }
  }

  lemma {:induction false} FirstOf(head: Block?, list: seq<Block>)
    requires Linked(head, list)
    ensures head == if list == [] then null else list[0]
    ensures list != [] ==> 0 < |list[0].s| <= INT_MAX
  {
  }

  lemma {:induction false} OnlyBlock(b: Block, list: seq<Block>)
    requires list == [b] && b.next == null && 0 < |b.s| <= INT_MAX
    ensures Linked(b, list)
  {
  }
}
