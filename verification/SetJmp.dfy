// The setjmp table of the browser runtime: pairs of id and label in linear memory, ended by
// a zero id. Addresses count 32-bit words.
module SetJmp {
  import opened Words
  import opened Wrappers

  /** A block that malloc returns: its address and whatever it holds. */
  datatype Block = Block(ptr: nat, contents: seq<Word>)

  datatype Entry = Entry(id: Word, jumpLabel: Word)

  // -------------------------------------------------------- the table as a map

  /** Does the table of size slots lie within memory? */
  predicate Holds(memory: seq<Word>, table: nat, size: nat) {
    table + 2 * size <= |memory|
  }

  /** The entries from slot i on, up to the first slot with id 0. */
  function EntriesFrom(memory: seq<Word>, table: nat, size: nat, i: nat): (r: seq<Entry>)
    requires Holds(memory, table, size) && i <= size
    ensures |r| <= size - i
    decreases size - i
  {
    if i == size || memory[table + 2 * i] == 0 then []
    else [Entry(memory[table + 2 * i], memory[table + 2 * i + 1])] + EntriesFrom(memory, table, size, i + 1)
  }

  function Entries(memory: seq<Word>, table: nat, size: nat): (r: seq<Entry>)
    requires Holds(memory, table, size)
    ensures |r| <= size
  {
    EntriesFrom(memory, table, size, 0)
  }

  /** The label of the first entry with this id, or 0. */
  function Lookup(entries: seq<Entry>, id: int): nat {
    if entries == [] then 0 else if entries[0].id == id then entries[0].jumpLabel else Lookup(entries[1..], id)
  }

  /** What slot j of the table holds. */
  function Slot(memory: seq<Word>, table: nat, size: nat, j: nat): Entry
    requires Holds(memory, table, size) && j < size
  {
    Entry(memory[table + 2 * j], memory[table + 2 * j + 1])
  }

  lemma {:induction false} EntriesAre(memory: seq<Word>, table: nat, size: nat, i: nat)
    requires Holds(memory, table, size) && i <= size
    ensures var r := EntriesFrom(memory, table, size, i);
            && (forall j :: 0 <= j < |r| ==> r[j] == Slot(memory, table, size, i + j) && r[j].id != 0)
            && (i + |r| < size ==> memory[table + 2 * (i + |r|)] == 0)
    decreases size - i
  {
    if i < size && memory[table + 2 * i] != 0 {
      EntriesAre(memory, table, size, i + 1);
      var r, rest := EntriesFrom(memory, table, size, i), EntriesFrom(memory, table, size, i + 1);
      assert forall j :: 1 <= j < |r| ==> r[j] == rest[j - 1];
    }
  }

  /** A run of slots with these contents and a zero id behind it is these entries. */
  lemma {:induction false} SlotsMakeEntries(memory: seq<Word>, table: nat, size: nat, i: nat, es: seq<Entry>)
    requires Holds(memory, table, size) && i + |es| <= size
    requires forall j :: 0 <= j < |es| ==> es[j].id != 0 && es[j] == Slot(memory, table, size, i + j)
    requires i + |es| < size ==> memory[table + 2 * (i + |es|)] == 0
    ensures EntriesFrom(memory, table, size, i) == es
    decreases |es|
  {
    if es != [] {
      assert es[0] == Slot(memory, table, size, i);
      SlotsMakeEntries(memory, table, size, i + 1, es[1..]);
    }
  }

  // ------------------------------------------------------------------- as values

  datatype Machine = Machine(memory: seq<Word>, setjmpId: nat, tempRet0: nat)

  predicate Outside(p: nat, table: nat, size: nat) {
    p < table || table + 2 * size <= p
  }

  /**
   * The slot is filled and the next slot of the view is prepared; a write behind the end
   * of a typed array is ignored.
   */
  function Filled(memory: seq<Word>, table: nat, size: nat, i: nat, id: Word, jumpLabel: Word): (r: seq<Word>)
    requires Holds(memory, table, size) && i < size
    ensures |r| == |memory|
  {
    var m := memory[table + 2 * i := id][table + 2 * i + 1 := jumpLabel];
    if i + 1 < size then m[table + 2 * (i + 1) := 0] else m
  }

  function Overwritten(memory: seq<Word>, b: Block): (r: seq<Word>)
    requires b.ptr + |b.contents| <= |memory|
    ensures |r| == |memory|
  {
    seq(|memory|, k requires 0 <= k < |memory| =>
      if b.ptr <= k < b.ptr + |b.contents| then b.contents[k - b.ptr] else memory[k])
  }

  /** Blocks as malloc has to return them for a table of size slots that keeps growing, clear of env. */
  predicate Suitable(length: nat, env: nat, size: nat, blocks: seq<Block>)
    decreases |blocks|
  {
    blocks != [] ==>
      && |blocks[0].contents| == 2 * (2 * size + 1)
      && blocks[0].ptr + |blocks[0].contents| <= length
      && Outside(env, blocks[0].ptr, 2 * size + 1)
      && Suitable(length, env, 2 * size, blocks[1..])
  }

  /** What saveSetjmp returns and leaves behind. */
  datatype Saved = Saved(machine: Machine, table: nat)

  /** The whole effect of saveSetjmp; None when it asks for more blocks than malloc has to give. */
  function Save(s: Machine, env: nat, jumpLabel: int, table: nat, size: nat, blocks: seq<Block>): (r: Option<Saved>)
    requires env < |s.memory| && Holds(s.memory, table, size)
    requires Suitable(|s.memory|, env, size, blocks)
    ensures r.Some? ==> |r.value.machine.memory| == |s.memory|
    decreases |blocks|, 1
  {
    var id := s.setjmpId + 1;
    var m := s.memory[env := ToUint32(id)];
    var i := |Entries(m, table, size)|;
    if i < size then Some(Saved(Machine(Filled(m, table, size, i, ToUint32(id), ToUint32(jumpLabel)), id, size), table))
    else Grown(Machine(m, id, s.tempRet0), env, jumpLabel, size, blocks)
  }

  function Grown(s: Machine, env: nat, jumpLabel: int, size: nat, blocks: seq<Block>): (r: Option<Saved>)
    requires env < |s.memory| && Suitable(|s.memory|, env, size, blocks)
    ensures r.Some? ==> |r.value.machine.memory| == |s.memory|
    decreases |blocks|, 0
  {
    if blocks == [] then None
    else
      var t := s.(memory := Overwritten(s.memory, blocks[0]));
      match Save(t, env, jumpLabel, blocks[0].ptr, 2 * size, blocks[1..])
      case None => None
      case Some(r) => Some(r.(machine := r.machine.(tempRet0 := 2 * size)))
  }

  // ----------------------------------------------------------------- in memory

  class Runtime {
    var memory: array<Word>
    var setjmpId: nat
    var tempRet0: nat

    ghost function View(): Machine
      reads this, memory
    {
      Machine(memory[..], setjmpId, tempRet0)
    }

    constructor (size: nat)
      ensures fresh(memory) && memory.Length == size && setjmpId == 0 && tempRet0 == 0
    {
      memory := new Word[size](_ => 0);
      setjmpId, tempRet0 := 0, 0;
    }

    method SaveSetjmp(env: nat, jumpLabel: int, table: nat, size: nat, blocks: seq<Block>) returns (r: Option<nat>)
      requires env < memory.Length && Holds(memory[..], table, size)
      requires Suitable(memory.Length, env, size, blocks)
      modifies this`setjmpId, this`tempRet0, memory
      ensures match Save(old(View()), env, jumpLabel, table, size, blocks)
              case None => r == None
              case Some(s) => r == Some(s.table) && View() == s.machine
      decreases |blocks|, 1
    {
      setjmpId := setjmpId + 1;
      memory[env] := ToUint32(setjmpId);
      assert memory[..] == old(memory[..])[env := ToUint32(setjmpId)];
      var stored := FillFreeSlot(jumpLabel, table, size);
      if stored {
        return Some(table);
      }
      r := Grow(env, jumpLabel, size, blocks);
    }

    /** No slot is free: a table of twice the size, and once more from the start. */
    method Grow(env: nat, jumpLabel: int, size: nat, blocks: seq<Block>) returns (r: Option<nat>)
      requires env < memory.Length && Suitable(memory.Length, env, size, blocks)
      modifies this`setjmpId, this`tempRet0, memory
      ensures match Grown(old(View()), env, jumpLabel, size, blocks)
              case None => r == None
              case Some(s) => r == Some(s.table) && View() == s.machine
      decreases |blocks|, 0
    {
      if blocks == [] {
        return None;
      }
      var newTable := Malloc(blocks[0]);
      r := SaveSetjmp(env, jumpLabel, newTable, 2 * size, blocks[1..]);
      tempRet0 := 2 * size;
    }

    /** The loop over the slots. */
    method FillFreeSlot(jumpLabel: int, table: nat, size: nat) returns (stored: bool)
      requires Holds(memory[..], table, size)
      modifies this`tempRet0, memory
      ensures var m, i := old(memory[..]), |Entries(old(memory[..]), table, size)|;
              && stored == (i < size)
              && memory[..] == (if stored then Filled(m, table, size, i, ToUint32(setjmpId), ToUint32(jumpLabel)) else m)
              && tempRet0 == (if stored then size else old(tempRet0))
    {
      ghost var m := memory[..];
      var i := 0;
      while i < size
        invariant i <= size && memory[..] == m && tempRet0 == old(tempRet0)
        invariant |Entries(m, table, size)| == i + |EntriesFrom(m, table, size, i)|
      {
        if memory[table + 2 * i] == 0 {
          memory[table + 2 * i] := ToUint32(setjmpId);
          memory[table + 2 * i + 1] := ToUint32(jumpLabel);
          if i + 1 < size {
            memory[table + 2 * (i + 1)] := 0;
          }
          tempRet0 := size;
          return true;
        }
        i := i + 1;
      }
      stored := false;
    }

    /** free and malloc: the new block holds whatever it holds. */
    method Malloc(b: Block) returns (ptr: nat)
      requires b.ptr + |b.contents| <= memory.Length
      modifies memory
      ensures ptr == b.ptr && memory[..] == Overwritten(old(memory[..]), b)
    {
      ptr := b.ptr;
      for k := 0 to |b.contents|
        invariant forall j :: 0 <= j < memory.Length ==>
                    memory[j] == if b.ptr <= j < b.ptr + k then b.contents[j - b.ptr] else old(memory[j])
      {
        memory[b.ptr + k] := b.contents[k];
      }
    }

    method TestSetjmp(id: int, table: nat, size: nat) returns (jumpLabel: nat)
      requires Holds(memory[..], table, size)
      ensures jumpLabel == Lookup(Entries(memory[..], table, size), id)
    {
      var i := 0;
      while i < size
        invariant i <= size
        invariant Lookup(Entries(memory[..], table, size), id) == Lookup(EntriesFrom(memory[..], table, size, i), id)
      {
        var curr := memory[table + 2 * i];
        if curr == 0 {
          break;
        }
        if curr == id {
          return memory[table + 2 * i + 1];
        }
        i := i + 1;
      }
      jumpLabel := 0;
    }
  }

  // -------------------------------------------------------------------- results

  /** What is written outside the table does not change its entries. */
  lemma SameSlotsSameEntries(a: seq<Word>, b: seq<Word>, table: nat, size: nat)
    requires |a| == |b| && Holds(a, table, size)
    requires forall k :: table <= k < table + 2 * size ==> a[k] == b[k]
    ensures Entries(a, table, size) == Entries(b, table, size)
  {
    EntriesAre(a, table, size, 0);
    SlotsMakeEntries(b, table, size, 0, Entries(a, table, size));
  }

  /** Filling the first free slot appends an entry, whatever the slots behind it hold; id 0 appends nothing. */
  lemma FillingAppends(memory: seq<Word>, table: nat, size: nat, id: Word, jumpLabel: Word)
    requires Holds(memory, table, size) && |Entries(memory, table, size)| < size
    ensures Entries(Filled(memory, table, size, |Entries(memory, table, size)|, id, jumpLabel), table, size)
         == Entries(memory, table, size) + if id == 0 then [] else [Entry(id, jumpLabel)]
  {
    var es := Entries(memory, table, size);
    var n := |es|;
    var m := Filled(memory, table, size, n, id, jumpLabel);
    EntriesAre(memory, table, size, 0);
    assert forall j :: 0 <= j < n ==> m[table + 2 * j] == memory[table + 2 * j] && m[table + 2 * j + 1] == memory[table + 2 * j + 1];
    if id == 0 {
      SlotsMakeEntries(m, table, size, 0, es);
      assert es + [] == es;
    } else {
      SlotsMakeEntries(m, table, size, 0, es + [Entry(id, jumpLabel)]);
    }
  }

  /** Saving while a slot is free: the table gains one entry, env holds its id, and nothing else changes. */
  lemma SaveAppends(s: Machine, env: nat, jumpLabel: int, table: nat, size: nat, blocks: seq<Block>)
    requires env < |s.memory| && Holds(s.memory, table, size) && Outside(env, table, size)
    requires Suitable(|s.memory|, env, size, blocks)
    requires |Entries(s.memory, table, size)| < size
    ensures var r := Save(s, env, jumpLabel, table, size, blocks);
            && r.Some? && r.value.table == table
            && var t := r.value.machine;
               && t.setjmpId == s.setjmpId + 1 && t.tempRet0 == size
               && t.memory[env] == ToUint32(t.setjmpId)
               && Entries(t.memory, table, size) == Entries(s.memory, table, size)
                    + (if ToUint32(t.setjmpId) == 0 then [] else [Entry(ToUint32(t.setjmpId), ToUint32(jumpLabel))])
               && forall k :: 0 <= k < |s.memory| && k != env && Outside(k, table, size) ==> t.memory[k] == s.memory[k]
  {
    var id := s.setjmpId + 1;
    var m := s.memory[env := ToUint32(id)];
    SameSlotsSameEntries(s.memory, m, table, size);
    FillingAppends(m, table, size, ToUint32(id), ToUint32(jumpLabel));
  }

  /** One call: where the id goes, and the label. */
  datatype Call = Call(env: nat, jumpLabel: int)

  function SaveAll(s: Machine, table: nat, size: nat, calls: seq<Call>): Option<Machine>
    requires Holds(s.memory, table, size)
    requires forall c :: c in calls ==> c.env < |s.memory|
    decreases |calls|
  {
    if calls == [] then Some(s)
    else
      match Save(s, calls[0].env, calls[0].jumpLabel, table, size, [])
      case None => None
      case Some(r) => SaveAll(r.machine, table, size, calls[1..])
  }

  /** The entries that a sequence of calls makes, when the last id given out was last. */
  function Made(last: nat, calls: seq<Call>): (r: seq<Entry>)
    ensures |r| == |calls|
  {
    seq(|calls|, j requires 0 <= j < |calls| => Entry(ToUint32(last + 1 + j), ToUint32(calls[j].jumpLabel)))
  }

  lemma MadeSplits(last: nat, calls: seq<Call>)
    requires calls != []
    ensures Made(last, calls)[..1] == [Entry(ToUint32(last + 1), ToUint32(calls[0].jumpLabel))]
    ensures Made(last, calls) == Made(last, calls)[..1] + Made(last + 1, calls[1..])
  {
  }

  lemma FirstSaveAppends(s: Machine, table: nat, size: nat, c: Call) returns (t: Machine)
    requires Holds(s.memory, table, size) && c.env < |s.memory| && Outside(c.env, table, size)
    requires |Entries(s.memory, table, size)| < size && s.setjmpId + 1 < TWO_32
    ensures Save(s, c.env, c.jumpLabel, table, size, []) == Some(Saved(t, table))
    ensures |t.memory| == |s.memory| && t.setjmpId == s.setjmpId + 1
    ensures Entries(t.memory, table, size)
         == Entries(s.memory, table, size) + [Entry(ToUint32(s.setjmpId + 1), ToUint32(c.jumpLabel))]
  {
    SaveAppends(s, c.env, c.jumpLabel, table, size, []);
    t := Save(s, c.env, c.jumpLabel, table, size, []).value.machine;
  }

  lemma {:induction false} SavesAppend(s: Machine, table: nat, size: nat, calls: seq<Call>)
    requires Holds(s.memory, table, size)
    requires forall c :: c in calls ==> c.env < |s.memory| && Outside(c.env, table, size)
    requires |Entries(s.memory, table, size)| + |calls| <= size
    requires s.setjmpId + |calls| < TWO_32
    ensures var r := SaveAll(s, table, size, calls);
            && r.Some? && |r.value.memory| == |s.memory|
            && r.value.setjmpId == s.setjmpId + |calls|
            && Entries(r.value.memory, table, size) == Entries(s.memory, table, size) + Made(s.setjmpId, calls)
    decreases |calls|
  {
    if calls == [] {
      assert Made(s.setjmpId, calls) == [];
    } else {
      var t := FirstSaveAppends(s, table, size, calls[0]);
      SavesAppend(t, table, size, calls[1..]);
      MadeSplits(s.setjmpId, calls);
      Regroup(Entries(s.memory, table, size), Made(s.setjmpId, calls)[..1], Made(t.setjmpId, calls[1..]));
    }
  }

  lemma {:induction false} LookupMade(last: nat, calls: seq<Call>, id: int)
    requires last + |calls| < TWO_32
    ensures Lookup(Made(last, calls), id) == if last < id <= last + |calls| then ToUint32(calls[id - last - 1].jumpLabel) else 0
    decreases |calls|
  {
    if calls != [] {
      LookupMade(last + 1, calls[1..], id);
      assert Made(last, calls)[1..] == Made(last + 1, calls[1..]);
    }
  }

  /**
   * The table is a map from ids to labels. From an empty table, whatever the words behind its
   * first id, any sequence of saves that fits makes testSetjmp give each new id its own label,
   * and 0 for every other number.
   */
  lemma TableIsMap(s: Machine, table: nat, size: nat, calls: seq<Call>, id: int)
    requires Holds(s.memory, table, size) && size > 0 && s.memory[table] == 0
    requires forall c :: c in calls ==> c.env < |s.memory| && Outside(c.env, table, size)
    requires |calls| <= size && s.setjmpId + |calls| < TWO_32
    ensures var r := SaveAll(s, table, size, calls);
            && r.Some? && Holds(r.value.memory, table, size)
            && Lookup(Entries(r.value.memory, table, size), id)
               == if s.setjmpId < id <= s.setjmpId + |calls| then ToUint32(calls[id - s.setjmpId - 1].jumpLabel) else 0
  {
    SavesAppend(s, table, size, calls);
    LookupMade(s.setjmpId, calls, id);
    assert [] + Made(s.setjmpId, calls) == Made(s.setjmpId, calls);
  }

  // ----------------------------------------------------------------------- growth

  function EntriesOf(b: Block, size: nat): seq<Entry>
    requires |b.contents| >= 2 * size
  {
    Entries(b.contents, 0, size)
  }

  lemma BlockEntries(memory: seq<Word>, b: Block, size: nat, env: nat, id: Word)
    requires b.ptr + |b.contents| <= |memory| && |b.contents| >= 2 * size && env < |memory|
    requires Outside(env, b.ptr, size)
    ensures Entries(Overwritten(memory, b)[env := id], b.ptr, size) == EntriesOf(b, size)
  {
    EntriesAre(b.contents, 0, size, 0);
    SlotsMakeEntries(Overwritten(memory, b)[env := id], b.ptr, size, 0, EntriesOf(b, size));
  }

  /**
   * A full table that grows into a block with a free slot: saveSetjmp calls itself exactly once,
   * which uses up two ids; the new table holds what the block held and the new entry, so of the
   * earlier entries only those survive that the block happens to hold.
   */
  lemma GrowthForgets(s: Machine, env: nat, jumpLabel: int, table: nat, size: nat, blocks: seq<Block>)
    requires env < |s.memory| && Holds(s.memory, table, size) && Outside(env, table, size)
    requires Suitable(|s.memory|, env, size, blocks) && blocks != []
    requires |Entries(s.memory, table, size)| == size
    requires |EntriesOf(blocks[0], 2 * size)| < 2 * size
    ensures var r := Save(s, env, jumpLabel, table, size, blocks);
            && r.Some? && r.value.table == blocks[0].ptr
            && var t := r.value.machine;
               && t.setjmpId == s.setjmpId + 2 && t.tempRet0 == 2 * size
               && t.memory[env] == ToUint32(s.setjmpId + 2)
               && Holds(t.memory, blocks[0].ptr, 2 * size)
               && Entries(t.memory, blocks[0].ptr, 2 * size) == EntriesOf(blocks[0], 2 * size)
                    + (if ToUint32(t.setjmpId) == 0 then [] else [Entry(ToUint32(t.setjmpId), ToUint32(jumpLabel))])
  {
    var b, id := blocks[0], s.setjmpId + 1;
    var marked := Machine(s.memory[env := ToUint32(id)], id, s.tempRet0);
    SameSlotsSameEntries(s.memory, marked.memory, table, size);
    assert Save(s, env, jumpLabel, table, size, blocks) == Grown(marked, env, jumpLabel, size, blocks);
    var grown := marked.(memory := Overwritten(marked.memory, b));
    BlockEntries(marked.memory, b, 2 * size, env, grown.memory[env]);
    assert grown.memory[env := grown.memory[env]] == grown.memory;
    SaveAppends(grown, env, jumpLabel, b.ptr, 2 * size, blocks[1..]);
  }

  lemma SameButLast<T>(a: seq<T>, b: seq<T>, x: T)
    ensures a + [x] == b + [x] <==> a == b
  {
    if a + [x] == b + [x] {
      assert a == (a + [x])[..|a|] && b == (b + [x])[..|b|];
    }
  }

  /** The earlier entries survive the growth if and only if the new block happens to hold just them. */
  lemma GrowthKeepsByChance(s: Machine, env: nat, jumpLabel: int, table: nat, size: nat, blocks: seq<Block>)
    requires env < |s.memory| && Holds(s.memory, table, size) && Outside(env, table, size)
    requires Suitable(|s.memory|, env, size, blocks) && blocks != []
    requires |Entries(s.memory, table, size)| == size
    requires |EntriesOf(blocks[0], 2 * size)| < 2 * size
    requires ToUint32(s.setjmpId + 2) != 0
    ensures var r := Save(s, env, jumpLabel, table, size, blocks);
            && r.Some? && Holds(r.value.machine.memory, blocks[0].ptr, 2 * size)
            && (Entries(r.value.machine.memory, blocks[0].ptr, 2 * size)
                == Entries(s.memory, table, size) + [Entry(ToUint32(s.setjmpId + 2), ToUint32(jumpLabel))]
                <==> EntriesOf(blocks[0], 2 * size) == Entries(s.memory, table, size))
  {
    GrowthForgets(s, env, jumpLabel, table, size, blocks);
    SameButLast(EntriesOf(blocks[0], 2 * size), Entries(s.memory, table, size),
                Entry(ToUint32(s.setjmpId + 2), ToUint32(jumpLabel)));
  }

  /** Into a zero-filled block, the new id maps to its label and every other id is forgotten. */
  lemma GrowthIntoZeros(s: Machine, env: nat, jumpLabel: int, table: nat, size: nat, blocks: seq<Block>, id: int)
    requires env < |s.memory| && Holds(s.memory, table, size) && Outside(env, table, size) && size > 0
    requires Suitable(|s.memory|, env, size, blocks) && blocks != []
    requires |Entries(s.memory, table, size)| == size
    requires forall k :: 0 <= k < |blocks[0].contents| ==> blocks[0].contents[k] == 0
    requires s.setjmpId + 2 < TWO_32
    ensures var r := Save(s, env, jumpLabel, table, size, blocks);
            && r.Some? && r.value.machine.tempRet0 == 2 * size
            && Holds(r.value.machine.memory, r.value.table, 2 * size)
            && Lookup(Entries(r.value.machine.memory, r.value.table, 2 * size), id)
               == if id == s.setjmpId + 2 then ToUint32(jumpLabel) else 0
  {
    assert EntriesOf(blocks[0], 2 * size) == [];
    GrowthForgets(s, env, jumpLabel, table, size, blocks);
    var es := [Entry(ToUint32(s.setjmpId + 2), ToUint32(jumpLabel))];
    assert [] + es == es;
    assert es[1..] == [];
  }

  /** How often the table is doubled before a block has a free slot; None if that never happens. */
  function Doublings(length: nat, env: nat, size: nat, blocks: seq<Block>): (r: Option<nat>)
    requires Suitable(length, env, size, blocks)
    ensures r.Some? ==> r.value > 0 && blocks != []
    ensures r.Some? ==> (r.value == 1 <==> |EntriesOf(blocks[0], 2 * size)| < 2 * size)
    decreases |blocks|
  {
    if blocks == [] then None
    else if |EntriesOf(blocks[0], 2 * size)| < 2 * size then Some(1)
    else match Doublings(length, env, 2 * size, blocks[1..]) case None => None case Some(n) => Some(n + 1)
  }

  function Power2(n: nat): nat {
    if n == 0 then 1 else 2 * Power2(n - 1)
  }

  /** Growing once: the call made from there either fills the new block or grows again. */
  lemma GrownOnce(s: Machine, env: nat, jumpLabel: int, size: nat, blocks: seq<Block>)
    requires env < |s.memory| && Suitable(|s.memory|, env, size, blocks) && blocks != []
    ensures var b, id := blocks[0], s.setjmpId + 1;
            var again := Machine(Overwritten(s.memory, b)[env := ToUint32(id)], id, s.tempRet0);
            var r := Grown(s, env, jumpLabel, size, blocks);
            if |EntriesOf(b, 2 * size)| < 2 * size then
              r.Some? && r.value.table == b.ptr && r.value.machine.tempRet0 == 2 * size
            else
              match Grown(again, env, jumpLabel, 2 * size, blocks[1..])
              case None => r == None
              case Some(t) => r.Some? && r.value.table == t.table && r.value.machine.tempRet0 == 2 * size
  {
    BlockEntries(s.memory, blocks[0], 2 * size, env, ToUint32(s.setjmpId + 1));
  }

  lemma PowerDoubles(n: nat, size: nat)
    ensures Power2(n) * (2 * size) == Power2(n + 1) * size
  {
    var p := Power2(n);
    assert Power2(n + 1) == 2 * p;
    assert p * (2 * size) == (2 * p) * size;
  }

  /**
   * The size left in tempRet0 is that of the first doubling, while the table returned has been
   * doubled as often as blocks came back full; an empty table never gets a free slot.
   */
  lemma {:induction false} GrownSize(s: Machine, env: nat, jumpLabel: int, size: nat, blocks: seq<Block>)
    requires env < |s.memory| && Suitable(|s.memory|, env, size, blocks)
    ensures var r := Grown(s, env, jumpLabel, size, blocks);
            match Doublings(|s.memory|, env, size, blocks)
            case None => r == None
            case Some(n) =>
              && r.Some? && r.value.machine.tempRet0 == 2 * size
              && 0 < n <= |blocks| && r.value.table == blocks[n - 1].ptr
              && |blocks[n - 1].contents| == 2 * (Power2(n) * size + 1)
    decreases |blocks|
  {
    if blocks != [] {
      GrownOnce(s, env, jumpLabel, size, blocks);
      if |EntriesOf(blocks[0], 2 * size)| < 2 * size {
        PowerDoubles(0, size);
      } else {
        var id := s.setjmpId + 1;
        var again := Machine(Overwritten(s.memory, blocks[0])[env := ToUint32(id)], id, s.tempRet0);
        GrownSize(again, env, jumpLabel, 2 * size, blocks[1..]);
        var d := Doublings(|s.memory|, env, 2 * size, blocks[1..]);
        if d.Some? {
          PowerDoubles(d.value, size);
        }
      }
    }
  }

  /** saveSetjmp reports the size of the table it returns if and only if it grows the table at most once. */
  lemma ReportedSizeIsTableSize(s: Machine, env: nat, jumpLabel: int, size: nat, blocks: seq<Block>)
    requires env < |s.memory| && size > 0 && Suitable(|s.memory|, env, size, blocks)
    requires Doublings(|s.memory|, env, size, blocks).Some?
    ensures var n := Doublings(|s.memory|, env, size, blocks).value;
            var r := Grown(s, env, jumpLabel, size, blocks);
            && r.Some?
            && (r.value.machine.tempRet0 == Power2(n) * size <==> |EntriesOf(blocks[0], 2 * size)| < 2 * size)
  {
    GrownSize(s, env, jumpLabel, size, blocks);
    TwiceOnlyOnce(Doublings(|s.memory|, env, size, blocks).value, size);
  }

  /** A table of one slot that is doubled twice, because the first new block comes back full: 2 is reported for 4. */
  lemma ReportedSizeIsWrong(s: Machine, jumpLabel: int)
    requires |s.memory| >= 17
    ensures var blocks := [Block(0, [1, 7, 1, 7, 1, 7]), Block(6, [0, 0, 0, 0, 0, 0, 0, 0, 0, 0])];
            && Suitable(|s.memory|, 16, 1, blocks) && Doublings(|s.memory|, 16, 1, blocks) == Some(2)
            && var r := Grown(s, 16, jumpLabel, 1, blocks);
               r.Some? && r.value.machine.tempRet0 == 2 && Power2(2) * 1 == 4
  {
    var full, free := Block(0, [1, 7, 1, 7, 1, 7]), Block(6, [0, 0, 0, 0, 0, 0, 0, 0, 0, 0]);
    assert [full, free][1..] == [free] && [free][1..] == [];
    assert Suitable(|s.memory|, 16, 2, [free]);
    SlotsMakeEntries(full.contents, 0, 2, 0, [Entry(1, 7), Entry(1, 7)]);
    SlotsMakeEntries(free.contents, 0, 4, 0, []);
    assert Doublings(|s.memory|, 16, 2, [free]) == Some(1);
    GrownSize(s, 16, jumpLabel, 1, [full, free]);
  }

  lemma {:induction false} TwiceOnlyOnce(n: nat, size: nat)
    requires n > 0 && size > 0
    ensures Power2(n) * size >= 2 * size
    ensures Power2(n) * size == 2 * size <==> n == 1
  {
    PowerDoubles(n - 1, size);
    if n > 1 {
      TwiceOnlyOnce(n - 1, 2 * size);
    }
  }

  /** With size 0, saveSetjmp goes on asking for blocks without end. */
  lemma {:induction false} SizeZeroNeverReturns(s: Machine, env: nat, jumpLabel: int, table: nat, blocks: seq<Block>)
    requires env < |s.memory| && table <= |s.memory| && Suitable(|s.memory|, env, 0, blocks)
    ensures Save(s, env, jumpLabel, table, 0, blocks) == None
    decreases |blocks|
  {
    if blocks != [] {
      var id := s.setjmpId + 1;
      var m := Overwritten(s.memory[env := ToUint32(id)], blocks[0]);
      SizeZeroNeverReturns(Machine(m, id, s.tempRet0), env, jumpLabel, blocks[0].ptr, blocks[1..]);
    }
  }

  // ------------------------------------------------------ the C code that was ported

  /** realloc keeps what the old block held, one slot more than size; behind it comes the rest. */
  function Reallocated(memory: seq<Word>, table: nat, size: nat, b: Block): (r: seq<Word>)
    requires table + 2 * (size + 1) <= |memory| && |b.contents| >= 2 * (size + 1)
    requires b.ptr + |b.contents| <= |memory|
    ensures |r| == |memory|
  {
    seq(|memory|, k requires 0 <= k < |memory| =>
      if b.ptr <= k < b.ptr + 2 * (size + 1) then memory[table + (k - b.ptr)]
      else if b.ptr <= k < b.ptr + |b.contents| then b.contents[k - b.ptr]
      else memory[k])
  }

  /** In C the slot behind the last one exists and is prepared as well. */
  function FilledC(memory: seq<Word>, table: nat, size: nat, i: nat, id: Word, jumpLabel: Word): (r: seq<Word>)
    requires table + 2 * (size + 1) <= |memory| && i < size
    ensures |r| == |memory|
  {
    memory[table + 2 * i := id][table + 2 * i + 1 := jumpLabel][table + 2 * (i + 1) := 0]
  }

  function SaveC(s: Machine, env: nat, jumpLabel: int, table: nat, size: nat, blocks: seq<Block>): (r: Option<Saved>)
    requires env < |s.memory| && table + 2 * (size + 1) <= |s.memory|
    requires Suitable(|s.memory|, env, size, blocks)
    decreases |blocks|
  {
    var id := s.setjmpId + 1;
    var m := s.memory[env := ToUint32(id)];
    var i := |Entries(m, table, size)|;
    if i < size then Some(Saved(Machine(FilledC(m, table, size, i, ToUint32(id), ToUint32(jumpLabel)), id, size), table))
    else if blocks == [] then None
    else
      var t := Machine(Reallocated(m, table, size, blocks[0]), id, s.tempRet0);
      match SaveC(t, env, jumpLabel, blocks[0].ptr, 2 * size, blocks[1..])
      case None => None
      case Some(r) => Some(r.(machine := r.machine.(tempRet0 := 2 * size)))
  }

  lemma ReallocKeepsEntries(memory: seq<Word>, table: nat, size: nat, b: Block)
    requires table + 2 * (size + 1) <= |memory| && size > 0 && |b.contents| == 2 * (2 * size + 1)
    requires b.ptr + |b.contents| <= |memory|
    requires |Entries(memory, table, size)| == size && memory[table + 2 * size] == 0
    ensures Entries(Reallocated(memory, table, size, b), b.ptr, 2 * size) == Entries(memory, table, size)
  {
    var r := Reallocated(memory, table, size, b);
    EntriesAre(memory, table, size, 0);
    SlotsMakeEntries(r, b.ptr, 2 * size, 0, Entries(memory, table, size));
  }

  lemma FillingAppendsC(memory: seq<Word>, table: nat, size: nat, id: Word, jumpLabel: Word)
    requires table + 2 * (size + 1) <= |memory| && |Entries(memory, table, size)| < size && id != 0
    ensures var n := |Entries(memory, table, size)|;
            Entries(FilledC(memory, table, size, n, id, jumpLabel), table, size)
            == Entries(memory, table, size) + [Entry(id, jumpLabel)]
  {
    var n := |Entries(memory, table, size)|;
    FillingAppends(memory, table, size, id, jumpLabel);
    if n + 1 == size {
      SameSlotsSameEntries(Filled(memory, table, size, n, id, jumpLabel),
                           FilledC(memory, table, size, n, id, jumpLabel), table, size);
    }
  }

  /** The memory with the id at env and the table moved to the block. */
  function MovedC(s: Machine, env: nat, table: nat, size: nat, b: Block): (r: seq<Word>)
    requires env < |s.memory| && table + 2 * (size + 1) <= |s.memory|
    requires |b.contents| >= 2 * (size + 1) && b.ptr + |b.contents| <= |s.memory|
    ensures |r| == |s.memory|
  {
    Reallocated(s.memory[env := ToUint32(s.setjmpId + 1)], table, size, b)
  }

  lemma MovedKeepsEntries(s: Machine, env: nat, table: nat, size: nat, b: Block)
    requires env < |s.memory| && table + 2 * (size + 1) <= |s.memory| && Outside(env, table, size + 1)
    requires size > 0 && |b.contents| == 2 * (2 * size + 1) && b.ptr + |b.contents| <= |s.memory|
    requires |Entries(s.memory, table, size)| == size && s.memory[table + 2 * size] == 0
    ensures |Entries(s.memory[env := ToUint32(s.setjmpId + 1)], table, size)| == size
    ensures Entries(MovedC(s, env, table, size, b), b.ptr, 2 * size) == Entries(s.memory, table, size)
  {
    var m := s.memory[env := ToUint32(s.setjmpId + 1)];
    SameSlotsSameEntries(s.memory, m, table, size);
    ReallocKeepsEntries(m, table, size, b);
  }

  /** A save into a table with a free slot behind its entries. */
  lemma SaveCAppends(s: Machine, env: nat, jumpLabel: int, table: nat, size: nat, blocks: seq<Block>)
    requires env < |s.memory| && table + 2 * (size + 1) <= |s.memory| && Outside(env, table, size)
    requires Suitable(|s.memory|, env, size, blocks)
    requires |Entries(s.memory, table, size)| < size && s.setjmpId + 1 < TWO_32
    ensures var r := SaveC(s, env, jumpLabel, table, size, blocks);
            && r.Some? && r.value.table == table && |r.value.machine.memory| == |s.memory|
            && Entries(r.value.machine.memory, table, size)
               == Entries(s.memory, table, size) + [Entry(ToUint32(s.setjmpId + 1), ToUint32(jumpLabel))]
  {
    var id := ToUint32(s.setjmpId + 1);
    SameSlotsSameEntries(s.memory, s.memory[env := id], table, size);
    FillingAppendsC(s.memory[env := id], table, size, id, ToUint32(jumpLabel));
  }

  /** With realloc, a full table that ends in its zero id keeps every entry when it grows. */
  lemma GrowthKeepsInC(s: Machine, env: nat, jumpLabel: int, table: nat, size: nat, blocks: seq<Block>)
    requires env < |s.memory| && table + 2 * (size + 1) <= |s.memory| && Outside(env, table, size + 1)
    requires Suitable(|s.memory|, env, size, blocks) && blocks != [] && size > 0
    requires |Entries(s.memory, table, size)| == size && s.memory[table + 2 * size] == 0
    requires s.setjmpId + 2 < TWO_32
    ensures var r := SaveC(s, env, jumpLabel, table, size, blocks);
            && r.Some? && r.value.table == blocks[0].ptr && r.value.machine.tempRet0 == 2 * size
            && Holds(r.value.machine.memory, blocks[0].ptr, 2 * size)
            && Entries(r.value.machine.memory, blocks[0].ptr, 2 * size)
               == Entries(s.memory, table, size) + [Entry(ToUint32(s.setjmpId + 2), ToUint32(jumpLabel))]
  {
    var b := blocks[0];
    MovedKeepsEntries(s, env, table, size, b);
    var t := Machine(MovedC(s, env, table, size, b), s.setjmpId + 1, s.tempRet0);
    SaveCAppends(t, env, jumpLabel, b.ptr, 2 * size, blocks[1..]);
  }
}
