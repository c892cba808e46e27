// What saveSetjmp leaves alone in memory, however often the table grows.
module SetJmpWrites {
  import opened SetJmp
  import opened Words
  import opened Wrappers

  predicate InBlock(k: nat, b: Block) {
    b.ptr <= k < b.ptr + |b.contents|
  }

  /** Is the word neither the one at env, nor in the table, nor in a block that malloc may give? */
  predicate Elsewhere(k: nat, env: nat, table: nat, size: nat, blocks: seq<Block>) {
    k != env && Outside(k, table, size) && forall i :: 0 <= i < |blocks| ==> !InBlock(k, blocks[i])
  }

  lemma NewTableInBlock(k: nat, env: nat, table: nat, size: nat, length: nat, blocks: seq<Block>)
    requires Suitable(length, env, size, blocks) && blocks != [] && Elsewhere(k, env, table, size, blocks)
    ensures Elsewhere(k, env, blocks[0].ptr, 2 * size, blocks[1..]) && !InBlock(k, blocks[0])
  {
    assert !InBlock(k, blocks[0]);
    forall i | 0 <= i < |blocks[1..]|
      ensures !InBlock(k, blocks[1..][i])
    {
      assert !InBlock(k, blocks[i + 1]);
    }
  }

  lemma BlockLeavesRest(memory: seq<Word>, b: Block, k: nat)
    requires b.ptr + |b.contents| <= |memory| && k < |memory| && !InBlock(k, b)
    ensures Overwritten(memory, b)[k] == memory[k]
  {
  }

  lemma FillingLeavesRest(memory: seq<Word>, table: nat, size: nat, i: nat, id: Word, jumpLabel: Word, k: nat)
    requires Holds(memory, table, size) && i < size && k < |memory| && Outside(k, table, size)
    ensures Filled(memory, table, size, i, id, jumpLabel)[k] == memory[k]
  {
  }

  /** A word outside env, the table and the blocks keeps its value, and env holds the last id given out. */
  lemma {:induction false} SaveLeavesRest(
    s: Machine, env: nat, jumpLabel: int, table: nat, size: nat, blocks: seq<Block>, k: nat)
    requires env < |s.memory| && Holds(s.memory, table, size) && Suitable(|s.memory|, env, size, blocks)
    requires k < |s.memory| && Elsewhere(k, env, table, size, blocks)
    ensures var r := Save(s, env, jumpLabel, table, size, blocks);
            r.Some? ==> |r.value.machine.memory| == |s.memory| && r.value.machine.memory[k] == s.memory[k]
    decreases |blocks|
  {
    var id := s.setjmpId + 1;
    var m := s.memory[env := ToUint32(id)];
    var i := |Entries(m, table, size)|;
    if i < size {
      FillingLeavesRest(m, table, size, i, ToUint32(id), ToUint32(jumpLabel), k);
    } else if blocks != [] {
      var b := blocks[0];
      NewTableInBlock(k, env, table, size, |s.memory|, blocks);
      BlockLeavesRest(m, b, k);
      SaveLeavesRest(Machine(Overwritten(m, b), id, s.tempRet0), env, jumpLabel, b.ptr, 2 * size, blocks[1..], k);
    }
  }

  /** The id that a save leaves at env is the last one that it has used up. */
  lemma {:induction false} SaveMarksEnv(s: Machine, env: nat, jumpLabel: int, table: nat, size: nat, blocks: seq<Block>)
    requires env < |s.memory| && Holds(s.memory, table, size) && Outside(env, table, size)
    requires Suitable(|s.memory|, env, size, blocks)
    ensures var r := Save(s, env, jumpLabel, table, size, blocks);
            r.Some? ==>
              && |r.value.machine.memory| == |s.memory|
              && r.value.machine.setjmpId > s.setjmpId
              && r.value.machine.memory[env] == ToUint32(r.value.machine.setjmpId)
    decreases |blocks|
  {
    var id := s.setjmpId + 1;
    var m := s.memory[env := ToUint32(id)];
    var i := |Entries(m, table, size)|;
    if i < size {
      FillingLeavesRest(m, table, size, i, ToUint32(id), ToUint32(jumpLabel), env);
    } else if blocks != [] {
      var b := blocks[0];
      SaveMarksEnv(Machine(Overwritten(m, b), id, s.tempRet0), env, jumpLabel, b.ptr, 2 * size, blocks[1..]);
    }
  }
}
