// When deleting GL objects by name succeeds, what it does, and names over a run of calls.
module GlDeletes {
  import opened GlNames
  import opened Words
  import opened Wrappers

  // ------------------------------------------------------------------- one delete

  /** The names at the places from i to k. */
  function NamesAt(mem: seq<Byte>, ptr: int, i: nat, k: nat): set<nat> {
    set j | i <= j < k && NameAt(mem, ptr, j).Some? :: NameAt(mem, ptr, j).value
  }

  /** The last place before which all names are live. */
  lemma {:induction false} StopsAt(mem: seq<Byte>, ptr: int, n: int, i: nat, j: nat, objects: map<nat, Handle>)
    returns (k: nat)
    requires i <= j && (j == i || j <= n) && AllLive(mem, ptr, i, j, objects)
    ensures j <= k && (k == i || k <= n) && AllLive(mem, ptr, i, k, objects)
    ensures k < n ==> !IsLive(mem, ptr, i, k, objects)
    decreases n - j
  {
    k := j;
    if j < n && IsLive(mem, ptr, i, j, objects) {
      k := StopsAt(mem, ptr, n, i, j + 1, objects);
    }
  }

  /** How a delete ends that stops at place k. */
  function EndAt(mem: seq<Byte>, ptr: int, n: int, k: nat): Result<int, Error> {
    if k >= n then Ok(n) else if NameAt(mem, ptr, k) == None then Err(OutOfRange) else Err(NotFound)
  }

  /** Are the objects that the names at the places from i on had, in their order, behind the ones freed before? */
  predicate FreesInOrder(
    mem: seq<Byte>, ptr: int, i: nat, k: nat, objects: map<nat, Handle>, before: seq<Handle>, after: seq<Handle>)
    requires i <= k
  {
    && |after| == |before| + (k - i) && before <= after
    && forall j :: i <= j < k && IsLive(mem, ptr, i, j, objects) ==>
         after[|before| + (j - i)] == objects[NameAt(mem, ptr, j).value]
  }

  lemma NamesSplit(mem: seq<Byte>, ptr: int, i: nat, k: nat, id: nat)
    requires i < k && NameAt(mem, ptr, i) == Some(id)
    ensures NamesAt(mem, ptr, i, k) == {id} + NamesAt(mem, ptr, i + 1, k)
  {
  }

  lemma LessIsLess(objects: map<nat, Handle>, id: nat, names: set<nat>)
    ensures objects - {id} - names == objects - ({id} + names)
  {
  }

  lemma FreesFirst(
    mem: seq<Byte>, ptr: int, i: nat, k: nat, objects: map<nat, Handle>, id: nat, before: seq<Handle>, after: seq<Handle>)
    requires i < k && NameAt(mem, ptr, i) == Some(id) && id in objects && AllLive(mem, ptr, i, k, objects)
    requires FreesInOrder(mem, ptr, i + 1, k, objects - {id}, before + [objects[id]], after)
    ensures FreesInOrder(mem, ptr, i, k, objects, before, after)
  {
    assert after[|before|] == (before + [objects[id]])[|before|];
    forall j | i < j < k && IsLive(mem, ptr, i, j, objects)
      ensures after[|before| + (j - i)] == objects[NameAt(mem, ptr, j).value]
    {
      assert IsLive(mem, ptr, i + 1, j, objects - {id});
    }
  }

  /**
   * A delete that stops at place k takes exactly the names before k from the table and frees
   * their objects in order. It stops where the array ends, where memory ends, or at the first
   * name that is 0, unknown, or one it has deleted already.
   */
  lemma {:induction false} DeletedUpTo(
    mem: seq<Byte>, ptr: int, n: int, i: nat, k: nat, objects: map<nat, Handle>, freed: seq<Handle>)
    requires i <= k && (k == i || k <= n) && AllLive(mem, ptr, i, k, objects)
    requires k < n ==> !IsLive(mem, ptr, i, k, objects)
    ensures var d := Deleted(mem, ptr, n, i, objects, freed);
            && d.objects == objects - NamesAt(mem, ptr, i, k)
            && FreesInOrder(mem, ptr, i, k, objects, freed, d.freed)
            && d.end == EndAt(mem, ptr, n, k)
    decreases k - i
  {
    if i == k {
      assert NamesAt(mem, ptr, i, i) == {};
    } else {
      assert IsLive(mem, ptr, i, i, objects);
      var id := NameAt(mem, ptr, i).value;
      RestIsLive(mem, ptr, i, k, objects, id);
      assert k < n ==> !IsLive(mem, ptr, i + 1, k, objects - {id});
      DeletedUpTo(mem, ptr, n, i + 1, k, objects - {id}, freed + [objects[id]]);
      NamesSplit(mem, ptr, i, k, id);
      LessIsLess(objects, id, NamesAt(mem, ptr, i + 1, k));
      FreesFirst(mem, ptr, i, k, objects, id, freed, Deleted(mem, ptr, n, i, objects, freed).freed);
    }
  }

  /** What any delete does, in terms of the place where it stops. */
  lemma DeletedIs(mem: seq<Byte>, ptr: int, n: int, objects: map<nat, Handle>) returns (k: nat)
    ensures k == 0 || k <= n
    ensures AllLive(mem, ptr, 0, k, objects) && (k < n ==> !IsLive(mem, ptr, 0, k, objects))
    ensures var d := Deleted(mem, ptr, n, 0, objects, []);
            && d.objects == objects - NamesAt(mem, ptr, 0, k)
            && FreesInOrder(mem, ptr, 0, k, objects, [], d.freed)
            && d.end == EndAt(mem, ptr, n, k)
  {
    k := StopsAt(mem, ptr, n, 0, 0, objects);
    DeletedUpTo(mem, ptr, n, 0, k, objects, []);
  }

  /** OpenGL: names of no object are ignored, 0 and repeated ones among them. */
  function GlDeleted(mem: seq<Byte>, ptr: int, n: nat, objects: map<nat, Handle>): map<nat, Handle> {
    objects - NamesAt(mem, ptr, 0, n)
  }

  /**
   * For an array in memory, a call does what OpenGL prescribes and returns if and only if its
   * names are those of objects, and pairwise different; any other call ends in an error.
   */
  lemma MeetsOpenGl(mem: seq<Byte>, ptr: nat, n: nat, objects: map<nat, Handle>)
    requires ptr + 4 * n <= |mem|
    ensures var d := Deleted(mem, ptr, n, 0, objects, []);
            && (AllLive(mem, ptr, 0, n, objects) ==> d.end == Ok(n) && d.objects == GlDeleted(mem, ptr, n, objects))
            && (!AllLive(mem, ptr, 0, n, objects) ==> d.end == Err(NotFound))
  {
    DeleteSucceeds(mem, ptr, n, 0, objects, []);
    var k := DeletedIs(mem, ptr, n, objects);
    if AllLive(mem, ptr, 0, n, objects) {
      assert k == n;
    } else {
      assert Fits(ptr, k, |mem|);
    }
  }

  /** OpenGL ignores the name 0; here the call ends in an error, whatever the table. */
  lemma ZeroIsRefused(t: Table, mem: seq<Byte>, ptr: nat)
    requires ValidTable(t) && ptr + 4 <= |mem| && Get32(mem, ptr) == 0
    ensures Deleted(mem, ptr, 1, 0, t.objects, []) == Deletion(t.objects, [], Err(NotFound))
    ensures GlDeleted(mem, ptr, 1, t.objects) == t.objects
  {
    assert NameAt(mem, ptr, 0) == Some(0);
    assert NamesAt(mem, ptr, 0, 1) == {0};
  }

  /** OpenGL ignores a name that comes twice; here the call ends in an error after freeing the object once. */
  lemma RepeatedIsRefused(t: Table, mem: seq<Byte>, ptr: nat, id: nat)
    requires ValidTable(t) && ptr + 8 <= |mem| && id in t.objects
    requires Get32(mem, ptr) == id && Get32(mem, ptr + 4) == id
    ensures Deleted(mem, ptr, 2, 0, t.objects, []) == Deletion(t.objects - {id}, [t.objects[id]], Err(NotFound))
    ensures GlDeleted(mem, ptr, 2, t.objects) == t.objects - {id}
  {
    assert Fits(ptr, 0, |mem|) && Fits(ptr, 1, |mem|);
    assert NameAt(mem, ptr, 0) == NameAt(mem, ptr, 1) == Some(id);
    assert NamesAt(mem, ptr, 0, 2) == {id};
    assert Deleted(mem, ptr, 2, 0, t.objects, [])
        == Deleted(mem, ptr, 2, 1, t.objects - {id}, [] + [t.objects[id]]);
  }

  // --------------------------------------------------------------- names over a run

  /** A call, with the memory as the program has made it by then. */
  datatype Call =
    | Gen(n: int, ptr: int, mem: seq<Byte>, created: Creation)
    | Delete(n: int, ptr: int, mem: seq<Byte>)

  function TableAfter(t: Table, call: Call): Table {
    match call
    case Gen(n, ptr, mem, created) =>
      Made(t, created, Entries(created, n, Rounds(created, n, ptr, |mem|, 0)))
    case Delete(n, ptr, mem) => t.(objects := Deleted(mem, ptr, n, 0, t.objects, []).objects)
  }

  function NamesFrom(first: nat, k: nat): (r: seq<nat>)
    ensures |r| == k && forall i :: 0 <= i < k ==> r[i] == first + i
  {
    if k == 0 then [] else NamesFrom(first, k - 1) + [first + k - 1]
  }

  /** The names that a call hands out, before they are cut to 32 bits. */
  function Given(t: Table, call: Call): seq<nat> {
    match call
    case Gen(n, ptr, mem, created) => NamesFrom(t.next, Rounds(created, n, ptr, |mem|, 0))
    case Delete(_, _, _) => []
  }

  /** The calls of the model are those of the class: a Gen leaves this table and writes these names. */
  lemma GenIsCall(t: Table, call: Call, now: Table, nowMem: seq<Byte>, r: Result<int, Error>, i: nat)
    requires call.Gen? && Generated(t, call.mem, call.created, call.n, call.ptr, now, nowMem, r)
    ensures now == TableAfter(t, call)
    ensures i < |Given(t, call)| ==> NameAt(nowMem, call.ptr, i) == Some(ToUint32(Given(t, call)[i]))
  {
    var k := Rounds(call.created, call.n, call.ptr, |call.mem|, 0);
    if i < k {
      NameIsRead(call.mem, call.ptr, t.next, k, i);
    }
  }

  function Run(t: Table, calls: seq<Call>): Table
    decreases |calls|
  {
    if calls == [] then t else Run(TableAfter(t, calls[0]), calls[1..])
  }

  function AllGiven(t: Table, calls: seq<Call>): seq<nat>
    decreases |calls|
  {
    if calls == [] then [] else Given(t, calls[0]) + AllGiven(TableAfter(t, calls[0]), calls[1..])
  }

  lemma CallKeepsTable(t: Table, call: Call)
    requires ValidTable(t)
    ensures ValidTable(TableAfter(t, call)) && TableAfter(t, call).next >= t.next + |Given(t, call)|
    ensures forall id :: id in TableAfter(t, call).objects ==> id in t.objects || id >= t.next
  {
    match call
    case Gen(n, ptr, mem, created) =>
      MadeIs(t, created, Entries(created, n, Rounds(created, n, ptr, |mem|, 0)));
    case Delete(n, ptr, mem) =>
      var k := DeletedIs(mem, ptr, n, t.objects);
  }

  /** Are the names increasing, from low on and below high? */
  predicate Rising(names: seq<nat>, low: nat, high: nat) {
    && (forall i :: 0 <= i < |names| ==> low <= names[i] < high)
    && (forall i, j :: 0 <= i < j < |names| ==> names[i] < names[j])
  }

  lemma RisingOn(a: seq<nat>, b: seq<nat>, low: nat, middle: nat, high: nat)
    requires Rising(a, low, middle) && Rising(b, middle, high) && low <= middle <= high
    ensures Rising(a + b, low, high)
  {
  }

  /** Over a run the names handed out rise, whatever is deleted in between. */
  lemma {:induction false} NamesRise(t: Table, calls: seq<Call>)
    requires ValidTable(t)
    ensures ValidTable(Run(t, calls)) && Run(t, calls).next >= t.next
    ensures Rising(AllGiven(t, calls), t.next, Run(t, calls).next)
    decreases |calls|
  {
    if calls != [] {
      var u := TableAfter(t, calls[0]);
      CallKeepsTable(t, calls[0]);
      NamesRise(u, calls[1..]);
      assert Rising(Given(t, calls[0]), t.next, u.next);
      RisingOn(Given(t, calls[0]), AllGiven(u, calls[1..]), t.next, u.next, Run(t, calls).next);
    }
  }

  /**
   * No name is handed out twice as long as the counter is below 2 to the 32, and 0 never is:
   * what a program finds in its arrays over a whole run, names deleted in between included.
   */
  lemma NoNameComesTwice(calls: seq<Call>, i: nat, j: nat)
    requires i <= j < |AllGiven(Table(1, map[]), calls)|
    ensures var names := AllGiven(Table(1, map[]), calls);
            names[j] < TWO_32 ==>
              0 < ToUint32(names[i]) && (i < j ==> ToUint32(names[i]) < ToUint32(names[j]))
  {
    var names := AllGiven(Table(1, map[]), calls);
    NamesRise(Table(1, map[]), calls);
    if names[j] < TWO_32 {
      SmallIsWord(names[i]);
      SmallIsWord(names[j]);
    }
  }

  lemma SmallIsWord(n: nat)
    requires n < TWO_32
    ensures ToUint32(n) == n
  {
  }

  /** The 2 to the 32-th name is written as 0. */
  lemma NamesWrap(t: Table, call: Call)
    requires t.next == TWO_32 && Given(t, call) != []
    ensures ToUint32(Given(t, call)[0]) == 0
  {
  }

  /** The name of a deleted object is that of no object in any later run. */
  lemma {:induction false} DeletedStaysAway(t: Table, calls: seq<Call>, id: nat)
    requires ValidTable(t) && id < t.next && id !in t.objects
    ensures id !in Run(t, calls).objects
    decreases |calls|
  {
    if calls != [] {
      CallKeepsTable(t, calls[0]);
      DeletedStaysAway(TableAfter(t, calls[0]), calls[1..], id);
    }
  }
}
