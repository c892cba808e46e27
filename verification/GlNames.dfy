// Tables of GL object names, which are written to and read from little-endian memory.
module GlNames {
  import opened Words
  import opened Wrappers

  datatype Handle = Handle(index: int)

  datatype Error = CreateFailed | NotFound | OutOfRange | NoProgram

  // --------------------------------------------------------------------- memory

  /** May a word be read or written at the i-th place from ptr on? */
  predicate Fits(ptr: int, i: nat, size: nat) {
    0 <= ptr + 4 * i && ptr + 4 * i + 4 <= size
  }

  function Digits(v: nat, k: nat): (r: seq<Byte>)
    ensures |r| == k
  {
    if k == 0 then [] else [v % 0x100] + Digits(v / 0x100, k - 1)
  }

  function Value(bytes: seq<Byte>): nat {
    if bytes == [] then 0 else (bytes[0] as int) + 0x100 * Value(bytes[1..])
  }

  function Limit(k: nat): (l: nat)
    ensures l > 0
  {
    if k == 0 then 1 else 0x100 * Limit(k - 1)
  }

  lemma {:induction false} ValueOfDigits(v: nat, k: nat)
    ensures Value(Digits(v, k)) == v % Limit(k)
  {
    if k > 0 {
      ValueOfDigits(v / 0x100, k - 1);
      LowDigit(0x100, v / 0x100, Limit(k - 1), v % 0x100);
      assert Digits(v, k)[1..] == Digits(v / 0x100, k - 1);
    }
  }

  lemma {:induction false} ValueIsLimited(bytes: seq<Byte>)
    ensures Value(bytes) < Limit(|bytes|)
  {
    if bytes != [] {
      ValueIsLimited(bytes[1..]);
    }
  }

  lemma LimitOfWord()
    ensures Limit(4) == TWO_32
  {
    assert Limit(2) == 0x1_0000;
  }

  function Get32(mem: seq<Byte>, at: nat): nat
    requires at + 4 <= |mem|
  {
    Value(mem[at..at + 4])
  }

  /** Bytes are written one after the other. */
  function PutBytes(mem: seq<Byte>, at: nat, bytes: seq<Byte>): (r: seq<Byte>)
    requires at + |bytes| <= |mem|
    ensures |r| == |mem|
    decreases |bytes|
  {
    if bytes == [] then mem else PutBytes(mem[at := bytes[0]], at + 1, bytes[1..])
  }

  /** The memory with the bytes in place of what it held at their places. */
  function Overwritten(mem: seq<Byte>, at: nat, bytes: seq<Byte>): (r: seq<Byte>)
    requires at + |bytes| <= |mem|
    ensures |r| == |mem|
  {
    mem[..at] + bytes + mem[at + |bytes|..]
  }

  lemma OverwrittenNext(mem: seq<Byte>, at: nat, bytes: seq<Byte>, i: nat)
    requires i < |bytes| && at + |bytes| <= |mem|
    ensures Overwritten(mem, at, bytes[..i])[at + i := bytes[i]] == Overwritten(mem, at, bytes[..i + 1])
  {
  }

  lemma {:induction false} PutBytesIs(mem: seq<Byte>, at: nat, bytes: seq<Byte>)
    requires at + |bytes| <= |mem|
    ensures PutBytes(mem, at, bytes) == Overwritten(mem, at, bytes)
    decreases |bytes|
  {
    if bytes == [] {
      assert Overwritten(mem, at, []) == mem;
    } else {
      var next := mem[at := bytes[0]];
      PutBytesIs(next, at + 1, bytes[1..]);
      assert Overwritten(next, at + 1, bytes[1..]) == Overwritten(mem, at, bytes);
    }
  }

  function Put32(mem: seq<Byte>, at: nat, v: nat): (r: seq<Byte>)
    requires at + 4 <= |mem|
    ensures |r| == |mem|
  {
    PutBytes(mem, at, Digits(v, 4))
  }

  lemma NamesAre32Bits(mem: seq<Byte>, at: nat)
    requires at + 4 <= |mem|
    ensures Get32(mem, at) < TWO_32
  {
    ValueIsLimited(mem[at..at + 4]);
    LimitOfWord();
  }

  lemma WrittenIsRead(mem: seq<Byte>, at: nat, v: nat)
    requires at + 4 <= |mem|
    ensures Get32(Put32(mem, at, v), at) == v % TWO_32
  {
    PutBytesIs(mem, at, Digits(v, 4));
    assert Put32(mem, at, v)[at..at + 4] == Digits(v, 4);
    ValueOfDigits(v, 4);
    LimitOfWord();
  }

  lemma OthersStay(mem: seq<Byte>, at: nat, v: nat, other: nat)
    requires at + 4 <= |mem| && other + 4 <= |mem| && (other + 4 <= at || at + 4 <= other)
    ensures Get32(Put32(mem, at, v), other) == Get32(mem, other)
  {
    PutBytesIs(mem, at, Digits(v, 4));
    assert Put32(mem, at, v)[other..other + 4] == mem[other..other + 4];
  }

  method SetUint32(memory: array<Byte>, at: nat, v: nat)
    requires at + 4 <= memory.Length
    modifies memory
    ensures memory[..] == Put32(old(memory[..]), at, v)
  {
    var digits := Digits(v, 4);
    ghost var was := memory[..];
    for i := 0 to 4
      invariant memory[..] == Overwritten(was, at, digits[..i])
    {
      OverwrittenNext(was, at, digits, i);
      memory[at + i] := digits[i];
    }
    assert digits[..4] == digits;
    PutBytesIs(was, at, digits);
  }

  // ------------------------------------------------------------ making many names

  datatype Table = Table(next: nat, objects: map<nat, Handle>)

  predicate ValidTable(t: Table) {
    t.next >= 1 && forall id :: id in t.objects ==> 1 <= id < t.next
  }

  /** What the i-th call to create an object gives. */
  type Creation = nat -> Option<Handle>

  predicate AllMade(created: Creation, k: nat) {
    forall i :: 0 <= i < k ==> created(i).Some?
  }

  /** May k words in a row be read or written? */
  predicate AllFit(ptr: int, k: nat, size: nat) {
    k == 0 || (0 <= ptr && ptr + 4 * k <= size)
  }

  function Made(t: Table, created: Creation, k: nat): (r: Table)
    requires AllMade(created, k)
    ensures r.next == t.next + k
  {
    if k == 0 then t
    else
      var before := Made(t, created, k - 1);
      Table(before.next + 1, before.objects[before.next := created(k - 1).value])
  }

  /** The memory with k names in a row. */
  function Named(mem: seq<Byte>, ptr: int, first: nat, k: nat): (r: seq<Byte>)
    requires AllFit(ptr, k, |mem|)
    ensures |r| == |mem|
  {
    if k == 0 then mem else Put32(Named(mem, ptr, first, k - 1), ptr + 4 * (k - 1), first + k - 1)
  }

  /** The number of rounds, from the i-th on, that come to their end. */
  function Rounds(created: Creation, n: int, ptr: int, size: nat, i: nat): (k: nat)
    requires AllMade(created, i) && AllFit(ptr, i, size)
    ensures i <= k && (i <= n ==> k <= n)
    ensures AllMade(created, k) && AllFit(ptr, k, size)
    ensures k < n ==> created(k) == None || !Fits(ptr, k, size)
    decreases n - i
  {
    if i >= n || created(i) == None || !Fits(ptr, i, size) then i else Rounds(created, n, ptr, size, i + 1)
  }

  lemma {:induction false} RoundsAre(created: Creation, n: int, ptr: int, size: nat, i: nat, k: nat)
    requires i <= k && AllMade(created, k) && AllFit(ptr, k, size) && (k > 0 ==> k <= n)
    requires k < n ==> created(k) == None || !Fits(ptr, k, size)
    ensures AllMade(created, i) && Rounds(created, n, ptr, size, i) == k
    decreases k - i
  {
    if i < k {
      RoundsAre(created, n, ptr, size, i + 1, k);
    }
  }

  /** How the loop ends after k whole rounds. */
  function End(created: Creation, n: int, k: nat): Result<int, Error> {
    if k >= n then Ok(n) else if created(k) == None then Err(CreateFailed) else Err(OutOfRange)
  }

  /** An object that is made but whose name cannot be written is in the table all the same. */
  function Entries(created: Creation, n: int, k: nat): (m: nat)
    ensures m == k || (m == k + 1 && created(k).Some?)
  {
    if End(created, n, k) == Err(OutOfRange) then k + 1 else k
  }

  /** What remains, what WebGL was told to delete, and how the loop ends. */
  datatype Deletion = Deletion(objects: map<nat, Handle>, freed: seq<Handle>, end: Result<int, Error>)

  function Deleted(mem: seq<Byte>, ptr: int, n: int, i: nat, objects: map<nat, Handle>, freed: seq<Handle>): Deletion
    decreases n - i
  {
    if i >= n then Deletion(objects, freed, Ok(n))
    else if !Fits(ptr, i, |mem|) then Deletion(objects, freed, Err(OutOfRange))
    else
      var id := Get32(mem, ptr + 4 * i);
      if id !in objects then Deletion(objects, freed, Err(NotFound))
      else Deleted(mem, ptr, n, i + 1, objects - {id}, freed + [objects[id]])
  }

  /** The name at the j-th place of the array, if it can be read. */
  function NameAt(mem: seq<Byte>, ptr: int, j: nat): Option<nat> {
    if Fits(ptr, j, |mem|) then Some(Get32(mem, ptr + 4 * j)) else None
  }

  /** Is the name at the j-th place that of an object, and at none of the places from i to j? */
  predicate IsLive(mem: seq<Byte>, ptr: int, i: nat, j: nat, objects: map<nat, Handle>) {
    var name := NameAt(mem, ptr, j);
    && name.Some? && name.value in objects
    && forall l :: i <= l < j ==> NameAt(mem, ptr, l) != name
  }

  /** Are the names at the places from i to k those of objects, and pairwise different? */
  predicate AllLive(mem: seq<Byte>, ptr: int, i: nat, k: int, objects: map<nat, Handle>) {
    forall j :: i <= j < k ==> IsLive(mem, ptr, i, j, objects)
  }

  /** Without the first object, the rest of the places is live if and only if it was, and names it nowhere. */
  lemma RestIsLive(mem: seq<Byte>, ptr: int, i: nat, k: nat, objects: map<nat, Handle>, id: nat)
    requires i < k && NameAt(mem, ptr, i) == Some(id) && id in objects
    ensures AllLive(mem, ptr, i, k, objects) <==> AllLive(mem, ptr, i + 1, k, objects - {id})
  {
    forall j | i + 1 <= j < k
      ensures IsLive(mem, ptr, i, j, objects) <==> IsLive(mem, ptr, i + 1, j, objects - {id})
    {
    }
    assert IsLive(mem, ptr, i, i, objects);
    if AllLive(mem, ptr, i + 1, k, objects - {id}) {
      forall j | i <= j < k
        ensures IsLive(mem, ptr, i, j, objects)
      {
        assert j > i ==> IsLive(mem, ptr, i + 1, j, objects - {id});
      }
    } else {
      var j :| i + 1 <= j < k && !IsLive(mem, ptr, i + 1, j, objects - {id});
      assert !IsLive(mem, ptr, i, j, objects);
    }
  }

  /** A delete goes through if and only if its names are those of objects, and pairwise different. */
  lemma {:induction false} DeleteSucceeds(
    mem: seq<Byte>, ptr: int, n: int, i: nat, objects: map<nat, Handle>, freed: seq<Handle>)
    ensures Deleted(mem, ptr, n, i, objects, freed).end == Ok(n) <==> AllLive(mem, ptr, i, n, objects)
    decreases n - i
  {
    if i < n {
      var name := NameAt(mem, ptr, i);
      if name.Some? && name.value in objects {
        var id := name.value;
        DeleteSucceeds(mem, ptr, n, i + 1, objects - {id}, freed + [objects[id]]);
        RestIsLive(mem, ptr, i, n, objects, id);
      } else {
        assert !IsLive(mem, ptr, i, i, objects);
      }
    }
  }

  lemma NamedNext(mem: seq<Byte>, ptr: int, first: nat, k: nat)
    requires AllFit(ptr, k + 1, |mem|)
    ensures Named(mem, ptr, first, k + 1) == Put32(Named(mem, ptr, first, k), ptr + 4 * k, first + k)
  {
  }

  lemma {:induction false} MadeIsValid(t: Table, created: Creation, k: nat)
    requires ValidTable(t) && AllMade(created, k)
    ensures ValidTable(Made(t, created, k))
  {
    if k > 0 {
      MadeIsValid(t, created, k - 1);
    }
  }

  /** What the loop has done when it ends. */
  ghost predicate Generated(t: Table, mem: seq<Byte>, created: Creation, n: int, ptr: int,
                            now: Table, nowMem: seq<Byte>, r: Result<int, Error>)
  {
    var k := Rounds(created, n, ptr, |mem|, 0);
    && r == End(created, n, k)
    && now == Made(t, created, Entries(created, n, k))
    && nowMem == Named(mem, ptr, t.next, k)
  }

  lemma EndsAt(t: Table, mem: seq<Byte>, created: Creation, n: int, ptr: int, k: nat, e: nat,
               now: Table, nowMem: seq<Byte>, r: Result<int, Error>)
    requires ValidTable(t) && AllMade(created, k) && AllFit(ptr, k, |mem|) && (k > 0 ==> k <= n)
    requires k < n ==> created(k) == None || !Fits(ptr, k, |mem|)
    requires r == End(created, n, k) && e == Entries(created, n, k)
    requires now == Made(t, created, e) && nowMem == Named(mem, ptr, t.next, k)
    ensures ValidTable(now) && Generated(t, mem, created, n, ptr, now, nowMem, r)
  {
    RoundsAre(created, n, ptr, |mem|, 0, k);
    MadeIsValid(t, created, e);
  }

  lemma MadeNext(t: Table, created: Creation, k: nat)
    requires AllMade(created, k + 1)
    ensures Made(t, created, k + 1)
         == Table(t.next + k + 1, Made(t, created, k).objects[t.next + k := created(k).value])
  {
  }

  // --------------------------------------------------------------------- the table

  /** One of the tables of buffers, textures and the like, with the name it gives next. */
  class NameTable {
    var next: nat
    var objects: map<nat, Handle>

    ghost predicate Valid()
      reads this
    {
      ValidTable(Contents())
    }

    ghost function Contents(): Table
      reads this
    {
      Table(next, objects)
    }

    constructor ()
      ensures Valid() && Contents() == Table(1, map[])
    {
      next := 1;
      objects := map[];
    }

    /** The end of one round: the object enters the table, and then its name is written, if it can be. */
    method Enter(made: Handle, i: nat, ptr: int, memory: array<Byte>) returns (written: bool)
      modifies this, memory
      ensures next == old(next) + 1 && objects == old(objects)[old(next) := made]
      ensures written == Fits(ptr, i, memory.Length)
      ensures memory[..] == if written then Put32(old(memory[..]), ptr + 4 * i, old(next)) else old(memory[..])
    {
      var id := next;
      next := next + 1;
      objects := objects[id := made];
      written := Fits(ptr, i, memory.Length);
      if written {
        SetUint32(memory, ptr + 4 * i, id);
      }
    }

    /** glGenBuffers, glGenTextures; the answer of a call that does not fail is the number of names. */
    method Gen(n: int, ptr: int, memory: array<Byte>, created: Creation) returns (r: Result<int, Error>)
      requires Valid()
      modifies this, memory
      ensures Valid()
      ensures Generated(old(Contents()), old(memory[..]), created, n, ptr, Contents(), memory[..], r)
    {
      ghost var t, mem, now := Contents(), memory[..], memory[..];
      var i := 0;
      while i < n
        invariant AllMade(created, i) && AllFit(ptr, i, memory.Length)
        invariant i > 0 ==> i <= n
        invariant Contents() == Made(t, created, i)
        invariant memory[..] == now && now == Named(mem, ptr, t.next, i)
      {
        var made := created(i);
        if made == None {
          EndsAt(t, mem, created, n, ptr, i, i, Contents(), now, Err(CreateFailed));
          return Err(CreateFailed);
        }
        MadeNext(t, created, i);
        var written := Enter(made.value, i, ptr, memory);
        if !written {
          EndsAt(t, mem, created, n, ptr, i, i + 1, Contents(), now, Err(OutOfRange));
          return Err(OutOfRange);
        }
        NamedNext(mem, ptr, t.next, i);
        now := Put32(now, ptr + 4 * i, t.next + i);
        i := i + 1;
      }
      EndsAt(t, mem, created, n, ptr, i, i, Contents(), now, Ok(n));
      r := Ok(n);
    }

    /** glDeleteBuffers, glDeleteTextures */
    method Delete(n: int, ptr: int, memory: array<Byte>) returns (r: Result<int, Error>, freed: seq<Handle>)
      requires Valid()
      modifies this`objects
      ensures Valid()
      ensures Deleted(memory[..], ptr, n, 0, old(objects), []) == Deletion(objects, freed, r)
      ensures r == Ok(n) <==> AllLive(memory[..], ptr, 0, n, old(objects))
    {
      DeleteSucceeds(memory[..], ptr, n, 0, objects, []);
      freed := [];
      var i := 0;
      while i < n
        invariant Valid()
        invariant Deleted(memory[..], ptr, n, 0, old(objects), []) == Deleted(memory[..], ptr, n, i, objects, freed)
      {
        if !Fits(ptr, i, memory.Length) {
          return Err(OutOfRange), freed;
        }
        var id := Get32(memory[..], ptr + i * 4);
        if id !in objects {
          return Err(NotFound), freed;
        }
        freed := freed + [objects[id]];
        objects := objects - {id};
        i := i + 1;
      }
      r := Ok(n);
    }
  }

  // --------------------------------------------------------------------- round trip

  /** New names follow all older ones, and older entries stay. */
  lemma {:induction false} MadeIs(t: Table, created: Creation, k: nat)
    requires ValidTable(t) && AllMade(created, k)
    ensures var u := Made(t, created, k);
            && ValidTable(u) && u.next == t.next + k
            && (forall id :: id in u.objects <==> id in t.objects || t.next <= id < u.next)
            && (forall id :: id in t.objects ==> u.objects[id] == t.objects[id])
            && (forall i :: 0 <= i < k ==> u.objects[t.next + i] == created(i).value)
  {
    if k > 0 {
      MadeIs(t, created, k - 1);
    }
  }

  lemma LastNameIsRead(mem: seq<Byte>, ptr: nat, first: nat, i: nat)
    requires ptr + 4 * (i + 1) <= |mem|
    ensures Get32(Named(mem, ptr, first, i + 1), ptr + 4 * i) == ToUint32(first + i)
  {
    NamedNext(mem, ptr, first, i);
    WrittenIsRead(Named(mem, ptr, first, i), ptr + 4 * i, first + i);
  }

  lemma NextNameLeaves(mem: seq<Byte>, ptr: nat, first: nat, k: nat, i: nat)
    requires ptr + 4 * (k + 1) <= |mem| && i < k
    ensures Get32(Named(mem, ptr, first, k + 1), ptr + 4 * i) == Get32(Named(mem, ptr, first, k), ptr + 4 * i)
  {
    var here, last := ptr + 4 * i, ptr + 4 * k;
    NamedNext(mem, ptr, first, k);
    assert here + 4 <= last;
    OthersStay(Named(mem, ptr, first, k), last, first + k, here);
  }

  /** Every name is read back where it was written. */
  lemma {:induction false} NameIsRead(mem: seq<Byte>, ptr: nat, first: nat, k: nat, i: nat)
    requires ptr + 4 * k <= |mem| && i < k
    ensures Get32(Named(mem, ptr, first, k), ptr + 4 * i) == ToUint32(first + i)
  {
    if i == k - 1 {
      LastNameIsRead(mem, ptr, first, i);
    } else {
      NameIsRead(mem, ptr, first, k - 1, i);
      NextNameLeaves(mem, ptr, first, k - 1, i);
    }
  }

  lemma PutKeeps(mem: seq<Byte>, at: nat, v: nat, a: nat)
    requires at + 4 <= |mem| && a < |mem| && !(at <= a < at + 4)
    ensures Put32(mem, at, v)[a] == mem[a]
  {
    PutBytesIs(mem, at, Digits(v, 4));
  }

  /** Nothing but the array of names is written. */
  lemma {:induction false} RestIsKept(mem: seq<Byte>, ptr: nat, first: nat, k: nat, a: nat)
    requires ptr + 4 * k <= |mem| && a < |mem| && !(ptr <= a < ptr + 4 * k)
    ensures Named(mem, ptr, first, k)[a] == mem[a]
  {
    if k > 0 {
      NamedNext(mem, ptr, first, k - 1);
      PutKeeps(Named(mem, ptr, first, k - 1), ptr + 4 * (k - 1), first + k - 1, a);
      RestIsKept(mem, ptr, first, k - 1, a);
    }
  }

  /** The table with its first i new names gone. */
  function Without(objects: map<nat, Handle>, first: nat, i: nat): map<nat, Handle> {
    map id | id in objects && !(first <= id < first + i) :: objects[id]
  }

  function Handles(created: Creation, i: nat): (r: seq<Handle>)
    requires AllMade(created, i)
    ensures |r| == i && forall j :: 0 <= j < i ==> created(j) == Some(r[j])
  {
    seq(i, j requires 0 <= j < i => created(j).value)
  }

  lemma {:induction false} DeletingNewNames(t: Table, created: Creation, n: nat, ptr: nat, mem: seq<Byte>, i: nat)
    requires ValidTable(t) && i <= n && ptr + 4 * n <= |mem|
    requires AllMade(created, n)
    requires forall j :: 0 <= j < n ==> Get32(mem, ptr + 4 * j) == t.next + j
    ensures Deleted(mem, ptr, n, i, Without(Made(t, created, n).objects, t.next, i), Handles(created, i))
         == Deletion(t.objects, Handles(created, n), Ok(n))
    decreases n - i
  {
    var all := Made(t, created, n).objects;
    if i == n {
      AllWithout(t, created, n);
    } else {
      NextWithout(t, created, n, i);
      HandlesSplit(created, i);
      DeletingNewNames(t, created, n, ptr, mem, i + 1);
      assert Get32(mem, ptr + 4 * i) == t.next + i;
    }
  }

  lemma AllWithout(t: Table, created: Creation, n: nat)
    requires ValidTable(t) && AllMade(created, n)
    ensures Without(Made(t, created, n).objects, t.next, n) == t.objects
  {
    MadeIs(t, created, n);
  }

  lemma NextWithout(t: Table, created: Creation, n: nat, i: nat)
    requires ValidTable(t) && AllMade(created, n) && i < n
    ensures var objects := Without(Made(t, created, n).objects, t.next, i);
            && t.next + i in objects && objects[t.next + i] == created(i).value
            && objects - {t.next + i} == Without(Made(t, created, n).objects, t.next, i + 1)
  {
    MadeIs(t, created, n);
    WithoutSplits(Made(t, created, n).objects, t.next, i);
  }

  lemma WithoutSplits(objects: map<nat, Handle>, first: nat, i: nat)
    ensures Without(objects, first, i) - {first + i} == Without(objects, first, i + 1)
  {
  }

  lemma HandlesSplit(created: Creation, i: nat)
    requires AllMade(created, i + 1)
    ensures Handles(created, i) + [created(i).value] == Handles(created, i + 1)
  {
  }

  lemma {:induction false} BigNamesStay(mem: seq<Byte>, ptr: int, n: int, i: nat, objects: map<nat, Handle>, freed: seq<Handle>, id: nat)
    requires id in objects && id >= TWO_32
    ensures id in Deleted(mem, ptr, n, i, objects, freed).objects
    decreases n - i
  {
    if i < n && Fits(ptr, i, |mem|) {
      var gone := Get32(mem, ptr + 4 * i);
      NamesAre32Bits(mem, ptr + 4 * i);
      if gone in objects {
        BigNamesStay(mem, ptr, n, i + 1, objects - {gone}, freed + [objects[gone]], id);
      }
    }
  }

  /**
   * Making n names and deleting the same array restores the table and frees the objects in the
   * order in which they were made, if and only if no name went past 32 bits.
   */
  lemma GenThenDelete(t: Table, created: Creation, n: nat, ptr: nat, mem: seq<Byte>)
    requires ValidTable(t) && ptr + 4 * n <= |mem|
    requires AllMade(created, n)
    ensures var after := Deleted(Named(mem, ptr, t.next, n), ptr, n, 0, Made(t, created, n).objects, []);
            && (after.objects == t.objects <==> n == 0 || t.next + n <= TWO_32)
            && (t.next + n <= TWO_32 ==> after.freed == Handles(created, n) && after.end == Ok(n))
  {
    var all := Made(t, created, n).objects;
    var written := Named(mem, ptr, t.next, n);
    MadeIs(t, created, n);
    if t.next + n <= TWO_32 {
      forall i | 0 <= i < n
        ensures Get32(written, ptr + 4 * i) == t.next + i
      {
        NameIs(t, n, ptr, mem, i);
      }
      DeletingNewNames(t, created, n, ptr, written, 0);
      assert Without(all, t.next, 0) == all && Handles(created, 0) == [];
    } else if n > 0 {
      BigNamesStay(written, ptr, n, 0, all, [], t.next + n - 1);
    }
  }

  /** The 2 to the 32-th name is written as 0, so its object cannot be deleted by what was written. */
  lemma BigNameIsLost(t: Table, object_: Handle)
    requires t == Table(TWO_32, map[])
    ensures Deleted(Named([0, 0, 0, 0], 0, t.next, 1), 0, 1, 0, Made(t, _ => Some(object_), 1).objects, []).objects != map[]
  {
    GenThenDelete(t, _ => Some(object_), 1, 0, [0, 0, 0, 0]);
  }

  lemma NameIs(t: Table, n: nat, ptr: nat, mem: seq<Byte>, i: nat)
    requires ptr + 4 * n <= |mem| && i < n && t.next + n <= TWO_32
    ensures Get32(Named(mem, ptr, t.next, n), ptr + 4 * i) == t.next + i
  {
    NameIsRead(mem, ptr, t.next, n, i);
  }

  /** Below 32 bits, the names that are written are not 0, differ, and belong to no older object. */
  lemma NamesAreFresh(t: Table, n: nat, ptr: nat, mem: seq<Byte>, i: nat, j: nat)
    requires ValidTable(t) && ptr + 4 * n <= |mem| && i < j < n && t.next + n <= TWO_32
    ensures var written := Named(mem, ptr, t.next, n);
            var a, b := Get32(written, ptr + 4 * i), Get32(written, ptr + 4 * j);
            0 < a < b && a !in t.objects && b !in t.objects
  {
    NameIs(t, n, ptr, mem, i);
    NameIs(t, n, ptr, mem, j);
  }
}
