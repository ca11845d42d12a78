/** The statistics indices of pin/insmix.cpp and the 0-terminated strings of them
    that stand for basic blocks. */
module IndexStrings {

  const MAX_INDEX := 4096
  const INDEX_SPECIAL := 3000
  const MAX_MEM_SIZE := 520

  const INDEX_TOTAL := INDEX_SPECIAL + 0
  const INDEX_MEM_ATOMIC := INDEX_SPECIAL + 1
  const INDEX_STACK_READ := INDEX_SPECIAL + 2
  const INDEX_STACK_WRITE := INDEX_SPECIAL + 3
  const INDEX_IPREL_READ := INDEX_SPECIAL + 4
  const INDEX_IPREL_WRITE := INDEX_SPECIAL + 5
  const INDEX_MEM_READ_SIZE := INDEX_SPECIAL + 6
  const INDEX_MEM_WRITE_SIZE := INDEX_SPECIAL + 6 + MAX_MEM_SIZE

  predicate IsMemReadIndex(i: int) {
    INDEX_MEM_READ_SIZE <= i < INDEX_MEM_READ_SIZE + MAX_MEM_SIZE
  }

  predicate IsMemWriteIndex(i: int) {
    INDEX_MEM_WRITE_SIZE <= i < INDEX_MEM_WRITE_SIZE + MAX_MEM_SIZE
  }

  /** What the profiler asks Pin about an instruction. */
  datatype Ins = Ins(
    opcode: nat,
    memoryRead: bool, readSize: nat,
    memoryWrite: bool, writeSize: nat,
    stackRead: bool, stackWrite: bool,
    ipRelRead: bool, ipRelWrite: bool,
    atomicUpdate: bool)

  type Block = seq<Ins>

  /** Opcodes lie in 1..2999 and access sizes pass the assertion in INS_MemsizeIndex. */
  predicate Legal(ins: Ins) {
    && 0 < ins.opcode < INDEX_SPECIAL
    && (ins.memoryRead ==> 0 < ins.readSize < MAX_MEM_SIZE)
    && (ins.memoryWrite ==> 0 < ins.writeSize < MAX_MEM_SIZE)
  }

  predicate LegalBlock(bbl: Block) {
    forall i :: 0 <= i < |bbl| ==> Legal(bbl[i])
  }

  function If(b: bool, index: int): seq<int> {
    if b then [index] else []
  }

  /** The indices INS_GenerateIndexString emits, in its order. */
  function Emission(ins: Ins): seq<int> {
    [ins.opcode]
    + If(ins.memoryRead, INDEX_MEM_READ_SIZE + ins.readSize)
    + If(ins.memoryWrite, INDEX_MEM_WRITE_SIZE + ins.writeSize)
    + If(ins.atomicUpdate, INDEX_MEM_ATOMIC)
    + If(ins.stackRead, INDEX_STACK_READ)
    + If(ins.stackWrite, INDEX_STACK_WRITE)
    + If(ins.ipRelRead, INDEX_IPREL_READ)
    + If(ins.ipRelWrite, INDEX_IPREL_WRITE)
  }

  function IndexString(bbl: Block): seq<int> {
    if bbl == [] then [] else IndexString(bbl[..|bbl| - 1]) + Emission(bbl[|bbl| - 1])
  }

  function Occurrences(s: seq<int>, k: int): nat {
    multiset(s)[k]
  }

  /** What index k says about an instruction, read off the table of index ranges. */
  predicate Describes(k: int, ins: Ins) {
    if k < INDEX_SPECIAL then k == ins.opcode
    else if IsMemReadIndex(k) then ins.memoryRead && ins.readSize == k - INDEX_MEM_READ_SIZE
    else if IsMemWriteIndex(k) then ins.memoryWrite && ins.writeSize == k - INDEX_MEM_WRITE_SIZE
    else if k == INDEX_MEM_ATOMIC then ins.atomicUpdate
    else if k == INDEX_STACK_READ then ins.stackRead
    else if k == INDEX_STACK_WRITE then ins.stackWrite
    else if k == INDEX_IPREL_READ then ins.ipRelRead
    else if k == INDEX_IPREL_WRITE then ins.ipRelWrite
    else false
  }

  /** An instruction emits each index that describes it once, and no other. */
  lemma EmissionMeaning(ins: Ins, k: int)
    requires Legal(ins)
    ensures Occurrences(Emission(ins), k) == if Describes(k, ins) then 1 else 0
  {
    hide Occurrences, If;
    var e0 := [ins.opcode];
    var e1 := e0 + If(ins.memoryRead, INDEX_MEM_READ_SIZE + ins.readSize);
    var e2 := e1 + If(ins.memoryWrite, INDEX_MEM_WRITE_SIZE + ins.writeSize);
    var e3 := e2 + If(ins.atomicUpdate, INDEX_MEM_ATOMIC);
    var e4 := e3 + If(ins.stackRead, INDEX_STACK_READ);
    var e5 := e4 + If(ins.stackWrite, INDEX_STACK_WRITE);
    var e6 := e5 + If(ins.ipRelRead, INDEX_IPREL_READ);
    OccursOnce(ins.opcode, k);
    OccursIf(e0, ins.memoryRead, INDEX_MEM_READ_SIZE + ins.readSize, k);
    OccursIf(e1, ins.memoryWrite, INDEX_MEM_WRITE_SIZE + ins.writeSize, k);
    OccursIf(e2, ins.atomicUpdate, INDEX_MEM_ATOMIC, k);
    OccursIf(e3, ins.stackRead, INDEX_STACK_READ, k);
    OccursIf(e4, ins.stackWrite, INDEX_STACK_WRITE, k);
    OccursIf(e5, ins.ipRelRead, INDEX_IPREL_READ, k);
    OccursIf(e6, ins.ipRelWrite, INDEX_IPREL_WRITE, k);
  }

  lemma OccursOnce(index: int, k: int)
    ensures Occurrences([index], k) == if index == k then 1 else 0
  {
  }

  lemma OccursIf(s: seq<int>, b: bool, index: int, k: int)
    ensures Occurrences(s + If(b, index), k) == Occurrences(s, k) + if b && index == k then 1 else 0
  {
  }

  lemma EmissionRange(ins: Ins)
    requires Legal(ins)
    ensures forall k :: k in Emission(ins) ==> 0 < k < MAX_INDEX && k != INDEX_TOTAL
  {
    hide Emission;
    forall k | k in Emission(ins) ensures Describes(k, ins) {
      EmissionMeaning(ins, k);
    }
  }

  lemma {:induction false} StringRange(bbl: Block)
    requires LegalBlock(bbl)
    ensures forall k :: k in IndexString(bbl) ==> 0 < k < MAX_INDEX && k != INDEX_TOTAL
  {
    if bbl != [] {
      StringRange(bbl[..|bbl| - 1]);
      EmissionRange(bbl[|bbl| - 1]);
    }
  }

  function Described(bbl: Block, k: int): nat {
    if bbl == [] then 0
    else Described(bbl[..|bbl| - 1], k) + if Describes(k, bbl[|bbl| - 1]) then 1 else 0
  }

  /** The string of a block holds index k once for every instruction k describes. */
  lemma {:induction false} StringMeaning(bbl: Block, k: int)
    requires LegalBlock(bbl)
    ensures Occurrences(IndexString(bbl), k) == Described(bbl, k)
  {
    if bbl != [] {
      StringMeaning(bbl[..|bbl| - 1], k);
      EmissionMeaning(bbl[|bbl| - 1], k);
    }
  }

  // ---------------------------------------------------------------- the two passes

  function Bit(b: bool): nat {
    if b then 1 else 0
  }

  lemma EmissionLength(ins: Ins)
    ensures |Emission(ins)| == 1 + Bit(ins.memoryRead) + Bit(ins.memoryWrite) + Bit(ins.atomicUpdate)
                               + Bit(ins.stackRead) + Bit(ins.stackWrite)
                               + Bit(ins.ipRelRead) + Bit(ins.ipRelWrite)
  {
  }

  /** IndexStringLength: the sizing pass, which asks its questions in another order. */
  method IndexStringLength(bbl: Block, memoryAccessProfile: bool) returns (count: nat)
    ensures memoryAccessProfile ==> count == |IndexString(bbl)|
    ensures !memoryAccessProfile ==> count == |bbl|
  {
    hide Emission, IndexString;
    count := 0;
    assert bbl[..0] == [];
    NoIndices();
    for i := 0 to |bbl|
      invariant memoryAccessProfile ==> count == |IndexString(bbl[..i])|
      invariant !memoryAccessProfile ==> count == i
    {
      StringPrefix(bbl, i);
      var slots := Slots(bbl[i], memoryAccessProfile);
      count := count + slots;
    }
    assert bbl[..|bbl|] == bbl;
  }

  lemma NoIndices()
    ensures IndexString([]) == []
  {
  }

  /** The body of its loop, for one instruction. */
  method Slots(ins: Ins, memoryAccessProfile: bool) returns (count: nat)
    ensures count == if memoryAccessProfile then |Emission(ins)| else 1
  {
    hide Emission;
    EmissionLength(ins);
    count := 1;
    if memoryAccessProfile {
      if ins.memoryRead { count := count + 1; }
      if ins.stackRead { count := count + 1; }
      if ins.ipRelRead { count := count + 1; }
      if ins.memoryWrite { count := count + 1; }
      if ins.stackWrite { count := count + 1; }
      if ins.ipRelWrite { count := count + 1; }
      if ins.atomicUpdate { count := count + 1; }
    }
  }

  /** *stats++ = index, after `done` has been written at the front of the buffer. */
  method Put(stats: array<int>, cursor: nat, index: int, ghost done: seq<int>) returns (next: nat)
    requires cursor < stats.Length && stats[..cursor] == done
    modifies stats
    ensures next == cursor + 1
    ensures stats[..next] == done + [index]
  {
    stats[cursor] := index;
    next := cursor + 1;
  }

  method PutIf(b: bool, stats: array<int>, cursor: nat, index: int, ghost before: seq<int>, ghost done: seq<int>)
    returns (next: nat)
    requires cursor + |If(b, index)| <= stats.Length && stats[..cursor] == before + done
    modifies stats
    ensures next == cursor + |If(b, index)|
    ensures stats[..next] == before + (done + If(b, index))
  {
    next := cursor;
    if b {
      next := Put(stats, cursor, index, before + done);
      assert before + done + [index] == before + (done + [index]);
    } else {
      assert done + [] == done;
    }
  }

  /** INS_GenerateIndexString, with memory_acess_profile set as both its callers do. */
  method GenerateIndexString(ins: Ins, stats: array<int>, cursor: nat) returns (next: nat)
    requires cursor + |Emission(ins)| <= stats.Length
    modifies stats
    ensures next == cursor + |Emission(ins)|
    ensures stats[..next] == old(stats[..cursor]) + Emission(ins)
  {
    hide If;
    ghost var before := stats[..cursor];
    ghost var e := [ins.opcode];
    next := Put(stats, cursor, ins.opcode, before);
    next := PutIf(ins.memoryRead, stats, next, INDEX_MEM_READ_SIZE + ins.readSize, before, e);
    e := e + If(ins.memoryRead, INDEX_MEM_READ_SIZE + ins.readSize);
    next := PutIf(ins.memoryWrite, stats, next, INDEX_MEM_WRITE_SIZE + ins.writeSize, before, e);
    e := e + If(ins.memoryWrite, INDEX_MEM_WRITE_SIZE + ins.writeSize);
    next := PutIf(ins.atomicUpdate, stats, next, INDEX_MEM_ATOMIC, before, e);
    e := e + If(ins.atomicUpdate, INDEX_MEM_ATOMIC);
    next := PutIf(ins.stackRead, stats, next, INDEX_STACK_READ, before, e);
    e := e + If(ins.stackRead, INDEX_STACK_READ);
    next := PutIf(ins.stackWrite, stats, next, INDEX_STACK_WRITE, before, e);
    e := e + If(ins.stackWrite, INDEX_STACK_WRITE);
    next := PutIf(ins.ipRelRead, stats, next, INDEX_IPREL_READ, before, e);
    e := e + If(ins.ipRelRead, INDEX_IPREL_READ);
    next := PutIf(ins.ipRelWrite, stats, next, INDEX_IPREL_WRITE, before, e);
    e := e + If(ins.ipRelWrite, INDEX_IPREL_WRITE);
  }

  /** The buffer part of Trace: size the buffer, fill it, terminate it. The filled part ends
      exactly at the end of the buffer, as the assertion in the source demands. */
  method BuildIndexString(bbl: Block) returns (stats: array<int>)
    ensures fresh(stats)
    ensures stats[..] == IndexString(bbl) + [0]
  {
    hide Emission;
    var n := IndexStringLength(bbl, true);
    stats := new int[n + 1];
    var curr := 0;
    for i := 0 to |bbl|
      invariant curr == |IndexString(bbl[..i])| <= |IndexString(bbl)| == stats.Length - 1
      invariant stats[..curr] == IndexString(bbl[..i])
    {
      StringPrefix(bbl, i);
      curr := GenerateIndexString(bbl[i], stats, curr);
    }
    assert bbl[..|bbl|] == bbl;
    curr := Put(stats, curr, 0, IndexString(bbl));
    assert curr == stats.Length;
  }

  lemma StringPrefix(bbl: Block, i: nat)
    requires i < |bbl|
    ensures IndexString(bbl[..i + 1]) == IndexString(bbl[..i]) + Emission(bbl[i])
    ensures |IndexString(bbl[..i + 1])| <= |IndexString(bbl)|
    decreases |bbl|
  {
    if i + 1 == |bbl| {
      assert bbl[..i + 1] == bbl;
    } else {
      StringPrefix(bbl[..|bbl| - 1], i);
      assert bbl[..|bbl| - 1][..i + 1] == bbl[..i + 1];
      assert bbl[..|bbl| - 1][..i] == bbl[..i];
    }
  }

  /** Reading up to the first 0 gives back the emitted indices and nothing else. */
  lemma ScanStopsAtTerminator(bbl: Block, buffer: seq<int>, j: nat)
    requires LegalBlock(bbl) && buffer == IndexString(bbl) + [0] && j < |buffer|
    ensures buffer[j] == 0 <==> j == |IndexString(bbl)|
  {
    StringRange(bbl);
    if j < |IndexString(bbl)| {
      assert IndexString(bbl)[j] in IndexString(bbl);
    }
  }
}
