/** The disassemblers of snippets/xed-ex1.cpp and cp/xed/xed_disass.c over a decoder
    oracle, and the instruction tables of cp/elf/disass.py built from them. */
module Disassembly {
  import opened Options

  type Bytes = seq<bv8>

  /** A decoded instruction: its length, whether it ends a basic block, and the columns
      of its table row that are copied unchanged. */
  datatype Inst = Inst(length: nat, endsBlock: bool, mnemonic: string, iclass: nat)

  /** xed_decode on a window that starts at the instruction: None for any error code. */
  type Decoder = Bytes -> Option<Inst>

  const MAX_LENGTH := 15

  /** The decoder's promise: an instruction has 1..15 bytes, windows that do not hold all of it
      fail, and every longer window yields the same instruction. */
  ghost predicate Contract(dec: Decoder) {
    && (forall w: Bytes :: dec(w).Some? ==> 1 <= dec(w).value.length <= MAX_LENGTH && dec(w).value.length <= |w|)
    && (forall w: Bytes, k :: 0 <= k <= |w| ==>
          dec(w[..k]) == if dec(w).Some? && dec(w).value.length <= k then dec(w) else None)
  }

  // ---------------------------------------------------------------- linear sweep

  datatype Placed = Placed(pos: nat, inst: Inst) {
    function End(): nat {
      pos + inst.length
    }
  }

  /** Linear sweep from position p: decode, move on by the length, stop where nothing decodes. */
  function Sweep(dec: Decoder, data: Bytes, p: nat): seq<Placed>
    requires Contract(dec) && p <= |data|
    decreases |data| - p
  {
    match dec(data[p..])
    case None => []
    case Some(i) => [Placed(p, i)] + Sweep(dec, data, p + i.length)
  }

  function Insts(s: seq<Placed>): seq<Inst> {
    seq(|s|, i requires 0 <= i < |s| => s[i].inst)
  }

  /** The instruction ending at byte e, if there is one. */
  function EndingAt(s: seq<Placed>, e: nat): Option<Inst> {
    if s == [] then None
    else if s[|s| - 1].End() == e then Some(s[|s| - 1].inst)
    else EndingAt(s[..|s| - 1], e)
  }

  /** The position up to which instructions have been placed. */
  function Covered(s: seq<Placed>): nat {
    if s == [] then 0 else s[|s| - 1].End()
  }

  /** The sweep from 0 has placed `done` and stands at p. */
  ghost predicate Reached(dec: Decoder, data: Bytes, done: seq<Placed>, p: nat) {
    && Contract(dec) && p <= |data| && Covered(done) == p
    && Sweep(dec, data, 0) == done + Sweep(dec, data, p)
    && forall i :: 0 <= i < |done| ==> done[i].End() <= p
  }

  lemma {:induction false} NothingEndsLater(s: seq<Placed>, p: nat, e: nat)
    requires (forall i :: 0 <= i < |s| ==> s[i].End() <= p) && e > p
    ensures EndingAt(s, e) == None
  {
    if s != [] {
      NothingEndsLater(s[..|s| - 1], p, e);
    }
  }

  /** What a window of the sweep's current position shows. */
  lemma Window(dec: Decoder, data: Bytes, start: nat, stop: nat)
    requires Contract(dec) && start < stop <= |data|
    ensures data[start..stop] == data[start..][..stop - start]
    ensures dec(data[start..stop]) ==
            if dec(data[start..]).Some? && dec(data[start..]).value.length <= stop - start
            then dec(data[start..]) else None
  {
    assert data[start..stop] == data[start..][..stop - start];
  }

  // ---------------------------------------------------------------- growing windows

  const WORD := 0x1_0000_0000

  /** No window at start that ends before stop has decoded. */
  ghost predicate TriedUpTo(dec: Decoder, data: Bytes, start: nat, stop: nat)
    requires start <= |data|
  {
    dec(data[start..]).Some? ==> dec(data[start..]).value.length >= stop - start
  }

  lemma Accepts(dec: Decoder, data: Bytes, done: seq<Placed>, start: nat, stop: nat)
    requires Reached(dec, data, done, start) && start < stop <= |data| && TriedUpTo(dec, data, start, stop)
    requires dec(data[start..stop]).Some?
    ensures var i := dec(data[start..stop]).value;
            i.length == stop - start && Reached(dec, data, done + [Placed(start, i)], stop)
  {
    Window(dec, data, start, stop);
  }

  lemma Exhausted(dec: Decoder, data: Bytes, done: seq<Placed>, start: nat, stop: nat)
    requires Reached(dec, data, done, start) && (start == |data| || (TriedUpTo(dec, data, start, stop) && stop > |data|))
    ensures Sweep(dec, data, 0) == done
  {
    assert dec(data[start..]).None?;
  }

  /** The next window, in 32-bit arithmetic. */
  function NextWindow(decoded: bool, start: nat, stop: nat): (nat, nat) {
    if decoded then (stop, (stop + 1) % WORD) else (start, (stop + 1) % WORD)
  }

  /** Inputs on which the end of a window wraps while the loop goes on: those of 2^32 - 1 bytes whose
      sweep does not reach the end. */
  ghost predicate Overruns(dec: Decoder, data: Bytes)
    requires Contract(dec)
  {
    |data| == WORD - 1 && Covered(Sweep(dec, data, 0)) < |data|
  }

  /** On an input of 2^32 - 1 bytes the last window that can be formed decides: if it decodes, the loop
      is done; if not, the next one ends at 0 although the loop's guard still holds. Its length is then 0,
      if nothing at all has decoded, and the loop starts over; or it reaches one byte past the input. */
  lemma LastWindow(dec: Decoder, data: Bytes, done: seq<Placed>, start: nat)
    requires |data| == WORD - 1 && start < |data|
    requires Reached(dec, data, done, start) && TriedUpTo(dec, data, start, |data|)
    ensures var decoded := dec(data[start..|data|]).Some?;
            && NextWindow(decoded, start, |data|) == (if decoded then |data| else start, 0)
            && (Overruns(dec, data) <==> !decoded)
            && (0 - start) % WORD == if start == 0 then 0 else |data| + 1 - start
  {
    hide Contract, Sweep;
    if dec(data[start..|data|]).Some? {
      Accepts(dec, data, done, start, |data|);
      Exhausted(dec, data, done + [Placed(start, dec(data[start..|data|]).value)], |data|, 0);
    } else {
      Rejects(dec, data, start, |data|);
      Exhausted(dec, data, done, start, WORD);
    }
    WrappedLength(start);
  }

  lemma WrappedLength(start: nat)
    requires 0 <= start < WORD
    ensures (0 - start) % WORD == if start == 0 then 0 else WORD - start
  {
    if start > 0 {
      assert (0 - start) % WORD == WORD - start;
    }
  }

  lemma NoOverrun(dec: Decoder, data: Bytes, done: seq<Placed>, start: nat)
    requires Reached(dec, data, done, start) && Sweep(dec, data, 0) == done
    requires start == |data| || |data| != WORD - 1
    ensures !Overruns(dec, data)
  {
  }

  /** Entry k of the result is the instruction ending after byte k, if one has been placed. */
  ghost predicate Recorded(ret: seq<Option<Inst>>, done: seq<Placed>) {
    forall k :: 0 <= k < |ret| ==> ret[k] == EndingAt(done, k + 1)
  }

  lemma RecordHit(ret: seq<Option<Inst>>, done: seq<Placed>, x: Placed)
    requires Recorded(ret, done) && x.End() == |ret| + 1
    ensures Recorded(ret + [Some(x.inst)], done + [x])
  {
    var s := done + [x];
    assert s[..|s| - 1] == done;
  }

  lemma RecordMiss(ret: seq<Option<Inst>>, done: seq<Placed>, p: nat)
    requires Recorded(ret, done) && |ret| >= p && forall i :: 0 <= i < |done| ==> done[i].End() <= p
    ensures Recorded(ret + [None], done)
  {
    NothingEndsLater(done, p, |ret| + 1);
  }

  datatype Error = NotAMode | EmptyInput

  datatype Result = Thrown(error: Error) | Wrapped | Entries(ret: seq<Option<Inst>>)

  /** disassemble of xed-ex1.cpp. Every attempt is kept, so entry k tells whether an instruction of
      the linear sweep ends after byte k; there are exactly as many attempts as bytes. Wrapped
      stands for going on after the end of a window has wrapped, which happens for just those inputs. */
  method Disassemble(mode: int, dec: Decoder, data: Bytes) returns (r: Result)
    requires Contract(dec) && |data| < WORD
    ensures r == Thrown(NotAMode) <==> mode != 64 && mode != 32
    ensures r == Thrown(EmptyInput) <==> (mode == 64 || mode == 32) && data == []
    ensures r.Wrapped? <==> !r.Thrown? && Overruns(dec, data)
    ensures r.Entries? ==>
              && |r.ret| == |data|
              && forall k :: 0 <= k < |data| ==> r.ret[k] == EndingAt(Sweep(dec, data, 0), k + 1)
  {
    if mode != 64 && mode != 32 {
      return Thrown(NotAMode);
    }
    if |data| == 0 {
      return Thrown(EmptyInput);
    }
    hide Contract, EndingAt, Recorded, Sweep, Overruns, InWindow, Reached, TriedUpTo, Covered, NextWindow;
    var start, stop := 0, 1;
    var ret: seq<Option<Inst>> := [];
    ghost var done: seq<Placed> := [];
    Begin(dec, data);
    while start < |data| && stop <= |data|
      invariant InWindow(dec, data, done, start, stop)
      invariant |ret| == if start < |data| then stop - 1 else |data|
      invariant Recorded(ret, done)
      decreases |data| - start, |data| + 1 - stop
    {
      WindowStep(dec, data, done, start, stop);
      var xedd := dec(data[start..stop]);
      var (start', stop') := NextWindow(xedd.Some?, start, stop);
      if xedd.Some? {
        RecordHit(ret, done, Placed(start, xedd.value));
        done := done + [Placed(start, xedd.value)];
      } else {
        NothingLater(dec, data, ret, done, start);
      }
      ret := ret + [xedd];
      if xedd.None? && stop' == 0 {
        return Wrapped;
      }
      start, stop := start', stop';
    }
    WindowsEnd(dec, data, done, start, stop);
    Entry(ret, done);
    return Entries(ret);
  }

  /** Between two attempts: the window (start, stop) is still open, or all bytes are covered. */
  ghost predicate InWindow(dec: Decoder, data: Bytes, done: seq<Placed>, start: nat, stop: nat) {
    && Reached(dec, data, done, start) && |data| < WORD
    && (start == |data| ||
        (start < stop <= |data| + 1 && stop < WORD && TriedUpTo(dec, data, start, stop)))
  }

  /** What one attempt leads to. */
  lemma WindowStep(dec: Decoder, data: Bytes, done: seq<Placed>, start: nat, stop: nat)
    requires InWindow(dec, data, done, start, stop) && start < |data| && stop <= |data|
    ensures start < stop && Reached(dec, data, done, start) && start <= |data|
    ensures var xedd := dec(data[start..stop]); var (start', stop') := NextWindow(xedd.Some?, start, stop);
            && (xedd.Some? ==> xedd.value.length == stop - start && start' == stop &&
                               (start' < |data| ==> stop' == start' + 1) &&
                               InWindow(dec, data, done + [Placed(start, xedd.value)], start', stop'))
            && (xedd.None? ==> start' == start && (stop' == 0 || stop' == stop + 1) &&
                               (stop' == 0 ==> Overruns(dec, data)) &&
                               (stop' != 0 ==> InWindow(dec, data, done, start', stop')))
  {
    hide Contract, Sweep, Reached, TriedUpTo;
    if stop == |data| == WORD - 1 {
      LastWindow(dec, data, done, start);
    }
    if dec(data[start..stop]).Some? {
      Accepts(dec, data, done, start, stop);
      ReachedIsInside(dec, data, done, start);
      Fresh(dec, data, stop);
    } else {
      ReachedIsInside(dec, data, done, start);
      Rejects(dec, data, start, stop);
    }
  }

  lemma ReachedIsInside(dec: Decoder, data: Bytes, done: seq<Placed>, p: nat)
    requires Reached(dec, data, done, p)
    ensures Contract(dec)
  {
  }

  lemma WindowsEnd(dec: Decoder, data: Bytes, done: seq<Placed>, start: nat, stop: nat)
    requires InWindow(dec, data, done, start, stop) && (start >= |data| || stop > |data|)
    ensures Contract(dec) && Sweep(dec, data, 0) == done && !Overruns(dec, data)
  {
    hide Contract, Sweep, TriedUpTo;
    Exhausted(dec, data, done, start, stop);
    NoOverrun(dec, data, done, start);
  }

  lemma NothingLater(dec: Decoder, data: Bytes, ret: seq<Option<Inst>>, done: seq<Placed>, start: nat)
    requires Reached(dec, data, done, start) && Recorded(ret, done) && |ret| >= start
    ensures Recorded(ret + [None], done)
  {
    hide Sweep, Contract, Recorded;
    RecordMiss(ret, done, start);
  }

  lemma Begin(dec: Decoder, data: Bytes)
    requires Contract(dec)
    ensures Reached(dec, data, [], 0) && TriedUpTo(dec, data, 0, 1) && Recorded([], [])
    ensures |data| < WORD ==> InWindow(dec, data, [], 0, 1)
  {
    assert [] + Sweep(dec, data, 0) == Sweep(dec, data, 0);
  }

  lemma Fresh(dec: Decoder, data: Bytes, p: nat)
    requires Contract(dec) && p <= |data|
    ensures TriedUpTo(dec, data, p, p + 1)
  {
  }

  lemma Rejects(dec: Decoder, data: Bytes, start: nat, stop: nat)
    requires Contract(dec) && start < stop <= |data| && TriedUpTo(dec, data, start, stop)
    requires dec(data[start..stop]).None?
    ensures TriedUpTo(dec, data, start, stop + 1)
  {
    Window(dec, data, start, stop);
  }

  lemma Entry(ret: seq<Option<Inst>>, done: seq<Placed>)
    requires Recorded(ret, done)
    ensures forall k :: 0 <= k < |ret| ==> ret[k] == EndingAt(done, k + 1)
  {
  }

  /** _disassemble of xed_disass.c: the same windows, keeping what decoded; None stands for
      going on after the end of a window has wrapped. */
  method DisassembleList(dec: Decoder, data: Bytes) returns (list: Option<seq<Inst>>)
    requires Contract(dec) && |data| < WORD
    ensures list == if Overruns(dec, data) then None else Some(Insts(Sweep(dec, data, 0)))
  {
    hide Contract, Sweep, Overruns, InWindow, Reached, TriedUpTo, Covered, NextWindow;
    var start, stop := 0, 1;
    var ret := [];
    ghost var done: seq<Placed> := [];
    Begin(dec, data);
    while start < |data| && stop <= |data|
      invariant InWindow(dec, data, done, start, stop)
      invariant ret == Insts(done)
      decreases |data| - start, |data| + 1 - stop
    {
      WindowStep(dec, data, done, start, stop);
      var xedd := dec(data[start..stop]);
      var (start', stop') := NextWindow(xedd.Some?, start, stop);
      if xedd.Some? {
        done := done + [Placed(start, xedd.value)];
        ret := ret + [xedd.value];
      } else if stop' == 0 {
        return None;
      }
      start, stop := start', stop';
    }
    WindowsEnd(dec, data, done, start, stop);
    return Some(ret);
  }

  // ---------------------------------------------------------------- one pass to the end of a basic block

  /** Everything up to and including the first instruction that ends a block. */
  function UpToBlockEnd(s: seq<Inst>): seq<Inst> {
    if s == [] then []
    else if s[0].endsBlock then [s[0]]
    else [s[0]] + UpToBlockEnd(s[1..])
  }

  /** Only the last instruction of a cut list can end a block, and it does unless nothing was cut. */
  lemma {:induction false} UpToBlockEndMeaning(s: seq<Inst>)
    ensures var r := UpToBlockEnd(s);
            && r <= s
            && (forall i :: 0 <= i < |r| - 1 ==> !r[i].endsBlock)
            && (r == s || (r != [] && r[|r| - 1].endsBlock))
  {
    if s != [] && !s[0].endsBlock {
      UpToBlockEndMeaning(s[1..]);
    }
  }

  lemma {:induction false} UpToBlockEndLater(a: seq<Inst>, b: seq<Inst>)
    requires forall i :: 0 <= i < |a| ==> !a[i].endsBlock
    ensures UpToBlockEnd(a + b) == a + UpToBlockEnd(b)
  {
    if a == [] {
      assert a + b == b;
    } else {
      UpToBlockEndLater(a[1..], b);
      assert (a + b)[1..] == a[1..] + b;
    }
  }

  /** _disassemble_until_bb_end: one decode per instruction with all remaining bytes, trusting the
      reported length. It refines the growing windows: the result is theirs, cut at the block end. */
  method DisassembleUntilBlockEnd(dec: Decoder, data: Bytes) returns (list: seq<Inst>)
    requires Contract(dec) && |data| < WORD
    ensures list == UpToBlockEnd(Insts(Sweep(dec, data, 0)))
  {
    hide Contract, UpToBlockEnd, Sweep, Insts;
    list := [];
    assert Insts(Sweep(dec, data, 0)) == [] + Insts(Sweep(dec, data, 0));
    var offset := 0;
    while |data| - offset > 0
      invariant offset <= |data|
      invariant forall i :: 0 <= i < |list| ==> !list[i].endsBlock
      invariant Insts(Sweep(dec, data, 0)) == list + Insts(Sweep(dec, data, offset))
      decreases |data| - offset
    {
      var xedd := dec(data[offset..]);
      UpToBlockEndLater(list, Insts(Sweep(dec, data, offset)));
      SweepStep(dec, data, offset);
      match xedd {
        case None =>
          return list;
        case Some(i) =>
          list := list + [i];
          if i.endsBlock {
            return list;
          }
          offset := offset + i.length;
      }
    }
    UpToBlockEndLater(list, Insts(Sweep(dec, data, offset)));
    SweepStep(dec, data, offset);
  }

  lemma SweepStep(dec: Decoder, data: Bytes, p: nat)
    requires Contract(dec) && p <= |data|
    ensures dec(data[p..]).None? ==> Sweep(dec, data, p) == [] && UpToBlockEnd(Insts([])) == []
    ensures dec(data[p..]).Some? ==>
              var i := dec(data[p..]).value;
              && 1 <= i.length && p + i.length <= |data|
              && Insts(Sweep(dec, data, p)) == [i] + Insts(Sweep(dec, data, p + i.length))
              && (i.endsBlock ==> UpToBlockEnd(Insts(Sweep(dec, data, p))) == [i])
    ensures p == |data| ==> Sweep(dec, data, p) == [] && UpToBlockEnd(Insts([])) == []
  {
    SweepUnfolds(dec, data, p);
    hide Sweep, Contract;
  }

  lemma SweepUnfolds(dec: Decoder, data: Bytes, p: nat)
    requires Contract(dec) && p <= |data|
    ensures var d := dec(data[p..]);
            && (d.None? ==> Sweep(dec, data, p) == [])
            && (d.Some? ==> && 1 <= d.value.length && p + d.value.length <= |data|
                            && Sweep(dec, data, p) == [Placed(p, d.value)] + Sweep(dec, data, p + d.value.length))
            && (p == |data| ==> d.None?)
  {
    assert p == |data| ==> data[p..] == [];
  }

  // ---------------------------------------------------------------- what a sweep is

  /** Every entry is what decodes at its place, each starts where the one before it ends, the first at p,
      and nothing decodes where the last one ends. */
  ghost predicate IsSweep(dec: Decoder, data: Bytes, p: nat, s: seq<Placed>) {
    && (forall i :: 0 <= i < |s| ==> Follows(dec, data, p, s, i))
    && var e := if s == [] then p else s[|s| - 1].End();
       e <= |data| && dec(data[e..]).None?
  }

  ghost predicate Follows(dec: Decoder, data: Bytes, p: nat, s: seq<Placed>, i: nat)
    requires i < |s|
  {
    && s[i].pos <= |data| && dec(data[s[i].pos..]) == Some(s[i].inst)
    && s[i].pos == if i == 0 then p else s[i - 1].End()
  }

  lemma TailFollows(dec: Decoder, data: Bytes, p: nat, s: seq<Placed>)
    requires s != [] && Follows(dec, data, p, s, 0)
    ensures IsSweep(dec, data, p, s) <==> IsSweep(dec, data, s[0].End(), s[1..])
  {
    var t := s[1..];
    forall i | 0 <= i < |t| ensures Follows(dec, data, s[0].End(), t, i) <==> Follows(dec, data, p, s, i + 1) {
    }
    if IsSweep(dec, data, s[0].End(), t) {
      forall i | 0 <= i < |s| ensures Follows(dec, data, p, s, i) {
        assert i > 0 ==> Follows(dec, data, s[0].End(), t, i - 1);
      }
    }
  }

  lemma FirstFollows(dec: Decoder, data: Bytes, p: nat, s: seq<Placed>)
    requires IsSweep(dec, data, p, s) && p <= |data|
    ensures s == [] <==> dec(data[p..]).None?
    ensures s != [] ==> Follows(dec, data, p, s, 0) && s[0].pos == p && dec(data[p..]) == Some(s[0].inst)
  {
    assert s != [] ==> Follows(dec, data, p, s, 0);
  }

  /** The sweep is the only list that tiles the input this way. */
  lemma {:induction false} SweepExactly(dec: Decoder, data: Bytes, p: nat, s: seq<Placed>)
    requires Contract(dec) && p <= |data|
    ensures s == Sweep(dec, data, p) <==> IsSweep(dec, data, p, s)
    decreases |data| - p
  {
    SweepUnfolds(dec, data, p);
    if IsSweep(dec, data, p, s) {
      FirstFollows(dec, data, p, s);
    }
    var d := dec(data[p..]);
    if d.None? {
      assert IsSweep(dec, data, p, []);
    } else {
      var first := Placed(p, d.value);
      hide Contract, Sweep, IsSweep;
      if s != [] && s[0] == first {
        assert s == [s[0]] + s[1..];
        SweepExactly(dec, data, first.End(), s[1..]);
        TailFollows(dec, data, p, s);
      } else {
        assert s != [first] + Sweep(dec, data, first.End());
      }
    }
  }

  lemma {:induction false} SweepAscends(dec: Decoder, data: Bytes, p: nat)
    requires Contract(dec) && p <= |data|
    ensures forall a :: 0 <= a < |Sweep(dec, data, p)| ==> Sweep(dec, data, p)[a].End() > p
    ensures forall a, b :: 0 <= a < b < |Sweep(dec, data, p)| ==>
              Sweep(dec, data, p)[a].End() < Sweep(dec, data, p)[b].End()
    decreases |data| - p
  {
    SweepUnfolds(dec, data, p);
    hide Contract, Sweep;
    var d := dec(data[p..]);
    if d.Some? {
      SweepAscends(dec, data, p + d.value.length);
    }
  }

  lemma {:induction false} EndingAtFound(s: seq<Placed>, e: nat)
    ensures EndingAt(s, e).None? ==> forall m :: 0 <= m < |s| ==> s[m].End() != e
    ensures EndingAt(s, e).Some? ==>
              exists m :: 0 <= m < |s| && s[m].End() == e && s[m].inst == EndingAt(s, e).value
  {
    if s != [] {
      var n := |s| - 1;
      EndingAtFound(s[..n], e);
      assert forall m :: 0 <= m < n ==> s[..n][m] == s[m];
    }
  }

  /** An attempt's entry is an instruction exactly when that one, in the sweep, ends there. */
  lemma EndingExactly(dec: Decoder, data: Bytes, e: nat, i: Inst)
    requires Contract(dec)
    ensures EndingAt(Sweep(dec, data, 0), e) == Some(i) <==>
            exists m :: 0 <= m < |Sweep(dec, data, 0)| &&
                        Sweep(dec, data, 0)[m].End() == e && Sweep(dec, data, 0)[m].inst == i
  {
    hide Contract, Sweep, EndingAt;
    SweepAscends(dec, data, 0);
    EndingAtFound(Sweep(dec, data, 0), e);
  }

  // ---------------------------------------------------------------- instruction tables

  /** A row's index: file, symbol, address of the block and offset of the instruction in it. */
  datatype Index = Index(dso: string, symbol: string, blockAddr: nat, offset: nat)

  /** bb_dict: files with the address ranges of their blocks, in the order the dictionary yields them. */
  type Ranges = seq<(string, seq<(nat, nat)>)>

  /** get_basic_block and get_symbol_by_offset. */
  type BlockReader = (string, nat, nat) -> seq<Inst>
  type SymbolReader = (string, nat) -> string

  function Length(insts: seq<Inst>): nat {
    if insts == [] then 0 else Length(insts[..|insts| - 1]) + insts[|insts| - 1].length
  }

  /** The rows of one block: offsets are the lengths of what precedes. */
  function BlockRows(dso: string, symbol: string, addr: nat, insts: seq<Inst>): seq<(Index, Inst)> {
    seq(|insts|, j requires 0 <= j < |insts| => (Index(dso, symbol, addr, Length(insts[..j])), insts[j]))
  }

  function FileRows(dso: string, ranges: seq<(nat, nat)>, read: BlockReader, name: SymbolReader): seq<(Index, Inst)> {
    if ranges == [] then []
    else
      var r := ranges[|ranges| - 1];
      FileRows(dso, ranges[..|ranges| - 1], read, name) + BlockRows(dso, name(dso, r.0), r.0, read(dso, r.0, r.1))
  }

  function TableRows(dict: Ranges, read: BlockReader, name: SymbolReader): seq<(Index, Inst)> {
    if dict == [] then []
    else
      var d := dict[|dict| - 1];
      TableRows(dict[..|dict| - 1], read, name) + FileRows(d.0, d.1, read, name)
  }

  function Zip(index: seq<Index>, rows: seq<Inst>): seq<(Index, Inst)>
    requires |index| == |rows|
  {
    seq(|rows|, k requires 0 <= k < |rows| => (index[k], rows[k]))
  }

  /** How many instructions these blocks of a file have. */
  function InstsIn(dso: string, ranges: seq<(nat, nat)>, read: BlockReader): nat {
    if ranges == [] then 0
    else
      var r := ranges[|ranges| - 1];
      InstsIn(dso, ranges[..|ranges| - 1], read) + |read(dso, r.0, r.1)|
  }

  /** How many instructions the blocks of all these files have. */
  function InstsInAll(dict: Ranges, read: BlockReader): nat {
    if dict == [] then 0
    else
      var d := dict[|dict| - 1];
      InstsInAll(dict[..|dict| - 1], read) + InstsIn(d.0, d.1, read)
  }

  /** Instruction j of block r of file d stands behind all of the earlier files and of the file's earlier
      blocks; it is indexed by its own file, its own block's symbol and address, and by the length of what
      precedes it in the block. */
  ghost predicate RowStands(index: seq<Index>, rows: seq<Inst>, dict: Ranges, read: BlockReader, name: SymbolReader,
                            d: nat, r: nat, j: nat)
    requires d < |dict| && r < |dict[d].1|
  {
    var (dso, (from, to)) := (dict[d].0, dict[d].1[r]);
    var block := read(dso, from, to);
    var p := InstsInAll(dict[..d], read) + InstsIn(dso, dict[d].1[..r], read) + j;
    j < |block| ==>
      && p < |index| && p < |rows|
      && rows[p] == block[j]
      && index[p] == Index(dso, name(dso, from), from, Length(block[..j]))
  }

  ghost predicate RowsStand(index: seq<Index>, rows: seq<Inst>, dict: Ranges, read: BlockReader, name: SymbolReader) {
    && |index| == |rows| == InstsInAll(dict, read)
    && forall d, r, j: nat :: 0 <= d < |dict| && 0 <= r < |dict[d].1| ==> RowStands(index, rows, dict, read, name, d, r, j)
  }

  lemma {:induction false} FileRowAt(dso: string, ranges: seq<(nat, nat)>, read: BlockReader, name: SymbolReader, r: nat, j: nat)
    requires r < |ranges| && j < |read(dso, ranges[r].0, ranges[r].1)|
    ensures var rows, p := FileRows(dso, ranges, read, name), InstsIn(dso, ranges[..r], read) + j;
            var block := read(dso, ranges[r].0, ranges[r].1);
            && |rows| == InstsIn(dso, ranges, read) && p < |rows|
            && rows[p] == (Index(dso, name(dso, ranges[r].0), ranges[r].0, Length(block[..j])), block[j])
  {
    hide Length;
    var n := |ranges| - 1;
    FileLength(dso, ranges[..n], read, name);
    if r < n {
      FileRowAt(dso, ranges[..n], read, name, r, j);
      assert ranges[..n][..r] == ranges[..r];
    }
  }

  lemma {:induction false} FileLength(dso: string, ranges: seq<(nat, nat)>, read: BlockReader, name: SymbolReader)
    ensures |FileRows(dso, ranges, read, name)| == InstsIn(dso, ranges, read)
  {
    hide Length;
    if ranges != [] {
      FileLength(dso, ranges[..|ranges| - 1], read, name);
    }
  }

  lemma {:induction false} TableLength(dict: Ranges, read: BlockReader, name: SymbolReader)
    ensures |TableRows(dict, read, name)| == InstsInAll(dict, read)
  {
    hide FileRows;
    if dict != [] {
      var n := |dict| - 1;
      TableLength(dict[..n], read, name);
      FileLength(dict[n].0, dict[n].1, read, name);
    }
  }

  lemma {:induction false} TableRowAt(dict: Ranges, read: BlockReader, name: SymbolReader, d: nat, r: nat, j: nat)
    requires d < |dict| && r < |dict[d].1| && j < |read(dict[d].0, dict[d].1[r].0, dict[d].1[r].1)|
    ensures var rows := TableRows(dict, read, name);
            var (dso, (from, to)) := (dict[d].0, dict[d].1[r]);
            var block, p := read(dso, from, to), InstsInAll(dict[..d], read) + InstsIn(dso, dict[d].1[..r], read) + j;
            p < |rows| && rows[p] == (Index(dso, name(dso, from), from, Length(block[..j])), block[j])
  {
    hide Length, FileRows;
    var n := |dict| - 1;
    TableLength(dict[..n], read, name);
    if d < n {
      TableRowAt(dict[..n], read, name, d, r, j);
      assert dict[..n][..d] == dict[..d];
    } else {
      FileRowAt(dict[n].0, dict[n].1, read, name, r, j);
    }
  }

  /** The table of any dictionary, row by row. */
  lemma TableStands(index: seq<Index>, rows: seq<Inst>, dict: Ranges, read: BlockReader, name: SymbolReader)
    requires |index| == |rows| && Zip(index, rows) == TableRows(dict, read, name)
    ensures RowsStand(index, rows, dict, read, name)
  {
    hide Length, TableRows, InstsIn, InstsInAll;
    TableLength(dict, read, name);
    assert |Zip(index, rows)| == |rows|;
    forall d, r, j: nat | 0 <= d < |dict| && 0 <= r < |dict[d].1|
      ensures RowStands(index, rows, dict, read, name, d, r, j)
    {
      if j < |read(dict[d].0, dict[d].1[r].0, dict[d].1[r].1)| {
        TableRowAt(dict, read, name, d, r, j);
        var p := InstsInAll(dict[..d], read) + InstsIn(dict[d].0, dict[d].1[..r], read) + j;
        assert Zip(index, rows)[p] == (index[p], rows[p]);
      }
    }
  }

  lemma ZipAppend(index: seq<Index>, rows: seq<Inst>, x: Index, i: Inst)
    requires |index| == |rows|
    ensures Zip(index + [x], rows + [i]) == Zip(index, rows) + [(x, i)]
  {
  }

  /** The innermost loop: one row per instruction of a block. */
  method AppendBlock(index0: seq<Index>, rows0: seq<Inst>, dso: string, symbol: string, from: nat, bb: seq<Inst>)
    returns (index: seq<Index>, rows: seq<Inst>)
    requires |index0| == |rows0|
    ensures |index| == |rows|
    ensures Zip(index, rows) == Zip(index0, rows0) + BlockRows(dso, symbol, from, bb)
  {
    hide Zip;
    index, rows := index0, rows0;
    var offset := 0;
    ghost var block := BlockRows(dso, symbol, from, bb);
    for i := 0 to |bb|
      invariant |index| == |rows|
      invariant offset == Length(bb[..i])
      invariant Zip(index, rows) == Zip(index0, rows0) + block[..i]
    {
      assert bb[..i + 1][..i] == bb[..i];
      ZipAppend(index, rows, Index(dso, symbol, from, offset), bb[i]);
      index := index + [Index(dso, symbol, from, offset)];
      rows := rows + [bb[i]];
      offset := offset + bb[i].length;
      assert block[..i + 1] == block[..i] + [block[i]];
    }
    assert block[..|bb|] == block;
  }

  /** get_inst_lists_for_basic_blocks: index and data are appended in step, so row k of the data
      belongs to entry k of the index, and offsets restart in every block. */
  method GetInstLists(dict: Ranges, read: BlockReader, name: SymbolReader)
    returns (index: seq<Index>, rows: seq<Inst>)
    ensures |index| == |rows|
    ensures Zip(index, rows) == TableRows(dict, read, name)
    ensures RowsStand(index, rows, dict, read, name)
  {
    hide Zip, BlockRows, RowsStand;
    index, rows := [], [];
    ZipEmpty();
    for d := 0 to |dict|
      invariant |index| == |rows|
      invariant Zip(index, rows) == TableRows(dict[..d], read, name)
    {
      assert dict[..d + 1][..d] == dict[..d];
      var dso, ranges := dict[d].0, dict[d].1;
      ghost var before := Zip(index, rows);
      for r := 0 to |ranges|
        invariant |index| == |rows|
        invariant Zip(index, rows) == before + FileRows(dso, ranges[..r], read, name)
      {
        assert ranges[..r + 1][..r] == ranges[..r];
        var from, to := ranges[r].0, ranges[r].1;
        var bb := read(dso, from, to);
        var symbol := name(dso, from);
        index, rows := AppendBlock(index, rows, dso, symbol, from, bb);
      }
      assert ranges[..|ranges|] == ranges;
    }
    assert dict[..|dict|] == dict;
    TableStands(index, rows, dict, read, name);
  }

  lemma ZipEmpty()
    ensures Zip([], []) == []
  {
  }

  lemma {:induction false} SweepOffsets(dec: Decoder, data: Bytes, p: nat, j: nat)
    requires Contract(dec) && p <= |data| && j < |Sweep(dec, data, p)|
    ensures Sweep(dec, data, p)[j].pos == p + Length(Insts(Sweep(dec, data, p))[..j])
    decreases |data| - p
  {
    hide Contract;
    var s := Sweep(dec, data, p);
    SweepStep(dec, data, p);
    if j > 0 {
      var i := dec(data[p..]).value;
      var tail := Sweep(dec, data, p + i.length);
      SweepOffsets(dec, data, p + i.length, j - 1);
      assert Insts(s)[..j] == [i] + Insts(tail)[..j - 1];
      LengthCons(i, Insts(tail)[..j - 1]);
    }
  }

  lemma {:induction false} LengthCons(i: Inst, s: seq<Inst>)
    ensures Length([i] + s) == i.length + Length(s)
  {
    if s == [] {
      assert [i] + s == [i] && [i][..0] == [];
    } else {
      LengthCons(i, s[..|s| - 1]);
      assert ([i] + s)[..|s|] == [i] + s[..|s| - 1];
    }
  }

  lemma {:induction false} SweepLengths(dec: Decoder, data: Bytes, p: nat)
    requires Contract(dec) && p <= |data|
    ensures forall j :: 0 <= j < |Sweep(dec, data, p)| ==> Sweep(dec, data, p)[j].inst.length >= 1
    decreases |data| - p
  {
    if dec(data[p..]).Some? {
      SweepLengths(dec, data, p + dec(data[p..]).value.length);
    }
  }

  /** When a block's instructions are the sweep of its bytes, the row addresses (block address plus
      offset) are the sweep positions, and they strictly increase. */
  lemma RowsAreSweep(dso: string, symbol: string, addr: nat, dec: Decoder, data: Bytes, j: nat)
    requires Contract(dec) && j < |Sweep(dec, data, 0)|
    ensures var rows := BlockRows(dso, symbol, addr, Insts(Sweep(dec, data, 0)));
            && |rows| == |Sweep(dec, data, 0)|
            && rows[j].1 == Sweep(dec, data, 0)[j].inst
            && rows[j].0.blockAddr + rows[j].0.offset == addr + Sweep(dec, data, 0)[j].pos
            && (j > 0 ==> rows[j - 1].0.offset + rows[j - 1].1.length == rows[j].0.offset
                          && rows[j - 1].0.offset < rows[j].0.offset)
  {
    hide Contract, Sweep;
    var s := Insts(Sweep(dec, data, 0));
    SweepOffsets(dec, data, 0, j);
    SweepLengths(dec, data, 0);
    if j > 0 {
      assert s[..j][..j - 1] == s[..j - 1];
    }
  }

  /** The whole chain for one block of a file: what the table says about a block read with the
      growing windows is the linear sweep of its bytes. */
  method TableOfBlock(dso: string, symbol: string, addr: nat, dec: Decoder, data: Bytes)
    returns (index: seq<Index>, rows: seq<Inst>)
    requires Contract(dec) && |data| < WORD && !Overruns(dec, data)
    ensures |index| == |rows| == |Sweep(dec, data, 0)|
    ensures forall j :: 0 <= j < |rows| ==>
              rows[j] == Sweep(dec, data, 0)[j].inst &&
              index[j] == Index(dso, symbol, addr, Sweep(dec, data, 0)[j].pos)
  {
    hide Contract, Sweep, Overruns;
    var list := DisassembleList(dec, data);
    var bb := list.value;
    var read := (d: string, f: nat, t: nat) => bb;
    var name := (d: string, f: nat) => symbol;
    index, rows := GetInstLists([(dso, [(addr, addr + |data|)])], read, name);
    var block := BlockRows(dso, symbol, addr, bb);
    OneBlock(dso, symbol, addr, addr + |data|, read, name);
    forall j | 0 <= j < |Sweep(dec, data, 0)|
      ensures block[j] == (Index(dso, symbol, addr, Sweep(dec, data, 0)[j].pos), Sweep(dec, data, 0)[j].inst)
    {
      SweepOffsets(dec, data, 0, j);
    }
    assert Zip(index, rows) == block;
    forall j | 0 <= j < |rows| ensures (index[j], rows[j]) == block[j] {
      assert Zip(index, rows)[j] == block[j];
    }
  }

  lemma OneBlock(dso: string, symbol: string, from: nat, to: nat, read: BlockReader, name: SymbolReader)
    requires name(dso, from) == symbol
    ensures TableRows([(dso, [(from, to)])], read, name) == BlockRows(dso, symbol, from, read(dso, from, to))
  {
    var dict := [(dso, [(from, to)])];
    var block := BlockRows(dso, symbol, from, read(dso, from, to));
    assert dict[..0] == [] && dict[0].1[..0] == [];
    assert FileRows(dso, dict[0].1, read, name) == [] + block;
    assert TableRows(dict, read, name) == [] + ([] + block);
  }
}
