/** Distribution of restart data: the root cuts each rank's cells into blocks and sends every block to its rank as two
    messages, while the ranks run through the same blocks and receive. */
module Restart {
  import opened Basics

  // ----- C integer division

  function Quotient(a: int, b: int): int
    requires b > 0
  {
    if a >= 0 then a / b else -(-a / b)
  }

  function Remainder(a: int, b: int): int
    requires b > 0
  {
    a - Quotient(a, b) * b
  }

  // ----- blocks of a rank

  function Range(first: int, last: int): (r: seq<int>)
    ensures |r| == if last < first then 0 else last - first + 1
    ensures forall i :: 0 <= i < |r| ==> r[i] == first + i
  {
    if last < first then [] else seq(last - first + 1, i => first + i)
  }

  /** The cells in i blocks. */
  function Times(i: nat, block: int): int {
    if i == 0 then 0 else Times(i - 1, block) + block
  }

  lemma {:induction false} TimesIs(i: nat, block: int)
    ensures Times(i, block) == i * block
  {
    if i > 0 {
      TimesIs(i - 1, block);
      assert i * block == (i - 1) * block + block;
    }
  }

  lemma {:induction false} TimesGrows(i: nat, j: nat, block: int)
    requires block > 0 && i <= j
    ensures 0 <= Times(i, block) <= Times(j, block)
    ensures i < j ==> Times(i, block) + block <= Times(j, block)
  {
    if i < j {
      TimesGrows(i, j - 1, block);
    } else if i > 0 {
      TimesGrows(i - 1, i - 1, block);
    }
  }

  /** The cells of block i of a rank whose cells run from first to last. */
  function Block(first: int, last: int, block: int, i: nat): seq<int> {
    Range(first + Times(i, block), LastOf(first, last, block, i + 1))
  }

  /** The last cell of the first i blocks. */
  function LastOf(first: int, last: int, block: int, i: nat): int {
    var end := first + Times(i, block) - 1;
    if end > last then last else end
  }

  function BlockCount(first: int, last: int, block: int): int
    requires block > 0
  {
    var count := last - first + 1;
    Quotient(count, block) + if Remainder(count, block) > 0 then 1 else 0
  }

  /** The number of times a loop from 0 to the block count runs. */
  function BlocksOf(first: int, last: int, block: int): nat
    requires block > 0
  {
    var n := BlockCount(first, last, block);
    if n < 0 then 0 else n
  }

  function Concat(first: int, last: int, block: int, k: nat): seq<int> {
    if k == 0 then [] else Concat(first, last, block, k - 1) + Block(first, last, block, k - 1)
  }

  lemma Ceiling(count: int, block: int)
    requires block > 0 && count > 0
    ensures var n := Quotient(count, block) + if Remainder(count, block) > 0 then 1 else 0;
            n > 0 && (n - 1) * block < count <= n * block
  {
    var q, r := count / block, count % block;
    assert count == q * block + r && 0 <= r < block;
    CeilingOf(count, block, q, r);
  }

  lemma CeilingOf(count: int, block: int, q: int, r: int)
    requires block > 0 && count > 0 && count == q * block + r && 0 <= r < block
    ensures var n := q + if r > 0 then 1 else 0;
            n > 0 && (n - 1) * block < count <= n * block
  {
    assert (q + 1) * block == q * block + block && (q - 1) * block == q * block - block;
    assert q < 0 ==> q * block < 0;
  }

  lemma NothingToSend(count: int, block: int)
    requires block > 0 && count <= 0
    ensures Quotient(count, block) + (if Remainder(count, block) > 0 then 1 else 0) <= 0
  {
    var q, r := -count / block, -count % block;
    assert -count == q * block + r && 0 <= r < block && q >= 0;
  }

  /** n blocks hold `count` cells, and no fewer blocks do; not positive if there are no cells. */
  ghost predicate JustEnough(count: int, block: int, n: int) {
    if count <= 0 then n <= 0 else n > 0 && Times(n - 1, block) < count <= Times(n, block)
  }

  lemma CeilingFits(count: int, block: int)
    requires block > 0
    ensures JustEnough(count, block, Quotient(count, block) + if Remainder(count, block) > 0 then 1 else 0)
  {
    if count <= 0 {
      NothingToSend(count, block);
    } else {
      Ceiling(count, block);
      var n := Quotient(count, block) + if Remainder(count, block) > 0 then 1 else 0;
      TimesIs(n, block);
      TimesIs(n - 1, block);
    }
  }

  /** Only one number of blocks is just enough. */
  lemma EnoughUnique(count: int, block: int, m: int, n: int)
    requires block > 0 && count > 0 && JustEnough(count, block, m) && JustEnough(count, block, n)
    ensures m == n
  {
    if m < n { TimesGrows(m, n - 1, block); }
    if n < m { TimesGrows(n, m - 1, block); }
  }

  lemma BlockCountFits(count: int, first: int, last: int, block: int)
    requires block > 0 && count == last - first + 1
    ensures JustEnough(count, block, BlocksOf(first, last, block))
  {
    CeilingFits(count, block);
  }

  lemma {:induction false} ConcatUpTo(first: int, last: int, block: int, n: nat, k: nat)
    requires block > 0 && first <= last && k <= n && 0 < n && Times(n - 1, block) <= last - first
    ensures Concat(first, last, block, k) == Range(first, LastOf(first, last, block, k))
  {
    if k > 0 {
      ConcatUpTo(first, last, block, n, k - 1);
      TimesGrows(k - 1, n - 1, block);
      TimesGrows(k - 1, k, block);
      RangeJoin(first, LastOf(first, last, block, k - 1), first + Times(k - 1, block), LastOf(first, last, block, k));
    }
  }

  lemma RangeJoin(first: int, end: int, mid: int, last: int)
    requires first <= mid <= last + 1 && end == mid - 1
    ensures Range(first, end) + Range(mid, last) == Range(first, last)
  {
  }

  /** The blocks of a rank, put one after the other, are its cells in order: each cell lies in exactly one block. No
      block is empty, and none is longer than the block size. */
  lemma BlocksPartition(first: int, last: int, block: int)
    requires block > 0
    ensures Concat(first, last, block, BlocksOf(first, last, block)) == Range(first, last)
    ensures forall i :: 0 <= i < BlocksOf(first, last, block) ==> 1 <= |Block(first, last, block, i)| <= block
  {
    BlockCountFits(last - first + 1, first, last, block);
    if first <= last {
      var n := BlocksOf(first, last, block);
      ConcatUpTo(first, last, block, n, n);
      forall i | 0 <= i < n
        ensures 1 <= |Block(first, last, block, i)| <= block
      {
        TimesGrows(i, n - 1, block);
      }
    }
  }

  // ----- messages

  /** The dump of some cells from a restart file, or its length, sent ahead of it. */
  datatype Msg = Size(file: nat, cells: seq<int>) | Dump(file: nat, cells: seq<int>)

  datatype Send = Send(to: nat, msg: Msg)

  /** The messages of a list that go to rank r. */
  function OnlyTo(sends: seq<Send>, r: nat): seq<Msg> {
    if sends == [] then [] else (if sends[0].to == r then [sends[0].msg] else []) + OnlyTo(sends[1..], r)
  }

  lemma {:induction false} OnlyToAdds(a: seq<Send>, b: seq<Send>, r: nat)
    ensures OnlyTo(a + b, r) == OnlyTo(a, r) + OnlyTo(b, r)
  {
    if a == [] {
      assert a + b == b;
      assert OnlyTo([], r) + OnlyTo(b, r) == OnlyTo(b, r);
    } else {
      OnlyToAdds(a[1..], b, r);
      assert (a + b)[1..] == a[1..] + b && (a + b)[0] == a[0];
      Associative(if a[0].to == r then [a[0].msg] else [], OnlyTo(a[1..], r), OnlyTo(b, r));
    }
  }

  /** What rank cells first to last is to receive for one file, up to block k. */
  function BlockMsgs(file: nat, first: int, last: int, block: int, k: nat): seq<Msg> {
    if k == 0 then []
    else
      var cells := Block(first, last, block, k - 1);
      BlockMsgs(file, first, last, block, k - 1) + [Size(file, cells), Dump(file, cells)]
  }

  /** The messages for the first f files, if m gives those for one. */
  function AllMsgs(m: nat -> seq<Msg>, f: nat): seq<Msg> {
    if f == 0 then [] else AllMsgs(m, f - 1) + m(f - 1)
  }

  /** Sizes and dumps alternate, and each size is that of the dump after it. */
  ghost predicate SizesAgree(msgs: seq<Msg>) {
    |msgs| % 2 == 0 && forall i :: 0 <= i < |msgs| / 2 ==> Announced(msgs, i)
  }

  /** Messages 2i and 2i + 1 are a dump's size and the dump. */
  ghost predicate Announced(msgs: seq<Msg>, i: int) {
    && 0 <= 2 * i < |msgs| - 1
    && msgs[2 * i + 1].Dump? && msgs[2 * i] == Size(msgs[2 * i + 1].file, msgs[2 * i + 1].cells)
  }

  /** The cells of a file in one message. */
  function CellsIn(m: Msg, file: nat): seq<int> {
    if m.Dump? && m.file == file then m.cells else []
  }

  /** The cells of a file in the first k messages. */
  function CellsTo(msgs: seq<Msg>, k: nat, file: nat): seq<int>
    requires k <= |msgs|
  {
    if k == 0 then [] else CellsTo(msgs, k - 1, file) + CellsIn(msgs[k - 1], file)
  }

  /** The cells received from a file. */
  function CellsOf(msgs: seq<Msg>, file: nat): seq<int> {
    CellsTo(msgs, |msgs|, file)
  }

  lemma {:induction false} CellsPrefix(a: seq<Msg>, b: seq<Msg>, k: nat, file: nat)
    requires k <= |a|
    ensures CellsTo(a + b, k, file) == CellsTo(a, k, file)
  {
    if k > 0 {
      CellsPrefix(a, b, k - 1, file);
    }
  }

  lemma {:induction false} CellsToAdds(a: seq<Msg>, b: seq<Msg>, k: nat, file: nat)
    requires k <= |b|
    ensures CellsTo(a + b, |a| + k, file) == CellsTo(a, |a|, file) + CellsTo(b, k, file)
  {
    if k == 0 {
      CellsPrefix(a, b, |a|, file);
    } else {
      CellsToAdds(a, b, k - 1, file);
      assert (a + b)[|a| + k - 1] == b[k - 1];
      Associative(CellsTo(a, |a|, file), CellsTo(b, k - 1, file), CellsIn(b[k - 1], file));
    }
  }

  lemma CellsOfAdds(a: seq<Msg>, b: seq<Msg>, file: nat)
    ensures CellsOf(a + b, file) == CellsOf(a, file) + CellsOf(b, file)
  {
    CellsToAdds(a, b, |b|, file);
  }

  lemma {:induction false} BlockMsgsCount(file: nat, first: int, last: int, block: int, k: nat)
    ensures |BlockMsgs(file, first, last, block, k)| == 2 * k
  {
    if k > 0 {
      BlockMsgsCount(file, first, last, block, k - 1);
    }
  }

  lemma {:induction false} BlockSizes(file: nat, first: int, last: int, block: int, k: nat)
    ensures SizesAgree(BlockMsgs(file, first, last, block, k))
  {
    if k > 0 {
      BlockSizes(file, first, last, block, k - 1);
      var cells := Block(first, last, block, k - 1);
      var two := [Size(file, cells), Dump(file, cells)];
      assert SizesAgree(two) by {
        assert Announced(two, 0);
      }
      SizesAgreeAdds(BlockMsgs(file, first, last, block, k - 1), two);
    }
  }

  lemma {:induction false} BlockCells(file: nat, first: int, last: int, block: int, k: nat, g: nat)
    ensures CellsOf(BlockMsgs(file, first, last, block, k), g) == if g == file then Concat(first, last, block, k) else []
  {
    if k > 0 {
      BlockCells(file, first, last, block, k - 1, g);
      var cells := Block(first, last, block, k - 1);
      CellsOfAdds(BlockMsgs(file, first, last, block, k - 1), [Size(file, cells), Dump(file, cells)], g);
      CellsOfTwo(file, cells, g);
    }
  }

  lemma CellsOfTwo(file: nat, cells: seq<int>, g: nat)
    ensures CellsOf([Size(file, cells), Dump(file, cells)], g) == if g == file then cells else []
  {
    var two := [Size(file, cells), Dump(file, cells)];
    assert CellsTo(two, 1, g) == [];
    assert [] + cells == cells;
  }

  lemma SizesAgreeAdds(a: seq<Msg>, b: seq<Msg>)
    requires SizesAgree(a) && SizesAgree(b)
    ensures SizesAgree(a + b)
  {
    forall i | 0 <= i < |a + b| / 2
      ensures Announced(a + b, i)
    {
      if i < |a| / 2 {
        assert Announced(a, i);
      } else {
        assert Announced(b, i - |a| / 2);
      }
    }
  }

  lemma Twice(k: nat, f: nat)
    requires f > 0
    ensures k * f == k * (f - 1) + k
  {
  }

  lemma {:induction false} AllMsgsCount(m: nat -> seq<Msg>, f: nat, k: nat)
    requires forall i: nat :: |m(i)| == k
    ensures |AllMsgs(m, f)| == k * f
  {
    if f > 0 {
      AllMsgsCount(m, f - 1, k);
      Twice(k, f);
    }
  }

  /** Every dump meant for a rank is announced by its size. */
  lemma {:induction false} AllSizes(m: nat -> seq<Msg>, f: nat)
    requires forall i: nat :: SizesAgree(m(i))
    ensures SizesAgree(AllMsgs(m, f))
  {
    if f > 0 {
      AllSizes(m, f - 1);
      SizesAgreeAdds(AllMsgs(m, f - 1), m(f - 1));
    }
  }

  /** h(0) to h(f - 1), one after the other. */
  ghost function Joined<T>(h: nat -> seq<T>, f: nat): seq<T> {
    if f == 0 then [] else Joined(h, f - 1) + h(f - 1)
  }

  lemma {:induction false} JoinedOne<T>(h: nat -> seq<T>, f: nat, g: nat, s: seq<T>)
    requires forall i: nat :: h(i) == if i == g then s else []
    ensures Joined(h, f) == if g < f then s else []
  {
    if f > 0 {
      JoinedOne(h, f - 1, g, s);
      WithNothing(s);
    }
  }

  lemma {:induction false} CellsJoined(m: nat -> seq<Msg>, f: nat, g: nat, h: nat -> seq<int>)
    requires forall i: nat :: h(i) == CellsOf(m(i), g)
    ensures CellsOf(AllMsgs(m, f), g) == Joined(h, f)
  {
    if f > 0 {
      CellsJoined(m, f - 1, g, h);
      CellsOfAdds(AllMsgs(m, f - 1), m(f - 1), g);
    }
  }

  /** What is meant for a rank is, for each file, its blocks in order. */
  lemma AllCells(m: nat -> seq<Msg>, f: nat, g: nat, cells: seq<int>)
    requires forall i: nat :: CellsOf(m(i), g) == if i == g then cells else []
    ensures CellsOf(AllMsgs(m, f), g) == if g < f then cells else []
  {
    var h: nat -> seq<int> := (i: nat) => CellsOf(m(i), g);
    CellsJoined(m, f, g, h);
    JoinedOne(h, f, g, cells);
  }

  // ----- the programs of the ranks

  /** The cell ranges of the ranks. */
  datatype Layout = Layout(start: seq<int>, end: seq<int>, block: int) {
    ghost predicate Ok() {
      |start| == |end| && |start| > 0 && block > 0
    }

    function Blocks(r: nat): nat
      requires Ok() && r < |start|
    {
      BlocksOf(start[r], end[r], block)
    }
  }

  /** What rank r is to receive for each file. */
  function FileMsgs(l: Layout, r: nat): nat -> seq<Msg>
    requires l.Ok() && r < |l.start|
  {
    (file: nat) => BlockMsgs(file, l.start[r], l.end[r], l.block, l.Blocks(r))
  }

  /** What rank r is to receive in all. */
  function For(files: nat, l: Layout, r: nat): seq<Msg>
    requires l.Ok() && r < |l.start|
  {
    AllMsgs(FileMsgs(l, r), files)
  }

  /** The number of blocks of rank n, as root and the ranks compute it. */
  method CountBlocks(l: Layout, n: nat) returns (nblocks: int)
    requires l.Ok() && n < |l.start|
    ensures JustEnough(l.end[n] - l.start[n] + 1, l.block, nblocks)
  {
    var count := l.end[n] - l.start[n] + 1;
    CeilingFits(count, l.block);
    nblocks := Quotient(count, l.block);
    if Remainder(count, l.block) > 0 {
      nblocks := nblocks + 1;
    }
  }

  /** A loop up to that number runs once for each block. */
  lemma BlocksCounted(l: Layout, n: nat, nblocks: int)
    requires l.Ok() && n < |l.start| && JustEnough(l.end[n] - l.start[n] + 1, l.block, nblocks)
    ensures l.Blocks(n) == if nblocks < 0 then 0 else nblocks
  {
    var count := l.end[n] - l.start[n] + 1;
    BlockCountFits(count, l.start[n], l.end[n], l.block);
    if count > 0 { EnoughUnique(count, l.block, l.Blocks(n), nblocks); }
  }

  /** The cells of one block, one after the other. */
  method GatherBlock(l: Layout, n: nat, iblock: nat) returns (cells: seq<int>)
    requires l.Ok() && n < |l.start|
    ensures cells == Block(l.start[n], l.end[n], l.block, iblock)
  {
    TimesIs(iblock, l.block);
    TimesIs(iblock + 1, l.block);
    var start := l.start[n] + iblock * l.block;
    var end := l.start[n] + (iblock + 1) * l.block - 1;
    if end > l.end[n] {
      end := l.end[n];
    }
    cells := [];
    var j := start;
    while j <= end
      invariant start <= j && cells == Range(start, j - 1)
      invariant if start <= end then j <= end + 1 else j == start
    {
      cells := cells + [j];
      j := j + 1;
    }
  }

  /** Root sends the blocks of one rank, or keeps them if the rank is its own. */
  method SendBlocks(file: nat, l: Layout, n: nat) returns (sends: seq<Send>, kept: seq<int>)
    requires l.Ok() && n < |l.start|
    ensures forall i :: 0 <= i < |sends| ==> 0 < sends[i].to < |l.start|
    ensures forall r: nat :: OnlyTo(sends, r) == if r == n && n > 0 then BlockMsgs(file, l.start[n], l.end[n], l.block, l.Blocks(n)) else []
    ensures kept == if n == 0 then Range(l.start[n], l.end[n]) else []
  {
    var nblocks := CountBlocks(l, n);
    BlocksCounted(l, n, nblocks);
    sends, kept := SendUpTo(file, l, n, nblocks);
    AllAddressed(if n > 0 then BlockMsgs(file, l.start[n], l.end[n], l.block, l.Blocks(n)) else [], n);
    BlocksPartition(l.start[n], l.end[n], l.block);
  }

  /** The loop over the blocks of one rank. */
  method SendUpTo(file: nat, l: Layout, n: nat, nblocks: int) returns (sends: seq<Send>, kept: seq<int>)
    requires l.Ok() && n < |l.start|
    ensures var k := if nblocks < 0 then 0 else nblocks;
            && sends == Addressed(if n > 0 then BlockMsgs(file, l.start[n], l.end[n], l.block, k) else [], n)
            && kept == if n == 0 then Concat(l.start[n], l.end[n], l.block, k) else []
  {
    ghost var first, last := l.start[n], l.end[n];
    ghost var msgs: seq<Msg> := [];
    sends, kept := [], [];
    var iblock: nat := 0;
    while iblock < nblocks
      invariant (iblock == 0 || iblock <= nblocks) && sends == Addressed(msgs, n)
      invariant msgs == if n > 0 then BlockMsgs(file, first, last, l.block, iblock) else []
      invariant kept == if n == 0 then Concat(first, last, l.block, iblock) else []
    {
      var cells := GatherBlock(l, n, iblock);
      NextBlock(file, first, last, l.block, iblock, iblock + 1, cells);
      if n == 0 {
        kept := kept + cells;
      } else {
        AddressedMore(msgs, Size(file, cells), Dump(file, cells), n);
        sends := sends + [Send(n, Size(file, cells)), Send(n, Dump(file, cells))];
        msgs := msgs + [Size(file, cells), Dump(file, cells)];
      }
      iblock := iblock + 1;
    }
  }

  lemma NextBlock(file: nat, first: int, last: int, block: int, k: nat, next: nat, cells: seq<int>)
    requires cells == Block(first, last, block, k) && next == k + 1
    ensures Concat(first, last, block, next) == Concat(first, last, block, k) + cells
    ensures BlockMsgs(file, first, last, block, next) == BlockMsgs(file, first, last, block, k) + [Size(file, cells), Dump(file, cells)]
  {
  }

  /** The messages, sent to rank n. */
  ghost function Addressed(msgs: seq<Msg>, n: nat): (r: seq<Send>)
    ensures |r| == |msgs|
  {
    seq(|msgs|, i requires 0 <= i < |msgs| => Send(n, msgs[i]))
  }

  lemma AddressedMore(msgs: seq<Msg>, a: Msg, b: Msg, n: nat)
    ensures Addressed(msgs, n) + [Send(n, a), Send(n, b)] == Addressed(msgs + [a, b], n)
  {
  }

  lemma AllAddressed(msgs: seq<Msg>, n: nat)
    ensures forall i :: 0 <= i < |Addressed(msgs, n)| ==> Addressed(msgs, n)[i].to == n
    ensures forall r: nat :: OnlyTo(Addressed(msgs, n), r) == if r == n then msgs else []
  {
    forall r: nat
      ensures OnlyTo(Addressed(msgs, n), r) == if r == n then msgs else []
    {
      AddressedTo(msgs, n, r);
    }
  }

  /** They go to rank n and to no other. */
  lemma {:induction false} AddressedTo(msgs: seq<Msg>, n: nat, r: nat)
    ensures OnlyTo(Addressed(msgs, n), r) == if r == n then msgs else []
  {
    if msgs != [] {
      AddressedTo(msgs[1..], n, r);
      assert Addressed(msgs, n)[1..] == Addressed(msgs[1..], n);
      assert msgs == [msgs[0]] + msgs[1..];
    }
  }

  /** Everything root sends, in order, and what it keeps of each file. */
  method RootProgram(files: nat, l: Layout) returns (sends: seq<Send>, kept: seq<seq<int>>)
    requires l.Ok()
    ensures forall i :: 0 <= i < |sends| ==> 0 < sends[i].to < |l.start|
    ensures forall r :: 0 < r < |l.start| ==> OnlyTo(sends, r) == For(files, l, r)
    ensures kept == seq(files, _ => Range(l.start[0], l.end[0]))
  {
    sends, kept := [], [];
    for f := 0 to files
      invariant forall i :: 0 <= i < |sends| ==> 0 < sends[i].to < |l.start|
      invariant forall r :: 0 < r < |l.start| ==> OnlyTo(sends, r) == For(f, l, r)
      invariant kept == seq(f, _ => Range(l.start[0], l.end[0]))
    {
      var more, own := SendFile(f, l);
      forall r | 0 < r < |l.start|
        ensures OnlyTo(sends + more, r) == For(f + 1, l, r)
      {
        OnlyToAdds(sends, more, r);
      }
      sends := sends + more;
      kept := kept + [own];
    }
  }

  /** What root sends for one file. */
  method SendFile(f: nat, l: Layout) returns (sends: seq<Send>, kept: seq<int>)
    requires l.Ok()
    ensures forall i :: 0 <= i < |sends| ==> 0 < sends[i].to < |l.start|
    ensures forall r :: 0 < r < |l.start| ==> OnlyTo(sends, r) == FileMsgs(l, r)(f)
    ensures kept == Range(l.start[0], l.end[0])
  {
    sends, kept := [], [];
    for n := 0 to |l.start|
      invariant (forall i :: 0 <= i < |sends| ==> 0 < sends[i].to < |l.start|) && SentUpTo(sends, f, l, n)
      invariant kept == if n > 0 then Range(l.start[0], l.end[0]) else []
    {
      var more, own := SendBlocks(f, l, n);
      SentMore(sends, more, f, l, n);
      sends := sends + more;
      kept := kept + own;
    }
  }

  /** The first n ranks have been sent what is meant for them of file f, the others nothing. */
  ghost predicate SentUpTo(sends: seq<Send>, f: nat, l: Layout, n: nat)
    requires l.Ok()
  {
    forall r :: 0 < r < |l.start| ==> OnlyTo(sends, r) == if r < n then FileMsgs(l, r)(f) else []
  }

  lemma SentMore(sends: seq<Send>, more: seq<Send>, f: nat, l: Layout, n: nat)
    requires l.Ok() && n < |l.start| && SentUpTo(sends, f, l, n)
    requires forall r: nat :: OnlyTo(more, r) == if r == n && n > 0 then BlockMsgs(f, l.start[n], l.end[n], l.block, l.Blocks(n)) else []
    ensures SentUpTo(sends + more, f, l, n + 1)
  {
    forall r: nat | 0 < r < |l.start|
      ensures OnlyTo(sends + more, r) == if r < n + 1 then FileMsgs(l, r)(f) else []
    {
      OnlyToAdds(sends, more, r);
      var msgs := if r == n then FileMsgs(l, r)(f) else OnlyTo(sends, r);
      WithNothing(msgs);
    }
  }

  lemma WithNothing<T>(s: seq<T>)
    ensures [] + s == s && s + [] == s
  {
  }

  /** The number of receives rank `me` posts: it runs through the blocks of all ranks and receives two messages for each
      of its own. */
  method RankProgram(files: nat, l: Layout, me: nat) returns (receives: nat)
    requires l.Ok() && me < |l.start|
    ensures receives == 2 * l.Blocks(me) * files
  {
    receives := 0;
    ghost var mine := 2 * l.Blocks(me);
    for f := 0 to files
      invariant receives == mine * f
    {
      ghost var before := receives;
      for n := 0 to |l.start|
        invariant receives == before + if n > me then mine else 0
      {
        var nblocks := CountBlocks(l, n);
        BlocksCounted(l, n, nblocks);
        var iblock: nat := 0;
        while iblock < nblocks
          invariant iblock <= l.Blocks(n)
          invariant receives == before + (if n > me then mine else 0) + if n == me then 2 * iblock else 0
        {
          if me == n {
            receives := receives + 2;
          }
          iblock := iblock + 1;
        }
      }
      assert mine * (f + 1) == mine * f + mine;
    }
  }

  // ----- all ranks together

  /** Root sends each other rank what is meant for it, and each rank posts two receives per block and file. */
  ghost predicate Fits(files: nat, l: Layout, p: Programs)
    requires l.Ok()
  {
    && |p.receives| == |l.start| && p.receives[0] == 0
    && (forall i :: 0 <= i < |p.sends| ==> 0 < p.sends[i].to < |l.start|)
    && (forall r :: 0 < r < |l.start| ==> OnlyTo(p.sends, r) == For(files, l, r))
    && (forall r :: 0 < r < |l.start| ==> p.receives[r] == 2 * l.Blocks(r) * files)
  }

  /** The programs of all ranks when they share the list of files. */
  method AllPrograms(files: nat, l: Layout) returns (p: Programs)
    requires l.Ok()
    ensures Fits(files, l, p)
  {
    var sends, kept := RootProgram(files, l);
    var receives := [0];
    for me := 1 to |l.start|
      invariant |receives| == me && receives[0] == 0
      invariant forall r :: 0 < r < me ==> receives[r] == 2 * l.Blocks(r) * files
    {
      var n := RankProgram(files, l, me);
      receives := receives + [n];
    }
    p := Programs(sends, receives);
  }

  /** The next send of root, the messages under way to each rank and those each rank has received. */
  datatype State = State(pc: nat, chan: seq<seq<Msg>>, got: seq<seq<Msg>>)

  /** Root's sends and the number of receives of each rank. */
  datatype Programs = Programs(sends: seq<Send>, receives: seq<nat>) {
    ghost predicate Match() {
      && (forall i :: 0 <= i < |sends| ==> sends[i].to < |receives|)
      && (forall r :: 0 <= r < |receives| ==> |OnlyTo(sends, r)| == receives[r])
    }
  }

  ghost function Start(p: Programs): State {
    State(0, seq(|p.receives|, _ => []), seq(|p.receives|, _ => []))
  }

  ghost predicate Shape(p: Programs, s: State) {
    s.pc <= |p.sends| && |s.chan| == |s.got| == |p.receives|
  }

  ghost predicate Waiting(p: Programs, s: State, r: nat)
    requires Shape(p, s)
  {
    r < |p.receives| && |s.got[r]| < p.receives[r]
  }

  ghost predicate Sending(p: Programs, s: State) {
    Shape(p, s) && s.pc < |p.sends| && p.sends[s.pc].to < |p.receives|
  }

  /** Root's next send is buffered on its way to the rank, as long as there is room for it. */
  ghost predicate CanBuffer(p: Programs, room: nat, s: State) {
    Sending(p, s) && |s.chan[p.sends[s.pc].to]| < room
  }

  ghost function Buffer(p: Programs, s: State): State
    requires Sending(p, s)
  {
    var d := p.sends[s.pc].to;
    State(s.pc + 1, s.chan[d := s.chan[d] + [p.sends[s.pc].msg]], s.got)
  }

  /** Root's next send is handed over to the rank waiting for it. */
  ghost predicate CanHandOver(p: Programs, s: State) {
    Sending(p, s) && s.chan[p.sends[s.pc].to] == [] && Waiting(p, s, p.sends[s.pc].to)
  }

  ghost function HandOver(p: Programs, s: State): State
    requires CanHandOver(p, s)
  {
    var d := p.sends[s.pc].to;
    State(s.pc + 1, s.chan, s.got[d := s.got[d] + [p.sends[s.pc].msg]])
  }

  /** A waiting rank receives the first message under way to it. */
  ghost predicate CanReceive(p: Programs, s: State, r: nat) {
    Shape(p, s) && Waiting(p, s, r) && s.chan[r] != []
  }

  ghost function Receive(p: Programs, s: State, r: nat): State
    requires CanReceive(p, s, r)
  {
    State(s.pc, s.chan[r := s.chan[r][1..]], s.got[r := s.got[r] + [s.chan[r][0]]])
  }

  ghost predicate Step(p: Programs, room: nat, s: State, s': State) {
    || (CanBuffer(p, room, s) && s' == Buffer(p, s))
    || (CanHandOver(p, s) && s' == HandOver(p, s))
    || (exists r: nat :: CanReceive(p, s, r) && s' == Receive(p, s, r))
  }

  /** For each rank, what it has received, what is under way to it and what root has yet to send it are, in this order,
      all that root sends it. */
  ghost predicate Flow(p: Programs, s: State, r: nat)
    requires Shape(p, s) && r < |p.receives|
  {
    s.got[r] + s.chan[r] + OnlyTo(p.sends[s.pc..], r) == OnlyTo(p.sends, r)
  }

  ghost predicate Inv(p: Programs, s: State) {
    Shape(p, s) && forall r: nat :: r < |p.receives| ==> Flow(p, s, r)
  }

  lemma StartInv(p: Programs)
    ensures Inv(p, Start(p))
  {
    forall r: nat | r < |p.receives|
      ensures Flow(p, Start(p), r)
    {
      assert p.sends[0..] == p.sends;
    }
  }

  /** One step keeps the flow of every rank. */
  lemma StepInv(p: Programs, room: nat, s: State, s': State)
    requires Inv(p, s) && Step(p, room, s, s')
    ensures Inv(p, s') && Measure(p, s') < Measure(p, s)
  {
    if (CanBuffer(p, room, s) && s' == Buffer(p, s)) || (CanHandOver(p, s) && s' == HandOver(p, s)) {
      var next, rest := p.sends[s.pc], p.sends[s.pc + 1..];
      assert p.sends[s.pc..][0] == next && p.sends[s.pc..][1..] == rest;
      forall r: nat | r < |p.receives|
        ensures Flow(p, s', r)
      {
        assert Flow(p, s, r);
        FlowSent(s.got[r], s.chan[r], next.msg, OnlyTo(rest, r));
      }
      if CanBuffer(p, room, s) && s' == Buffer(p, s) {
        LengthsUpdate(s.chan, next.to, s'.chan[next.to]);
      }
    } else {
      var r: nat :| CanReceive(p, s, r) && s' == Receive(p, s, r);
      forall q: nat | q < |p.receives|
        ensures Flow(p, s', q)
      {
        assert Flow(p, s, q);
        if q == r {
          FlowReceived(s.got[r], s.chan[r], OnlyTo(p.sends[s.pc..], r));
        }
      }
      LengthsUpdate(s.chan, r, s.chan[r][1..]);
    }
  }

  lemma FlowSent(got: seq<Msg>, chan: seq<Msg>, m: Msg, rest: seq<Msg>)
    ensures got + chan + ([m] + rest) == got + (chan + [m]) + rest
    ensures chan == [] ==> got + chan + ([m] + rest) == (got + [m]) + chan + rest
    ensures got + chan + ([] + rest) == got + chan + rest
  {
    assert [] + rest == rest;
  }

  lemma FlowReceived(got: seq<Msg>, chan: seq<Msg>, rest: seq<Msg>)
    requires chan != []
    ensures (got + [chan[0]]) + chan[1..] + rest == got + chan + rest
  {
    assert chan == [chan[0]] + chan[1..];
  }

  function Lengths(c: seq<seq<Msg>>): nat {
    if c == [] then 0 else |c[0]| + Lengths(c[1..])
  }

  lemma {:induction false} LengthsUpdate(c: seq<seq<Msg>>, r: nat, m: seq<Msg>)
    requires r < |c|
    ensures Lengths(c[r := m]) == Lengths(c) - |c[r]| + |m|
  {
    if r > 0 {
      assert c[r := m][1..] == c[1..][r - 1 := m];
      LengthsUpdate(c[1..], r - 1, m);
    } else {
      assert c[r := m][1..] == c[1..];
    }
  }

  /** Steps left at most. */
  ghost function Measure(p: Programs, s: State): nat
    requires Shape(p, s)
  {
    2 * (|p.sends| - s.pc) + Lengths(s.chan)
  }

  /** Every message has been sent and received by its rank, in the order sent, and no receive is left over. */
  ghost predicate Delivered(p: Programs, s: State) {
    && Shape(p, s) && s.pc == |p.sends|
    && forall r: nat :: r < |p.receives| ==>
         s.chan[r] == [] && s.got[r] == OnlyTo(p.sends, r) && |s.got[r]| == p.receives[r]
  }

  ghost predicate CanStep(p: Programs, room: nat, s: State) {
    CanBuffer(p, room, s) || CanHandOver(p, s) || exists r: nat :: CanReceive(p, s, r)
  }

  /** No deadlock: unless everything is delivered, some rank can go on, whatever room there is for buffering. */
  lemma NoDeadlock(p: Programs, room: nat, s: State)
    requires p.Match() && Inv(p, s)
    ensures Delivered(p, s) || CanStep(p, room, s)
    ensures Delivered(p, s) ==> !CanStep(p, room, s)
  {
    if s.pc < |p.sends| {
      var d := p.sends[s.pc].to;
      assert Flow(p, s, d);
      assert OnlyTo(p.sends[s.pc..], d) != [];
      if s.chan[d] != [] {
        assert CanReceive(p, s, d);
      } else {
        assert CanHandOver(p, s);
      }
    } else {
      assert p.sends[s.pc..] == [];
      forall r: nat | r < |p.receives| && s.chan[r] == []
        ensures s.got[r] == OnlyTo(p.sends, r)
      {
        assert Flow(p, s, r);
      }
      if r: nat :| r < |p.receives| && s.chan[r] != [] {
        assert Flow(p, s, r);
        assert CanReceive(p, s, r);
      }
    }
  }

  /** A run from the start, in any order of the steps. */
  ghost predicate Run(p: Programs, room: nat, trace: seq<State>) {
    && trace != [] && trace[0] == Start(p)
    && forall i :: 0 < i < |trace| ==> StepTo(p, room, trace, i)
  }

  ghost predicate StepTo(p: Programs, room: nat, trace: seq<State>, i: int) {
    0 < i < |trace| && Step(p, room, trace[i - 1], trace[i])
  }

  lemma {:induction false} RunKeeps(p: Programs, room: nat, trace: seq<State>)
    requires Run(p, room, trace)
    ensures Inv(p, trace[|trace|-1])
    ensures |trace| - 1 + Measure(p, trace[|trace|-1]) <= Measure(p, Start(p))
  {
    var n := |trace| - 1;
    if n == 0 {
      StartInv(p);
    } else {
      var few := trace[..n];
      forall i | 0 < i < |few|
        ensures StepTo(p, room, few, i)
      {
        assert StepTo(p, room, trace, i);
      }
      RunKeeps(p, room, few);
      assert StepTo(p, room, trace, n);
      StepInv(p, room, trace[n - 1], trace[n]);
    }
  }

  lemma {:induction false} NothingUnderWay(n: nat)
    ensures Lengths(seq(n, _ => [])) == 0
  {
    if n > 0 {
      var c: seq<seq<Msg>> := seq(n, _ => []);
      assert c[1..] == seq(n - 1, _ => []);
      NothingUnderWay(n - 1);
    }
  }

  /** Rank r's messages hold its cells for every file, each dump announced by its size. */
  ghost predicate HoldsOwn(files: nat, l: Layout, r: nat, got: seq<Msg>)
    requires l.Ok() && r < |l.start|
  {
    && SizesAgree(got)
    && forall g: nat :: CellsOf(got, g) == if g < files then Range(l.start[r], l.end[r]) else []
  }

  lemma ForHoldsOwn(files: nat, l: Layout, r: nat)
    requires l.Ok() && r < |l.start|
    ensures HoldsOwn(files, l, r, For(files, l, r))
    ensures |For(files, l, r)| == 2 * l.Blocks(r) * files
  {
    var first, last, n, m := l.start[r], l.end[r], l.Blocks(r), FileMsgs(l, r);
    BlocksPartition(first, last, l.block);
    forall i: nat
      ensures |m(i)| == 2 * n && SizesAgree(m(i))
    {
      BlockMsgsCount(i, first, last, l.block, n);
      BlockSizes(i, first, last, l.block, n);
    }
    AllMsgsCount(m, files, 2 * n);
    AllSizes(m, files);
    forall g: nat
      ensures CellsOf(AllMsgs(m, files), g) == if g < files then Range(first, last) else []
    {
      forall i: nat
        ensures CellsOf(m(i), g) == if i == g then Range(first, last) else []
      {
        BlockCells(i, first, last, l.block, n, g);
      }
      AllCells(m, files, g, Range(first, last));
    }
  }

  ghost predicate AllHoldOwn(files: nat, l: Layout, got: seq<seq<Msg>>)
    requires l.Ok()
  {
    |got| == |l.start| && forall r :: 0 < r < |l.start| ==> HoldsOwn(files, l, r, got[r])
  }

  /** In every interleaving and with any room for buffering, a run takes at most two steps per message, can go on until
      everything is delivered, and then each rank holds exactly its own cells of every file, in order, every dump
      announced by its size. */
  lemma EveryRunDelivers(files: nat, l: Layout, p: Programs, room: nat, trace: seq<State>)
    requires l.Ok() && Fits(files, l, p) && Run(p, room, trace)
    ensures |trace| - 1 <= 2 * |p.sends| && Shape(p, trace[|trace|-1])
    ensures CanStep(p, room, trace[|trace|-1]) <==> !Delivered(p, trace[|trace|-1])
    ensures !CanStep(p, room, trace[|trace|-1]) ==> AllHoldOwn(files, l, trace[|trace|-1].got)
  {
    forall r | 0 <= r < |l.start|
      ensures |OnlyTo(p.sends, r)| == p.receives[r]
    {
      if r == 0 {
        NoneTo(p.sends, 0);
      } else {
        ForHoldsOwn(files, l, r);
      }
    }
    RunKeeps(p, room, trace);
    var s := trace[|trace|-1];
    NoDeadlock(p, room, s);
    NothingUnderWay(|p.receives|);
    if Delivered(p, s) {
      forall r | 0 < r < |l.start|
        ensures HoldsOwn(files, l, r, s.got[r])
      {
        ForHoldsOwn(files, l, r);
      }
    }
  }

  lemma {:induction false} NoneTo(sends: seq<Send>, r: nat)
    requires forall i :: 0 <= i < |sends| ==> sends[i].to != r
    ensures OnlyTo(sends, r) == []
  {
    if sends != [] {
      NoneTo(sends[1..], r);
    }
  }
}
