/**
 The block-linked deque of lib_pypy/_collections.py.

 A deque is a doubly linked chain of blocks of N cells.  `leftndx` and `rightndx` are
 the indices of the first and last live cell, in the leftmost and rightmost block.
 `Valid()` is the representation invariant; every method keeps it and states its effect
 on `contents`, the sequence the deque stands for.
 */
module Deques {
  import opened Wrappers
  import opened SeqOps
  import opened Grids

  datatype Error = IndexError | ValueError

  /** What is left of `s` when elements beyond `maxlen` are dropped at the left end. */
  function Bounded<T>(s: seq<T>, maxlen: Option<nat>): seq<T> {
    if maxlen.Some? then LastN(s, maxlen.value) else s
  }

  /** What is left of `s` when elements beyond `maxlen` are dropped at the right end. */
  function BoundedLeft<T>(s: seq<T>, maxlen: Option<nat>): seq<T> {
    if maxlen.Some? then FirstN(s, maxlen.value) else s
  }

  /** A block: the source's list of N cells followed by its two links. */
  class Block<T(==)> {
    var cells: Row<T>
    var lftlnk: Block?<T>
    var rgtlnk: Block?<T>

    constructor ()
      ensures cells == Layout(0, [], N)
      ensures lftlnk == null && rgtlnk == null
    {
      cells := seq(N, _ => None);
      lftlnk, rgtlnk := null, null;
    }
  }

  class Deque<T(==)> {
    var left: Block<T>
    var right: Block<T>
    var leftndx: int
    var rightndx: int
    var length: int
    var state: int
    const maxlen: Option<nat>
    ghost var blocks: seq<Block<T>>
    ghost var owned: set<Block<T>>  // every block ever linked in
    ghost var grid: Grid<T>
    ghost var contents: seq<T>

    /** The chain: distinct blocks, doubly linked, null at both outer ends. */
    ghost predicate Chain()
      reads `left, `right, `blocks, `owned, blocks`lftlnk, blocks`rgtlnk
    {
      && 0 < |blocks|
      && left == blocks[0]
      && right == blocks[|blocks| - 1]
      && (forall i :: 0 <= i < |blocks| ==> blocks[i] in owned)
      && (forall i, j :: 0 <= i < j < |blocks| ==> blocks[i] != blocks[j])
      && left.lftlnk == null
      && right.rgtlnk == null
      && (forall i :: 0 < i < |blocks| ==> blocks[i].lftlnk == blocks[i - 1])
      && (forall i :: 0 <= i < |blocks| - 1 ==> blocks[i].rgtlnk == blocks[i + 1])
    }

    /** `grid` is what the blocks hold. */
    ghost predicate Filled()
      reads `blocks, `grid, blocks`cells
    {
      |grid| == |blocks| && forall i :: 0 <= i < |blocks| ==> blocks[i].cells == grid[i]
    }

    /** The representation invariant, apart from the bound `maxlen`. */
    ghost predicate Shape()
      reads `left, `right, `leftndx, `rightndx, `length, `blocks, `owned, `grid, `contents, blocks
    {
      && Chain()
      && Filled()
      && 0 <= leftndx < N
      && 0 <= rightndx < N
      && length == |contents| == N * (|blocks| - 1) + rightndx - leftndx + 1
      && Holds(grid, leftndx, contents)
    }

    ghost predicate Valid()
      reads this, blocks
    {
      Shape() && (maxlen.Some? ==> length <= maxlen.value)
    }

    constructor (maxlen: Option<nat>)
      ensures Valid() && contents == [] && this.maxlen == maxlen
      ensures fresh(owned)
    {
      var b := new Block<T>();
      left, right := b, b;
      rightndx := N / 2;
      leftndx := N / 2 + 1;
      length := 0;
      state := 0;
      this.maxlen := maxlen;
      blocks := [b];
      owned := {b};
      grid := [b.cells];
      contents := [];
      new;
      HoldsNothing<T>(N / 2 + 1);
    }

    /** Links an empty block at the right end of the chain. */
    method GrowRight()
      requires Chain() && Filled() && Holds(grid, leftndx, contents)
      modifies `right, `blocks, `owned, `grid, right`rgtlnk
      ensures Chain() && Filled() && fresh(owned - old(owned)) && blocks == old(blocks) + [right]
      ensures Holds(grid, leftndx, contents)
    {
      HoldsGrowRight(grid, leftndx, contents);
      var newblock := new Block<T>();
      right.rgtlnk := newblock;
      newblock.lftlnk := right;
      right := newblock;
      blocks := blocks + [newblock];
      owned := owned + {newblock};
      grid := grid + [newblock.cells];
    }

    /** Links an empty block at the left end of the chain. */
    method GrowLeft()
      requires Chain() && Filled() && Holds(grid, 0, contents)
      modifies `left, `blocks, `owned, `grid, left`lftlnk
      ensures Chain() && Filled() && fresh(owned - old(owned)) && blocks == [left] + old(blocks)
      ensures Holds(grid, N, contents)
    {
      HoldsGrowLeft(grid, 0, contents);
      var newblock := new Block<T>();
      left.lftlnk := newblock;
      newblock.rgtlnk := left;
      left := newblock;
      blocks := [newblock] + blocks;
      owned := owned + {newblock};
      grid := [newblock.cells] + grid;
    }

    /** Unlinks the leftmost block; its right neighbour becomes the leftmost. */
    method ShrinkLeft()
      requires Chain() && Filled() && 1 < |blocks|
      modifies `left, `blocks, `grid, owned`lftlnk, owned`rgtlnk
      ensures Chain() && Filled() && blocks == old(blocks)[1..]
      ensures grid == old(grid)[1..]
    {
      assert blocks[0].rgtlnk == blocks[1];
      var prevblock := left.rgtlnk;
      prevblock.lftlnk := null;
      left.rgtlnk := null;
      left := prevblock;
      blocks := blocks[1..];
      grid := grid[1..];
    }

    /** Unlinks the rightmost block; its left neighbour becomes the rightmost. */
    method ShrinkRight()
      requires Chain() && Filled() && 1 < |blocks|
      modifies `right, `blocks, `grid, owned`lftlnk, owned`rgtlnk
      ensures Chain() && Filled() && blocks == old(blocks)[..|old(blocks)| - 1]
      ensures grid == old(grid)[..|old(grid)| - 1]
    {
      assert blocks[|blocks| - 1].lftlnk == blocks[|blocks| - 2];
      var prevblock := right.lftlnk;
      prevblock.rgtlnk := null;
      right.lftlnk := null;
      right := prevblock;
      blocks := blocks[..|blocks| - 1];
      grid := grid[..|grid| - 1];
    }

    /** Stores `c` in cell `j` of block `b`, the `i`th of the chain. */
    method Store(ghost i: int, b: Block<T>, j: int, c: Option<T>)
      requires Chain() && Filled() && 0 <= i < |blocks| && b == blocks[i] && 0 <= j < N
      modifies `grid, b`cells
      ensures Chain() && Filled()
      ensures grid == Set(old(grid), i, j, c)
    {
      b.cells := b.cells[j := c];
      grid := Set(grid, i, j, c);
    }

    /** Moves the right cursor one cell on, into a new block if need be. */
    method StepRight()
      requires Shape()
      modifies `rightndx, `right, `blocks, `owned, `grid, right`rgtlnk
      ensures Chain() && Filled() && Holds(grid, leftndx, contents)
      ensures 0 <= rightndx < N && N * (|blocks| - 1) + rightndx == leftndx + |contents|
      ensures fresh(owned - old(owned))
    {
      rightndx := rightndx + 1;
      if rightndx == N {
        GrowRight();
        rightndx := 0;
      }
    }

    /** Moves the left cursor one cell back, into a new block if need be. */
    method StepLeft()
      requires Shape()
      modifies `leftndx, `left, `blocks, `owned, `grid, left`lftlnk
      ensures Chain() && Filled() && Holds(grid, leftndx + 1, contents)
      ensures 0 <= leftndx < N && N * (|blocks| - 1) + rightndx == leftndx + |contents|
      ensures fresh(owned - old(owned))
    {
      leftndx := leftndx - 1;
      if leftndx == -1 {
        GrowLeft();
        leftndx := N - 1;
      }
    }

    /** Fills the free cell under the right cursor. */
    method FillRight(x: T)
      requires Chain() && Filled() && Holds(grid, leftndx, contents)
      requires 0 <= leftndx < N && 0 <= rightndx < N
      requires length == |contents| == N * (|blocks| - 1) + rightndx - leftndx
      modifies `length, `grid, `contents, right`cells
      ensures Shape() && contents == old(contents) + [x]
    {
      HoldsPutLast(grid, leftndx, contents, |blocks| - 1, rightndx, x);
      length := length + 1;
      Store(|blocks| - 1, right, rightndx, Some(x));
      contents := contents + [x];
    }

    /** Fills the free cell under the left cursor. */
    method FillLeft(x: T)
      requires Chain() && Filled() && Holds(grid, leftndx + 1, contents)
      requires 0 <= leftndx < N && 0 <= rightndx < N
      requires length == |contents| == N * (|blocks| - 1) + rightndx - leftndx
      modifies `length, `grid, `contents, left`cells
      ensures Shape() && contents == [x] + old(contents)
    {
      HoldsPutFirst(grid, leftndx + 1, contents, 0, leftndx, x);
      length := length + 1;
      Store(0, left, leftndx, Some(x));
      contents := [x] + contents;
    }

    /** Empties the cell under the right cursor. */
    method EmptyRight() returns (x: T)
      requires Shape() && 0 < length
      modifies `length, `grid, `contents, right`cells
      ensures Chain() && Filled() && Holds(grid, leftndx, contents)
      ensures length == |contents| == old(length) - 1
      ensures x == old(contents)[length] && contents == old(contents)[..length]
    {
      HoldsTakeLast(grid, leftndx, contents, |blocks| - 1, rightndx);
      x := right.cells[rightndx].value;
      Store(|blocks| - 1, right, rightndx, None);
      contents := contents[..length - 1];
      length := length - 1;
    }

    /** Empties the cell under the left cursor. */
    method EmptyLeft() returns (x: T)
      requires Shape() && 0 < length
      modifies `length, `grid, `contents, left`cells
      ensures Chain() && Filled() && Holds(grid, leftndx + 1, contents)
      ensures length == |contents| == old(length) - 1
      ensures x == old(contents)[0] && contents == old(contents)[1..]
    {
      HoldsTakeFirst(grid, leftndx, contents, 0, leftndx);
      x := left.cells[leftndx].value;
      Store(0, left, leftndx, None);
      contents := contents[1..];
      length := length - 1;
    }

    /** The deque has become empty: back to the middle of its only block. */
    method Recentre()
      requires Chain() && Filled() && Holds(grid, leftndx, contents)
      requires |blocks| == 1 && length == |contents| == 0
      modifies `leftndx, `rightndx
      ensures Shape()
      ensures leftndx == N / 2 + 1 && rightndx == N / 2
    {
      HoldsRecentre(grid, leftndx, N / 2 + 1);
      rightndx := N / 2;
      leftndx := N / 2 + 1;
    }

    /** Moves the left cursor one cell on, leaving its block once that is used up. */
    method LeaveLeft()
      requires Chain() && Filled() && Holds(grid, leftndx + 1, contents)
      requires 0 <= leftndx < N && 0 <= rightndx < N
      requires length == |contents| == N * (|blocks| - 1) + rightndx - leftndx
      modifies `leftndx, `rightndx, `left, `blocks, `grid, owned`lftlnk, owned`rgtlnk
      ensures Shape()
      ensures if old(leftndx) + 1 < N then
                leftndx == old(leftndx) + 1 && rightndx == old(rightndx) && blocks == old(blocks)
              else if |old(blocks)| == 1 then
                leftndx == N / 2 + 1 && rightndx == N / 2 && blocks == old(blocks)
              else leftndx == 0 && rightndx == old(rightndx) && blocks == old(blocks)[1..]
    {
      leftndx := leftndx + 1;
      if leftndx == N {
        assert |blocks| > 1 ==> blocks[0].rgtlnk == blocks[1];
        if left.rgtlnk == null {
          Recentre();
        } else {
          LeaveLeftBlock();
        }
      }
    }

    method LeaveLeftBlock()
      requires Chain() && Filled() && Holds(grid, N, contents) && 1 < |blocks|
      requires 0 <= rightndx < N && length == |contents| == N * (|blocks| - 2) + rightndx + 1
      modifies `leftndx, `left, `blocks, `grid, owned`lftlnk, owned`rgtlnk
      ensures Shape() && leftndx == 0 && blocks == old(blocks)[1..]
    {
      HoldsShrinkLeft(grid, N, contents);
      ShrinkLeft();
      leftndx := 0;
    }

    /** Moves the right cursor one cell back, leaving its block once that is used up. */
    method LeaveRight()
      requires Chain() && Filled() && Holds(grid, leftndx, contents)
      requires 0 <= leftndx < N && 0 <= rightndx < N
      requires length == |contents| == N * (|blocks| - 1) + rightndx - leftndx
      modifies `leftndx, `rightndx, `right, `blocks, `grid, owned`lftlnk, owned`rgtlnk
      ensures Shape()
      ensures if 0 < old(rightndx) then
                leftndx == old(leftndx) && rightndx == old(rightndx) - 1 && blocks == old(blocks)
              else if |old(blocks)| == 1 then
                leftndx == N / 2 + 1 && rightndx == N / 2 && blocks == old(blocks)
              else leftndx == old(leftndx) && rightndx == N - 1 && blocks == old(blocks)[..|old(blocks)| - 1]
    {
      rightndx := rightndx - 1;
      if rightndx == -1 {
        assert |blocks| > 1 ==> blocks[|blocks| - 1].lftlnk == blocks[|blocks| - 2];
        if right.lftlnk == null {
          Recentre();
        } else {
          LeaveRightBlock();
        }
      }
    }

    method LeaveRightBlock()
      requires Chain() && Filled() && Holds(grid, leftndx, contents) && 1 < |blocks|
      requires 0 <= leftndx < N && length == |contents| == N * (|blocks| - 1) - leftndx
      modifies `rightndx, `right, `blocks, `grid, owned`lftlnk, owned`rgtlnk
      ensures Shape() && rightndx == N - 1 && blocks == old(blocks)[..|old(blocks)| - 1]
    {
      HoldsShrinkRight(grid, leftndx, contents);
      ShrinkRight();
      rightndx := N - 1;
    }

    /** `append` up to its check of `maxlen`. */
    method Push(x: T)
      requires Shape()
      modifies this, owned
      ensures Shape()
      ensures fresh(owned - old(owned))
      ensures contents == old(contents) + [x]
      ensures state == old(state) + 1
    {
      state := state + 1;
      StepRight();
      FillRight(x);
    }

    /** `appendleft` up to its check of `maxlen`. */
    method PushLeft(x: T)
      requires Shape()
      modifies this, owned
      ensures Shape()
      ensures fresh(owned - old(owned))
      ensures contents == [x] + old(contents)
      ensures state == old(state) + 1
    {
      state := state + 1;
      StepLeft();
      FillLeft(x);
    }

    method Pop() returns (r: Result<T, Error>)
      requires Shape()
      modifies this, owned
      ensures Shape() && owned == old(owned)
      ensures if old(contents) == [] then r == Err(IndexError) && contents == [] && state == old(state)
              else && r == Ok(old(contents)[|old(contents)| - 1])
                   && contents == old(contents)[..|old(contents)| - 1]
                   && state == old(state) + 1
    {
      if left == right && leftndx > rightndx {
        return Err(IndexError);
      }
      assert left == right ==> |blocks| == 1;
      var x := EmptyRight();
      state := state + 1;
      LeaveRight();
      r := Ok(x);
    }

    method PopLeft() returns (r: Result<T, Error>)
      requires Shape()
      modifies this, owned
      ensures Shape() && owned == old(owned)
      ensures if old(contents) == [] then r == Err(IndexError) && contents == [] && state == old(state)
              else && r == Ok(old(contents)[0])
                   && contents == old(contents)[1..]
                   && state == old(state) + 1
    {
      if left == right && leftndx > rightndx {
        return Err(IndexError);
      }
      assert left == right ==> |blocks| == 1;
      var x := EmptyLeft();
      state := state + 1;
      LeaveLeft();
      r := Ok(x);
    }

    /** Appends at the right; a full deque drops its leftmost element. */
    method Append(x: T)
      requires Valid()
      modifies this, owned
      ensures Valid()
      ensures fresh(owned - old(owned))
      ensures contents == Bounded(old(contents) + [x], maxlen)
      ensures maxlen.Some? && old(length) < maxlen.value ==> contents == old(contents) + [x]
      ensures old(length) < length ==> state == old(state) + 1
    {
      Push(x);
      if maxlen.Some? && length > maxlen.value {
        var _ := PopLeft();
      }
    }

    /** Appends at the left; a full deque drops its rightmost element. */
    method AppendLeft(x: T)
      requires Valid()
      modifies this, owned
      ensures Valid()
      ensures fresh(owned - old(owned))
      ensures contents == BoundedLeft([x] + old(contents), maxlen)
      ensures maxlen.Some? && old(length) < maxlen.value ==> contents == [x] + old(contents)
      ensures old(length) < length ==> state == old(state) + 1
    {
      PushLeft(x);
      if maxlen.Some? && length > maxlen.value {
        var _ := Pop();
      }
    }

    /** Back to one empty block.  The source also forgets its count of changes. */
    method Clear()
      modifies this
      ensures Valid() && contents == [] && state == 0
      ensures fresh(owned)
    {
      var b := new Block<T>();
      left, right := b, b;
      rightndx := N / 2;
      leftndx := N / 2 + 1;
      length := 0;
      state := 0;
      blocks := [b];
      owned := {b};
      grid := [b.cells];
      contents := [];
      HoldsNothing<T>(N / 2 + 1);
    }

    method Extend(xs: seq<T>)
      requires Valid()
      modifies this, owned
      ensures Valid()
      ensures fresh(owned - old(owned))
      ensures contents == Bounded(old(contents) + xs, maxlen)
    {
      assert xs[..|xs|] == xs;
      for k := 0 to |xs|
        invariant Valid()
        invariant fresh(owned - old(owned))
        invariant contents == Bounded(old(contents) + xs[..k], maxlen)
      {
        Append(xs[k]);
        ExtendStep(old(contents), xs, k, maxlen);
      }
    }

    method ExtendLeft(xs: seq<T>)
      requires Valid()
      modifies this, owned
      ensures Valid()
      ensures fresh(owned - old(owned))
      ensures contents == BoundedLeft(Reversed(xs) + old(contents), maxlen)
    {
      assert xs[..|xs|] == xs;
      ReversedNil(xs, contents);
      for k := 0 to |xs|
        invariant Valid()
        invariant fresh(owned - old(owned))
        invariant contents == BoundedLeft(Reversed(xs[..k]) + old(contents), maxlen)
      {
        AppendLeft(xs[k]);
        ExtendLeftStep(old(contents), xs, k, maxlen);
      }
    }

    /** `appendleft(pop())`: never drops an element, even of a full deque. */
    method TurnRightOnce()
      requires Valid() && 0 < length
      modifies this, owned
      ensures Valid()
      ensures fresh(owned - old(owned))
      ensures contents == [old(contents)[old(length) - 1]] + old(contents)[..old(length) - 1]
      ensures length == old(length) && state == old(state) + 2
    {
      var r := Pop();
      AppendLeft(r.value);
    }

    /** `append(popleft())`. */
    method TurnLeftOnce()
      requires Valid() && 0 < length
      modifies this, owned
      ensures Valid()
      ensures fresh(owned - old(owned))
      ensures contents == old(contents)[1..] + [old(contents)[0]]
      ensures length == old(length) && state == old(state) + 2
    {
      var r := PopLeft();
      Append(r.value);
    }

    /** The loop of `rotate` for a positive shift. */
    method TurnRight(m: int)
      requires Valid() && 0 <= m <= length
      modifies this, owned
      ensures Valid()
      ensures fresh(owned - old(owned))
      ensures length == old(length) && contents == RotL(old(contents), length - m)
      ensures state == old(state) + 2 * m
    {
      var n := m;
      ghost var s, i := contents, length;
      assert RotL(s, i) == s;
      while n > 0
        invariant Valid() && length == |s|
        invariant 0 <= n <= m && i == |s| - m + n
        invariant fresh(owned - old(owned))
        invariant contents == RotL(s, i)
        invariant state == old(state) + 2 * (m - n)
      {
        RotLBack(s, i);
        TurnRightOnce();
        i := i - 1;
        n := n - 1;
      }
    }

    /** The loop of `rotate` for a negative shift. */
    method TurnLeft(m: int)
      requires Valid() && 0 <= m <= length
      modifies this, owned
      ensures Valid()
      ensures fresh(owned - old(owned))
      ensures length == old(length) && contents == RotL(old(contents), m)
      ensures state == old(state) + 2 * m
    {
      var n := -m;
      ghost var s, i := contents, 0;
      assert RotL(s, i) == s;
      while n < 0
        invariant Valid() && length == |s|
        invariant 0 <= -n <= m && i == m + n
        invariant fresh(owned - old(owned))
        invariant contents == RotL(s, i)
        invariant state == old(state) + 2 * i
      {
        RotLOn(s, i);
        TurnLeftOnce();
        i := i + 1;
        n := n + 1;
      }
    }

    /** The two loops of `rotate`, of which at most one runs. */
    method Turn(n: int)
      requires Valid() && -length <= n <= length
      modifies this, owned
      ensures Valid() && fresh(owned - old(owned))
      ensures length == old(length) && state == old(state) + 2 * Size(n)
      ensures n > 0 ==> contents == RotL(old(contents), length - n)
      ensures n <= 0 ==> contents == RotL(old(contents), -n)
    {
      if n > 0 {
        TurnRight(n);
      } else {
        TurnLeft(-n);
      }
    }

    /** The shift `rotate` settles for. */
    static method Shorten(k: int, length: int) returns (n: int)
      requires 0 < length
      ensures n == ShortShift(k, length)
    {
      n := k;
      var halflen := (length + 1) / 2;
      if n > halflen || n < -halflen {
        n := n % length;
        if n > halflen {
          n := n - length;
        } else if n < -halflen {
          n := n + length;
        }
      }
    }

    /** Rotates by `k` steps, to the right if positive, taking the shorter way round. */
    method Rotate(k: int)
      requires Valid()
      modifies this, owned
      ensures Valid()
      ensures fresh(owned - old(owned))
      ensures contents == Rotated(old(contents), k)
      ensures length == old(length)
      ensures state == old(state) + 2 * if length == 0 then 0 else Size(ShortShift(k, length))
    {
      if length == 0 {
        return;
      }
      var n := Shorten(k, length);
      ShortWay(contents, k);
      Turn(n);
    }

    /** The block and cell of element `index`, counted from the right end if negative. */
    method GetRef(index: int) returns (r: Result<(Block<T>, int), Error>, ghost i: int)
      requires Shape()
      ensures r.Ok? <==> -length <= index < length
      ensures r.Err? ==> r.error == IndexError
      ensures r.Ok? ==> InCell(r.value.0, i, r.value.1, if index >= 0 then index else length + index)
    {
      if index >= 0 {
        r, i := GetRefFromLeft(index);
      } else {
        r, i := GetRefFromRight(index);
      }
    }

    /** Element `k` is in cell `j` of `b`, the `i`th block of the chain. */
    ghost predicate InCell(b: Block<T>, i: int, j: int, k: int)
      requires Shape()
      reads this, blocks
    {
      && 0 <= i < |blocks| && b == blocks[i]
      && 0 <= j < N && 0 <= k < length && N * i + j == leftndx + k
    }

    /** First and last live cell, plus one, of the `i`th block. */
    method Span(block: Block<T>, ghost i: int) returns (l: int, r: int)
      requires Shape() && 0 <= i < |blocks| && block == blocks[i]
      ensures l == (if i == 0 then leftndx else 0)
      ensures r == (if i == |blocks| - 1 then rightndx + 1 else N)
    {
      l, r := 0, N;
      if block == left {
        l := leftndx;
      }
      if block == right {
        r := rightndx + 1;
      }
    }

    method GetRefFromLeft(index: int) returns (r: Result<(Block<T>, int), Error>, ghost i: int)
      requires Shape() && 0 <= index
      ensures r.Ok? <==> index < length
      ensures r.Err? ==> r.error == IndexError
      ensures r.Ok? ==> InCell(r.value.0, i, r.value.1, index)
    {
      var index' := index;
      var block: Block?<T> := left;
      i := 0;
      while block != null
        invariant block != null ==> 0 <= i < |blocks| && block == blocks[i]
        invariant block != null ==> 0 <= index' == (if i == 0 then index else index - (N * i - leftndx))
        invariant block == null ==> i == |blocks| && length <= index
        decreases |blocks| - i
      {
        var l, r' := Span(block, i);
        var span := r' - l;
        if index' < span {
          return Ok((block, l + index')), i;
        }
        index' := index' - span;
        assert i < |blocks| - 1 ==> blocks[i].rgtlnk == blocks[i + 1];
        block := block.rgtlnk;
        i := i + 1;
      }
      return Err(IndexError), i;
    }

    method GetRefFromRight(index: int) returns (r: Result<(Block<T>, int), Error>, ghost i: int)
      requires Shape() && index < 0
      ensures r.Ok? <==> -length <= index
      ensures r.Err? ==> r.error == IndexError
      ensures r.Ok? ==> InCell(r.value.0, i, r.value.1, length + index)
    {
      var index' := index;
      var block: Block?<T> := right;
      i := |blocks| - 1;
      while block != null
        invariant block != null ==> 0 <= i < |blocks| && block == blocks[i]
        invariant block != null ==>
          index' < 0 && index' == (if i == |blocks| - 1 then index else index + N * (|blocks| - 2 - i) + rightndx + 1)
        invariant block == null ==> i == -1 && index < -length
        decreases i
      {
        var l, r' := Span(block, i);
        var negativeSpan := l - r';
        if index' >= negativeSpan {
          return Ok((block, r' + index')), i;
        }
        index' := index' - negativeSpan;
        assert i > 0 ==> blocks[i].lftlnk == blocks[i - 1];
        block := block.lftlnk;
        i := i - 1;
      }
      return Err(IndexError), i;
    }

    method GetItem(index: int) returns (r: Result<T, Error>)
      requires Shape()
      ensures r == if 0 <= index < length then Ok(contents[index])
                   else if -length <= index < 0 then Ok(contents[length + index])
                   else Err(IndexError)
    {
      var ref, i := GetRef(index);
      if ref.Err? {
        return Err(ref.error);
      }
      var (block, j) := ref.value;
      HoldsAt(grid, leftndx, contents, i, j);
      r := Ok(block.cells[j].value);
    }

    method SetItem(index: int, x: T) returns (r: Result<(), Error>)
      requires Valid()
      modifies this, owned
      ensures Valid() && owned == old(owned) && length == old(length)
      ensures r == if -length <= index < length then Ok(()) else Err(IndexError)
      ensures contents == if 0 <= index < old(length) then old(contents)[index := x]
                          else if -old(length) <= index < 0 then old(contents)[old(length) + index := x]
                          else old(contents)
    {
      var ref, i := GetRef(index);
      if ref.Err? {
        return Err(ref.error);
      }
      var (block, j) := ref.value;
      Put(i, block, j, N * i + j - leftndx, x);
      r := Ok(());
    }

    /** Overwrites element `k`, which is in cell `j` of `block`. */
    method Put(ghost i: int, block: Block<T>, j: int, ghost k: int, x: T)
      requires Shape() && InCell(block, i, j, k)
      modifies `grid, `contents, block`cells
      ensures Shape()
      ensures contents == old(contents)[k := x]
    {
      HoldsPut(grid, leftndx, contents, i, j, x);
      Store(i, block, j, Some(x));
      contents := contents[k := x];
    }

    /** Deletes one element by rotating it to an end, popping it and rotating back. */
    method DelItem(index: int) returns (r: Result<(), Error>)
      requires Valid()
      modifies this, owned
      ensures Valid()
      ensures fresh(owned - old(owned))
      ensures r == if -old(length) <= index < old(length) then Ok(()) else Err(IndexError)
      ensures contents == if 0 <= index < old(length) then Without(old(contents), index)
                          else if -old(length) <= index < 0 then Without(old(contents), old(length) + index)
                          else old(contents)
    {
      if index >= 0 {
        if index >= length {
          return Err(IndexError);
        }
        DelFromLeft(index);
      } else {
        var j := -index - 1;
        if j >= length {
          return Err(IndexError);
        }
        DelFromRight(j);
      }
      r := Ok(());
    }

    method DelFromLeft(index: int)
      requires Valid() && 0 <= index < length
      modifies this, owned
      ensures Valid()
      ensures fresh(owned - old(owned))
      ensures contents == Without(old(contents), index)
    {
      ghost var s := contents;
      RotateAndPopLeft(-index);
      Rotate(index);
      DeleteByRotation(s, index);
    }

    method RotateAndPopLeft(k: int)
      requires Valid() && 0 < length
      modifies this, owned
      ensures Valid()
      ensures fresh(owned - old(owned))
      ensures contents == Rotated(old(contents), k)[1..]
    {
      Rotate(k);
      var _ := PopLeft();
    }

    method DelFromRight(j: int)
      requires Valid() && 0 <= j < length
      modifies this, owned
      ensures Valid()
      ensures fresh(owned - old(owned))
      ensures contents == Without(old(contents), old(length) - 1 - j)
    {
      ghost var s := contents;
      RotateAndPop(j);
      Rotate(-j);
      DeleteByRotationRight(s, j);
    }

    method RotateAndPop(k: int)
      requires Valid() && 0 < length
      modifies this, owned
      ensures Valid()
      ensures fresh(owned - old(owned))
      ensures contents == Rotated(old(contents), k)[..old(length) - 1]
    {
      Rotate(k);
      var _ := Pop();
    }

    /** Removes the first element equal to `value`. */
    method Remove(value: T) returns (r: Result<(), Error>)
      requires Valid()
      modifies this, owned
      ensures Valid()
      ensures fresh(owned - old(owned))
      ensures value !in old(contents) ==> r == Err(ValueError) && contents == old(contents)
      ensures value in old(contents) ==> r == Ok(())
      ensures value in old(contents) ==> exists i ::
        0 <= i < |old(contents)| && old(contents)[i] == value && value !in old(contents)[..i]
        && contents == Without(old(contents), i)
    {
      var n := length;
      for i := 0 to n
        invariant contents == old(contents) && owned == old(owned) && Valid()
        invariant value !in contents[..i]
      {
        var x := GetItem(i);
        if x == Ok(value) {
          r := DelItem(i);
          return;
        }
      }
      return Err(ValueError);
    }

    /** How many elements stand before the `i`th block. */
    ghost function Before(i: int): int
      requires Shape() && 0 <= i <= |blocks|
      reads this, blocks
    {
      if i == 0 then 0 else if i == |blocks| then length else N * i - leftndx
    }

    /** The elements of the `i`th block. */
    method LiveCells(block: Block<T>, ghost i: int) returns (part: seq<T>)
      requires Shape() && 0 <= i < |blocks| && block == blocks[i]
      ensures 0 <= Before(i) <= Before(i + 1) <= length && part == contents[Before(i)..Before(i + 1)]
    {
      var l, r := Span(block, i);
      part := Slice(block, i, l, r);
    }

    /** The elements in order, collected block by block. */
    method ToList() returns (s: seq<T>)
      requires Shape()
      ensures s == contents
    {
      s := [];
      var block: Block?<T> := left;
      ghost var i := 0;
      while block != null
        invariant if block != null then 0 <= i < |blocks| && block == blocks[i] else i == |blocks|
        invariant s == contents[..Before(i)]
        decreases |blocks| - i
      {
        var part := LiveCells(block, i);
        s := s + part;
        assert i < |blocks| - 1 ==> blocks[i].rgtlnk == blocks[i + 1];
        block := block.rgtlnk;
        i := i + 1;
      }
    }

    /** The elements in reverse order, collected block by block from the right. */
    method ToReversedList() returns (s: seq<T>)
      requires Shape()
      ensures s == Reversed(contents)
    {
      s := [];
      var block: Block?<T> := right;
      ghost var i := |blocks| - 1;
      while block != null
        invariant if block != null then 0 <= i < |blocks| && block == blocks[i] else i == -1
        invariant s == Reversed(contents[Before(i + 1)..])
        decreases i
      {
        var part := LiveCells(block, i);
        ReversedCons(contents, Before(i + 1), |part|);
        s := s + Reversed(part);
        assert i > 0 ==> blocks[i].lftlnk == blocks[i - 1];
        block := block.lftlnk;
        i := i - 1;
      }
    }

    /** The elements in the live cells `l..r` of the `i`th block. */
    method Slice(block: Block<T>, ghost i: int, l: int, r: int) returns (part: seq<T>)
      requires Shape() && 0 <= i < |blocks| && block == blocks[i]
      requires l == (if i == 0 then leftndx else 0) && r == (if i == |blocks| - 1 then rightndx + 1 else N)
      ensures 0 <= N * i + l - leftndx <= N * i + r - leftndx <= length
      ensures part == contents[N * i + l - leftndx..N * i + r - leftndx]
    {
      part := [];
      for j := l to r
        invariant part == contents[N * i + l - leftndx..N * i + j - leftndx]
      {
        HoldsAt(grid, leftndx, contents, i, j);
        SliceSnoc(contents, N * i + l - leftndx, N * i + j - leftndx);
        part := part + [block.cells[j].value];
      }
    }

    method Count(value: T) returns (c: int)
      requires Shape()
      ensures c == multiset(contents)[value]
    {
      var s := ToList();
      c := 0;
      for i := 0 to |s|
        invariant c == multiset(s[..i])[value]
      {
        assert s[..i + 1] == s[..i] + [s[i]];
        if s[i] == value {
          c := c + 1;
        }
      }
      assert s[..|s|] == s;
    }

    /** `d.extend(d)`: the source lists the deque before it starts appending. */
    method ExtendSelf()
      requires Valid()
      modifies this, owned
      ensures Valid()
      ensures fresh(owned - old(owned))
      ensures contents == Bounded(old(contents) + old(contents), maxlen)
    {
      var s := ToList();
      Extend(s);
    }

    /** Exchanges the elements `p` and `q`, in two given cells. */
    method Swap(ghost li: int, lb: Block<T>, lj: int, ghost ri: int, rb: Block<T>, rj: int, ghost p: int, ghost q: int)
      requires Shape() && InCell(lb, li, lj, p) && InCell(rb, ri, rj, q)
      modifies `grid, `contents, lb`cells, rb`cells
      ensures Shape()
      ensures contents == old(contents)[p := old(contents)[q]][q := old(contents)[p]]
    {
      HoldsAt(grid, leftndx, contents, li, lj);
      HoldsAt(grid, leftndx, contents, ri, rj);
      var x, y := lb.cells[lj].value, rb.cells[rj].value;
      Put(li, lb, lj, p, y);
      Put(ri, rb, rj, q, x);
    }

    /** Moves a reference to an element but the last on to the next one. */
    method Advance(block: Block<T>, j: int, ghost i: int, ghost k: int)
      returns (block': Block<T>, j': int, ghost i': int)
      requires Shape() && InCell(block, i, j, k) && k + 1 < length
      ensures InCell(block', i', j', k + 1)
    {
      block', j', i' := block, j + 1, i;
      if j' == N {
        assert blocks[i].rgtlnk == blocks[i + 1];
        assert block.rgtlnk != null;
        block', j', i' := block.rgtlnk, 0, i + 1;
      }
    }

    /** Moves a reference to an element but the first back to the previous one. */
    method Retreat(block: Block<T>, j: int, ghost i: int, ghost k: int)
      returns (block': Block<T>, j': int, ghost i': int)
      requires Shape() && InCell(block, i, j, k) && 0 < k
      ensures InCell(block', i', j', k - 1)
    {
      block', j', i' := block, j - 1, i;
      if j' == -1 {
        assert blocks[i].lftlnk == blocks[i - 1];
        assert block.lftlnk != null;
        block', j', i' := block.lftlnk, N - 1, i - 1;
      }
    }

    /** The body of `reverse`: swaps elements `p` and `q` and moves both references inwards. */
    method SwapAndStep(lb: Block<T>, lj: int, ghost li: int, rb: Block<T>, rj: int, ghost ri: int,
                       ghost s: seq<T>, ghost p: int)
      returns (lb': Block<T>, lj': int, ghost li': int, rb': Block<T>, rj': int, ghost ri': int)
      requires Shape() && 0 <= 2 * p < length - 1 && |s| == length && contents == Flipped(s, p)
      requires InCell(lb, li, lj, p) && InCell(rb, ri, rj, length - 1 - p)
      modifies `grid, `contents, lb`cells, rb`cells
      ensures Shape() && contents == Flipped(s, p + 1)
      ensures InCell(lb', li', lj', p + 1) && InCell(rb', ri', rj', length - 1 - (p + 1))
    {
      SwapPair(lb, lj, li, rb, rj, ri, s, p);
      lb', lj', li' := Advance(lb, lj, li, p);
      rb', rj', ri' := Retreat(rb, rj, ri, length - 1 - p);
    }

    method SwapPair(lb: Block<T>, lj: int, ghost li: int, rb: Block<T>, rj: int, ghost ri: int,
                    ghost s: seq<T>, ghost p: int)
      requires Shape() && 0 <= 2 * p < length - 1 && |s| == length && contents == Flipped(s, p)
      requires InCell(lb, li, lj, p) && InCell(rb, ri, rj, length - 1 - p)
      modifies `grid, `contents, lb`cells, rb`cells
      ensures Shape() && contents == Flipped(s, p + 1)
      ensures InCell(lb, li, lj, p) && InCell(rb, ri, rj, length - 1 - p)
    {
      FlippedStep(s, p, length - 1 - p);
      Swap(li, lb, lj, ri, rb, rj, p, length - 1 - p);
    }

    /**
      * Blocks compared as lists, along at most `depth` left links: the same cells and equal left blocks. The
      * right link, which comes last, is not looked at, so that this may hold where Python finds a difference.
      */
    static ghost predicate AlikeUpTo(bs: set<Block<T>>, a: Block?<T>, b: Block?<T>, depth: nat)
      reads bs
      decreases depth
    {
      a == b ||
      (a != null && b != null &&
       (a in bs && b in bs ==> a.cells == b.cells && (depth > 0 ==> AlikeUpTo(bs, a.lftlnk, b.lftlnk, depth - 1))))
    }

    /** The source's `leftblock == rightblock`, or at least implied by it. */
    ghost predicate Alike(a: Block<T>, b: Block<T>)
      reads `owned, owned
    {
      forall depth: nat :: AlikeUpTo(owned, a, b, depth)
    }

    /** Different blocks of the chain differ as lists, too: the left links end sooner from one of them. */
    lemma {:induction false} BlocksDiffer(i: nat, j: nat)
      requires Chain() && i < j < |blocks|
      ensures !AlikeUpTo(owned, blocks[i], blocks[j], i + 1)
      ensures !Alike(blocks[i], blocks[j])
    {
      assert blocks[j].lftlnk == blocks[j - 1];
      if i > 0 {
        BlocksDiffer(i - 1, j - 1);
        assert blocks[i].lftlnk == blocks[i - 1];
      }
    }

    /** Reverses in place, swapping from both ends; the source's assert is kept. */
    method Reverse()
      requires Valid()
      modifies `grid, `contents, owned`cells
      ensures Valid()
      ensures contents == Reversed(old(contents))
    {
      var leftblock, leftindex := left, leftndx;
      var rightblock, rightindex := right, rightndx;
      ghost var li, ri, s := 0, |blocks| - 1, contents;
      assert Flipped(s, 0) == s;
      for i := 0 to length / 2
        invariant Shape() && |s| == length
        invariant contents == Flipped(s, i)
        invariant length > 1 ==> InCell(leftblock, li, leftindex, i)
        invariant length > 1 ==> InCell(rightblock, ri, rightindex, length - 1 - i)
      {
        if li < ri {
          BlocksDiffer(li, ri);
        }
        assert !Alike(leftblock, rightblock) || leftindex < rightindex;
        leftblock, leftindex, li, rightblock, rightindex, ri :=
          SwapAndStep(leftblock, leftindex, li, rightblock, rightindex, ri, s, i);
      }
      FlippedHalf(s);
    }
  }

  /** `deque(iterable, maxlen)`: a negative bound is refused, then the elements are appended. */
  method Make<T(==)>(xs: seq<T>, maxlen: Option<int>) returns (r: Result<Deque<T>, Error>)
    ensures maxlen.Some? && maxlen.value < 0 ==> r == Err(ValueError)
    ensures !(maxlen.Some? && maxlen.value < 0) ==>
      r.Ok? && fresh(r.value) && r.value.Valid() && r.value.contents == Bounded(xs, r.value.maxlen)
    ensures r.Ok? ==> r.value.maxlen == if maxlen.Some? then Some(maxlen.value) else None
  {
    if maxlen.Some? && maxlen.value < 0 {
      return Err(ValueError);
    }
    var bound: Option<nat> := if maxlen.Some? then Some(maxlen.value) else None;
    var d := new Deque<T>(bound);
    assert d.contents + xs == xs;
    d.Extend(xs);
    return Ok(d);
  }

  lemma ExtendStep<T>(s: seq<T>, xs: seq<T>, k: nat, maxlen: Option<nat>)
    requires k < |xs|
    ensures Bounded(Bounded(s + xs[..k], maxlen) + [xs[k]], maxlen) == Bounded(s + xs[..k + 1], maxlen)
  {
    assert s + xs[..k] + [xs[k]] == s + xs[..k + 1];
    if maxlen.Some? { LastNStep(s + xs[..k], maxlen.value, xs[k]); }
  }

  lemma ExtendLeftStep<T>(s: seq<T>, xs: seq<T>, k: nat, maxlen: Option<nat>)
    requires k < |xs|
    ensures BoundedLeft([xs[k]] + BoundedLeft(Reversed(xs[..k]) + s, maxlen), maxlen)
         == BoundedLeft(Reversed(xs[..k + 1]) + s, maxlen)
  {
    assert [xs[k]] + (Reversed(xs[..k]) + s) == Reversed(xs[..k + 1]) + s;
    if maxlen.Some? { FirstNStep(Reversed(xs[..k]) + s, maxlen.value, xs[k]); }
  }

}
