/** The victim priority queue: an array heap whose elements record their own position.
    Elements are line numbers; the callbacks that read and write an element's priority and
    position are the two arrays the queue is created over. */
module PriorityQueue {

  /** pqueue's comparison callback: next goes below curr when its priority is larger. */
  predicate CmpPri(next: int, curr: int) {
    next > curr
  }

  // ---- the heap as a value ----

  /** The array (slot 0 unused), its used length, and each element's priority and position. */
  datatype Heap = Heap(d: seq<nat>, size: nat, pri: seq<int>, pos: seq<nat>)

  ghost predicate Shape(h: Heap) {
    && |h.pri| == |h.pos| && 1 <= h.size <= |h.d|
    && forall i :: 1 <= i < h.size ==> h.d[i] < |h.pos|
  }

  /** x is in the queue, at the position it records. */
  ghost predicate At(h: Heap, x: nat)
    requires Shape(h) && x < |h.pos|
  {
    1 <= h.pos[x] < h.size && h.d[h.pos[x]] == x
  }

  ghost function MembersOf(h: Heap): set<nat>
    requires Shape(h)
  {
    set x | 0 <= x < |h.pos| && At(h, x)
  }

  /** Back pointers: every slot's element records that slot. */
  ghost predicate Indexed(h: Heap)
    requires Shape(h)
  {
    forall i :: 1 <= i < h.size ==> h.pos[h.d[i]] == i
  }

  ghost predicate Ordered(h: Heap)
    requires Shape(h)
  {
    forall j :: 2 <= j < h.size ==> h.pri[h.d[j / 2]] <= h.pri[h.d[j]]
  }

  ghost predicate IsHeap(h: Heap) {
    Shape(h) && Indexed(h) && Ordered(h)
  }

  // ---- a heap with a hole: slot i belongs to m, which is held in hand ----

  ghost predicate HoleIndexed(h: Heap, i: nat, m: nat, members: set<nat>)
    requires Shape(h)
  {
    && 1 <= i < h.size && m < |h.pos| && m in members
    && (forall k :: 1 <= k < h.size && k != i ==> h.d[k] != m && h.pos[h.d[k]] == k)
    && (forall x :: x in members ==> x < |h.pos|)
    && (forall x :: 0 <= x < |h.pos| && x != m ==>
         (x in members <==> (1 <= h.pos[x] < h.size && h.pos[x] != i && h.d[h.pos[x]] == x)))
  }

  ghost predicate HoleOrdered(h: Heap, i: nat)
    requires Shape(h) && 1 <= i < h.size
  {
    && (forall j :: 2 <= j < h.size && j != i && j / 2 != i ==> h.pri[h.d[j / 2]] <= h.pri[h.d[j]])
    && (1 < i ==> forall j :: 2 <= j < h.size && j / 2 == i ==> h.pri[h.d[i / 2]] <= h.pri[h.d[j]])
  }

  ghost predicate ChildrenAbove(h: Heap, i: nat, p: int)
    requires Shape(h)
  {
    forall j :: 2 <= j < h.size && j / 2 == i ==> p <= h.pri[h.d[j]]
  }

  ghost predicate IsMaxChild(h: Heap, i: nat, c: nat)
    requires Shape(h)
  {
    && (c == 0 <==> 2 * i >= h.size)
    && (c != 0 ==> 2 <= c < h.size && c / 2 == i && ChildrenAbove(h, i, h.pri[h.d[c]]))
  }

  /** The positions recorded outside the queue are left alone. */
  ghost predicate OnlyMembersMove(pos': seq<nat>, pos: seq<nat>, members: set<nat>) {
    |pos'| == |pos| && forall x :: 0 <= x < |pos| && x !in members ==> pos'[x] == pos[x]
  }

  /** Slot k's element moves into the hole; the hole moves to k. */
  function Shift(h: Heap, i: nat, k: nat): Heap
    requires i < |h.d| && k < |h.d| && h.d[k] < |h.pos|
  {
    h.(d := h.d[i := h.d[k]], pos := h.pos[h.d[k] := i])
  }

  lemma ShiftIndexed(h: Heap, i: nat, k: nat, m: nat, members: set<nat>)
    requires Shape(h) && HoleIndexed(h, i, m, members) && 1 <= k < h.size && k != i
    ensures Shape(Shift(h, i, k)) && HoleIndexed(Shift(h, i, k), k, m, members)
    ensures OnlyMembersMove(Shift(h, i, k).pos, h.pos, members)
  {
    assert h.pos[h.d[k]] == k;
  }

  lemma ShiftUpOrdered(h: Heap, i: nat, p: int)
    requires Shape(h) && 1 < i < h.size && HoleOrdered(h, i) && ChildrenAbove(h, i, p)
    requires p < h.pri[h.d[i / 2]]
    ensures Shape(Shift(h, i, i / 2)) && HoleOrdered(Shift(h, i, i / 2), i / 2)
    ensures ChildrenAbove(Shift(h, i, i / 2), i / 2, p)
  {
    var h' := Shift(h, i, i / 2);
    forall j | 2 <= j < h.size && j != i / 2 && j / 2 != i / 2
      ensures h'.pri[h'.d[j / 2]] <= h'.pri[h'.d[j]]
    {
      if j / 2 == i { assert h.pri[h.d[i / 2]] <= h.pri[h.d[j]]; }
    }
  }

  lemma ShiftDownOrdered(h: Heap, i: nat, c: nat, p: int)
    requires Shape(h) && 1 <= i < h.size && HoleOrdered(h, i) && 2 <= c < h.size && c / 2 == i
    requires 1 < i ==> h.pri[h.d[i / 2]] <= p
    requires h.pri[h.d[c]] < p && ChildrenAbove(h, i, h.pri[h.d[c]])
    ensures Shape(Shift(h, i, c)) && HoleOrdered(Shift(h, i, c), c)
    ensures Shift(h, i, c).pri[Shift(h, i, c).d[i]] <= p
  {
    var h' := Shift(h, i, c);
    forall j | 2 <= j < h.size && j != c && j / 2 != c
      ensures h'.pri[h'.d[j / 2]] <= h'.pri[h'.d[j]]
    {
      if j == i { assert h.pri[h.d[i / 2]] <= h.pri[h.d[c]]; }
    }
  }

  /** Filling the hole with m completes the heap. */
  lemma Fill(h: Heap, i: nat, m: nat, members: set<nat>)
    requires Shape(h) && HoleIndexed(h, i, m, members) && HoleOrdered(h, i)
    requires ChildrenAbove(h, i, h.pri[m]) && (1 < i ==> h.pri[h.d[i / 2]] <= h.pri[m])
    ensures var h' := h.(d := h.d[i := m], pos := h.pos[m := i]);
            && IsHeap(h') && MembersOf(h') == members
            && OnlyMembersMove(h'.pos, h.pos, members)
  {
    var h' := h.(d := h.d[i := m], pos := h.pos[m := i]);
    forall x | 0 <= x < |h.pos| ensures At(h', x) <==> x in members {
    }
  }

  lemma {:induction false} RootLeast(h: Heap, k: nat)
    requires IsHeap(h) && 1 <= k < h.size
    ensures h.pri[h.d[1]] <= h.pri[h.d[k]]
  {
    if k > 1 {
      RootLeast(h, k / 2);
    }
  }

  /** The priority of an element outside the queue is free to change. */
  lemma PriorityOfOutsider(h: Heap, x: nat, p: int)
    requires IsHeap(h) && x < |h.pos| && x !in MembersOf(h)
    ensures IsHeap(h.(pri := h.pri[x := p])) && MembersOf(h.(pri := h.pri[x := p])) == MembersOf(h)
  {
    var h' := h.(pri := h.pri[x := p]);
    assert forall i :: 1 <= i < h.size ==> At(h, h.d[i]);
    assert forall y :: 0 <= y < |h.pos| ==> At(h', y) == At(h, y);
  }

  /** So is the position recorded by such an element, as long as it stays one. */
  lemma PositionOfOutsider(h: Heap, x: nat)
    requires IsHeap(h) && x < |h.pos| && x !in MembersOf(h)
    ensures IsHeap(h.(pos := h.pos[x := 0])) && MembersOf(h.(pos := h.pos[x := 0])) == MembersOf(h)
  {
    var h' := h.(pos := h.pos[x := 0]);
    assert forall i :: 1 <= i < h.size ==> At(h, h.d[i]);
    assert forall y :: 0 <= y < |h.pos| ==> At(h', y) == At(h, y);
  }

  // ---- pqueue_is_valid ----

  predicate SubtreeIsValid(h: Heap, at: nat)
    requires Shape(h) && 1 <= at
    decreases h.size - at
  {
    && (2 * at < h.size ==> !CmpPri(h.pri[h.d[at]], h.pri[h.d[2 * at]]) && SubtreeIsValid(h, 2 * at))
    && (2 * at + 1 < h.size ==> !CmpPri(h.pri[h.d[at]], h.pri[h.d[2 * at + 1]]) && SubtreeIsValid(h, 2 * at + 1))
  }

  /** Slot j lies in the subtree rooted at slot i. */
  ghost predicate Below(i: nat, j: nat) {
    j == i || (j > i && Below(i, j / 2))
  }

  lemma {:induction false} BelowSplit(i: nat, j: nat)
    requires 1 <= i < j
    ensures Below(i, j) <==> Below(2 * i, j) || Below(2 * i + 1, j)
  {
    if j / 2 > i { BelowSplit(i, j / 2); }
  }

  lemma {:induction false} BelowRoot(j: nat)
    requires 1 <= j
    ensures Below(1, j)
  {
    if j > 1 { BelowRoot(j / 2); }
  }

  ghost predicate OrderedBelow(h: Heap, i: nat)
    requires Shape(h) && 1 <= i
  {
    forall j :: i < j < h.size && Below(i, j) ==> h.pri[h.d[j / 2]] <= h.pri[h.d[j]]
  }

  lemma {:induction false} SubtreeOrdered(h: Heap, i: nat)
    requires Shape(h) && 1 <= i
    ensures SubtreeIsValid(h, i) <==> OrderedBelow(h, i)
    decreases h.size - i
  {
    if 2 * i < h.size { SubtreeOrdered(h, 2 * i); }
    if 2 * i + 1 < h.size { SubtreeOrdered(h, 2 * i + 1); }
    forall j | i < j < h.size
      ensures Below(i, j) <==> Below(2 * i, j) || Below(2 * i + 1, j)
    {
      BelowSplit(i, j);
    }
    assert 2 * i < h.size ==> Below(i, 2 * i);
    assert 2 * i + 1 < h.size ==> Below(i, 2 * i + 1);
  }

  /** The source's recursive self-check accepts exactly the queues in which every element
      is ordered against its parent, the empty queue among them. */
  lemma IsValidExact(h: Heap)
    requires Shape(h)
    ensures SubtreeIsValid(h, 1) <==> Ordered(h)
  {
    SubtreeOrdered(h, 1);
    forall j | 1 <= j < h.size ensures Below(1, j) { BelowRoot(j); }
  }

  // ---- the queue ----

  class PQueue {
    const d: array<nat>     // d[0] is not used
    const pri: array<int>
    const pos: array<nat>
    var size: nat           // one more than the number of elements

    constructor (capacity: nat, pri: array<int>, pos: array<nat>)
      requires pri.Length == pos.Length
      ensures this.pri == pri && this.pos == pos && fresh(d) && d.Length == capacity + 1
      ensures Valid() && Members() == {} && size == 1
    {
      this.d := new nat[capacity + 1](_ => 0);
      this.pri := pri;
      this.pos := pos;
      this.size := 1;
    }

    ghost function View(): Heap
      reads this, d, pos, pri
    {
      Heap(d[..], size, pri[..], pos[..])
    }

    ghost predicate Valid()
      reads this, d, pos, pri
    {
      d != pos && IsHeap(View())
    }

    ghost function Members(): set<nat>
      requires Valid()
      reads this, d, pos, pri
    {
      MembersOf(View())
    }

    /** Moves slot k's element to slot i and records its new position. */
    method MoveSlot(i: nat, k: nat)
      requires d != pos && i < d.Length && k < d.Length && d[k] < pos.Length
      modifies d, pos
      ensures View() == Shift(old(View()), i, k)
    {
      d[i] := d[k];
      pos[d[i]] := i;
    }

    method PutSlot(i: nat, m: nat)
      requires d != pos && i < d.Length && m < pos.Length
      modifies d, pos
      ensures View() == old(View()).(d := old(View()).d[i := m], pos := old(View()).pos[m := i])
    {
      d[i] := m;
      pos[m] := i;
    }

    method BubbleUp(start: nat, ghost members: set<nat>)
      requires d != pos && Shape(View()) && 1 <= start < size
      requires HoleIndexed(View(), start, d[start], members) && HoleOrdered(View(), start)
      requires ChildrenAbove(View(), start, pri[d[start]])
      modifies d, pos
      ensures Valid() && Members() == members && OnlyMembersMove(pos[..], old(pos[..]), members)
    {
      var i := start;
      var moving := d[i];
      var movingPri := pri[moving];
      ghost var h := View();
      while i > 1 && CmpPri(pri[d[i / 2]], movingPri)
        invariant h == View() && Shape(h) && 1 <= i < size
        invariant HoleIndexed(h, i, moving, members) && HoleOrdered(h, i) && ChildrenAbove(h, i, movingPri)
        invariant OnlyMembersMove(h.pos, old(pos[..]), members)
        decreases i
      {
        ShiftIndexed(h, i, i / 2, moving, members);
        ShiftUpOrdered(h, i, movingPri);
        h := Shift(h, i, i / 2);
        MoveSlot(i, i / 2);
        i := i / 2;
      }
      Fill(h, i, moving, members);
      PutSlot(i, moving);
    }

    /** The slot of the child with the least priority, or 0 when i has no child. */
    method MaxChild(i: nat) returns (c: nat)
      requires Shape(View()) && 1 <= i < size
      ensures IsMaxChild(View(), i, c)
    {
      c := 2 * i;
      if c >= size { return 0; }
      if c + 1 < size && CmpPri(pri[d[c]], pri[d[c + 1]]) {
        c := c + 1;
      }
    }

    method PercolateDown(start: nat, ghost members: set<nat>)
      requires d != pos && Shape(View()) && 1 <= start < size
      requires HoleIndexed(View(), start, d[start], members) && HoleOrdered(View(), start)
      requires 1 < start ==> pri[d[start / 2]] <= pri[d[start]]
      modifies d, pos
      ensures Valid() && Members() == members && OnlyMembersMove(pos[..], old(pos[..]), members)
    {
      var i := start;
      var moving := d[i];
      var movingPri := pri[moving];
      ghost var h := View();
      var child := MaxChild(i);
      while child != 0 && CmpPri(movingPri, pri[d[child]])
        invariant h == View() && Shape(h) && 1 <= i < size
        invariant HoleIndexed(h, i, moving, members) && HoleOrdered(h, i)
        invariant 1 < i ==> h.pri[h.d[i / 2]] <= movingPri
        invariant IsMaxChild(h, i, child)
        invariant OnlyMembersMove(h.pos, old(pos[..]), members)
        decreases size - i
      {
        ShiftIndexed(h, i, child, moving, members);
        ShiftDownOrdered(h, i, child, movingPri);
        h := Shift(h, i, child);
        MoveSlot(i, child);
        i := child;
        child := MaxChild(i);
      }
      Fill(h, i, moving, members);
      PutSlot(i, moving);
    }

    method Insert(x: nat)
      requires Valid() && x < pos.Length && x !in Members() && size < d.Length
      modifies this`size, d, pos
      ensures Valid() && Members() == old(Members()) + {x} && size == old(size) + 1
      ensures OnlyMembersMove(pos[..], old(pos[..]), Members())
    {
      ghost var members := Members() + {x};
      ghost var h := View();
      var i := size;
      size := size + 1;
      d[i] := x;
      assert View() == h.(size := i + 1, d := h.d[i := x]);
      assert !At(h, x);
      BubbleUp(i, members);
    }

    /** Sets x's priority and moves it to where the heap order wants it. */
    method ChangePriority(newPri: int, x: nat)
      requires Valid() && x < pos.Length && x in Members()
      modifies d, pos, pri
      ensures Valid() && Members() == old(Members())
      ensures pri[..] == old(pri[..])[x := newPri]
      ensures OnlyMembersMove(pos[..], old(pos[..]), Members())
    {
      ghost var h := View();
      ghost var members := Members();
      var oldPri := pri[x];
      pri[x] := newPri;
      var posn := pos[x];
      assert View() == h.(pri := h.pri[x := newPri]);
      assert HoleIndexed(View(), posn, x, members) && HoleOrdered(View(), posn) by {
        GrandparentLeast(h, posn);
      }
      if CmpPri(oldPri, newPri) {
        BubbleUp(posn, members);
      } else {
        PercolateDown(posn, members);
      }
    }

    /** The first element; none when the queue is empty. */
    method Peek() returns (found: bool, x: nat)
      requires Valid()
      ensures found <==> Members() != {}
      ensures found ==> x in Members() && 1 < size && x == d[1] && forall y :: y in Members() ==> pri[x] <= pri[y]
    {
      if size == 1 {
        assert View().size == 1;
        return false, 0;
      }
      found, x := true, d[1];
      ghost var h := View();
      assert At(h, h.d[1]);
      assert h.d[1] in MembersOf(h);
      forall y | y in Members() ensures pri[x] <= pri[y] {
        RootLeast(h, pos[y]);
      }
    }

    /** Removes an element of least priority. Its recorded position stays behind (as 1, not
        0): clearing it is left to the caller. */
    method Pop() returns (found: bool, x: nat)
      requires Valid()
      modifies this`size, d, pos
      ensures Valid() && (found <==> old(Members()) != {})
      ensures !found ==> Members() == {} && size == old(size) && pos[..] == old(pos[..])
      ensures found ==> old(size) > 1 && x == old(d[1])
      ensures found ==> x in old(Members()) && forall y :: y in old(Members()) ==> pri[x] <= pri[y]
      ensures found ==> Members() == old(Members()) - {x} && size == old(size) - 1 && pos[x] == 1
      ensures OnlyMembersMove(pos[..], old(pos[..]), old(Members()))
    {
      found, x := Peek();
      if !found { return; }
      ghost var h := View();
      size := size - 1;
      if size == 1 {
        // The only element: percolate_down rewrites the position of the element just removed.
        d[1] := d[size];
        pos[d[1]] := 1;
        assert View() == h.(size := 1);
      } else {
        ghost var members := old(Members()) - {x};
        d[1] := d[size];
        assert View() == h.(size := size, d := h.d[1 := h.d[size]]);
        PercolateDown(1, members);
      }
    }
  }

  /** In a heap, a slot's parent is at most each of its children. */
  lemma GrandparentLeast(h: Heap, i: nat)
    requires IsHeap(h) && 1 <= i < h.size
    ensures 1 < i ==> forall j :: 2 <= j < h.size && j / 2 == i ==> h.pri[h.d[i / 2]] <= h.pri[h.d[j]]
  {
  }
}
