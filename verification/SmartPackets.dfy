/** Nested smart packets of sense.h: packets that count their references and
    hold a packet of a lower layer as payload, whose count goes up and down
    with theirs. */
module SmartPackets {

  type Address = nat

  /** A block of the allocators; live while it is a packet.  level is how many
      layers the packet's type has below it. */
  datatype Cell = Cell(live: bool, refs: int, payload: Pointer, level: nat)

  datatype Pointer = Null | To(target: Address)

  ghost predicate Live(cells: seq<Cell>, p: Address) {
    p < |cells| && cells[p].live
  }

  /** Payloads are packets of lower layers. */
  ghost predicate Nested(cells: seq<Cell>) {
    forall w: nat :: Live(cells, w) && cells[w].payload.To? ==>
      var q := cells[w].payload.target; Live(cells, q) && cells[q].level < cells[w].level
  }

  /** The references to x that the first n blocks hold as payload. */
  ghost function Wrapped(cells: seq<Cell>, x: Address, n: nat): int
    requires n <= |cells|
  {
    if n == 0 then 0
    else Wrapped(cells, x, n - 1) + if cells[n - 1].live && cells[n - 1].payload == To(x) then cells[n - 1].refs else 0
  }

  /** handles[x] is how many references to x its owners hold directly. */
  ghost predicate Counted(cells: seq<Cell>, handles: seq<nat>) {
    && |handles| == |cells|
    && (forall x :: 0 <= x < |cells| ==>
          handles[x] + Wrapped(cells, x, |cells|) == if cells[x].live then cells[x].refs else 0)
    && (forall x :: 0 <= x < |cells| && cells[x].live ==> 1 <= cells[x].refs)
  }

  ghost predicate Inv(cells: seq<Cell>, handles: seq<nat>) {
    Nested(cells) && Counted(cells, handles)
  }

  /** inc_ref: one more reference to a packet and to all it wraps. */
  ghost function Referenced(cells: seq<Cell>, p: Address): (r: seq<Cell>)
    requires Nested(cells) && Live(cells, p)
    ensures |r| == |cells| && Nested(r)
    ensures forall x :: 0 <= x < |cells| ==> r[x] == cells[x].(refs := r[x].refs)
    ensures forall x :: 0 <= x < |cells| && cells[x].level > cells[p].level ==> r[x] == cells[x]
    ensures forall x :: 0 <= x < |cells| && x != p && cells[x].level == cells[p].level ==> r[x] == cells[x]
    decreases cells[p].level
  {
    var below := if cells[p].payload == Null then cells else Referenced(cells, cells[p].payload.target);
    var r := below[p := cells[p].(refs := cells[p].refs + 1)];
    SameShape(cells, r);
    r
  }

  lemma SameShape(cells: seq<Cell>, r: seq<Cell>)
    requires |r| == |cells| && forall x :: 0 <= x < |cells| ==> r[x] == cells[x].(refs := r[x].refs)
    ensures Nested(cells) ==> Nested(r)
  {
    if Nested(cells) {
      forall w: nat | Live(r, w) && r[w].payload.To?
        ensures var q := r[w].payload.target; Live(r, q) && r[q].level < r[w].level
      {
        assert Live(cells, w);
      }
    }
  }

  /** A reference to a packet goes; with the last one the block is free. */
  ghost function Dropped(c: Cell): Cell {
    c.(refs := c.refs - 1, live := c.live && c.refs != 1)
  }

  /** free: the payload's reference goes first, then the packet's own. */
  ghost function Released(cells: seq<Cell>, p: Address): (r: seq<Cell>)
    requires Nested(cells) && Live(cells, p)
    ensures |r| == |cells|
    ensures forall x :: 0 <= x < |cells| && cells[x].level > cells[p].level ==> r[x] == cells[x]
    ensures forall x :: 0 <= x < |cells| && x != p && cells[x].level == cells[p].level ==> r[x] == cells[x]
    decreases cells[p].level
  {
    var below := if cells[p].payload == Null then cells else Released(cells, cells[p].payload.target);
    below[p := Dropped(cells[p])]
  }

  /** free changes nothing of what it leaves alive but its count, and touches
      nothing that was free. */
  lemma {:induction false} ReleasedKeeps(cells: seq<Cell>, p: Address)
    requires Nested(cells) && Live(cells, p)
    ensures forall x :: 0 <= x < |cells| ==>
      var c := Released(cells, p)[x];
      && (c.live ==> cells[x].live && c == cells[x].(refs := c.refs) && c.refs <= cells[x].refs)
      && (!cells[x].live ==> c == cells[x])
    decreases cells[p].level
  {
    if cells[p].payload != Null {
      var q := cells[p].payload.target;
      assert Live(cells, q);
      ReleasedKeeps(cells, q);
    }
  }

  lemma {:induction false} WrappedUpdate(cells: seq<Cell>, p: Address, c: Cell, x: Address, n: nat)
    requires p < |cells| && n <= |cells|
    ensures Wrapped(cells[p := c], x, n) == Wrapped(cells, x, n) +
      if p < n then (if c.live && c.payload == To(x) then c.refs else 0)
        - (if cells[p].live && cells[p].payload == To(x) then cells[p].refs else 0)
      else 0
  {
    if n > 0 {
      WrappedUpdate(cells, p, c, x, n - 1);
    }
  }

  lemma {:induction false} WrappedAtLeast(cells: seq<Cell>, x: Address, n: nat, w: Address)
    requires n <= |cells| && forall y :: 0 <= y < |cells| && cells[y].live ==> 0 <= cells[y].refs
    ensures 0 <= Wrapped(cells, x, n)
    ensures w < n && cells[w].live && cells[w].payload == To(x) ==> cells[w].refs <= Wrapped(cells, x, n)
  {
    if n > 0 {
      WrappedAtLeast(cells, x, n - 1, w);
    }
  }

  /** The count of one live packet changes, and with it what its owners and its
      payload's owners hold. */
  lemma Rebalance(cells: seq<Cell>, handles: seq<nat>, p: Address, c: Cell, handles': seq<nat>)
    requires Inv(cells, handles) && Live(cells, p) && c == cells[p].(refs := c.refs) && 1 <= c.refs
    requires |handles'| == |handles|
    requires handles'[p] as int == handles[p] + c.refs - cells[p].refs
    requires forall x :: 0 <= x < |handles| && x != p ==>
      handles'[x] as int == handles[x] - if c.payload == To(x) then c.refs - cells[p].refs else 0
    ensures Inv(cells[p := c], handles')
  {
    var cells' := cells[p := c];
    forall x | 0 <= x < |cells|
      ensures handles'[x] + Wrapped(cells', x, |cells'|) == if cells'[x].live then cells'[x].refs else 0
    {
      WrappedUpdate(cells, p, c, x, |cells|);
    }
    forall w: nat | Live(cells', w) && cells'[w].payload.To?
      ensures var q := cells'[w].payload.target; Live(cells', q) && cells'[q].level < cells'[w].level
    {
      assert Live(cells, w);
    }
  }

  /** inc_ref gives its caller one more handle, and nobody else. */
  lemma {:induction false} IncRefKeeps(cells: seq<Cell>, handles: seq<nat>, p: Address)
    requires Inv(cells, handles) && Live(cells, p)
    ensures p < |handles| && Inv(Referenced(cells, p), handles[p := handles[p] + 1])
    decreases cells[p].level
  {
    var c := cells[p].(refs := cells[p].refs + 1);
    if cells[p].payload == Null {
      Rebalance(cells, handles, p, c, handles[p := handles[p] + 1]);
    } else {
      var q := cells[p].payload.target;
      assert Live(cells, q);
      IncRefKeeps(cells, handles, q);
      Rebalance(Referenced(cells, q), handles[q := handles[q] + 1], p, c, handles[p := handles[p] + 1]);
    }
  }

  /** The order does not matter: the packet's own reference might as well go
      before its payload's. */
  lemma {:induction false} FreeCommutes(cells: seq<Cell>, q: Address, p: Address, c: Cell)
    requires Nested(cells) && Live(cells, q) && Live(cells, p) && cells[q].level < cells[p].level
    requires c.level == cells[p].level && c.payload == cells[p].payload && Nested(cells[p := c])
    ensures Released(cells[p := c], q) == Released(cells, q)[p := c]
    decreases cells[q].level
  {
    if cells[q].payload != Null {
      var r := cells[q].payload.target;
      assert Live(cells, r);
      FreeCommutes(cells, r, p, c);
      assert Released(cells, r)[p := c][q := Dropped(cells[q])] == Released(cells, r)[q := Dropped(cells[q])][p := c];
    } else {
      assert cells[p := c][q := Dropped(cells[q])] == cells[q := Dropped(cells[q])][p := c];
    }
  }

  /** A packet none of whose references is left goes, with its reference to its
      payload turning into a handle. */
  lemma LastGoes(cells: seq<Cell>, handles: seq<nat>, p: Address, handles': seq<nat>)
    requires Inv(cells, handles) && Live(cells, p) && handles[p] == 1 && cells[p].refs == 1
    requires |handles'| == |handles| && handles'[p] == 0
    requires forall x :: 0 <= x < |handles| && x != p ==>
      handles'[x] == handles[x] + if cells[p].payload == To(x) then 1 else 0
    ensures Inv(cells[p := Dropped(cells[p])], handles')
  {
    var c := Dropped(cells[p]);
    var cells' := cells[p := c];
    assert Wrapped(cells, p, |cells|) == 0;
    forall w: nat | Live(cells', w) && cells'[w].payload.To?
      ensures var q := cells'[w].payload.target; Live(cells', q) && cells'[q].level < cells'[w].level
    {
      assert Live(cells, w);
      WrappedAtLeast(cells, p, |cells|, w);
    }
    forall x | 0 <= x < |cells|
      ensures handles'[x] + Wrapped(cells', x, |cells'|) == if cells'[x].live then cells'[x].refs else 0
    {
      WrappedUpdate(cells, p, c, x, |cells|);
    }
  }

  /** free takes one handle from its caller, and from nobody else; a block is
      live afterwards exactly if something still refers to it. */
  lemma {:induction false} FreeKeeps(cells: seq<Cell>, handles: seq<nat>, p: Address)
    requires Inv(cells, handles) && Live(cells, p) && 0 < handles[p]
    ensures Inv(Released(cells, p), handles[p := handles[p] - 1])
    decreases cells[p].level
  {
    var c := Dropped(cells[p]);
    var less := handles[p := handles[p] - 1];
    WrappedAtLeast(cells, p, |cells|, p);
    if cells[p].payload == Null {
      if cells[p].refs == 1 {
        LastGoes(cells, handles, p, less);
      } else {
        Rebalance(cells, handles, p, c, less);
      }
    } else {
      var q := cells[p].payload.target;
      assert Live(cells, q);
      var more := less[q := less[q] + 1];
      if cells[p].refs == 1 {
        LastGoes(cells, handles, p, more);
      } else {
        Rebalance(cells, handles, p, c, more);
      }
      assert more[q := more[q] - 1] == less;
      FreeKeeps(cells[p := c], more, q);
      FreeCommutes(cells, q, p, c);
    }
  }

  lemma AllocKeeps(cells: seq<Cell>, handles: seq<nat>, a: Address, level: nat)
    requires Inv(cells, handles) && a < |cells| && !cells[a].live
    ensures Inv(cells[a := Cell(true, 1, Null, level)], handles[a := 1]) && handles[a] == 0
  {
    var c := Cell(true, 1, Null, level);
    var cells' := cells[a := c];
    WrappedAtLeast(cells, a, |cells|, a);
    forall w: nat | Live(cells', w) && cells'[w].payload.To?
      ensures var q := cells'[w].payload.target; Live(cells', q) && cells'[q].level < cells'[w].level
    {
      assert Live(cells, w);
    }
    forall x | 0 <= x < |cells|
      ensures Wrapped(cells[a := c], x, |cells|) == Wrapped(cells, x, |cells|)
    {
      WrappedUpdate(cells, a, c, x, |cells|);
    }
  }

  /** Wrapping hands over a handle. */
  lemma WrapKeeps(cells: seq<Cell>, handles: seq<nat>, p: Address, q: Address)
    requires Inv(cells, handles) && Live(cells, p) && Live(cells, q) && 0 < handles[q]
    requires cells[p].refs == 1 && cells[p].payload == Null && cells[q].level < cells[p].level
    ensures Inv(cells[p := cells[p].(payload := To(q))], handles[q := handles[q] - 1])
  {
    var c := cells[p].(payload := To(q));
    forall x | 0 <= x < |cells|
      ensures Wrapped(cells[p := c], x, |cells|) == Wrapped(cells, x, |cells|) + if x == q then 1 else 0
    {
      WrappedUpdate(cells, p, c, x, |cells|);
    }
    var cells' := cells[p := c];
    forall w: nat | Live(cells', w) && cells'[w].payload.To?
      ensures var r := cells'[w].payload.target; Live(cells', r) && cells'[r].level < cells'[w].level
    {
      assert Live(cells, w);
    }
  }

  /** A block is free exactly if nothing refers to it any more: neither an
      owner's handle nor a live packet that wraps it. */
  lemma FreeIff(cells: seq<Cell>, handles: seq<nat>, x: Address)
    requires Inv(cells, handles) && x < |cells|
    ensures !cells[x].live <==>
      handles[x] == 0 && forall w: nat :: Live(cells, w) ==> cells[w].payload != To(x)
  {
    WrappedAtLeast(cells, x, |cells|, x);
    if !cells[x].live {
      forall w: nat | Live(cells, w)
        ensures cells[w].payload != To(x)
      {
        WrappedAtLeast(cells, x, |cells|, w);
      }
    }
    if forall w: nat :: Live(cells, w) ==> cells[w].payload != To(x) {
      NobodyWraps(cells, x, |cells|);
    }
  }

  lemma {:induction false} NobodyWraps(cells: seq<Cell>, x: Address, n: nat)
    requires n <= |cells| && forall w: nat :: Live(cells, w) ==> cells[w].payload != To(x)
    ensures Wrapped(cells, x, n) == 0
  {
    if n > 0 {
      NobodyWraps(cells, x, n - 1);
      assert cells[n - 1].live ==> Live(cells, n - 1);
    }
  }

  /** The packets of a simulation, in the blocks that the allocators have or
      will ever get. */
  class Packets {
    var cells: seq<Cell>
    ghost var handles: seq<nat>

    ghost predicate Valid()
      reads this
    {
      Inv(cells, handles)
    }

    /** Before anything is allocated: n free blocks. */
    constructor (n: nat)
      ensures Valid() && |cells| == n
      ensures forall x :: 0 <= x < n ==> handles[x] == 0 && !cells[x].live
    {
      cells := seq(n, _ => Cell(false, 0, Null, 0));
      handles := seq(n, _ => 0);
      new;
      forall x | 0 <= x < n
        ensures Wrapped(cells, x, n) == 0
      {
        NobodyWraps(cells, x, n);
      }
    }

    /** alloc, in whatever free block the allocator gives. */
    method Alloc(a: Address, level: nat)
      requires Valid() && a < |cells| && !cells[a].live
      modifies this
      ensures Valid() && handles == old(handles)[a := 1] && old(handles)[a] == 0
      ensures cells == old(cells)[a := Cell(true, 1, Null, level)]
    {
      AllocKeeps(cells, handles, a, level);
      cells := cells[a := Cell(true, 1, Null, level)];
      handles := handles[a := 1];
    }

    /** The assignment to pld after alloc: the caller's handle of the payload
        becomes the packet's. */
    method Wrap(p: Address, q: Address)
      requires Valid() && Live(cells, p) && Live(cells, q) && 0 < handles[q]
      requires cells[p].refs == 1 && cells[p].payload == Null && cells[q].level < cells[p].level
      modifies this
      ensures Valid() && handles == old(handles)[q := old(handles)[q] - 1]
      ensures cells == old(cells)[p := old(cells)[p].(payload := To(q))]
    {
      WrapKeeps(cells, handles, p, q);
      cells := cells[p := cells[p].(payload := To(q))];
      handles := handles[q := handles[q] - 1];
    }

    method IncrementRef(p: Address)
      requires Nested(cells) && Live(cells, p)
      modifies this`cells
      ensures cells == Referenced(old(cells), p)
      decreases cells[p].level
    {
      if cells[p].payload.To? {
        IncrementRef(cells[p].payload.target);
      }
      cells := cells[p := cells[p].(refs := cells[p].refs + 1)];
    }

    /** inc_ref: the caller has one more handle. */
    method IncRef(p: Address)
      requires Valid() && Live(cells, p)
      modifies this
      ensures p < |old(handles)| && Valid() && handles == old(handles)[p := old(handles)[p] + 1]
      ensures cells == Referenced(old(cells), p)
    {
      IncRefKeeps(cells, handles, p);
      IncrementRef(p);
      handles := handles[p := handles[p] + 1];
    }

    /** inc_pld_ref: the caller has one more handle of the payload, if there is one. */
    method IncPldRef(p: Address)
      requires Valid() && Live(cells, p)
      modifies this
      ensures Valid() && |handles| == |old(handles)|
      ensures old(cells[p].payload) == Null ==> handles == old(handles) && cells == old(cells)
      ensures old(cells[p].payload.To?) ==>
        var q := old(cells[p].payload.target);
        && q < |handles| && handles == old(handles)[q := old(handles)[q] + 1]
        && cells == Referenced(old(cells), q)
    {
      if cells[p].payload.To? {
        assert Live(cells, cells[p].payload.target);
        IncRef(cells[p].payload.target);
      }
    }

    /** copy: a new packet with the same payload. */
    method Copy(p: Address, a: Address)
      requires Valid() && Live(cells, p) && a < |cells| && !cells[a].live
      modifies this
      ensures Valid() && a < |cells| && handles == old(handles)[a := 1]
      ensures |cells| == |old(cells)| && cells[a] == Cell(true, 1, old(cells)[p].payload, old(cells)[p].level)
      ensures forall x :: 0 <= x < |cells| && x != a ==> cells[x] == old(cells)[x].(refs := cells[x].refs)
    {
      Alloc(a, cells[p].level);
      if cells[p].payload.To? {
        var q := cells[p].payload.target;
        assert Live(cells, p) && Live(cells, q);
        IncRef(q);
        Wrap(a, q);
      }
    }

    method FreeRef(p: Address)
      requires Nested(cells) && Live(cells, p)
      modifies this`cells
      ensures cells == Released(old(cells), p)
      decreases cells[p].level
    {
      if cells[p].payload.To? {
        FreeRef(cells[p].payload.target);
      }
      cells := cells[p := cells[p].(refs := cells[p].refs - 1)];
      if cells[p].refs == 0 {
        cells := cells[p := cells[p].(live := false)];
      }
    }

    /** free, by an owner of the packet. */
    method Free(p: Address)
      requires Valid() && Live(cells, p) && 0 < handles[p]
      modifies this
      ensures Valid() && handles == old(handles)[p := old(handles)[p] - 1]
      ensures cells == Released(old(cells), p)
    {
      FreeKeeps(cells, handles, p);
      FreeRef(p);
      handles := handles[p := handles[p] - 1];
    }
  }
}
