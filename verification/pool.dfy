/** The binding's table of four engine contexts. A slot is null or holds a
    loaded context; callers name a slot by a 1-based handle of type `size_t`. */
module ContextPool {
  import opened Wrappers

  const Capacity := 4

  /** `size_t` on the 32-bit WebAssembly target. */
  const SizeModulus := 0x1_0000_0000
  type Size = x: int | 0 <= x < SizeModulus

  /** An engine context, known only by its identity. */
  datatype Context = Context(id: nat)

  /** What the engine's model loader returned: a context, or null. */
  datatype LoadOutcome = Loaded(ctx: Context) | LoadFailed

  type Pool = p: seq<Option<Context>> | |p| == Capacity witness [None, None, None, None]

  const EmptyPool: Pool := [None, None, None, None]

  predicate Bound(pool: Pool, i: int) {
    0 <= i < Capacity && pool[i].Some?
  }

  predicate Full(pool: Pool) {
    forall i :: 0 <= i < Capacity ==> pool[i].Some?
  }

  /** The number of bound slots. */
  function Live(s: seq<Option<Context>>): (n: nat)
    ensures n <= |s|
  {
    if |s| == 0 then 0 else Live(s[..|s| - 1]) + (if s[|s| - 1].Some? then 1 else 0)
  }

  lemma {:induction false} LiveFull(s: seq<Option<Context>>)
    ensures Live(s) == |s| <==> forall i :: 0 <= i < |s| ==> s[i].Some?
    decreases |s|
  {
    if |s| > 0 {
      var init := s[..|s| - 1];
      LiveFull(init);
      if Live(s) == |s| {
        forall i | 0 <= i < |s| ensures s[i].Some? {
          if i < |s| - 1 { assert s[i] == init[i]; }
        }
      }
      if forall i :: 0 <= i < |s| ==> s[i].Some? {
        assert forall i :: 0 <= i < |init| ==> init[i].Some? by {
          forall i | 0 <= i < |init| ensures init[i].Some? { assert init[i] == s[i]; }
        }
      }
    }
  }

  /** Binding a null slot adds one live context; nulling a bound slot removes
      one. */
  lemma {:induction false} LiveUpdate(s: seq<Option<Context>>, i: int, v: Option<Context>)
    requires 0 <= i < |s|
    ensures Live(s[i := v]) == Live(s) - (if s[i].Some? then 1 else 0) + (if v.Some? then 1 else 0)
    decreases |s|
  {
    var t := s[i := v];
    if i < |s| - 1 {
      LiveUpdate(s[..|s| - 1], i, v);
      assert t[..|t| - 1] == s[..|s| - 1][i := v];
    } else {
      assert t[..|t| - 1] == s[..|s| - 1];
    }
  }

  function FirstFreeFrom(pool: Pool, k: nat): (r: Option<nat>)
    requires k <= Capacity
    ensures r.Some? ==>
      && k <= r.value < Capacity && pool[r.value].None?
      && forall j :: k <= j < r.value ==> pool[j].Some?
    ensures r.None? ==> forall j :: k <= j < Capacity ==> pool[j].Some?
    decreases Capacity - k
  {
    if k == Capacity then None
    else if pool[k].None? then Some(k)
    else FirstFreeFrom(pool, k + 1)
  }

  /** The scan of `init`: the lowest null slot, if any. */
  function FirstFree(pool: Pool): (r: Option<nat>)
    ensures r.Some? ==>
      && r.value < Capacity && pool[r.value].None?
      && forall j :: 0 <= j < r.value ==> pool[j].Some?
    ensures r.None? <==> Full(pool)
  {
    FirstFreeFrom(pool, 0)
  }

  /** `--index` on a `size_t`: handle 0 wraps to the largest value. */
  function Predecessor(h: Size): Size {
    (h - 1) % SizeModulus
  }

  /** The slot a handle names, if it lies inside the table. */
  function SlotOf(h: Size): (i: Option<nat>)
    ensures i.Some? <==> 1 <= h <= Capacity
    ensures i.Some? ==> i.value == h - 1
  {
    var index := Predecessor(h);
    if index < Capacity then Some(index) else None
  }

  /** Result of `init`: the new table, the handle returned (0 for none) and
      whether the engine's loader was called. */
  datatype InitResult = InitResult(pool: Pool, handle: Size, loaderCalled: bool)

  /** `init`: try the first null slot only; `load` is what the loader returns
      if it is called. */
  function Init(pool: Pool, load: LoadOutcome): (r: InitResult)
    ensures r.loaderCalled <==> !Full(pool)
    ensures r.handle == 0 <==> Full(pool) || load.LoadFailed?
    ensures r.handle == 0 ==> r.pool == pool
    ensures r.handle != 0 ==>
      && 1 <= r.handle <= Capacity
      && !Bound(pool, r.handle - 1)
      && (forall j :: 0 <= j < r.handle - 1 ==> Bound(pool, j))
      && r.pool[r.handle - 1] == Some(load.ctx)
      && (forall j :: 0 <= j < Capacity && j != r.handle - 1 ==> r.pool[j] == pool[j])
  {
    match FirstFree(pool)
    case None => InitResult(pool, 0, false)
    case Some(i) =>
      match load
      case LoadFailed => InitResult(pool[i := None], 0, true)
      case Loaded(ctx) => InitResult(pool[i := Some(ctx)], i + 1, true)
  }

  /** `free`: null the named slot; a handle outside 1..4 leaves the table
      alone. */
  function Free(pool: Pool, h: Size): (r: Pool)
    ensures 1 <= h <= Capacity ==>
      && r[h - 1].None?
      && forall j :: 0 <= j < Capacity && j != h - 1 ==> r[j] == pool[j]
    ensures !(1 <= h <= Capacity) ==> r == pool
  {
    match SlotOf(h)
    case None => pool
    case Some(i) => pool[i := None]
  }

  /** The error codes of the handle check in `full_default`. */
  const OutOfRange := -1
  const NullContext := -2

  /** The handle check of `full_default`: the slot to run on, or the code. */
  function Resolve(pool: Pool, h: Size): (r: Result)
    ensures r.Err? && r.code == OutOfRange <==> !(1 <= h <= Capacity)
    ensures r.Err? && r.code == NullContext <==> 1 <= h <= Capacity && !Bound(pool, h - 1)
    ensures r.Ok? <==> Bound(pool, h - 1)
    ensures r.Ok? ==> r.slot == h - 1
  {
    match SlotOf(h)
    case None => Err(OutOfRange)
    case Some(i) => if pool[i].None? then Err(NullContext) else Ok(i)
  }

  datatype Result = Ok(slot: nat) | Err(code: int)

  /** A successful `init` adds exactly one live context, and never past the
      capacity. */
  lemma InitLive(pool: Pool, load: LoadOutcome)
    ensures var r := Init(pool, load);
      Live(r.pool) == Live(pool) + (if r.handle != 0 then 1 else 0)
    ensures Live(Init(pool, load).pool) <= Capacity
  {
    var r := Init(pool, load);
    if r.handle != 0 {
      LiveUpdate(pool, r.handle - 1, Some(load.ctx));
      assert r.pool == pool[r.handle - 1 := Some(load.ctx)];
    }
  }

  /** `free` of a live handle removes exactly one live context; otherwise the
      count is unchanged. */
  lemma FreeLive(pool: Pool, h: Size)
    ensures Live(Free(pool, h)) == Live(pool) - (if 1 <= h <= Capacity && Bound(pool, h - 1) then 1 else 0)
  {
    if 1 <= h <= Capacity {
      LiveUpdate(pool, h - 1, None);
      assert Free(pool, h) == pool[h - 1 := None];
    }
  }

  /** Once all four slots are bound, `init` returns 0 without calling the
      loader, whatever it would have returned. */
  lemma InitWhenFull(pool: Pool, load: LoadOutcome)
    requires Live(pool) == Capacity
    ensures Init(pool, load).handle == 0 && !Init(pool, load).loaderCalled
    ensures Init(pool, load).pool == pool
  {
    LiveFull(pool);
  }

  /** After `free(h)` the next successful `init` reuses slot h when every
      lower slot is still bound. */
  lemma FreeThenInitReuses(pool: Pool, h: Size, ctx: Context)
    requires 1 <= h <= Capacity
    requires forall j :: 0 <= j < h - 1 ==> Bound(pool, j)
    ensures Init(Free(pool, h), Loaded(ctx)).handle == h
  {
    var freed := Free(pool, h);
    forall j | 0 <= j < h - 1 ensures freed[j].Some? {
      assert j < Capacity && j != h - 1;
      assert freed[j] == pool[j];
      assert Bound(pool, j);
    }
    FirstFreeFromLeast(freed, 0, h - 1);
  }

  /** The scan stops at the lowest null slot at or after its start. */
  lemma {:induction false} FirstFreeFromLeast(pool: Pool, k: nat, i: nat)
    requires k <= i < Capacity && pool[i].None?
    requires forall j :: k <= j < i ==> pool[j].Some?
    ensures FirstFreeFrom(pool, k) == Some(i)
    decreases i - k
  {
    if k < i {
      FirstFreeFromLeast(pool, k + 1, i);
    }
  }
}
