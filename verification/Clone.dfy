/** The /clone command of internal/network/commands.go over a block store like that of
    internal/world/cache.go: whatever the overlap, it equals one simultaneous copy. */
module Clone {
  import opened Wrappers

  datatype Pos = Pos(x: int, y: int, z: int) {
    function Plus(o: Pos): Pos { Pos(x + o.x, y + o.y, z + o.z) }
    function Minus(o: Pos): Pos { Pos(x - o.x, y - o.y, z - o.z) }
  }

  type State = nat
  const AIR: State := 0

  /** The blocks of one dimension, whether or not their chunks are in memory. A chunk that cannot be
      loaded reads as air. A write is refused too when the light of a chunk around cannot be built,
      although the block itself can be read. */
  class Cache {
    const minY: int
    const maxY: int
    var blocks: map<Pos, State>

    predicate InRange(p: Pos) { minY <= p.y < maxY }

    /** The block that is there. */
    function At(p: Pos): State
      reads this
    {
      if InRange(p) && p in blocks then blocks[p] else AIR
    }

    /** All blocks at this moment. */
    ghost function View(): (v: Pos -> State)
      reads this
      ensures forall p :: v(p) == At(p)
    {
      var b, low, high := blocks, minY, maxY;
      (p: Pos) => if low <= p.y < high && p in b then b[p] else AIR
    }

    method GetBlock(p: Pos, loads: bool) returns (state: State)
      ensures state == if loads then At(p) else AIR
    {
      state := if loads then At(p) else AIR;
    }

    method SetBlockWithLight(p: Pos, state: State, takes: bool) returns (valid: bool)
      modifies this
      ensures valid == (InRange(p) && takes)
      ensures forall q :: At(q) == if valid && q == p then state else old(At(q))
    {
      valid := InRange(p) && takes;
      if valid {
        blocks := blocks[p := state];
      }
    }
  }

  /** What the store does during one command. Every cell is read at most twice and written at most
      twice: whether its chunk loads for the snapshot, whether it takes the copied block, whether it
      loads again for a move, and whether it then takes the air. */
  datatype Store = Store(loads: Pos -> bool, takes: Pos -> bool, reloads: Pos -> bool, empties: Pos -> bool)

  /** What the snapshot sees. */
  function Seen(v: Pos -> State, loads: Pos -> bool): (r: Pos -> State)
    ensures forall p :: r(p) == if loads(p) then v(p) else AIR
  {
    p => if loads(p) then v(p) else AIR
  }

  // ---- The boxes

  datatype Box = Box(lo: Pos, hi: Pos) {
    predicate Has(p: Pos) { lo.x <= p.x <= hi.x && lo.y <= p.y <= hi.y && lo.z <= p.z <= hi.z }

    /** The box of the same size with its low corner at `at`. */
    function At(at: Pos): Box { Box(at, at.Plus(hi.Minus(lo))) }

    predicate Overlaps(b: Box) {
      && lo.x <= b.hi.x && hi.x >= b.lo.x && lo.y <= b.hi.y && hi.y >= b.lo.y
      && lo.z <= b.hi.z && hi.z >= b.lo.z
    }

    function Cells(): set<Pos> {
      set x, y, z | lo.x <= x <= hi.x && lo.y <= y <= hi.y && lo.z <= z <= hi.z :: Pos(x, y, z)
    }
  }

  function Sort(a: int, b: int): (r: (int, int))
    ensures r.0 <= r.1 && (r == (a, b) || r == (b, a))
  {
    if a > b then (b, a) else (a, b)
  }

  function BoxOf(a: Pos, b: Pos): (r: Box)
    ensures r.Has(a) && r.Has(b)
  {
    var (x, y, z) := (Sort(a.x, b.x), Sort(a.y, b.y), Sort(a.z, b.z));
    Box(Pos(x.0, y.0, z.0), Pos(x.1, y.1, z.1))
  }

  lemma OverlapMeans(a: Box, b: Box)
    requires a.lo.x <= a.hi.x && a.lo.y <= a.hi.y && a.lo.z <= a.hi.z
    requires b.lo.x <= b.hi.x && b.lo.y <= b.hi.y && b.lo.z <= b.hi.z
    ensures a.Overlaps(b) <==> exists p :: a.Has(p) && b.Has(p)
  {
    if a.Overlaps(b) {
      var p := Pos(if a.lo.x < b.lo.x then b.lo.x else a.lo.x, if a.lo.y < b.lo.y then b.lo.y else a.lo.y,
                   if a.lo.z < b.lo.z then b.lo.z else a.lo.z);
      assert a.Has(p) && b.Has(p);
    }
  }

  // ---- What is copied

  datatype Mask = Replace | Masked | Filtered(matches: State -> bool) {
    predicate Selects(state: State) {
      match this
      case Replace => true
      case Masked => state != AIR
      case Filtered(matches) => matches(state)
    }
  }

  datatype Mode = Normal | Force | Move

  datatype Outcome = TooManyBlocks(max: int, volume: int) | OutOfWorld | Overlap | Cloned(count: nat)

  /** One simultaneous copy: the block at q after the selected cells of `box`, as `seen`, appear in
      the box of the same size at `to`, where the store takes them. */
  function Copied(seen: Pos -> State, dst: Pos -> State, box: Box, to: Pos, mask: Mask, takes: Pos -> bool,
                  q: Pos): State
  {
    var p := q.Minus(to).Plus(box.lo);
    if box.Has(p) && mask.Selects(seen(p)) && takes(q) then seen(p) else dst(q)
  }

  /** A move also turns the selected cells to air, where the store loads them again and takes it. */
  function Cleared(seen: Pos -> State, after: State, box: Box, mask: Mask, mode: Mode, store: Store, q: Pos): State {
    if mode == Move && box.Has(q) && mask.Selects(seen(q)) && store.reloads(q) && store.empties(q) then AIR else after
  }

  // ---- The snapshot

  datatype Cell = Cell(at: Pos, state: State)

  ghost predicate Distinct(cells: seq<Cell>) {
    forall i, j :: 0 <= i < j < |cells| ==> cells[i].at != cells[j].at
  }

  /** The cells of the box already passed when the loops stand at offset o. */
  predicate Passed(box: Box, o: Pos, at: Pos) {
    var size := box.hi.Minus(box.lo);
    && 0 <= at.x <= size.x && 0 <= at.y <= size.y && 0 <= at.z <= size.z
    && (at.y < o.y || (at.y == o.y && (at.z < o.z || (at.z == o.z && at.x < o.x))))
  }

  ghost predicate Snapped(src: Pos -> State, box: Box, mask: Mask, o: Pos, cells: seq<Cell>) {
    && Distinct(cells)
    && forall c :: c in cells <==>
         Passed(box, o, c.at) && c.state == src(box.lo.Plus(c.at)) && mask.Selects(c.state)
  }

  /** The last state listed for an offset. */
  function Listed(cells: seq<Cell>, at: Pos): Option<State> {
    if cells == [] then None
    else
      var last := cells[|cells| - 1];
      if last.at == at then Some(last.state) else Listed(cells[..|cells| - 1], at)
  }

  lemma {:induction false} ListedIs(cells: seq<Cell>, at: Pos)
    requires Distinct(cells)
    ensures Listed(cells, at).None? ==> forall c :: c in cells ==> c.at != at
    ensures Listed(cells, at).Some? ==> Cell(at, Listed(cells, at).value) in cells
  {
    if cells != [] {
      var rest, last := cells[..|cells| - 1], cells[|cells| - 1];
      assert cells == rest + [last];
      ListedIs(rest, at);
    }
  }

  lemma SnapStep(src: Pos -> State, box: Box, mask: Mask, o: Pos, cells: seq<Cell>)
    requires Snapped(src, box, mask, o, cells)
    requires var size := box.hi.Minus(box.lo); 0 <= o.x <= size.x && 0 <= o.y <= size.y && 0 <= o.z <= size.z
    ensures var st := src(box.lo.Plus(o));
            Snapped(src, box, mask, Pos(o.x + 1, o.y, o.z), if mask.Selects(st) then cells + [Cell(o, st)] else cells)
  {
    var st := src(box.lo.Plus(o));
    var next := Pos(o.x + 1, o.y, o.z);
    forall at ensures Passed(box, next, at) <==> Passed(box, o, at) || (at == o) {}
    forall c | c in cells ensures c.at != o { assert Passed(box, o, c.at); }
  }

  lemma SnapRow(src: Pos -> State, box: Box, mask: Mask, o: Pos, next: Pos, cells: seq<Cell>)
    requires Snapped(src, box, mask, o, cells)
    requires forall at :: Passed(box, o, at) <==> Passed(box, next, at)
    ensures Snapped(src, box, mask, next, cells)
  {
  }

  /** All selected cells of the box, in the order of the three loops. */
  method Snapshot(src: Cache, box: Box, mask: Mask, loads: Pos -> bool) returns (cells: seq<Cell>)
    requires box.lo.x <= box.hi.x && box.lo.y <= box.hi.y && box.lo.z <= box.hi.z
    ensures Snapped(Seen(src.View(), loads), box, mask, Pos(0, box.hi.y - box.lo.y + 1, 0), cells)
  {
    hide Snapped;
    var size := box.hi.Minus(box.lo);
    ghost var v := Seen(src.View(), loads);
    cells := [];
    SnapStart(v, box, mask);
    for oy := 0 to size.y + 1
      invariant Snapped(v, box, mask, Pos(0, oy, 0), cells)
    {
      for oz := 0 to size.z + 1
        invariant Snapped(v, box, mask, Pos(0, oy, oz), cells)
      {
        for ox := 0 to size.x + 1
          invariant Snapped(v, box, mask, Pos(ox, oy, oz), cells)
        {
          var at := Pos(ox, oy, oz);
          var state := src.GetBlock(box.lo.Plus(at), loads(box.lo.Plus(at)));
          SnapStep(v, box, mask, at, cells);
          if !mask.Selects(state) {
            continue;
          }
          cells := cells + [Cell(at, state)];
        }
        SnapRow(v, box, mask, Pos(size.x + 1, oy, oz), Pos(0, oy, oz + 1), cells);
      }
      SnapRow(v, box, mask, Pos(0, oy, size.z + 1), Pos(0, oy + 1, 0), cells);
    }
  }

  lemma SnapStart(src: Pos -> State, box: Box, mask: Mask)
    ensures Snapped(src, box, mask, Pos(0, 0, 0), [])
  {
  }

  /** The snapshot lists exactly the selected cells of the box. */
  lemma SnapLists(src: Pos -> State, box: Box, mask: Mask, cells: seq<Cell>, at: Pos)
    requires Snapped(src, box, mask, Pos(0, box.hi.y - box.lo.y + 1, 0), cells)
    ensures var p := box.lo.Plus(at);
            Listed(cells, at) == if box.Has(p) && mask.Selects(src(p)) then Some(src(p)) else None
  {
    ListedIs(cells, at);
    var c := Cell(at, src(box.lo.Plus(at)));
    assert Passed(box, Pos(0, box.hi.y - box.lo.y + 1, 0), at) <==> box.Has(box.lo.Plus(at));
    if Listed(cells, at).Some? { assert Cell(at, Listed(cells, at).value) in cells; }
    assert c in cells <==> box.Has(box.lo.Plus(at)) && mask.Selects(c.state);
  }

  // ---- Writing

  /** Number of listed cells whose destination takes the block. */
  function Count(cells: seq<Cell>, to: Pos, takes: Pos -> bool): nat {
    if cells == [] then 0
    else
      var last := cells[|cells| - 1];
      Count(cells[..|cells| - 1], to, takes) + if takes(to.Plus(last.at)) then 1 else 0
  }

  function Targets(cells: seq<Cell>, to: Pos, takes: Pos -> bool): set<Pos> {
    set c | c in cells && takes(to.Plus(c.at)) :: to.Plus(c.at)
  }

  lemma {:induction false} CountTargets(cells: seq<Cell>, to: Pos, takes: Pos -> bool)
    requires Distinct(cells)
    ensures Count(cells, to, takes) == |Targets(cells, to, takes)|
  {
    if cells != [] {
      var rest, last := cells[..|cells| - 1], cells[|cells| - 1];
      assert cells == rest + [last];
      CountTargets(rest, to, takes);
      var q := to.Plus(last.at);
      assert q !in Targets(rest, to, takes);
      assert Targets(cells, to, takes) == Targets(rest, to, takes) + if takes(q) then {q} else {};
    }
  }

  method Write(dst: Cache, cells: seq<Cell>, to: Pos, takes: Pos -> bool) returns (cloned: nat)
    requires forall c :: c in cells ==> dst.InRange(to.Plus(c.at))
    modifies dst
    ensures cloned == Count(cells, to, takes)
    ensures forall q :: dst.At(q) == Written(old(dst.View()), cells, to, takes, q)
  {
    cloned := 0;
    for i := 0 to |cells|
      invariant cloned == Count(cells[..i], to, takes)
      invariant forall q :: dst.At(q) == Written(old(dst.View()), cells[..i], to, takes, q)
    {
      assert cells[..i + 1][..i] == cells[..i];
      var cell := cells[i];
      var target := to.Plus(cell.at);
      var valid := dst.SetBlockWithLight(target, cell.state, takes(target));
      if valid {
        cloned := cloned + 1;
      }
    }
    assert cells[..|cells|] == cells;
  }

  /** The destination with the listed cells on top. */
  function Written(dst: Pos -> State, cells: seq<Cell>, to: Pos, takes: Pos -> bool, q: Pos): State {
    var st := Listed(cells, q.Minus(to));
    if st.Some? && takes(q) then st.value else dst(q)
  }

  method Clear(src: Cache, cells: seq<Cell>, from: Pos, keep: Option<Box>, store: Store)
    modifies src
    ensures forall q :: src.At(q) == Emptied(old(src.At(q)), cells, from, keep, store, q)
  {
    hide Listed, Box.Has;
    NothingListed();
    for i := 0 to |cells|
      invariant forall q :: src.At(q) == Emptied(old(src.At(q)), cells[..i], from, keep, store, q)
    {
      assert cells[..i + 1][..i] == cells[..i];
      var p := from.Plus(cells[i].at);
      forall q: Pos { ListedStep(cells[..i + 1], q.Minus(from)); }
      assert forall q: Pos :: q.Minus(from) == cells[i].at <==> q == p;
      if keep.Some? && keep.value.Has(p) {
        continue;
      }
      var oldState := src.GetBlock(p, store.reloads(p));
      if oldState == AIR {
        continue;
      }
      var _ := src.SetBlockWithLight(p, AIR, store.empties(p));
    }
    assert cells[..|cells|] == cells;
  }

  function Emptied(before: State, cells: seq<Cell>, from: Pos, keep: Option<Box>, store: Store, q: Pos): State {
    var kept := keep.Some? && keep.value.Has(q);
    if Listed(cells, q.Minus(from)).Some? && !kept && store.reloads(q) && store.empties(q) then AIR else before
  }

  lemma NothingListed()
    ensures forall at :: Listed([], at).None?
  {
  }

  lemma ListedStep(cells: seq<Cell>, at: Pos)
    requires cells != []
    ensures Listed(cells, at).Some? <==> cells[|cells| - 1].at == at || Listed(cells[..|cells| - 1], at).Some?
  {
  }

  // ---- The command

  /** The cells of the destination that the copy writes. */
  ghost function Chosen(src: Pos -> State, box: Box, to: Pos, mask: Mask, takes: Pos -> bool): set<Pos> {
    set p | p in box.Cells() && mask.Selects(src(p)) && takes(p.Minus(box.lo).Plus(to)) :: p.Minus(box.lo).Plus(to)
  }

  /** The refusals, in the order they are made, or none. */
  function Refusal(box: Box, to: Pos, same: bool, mode: Mode, limit: int, stored: bool,
                   srcMin: int, srcMax: int, dstMin: int, dstMax: int): Option<Outcome>
  {
    var size := box.hi.Minus(box.lo);
    var volume := (size.x + 1) * (size.y + 1) * (size.z + 1);
    if volume > limit then Some(TooManyBlocks(limit, volume))
    else if box.lo.y < srcMin || box.hi.y >= srcMax || to.y < dstMin || to.y + size.y >= dstMax then Some(OutOfWorld)
    else if same && mode != Force && box.Overlaps(box.At(to)) then Some(Overlap)
    else if !stored then Some(Cloned(0))
    else None
  }

  lemma CellsHas(box: Box, p: Pos)
    ensures p in box.Cells() <==> box.Has(p)
  {
    assert p == Pos(p.x, p.y, p.z);
  }

  lemma ChosenHas(src: Pos -> State, box: Box, to: Pos, mask: Mask, takes: Pos -> bool, q: Pos)
    ensures var p := box.lo.Plus(q.Minus(to));
            q in Chosen(src, box, to, mask, takes) <==> box.Has(p) && mask.Selects(src(p)) && takes(q)
  {
    var p := box.lo.Plus(q.Minus(to));
    CellsHas(box, p);
    assert p.Minus(box.lo).Plus(to) == q;
    if q in Chosen(src, box, to, mask, takes) {
      var o :| o in box.Cells() && mask.Selects(src(o)) && takes(o.Minus(box.lo).Plus(to))
               && o.Minus(box.lo).Plus(to) == q;
      assert o == p;
    }
  }

  lemma TargetsHas(cells: seq<Cell>, to: Pos, takes: Pos -> bool, q: Pos)
    requires Distinct(cells)
    ensures q in Targets(cells, to, takes) <==> Listed(cells, q.Minus(to)).Some? && takes(q)
  {
    var at := q.Minus(to);
    assert to.Plus(at) == q;
    ListedIs(cells, at);
    if q in Targets(cells, to, takes) {
      var c :| c in cells && takes(to.Plus(c.at)) && to.Plus(c.at) == q;
      assert c.at == at;
    }
  }

  lemma SnapDistinct(src: Pos -> State, box: Box, mask: Mask, o: Pos, cells: seq<Cell>)
    requires Snapped(src, box, mask, o, cells)
    ensures Distinct(cells)
  {
  }

  lemma SnapCount(src: Pos -> State, box: Box, mask: Mask, cells: seq<Cell>, to: Pos, takes: Pos -> bool)
    requires Snapped(src, box, mask, Pos(0, box.hi.y - box.lo.y + 1, 0), cells)
    ensures Count(cells, to, takes) == |Chosen(src, box, to, mask, takes)|
  {
    hide Snapped, Distinct, Chosen, Targets, Listed, Count;
    SnapDistinct(src, box, mask, Pos(0, box.hi.y - box.lo.y + 1, 0), cells);
    CountTargets(cells, to, takes);
    forall q ensures q in Chosen(src, box, to, mask, takes) <==> q in Targets(cells, to, takes) {
      ChosenHas(src, box, to, mask, takes, q);
      TargetsHas(cells, to, takes, q);
      SnapLists(src, box, mask, cells, q.Minus(to));
    }
    assert Chosen(src, box, to, mask, takes) == Targets(cells, to, takes);
  }

  /** What the snapshot writes is the simultaneous copy. */
  lemma WrittenCopied(src: Pos -> State, dst: Pos -> State, box: Box, to: Pos, mask: Mask, takes: Pos -> bool,
                      cells: seq<Cell>, q: Pos)
    requires Snapped(src, box, mask, Pos(0, box.hi.y - box.lo.y + 1, 0), cells)
    ensures Written(dst, cells, to, takes, q) == Copied(src, dst, box, to, mask, takes, q)
  {
    hide Snapped, Listed;
    SnapLists(src, box, mask, cells, q.Minus(to));
    assert box.lo.Plus(q.Minus(to)) == q.Minus(to).Plus(box.lo);
  }

  lemma SnapListed(src: Pos -> State, box: Box, mask: Mask, cells: seq<Cell>, q: Pos)
    requires Snapped(src, box, mask, Pos(0, box.hi.y - box.lo.y + 1, 0), cells)
    ensures Listed(cells, q.Minus(box.lo)).Some? <==> box.Has(q) && mask.Selects(src(q))
  {
    hide Snapped, Listed;
    SnapLists(src, box, mask, cells, q.Minus(box.lo));
    assert box.lo.Plus(q.Minus(box.lo)) == q;
  }

  lemma SnapInRange(seen: Pos -> State, box: Box, mask: Mask, cells: seq<Cell>, dst: Cache, to: Pos)
    requires Snapped(seen, box, mask, Pos(0, box.hi.y - box.lo.y + 1, 0), cells)
    requires dst.minY <= to.y && to.y + box.hi.y - box.lo.y < dst.maxY
    ensures forall c :: c in cells ==> dst.InRange(to.Plus(c.at))
  {
  }

  /** The snapshot and the writes. */
  method CopyBox(src: Cache, dst: Cache, box: Box, to: Pos, mask: Mask, store: Store)
    returns (cells: seq<Cell>, cloned: nat)
    requires box.lo.x <= box.hi.x && box.lo.y <= box.hi.y && box.lo.z <= box.hi.z
    requires dst.minY <= to.y && to.y + box.hi.y - box.lo.y < dst.maxY
    modifies dst
    ensures var seen := Seen(old(src.View()), store.loads);
            && (forall q :: dst.At(q) == Copied(seen, old(dst.View()), box, to, mask, store.takes, q))
            && cloned == |Chosen(seen, box, to, mask, store.takes)|
            && (forall q: Pos :: Listed(cells, q.Minus(box.lo)).Some? <==> box.Has(q) && mask.Selects(seen(q)))
  {
    hide Snapped, Distinct, Chosen, Count, Listed, Written, Copied;
    cells := Snapshot(src, box, mask, store.loads);
    ghost var seen, had := Seen(src.View(), store.loads), dst.View();
    SnapInRange(seen, box, mask, cells, dst, to);
    SnapCount(seen, box, mask, cells, to, store.takes);
    forall q: Pos ensures Listed(cells, q.Minus(box.lo)).Some? <==> box.Has(q) && mask.Selects(seen(q)) {
      SnapListed(seen, box, mask, cells, q);
    }
    cloned := Write(dst, cells, to, store.takes);
    forall q ensures dst.At(q) == Copied(seen, had, box, to, mask, store.takes, q) {
      WrittenCopied(seen, had, box, to, mask, store.takes, cells, q);
    }
  }

  /** What the command leaves at a place of the destination; `same` within one dimension. */
  function After(seen: Pos -> State, dst: Pos -> State, box: Box, to: Pos, mask: Mask, mode: Mode, same: bool,
                 store: Store, q: Pos): State
  {
    var copied := Copied(seen, dst, box, to, mask, store.takes, q);
    if same then Cleared(seen, copied, box, mask, mode, store, q) else copied
  }

  lemma Apart(a: Box, b: Box, q: Pos)
    requires !a.Overlaps(b) && a.Has(q)
    ensures !b.Has(q)
  {
  }

  /** The command after its arguments are read; `src` and `dst` are one object within a dimension, and
      `stored` says whether both dimensions have a chunk store. */
  method ExecClone(src: Cache, dst: Cache, a: Pos, b: Pos, to: Pos, mask: Mask, mode: Mode, limit: int, stored: bool,
                   store: Store)
    returns (outcome: Outcome)
    modifies src, dst
    ensures var box, seen, had := BoxOf(a, b), Seen(old(src.View()), store.loads), old(dst.View());
            var refusal := Refusal(box, to, src == dst, mode, limit, stored, src.minY, src.maxY, dst.minY, dst.maxY);
            && (refusal.Some? ==> outcome == refusal.value)
            && (refusal.Some? ==> forall q :: src.At(q) == old(src.At(q)) && dst.At(q) == old(dst.At(q)))
            && (refusal.None? ==> outcome == Cloned(|Chosen(seen, box, to, mask, store.takes)|))
            && (refusal.None? ==> forall q :: dst.At(q) == After(seen, had, box, to, mask, mode, src == dst, store, q))
            && (refusal.None? && src != dst ==> forall q ::
                  src.At(q) == Cleared(seen, old(src.At(q)), box, mask, mode, store, q))
  {
    hide Chosen, Copied, Listed, Box.Overlaps;
    var box := BoxOf(a, b);
    var size := box.hi.Minus(box.lo);
    var volume := (size.x + 1) * (size.y + 1) * (size.z + 1);
    if volume > limit {
      return TooManyBlocks(limit, volume);
    }
    if box.lo.y < src.minY || box.hi.y >= src.maxY || to.y < dst.minY || to.y + size.y >= dst.maxY {
      return OutOfWorld;
    }
    var target := box.At(to);
    if src == dst && mode != Force && box.Overlaps(target) {
      return Overlap;
    }
    if !stored {
      return Cloned(0);
    }
    var cells, cloned := CopyBox(src, dst, box, to, mask, store);
    NothingListed();
    if mode == Move && |cells| > 0 {
      Clear(src, cells, box.lo, if src == dst then Some(target) else None, store);
      forall q | src == dst && box.Has(q) ensures !target.Has(q) { Apart(box, target, q); }
    }
    outcome := Cloned(cloned);
  }

  // ---- What the command means, cell by cell

  predicate Between(a: int, n: int, b: int) { a <= n <= b || b <= n <= a }

  /** The two corners may be given in any order. */
  lemma BoxMeans(a: Pos, b: Pos, p: Pos)
    ensures BoxOf(a, b).Has(p) <==> Between(a.x, p.x, b.x) && Between(a.y, p.y, b.y) && Between(a.z, p.z, b.z)
  {
  }

  lemma {:induction false} CellsCount(box: Box)
    requires box.lo.x <= box.hi.x && box.lo.y <= box.hi.y && box.lo.z <= box.hi.z
    ensures var size := box.hi.Minus(box.lo); |box.Cells()| == (size.x + 1) * (size.y + 1) * (size.z + 1)
    decreases box.hi.x - box.lo.x + (box.hi.y - box.lo.y) + (box.hi.z - box.lo.z)
  {
    hide Box.Cells;
    var lo, hi := box.lo, box.hi;
    if lo.x < hi.x {
      CellsSplit(box, Box(lo, hi.(x := hi.x - 1)), Box(lo.(x := hi.x), hi));
      CellsCount(Box(lo, hi.(x := hi.x - 1)));
      CellsCount(Box(lo.(x := hi.x), hi));
      Layers(hi.x - lo.x, hi.y - lo.y + 1, hi.z - lo.z + 1);
    } else if lo.y < hi.y {
      CellsSplit(box, Box(lo, hi.(y := hi.y - 1)), Box(lo.(y := hi.y), hi));
      CellsCount(Box(lo, hi.(y := hi.y - 1)));
      CellsCount(Box(lo.(y := hi.y), hi));
      Layers(hi.y - lo.y, 1, hi.z - lo.z + 1);
    } else if lo.z < hi.z {
      CellsSplit(box, Box(lo, hi.(z := hi.z - 1)), Box(lo.(z := hi.z), hi));
      CellsCount(Box(lo, hi.(z := hi.z - 1)));
      CellsCount(Box(lo.(z := hi.z), hi));
    } else {
      forall p ensures p in box.Cells() <==> p in {lo} { CellsHas(box, p); }
      assert box.Cells() == {lo};
    }
  }

  lemma Layers(n: int, a: int, b: int)
    ensures n * a * b + 1 * a * b == (n + 1) * a * b
  {
  }

  lemma CellsSplit(box: Box, a: Box, b: Box)
    requires forall p :: box.Has(p) <==> a.Has(p) || b.Has(p)
    requires forall p :: !(a.Has(p) && b.Has(p))
    ensures |box.Cells()| == |a.Cells()| + |b.Cells()|
  {
    forall p ensures p in box.Cells() <==> p in a.Cells() + b.Cells() {
      CellsHas(box, p);
      CellsHas(a, p);
      CellsHas(b, p);
    }
    assert box.Cells() == a.Cells() + b.Cells();
    forall p ensures !(p in a.Cells() && p in b.Cells()) {
      CellsHas(a, p);
      CellsHas(b, p);
    }
    assert a.Cells() !! b.Cells();
  }

  /** Exactly when each refusal is made: more cells than the limit, a cell of either box outside its world, a
      shared cell within one dimension without force, a dimension without a store. */
  lemma RefusalMeans(a: Pos, b: Pos, to: Pos, same: bool, mode: Mode, limit: int, stored: bool,
                     srcMin: int, srcMax: int, dstMin: int, dstMax: int)
    ensures var box := BoxOf(a, b);
            var r := Refusal(box, to, same, mode, limit, stored, srcMin, srcMax, dstMin, dstMax);
            var tooMany := |box.Cells()| > limit;
            var outside := exists p ::
                             || (box.Has(p) && !(srcMin <= p.y < srcMax))
                             || (box.At(to).Has(p) && !(dstMin <= p.y < dstMax));
            var shared := exists p :: box.Has(p) && box.At(to).Has(p);
            && (tooMany <==> r == Some(TooManyBlocks(limit, |box.Cells()|)))
            && (!tooMany && outside <==> r == Some(OutOfWorld))
            && (!tooMany && !outside && same && mode != Force && shared <==> r == Some(Overlap))
            && (!tooMany && !outside && !(same && mode != Force && shared) && !stored <==> r == Some(Cloned(0)))
  {
    var box := BoxOf(a, b);
    CellsCount(box);
    OverlapMeans(box, box.At(to));
    var outside := box.lo.y < srcMin || box.hi.y >= srcMax || to.y < dstMin || to.y + (box.hi.y - box.lo.y) >= dstMax;
    if outside {
      var p := if box.lo.y < srcMin then box.lo else if box.hi.y >= srcMax then box.hi
               else if to.y < dstMin then to else box.At(to).hi;
      assert (box.Has(p) && !(srcMin <= p.y < srcMax)) || (box.At(to).Has(p) && !(dstMin <= p.y < dstMax));
    }
  }

  /** A cell is copied, as the snapshot saw it. */
  ghost predicate Taken(src: Pos -> State, box: Box, mask: Mask, store: Store, p: Pos) {
    var block := if store.loads(p) then src(p) else 0;
    && box.Has(p)
    && match mask
       case Replace => true
       case Masked => block != 0
       case Filtered(matches) => matches(block)
  }

  /** What an accepted command leaves at each place of the destination: the copied block where one is taken and
      the store takes it; after a move within one dimension, air where one left; else what was there. */
  lemma CloneMeans(src: Pos -> State, dst: Pos -> State, box: Box, to: Pos, mask: Mask, mode: Mode, same: bool,
                   store: Store, q: Pos)
    requires same && mode == Move ==> src == dst && !box.Overlaps(box.At(to))
    ensures var p := box.lo.Plus(q.Minus(to));
            var left := mode == Move && Taken(src, box, mask, store, q) && store.reloads(q) && store.empties(q);
            && After(Seen(src, store.loads), dst, box, to, mask, mode, same, store, q)
               == (if Taken(src, box, mask, store, p) && store.takes(q) then if store.loads(p) then src(p) else 0
                   else if same && left then 0
                   else dst(q))
            && Cleared(Seen(src, store.loads), src(q), box, mask, mode, store, q) == (if left then 0 else src(q))
            && (q in Chosen(Seen(src, store.loads), box, to, mask, store.takes) <==>
                  Taken(src, box, mask, store, p) && store.takes(q))
  {
    hide Box.Overlaps;
    var p, seen := box.lo.Plus(q.Minus(to)), Seen(src, store.loads);
    assert p == q.Minus(to).Plus(box.lo);
    ChosenHas(seen, box, to, mask, store.takes, q);
    SelectsMeans(src, box, mask, store, p);
    SelectsMeans(src, box, mask, store, q);
    if same && mode == Move && box.Has(p) && box.Has(q) {
      assert box.At(to).Has(q);
      Apart(box, box.At(to), q);
    }
  }

  lemma SelectsMeans(src: Pos -> State, box: Box, mask: Mask, store: Store, p: Pos)
    ensures Taken(src, box, mask, store, p) <==> box.Has(p) && mask.Selects(Seen(src, store.loads)(p))
  {
  }

  // ---- Consequences

  /** Moving a box away and back, without overlap and with a store that always works, restores it; only
      the place it was moved to is left empty. */
  lemma ThereAndBack(w: Pos -> State, box: Box, to: Pos, store: Store, q: Pos)
    requires !box.Overlaps(box.At(to))
    requires forall p :: box.Has(p) || box.At(to).Has(p) ==> store.takes(p) && store.reloads(p) && store.empties(p)
    ensures var away := (p: Pos) => After(w, w, box, to, Replace, Move, true, store, p);
            var back := After(away, away, box.At(to), box.lo, Replace, Move, true, store, q);
            back == if box.At(to).Has(q) then AIR else w(q)
  {
    var other := box.At(to);
    var p := q.Minus(box.lo).Plus(other.lo);
    assert other.Has(p) <==> box.Has(q);
    assert p.Minus(to).Plus(box.lo) == q;
    if box.Has(q) {
      Apart(box, other, q);
      Apart(other, box, p);
    }
  }

  /** The blocks a move leaves at the old and the new place of one selected cell. */
  function MovedFrom(src: Pos -> State, dst: Pos -> State, box: Box, to: Pos, mask: Mask, same: bool, store: Store,
                     p: Pos): State
  {
    var seen := Seen(src, store.loads);
    if same then After(seen, dst, box, to, mask, Move, true, store, p)
    else Cleared(seen, src(p), box, mask, Move, store, p)
  }

  function MovedTo(src: Pos -> State, dst: Pos -> State, box: Box, to: Pos, mask: Mask, same: bool, store: Store,
                   p: Pos): State
  {
    After(Seen(src, store.loads), dst, box, to, mask, Move, same, store, p.Minus(box.lo).Plus(to))
  }

  /** A selected cell of a move, across dimensions or within one. Its block arrives exactly when the
      destination takes it and its chunk loaded, or held that block already and takes nothing; it
      leaves its old place exactly when that was air, or loads again and takes the air. */
  lemma MoveExact(src: Pos -> State, dst: Pos -> State, box: Box, to: Pos, mask: Mask, same: bool, store: Store, p: Pos)
    requires box.Has(p) && mask.Selects(Seen(src, store.loads)(p))
    requires same ==> src == dst && !box.Overlaps(box.At(to))
    ensures var q := p.Minus(box.lo).Plus(to);
            MovedTo(src, dst, box, to, mask, same, store, p) == src(p) <==>
              if store.takes(q) then store.loads(p) || src(p) == AIR else dst(q) == src(p)
    ensures MovedFrom(src, dst, box, to, mask, same, store, p) == AIR <==>
              src(p) == AIR || (store.reloads(p) && store.empties(p))
    ensures MovedFrom(src, dst, box, to, mask, same, store, p) in {src(p), AIR}
  {
    var other := box.At(to);
    var q := p.Minus(box.lo).Plus(to);
    assert q.Minus(to).Plus(box.lo) == p;
    assert other.Has(q);
    if same {
      Apart(box, other, p);
      Apart(other, box, q);
      NotCopied(box, to, p);
    }
  }

  /** A place outside the destination box is not one that is copied to. */
  lemma NotCopied(box: Box, to: Pos, p: Pos)
    requires !box.At(to).Has(p)
    ensures !box.Has(p.Minus(to).Plus(box.lo))
  {
  }

  /** So a move keeps a block in exactly one of its two places if and only if it arrives and leaves, or
      does neither. */
  lemma MoveKeepsOne(src: Pos -> State, dst: Pos -> State, box: Box, to: Pos, mask: Mask, same: bool,
                     store: Store, p: Pos)
    requires box.Has(p) && mask.Selects(Seen(src, store.loads)(p)) && src(p) != AIR
    requires same ==> src == dst && !box.Overlaps(box.At(to))
    ensures var q := p.Minus(box.lo).Plus(to);
            var arrives := if store.takes(q) then store.loads(p) else dst(q) == src(p);
            var leaves := store.reloads(p) && store.empties(p);
            var here := MovedFrom(src, dst, box, to, mask, same, store, p) == src(p);
            var there := MovedTo(src, dst, box, to, mask, same, store, p) == src(p);
            && (here != there <==> arrives == leaves)
            && (!here && !there <==> !arrives && leaves)
            && (here && there <==> arrives && !leaves)
  {
    MoveExact(src, dst, box, to, mask, same, store, p);
  }

  function OneBlock(at: Pos, block: State): Pos -> State { p => if p == at then block else AIR }
  function Everywhere(): Pos -> bool { _ => true }
  function Except(at: Pos): Pos -> bool { p => p != at }

  /** A block moved to a place that refuses the write is lost. */
  lemma MoveLoses(block: State, here: Pos, there: Pos)
    requires block != AIR && here != there
    ensures var w, store := OneBlock(here, block), Store(Everywhere(), Except(there), Everywhere(), Everywhere());
            && MovedFrom(w, w, Box(here, here), there, Replace, true, store, here) == AIR
            && MovedTo(w, w, Box(here, here), there, Replace, true, store, here) != block
  {
    var w, store := OneBlock(here, block), Store(Everywhere(), Except(there), Everywhere(), Everywhere());
    MoveExact(w, w, Box(here, here), there, Replace, true, store, here);
  }

  /** A block moved from a place that refuses the air is doubled. */
  lemma MoveDoubles(block: State, here: Pos, there: Pos)
    requires block != AIR && here != there
    ensures var w, store := OneBlock(here, block), Store(Everywhere(), Everywhere(), Everywhere(), Except(here));
            && MovedFrom(w, w, Box(here, here), there, Replace, true, store, here) == block
            && MovedTo(w, w, Box(here, here), there, Replace, true, store, here) == block
  {
    var w, store := OneBlock(here, block), Store(Everywhere(), Everywhere(), Everywhere(), Except(here));
    MoveExact(w, w, Box(here, here), there, Replace, true, store, here);
  }
}
