/** Anvil arithmetic of internal/server/anvil.go, over the enchantment metadata of
    internal/server/enchanting.go: repair, enchantment merge, prior-work penalty and survival cap.
    Costs and levels are unbounded integers. */
module Anvil {
  import opened Wrappers

  // ---- Items and rules

  datatype Stack = Stack(id: string, count: int) {
    predicate IsEmpty() { count <= 0 }
  }

  datatype ItemMeta = ItemMeta(damage: int, enchantments: map<string, int>, customName: string, repairCost: int) {
    /** Entries without a level are dropped. */
    function Clone(): ItemMeta {
      this.(enchantments := map id | id in enchantments && enchantments[id] > 0 :: enchantments[id])
    }

    predicate HasEnchantments() { AnyLevel(enchantments) }
  }

  predicate AnyLevel(ench: map<string, int>) { exists id :: id in ench && ench[id] > 0 }

  datatype EnchantmentDef = EnchantmentDef(maxLevel: int, anvilCost: int, group: string)

  /** The tables the arithmetic runs over. */
  datatype Rules = Rules(defs: map<string, EnchantmentDef>, canEnchant: (string, string) -> bool,
                         durability: string -> int, repairs: (string, string) -> bool) {
    ghost predicate Sound() {
      forall id :: id in defs ==> defs[id].maxLevel >= 1 && defs[id].anvilCost >= 0
    }

    /** `AreEnchantmentsCompatible` */
    predicate Compatible(a: string, b: string) {
      && a != b && a in defs && b in defs
      && !(a == RIPTIDE && (b == LOYALTY || b == CHANNELING)) && !(b == RIPTIDE && (a == LOYALTY || a == CHANNELING))
      && (defs[a].group == "" || defs[a].group != defs[b].group || defs[a].group == "trident_riptide")
    }
  }

  const RIPTIDE := "minecraft:riptide"
  const LOYALTY := "minecraft:loyalty"
  const CHANNELING := "minecraft:channeling"
  const BOOK := "minecraft:book"
  const ENCHANTED_BOOK := "minecraft:enchanted_book"
  const MAX_SURVIVAL_COST := 40

  // ---- Sorted enchantments

  datatype Enchantment = Enchantment(id: string, level: int)

  predicate Less(a: string, b: string) {
    b != "" && (a == "" || a[0] < b[0] || (a[0] == b[0] && Less(a[1..], b[1..])))
  }

  lemma {:induction false} LessTotal(a: string, b: string)
    ensures Less(a, b) || Less(b, a) || a == b
    ensures !(Less(a, b) && Less(b, a))
  {
    if a != "" && b != "" {
      LessTotal(a[1..], b[1..]);
      if a[0] == b[0] && a[1..] == b[1..] { assert a == [a[0]] + a[1..] && b == [b[0]] + b[1..]; }
    }
  }

  lemma {:induction false} LessTransitive(a: string, b: string, c: string)
    requires Less(a, b) && Less(b, c)
    ensures Less(a, c)
  {
    if a != "" && a[0] == b[0] == c[0] { LessTransitive(a[1..], b[1..], c[1..]); }
  }

  ghost predicate Ascending(list: seq<Enchantment>) {
    forall i, j :: 0 <= i < j < |list| ==> Less(list[i].id, list[j].id)
  }

  /** The active enchantments, each once, by id. */
  ghost predicate IsSorted(ench: map<string, int>, list: seq<Enchantment>) {
    Ascending(list) && forall e :: e in list <==> e.id in ench && ench[e.id] == e.level && e.level > 0
  }

  method SortedEnchantments(ench: map<string, int>) returns (list: seq<Enchantment>)
    ensures IsSorted(ench, list)
  {
    list := [];
    var todo := ench.Keys;
    while todo != {}
      invariant todo <= ench.Keys && Ascending(list)
      invariant forall e :: e in list <==> e.id in ench && e.id !in todo && ench[e.id] == e.level && e.level > 0
      decreases |todo|
    {
      var id :| id in todo;
      todo := todo - {id};
      if ench[id] > 0 {
        list := Insert(list, Enchantment(id, ench[id]));
      }
    }
  }

  method Insert(list: seq<Enchantment>, e: Enchantment) returns (r: seq<Enchantment>)
    requires Ascending(list) && forall x :: x in list ==> x.id != e.id
    ensures Ascending(r) && forall x :: x in r <==> x in list || x == e
  {
    hide Less;
    var i := |list|;
    while i > 0 && Less(e.id, list[i - 1].id)
      invariant 0 <= i <= |list| && forall j :: i <= j < |list| ==> Less(e.id, list[j].id)
    {
      i := i - 1;
    }
    Inserted(list, e, i);
    r := list[..i] + [e] + list[i..];
  }

  lemma Inserted(list: seq<Enchantment>, e: Enchantment, i: nat)
    requires Ascending(list) && i <= |list| && forall x :: x in list ==> x.id != e.id
    requires i > 0 ==> !Less(e.id, list[i - 1].id)
    requires forall j :: i <= j < |list| ==> Less(e.id, list[j].id)
    ensures var r := list[..i] + [e] + list[i..]; Ascending(r) && forall x :: x in r <==> x in list || x == e
  {
    hide Less;
    forall j | 0 <= j < i ensures Less(list[j].id, e.id) {
      LessTotal(e.id, list[i - 1].id);
      if j < i - 1 { LessTransitive(list[j].id, list[i - 1].id, e.id); }
    }
    assert list == list[..i] + list[i..];
  }

  /** There is one sorted list, so results do not depend on the order a map is walked in. */
  lemma {:induction false} SortedOnce(ench: map<string, int>, a: seq<Enchantment>, b: seq<Enchantment>)
    requires IsSorted(ench, a) && IsSorted(ench, b)
    ensures a == b
  {
    SameMembers(a, b);
    SameMembers(b, a);
  }

  lemma {:induction false} SameMembers(a: seq<Enchantment>, b: seq<Enchantment>)
    requires Ascending(a) && Ascending(b) && forall e :: e in a <==> e in b
    ensures a == b
  {
    SameEmpty(a, b);
    if a != [] {
      FirstIsLeast(a, b);
      TailMembers(a);
      TailMembers(b);
      SameMembers(a[1..], b[1..]);
      assert a == [a[0]] + a[1..] && b == [b[0]] + b[1..];
    }
  }

  lemma SameEmpty(a: seq<Enchantment>, b: seq<Enchantment>)
    requires forall e :: e in a <==> e in b
    ensures a == [] <==> b == []
  {
    if a != [] { assert a[0] in a; }
    if b != [] { assert b[0] in b; }
  }

  lemma FirstIsLeast(a: seq<Enchantment>, b: seq<Enchantment>)
    requires Ascending(a) && Ascending(b) && a != [] && b != [] && forall e :: e in a <==> e in b
    ensures a[0] == b[0]
  {
    assert a[0] in b && b[0] in a;
    var i :| 0 <= i < |b| && b[i] == a[0];
    var j :| 0 <= j < |a| && a[j] == b[0];
    LessTotal(a[0].id, b[0].id);
  }

  lemma TailMembers(a: seq<Enchantment>)
    requires Ascending(a) && a != []
    ensures forall e :: e in a[1..] <==> e in a && e != a[0]
  {
    LessTotal(a[0].id, a[0].id);
  }

  // ---- Repair

  /** How many units of material a repair takes: as many as are needed, or all there are. */
  function Units(damage: int, step: int, count: int): int
    requires step > 0
  {
    var needed := (damage + step - 1) / step;
    if count < needed then count else needed
  }

  function Max(a: int, b: int): int { if a > b then a else b }

  method RepairByUnits(damage: int, step: int, count: int) returns (left: int, units: int)
    requires damage > 0 && step > 0 && count > 0
    ensures units == Units(damage, step, count) && left == Max(0, damage - units * step)
  {
    left, units := damage, 0;
    while left > 0 && units < count
      invariant 0 <= units <= count && left == Max(0, damage - units * step)
      invariant units > 0 ==> damage > (units - 1) * step
      decreases count - units
    {
      left := left - step;
      if left < 0 {
        left := 0;
      }
      units := units + 1;
      assert units * step == (units - 1) * step + step;
    }
    UnitsAre(damage, step, count, units);
  }

  lemma Times(a: int, b: int, step: int)
    requires step > 0
    ensures a <= b ==> a * step <= b * step
  {
  }

  lemma UnitsAre(damage: int, step: int, count: int, units: int)
    requires damage > 0 && step > 0 && 0 < units <= count
    requires damage > (units - 1) * step && (units == count || damage <= units * step)
    ensures units == Units(damage, step, count)
  {
    var needed := (damage + step - 1) / step;
    assert needed * step <= damage + step - 1 < needed * step + step;
    Times(needed, units - 1, step);
    Times(units, needed - 1, step);
  }

  /** The damage left when two of the same item are combined. */
  function Combined(durability: int, left: int, right: int): int {
    var rest := durability - left + Max(0, durability - right) + Percent12(durability);
    var damage := Max(0, durability - rest);
    if damage < left then damage else left
  }

  /** 12 percent, with division rounding towards zero. */
  function Percent12(n: int): int { if n >= 0 then n * 12 / 100 else -(-n * 12 / 100) }

  // ---- Enchantment merge

  datatype Merge = Merge(enchantments: map<string, int>, cost: int, applied: bool, refused: bool)

  predicate Conflicts(rules: Rules, ench: map<string, int>, id: string) {
    exists other :: other in ench && ench[other] > 0 && other != id && !rules.Compatible(id, other)
  }

  function Level(ench: map<string, int>, id: string): int { if id in ench then ench[id] else 0 }

  function MergedLevel(left: int, right: int, max: int): int {
    if left == right then (if left + 1 > max then max else left + 1)
    else if left > right then left
    else right
  }

  function Fee(cost: int, isBook: bool): int {
    if isBook then Max(1, cost / 2) else cost
  }

  predicate Fits(rules: Rules, item: string, creative: bool, id: string) {
    rules.canEnchant(id, item) || creative || item == ENCHANTED_BOOK || item == BOOK
  }

  function MergeOne(rules: Rules, item: string, creative: bool, isBook: bool, m: Merge, e: Enchantment): Merge {
    if e.id !in rules.defs then m
    else
      var def := rules.defs[e.id];
      var conflict := Conflicts(rules, m.enchantments, e.id);
      var cost := m.cost + if conflict then 1 else 0;
      if conflict || !Fits(rules, item, creative, e.id) then m.(cost := cost, refused := true)
      else
        var level := MergedLevel(Level(m.enchantments, e.id), e.level, def.maxLevel);
        Merge(SetEnchantment(m.enchantments, e.id, level), cost + Fee(def.anvilCost, isBook) * level, true, m.refused)
  }

  function SetEnchantment(ench: map<string, int>, id: string, level: int): map<string, int> {
    if id == "" then ench
    else if level <= 0 then ench - {id}
    else ench[id := level]
  }

  function MergeAll(rules: Rules, item: string, creative: bool, isBook: bool, m: Merge, list: seq<Enchantment>): Merge
    decreases |list|
  {
    if list == [] then m
    else
      var before := MergeAll(rules, item, creative, isBook, m, list[..|list| - 1]);
      MergeOne(rules, item, creative, isBook, before, list[|list| - 1])
  }

  method MergeEnchantments(rules: Rules, item: string, creative: bool, isBook: bool, ench: map<string, int>,
                           right: map<string, int>, cost: int) returns (m: Merge)
    ensures forall list :: IsSorted(right, list) ==>
              m == MergeAll(rules, item, creative, isBook, Merge(ench, cost, false, false), list)
  {
    hide IsSorted, Ascending, Less, Level, MergedLevel, Fee;
    var rights := SortedEnchantments(right);
    m := Merge(ench, cost, false, false);
    for i := 0 to |rights|
      invariant m == MergeAll(rules, item, creative, isBook, Merge(ench, cost, false, false), rights[..i])
    {
      assert rights[..i + 1][..i] == rights[..i];
      var e := rights[i];
      if e.id !in rules.defs {
        continue;
      }
      var def := rules.defs[e.id];
      var conflict := HasConflict(rules, m.enchantments, e.id);
      var canApply := Fits(rules, item, creative, e.id) && !conflict;
      if conflict {
        m := m.(cost := m.cost + 1);
      }
      if !canApply {
        m := m.(refused := true);
        continue;
      }
      var level := MergedLevel(Level(m.enchantments, e.id), e.level, def.maxLevel);
      var fee := Fee(def.anvilCost, isBook);
      m := Merge(SetEnchantment(m.enchantments, e.id, level), m.cost + fee * level, true, m.refused);
    }
    assert rights[..|rights|] == rights;
    forall list | IsSorted(right, list) ensures list == rights { SortedOnce(right, list, rights); }
  }

  method HasConflict(rules: Rules, ench: map<string, int>, id: string) returns (conflict: bool)
    ensures conflict == Conflicts(rules, ench, id)
  {
    hide Ascending, Less;
    conflict := false;
    var existing := SortedEnchantments(ench);
    for i := 0 to |existing|
      invariant forall j :: 0 <= j < i ==> existing[j].id == id || rules.Compatible(id, existing[j].id)
    {
      if existing[i].id != id && !rules.Compatible(id, existing[i].id) {
        assert existing[i] in existing;
        return true;
      }
    }
    forall other | other in ench && ench[other] > 0 ensures other == id || rules.Compatible(id, other) {
      assert Enchantment(other, ench[other]) in existing;
    }
  }

  // ---- One operation

  /** The two items in the anvil, the new name (already trimmed and cut), and the player's mode. */
  datatype Op = Op(left: Stack, right: Stack, leftMeta: ItemMeta, rightMeta: ItemMeta, name: string, creative: bool) {
    predicate IsBook() { right.id == ENCHANTED_BOOK && rightMeta.HasEnchantments() }

    function Base(): int { leftMeta.repairCost + if right.IsEmpty() then 0 else rightMeta.repairCost }

    predicate ByUnits(rules: Rules) {
      rules.durability(left.id) > 0 && leftMeta.damage > 0 && rules.repairs(left.id, right.id)
    }

    function RenameCost(): int {
      if name == "" then (if leftMeta.customName != "" then 1 else 0)
      else if name != leftMeta.customName then 1 else 0
    }

    function NextPenalty(renameOnly: bool): int {
      var most := if !right.IsEmpty() && rightMeta.repairCost > leftMeta.repairCost then rightMeta.repairCost
                  else leftMeta.repairCost;
      if renameOnly then most else NextAnvilRepairCost(most)
    }
  }

  function NextAnvilRepairCost(cost: int): (r: int)
    ensures r >= 1 && r >= cost && (cost >= 0 ==> r + 1 == 2 * (cost + 1))
  {
    (if cost < 0 then 0 else cost) * 2 + 1
  }

  /** The work done with the right item, before renaming. */
  datatype Work = Work(damage: int, enchantments: map<string, int>, cost: int, units: int, id: string)

  function Left(op: Op): map<string, int> { op.leftMeta.Clone().enchantments }

  function Started(rules: Rules, op: Op): Merge { Merge(Left(op), if Better(rules, op) then 2 else 0, false, false) }

  function Merged(rules: Rules, op: Op, list: seq<Enchantment>): Merge {
    MergeAll(rules, op.left.id, op.creative, op.IsBook(), Started(rules, op), list)
  }

  /** Combining the two leaves less damage. */
  predicate Better(rules: Rules, op: Op) {
    var durability := rules.durability(op.left.id);
    && !op.IsBook() && durability > 0 && op.leftMeta.damage > 0
    && Combined(durability, op.leftMeta.damage, op.rightMeta.damage) < op.leftMeta.damage
  }

  function RightWork(rules: Rules, op: Op, list: seq<Enchantment>): Option<Work> {
    var meta, durability := op.leftMeta.Clone(), rules.durability(op.left.id);
    if op.right.IsEmpty() then Some(Work(meta.damage, meta.enchantments, 0, 0, op.left.id))
    else if op.left.count != 1 then None
    else if op.ByUnits(rules) then
      var step := Max(1, durability / 4);
      var units := Units(meta.damage, step, op.right.count);
      Some(Work(Max(0, meta.damage - units * step), meta.enchantments, units, units, op.left.id))
    else if (!op.IsBook() && (op.left.id != op.right.id || durability <= 0)) || op.right.count != 1 then None
    else
      var m := Merged(rules, op, list);
      if m.refused && !m.applied then None
      else
        var damage := if Better(rules, op) then Combined(durability, meta.damage, op.rightMeta.damage) else meta.damage;
        var id := if op.IsBook() && op.left.id == BOOK && AnyLevel(m.enchantments)
                  then ENCHANTED_BOOK else op.left.id;
        Some(Work(damage, m.enchantments, m.cost, 0, id))
  }

  datatype AnvilResult =
    NoResult | TooExpensive(levels: int) | Result(output: Stack, meta: ItemMeta, levels: int, units: int)

  /** Only the name changes, as the code tells it: no other work cost anything. */
  predicate RenameOnly(op: Op, cost: int) { op.RenameCost() > 0 && cost == 0 }

  function Levels(op: Op, cost: int): int {
    var total := op.Base() + cost + op.RenameCost();
    if RenameOnly(op, cost) && total >= MAX_SURVIVAL_COST then MAX_SURVIVAL_COST - 1 else total
  }

  function Outcome(op: Op, work: Option<Work>): AnvilResult {
    if op.left.IsEmpty() || work.None? || work.value.cost + op.RenameCost() <= 0 then NoResult
    else
      var w := work.value;
      var levels := Levels(op, w.cost);
      if levels >= MAX_SURVIVAL_COST && !op.creative then TooExpensive(levels)
      else
        Result(Stack(w.id, op.left.count),
               ItemMeta(w.damage, w.enchantments, op.name, op.NextPenalty(RenameOnly(op, w.cost))), levels, w.units)
  }

  method ComputeAnvilResult(rules: Rules, op: Op) returns (r: AnvilResult)
    ensures forall list :: IsSorted(op.rightMeta.enchantments, list) ==> r == Outcome(op, RightWork(rules, op, list))
  {
    hide IsSorted, MergeAll, Units, Combined, AnyLevel;
    if op.left.IsEmpty() {
      return NoResult;
    }
    var outMeta := op.leftMeta.Clone();
    var id := op.left.id;
    var base := op.leftMeta.repairCost;
    if !op.right.IsEmpty() {
      base := base + op.rightMeta.repairCost;
    }
    var opCost, units := 0, 0;
    var durability := rules.durability(op.left.id);
    if !op.right.IsEmpty() {
      if op.left.count != 1 {
        return NoResult;
      }
      var isBook := op.IsBook();
      if durability > 0 && outMeta.damage > 0 && rules.repairs(op.left.id, op.right.id) {
        var step := durability / 4;
        if step < 1 {
          step := 1;
        }
        var rest;
        rest, units := RepairByUnits(outMeta.damage, step, op.right.count);
        opCost := units;
        outMeta := outMeta.(damage := rest);
      } else {
        if !isBook && (op.left.id != op.right.id || durability <= 0) {
          return NoResult;
        }
        if op.right.count != 1 {
          return NoResult;
        }
        if !isBook && durability > 0 && outMeta.damage > 0 {
          var damage := CombineDamage(durability, outMeta.damage, op.rightMeta.damage);
          if damage < outMeta.damage {
            outMeta := outMeta.(damage := damage);
            opCost := opCost + 2;
          }
        }
        var m := MergeEnchantments(rules, op.left.id, op.creative, isBook, outMeta.enchantments,
                                   op.rightMeta.enchantments, opCost);
        outMeta, opCost := outMeta.(enchantments := m.enchantments), m.cost;
        if m.refused && !m.applied {
          return NoResult;
        }
        if isBook && op.left.id == BOOK && outMeta.HasEnchantments() {
          id := ENCHANTED_BOOK;
        }
      }
    }
    r := Finish(op, outMeta, opCost, units, base, id);
  }

  /** The damage of two combined items. */
  method CombineDamage(durability: int, left: int, right: int) returns (damage: int)
    requires durability > 0
    ensures damage < left || Combined(durability, left, right) < left ==> damage == Combined(durability, left, right)
  {
    var remLeft, remRight := durability - left, durability - right;
    if remRight < 0 {
      remRight := 0;
    }
    var bonus := durability * 12 / 100;
    damage := durability - (remLeft + remRight + bonus);
    if damage < 0 {
      damage := 0;
    }
  }

  /** Renaming, the price, the cap and the next penalty. */
  method Finish(op: Op, meta: ItemMeta, workCost: int, units: int, base: int, id: string) returns (r: AnvilResult)
    requires base == op.Base() && meta.repairCost == op.leftMeta.repairCost && meta.customName == op.leftMeta.customName
    requires !op.left.IsEmpty()
    ensures r == Outcome(op, Some(Work(meta.damage, meta.enchantments, workCost, units, id)))
  {
    var outMeta, opCost, renameCost := meta, workCost, 0;
    if op.name == "" {
      if op.leftMeta.customName != "" {
        renameCost := 1;
        opCost := opCost + renameCost;
        outMeta := outMeta.(customName := "");
      }
    } else if op.name != op.leftMeta.customName {
      renameCost := 1;
      opCost := opCost + renameCost;
      outMeta := outMeta.(customName := op.name);
    }
    if opCost <= 0 {
      return NoResult;
    }
    var totalCost := base + opCost;
    if renameCost == opCost && renameCost > 0 && totalCost >= MAX_SURVIVAL_COST {
      totalCost := MAX_SURVIVAL_COST - 1;
    }
    if totalCost >= MAX_SURVIVAL_COST && !op.creative {
      return TooExpensive(totalCost);
    }
    var nextPenalty := op.leftMeta.repairCost;
    if !op.right.IsEmpty() && op.rightMeta.repairCost > nextPenalty {
      nextPenalty := op.rightMeta.repairCost;
    }
    if renameCost != opCost || renameCost == 0 {
      nextPenalty := NextAnvilRepairCost(nextPenalty);
    }
    outMeta := outMeta.(repairCost := nextPenalty);
    r := Result(Stack(id, op.left.count), outMeta, totalCost, units);
  }

  // ---- What one operation keeps

  ghost predicate Active(ench: map<string, int>) { forall id :: id in ench ==> ench[id] > 0 }

  ghost predicate Pairwise(rules: Rules, ench: map<string, int>) {
    forall a, b :: a in ench && b in ench && a != b ==> rules.Compatible(a, b)
  }

  lemma {:induction false} MergedLevels(rules: Rules, item: string, creative: bool, isBook: bool, m: Merge,
                                        list: seq<Enchantment>, id: string)
    requires rules.Sound() && Ascending(list) && Active(m.enchantments) && forall e :: e in list ==> e.level > 0
    ensures var ench := MergeAll(rules, item, creative, isBook, m, list).enchantments;
            && Active(ench) && m.enchantments.Keys <= ench.Keys
            && ((forall e :: e in list ==> e.id != id) ==> Level(ench, id) == Level(m.enchantments, id))
            && (forall e :: e in list && e.id == id ==>
                  Level(ench, id) == Level(m.enchantments, id)
                  || (id in rules.defs
                      && Level(ench, id) == MergedLevel(Level(m.enchantments, id), e.level, rules.defs[id].maxLevel)))
    decreases |list|
  {
    if list != [] {
      var rest, last := list[..|list| - 1], list[|list| - 1];
      assert list == rest + [last];
      OnceEach(list);
      MergedLevels(rules, item, creative, isBook, m, rest, id);
      hide MergeAll, Less, Ascending, Fee, Rules.Compatible, Fits, Conflicts;
      MergeAllStep(rules, item, creative, isBook, m, list);
      MergeOneLevels(rules, item, creative, isBook, MergeAll(rules, item, creative, isBook, m, rest), last, id);
    }
  }

  lemma OnceEach(list: seq<Enchantment>)
    requires Ascending(list) && list != []
    ensures Ascending(list[..|list| - 1])
    ensures forall e :: e in list[..|list| - 1] ==> e.id != list[|list| - 1].id
  {
    LessTotal(list[|list| - 1].id, list[|list| - 1].id);
  }

  lemma MergeAllStep(rules: Rules, item: string, creative: bool, isBook: bool, m: Merge, list: seq<Enchantment>)
    requires list != []
    ensures MergeAll(rules, item, creative, isBook, m, list) ==
              MergeOne(rules, item, creative, isBook, MergeAll(rules, item, creative, isBook, m, list[..|list| - 1]),
                       list[|list| - 1])
  {
  }

  lemma MergeOneLevels(rules: Rules, item: string, creative: bool, isBook: bool, m: Merge, e: Enchantment, id: string)
    requires rules.Sound() && Active(m.enchantments) && e.level > 0
    ensures var ench := MergeOne(rules, item, creative, isBook, m, e).enchantments;
            && Active(ench) && m.enchantments.Keys <= ench.Keys
            && (e.id != id ==> Level(ench, id) == Level(m.enchantments, id))
            && (e.id == id ==>
                  Level(ench, id) == Level(m.enchantments, id)
                  || (id in rules.defs
                      && Level(ench, id) == MergedLevel(Level(m.enchantments, id), e.level, rules.defs[id].maxLevel)))
  {
    hide Fee, Rules.Compatible, Fits, Conflicts;
  }

  /** The i-th enchantment of the right item is applied: it is known, fits the item, and nothing merged
      before it conflicts. */
  predicate Applies(rules: Rules, item: string, creative: bool, isBook: bool, m: Merge, list: seq<Enchantment>, i: nat)
    requires i < |list|
  {
    && list[i].id in rules.defs && list[i].id != "" && Fits(rules, item, creative, list[i].id)
    && !Conflicts(rules, MergeAll(rules, item, creative, isBook, m, list[..i]).enchantments, list[i].id)
  }

  lemma MergeOneExact(rules: Rules, item: string, creative: bool, isBook: bool, m: Merge, e: Enchantment)
    requires rules.Sound() && Active(m.enchantments) && e.level > 0
    ensures Level(MergeOne(rules, item, creative, isBook, m, e).enchantments, e.id) ==
              if e.id in rules.defs && e.id != "" && Fits(rules, item, creative, e.id)
                 && !Conflicts(rules, m.enchantments, e.id)
              then MergedLevel(Level(m.enchantments, e.id), e.level, rules.defs[e.id].maxLevel)
              else Level(m.enchantments, e.id)
  {
    hide Fee, Rules.Compatible, Fits, Conflicts;
  }

  /** The final level of every enchantment the right item has: merged where it is applied, else untouched. */
  lemma {:induction false} MergedExactly(rules: Rules, item: string, creative: bool, isBook: bool, m: Merge,
                                         list: seq<Enchantment>, i: nat)
    requires rules.Sound() && Ascending(list) && Active(m.enchantments) && forall e :: e in list ==> e.level > 0
    requires i < |list|
    ensures Level(MergeAll(rules, item, creative, isBook, m, list).enchantments, list[i].id) ==
              if Applies(rules, item, creative, isBook, m, list, i)
              then MergedLevel(Level(m.enchantments, list[i].id), list[i].level, rules.defs[list[i].id].maxLevel)
              else Level(m.enchantments, list[i].id)
    decreases |list|
  {
    var rest, last := list[..|list| - 1], list[|list| - 1];
    assert list == rest + [last];
    OnceEach(list);
    MergedLevels(rules, item, creative, isBook, m, rest, list[i].id);
    hide MergeAll, Less, Ascending, Fee, Rules.Compatible, Fits, Conflicts, MergedLevel;
    MergeAllStep(rules, item, creative, isBook, m, list);
    var before := MergeAll(rules, item, creative, isBook, m, rest);
    if i == |list| - 1 {
      MergeOneExact(rules, item, creative, isBook, before, last);
    } else {
      assert list[..i] == rest[..i];
      MergedExactly(rules, item, creative, isBook, m, rest, i);
      MergeOneLevels(rules, item, creative, isBook, before, last, list[i].id);
    }
  }

  /** The merged level lies between the left one and the maximum exactly when neither input is above
      the maximum. */
  lemma LevelExact(left: int, right: int, max: int)
    requires left >= 0 && right >= 1 && max >= 1
    ensures left <= MergedLevel(left, right, max) <= max <==> left <= max && right <= max
  {
  }

  /** The right item is worked in, and its enchantment id is applied. */
  predicate Applied(rules: Rules, op: Op, list: seq<Enchantment>, id: string) {
    && !op.right.IsEmpty() && !op.ByUnits(rules)
    && exists i :: 0 <= i < |list| && list[i].id == id
                   && Applies(rules, op.left.id, op.creative, op.IsBook(), Started(rules, op), list, i)
  }

  lemma MergedLevelMeans(left: int, right: int, max: int)
    ensures MergedLevel(left, right, max) ==
              if left < right then right
              else if left > right then left
              else if left < max then left + 1
              else max
  {
  }

  /** The level of a known enchantment on the result of an operation: the higher of the two, or one more than
      both, up to the maximum, where it is applied. */
  lemma LevelAfter(rules: Rules, op: Op, list: seq<Enchantment>, id: string)
    requires rules.Sound() && IsSorted(op.rightMeta.enchantments, list) && id in rules.defs
    requires Outcome(op, RightWork(rules, op, list)).Result?
    ensures var left, right := Level(Left(op), id), Level(op.rightMeta.enchantments, id);
            Level(Outcome(op, RightWork(rules, op, list)).meta.enchantments, id) ==
              if !Applied(rules, op, list, id) then left
              else if left < right then right
              else if left > right then left
              else if left < rules.defs[id].maxLevel then left + 1
              else rules.defs[id].maxLevel
  {
    MergedLevelMeans(Level(Left(op), id), Level(op.rightMeta.enchantments, id), rules.defs[id].maxLevel);
    hide Better, MergeAll, Combined, Units, Fee, Less, Rules.Compatible, AnyLevel, MergedLevel, Applies;
    var m := Started(rules, op);
    if e :| e in list && e.id == id {
      var i :| 0 <= i < |list| && list[i] == e;
      assert Level(op.rightMeta.enchantments, id) == e.level;
      MergedExactly(rules, op.left.id, op.creative, op.IsBook(), m, list, i);
      OnlyPlace(list, i);
    } else {
      MergedLevels(rules, op.left.id, op.creative, op.IsBook(), m, list, id);
    }
  }

  lemma OnlyPlace(list: seq<Enchantment>, i: nat)
    requires Ascending(list) && i < |list|
    ensures forall j :: 0 <= j < |list| && list[j].id == list[i].id ==> j == i
  {
    LessTotal(list[i].id, list[i].id);
  }

  /** A level on the result lies between the left one and the maximum if and only if the left one is
      not above the maximum, and the right one is not either if it is applied. */
  lemma LevelsExact(rules: Rules, op: Op, list: seq<Enchantment>, id: string)
    requires rules.Sound() && IsSorted(op.rightMeta.enchantments, list) && id in rules.defs
    requires Outcome(op, RightWork(rules, op, list)).Result?
    ensures var left, right, max := Level(Left(op), id), Level(op.rightMeta.enchantments, id), rules.defs[id].maxLevel;
            left <= Level(Outcome(op, RightWork(rules, op, list)).meta.enchantments, id) <= max <==>
              left <= max && (Applied(rules, op, list, id) ==> right <= max)
  {
    MergedLevelMeans(Level(Left(op), id), Level(op.rightMeta.enchantments, id), rules.defs[id].maxLevel);
    hide MergedLevel, RightWork, Applies, Less, Outcome;
    LevelAfter(rules, op, list, id);
    if Applied(rules, op, list, id) {
      AppliedLevel(rules, op, list, id);
      LevelExact(Level(Left(op), id), Level(op.rightMeta.enchantments, id), rules.defs[id].maxLevel);
    }
  }

  lemma AppliedLevel(rules: Rules, op: Op, list: seq<Enchantment>, id: string)
    requires IsSorted(op.rightMeta.enchantments, list) && Applied(rules, op, list, id)
    ensures Level(op.rightMeta.enchantments, id) >= 1
  {
    hide Applies, Less;
    var i :| 0 <= i < |list| && list[i].id == id
             && Applies(rules, op.left.id, op.creative, op.IsBook(), Started(rules, op), list, i);
    assert list[i] in list;
  }

  /** A sword with an enchantment, or none at level 0, and a book with the same one. */
  function BookOp(id: string, left: nat, level: int): Op {
    Op(Stack("minecraft:diamond_sword", 1), Stack(ENCHANTED_BOOK, 1),
       ItemMeta(0, if left == 0 then map[] else map[id := left], "", 0), ItemMeta(0, map[id := level], "", 0), "", true)
  }

  /** What a book does to a sword, whatever the levels. */
  lemma BookLevel(rules: Rules, id: string, left: nat, level: int)
    requires rules.Sound() && id in rules.defs && id != "" && level >= 1
    ensures var list := [Enchantment(id, level)];
            var r := Outcome(BookOp(id, left, level), RightWork(rules, BookOp(id, left, level), list));
            && IsSorted(BookOp(id, left, level).rightMeta.enchantments, list)
            && r.Result? && Level(r.meta.enchantments, id) == MergedLevel(left, level, rules.defs[id].maxLevel)
  {
    var list, op := [Enchantment(id, level)], BookOp(id, left, level);
    var m := Started(rules, op);
    LessTotal(id, id);
    assert op.IsBook() by { assert op.rightMeta.enchantments[id] > 0; }
    assert m.enchantments == op.leftMeta.enchantments;
    assert list[..0] == [] && list[..|list| - 1] == [] && m.cost == 0;
    MergeAllStep(rules, op.left.id, true, true, m, list);
    hide Less, Better;
    assert !Conflicts(rules, m.enchantments, id);
    Times(1, MergedLevel(left, level, rules.defs[id].maxLevel), Fee(rules.defs[id].anvilCost, true));
  }

  /** A level above the maximum on the book is taken as it is; on both items it comes out lower. */
  lemma LevelsFail(rules: Rules, id: string, level: int)
    requires rules.Sound() && id in rules.defs && id != "" && level > rules.defs[id].maxLevel
    ensures var list := [Enchantment(id, level)];
            var taken := Outcome(BookOp(id, 0, level), RightWork(rules, BookOp(id, 0, level), list));
            taken.Result? && Level(taken.meta.enchantments, id) == level > rules.defs[id].maxLevel
    ensures var list := [Enchantment(id, level)];
            var lowered := Outcome(BookOp(id, level, level), RightWork(rules, BookOp(id, level, level), list));
            lowered.Result? && Level(lowered.meta.enchantments, id) == rules.defs[id].maxLevel < level
  {
    BookLevel(rules, id, 0, level);
    BookLevel(rules, id, level, level);
  }

  /** No enchantment is lost, and one that is not in the registry is left as it was. */
  lemma LevelsKept(rules: Rules, op: Op, list: seq<Enchantment>, id: string)
    requires rules.Sound() && IsSorted(op.rightMeta.enchantments, list)
    requires Outcome(op, RightWork(rules, op, list)).Result?
    ensures var ench := Outcome(op, RightWork(rules, op, list)).meta.enchantments;
            && Left(op).Keys <= ench.Keys && Active(ench)
            && (id !in rules.defs ==> Level(ench, id) == Level(Left(op), id))
  {
    hide Better, MergeAll, Combined, Units, Fee, Less, Rules.Compatible, AnyLevel;
    MergedLevels(rules, op.left.id, op.creative, op.IsBook(), Started(rules, op), list, id);
  }

  lemma {:induction false} MergedPairwise(rules: Rules, item: string, creative: bool, isBook: bool, m: Merge,
                                          list: seq<Enchantment>)
    requires rules.Sound() && Ascending(list) && Active(m.enchantments) && (forall e :: e in list ==> e.level > 0)
    requires Pairwise(rules, m.enchantments)
    ensures Pairwise(rules, MergeAll(rules, item, creative, isBook, m, list).enchantments)
    decreases |list|
  {
    if list != [] {
      var rest, last := list[..|list| - 1], list[|list| - 1];
      assert list == rest + [last];
      OnceEach(list);
      MergedPairwise(rules, item, creative, isBook, m, rest);
      MergedLevels(rules, item, creative, isBook, m, rest, last.id);
      hide MergeAll, Less, Ascending, Fee, Rules.Compatible, Fits;
      MergeAllStep(rules, item, creative, isBook, m, list);
      MergeOnePairwise(rules, item, creative, isBook, MergeAll(rules, item, creative, isBook, m, rest), last);
    }
  }

  lemma MergeOnePairwise(rules: Rules, item: string, creative: bool, isBook: bool, m: Merge, e: Enchantment)
    requires Pairwise(rules, m.enchantments) && Active(m.enchantments)
    ensures Pairwise(rules, MergeOne(rules, item, creative, isBook, m, e).enchantments)
  {
    hide Fee, Rules.Compatible, Fits, MergedLevel;
    var ench := MergeOne(rules, item, creative, isBook, m, e).enchantments;
    forall a, b | a in ench && b in ench && a != b ensures rules.Compatible(a, b) {
      CompatibleBothWays(rules, a, b);
    }
  }

  lemma CompatibleBothWays(rules: Rules, a: string, b: string)
    ensures rules.Compatible(a, b) == rules.Compatible(b, a)
  {
  }

  /** Enchantments that could stand together on the left item still can on the result. */
  lemma CompatibleKept(rules: Rules, op: Op, list: seq<Enchantment>)
    requires rules.Sound() && IsSorted(op.rightMeta.enchantments, list) && Pairwise(rules, Left(op))
    requires Outcome(op, RightWork(rules, op, list)).Result?
    ensures Pairwise(rules, Outcome(op, RightWork(rules, op, list)).meta.enchantments)
  {
    hide Better, MergeAll, Combined, Units, Fee, Less, Rules.Compatible, AnyLevel;
    MergedPairwise(rules, op.left.id, op.creative, op.IsBook(), Started(rules, op), list);
  }

  /** Damage never grows and never falls below zero, and no more material is used than there is. */
  lemma DamageKept(rules: Rules, op: Op, list: seq<Enchantment>)
    requires Outcome(op, RightWork(rules, op, list)).Result?
    ensures var r := Outcome(op, RightWork(rules, op, list));
            && r.meta.damage <= op.leftMeta.damage
            && (r.meta.damage >= 0 <==> op.leftMeta.damage >= 0)
            && 0 <= r.units && (r.units > 0 ==> r.units <= op.right.count)
  {
    hide MergeAll, AnyLevel;
    if !op.right.IsEmpty() && op.ByUnits(rules) {
      var step := Max(1, rules.durability(op.left.id) / 4);
      UnitsPositive(op.leftMeta.damage, step, op.right.count);
    }
  }

  lemma UnitsPositive(damage: int, step: int, count: int)
    requires damage > 0 && step > 0 && count > 0
    ensures 0 < Units(damage, step, count) <= count
    ensures Units(damage, step, count) * step > 0
  {
    Times(1, Units(damage, step, count), step);
    var needed := (damage + step - 1) / step;
    assert needed * step + step > damage + step - 1;
    Times(needed, 0, step);
  }

  // ---- Runs of operations

  function Pow2(n: nat): nat { if n == 0 then 1 else 2 * Pow2(n - 1) }

  lemma {:induction false} Pow2Grows(a: nat, b: nat)
    requires a <= b
    ensures Pow2(a) <= Pow2(b)
  {
    if a < b { Pow2Grows(a, b - 1); }
  }

  /** An operation with the sorted enchantments of its right item. */
  datatype Step = Step(op: Op, list: seq<Enchantment>) {
    function Cost(rules: Rules): int {
      var work := RightWork(rules, op, list);
      if work.Some? then work.value.cost else 0
    }

    function Done(rules: Rules): AnvilResult { Outcome(op, RightWork(rules, op, list)) }

    ghost predicate Succeeds(rules: Rules) {
      && IsSorted(op.rightMeta.enchantments, list) && !op.creative && Done(rules).Result?
      && op.leftMeta.repairCost >= 0 && (op.right.IsEmpty() || op.rightMeta.repairCost >= 0)
    }
  }

  /** The penalty p comes into the step with one of its items. */
  predicate Carries(step: Step, p: int) {
    step.op.leftMeta.repairCost == p || (!step.op.right.IsEmpty() && step.op.rightMeta.repairCost == p)
  }

  /** Successful survival operations, the result of each put into the next one as its left or its right
      item; whatever else happens to it in between, its prior-work penalty carries over. */
  ghost predicate Run(rules: Rules, steps: seq<Step>) {
    && (forall i :: 0 <= i < |steps| ==> steps[i].Succeeds(rules))
    && forall i :: 0 < i < |steps| ==> Carries(steps[i], steps[i - 1].Done(rules).meta.repairCost)
  }

  /** How many steps did more than rename. */
  function Worked(rules: Rules, steps: seq<Step>): nat {
    if steps == [] then 0
    else
      var last := steps[|steps| - 1];
      Worked(rules, steps[..|steps| - 1]) + if RenameOnly(last.op, last.Cost(rules)) then 0 else 1
  }

  /** Each step that does more than rename at least doubles the penalty of either item, and has to stay
      below the cap. */
  lemma PenaltyStep(rules: Rules, step: Step, p: int)
    requires step.Succeeds(rules) && Carries(step, p)
    ensures var r := step.Done(rules);
            if RenameOnly(step.op, step.Cost(rules)) then r.meta.repairCost >= p
            else r.meta.repairCost + 1 >= 2 * (p + 1) && p + 1 <= r.levels < MAX_SURVIVAL_COST
  {
    hide RightWork, IsSorted;
  }

  /** No chain of operations, through either slot, has more than six that do more than rename. */
  lemma {:induction false} SixAtMost(rules: Rules, steps: seq<Step>)
    requires Run(rules, steps)
    ensures Worked(rules, steps) <= 6
    ensures steps != [] ==> steps[|steps| - 1].Done(rules).meta.repairCost + 1 >= Pow2(Worked(rules, steps))
    decreases |steps|
  {
    hide Step.Succeeds, Step.Done, Step.Cost, RenameOnly, Carries;
    if steps != [] {
      var rest, last := steps[..|steps| - 1], steps[|steps| - 1];
      SixAtMost(rules, rest);
      FreshStep(rules, last);
      if rest != [] { FreshStep(rules, rest[|rest| - 1]); }
      PenaltyStep(rules, last, if rest == [] then last.op.leftMeta.repairCost
                               else rest[|rest| - 1].Done(rules).meta.repairCost);
      if Worked(rules, rest) == 6 {
        assert Pow2(6) == 64;
      }
    }
  }

  lemma FreshStep(rules: Rules, step: Step)
    requires step.Succeeds(rules)
    ensures Carries(step, step.op.leftMeta.repairCost) && step.op.leftMeta.repairCost >= 0 && step.Done(rules).Result?
  {
  }

  /** Six is reached: with one unit of material a time and nothing else, exactly the first six work. */
  lemma SixthWorks(rules: Rules, op: Op, list: seq<Enchantment>, k: nat)
    requires !op.creative && op.left.count == 1 && op.right.count == 1 && op.ByUnits(rules)
    requires op.name == op.leftMeta.customName && op.rightMeta.repairCost == 0 && op.leftMeta.repairCost == Pow2(k) - 1
    ensures var r := Outcome(op, RightWork(rules, op, list));
            && (r.Result? <==> k < 6) && (r.Result? ==> r.meta.repairCost == Pow2(k + 1) - 1)
            && !RenameOnly(op, RightWork(rules, op, list).value.cost)
  {
    var step := Max(1, rules.durability(op.left.id) / 4);
    UnitsPositive(op.leftMeta.damage, step, 1);
    if k < 6 { Pow2Grows(k, 5); } else { Pow2Grows(6, k); }
    assert Pow2(5) == 32 && Pow2(6) == 64;
  }
}
