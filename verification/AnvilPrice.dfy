/** What an anvil operation costs, gives and refuses, in numbers and names, apart from the code's own steps. */
module AnvilPrice {
  import opened Anvil
  import opened Wrappers

  // ---- The price of a merge

  /** The i-th enchantment of the right item is charged for: it is known, fits, and nothing conflicts. */
  ghost predicate Charged(rules: Rules, op: Op, list: seq<Enchantment>, i: nat)
    requires i < |list|
  {
    && list[i].id in rules.defs && !Clashes(rules, op, list, i)
    && (rules.canEnchant(list[i].id, op.left.id) || op.creative
        || op.left.id == "minecraft:enchanted_book" || op.left.id == "minecraft:book")
  }

  /** Some other active enchantment on the item by then cannot stand with it. */
  ghost predicate Clashes(rules: Rules, op: Op, list: seq<Enchantment>, i: nat)
    requires i < |list|
  {
    var ench := Merged(rules, op, list[..i]).enchantments;
    exists other :: other in ench && ench[other] > 0 && other != list[i].id && !rules.Compatible(list[i].id, other)
  }

  /** What it adds to the price: one level for a clash; else its price per level, from a book half of it but at
      least one, times the level it gets. */
  ghost function Charge(rules: Rules, op: Op, list: seq<Enchantment>, i: nat): int
    requires i < |list|
  {
    if list[i].id !in rules.defs then 0
    else if Clashes(rules, op, list, i) then 1
    else if !Charged(rules, op, list, i) then 0
    else
      var def, left, right := rules.defs[list[i].id], Level(Left(op), list[i].id), list[i].level;
      var level := if left < right then right else if left > right then left
                   else if left < def.maxLevel then left + 1 else def.maxLevel;
      level * (if !op.IsBook() then def.anvilCost else if def.anvilCost < 4 then 1 else def.anvilCost / 2)
  }

  ghost function Charges(rules: Rules, op: Op, list: seq<Enchantment>, n: nat): int
    requires n <= |list|
  {
    if n == 0 then 0 else Charges(rules, op, list, n - 1) + Charge(rules, op, list, n - 1)
  }

  lemma FeeMeans(cost: int, isBook: bool)
    requires cost >= 0
    ensures Fee(cost, isBook) == if !isBook then cost else if cost < 4 then 1 else cost / 2
  {
  }

  /** The item's enchantments without those of no level. */
  lemma LeftMeans(op: Op, id: string)
    ensures var ench := op.leftMeta.enchantments;
            && (id in Left(op) <==> id in ench && ench[id] > 0) && (id in Left(op) ==> Left(op)[id] == ench[id])
  {
  }

  lemma LeftActive(op: Op)
    ensures Active(Left(op))
  {
  }

  lemma MergeOnePrice(rules: Rules, item: string, creative: bool, isBook: bool, m: Merge, e: Enchantment)
    ensures var after := MergeOne(rules, item, creative, isBook, m, e);
            var known, clash := e.id in rules.defs, Conflicts(rules, m.enchantments, e.id);
            var charged := known && !clash && Fits(rules, item, creative, e.id);
            && after.cost == m.cost + (if charged then
                                         var def := rules.defs[e.id];
                                         MergedLevel(Level(m.enchantments, e.id), e.level, def.maxLevel)
                                         * Fee(def.anvilCost, isBook)
                                       else if known && clash then 1 else 0)
            && after.applied == (m.applied || charged) && after.refused == (m.refused || (known && !charged))
  {
    hide Conflicts, Fits, Fee, MergedLevel, Level, SetEnchantment;
  }

  lemma ChargeIs(rules: Rules, op: Op, list: seq<Enchantment>, n: nat)
    requires rules.Sound() && n < |list|
    requires var ench := Merged(rules, op, list[..n]).enchantments;
             Level(ench, list[n].id) == Level(Left(op), list[n].id)
    ensures var e, ench := list[n], Merged(rules, op, list[..n]).enchantments;
            var known, clash := e.id in rules.defs, Conflicts(rules, ench, e.id);
            && (Charged(rules, op, list, n) <==> known && !clash && Fits(rules, op.left.id, op.creative, e.id))
            && Charge(rules, op, list, n) ==
                 (if Charged(rules, op, list, n) then
                    var def := rules.defs[e.id];
                    MergedLevel(Level(ench, e.id), e.level, def.maxLevel) * Fee(def.anvilCost, op.IsBook())
                  else if known && clash then 1 else 0)
  {
    hide Merged, Fee, MergedLevel, Left, Level, Rules.Compatible;
    var e := list[n];
    if e.id in rules.defs {
      FeeMeans(rules.defs[e.id].anvilCost, op.IsBook());
      MergedLevelMeans(Level(Left(op), e.id), e.level, rules.defs[e.id].maxLevel);
    }
  }

  /** One more enchantment of the right item. */
  lemma ChargeStep(rules: Rules, op: Op, list: seq<Enchantment>, n: nat)
    requires rules.Sound() && Ascending(list) && n < |list| && forall e :: e in list ==> e.level > 0
    ensures var before, after := Merged(rules, op, list[..n]), Merged(rules, op, list[..n + 1]);
            && after.cost == before.cost + Charge(rules, op, list, n)
            && (after.applied <==> before.applied || Charged(rules, op, list, n))
            && (after.refused <==> before.refused || (list[n].id in rules.defs && !Charged(rules, op, list, n)))
  {
    hide MergeAll, Less, Charge, Charged, Conflicts, Fits, Fee, MergedLevel, Level, MergeOne, Better;
    var m, e, more := Started(rules, op), list[n], list[..n + 1];
    assert more[..|more| - 1] == list[..n] && more[|more| - 1] == e;
    MergeAllStep(rules, op.left.id, op.creative, op.IsBook(), m, more);
    OnceEach(more);
    LeftActive(op);
    MergedLevels(rules, op.left.id, op.creative, op.IsBook(), m, list[..n], e.id);
    ChargeIs(rules, op, list, n);
    MergeOnePrice(rules, op.left.id, op.creative, op.IsBook(), Merged(rules, op, list[..n]), e);
  }

  lemma {:induction false} MergePrice(rules: Rules, op: Op, list: seq<Enchantment>, n: nat)
    requires rules.Sound() && Ascending(list) && n <= |list| && forall e :: e in list ==> e.level > 0
    ensures var m := Merged(rules, op, list[..n]);
            && m.cost == (if Better(rules, op) then 2 else 0) + Charges(rules, op, list, n)
            && (m.applied <==> exists i :: 0 <= i < n && Charged(rules, op, list, i))
            && (m.refused <==> exists i :: 0 <= i < n && list[i].id in rules.defs && !Charged(rules, op, list, i))
  {
    hide Merged, Better, Charge, Charged, Less;
    if n == 0 {
      NothingMerged(rules, op, list);
    } else {
      MergePrice(rules, op, list, n - 1);
      ChargeStep(rules, op, list, n - 1);
    }
  }

  lemma NothingMerged(rules: Rules, op: Op, list: seq<Enchantment>)
    ensures Merged(rules, op, list[..0]) == Merge(Left(op), if Better(rules, op) then 2 else 0, false, false)
  {
  }

  // ---- The work, and when there is none to do

  /** The right item is repair material for the damaged left one; the right item is a book with enchantments. */
  lemma ModesMean(rules: Rules, op: Op)
    ensures op.ByUnits(rules) <==>
              op.leftMeta.damage > 0 && rules.durability(op.left.id) > 0 && rules.repairs(op.left.id, op.right.id)
    ensures op.IsBook() <==>
              op.right.id == "minecraft:enchanted_book"
              && exists id :: id in op.rightMeta.enchantments && op.rightMeta.enchantments[id] > 0
  {
  }

  /** The right item cannot be used: more than one item on the left; or, unless it is repair material, a different
      item that is no enchanted book, or one without durability, or more than one of it, or enchantments none of
      which can be put on, although some are known. */
  ghost predicate Unusable(rules: Rules, op: Op, list: seq<Enchantment>) {
    || op.left.count != 1
    || (!op.ByUnits(rules)
        && (|| (!op.IsBook() && (op.left.id != op.right.id || rules.durability(op.left.id) <= 0))
            || op.right.count != 1
            || ((exists i :: 0 <= i < |list| && list[i].id in rules.defs)
                && forall i :: 0 <= i < |list| ==> !Charged(rules, op, list, i))))
  }

  lemma UnusableExactly(rules: Rules, op: Op, list: seq<Enchantment>)
    requires rules.Sound() && IsSorted(op.rightMeta.enchantments, list) && op.right.count > 0
    ensures RightWork(rules, op, list).None? <==> Unusable(rules, op, list)
  {
    hide Merged, Better, Charge, Charges, Less, AnyLevel, Combined, Units, Charged;
    MergePrice(rules, op, list, |list|);
    assert list[..|list|] == list;
  }

  /** The price of the work: a level a unit of material; or two for less damage, and the enchantments' charges. */
  lemma WorkPrice(rules: Rules, op: Op, list: seq<Enchantment>)
    requires rules.Sound() && IsSorted(op.rightMeta.enchantments, list) && RightWork(rules, op, list).Some?
    ensures var w := RightWork(rules, op, list).value;
            w.cost == if op.right.count <= 0 then 0
                      else if op.ByUnits(rules) then w.units
                      else (if w.damage < op.leftMeta.damage then 2 else 0) + Charges(rules, op, list, |list|)
  {
    hide Merged, Charge, Charges, Less, AnyLevel, Combined, Units, Charged;
    MergePrice(rules, op, list, |list|);
    assert list[..|list|] == list;
  }

  // ---- What the operation gives

  /** Whether the name changes. */
  predicate Renames(op: Op) { op.name != op.leftMeta.customName }

  function Prior(op: Op): int { op.leftMeta.repairCost + if op.right.count > 0 then op.rightMeta.repairCost else 0 }

  function Highest(op: Op): int {
    if op.right.count > 0 && op.rightMeta.repairCost > op.leftMeta.repairCost then op.rightMeta.repairCost
    else op.leftMeta.repairCost
  }

  /** The whole outcome of an operation by the price of its work: nothing when nothing is done, 39 levels at most
      for a name alone, refused from 40 levels in survival, and else the item with the new penalty: the higher of
      the two, doubled and one more unless only the name changed. */
  lemma OutcomeExactly(op: Op, w: Work)
    requires op.left.count > 0
    ensures var rename := if Renames(op) then 1 else 0;
            var levels := if w.cost == 0 && Prior(op) + rename >= 40 then 39 else Prior(op) + w.cost + rename;
            var penalty := if w.cost == 0 then Highest(op) else if Highest(op) < 0 then 1 else 2 * Highest(op) + 1;
            Outcome(op, Some(w)) ==
              if w.cost + rename <= 0 then NoResult
              else if levels >= 40 && !op.creative then TooExpensive(levels)
              else
                Result(Stack(w.id, op.left.count), ItemMeta(w.damage, w.enchantments, op.name, penalty), levels,
                       w.units)
  {
  }

  /** Which item comes out, and how damaged. */
  lemma ItemExactly(rules: Rules, op: Op, list: seq<Enchantment>)
    requires RightWork(rules, op, list).Some?
    ensures var w := RightWork(rules, op, list).value;
            && w.id == (if op.right.count > 0 && !op.ByUnits(rules) && op.IsBook() && op.left.id == "minecraft:book"
                           && (exists id :: id in w.enchantments && w.enchantments[id] > 0)
                        then "minecraft:enchanted_book" else op.left.id)
            && (op.right.count > 0 && op.ByUnits(rules) ==>
                  Repaired(op.leftMeta.damage, rules.durability(op.left.id), op.right.count, w.damage, w.units))
            && (op.right.count <= 0 || !op.ByUnits(rules) ==> w.units == 0)
            && (op.right.count <= 0 ==> w.damage == op.leftMeta.damage)
            && (op.right.count > 0 && !op.ByUnits(rules) ==>
                  w.damage == if op.IsBook() || rules.durability(op.left.id) <= 0 then op.leftMeta.damage
                              else Joined(rules.durability(op.left.id), op.leftMeta.damage, op.rightMeta.damage))
  {
    hide Merged, Units, Combined;
    if op.right.count > 0 && op.ByUnits(rules) {
      UnitsRepair(op.leftMeta.damage, rules.durability(op.left.id), op.right.count);
    } else if rules.durability(op.left.id) > 0 {
      CombinedMeans(rules.durability(op.left.id), op.leftMeta.damage, op.rightMeta.damage);
    }
  }

  /** Each unit of material takes a quarter of the durability off, at least one, as long as there is damage and
      material. */
  predicate Repaired(damage: int, durability: int, count: int, left: int, units: int) {
    var quarter := if durability < 8 then 1 else durability / 4;
    && 0 < units <= count && left == (if damage > units * quarter then damage - units * quarter else 0)
    && (left > 0 ==> units == count) && damage > (units - 1) * quarter
  }

  lemma UnitsRepair(damage: int, durability: int, count: int)
    requires damage > 0 && durability > 0 && count > 0
    ensures var step := Max(1, durability / 4);
            var units := Units(damage, step, count);
            Repaired(damage, durability, count, Max(0, damage - units * step), units)
  {
    var step := Max(1, durability / 4);
    var units := Units(damage, step, count);
    UnitsPositive(damage, step, count);
    var needed := (damage + step - 1) / step;
    assert needed * step <= damage + step - 1 < needed * step + step;
    Times(units, needed, step);
    assert (units - 1) * step == units * step - step;
  }

  /** Two of the same damaged item add up what is left of both and twelve percent, never for the worse. */
  function Joined(durability: int, left: int, right: int): int
    requires durability > 0
  {
    var rest := durability - left + (if right < durability then durability - right else 0) + durability * 12 / 100;
    var damage := if rest < durability then durability - rest else 0;
    if left > 0 && damage < left then damage else left
  }

  lemma CombinedMeans(durability: int, left: int, right: int)
    requires durability > 0
    ensures left > 0 ==> Joined(durability, left, right) == Combined(durability, left, right)
    ensures left > 0 && Combined(durability, left, right) >= left ==> Combined(durability, left, right) == left
    ensures left <= 0 ==> Joined(durability, left, right) == left
  {
  }

  // ---- Which enchantments go together

  /** Two different known enchantments go together unless one is riptide and the other loyalty or channeling, or
      they share a group that excludes its members. */
  lemma CompatibleExactly(rules: Rules, a: string, b: string)
    ensures var pair := {a, b};
            rules.Compatible(a, b) <==>
              && a != b && a in rules.defs && b in rules.defs
              && pair != {"minecraft:riptide", "minecraft:loyalty"}
              && pair != {"minecraft:riptide", "minecraft:channeling"}
              && (rules.defs[a].group == rules.defs[b].group ==> rules.defs[a].group in {"", "trident_riptide"})
  {
  }
}
