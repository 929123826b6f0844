/** The advancement registry of internal/server/advancement.go and the two walks over it: up the
    chain of parents, and breadth first over the children. Parents may form cycles. */
module Advancement {
  import opened Wrappers

  // ---- Ids

  predicate IsSpace(c: char) { c == ' ' || '\t' <= c <= '\r' }

  function LowerChar(c: char): char { if 'A' <= c <= 'Z' then c - 'A' + 'a' else c }

  function Lower(s: string): string { seq(|s|, i requires 0 <= i < |s| => LowerChar(s[i])) }

  function TrimLeft(s: string): string {
    if s != [] && IsSpace(s[0]) then TrimLeft(s[1..]) else s
  }

  function TrimRight(s: string): string {
    if s != [] && IsSpace(s[|s| - 1]) then TrimRight(s[..|s| - 1]) else s
  }

  const NAMESPACE := "minecraft:"
  const BEACON := "minecraft:nether/create_beacon"
  const FULL_BEACON := "minecraft:nether/create_full_beacon"

  /** The id in lower case, trimmed and with a namespace. */
  function Whole(id: string): string {
    var bare := TrimLeft(TrimRight(Lower(id)));
    if bare == "" then "" else if ':' in bare then bare else NAMESPACE + bare
  }

  /** `canonicalAdvancementID` */
  function Canonical(id: string): string { if Whole(id) == "" then "" else Alias(Whole(id)) }

  function Alias(id: string): string {
    if id == "minecraft:nether/construct_beacon" || id == "minecraft:construct_beacon"
       || id == "minecraft:create_beacon"
    then BEACON
    else if id == "minecraft:create_full_beacon" then FULL_BEACON
    else id
  }

  /** Lower case, with no blank at either end. */
  ghost predicate Plain(s: string) {
    && (forall c :: c in s ==> LowerChar(c) == c)
    && (s != "" ==> !IsSpace(s[0]) && !IsSpace(s[|s| - 1]))
  }

  lemma {:induction false} TrimmedLeft(s: string)
    requires (forall c :: c in s ==> LowerChar(c) == c) && (s != "" ==> !IsSpace(s[|s| - 1]))
    ensures Plain(TrimLeft(s))
  {
    if s != "" && IsSpace(s[0]) { TrimmedLeft(s[1..]); }
  }

  lemma {:induction false} TrimmedRight(s: string)
    requires forall c :: c in s ==> LowerChar(c) == c
    ensures var t := TrimRight(s);
            (forall c :: c in t ==> LowerChar(c) == c) && (t != "" ==> !IsSpace(t[|t| - 1]))
  {
    if s != "" && IsSpace(s[|s| - 1]) { TrimmedRight(s[..|s| - 1]); }
  }

  lemma PlainStays(s: string)
    requires s == "" || (Plain(s) && ':' in s)
    ensures Whole(s) == s
  {
    assert Lower(s) == s;
  }

  lemma Prefixed(p: string, s: string)
    requires p != "" && !IsSpace(p[0]) && (forall c :: c in p ==> LowerChar(c) == c)
    requires Plain(s) && s != ""
    ensures Plain(p + s)
  {
  }

  lemma WholePlain(id: string)
    ensures Whole(id) == "" || (Plain(Whole(id)) && ':' in Whole(id))
  {
    hide Plain, LowerChar, IsSpace, Lower, TrimLeft, TrimRight;
    var lower := Lower(id);
    LowerPlain(id);
    TrimmedRight(lower);
    TrimmedLeft(TrimRight(lower));
    var bare := TrimLeft(TrimRight(lower));
    NamespacePlain();
    if bare != "" { Prefixed(NAMESPACE, bare); }
  }

  lemma LowerPlain(s: string)
    ensures forall c :: c in Lower(s) ==> LowerChar(c) == c
  {
  }

  lemma NamespacePlain()
    ensures !IsSpace(NAMESPACE[0]) && ':' in NAMESPACE && forall c :: c in NAMESPACE ==> LowerChar(c) == c
  {
    assert NAMESPACE[9] == ':';
  }

  lemma BeaconsPlain()
    ensures Plain(BEACON) && ':' in BEACON && Plain(FULL_BEACON) && ':' in FULL_BEACON
  {
    assert BEACON[9] == ':' && FULL_BEACON[9] == ':';
  }

  lemma AliasTwice(id: string)
    ensures Alias(Alias(id)) == Alias(id)
    ensures Alias(id) in {id, BEACON, FULL_BEACON}
  {
    assert |BEACON| != |FULL_BEACON|;
  }

  /** A canonical id is its own canonical form, so looking one up needs no second pass. */
  lemma CanonicalTwice(id: string)
    ensures Canonical(Canonical(id)) == Canonical(id)
  {
    hide Plain, Whole, Alias;
    WholePlain(id);
    BeaconsPlain();
    AliasTwice(Whole(id));
    PlainStays(Canonical(id));
  }

  // ---- What an id is turned into

  predicate Blank(s: string) { forall i :: 0 <= i < |s| ==> s[i] == ' ' || '\t' <= s[i] <= '\r' }

  /** The letters A to Z are made small, everything else stays. */
  predicate Small(raw: string, s: string) {
    && |s| == |raw|
    && forall i :: 0 <= i < |raw| ==> s[i] as int == raw[i] as int + if 65 <= raw[i] as int <= 90 then 32 else 0
  }

  lemma LowerMeans(raw: string, s: string)
    requires Small(raw, s)
    ensures Lower(raw) == s
  {
    forall i | 0 <= i < |raw| ensures LowerChar(raw[i]) == s[i] {}
  }

  lemma LowerJoin(a: string, b: string)
    ensures Lower(a + b) == Lower(a) + Lower(b)
  {
  }

  lemma LowerBlank(s: string)
    requires Blank(s)
    ensures Lower(s) == s
  {
  }

  lemma {:induction false} TrimsRight(s: string, blanks: string)
    requires Blank(blanks) && (s != "" ==> !IsSpace(s[|s| - 1]))
    ensures TrimRight(s + blanks) == s
    decreases |blanks|
  {
    var t := s + blanks;
    if blanks == "" {
      assert t == s;
    } else {
      assert t[|t| - 1] == blanks[|blanks| - 1];
      assert t[..|t| - 1] == s + blanks[..|blanks| - 1];
      TrimsRight(s, blanks[..|blanks| - 1]);
    }
  }

  lemma {:induction false} TrimsLeft(blanks: string, s: string)
    requires Blank(blanks) && (s != "" ==> !IsSpace(s[0]))
    ensures TrimLeft(blanks + s) == s
    decreases |blanks|
  {
    var t := blanks + s;
    if blanks == "" {
      assert t == s;
    } else {
      assert t[0] == blanks[0] && t[1..] == blanks[1..] + s;
      TrimsLeft(blanks[1..], s);
    }
  }

  /** An id between blanks is made small, put into the default namespace if it names none, and the former names of
      the beacon advancements become their present ones; blanks alone name nothing. */
  lemma CanonicalMeans(before: string, raw: string, after: string, s: string)
    requires Blank(before) && Blank(after) && Small(raw, s)
    requires raw != "" ==> !Blank(raw[..1]) && !Blank(raw[|raw| - 1..])
    ensures var full := if ':' in s then s else "minecraft:" + s;
            Canonical(before + raw + after) ==
              if raw == "" then ""
              else if full == "minecraft:nether/construct_beacon" || full == "minecraft:construct_beacon"
                      || full == "minecraft:create_beacon" then "minecraft:nether/create_beacon"
              else if full == "minecraft:create_full_beacon" then "minecraft:nether/create_full_beacon"
              else full
  {
    hide Lower, TrimLeft, TrimRight;
    LowerMeans(raw, s);
    LowerJoin(before + raw, after);
    LowerJoin(before, raw);
    LowerBlank(before);
    LowerBlank(after);
    if raw == "" {
      assert before + raw + after == before + after && s == "";
      TrimsRight("", before + after);
      assert "" + (before + after) == before + after;
      TrimsLeft("", "");
      assert "" + "" == "";
    } else {
      EndsStay(raw, s);
      assert (before + s)[|before + s| - 1] == s[|s| - 1];
      TrimsRight(before + s, after);
      TrimsLeft(before, s);
    }
  }

  lemma EndsStay(raw: string, s: string)
    requires raw != "" && Small(raw, s) && !Blank(raw[..1]) && !Blank(raw[|raw| - 1..])
    ensures !IsSpace(s[0]) && !IsSpace(s[|s| - 1])
  {
  }

  // ---- The registry

  datatype Def = Def(id: string, parent: string)

  /** Definitions under distinct canonical ids; a root has no parent id. */
  ghost predicate Proper(defs: seq<Def>) {
    && (forall i, j :: 0 <= i < j < |defs| ==> defs[i].id != defs[j].id)
    && (forall d :: d in defs ==> d.id != "" && Canonical(d.id) == d.id && Canonical(d.parent) == d.parent)
  }

  ghost predicate Indexed(reg: map<string, Def>) {
    forall id :: id in reg ==>
      reg[id].id == id && id != "" && Canonical(id) == id && Canonical(reg[id].parent) == reg[id].parent
  }

  ghost predicate IsChild(reg: map<string, Def>, p: string, d: Def) {
    d.parent == p && d.id in reg && reg[d.id] == d
  }

  /** The id n steps above x. */
  ghost function Up(reg: map<string, Def>, x: string, n: nat): Option<string>
    decreases n
  {
    if x !in reg then None
    else if n == 0 then Some(x)
    else Up(reg, reg[x].parent, n - 1)
  }

  /** a is x itself or above it. */
  ghost predicate Above(reg: map<string, Def>, a: string, x: string) {
    exists n: nat :: Up(reg, x, n) == Some(a)
  }

  /** The chain from x upward, as far as it goes without meeting an id again, and root first. */
  ghost predicate IsAncestors(reg: map<string, Def>, x: string, up: seq<string>) {
    var n := |up|;
    && (forall i :: 0 <= i < n ==> Up(reg, x, i) == Some(up[n - 1 - i]))
    && (forall i, j :: 0 <= i < j < n ==> up[i] != up[j])
    && (Up(reg, x, n) == None || Up(reg, x, n).value in up)
  }

  /** n is the length of the shortest way from x up to a. */
  ghost predicate AtLevel(reg: map<string, Def>, a: string, x: string, n: nat) {
    Up(reg, x, n) == Some(a) && forall m: nat :: m < n ==> Up(reg, x, m) != Some(a)
  }

  ghost predicate Levels(reg: map<string, Def>, a: string, down: seq<string>, level: seq<nat>) {
    && |level| == |down|
    && (forall i :: 0 <= i < |down| ==> AtLevel(reg, a, down[i], level[i]))
    && (forall i, j :: 0 <= i < j < |down| ==> level[i] <= level[j])
  }

  /** Everything at or below a, once each, nearest first. */
  ghost predicate IsDescendants(reg: map<string, Def>, a: string, down: seq<string>) {
    && (forall i, j :: 0 <= i < j < |down| ==> down[i] != down[j])
    && (forall x :: x in down <==> Above(reg, a, x))
    && exists level :: Levels(reg, a, down, level)
  }

  // ---- The two walks are each other's inverse

  lemma {:induction false} UpSplit(reg: map<string, Def>, x: string, m: nat, n: nat)
    ensures Up(reg, x, m) == None ==> Up(reg, x, m + n) == None
    ensures Up(reg, x, m).Some? ==> Up(reg, x, m + n) == Up(reg, Up(reg, x, m).value, n)
    decreases m
  {
    if x in reg && m > 0 { UpSplit(reg, reg[x].parent, m - 1, n); }
  }

  /** The chain that the walk lists holds every id above x, also past the point where it closed. */
  lemma {:induction false} ChainClosed(reg: map<string, Def>, x: string, up: seq<string>, n: nat)
    requires IsAncestors(reg, x, up) && Up(reg, x, n).Some?
    ensures Up(reg, x, n).value in up
    decreases n
  {
    var l := |up|;
    if n < l {
      assert Up(reg, x, n) == Some(up[l - 1 - n]);
    } else {
      UpSplit(reg, x, l, n - l);
      var y := Up(reg, x, l).value;
      var k :| 0 <= k < l && up[k] == y;
      assert Up(reg, x, l - 1 - k) == Some(y);
      UpSplit(reg, x, l - 1 - k, n - l);
      ChainClosed(reg, x, up, n - k - 1);
    }
  }

  /** d is among the descendants of a exactly when a is among the ancestors of d. */
  lemma Dual(reg: map<string, Def>, a: string, d: string, down: seq<string>, up: seq<string>)
    requires IsDescendants(reg, a, down) && IsAncestors(reg, d, up)
    ensures d in down <==> a in up
  {
    if d in down {
      var n: nat :| Up(reg, d, n) == Some(a);
      ChainClosed(reg, d, up, n);
    }
    if a in up {
      var k :| 0 <= k < |up| && up[k] == a;
      assert Up(reg, d, |up| - 1 - k) == Some(a);
    }
  }

  // ---- The walk up

  ghost predicate IsChain(reg: map<string, Def>, x: string, chain: seq<string>, cur: string) {
    && (forall i :: 0 <= i < |chain| ==> Up(reg, x, i) == Some(chain[i]))
    && (forall i, j :: 0 <= i < j < |chain| ==> chain[i] != chain[j])
    && Up(reg, x, |chain|) == if cur in reg then Some(cur) else None
  }

  lemma StartChain(reg: map<string, Def>, x: string)
    ensures IsChain(reg, x, [], x)
  {
  }

  lemma ChainStep(reg: map<string, Def>, x: string, chain: seq<string>, cur: string)
    requires IsChain(reg, x, chain, cur) && cur in reg && cur !in chain
    ensures IsChain(reg, x, chain + [cur], reg[cur].parent)
  {
    UpSplit(reg, x, |chain|, 1);
    assert Up(reg, cur, 1) == Up(reg, reg[cur].parent, 0);
  }

  lemma ChainDone(reg: map<string, Def>, x: string, chain: seq<string>, cur: string, up: seq<string>)
    requires IsChain(reg, x, chain, cur) && (cur !in reg || cur in chain)
    requires |up| == |chain| && forall i :: 0 <= i < |up| ==> up[i] == chain[|up| - 1 - i]
    ensures IsAncestors(reg, x, up)
  {
    if cur in chain {
      var k :| 0 <= k < |chain| && chain[k] == cur;
      assert up[|up| - 1 - k] == cur;
    }
  }

  // ---- The walk down

  /** A queued definition leads up to a, by a shortest way unless it is a itself met again. */
  ghost predicate Queued(reg: map<string, Def>, a: string, out: seq<string>, d: Def, n: nat) {
    && d.id in reg && reg[d.id] == d && Up(reg, d.id, n) == Some(a)
    && (AtLevel(reg, a, d.id, n) || (d.id == a && a in out))
  }

  /** The queue holds at most two levels, in order. */
  ghost predicate InOrder(level: seq<nat>, qlev: seq<nat>) {
    && (forall i, j :: 0 <= i < j < |qlev| ==> qlev[i] <= qlev[j] <= qlev[0] + 1)
    && (forall i :: 0 <= i < |level| && qlev != [] ==> level[i] <= qlev[0])
  }

  /** The children of what is listed are listed or queued. */
  ghost predicate Closed(reg: map<string, Def>, a: string, out: seq<string>, queue: seq<Def>) {
    && a in reg && (a in out || (queue == [reg[a]] && out == []))
    && forall x, d :: x in out && IsChild(reg, x, d) ==> d.id in out || d in queue
  }

  ghost predicate Walking(reg: map<string, Def>, a: string, out: seq<string>, level: seq<nat>,
                          queue: seq<Def>, qlev: seq<nat>)
  {
    && (forall i, j :: 0 <= i < j < |out| ==> out[i] != out[j])
    && Levels(reg, a, out, level) && InOrder(level, qlev) && Closed(reg, a, out, queue)
    && |queue| == |qlev| && (forall i :: 0 <= i < |queue| ==> Queued(reg, a, out, queue[i], qlev[i]))
  }

  lemma StartWalk(reg: map<string, Def>, a: string)
    requires Indexed(reg) && a in reg
    ensures Walking(reg, a, [], [], [reg[a]], [0])
  {
  }

  lemma SkipStep(reg: map<string, Def>, a: string, out: seq<string>, level: seq<nat>, queue: seq<Def>, qlev: seq<nat>)
    requires Walking(reg, a, out, level, queue, qlev) && queue != [] && queue[0].id in out
    ensures Walking(reg, a, out, level, queue[1..], qlev[1..])
  {
    hide Up, AtLevel;
  }

  /** A child of something at level n is at level n + 1, unless it is a. */
  lemma ChildLevel(reg: map<string, Def>, a: string, out: seq<string>, x: string, n: nat, d: Def)
    requires x in reg && IsChild(reg, x, d) && AtLevel(reg, a, x, n) && a in out
    ensures Queued(reg, a, out, d, n + 1)
  {
    forall m: nat ensures Up(reg, d.id, m + 1) == Up(reg, x, m) {}
    if d.id != a {
      forall m: nat | m < n + 1 ensures Up(reg, d.id, m) != Some(a) {
        if m > 0 { assert Up(reg, d.id, (m - 1) + 1) == Up(reg, x, m - 1); }
      }
    }
  }

  lemma VisitOrder(level: seq<nat>, qlev: seq<nat>, n: nat)
    requires qlev != [] && InOrder(level, qlev)
    ensures InOrder(level + [qlev[0]], qlev[1..] + seq(n, _ => qlev[0] + 1))
  {
  }

  lemma VisitLevels(reg: map<string, Def>, a: string, out: seq<string>, level: seq<nat>,
                    queue: seq<Def>, qlev: seq<nat>)
    requires Walking(reg, a, out, level, queue, qlev) && queue != [] && queue[0].id !in out
    ensures Levels(reg, a, out + [queue[0].id], level + [qlev[0]])
  {
    assert Queued(reg, a, out, queue[0], qlev[0]);
    hide Up, AtLevel;
  }

  lemma VisitClosed(reg: map<string, Def>, a: string, out: seq<string>, queue: seq<Def>, kids: seq<Def>)
    requires Indexed(reg) && Closed(reg, a, out, queue) && queue != []
    requires queue[0].id in reg && reg[queue[0].id] == queue[0]
    requires forall d :: IsChild(reg, queue[0].id, d) ==> d in kids
    ensures Closed(reg, a, out + [queue[0].id], queue[1..] + kids)
  {
    hide IsChild;
    var more, rest := out + [queue[0].id], queue[1..] + kids;
    forall x, d | x in more && IsChild(reg, x, d) ensures d.id in more || d in rest {
      if x in out && d.id !in more { assert d in queue && d != queue[0]; }
    }
  }

  /** What stays queued is still queued rightly, with one more id listed. */
  lemma QueuedStays(reg: map<string, Def>, a: string, out: seq<string>, x: string, d: Def, n: nat)
    requires Queued(reg, a, out, d, n)
    ensures Queued(reg, a, out + [x], d, n)
  {
    hide Up, AtLevel;
  }

  lemma VisitQueued(reg: map<string, Def>, a: string, out: seq<string>, queue: seq<Def>, qlev: seq<nat>, kids: seq<Def>)
    requires |queue| == |qlev| > 0 && forall i :: 0 <= i < |queue| ==> Queued(reg, a, out, queue[i], qlev[i])
    requires forall d :: d in kids ==> Queued(reg, a, out + [queue[0].id], d, qlev[0] + 1)
    ensures var rest, rlev := queue[1..] + kids, qlev[1..] + seq(|kids|, _ => qlev[0] + 1);
            forall i :: 0 <= i < |rest| ==> Queued(reg, a, out + [queue[0].id], rest[i], rlev[i])
  {
    hide Queued;
    var rest, rlev := queue[1..] + kids, qlev[1..] + seq(|kids|, _ => qlev[0] + 1);
    forall i | 0 <= i < |rest| ensures Queued(reg, a, out + [queue[0].id], rest[i], rlev[i]) {
      if i < |queue| - 1 {
        QueuedStays(reg, a, out, queue[0].id, queue[i + 1], qlev[i + 1]);
      } else {
        assert rest[i] in kids;
      }
    }
  }

  lemma VisitStep(reg: map<string, Def>, a: string, out: seq<string>, level: seq<nat>, queue: seq<Def>, qlev: seq<nat>,
                  kids: seq<Def>)
    requires Indexed(reg) && Walking(reg, a, out, level, queue, qlev) && queue != [] && queue[0].id !in out
    requires forall d :: d in kids <==> IsChild(reg, queue[0].id, d)
    ensures Walking(reg, a, out + [queue[0].id], level + [qlev[0]],
                    queue[1..] + kids, qlev[1..] + seq(|kids|, _ => qlev[0] + 1))
  {
    hide Levels, InOrder, Closed, IsChild, AtLevel, Up, Queued, Indexed, Canonical;
    FrontKnown(reg, a, out, level, queue, qlev);
    FrontLevel(reg, a, out, level, queue, qlev);
    VisitLevels(reg, a, out, level, queue, qlev);
    VisitOrder(level, qlev, |kids|);
    VisitClosed(reg, a, out, queue, kids);
    RootListed(reg, a, out + [queue[0].id], queue[1..] + kids, queue[0].id);
    forall d | d in kids ensures Queued(reg, a, out + [queue[0].id], d, qlev[0] + 1) {
      ChildLevel(reg, a, out + [queue[0].id], queue[0].id, qlev[0], d);
    }
    VisitQueued(reg, a, out, queue, qlev, kids);
  }

  lemma FrontLevel(reg: map<string, Def>, a: string, out: seq<string>, level: seq<nat>, queue: seq<Def>, qlev: seq<nat>)
    requires Walking(reg, a, out, level, queue, qlev) && queue != [] && queue[0].id !in out
    ensures AtLevel(reg, a, queue[0].id, qlev[0])
  {
    assert Queued(reg, a, out, queue[0], qlev[0]);
  }

  lemma RootListed(reg: map<string, Def>, a: string, out: seq<string>, queue: seq<Def>, x: string)
    requires Closed(reg, a, out, queue) && x in out
    ensures a in out
  {
  }

  lemma FrontKnown(reg: map<string, Def>, a: string, out: seq<string>, level: seq<nat>, queue: seq<Def>, qlev: seq<nat>)
    requires Walking(reg, a, out, level, queue, qlev) && queue != []
    ensures queue[0].id in reg && reg[queue[0].id] == queue[0] && |queue| == |qlev|
  {
    assert Queued(reg, a, out, queue[0], qlev[0]);
  }

  lemma {:induction false} Reached(reg: map<string, Def>, a: string, out: seq<string>, x: string, n: nat)
    requires Indexed(reg) && Closed(reg, a, out, []) && Up(reg, x, n) == Some(a)
    ensures x in out
    decreases n
  {
    hide Canonical;
    if n > 0 {
      Reached(reg, a, out, reg[x].parent, n - 1);
      assert IsChild(reg, reg[x].parent, reg[x]);
    }
  }

  lemma WalkDone(reg: map<string, Def>, a: string, out: seq<string>, level: seq<nat>)
    requires Indexed(reg) && Walking(reg, a, out, level, [], [])
    ensures IsDescendants(reg, a, out)
  {
    hide Indexed, Closed, Up;
    forall x | Above(reg, a, x) ensures x in out {
      var n: nat :| Up(reg, x, n) == Some(a);
      Reached(reg, a, out, x, n);
    }
    forall x | x in out ensures Above(reg, a, x) {
      var i :| 0 <= i < |out| && out[i] == x;
      assert AtLevel(reg, a, out[i], level[i]);
    }
  }

  lemma SmallerSet<T>(a: set<T>, b: set<T>)
    requires a < b
    ensures |a| < |b|
  {
    var extra := b - a;
    assert b == a + extra && extra != {};
  }

  // ---- Building the registry

  function ById(defs: seq<Def>): map<string, Def> {
    if defs == [] then map[] else var last := defs[|defs| - 1]; ById(defs[..|defs| - 1])[last.id := last]
  }

  function Children(defs: seq<Def>): map<string, seq<Def>> {
    if defs == [] then map[]
    else
      var kids, d := Children(defs[..|defs| - 1]), defs[|defs| - 1];
      if d.parent == "" then kids else kids[d.parent := Of(kids, d.parent) + [d]]
  }

  /** A missing key gives the empty list. */
  function Of(kids: map<string, seq<Def>>, id: string): seq<Def> { if id in kids then kids[id] else [] }

  /** The ids lead to their definitions. */
  lemma {:induction false} IdsAgree(defs: seq<Def>)
    requires Proper(defs)
    ensures forall d :: d in defs <==> d.id in ById(defs) && ById(defs)[d.id] == d
    ensures forall id :: id in ById(defs) ==> ById(defs)[id] in defs && ById(defs)[id].id == id
  {
    if defs != [] {
      var rest, last := defs[..|defs| - 1], defs[|defs| - 1];
      assert defs == rest + [last];
      ProperPrefix(defs);
      IdsAgree(rest);
    }
  }

  lemma ProperPrefix(defs: seq<Def>)
    requires Proper(defs) && defs != []
    ensures Proper(defs[..|defs| - 1])
    ensures forall d :: d in defs[..|defs| - 1] ==> d.id != defs[|defs| - 1].id
  {
  }

  /** The children of an id are the definitions that name it as parent. */
  lemma {:induction false} ChildrenAgree(defs: seq<Def>, p: string, d: Def)
    ensures d in Of(Children(defs), p) <==> d in defs && d.parent == p && p != ""
  {
    if defs != [] {
      var rest, last := defs[..|defs| - 1], defs[|defs| - 1];
      assert defs == rest + [last];
      ChildrenAgree(rest, p, d);
    }
  }

  lemma IndexesAgree(defs: seq<Def>)
    requires Proper(defs)
    ensures Indexed(ById(defs))
    ensures forall p, d :: d in Of(Children(defs), p) <==> p != "" && IsChild(ById(defs), p, d)
  {
    hide Canonical, ById, Children, Of;
    IdsAgree(defs);
    forall p, d ensures d in Of(Children(defs), p) <==> p != "" && IsChild(ById(defs), p, d) {
      ChildrenAgree(defs, p, d);
      assert d in defs <==> d.id in ById(defs) && ById(defs)[d.id] == d;
    }
  }

  class AdvancementRegistry {
    var defs: seq<Def>
    var byId: map<string, Def>
    var children: map<string, seq<Def>>

    ghost predicate Valid()
      reads this
    {
      Proper(defs) && byId == ById(defs) && children == Children(defs)
    }

    constructor (all: seq<Def>)
      requires Proper(all)
      ensures Valid() && defs == all
    {
      defs, byId, children := all, map[], map[];
      new;
      assert all[..0] == [];
      for i := 0 to |all|
        invariant defs == all && byId == ById(all[..i]) && children == Children(all[..i])
      {
        var d := all[i];
        assert all[..i + 1][..i] == all[..i];
        byId := byId[d.id := d];
        if d.parent != "" {
          children := children[d.parent := Of(children, d.parent) + [d]];
        }
      }
      assert all[..|all|] == all;
    }

    method Lookup(id: string) returns (r: Option<Def>)
      ensures r == if Canonical(id) in byId then Some(byId[Canonical(id)]) else None
    {
      var key := Canonical(id);
      r := if key in byId then Some(byId[key]) else None;
    }

    method Ancestors(id: string) returns (up: seq<string>)
      requires Valid()
      ensures IsAncestors(byId, Canonical(id), up)
    {
      hide Canonical, Up, IsChain, ById, Children, Proper, IsAncestors, Of;
      var chain: seq<string> := [];
      var seen: set<string> := {};
      var cur := Canonical(id);
      ghost var x := cur;
      CanonicalTwice(id);
      IndexesAgree(defs);
      StartChain(byId, x);
      while cur != "" && cur !in seen
        invariant Canonical(cur) == cur && IsChain(byId, x, chain, cur)
        invariant seen == (set k | k in chain) && seen <= byId.Keys
        decreases |byId.Keys - seen|
      {
        seen := seen + {cur};
        var def := Lookup(cur);
        if def.None? {
          break;
        }
        ChainStep(byId, x, chain, cur);
        assert byId.Keys - seen < byId.Keys - (seen - {cur});
        SmallerSet(byId.Keys - seen, byId.Keys - (seen - {cur}));
        chain := chain + [def.value.id];
        cur := Canonical(def.value.parent);
      }
      up := Reverse(chain);
      ChainDone(byId, x, chain, cur, up);
    }

    method Descendants(id: string) returns (down: seq<string>)
      requires Valid()
      ensures Canonical(id) in byId ==> IsDescendants(byId, Canonical(id), down)
      ensures Canonical(id) !in byId ==> down == []
    {
      hide Canonical, ById, Children, Proper, Walking, Of, IsDescendants, IsChild;
      down := [];
      var root := Lookup(id);
      if root.None? {
        return;
      }
      IndexesAgree(defs);
      ghost var a, level, qlev := Canonical(id), [], [0];
      var seen: set<string> := {};
      var queue := [root.value];
      StartWalk(byId, a);
      while queue != []
        invariant |queue| == |qlev| && Walking(byId, a, down, level, queue, qlev)
        invariant seen == (set k | k in down) && seen <= byId.Keys
        decreases |byId.Keys - seen|, |queue|
      {
        FrontKnown(byId, a, down, level, queue, qlev);
        var cur := queue[0];
        if cur.id in seen {
          SkipStep(byId, a, down, level, queue, qlev);
          queue, qlev := queue[1..], qlev[1..];
          continue;
        }
        var kids := Kids(cur.id);
        VisitStep(byId, a, down, level, queue, qlev, kids);
        SmallerSet(byId.Keys - (seen + {cur.id}), byId.Keys - seen);
        seen := seen + {cur.id};
        level, qlev := level + [qlev[0]], qlev[1..] + seq(|kids|, _ => qlev[0] + 1);
        down, queue := down + [cur.id], queue[1..] + kids;
      }
      WalkDone(byId, a, down, level);
    }

    /** `Children` of the registry. */
    method Kids(id: string) returns (kids: seq<Def>)
      ensures kids == Of(children, Canonical(id))
    {
      kids := Of(children, Canonical(id));
    }
  }

  method Reverse(s: seq<string>) returns (r: seq<string>)
    ensures |r| == |s| && forall i :: 0 <= i < |s| ==> r[i] == s[|s| - 1 - i]
  {
    r := s;
    var i, j: int := 0, |s| - 1;
    while i < j
      invariant 0 <= i <= j + 1 && i + j == |s| - 1 && |r| == |s|
      invariant forall k :: 0 <= k < i ==> r[k] == s[|s| - 1 - k]
      invariant forall k :: j < k < |s| ==> r[k] == s[|s| - 1 - k]
      invariant forall k :: i <= k <= j ==> r[k] == s[k]
    {
      var first := r[i];
      r := r[i := r[j]];
      r := r[j := first];
      i, j := i + 1, j - 1;
    }
  }
}
