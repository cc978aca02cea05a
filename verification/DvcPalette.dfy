/** The decoder's colour cache: 17 slots with explicit recency ranks, refined to a move-to-front list. */
module DvcPalette {
  const CAPACITY: nat := 17

  /** A cached colour, and whether the current tile has used it. */
  datatype Entry = Entry(colour: int, touched: bool)

  /** The cache as callers see it: colours from the most to the least recently used, the state that
      decodes a palette index, and the copy of it meant for entry 31 of the transition table. */
  datatype Palette = Palette(entries: seq<Entry>, pixcode: int, patch: int)

  const FRESH := Palette([], 38, 35)

  /** The state that reads a palette index when `n` colours are cached. */
  function PixState(n: nat): int {
    if n < 2 then 38
    else if n == 2 then 4
    else if n == 3 then 5
    else if n < 6 then 6
    else if n < 10 then 7
    else 32
  }

  // ---- the move-to-front list ----

  function IndexOf(es: seq<Entry>, colour: int): (r: nat)
    ensures r <= |es|
    ensures r < |es| ==> es[r].colour == colour
    ensures forall i :: 0 <= i < r ==> es[i].colour != colour
  {
    if es == [] || es[0].colour == colour then 0 else 1 + IndexOf(es[1..], colour)
  }

  lemma {:induction false} IndexOfAt(es: seq<Entry>, i: nat)
    requires Distinct(es) && i < |es|
    ensures IndexOf(es, es[i].colour) == i
  {
    if i > 0 {
      IndexOfAt(es[1..], i - 1);
    }
  }

  function ToFront(es: seq<Entry>, r: nat): seq<Entry>
    requires r < |es|
  {
    [Entry(es[r].colour, true)] + es[..r] + es[r + 1..]
  }

  function Reset(p: Palette): Palette {
    p.(entries := [])
  }

  function Touch(p: Palette, colour: int): (Palette, bool) {
    var r := IndexOf(p.entries, colour);
    if r < |p.entries| then
      (p.(entries := ToFront(p.entries, r)), true)
    else if |p.entries| < CAPACITY then
      var code := PixState(|p.entries| + 1);
      (Palette([Entry(colour, true)] + p.entries, code, code), false)
    else
      (p.(entries := [Entry(colour, true)] + p.entries[..CAPACITY - 1]), false)
  }

  function Find(p: Palette, rank: int): (Palette, int) {
    if 0 <= rank < |p.entries| then (p.(entries := ToFront(p.entries, rank)), p.entries[rank].colour)
    else (p, -1)
  }

  /** The touched entries, in order, with their flags cleared. */
  function Kept(es: seq<Entry>): seq<Entry> {
    if es == [] then []
    else (if es[0].touched then [Entry(es[0].colour, false)] else []) + Kept(es[1..])
  }

  function Pruned(p: Palette): Palette {
    var es := Kept(p.entries);
    Palette(es, PixState(|es|), PixState(|es|))
  }

  // ---- what every operation keeps ----

  ghost predicate Distinct(es: seq<Entry>) {
    forall i, j :: 0 <= i < j < |es| ==> es[i].colour != es[j].colour
  }

  /** Touched entries come before untouched ones. */
  ghost predicate TouchedFirst(es: seq<Entry>) {
    forall i, j :: 0 <= i < j < |es| && es[j].touched ==> es[i].touched
  }

  ghost predicate WellFormed(p: Palette) {
    && |p.entries| <= CAPACITY
    && Distinct(p.entries)
    && TouchedFirst(p.entries)
    && (p.entries != [] ==> p.pixcode == PixState(|p.entries|))
    && (p.patch == p.pixcode || (p.patch == 35 && p.pixcode == 38))
    && p.pixcode in {38, 4, 5, 6, 7, 32}
  }

  /** The number of touched entries. */
  function TouchedCount(es: seq<Entry>): (n: nat)
    ensures n <= |es|
    ensures n < |es| ==> !es[n].touched
    ensures forall i :: 0 <= i < n ==> es[i].touched
  {
    if es == [] || !es[0].touched then 0 else 1 + TouchedCount(es[1..])
  }

  lemma {:induction false} KeptNone(es: seq<Entry>)
    requires forall i :: 0 <= i < |es| ==> !es[i].touched
    ensures Kept(es) == []
  {
    if es != [] {
      KeptNone(es[1..]);
    }
  }

  /** Pruning a list whose touched entries come first only cuts its tail off, so no rank changes. */
  lemma {:induction false} PruneTruncates(es: seq<Entry>)
    requires TouchedFirst(es)
    ensures |Kept(es)| == TouchedCount(es)
    ensures forall i :: 0 <= i < TouchedCount(es) ==> Kept(es)[i] == Entry(es[i].colour, false)
  {
    if es == [] {
    } else if !es[0].touched {
      KeptNone(es);
    } else {
      PruneTruncates(es[1..]);
    }
  }

  lemma ToFrontKeeps(es: seq<Entry>, r: nat)
    requires r < |es| && Distinct(es) && TouchedFirst(es)
    ensures Distinct(ToFront(es, r)) && TouchedFirst(ToFront(es, r))
  {
    var f := ToFront(es, r);
    assert forall i :: 0 < i < |f| ==> f[i] == es[if i <= r then i - 1 else i];
  }

  lemma PushKeeps(es: seq<Entry>, colour: int)
    requires Distinct(es) && TouchedFirst(es) && forall i :: 0 <= i < |es| ==> es[i].colour != colour
    ensures Distinct([Entry(colour, true)] + es) && TouchedFirst([Entry(colour, true)] + es)
  {
    var f := [Entry(colour, true)] + es;
    assert forall i :: 0 < i < |f| ==> f[i] == es[i - 1];
  }

  lemma TouchWellFormed(p: Palette, colour: int)
    requires WellFormed(p)
    ensures WellFormed(Touch(p, colour).0)
    ensures Touch(p, colour).1 <==> exists i :: 0 <= i < |p.entries| && p.entries[i].colour == colour
    ensures var es := Touch(p, colour).0.entries; es != [] && es[0] == Entry(colour, true)
  {
    var r := IndexOf(p.entries, colour);
    if r < |p.entries| {
      ToFrontKeeps(p.entries, r);
    } else if |p.entries| < CAPACITY {
      PushKeeps(p.entries, colour);
    } else {
      PushKeeps(p.entries[..CAPACITY - 1], colour);
    }
  }

  lemma FindWellFormed(p: Palette, rank: int)
    requires WellFormed(p)
    ensures WellFormed(Find(p, rank).0)
  {
    if 0 <= rank < |p.entries| {
      ToFrontKeeps(p.entries, rank);
    }
  }

  lemma PruneWellFormed(p: Palette)
    requires WellFormed(p)
    ensures WellFormed(Pruned(p))
  {
    PruneTruncates(p.entries);
  }

  /** The entries of every other colour, in their order. */
  function Others(es: seq<Entry>, colour: int): seq<Entry> {
    if es == [] then [] else (if es[0].colour == colour then [] else [es[0]]) + Others(es[1..], colour)
  }

  lemma {:induction false} OthersAbsent(es: seq<Entry>, colour: int)
    requires forall i :: 0 <= i < |es| ==> es[i].colour != colour
    ensures Others(es, colour) == es
  {
    if es != [] {
      OthersAbsent(es[1..], colour);
    }
  }

  lemma {:induction false} OthersAround(es: seq<Entry>, r: nat)
    requires Distinct(es) && r < |es|
    ensures Others(es, es[r].colour) == es[..r] + es[r + 1..]
  {
    if r == 0 {
      OthersAbsent(es[1..], es[0].colour);
    } else {
      OthersAround(es[1..], r - 1);
      assert es[..r] + es[r + 1..] == [es[0]] + (es[1..][..r - 1] + es[1..][r..]);
    }
  }

  lemma {:induction false} FrontAndOthers(es: seq<Entry>, r: nat)
    requires Distinct(es) && r < |es|
    ensures ToFront(es, r) == [Entry(es[r].colour, true)] + Others(es, es[r].colour)
  {
    hide Others;
    OthersAround(es, r);
  }

  /** Using a colour puts it first and leaves the order of the others alone. Only a new colour in a full cache costs
      one, the least recently used. */
  lemma {:induction false} TouchMovesToFront(p: Palette, colour: int)
    requires WellFormed(p)
    ensures var (q, hit) := Touch(p, colour);
      var all := [Entry(colour, true)] + Others(p.entries, colour);
      q.entries == (if |all| <= CAPACITY then all else all[..CAPACITY]) && (|all| > CAPACITY ==> !hit)
  {
    hide Others, ToFront, WellFormed;
    var r := IndexOf(p.entries, colour);
    assert Distinct(p.entries) && |p.entries| <= CAPACITY by {
      WellFormedSize(p);
    }
    if r < |p.entries| {
      FrontAndOthers(p.entries, r);
      FrontSize(p.entries, r);
    } else {
      OthersAbsent(p.entries, colour);
      assert |p.entries| == CAPACITY ==>
        ([Entry(colour, true)] + p.entries)[..CAPACITY] == [Entry(colour, true)] + p.entries[..CAPACITY - 1];
    }
  }

  lemma WellFormedSize(p: Palette)
    requires WellFormed(p)
    ensures Distinct(p.entries) && |p.entries| <= CAPACITY
  {
  }

  lemma FrontSize(es: seq<Entry>, r: nat)
    requires r < |es|
    ensures |ToFront(es, r)| == |es|
  {
  }

  /** Asking for a rank does the same to the colour that holds it; a rank that is not taken changes nothing and gives
      -1. */
  lemma {:induction false} FindMovesToFront(p: Palette, rank: int)
    requires WellFormed(p)
    ensures var (q, c) := Find(p, rank);
      if 0 <= rank < |p.entries| then
        c == p.entries[rank].colour && q.entries == [Entry(c, true)] + Others(p.entries, c)
      else c == -1 && q == p
  {
    if 0 <= rank < |p.entries| {
      FrontAndOthers(p.entries, rank);
    }
  }

  /** The cache's operations. */
  datatype Op = OpReset | OpTouch(colour: int) | OpFind(rank: int) | OpPrune

  function Apply(p: Palette, op: Op): Palette {
    match op
    case OpReset => Reset(p)
    case OpTouch(colour) => Touch(p, colour).0
    case OpFind(rank) => Find(p, rank).0
    case OpPrune => Pruned(p)
  }

  function AfterAll(p: Palette, ops: seq<Op>): Palette {
    if ops == [] then p else Apply(AfterAll(p, ops[..|ops| - 1]), ops[|ops| - 1])
  }

  /** After any sequence of operations on a fresh cache: at most 17 distinct colours, those used by the
      current tile ahead of the others, and the index state matching their number. */
  lemma {:induction false} RunWellFormed(ops: seq<Op>)
    ensures WellFormed(AfterAll(FRESH, ops))
  {
    if ops != [] {
      var p := AfterAll(FRESH, ops[..|ops| - 1]);
      RunWellFormed(ops[..|ops| - 1]);
      match ops[|ops| - 1]
      case OpReset =>
      case OpTouch(colour) => TouchWellFormed(p, colour);
      case OpFind(rank) => FindWellFormed(p, rank);
      case OpPrune => PruneWellFormed(p);
    }
  }

  // ---- the slots ----

  /** `usage` is a permutation of `0..n-1` with inverse `slots`, and the slot of every rank holds the
      list's entry at that rank. */
  ghost predicate Ranked(color: seq<int>, usage: seq<int>, flag: seq<int>, es: seq<Entry>, slots: seq<nat>) {
    && |color| == |usage| == |flag| == CAPACITY
    && |slots| == |es| <= CAPACITY
    && (forall r :: 0 <= r < |es| ==> slots[r] < |es| && usage[slots[r]] == r)
    && (forall k :: 0 <= k < |es| ==> 0 <= usage[k] < |es| && slots[usage[k]] == k)
    && (forall k :: 0 <= k < |es| ==> color[k] == es[usage[k]].colour)
    && (forall k :: 0 <= k < |es| ==> flag[k] == if es[usage[k]].touched then 1 else 0)
  }

  /** The ranks after slot `slot` moves to the front past the ranks below `below`. */
  ghost function Aged(usage: seq<int>, n: nat, slot: nat, below: int): seq<int> {
    seq(|usage|, k requires 0 <= k < |usage| =>
      if k == slot then 0 else if k < n && usage[k] < below then usage[k] + 1 else usage[k])
  }

  ghost function SlotsToFront(slots: seq<nat>, r: nat): seq<nat>
    requires r < |slots|
  {
    [slots[r]] + slots[..r] + slots[r + 1..]
  }

  lemma RankedToFront(color: seq<int>, usage: seq<int>, flag: seq<int>, es: seq<Entry>, slots: seq<nat>, r: nat)
    requires Ranked(color, usage, flag, es, slots) && r < |es|
    ensures Ranked(color, Aged(usage, |es|, slots[r], r), flag[slots[r] := 1], ToFront(es, r), SlotsToFront(slots, r))
  {
    var u, f, s := Aged(usage, |es|, slots[r], r), ToFront(es, r), SlotsToFront(slots, r);
    hide ToFront, SlotsToFront;
    FrontIsFirst(es, slots, r);
    forall i | 0 < i < |es|
      ensures f[i] == es[if i <= r then i - 1 else i] && s[i] == slots[if i <= r then i - 1 else i]
    {
      FrontShifts(es, slots, r, i);
    }
    forall k | 0 <= k < |es|
      ensures 0 <= u[k] < |es| && s[u[k]] == k && (k != slots[r] ==> u[k] > 0 && f[u[k]] == es[usage[k]])
    {
      assert slots[usage[k]] == k;
    }
  }

  lemma FrontIsFirst(es: seq<Entry>, slots: seq<nat>, r: nat)
    requires r < |es| == |slots|
    ensures |ToFront(es, r)| == |SlotsToFront(slots, r)| == |es|
    ensures ToFront(es, r)[0] == Entry(es[r].colour, true) && SlotsToFront(slots, r)[0] == slots[r]
  {
  }

  lemma FrontShifts(es: seq<Entry>, slots: seq<nat>, r: nat, i: nat)
    requires r < |es| == |slots| && 0 < i < |es|
    ensures var j := if i <= r then i - 1 else i;
      |ToFront(es, r)| == |SlotsToFront(slots, r)| == |es|
      && ToFront(es, r)[i] == es[j] && SlotsToFront(slots, r)[i] == slots[j]
  {
  }

  lemma RankedPush(color: seq<int>, usage: seq<int>, flag: seq<int>, es: seq<Entry>, slots: seq<nat>, c: int)
    requires Ranked(color, usage, flag, es, slots) && |es| < CAPACITY
    ensures var n := |es|;
      Ranked(color[n := c], Aged(usage, n + 1, n, n), flag[n := 1], [Entry(c, true)] + es, [n] + slots)
  {
    var n := |es|;
    var u, f, s := Aged(usage, n + 1, n, n), [Entry(c, true)] + es, [n] + slots;
    assert forall k :: 0 <= k < n ==> u[k] == usage[k] + 1;
    forall r | 0 <= r < n + 1
      ensures s[r] < n + 1 && u[s[r]] == r
    {
      assert r > 0 ==> s[r] == slots[r - 1];
    }
    forall k | 0 <= k < n + 1
      ensures 0 <= u[k] < n + 1 && s[u[k]] == k && f[u[k]] == if k < n then es[usage[k]] else Entry(c, true)
    {
      assert k < n ==> s[u[k]] == slots[usage[k]];
    }
  }

  lemma RankedReplace(color: seq<int>, usage: seq<int>, flag: seq<int>, es: seq<Entry>, slots: seq<nat>, c: int)
    requires Ranked(color, usage, flag, es, slots) && |es| == CAPACITY
    ensures var last := slots[16];
      Ranked(color[last := c], Aged(usage, 17, last, 16), flag[last := 1], [Entry(c, true)] + es[..16],
             SlotsToFront(slots, 16))
  {
    var last := slots[16];
    var u, f, s := Aged(usage, 17, last, 16), [Entry(c, true)] + es[..16], SlotsToFront(slots, 16);
    assert forall i :: 0 < i < 17 ==> f[i] == es[i - 1] && s[i] == slots[i - 1];
    forall k | 0 <= k < 17 && k != last
      ensures u[k] == usage[k] + 1 < 17
    {
      assert slots[usage[k]] == k;
    }
  }

  ghost function Range(n: nat): (s: set<int>)
    ensures |s| == n
    ensures forall r :: r in s <==> 0 <= r < n
  {
    if n == 0 then {} else Range(n - 1) + {n - 1}
  }

  /** Pruning in progress: slots below `k` have been kept, slots `k..n-1` are still to be looked at, and
      `live` holds the ranks that are not dropped. */
  ghost predicate Pruning(color: seq<int>, usage: seq<int>, flag: seq<int>, es: seq<Entry>, slots: seq<nat>,
                          live: set<int>, k: nat, n: nat)
  {
    && |color| == |usage| == |flag| == CAPACITY
    && k <= n == |live| && n <= |es| == |slots| <= CAPACITY
    && (forall r :: r in live ==> 0 <= r < |es| && slots[r] < n && usage[slots[r]] == r)
    && (forall r :: 0 <= r < |es| && es[r].touched ==> r in live)
    && (forall j :: 0 <= j < n ==> usage[j] in live && slots[usage[j]] == j)
    && (forall j :: 0 <= j < n ==> color[j] == es[usage[j]].colour)
    && (forall j :: 0 <= j < k ==> flag[j] == 0 && es[usage[j]].touched)
    && (forall j :: k <= j < n ==> flag[j] == if es[usage[j]].touched then 1 else 0)
  }

  lemma PruningStart(color: seq<int>, usage: seq<int>, flag: seq<int>, es: seq<Entry>, slots: seq<nat>)
    requires Ranked(color, usage, flag, es, slots)
    ensures Pruning(color, usage, flag, es, slots, Range(|es|), 0, |es|)
  {
    var live := Range(|es|);
    assert forall r :: r in live ==> slots[r] < |es| && usage[slots[r]] == r;
  }

  lemma PruningDrop(color: seq<int>, usage: seq<int>, flag: seq<int>, es: seq<Entry>, slots: seq<nat>,
                    live: set<int>, k: nat, n: nat)
    requires Pruning(color, usage, flag, es, slots, live, k, n) && k < n && flag[k] == 0
    ensures Pruning(color[k := color[n - 1]], usage[k := usage[n - 1]], flag[k := flag[n - 1]], es,
                    slots[usage[n - 1] := k], live - {usage[k]}, k, n - 1)
  {
    var slots' := slots[usage[n - 1] := k];
    var usage' := usage[k := usage[n - 1]];
    forall r | r in live - {usage[k]}
      ensures slots'[r] < n - 1 && usage'[slots'[r]] == r
    {
      assert usage[slots[r]] == r;
    }
  }

  lemma PruningKeep(color: seq<int>, usage: seq<int>, flag: seq<int>, es: seq<Entry>, slots: seq<nat>,
                    live: set<int>, k: nat, n: nat)
    requires Pruning(color, usage, flag, es, slots, live, k, n) && k < n && flag[k] != 0
    ensures Pruning(color, usage, flag[k := flag[k] - 1], es, slots, live, k + 1, n)
  {
  }

  /** When every slot has been looked at, the live ranks are exactly the touched prefix. */
  lemma PruningDone(color: seq<int>, usage: seq<int>, flag: seq<int>, es: seq<Entry>, slots: seq<nat>,
                    live: set<int>, n: nat)
    requires Pruning(color, usage, flag, es, slots, live, n, n) && TouchedFirst(es)
    ensures n == |Kept(es)|
    ensures Ranked(color, usage, flag, Kept(es), slots[..n])
  {
    var t := TouchedCount(es);
    assert live == Range(t) by {
      forall r | r in live
        ensures r < t
      {
        assert es[usage[slots[r]]].touched;
      }
    }
    PruneTruncates(es);
    forall j | 0 <= j < n
      ensures 0 <= usage[j] < t && color[j] == Kept(es)[usage[j]].colour && !Kept(es)[usage[j]].touched
    {
      assert usage[j] in live;
    }
  }

  class DvcCache {
    var active: nat
    const color: array<int>
    const usage: array<int>
    const flag: array<int>
    var pixcode: int
    var next131: int
    ghost var recency: seq<Entry>
    /** The slot that holds each rank. */
    ghost var slots: seq<nat>

    ghost predicate Shape()
      reads this
    {
      && color.Length == usage.Length == flag.Length == CAPACITY
      && color != usage && color != flag && usage != flag
      && active <= CAPACITY
    }

    ghost predicate Valid()
      reads this, color, usage, flag
    {
      && Shape()
      && |recency| == active
      && Ranked(color[..], usage[..], flag[..], recency, slots)
      && WellFormed(Model())
    }

    ghost function Model(): Palette
      reads this
    {
      Palette(recency, pixcode, next131)
    }

    constructor ()
      ensures Valid() && Model() == FRESH
      ensures fresh(color) && fresh(usage) && fresh(flag)
    {
      color, usage, flag := new int[17], new int[17], new int[17];
      active, pixcode, next131 := 0, 38, 35;
      recency, slots := [], [];
    }

    method Clear()
      requires Valid()
      modifies this
      ensures Valid() && Model() == Reset(old(Model()))
    {
      active := 0;
      recency, slots := [], [];
    }

    method UpdatePixcode()
      modifies this`pixcode, this`next131
      ensures pixcode == next131 == PixState(active)
    {
      pixcode := if active < 2 then 38 else if active == 2 then 4 else if active == 3 then 5
                 else if active < 6 then 6 else if active < 10 then 7 else 32;
      next131 := pixcode;
    }

    /** Moves `slot` to rank 0 past every rank below `below`, the loop both lookups end with. */
    method Age(slot: nat, below: int)
      requires Shape() && slot < CAPACITY
      modifies usage
      ensures usage[..] == Aged(old(usage[..]), active, slot, below)
    {
      var k := 0;
      while k < active
        invariant 0 <= k <= active
        invariant forall j :: 0 <= j < CAPACITY ==>
          usage[j] == if j < k && old(usage[j]) < below then old(usage[j]) + 1 else old(usage[j])
      {
        if usage[k] < below {
          usage[k] := usage[k] + 1;
        }
        k := k + 1;
      }
      usage[slot] := 0;
    }

    /** The slot holding colour `c`, or else the slot of the oldest colour. */
    method Locate(c: int) returns (slot: nat, hit: bool)
      requires Valid()
      ensures var r := IndexOf(recency, c);
        && hit == (r < active)
        && (hit ==> slot == slots[r])
        && (!hit && active > 0 ==> slot == slots[active - 1])
        && slot < CAPACITY
    {
      ghost var r := IndexOf(recency, c);
      slot, hit := 0, false;
      var k := 0;
      while k < active
        invariant 0 <= k <= active && slot < CAPACITY
        invariant forall q :: 0 <= q < active && slots[q] < k ==> recency[q].colour != c
        invariant forall j :: 0 <= j < k && usage[j] == active - 1 ==> slot == j
      {
        if c == color[k] {
          IndexOfAt(recency, usage[k]);
          return k, true;
        }
        if usage[k] == active - 1 {
          slot := k;
        }
        k := k + 1;
      }
    }

    /** Moves a cached colour to the front. */
    method Promote(slot: nat)
      requires Valid() && slot < active
      modifies this`recency, this`slots, usage, flag
      ensures Valid() && recency == ToFront(old(recency), old(usage[slot]))
    {
      var below := usage[slot];
      ghost var fs := flag[..];
      RankedToFront(color[..], usage[..], fs, recency, slots, below);
      ToFrontKeeps(recency, below);
      slots := SlotsToFront(slots, below);
      recency := ToFront(recency, below);
      flag[slot] := 1;
      assert flag[..] == fs[slot := 1];
      Age(slot, below);
    }

    method Lru(c: int) returns (hit: bool)
      requires Valid()
      modifies this, color, usage, flag
      ensures Valid()
      ensures (Model(), hit) == Touch(old(Model()), c)
    {
      hide Distinct, TouchedFirst, Aged;
      var slot;
      slot, hit := Locate(c);
      if hit {
        Promote(slot);
        return;
      }
      TouchWellFormed(Model(), c);
      ghost var after := Touch(Model(), c).0.entries;
      var below := usage[slot];
      if active < 17 {
        RankedPush(color[..], usage[..], flag[..], recency, slots, c);
        slot := active;
        below := active;
        active := active + 1;
        UpdatePixcode();
        slots := [slot] + slots;
      } else {
        RankedReplace(color[..], usage[..], flag[..], recency, slots, c);
        slots := SlotsToFront(slots, 16);
      }
      Mark(slot, c);
      Age(slot, below);
      recency := after;
    }

    method Mark(slot: nat, c: int)
      requires Shape() && slot < CAPACITY
      modifies color, flag
      ensures color[..] == old(color[..])[slot := c] && flag[..] == old(flag[..])[slot := 1]
    {
      color[slot] := c;
      flag[slot] := 1;
    }

    method Rank(rank: int) returns (c: int)
      requires Valid()
      modifies this, usage, flag
      ensures Valid()
      ensures (Model(), c) == Find(old(Model()), rank)
    {
      var k := 0;
      while k < active
        invariant 0 <= k <= active
        invariant 0 <= rank < active ==> slots[rank] >= k
      {
        if rank == usage[k] {
          c := color[k];
          Promote(k);
          return;
        }
        k := k + 1;
      }
      return -1;
    }

    /** Copies slot `n` over slot `k`. */
    method Fill(k: nat, n: nat)
      requires Shape() && k <= n < CAPACITY
      modifies color, usage, flag
      ensures color[..] == old(color[..])[k := old(color[n])]
      ensures usage[..] == old(usage[..])[k := old(usage[n])]
      ensures flag[..] == old(flag[..])[k := old(flag[n])]
    {
      flag[k] := flag[n];
      color[k] := color[n];
      usage[k] := usage[n];
    }

    /** One round of pruning: slot `k` is either kept, or overwritten with the last live slot. */
    method PruneSlot(k: nat, n: nat, ghost live: set<int>) returns (k': nat, n': nat, ghost live': set<int>)
      requires Shape() && k < n <= CAPACITY
      requires Pruning(color[..], usage[..], flag[..], recency, slots, live, k, n)
      modifies this`slots, color, usage, flag
      ensures Pruning(color[..], usage[..], flag[..], recency, slots, live', k', n')
      ensures n' - k' < n - k
    {
      ghost var cs, us, fs := color[..], usage[..], flag[..];
      if flag[k] == 0 {
        PruningDrop(cs, us, fs, recency, slots, live, k, n);
        Fill(k, n - 1);
        k', n', live' := k, n - 1, live - {us[k]};
        slots := slots[us[n'] := k];
      } else {
        PruningKeep(cs, us, fs, recency, slots, live, k, n);
        flag[k] := flag[k] - 1;
        assert flag[..] == fs[k := fs[k] - 1];
        k', n', live' := k + 1, n, live;
      }
    }

    method FinishPrune(n: nat, ghost live: set<int>)
      requires Shape() && WellFormed(Model())
      requires Pruning(color[..], usage[..], flag[..], recency, slots, live, n, n)
      modifies this
      ensures Valid() && Model() == Pruned(old(Model()))
    {
      PruneWellFormed(Model());
      PruningDone(color[..], usage[..], flag[..], recency, slots, live, n);
      active := n;
      UpdatePixcode();
      slots := slots[..n];
      recency := Kept(recency);
    }

    /** Drops every slot the current tile has not used, moving the last live slot into the hole. Ranks
        are left as they are. */
    method Prune()
      requires Valid()
      modifies this, color, usage, flag
      ensures Valid() && Model() == Pruned(old(Model()))
    {
      ghost var live := Range(active);
      PruningStart(color[..], usage[..], flag[..], recency, slots);
      var n := active;
      var k := 0;
      while k < n
        invariant Shape() && Model() == old(Model())
        invariant Pruning(color[..], usage[..], flag[..], recency, slots, live, k, n)
        decreases n - k
      {
        k, n, live := PruneSlot(k, n, live);
      }
      FinishPrune(n, live);
    }
  }
}
