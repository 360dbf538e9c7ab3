/**
 The blinking characters of the fish program: a linked list in a fixed pool whose
 free slots are those with location 0, and the tick that counts every node down and
 toggles it.
 */
module Blink {
  import opened Common

  type word = w: int | 0 <= w < 0x1_0000

  const SLOTS := 2000     // 80 * 25, slots of the pool and cells of the screen
  const NULL := -1

  datatype Node = Node(
    location: word,
    onChar: byte,
    offChar: byte,
    onLength: word,
    offLength: word,
    countdown: word,
    status: word,
    next: int
  )

  // ----------------------------------------------------------------- one node's phase

  /** The 16-bit countdown, decremented, is still positive as a signed number. */
  predicate StillCounting(countdown: word) { 0 < (countdown - 1) % 0x1_0000 < 0x8000 }

  /** One tick: count down, or toggle and start over with the other length. */
  function TickNode(n: Node): Node {
    if StillCounting(n.countdown) then n.(countdown := (n.countdown - 1) % 0x1_0000)
    else if n.status % 2 == 1 then n.(countdown := n.offLength, status := n.status - 1)
    else n.(countdown := n.onLength, status := n.status + 1)
  }

  /** For how many ticks a length lasts: lengths of 0 or above 32768 last one tick. */
  function Lasts(length: word): nat {
    if length == 0 || length > 0x8000 then 1 else length
  }

  function Period(n: Node): nat { Lasts(n.onLength) + Lasts(n.offLength) }

  function ShowsOn(n: Node, ticks: nat): bool { ticks % Period(n) < Lasts(n.onLength) }

  /** The node `q` ticks into a period. */
  function NodeAt(n: Node, q: nat): Node {
    var on := Lasts(n.onLength);
    if q < on then n.(status := 1, countdown := (n.onLength - q) % 0x1_0000)
    else n.(status := 0, countdown := (n.offLength - (q - on)) % 0x1_0000)
  }

  /** The node `ticks` ticks after it was added. */
  function NodeAfter(n: Node, ticks: nat): Node { NodeAt(n, ticks % Period(n)) }

  lemma NextMod(n: nat, p: nat)
    requires p > 0
    ensures (n + 1) % p == if n % p + 1 == p then 0 else n % p + 1
  {
    var q, r := n / p, n % p;
    assert n == q * p + r;
    if r + 1 == p {
      assert n + 1 == (q + 1) * p;
      ModUnique(n + 1, p, q + 1, 0);
    } else {
      ModUnique(n + 1, p, q, r + 1);
    }
  }

  lemma ModUnique(n: nat, p: nat, q: nat, r: nat)
    requires p > 0 && r < p && n == q * p + r
    ensures n % p == r
  {
    var d := n / p - q;
    assert n == (n / p) * p + n % p;
    assert d * p == r - n % p;
    MultiplesGrow(d, p);
  }

  lemma ModPlus(n: nat, p: nat, j: nat)
    requires p > 0 && n % p + j < p
    ensures (n + j) % p == n % p + j
  {
    var q, r := n / p, n % p;
    assert n == q * p + r;
    ModUnique(n + j, p, q, r + j);
  }

  lemma MultiplesGrow(d: int, p: int)
    requires p > 0
    ensures d >= 1 ==> d * p >= p
    ensures d <= -1 ==> d * p <= -p
  {
  }

  /** Counting one length down, signed 16-bit comparison and all. */
  lemma CountStep(length: word, k: nat)
    requires k < Lasts(length)
    ensures StillCounting((length - k) % 0x1_0000) <==> k + 1 < Lasts(length)
    ensures k + 1 < Lasts(length) ==>
              ((length - k) % 0x1_0000 - 1) % 0x1_0000 == (length - (k + 1)) % 0x1_0000
  {
  }

  lemma StepWithinPeriod(n: Node, q: nat)
    requires q < Period(n)
    ensures TickNode(NodeAt(n, q)) == NodeAt(n, if q + 1 == Period(n) then 0 else q + 1)
  {
    if q < Lasts(n.onLength) {
      StepWhileOn(n, q);
    } else {
      StepWhileOff(n, q - Lasts(n.onLength));
    }
  }

  lemma StepWhileOn(n: Node, q: nat)
    requires q < Lasts(n.onLength)
    ensures TickNode(NodeAt(n, q)) == NodeAt(n, q + 1)
  {
    CountStep(n.onLength, q);
  }

  lemma StepWhileOff(n: Node, q: nat)
    requires q < Lasts(n.offLength)
    ensures TickNode(NodeAt(n, Lasts(n.onLength) + q))
            == NodeAt(n, if q + 1 == Lasts(n.offLength) then 0 else Lasts(n.onLength) + q + 1)
  {
    CountStep(n.offLength, q);
  }

  /** The phase in closed form, for all lengths: a node is on for the first part of
      each period and off for the rest. */
  lemma PhaseAdvances(n: Node, ticks: nat)
    ensures TickNode(NodeAfter(n, ticks)) == NodeAfter(n, ticks + 1)
    ensures NodeAfter(n, ticks).status == if ShowsOn(n, ticks) then 1 else 0
  {
    NextMod(ticks, Period(n));
    StepWithinPeriod(n, ticks % Period(n));
  }

  lemma PhaseStatus(n: Node, ticks: nat, m: Node, on: bool)
    requires m == NodeAfter(n, ticks).(next := m.next) && on == ShowsOn(n, ticks)
    ensures m.status == if on then 1 else 0
    ensures ShownChar(m) == if on then m.onChar else m.offChar
  {
    PhaseAdvances(n, ticks);
  }

  function TickTimes(n: Node, ticks: nat): Node {
    if ticks == 0 then n else TickNode(TickTimes(n, ticks - 1))
  }

  lemma {:induction false} PhaseClosedForm(n: Node, ticks: nat)
    requires n.status == 1 && n.countdown == n.onLength
    ensures TickTimes(n, ticks) == NodeAfter(n, ticks)
  {
    if ticks == 0 {
      PhaseStart(n);
    } else {
      PhaseClosedForm(n, ticks - 1);
      PhaseAdvances(n, ticks - 1);
    }
  }

  lemma PhaseStart(n: Node)
    requires n.status == 1 && n.countdown == n.onLength
    ensures NodeAfter(n, 0) == n
  {
    ModUnique(0, Period(n), 0, 0);
  }

  function ShownChar(n: Node): byte {
    if n.status % 2 == 1 then n.onChar else n.offChar
  }

  // -------------------------------------------------------------- the list in the pool

  predicate Distinct(s: seq<nat>) {
    forall i, j :: 0 <= i < j < |s| ==> s[i] != s[j]
  }

  /** `order` is the list that starts at `head`. */
  predicate Chained(pool: seq<Node>, head: int, order: seq<nat>) {
    && (forall i :: 0 <= i < |order| ==> order[i] < |pool|)
    && head == LinkTo(order, 0)
    && forall i :: 0 <= i < |order| ==> pool[order[i]].next == LinkTo(order, i + 1)
  }

  /** The link to the `i`-th element of a list; null behind the last. */
  function LinkTo(order: seq<nat>, i: nat): int
    requires i <= |order|
  {
    if i < |order| then order[i] else NULL
  }

  /** The live slots are those on the list, each once. */
  predicate PoolOk(pool: seq<Node>, head: int, order: seq<nat>) {
    && |pool| == SLOTS
    && Distinct(order)
    && Chained(pool, head, order)
    && (forall s :: 0 <= s < SLOTS ==> (pool[s].location != 0 <==> s in order))
    && (forall s :: 0 <= s < SLOTS ==> pool[s].location < SLOTS)
  }

  /** Position of the most recently added node with this location. */
  function Find(pool: seq<Node>, order: seq<nat>, location: word): (i: nat)
    requires forall j :: 0 <= j < |order| ==> order[j] < |pool|
    ensures i <= |order|
    ensures i < |order| ==> pool[order[i]].location == location
    ensures forall j :: 0 <= j < i ==> pool[order[j]].location != location
  {
    if order == [] || pool[order[0]].location == location then 0
    else 1 + Find(pool, order[1..], location)
  }

  function Without(order: seq<nat>, i: nat): seq<nat>
    requires i < |order|
  {
    order[..i] + order[i + 1..]
  }

  /** Slot `s` is where its closed form says. */
  ghost predicate InPhase(pool: seq<Node>, added: seq<Node>, age: seq<nat>, s: nat) {
    && s < |pool| == |added| == |age|
    && pool[s] == NodeAfter(added[s], age[s]).(next := pool[s].next)
  }

  /** No other live slot has this slot's location. */
  predicate Alone(pool: seq<Node>, s: nat) {
    s < |pool| && forall t :: 0 <= t < |pool| && t != s && pool[t].location != 0 ==>
      pool[t].location != pool[s].location
  }

  /** The screen shows the slot's character. */
  predicate Shown(pool: seq<Node>, screen: seq<byte>, s: nat) {
    s < |pool| && 2 * pool[s].location < |screen| && screen[2 * pool[s].location] == ShownChar(pool[s])
  }

  /** The list in the pool, each node in its phase, and each node that was the last to
      draw at its location drawn as it is. */
  ghost predicate Consistent(pool: seq<Node>, screen: seq<byte>, head: int, order: seq<nat>,
                             added: seq<Node>, age: seq<nat>, drew: set<nat>) {
    && PoolOk(pool, head, order)
    && |screen| == 2 * SLOTS && |added| == SLOTS && |age| == SLOTS
    && (forall s :: 0 <= s < SLOTS && pool[s].location != 0 ==> InPhase(pool, added, age, s))
    && (forall s :: s in drew ==> s < SLOTS && pool[s].location != 0 && Shown(pool, screen, s))
  }

  // ------------------------------------------------------------------------- adding

  /** The node as `mp1_ioctl_add` stores it. */
  function AddedNode(n: Node, next: int): Node { n.(status := 1, countdown := n.onLength, next := next) }

  /** So a node shows the characters it was added with, each as long as it was asked to. */
  lemma AddedNodeBlinks(n: Node, next: int, ticks: nat)
    ensures var m := TickTimes(AddedNode(n, next), ticks);
            && m.location == n.location && m.next == next
            && ShownChar(m) == if ticks % (Lasts(n.onLength) + Lasts(n.offLength)) < Lasts(n.onLength)
                               then n.onChar else n.offChar
  {
    var a := AddedNode(n, next);
    PhaseClosedForm(a, ticks);
    PhaseStatus(a, ticks, NodeAfter(a, ticks), ShowsOn(a, ticks));
  }

  lemma PushChained(pool: seq<Node>, head: int, order: seq<nat>, slot: nat, n: Node)
    requires Chained(pool, head, order) && slot < |pool| && slot !in order && n.next == head
    ensures Chained(pool[slot := n], slot, [slot] + order)
  {
    var order' := [slot] + order;
    forall i | 0 <= i < |order'|
      ensures order'[i] < |pool| && pool[slot := n][order'[i]].next == LinkTo(order', i + 1)
    {
      if i > 0 {
        assert order'[i] == order[i - 1] && order[i - 1] in order;
      }
    }
  }

  lemma PushMembers(order: seq<nat>, slot: nat)
    requires Distinct(order) && slot !in order
    ensures Distinct([slot] + order)
    ensures forall s :: s in [slot] + order <==> s == slot || s in order
  {
  }

  lemma PushOk(pool: seq<Node>, head: int, order: seq<nat>, slot: nat, n: Node)
    requires PoolOk(pool, head, order) && slot < SLOTS && pool[slot].location == 0
    requires 0 != n.location < SLOTS && n.next == head
    ensures PoolOk(pool[slot := n], slot, [slot] + order)
  {
    PushChained(pool, head, order, slot, n);
    PushMembers(order, slot);
  }

  /** A node at location 0 would be on the list in a slot that counts as free: adding
      keeps list and pool in step exactly for the other locations. */
  lemma AddKeepsPoolIff(pool: seq<Node>, head: int, order: seq<nat>, slot: nat, n: Node)
    requires PoolOk(pool, head, order) && slot < SLOTS && pool[slot].location == 0
    requires n.location < SLOTS && n.next == head
    ensures PoolOk(pool[slot := n], slot, [slot] + order) <==> n.location != 0
  {
    if n.location != 0 {
      PushOk(pool, head, order, slot, n);
    } else {
      assert ([slot] + order)[0] in [slot] + order;
      assert pool[slot := n][slot].location == 0;
    }
  }

  /** Which slots drew last at their location, once `slot` has drawn at `location`. */
  function DrewWith(pool: seq<Node>, drew: set<nat>, slot: nat, location: word): set<nat> {
    (set s | s in drew && s < |pool| && pool[s].location != location) + {slot}
  }

  lemma AddConsistent(pool: seq<Node>, screen: seq<byte>, head: int, order: seq<nat>,
                      added: seq<Node>, age: seq<nat>, drew: set<nat>, slot: nat, n: Node)
    requires Consistent(pool, screen, head, order, added, age, drew)
    requires slot < SLOTS && pool[slot].location == 0 && 0 != n.location < SLOTS
    requires n == AddedNode(n, head)
    ensures Consistent(pool[slot := n], screen[2 * n.location := n.onChar], slot, [slot] + order,
                       added[slot := n], age[slot := 0], DrewWith(pool, drew, slot, n.location))
  {
    PushOk(pool, head, order, slot, n);
    var pool', screen' := pool[slot := n], screen[2 * n.location := n.onChar];
    PhaseClosedForm(n, 0);
    forall s | 0 <= s < SLOTS && pool'[s].location != 0
      ensures InPhase(pool', added[slot := n], age[slot := 0], s)
    {
      if s != slot { assert InPhase(pool, added, age, s); }
    }
    forall s | s in DrewWith(pool, drew, slot, n.location)
      ensures s < SLOTS && pool'[s].location != 0 && Shown(pool', screen', s)
    {
      if s != slot { assert s in drew && Shown(pool, screen, s); }
    }
  }

  // ----------------------------------------------------------------------- removing

  /** The pool after the `i`-th node of the list is unlinked and cleared. */
  function Unlinked(pool: seq<Node>, order: seq<nat>, i: nat): seq<Node>
    requires i < |order| && forall j :: 0 <= j < |order| ==> order[j] < |pool|
  {
    var cut := if i == 0 then pool
               else pool[order[i - 1] := pool[order[i - 1]].(next := pool[order[i]].next)];
    cut[order[i] := Node(0, 0, 0, 0, 0, 0, 0, NULL)]
  }

  lemma WithoutMembers(order: seq<nat>, i: nat)
    requires Distinct(order) && i < |order|
    ensures Distinct(Without(order, i)) && order[i] !in Without(order, i)
    ensures forall s :: s in order <==> s == order[i] || s in Without(order, i)
  {
    var r := Without(order, i);
    assert order == order[..i] + [order[i]] + order[i + 1..];
  }

  lemma UnlinkChained(pool: seq<Node>, head: int, order: seq<nat>, i: nat)
    requires Chained(pool, head, order) && Distinct(order) && i < |order|
    ensures Chained(Unlinked(pool, order, i), if i == 0 then LinkTo(order, 1) else head, Without(order, i))
  {
    var order' := Without(order, i);
    forall j | 0 <= j < |order'|
      ensures order'[j] < |pool| && Unlinked(pool, order, i)[order'[j]].next == LinkTo(order', j + 1)
    {
      UnlinkedNext(pool, head, order, i, j);
    }
  }

  lemma UnlinkedNext(pool: seq<Node>, head: int, order: seq<nat>, i: nat, j: nat)
    requires Chained(pool, head, order) && Distinct(order) && i < |order| && j < |order| - 1
    ensures var order' := Without(order, i);
            order'[j] < |pool| && Unlinked(pool, order, i)[order'[j]].next == LinkTo(order', j + 1)
  {
    var k := if j < i then j else j + 1;
    WithoutAt(order, i, j);
    WithoutLink(order, i, j);
    UnlinkedLink(pool, order, i, k);
    assert pool[order[k]].next == LinkTo(order, k + 1);
    assert pool[order[i]].next == LinkTo(order, i + 1);
  }

  /** Only the link to the node that goes is changed. */
  lemma UnlinkedLink(pool: seq<Node>, order: seq<nat>, i: nat, k: nat)
    requires Distinct(order) && i < |order| && k < |order| && k != i
    requires forall j :: 0 <= j < |order| ==> order[j] < |pool|
    ensures Unlinked(pool, order, i)[order[k]].next == pool[order[if k + 1 == i then i else k]].next
  {
    assert order[k] != order[i] && (i > 0 && k != i - 1 ==> order[k] != order[i - 1]);
  }

  lemma WithoutAt(order: seq<nat>, i: nat, j: nat)
    requires i < |order| && j < |order| - 1
    ensures Without(order, i)[j] == order[if j < i then j else j + 1]
  {
  }

  /** The link behind the `j`-th element that is left: it skips the one removed. */
  lemma WithoutLink(order: seq<nat>, i: nat, j: nat)
    requires i < |order| && j < |order| - 1
    ensures LinkTo(Without(order, i), j + 1) == LinkTo(order, if j + 1 < i then j + 1 else j + 2)
  {
    if j + 1 < |order| - 1 {
      WithoutAt(order, i, j + 1);
    }
  }

  /** Every other node keeps all but perhaps its link. */
  lemma UnlinkedKeeps(pool: seq<Node>, order: seq<nat>, i: nat, s: nat)
    requires i < |order| && (forall j :: 0 <= j < |order| ==> order[j] < |pool|)
    requires s < |pool|
    ensures Unlinked(pool, order, i)[s]
            == if s == order[i] then Node(0, 0, 0, 0, 0, 0, 0, NULL)
               else pool[s].(next := Unlinked(pool, order, i)[s].next)
  {
  }

  lemma RemovePoolOk(pool: seq<Node>, head: int, order: seq<nat>, i: nat)
    requires PoolOk(pool, head, order) && i < |order|
    ensures PoolOk(Unlinked(pool, order, i), if i == 0 then LinkTo(order, 1) else head, Without(order, i))
  {
    UnlinkChained(pool, head, order, i);
    WithoutMembers(order, i);
    forall s | 0 <= s < SLOTS
      ensures var n := Unlinked(pool, order, i)[s];
              n.location < SLOTS && (n.location != 0 <==> s in Without(order, i))
    {
      UnlinkedKeeps(pool, order, i, s);
    }
  }

  lemma RemoveConsistent(pool: seq<Node>, screen: seq<byte>, head: int, order: seq<nat>,
                         added: seq<Node>, age: seq<nat>, drew: set<nat>, i: nat)
    requires Consistent(pool, screen, head, order, added, age, drew) && i < |order|
    ensures Consistent(Unlinked(pool, order, i), screen, if i == 0 then LinkTo(order, 1) else head,
                       Without(order, i), added, age, drew - {order[i]})
  {
    RemovePoolOk(pool, head, order, i);
    var pool' := Unlinked(pool, order, i);
    forall s | 0 <= s < SLOTS && pool'[s].location != 0
      ensures InPhase(pool', added, age, s)
    {
      UnlinkedKeeps(pool, order, i, s);
      assert InPhase(pool, added, age, s);
    }
    forall s | s in drew - {order[i]}
      ensures s < SLOTS && pool'[s].location != 0 && Shown(pool', screen, s)
    {
      UnlinkedKeeps(pool, order, i, s);
    }
  }

  /**
   Removing does not redraw.  Of two nodes at one location, at whatever age, the one
   that drew last is removed: the screen shows the other as it is if and only if both
   stand at the same character.
   */
  lemma RemovedNodeStaysShownIff(pool: seq<Node>, screen: seq<byte>, head: int, order: seq<nat>,
                                 added: seq<Node>, age: seq<nat>, drew: set<nat>, i: nat, t: nat)
    requires Consistent(pool, screen, head, order, added, age, drew)
    requires i < |order| && order[i] in drew
    requires t in order && t != order[i] && t < SLOTS && pool[t].location == pool[order[i]].location
    ensures Shown(Unlinked(pool, order, i), screen, t) <==> ShownChar(pool[order[i]]) == ShownChar(pool[t])
  {
    UnlinkedKeeps(pool, order, i, t);
    assert Shown(pool, screen, order[i]);
  }

  /** For instance: two nodes are added at a free location and the location is removed,
      which takes away the second.  The first is alone there again. */
  lemma RemoveDoesNotRedraw(pool: seq<Node>, screen: seq<byte>, head: int, order: seq<nat>,
                            added: seq<Node>, age: seq<nat>, drew: set<nat>, t: nat, u: nat, a: Node, b: Node)
    requires Consistent(pool, screen, head, order, added, age, drew)
    requires t < SLOTS && u < SLOTS && t != u && pool[t].location == pool[u].location == 0
    requires 0 != a.location == b.location < SLOTS
    requires forall s :: 0 <= s < SLOTS ==> pool[s].location != a.location
    ensures var list := [u] + ([t] + order); forall j :: 0 <= j < |list| ==> list[j] < |pool|
    ensures var l, n, m := a.location, AddedNode(a, head), AddedNode(b, t);
            var both, drawn := pool[t := n][u := m], screen[2 * l := a.onChar][2 * l := b.onChar];
            var after := Unlinked(both, [u] + ([t] + order), 0);
            && Find(both, [u] + ([t] + order), l) == 0
            && PoolOk(after, t, [t] + order)
            && Alone(after, t) && (Shown(after, drawn, t) <==> a.onChar == b.onChar)
  {
    var l, n, m := a.location, AddedNode(a, head), AddedNode(b, t);
    var first, one, shown := [t] + order, pool[t := n], screen[2 * l := a.onChar];
    var both, two, drawn := [u] + first, one[u := m], shown[2 * l := b.onChar];
    var drew1 := DrewWith(pool, drew, t, l);
    AddConsistent(pool, screen, head, order, added, age, drew, t, n);
    AddConsistent(one, shown, t, first, added[t := n], age[t := 0], drew1, u, m);
    assert both[1] == t && t in both;
    RemovedNodeStaysShownIff(two, drawn, u, both, added[t := n][u := m], age[t := 0][u := 0],
                             DrewWith(one, drew1, u, l), 0, t);
    OneIsLeft(pool, two, both, t, u, l);
    RemovePoolOk(two, u, both, 0);
    assert Without(both, 0) == first;
  }

  /** Of two nodes with a location of their own, one is removed: the other is alone. */
  lemma OneIsLeft(pool: seq<Node>, two: seq<Node>, both: seq<nat>, t: nat, u: nat, l: word)
    requires PoolOk(two, u, both) && |pool| == SLOTS && t < SLOTS && u < SLOTS && t != u
    requires both != [] && both[0] == u && two[t].location == two[u].location == l
    requires forall s :: 0 <= s < SLOTS && s != t && s != u ==> two[s] == pool[s] && pool[s].location != l
    ensures Alone(Unlinked(two, both, 0), t) && Find(two, both, l) == 0
  {
    forall s | 0 <= s < SLOTS
      ensures s == u ==> Unlinked(two, both, 0)[s].location == 0
      ensures s != u ==> Unlinked(two, both, 0)[s].location == two[s].location
    {
      UnlinkedKeeps(two, both, 0, s);
    }
  }

  /** For instance, on the empty pool. */
  lemma RemovedNodeLeavesItsCharacter()
    ensures var free := Node(0, 0, 0, 0, 0, 0, 0, NULL);
            var a, b := free.(location := 5, onChar := 65), free.(location := 5, onChar := 66);
            var pool, screen := seq(SLOTS, _ => free), seq(2 * SLOTS, _ => 0);
            var both := pool[0 := AddedNode(a, NULL)][1 := AddedNode(b, 0)];
            var after := Unlinked(both, [1, 0], 0);
            && PoolOk(after, 0, [0]) && Alone(after, 0)
            && !Shown(after, screen[10 := 65][10 := 66], 0)
  {
    var free := Node(0, 0, 0, 0, 0, 0, 0, NULL);
    var a, b := free.(location := 5, onChar := 65), free.(location := 5, onChar := 66);
    var pool, screen := seq(SLOTS, _ => free), seq(2 * SLOTS, _ => 0);
    assert Consistent(pool, screen, NULL, [], pool, seq(SLOTS, _ => 0), {});
    RemoveDoesNotRedraw(pool, screen, NULL, [], pool, seq(SLOTS, _ => 0), {}, 0, 1, a, b);
    assert [1] + ([0] + []) == [1, 0] && [0] + [] == [0];
  }

  // ------------------------------------------------------------------------ ticking

  /** The pool after the first `i` nodes of the list have been ticked. */
  function TickedUpTo(pool: seq<Node>, order: seq<nat>, i: nat): (r: seq<Node>)
    requires i <= |order|
    ensures |r| == |pool|
  {
    seq(|pool|, s requires 0 <= s < |pool| => if s in order[..i] then TickNode(pool[s]) else pool[s])
  }

  /** Every live node ticked once. */
  function Ticked(pool: seq<Node>): (r: seq<Node>)
    ensures |r| == |pool|
  {
    seq(|pool|, s requires 0 <= s < |pool| => if pool[s].location != 0 then TickNode(pool[s]) else pool[s])
  }

  function Older(age: seq<nat>): (r: seq<nat>)
    ensures |r| == |age|
  {
    seq(|age|, s requires 0 <= s < |age| => age[s] + 1)
  }

  lemma TickedOneMore(pool: seq<Node>, order: seq<nat>, i: nat)
    requires Distinct(order) && i < |order| && order[i] < |pool|
    ensures order[i] !in order[..i]
    ensures TickedUpTo(pool, order, i + 1)
            == TickedUpTo(pool, order, i)[order[i] := TickNode(pool[order[i]])]
  {
    var a, b := TickedUpTo(pool, order, i + 1), TickedUpTo(pool, order, i)[order[i] := TickNode(pool[order[i]])];
    assert order[..i + 1] == order[..i] + [order[i]];
    forall s | 0 <= s < |pool|
      ensures a[s] == b[s]
    {
    }
  }

  lemma AllTicked(pool: seq<Node>, head: int, order: seq<nat>)
    requires PoolOk(pool, head, order)
    ensures TickedUpTo(pool, order, |order|) == Ticked(pool)
  {
    assert order[..|order|] == order;
    var a, b := TickedUpTo(pool, order, |order|), Ticked(pool);
    forall s | 0 <= s < SLOTS
      ensures a[s] == b[s]
    {
    }
  }

  predicate SameLinks(pool: seq<Node>, pool': seq<Node>) {
    |pool| == |pool'| && forall s :: 0 <= s < |pool| ==>
      pool'[s].location == pool[s].location && pool'[s].next == pool[s].next
  }

  lemma SameLinksOk(pool: seq<Node>, pool': seq<Node>, head: int, order: seq<nat>)
    requires PoolOk(pool, head, order) && SameLinks(pool, pool')
    ensures PoolOk(pool', head, order)
  {
    assert forall i :: 0 <= i < |order| ==> pool'[order[i]].next == pool[order[i]].next;
  }

  lemma TickInPhase(pool: seq<Node>, added: seq<Node>, age: seq<nat>, s: nat)
    requires InPhase(pool, added, age, s) && pool[s].location != 0
    ensures InPhase(Ticked(pool), added, Older(age), s)
  {
    PhaseAdvances(added[s], age[s]);
  }

  /** Which slots drew last at their location once slot `t` has ticked. */
  function DrewAfterTick(pool: seq<Node>, drew: set<nat>, t: nat): set<nat>
    requires t < |pool|
  {
    if StillCounting(pool[t].countdown) then drew else DrewWith(pool, drew, t, pool[t].location)
  }

  /** The same once the first `i` nodes of the list have ticked. */
  function DrewUpTo(pool: seq<Node>, order: seq<nat>, drew: set<nat>, i: nat): set<nat>
    requires i <= |order| && forall j :: 0 <= j < |order| ==> order[j] < |pool|
  {
    if i == 0 then drew else DrewAfterTick(pool, DrewUpTo(pool, order, drew, i - 1), order[i - 1])
  }

  /** Ticking one node and, when it toggles, drawing it keeps every node that is the
      last to have drawn at its location drawn as it is. */
  lemma TickKeepsShown(pool: seq<Node>, screen: seq<byte>, t: nat, drew: set<nat>, s: nat)
    requires t < |pool| && pool[t].location != 0 && 2 * pool[t].location < |screen|
    requires s in DrewAfterTick(pool, drew, t)
    requires s in drew ==> s < |pool| && Shown(pool, screen, s)
    ensures Shown(pool[t := TickNode(pool[t])], Drawn(screen, pool[t]), s)
  {
  }

  function Drawn(screen: seq<byte>, n: Node): seq<byte>
    requires 2 * n.location < |screen|
  {
    if StillCounting(n.countdown) then screen else screen[2 * n.location := ShownChar(TickNode(n))]
  }

  /** The nodes of a list have their places on the screen. */
  predicate Placed(pool: seq<Node>, order: seq<nat>) {
    forall j :: 0 <= j < |order| ==> order[j] < |pool| && pool[order[j]].location < SLOTS
  }

  /** The screen once the first `i` nodes of the list have ticked. */
  function DrawnUpTo(pool: seq<Node>, order: seq<nat>, screen: seq<byte>, i: nat): (r: seq<byte>)
    requires i <= |order| && |screen| == 2 * SLOTS
    requires Placed(pool, order)
    ensures |r| == |screen|
  {
    if i == 0 then screen else Drawn(DrawnUpTo(pool, order, screen, i - 1), pool[order[i - 1]])
  }

  /** Of the first `i` nodes one toggles and has its character at this byte of the screen. */
  predicate Toggled(pool: seq<Node>, order: seq<nat>, i: nat, at: nat) {
    exists j :: 0 <= j < i <= |order| && order[j] < |pool|
                && 2 * pool[order[j]].location == at && !StillCounting(pool[order[j]].countdown)
  }

  /** A tick draws nothing but the characters of nodes that toggle: colours and all other
      cells stay. */
  lemma {:induction false} OnlyToggledAreDrawn(pool: seq<Node>, order: seq<nat>, screen: seq<byte>, i: nat, at: nat)
    requires i <= |order| && |screen| == 2 * SLOTS && at < 2 * SLOTS && !Toggled(pool, order, i, at)
    requires Placed(pool, order)
    ensures DrawnUpTo(pool, order, screen, i)[at] == screen[at]
  {
    if i > 0 {
      assert !Toggled(pool, order, i - 1, at);
      OnlyToggledAreDrawn(pool, order, screen, i - 1, at);
    }
  }

  /** At odd bytes, the colours, no node has its character. */
  lemma ColoursStay(pool: seq<Node>, order: seq<nat>, screen: seq<byte>, i: nat, location: nat)
    requires i <= |order| && |screen| == 2 * SLOTS && location < SLOTS
    requires Placed(pool, order)
    ensures DrawnUpTo(pool, order, screen, i)[2 * location + 1] == screen[2 * location + 1]
  {
    OnlyToggledAreDrawn(pool, order, screen, i, 2 * location + 1);
  }

  lemma NextTicked(p0: seq<Node>, pool: seq<Node>, order: seq<nat>, i: nat)
    requires Distinct(order) && i < |order| && order[i] < |p0| && pool == TickedUpTo(p0, order, i)
    ensures pool[order[i]] == p0[order[i]]
    ensures pool[order[i] := TickNode(pool[order[i]])] == TickedUpTo(p0, order, i + 1)
    ensures forall s :: 0 <= s < |p0| ==> pool[s].location == p0[s].location
  {
    TickedOneMore(p0, order, i);
  }

  lemma OnListIsLive(pool: seq<Node>, head: int, order: seq<nat>, i: nat)
    requires PoolOk(pool, head, order) && i < |order|
    ensures order[i] < SLOTS && 0 != pool[order[i]].location < SLOTS
    ensures Distinct(order) && pool[order[i]].next == LinkTo(order, i + 1)
  {
    assert order[i] in order;
  }

  lemma AllKeepShown(p0: seq<Node>, pool: seq<Node>, screen: seq<byte>, t: nat, drew: set<nat>)
    requires |p0| == |pool| && t < |pool| && pool[t] == p0[t] && p0[t].location != 0 && 2 * p0[t].location < |screen|
    requires forall s :: 0 <= s < |pool| ==> pool[s].location == p0[s].location
    requires forall s :: s in drew ==> s < |pool| && p0[s].location != 0 && Shown(pool, screen, s)
    ensures forall s :: s in DrewAfterTick(p0, drew, t) ==> s < |pool| && p0[s].location != 0
    ensures forall s :: s in DrewAfterTick(p0, drew, t) ==>
      Shown(pool[t := TickNode(pool[t])], Drawn(screen, pool[t]), s)
  {
    assert DrewAfterTick(p0, drew, t) == DrewAfterTick(pool, drew, t);
    forall s | s in DrewAfterTick(p0, drew, t)
      ensures Shown(pool[t := TickNode(pool[t])], Drawn(screen, pool[t]), s)
    {
      TickKeepsShown(pool, screen, t, drew, s);
    }
  }

  lemma TickConsistent(pool: seq<Node>, screen: seq<byte>, screen': seq<byte>, head: int, order: seq<nat>,
                       added: seq<Node>, age: seq<nat>, drew: set<nat>, drew': set<nat>)
    requires Consistent(pool, screen, head, order, added, age, drew)
    requires |screen'| == 2 * SLOTS
    requires forall s :: s in drew' ==> s < SLOTS && pool[s].location != 0 && Shown(Ticked(pool), screen', s)
    ensures Consistent(Ticked(pool), screen', head, order, added, Older(age), drew')
  {
    var pool' := Ticked(pool);
    SameLinksOk(pool, pool', head, order);
    forall s | 0 <= s < SLOTS && pool'[s].location != 0
      ensures InPhase(pool', added, Older(age), s)
    {
      assert InPhase(pool, added, age, s);
      TickInPhase(pool, added, age, s);
    }
  }

  /** The slots of a list are live. */
  predicate Listed(pool: seq<Node>, order: seq<nat>) {
    forall j :: 0 <= j < |order| ==> order[j] < |pool| && pool[order[j]].location != 0
  }

  /** A node alone at its location has drawn last there after a tick exactly if it had
      before or has just toggled. */
  lemma {:induction false} LonerDrewIff(pool: seq<Node>, order: seq<nat>, drew: set<nat>, i: nat, s: nat)
    requires Listed(pool, order) && i <= |order| && Alone(pool, s)
    ensures s in DrewUpTo(pool, order, drew, i)
            <==> s in drew || (s in order[..i] && !StillCounting(pool[s].countdown))
  {
    if i > 0 {
      LonerDrewIff(pool, order, drew, i - 1, s);
      LonerDrewStep(pool, DrewUpTo(pool, order, drew, i - 1), order[i - 1], s);
      LastOfPrefix(order, i, s);
    }
  }

  lemma LastOfPrefix(order: seq<nat>, i: nat, s: nat)
    requires 0 < i <= |order|
    ensures s in order[..i] <==> s in order[..i - 1] || s == order[i - 1]
  {
    assert order[..i] == order[..i - 1] + [order[i - 1]];
  }

  lemma LonerDrewStep(pool: seq<Node>, drew: set<nat>, t: nat, s: nat)
    requires t < |pool| && pool[t].location != 0 && Alone(pool, s)
    ensures s in DrewAfterTick(pool, drew, t) <==> s in drew || (s == t && !StillCounting(pool[t].countdown))
  {
  }

  /** The pool, and the slots that drew last, after `k` ticks. */
  function PoolAfter(pool: seq<Node>, k: nat): (r: seq<Node>)
    ensures |r| == |pool|
  {
    if k == 0 then pool else Ticked(PoolAfter(pool, k - 1))
  }

  function DrewAfter(pool: seq<Node>, order: seq<nat>, drew: set<nat>, k: nat): set<nat>
    requires forall j :: 0 <= j < |order| ==> order[j] < |pool|
  {
    if k == 0 then drew else DrewUpTo(PoolAfter(pool, k - 1), order, DrewAfter(pool, order, drew, k - 1), |order|)
  }

  lemma {:induction false} PoolAfterAt(pool: seq<Node>, k: nat, s: nat)
    requires s < |pool|
    ensures PoolAfter(pool, k)[s].location == pool[s].location
    ensures pool[s].location != 0 ==> PoolAfter(pool, k)[s] == TickTimes(pool[s], k)
  {
    if k > 0 {
      PoolAfterAt(pool, k - 1, s);
      assert PoolAfter(pool, k)[s] == Ticked(PoolAfter(pool, k - 1))[s];
    }
  }

  lemma LonerStaysAlone(pool: seq<Node>, order: seq<nat>, k: nat, s: nat)
    requires Listed(pool, order) && Alone(pool, s)
    ensures Listed(PoolAfter(pool, k), order) && Alone(PoolAfter(pool, k), s)
  {
    forall t | 0 <= t < |pool|
      ensures PoolAfter(pool, k)[t].location == pool[t].location
    {
      PoolAfterAt(pool, k, t);
    }
  }

  /** A node alone at its location is shown from its next toggle on. */
  lemma {:induction false} LonerIsShownFromToggle(
    pool: seq<Node>, order: seq<nat>, drew: set<nat>, k: nat, j: nat, s: nat)
    requires Listed(pool, order) && s in order && Alone(pool, s) && j < k
    requires pool[s].location != 0 && !StillCounting(TickTimes(pool[s], j).countdown)
    ensures s in DrewAfter(pool, order, drew, k)
  {
    LonerStaysAlone(pool, order, k - 1, s);
    PoolAfterAt(pool, k - 1, s);
    LonerKeepsDrawing(PoolAfter(pool, k - 1), order, DrewAfter(pool, order, drew, k - 1), s);
    if j < k - 1 {
      LonerIsShownFromToggle(pool, order, drew, k - 1, j, s);
    }
  }

  lemma LonerKeepsDrawing(pool: seq<Node>, order: seq<nat>, drew: set<nat>, s: nat)
    requires Listed(pool, order) && s in order && Alone(pool, s)
    ensures s in DrewUpTo(pool, order, drew, |order|) <==> s in drew || !StillCounting(pool[s].countdown)
  {
    LonerDrewIff(pool, order, drew, |order|, s);
    assert order[..|order|] == order;
  }

  /** How long a node can go without toggling. */
  function Longest(n: Node): nat {
    if Lasts(n.onLength) < Lasts(n.offLength) then Lasts(n.offLength) else Lasts(n.onLength)
  }

  lemma {:induction false} TicksLater(n: Node, m: Node, ticks: nat, j: nat)
    requires m == NodeAfter(n, ticks).(next := m.next)
    ensures TickTimes(m, j) == NodeAfter(n, ticks + j).(next := m.next)
  {
    if j > 0 {
      TicksLater(n, m, ticks, j - 1);
      PhaseAdvances(n, ticks + j - 1);
    }
  }

  /** From position `q` of its period, so many ticks leave a node where it is. */
  function Wait(n: Node, q: nat): (j: nat)
    requires q < Period(n)
    ensures j < Longest(n) && q + j < Period(n)
  {
    if q < Lasts(n.onLength) then Lasts(n.onLength) - 1 - q else Period(n) - 1 - q
  }

  lemma TogglesAfterWait(n: Node, q: nat)
    requires q < Period(n)
    ensures !StillCounting(NodeAt(n, q + Wait(n, q)).countdown)
  {
    if q < Lasts(n.onLength) {
      CountStep(n.onLength, q + Wait(n, q));
    } else {
      CountStep(n.offLength, q + Wait(n, q) - Lasts(n.onLength));
    }
  }

  lemma SamePeriod(n: Node, ticks: nat, j: nat)
    requires ticks % Period(n) + j < Period(n)
    ensures (ticks + j) % Period(n) == ticks % Period(n) + j
  {
    ModPlus(ticks, Period(n), j);
  }

  /** Every node toggles before its longer length is over. */
  lemma TogglesInTime(n: Node, m: Node, ticks: nat) returns (j: nat)
    requires m == NodeAfter(n, ticks).(next := m.next)
    ensures j < Longest(n) && !StillCounting(TickTimes(m, j).countdown)
  {
    j := Wait(n, ticks % Period(n));
    SamePeriod(n, ticks, j);
    TogglesAfterWait(n, ticks % Period(n));
    TicksLater(n, m, ticks, j);
  }

  /**
   A node that is alone at its location - whatever was there before - is the last to
   have drawn there, hence shown as it is, at the latest when its longer length is over.
   */
  lemma LonerIsShownInTime(pool: seq<Node>, screen: seq<byte>, head: int, order: seq<nat>,
                           added: seq<Node>, age: seq<nat>, drew: set<nat>, s: nat, k: nat)
    requires Consistent(pool, screen, head, order, added, age, drew)
    requires s in order && Alone(pool, s) && k >= Longest(added[s])
    ensures s in DrewAfter(pool, order, drew, k)
  {
    LiveIsInPhase(pool, screen, head, order, added, age, drew, s);
    var j := TogglesInTime(added[s], pool[s], age[s]);
    AllListed(pool, head, order);
    LonerIsShownFromToggle(pool, order, drew, k, j, s);
  }

  lemma AllListed(pool: seq<Node>, head: int, order: seq<nat>)
    requires PoolOk(pool, head, order)
    ensures Listed(pool, order) && forall s :: s in order ==> s < |pool| && pool[s].location != 0
  {
    forall j | 0 <= j < |order|
      ensures order[j] < |pool| && pool[order[j]].location != 0
    {
      OnListIsLive(pool, head, order, j);
    }
  }

  lemma LiveShowsPhase(pool: seq<Node>, screen: seq<byte>, head: int, order: seq<nat>,
                       added: seq<Node>, age: seq<nat>, drew: set<nat>, s: nat, on: bool)
    requires Consistent(pool, screen, head, order, added, age, drew) && s in order
    requires s < SLOTS && on == ShowsOn(added[s], age[s])
    ensures pool[s].location < SLOTS && pool[s].status == if on then 1 else 0
    ensures s in drew ==> screen[2 * pool[s].location] == if on then pool[s].onChar else pool[s].offChar
  {
    LiveIsInPhase(pool, screen, head, order, added, age, drew, s);
    PhaseStatus(added[s], age[s], pool[s], on);
  }

  lemma LiveIsInPhase(pool: seq<Node>, screen: seq<byte>, head: int, order: seq<nat>,
                      added: seq<Node>, age: seq<nat>, drew: set<nat>, s: nat)
    requires Consistent(pool, screen, head, order, added, age, drew) && s in order
    ensures s < SLOTS && pool[s].location < SLOTS
    ensures pool[s] == NodeAfter(added[s], age[s]).(next := pool[s].next)
    ensures s in drew ==> screen[2 * pool[s].location] == ShownChar(pool[s])
  {
    var i :| 0 <= i < |order| && order[i] == s;
    assert InPhase(pool, added, age, s);
    assert s in drew ==> Shown(pool, screen, s);
  }

  class BlinkList {
    const pool: array<Node>
    const screen: array<byte>      // character and attribute bytes, alternating
    var head: int
    ghost var order: seq<nat>      // slots, most recently added first
    ghost var added: seq<Node>     // each live slot as it was added
    ghost var age: seq<nat>        // ticks each live slot has seen
    ghost var drew: set<nat>       // slots that were the last to draw at their location

    ghost predicate Valid()
      reads this, pool, screen
    {
      Consistent(pool[..], screen[..], head, order, added, age, drew)
    }

    /** `main` clears the pool before anything is added. */
    constructor ()
      ensures Valid() && order == [] && fresh(pool) && fresh(screen)
      ensures pool.Length == 2000 && screen.Length == 4000
    {
      pool := new Node[SLOTS](_ => Node(0, 0, 0, 0, 0, 0, 0, NULL));
      screen := new byte[2 * SLOTS](_ => 0);
      head, order, drew := NULL, [], {};
      added := seq(SLOTS, _ => Node(0, 0, 0, 0, 0, 0, 0, NULL));
      age := seq(SLOTS, _ => 0);
    }

    /** What a viewer sees: a node that has lived `age` ticks is on exactly in the
        first part of its period, and if it was the last to draw at its location the
        screen shows the matching character there. */
    lemma NodeShowsItsPhase(s: nat)
      requires Valid() && s in order && s < SLOTS
      ensures pool[s].status == if ShowsOn(added[s], age[s]) then 1 else 0
      ensures s in drew ==>
                pool[s].location < SLOTS
                && screen[2 * pool[s].location]
                   == if ShowsOn(added[s], age[s]) then pool[s].onChar else pool[s].offChar
    {
      LiveShowsPhase(pool[..], screen[..], head, order, added, age, drew, s, ShowsOn(added[s], age[s]));
    }

    /** `mp1_poke` */
    method Poke(location: word, c: byte)
      requires screen.Length == 2 * SLOTS && location < SLOTS
      modifies screen
      ensures screen[..] == old(screen[..])[2 * location := c]
    {
      screen[2 * location] := c;
    }

    /** `mp1_malloc`: the first slot whose location is 0. */
    method Malloc() returns (r: int)
      requires pool.Length == SLOTS
      ensures r == NULL <==> forall s :: 0 <= s < SLOTS ==> pool[s].location != 0
      ensures r != NULL ==> 0 <= r < SLOTS && pool[r].location == 0
      ensures r != NULL ==> forall s :: 0 <= s < r ==> pool[s].location != 0
    {
      var i := 0;
      while i < SLOTS
        invariant 0 <= i <= SLOTS && forall s :: 0 <= s < i ==> pool[s].location != 0
      {
        if pool[i].location == 0 {
          return i;
        }
        i := i + 1;
      }
      return NULL;
    }

    /** `mp1_find_helper` */
    method FindHelper(location: word) returns (r: int)
      requires Valid()
      ensures r == LinkTo(order, Find(pool[..], order, location))
    {
      r := head;
      ghost var i := 0;
      while r != NULL
        invariant 0 <= i <= |order| && r == LinkTo(order, i)
        invariant Find(pool[..], order, location) == i + Find(pool[..], order[i..], location)
        decreases |order| - i
      {
        assert order[i..][0] == order[i] && order[i..][1..] == order[i + 1..];
        if pool[r].location == location {
          return;
        }
        r := pool[r].next;
        i := i + 1;
      }
    }

    /** `mp1_ioctl_add` with the structure `n`: the node goes to the front of the
        list, on, and is drawn. */
    method Add(n: Node) returns (r: int)
      requires Valid() && n.location != 0
      modifies this, pool, screen
      ensures Valid()
      ensures r == if n.location >= SLOTS || (forall s :: 0 <= s < SLOTS ==> s in old(order)) then -1 else 0
      ensures r == -1 ==> order == old(order) && pool[..] == old(pool[..]) && screen[..] == old(screen[..])
                          && drew == old(drew) && age == old(age) && added == old(added)
      ensures r == 0 ==>
                && |order| == |old(order)| + 1 && order[1..] == old(order) && order[0] !in old(order)
                && order[0] < SLOTS && age == old(age)[order[0] := 0]
                && added == old(added)[order[0] := AddedNode(n, old(head))]
                && pool[..] == old(pool[..])[order[0] := AddedNode(n, old(head))]
                && screen[..] == old(screen[..])[2 * n.location := n.onChar]
                && drew == DrewWith(old(pool[..]), old(drew), order[0], n.location)
    {
      if n.location >= SLOTS {
        return -1;
      }
      var slot := Malloc();
      if slot == NULL {
        return -1;
      }
      var node := AddedNode(n, head);
      AddConsistent(pool[..], screen[..], head, order, added, age, drew, slot, node);
      drew := DrewWith(pool[..], drew, slot, n.location);
      order := [slot] + order;
      added := added[slot := node];
      age := age[slot := 0];
      pool[slot] := node;
      head := slot;
      Poke(n.location, n.onChar);
      return 0;
    }

    /** `mp1_ioctl_remove`: unlink and clear the most recently added node with this
        location; the rest of the list keeps its order. */
    method Remove(arg: nat) returns (r: int)
      requires Valid()
      modifies this, pool
      ensures Valid() && age == old(age) && added == old(added)
      ensures var i := Find(old(pool[..]), old(order), arg % 0x1_0000);
              if i == |old(order)| then
                r == -1 && order == old(order) && pool[..] == old(pool[..]) && drew == old(drew)
              else
                && r == 0 && order == Without(old(order), i) && drew == old(drew) - {old(order)[i]}
                && pool[..] == Unlinked(old(pool[..]), old(order), i)
    {
      var target := FindHelper(arg % 0x1_0000);
      if target == NULL {
        return -1;
      }
      ghost var i := Find(pool[..], order, arg % 0x1_0000);
      RemoveNode(target, i);
      return 0;
    }

    method RemoveNode(target: nat, ghost i: nat)
      requires Valid() && i < |order| && order[i] == target
      modifies this`head, this`order, this`drew, pool
      ensures Valid() && order == Without(old(order), i) && drew == old(drew) - {target}
      ensures pool[..] == Unlinked(old(pool[..]), old(order), i)
    {
      RemoveConsistent(pool[..], screen[..], head, order, added, age, drew, i);
      Unlink(target, i);
      order := Without(order, i);
      drew := drew - {target};
    }

    /** Bypass the node in the link that leads to it, and clear its slot. */
    method Unlink(target: nat, ghost i: nat)
      requires Valid() && i < |order| && order[i] == target
      modifies this`head, pool
      ensures pool[..] == Unlinked(old(pool[..]), order, i)
      ensures head == if i == 0 then LinkTo(order, 1) else old(head)
    {
      var prev := FindLink(target, i);
      if prev == NULL {
        head := pool[target].next;
      } else {
        pool[prev] := pool[prev].(next := pool[target].next);
      }
      pool[target] := Node(0, 0, 0, 0, 0, 0, 0, NULL);
    }

    /** Which link leads to `target`: null for the list head, else the slot whose
        `next` it is.  The search ends because `target` is on the list. */
    method FindLink(target: nat, ghost i: nat) returns (prev: int)
      requires Valid() && i < |order| && order[i] == target
      ensures prev == if i == 0 then NULL else order[i - 1]
    {
      prev := NULL;
      var at := head;
      ghost var k := 0;
      while at != target
        invariant 0 <= k <= i && at == order[k] && prev == if k == 0 then NULL else order[k - 1]
        decreases i - k
      {
        prev := at;
        at := pool[at].next;
        k := k + 1;
      }
    }

    /** `mp1_rtc_tasklet` on one node. */
    method TickSlot(t: nat)
      requires pool.Length == SLOTS && screen.Length == 2 * SLOTS && t < SLOTS && pool[t].location < SLOTS
      modifies pool, screen
      ensures pool[..] == old(pool[..])[t := TickNode(old(pool[t]))]
      ensures screen[..] == Drawn(old(screen[..]), old(pool[t]))
    {
      pool[t] := pool[t].(countdown := (pool[t].countdown - 1) % 0x1_0000);
      if 0 < pool[t].countdown < 0x8000 {
        return;
      }
      if pool[t].status % 2 == 1 {
        Poke(pool[t].location, pool[t].offChar);
        pool[t] := pool[t].(countdown := pool[t].offLength, status := pool[t].status - 1);
      } else {
        Poke(pool[t].location, pool[t].onChar);
        pool[t] := pool[t].(countdown := pool[t].onLength, status := pool[t].status + 1);
      }
    }

    /** `mp1_rtc_tasklet`: every node on the list counts down once. */
    method Tick()
      requires Valid()
      modifies this`age, this`drew, pool, screen
      ensures Valid() && pool[..] == Ticked(old(pool[..])) && age == Older(old(age))
      ensures drew == DrewUpTo(old(pool[..]), order, old(drew), |order|)
      ensures Placed(old(pool[..]), order)
      ensures screen[..] == DrawnUpTo(old(pool[..]), order, old(screen[..]), |order|)
    {
      ghost var p0, s0, drew0 := pool[..], screen[..], drew;
      TickAll();
      TickConsistent(p0, s0, screen[..], head, order, added, age, drew0, drew);
      age := Older(age);
    }

    /** Tick the `i`-th node of a list of which the nodes before it have been ticked; pool,
        screen and `drew` were `p0`, `s0` and `drew0` at the start. */
    method TickOne(t: nat, ghost i: nat, ghost p0: seq<Node>, ghost s0: seq<byte>, ghost drew0: set<nat>)
      requires pool.Length == SLOTS && screen.Length == 2 * SLOTS
      requires PoolOk(p0, head, order) && i < |order| && order[i] == t && Placed(p0, order)
      requires Halfway(i, p0, s0, drew0)
      modifies this`drew, pool, screen
      ensures Halfway(i + 1, p0, s0, drew0) && pool[t].next == LinkTo(order, i + 1)
    {
      OnListIsLive(p0, head, order, i);
      NextTicked(p0, pool[..], order, i);
      AllKeepShown(p0, pool[..], screen[..], t, drew);
      TickSlot(t);
      drew := DrewAfterTick(p0, drew, t);
    }

    /** The first `i` nodes of the list have ticked. */
    ghost predicate Halfway(i: nat, p0: seq<Node>, s0: seq<byte>, drew0: set<nat>)
      requires Placed(p0, order)
      reads this, pool, screen
    {
      && i <= |order| && |p0| == pool.Length == SLOTS && |s0| == 2 * SLOTS
      && pool[..] == TickedUpTo(p0, order, i)
      && drew == DrewUpTo(p0, order, drew0, i)
      && screen[..] == DrawnUpTo(p0, order, s0, i)
      && forall s :: s in drew ==> s < SLOTS && p0[s].location != 0 && Shown(pool[..], screen[..], s)
    }

    method TickAll()
      requires pool.Length == SLOTS && screen.Length == 2 * SLOTS && PoolOk(pool[..], head, order)
      requires forall s :: s in drew ==> s < SLOTS && pool[s].location != 0 && Shown(pool[..], screen[..], s)
      modifies this`drew, pool, screen
      ensures pool[..] == Ticked(old(pool[..])) && screen.Length == 2 * SLOTS
      ensures Placed(old(pool[..]), order)
      ensures drew == DrewUpTo(old(pool[..]), order, old(drew), |order|)
      ensures screen[..] == DrawnUpTo(old(pool[..]), order, old(screen[..]), |order|)
      ensures forall s :: s in drew ==> s < SLOTS && old(pool[..])[s].location != 0 && Shown(pool[..], screen[..], s)
    {
      ghost var p0, s0, drew0 := pool[..], screen[..], drew;
      assert Placed(p0, order);
      var at := head;
      ghost var i := 0;
      while at != NULL
        invariant 0 <= i <= |order| && at == LinkTo(order, i)
        invariant Halfway(i, p0, s0, drew0)
        decreases |order| - i
      {
        TickOne(at, i, p0, s0, drew0);
        at := pool[at].next;
        i := i + 1;
      }
      AllTicked(p0, head, order);
    }
  }
}
