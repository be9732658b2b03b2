/**
 Each pool's list as a stack. A push is harmless to the threads that are about to swing the head if
 none of them loaded that very node and a different successor; in runs of harmless pushes every list is
 a finite stack without repetition and every node has exactly one place.
 */
module NodeStacks {
  import opened Bags
  import opened NodePool

  /** The list that starts at `head` holds exactly `st`, in order. */
  ghost predicate Chain(nodes: map<nat, Node>, head: nat, st: seq<nat>)
    decreases |st|
  {
    if st == [] then head == 0
    else head == st[0] && head != 0 && head in nodes && Chain(nodes, nodes[head].next, st[1..])
  }

  /** The stack of a list is determined by the list. */
  lemma {:induction false} ChainIsUnique(nodes: map<nat, Node>, head: nat, a: seq<nat>, b: seq<nat>)
    requires Chain(nodes, head, a) && Chain(nodes, head, b)
    ensures a == b
    decreases |a|
  {
    if a != [] && b != [] {
      ChainIsUnique(nodes, nodes[head].next, a[1..], b[1..]);
      assert a == [a[0]] + a[1..] && b == [b[0]] + b[1..];
    }
  }

  lemma {:induction false} ChainFrame(nodes: map<nat, Node>, nodes': map<nat, Node>, head: nat, st: seq<nat>)
    requires Chain(nodes, head, st)
    requires forall n | n in st && n in nodes :: n in nodes' && nodes'[n].next == nodes[n].next
    ensures Chain(nodes', head, st)
    decreases |st|
  {
    if st != [] {
      ChainFrame(nodes, nodes', nodes[head].next, st[1..]);
    }
  }

  // ---- who has which node

  /** The node a thread carries between the list and a caller, 0 for none. */
  function Carries(pc: Pc): nat {
    match pc
    case TrackPop(_, n) => n
    case TrackAlloc(_, n) => n
    case LoadTop(n) => n
    case StoreNext(n, _) => n
    case CasPush(n, _) => n
    case _ => 0
  }

  function OneOrNone(n: nat): multiset<nat> { if n == 0 then multiset{} else multiset{n} }

  function Carried(pc: Pc): multiset<nat> { OneOrNone(Carries(pc)) }
  function Stacked(st: seq<nat>): multiset<nat> { multiset(st) }

  datatype Owners = Owners(stacked: multiset<nat>, carried: multiset<nat>)

  ghost function Books(s: State, stacks: seq<seq<nat>>): Owners {
    Owners(Bag(Stacked, stacks), Bag(Carried, s.threads))
  }

  /** Every node is in exactly one place: one list, one thread in between, or one caller. */
  ghost predicate OnceEach(s: State, o: Owners) {
    forall n: nat :: o.stacked[n] + o.carried[n] + s.held[n] == if n in s.nodes then 1 else 0
  }

  // ---- the abstract stacks

  predicate Pops(s: State, e: Event) {
    e.Advance? && e.t < |s.threads| && s.threads[e.t].CasPop? && s.threads[e.t].pool < |s.pools|
    && s.pools[s.threads[e.t].pool].head == s.threads[e.t].top
  }

  predicate Pushes(s: State, e: Event) {
    e.Advance? && e.t < |s.threads| && s.threads[e.t].CasPush? && s.threads[e.t].node in s.nodes
    && s.nodes[s.threads[e.t].node].pool < |s.pools|
    && s.pools[s.nodes[s.threads[e.t].node].pool].head == s.threads[e.t].top
  }

  /** A successful compare-and-swap is one push or pop of one stack; every other event is none. */
  function StackStep(s: State, e: Event, stacks: seq<seq<nat>>): (r: seq<seq<nat>>)
    requires |stacks| == |s.pools|
    ensures |r| == |stacks|
  {
    if Pops(s, e) then
      var j := s.threads[e.t].pool;
      stacks[j := if stacks[j] == [] then [] else stacks[j][1..]]
    else if Pushes(s, e) then
      var n := s.threads[e.t].node;
      var j := s.nodes[n].pool;
      stacks[j := [n] + stacks[j]]
    else stacks
  }

  /** What a thread about to swing a head believes about the link it loaded or stored. */
  ghost predicate LinkTrue(s: State, stacks: seq<seq<nat>>, pc: Pc) {
    match pc
    case CasPop(j, top, next) => j < |stacks| && top in stacks[j] && top in s.nodes ==> s.nodes[top].next == next
    case CasPush(n, top) => n in s.nodes ==> s.nodes[n].next == top
    case _ => true
  }

  ghost predicate Chains(s: State, stacks: seq<seq<nat>>) {
    |stacks| == |s.pools| && forall j | 0 <= j < |stacks| :: Chain(s.nodes, s.pools[j].head, stacks[j])
  }

  ghost predicate StacksOk(s: State, stacks: seq<seq<nat>>, o: Owners) {
    && MemoryOk(s)
    && Chains(s, stacks)
    && OnceEach(s, o)
    && (forall t | 0 <= t < |s.threads| :: LinkTrue(s, stacks, s.threads[t]))
  }

  /** The push of this event hides no change of successor from a thread about to pop the same node. */
  predicate HarmlessPush(s: State, e: Event) {
    Pushes(s, e) ==>
      forall t | 0 <= t < |s.threads| && s.threads[t].CasPop? && s.threads[t].top == s.threads[e.t].node ::
        s.threads[t].next == s.threads[e.t].top
  }

  /** What the books say about thread `t` and the stacks. */
  ghost predicate Tallied(s: State, stacks: seq<seq<nat>>, o: Owners, t: nat)
    requires t < |s.threads|
  {
    && (forall j, n | 0 <= j < |stacks| && n in stacks[j] :: n in o.stacked)
    && (Carries(s.threads[t]) != 0 ==> Carries(s.threads[t]) in o.carried)
    && (Carries(s.threads[t]) != 0 ==>
          forall u | 0 <= u < |s.threads| && u != t :: Carries(s.threads[u]) != Carries(s.threads[t]))
  }

  lemma BooksAreTallied(s: State, stacks: seq<seq<nat>>, t: nat)
    requires t < |s.threads| && OnceEach(s, Books(s, stacks))
    ensures Tallied(s, stacks, Books(s, stacks), t)
  {
    var o, c := Books(s, stacks), Carries(s.threads[t]);
    forall j, n | 0 <= j < |stacks| && n in stacks[j] ensures n in o.stacked {
      BagUpdate(Stacked, stacks, j, stacks[j]);
      assert n in Stacked(stacks[j]);
    }
    if c != 0 {
      BagUpdate(Carried, s.threads, t, Idle);
      assert c in Carried(s.threads[t]);
      forall u | 0 <= u < |s.threads| && u != t ensures Carries(s.threads[u]) != c {
        BagTwo(Carried, s.threads, if u < t then u else t, if u < t then t else u);
        assert o.stacked[c] + o.carried[c] + s.held[c] <= 1;
        assert (Carried(s.threads[u]) + Carried(s.threads[t]))[c] <= 1;
      }
    }
  }

  function Swap(m: multiset<nat>, a: nat, b: nat): multiset<nat> {
    if a == b then m
    else if a == 0 then m + multiset{b}
    else if b == 0 then m - multiset{a}
    else m - multiset{a} + multiset{b}
  }

  /** The books after the acting thread went from carrying `a` to carrying `b`, 0 for nothing. */
  function Rebook(s: State, e: Event, o: Owners, a: nat, b: nat): Owners
    requires e.t < |s.threads|
  {
    Owners(if Pops(s, e) then o.stacked - multiset{s.threads[e.t].top}
           else if Pushes(s, e) then o.stacked + multiset{s.threads[e.t].node}
           else o.stacked,
           Swap(o.carried, a, b))
  }

  /** What the acting thread carries after an event. */
  function CarriesNext(s: State, e: Event): nat
    requires e.t < |s.threads|
  {
    var pc := s.threads[e.t];
    match e
    case CallReturn(_, n) => n
    case Malloc(_, n, _) => n
    case Advance(_) =>
      if Pops(s, e) then pc.top
      else if Pushes(s, e) || pc.TrackPop? || pc.TrackAlloc? then 0
      else Carries(pc)
    case _ => Carries(pc)
  }

  // ---- preservation

  lemma HeadOfChain(s: State, stacks: seq<seq<nat>>, j: nat)
    requires Chains(s, stacks) && j < |stacks| && s.pools[j].head != 0
    ensures stacks[j] != [] && stacks[j][0] == s.pools[j].head && s.pools[j].head in s.nodes
    ensures Chain(s.nodes, s.nodes[s.pools[j].head].next, stacks[j][1..])
  {
  }

  /** A step of one thread that leaves heap, heads and owners alone. */
  lemma StackGoto(s: State, stacks: seq<seq<nat>>, o: Owners, t: nat, pc: Pc)
    requires StacksOk(s, stacks, o) && t < |s.threads| && PcOk(s, pc) && LinkTrue(s, stacks, pc)
    ensures StacksOk(Goto(s, t, pc), stacks, o)
  {
    var s' := Goto(s, t, pc);
    MemoryGoto(s, t, pc);
    forall i | 0 <= i < |s'.threads| ensures LinkTrue(s', stacks, s'.threads[i]) {
      assert LinkTrue(s, stacks, if i == t then pc else s.threads[i]);
    }
  }

  lemma StackPop(s: State, stacks: seq<seq<nat>>, o: Owners, t: nat)
    requires StacksOk(s, stacks, o) && t < |s.threads| && Pops(s, Advance(t)) && Tallied(s, stacks, o, t)
    ensures StacksOk(Move(s, t), StackStep(s, Advance(t), stacks),
                     Owners(o.stacked - multiset{s.threads[t].top}, o.carried + multiset{s.threads[t].top}))
  {
    var j, top, next := s.threads[t].pool, s.threads[t].top, s.threads[t].next;
    var s', stacks' := Move(s, t), StackStep(s, Advance(t), stacks);
    assert PcOk(s, s.threads[t]) && LinkTrue(s, stacks, s.threads[t]);
    MemoryMove(s, t);
    HeadOfChain(s, stacks, j);
    assert top in stacks[j];
    forall i | 0 <= i < |stacks'| ensures Chain(s'.nodes, s'.pools[i].head, stacks'[i]) {
      assert Chain(s.nodes, s.pools[i].head, stacks[i]);
    }
    forall i | 0 <= i < |s'.threads| ensures LinkTrue(s', stacks', s'.threads[i]) {
      assert LinkTrue(s, stacks, s.threads[i]);
    }
  }

  lemma StackPush(s: State, stacks: seq<seq<nat>>, o: Owners, t: nat)
    requires StacksOk(s, stacks, o) && t < |s.threads| && Pushes(s, Advance(t)) && Tallied(s, stacks, o, t)
    requires HarmlessPush(s, Advance(t))
    ensures StacksOk(Move(s, t), StackStep(s, Advance(t), stacks),
                     Owners(o.stacked + multiset{s.threads[t].node}, o.carried - multiset{s.threads[t].node}))
  {
    var n := s.threads[t].node;
    var j := s.nodes[n].pool;
    var s', stacks' := Move(s, t), StackStep(s, Advance(t), stacks);
    assert PcOk(s, s.threads[t]) && LinkTrue(s, stacks, s.threads[t]) && NodeOk(s, n);
    MemoryMove(s, t);
    assert s' == SetHead(Goto(s, t, TrackPush(j)), j, n);
    hide MemoryOk, Move, LinkTrue;
    assert stacks'[j][1..] == stacks[j];
    forall i | 0 <= i < |stacks'| ensures Chain(s'.nodes, s'.pools[i].head, stacks'[i]) {
      assert Chain(s.nodes, s.pools[i].head, stacks[i]);
    }
    LinksAfterPush(s, stacks, t, j, n);
  }

  /** A push is true to the links of others when it is harmless. */
  lemma LinksAfterPush(s: State, stacks: seq<seq<nat>>, t: nat, j: nat, n: nat)
    requires t < |s.threads| && j < |s.pools| == |stacks| && n in s.nodes
    requires forall i | 0 <= i < |s.threads| :: LinkTrue(s, stacks, s.threads[i])
    requires forall i | 0 <= i < |s.threads| && s.threads[i].CasPop? && s.threads[i].top == n ::
      s.threads[i].next == s.nodes[n].next
    ensures var s', stacks' := SetHead(Goto(s, t, TrackPush(j)), j, n), stacks[j := [n] + stacks[j]];
      forall i | 0 <= i < |s'.threads| :: LinkTrue(s', stacks', s'.threads[i])
  {
    var s', stacks' := SetHead(Goto(s, t, TrackPush(j)), j, n), stacks[j := [n] + stacks[j]];
    forall i | 0 <= i < |s'.threads| ensures LinkTrue(s', stacks', s'.threads[i]) {
      assert LinkTrue(s, stacks, s.threads[i]);
    }
  }

  /** Lists do not notice a node that is in none of them. */
  lemma ChainsElsewhere(s: State, stacks: seq<seq<nat>>, n: nat, node: Node)
    requires Chains(s, stacks) && forall j | 0 <= j < |stacks| :: n !in stacks[j]
    ensures forall j | 0 <= j < |stacks| :: Chain(s.nodes[n := node], s.pools[j].head, stacks[j])
  {
    forall j | 0 <= j < |stacks| ensures Chain(s.nodes[n := node], s.pools[j].head, stacks[j]) {
      ChainFrame(s.nodes, s.nodes[n := node], s.pools[j].head, stacks[j]);
    }
  }

  lemma {:induction false} ChainNodes(nodes: map<nat, Node>, head: nat, st: seq<nat>, n: nat)
    requires Chain(nodes, head, st) && n in st
    ensures n in nodes
    decreases |st|
  {
    if n != st[0] {
      ChainNodes(nodes, nodes[head].next, st[1..], n);
    }
  }

  /** Relinking a node nobody else carries or has listed falsifies nobody's link. */
  lemma LinksElsewhere(s: State, stacks: seq<seq<nat>>, t: nat, n: nat, node: Node)
    requires t < |s.threads| && n != 0 && forall i | 0 <= i < |s.threads| :: LinkTrue(s, stacks, s.threads[i])
    requires n in s.nodes && forall j | 0 <= j < |stacks| :: n !in stacks[j]
    requires forall i | 0 <= i < |s.threads| && i != t :: Carries(s.threads[i]) != n
    ensures var s' := Goto(s, t, CasPush(n, node.next)).(nodes := s.nodes[n := node]);
      forall i | 0 <= i < |s'.threads| :: LinkTrue(s', stacks, s'.threads[i])
  {
    var s' := Goto(s, t, CasPush(n, node.next)).(nodes := s.nodes[n := node]);
    forall i | 0 <= i < |s'.threads| && i != t ensures LinkTrue(s', stacks, s'.threads[i]) {
      assert LinkTrue(s, stacks, s.threads[i]) && Carries(s.threads[i]) != n;
    }
  }

  lemma CarriedIsUnlisted(s: State, stacks: seq<seq<nat>>, o: Owners, t: nat)
    requires OnceEach(s, o) && t < |s.threads| && Tallied(s, stacks, o, t) && Carries(s.threads[t]) != 0
    ensures forall j | 0 <= j < |stacks| :: Carries(s.threads[t]) !in stacks[j]
  {
    var n := Carries(s.threads[t]);
    assert o.stacked[n] + o.carried[n] + s.held[n] == if n in s.nodes then 1 else 0;
    assert o.stacked[n] == 0;
  }

  lemma RelinkStep(s: State, t: nat)
    requires MemoryOk(s) && t < |s.threads| && s.threads[t].StoreNext?
    ensures var n, top := s.threads[t].node, s.threads[t].top;
      n in s.nodes && n != 0 && PcOk(s, s.threads[t])
      && Move(s, t) == Goto(s, t, CasPush(n, top)).(nodes := s.nodes[n := s.nodes[n].(next := top)])
  {
    ThreadOk(s, t);
    assert NodeOk(s, s.threads[t].node);
  }

  lemma OnceEachNodes(s: State, s': State, o: Owners)
    requires OnceEach(s, o) && s'.held == s.held && s'.nodes.Keys == s.nodes.Keys
    ensures OnceEach(s', o)
  {
    forall n: nat ensures o.stacked[n] + o.carried[n] + s'.held[n] == if n in s'.nodes then 1 else 0 {
      assert n in s'.nodes <==> n in s.nodes;
    }
  }

  lemma StackRelink(s: State, stacks: seq<seq<nat>>, o: Owners, t: nat)
    requires StacksOk(s, stacks, o) && t < |s.threads| && s.threads[t].StoreNext? && Tallied(s, stacks, o, t)
    ensures PcOk(s, s.threads[t]) && StacksOk(Move(s, t), stacks, o)
  {
    hide MemoryOk, PcOk, LinkTrue, Move, OnceEach, Tallied;
    var n, top := s.threads[t].node, s.threads[t].top;
    RelinkStep(s, t);
    var node := s.nodes[n].(next := top);
    MemoryMove(s, t);
    CarriedIsUnlisted(s, stacks, o, t);
    CarriedAlone(s, stacks, o, t);
    ChainsElsewhere(s, stacks, n, node);
    LinksElsewhere(s, stacks, t, n, node);
    OnceEachNodes(s, Move(s, t), o);
  }

  lemma CarriedAlone(s: State, stacks: seq<seq<nat>>, o: Owners, t: nat)
    requires t < |s.threads| && Tallied(s, stacks, o, t) && Carries(s.threads[t]) != 0
    ensures forall u | 0 <= u < |s.threads| && u != t :: Carries(s.threads[u]) != Carries(s.threads[t])
  {
  }

  /** Counters and held blocks do not matter to the lists. */
  lemma StackHandOut(s: State, stacks: seq<seq<nat>>, o: Owners, t: nat)
    requires StacksOk(s, stacks, o) && t < |s.threads| && Tallied(s, stacks, o, t)
    requires s.threads[t].TrackPop? || s.threads[t].TrackAlloc?
    ensures StacksOk(Move(s, t), stacks, o.(carried := o.carried - multiset{s.threads[t].node}))
  {
    var s' := Move(s, t);
    assert PcOk(s, s.threads[t]);
    MemoryMove(s, t);
    forall i | 0 <= i < |stacks| ensures Chain(s'.nodes, s'.pools[i].head, stacks[i]) {
      assert Chain(s.nodes, s.pools[i].head, stacks[i]);
    }
    forall i | 0 <= i < |s'.threads| ensures LinkTrue(s', stacks, s'.threads[i]) {
      assert LinkTrue(s, stacks, s.threads[i]);
    }
  }

  lemma StackTrackPush(s: State, stacks: seq<seq<nat>>, o: Owners, t: nat)
    requires StacksOk(s, stacks, o) && t < |s.threads| && s.threads[t].TrackPush?
    ensures StacksOk(Move(s, t), stacks, o)
  {
    var s' := Move(s, t);
    assert PcOk(s, s.threads[t]);
    MemoryMove(s, t);
    forall i | 0 <= i < |stacks| ensures Chain(s'.nodes, s'.pools[i].head, stacks[i]) {
      assert Chain(s.nodes, s.pools[i].head, stacks[i]);
    }
    forall i | 0 <= i < |s'.threads| ensures LinkTrue(s', stacks, s'.threads[i]) {
      assert LinkTrue(s, stacks, s.threads[i]);
    }
  }

  lemma StackCallReturn(s: State, stacks: seq<seq<nat>>, o: Owners, t: nat, n: nat)
    requires StacksOk(s, stacks, o) && Enabled(s, CallReturn(t, n))
    ensures Step(s, CallReturn(t, n)).threads[t] == LoadTop(n)
    ensures StacksOk(Step(s, CallReturn(t, n)), stacks, o.(carried := o.carried + multiset{n}))
  {
    var s' := Step(s, CallReturn(t, n));
    assert NodeOk(s, n);
    MemoryStep(s, CallReturn(t, n));
    forall i | 0 <= i < |s'.threads| ensures LinkTrue(s', stacks, s'.threads[i]) {
      assert LinkTrue(s, stacks, s.threads[i]);
    }
  }

  /** A node that does not exist yet is in no list. */
  lemma NewIsUnlisted(s: State, stacks: seq<seq<nat>>, n: nat)
    requires Chains(s, stacks) && n !in s.nodes
    ensures forall j | 0 <= j < |stacks| :: n !in stacks[j]
  {
    forall j | 0 <= j < |stacks| ensures n !in stacks[j] {
      if n in stacks[j] { ChainNodes(s.nodes, s.pools[j].head, stacks[j], n); }
    }
  }

  lemma MallocStep(s: State, t: nat, n: nat, d: nat)
    requires MemoryOk(s) && Enabled(s, Malloc(t, n, d))
    ensures var j := s.threads[t].pool;
      j < |s.pools| && Step(s, Malloc(t, n, d)) ==
        Goto(s, t, TrackAlloc(j, n)).(nodes := s.nodes[n := Node(0, d, j, s.pools[j].memSize)],
                                      header := s.header[d := n])
  {
    ThreadOk(s, t);
    hide MemoryOk;
  }

  /** Nobody's link mentions a node that does not exist yet. */
  lemma LinksBefore(s: State, stacks: seq<seq<nat>>, t: nat, n: nat, node: Node, pc: Pc)
    requires MemoryOk(s) && t < |s.threads| && n != 0 && n !in s.nodes && pc.TrackAlloc?
    requires forall i | 0 <= i < |s.threads| :: LinkTrue(s, stacks, s.threads[i])
    requires forall j | 0 <= j < |stacks| :: n !in stacks[j]
    ensures var s' := Goto(s, t, pc).(nodes := s.nodes[n := node]);
      forall i | 0 <= i < |s'.threads| :: LinkTrue(s', stacks, s'.threads[i])
  {
    var s' := Goto(s, t, pc).(nodes := s.nodes[n := node]);
    forall i | 0 <= i < |s'.threads| && i != t ensures LinkTrue(s', stacks, s'.threads[i]) {
      assert LinkTrue(s, stacks, s.threads[i]) && PcOk(s, s.threads[i]);
    }
  }

  lemma OnceEachGrows(s: State, s': State, o: Owners, n: nat)
    requires OnceEach(s, o) && n !in s.nodes && s'.held == s.held && s'.nodes.Keys == s.nodes.Keys + {n}
    ensures OnceEach(s', o.(carried := o.carried + multiset{n}))
  {
    forall m: nat
      ensures o.stacked[m] + (o.carried + multiset{n})[m] + s'.held[m] == if m in s'.nodes then 1 else 0
    {
      assert o.stacked[m] + o.carried[m] + s.held[m] == if m in s.nodes then 1 else 0;
      assert m in s'.nodes <==> m in s.nodes || m == n;
    }
  }

  lemma StackMalloc(s: State, stacks: seq<seq<nat>>, o: Owners, t: nat, n: nat, d: nat)
    requires StacksOk(s, stacks, o) && Enabled(s, Malloc(t, n, d))
    ensures StacksOk(Step(s, Malloc(t, n, d)), stacks, o.(carried := o.carried + multiset{n}))
  {
    var s' := Step(s, Malloc(t, n, d));
    MemoryStep(s, Malloc(t, n, d));
    MallocStep(s, t, n, d);
    hide Step, MemoryOk, LinkTrue, OnceEach, Chain;
    NewIsUnlisted(s, stacks, n);
    ChainsElsewhere(s, stacks, n, s'.nodes[n]);
    LinksBefore(s, stacks, t, n, s'.nodes[n], s'.threads[t]);
    SameLinks(Goto(s, t, s'.threads[t]).(nodes := s'.nodes), s', stacks);
    OnceEachGrows(s, s', o, n);
  }

  lemma SameLinks(s: State, s': State, stacks: seq<seq<nat>>)
    requires s'.threads == s.threads && s'.nodes == s.nodes
    requires forall i | 0 <= i < |s.threads| :: LinkTrue(s, stacks, s.threads[i])
    ensures forall i | 0 <= i < |s'.threads| :: LinkTrue(s', stacks, s'.threads[i])
  {
    forall i | 0 <= i < |s'.threads| ensures LinkTrue(s', stacks, s'.threads[i]) {
      assert LinkTrue(s, stacks, s.threads[i]);
    }
  }

  // ---- the books follow

  lemma MoveIsOneThread(s: State, t: nat)
    requires t < |s.threads| && PcOk(s, s.threads[t])
    ensures Move(s, t).threads == s.threads[t := Move(s, t).threads[t]]
  {
    assert s.threads[t := s.threads[t]] == s.threads;
  }

  lemma OneThreadMoves(s: State, e: Event)
    requires MemoryOk(s) && e.t < |s.threads|
    ensures Step(s, e).threads == s.threads[e.t := Step(s, e).threads[e.t]]
  {
    if !Enabled(s, e) {
      assert s.threads[e.t := s.threads[e.t]] == s.threads;
    } else {
      hide Step, Move;
      if e.Advance? { AdvanceIsMove(s, e.t); MoveIsOneThread(s, e.t); } else { CallStep(s, e); }
    }
  }

  lemma CarriesAfterMove(s: State, t: nat)
    requires MemoryOk(s) && t < |s.threads|
    ensures Carries(Move(s, t).threads[t]) == CarriesNext(s, Advance(t))
  {
    ThreadOk(s, t);
    hide MemoryOk;
  }

  lemma CarriesAfter(s: State, e: Event)
    requires MemoryOk(s) && Enabled(s, e)
    ensures Carries(Step(s, e).threads[e.t]) == CarriesNext(s, e)
  {
    hide Step, Move;
    if e.Advance? { AdvanceIsMove(s, e.t); CarriesAfterMove(s, e.t); } else { CallStep(s, e); }
  }

  lemma SwapIsReplace(was: multiset<nat>, a: nat, b: nat)
    requires OneOrNone(a) <= was
    ensures was - OneOrNone(a) + OneOrNone(b) == Swap(was, a, b)
  {
  }

  lemma Swapped(ts: seq<Pc>, t: nat, b: Pc)
    requires t < |ts|
    ensures Bag(Carried, ts[t := b]) == Swap(Bag(Carried, ts), Carries(ts[t]), Carries(b))
  {
    BagReplace(Carried, ts, t, b);
    var was := Bag(Carried, ts);
    hide Bag, Carries;
    SwapIsReplace(was, Carries(ts[t]), Carries(b));
  }

  lemma TopIsNode(s: State, t: nat)
    requires MemoryOk(s) && t < |s.threads|
    ensures s.threads[t].CasPop? ==> s.threads[t].top != 0
  {
    ThreadOk(s, t);
  }

  lemma PoppedFollows(stacks: seq<seq<nat>>, j: nat)
    requires j < |stacks| && stacks[j] != []
    ensures Bag(Stacked, stacks[j := stacks[j][1..]]) == Bag(Stacked, stacks) - multiset{stacks[j][0]}
  {
    var st := stacks[j];
    BagReplace(Stacked, stacks, j, st[1..]);
    assert st == [st[0]] + st[1..];
    TakeOneAway(Bag(Stacked, stacks), multiset(st[1..]), st[0]);
  }

  lemma PushedFollows(stacks: seq<seq<nat>>, j: nat, n: nat)
    requires j < |stacks|
    ensures Bag(Stacked, stacks[j := [n] + stacks[j]]) == Bag(Stacked, stacks) + multiset{n}
  {
    BagReplace(Stacked, stacks, j, [n] + stacks[j]);
    var all, st := Bag(Stacked, stacks), multiset(stacks[j]);
    assert all - st + (multiset{n} + st) == all + multiset{n};
  }

  lemma StackedFollows(s: State, e: Event, stacks: seq<seq<nat>>)
    requires Chains(s, stacks) && e.t < |s.threads|
    requires s.threads[e.t].CasPop? ==> s.threads[e.t].top != 0
    ensures Bag(Stacked, StackStep(s, e, stacks)) ==
            Rebook(s, e, Owners(Bag(Stacked, stacks), multiset{}), 0, 0).stacked
  {
    if Pops(s, e) {
      HeadOfChain(s, stacks, s.threads[e.t].pool);
      PoppedFollows(stacks, s.threads[e.t].pool);
    } else if Pushes(s, e) {
      PushedFollows(stacks, s.nodes[s.threads[e.t].node].pool, s.threads[e.t].node);
    }
  }

  lemma TakeOneAway(all: multiset<nat>, rest: multiset<nat>, x: nat)
    requires multiset{x} + rest <= all
    ensures all - (multiset{x} + rest) + rest == all - multiset{x}
  {
  }

  lemma BooksFollow(s: State, e: Event, stacks: seq<seq<nat>>)
    requires MemoryOk(s) && Chains(s, stacks) && Enabled(s, e)
    ensures Books(Step(s, e), StackStep(s, e, stacks)) ==
            Rebook(s, e, Books(s, stacks), Carries(s.threads[e.t]), CarriesNext(s, e))
  {
    hide Step, CarriesNext, StackStep, Swap, Carries, Bag, Pops, Pushes;
    CarriesAfter(s, e);
    OneThreadMoves(s, e);
    Swapped(s.threads, e.t, Step(s, e).threads[e.t]);
    TopIsNode(s, e.t);
    StackedFollows(s, e, stacks);
  }

  lemma StackCall(s: State, e: Event, stacks: seq<seq<nat>>, o: Owners)
    requires StacksOk(s, stacks, o) && Enabled(s, e) && !e.Advance?
    ensures StacksOk(Step(s, e), stacks, Rebook(s, e, o, Carries(s.threads[e.t]), CarriesNext(s, e)))
  {
    var pc := s.threads[e.t];
    ThreadOk(s, e.t);
    hide MemoryOk, Chains, OnceEach;
    match e
    case CallAcquire(t, j) => StackGoto(s, stacks, o, t, LoadHead(j));
    case CallReturn(t, n) => StackCallReturn(s, stacks, o, t, n);
    case FailCas(t) =>
      StackGoto(s, stacks, o, t, if pc.CasPop? then LoadHead(pc.pool) else LoadTop(pc.node));
    case Malloc(t, n, d) => StackMalloc(s, stacks, o, t, n, d);
    case MallocFails(t) => StackGoto(s, stacks, o, t, Idle);
  }

  lemma StackMove(s: State, stacks: seq<seq<nat>>, o: Owners, t: nat)
    requires StacksOk(s, stacks, o) && Enabled(s, Advance(t))
    requires Tallied(s, stacks, o, t) && HarmlessPush(s, Advance(t))
    ensures var e := Advance(t);
      StacksOk(Step(s, e), StackStep(s, e, stacks), Rebook(s, e, o, Carries(s.threads[t]), CarriesNext(s, e)))
  {
    assert PcOk(s, s.threads[t]);
    if Pops(s, Advance(t)) {
      StackPop(s, stacks, o, t);
    } else if Pushes(s, Advance(t)) {
      StackPush(s, stacks, o, t);
    } else {
      match s.threads[t]
      case StoreNext(_, _) => StackRelink(s, stacks, o, t);
      case TrackPop(_, _) => StackHandOut(s, stacks, o, t);
      case TrackAlloc(_, _) => StackHandOut(s, stacks, o, t);
      case TrackPush(_) => StackTrackPush(s, stacks, o, t);
      case _ => StackLoad(s, stacks, o, t);
    }
  }

  lemma StackLoad(s: State, stacks: seq<seq<nat>>, o: Owners, t: nat)
    requires StacksOk(s, stacks, o) && t < |s.threads|
    requires s.threads[t].LoadHead? || s.threads[t].LoadNext? || s.threads[t].LoadTop?
          || (s.threads[t].CasPop? && !Pops(s, Advance(t))) || (s.threads[t].CasPush? && !Pushes(s, Advance(t)))
    ensures StacksOk(Move(s, t), stacks, o)
  {
    var pc := s.threads[t];
    assert PcOk(s, pc);
    if pc.LoadTop? || pc.CasPush? { assert NodeOk(s, pc.node); }
    MemoryMove(s, t);
    var b := Move(s, t).threads[t];
    assert PcOk(Move(s, t), b);
    StackGoto(s, stacks, o, t, b);
  }

  lemma StackEventWith(s: State, e: Event, stacks: seq<seq<nat>>, o: Owners)
    requires StacksOk(s, stacks, o) && Enabled(s, e) && Tallied(s, stacks, o, e.t) && HarmlessPush(s, e)
    ensures StacksOk(Step(s, e), StackStep(s, e, stacks), Rebook(s, e, o, Carries(s.threads[e.t]), CarriesNext(s, e)))
  {
    if e.Advance? {
      StackMove(s, stacks, o, e.t);
    } else {
      StackCall(s, e, stacks, o);
    }
  }

  /** Every event of a run of harmless pushes is one push, one pop or no change of the abstract stacks. */
  lemma StackEvent(s: State, e: Event, stacks: seq<seq<nat>>)
    requires StacksOk(s, stacks, Books(s, stacks)) && HarmlessPush(s, e)
    ensures StacksOk(Step(s, e), StackStep(s, e, stacks), Books(Step(s, e), StackStep(s, e, stacks)))
  {
    if Enabled(s, e) {
      BooksAreTallied(s, stacks, e.t);
      StackEventWith(s, e, stacks, Books(s, stacks));
      BooksFollow(s, e, stacks);
    } else {
      DisabledEvent(s, e, stacks);
    }
  }

  lemma DisabledEvent(s: State, e: Event, stacks: seq<seq<nat>>)
    requires MemoryOk(s) && Chains(s, stacks) && !Enabled(s, e)
    ensures Step(s, e) == s && StackStep(s, e, stacks) == stacks
  {
  }
}
