/**
 * The device tree of the second DRAM model. Every node caches, for each command, the first cycle at which
 * the declared timing constraints allow it again. The cache is proved to say exactly what the table of
 * constraints says about the whole history of issued commands.
 */
module TimingTree {
  import opened Arithmetic

  /** After a preceding command: cmd may follow val cycles after the window-th most recent one. */
  datatype Entry = Entry(cmd: nat, val: int, window: int, sibling: bool)

  /** cons[level][preceding command] lists the entries; count[level] is the fan-out into that level. */
  datatype Spec = Spec(commands: nat, rowLevel: nat, count: seq<nat>, scopes: seq<int>, cons: seq<seq<seq<Entry>>>) {

    predicate Valid() {
      && |count| == rowLevel && |cons| == rowLevel && |scopes| == commands
      && forall l :: 0 <= l < |cons| ==> ValidLevel(cons[l])
    }

    predicate ValidLevel(table: seq<seq<Entry>>) {
      && |table| == commands
      && forall p :: 0 <= p < |table| ==> ValidEntries(table[p])
    }

    /** A window reaches back to at least the issue that opens it; sibling entries have no use for theirs. */
    predicate ValidEntries(ts: seq<Entry>) {
      forall i :: 0 <= i < |ts| ==> ts[i].cmd < commands && (ts[i].sibling || ts[i].window >= 1)
    }

    /** A node at this level has no children: the next level is the row, or has no units. */
    predicate Leaf(level: nat)
      requires Valid() && level < rowLevel
    {
      level + 1 == rowLevel || count[level + 1] == 0
    }
  }

  datatype Event = Event(command: nat, addr: seq<int>, clk: int)

  datatype NodeState = NodeState(ready: seq<int>, history: seq<seq<int>>)

  // ----- one node, as values -----

  function Window(ts: seq<Entry>): (w: nat)
    ensures forall i :: 0 <= i < |ts| ==> ts[i].window <= w
  {
    if ts == [] then 0 else Max(Window(ts[..|ts| - 1]), ts[|ts| - 1].window)
  }

  function Initial(spec: Spec, level: nat): NodeState
    requires spec.Valid() && level < spec.rowLevel
  {
    NodeState(seq(spec.commands, _ => -1),
              seq(spec.commands, p requires 0 <= p < spec.commands => Blank(Window(spec.cons[level][p]))))
  }

  function Blank(n: nat): seq<int> {
    seq(n, _ => -1)
  }

  function Pushed(h: seq<int>, clk: int): seq<int> {
    if h == [] then h else [clk] + h[..|h| - 1]
  }

  function Raised(ready: seq<int>, cmd: nat, future: int): seq<int>
    requires cmd < |ready|
  {
    ready[cmd := Max(ready[cmd], future)]
  }

  /** The constraints a command issued in a sibling puts on this node. */
  function AfterSibling(ready: seq<int>, ts: seq<Entry>, clk: int): (r: seq<int>)
    requires forall i :: 0 <= i < |ts| ==> ts[i].cmd < |ready|
    ensures |r| == |ready|
  {
    if ts == [] then ready
    else
      var r := AfterSibling(ready, ts[..|ts| - 1], clk);
      var t := ts[|ts| - 1];
      if t.sibling then Raised(r, t.cmd, clk + t.val) else r
  }

  /** The constraints a command issued in this node puts on it; h is the command's history with this issue. */
  function AfterTarget(ready: seq<int>, ts: seq<Entry>, h: seq<int>): (r: seq<int>)
    requires forall i :: 0 <= i < |ts| ==> ts[i].cmd < |ready| && (ts[i].sibling || 1 <= ts[i].window <= |h|)
    ensures |r| == |ready|
  {
    if ts == [] then ready
    else
      var r := AfterTarget(ready, ts[..|ts| - 1], h);
      var t := ts[|ts| - 1];
      if !t.sibling && h[t.window - 1] >= 0 then Raised(r, t.cmd, h[t.window - 1] + t.val) else r
  }

  ghost predicate Shaped(spec: Spec, level: nat, s: NodeState)
    requires spec.Valid() && level < spec.rowLevel
  {
    && |s.ready| == spec.commands && |s.history| == spec.commands
    && forall p :: 0 <= p < spec.commands ==> |s.history[p]| == Window(spec.cons[level][p])
  }

  /** The ancestors of the node with this path are all addressed. */
  ghost predicate Reaches(path: seq<int>, addr: seq<int>) {
    0 < |path| <= |addr| && forall i :: 0 <= i < |path| - 1 ==> path[i] == addr[i]
  }

  ghost predicate Targets(path: seq<int>, e: Event) {
    Reaches(path, e.addr) && path[|path| - 1] == e.addr[|path| - 1]
  }

  ghost predicate Neighbours(path: seq<int>, e: Event) {
    Reaches(path, e.addr) && path[|path| - 1] != e.addr[|path| - 1]
  }

  /** What one command does to the node with this path. */
  ghost function Touched(spec: Spec, path: seq<int>, s: NodeState, e: Event): (s': NodeState)
    requires spec.Valid() && 0 < |path| <= spec.rowLevel && Shaped(spec, |path| - 1, s) && e.command < spec.commands
    ensures Shaped(spec, |path| - 1, s')
  {
    var level := |path| - 1;
    var ts := spec.cons[level][e.command];
    assert spec.ValidLevel(spec.cons[level]) && spec.ValidEntries(ts);
    if Neighbours(path, e) then
      s.(ready := AfterSibling(s.ready, ts, e.clk))
    else if Targets(path, e) then
      var h := Pushed(s.history[e.command], e.clk);
      NodeState(AfterTarget(s.ready, ts, h), s.history[e.command := h])
    else s
  }

  ghost predicate ValidEvents(spec: Spec, events: seq<Event>) {
    forall i :: 0 <= i < |events| ==> events[i].command < spec.commands
  }

  /** The state of the node with this path after the whole run. */
  ghost function StateAfter(spec: Spec, path: seq<int>, events: seq<Event>): (s: NodeState)
    requires spec.Valid() && 0 < |path| <= spec.rowLevel && ValidEvents(spec, events)
    ensures Shaped(spec, |path| - 1, s)
  {
    if events == [] then Initial(spec, |path| - 1)
    else Touched(spec, path, StateAfter(spec, path, events[..|events| - 1]), events[|events| - 1])
  }

  // ----- the declared constraints -----

  /** The cycles at which the command was issued into the node, oldest first. */
  ghost function Hits(path: seq<int>, events: seq<Event>, p: nat): seq<int> {
    if events == [] then []
    else
      var before := Hits(path, events[..|events| - 1], p);
      var e := events[|events| - 1];
      if e.command == p && Targets(path, e) then before + [e.clk] else before
  }

  /** One entry, held against the history of its preceding command p. */
  ghost predicate EntryHolds(path: seq<int>, events: seq<Event>, p: nat, t: Entry, clk: int) {
    if t.sibling then
      forall i :: 0 <= i < |events| && events[i].command == p && Neighbours(path, events[i]) ==>
        events[i].clk + t.val <= clk
    else
      var hits := Hits(path, events, p);
      1 <= t.window <= |hits| ==> hits[|hits| - t.window] + t.val <= clk
  }

  /** Every entry of the table that constrains cmd at this node. */
  ghost predicate Holds(spec: Spec, path: seq<int>, events: seq<Event>, cmd: nat, clk: int)
    requires spec.Valid() && 0 < |path| <= spec.rowLevel
  {
    var table := spec.cons[|path| - 1];
    forall p :: 0 <= p < |table| ==> HoldsAfter(table[p], path, events, p, cmd, clk)
  }

  ghost predicate HoldsAfter(ts: seq<Entry>, path: seq<int>, events: seq<Event>, p: nat, cmd: nat, clk: int) {
    forall i :: 0 <= i < |ts| && ts[i].cmd == cmd ==> EntryHolds(path, events, p, ts[i], clk)
  }

  /** Clocks start at zero and never run backwards. */
  ghost predicate Ordered(events: seq<Event>) {
    && (forall i :: 0 <= i < |events| ==> 0 <= events[i].clk)
    && (forall i, j :: 0 <= i <= j < |events| ==> events[i].clk <= events[j].clk)
  }

  // ----- the cache is exact -----

  ghost predicate Increasing(clocks: seq<int>) {
    && (forall i :: 0 <= i < |clocks| ==> 0 <= clocks[i])
    && (forall i, j :: 0 <= i <= j < |clocks| ==> clocks[i] <= clocks[j])
  }

  lemma {:induction false} HitsAreOrdered(path: seq<int>, events: seq<Event>, p: nat)
    requires Ordered(events)
    ensures Increasing(Hits(path, events, p))
    ensures events != [] ==> forall c :: c in Hits(path, events, p) ==> c <= events[|events| - 1].clk
  {
    if events != [] {
      var before := events[..|events| - 1];
      HitsAreOrdered(path, before, p);
      var e := events[|events| - 1];
      assert before != [] ==> before[|before| - 1].clk <= e.clk;
      var earlier := Hits(path, before, p);
      assert before == [] ==> earlier == [];
      forall i | 0 <= i < |earlier| ensures earlier[i] <= e.clk {
        assert earlier[i] in earlier;
      }
    }
  }

  /** The k-th entry of a history is the k-th most recent issue, or -1 when there were fewer. */
  ghost predicate Remembers(h: seq<int>, hits: seq<int>) {
    forall k :: 0 <= k < |h| ==> h[k] == if k < |hits| then hits[|hits| - 1 - k] else -1
  }

  lemma {:induction false} HistoriesRemember(spec: Spec, path: seq<int>, events: seq<Event>, p: nat)
    requires spec.Valid() && 0 < |path| <= spec.rowLevel && ValidEvents(spec, events) && p < spec.commands
    ensures Remembers(StateAfter(spec, path, events).history[p], Hits(path, events, p))
  {
    if events != [] {
      HistoriesRemember(spec, path, events[..|events| - 1], p);
    }
  }

  /** The first cycle a cached value allows; the cache never blocks below it. */
  predicate Allows(ready: int, clk: int) {
    ready == -1 || clk >= ready
  }

  ghost predicate SiblingDemands(ts: seq<Entry>, clk0: int, cmd: nat, clk: int) {
    forall i :: 0 <= i < |ts| && ts[i].cmd == cmd && ts[i].sibling ==> clk0 + ts[i].val <= clk
  }

  ghost predicate TargetDemands(ts: seq<Entry>, hits: seq<int>, cmd: nat, clk: int) {
    forall i :: 0 <= i < |ts| && ts[i].cmd == cmd && !ts[i].sibling && 1 <= ts[i].window <= |hits| ==>
      hits[|hits| - ts[i].window] + ts[i].val <= clk
  }

  lemma {:induction false} SiblingRaises(ready: seq<int>, ts: seq<Entry>, clk0: int, cmd: nat, clk: int)
    requires forall i :: 0 <= i < |ts| ==> ts[i].cmd < |ready|
    requires cmd < |ready| && clk >= 0 && ready[cmd] >= -1
    ensures AfterSibling(ready, ts, clk0)[cmd] >= -1
    ensures Allows(AfterSibling(ready, ts, clk0)[cmd], clk) <==>
            Allows(ready[cmd], clk) && SiblingDemands(ts, clk0, cmd, clk)
  {
    if ts != [] {
      SiblingRaises(ready, ts[..|ts| - 1], clk0, cmd, clk);
    }
  }

  lemma {:induction false} TargetRaises(ready: seq<int>, ts: seq<Entry>, h: seq<int>, hits: seq<int>, cmd: nat,
                                        clk: int)
    requires forall i :: 0 <= i < |ts| ==> ts[i].cmd < |ready| && (ts[i].sibling || 1 <= ts[i].window <= |h|)
    requires Remembers(h, hits) && Increasing(hits)
    requires cmd < |ready| && clk >= 0 && ready[cmd] >= -1
    ensures AfterTarget(ready, ts, h)[cmd] >= -1
    ensures Allows(AfterTarget(ready, ts, h)[cmd], clk) <==>
            Allows(ready[cmd], clk) && TargetDemands(ts, hits, cmd, clk)
  {
    if ts != [] {
      var t := ts[|ts| - 1];
      TargetRaises(ready, ts[..|ts| - 1], h, hits, cmd, clk);
      assert !t.sibling ==> (h[t.window - 1] >= 0 <==> t.window <= |hits|);
    }
  }

  /** How one more event changes what an entry demands. */
  lemma EntryAfterEvent(path: seq<int>, before: seq<Event>, e: Event, p: nat, t: Entry, clk: int)
    requires Ordered(before + [e]) && (t.sibling || t.window >= 1)
    ensures var events := before + [e]; var hits := Hits(path, events, p);
            EntryHolds(path, events, p, t, clk) <==>
            && EntryHolds(path, before, p, t, clk)
            && (e.command == p && t.sibling && Neighbours(path, e) ==> e.clk + t.val <= clk)
            && (e.command == p && !t.sibling && Targets(path, e) && t.window <= |hits| ==>
                  hits[|hits| - t.window] + t.val <= clk)
  {
    var events := before + [e];
    assert events[..|events| - 1] == before;
    if t.sibling {
      assert forall i :: 0 <= i < |before| ==> events[i] == before[i];
      assert events[|before|] == e;
    } else {
      HitsAreOrdered(path, events, p);
      var hits, earlier := Hits(path, events, p), Hits(path, before, p);
      if e.command == p && Targets(path, e) {
        assert hits == earlier + [e.clk];
        if t.window <= |earlier| {
          var j := |hits| - t.window;
          assert hits[j - 1] <= hits[j] && earlier[j - 1] == hits[j - 1];
        }
      }
    }
  }

  lemma HoldsAfterNeighbour(spec: Spec, path: seq<int>, before: seq<Event>, e: Event, cmd: nat, clk: int)
    requires spec.Valid() && 0 < |path| <= spec.rowLevel && Ordered(before + [e]) && e.command < spec.commands
    requires !Targets(path, e)
    ensures var ts := spec.cons[|path| - 1][e.command];
            Holds(spec, path, before + [e], cmd, clk) <==>
            Holds(spec, path, before, cmd, clk) && (Neighbours(path, e) ==> SiblingDemands(ts, e.clk, cmd, clk))
  {
    var table := spec.cons[|path| - 1];
    assert spec.ValidLevel(table);
    forall p, i | 0 <= p < |table| && 0 <= i < |table[p]|
      ensures EntryHolds(path, before + [e], p, table[p][i], clk) <==>
              EntryHolds(path, before, p, table[p][i], clk) &&
              (e.command == p && table[p][i].sibling && Neighbours(path, e) ==> e.clk + table[p][i].val <= clk)
    {
      assert spec.ValidEntries(table[p]);
      EntryAfterEvent(path, before, e, p, table[p][i], clk);
    }
  }

  lemma HoldsAfterTarget(spec: Spec, path: seq<int>, before: seq<Event>, e: Event, cmd: nat, clk: int)
    requires spec.Valid() && 0 < |path| <= spec.rowLevel && Ordered(before + [e]) && e.command < spec.commands
    requires Targets(path, e)
    ensures var ts := spec.cons[|path| - 1][e.command]; var hits := Hits(path, before + [e], e.command);
            Holds(spec, path, before + [e], cmd, clk) <==>
            Holds(spec, path, before, cmd, clk) && TargetDemands(ts, hits, cmd, clk)
  {
    var table := spec.cons[|path| - 1];
    assert spec.ValidLevel(table) && !Neighbours(path, e);
    hide EntryHolds, Hits, Targets, Neighbours;
    forall p, i | 0 <= p < |table| && 0 <= i < |table[p]|
      ensures var hits := Hits(path, before + [e], p); var t := table[p][i];
              EntryHolds(path, before + [e], p, t, clk) <==>
              EntryHolds(path, before, p, t, clk) &&
              (e.command == p && !t.sibling && 1 <= t.window <= |hits| ==> hits[|hits| - t.window] + t.val <= clk)
    {
      assert spec.ValidEntries(table[p]);
      EntryAfterEvent(path, before, e, p, table[p][i], clk);
    }
  }

  /**
   * In every run with clocks that never run backwards, the cached cycle admits a command exactly from the
   * first cycle on at which every declared entry holds against the full history.
   */
  lemma {:induction false} CacheIsExact(spec: Spec, path: seq<int>, events: seq<Event>, cmd: nat, clk: int)
    requires spec.Valid() && 0 < |path| <= spec.rowLevel && ValidEvents(spec, events) && Ordered(events)
    requires cmd < spec.commands && clk >= 0
    ensures StateAfter(spec, path, events).ready[cmd] >= -1
    ensures Allows(StateAfter(spec, path, events).ready[cmd], clk) <==> Holds(spec, path, events, cmd, clk)
  {
    if events != [] {
      var before, e := events[..|events| - 1], events[|events| - 1];
      assert events == before + [e];
      CacheIsExact(spec, path, before, cmd, clk);
      if Targets(path, e) {
        TargetStep(spec, path, before, e, cmd, clk);
        HoldsAfterTarget(spec, path, before, e, cmd, clk);
      } else {
        NeighbourStep(spec, path, before, e, cmd, clk);
        HoldsAfterNeighbour(spec, path, before, e, cmd, clk);
      }
    }
  }

  lemma TargetStep(spec: Spec, path: seq<int>, before: seq<Event>, e: Event, cmd: nat, clk: int)
    requires spec.Valid() && 0 < |path| <= spec.rowLevel && ValidEvents(spec, before + [e]) && ValidEvents(spec, before)
    requires Ordered(before + [e]) && Targets(path, e) && cmd < spec.commands && clk >= 0 && e.command < spec.commands
    requires StateAfter(spec, path, before).ready[cmd] >= -1
    ensures var r := StateAfter(spec, path, before + [e]).ready[cmd];
            && r >= -1
            && (Allows(r, clk) <==>
                Allows(StateAfter(spec, path, before).ready[cmd], clk) &&
                TargetDemands(spec.cons[|path| - 1][e.command], Hits(path, before + [e], e.command), cmd, clk))
  {
    assert (before + [e])[..|before|] == before;
    var s := StateAfter(spec, path, before);
    var ts := spec.cons[|path| - 1][e.command];
    assert spec.ValidLevel(spec.cons[|path| - 1]) && spec.ValidEntries(ts);
    HistoriesRemember(spec, path, before + [e], e.command);
    HitsAreOrdered(path, before + [e], e.command);
    var hits := Hits(path, before + [e], e.command);
    TargetRaises(s.ready, ts, Pushed(s.history[e.command], e.clk), hits, cmd, clk);
  }

  lemma NeighbourStep(spec: Spec, path: seq<int>, before: seq<Event>, e: Event, cmd: nat, clk: int)
    requires spec.Valid() && 0 < |path| <= spec.rowLevel && ValidEvents(spec, before + [e]) && ValidEvents(spec, before)
    requires !Targets(path, e) && cmd < spec.commands && clk >= 0 && e.command < spec.commands
    requires StateAfter(spec, path, before).ready[cmd] >= -1
    ensures var r := StateAfter(spec, path, before + [e]).ready[cmd];
            && r >= -1
            && (Allows(r, clk) <==>
                Allows(StateAfter(spec, path, before).ready[cmd], clk) &&
                (Neighbours(path, e) ==> SiblingDemands(spec.cons[|path| - 1][e.command], e.clk, cmd, clk)))
  {
    assert (before + [e])[..|before|] == before;
    var s := StateAfter(spec, path, before);
    var ts := spec.cons[|path| - 1][e.command];
    assert spec.ValidLevel(spec.cons[|path| - 1]) && spec.ValidEntries(ts);
    if Neighbours(path, e) { SiblingRaises(s.ready, ts, e.clk, cmd, clk); }
  }

  /** Every command cmd issued into the node was admitted there when it was issued. */
  ghost predicate Admitted(spec: Spec, path: seq<int>, events: seq<Event>, cmd: nat)
    requires spec.Valid() && 0 < |path| <= spec.rowLevel
  {
    forall i :: 0 <= i < |events| && events[i].command == cmd && Targets(path, events[i]) ==>
      Holds(spec, path, events[..i], cmd, events[i].clk)
  }

  /**
   * An n-command window: if a command constrains itself with window w, any w + 1 successive admitted
   * issues of it into the node span at least val cycles.
   */
  lemma {:induction false} WindowIsKept(spec: Spec, path: seq<int>, events: seq<Event>, cmd: nat, k: nat, i: nat)
    requires spec.Valid() && 0 < |path| <= spec.rowLevel && cmd < spec.commands && Ordered(events)
    requires Admitted(spec, path, events, cmd)
    requires var ts := spec.cons[|path| - 1][cmd];
             k < |ts| && ts[k].cmd == cmd && !ts[k].sibling && ts[k].window >= 1
    requires i + spec.cons[|path| - 1][cmd][k].window < |Hits(path, events, cmd)|
    ensures var t := spec.cons[|path| - 1][cmd][k]; var hits := Hits(path, events, cmd);
            hits[i] + t.val <= hits[i + t.window]
  {
    var before, e := events[..|events| - 1], events[|events| - 1];
    var t := spec.cons[|path| - 1][cmd][k];
    var earlier, hits := Hits(path, before, cmd), Hits(path, events, cmd);
    assert Admitted(spec, path, before, cmd) by {
      forall j | 0 <= j < |before| ensures before[..j] == events[..j] {}
    }
    if e.command == cmd && Targets(path, e) && i + t.window == |earlier| {
      assert hits == earlier + [e.clk];
      assert events[..|events| - 1] == before;
      assert HoldsAfter(spec.cons[|path| - 1][cmd], path, before, cmd, cmd, e.clk);
      assert EntryHolds(path, before, cmd, t, e.clk);
    } else {
      WindowIsKept(spec, path, before, cmd, k, i);
    }
  }

  // ----- the tree -----

  /** Every level that has units is addressed by one of them, or not at all. */
  predicate ValidAddress(spec: Spec, addr: seq<int>)
    requires spec.Valid()
  {
    spec.rowLevel < |addr| && forall l :: 0 < l < spec.rowLevel && spec.count[l] > 0 ==> addr[l] < spec.count[l]
  }

  /** The path of the addressed descendant at a level. */
  ghost function Along(path: seq<int>, addr: seq<int>, stop: nat): (p: seq<int>)
    requires 0 < |path| <= stop + 1 <= |addr|
    ensures |p| == stop + 1
  {
    path + addr[|path|..stop + 1]
  }

  /** Whoever reaches a child reaches its parent. */
  lemma ReachedThroughParent(path: seq<int>, last: int, addr: seq<int>)
    requires path != []
    ensures Reaches(path + [last], addr) ==> Reaches(path, addr)
  {
    assert forall k :: 0 <= k < |path| ==> path[k] == (path + [last])[k];
  }

  lemma AlongChild(path: seq<int>, addr: seq<int>, stop: nat)
    requires 0 < |path| <= stop < |addr|
    ensures Along(path, addr, stop) == Along(path + [addr[|path|]], addr, stop)
  {
  }

  /** At every level the check of a command reaches, all declared constraints hold against what came before. */
  ghost predicate ReadyAt(spec: Spec, before: seq<Event>, e: Event)
    requires spec.Valid() && e.command < spec.commands && ValidAddress(spec, e.addr)
  {
    forall l :: 0 <= l < spec.rowLevel &&
                (forall k :: 0 < k <= l ==> e.addr[k] >= 0 && spec.count[k] > 0) &&
                !(0 <= spec.scopes[e.command] < l) ==>
      Holds(spec, Along(e.addr[..1], e.addr, l), before, e.command, e.clk)
  }

  /** A run in which every command was ready when it was issued. */
  ghost predicate Scheduled(spec: Spec, events: seq<Event>)
    requires spec.Valid()
  {
    && ValidEvents(spec, events) && Ordered(events)
    && (forall i :: 0 <= i < |events| ==> ValidAddress(spec, events[i].addr))
    && (forall i :: 0 <= i < |events| ==> ReadyAt(spec, events[..i], events[i]))
  }

  lemma ScheduledExtends(spec: Spec, events: seq<Event>, e: Event)
    requires spec.Valid() && Scheduled(spec, events)
    requires e.command < spec.commands && ValidAddress(spec, e.addr) && ReadyAt(spec, events, e)
    requires e.clk >= 0 && forall i :: 0 <= i < |events| ==> events[i].clk <= e.clk
    ensures Scheduled(spec, events + [e])
  {
    hide ReadyAt, ValidAddress;
    var after := events + [e];
    forall i | 0 <= i < |after| ensures ReadyAt(spec, after[..i], after[i]) {
      assert after[..i] == events[..i];
    }
  }

  /** Checked at a node: all its ancestors have units, and the scope of the command is no ancestor. */
  ghost predicate ChecksNode(spec: Spec, path: seq<int>, cmd: nat)
    requires spec.Valid() && 0 < |path| <= spec.rowLevel && cmd < spec.commands
  {
    && (forall k :: 0 < k < |path| ==> path[k] >= 0 && spec.count[k] > 0)
    && !(0 <= spec.scopes[cmd] < |path| - 1)
  }

  lemma ReadyAtNode(spec: Spec, path: seq<int>, before: seq<Event>, e: Event)
    requires spec.Valid() && 0 < |path| <= spec.rowLevel && e.command < spec.commands && ValidAddress(spec, e.addr)
    requires ReadyAt(spec, before, e) && ChecksNode(spec, path, e.command) && Targets(path, e)
    ensures Holds(spec, path, before, e.command, e.clk)
  {
    hide Holds;
    var l := |path| - 1;
    var along := Along(e.addr[..1], e.addr, l);
    forall k | 0 <= k <= l ensures along[k] == path[k] {
      assert along[k] == e.addr[k];
    }
    assert along == path;
    forall k | 0 < k <= l ensures e.addr[k] >= 0 && spec.count[k] > 0 {
      assert e.addr[k] == path[k];
    }
    assert Holds(spec, along, before, e.command, e.clk);
  }

  lemma ScheduledIsAdmitted(spec: Spec, path: seq<int>, events: seq<Event>, cmd: nat)
    requires spec.Valid() && 0 < |path| <= spec.rowLevel && cmd < spec.commands
    requires Scheduled(spec, events) && ChecksNode(spec, path, cmd)
    ensures Admitted(spec, path, events, cmd)
  {
    hide Holds, ReadyAt, ChecksNode, Targets;
    forall i | 0 <= i < |events| && events[i].command == cmd && Targets(path, events[i])
      ensures Holds(spec, path, events[..i], cmd, events[i].clk)
    {
      ReadyAtNode(spec, path, events[..i], events[i]);
    }
  }

  /** In a scheduled run any window + 1 successive issues of a command into a node it is checked at span val cycles. */
  lemma ScheduledWindow(spec: Spec, path: seq<int>, events: seq<Event>, cmd: nat, k: nat, i: nat)
    requires spec.Valid() && 0 < |path| <= spec.rowLevel && cmd < spec.commands
    requires Scheduled(spec, events) && ChecksNode(spec, path, cmd)
    requires var ts := spec.cons[|path| - 1][cmd];
             k < |ts| && ts[k].cmd == cmd && !ts[k].sibling && ts[k].window >= 1
    requires i + spec.cons[|path| - 1][cmd][k].window < |Hits(path, events, cmd)|
    ensures var t := spec.cons[|path| - 1][cmd][k]; var hits := Hits(path, events, cmd);
            hits[i] + t.val <= hits[i + t.window]
  {
    ScheduledIsAdmitted(spec, path, events, cmd);
    WindowIsKept(spec, path, events, cmd, k, i);
  }

  /**
   * In a scheduled run two commands i < j are as far apart as every entry between them says, at every node
   * that the later one is checked at: an entry of window 1 when both go there, a sibling entry when the
   * earlier one goes to another child of the same parent.
   */
  lemma ScheduledSpacing(spec: Spec, path: seq<int>, events: seq<Event>, i: nat, j: nat, k: nat)
    requires spec.Valid() && 0 < |path| <= spec.rowLevel && Scheduled(spec, events) && i < j < |events|
    requires path == events[j].addr[..|path|] && ChecksNode(spec, path, events[j].command)
    requires path[..|path| - 1] == events[i].addr[..|path| - 1]
    requires var ts := spec.cons[|path| - 1][events[i].command];
             k < |ts| && ts[k].cmd == events[j].command &&
             if ts[k].sibling then path[|path| - 1] != events[i].addr[|path| - 1]
             else path[|path| - 1] == events[i].addr[|path| - 1] && ts[k].window == 1
    ensures events[i].clk + spec.cons[|path| - 1][events[i].command][k].val <= events[j].clk
  {
    var p, e := events[i].command, events[j];
    var t := spec.cons[|path| - 1][p][k];
    ScheduledIsAdmitted(spec, path, events, e.command);
    forall m | 0 <= m < |path| ensures path[m] == e.addr[m] && (m < |path| - 1 ==> path[m] == events[i].addr[m]) {
      assert path[m] == events[j].addr[..|path|][m];
      assert m < |path| - 1 ==> path[..|path| - 1][m] == events[i].addr[..|path| - 1][m];
    }
    assert Targets(path, e);
    assert Holds(spec, path, events[..j], e.command, e.clk);
    assert HoldsAfter(spec.cons[|path| - 1][p], path, events[..j], p, e.command, e.clk);
    assert EntryHolds(path, events[..j], p, t, e.clk);
    assert events[..j][i] == events[i];
    if !t.sibling {
      HitIsRecent(path, events[..j], p, i);
    }
  }

  /** The latest issue into a node is no earlier than any other. */
  lemma {:induction false} HitIsRecent(path: seq<int>, events: seq<Event>, p: nat, i: nat)
    requires Ordered(events) && i < |events| && events[i].command == p && Targets(path, events[i])
    ensures var hits := Hits(path, events, p); hits != [] && events[i].clk <= hits[|hits| - 1]
  {
    var before, e := events[..|events| - 1], events[|events| - 1];
    if i < |before| {
      assert before[i] == events[i];
      HitIsRecent(path, before, p, i);
      HitsAreOrdered(path, events, p);
      var earlier := Hits(path, before, p);
      HitsAreOrdered(path, before, p);
      assert earlier[|earlier| - 1] in earlier;
    }
  }

  class Node {
    const spec: Spec
    const level: nat
    const id: int
    const children: seq<Node>
    ghost const path: seq<int>
    ghost const Repr: set<Node>
    var ready: seq<int>
    var history: seq<seq<int>>

    /** The hierarchy below this node, which never changes once built. */
    ghost predicate Shape()
      decreases Repr
    {
      && spec.Valid() && this in Repr
      && |path| == level + 1 <= spec.rowLevel && path[level] == id
      && |children| == (if spec.Leaf(level) then 0 else spec.count[level + 1])
      && (forall i :: 0 <= i < |children| ==>
            && children[i].Repr < Repr && this !in children[i].Repr
            && children[i].spec == spec && children[i].path == path + [i]
            && children[i].Shape())
      && (forall i, j :: 0 <= i < j < |children| ==> children[i].Repr !! children[j].Repr)
    }

    ghost function State(): NodeState
      reads this
    {
      NodeState(ready, history)
    }

    ghost predicate HasState(events: seq<Event>)
      requires Shape() && ValidEvents(spec, events)
      reads this
    {
      State() == StateAfter(spec, path, events)
    }

    /** This node and all below it hold what the run left in them. */
    ghost predicate Tracks(events: seq<Event>)
      requires Shape() && ValidEvents(spec, events)
      reads Repr
      decreases Repr
    {
      HasState(events) && forall i :: 0 <= i < |children| ==> children[i].Tracks(events)
    }

    /** Builds the node and, level by level, everything below it. */
    constructor (spec: Spec, ghost parentPath: seq<int>, level: nat, id: int)
      requires spec.Valid() && |parentPath| == level < spec.rowLevel
      ensures Shape() && fresh(Repr) && path == parentPath + [id] && this.spec == spec
      ensures Tracks([])
      decreases spec.rowLevel - level, 0
    {
      var kids := [];
      ghost var repr: set<Node> := {};
      if !spec.Leaf(level) {
        kids, repr := Children(spec, parentPath + [id], level + 1);
      }
      this.spec, this.level, this.id, this.path := spec, level, id, parentPath + [id];
      children := kids;
      Repr := {this} + repr;
      ready := Initial(spec, level).ready;
      history := Initial(spec, level).history;
    }

    static method Children(spec: Spec, ghost path: seq<int>, level: nat)
      returns (kids: seq<Node>, ghost repr: set<Node>)
      requires spec.Valid() && 0 < |path| == level < spec.rowLevel
      ensures |kids| == spec.count[level] && fresh(repr)
      ensures forall j :: 0 <= j < |kids| ==>
                && kids[j].Repr <= repr && kids[j].spec == spec && kids[j].path == path + [j]
                && kids[j].Shape() && kids[j].Tracks([])
      ensures forall j, k :: 0 <= j < k < |kids| ==> kids[j].Repr !! kids[k].Repr
      decreases spec.rowLevel - level, 1
    {
      kids, repr := [], {};
      for i := 0 to spec.count[level]
        invariant |kids| == i && fresh(repr)
        invariant forall j :: 0 <= j < |kids| ==>
                    && kids[j].Repr <= repr && kids[j].spec == spec && kids[j].path == path + [j]
                    && kids[j].Shape() && kids[j].Tracks([])
        invariant forall j, k :: 0 <= j < k < |kids| ==> kids[j].Repr !! kids[k].Repr
      {
        var child := new Node(spec, path, level, i);
        assert child.Repr !! repr;
        kids := kids + [child];
        repr := repr + child.Repr;
      }
    }

    /** A sibling was issued the command. */
    method RaiseFromSibling(ts: seq<Entry>, clk: int)
      requires forall i :: 0 <= i < |ts| ==> ts[i].cmd < |ready|
      modifies this`ready
      ensures ready == AfterSibling(old(ready), ts, clk)
    {
      var i := 0;
      while i < |ts|
        invariant 0 <= i <= |ts|
        invariant ready == AfterSibling(old(ready), ts[..i], clk)
      {
        assert ts[..i + 1][..i] == ts[..i];
        if ts[i].sibling {
          ready := Raised(ready, ts[i].cmd, clk + ts[i].val);
        }
        i := i + 1;
      }
      assert ts[..|ts|] == ts;
    }

    /** The node itself was issued the command, whose history already ends in this issue. */
    method RaiseFromTarget(ts: seq<Entry>, command: nat)
      requires command < |history|
      requires forall i :: 0 <= i < |ts| ==>
                 && ts[i].cmd < |ready|
                 && (ts[i].sibling || 1 <= ts[i].window <= |history[command]|)
      modifies this`ready
      ensures ready == AfterTarget(old(ready), ts, history[command])
    {
      var i := 0;
      while i < |ts|
        invariant 0 <= i <= |ts|
        invariant ready == AfterTarget(old(ready), ts[..i], history[command])
      {
        assert ts[..i + 1][..i] == ts[..i];
        if !ts[i].sibling {
          var past := history[command][ts[i].window - 1];
          if past >= 0 {
            ready := Raised(ready, ts[i].cmd, past + ts[i].val);
          }
        }
        i := i + 1;
      }
      assert ts[..|ts|] == ts;
    }

    /** The node's own part of a timing update: history, then every entry of the command. */
    method Touch(command: nat, addr: seq<int>, clk: int)
      requires Shape() && Shaped(spec, level, State()) && command < spec.commands && Reaches(path, addr)
      modifies this`ready, this`history
      ensures State() == Touched(spec, path, old(State()), Event(command, addr, clk))
    {
      var ts := spec.cons[level][command];
      assert spec.ValidLevel(spec.cons[level]) && spec.ValidEntries(ts);
      if id != addr[level] {
        RaiseFromSibling(ts, clk);
        return;
      }
      if |history[command]| > 0 {
        var h := history[command];
        history := history[command := [clk] + h[..|h| - 1]];
      }
      assert history == old(history)[command := Pushed(old(history[command]), clk)];
      RaiseFromTarget(ts, command);
    }

    /** Nothing below a node that is not addressed takes notice of a command. */
    lemma Unaddressed(events: seq<Event>, e: Event)
      requires Shape() && ValidEvents(spec, events + [e]) && ValidEvents(spec, events) && Tracks(events)
      requires !Reaches(path, e.addr)
      ensures Tracks(events + [e])
      decreases Repr
    {
      assert (events + [e])[..|events|] == events;
      forall i | 0 <= i < |children| ensures children[i].Tracks(events + [e]) {
        assert children[i].path == path + [i];
        ReachedThroughParent(path, i, e.addr);
        children[i].Unaddressed(events, e);
      }
    }

    /** The recursive update keeps every node of the tree in step with the run. */
    method UpdateTiming(command: nat, addr: seq<int>, clk: int, ghost events: seq<Event>)
      requires Shape() && command < spec.commands && spec.rowLevel <= |addr| && Reaches(path, addr)
      requires ValidEvents(spec, events) && Tracks(events)
      modifies Repr
      ensures ValidEvents(spec, events + [Event(command, addr, clk)])
      ensures Tracks(events + [Event(command, addr, clk)])
      decreases Repr, 1
    {
      ghost var e := Event(command, addr, clk);
      assert (events + [e])[..|events|] == events;
      Touch(command, addr, clk);
      if id != addr[level] {
        ChildrenUnaddressed(events, e);
        return;
      }
      UpdateChildren(command, addr, clk, events);
    }

    method UpdateChildren(command: nat, addr: seq<int>, clk: int, ghost events: seq<Event>)
      requires Shape() && command < spec.commands && spec.rowLevel <= |addr|
      requires Reaches(path, addr) && id == addr[level] && ValidEvents(spec, events)
      requires forall j :: 0 <= j < |children| ==> children[j].Tracks(events)
      modifies Repr - {this}
      ensures ValidEvents(spec, events + [Event(command, addr, clk)])
      ensures forall j :: 0 <= j < |children| ==> children[j].Tracks(events + [Event(command, addr, clk)])
      decreases Repr, 0
    {
      hide StateAfter, HasState;
      ghost var after := events + [Event(command, addr, clk)];
      for i := 0 to |children|
        invariant forall j :: 0 <= j < i ==> children[j].Tracks(after)
        invariant forall j :: i <= j < |children| ==> children[j].Tracks(events)
      {
        assert Reaches(children[i].path, addr);
        children[i].UpdateTiming(command, addr, clk, events);
      }
    }

    lemma ChildrenUnaddressed(events: seq<Event>, e: Event)
      requires Shape() && ValidEvents(spec, events + [e]) && ValidEvents(spec, events)
      requires level < |e.addr| && path[level] != e.addr[level]
      requires forall i :: 0 <= i < |children| ==> children[i].Tracks(events)
      ensures forall i :: 0 <= i < |children| ==> children[i].Tracks(events + [e])
    {
      forall i | 0 <= i < |children| ensures children[i].Tracks(events + [e]) {
        assert children[i].path[level] == id;
        children[i].Unaddressed(events, e);
      }
    }

    /** The recursive query: every node down to the command's scope must admit the command. */
    function CheckReady(command: nat, addr: seq<int>, clk: int, ghost events: seq<Event>): bool
      requires Shape() && command < spec.commands && ValidAddress(spec, addr)
      requires ValidEvents(spec, events) && Tracks(events)
      reads Repr
      decreases Repr
    {
      if ready[command] != -1 && clk < ready[command] then false
      else
        var child := addr[level + 1];
        if child < 0 || level == spec.scopes[command] || |children| == 0 then true
        else children[child].CheckReady(command, addr, clk, events)
    }

    /**
     * The query is exact: a command is ready at an address if and only if all declared constraints hold at
     * every level from this node on that the address names, down to the scope of the command and no further.
     */
    lemma CheckReadyIsExact(command: nat, addr: seq<int>, clk: int, events: seq<Event>)
      requires Shape() && command < spec.commands && ValidAddress(spec, addr) && clk >= 0
      requires ValidEvents(spec, events) && Tracks(events) && Ordered(events)
      ensures CheckReady(command, addr, clk, events) <==>
              forall l :: level <= l < spec.rowLevel &&
                          (forall k :: level < k <= l ==> addr[k] >= 0 && spec.count[k] > 0) &&
                          !(level <= spec.scopes[command] < l) ==>
                Holds(spec, Along(path, addr, l), events, command, clk)
      decreases Repr
    {
      hide Holds, StateAfter;
      CacheIsExact(spec, path, events, command, clk);
      assert Along(path, addr, level) == path;
      var next := level + 1;
      if addr[next] >= 0 && level != spec.scopes[command] && |children| > 0 {
        var child := children[addr[next]];
        child.CheckReadyIsExact(command, addr, clk, events);
        forall l | level < l < spec.rowLevel
          ensures Along(path, addr, l) == Along(child.path, addr, l)
        {
          AlongChild(path, addr, l);
        }
      }
    }

    lemma ReadyExactly(command: nat, addr: seq<int>, clk: int, events: seq<Event>)
      requires Shape() && level == 0 && command < spec.commands && ValidAddress(spec, addr) && id == addr[0]
      requires ValidEvents(spec, events) && Tracks(events) && Ordered(events) && clk >= 0
      ensures CheckReady(command, addr, clk, events) == ReadyAt(spec, events, Event(command, addr, clk))
    {
      hide Tracks, CheckReady, Holds;
      assert path == addr[..1];
      CheckReadyIsExact(command, addr, clk, events);
    }

    /** A command goes into the tree only when the query admits it. */
    method IssueIfReady(command: nat, addr: seq<int>, clk: int, ghost events: seq<Event>) returns (issued: bool)
      requires Shape() && level == 0 && command < spec.commands && ValidAddress(spec, addr) && id == addr[0]
      requires Scheduled(spec, events) && Tracks(events)
      requires clk >= 0 && forall i :: 0 <= i < |events| ==> events[i].clk <= clk
      modifies Repr
      ensures var e := Event(command, addr, clk); var after := if issued then events + [e] else events;
              && issued == ReadyAt(spec, events, e)
              && Scheduled(spec, after) && Tracks(after)
    {
      ghost var e := Event(command, addr, clk);
      issued := CheckReady(command, addr, clk, events);
      ReadyExactly(command, addr, clk, events);
      if issued {
        UpdateTiming(command, addr, clk, events);
        ScheduledExtends(spec, events, e);
      }
    }
  }
}
