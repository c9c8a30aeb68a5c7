/** Cleanup of a timed-out installer: the process tree under its root, and the loop that
    signals it until nothing recorded is left. */
module ProcessTree {
  import opened Options

  /** `identity` is the process start time, which tells a reused pid apart. */
  datatype ProcessInfo = ProcessInfo(parent: nat, identity: string, zombie: bool)

  type Snapshot = map<nat, ProcessInfo>

  datatype Node = Node(pid: nat, depth: nat)

  /** `pid` hangs `depth` parent links below the root, meeting the root only there. */
  predicate Descends(snapshot: Snapshot, root: nat, pid: nat, depth: nat)
    decreases depth
  {
    && pid in snapshot
    && if depth == 0 then pid == root
       else pid != root && Descends(snapshot, root, snapshot[pid].parent, depth - 1)
  }

  lemma {:induction false} DepthIsUnique(snapshot: Snapshot, root: nat, pid: nat, d1: nat, d2: nat)
    requires Descends(snapshot, root, pid, d1) && Descends(snapshot, root, pid, d2)
    ensures d1 == d2
    decreases d1
  {
    if d1 > 0 && d2 > 0 {
      DepthIsUnique(snapshot, root, snapshot[pid].parent, d1 - 1, d2 - 1);
    }
  }

  // -------------------------------------------------------- Breadth-first search

  /** The children lists hold each process once, under its parent. */
  ghost predicate ChildrenOk(snapshot: Snapshot, children: map<nat, seq<nat>>) {
    && (forall p, i :: p in children && 0 <= i < |children[p]| ==>
          children[p][i] in snapshot && snapshot[children[p][i]].parent == p)
    && (forall pid :: pid in snapshot ==>
          snapshot[pid].parent in children && pid in children[snapshot[pid].parent])
  }

  method BuildChildren(snapshot: Snapshot) returns (children: map<nat, seq<nat>>)
    ensures ChildrenOk(snapshot, children)
  {
    children := map[];
    var todo := snapshot.Keys;
    while todo != {}
      invariant todo <= snapshot.Keys
      invariant forall p, i :: p in children && 0 <= i < |children[p]| ==>
                  children[p][i] in snapshot && snapshot[children[p][i]].parent == p
      invariant forall pid :: pid in snapshot && pid !in todo ==>
                  snapshot[pid].parent in children && pid in children[snapshot[pid].parent]
      decreases |todo|
    {
      var pid :| pid in todo;
      var parent := snapshot[pid].parent;
      var siblings := if parent in children then children[parent] else [];
      children := children[parent := siblings + [pid]];
      todo := todo - {pid};
    }
  }

  ghost predicate Distinct(nodes: seq<Node>) {
    forall i, j :: 0 <= i < j < |nodes| ==> nodes[i].pid != nodes[j].pid
  }

  ghost predicate AllDescend(snapshot: Snapshot, root: nat, nodes: seq<Node>) {
    forall n :: n in nodes ==> Descends(snapshot, root, n.pid, n.depth)
  }

  /** `seen` holds the pids of the visited and the queued nodes, each once. */
  ghost predicate SearchOk(snapshot: Snapshot, root: nat, tree: seq<Node>, queue: seq<Node>, seen: set<nat>) {
    && Distinct(tree + queue)
    && AllDescend(snapshot, root, tree + queue)
    && (forall n :: n in tree + queue ==> n.pid in seen)
    && (forall pid :: pid in seen ==> exists n :: n in tree + queue && n.pid == pid)
    && root in seen
  }

  /** The children of every node have been seen. */
  ghost predicate Closed(snapshot: Snapshot, nodes: seq<Node>, seen: set<nat>) {
    forall n, pid :: n in nodes && pid in snapshot && snapshot[pid].parent == n.pid ==> pid in seen
  }

  lemma EnqueueOk(snapshot: Snapshot, root: nat, tree: seq<Node>, queue: seq<Node>, seen: set<nat>,
                  parent: Node, pid: nat)
    requires SearchOk(snapshot, root, tree, queue, seen) && pid !in seen && parent in tree
    requires pid in snapshot && snapshot[pid].parent == parent.pid
    ensures SearchOk(snapshot, root, tree, queue + [Node(pid, parent.depth + 1)], seen + {pid})
  {
    var node := Node(pid, parent.depth + 1);
    assert tree + (queue + [node]) == (tree + queue) + [node];
    assert parent in tree + queue;
    assert Descends(snapshot, root, pid, parent.depth + 1);
    forall p | p in seen + {pid} ensures exists n :: n in (tree + queue) + [node] && n.pid == p {
      if p == pid {
        assert node in (tree + queue) + [node];
      } else {
        var n :| n in tree + queue && n.pid == p;
        assert n in (tree + queue) + [node];
      }
    }
  }

  /** Visit the children of the node just added to the tree. */
  method Expand(snapshot: Snapshot, root: nat, tree: seq<Node>, queue: seq<Node>, seen: set<nat>,
                node: Node, descendants: seq<nat>) returns (queue': seq<Node>, seen': set<nat>)
    requires SearchOk(snapshot, root, tree, queue, seen) && node in tree
    requires forall i :: 0 <= i < |descendants| ==>
               descendants[i] in snapshot && snapshot[descendants[i]].parent == node.pid
    ensures SearchOk(snapshot, root, tree, queue', seen')
    ensures seen <= seen' && forall pid :: pid in descendants ==> pid in seen'
    ensures seen' == seen ==> queue' == queue
  {
    queue', seen' := queue, seen;
    for i := 0 to |descendants|
      invariant SearchOk(snapshot, root, tree, queue', seen')
      invariant seen <= seen' && forall k :: 0 <= k < i ==> descendants[k] in seen'
      invariant seen' == seen ==> queue' == queue
    {
      var pid := descendants[i];
      if pid !in seen' {
        EnqueueOk(snapshot, root, tree, queue', seen', node, pid);
        queue', seen' := queue' + [Node(pid, node.depth + 1)], seen' + {pid};
      }
    }
  }

  lemma {:induction false} ClosedFindsAll(snapshot: Snapshot, root: nat, tree: seq<Node>, seen: set<nat>,
                                          pid: nat, depth: nat)
    requires SearchOk(snapshot, root, tree, [], seen) && Closed(snapshot, tree, seen)
    requires Descends(snapshot, root, pid, depth)
    ensures Node(pid, depth) in tree
    decreases depth
  {
    assert tree + [] == tree;
    if depth > 0 {
      ClosedFindsAll(snapshot, root, tree, seen, snapshot[pid].parent, depth - 1);
    }
    var n :| n in tree && n.pid == pid;
    DepthIsUnique(snapshot, root, pid, n.depth, depth);
  }

  /** The tree under the root: every process that descends from it, once, at its depth,
      whatever the order of the snapshot and even when parent links run in a circle. */
  method BuildTree(snapshot: Snapshot, root: nat) returns (tree: seq<Node>)
    ensures Distinct(tree)
    ensures forall pid: nat, depth: nat :: Node(pid, depth) in tree <==> Descends(snapshot, root, pid, depth)
  {
    if root !in snapshot {
      forall pid: nat, depth: nat ensures !Descends(snapshot, root, pid, depth) {
        DescendsNeedsRoot(snapshot, root, pid, depth);
      }
      return [];
    }
    var children := BuildChildren(snapshot);
    var queue := [Node(root, 0)];
    var seen := {root};
    tree := [];
    assert tree + queue == queue && Node(root, 0) in queue;
    while queue != []
      invariant SearchOk(snapshot, root, tree, queue, seen) && Closed(snapshot, tree, seen)
      decreases snapshot.Keys - seen, |queue|
    {
      tree, queue, seen := Visit(snapshot, root, children, tree, queue, seen);
    }
    TreeIsComplete(snapshot, root, tree, seen);
  }

  /** Move the head of the queue to the tree and queue its unseen children. */
  method Visit(snapshot: Snapshot, root: nat, children: map<nat, seq<nat>>, tree: seq<Node>, queue: seq<Node>,
               seen: set<nat>)
    returns (tree': seq<Node>, queue': seq<Node>, seen': set<nat>)
    requires queue != [] && ChildrenOk(snapshot, children)
    requires SearchOk(snapshot, root, tree, queue, seen) && Closed(snapshot, tree, seen)
    ensures SearchOk(snapshot, root, tree', queue', seen') && Closed(snapshot, tree', seen')
    ensures seen <= seen' <= snapshot.Keys && (seen' == seen ==> |queue'| < |queue|)
  {
    var node := queue[0];
    assert (tree + [node]) + queue[1..] == tree + queue;
    var descendants := if node.pid in children then children[node.pid] else [];
    tree' := tree + [node];
    queue', seen' := Expand(snapshot, root, tree', queue[1..], seen, node, descendants);
    SeenInSnapshot(snapshot, root, tree', queue', seen');
    ClosedGrows(snapshot, children, tree, seen, node, descendants, seen');
  }

  lemma ClosedGrows(snapshot: Snapshot, children: map<nat, seq<nat>>, tree: seq<Node>, seen: set<nat>,
                    node: Node, descendants: seq<nat>, seen': set<nat>)
    requires ChildrenOk(snapshot, children) && Closed(snapshot, tree, seen) && seen <= seen'
    requires descendants == if node.pid in children then children[node.pid] else []
    requires forall pid :: pid in descendants ==> pid in seen'
    ensures Closed(snapshot, tree + [node], seen')
  {
  }

  lemma TreeIsComplete(snapshot: Snapshot, root: nat, tree: seq<Node>, seen: set<nat>)
    requires SearchOk(snapshot, root, tree, [], seen) && Closed(snapshot, tree, seen)
    ensures Distinct(tree)
    ensures forall pid: nat, depth: nat :: Node(pid, depth) in tree <==> Descends(snapshot, root, pid, depth)
  {
    assert tree + [] == tree;
    forall pid: nat, depth: nat | Descends(snapshot, root, pid, depth) ensures Node(pid, depth) in tree {
      ClosedFindsAll(snapshot, root, tree, seen, pid, depth);
    }
  }

  lemma SeenInSnapshot(snapshot: Snapshot, root: nat, tree: seq<Node>, queue: seq<Node>, seen: set<nat>)
    requires SearchOk(snapshot, root, tree, queue, seen)
    ensures seen <= snapshot.Keys
  {
  }

  lemma {:induction false} DescendsNeedsRoot(snapshot: Snapshot, root: nat, pid: nat, depth: nat)
    ensures Descends(snapshot, root, pid, depth) ==> root in snapshot
    decreases depth
  {
    if Descends(snapshot, root, pid, depth) && depth > 0 {
      DescendsNeedsRoot(snapshot, root, snapshot[pid].parent, depth - 1);
    }
  }

  /** A process other than the root sits one deeper than its parent, which is in the
      tree too. */
  lemma ParentIsAbove(snapshot: Snapshot, root: nat, pid: nat, depth: nat)
    requires Descends(snapshot, root, pid, depth) && pid != root
    ensures depth > 0 && Descends(snapshot, root, snapshot[pid].parent, depth - 1)
  {
  }

  // ------------------------------------------------------------- The kill loop

  datatype Kill = Delivered | NoSuchProcess | Refused

  /** One iteration: the snapshot taken, if that worked, the clock when the signal is
      chosen and after the round, and what each kill reports. */
  datatype Round = Round(snapshot: Option<Snapshot>, chosenAt: nat, endedAt: nat, kill: nat -> Kill)

  datatype Outcome = AllGone | SnapshotFailed | RootAbsent | PidTooLarge | KillFailed | StillAlive | Unfinished

  /** A recorded process: when it was first found under the root, and as what. */
  datatype Record = Record(round: nat, identity: string, depth: nat)

  /** A signal sent. */
  datatype Signal = Signal(round: nat, pid: nat, depth: nat, hard: bool)

  const TERM_GRACE: nat := 1000
  const KILL_WAIT: nat := 1000
  const MAX_PID: nat := 0x7fff_ffff

  ghost predicate InTree(snapshot: Snapshot, root: nat, pid: nat) {
    exists depth: nat :: Descends(snapshot, root, pid, depth)
  }

  /** The record describes the first of the rounds in which the process was in the tree. */
  ghost predicate FirstSeen(rounds: seq<Round>, root: nat, pid: nat, r: Record) {
    && r.round < |rounds| && rounds[r.round].snapshot.Some?
    && var snapshot := rounds[r.round].snapshot.value;
       && Descends(snapshot, root, pid, r.depth)
       && snapshot[pid].identity == r.identity
       && forall k :: 0 <= k < r.round && rounds[k].snapshot.Some? ==> !InTree(rounds[k].snapshot.value, root, pid)
  }

  /** After `n` rounds exactly the processes seen so far are recorded, as first seen. */
  ghost predicate KnownOk(rounds: seq<Round>, root: nat, n: nat, known: map<nat, Record>)
    requires n <= |rounds|
  {
    && (forall pid :: pid in known ==> known[pid].round < n && FirstSeen(rounds, root, pid, known[pid]))
    && (forall k, pid: nat :: 0 <= k < n && rounds[k].snapshot.Some? && InTree(rounds[k].snapshot.value, root, pid) ==>
          pid in known)
  }

  predicate IsActive(known: map<nat, Record>, snapshot: Snapshot, pid: nat) {
    && pid in known && pid in snapshot
    && !snapshot[pid].zombie && snapshot[pid].identity == known[pid].identity
  }

  method RecordTree(rounds: seq<Round>, root: nat, n: nat, known: map<nat, Record>, snapshot: Snapshot)
    returns (known': map<nat, Record>)
    requires n < |rounds| && rounds[n].snapshot == Some(snapshot) && KnownOk(rounds, root, n, known)
    ensures KnownOk(rounds, root, n + 1, known')
  {
    known' := known;
    var tree := BuildTree(snapshot, root);
    for i := 0 to |tree|
      invariant forall pid :: pid in known' ==> known'[pid].round <= n && FirstSeen(rounds, root, pid, known'[pid])
      invariant forall pid :: pid in known ==> pid in known'
      invariant forall k :: 0 <= k < i ==> tree[k].pid in known'
    {
      var node := tree[i];
      assert Node(node.pid, node.depth) in tree;
      if node.pid !in known' {
        NewIsFirstSeen(rounds, root, n, known, snapshot, node);
        known' := known'[node.pid := Record(n, snapshot[node.pid].identity, node.depth)];
      }
    }
    forall pid: nat | InTree(snapshot, root, pid) ensures pid in known' {
      var depth: nat :| Descends(snapshot, root, pid, depth);
      assert Node(pid, depth) in tree;
    }
  }

  lemma NewIsFirstSeen(rounds: seq<Round>, root: nat, n: nat, known: map<nat, Record>, snapshot: Snapshot, node: Node)
    requires n < |rounds| && rounds[n].snapshot == Some(snapshot) && KnownOk(rounds, root, n, known)
    requires node.pid !in known && Descends(snapshot, root, node.pid, node.depth)
    ensures FirstSeen(rounds, root, node.pid, Record(n, snapshot[node.pid].identity, node.depth))
  {
  }

  /** By falling recorded depth. */
  ghost predicate DeepestFirst(nodes: seq<Node>) {
    forall i, j :: 0 <= i < j < |nodes| ==> nodes[i].depth >= nodes[j].depth
  }

  function InsertByDepth(node: Node, sorted: seq<Node>): seq<Node> {
    if sorted == [] || node.depth > sorted[0].depth then [node] + sorted
    else [sorted[0]] + InsertByDepth(node, sorted[1..])
  }

  lemma {:induction false} InsertKeepsMembers(node: Node, sorted: seq<Node>)
    ensures multiset(InsertByDepth(node, sorted)) == multiset(sorted) + multiset{node}
  {
    if sorted != [] && node.depth <= sorted[0].depth {
      InsertKeepsMembers(node, sorted[1..]);
      assert sorted == [sorted[0]] + sorted[1..];
    }
  }

  lemma InsertedMembers(node: Node, sorted: seq<Node>)
    ensures forall n :: n in InsertByDepth(node, sorted) <==> n in sorted || n == node
  {
    InsertKeepsMembers(node, sorted);
    forall n ensures n in InsertByDepth(node, sorted) <==> n in sorted || n == node {
      assert n in InsertByDepth(node, sorted) <==> n in multiset(InsertByDepth(node, sorted));
      assert n in sorted <==> n in multiset(sorted);
    }
  }

  lemma {:induction false} InsertKeepsOrder(node: Node, sorted: seq<Node>)
    requires DeepestFirst(sorted)
    ensures DeepestFirst(InsertByDepth(node, sorted))
  {
    if sorted != [] && node.depth <= sorted[0].depth {
      InsertKeepsOrder(node, sorted[1..]);
      InsertedMembers(node, sorted[1..]);
      var rest := InsertByDepth(node, sorted[1..]);
      forall i | 0 <= i < |rest| ensures rest[i].depth <= sorted[0].depth {
        assert rest[i] in rest;
      }
    }
  }

  lemma {:induction false} InsertKeepsDistinct(node: Node, sorted: seq<Node>)
    requires Distinct(sorted) && forall n :: n in sorted ==> n.pid != node.pid
    ensures Distinct(InsertByDepth(node, sorted))
  {
    if sorted != [] && node.depth <= sorted[0].depth {
      InsertKeepsDistinct(node, sorted[1..]);
      InsertedMembers(node, sorted[1..]);
      var rest := InsertByDepth(node, sorted[1..]);
      forall i | 0 <= i < |rest| ensures rest[i].pid != sorted[0].pid {
        assert rest[i] in rest && sorted[0] in sorted;
      }
    }
  }

  method ActiveByDepth(known: map<nat, Record>, snapshot: Snapshot) returns (active: seq<Node>)
    ensures DeepestFirst(active) && Distinct(active)
    ensures forall n :: n in active <==> IsActive(known, snapshot, n.pid) && n.depth == known[n.pid].depth
  {
    active := [];
    var todo := known.Keys;
    while todo != {}
      invariant todo <= known.Keys && DeepestFirst(active) && Distinct(active)
      invariant forall n :: n in active <==>
                  n.pid !in todo && IsActive(known, snapshot, n.pid) && n.depth == known[n.pid].depth
      decreases |todo|
    {
      var pid :| pid in todo;
      if IsActive(known, snapshot, pid) {
        var node := Node(pid, known[pid].depth);
        InsertKeepsOrder(node, active);
        InsertedMembers(node, active);
        InsertKeepsDistinct(node, active);
        active := InsertByDepth(node, active);
      }
      todo := todo - {pid};
    }
  }

  /** A signal went to a process that the snapshot of its round shows alive with the very
      identity recorded when it was first found under the root, and it was a hard one
      exactly when the grace period was over. */
  ghost predicate SignalOk(rounds: seq<Round>, start: nat, known: map<nat, Record>, s: Signal) {
    && s.round < |rounds| && rounds[s.round].snapshot.Some?
    && IsActive(known, rounds[s.round].snapshot.value, s.pid)
    && s.depth == known[s.pid].depth && known[s.pid].round <= s.round
    && (s.hard <==> rounds[s.round].chosenAt >= start + TERM_GRACE)
  }

  /** All signals of the first `n` rounds: in each round by falling recorded depth, and no
      process twice. */
  ghost predicate SignalsOk(rounds: seq<Round>, start: nat, n: nat, known: map<nat, Record>, signals: seq<Signal>) {
    && (forall i :: 0 <= i < |signals| ==> SignalOk(rounds, start, known, signals[i]) && signals[i].round < n)
    && (forall i, j :: 0 <= i < j < |signals| && signals[i].round == signals[j].round ==>
          signals[i].depth >= signals[j].depth && signals[i].pid != signals[j].pid)
  }

  /** Recorded by round `k` and still active in it. */
  ghost predicate ActiveAt(rounds: seq<Round>, known: map<nat, Record>, k: nat, pid: nat)
    requires k < |rounds|
  {
    && pid in known && known[pid].round <= k
    && rounds[k].snapshot.Some? && IsActive(known, rounds[k].snapshot.value, pid)
  }

  ghost predicate Signalled(signals: seq<Signal>, round: nat, pid: nat) {
    exists i :: 0 <= i < |signals| && signals[i].round == round && signals[i].pid == pid
  }

  /** In each of the first `n` rounds every recorded process that was still active then got
      its signal. */
  ghost predicate NoneSpared(rounds: seq<Round>, n: nat, known: map<nat, Record>, signals: seq<Signal>) {
    forall k, pid ::
      0 <= k < n <= |rounds| && pid in known && ActiveAt(rounds, known, k, pid) ==> Signalled(signals, k, pid)
  }

  /** What an active list of round `n` must be. */
  ghost predicate ActiveOk(rounds: seq<Round>, n: nat, known: map<nat, Record>, active: seq<Node>) {
    && n < |rounds| && rounds[n].snapshot.Some? && DeepestFirst(active) && Distinct(active)
    && (forall a :: a in active ==>
          IsActive(known, rounds[n].snapshot.value, a.pid) && a.depth == known[a.pid].depth && known[a.pid].round <= n)
    && (forall pid :: IsActive(known, rounds[n].snapshot.value, pid) ==> Node(pid, known[pid].depth) in active)
  }

  /** Record the tree of round `n` and list what is still active, deepest first. */
  method Survey(rounds: seq<Round>, root: nat, start: nat, n: nat, known: map<nat, Record>, ghost signals: seq<Signal>)
    returns (known': map<nat, Record>, active: seq<Node>)
    requires n < |rounds| && rounds[n].snapshot.Some? && KnownOk(rounds, root, n, known)
    requires SignalsOk(rounds, start, n, known, signals) && NoneSpared(rounds, n, known, signals)
    ensures KnownOk(rounds, root, n + 1, known') && SignalsOk(rounds, start, n, known', signals)
    ensures NoneSpared(rounds, n, known', signals)
    ensures ActiveOk(rounds, n, known', active)
  {
    var snapshot := rounds[n].snapshot.value;
    known' := RecordTree(rounds, root, n, known, snapshot);
    StillOk(rounds, root, start, n, known, known', signals);
    StillNoneSpared(rounds, root, n, known, known', signals);
    active := ActiveByDepth(known', snapshot);
  }

  ghost predicate SomeActive(rounds: seq<Round>, known: map<nat, Record>, k: nat)
    requires k < |rounds|
  {
    exists pid :: pid in known && ActiveAt(rounds, known, k, pid)
  }

  /** No active process of round `k` made its kill fail. */
  ghost predicate NoKillError(rounds: seq<Round>, known: map<nat, Record>, k: nat)
    requires k < |rounds|
  {
    forall pid :: pid in known && ActiveAt(rounds, known, k, pid) ==> KillError(rounds[k], pid).None?
  }

  /** Round `k` had something to signal, could signal all of it, and ended in time. */
  ghost predicate WentOn(rounds: seq<Round>, start: nat, known: map<nat, Record>, k: nat)
    requires k < |rounds|
  {
    && SomeActive(rounds, known, k) && NoKillError(rounds, known, k)
    && rounds[k].endedAt < start + TERM_GRACE + KILL_WAIT
  }

  /** The first `n` rounds all went on. */
  ghost predicate AllWentOn(rounds: seq<Round>, start: nat, known: map<nat, Record>, n: int)
    requires n <= |rounds|
  {
    forall k :: 0 <= k < n ==> WentOn(rounds, start, known, k)
  }

  /** The rounds behind the loop when it ends with the outcome: all `n`, unless the last of
      them decided. */
  function Passed(n: nat, outcome: Outcome): int {
    if outcome.SnapshotFailed? || outcome.RootAbsent? || outcome.Unfinished? then n else n - 1
  }

  /** What an outcome after `n` rounds says about the last of them. */
  ghost predicate OutcomeOk(rounds: seq<Round>, root: nat, start: nat, n: nat, known: map<nat, Record>,
                            outcome: Outcome)
    requires n <= |rounds|
  {
    && (outcome.AllGone? ==>
          && n > 0 && rounds[n - 1].snapshot.Some?
          && forall pid :: pid in known ==> !IsActive(known, rounds[n - 1].snapshot.value, pid))
    && (outcome.StillAlive? ==> n > 0 && rounds[n - 1].endedAt >= start + TERM_GRACE + KILL_WAIT)
    && (n > 0 && (outcome.StillAlive? || outcome.Unfinished?) ==> SomeActive(rounds, known, n - 1))
    && (n > 0 && outcome.StillAlive? ==> NoKillError(rounds, known, n - 1))
    && (outcome.SnapshotFailed? ==> n < |rounds| && rounds[n].snapshot.None?)
    && (outcome.RootAbsent? ==>
          n < |rounds| && known == map[] && rounds[n].snapshot.Some? && root !in rounds[n].snapshot.value)
    && (outcome.PidTooLarge? ==>
          n > 0 && exists pid :: pid in known && pid > MAX_PID && ActiveAt(rounds, known, n - 1, pid))
    && (outcome.KillFailed? ==>
          && n > 0
          && exists pid :: pid in known && rounds[n - 1].kill(pid).Refused? && ActiveAt(rounds, known, n - 1, pid))
  }

  lemma RoundSignalled(rounds: seq<Round>, known: map<nat, Record>, n: nat, before: seq<Signal>,
                       active: seq<Node>, hard: bool, signals: seq<Signal>)
    requires ActiveOk(rounds, n, known, active) && NoneSpared(rounds, n, known, before)
    requires before <= signals && |signals| == |before| + |active|
    requires forall k :: 0 <= k < |active| ==> signals[|before| + k] == SignalFor(n, active[k], hard)
    ensures NoneSpared(rounds, n + 1, known, signals)
  {
    forall k, pid | 0 <= k < n + 1 && pid in known && ActiveAt(rounds, known, k, pid)
      ensures Signalled(signals, k, pid)
    {
      if k < n {
        assert Signalled(before, k, pid);
        var i :| 0 <= i < |before| && before[i].round == k && before[i].pid == pid;
        assert signals[i] == before[i];
      } else {
        var i := ListedSomewhere(active, Node(pid, known[pid].depth));
        assert signals[|before| + i].pid == pid;
      }
    }
  }

  /** A kill that could not be carried out ends the loop within its round. */
  predicate GaveUp(outcome: Outcome) {
    outcome.PidTooLarge? || outcome.KillFailed?
  }

  /** Round `n`, surveyed and signalled. */
  method RunRound(rounds: seq<Round>, root: nat, start: nat, n: nat, known: map<nat, Record>,
                  before: seq<Signal>, active: seq<Node>)
    returns (outcome: Outcome, signals: seq<Signal>)
    requires ActiveOk(rounds, n, known, active)
    requires SignalsOk(rounds, start, n, known, before) && NoneSpared(rounds, n, known, before)
    ensures SignalsOk(rounds, start, n + 1, known, signals) && OutcomeOk(rounds, root, start, n + 1, known, outcome)
    ensures NoneSpared(rounds, if GaveUp(outcome) then n else n + 1, known, signals)
    ensures outcome !in {SnapshotFailed, RootAbsent}
    ensures outcome.Unfinished? ==> WentOn(rounds, start, known, n)
  {
    if active == [] {
      return AllGone, before;
    }
    assert ActiveAt(rounds, known, n, active[0].pid) by { assert active[0] in active; }
    var failed;
    var hard := rounds[n].chosenAt >= start + TERM_GRACE;
    ghost var sent;
    signals, failed, sent := SignalAll(rounds, root, start, known, n, before, active, hard);
    if failed.Some? {
      return failed.value, signals;
    }
    RoundSignalled(rounds, known, n, before, active, hard, signals);
    forall pid | pid in known && ActiveAt(rounds, known, n, pid) ensures KillError(rounds[n], pid).None? {
      var i := ListedSomewhere(active, Node(pid, known[pid].depth));
      assert active[i].pid == pid;
    }
    outcome := if rounds[n].endedAt >= start + TERM_GRACE + KILL_WAIT then StillAlive else Unfinished;
  }

  /** What holds between rounds and at the end. */
  ghost predicate CleanupOk(rounds: seq<Round>, root: nat, start: nat, n: nat, known: map<nat, Record>,
                            signals: seq<Signal>, outcome: Outcome)
    requires n <= |rounds|
  {
    && KnownOk(rounds, root, n, known)
    && SignalsOk(rounds, start, n, known, signals)
    && OutcomeOk(rounds, root, start, n, known, outcome)
    && NoneSpared(rounds, if GaveUp(outcome) then n - 1 else n, known, signals)
    && AllWentOn(rounds, start, known, Passed(n, outcome))
  }

  /** What the snapshot of a round decides before any process is looked at. */
  function Early(round: Round, root: nat, known: map<nat, Record>): Outcome {
    if round.snapshot.None? then SnapshotFailed
    else if root !in round.snapshot.value && known == map[] then RootAbsent
    else Unfinished
  }

  /** Leaving before round `n` has begun. */
  lemma StopsBefore(rounds: seq<Round>, root: nat, start: nat, n: nat, known: map<nat, Record>, signals: seq<Signal>)
    requires n < |rounds| && CleanupOk(rounds, root, start, n, known, signals, Unfinished)
    ensures CleanupOk(rounds, root, start, n, known, signals, Early(rounds[n], root, known))
  {
  }

  /** Round `n`, from its snapshot on. */
  method NextRound(rounds: seq<Round>, root: nat, start: nat, n: nat, known: map<nat, Record>, signals: seq<Signal>)
    returns (outcome: Outcome, signals': seq<Signal>, known': map<nat, Record>, n': nat)
    requires n < |rounds| && CleanupOk(rounds, root, start, n, known, signals, Unfinished)
    ensures n <= n' <= |rounds| && CleanupOk(rounds, root, start, n', known', signals', outcome)
    ensures outcome.SnapshotFailed? <==> rounds[n].snapshot.None?
    ensures outcome.RootAbsent? <==>
              rounds[n].snapshot.Some? && root !in rounds[n].snapshot.value && known == map[]
    ensures n' == if outcome.SnapshotFailed? || outcome.RootAbsent? then n else n + 1
  {
    outcome, signals', known', n' := Early(rounds[n], root, known), signals, known, n;
    StopsBefore(rounds, root, start, n, known, signals);
    if outcome.Unfinished? {
      outcome, signals', known' := FullRound(rounds, root, start, n, known, signals);
      n' := n + 1;
    }
  }

  /** Round `n` with a snapshot to go by. */
  method FullRound(rounds: seq<Round>, root: nat, start: nat, n: nat, known: map<nat, Record>, signals: seq<Signal>)
    returns (outcome: Outcome, signals': seq<Signal>, known': map<nat, Record>)
    requires n < |rounds| && rounds[n].snapshot.Some?
    requires CleanupOk(rounds, root, start, n, known, signals, Unfinished)
    ensures CleanupOk(rounds, root, start, n + 1, known', signals', outcome)
    ensures outcome !in {SnapshotFailed, RootAbsent}
  {
    var active;
    known', active := Survey(rounds, root, start, n, known, signals);
    StillWentOn(rounds, root, start, n, known, known');
    outcome, signals' := RunRound(rounds, root, start, n, known', signals, active);
    OneMoreWentOn(rounds, start, n, known', outcome);
  }

  lemma OneMoreWentOn(rounds: seq<Round>, start: nat, n: nat, known: map<nat, Record>, outcome: Outcome)
    requires n < |rounds| && AllWentOn(rounds, start, known, n)
    requires !outcome.SnapshotFailed? && !outcome.RootAbsent?
    requires outcome.Unfinished? ==> WentOn(rounds, start, known, n)
    ensures AllWentOn(rounds, start, known, Passed(n + 1, outcome))
  {
  }

  /** Run the rounds until one of them decides. */
  method TerminateTree(root: nat, start: nat, rounds: seq<Round>)
    returns (outcome: Outcome, signals: seq<Signal>, known: map<nat, Record>, n: nat)
    ensures n <= |rounds| && CleanupOk(rounds, root, start, n, known, signals, outcome)
    ensures outcome.Unfinished? ==> n == |rounds|
  {
    outcome, signals, known, n := Unfinished, [], map[], 0;
    while n < |rounds| && outcome.Unfinished?
      invariant n <= |rounds| && CleanupOk(rounds, root, start, n, known, signals, outcome)
      decreases |rounds| - n, outcome.Unfinished?
    {
      outcome, signals, known, n := NextRound(rounds, root, start, n, known, signals);
    }
  }

  /** Recording more processes keeps earlier signals justified. */
  lemma StillOk(rounds: seq<Round>, root: nat, start: nat, n: nat,
                known: map<nat, Record>, known': map<nat, Record>, signals: seq<Signal>)
    requires n < |rounds| && KnownOk(rounds, root, n, known) && KnownOk(rounds, root, n + 1, known')
    requires SignalsOk(rounds, start, n, known, signals)
    ensures SignalsOk(rounds, start, n, known', signals) && SignalsOk(rounds, start, n + 1, known', signals)
  {
    KnownOnlyGrows(rounds, root, n, known, known');
  }

  lemma StillNoneSpared(rounds: seq<Round>, root: nat, n: nat,
                        known: map<nat, Record>, known': map<nat, Record>, signals: seq<Signal>)
    requires n < |rounds| && KnownOk(rounds, root, n, known) && KnownOk(rounds, root, n + 1, known')
    requires NoneSpared(rounds, n, known, signals)
    ensures NoneSpared(rounds, n, known', signals)
  {
    KnownOnlyGrows(rounds, root, n, known, known');
    forall k, pid | 0 <= k < n && pid in known' && ActiveAt(rounds, known', k, pid) ensures Signalled(signals, k, pid) {
      var r := known'[pid].round;
      assert FirstSeen(rounds, root, pid, known'[pid]);
      assert InTree(rounds[r].snapshot.value, root, pid);
      assert ActiveAt(rounds, known, k, pid);
    }
  }

  lemma StillWentOn(rounds: seq<Round>, root: nat, start: nat, n: nat,
                    known: map<nat, Record>, known': map<nat, Record>)
    requires n < |rounds| && KnownOk(rounds, root, n, known) && KnownOk(rounds, root, n + 1, known')
    requires AllWentOn(rounds, start, known, n)
    ensures AllWentOn(rounds, start, known', n)
  {
    KnownOnlyGrows(rounds, root, n, known, known');
    forall k | 0 <= k < n ensures WentOn(rounds, start, known', k) {
      assert WentOn(rounds, start, known, k);
      var pid :| pid in known && ActiveAt(rounds, known, k, pid);
      assert ActiveAt(rounds, known', k, pid);
      forall pid | pid in known' && ActiveAt(rounds, known', k, pid) ensures KillError(rounds[k], pid).None? {
        assert FirstSeen(rounds, root, pid, known'[pid]);
        assert InTree(rounds[known'[pid].round].snapshot.value, root, pid);
        assert ActiveAt(rounds, known, k, pid);
      }
    }
  }

  lemma KnownOnlyGrows(rounds: seq<Round>, root: nat, n: nat, known: map<nat, Record>, known': map<nat, Record>)
    requires n < |rounds| && KnownOk(rounds, root, n, known) && KnownOk(rounds, root, n + 1, known')
    ensures forall pid :: pid in known ==> pid in known' && known'[pid] == known[pid]
  {
    forall pid | pid in known ensures pid in known' && known'[pid] == known[pid] {
      var r := known[pid];
      var snapshot := rounds[r.round].snapshot.value;
      assert InTree(snapshot, root, pid);
      FirstSeenUnique(rounds, root, pid, r, known'[pid]);
    }
  }

  lemma FirstSeenUnique(rounds: seq<Round>, root: nat, pid: nat, a: Record, b: Record)
    requires FirstSeen(rounds, root, pid, a) && FirstSeen(rounds, root, pid, b)
    ensures a == b
  {
    assert InTree(rounds[a.round].snapshot.value, root, pid);
    assert InTree(rounds[b.round].snapshot.value, root, pid);
    assert a.round == b.round;
    DepthIsUnique(rounds[a.round].snapshot.value, root, pid, a.depth, b.depth);
  }

  /** One more signal of round `n`, to the next active process. */
  lemma SignalStep(rounds: seq<Round>, start: nat, known: map<nat, Record>, n: nat, signals: seq<Signal>, s: Signal)
    requires SignalsOk(rounds, start, n + 1, known, signals) && SignalOk(rounds, start, known, s) && s.round == n
    requires forall j :: 0 <= j < |signals| && signals[j].round == n ==>
               signals[j].depth >= s.depth && signals[j].pid != s.pid
    ensures SignalsOk(rounds, start, n + 1, known, signals + [s])
  {
  }

  function SignalFor(n: nat, node: Node, hard: bool): Signal {
    Signal(n, node.pid, node.depth, hard)
  }

  /** What sending a signal to the process comes to, when that is an error. */
  function KillError(round: Round, pid: nat): Option<Outcome> {
    if pid > MAX_PID then Some(PidTooLarge)
    else if round.kill(pid).Refused? then Some(KillFailed)
    else None
  }

  /** Signal the active processes in order, stopping at the first real failure: of the `sent`
      processes before it each got its signal, and the others got none. */
  method SignalAll(rounds: seq<Round>, root: nat, start: nat, known: map<nat, Record>, n: nat, before: seq<Signal>,
                   active: seq<Node>, hard: bool)
    returns (signals: seq<Signal>, failed: Option<Outcome>, ghost sent: nat)
    requires ActiveOk(rounds, n, known, active) && SignalsOk(rounds, start, n, known, before)
    requires hard <==> rounds[n].chosenAt >= start + TERM_GRACE
    ensures SignalsOk(rounds, start, n + 1, known, signals) && before <= signals
    ensures sent <= |active| && |signals| == |before| + sent
    ensures forall k :: 0 <= k < sent ==>
              signals[|before| + k] == SignalFor(n, active[k], hard) && KillError(rounds[n], active[k].pid).None?
    ensures if sent == |active| then failed.None? else failed.Some? && failed == KillError(rounds[n], active[sent].pid)
    ensures failed.Some? ==> GaveUp(failed.value) && OutcomeOk(rounds, root, start, n + 1, known, failed.value)
  {
    signals, failed, sent := before, None, 0;
    for i := 0 to |active|
      invariant sent == i && |signals| == |before| + i && before <= signals
      invariant SignalsOk(rounds, start, n + 1, known, signals)
      invariant forall k :: 0 <= k < i ==>
                  signals[|before| + k] == SignalFor(n, active[k], hard) && KillError(rounds[n], active[k].pid).None?
    {
      var node := active[i];
      assert node in active && ActiveAt(rounds, known, n, node.pid);
      if node.pid > MAX_PID {
        return signals, Some(PidTooLarge), sent;
      }
      if rounds[n].kill(node.pid).Refused? {
        return signals, Some(KillFailed), sent;
      }
      NextIsLater(rounds, start, known, n, before, active, hard, signals, i);
      SignalStep(rounds, start, known, n, signals, SignalFor(n, node, hard));
      signals := signals + [SignalFor(n, node, hard)];
      sent := sent + 1;
    }
  }

  /** The next process is no deeper than those signalled in this round, and none of them. */
  lemma NextIsLater(rounds: seq<Round>, start: nat, known: map<nat, Record>, n: nat, before: seq<Signal>,
                    active: seq<Node>, hard: bool, signals: seq<Signal>, i: nat)
    requires ActiveOk(rounds, n, known, active) && SignalsOk(rounds, start, n, known, before)
    requires i < |active| && |signals| == |before| + i && before <= signals
    requires forall k :: 0 <= k < i ==> signals[|before| + k] == SignalFor(n, active[k], hard)
    ensures forall j :: 0 <= j < |signals| && signals[j].round == n ==>
              signals[j].depth >= active[i].depth && signals[j].pid != active[i].pid
  {
    assert forall k :: 0 <= k < |before| ==> signals[k] == before[k] && before[k].round < n;
    forall j | 0 <= j < |signals| && signals[j].round == n
      ensures signals[j].depth >= active[i].depth && signals[j].pid != active[i].pid
    {
      var k := j - |before|;
      assert signals[|before| + k] == SignalFor(n, active[k], hard);
      assert active[k].depth >= active[i].depth && active[k].pid != active[i].pid;
    }
  }

  // ------------------------------------------------- Children before parents

  ghost predicate Precedes(nodes: seq<Node>, a: nat, b: nat) {
    exists i, j :: 0 <= i < j < |nodes| && nodes[i].pid == a && nodes[j].pid == b
  }

  /** Listing some of the active processes, in whatever order the map yields them. */
  lemma {:induction false} ListActive(known: map<nat, Record>, snapshot: Snapshot, todo: set<nat>)
    returns (active: seq<Node>)
    requires todo <= known.Keys
    ensures DeepestFirst(active) && Distinct(active)
    ensures forall n :: n in active <==>
              n.pid in todo && IsActive(known, snapshot, n.pid) && n.depth == known[n.pid].depth
    decreases |todo|
  {
    if todo == {} {
      active := [];
    } else {
      var pid :| pid in todo;
      active := ListActive(known, snapshot, todo - {pid});
      if IsActive(known, snapshot, pid) {
        var node := Node(pid, known[pid].depth);
        InsertKeepsOrder(node, active);
        InsertedMembers(node, active);
        InsertKeepsDistinct(node, active);
        active := InsertByDepth(node, active);
      }
    }
  }

  /** What is inserted last comes behind everything at least as deep. */
  lemma {:induction false} InsertedBehind(node: Node, sorted: seq<Node>, i: nat) returns (j: nat)
    requires DeepestFirst(sorted) && i < |sorted| && sorted[i].depth >= node.depth
    ensures var r := InsertByDepth(node, sorted);
      i < j < |r| && r[i] == sorted[i] && r[j] == node
  {
    assert sorted[0].depth >= sorted[i].depth;
    if i > 0 {
      var k := InsertedBehind(node, sorted[1..], i - 1);
      j := k + 1;
    } else {
      var k := InsertedSomewhere(node, sorted[1..]);
      j := k + 1;
    }
  }

  lemma {:induction false} InsertedSomewhere(node: Node, sorted: seq<Node>) returns (j: nat)
    ensures j < |InsertByDepth(node, sorted)| && InsertByDepth(node, sorted)[j] == node
  {
    if sorted == [] || node.depth > sorted[0].depth {
      j := 0;
    } else {
      var k := InsertedSomewhere(node, sorted[1..]);
      j := k + 1;
    }
  }

  /** With the child listed last, it comes behind its parent unless it was recorded deeper. */
  lemma ListChildLast(known: map<nat, Record>, snapshot: Snapshot, child: nat, parent: nat)
    returns (active: seq<Node>)
    requires child != parent && IsActive(known, snapshot, child) && IsActive(known, snapshot, parent)
    requires known[child].depth <= known[parent].depth
    ensures DeepestFirst(active) && Distinct(active) && Precedes(active, parent, child)
    ensures forall n :: n in active <==> IsActive(known, snapshot, n.pid) && n.depth == known[n.pid].depth
  {
    var others := ListActive(known, snapshot, known.Keys - {child});
    var node := Node(child, known[child].depth);
    InsertKeepsOrder(node, others);
    InsertedMembers(node, others);
    InsertKeepsDistinct(node, others);
    active := InsertByDepth(node, others);
    var i := ListedSomewhere(others, Node(parent, known[parent].depth));
    var j := InsertedBehind(node, others, i);
    assert active[i].pid == parent && active[j].pid == child;
  }

  /** So the parent first is then a possible order. */
  lemma ParentMayBeFirst(rounds: seq<Round>, root: nat, n: nat, known: map<nat, Record>, child: nat, parent: nat)
    returns (active: seq<Node>)
    requires n < |rounds| && rounds[n].snapshot.Some? && KnownOk(rounds, root, n + 1, known) && child != parent
    requires ActiveAt(rounds, known, n, child) && ActiveAt(rounds, known, n, parent)
    requires known[child].depth <= known[parent].depth
    ensures ActiveOk(rounds, n, known, active) && Precedes(active, parent, child)
  {
    active := ListChildLast(known, rounds[n].snapshot.value, child, parent);
  }

  lemma ListedSomewhere(active: seq<Node>, node: Node) returns (i: nat)
    requires node in active
    ensures i < |active| && active[i] == node
  {
    i :| 0 <= i < |active| && active[i] == node;
  }

  /** Of a child and its parent, both active in a round, the child is signalled first in
      every order the round may take exactly when it was recorded deeper. */
  lemma ChildFirstIff(rounds: seq<Round>, root: nat, n: nat, known: map<nat, Record>, child: nat, parent: nat)
    requires n < |rounds| && rounds[n].snapshot.Some? && KnownOk(rounds, root, n + 1, known) && child != parent
    requires ActiveAt(rounds, known, n, child) && ActiveAt(rounds, known, n, parent)
    requires rounds[n].snapshot.value[child].parent == parent
    ensures (forall active: seq<Node> :: ActiveOk(rounds, n, known, active) ==> Precedes(active, child, parent))
            <==> known[child].depth > known[parent].depth
  {
    if known[child].depth > known[parent].depth {
      forall active: seq<Node> | ActiveOk(rounds, n, known, active) ensures Precedes(active, child, parent) {
        var i := ListedSomewhere(active, Node(child, known[child].depth));
        var j := ListedSomewhere(active, Node(parent, known[parent].depth));
        assert i < j;
      }
    } else {
      var active := ParentMayBeFirst(rounds, root, n, known, child, parent);
    }
  }

  /** The same of the signals actually sent. */
  lemma SignalOrder(rounds: seq<Round>, start: nat, n: nat, known: map<nat, Record>, signals: seq<Signal>,
                    i: nat, j: nat)
    requires SignalsOk(rounds, start, n, known, signals) && i < |signals| && j < |signals|
    requires signals[i].round == signals[j].round
    requires known[signals[i].pid].depth > known[signals[j].pid].depth
    ensures i < j
  {
    assert SignalOk(rounds, start, known, signals[i]) && SignalOk(rounds, start, known, signals[j]);
  }

  /** How deep the parent was when the child was first seen under it decides: the child was
      recorded deeper exactly when its parent had not moved up since its own first sighting. */
  lemma RecordedDeeperIff(rounds: seq<Round>, root: nat, n: nat, known: map<nat, Record>,
                          child: nat, parent: nat, above: nat)
    requires n <= |rounds| && KnownOk(rounds, root, n, known) && child in known && child != root
    requires rounds[known[child].round].snapshot.value[child].parent == parent
    requires Descends(rounds[known[child].round].snapshot.value, root, parent, above)
    ensures parent in known && known[parent].round <= known[child].round
    ensures known[child].depth > known[parent].depth <==> above >= known[parent].depth
  {
    var r := known[child].round;
    var snapshot := rounds[r].snapshot.value;
    assert FirstSeen(rounds, root, child, known[child]);
    ParentIsAbove(snapshot, root, child, known[child].depth);
    DepthIsUnique(snapshot, root, parent, above, known[child].depth - 1);
    assert InTree(snapshot, root, parent);
    assert FirstSeen(rounds, root, parent, known[parent]);
  }

  /** In particular children go first among processes first recorded in one snapshot. */
  lemma RecordedTogether(rounds: seq<Round>, root: nat, n: nat, known: map<nat, Record>, child: nat, parent: nat)
    requires n <= |rounds| && KnownOk(rounds, root, n, known)
    requires child in known && parent in known && known[child].round == known[parent].round && child != root
    requires rounds[known[child].round].snapshot.value[child].parent == parent
    ensures known[child].depth == known[parent].depth + 1
  {
    var snapshot := rounds[known[child].round].snapshot.value;
    assert FirstSeen(rounds, root, child, known[child]) && FirstSeen(rounds, root, parent, known[parent]);
    ParentIsAbove(snapshot, root, child, known[child].depth);
    DepthIsUnique(snapshot, root, parent, known[parent].depth, known[child].depth - 1);
  }

  /** Two snapshots of the tree under process 1. First 2, 3 and 4 hang below it in a chain;
      then 2 and 3 are gone, 4 has been adopted by 1 and started 5. */
  function ChainThenOrphan(): seq<Round> {
    var chain := map[1 := ProcessInfo(0, "a", false), 2 := ProcessInfo(1, "b", false),
                     3 := ProcessInfo(2, "c", false), 4 := ProcessInfo(3, "d", false)];
    var orphan := map[1 := ProcessInfo(0, "a", false), 4 := ProcessInfo(1, "d", false),
                      5 := ProcessInfo(4, "e", false)];
    [Round(Some(chain), 0, 0, (_: nat) => Delivered), Round(Some(orphan), 0, 0, (_: nat) => Delivered)]
  }

  lemma OrphanDepths(known: map<nat, Record>)
    requires KnownOk(ChainThenOrphan(), 1, 2, known)
    ensures 4 in known && known[4] == Record(0, "d", 3)
    ensures 5 in known && known[5] == Record(1, "e", 2)
  {
    var rounds := ChainThenOrphan();
    var chain, orphan := rounds[0].snapshot.value, rounds[1].snapshot.value;
    assert Descends(chain, 1, 1, 0) && Descends(chain, 1, 2, 1) && Descends(chain, 1, 3, 2);
    assert Descends(chain, 1, 4, 3) && InTree(chain, 1, 4);
    assert Descends(orphan, 1, 1, 0) && Descends(orphan, 1, 4, 1);
    assert Descends(orphan, 1, 5, 2) && InTree(orphan, 1, 5);
    forall depth: nat ensures !Descends(chain, 1, 5, depth) {
    }
    assert FirstSeen(rounds, 1, 4, Record(0, "d", 3)) && FirstSeen(rounds, 1, 5, Record(1, "e", 2));
    FirstSeenUnique(rounds, 1, 4, known[4], Record(0, "d", 3));
    FirstSeenUnique(rounds, 1, 5, known[5], Record(1, "e", 2));
  }

  lemma ChainIsActive(known: map<nat, Record>)
    requires KnownOk(ChainThenOrphan(), 1, 1, known)
    ensures 1 in known && IsActive(known, ChainThenOrphan()[0].snapshot.value, 1)
  {
    var chain := ChainThenOrphan()[0].snapshot.value;
    assert Descends(chain, 1, 1, 0) && InTree(chain, 1, 1);
    assert FirstSeen(ChainThenOrphan(), 1, 1, known[1]);
  }

  lemma BothRoundsRun(outcome: Outcome, signals: seq<Signal>, known: map<nat, Record>, n: nat)
    requires n <= 2 && CleanupOk(ChainThenOrphan(), 1, 0, n, known, signals, outcome)
    requires outcome.Unfinished? ==> n == 2
    ensures n == 2 && outcome.Unfinished?
  {
    if n == 1 {
      ChainIsActive(known);
    } else if n == 2 {
      OrphanDepths(known);
    }
  }

  lemma OrphanFirst(signals: seq<Signal>, known: map<nat, Record>)
    requires CleanupOk(ChainThenOrphan(), 1, 0, 2, known, signals, Unfinished)
    ensures exists i, j :: 0 <= i < j < |signals| && signals[i].round == signals[j].round == 1
                           && signals[i].pid == 4 && signals[j].pid == 5
  {
    var rounds := ChainThenOrphan();
    OrphanDepths(known);
    assert ActiveAt(rounds, known, 1, 4) && ActiveAt(rounds, known, 1, 5);
    assert Signalled(signals, 1, 4) && Signalled(signals, 1, 5);
    var i :| 0 <= i < |signals| && signals[i].round == 1 && signals[i].pid == 4;
    var j :| 0 <= j < |signals| && signals[j].round == 1 && signals[j].pid == 5;
    SignalOrder(rounds, 0, 2, known, signals, i, j);
  }

  /** So the loop can signal a parent before its child. */
  method SignalsOrphanFirst() returns (signals: seq<Signal>)
    ensures exists i, j :: 0 <= i < j < |signals| && signals[i].round == signals[j].round == 1
                           && signals[i].pid == 4 && signals[j].pid == 5
    ensures ChainThenOrphan()[1].snapshot.value[5].parent == 4
  {
    var outcome, known, n;
    outcome, signals, known, n := TerminateTree(1, 0, ChainThenOrphan());
    BothRoundsRun(outcome, signals, known, n);
    OrphanFirst(signals, known);
  }

  // ------------------------------------------------------------ What success means

  /** After a completed round the loop succeeds exactly when no recorded process is active. */
  lemma SuccessIff(rounds: seq<Round>, root: nat, start: nat, n: nat, known: map<nat, Record>,
                   signals: seq<Signal>, outcome: Outcome)
    requires 0 < n <= |rounds| && CleanupOk(rounds, root, start, n, known, signals, outcome)
    requires !outcome.SnapshotFailed? && !outcome.RootAbsent?
    ensures outcome.AllGone? <==> !SomeActive(rounds, known, n - 1)
  {
    if GaveUp(outcome) {
      assert SomeActive(rounds, known, n - 1);
    }
  }

  /** What decides: with all rounds before `n` gone on, a snapshot that fails, a root absent
      from the very first, an empty list, a kill that fails, and the clock, in that order. */
  lemma RunDecides(rounds: seq<Round>, root: nat, start: nat, n: nat, known: map<nat, Record>,
                   signals: seq<Signal>, outcome: Outcome)
    requires n <= |rounds| && CleanupOk(rounds, root, start, n, known, signals, outcome)
    requires outcome.Unfinished? ==> n == |rounds|
    ensures outcome.SnapshotFailed? <==>
              n < |rounds| && rounds[n].snapshot.None? && AllWentOn(rounds, start, known, n)
    ensures outcome.RootAbsent? <==>
              n == 0 < |rounds| && rounds[0].snapshot.Some? && root !in rounds[0].snapshot.value
    ensures outcome.Unfinished? <==> n == |rounds| && AllWentOn(rounds, start, known, n)
    ensures outcome.AllGone? || GaveUp(outcome) || outcome.StillAlive? <==>
              n > 0 && AllWentOn(rounds, start, known, n - 1) && !WentOn(rounds, start, known, n - 1)
    ensures n > 0 && (outcome.AllGone? || GaveUp(outcome) || outcome.StillAlive?) ==>
              if !SomeActive(rounds, known, n - 1) then outcome.AllGone?
              else if !NoKillError(rounds, known, n - 1) then GaveUp(outcome)
              else outcome.StillAlive? && rounds[n - 1].endedAt >= start + TERM_GRACE + KILL_WAIT
  {
    if n > 0 {
      DecidedIsNotOn(rounds, root, start, n, known, signals, outcome);
    }
  }

  lemma DecidedIsNotOn(rounds: seq<Round>, root: nat, start: nat, n: nat, known: map<nat, Record>,
                       signals: seq<Signal>, outcome: Outcome)
    requires 0 < n <= |rounds| && CleanupOk(rounds, root, start, n, known, signals, outcome)
    ensures WentOn(rounds, start, known, n - 1) <==>
              outcome.SnapshotFailed? || outcome.RootAbsent? || outcome.Unfinished?
    ensures GaveUp(outcome) ==> SomeActive(rounds, known, n - 1) && !NoKillError(rounds, known, n - 1)
  {
    if Passed(n, outcome) == n {
      assert WentOn(rounds, start, known, n - 1);
    } else if outcome.PidTooLarge? {
      var pid :| pid in known && pid > MAX_PID && ActiveAt(rounds, known, n - 1, pid);
      assert KillError(rounds[n - 1], pid).Some?;
    } else if outcome.KillFailed? {
      var pid :| pid in known && rounds[n - 1].kill(pid).Refused? && ActiveAt(rounds, known, n - 1, pid);
      assert KillError(rounds[n - 1], pid).Some?;
    }
  }

  /** The rounds in which every active process got its signal. */
  function Completed(n: nat, outcome: Outcome): int {
    if GaveUp(outcome) then n - 1 else n
  }

  /** A live process of the tree of a completed round is signalled in it exactly when its pid
      was first recorded with the identity it has now: a reused pid is passed over. */
  lemma SignalledIff(rounds: seq<Round>, root: nat, start: nat, n: nat, known: map<nat, Record>,
                     signals: seq<Signal>, outcome: Outcome, k: nat, pid: nat)
    requires n <= |rounds| && CleanupOk(rounds, root, start, n, known, signals, outcome)
    requires k < Completed(n, outcome) && rounds[k].snapshot.Some?
    requires InTree(rounds[k].snapshot.value, root, pid) && !rounds[k].snapshot.value[pid].zombie
    ensures pid in known
    ensures Signalled(signals, k, pid) <==> known[pid].identity == rounds[k].snapshot.value[pid].identity
  {
    assert FirstSeen(rounds, root, pid, known[pid]);
    assert known[pid].round <= k;
    if Signalled(signals, k, pid) {
      var i :| 0 <= i < |signals| && signals[i].round == k && signals[i].pid == pid;
      assert SignalOk(rounds, start, known, signals[i]);
    } else {
      assert !ActiveAt(rounds, known, k, pid);
    }
  }

  /** Of a process in the last tree, success says that it is a zombie or bears a pid that was
      recorded earlier under another identity. */
  lemma SuccessLeaves(rounds: seq<Round>, root: nat, start: nat, n: nat, known: map<nat, Record>,
                      signals: seq<Signal>, pid: nat)
    requires n <= |rounds| && CleanupOk(rounds, root, start, n, known, signals, AllGone)
    requires InTree(rounds[n - 1].snapshot.value, root, pid)
    ensures var last := rounds[n - 1].snapshot.value;
      && pid in known && pid in last
      && (last[pid].zombie || (known[pid].round < n - 1 && known[pid].identity != last[pid].identity))
  {
    var last := rounds[n - 1].snapshot.value;
    var depth: nat :| Descends(last, root, pid, depth);
    assert FirstSeen(rounds, root, pid, known[pid]);
  }

  /** Three snapshots of the tree under process 1: a child 7, then another process under the
      same pid, which at last has been adopted elsewhere while 1 is a zombie. */
  function ReusedPid(): seq<Round> {
    [Round(Some(map[1 := ProcessInfo(0, "a", false), 7 := ProcessInfo(1, "b", false)]), 0, 0, (_: nat) => Delivered),
     Round(Some(map[1 := ProcessInfo(0, "a", false), 7 := ProcessInfo(1, "c", false)]), 0, 0, (_: nat) => Delivered),
     Round(Some(map[1 := ProcessInfo(0, "a", true), 7 := ProcessInfo(9, "c", false)]), 0, 0, (_: nat) => Delivered)]
  }

  lemma ReusedRecords(known: map<nat, Record>, n: nat)
    requires 0 < n <= 3 && KnownOk(ReusedPid(), 1, n, known)
    ensures 1 in known && known[1] == Record(0, "a", 0)
    ensures 7 in known && known[7] == Record(0, "b", 1)
    ensures forall pid :: pid in known ==> pid == 1 || pid == 7
  {
    var rounds := ReusedPid();
    var first := rounds[0].snapshot.value;
    assert Descends(first, 1, 1, 0) && Descends(first, 1, 7, 1) && InTree(first, 1, 1) && InTree(first, 1, 7);
    assert FirstSeen(rounds, 1, 1, Record(0, "a", 0)) && FirstSeen(rounds, 1, 7, Record(0, "b", 1));
    FirstSeenUnique(rounds, 1, 1, known[1], Record(0, "a", 0));
    FirstSeenUnique(rounds, 1, 7, known[7], Record(0, "b", 1));
    forall pid | pid in known ensures pid == 1 || pid == 7 {
      assert FirstSeen(rounds, 1, pid, known[pid]);
    }
  }

  lemma ReusedRunEnds(outcome: Outcome, signals: seq<Signal>, known: map<nat, Record>, n: nat)
    requires n <= 3 && CleanupOk(ReusedPid(), 1, 0, n, known, signals, outcome)
    requires outcome.Unfinished? ==> n == 3
    ensures n == 3 && outcome.AllGone?
  {
    if n > 0 {
      ReusedRecords(known, n);
      assert ActiveAt(ReusedPid(), known, 0, 1) && ActiveAt(ReusedPid(), known, 1, 1);
      assert !ActiveAt(ReusedPid(), known, 2, 1) && !ActiveAt(ReusedPid(), known, 2, 7);
    }
  }

  lemma ReusedIsSpared(signals: seq<Signal>, known: map<nat, Record>)
    requires CleanupOk(ReusedPid(), 1, 0, 3, known, signals, AllGone)
    ensures Signalled(signals, 0, 7) && forall s :: s in signals && s.pid == 7 ==> s.round == 0
  {
    var rounds := ReusedPid();
    ReusedRecords(known, 3);
    assert ActiveAt(rounds, known, 0, 7);
    forall s | s in signals && s.pid == 7 ensures s.round == 0 {
      assert SignalOk(rounds, 0, known, s);
    }
  }

  /** So the loop can succeed while a process that was under the root lives, never signalled. */
  method SucceedsOverReusedPid() returns (outcome: Outcome, signals: seq<Signal>)
    ensures outcome.AllGone? && Signalled(signals, 0, 7) && forall s :: s in signals && s.pid == 7 ==> s.round == 0
    ensures Descends(ReusedPid()[1].snapshot.value, 1, 7, 1)
    ensures var last := ReusedPid()[2].snapshot.value[7];
      last.identity == ReusedPid()[1].snapshot.value[7].identity && !last.zombie
  {
    var known, n;
    outcome, signals, known, n := TerminateTree(1, 0, ReusedPid());
    ReusedRunEnds(outcome, signals, known, n);
    ReusedIsSpared(signals, known);
    assert Descends(ReusedPid()[1].snapshot.value, 1, 1, 0);
  }
}
