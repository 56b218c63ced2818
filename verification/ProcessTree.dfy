// scripts/bench-gateway-startup.ts: CPU time of a process and everything it started.
module ProcessTree {
  import opened Wrappers

  /** A line of `ps`: process, parent, CPU time in milliseconds. */
  datatype Row = Row(pid: nat, ppid: nat, cpu: nat)

  // ---------- What the table says ----------

  function ChildrenOf(rows: seq<Row>, ppid: nat): (r: seq<nat>)
    ensures forall c :: c in r <==> exists row :: row in rows && row.ppid == ppid && row.pid == c
  {
    if rows == [] then []
    else
      var init, last := rows[..|rows| - 1], rows[|rows| - 1];
      assert rows == init + [last];
      ChildrenOf(init, ppid) + (if last.ppid == ppid then [last.pid] else [])
  }

  /** The last line for a process counts. */
  function CpuOf(rows: seq<Row>, pid: nat): Option<nat> {
    if rows == [] then None
    else
      var last := rows[|rows| - 1];
      if last.pid == pid then Some(last.cpu) else CpuOf(rows[..|rows| - 1], pid)
  }

  lemma {:induction false} LastLineCounts(rows: seq<Row>, i: nat)
    requires i < |rows| && forall j :: i < j < |rows| ==> rows[j].pid != rows[i].pid
    ensures CpuOf(rows, rows[i].pid) == Some(rows[i].cpu)
  {
    if i < |rows| - 1 {
      LastLineCounts(rows[..|rows| - 1], i);
    }
  }

  lemma {:induction false} UnlistedCountsNothing(rows: seq<Row>, pid: nat)
    requires forall row <- rows :: row.pid != pid
    ensures CpuOf(rows, pid) == None
  {
    if rows != [] {
      UnlistedCountsNothing(rows[..|rows| - 1], pid);
    }
  }

  /** Each process is the parent of the next; process 0 is never entered. */
  ghost predicate IsPath(rows: seq<Row>, path: seq<nat>) {
    && path != []
    && (forall i :: 0 <= i < |path| ==> path[i] != 0)
    && forall i :: 0 <= i < |path| - 1 ==> path[i + 1] in ChildrenOf(rows, path[i])
  }

  ghost predicate Reachable(rows: seq<Row>, root: nat, pid: nat) {
    exists path :: IsPath(rows, path) && path[0] == root && path[|path| - 1] == pid
  }

  ghost function Listed(rows: seq<Row>): set<nat> {
    set row | row in rows :: row.pid
  }

  /** The tree under the root, as a set: each process once, however often and along whatever cycles it is listed. */
  ghost function Tree(rows: seq<Row>, root: nat): set<nat> {
    set pid | pid in Listed(rows) + {root} && Reachable(rows, root, pid)
  }

  ghost function Total(rows: seq<Row>, pids: set<nat>): nat {
    if pids == {} then 0
    else
      var pid :| pid in pids;
      CpuOf(rows, pid).GetOr(0) + Total(rows, pids - {pid})
  }

  lemma {:induction false} TotalOf(rows: seq<Row>, pids: set<nat>, pid: nat)
    requires pid in pids
    ensures Total(rows, pids) == CpuOf(rows, pid).GetOr(0) + Total(rows, pids - {pid})
  {
    var chosen :| chosen in pids && Total(rows, pids) == CpuOf(rows, chosen).GetOr(0) + Total(rows, pids - {chosen});
    if chosen != pid {
      TotalOf(rows, pids - {chosen}, pid);
      TotalOf(rows, pids - {pid}, chosen);
      assert pids - {chosen} - {pid} == pids - {pid} - {chosen};
    }
  }

  // ---------- Paths ----------

  lemma RootReachable(rows: seq<Row>, root: nat)
    requires root != 0
    ensures Reachable(rows, root, root)
  {
    assert IsPath(rows, [root]);
  }

  lemma {:induction false} ChildReachable(rows: seq<Row>, root: nat, pid: nat, child: nat)
    requires Reachable(rows, root, pid) && child in ChildrenOf(rows, pid) && child != 0
    ensures Reachable(rows, root, child)
  {
    var path :| IsPath(rows, path) && path[0] == root && path[|path| - 1] == pid;
    var longer := path + [child];
    var n := |path|;
    hide ChildrenOf;
    forall i | 0 <= i < n ensures longer[i + 1] in ChildrenOf(rows, longer[i]) {
      if i < n - 1 {
        assert path[i + 1] in ChildrenOf(rows, path[i]);
      }
    }
    assert IsPath(rows, longer) && longer[0] == root && longer[|longer| - 1] == child;
  }

  lemma ReachableInTree(rows: seq<Row>, root: nat, pid: nat)
    requires Reachable(rows, root, pid)
    ensures pid in Tree(rows, root) && pid != 0
  {
    var path :| IsPath(rows, path) && path[0] == root && path[|path| - 1] == pid;
    if |path| > 1 {
      assert path[|path| - 2 + 1] in ChildrenOf(rows, path[|path| - 2]);
      var row :| row in rows && row.pid == pid;
      assert pid in Listed(rows);
    }
  }

  ghost predicate Closed(rows: seq<Row>, seen: set<nat>, stack: seq<nat>) {
    forall p, c :: p in seen && c in ChildrenOf(rows, p) ==> c == 0 || c in seen || c in stack
  }

  lemma {:induction false} PathStaysIn(rows: seq<Row>, seen: set<nat>, path: seq<nat>)
    requires IsPath(rows, path) && path[0] in seen && Closed(rows, seen, [])
    ensures path[|path| - 1] in seen
    decreases |path|
  {
    if |path| > 1 {
      assert path[0 + 1] in ChildrenOf(rows, path[0]);
      var rest := path[1..];
      forall i | 0 <= i < |rest| - 1 ensures rest[i + 1] in ChildrenOf(rows, rest[i]) {
        assert path[i + 1 + 1] in ChildrenOf(rows, path[i + 1]);
      }
      PathStaysIn(rows, seen, rest);
    }
  }

  /** A set that holds the root, nothing unreachable, and the children of its members, is the tree. */
  lemma SeenIsTree(rows: seq<Row>, root: nat, seen: set<nat>)
    requires root in seen && seen <= Tree(rows, root) && Closed(rows, seen, [])
    ensures seen == Tree(rows, root)
  {
    forall pid | pid in Tree(rows, root) ensures pid in seen {
      var path :| IsPath(rows, path) && path[0] == root && path[|path| - 1] == pid;
      PathStaysIn(rows, seen, path);
    }
  }

  ghost predicate AllReachable(rows: seq<Row>, root: nat, pids: seq<nat>) {
    forall p :: p in pids && p != 0 ==> Reachable(rows, root, p)
  }

  /** Between two pops: what is seen is counted and in the tree, what it leads to is seen or waiting. */
  ghost predicate Walking(rows: seq<Row>, root: nat, seen: set<nat>, stack: seq<nat>, sum: nat) {
    && sum == Total(rows, seen)
    && (root in seen || root in stack)
    && seen <= Tree(rows, root)
    && AllReachable(rows, root, stack)
    && Closed(rows, seen, stack)
  }

  lemma Begin(rows: seq<Row>, root: nat)
    requires root != 0
    ensures Walking(rows, root, {}, [root], 0)
  {
    RootReachable(rows, root);
  }

  lemma Skip(rows: seq<Row>, root: nat, seen: set<nat>, stack: seq<nat>, pid: nat, sum: nat)
    requires root != 0 && (pid == 0 || pid in seen) && Walking(rows, root, seen, stack + [pid], sum)
    ensures Walking(rows, root, seen, stack, sum)
  {
    hide ChildrenOf, Reachable, Tree, Total;
    assert forall p :: p in stack ==> p in stack + [pid];
  }

  lemma {:induction false} VisitCloses(rows: seq<Row>, root: nat, seen: set<nat>, stack: seq<nat>, pid: nat)
    requires pid != 0 && AllReachable(rows, root, stack + [pid]) && Closed(rows, seen, stack + [pid])
    ensures Reachable(rows, root, pid)
    ensures AllReachable(rows, root, stack + ChildrenOf(rows, pid))
    ensures Closed(rows, seen + {pid}, stack + ChildrenOf(rows, pid))
  {
    assert pid in stack + [pid];
    hide ChildrenOf, Reachable;
    forall c | c in stack + ChildrenOf(rows, pid) && c != 0 ensures Reachable(rows, root, c) {
      if c in stack {
        assert c in stack + [pid];
      } else {
        ChildReachable(rows, root, pid, c);
      }
    }
    forall p, c | p in seen + {pid} && c in ChildrenOf(rows, p) && c != 0 && c !in seen + {pid}
      ensures c in stack + ChildrenOf(rows, pid)
    {
      if p != pid {
        assert c in stack + [pid];
      }
    }
  }

  lemma {:induction false} Visit(rows: seq<Row>, root: nat, seen: set<nat>, stack: seq<nat>, pid: nat, sum: nat)
    requires pid != 0 && pid !in seen && Walking(rows, root, seen, stack + [pid], sum)
    ensures pid in Tree(rows, root)
    ensures Walking(rows, root, seen + {pid}, stack + ChildrenOf(rows, pid), sum + CpuOf(rows, pid).GetOr(0))
  {
    hide ChildrenOf, Reachable, Tree, Total, Closed, AllReachable;
    VisitCloses(rows, root, seen, stack, pid);
    ReachableInTree(rows, root, pid);
    TotalOf(rows, seen + {pid}, pid);
    assert seen + {pid} - {pid} == seen;
  }

  lemma {:induction false} WalkedAll(rows: seq<Row>, root: nat, seen: set<nat>, sum: nat)
    requires Walking(rows, root, seen, [], sum)
    ensures sum == Total(rows, Tree(rows, root))
  {
    hide Tree, Total;
    SeenIsTree(rows, root, seen);
  }

  // ---------- The walk ----------

  /** `childrenByParent.get(p) ?? []`. */
  function ChildrenIn(children: map<nat, seq<nat>>, p: nat): seq<nat> {
    if p in children then children[p] else []
  }

  function CpuIn(cpu: map<nat, nat>, p: nat): Option<nat> {
    if p in cpu then Some(cpu[p]) else None
  }

  ghost predicate TablesRight(rows: seq<Row>, children: map<nat, seq<nat>>, cpu: map<nat, nat>) {
    && (forall p :: ChildrenIn(children, p) == ChildrenOf(rows, p))
    && forall p :: CpuIn(cpu, p) == CpuOf(rows, p)
  }

  lemma NextRow(rows: seq<Row>, i: nat, children: map<nat, seq<nat>>, cpu: map<nat, nat>)
    requires i < |rows| && TablesRight(rows[..i], children, cpu)
    ensures
      var row := rows[i];
      TablesRight(rows[..i + 1],
                  children[row.ppid := ChildrenIn(children, row.ppid) + [row.pid]], cpu[row.pid := row.cpu])
  {
    var row, more := rows[i], rows[..i + 1];
    var children' := children[row.ppid := ChildrenIn(children, row.ppid) + [row.pid]];
    assert more[..i] == rows[..i] && more[i] == row;
    forall p ensures ChildrenIn(children', p) == ChildrenOf(more, p) {
      assert ChildrenIn(children, p) == ChildrenOf(rows[..i], p);
    }
    forall p ensures CpuIn(cpu[row.pid := row.cpu], p) == CpuOf(more, p) {
      assert CpuIn(cpu, p) == CpuOf(rows[..i], p);
    }
  }

  lemma {:induction false} LookUp(rows: seq<Row>, children: map<nat, seq<nat>>, cpu: map<nat, nat>, p: nat)
    requires TablesRight(rows, children, cpu)
    ensures ChildrenIn(children, p) == ChildrenOf(rows, p) && CpuIn(cpu, p) == CpuOf(rows, p)
  {
  }

  method BuildTables(rows: seq<Row>) returns (children: map<nat, seq<nat>>, cpu: map<nat, nat>)
    ensures TablesRight(rows, children, cpu)
  {
    children, cpu := map[], map[];
    assert rows[..0] == [];
    assert TablesRight([], children, cpu);
    hide TablesRight;
    for i := 0 to |rows|
      invariant TablesRight(rows[..i], children, cpu)
    {
      var row := rows[i];
      NextRow(rows, i, children, cpu);
      cpu := cpu[row.pid := row.cpu];
      var siblings := ChildrenIn(children, row.ppid);
      children := children[row.ppid := siblings + [row.pid]];
    }
    assert rows[..|rows|] == rows;
  }

  /**
   * Nothing without a root, a table or a line for the root; otherwise the tree's total.
   * `ps` is None on Windows and when the command fails.
   */
  method ReadProcessTreeCpuMs(root: Option<nat>, ps: Option<seq<Row>>) returns (total: Option<nat>)
    ensures total.Some? <==> root.Some? && root.value != 0 && ps.Some? && CpuOf(ps.value, root.value).Some?
    ensures total.Some? ==> total.value == Total(ps.value, Tree(ps.value, root.value))
  {
    if root.None? || root.value == 0 || ps.None? {
      return None;
    }
    var rows, rootPid := ps.value, root.value;
    var children, cpu := BuildTables(rows);
    LookUp(rows, children, cpu, rootPid);
    if rootPid !in cpu {
      return None;
    }
    var sum: nat := 0;
    var seen: set<nat> := {};
    var stack := [rootPid];
    hide ChildrenOf, CpuOf, Tree, Walking, TablesRight, ChildrenIn, CpuIn;
    Begin(rows, rootPid);
    while |stack| > 0
      invariant Walking(rows, rootPid, seen, stack, sum)
      decreases Tree(rows, rootPid) - seen, |stack|
    {
      var pid := stack[|stack| - 1];
      assert stack == stack[..|stack| - 1] + [pid];
      stack := stack[..|stack| - 1];
      if pid == 0 || pid in seen {
        Skip(rows, rootPid, seen, stack, pid, sum);
        continue;
      }
      Visit(rows, rootPid, seen, stack, pid, sum);
      LookUp(rows, children, cpu, pid);
      seen := seen + {pid};
      sum := sum + CpuIn(cpu, pid).GetOr(0);
      var next := ChildrenIn(children, pid);
      ghost var base := stack;
      for i := 0 to |next|
        invariant stack == base + next[..i]
      {
        stack := stack + [next[i]];
      }
      assert next[..|next|] == next;
    }
    assert stack == [];
    WalkedAll(rows, rootPid, seen, sum);
    return Some(sum);
  }

  // ---------- The order of the lines ----------

  ghost predicate OncePerProcess(rows: seq<Row>) {
    forall i, j :: 0 <= i < j < |rows| ==> rows[i].pid != rows[j].pid
  }

  lemma {:induction false} CpuOfListed(rows: seq<Row>, pid: nat)
    requires OncePerProcess(rows)
    ensures forall row :: row in rows ==> row.pid == pid ==> CpuOf(rows, pid) == Some(row.cpu)
    ensures CpuOf(rows, pid).Some? ==> exists row :: row in rows && row.pid == pid
  {
    if rows != [] {
      var init, last := rows[..|rows| - 1], rows[|rows| - 1];
      assert rows == init + [last];
      CpuOfListed(init, pid);
    }
  }

  lemma {:induction false} SameTree(a: seq<Row>, b: seq<Row>, root: nat)
    requires forall row :: row in a ==> row in b
    requires forall p, c :: c in ChildrenOf(a, p) ==> c in ChildrenOf(b, p)
    ensures Tree(a, root) <= Tree(b, root)
  {
    forall pid | pid in Tree(a, root) ensures pid in Tree(b, root) {
      var path :| IsPath(a, path) && path[0] == root && path[|path| - 1] == pid;
      assert IsPath(b, path);
    }
  }

  lemma {:induction false} SameTotal(a: seq<Row>, b: seq<Row>, pids: set<nat>)
    requires forall pid :: CpuOf(a, pid) == CpuOf(b, pid)
    ensures Total(a, pids) == Total(b, pids)
  {
    if pids != {} {
      var pid :| pid in pids;
      TotalOf(a, pids, pid);
      TotalOf(b, pids, pid);
      SameTotal(a, b, pids - {pid});
    }
  }

  /** When each process is listed once, the lines may come in any order. */
  lemma {:induction false} LineOrderIsIrrelevant(a: seq<Row>, b: seq<Row>, root: nat)
    requires OncePerProcess(a) && OncePerProcess(b)
    requires forall row :: row in a <==> row in b
    ensures Tree(a, root) == Tree(b, root)
    ensures Total(a, Tree(a, root)) == Total(b, Tree(b, root))
    ensures CpuOf(a, root) == CpuOf(b, root)
  {
    forall p, c ensures c in ChildrenOf(a, p) <==> c in ChildrenOf(b, p) {
    }
    SameTree(a, b, root);
    SameTree(b, a, root);
    forall pid ensures CpuOf(a, pid) == CpuOf(b, pid) {
      CpuOfListed(a, pid);
      CpuOfListed(b, pid);
    }
    SameTotal(a, b, Tree(a, root));
  }
}
