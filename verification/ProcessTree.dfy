/** `process_tree` of `scripts/vps/smoke-agent-bootstrap.py`: the worklist closure of a child relation. */
module ProcessTree {

  /** What the `children` files say at one moment; a process without a file has none. */
  type Table = map<int, seq<int>>

  function Children(table: Table, pid: int): seq<int> {
    if pid in table then table[pid] else []
  }

  ghost predicate IsPath(table: Table, root: int, path: seq<int>, pid: int) {
    && path != [] && path[0] == root && path[|path| - 1] == pid
    && forall i :: 0 <= i < |path| - 1 ==> path[i + 1] in Children(table, path[i])
  }

  ghost predicate Reachable(table: Table, root: int, pid: int) {
    exists path :: IsPath(table, root, path, pid)
  }

  lemma RootIsReachable(table: Table, root: int)
    ensures Reachable(table, root, root)
  {
    assert IsPath(table, root, [root], root);
  }

  lemma ChildIsReachable(table: Table, root: int, pid: int, child: int)
    requires Reachable(table, root, pid) && child in Children(table, pid)
    ensures Reachable(table, root, child)
  {
    var path :| IsPath(table, root, path, pid);
    var longer := path + [child];
    forall i | 0 <= i < |longer| - 1 ensures longer[i + 1] in Children(table, longer[i]) {
      assert longer[i] == path[i];
    }
    assert IsPath(table, root, longer, child);
  }

  /** A set that holds the root and the children of its members holds whatever a path leads to. */
  lemma {:induction false} ClosedHoldsPath(table: Table, root: int, found: set<int>, path: seq<int>, pid: int)
    requires root in found
    requires forall p, c :: p in found && c in Children(table, p) ==> c in found
    requires IsPath(table, root, path, pid)
    ensures pid in found
  {
    if |path| > 1 {
      var n := |path| - 1;
      var before := path[..n];
      forall i | 0 <= i < n - 1 ensures before[i + 1] in Children(table, before[i]) {
        assert path[i + 1] in Children(table, path[i]);
      }
      ClosedHoldsPath(table, root, found, before, path[n - 1]);
      assert path[n - 1 + 1] in Children(table, path[n - 1]);
    }
  }

  /** All processes that are mentioned at all. */
  ghost function Mentioned(table: Table, root: int): set<int> {
    {root} + table.Keys + set p, c | p in table && c in table[p] :: c
  }

  method ProcessTree(table: Table, root: int) returns (found: set<int>)
    ensures forall pid :: pid in found <==> Reachable(table, root, pid)
  {
    found := {};
    var pending := [root];
    RootIsReachable(table, root);
    while pending != []
      invariant found <= Mentioned(table, root)
      invariant forall pid :: pid in pending ==> pid in Mentioned(table, root)
      invariant forall pid :: pid in found || pid in pending ==> Reachable(table, root, pid)
      invariant root in found || root in pending
      invariant forall p, c :: p in found && c in Children(table, p) ==> c in found || c in pending
      decreases Mentioned(table, root) - found, |pending|
    {
      var n := |pending| - 1;
      var pid := pending[n];
      assert pending == pending[..n] + [pid];
      pending := pending[..n];
      if pid in found {
        continue;
      }
      found := found + {pid};
      if pid in table {
        forall c | c in table[pid] ensures Reachable(table, root, c) {
          ChildIsReachable(table, root, pid, c);
        }
        pending := pending + table[pid];
      }
    }
    forall pid | Reachable(table, root, pid) ensures pid in found {
      var path :| IsPath(table, root, path, pid);
      ClosedHoldsPath(table, root, found, path, pid);
    }
  }
}
