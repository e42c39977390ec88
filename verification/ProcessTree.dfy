/** Processes below a root by parent links: the closure loop of `process_tree_sample`. */
module ProcessTree {

  /** One row of the process table: parent pid and resident bytes. */
  datatype Process = Process(ppid: int, rss: nat)

  /** `pid` is reached from `root` by exactly `n` parent links read upwards. */
  predicate Descends(processes: map<int, Process>, root: int, pid: int, n: nat)
    decreases n
  {
    if n == 0 then pid == root
    else pid in processes && Descends(processes, root, processes[pid].ppid, n - 1)
  }

  ghost predicate Descendant(processes: map<int, Process>, root: int, pid: int) {
    exists n: nat :: Descends(processes, root, pid, n)
  }

  /** Pids whose recorded parent is already owned. */
  function Children(processes: map<int, Process>, owned: set<int>): set<int> {
    set pid | pid in processes && processes[pid].ppid in owned
  }

  /** Resident bytes of those of the pids that the table knows. */
  ghost function Resident(processes: map<int, Process>, pids: set<int>): nat
    decreases pids
  {
    if pids == {} then 0
    else
      var pid := Pick(pids);
      RssOf(processes, pid) + Resident(processes, pids - {pid})
  }

  function RssOf(processes: map<int, Process>, pid: int): nat {
    if pid in processes then processes[pid].rss else 0
  }

  ghost function Pick(pids: set<int>): (pid: int)
    requires pids != {}
    ensures pid in pids
  {
    Inhabited(pids);
    var pid :| pid in pids;
    pid
  }

  lemma Inhabited(pids: set<int>)
    ensures pids == {} || exists pid :: pid in pids
  {
    if forall pid :: pid !in pids {
      assert pids == {};
    }
  }

  /** The sum does not depend on the order in which pids are taken. */
  lemma {:induction false} ResidentTakesOut(processes: map<int, Process>, pids: set<int>, pid: int)
    requires pid in pids
    ensures Resident(processes, pids) ==
            (if pid in processes then processes[pid].rss else 0) + Resident(processes, pids - {pid})
    decreases pids
  {
    var first := Pick(pids);
    if first != pid {
      ResidentTakesOut(processes, pids - {first}, pid);
      ResidentTakesOut(processes, pids - {pid}, first);
      assert pids - {first} - {pid} == pids - {pid} - {first};
    }
  }

  method SumResident(processes: map<int, Process>, pids: set<int>) returns (total: nat)
    ensures total == Resident(processes, pids)
  {
    total := 0;
    var rest := pids;
    while rest != {}
      invariant rest <= pids && total + Resident(processes, rest) == Resident(processes, pids)
      decreases rest
    {
      Inhabited(rest);
      var pid :| pid in rest;
      ResidentTakesOut(processes, rest, pid);
      rest := rest - {pid};
      if pid in processes {
        total := total + processes[pid].rss;
      }
    }
  }

  /** The loop ends, even on a table whose parent links form a cycle, with exactly the root's descendants. */
  method ProcessTreeSample(processes: map<int, Process>, root: int) returns (owned: set<int>, rssSum: nat)
    ensures forall pid :: pid in owned <==> Descendant(processes, root, pid)
    ensures rssSum == Resident(processes, owned)
  {
    owned := {root};
    assert Descends(processes, root, root, 0);
    while true
      invariant root in owned && owned <= processes.Keys + {root}
      invariant forall pid :: pid in owned ==> Descendant(processes, root, pid)
      decreases processes.Keys + {root} - owned
    {
      var expanded := owned + Children(processes, owned);
      if expanded == owned {
        break;
      }
      forall pid | pid in Children(processes, owned) ensures Descendant(processes, root, pid) {
        var n: nat :| Descends(processes, root, processes[pid].ppid, n);
        assert Descends(processes, root, pid, n + 1);
      }
      LessIsLeft(processes.Keys + {root}, owned, expanded);
      owned := expanded;
    }
    forall pid | Descendant(processes, root, pid) ensures pid in owned {
      var n: nat :| Descends(processes, root, pid, n);
      ClosedHoldsDescendants(processes, root, owned, pid, n);
    }
    rssSum := SumResident(processes, owned);
  }

  lemma LessIsLeft(all: set<int>, owned: set<int>, expanded: set<int>)
    requires owned <= expanded <= all
    ensures all - expanded <= all - owned
    ensures all - expanded == all - owned ==> expanded == owned
  {
    if all - expanded == all - owned {
      forall pid | pid in expanded ensures pid in owned {
        assert pid !in all - expanded;
      }
    }
  }

  /** A set that has the root and all children of its members has every descendant. */
  lemma {:induction false} ClosedHoldsDescendants(processes: map<int, Process>, root: int, owned: set<int>, pid: int,
                                                  n: nat)
    requires root in owned && Children(processes, owned) <= owned
    requires Descends(processes, root, pid, n)
    ensures pid in owned
    decreases n
  {
    if n > 0 {
      ClosedHoldsDescendants(processes, root, owned, processes[pid].ppid, n - 1);
      assert pid in Children(processes, owned);
    }
  }

  /** Being owned is hereditary, and nothing but the root is owned without an owned parent. */
  lemma DescendantsAreHereditary(processes: map<int, Process>, root: int, pid: int)
    ensures Descendant(processes, root, pid) <==>
            pid == root || (pid in processes && Descendant(processes, root, processes[pid].ppid))
  {
    if Descendant(processes, root, pid) {
      var n: nat :| Descends(processes, root, pid, n);
      if n > 0 {
        assert Descends(processes, root, processes[pid].ppid, n - 1);
      }
    }
    if pid == root {
      assert Descends(processes, root, pid, 0);
    } else if pid in processes && Descendant(processes, root, processes[pid].ppid) {
      var n: nat :| Descends(processes, root, processes[pid].ppid, n);
      assert Descends(processes, root, pid, n + 1);
    }
  }
}
