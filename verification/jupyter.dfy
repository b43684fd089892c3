/**
 * `get_jupyter_pids`: the pids, in the order the process table lists them,
 * of the processes whose command line mentions Jupyter in any letter case.
 * The process table is a snapshot taken as input.
 */
module Jupyter {
  import opened Wrappers
  import opened Text

  /**
   * One process of the snapshot: its pid and its command line, or `None`
   * when reading it raised `NoSuchProcess` or `AccessDenied`.
   */
  datatype ProcessEntry = ProcessEntry(pid: int, cmdline: Option<seq<string>>)

  /** The command line, joined with spaces and lower-cased, contains `"jupyter"`. */
  predicate IsJupyter(e: ProcessEntry) {
    e.cmdline.Some? && IsInfix("jupyter", Lower(JoinSpace(e.cmdline.value)))
  }

  /** The pids of the Jupyter processes of `snapshot`, in snapshot order. */
  function JupyterPids(snapshot: seq<ProcessEntry>): seq<int>
    decreases |snapshot|
  {
    if snapshot == [] then []
    else
      var last := snapshot[|snapshot| - 1];
      JupyterPids(snapshot[..|snapshot| - 1]) + (if IsJupyter(last) then [last.pid] else [])
  }

  /** The positions of the Jupyter processes of `snapshot`, in increasing order. */
  function JupyterPositions(snapshot: seq<ProcessEntry>): seq<nat>
    decreases |snapshot|
  {
    if snapshot == [] then []
    else
      var n := |snapshot| - 1;
      JupyterPositions(snapshot[..n]) + (if IsJupyter(snapshot[n]) then [n] else [])
  }

  /** The loop over the process table, appending each matching pid. */
  method GetJupyterPids(snapshot: seq<ProcessEntry>) returns (pids: seq<int>)
    ensures pids == JupyterPids(snapshot)
  {
    pids := [];
    for i := 0 to |snapshot|
      invariant pids == JupyterPids(snapshot[..i])
    {
      assert snapshot[..i + 1][..i] == snapshot[..i];
      var entry := snapshot[i];
      match entry.cmdline {
        case None =>
        case Some(args) =>
          var cmdline := Lower(JoinSpace(args));
          if IsInfix("jupyter", cmdline) {
            pids := pids + [entry.pid];
          }
      }
    }
    assert snapshot[..|snapshot|] == snapshot;
  }

  /**
   * The result is the snapshot's pids at exactly the Jupyter positions, taken
   * in increasing position order: an order-preserving filter that drops
   * every process whose command line could not be read.
   */
  lemma {:induction false} PidsAtJupyterPositions(snapshot: seq<ProcessEntry>)
    ensures var pos := JupyterPositions(snapshot);
            && |JupyterPids(snapshot)| == |pos|
            && (forall k :: 0 <= k < |pos| ==> pos[k] < |snapshot| && JupyterPids(snapshot)[k] == snapshot[pos[k]].pid)
            && (forall k, l :: 0 <= k < l < |pos| ==> pos[k] < pos[l])
            && (forall i :: 0 <= i < |snapshot| ==> (i in pos <==> IsJupyter(snapshot[i])))
    decreases |snapshot|
  {
    if snapshot != [] {
      var n := |snapshot| - 1;
      var pre := snapshot[..n];
      PidsAtJupyterPositions(pre);
      var pos0 := JupyterPositions(pre);
      var r0 := JupyterPids(pre);
      var j := IsJupyter(snapshot[n]);
      var pos := pos0 + (if j then [n] else []);
      var r := r0 + (if j then [snapshot[n].pid] else []);
      assert JupyterPositions(snapshot) == pos;
      assert JupyterPids(snapshot) == r;
      forall k | 0 <= k < |pos| ensures pos[k] < |snapshot| && r[k] == snapshot[pos[k]].pid {
        if k < |pos0| {
          assert snapshot[pos0[k]] == pre[pos0[k]];
        }
      }
      forall i | 0 <= i < |snapshot| ensures i in pos <==> IsJupyter(snapshot[i]) {
        if i < n {
          assert snapshot[i] == pre[i];
          assert n !in pos0;
        }
      }
    }
  }

  /** A pid is reported exactly when some process with that pid has a Jupyter command line. */
  lemma JupyterPidMembership(snapshot: seq<ProcessEntry>, pid: int)
    ensures pid in JupyterPids(snapshot) <==>
            exists i :: 0 <= i < |snapshot| && snapshot[i].pid == pid && IsJupyter(snapshot[i])
  {
    PidsAtJupyterPositions(snapshot);
    var pos := JupyterPositions(snapshot);
    var r := JupyterPids(snapshot);
    if pid in r {
      var k :| 0 <= k < |r| && r[k] == pid;
      assert snapshot[pos[k]].pid == pid && pos[k] in pos;
    }
    if exists i :: 0 <= i < |snapshot| && snapshot[i].pid == pid && IsJupyter(snapshot[i]) {
      var i :| 0 <= i < |snapshot| && snapshot[i].pid == pid && IsJupyter(snapshot[i]);
      var k :| 0 <= k < |pos| && pos[k] == i;
      assert r[k] == pid;
    }
  }

  /** The match ignores letter case: a command line naming `JupyterLab` counts. */
  lemma MatchIgnoresCase(pid: int)
    ensures IsJupyter(ProcessEntry(pid, Some(["JupyterLab"])))
  {
    var hay := Lower(JoinSpace(["JupyterLab"]));
    assert hay[..7] == "jupyter";
    assert "jupyter" <= hay;
  }
}
