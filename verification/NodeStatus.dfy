/** A node's snapshot flags and mailboxes and the apply worker's pass over them, as the methods that
    change them. A pass by itself is the composition of the steps that interleave in the pipeline. */
module NodeStatus {
  import opened Bytes
  import opened SnapshotPipeline

  /** The steps of a pass, one after the other, up to handing over to the state machine or giving the
      node up for this round. */
  function Pass(n: Node, steps: nat): Applied
    decreases steps
  {
    if steps == 0 || n.phase == AtTask then Applied(n, false)
    else
      var a := Apply(n, None, false);
      if a.panicked || a.node.phase == AtSave then a else Pass(a.node, steps - 1)
  }

  class SnapshotStatus {
    const onDisk: bool
    const concurrent: bool
    var initialized: bool
    var flags: set<Kind>
    var ready: set<Kind>
    var completed: map<Kind, bool>

    constructor (onDisk: bool, concurrent: bool)
      ensures View(AtSave) == NEW_NODE.(onDisk := onDisk, concurrent := concurrent)
    {
      this.onDisk, this.concurrent, initialized := onDisk, concurrent, false;
      flags, ready, completed := {}, {}, map[];
    }

    function View(phase: Phase): Node
      reads this
    {
      Node(onDisk, concurrent, initialized, flags, ready, completed, phase)
    }

    /** setTask on a ready mailbox. */
    method SetReady(k: Kind) returns (panicked: bool)
      modifies this`ready
      ensures panicked <==> k in old(ready)
      ensures ready == old(ready) + {k}
    {
      panicked := k in ready;
      ready := ready + {k};
    }

    /** getTask on a completed mailbox. */
    method TakeCompleted(k: Kind) returns (task: Option<bool>)
      modifies this`completed
      ensures task == if k in old(completed) then Some(old(completed)[k]) else None
      ensures completed == old(completed) - {k}
    {
      task := if k in completed then Some(completed[k]) else None;
      completed := completed - {k};
    }

    method ReportRequest(k: Kind) returns (panicked: bool)
      modifies this`flags, this`ready
      ensures Applied(View(AtSave), panicked) == Request(old(View(AtSave)), k)
    {
      flags := flags + {k};
      panicked := SetReady(k);
    }

    method ProcessSaveStatus() returns (skip: bool, panicked: bool)
      modifies this
      ensures Applied(View(if skip then AtSave else AtStream), panicked) == Apply(old(View(AtSave)), None, false)
    {
      skip, panicked := false, false;
      if Save in flags {
        var task := TakeCompleted(Save);
        if task.None? {
          return !concurrent, false;
        }
        panicked := !initialized;
        flags := flags - {Save};
      }
    }

    method ProcessStreamStatus() returns (panicked: bool)
      modifies this
      ensures Applied(View(AtRecover), panicked) == Apply(old(View(AtStream)), None, false)
    {
      panicked := false;
      if Stream in flags {
        panicked := !onDisk;
        var task := TakeCompleted(Stream);
        if task.Some? {
          flags := flags - {Stream};
        }
      }
    }

    method ProcessRecoverStatus() returns (skip: bool, panicked: bool)
      modifies this
      ensures Applied(View(if skip then AtSave else AtUninitialized), panicked)
        == Apply(old(View(AtRecover)), None, false)
    {
      skip, panicked := false, false;
      if Recover in flags {
        var task := TakeCompleted(Recover);
        if task.None? {
          return true, false;
        }
        if task.value {
          panicked := initialized;
          initialized := true;
        }
        flags := flags - {Recover};
      }
    }

    method ProcessStatusTransition() returns (skip: bool, panicked: bool)
      modifies this
      ensures panicked == Pass(old(View(AtSave)), 4).panicked
      ensures !panicked ==> View(if skip then AtSave else AtTask) == Pass(old(View(AtSave)), 4).node
    {
      skip, panicked := ProcessSaveStatus();
      if skip || panicked {
        return;
      }
      assert Pass(old(View(AtSave)), 4) == Pass(View(AtStream), 3);
      panicked := ProcessStreamStatus();
      if panicked {
        return;
      }
      assert Pass(old(View(AtSave)), 4) == Pass(View(AtRecover), 2);
      skip, panicked := ProcessRecoverStatus();
      if skip || panicked {
        return;
      }
      assert Pass(old(View(AtSave)), 4) == Pass(View(AtUninitialized), 1);
      if !initialized {
        panicked := ReportRequest(Recover);
        return true, panicked;
      }
    }

    method HandleSnapshotTask(k: Kind, canStream: bool) returns (panicked: bool)
      modifies this
      ensures panicked == Apply(old(View(AtTask)), Some(k), canStream).panicked
      ensures !panicked ==> View(AtSave) == Apply(old(View(AtTask)), Some(k), canStream).node
      ensures !panicked ==>
                if k !in old(flags) && (k == Stream ==> canStream)
                then flags == old(flags) + {k} && ready == old(ready) + {k}
                else flags == old(flags) && ready == old(ready)
    {
      if Recover in flags {
        return true;
      }
      match k {
        case Recover => panicked := ReportRequest(Recover);
        case Save =>
          if Save in flags {
            return false;
          }
          panicked := ReportRequest(Save);
        case Stream =>
          if Stream in flags || !canStream {
            return false;
          }
          panicked := ReportRequest(Stream);
      }
    }
  }
}
