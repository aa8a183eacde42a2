/**
 The map from task id to the record pointers of the task, and what
 `callBackFunction` does to it when a record is finished.
 */
module PoolTable {
  import opened Options

  /** The pointer vector once `r` is deleted: its slot is empty, the others are kept. */
  function Cleared<R(==)>(slots: seq<Option<R>>, r: R): (cleared: seq<Option<R>>)
    ensures |cleared| == |slots|
    ensures forall i :: 0 <= i < |slots| ==> cleared[i] == if slots[i] == Some(r) then None else slots[i]
  {
    seq(|slots|, i requires 0 <= i < |slots| => if slots[i] == Some(r) then None else slots[i])
  }

  predicate SomePresent<R>(slots: seq<Option<R>>) {
    exists i :: 0 <= i < |slots| && slots[i].Some?
  }

  predicate AllPresent<R>(slots: seq<Option<R>>) {
    forall i :: 0 <= i < |slots| ==> slots[i].Some?
  }

  /** The map after `r` of task `t` is deleted: the entry goes with its last record. */
  function AfterFinish<R(==)>(tasks: map<nat, seq<Option<R>>>, t: nat, r: R): map<nat, seq<Option<R>>>
    requires t in tasks
  {
    var slots := Cleared(tasks[t], r);
    if SomePresent(slots) then tasks[t := slots] else tasks - {t}
  }
}
