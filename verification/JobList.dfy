// mini_shell_game_queue.c: the linked list behind the job queue, with head, tail and length.
module JobList {
  import opened Wrappers

  // A queued attack; the id is its position in the order of sending.
  datatype Job = Job(id: nat, damage: real)

  class Node {
    var job: Job
    var next: Node?

    constructor (job: Job)
      ensures this.job == job && next == null
    {
      this.job := job;
      next := null;
    }
  }

  class List {
    var head: Node?
    var tail: Node?
    var queueLen: nat
    ghost var spine: seq<Node>  // the nodes from head to tail

    ghost predicate Valid()
      reads this, spine
    {
      && queueLen == |spine|
      && (forall i, j :: 0 <= i < j < |spine| ==> spine[i] != spine[j])
      && (if spine == [] then head == null && tail == null else head == spine[0] && tail == spine[|spine| - 1])
      && (forall i {:trigger spine[i].next} :: 0 <= i < |spine| ==>
            spine[i].next == if i + 1 < |spine| then spine[i + 1] else null)
    }

    ghost function Jobs(): (jobs: seq<Job>)
      reads this, spine
      ensures |jobs| == |spine|
    {
      seq(|spine|, i requires 0 <= i < |spine| reads this, spine => spine[i].job)
    }

    constructor ()
      ensures Valid() && Jobs() == [] && fresh(spine)
    {
      head, tail, queueLen := null, null, 0;
      spine := [];
    }

    // The list part of enqueue_job.
    method Append(job: Job)
      requires Valid()
      modifies this, spine
      ensures Valid() && Jobs() == old(Jobs()) + [job]
      ensures fresh(set n | n in spine && n !in old(spine))
    {
      var j := new Node(job);
      if tail != null {
        tail.next := j;
      } else {
        head := j;
      }
      tail := j;
      queueLen := queueLen + 1;
      spine := spine + [j];
    }

    // The list part of dequeue_job: the oldest job leaves; an empty list gives none.
    method Take() returns (r: Option<Job>)
      requires Valid()
      modifies this
      ensures Valid() && (forall n :: n in spine ==> n in old(spine))
      ensures old(Jobs()) == [] ==> r == None && Jobs() == []
      ensures old(Jobs()) != [] ==> r == Some(old(Jobs())[0]) && Jobs() == old(Jobs())[1..]
    {
      var j := head;
      if j == null {
        return None;
      }
      head := j.next;
      if head == null {
        tail := null;
      }
      queueLen := queueLen - 1;
      spine := spine[1..];
      return Some(j.job);
    }
  }
}
