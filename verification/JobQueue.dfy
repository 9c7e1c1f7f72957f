/** The server's queue of accepted connections: a singly linked list with a tail pointer. */
module JobQueue {
  datatype Request = Request(fd: int, arrival: int)

  class Job {
    const request: Request
    var next: Job?

    constructor (fd: int, arrival: int)
      ensures request == Request(fd, arrival) && next == null
    {
      request := Request(fd, arrival);
      next := null;
    }
  }

  ghost function RequestsOf(s: seq<Job>): (r: seq<Request>)
    ensures |r| == |s|
  {
    if s == [] then [] else [s[0].request] + RequestsOf(s[1..])
  }

  lemma {:induction false} RequestsSnoc(s: seq<Job>, job: Job)
    ensures RequestsOf(s + [job]) == RequestsOf(s) + [job.request]
  {
    if s != [] {
      RequestsSnoc(s[1..], job);
      assert (s + [job])[1..] == s[1..] + [job];
    }
  }

  class Queue {
    var currSize: int
    const maxSize: int
    var head: Job?
    var tail: Job?
    ghost var spine: seq<Job>

    static ghost function After(s: seq<Job>, i: nat): Job?
      requires i < |s|
    {
      if i + 1 < |s| then s[i + 1] else null
    }

    /** The jobs on the list, in order, are exactly the spine; head, tail and count agree with it. */
    ghost predicate Valid()
      reads this, spine
    {
      && currSize == |spine|
      && head == (if spine == [] then null else spine[0])
      && tail == (if spine == [] then null else spine[|spine| - 1])
      && (forall i, j :: 0 <= i < j < |spine| ==> spine[i] != spine[j])
      && (forall i :: 0 <= i < |spine| ==> spine[i].next == After(spine, i))
    }

    ghost function Requests(): (r: seq<Request>)
      reads this
      ensures |r| == |spine|
    {
      RequestsOf(spine)
    }

    constructor (size: int)
      ensures Valid() && maxSize == size && spine == []
    {
      currSize := 0;
      maxSize := size;
      head := null;
      tail := null;
      spine := [];
    }

    method IsEmpty() returns (b: bool)
      requires Valid()
      ensures b <==> Requests() == []
    {
      b := head == null;
    }

    method Enqueue(job: Job)
      requires Valid() && job !in spine && job.next == null
      modifies this, tail
      ensures Valid() && spine == old(spine) + [job]
      ensures Requests() == old(Requests()) + [job.request]
    {
      RequestsSnoc(spine, job);
      if tail == null {
        head := job;
        tail := job;
      } else {
        tail.next := job;
        tail := job;
      }
      spine := spine + [job];
      currSize := currSize + 1;
    }

    /** The oldest job, cut loose from the list, or null exactly when there is none. */
    method Dequeue() returns (job: Job?)
      requires Valid()
      modifies this, head
      ensures Valid()
      ensures job == null <==> old(spine) == []
      ensures job == null ==> spine == old(spine)
      ensures job != null ==> job.next == null && old(spine) == [job] + spine && job !in spine
      ensures job != null ==> old(Requests()) == [job.request] + Requests()
    {
      if currSize == 0 || head == null {
        return null;
      }
      job := head;
      assert job.next == After(spine, 0);
      head := head.next;
      if head == null {
        tail := null;
      }
      currSize := currSize - 1;
      ghost var rest := spine[1..];
      assert forall i :: 0 <= i < |rest| ==> rest[i] == spine[i + 1] && rest[i] != job && After(rest, i) == After(spine, i + 1);
      job.next := null;
      spine := rest;
    }
  }
}
