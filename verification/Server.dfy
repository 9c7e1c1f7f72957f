/** The server's shared state: the queue and the count of jobs being handled. Each method is one
    critical section of the queue mutex and is proved to be the protocol step of the same name. */
module Server {
  import opened JobQueue
  import opened PoolProtocol

  class Pool {
    const waitingQueue: Queue
    var activeJobs: int

    ghost predicate Matches(s: State)
      reads this, waitingQueue, waitingQueue.spine
    {
      && waitingQueue.Valid() && waitingQueue.Requests() == s.queue
      && waitingQueue.maxSize == s.maxSize && activeJobs == s.active
    }

    constructor (queueSize: int, ghost workers: nat)
      ensures Matches(Start(workers, queueSize)) && fresh(waitingQueue)
    {
      waitingQueue := new Queue(queueSize);
      activeJobs := 0;
    }

    /** The first section of thread_function: sleep on an empty queue, or take the oldest job and signal
        the acceptor. */
    method WorkerTest(ghost s: State, ghost w: nat) returns (job: Job?, signal: bool)
      requires Enabled(s, PoolProtocol.WorkerTest(w)) && Matches(s)
      modifies this, waitingQueue, waitingQueue.head
      ensures Matches(Apply(s, PoolProtocol.WorkerTest(w)))
      ensures Apply(s, PoolProtocol.WorkerTest(w)).workers[w] == if job == null then Asleep else Running(job.request)
      ensures signal <==> job != null
      ensures Apply(s, PoolProtocol.WorkerTest(w)).acceptor == if signal then Roused(s.acceptor) else s.acceptor
    {
      var empty := waitingQueue.IsEmpty();
      if empty {
        return null, false;
      }
      job := waitingQueue.Dequeue();
      activeJobs := activeJobs + 1;
      signal := true;
    }

    /** The second section of thread_function, after the request has been handled: the acceptor is
        signalled again. */
    method WorkerDone(ghost s: State, ghost w: nat) returns (signal: bool)
      requires Enabled(s, PoolProtocol.WorkerDone(w)) && Matches(s)
      modifies this
      ensures Matches(Apply(s, PoolProtocol.WorkerDone(w)))
      ensures signal && Apply(s, PoolProtocol.WorkerDone(w)).acceptor == if signal then Roused(s.acceptor) else s.acceptor
    {
      activeJobs := activeJobs - 1;
      signal := true;
    }

    /** The admission test of the accept loop. */
    method AcceptorTest(ghost s: State) returns (full: bool)
      requires Enabled(s, PoolProtocol.AcceptorTest) && Matches(s)
      ensures Matches(Apply(s, PoolProtocol.AcceptorTest))
      ensures Apply(s, PoolProtocol.AcceptorTest).acceptor == if full then Waiting else Accepting
    {
      full := waitingQueue.currSize + activeJobs >= waitingQueue.maxSize;
    }

    /** The second section of the accept loop: add the job accepted in between and signal the workers. */
    method Enqueue(fd: int, arrival: int, ghost s: State, ghost woken: set<nat>) returns (signal: bool)
      requires Enabled(s, PoolProtocol.Enqueue(woken)) && Matches(s)
      requires s.acceptor.job == Request(fd, arrival)
      modifies this, waitingQueue, waitingQueue.tail
      ensures Matches(Apply(s, PoolProtocol.Enqueue(woken)))
      ensures signal && if signal then Signalled(s.workers, woken) else woken == {}
    {
      var job := new Job(fd, arrival);
      waitingQueue.Enqueue(job);
      signal := true;
    }
  }
}
