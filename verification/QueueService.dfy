/** The facade over the verification queue. A failure to enqueue is logged and forgotten, but may be a late success. */
module QueueService {

  import opened WriterProtocol
  import opened SystemProtocol

  class QueueService {
    var jobs: map<string, string>
    var lateJobs: multiset<string>

    constructor ()
      ensures jobs == map[] && lateJobs == multiset{}
    {
      jobs, lateJobs := map[], multiset{};
    }

    method EnqueueVerification(logEntryId: string, outcome: Outcome)
      modifies this
      ensures jobs == if outcome.Applied? then JobAdd(old(jobs), logEntryId) else old(jobs)
      ensures lateJobs == if outcome.Late? then old(lateJobs) + multiset{logEntryId} else old(lateJobs)
    {
      match outcome
      case Applied => Add(logEntryId);
      case Dropped =>
      case Late => lateJobs := lateJobs + multiset{logEntryId};
    }

    /** The queue keeps one job per job id. */
    method Add(logEntryId: string)
      modifies this`jobs
      ensures jobs == JobAdd(old(jobs), logEntryId)
    {
      var jobId := JobId(logEntryId);
      if jobId !in jobs {
        jobs := jobs[jobId := logEntryId];
      }
    }

    // ----- What the queue and the worker do on their own -----

    method Deliver(logEntryId: string)
      requires logEntryId in lateJobs
      modifies this
      ensures jobs == JobAdd(old(jobs), logEntryId) && lateJobs == old(lateJobs) - multiset{logEntryId}
    {
      Add(logEntryId);
      lateJobs := lateJobs - multiset{logEntryId};
    }

    method Take(jobId: string)
      modifies this
      ensures jobs == old(jobs) - {jobId} && lateJobs == old(lateJobs)
    {
      jobs := jobs - {jobId};
    }
  }
}
